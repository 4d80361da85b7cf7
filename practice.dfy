/**
 * The practice page: a session walks through a lesson's word list. A word
 * spoken well enough advances it, "skip" advances it without credit, and the
 * end of the list either completes the lesson or, for skips, rewinds it.
 *
 * The pure functions below give the session's transitions; the class
 * `PracticeSession` holds the page's module-level variables and updates them
 * in place, each handler proved to follow its function.
 */
module Practice {
  import opened Text
  import opened Replies
  import opened Scorer
  import Catalog

  type Word = Catalog.Word

  /** The score the page passes to `updateProgressScore` when a lesson completes. */
  const CompletionScore := 100

  /**
   * `practiceWords`, `currentIndex`, `lessonCompleted`, `wordsSpoken`, whether a
   * speech recogniser exists, and the scores passed to `updateProgressScore` so far.
   */
  datatype Session = Session(
    words: seq<Word>, index: nat, completed: bool, spoken: nat,
    recognizer: bool, reports: seq<int>)

  datatype Event = Skip | Record(utterance: string, confidence: int)

  /** `Math.ceil(n / 2)`. */
  function CeilHalf(n: nat): (r: nat)
    ensures n <= 2 * r <= n + 1
  {
    (n + 1) / 2
  }

  /**
   * While the lesson runs the index names a word (or is 0 for an empty list);
   * once complete it is past the end, and exactly one completion score was reported.
   */
  ghost predicate Inv(s: Session) {
    && (!s.completed ==> s.index == 0 || s.index < |s.words|)
    && (s.completed ==> s.index >= |s.words|)
    && s.reports == (if s.completed then [CompletionScore] else [])
  }

  /**
   * `initPracticeMode` on a fresh page: with a saved word list it starts at the
   * first word; without one the variables keep their initial values.
   */
  function Start(saved: Option<seq<Word>>, recognizer: bool): (s: Session)
    ensures s.index == 0 && !s.completed && s.spoken == 0 && s.reports == []
    ensures s.words == (if saved.Some? then saved.value else [])
    ensures s.recognizer == recognizer
    ensures Inv(s)
  {
    Session(if saved.Some? then saved.value else [], 0, false, 0, recognizer, [])
  }

  /** `showLessonComplete`: sets the flag and passes a score of 100 to `updateProgressScore`. */
  function Complete(s: Session): (r: Session)
    ensures r.completed && r.reports == s.reports + [CompletionScore]
    ensures r.(completed := s.completed, reports := s.reports) == s
  {
    s.(completed := true, reports := s.reports + [CompletionScore])
  }

  /** The skip button. */
  function SkipStep(s: Session): (r: Session)
    ensures r.words == s.words && r.spoken == s.spoken && r.recognizer == s.recognizer
    ensures s.completed ==> r == s
    ensures !s.completed && s.index + 1 < |s.words| ==> r == s.(index := s.index + 1)
    ensures !s.completed && s.index + 1 >= |s.words| ==>
              (r.completed <==> s.spoken >= CeilHalf(|s.words|))
    ensures !s.completed && s.index + 1 >= |s.words| && s.spoken >= CeilHalf(|s.words|) ==>
              r == s.(index := s.index + 1, completed := true, reports := s.reports + [CompletionScore])
    ensures !s.completed && s.index + 1 >= |s.words| && s.spoken < CeilHalf(|s.words|) ==>
              r == s.(index := 0)
    ensures Inv(s) ==> Inv(r)
  {
    if s.completed then s
    else if s.index + 1 >= |s.words| then
      if s.spoken >= CeilHalf(|s.words|) then Complete(s.(index := s.index + 1))
      else s.(index := 0)
    else s.(index := s.index + 1)
  }

  /** The record button's guard: a recogniser exists and the lesson is not complete. */
  predicate CanRecord(s: Session) {
    s.recognizer && !s.completed
  }

  /**
   * What the recogniser callback makes of an utterance: it reads the current
   * word (and throws, changing nothing, when there is none), lower-cases both
   * texts and scores them.
   */
  function Heard(s: Session, utterance: string, confidence: int): (r: Option<Evaluation>)
    ensures r.Some? <==> CanRecord(s) && s.index < |s.words|
  {
    if CanRecord(s) && s.index < |s.words| then
      Some(Evaluate(Lower(utterance), Lower(s.words[s.index].word), confidence))
    else None
  }

  lemma HeardIs(s: Session, utterance: string, confidence: int, e: Evaluation)
    requires CanRecord(s) && s.index < |s.words|
    requires e == Evaluate(Lower(utterance), Lower(s.words[s.index].word), confidence)
    ensures RecordStep(s, utterance, confidence) == Respond(s, e)
  {
  }

  /** The callback's lower-casing does not change the score. */
  lemma HeardScoresAsGiven(s: Session, utterance: string, confidence: int)
    requires CanRecord(s) && s.index < |s.words|
    ensures Heard(s, utterance, confidence) == Some(Evaluate(utterance, s.words[s.index].word, confidence))
  {
    AccuracyIgnoresCase(utterance, s.words[s.index].word, confidence);
  }

  /** The delayed step after a spoken word: next word, or completion with no threshold check. */
  function Advance(s: Session): (r: Session)
    ensures r.index == s.index + 1
    ensures r.words == s.words && r.spoken == s.spoken && r.recognizer == s.recognizer
    ensures s.index + 1 < |s.words| ==> r.completed == s.completed && r.reports == s.reports
    ensures s.index + 1 >= |s.words| ==> r.completed && r.reports == s.reports + [CompletionScore]
  {
    var t := s.(index := s.index + 1);
    if t.index >= |t.words| then Complete(t) else t
  }

  /** The end of `evaluateSpeech`: a score of 60 or more counts the word and moves on; anything less changes nothing. */
  function Respond(s: Session, e: Evaluation): (r: Session)
    ensures r.words == s.words && r.recognizer == s.recognizer
    ensures !CountsAsSpoken(e.accuracy) ==> r == s
    ensures CountsAsSpoken(e.accuracy) ==>
              && r.spoken == s.spoken + 1
              && r.index == s.index + 1
              && (r.completed <==> s.completed || s.index + 1 >= |s.words|)
              && r.reports == s.reports + (if s.index + 1 >= |s.words| then [CompletionScore] else [])
    ensures Inv(s) && !s.completed && s.index < |s.words| ==> Inv(r)
  {
    if CountsAsSpoken(e.accuracy) then Advance(s.(spoken := s.spoken + 1)) else s
  }

  /** A click on the record button followed by the recogniser's result. */
  function RecordStep(s: Session, utterance: string, confidence: int): (r: Session)
    ensures Heard(s, utterance, confidence).None? ==> r == s
    ensures Heard(s, utterance, confidence).Some? ==> r == Respond(s, Heard(s, utterance, confidence).value)
    ensures Inv(s) ==> Inv(r)
  {
    match Heard(s, utterance, confidence)
    case None => s
    case Some(e) => Respond(s, e)
  }

  /**
   * Recording is a no-op once the lesson is complete; otherwise, for the
   * current word, a score of at least 60 counts the word and advances (and at
   * the last word completes), and a lower score changes nothing.
   */
  lemma RecordByScore(s: Session, utterance: string, confidence: int)
    ensures !CanRecord(s) || s.index >= |s.words| ==> RecordStep(s, utterance, confidence) == s
    ensures CanRecord(s) && s.index < |s.words| ==>
              var a := Accuracy(utterance, s.words[s.index].word, confidence);
              var r := RecordStep(s, utterance, confidence);
              && (a < SpokenThreshold ==> r == s)
              && (a >= SpokenThreshold ==>
                    && r.spoken == s.spoken + 1
                    && r.index == s.index + 1
                    && (r.completed <==> s.index + 1 == |s.words|)
                    && r.reports == s.reports + (if r.completed then [CompletionScore] else []))
  {
    if CanRecord(s) && s.index < |s.words| {
      HeardScoresAsGiven(s, utterance, confidence);
    }
  }

  function Step(s: Session, e: Event): Session {
    match e
    case Skip => SkipStep(s)
    case Record(utterance, confidence) => RecordStep(s, utterance, confidence)
  }

  /** The session after a sequence of user actions. */
  function Run(s: Session, events: seq<Event>): Session
    decreases |events|
  {
    if events == [] then s else Run(Step(s, events[0]), events[1..])
  }

  lemma {:induction false} RunKeepsInv(s: Session, events: seq<Event>)
    requires Inv(s)
    ensures Inv(Run(s, events))
    decreases |events|
  {
    if events != [] {
      RunKeepsInv(Step(s, events[0]), events[1..]);
    }
  }

  /** Once complete, no action changes anything: the flag is only cleared by a new page. */
  lemma {:induction false} CompletedIsFinal(s: Session, events: seq<Event>)
    requires s.completed
    ensures Run(s, events) == s
    decreases |events|
  {
    if events != [] {
      CompletedIsFinal(Step(s, events[0]), events[1..]);
    }
  }

  /**
   * For every sequence of atomic skips and recordings from page load, the
   * page has reported a score of 100 exactly once if the lesson completed and
   * never otherwise.
   */
  lemma ReportsOnceOnCompletion(saved: Option<seq<Word>>, recognizer: bool, events: seq<Event>)
    ensures var s := Run(Start(saved, recognizer), events);
            s.reports == if s.completed then [CompletionScore] else []
  {
    RunKeepsInv(Start(saved, recognizer), events);
  }

  /** A skip-driven pass through n words completes exactly when ceil(n/2) words were spoken. */
  lemma SkipGate(s: Session)
    requires !s.completed && |s.words| > 0 && s.index == |s.words| - 1
    ensures s.spoken == CeilHalf(|s.words|) - 1 ==> !SkipStep(s).completed && SkipStep(s).index == 0
    ensures s.spoken == CeilHalf(|s.words|) ==> SkipStep(s).completed
  {
  }

  /**
   * Saying the last word right completes the lesson even when fewer than
   * ceil(n/2) words were spoken: the success path has no threshold check.
   */
  lemma SuccessBypassesGate(s: Session, confidence: int)
    requires CanRecord(s) && |s.words| > 0 && s.index == |s.words| - 1
    requires s.spoken + 1 < CeilHalf(|s.words|)
    ensures var r := RecordStep(s, s.words[s.index].word, confidence);
            r.completed && r.spoken < CeilHalf(|r.words|)
  {
    RecordByScore(s, s.words[s.index].word, confidence);
  }

  /** Without a saved lesson the word list is empty, and a single skip completes and reports 100. */
  lemma EmptyLessonSkipCompletes(recognizer: bool)
    ensures var r := SkipStep(Start(None, recognizer));
            r.completed && r.reports == [CompletionScore]
  {
  }

  /** The module-level variables of the practice page and its handlers. */
  class PracticeSession {
    var practiceWords: seq<Word>
    var currentIndex: nat
    var lessonCompleted: bool
    var wordsSpoken: nat
    var hasRecognizer: bool
    var progressReports: seq<int>

    function State(): Session
      reads this
    {
      Session(practiceWords, currentIndex, lessonCompleted, wordsSpoken, hasRecognizer, progressReports)
    }

    ghost predicate Valid()
      reads this
    {
      Inv(State())
    }

    /** Page load followed by `initPracticeMode`. */
    constructor (saved: Option<seq<Word>>, speechApi: bool)
      ensures State() == Start(saved, speechApi) && Valid()
    {
      practiceWords, currentIndex, lessonCompleted, wordsSpoken := [], 0, false, 0;
      progressReports := [];
      hasRecognizer := speechApi;
      if saved.Some? {
        practiceWords := saved.value;
        currentIndex := 0;
        lessonCompleted := false;
        wordsSpoken := 0;
      }
    }

    method ShowLessonComplete()
      modifies this
      ensures State() == Complete(old(State()))
    {
      lessonCompleted := true;
      progressReports := progressReports + [CompletionScore];
    }

    /** The skip button's click handler. */
    method OnSkip()
      requires Valid()
      modifies this
      ensures State() == SkipStep(old(State())) && Valid()
    {
      if lessonCompleted {
        return;
      }
      currentIndex := currentIndex + 1;
      if currentIndex >= |practiceWords| {
        if wordsSpoken >= CeilHalf(|practiceWords|) {
          ShowLessonComplete();
        } else {
          currentIndex := 0;
        }
      }
    }

    /**
     * The record button's click handler, the recogniser's result and
     * `evaluateSpeech`, with the delayed advance taken at once.
     */
    method OnRecord(utterance: string, confidence: int) returns (e: Option<Evaluation>)
      requires Valid()
      modifies this
      ensures e == Heard(old(State()), utterance, confidence)
      ensures State() == RecordStep(old(State()), utterance, confidence) && Valid()
    {
      ghost var before := State();
      if !hasRecognizer || lessonCompleted {
        return None;
      }
      if currentIndex >= |practiceWords| {
        return None;
      }
      var spoken := Lower(utterance);
      var target := Lower(practiceWords[currentIndex].word);
      var evaluation := Evaluate(spoken, target, confidence);
      e := Some(evaluation);
      HeardIs(before, utterance, confidence, evaluation);
      CountSpokenWord(evaluation);
    }

    /** The end of `evaluateSpeech`: count the word and move on when the score is at least 60. */
    method CountSpokenWord(evaluation: Evaluation)
      requires Valid() && !lessonCompleted && currentIndex < |practiceWords|
      modifies this
      ensures State() == Respond(old(State()), evaluation) && Valid()
    {
      if evaluation.accuracy >= SpokenThreshold {
        wordsSpoken := wordsSpoken + 1;
        currentIndex := currentIndex + 1;
        if currentIndex >= |practiceWords| {
          ShowLessonComplete();
        }
      }
    }
  }
}
