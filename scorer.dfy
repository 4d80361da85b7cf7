/**
 * The pronunciation scorer of the practice page (`evaluateSpeech`): it compares
 * what the recogniser heard with the target word and grades the attempt.
 */
module Scorer {
  import opened Text

  /** Scores at or above this count as a spoken word and advance the lesson. */
  const SpokenThreshold := 60
  const ExactScore := 100
  const NearScore := 85

  datatype Tier = Perfect | NeedsImprovement | TryAgain

  datatype Evaluation = Evaluation(accuracy: int, tier: Tier)

  /**
   * Trim, lower-case, then delete `. , ! ?`, in that order. Because the marks are
   * deleted after trimming, white space next to a deleted mark can remain.
   */
  function Normalize(s: string): (r: string)
    ensures |r| <= |s|
    ensures forall i :: 0 <= i < |r| ==> !IsUpper(r[i]) && !IsPunctuation(r[i])
  {
    RemovePunctuation(Lower(Trim(s)))
  }

  /** `t.substring(0, t.length - 1)`: everything but the last character; the empty string stays empty. */
  function DropLast(t: string): (r: string)
    ensures t == [] ==> r == []
    ensures t != [] ==> r + [t[|t| - 1]] == t
  {
    if t == [] then [] else t[..|t| - 1]
  }

  /**
   * The accuracy percentage. `confidence` is the recogniser's confidence already
   * scaled to a whole percent (`Math.round(confidence * 100)`).
   */
  function Accuracy(spoken: string, target: string, confidence: int): (r: int)
    ensures Normalize(spoken) == Normalize(target) ==> r == ExactScore
    ensures Normalize(spoken) != Normalize(target) && Occurs(Normalize(spoken), DropLast(Normalize(target)))
            ==> r == NearScore
    ensures Normalize(spoken) != Normalize(target) && !Occurs(Normalize(spoken), DropLast(Normalize(target)))
            ==> r == confidence
    ensures 0 <= confidence <= 100 ==> 0 <= r <= 100
  {
    var s, t := Normalize(spoken), Normalize(target);
    IncludesIffOccurs(s, DropLast(t));
    if s == t then ExactScore
    else if Includes(s, DropLast(t)) then NearScore
    else confidence
  }

  /** The feedback message band: the three tiers split the scale at 60 and 90. */
  function TierOf(accuracy: int): (r: Tier)
    ensures r == Perfect <==> accuracy >= 90
    ensures r == NeedsImprovement <==> 60 < accuracy < 90
    ensures r == TryAgain <==> accuracy <= 60
  {
    if accuracy >= 90 then Perfect
    else if accuracy > 60 then NeedsImprovement
    else TryAgain
  }

  /** What `evaluateSpeech` shows: the accuracy and the feedback band it falls in. */
  function Evaluate(spoken: string, target: string, confidence: int): (r: Evaluation)
    ensures r.accuracy == Accuracy(spoken, target, confidence)
    ensures r.tier == Perfect <==> r.accuracy >= 90
    ensures r.tier == NeedsImprovement <==> 60 < r.accuracy < 90
    ensures r.tier == TryAgain <==> r.accuracy <= 60
  {
    var a := Accuracy(spoken, target, confidence);
    Evaluation(a, TierOf(a))
  }

  predicate CountsAsSpoken(accuracy: int) {
    accuracy >= SpokenThreshold
  }

  /**
   * For a target of at most one character the prefix searched for is empty, so
   * every utterance that is not an exact match scores 85.
   */
  lemma ShortTargetScoresNear(spoken: string, target: string, confidence: int)
    requires |Normalize(target)| <= 1
    requires Normalize(spoken) != Normalize(target)
    ensures Accuracy(spoken, target, confidence) == NearScore
  {
    EmptyOccurs(Normalize(spoken));
  }

  lemma NormalizeLower(s: string)
    ensures Normalize(Lower(s)) == Normalize(s)
  {
    TrimLowerCommute(s);
    LowerIdempotent(Trim(s));
  }

  /** Lower-casing the texts before scoring them, as the recogniser callback does, changes nothing. */
  lemma AccuracyIgnoresCase(spoken: string, target: string, confidence: int)
    ensures Accuracy(Lower(spoken), Lower(target), confidence) == Accuracy(spoken, target, confidence)
    ensures Evaluate(Lower(spoken), Lower(target), confidence) == Evaluate(spoken, target, confidence)
  {
    NormalizeLower(spoken);
    NormalizeLower(target);
    // One case per scoring rule: each is settled by the contract of `Accuracy`.
    var s, t := Normalize(spoken), Normalize(target);
    if s == t {
    } else if Occurs(s, DropLast(t)) {
    } else {
    }
  }

  /** A score of exactly 60 lands in the "Try again" band yet counts as spoken. */
  lemma SixtyIsTryAgainButSpoken(spoken: string, target: string)
    requires Normalize(spoken) != Normalize(target)
    requires !Occurs(Normalize(spoken), DropLast(Normalize(target)))
    ensures Evaluate(spoken, target, 60).tier == TryAgain
    ensures CountsAsSpoken(Evaluate(spoken, target, 60).accuracy)
  {
  }

  /** A non-empty word with no surrounding space, capitals or marks. */
  predicate PlainWord(w: string) {
    && w != [] && !IsSpace(w[0]) && !IsSpace(w[|w| - 1])
    && forall i :: 0 <= i < |w| ==> !IsUpper(w[i]) && !IsPunctuation(w[i])
  }

  /** A plain word is already normal. */
  lemma NormalizePlain(s: string)
    requires PlainWord(s)
    ensures Normalize(s) == s
  {
    TrimNoSpaceEnds(s);
    LowerNoUpper(s);
  }

  /** "helo" and "hello" are plain words. */
  lemma HelloIsPlain(spoken: string, target: string)
    requires spoken == "helo" && target == "hello"
    ensures PlainWord(spoken) && PlainWord(target)
  {
  }

  /** "helo" against "hello" at confidence 40: "hell" is not in "helo", so the score is the confidence. */
  lemma MisspeltExample(spoken: string, target: string)
    requires spoken == "helo" && target == "hello"
    ensures Evaluate(spoken, target, 40) == Evaluation(40, TryAgain)
  {
    HelloIsPlain(spoken, target);
    NormalizePlain(spoken);
    NormalizePlain(target);
    assert DropLast(target) == "hell";
    assert spoken != "hell" by { assert spoken[3] != "hell"[3]; }
  }

  /** An utterance that starts with the whole target contains the target minus its last character. */
  lemma PrefixOccursInExtension(word: string, tail: string)
    ensures Occurs(word + tail, DropLast(word))
  {
    if word != [] {
      assert (word + tail)[0..|word| - 1] == DropLast(word);
    }
    assert OccursAt(word + tail, DropLast(word), 0);
  }

  /** A mark after a space leaves that space behind: "hello ." normalises to "hello ". */
  lemma NormalizeTrailingMark(word: string)
    requires PlainWord(word)
    ensures Normalize(word + " .") == word + " "
  {
    var head := word + " ";
    var spoken := head + ['.'];
    assert spoken == word + " .";
    TrimNoSpaceEnds(spoken);
    LowerNoUpper(spoken);
    RemovePunctuationAppend(head, ['.']);
    RemovePunctuationMark('.');
    assert RemovePunctuation(head) == head;
    assert RemovePunctuation(spoken) == head;
  }

  /**
   * So "hello ." against "hello" is not an exact match: it scores 85 and not
   * 100, whatever the confidence.
   */
  lemma TrailingMarkScoresNear(word: string, confidence: int)
    requires PlainWord(word)
    ensures Accuracy(word + " .", word, confidence) == NearScore
  {
    NormalizeTrailingMark(word);
    NormalizePlain(word);
    assert |word + " "| != |word|;
    PrefixOccursInExtension(word, " ");
  }
}
