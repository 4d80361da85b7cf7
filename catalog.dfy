/**
 * The read-only content the back end serves: the lesson table keyed by
 * language code and the canned phrase translations.
 */
module Catalog {
  import opened Text
  import opened Replies

  datatype Word = Word(word: string, meaning: string, pronunciation: string)

  datatype Lesson = Lesson(
    id: nat, level: string, title: string, lang: string,
    words: seq<Word>, sentences: seq<string>)

  /** The `lessons` object of the lesson data file, by language code. */
  type LessonTable = map<string, seq<Lesson>>

  const LanguageNotFound := Failure(404, "Language not found")

  /** `GET /api/lessons/:language`: the code is lower-cased before the lookup. */
  function LessonsFor(db: LessonTable, language: string): (r: Result<seq<Lesson>>)
    ensures r.Ok? <==> Lower(language) in db
    ensures r.Ok? ==> r.value == db[Lower(language)]
    ensures r.Err? ==> r.failure == LanguageNotFound
  {
    var lang := Lower(language);
    if lang in db then Ok(db[lang]) else Err(LanguageNotFound)
  }

  /** Asking for "ES" or "es" gives the same answer. */
  lemma LessonsIgnoreCase(db: LessonTable, language: string)
    ensures LessonsFor(db, Lower(language)) == LessonsFor(db, language)
  {
    LowerIdempotent(language);
  }

  const Translations: map<string, string> := map[
    "hello" := "Hola (Spanish) / Bonjour (French) / Namaste (Hindi)",
    "thank you" := "Gracias (Spanish) / Merci (French) / Dhanyavaad (Hindi)",
    "goodbye" := "Adiós (Spanish) / Au revoir (French) / Alvida (Hindi)",
    "yes" := "Sí (Spanish) / Oui (French) / Haan (Hindi)",
    "no" := "No (Spanish) / Non (French) / Nahi (Hindi)",
    "water" := "Agua (Spanish) / Eau (French) / Paani (Hindi)",
    "food" := "Comida (Spanish) / Nourriture (French) / Khaana (Hindi)"
  ]

  /** The key looked up: the text lower-cased, then trimmed. */
  function TranslationKey(text: string): string {
    Trim(Lower(text))
  }

  /** The reply on a miss quotes the text exactly as it was sent. */
  function NoTranslation(text: string): string {
    "No translation found for \"" + text + "\". Try: hello, thank you, goodbye, water, food"
  }

  /** `POST /api/translate`: never fails; a miss gets the canned hint instead of an error. */
  function Translate(text: string): (r: string)
    ensures TranslationKey(text) in Translations ==> r == Translations[TranslationKey(text)]
    ensures TranslationKey(text) !in Translations ==> r == NoTranslation(text) && Occurs(r, text)
  {
    var key := TranslationKey(text);
    if key in Translations then Translations[key]
    else
      var prefix := "No translation found for \"";
      assert NoTranslation(text)[|prefix|..|prefix| + |text|] == text;
      assert OccursAt(NoTranslation(text), text, |prefix|);
      NoTranslation(text)
  }

  /** Texts that differ only in capitals and surrounding space get the same translation when that key is in the table. */
  lemma TranslateIgnoresCaseAndSpace(a: string, b: string)
    requires TranslationKey(a) == TranslationKey(b)
    requires TranslationKey(a) in Translations
    ensures Translate(a) == Translate(b)
  {
  }

  /** " Thank You " is looked up under "thank you" ... */
  lemma ThankYouKey(text: string)
    requires text == " Thank You "
    ensures TranslationKey(text) == "thank you"
  {
    var lowered := " thank you ";
    assert Lower(text) == lowered;
    var core := lowered[1..10];
    assert core[0] == 't' && core[|core| - 1] == 'u';
    assert TrimmedAt(lowered, core, 1);
    TrimUnique(lowered, core, 1);
  }

  /** The table's "thank you" entry. */
  lemma ThankYouEntry(key: string)
    requires key == "thank you"
    ensures key in Translations
    ensures Translations[key] == "Gracias (Spanish) / Merci (French) / Dhanyavaad (Hindi)"
  {
  }

  /** ... and so is answered with the "thank you" entry. */
  lemma ThankYouExample(text: string)
    requires text == " Thank You "
    ensures Translate(text) == "Gracias (Spanish) / Merci (French) / Dhanyavaad (Hindi)"
  {
    ThankYouKey(text);
    ThankYouEntry(TranslationKey(text));
  }
}
