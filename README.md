# GenSpeak practice and progress logic in Dafny

GenSpeak is a language-learning web application. Its browser front end
(`app.js`) walks the learner through a lesson's words. The learner speaks each
word, and a small heuristic scores the utterance against the target word. Its
back end (`server.js`) stores accounts, serves lessons and canned translations,
and updates a user's streak, rolling accuracy and lesson count each time a
lesson is completed.

The project models four things:

- **`Text`** (`text.dfy`): the string builtins the scorer relies on, on ASCII.
  These are `trim`, `toLowerCase`, deletion of `. , ! ?` and `includes`.
  - `trim` scans for the first and the last non-space character and keeps
    the slice between them.
  - `trim` and `includes` each have an independent reference definition
    (`TrimmedAt`, `Occurs`) and lemmas linking the two.
  - `toLowerCase` is pinned character by character by its own contract. The
    mark filter's contract says what survives; together with
    `RemovePunctuationAppend` and `RemovePunctuationMark` it fixes the result,
    including the order of the kept characters.
  - Further lemmas show, for example, that trimming and lower-casing commute.
- **`Scorer`** (`scorer.dfy`): `evaluateSpeech`. The rules are:
  - an exact match after normalisation scores 100;
  - an utterance containing the target minus its last character scores 85;
  - otherwise the score is the recogniser's confidence;
  - the score then falls into one of three feedback tiers.
- **`Practice`** (`practice.dfy`): the practice page's session state machine.
  - Pure transition functions (`Start`, `SkipStep`, `RecordStep`) carry the
    invariants and the lemmas.
  - The class `PracticeSession` holds the page's module-level variables
    (`practiceWords`, `currentIndex`, `lessonCompleted`, `wordsSpoken`).
  - Its handlers update those fields in place, and each is proved to follow
    its transition function.
- **`Catalog`** and **`Accounts`** (`catalog.dfy`, `accounts.dfy`): the REST
  handlers.
  - Lesson lookup and translation are pure lookups in fixed maps.
  - The user table is a class with a `map` field, keyed by e-mail.
  - Signup, login, get-user and progress are methods on that class. They state
    which entry changes and that nothing else does.
  - The progress rule (streak, rounded two-point average, lesson counter) is a
    function. A lemma shows that repeating it over a run of practice days
    gives a streak equal to the number of consecutive calendar days ending at
    the last one.

`Replies` (`replies.dfy`) holds `Option`, the HTTP `Failure` (status and
message) and `Result`.

### Behaviour of the code worth knowing

- `evaluateSpeech` does not clamp the fallback score (app.js:281). A
  confidence outside [0, 100] is passed through unchanged, so
  `Scorer.Accuracy` states its range only for confidences in [0, 100].
- Only the skip path checks the ⌈n/2⌉ gate (app.js:205). The success path
  completes at the last word unconditionally (app.js:299-300); see
  `Practice.SuccessBypassesGate`.
- `last_active` is overwritten with today's date unconditionally
  (server.js:133). `Accounts.ApplyProgress` states exactly that, so the date
  only moves forward while the server's clock does.

## Model

| member | source | states |
|---|---|---|
| Text.Lower | app.js:272-273 | lower-casing keeps the length, turns each capital into its small letter (code point + 32), leaves no capital letter and changes no other character |
| Text.LowerIdempotent | app.js:173-174 | lower-casing twice equals lower-casing once, so the callback's extra `toLowerCase` is harmless |
| Text.Trim | app.js:272-273 | the result is the slice of the input that starts and ends with a non-space, with only white space cut on either side |
| Text.TrimUnique | app.js:272-273 | any slice with that property is the trimmed string, so `Trim` is determined by its contract |
| Text.TrimLowerCommute | app.js:272-273 | trimming and lower-casing commute, so `toLowerCase().trim()` and `trim().toLowerCase()` agree |
| Text.RemovePunctuation | app.js:272-273 | the result has no `. , ! ?`, never grows, holds only characters of the input, and equals the input when it has no marks |
| Text.RemovePunctuationAppend | app.js:272-273 | deleting marks distributes over concatenation |
| Text.Includes | app.js:278 | the empty pattern is always included, and a pattern longer than the text never is |
| Text.IncludesIffOccurs | app.js:278 | `includes` holds exactly when the pattern occurs at some position of the text |
| Text.EmptyOccurs | app.js:278 | the empty string is included in every text |
| Scorer.Normalize | app.js:272-273 | normalised text never grows and contains no capital letter and no `. , ! ?` |
| Scorer.DropLast | app.js:278 | `substring(0, length - 1)` is the text minus its last character, and empty for the empty text |
| Scorer.Accuracy | app.js:272-282 | equal normalised texts score 100; otherwise an utterance containing the normalised target minus its last character scores 85; otherwise the score is the confidence; the score is in [0,100] when the confidence is |
| Scorer.Evaluate | app.js:272-287 | the result carries the accuracy of the two texts and the tier that score falls in: "Perfect" iff at least 90, "needs improvement" iff above 60 and below 90, "Try again" iff at most 60 |
| Scorer.TierOf | app.js:284-287 | "Perfect" iff the score is at least 90, "needs improvement" iff it is above 60 and below 90, "Try again" iff it is at most 60 |
| Scorer.ShortTargetScoresNear | app.js:278-279 | a normalised target of at most one character makes every non-exact utterance score 85 |
| Scorer.AccuracyIgnoresCase | app.js:173-174 | lower-casing both texts before scoring does not change the score |
| Scorer.SixtyIsTryAgainButSpoken | app.js:286-287 | a score of exactly 60 is in the "Try again" tier and still counts as a spoken word |
| Scorer.NormalizePlain | app.js:272-273 | a non-empty word with no surrounding space, capitals or marks is already normal |
| Scorer.MisspeltExample | app.js:276-287 | "helo" against "hello" at confidence 40 scores 40, "Try again" |
| Scorer.PrefixOccursInExtension | app.js:278 | an utterance that starts with the whole target contains the target minus its last character |
| Scorer.NormalizeTrailingMark | app.js:272 | a mark after a space leaves the space behind: "hello ." normalises to "hello " |
| Scorer.TrailingMarkScoresNear | app.js:276-279 | so "hello ." against "hello" scores 85 and not 100, whatever the confidence |
| Practice.CeilHalf | app.js:205 | `Math.ceil(n / 2)`: twice the result is n or n + 1 |
| Practice.Start | app.js:141-158 | a fresh page with a saved list starts at word 0, not completed, nothing spoken, nothing reported, and keeps whether a recogniser exists; without one the list is empty; the session invariant holds |
| Practice.SkipStep | app.js:201-218 | skip never changes the spoken count; it is a no-op after completion; before the last word it advances by one; at the end it completes iff at least ⌈n/2⌉ words were spoken, moving one past the last word and reporting 100 once, and otherwise rewinds to word 0; the invariant is preserved |
| Practice.Complete | app.js:223-243 | completing sets the flag and appends one report of 100; nothing else in the session changes |
| Practice.Heard | app.js:172-177 | a result is scored exactly when a recogniser exists, the lesson is not complete and there is a current word |
| Practice.HeardScoresAsGiven | app.js:172-177 | the callback's scores equal the scorer applied to the texts as heard |
| Practice.Advance | app.js:297-304 | the delayed step moves to the next word, keeps the word list and spoken count, and completes (reporting 100) exactly when it passes the last word |
| Practice.Respond | app.js:295-305 | a score below 60 changes nothing; a score of at least 60 adds one spoken word and advances one word, and at the end of the list completes and reports 100; the invariant is preserved |
| Practice.RecordStep | app.js:194-199 | a click when recording is not possible changes nothing; otherwise the session moves as the scored response says; the invariant is preserved |
| Practice.RecordByScore | app.js:295-305 | in terms of the score of the current word: below 60 nothing changes; at 60 or more the spoken count and the index each grow by exactly one, and the lesson completes (reporting 100) exactly when that was the last word |
| Practice.RunKeepsInv | app.js:153-158 | every sequence of skips and recordings keeps the session invariant: while running, the index names a word or is 0 |
| Practice.CompletedIsFinal | app.js:195-202 | once complete, no sequence of skips and recordings changes the session |
| Practice.ReportsOnceOnCompletion | app.js:223-243 | from page load, for every sequence of atomic skips and recordings, the page has reported exactly one score of 100 if the lesson completed and none otherwise |
| Practice.SkipGate | app.js:204-214 | skipping past the last word with ⌈n/2⌉ - 1 spoken words rewinds to word 0; with ⌈n/2⌉ it completes |
| Practice.SuccessBypassesGate | app.js:299-300 | saying the last word right completes the lesson even when fewer than ⌈n/2⌉ words were spoken |
| Practice.EmptyLessonSkipCompletes | app.js:201-206 | without a saved list, a single skip completes the lesson and reports 100 |
| Practice.PracticeSession.constructor | app.js:141-158 | the page's variables start as `Start` says |
| Practice.PracticeSession.ShowLessonComplete | app.js:223-244 | sets the completed flag and reports 100, nothing else |
| Practice.PracticeSession.OnSkip | app.js:201-218 | the skip handler updates the fields in place exactly as `SkipStep` says and keeps the invariant |
| Practice.PracticeSession.OnRecord | app.js:172-177 | the click plus recogniser result returns the evaluation `Heard` gives and updates the fields exactly as `RecordStep` says |
| Practice.PracticeSession.CountSpokenWord | app.js:295-305 | the end of `evaluateSpeech` updates the fields exactly as `Respond` says and keeps the invariant |
| Catalog.LessonsFor | server.js:94-102 | the lessons are returned iff the lower-cased code is in the table, and they are that entry; otherwise the reply is 404 "Language not found" |
| Catalog.LessonsIgnoreCase | server.js:96 | upper- and lower-case language codes get the same reply |
| Catalog.Translate | server.js:140-153 | a known phrase, after lower-casing and trimming, gets its table entry; any other text gets the hint message, which quotes the text as sent |
| Catalog.TranslateIgnoresCaseAndSpace | server.js:151 | texts with the same lower-cased, trimmed key get the same translation when that key is in the table |
| Catalog.ThankYouKey | server.js:151 | " Thank You " is looked up under "thank you" |
| Catalog.ThankYouExample | server.js:144-152 | " Thank You " is answered with the "thank you" entry |
| Accounts.Public | server.js:50-51 | the reply copies every column of the row except the password |
| Accounts.PublicHidesPassword | server.js:73-74 | the reply does not depend on the stored password |
| Accounts.NewStreak | server.js:117-126 | practising on the last active day keeps the streak, on the day after it adds one, and otherwise (including never before) restarts it at 1 |
| Accounts.RollingAccuracy | server.js:128 | the new accuracy is the mean of old and submitted rounded half up, and lies between the two |
| Accounts.RollingAccuracyInRange | server.js:128 | two accuracies in [0,100] average to one in [0,100] |
| Accounts.RollingAccuracyExample | server.js:128 | 70 and 100 give 85 |
| Accounts.ApplyProgress | server.js:117-134 | the new record has the new streak and accuracy, one more completed lesson and today as last-active day, with name, e-mail, password and plan unchanged |
| Accounts.StreakCountsConsecutiveDays | server.js:117-134 | from a fresh account, after progress on non-decreasing days the streak is the number of consecutive days ending at the last one that each saw a practice, the lesson count grew by the number of updates, and the last-active day is the last day |
| Accounts.UserStore.constructor | server.js:14 | the table starts empty |
| Accounts.UserStore.Signup | server.js:26-53 | a missing or empty field gives 400 "All fields are required." and a known e-mail gives 400 "Email already registered.", both with the table unchanged; otherwise exactly one Free, zeroed, never-active row is added under the e-mail and returned without its password |
| Accounts.UserStore.Login | server.js:56-76 | succeeds iff the e-mail is known and the password check accepts the stored credential, returning the row for that e-mail without its password; otherwise 401 "Invalid credentials"; the table is not modified |
| Accounts.UserStore.SignupHashed | server.js:41-45 | the corrected signup: the same replies and table changes as `Signup`, except that the new row keeps the hash of the password |
| Accounts.SignupThenLoginAsWritten | server.js:43-69 | with the code as written, signing up and then logging in with the same password is refused whenever the password is not itself a 60-character string and the password check rejects non-hashes |
| Accounts.SignupThenLoginCorrected | server.js:41-76 | with the corrected signup, signing up and logging in with the same password succeeds and returns that user's record |
| Accounts.UserStore.GetUser | server.js:78-91 | succeeds iff the e-mail is known, returning the row for that e-mail without its password; otherwise 404 "User not found"; the table is not modified |
| Accounts.UserStore.Progress | server.js:105-137 | an unknown e-mail gives 401 "User not found" with the table unchanged; otherwise only that user's row changes, to `ApplyProgress` of it, and the reply carries the new accuracy, streak and lesson count |

## Left out

- DOM rendering, page routing, `localStorage` and the login and dashboard
  pages (app.js:5-138, 246-259, 329-375). These are browser UI. A saved word
  list is an input to `Start`.
- The Web Speech API (app.js:165-192, 261-267). The recogniser's transcript
  and confidence are plain inputs, and "a recogniser exists" is a flag.
  Recognition errors and speech synthesis are not modelled.
- `setTimeout` (app.js:252, 297). A spoken word's delayed advance is taken in
  the same step as the score. Skips or further results arriving in the
  two-second window are event-loop interleavings and are not modelled.
- Practice.PracticeSession.OnRecord: a record click and the recogniser's
  result for it are one atomic step (`Event.Record`). In the page they are
  two events, and a skip can come between them while the recogniser is
  listening. The skip moves `currentIndex` first (app.js:203, 212), so
  `onresult` then scores the utterance against the next word, or against
  word 0 after a rewind (app.js:174). A score of 60 or more is counted and
  advances from that word (app.js:295-298). This interleaving is not
  modelled.
- `updateProgressScore` and all `fetch` calls (app.js:308-327) are network
  I/O. The `reports` log records the scores passed to
  `updateProgressScore`, not requests sent: with no user stored the function
  returns without sending anything (app.js:309-310), and the practice page
  does not require a login (app.js:7, 19-21).
- Express routing, CORS, the Supabase client and `fs.readFileSync`
  (server.js:1-19, 155-157). The user table and the lesson data are Dafny
  maps. Replies are `Result` values carrying the HTTP status and message.
- A database error on insert (status 500, server.js:47-48) is not modelled,
  because the map insert cannot fail.
- `bcrypt.compare` (server.js:69) is the function parameter `matches` of
  `UserStore.Login`, and `bcrypt.hash` is the parameter `hash` of
  `UserStore.SignupHashed`. The only property of bcrypt the model uses is
  that a stored value that is not a 60-character hash never matches
  (`RejectsNonHashes`); salting and the hash format are not modelled.
  `SignupThenLoginCorrected` also assumes that a password matches its own
  hash, `matches(password, hash(password))`, as its precondition.
- Wall-clock dates and time zones (server.js:21-23, 122-124). Days are
  integers, yesterday is `today - 1`, and the empty `last_active` is `Never`.
- Floating point and parsing. `Math.round(confidence * 100)` (app.js:281) is
  taken as an already-rounded integer percent. `parseInt(accuracy)`
  (server.js:128) is taken as an integer, so a non-numeric body (NaN) is not
  modelled.
- The `|| 0` and `|| ''` defaults for null columns (server.js:118-119, 129).
  Rows always hold values, so the defaults never apply.
- Unicode. `trim` and `toLowerCase` are modelled on ASCII letters plus the
  common white-space characters.
- JavaScript object-lookup quirks. Lookups such as `db.lessons["constructor"]`
  reaching inherited properties are not modelled: the lesson table and the
  translation table are plain maps.
- Request bodies. Signup's fields are `Option`s, where absent or empty means
  missing. Login, get-user and progress take the e-mail as a string, because
  an absent e-mail matches no row.
- Catalog.Translate: a request without `text` throws at `text.toLowerCase()`
  (server.js:151), and Express answers with a 500 error. The model takes the
  text as a string, so that path is not modelled.
- Accounts.UserStore.Login: a login with a known e-mail and no password makes
  `bcrypt.compare` reject (server.js:69). The async handler has no catch, so
  no reply is sent. The model takes the password as a string, so that path is
  not modelled.
- Practice.ReportsOnceOnCompletion: holds only for atomic steps. Two
  event-loop interleavings in the real page report 100 twice, and neither is
  modelled:
  - A second record click during the two-second window after the last word
    scored at least 60 passes the guard, because `lessonCompleted` is still
    false (app.js:195). If it also scores at least 60, `evaluateSpeech`
    counts `wordsSpoken` a second time and schedules a second advance. The
    first timer completes the lesson. The second raises `currentIndex` to
    n + 1 and calls `showLessonComplete` again (app.js:295-300, 223-243).
  - A skip clicked in that window completes the lesson at once when enough
    words were spoken (app.js:203-206). The pending timer then raises
    `currentIndex` to n + 1 and calls `showLessonComplete` again
    (app.js:298-300). Here `wordsSpoken` is counted once.
- Scorer.Accuracy: states the score range only for confidences in [0, 100].
  The code passes any other confidence through unchanged.
- The other server variant `server (1).js`, which uses a JSON-file user
  store, is not part of this model.

## Findings

| source | as written | input that shows it | evidently intended | confidence | as-written member | corrected member |
|---|---|---|---|---|---|---|
| server.js:43-69 | signup inserts the password as sent, while login checks it with `bcrypt.compare` against the stored value | sign up with any password that is not 60 characters long, then log in with the same e-mail and password: the login is refused with 401 "Invalid credentials" | signup stores `bcrypt.hash(password)` | medium, not executed; relies on bcryptjs refusing a stored value that is not a hash | Accounts.SignupThenLoginAsWritten | Accounts.SignupThenLoginCorrected |
