/**
 * The back end's account store: one record per e-mail address, created by
 * signup, read by login and the stats lookup, and updated by the progress
 * endpoint with the streak, rolling-accuracy and lesson-counter rule.
 */
module Accounts {
  import opened Replies

  /** `last_active`: the empty string for a user who never practised, else a calendar day. */
  datatype LastActive = Never | On(day: int)

  /** A row of the `users` table. */
  datatype User = User(
    name: string, email: string, password: string, plan: string,
    streak: nat, accuracy: int, completedLessons: nat, lastActive: LastActive)

  /** A user as the API returns it: every column except the password. */
  datatype PublicUser = PublicUser(
    name: string, email: string, plan: string,
    streak: nat, accuracy: int, completedLessons: nat, lastActive: LastActive)

  /** The body of a successful `POST /api/progress`. */
  datatype ProgressReply = ProgressReply(newAccuracy: int, newStreak: nat, newLessons: nat)

  /** The `users` table, keyed by e-mail address. */
  type Table = map<string, User>

  const MissingFields := Failure(400, "All fields are required.")
  const EmailTaken := Failure(400, "Email already registered.")
  const InvalidCredentials := Failure(401, "Invalid credentials")
  const UnknownUser := Failure(404, "User not found")
  const ProgressForUnknownUser := Failure(401, "User not found")

  /** A request field is missing when it is absent or empty (JavaScript's falsy strings). */
  predicate Given(field: Option<string>) {
    field.Some? && field.value != ""
  }

  /** The row signup inserts: the password as sent, the Free plan and every counter at zero. */
  function NewUser(name: string, email: string, password: string): User {
    User(name, email, password, "Free", 0, 0, 0, Never)
  }

  /** `{ ...data }` with `password` deleted. */
  function Public(u: User): (v: PublicUser)
    ensures v.name == u.name && v.email == u.email && v.plan == u.plan
    ensures v.streak == u.streak && v.accuracy == u.accuracy
    ensures v.completedLessons == u.completedLessons && v.lastActive == u.lastActive
  {
    PublicUser(u.name, u.email, u.plan, u.streak, u.accuracy, u.completedLessons, u.lastActive)
  }

  /** A reply built from a row tells nothing about its password. */
  lemma PublicHidesPassword(u: User, password: string)
    ensures Public(u.(password := password)) == Public(u)
  {
  }

  /**
   * The streak rule: practising again on the same day keeps the streak, on the
   * day after the last practice extends it, and after a gap (or the first
   * time) starts it again at 1.
   */
  function NewStreak(lastActive: LastActive, streak: nat, today: int): (r: nat)
    ensures lastActive == On(today) ==> r == streak
    ensures lastActive == On(today - 1) ==> r == streak + 1
    ensures lastActive != On(today) && lastActive != On(today - 1) ==> r == 1
  {
    if lastActive == On(today) then streak
    else if lastActive == On(today - 1) then streak + 1
    else 1
  }

  /**
   * `Math.round((previous + submitted) / 2)`: the nearest whole number to the
   * mean, halves rounded up; it lies between the two values averaged.
   */
  function RollingAccuracy(previous: int, submitted: int): (r: int)
    ensures 2 * r - 1 <= previous + submitted < 2 * r + 1
    ensures previous <= submitted ==> previous <= r <= submitted
    ensures submitted <= previous ==> submitted <= r <= previous
  {
    (previous + submitted + 1) / 2
  }

  /** Two in-range accuracies average to an in-range accuracy. */
  lemma RollingAccuracyInRange(previous: int, submitted: int)
    requires 0 <= previous <= 100 && 0 <= submitted <= 100
    ensures 0 <= RollingAccuracy(previous, submitted) <= 100
  {
  }

  lemma RollingAccuracyExample()
    ensures RollingAccuracy(70, 100) == 85
  {
  }

  /**
   * The record after one completed lesson on day `today`: new streak and
   * rolling accuracy, one more lesson, last active today, the rest unchanged.
   */
  function ApplyProgress(u: User, submitted: int, today: int): (r: User)
    ensures r.name == u.name && r.email == u.email && r.password == u.password && r.plan == u.plan
    ensures r.streak == NewStreak(u.lastActive, u.streak, today)
    ensures r.accuracy == RollingAccuracy(u.accuracy, submitted)
    ensures r.completedLessons == u.completedLessons + 1
    ensures r.lastActive == On(today)
  {
    u.(streak := NewStreak(u.lastActive, u.streak, today),
       accuracy := RollingAccuracy(u.accuracy, submitted),
       completedLessons := u.completedLessons + 1,
       lastActive := On(today))
  }

  /** The days never go backwards. */
  ghost predicate NonDecreasing(days: seq<int>) {
    forall i, j :: 0 <= i < j < |days| ==> days[i] <= days[j]
  }

  /** The record after one progress update on each of `days`, in order. */
  function Replay(u: User, days: seq<int>, submitted: int): User
    decreases |days|
  {
    if days == [] then u
    else ApplyProgress(Replay(u, days[..|days| - 1], submitted), submitted, days[|days| - 1])
  }

  /**
   * `streak` counts the consecutive calendar days ending at `last` that each
   * appear in `days`: all of them do, the day before them does not.
   */
  ghost predicate StreakEndsAt(days: seq<int>, streak: nat, last: int) {
    && streak >= 1
    && (forall d :: last - streak < d <= last ==> d in days)
    && last - streak !in days
  }

  /** One more practice day, no earlier than every day before it, keeps the streak counting. */
  lemma StreakStep(days: seq<int>, streak: nat, prev: int)
    requires |days| >= 2
    requires StreakEndsAt(days[..|days| - 1], streak, prev)
    requires forall i :: 0 <= i < |days| - 1 ==> days[i] <= prev <= days[|days| - 1]
    ensures StreakEndsAt(days, NewStreak(On(prev), streak, days[|days| - 1]), days[|days| - 1])
  {
    var earlier, last := days[..|days| - 1], days[|days| - 1];
    assert days == earlier + [last];
    assert forall d :: d in days <==> d in earlier || d == last;
    forall d | d in earlier
      ensures d <= prev
    {
      var i :| 0 <= i < |earlier| && earlier[i] == d;
      assert days[i] == d;
    }
  }

  /** The first practice starts a streak of one day. */
  lemma FirstDayStreak(days: seq<int>, streak: nat)
    requires |days| == 1 && streak == 1
    ensures StreakEndsAt(days, streak, days[0])
  {
    assert forall d :: d in days <==> d == days[0];
  }

  /**
   * Starting from a fresh account, after practising on `days` the streak is
   * the number of consecutive calendar days up to the last one that each saw
   * a practice, and every update counted one lesson.
   */
  lemma {:induction false} StreakCountsConsecutiveDays(u: User, days: seq<int>, submitted: int)
    requires u.lastActive == Never && |days| > 0 && NonDecreasing(days)
    ensures var r := Replay(u, days, submitted);
            var last := days[|days| - 1];
            && StreakEndsAt(days, r.streak, last)
            && r.completedLessons == u.completedLessons + |days|
            && r.lastActive == On(last)
    decreases |days|
  {
    var last := days[|days| - 1];
    var earlier := days[..|days| - 1];
    if |days| == 1 {
      assert earlier == [];
      var r := ApplyProgress(u, submitted, last);
      assert Replay(u, days, submitted) == r;
      FirstDayStreak(days, r.streak);
    } else {
      var prev := days[|days| - 2];
      assert NonDecreasing(earlier) && earlier[|earlier| - 1] == prev;
      StreakCountsConsecutiveDays(u, earlier, submitted);
      var before := Replay(u, earlier, submitted);
      StreakStep(days, before.streak, prev);
      assert Replay(u, days, submitted) == ApplyProgress(before, submitted, last);
    }
  }

  /** The `users` table and the handlers that read and write it. */
  class UserStore {
    var users: Table

    /** Every row is filed under its own e-mail address. */
    ghost predicate Valid()
      reads this
    {
      forall e :: e in users ==> users[e].email == e
    }

    constructor ()
      ensures users == map[] && Valid()
    {
      users := map[];
    }

    /** `POST /api/signup`. */
    method Signup(name: Option<string>, email: Option<string>, password: Option<string>)
      returns (r: Result<PublicUser>)
      requires Valid()
      modifies this
      ensures Valid()
      ensures !(Given(name) && Given(email) && Given(password)) ==>
                r == Err(MissingFields) && users == old(users)
      ensures Given(name) && Given(email) && Given(password) && email.value in old(users) ==>
                r == Err(EmailTaken) && users == old(users)
      ensures Given(name) && Given(email) && Given(password) && email.value !in old(users) ==>
                var u := NewUser(name.value, email.value, password.value);
                r == Ok(Public(u)) && users == old(users)[email.value := u]
    {
      if !Given(name) || !Given(email) || !Given(password) {
        return Err(MissingFields);
      }
      if email.value in users {
        return Err(EmailTaken);
      }
      var row := NewUser(name.value, email.value, password.value);
      users := users[email.value := row];
      r := Ok(Public(row));
    }

    /**
     * Signup as evidently intended: like `Signup`, but the row keeps the
     * bcrypt hash of the password, `hash(password)`, which login compares against.
     */
    method SignupHashed(name: Option<string>, email: Option<string>, password: Option<string>,
                        hash: string -> string)
      returns (r: Result<PublicUser>)
      requires Valid()
      modifies this
      ensures Valid()
      ensures !(Given(name) && Given(email) && Given(password)) ==>
                r == Err(MissingFields) && users == old(users)
      ensures Given(name) && Given(email) && Given(password) && email.value in old(users) ==>
                r == Err(EmailTaken) && users == old(users)
      ensures Given(name) && Given(email) && Given(password) && email.value !in old(users) ==>
                var u := NewUser(name.value, email.value, hash(password.value));
                r == Ok(Public(u)) && users == old(users)[email.value := u]
    {
      if !Given(name) || !Given(email) || !Given(password) {
        return Err(MissingFields);
      }
      if email.value in users {
        return Err(EmailTaken);
      }
      var row := NewUser(name.value, email.value, hash(password.value));
      users := users[email.value := row];
      r := Ok(Public(row));
    }

    /**
     * `POST /api/login`. `matches` stands for `bcrypt.compare` of the sent
     * password against the stored one.
     */
    method Login(email: string, password: string, matches: (string, string) -> bool)
      returns (r: Result<PublicUser>)
      requires Valid()
      ensures r.Ok? <==> email in users && matches(password, users[email].password)
      ensures r.Ok? ==> r.value == Public(users[email]) && r.value.email == email
      ensures r.Err? ==> r.failure == InvalidCredentials
    {
      if email !in users {
        return Err(InvalidCredentials);
      }
      var row := users[email];
      if !matches(password, row.password) {
        return Err(InvalidCredentials);
      }
      r := Ok(Public(row));
    }

    /** `GET /api/user/:email`. */
    method GetUser(email: string) returns (r: Result<PublicUser>)
      requires Valid()
      ensures r.Ok? <==> email in users
      ensures r.Ok? ==> r.value == Public(users[email]) && r.value.email == email
      ensures r.Err? ==> r.failure == UnknownUser
    {
      if email !in users {
        return Err(UnknownUser);
      }
      r := Ok(Public(users[email]));
    }

    /** `POST /api/progress` on day `today`, with the submitted accuracy already parsed. */
    method Progress(email: string, accuracy: int, today: int) returns (r: Result<ProgressReply>)
      requires Valid()
      modifies this
      ensures Valid()
      ensures email !in old(users) ==> r == Err(ProgressForUnknownUser) && users == old(users)
      ensures email in old(users) ==>
                var u := ApplyProgress(old(users)[email], accuracy, today);
                && users == old(users)[email := u]
                && r == Ok(ProgressReply(u.accuracy, u.streak, u.completedLessons))
    {
      if email !in users {
        return Err(ProgressForUnknownUser);
      }
      var user := users[email];
      var lastActive := user.lastActive;
      var newStreak := user.streak;
      if lastActive != On(today) {
        newStreak := if lastActive == On(today - 1) then newStreak + 1 else 1;
      }
      var newAccuracy := RollingAccuracy(user.accuracy, accuracy);
      var newLessons := user.completedLessons + 1;
      users := users[email := user.(streak := newStreak, accuracy := newAccuracy,
                                    completedLessons := newLessons, lastActive := On(today))];
      r := Ok(ProgressReply(newAccuracy, newStreak, newLessons));
    }
  }

  /** The length of a bcrypt hash string. */
  const BcryptHashLength := 60

  /**
   * What login relies on from `bcrypt.compare`: a stored credential that is
   * not a well-formed hash (here: not 60 characters long) never matches.
   */
  ghost predicate RejectsNonHashes(matches: (string, string) -> bool) {
    forall password, stored :: matches(password, stored) ==> |stored| == BcryptHashLength
  }

  /**
   * As written: a user who signs up and then logs in with the same password is
   * refused, because signup stored the password itself and not its hash.
   */
  method SignupThenLoginAsWritten(name: string, email: string, password: string,
                                  matches: (string, string) -> bool)
    returns (r: Result<PublicUser>)
    requires name != "" && email != "" && password != ""
    requires |password| != BcryptHashLength && RejectsNonHashes(matches)
    ensures r == Err(InvalidCredentials)
  {
    var store := new UserStore();
    var signedUp := store.Signup(Some(name), Some(email), Some(password));
    r := store.Login(email, password, matches);
  }

  /**
   * Corrected: when signup stores the hash that `bcrypt.compare` accepts for
   * the password, the same user logs in and gets their own record.
   */
  method SignupThenLoginCorrected(name: string, email: string, password: string,
                                  hash: string -> string, matches: (string, string) -> bool)
    returns (r: Result<PublicUser>)
    requires name != "" && email != "" && password != ""
    requires matches(password, hash(password))
    ensures r.Ok? && r.value.email == email && r.value.name == name
  {
    var store := new UserStore();
    var signedUp := store.SignupHashed(Some(name), Some(email), Some(password), hash);
    r := store.Login(email, password, matches);
  }
}
