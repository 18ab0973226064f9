/** One-time codes kept in Redis under keys that expire by themselves. Times are in milliseconds. */
module Otp {
  import opened Wrappers

  const MAX_ATTEMPTS: nat := 5
  const LOCKOUT_SECONDS: nat := 300
  const SECOND: nat := 1000
  const LOCKOUT: nat := LOCKOUT_SECONDS * SECOND

  /** Six digits. */
  type Code = c: string | |c| == 6 witness "100000"

  /** A Redis value and the moment from which it is gone. */
  datatype Entry<+T> = Entry(value: T, expires: nat)

  function Get<T>(entry: Option<Entry<T>>, now: nat): Option<T> {
    if entry.Some? && now < entry.value.expires then Some(entry.value.value) else None
  }

  /** What Redis holds for one identifier: the code, the failure counter and the lock. */
  datatype Keys = Keys(code: Option<Entry<Code>>, fails: Option<Entry<nat>>, locked: Option<Entry<string>>)

  /** Wrong is a wrong guess below the limit, LockedOut the wrong guess that reaches it. */
  datatype Outcome = Right | Missing | Wrong | LockedOut | StillLocked

  function Created(code: Code, ttlSeconds: nat, now: nat): Keys {
    Keys(Some(Entry(code, now + ttlSeconds * SECOND)), None, None)
  }

  function Verified(k: Keys, guess: string, now: nat): (Keys, Outcome) {
    if Get(k.locked, now).Some? then (k, StillLocked)
    else if Get(k.code, now).None? then (k, Missing)
    else if k.code.value.value != guess then
      var fails := Get(k.fails, now).GetOr(0) + 1;
      if fails >= MAX_ATTEMPTS then (Keys(None, None, Some(Entry("1", now + LOCKOUT))), LockedOut)
      else (k.(fails := Some(Entry(fails, now + LOCKOUT))), Wrong)
    else (Keys(None, None, k.locked), Right)
  }

  // ---------- The service ----------

  datatype TooManyRequests = TooManyRequests

  /** The caller sees true, false or the error with status 429. */
  function Answer(outcome: Outcome): Result<bool, TooManyRequests> {
    match outcome
    case Right => Success(true)
    case Missing | Wrong => Success(false)
    case LockedOut | StillLocked => Failure(TooManyRequests)
  }

  function Lookup<V>(entries: map<string, V>, key: string): Option<V> {
    if key in entries then Some(entries[key]) else None
  }

  class OtpService {
    var codes: map<string, Entry<Code>>
    var fails: map<string, Entry<nat>>
    var locks: map<string, Entry<string>>

    constructor ()
      ensures forall key :: KeysOf(key) == Keys(None, None, None)
    {
      codes, fails, locks := map[], map[], map[];
    }

    function KeysOf(key: string): Keys
      reads this
    {
      Keys(Lookup(codes, key), Lookup(fails, key), Lookup(locks, key))
    }

    method CreateOtp(key: string, generated: Code, ttlSeconds: nat, now: nat) returns (otp: Code)
      modifies this
      ensures otp == generated && KeysOf(key) == Created(otp, ttlSeconds, now)
      ensures forall other | other != key :: KeysOf(other) == old(KeysOf(other))
    {
      otp := generated;
      codes := codes[key := Entry(otp, now + ttlSeconds * SECOND)];
      fails := fails - {key};
      locks := locks - {key};
    }

    method VerifyOtp(key: string, otp: string, now: nat) returns (r: Result<bool, TooManyRequests>)
      modifies this
      ensures KeysOf(key) == Verified(old(KeysOf(key)), otp, now).0
      ensures r == Answer(Verified(old(KeysOf(key)), otp, now).1)
      ensures forall other | other != key :: KeysOf(other) == old(KeysOf(other))
    {
      if Get(Lookup(locks, key), now).Some? {
        return Failure(TooManyRequests);
      }
      var stored := Get(Lookup(codes, key), now);
      if stored.None? {
        return Success(false);
      }
      if stored.value != otp {
        var count := Get(Lookup(fails, key), now).GetOr(0) + 1;
        fails := fails[key := Entry(count, now + LOCKOUT_SECONDS * SECOND)];
        if count >= MAX_ATTEMPTS {
          locks := locks[key := Entry("1", now + LOCKOUT_SECONDS * SECOND)];
          codes := codes - {key};
          fails := fails - {key};
          return Failure(TooManyRequests);
        }
        return Success(false);
      }
      codes := codes - {key};
      fails := fails - {key};
      r := Success(true);
    }
  }

  // ---------- Guessing against one code ----------

  datatype Guess = Guess(at: nat, text: string)

  predicate Ordered(guesses: seq<Guess>, from: nat) {
    guesses != [] ==> from <= guesses[0].at && Ordered(guesses[1..], guesses[0].at)
  }

  function After(k: Keys, g: Guess): Keys {
    Verified(k, g.text, g.at).0
  }

  function Outcomes(k: Keys, guesses: seq<Guess>): seq<Outcome>
    decreases |guesses|
  {
    if guesses == [] then []
    else [Verified(k, guesses[0].text, guesses[0].at).1] + Outcomes(After(k, guesses[0]), guesses[1..])
  }

  function Count(outcomes: seq<Outcome>, counted: set<Outcome>): nat {
    if outcomes == [] then 0 else (if outcomes[0] in counted then 1 else 0) + Count(outcomes[1..], counted)
  }

  /** Wrong guesses that were compared with the code. */
  function WrongGuesses(k: Keys, guesses: seq<Guess>): nat {
    Count(Outcomes(k, guesses), {Wrong, LockedOut})
  }

  lemma CountStep(k: Keys, guesses: seq<Guess>, counted: set<Outcome>)
    requires guesses != []
    ensures Count(Outcomes(k, guesses), counted)
         == (if Verified(k, guesses[0].text, guesses[0].at).1 in counted then 1 else 0)
          + Count(Outcomes(After(k, guesses[0]), guesses[1..]), counted)
  {
    assert Outcomes(k, guesses)[1..] == Outcomes(After(k, guesses[0]), guesses[1..]);
  }

  function Windows(ttlSeconds: nat): nat {
    (ttlSeconds + LOCKOUT_SECONDS - 1) / LOCKOUT_SECONDS
  }

  /** Four guesses for every started window, and the one that locks. */
  function AttemptBound(ttlSeconds: nat): nat {
    (MAX_ATTEMPTS - 1) * Windows(ttlSeconds) + 1
  }

  function FailsOf(k: Keys): nat {
    if k.fails.Some? then k.fails.value.value else 0
  }

  /** While the code issued at `start` lives: `made` wrong guesses so far, the last one at `last`. */
  predicate Budget(k: Keys, start: nat, ttlSeconds: nat, last: nat, made: nat) {
    && start <= last < start + ttlSeconds * SECOND
    && k.locked.None? && k.code.Some? && k.code.value.expires == start + ttlSeconds * SECOND
    && FailsOf(k) < MAX_ATTEMPTS && (k.fails.Some? ==> k.fails.value.expires == last + LOCKOUT)
    && made <= (MAX_ATTEMPTS - 1) * ((last - start) / LOCKOUT) + FailsOf(k)
  }

  lemma BudgetIsBounded(start: nat, ttlSeconds: nat, at: nat)
    requires start <= at < start + ttlSeconds * SECOND
    ensures (at - start) / LOCKOUT + 1 <= Windows(ttlSeconds)
  {
  }

  lemma NextWindow(start: nat, last: nat, at: nat)
    requires start <= last <= at
    ensures (last - start) / LOCKOUT <= (at - start) / LOCKOUT
    ensures at >= last + LOCKOUT ==> (last - start) / LOCKOUT + 1 <= (at - start) / LOCKOUT
  {
  }

  lemma {:induction false} NothingToCompare(k: Keys, guesses: seq<Guess>)
    requires k.code.None?
    ensures Count(Outcomes(k, guesses), {Wrong, LockedOut}) == 0 && Count(Outcomes(k, guesses), {Right}) == 0
    decreases |guesses|
  {
    if guesses != [] {
      CountStep(k, guesses, {Wrong, LockedOut});
      CountStep(k, guesses, {Right});
      NothingToCompare(After(k, guesses[0]), guesses[1..]);
    }
  }

  lemma {:induction false} WithinBudget(k: Keys, start: nat, ttlSeconds: nat, last: nat, made: nat, guesses: seq<Guess>)
    requires Budget(k, start, ttlSeconds, last, made) && Ordered(guesses, last)
    ensures made + WrongGuesses(k, guesses) <= AttemptBound(ttlSeconds)
    decreases |guesses|
  {
    BudgetIsBounded(start, ttlSeconds, last);
    if guesses != [] {
      var g := guesses[0];
      var next, outcome := After(k, g), Verified(k, g.text, g.at).1;
      CountStep(k, guesses, {Wrong, LockedOut});
      match outcome {
        case Right => NothingToCompare(next, guesses[1..]);
        case Missing => Expired(k, guesses[1..], g.at);
        case Wrong =>
          NextWindow(start, last, g.at);
          WithinBudget(next, start, ttlSeconds, g.at, made + 1, guesses[1..]);
        case LockedOut =>
          NextWindow(start, last, g.at);
          BudgetIsBounded(start, ttlSeconds, g.at);
          NothingToCompare(next, guesses[1..]);
      }
    }
  }

  /** Once a code has expired no guess is compared with it any more. */
  lemma {:induction false} Expired(k: Keys, guesses: seq<Guess>, now: nat)
    requires k.locked.None? && Get(k.code, now).None? && Ordered(guesses, now)
    ensures WrongGuesses(k, guesses) == 0
    decreases |guesses|
  {
    if guesses != [] {
      CountStep(k, guesses, {Wrong, LockedOut});
      Expired(After(k, guesses[0]), guesses[1..], guesses[0].at);
    }
  }

  /** However the guesses are spread over its lifetime, a code is compared with at most this many wrong ones. */
  lemma WrongGuessesAreBounded(code: Code, ttlSeconds: nat, now: nat, guesses: seq<Guess>)
    requires ttlSeconds > 0 && Ordered(guesses, now)
    ensures WrongGuesses(Created(code, ttlSeconds, now), guesses) <= AttemptBound(ttlSeconds)
  {
    WithinBudget(Created(code, ttlSeconds, now), now, ttlSeconds, now, 0, guesses);
  }

  /** A code is accepted at most once. */
  lemma {:induction false} AcceptedAtMostOnce(k: Keys, guesses: seq<Guess>)
    ensures Count(Outcomes(k, guesses), {Right}) <= 1
    decreases |guesses|
  {
    if guesses != [] {
      CountStep(k, guesses, {Right});
      if Verified(k, guesses[0].text, guesses[0].at).1 == Right {
        NothingToCompare(After(k, guesses[0]), guesses[1..]);
      } else {
        AcceptedAtMostOnce(After(k, guesses[0]), guesses[1..]);
      }
    }
  }

  // ---------- The bound is reached ----------

  function Repeated(at: nat, text: string, n: nat): seq<Guess> {
    seq(n, _ => Guess(at, text))
  }

  /** Four guesses at the start of each window, and a fifth one in the last. */
  function Attack(from: nat, text: string, windows: nat): seq<Guess>
    requires windows > 0
    decreases windows
  {
    if windows == 1 then Repeated(from, text, MAX_ATTEMPTS)
    else Repeated(from, text, MAX_ATTEMPTS - 1) + Attack(from + LOCKOUT, text, windows - 1)
  }

  predicate Guessable(k: Keys, text: string, at: nat) {
    k.locked.None? && Get(k.code, at).Some? && k.code.value.value != text
  }

  lemma {:induction false} Volley(k: Keys, at: nat, text: string, n: nat, rest: seq<Guess>)
    requires Guessable(k, text, at) && n > 0 && Get(k.fails, at).GetOr(0) + n < MAX_ATTEMPTS
    ensures var fails := Get(k.fails, at).GetOr(0) + n;
      WrongGuesses(k, Repeated(at, text, n) + rest)
      == n + WrongGuesses(k.(fails := Some(Entry(fails, at + LOCKOUT))), rest)
    decreases n
  {
    var guesses := Repeated(at, text, n) + rest;
    CountStep(k, guesses, {Wrong, LockedOut});
    var next := After(k, Guess(at, text));
    if n == 1 {
      assert guesses[1..] == rest;
    } else {
      assert guesses[1..] == Repeated(at, text, n - 1) + rest;
      Volley(next, at, text, n - 1, rest);
    }
  }

  lemma {:induction false} AttackCounts(k: Keys, from: nat, text: string, windows: nat)
    requires windows > 0 && Get(k.fails, from).None?
    requires Guessable(k, text, from) && from + (windows - 1) * LOCKOUT < k.code.value.expires
    ensures WrongGuesses(k, Attack(from, text, windows)) == (MAX_ATTEMPTS - 1) * windows + 1
    decreases windows
  {
    var tired := k.(fails := Some(Entry(MAX_ATTEMPTS - 1, from + LOCKOUT)));
    if windows == 1 {
      var last := Repeated(from, text, 1);
      assert Attack(from, text, windows) == Repeated(from, text, MAX_ATTEMPTS - 1) + last;
      Volley(k, from, text, MAX_ATTEMPTS - 1, last);
      CountStep(tired, last, {Wrong, LockedOut});
    } else {
      Volley(k, from, text, MAX_ATTEMPTS - 1, Attack(from + LOCKOUT, text, windows - 1));
      AttackCounts(tired, from + LOCKOUT, text, windows - 1);
    }
  }

  lemma {:induction false} RepeatedIsOrdered(at: nat, text: string, n: nat, rest: seq<Guess>, from: nat)
    requires from <= at && Ordered(rest, at)
    ensures Ordered(Repeated(at, text, n) + rest, from)
    decreases n
  {
    var guesses := Repeated(at, text, n) + rest;
    if n == 0 {
      assert guesses == rest;
    } else {
      assert guesses[1..] == Repeated(at, text, n - 1) + rest;
      RepeatedIsOrdered(at, text, n - 1, rest, at);
    }
  }

  lemma {:induction false} AttackIsOrdered(from: nat, text: string, windows: nat)
    requires windows > 0
    ensures forall start: nat | start <= from :: Ordered(Attack(from, text, windows), start)
    decreases windows
  {
    forall start: nat | start <= from ensures Ordered(Attack(from, text, windows), start) {
      if windows == 1 {
        assert Attack(from, text, windows) == Repeated(from, text, MAX_ATTEMPTS) + [];
        RepeatedIsOrdered(from, text, MAX_ATTEMPTS, [], start);
      } else {
        AttackIsOrdered(from + LOCKOUT, text, windows - 1);
        RepeatedIsOrdered(from, text, MAX_ATTEMPTS - 1, Attack(from + LOCKOUT, text, windows - 1), start);
      }
    }
  }

  /** For every lifetime and every wrong text there is a run with exactly as many comparisons as the bound. */
  lemma BoundIsReached(code: Code, ttlSeconds: nat, now: nat, text: string) returns (guesses: seq<Guess>)
    requires ttlSeconds > 0 && text != code
    ensures Ordered(guesses, now)
    ensures WrongGuesses(Created(code, ttlSeconds, now), guesses) == AttemptBound(ttlSeconds)
  {
    guesses := Attack(now, text, Windows(ttlSeconds));
    AttackIsOrdered(now, text, Windows(ttlSeconds));
    AttackCounts(Created(code, ttlSeconds, now), now, text, Windows(ttlSeconds));
  }

  /** The documented limit of five wrong guesses holds exactly for codes that live no longer than the counter. */
  lemma FiveGuessesOnlyWithinOneWindow(code: Code, ttlSeconds: nat, now: nat)
    requires ttlSeconds > 0
    ensures (forall guesses | Ordered(guesses, now) ::
              WrongGuesses(Created(code, ttlSeconds, now), guesses) <= MAX_ATTEMPTS)
       <==> ttlSeconds <= LOCKOUT_SECONDS
  {
    if ttlSeconds <= LOCKOUT_SECONDS {
      forall guesses | Ordered(guesses, now)
        ensures WrongGuesses(Created(code, ttlSeconds, now), guesses) <= MAX_ATTEMPTS
      {
        WrongGuessesAreBounded(code, ttlSeconds, now, guesses);
      }
    } else {
      var guesses := BoundIsReached(code, ttlSeconds, now, "");
    }
  }

  // ---------- Whole runs on one identifier ----------

  datatype Event = Issue(at: nat, code: Code, ttlSeconds: nat) | Try(guess: Guess)

  function Step(k: Keys, e: Event): Keys {
    match e
    case Issue(at, code, ttl) => Created(code, ttl, at)
    case Try(g) => After(k, g)
  }

  function Run(events: seq<Event>): Keys {
    if events == [] then Keys(None, None, None)
    else Step(Run(events[..|events| - 1]), events[|events| - 1])
  }

  /** A lock and a code are never held together, and the counter counts failures of a held code below the limit. */
  lemma {:induction false} LockExcludesCode(events: seq<Event>)
    ensures Run(events).locked.None? || (Run(events).code.None? && Run(events).fails.None?)
    ensures Run(events).fails.Some? ==> Run(events).code.Some? && 0 < FailsOf(Run(events)) < MAX_ATTEMPTS
    decreases |events|
  {
    if events != [] {
      LockExcludesCode(events[..|events| - 1]);
    }
  }

  lemma {:induction false} LockedUntil(k: Keys, until: nat, guesses: seq<Guess>)
    requires k.code.None? && k.locked.Some? && k.locked.value.expires == until
    ensures |Outcomes(k, guesses)| == |guesses|
    ensures forall i :: 0 <= i < |guesses| ==>
                          Outcomes(k, guesses)[i] == if guesses[i].at < until then StillLocked else Missing
    decreases |guesses|
  {
    if guesses != [] {
      LockedUntil(k, until, guesses[1..]);
      assert After(k, guesses[0]) == k;
    }
  }

  /** After the guess that locks and until a new code is issued, even the right guess is refused; the error lasts for the lockout. */
  lemma {:induction false} LockoutAnswers(k: Keys, g: Guess, later: seq<Guess>)
    requires Verified(k, g.text, g.at).1 == LockedOut
    ensures |Outcomes(After(k, g), later)| == |later|
    ensures forall i :: 0 <= i < |later| ==>
                          Outcomes(After(k, g), later)[i] == if later[i].at < g.at + LOCKOUT then StillLocked else Missing
  {
    LockedUntil(After(k, g), g.at + LOCKOUT, later);
  }

  // ---------- What every guess is answered ----------

  /** Right is exactly the held code, in time and not locked; the keys change exactly for a compared guess. */
  lemma AnswersExactly(k: Keys, guess: string, now: nat)
    ensures var (after, outcome) := Verified(k, guess, now);
      var locked := k.locked.Some? && now < k.locked.value.expires;
      var held := k.code.Some? && now < k.code.value.expires;
      && (outcome == StillLocked <==> locked)
      && (outcome == Missing <==> !locked && !held)
      && (outcome == Right <==> !locked && held && guess == k.code.value.value)
      && (outcome == LockedOut <==> !locked && held && guess != k.code.value.value
                                    && k.fails.Some? && now < k.fails.value.expires && k.fails.value.value >= 4)
      && (Answer(outcome) == Success(true) <==> outcome == Right)
      && (Answer(outcome).Failure? <==> locked || outcome == LockedOut)
      && (outcome == StillLocked || outcome == Missing ==> after == k)
      && (outcome == Right ==> after.code.None? && after.fails.None?)
      && (outcome == Wrong ==> after.code == k.code && after.fails.Some? && after.fails.value.expires == now + 300_000)
      && (outcome == LockedOut ==> after.code.None? && after.locked.Some? && after.locked.value.expires == now + 300_000)
  {
  }

  predicate AllWrong(code: Code, guesses: seq<Guess>) {
    guesses != [] ==> guesses[0].text != code && AllWrong(code, guesses[1..])
  }

  function AfterAll(k: Keys, guesses: seq<Guess>): Keys
    decreases |guesses|
  {
    if guesses == [] then k else AfterAll(After(k, guesses[0]), guesses[1..])
  }

  predicate NoLockout(k: Keys, guesses: seq<Guess>)
    decreases |guesses|
  {
    guesses != [] ==>
      Verified(k, guesses[0].text, guesses[0].at).1 != LockedOut && NoLockout(After(k, guesses[0]), guesses[1..])
  }

  lemma {:induction false} NeverRightAgain(k: Keys, guesses: seq<Guess>)
    requires k.code.None?
    ensures AfterAll(k, guesses).code.None?
    decreases |guesses|
  {
    if guesses != [] {
      NeverRightAgain(After(k, guesses[0]), guesses[1..]);
    }
  }

  lemma {:induction false} CodeSurvives(k: Keys, code: Code, expires: nat, guesses: seq<Guess>)
    requires k.locked.None? && k.code == Some(Entry(code, expires)) && AllWrong(code, guesses)
    ensures NoLockout(k, guesses) ==> AfterAll(k, guesses).locked.None? && AfterAll(k, guesses).code == k.code
    ensures !NoLockout(k, guesses) ==> AfterAll(k, guesses).code.None?
    decreases |guesses|
  {
    if guesses != [] {
      var next := After(k, guesses[0]);
      if Verified(k, guesses[0].text, guesses[0].at).1 == LockedOut {
        NeverRightAgain(next, guesses[1..]);
      } else {
        CodeSurvives(next, code, expires, guesses[1..]);
      }
    }
  }

  /** After any number of wrong guesses the right one is accepted exactly in time and unless one of them locked. */
  lemma RightCodeIsAcceptedIff(code: Code, ttlSeconds: nat, start: nat, guesses: seq<Guess>, at: nat)
    requires AllWrong(code, guesses)
    ensures var issued := Created(code, ttlSeconds, start);
      Verified(AfterAll(issued, guesses), code, at).1 == Right <==> at < start + ttlSeconds * 1000 && NoLockout(issued, guesses)
  {
    CodeSurvives(Created(code, ttlSeconds, start), code, start + ttlSeconds * SECOND, guesses);
  }

  lemma {:induction false} FewGuessesDoNotLock(k: Keys, guesses: seq<Guess>)
    requires k.locked.None? && FailsOf(k) + |guesses| <= 4
    ensures NoLockout(k, guesses)
    decreases |guesses|
  {
    if guesses != [] {
      FewGuessesDoNotLock(After(k, guesses[0]), guesses[1..]);
    }
  }

  /** So up to four wrong guesses never cost the holder the code. */
  lemma FourGuessesAreForgiven(code: Code, ttlSeconds: nat, start: nat, guesses: seq<Guess>, at: nat)
    requires AllWrong(code, guesses) && |guesses| <= 4 && at < start + ttlSeconds * 1000
    ensures Verified(AfterAll(Created(code, ttlSeconds, start), guesses), code, at).1 == Right
  {
    FewGuessesDoNotLock(Created(code, ttlSeconds, start), guesses);
    RightCodeIsAcceptedIff(code, ttlSeconds, start, guesses, at);
  }

  /** Each guess comes before the counter of the one before it is gone. */
  predicate InQuickSuccession(guesses: seq<Guess>, last: nat) {
    guesses != [] ==> last <= guesses[0].at < last + 300_000 && InQuickSuccession(guesses[1..], guesses[0].at)
  }

  lemma {:induction false} QuickGuessesAddUp(k: Keys, code: Code, expires: nat, guesses: seq<Guess>, last: nat)
    requires k.locked.None? && k.code == Some(Entry(code, expires)) && AllWrong(code, guesses)
    requires InQuickSuccession(guesses, last) && forall g | g in guesses :: g.at < expires
    requires k.fails.None? || k.fails.value.expires == last + LOCKOUT
    requires FailsOf(k) < 5 == FailsOf(k) + |guesses|
    ensures !NoLockout(k, guesses)
    decreases |guesses|
  {
    var next := After(k, guesses[0]);
    assert guesses[0] in guesses;
    if |guesses| > 1 {
      QuickGuessesAddUp(next, code, expires, guesses[1..], guesses[0].at);
    }
  }

  /** Five wrong guesses in quick succession do: from then on the right code is not accepted. */
  lemma FiveQuickGuessesLock(code: Code, ttlSeconds: nat, start: nat, guesses: seq<Guess>, at: nat)
    requires AllWrong(code, guesses) && |guesses| == 5 && InQuickSuccession(guesses, start)
    requires forall g | g in guesses :: g.at < start + ttlSeconds * 1000
    ensures Verified(AfterAll(Created(code, ttlSeconds, start), guesses), code, at).1 != Right
  {
    QuickGuessesAddUp(Created(code, ttlSeconds, start), code, start + ttlSeconds * SECOND, guesses, start);
    RightCodeIsAcceptedIff(code, ttlSeconds, start, guesses, at);
  }
}
