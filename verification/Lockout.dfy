/**
 The lockout used for passwords and for TOTP codes: failures are counted, and from the `max`-th on
 every failure locks for `lock` seconds. The count is not reset when a lock runs out.
 */
module Lockout {
  import opened Text

  datatype Throttle = Throttle(failures: nat, lockedUntil: Option<int>)

  /** A code or password offered: when the lock is looked at, when a new lock would start, and whether it is right. */
  datatype Attempt = Attempt(now: int, later: int, correct: bool)

  predicate Locked(t: Throttle, now: int) {
    t.lockedUntil.Some? && now < t.lockedUntil.value
  }

  function Step(t: Throttle, max: nat, lock: nat, a: Attempt): Throttle {
    if Locked(t, a.now) then t
    else if a.correct then Throttle(0, None)
    else Throttle(t.failures + 1, if t.failures + 1 >= max then Some(a.later + lock) else t.lockedUntil)
  }

  /** When the checks that a lock did not prevent took place. */
  function Checks(t: Throttle, max: nat, lock: nat, attempts: seq<Attempt>): seq<int>
    decreases |attempts|
  {
    if attempts == [] then []
    else
      var rest := Checks(Step(t, max, lock, attempts[0]), max, lock, attempts[1..]);
      if Locked(t, attempts[0].now) then rest else [attempts[0].now] + rest
  }

  /** Calls one after another from `from` to `until`, none with a correct code. */
  ghost predicate Guesses(attempts: seq<Attempt>, from: int, until: int) {
    && (forall i :: 0 <= i < |attempts| ==>
          !attempts[i].correct && from <= attempts[i].now <= attempts[i].later && attempts[i].now <= until)
    && (forall i, j :: 0 <= i < j < |attempts| ==> attempts[i].later <= attempts[j].now)
  }

  lemma GuessesRest(attempts: seq<Attempt>, from: int, until: int)
    requires Guesses(attempts, from, until) && attempts != []
    ensures Guesses(attempts[1..], attempts[0].later, until)
  {}

  /** While locked, nothing is checked before the lock runs out. */
  lemma {:induction false} ChecksAfterLock(t: Throttle, max: nat, lock: nat, attempts: seq<Attempt>,
                                           from: int, until: int)
    requires Guesses(attempts, from, until)
    ensures forall i :: 0 <= i < |Checks(t, max, lock, attempts)| ==>
              from <= Checks(t, max, lock, attempts)[i] <= until
              && (t.lockedUntil.Some? ==> t.lockedUntil.value <= Checks(t, max, lock, attempts)[i])
    decreases |attempts|
  {
    if attempts != [] {
      var next := Step(t, max, lock, attempts[0]);
      GuessesRest(attempts, from, until);
      ChecksAfterLock(next, max, lock, attempts[1..], attempts[0].later, until);
    }
  }

  /** From the `max`-th failure on, the next check is at least `lock` seconds away. */
  lemma {:induction false} ChecksSpaced(
      t: Throttle, max: nat, lock: nat, attempts: seq<Attempt>, from: int, until: int, i: nat)
    requires Guesses(attempts, from, until) && i + 1 < |Checks(t, max, lock, attempts)| && t.failures + i + 1 >= max
    ensures Checks(t, max, lock, attempts)[i] + lock <= Checks(t, max, lock, attempts)[i + 1]
    decreases |attempts|
  {
    var next := Step(t, max, lock, attempts[0]);
    GuessesRest(attempts, from, until);
    if Locked(t, attempts[0].now) {
      ChecksSpaced(t, max, lock, attempts[1..], attempts[0].later, until, i);
    } else if i > 0 {
      ChecksSpaced(next, max, lock, attempts[1..], attempts[0].later, until, i - 1);
    } else {
      ChecksAfterLock(next, max, lock, attempts[1..], attempts[0].later, until);
    }
  }

  lemma {:induction false} ChecksReach(
      t: Throttle, max: nat, lock: nat, attempts: seq<Attempt>, from: int, until: int, i: nat)
    requires Guesses(attempts, from, until) && max >= 1 && max - 1 + i < |Checks(t, max, lock, attempts)|
    ensures from + i * lock <= Checks(t, max, lock, attempts)[max - 1 + i]
    decreases i
  {
    if i == 0 {
      ChecksAfterLock(t, max, lock, attempts, from, until);
    } else {
      ChecksReach(t, max, lock, attempts, from, until, i - 1);
      ChecksSpaced(t, max, lock, attempts, from, until, max - 2 + i);
      assert i * lock == (i - 1) * lock + lock;
    }
  }

  lemma AtMostQuotient(n: int, lock: nat, time: int)
    requires lock > 0 && n * lock <= time
    ensures n <= time / lock
  {
    var q := time / lock;
    assert time < (q + 1) * lock;
    assert q + 1 <= n ==> (q + 1) * lock <= n * lock;
  }

  /**
   In `time` seconds without a correct code at most `max + time / lock` codes are checked, whatever was
   tried before.
   */
  lemma GuessesAreBounded(t: Throttle, max: nat, lock: nat, attempts: seq<Attempt>, from: int, time: nat)
    requires Guesses(attempts, from, from + time) && max >= 1 && lock >= 1
    ensures |Checks(t, max, lock, attempts)| <= max + time / lock
  {
    var n := |Checks(t, max, lock, attempts)|;
    if n > max {
      ChecksReach(t, max, lock, attempts, from, from + time, n - max);
      ChecksAfterLock(t, max, lock, attempts, from, from + time);
      AtMostQuotient(n - max, lock, time);
    }
  }

  /** `n` guesses at once, then one each time the lock runs out, `k` times. */
  function Patient(start: int, n: nat, lock: nat, k: nat): seq<Attempt>
    decreases n + k
  {
    if n > 0 then [Attempt(start, start, false)] + Patient(start, n - 1, lock, k)
    else if k > 0 then [Attempt(start + lock, start + lock, false)] + Patient(start + lock, 0, lock, k - 1)
    else []
  }

  lemma {:induction false} PatientIsChecked(t: Throttle, max: nat, start: int, n: nat, lock: nat, k: nat)
    requires t.failures + n == max || (n == 0 && t.failures >= max)
    requires if t.failures >= max then t.lockedUntil == Some(start + lock) else t.lockedUntil.None?
    ensures |Checks(t, max, lock, Patient(start, n, lock, k))| == n + k
    decreases n + k
  {
    if n > 0 {
      var a := Attempt(start, start, false);
      assert Patient(start, n, lock, k)[1..] == Patient(start, n - 1, lock, k);
      PatientIsChecked(Step(t, max, lock, a), max, start, n - 1, lock, k);
    } else if k > 0 {
      var a := Attempt(start + lock, start + lock, false);
      assert Patient(start, n, lock, k)[1..] == Patient(start + lock, 0, lock, k - 1);
      PatientIsChecked(Step(t, max, lock, a), max, start + lock, 0, lock, k - 1);
    }
  }

  lemma GuessesCons(a: Attempt, rest: seq<Attempt>, from: int, until: int)
    requires Guesses(rest, a.later, until) && !a.correct && from <= a.now <= a.later && a.now <= until
    ensures Guesses([a] + rest, from, until)
  {
    var all := [a] + rest;
    assert forall i :: 1 <= i < |all| ==> all[i] == rest[i - 1];
  }

  lemma OneLockLess(lock: nat, k: nat)
    requires k > 0
    ensures (k - 1) * lock == k * lock - lock
  {}

  lemma {:induction false} PatientGuesses(start: int, n: nat, lock: nat, k: nat, time: nat)
    requires time == k * lock
    ensures Guesses(Patient(start, n, lock, k), start, start + time)
    decreases n + k
  {
    if n > 0 {
      PatientGuesses(start, n - 1, lock, k, time);
      GuessesCons(Attempt(start, start, false), Patient(start, n - 1, lock, k), start, start + time);
    } else if k > 0 {
      OneLockLess(lock, k);
      PatientGuesses(start + lock, 0, lock, k - 1, time - lock);
      GuessesCons(Attempt(start + lock, start + lock, false), Patient(start + lock, 0, lock, k - 1),
                  start, start + time);
    }
  }

  lemma QuotientOfProduct(k: nat, lock: nat)
    requires lock >= 1
    ensures (k * lock) / lock == k
  {
    AtMostQuotient(k, lock, k * lock);
  }

  /** The bound is reached: in exactly `k` lock times a fresh throttle lets `max + k` codes be checked. */
  lemma BoundIsReached(max: nat, lock: nat, k: nat, time: nat)
    requires max >= 1 && lock >= 1 && time == k * lock
    ensures Guesses(Patient(0, max, lock, k), 0, time)
    ensures |Checks(Throttle(0, None), max, lock, Patient(0, max, lock, k))| == max + k == max + time / lock
  {
    PatientGuesses(0, max, lock, k, time);
    PatientIsChecked(Throttle(0, None), max, 0, max, lock, k);
    QuotientOfProduct(k, lock);
  }
}
