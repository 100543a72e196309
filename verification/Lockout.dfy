/** The failed-login counter and the timed lock of one account. Times are in minutes. */
module Lockout {
  import opened Collections

  const MAX_ATTEMPTS: int := 5
  const LOCK_MINUTES: real := 30.0

  /** The two columns of the user row that authentication reads and writes. */
  datatype Account = Account(failed: Option<int>, lockUntil: Option<real>)

  const CLEAN: Account := Account(Some(0), None)

  datatype Reply = Accepted | Rejected

  predicate Locked(a: Account, now: real) {
    a.lockUntil.Some? && a.lockUntil.value > now
  }

  function Counter(a: Account): int {
    if a.failed.Some? then a.failed.value else 0
  }

  function Authenticate(a: Account, now: real, passwordOk: bool): (Account, Reply) {
    if Locked(a, now) then (a, Rejected)
    else if passwordOk then (CLEAN, Accepted)
    else
      var failed := Counter(a) + 1;
      (Account(Some(failed), if failed >= MAX_ATTEMPTS then Some(now + LOCK_MINUTES) else a.lockUntil), Rejected)
  }

  class User {
    var failedLoginAttempts: Option<int>
    var lockUntil: Option<real>

    function View(): Account
      reads this
    {
      Account(failedLoginAttempts, lockUntil)
    }

    constructor ()
      ensures View() == CLEAN
    {
      failedLoginAttempts, lockUntil := Some(0), None;
    }

    /** `passwordOk` is what checking the password would say. */
    method AuthenticateUser(now: real, passwordOk: bool) returns (reply: Reply)
      modifies this
      ensures (View(), reply) == Authenticate(old(View()), now, passwordOk)
      ensures reply == Accepted <==> passwordOk && !(old(lockUntil).Some? && old(lockUntil).value > now)
    {
      if lockUntil.Some? && lockUntil.value > now {
        return Rejected;
      }
      if !passwordOk {
        var failed := (if failedLoginAttempts.Some? then failedLoginAttempts.value else 0) + 1;
        failedLoginAttempts := Some(failed);
        if failed >= MAX_ATTEMPTS {
          lockUntil := Some(now + LOCK_MINUTES);
        }
        return Rejected;
      }
      failedLoginAttempts := Some(0);
      lockUntil := None;
      return Accepted;
    }
  }

  // ---------------------------------------------------------------------- runs

  datatype Attempt = Attempt(now: real, passwordOk: bool)

  function Run(attempts: seq<Attempt>): Account {
    if attempts == [] then CLEAN
    else
      var last := attempts[|attempts| - 1];
      Authenticate(Run(attempts[..|attempts| - 1]), last.now, last.passwordOk).0
  }

  /** Five misses lock for thirty minutes from the last. */
  predicate HeldBack(misses: seq<real>, now: real) {
    |misses| >= 5 && now < misses[|misses| - 1] + 30.0
  }

  /** The times at which a wrong password was checked since the last success, worked out from the
      attempts alone: those that are held back do not count. */
  function Misses(attempts: seq<Attempt>): seq<real> {
    if attempts == [] then []
    else
      var m, last := Misses(attempts[..|attempts| - 1]), attempts[|attempts| - 1];
      if HeldBack(m, last.now) then m
      else if last.passwordOk then []
      else m + [last.now]
  }

  ghost predicate Ordered(attempts: seq<Attempt>) {
    forall i, j :: 0 <= i < j < |attempts| ==> attempts[i].now <= attempts[j].now
  }

  /** What the record says: the number of misses, and from the fifth on a lock that runs out
      thirty minutes after the last. */
  lemma {:induction false} RecordCountsMisses(attempts: seq<Attempt>)
    ensures var a, m := Run(attempts), Misses(attempts);
      && a.failed == Some(|m|)
      && a.lockUntil == if |m| >= MAX_ATTEMPTS then Some(m[|m| - 1] + LOCK_MINUTES) else None
  {
    if attempts != [] {
      RecordCountsMisses(attempts[..|attempts| - 1]);
    }
  }

  /** After every run an attempt is accepted exactly if its password is right and it is not within
      thirty minutes of the fifth or a later miss in a row; all others are rejected. */
  lemma AcceptedExactly(attempts: seq<Attempt>, now: real, passwordOk: bool)
    ensures var m, reply := Misses(attempts), Authenticate(Run(attempts), now, passwordOk).1;
      reply == Accepted <==> passwordOk && !(|m| >= 5 && now < m[|m| - 1] + 30.0)
  {
    RecordCountsMisses(attempts);
  }

  /** A lock time is set exactly when the counter has reached five. */
  lemma LockIffFive(attempts: seq<Attempt>)
    ensures Run(attempts).lockUntil.Some? <==> Counter(Run(attempts)) >= MAX_ATTEMPTS
  {
    RecordCountsMisses(attempts);
  }

  /** The fifth miss and all later ones are at least thirty minutes apart. */
  lemma {:induction false} MissesSpaced(attempts: seq<Attempt>)
    requires Ordered(attempts)
    ensures var m := Misses(attempts);
      && (forall i, j :: 0 <= i < j < |m| ==> m[i] <= m[j])
      && (forall i :: MAX_ATTEMPTS <= i < |m| ==> m[i] >= m[i - 1] + LOCK_MINUTES)
      && (forall i :: 0 <= i < |m| ==> m[i] <= attempts[|attempts| - 1].now)
  {
    if attempts != [] {
      MissesSpaced(attempts[..|attempts| - 1]);
      RecordCountsMisses(attempts[..|attempts| - 1]);
    }
  }

  lemma {:induction false} LateMiss(m: seq<real>, k: nat)
    requires MAX_ATTEMPTS <= k < |m|
    requires forall i, j :: 0 <= i < j < |m| ==> m[i] <= m[j]
    requires forall i :: MAX_ATTEMPTS <= i < |m| ==> m[i] >= m[i - 1] + LOCK_MINUTES
    ensures m[k] >= m[0] + LOCK_MINUTES * (k - MAX_ATTEMPTS + 1) as real
  {
    if k > MAX_ATTEMPTS {
      LateMiss(m, k - 1);
    } else {
      assert m[k - 1] >= m[0];
    }
  }

  /** From a clean account, with no success in between, at most `5 + floor(L / 30)` wrong
      passwords are checked within `L` minutes of the first. */
  lemma MissesBounded(attempts: seq<Attempt>, length: real, n: nat)
    requires Ordered(attempts) && 0.0 <= length
    requires n <= |Misses(attempts)|
    requires n > 0 ==> Misses(attempts)[n - 1] <= Misses(attempts)[0] + length
    ensures n <= MAX_ATTEMPTS + (length / LOCK_MINUTES).Floor
  {
    var m := Misses(attempts);
    MissesSpaced(attempts);
    if n > MAX_ATTEMPTS {
      LateMiss(m, n - 1);
      var extra := n - MAX_ATTEMPTS;
      assert LOCK_MINUTES * extra as real <= length;
      assert extra as real <= length / LOCK_MINUTES;
    }
  }

  /** When the `n`-th of a series of wrong passwords can be tried at the earliest. */
  function Earliest(start: real, n: nat): real {
    if n <= MAX_ATTEMPTS then start else Earliest(start, n - 1) + LOCK_MINUTES
  }

  lemma {:induction false} EarliestIs(start: real, n: nat)
    ensures Earliest(start, n) == start + LOCK_MINUTES * Max(0, n - MAX_ATTEMPTS) as real
  {
    if n > MAX_ATTEMPTS {
      EarliestIs(start, n - 1);
    }
  }

  /** `n` wrong passwords, the first five at once and the rest as soon as each lock runs out. */
  function Patient(start: real, n: nat): seq<Attempt> {
    if n == 0 then [] else Patient(start, n - 1) + [Attempt(Earliest(start, n), false)]
  }

  lemma {:induction false} PatientOrdered(start: real, n: nat)
    ensures Ordered(Patient(start, n))
    ensures forall i :: 0 <= i < |Patient(start, n)| ==> Patient(start, n)[i].now <= Earliest(start, n)
  {
    if n > 0 {
      PatientOrdered(start, n - 1);
      assert Earliest(start, n - 1) <= Earliest(start, n);
    }
  }

  /** None of them meets a lock. */
  lemma {:induction false} PatientMisses(start: real, n: nat)
    ensures var m := Misses(Patient(start, n));
      && |m| == n
      && (n > 0 ==> m[n - 1] == Earliest(start, n) && m[0] == start)
  {
    if n > 0 {
      var before := Patient(start, n - 1);
      PatientMisses(start, n - 1);
      RecordCountsMisses(before);
      assert Patient(start, n)[..|Patient(start, n)| - 1] == before;
    }
  }

  /** The bound is attained: `n` misses fit into thirty minutes for each beyond the fifth. */
  lemma BoundIsAttained(start: real, n: nat)
    requires n > 0
    ensures Ordered(Patient(start, n))
    ensures var m := Misses(Patient(start, n));
      |m| == n && m[n - 1] == m[0] + LOCK_MINUTES * Max(0, n - MAX_ATTEMPTS) as real
  {
    PatientOrdered(start, n);
    PatientMisses(start, n);
    EarliestIs(start, n);
  }

  /** While the lock runs nothing changes, not even for the right password; afterwards the right
      password clears the account. */
  lemma LockHoldsThenLifts(attempts: seq<Attempt>, now: real, passwordOk: bool)
    requires |Misses(attempts)| >= MAX_ATTEMPTS
    ensures var m, a := Misses(attempts), Run(attempts);
      if now < m[|m| - 1] + LOCK_MINUTES then Authenticate(a, now, passwordOk) == (a, Rejected)
      else passwordOk ==> Authenticate(a, now, passwordOk) == (CLEAN, Accepted)
  {
    RecordCountsMisses(attempts);
  }
}
