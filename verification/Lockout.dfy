/** Account lockout over the two tables that record it.  Times are seconds since the epoch, one
    clock reading for each call. */
module Lockout {

  type Name = string

  const MAX_FAILED_ATTEMPTS: nat := 5
  const LOCKOUT_SECONDS := 900.0

  datatype UserRow = UserRow(hash: string, role: string, failedLogins: nat, lockedUntil: real)
  datatype AttemptRow = AttemptRow(failedCount: nat, lastFailedAt: real, lockedUntil: real)

  datatype Accounts = Accounts(users: map<Name, UserRow>, attempts: map<Name, AttemptRow>)

  // ---------------------------------------------------------------- store operations

  /** None: the name is taken (the UNIQUE constraint). */
  function Create(a: Accounts, n: Name, hash: string, role: string): (r: (Accounts, bool)) {
    if n in a.users then (a, false)
    else (a.(users := a.users[n := UserRow(hash, role, 0, 0.0)]), true)
  }

  /** The login_attempts row outlives the user. */
  function Delete(a: Accounts, n: Name): Accounts { a.(users := a.users - {n}) }

  function SetRole(a: Accounts, n: Name, role: string): Accounts {
    if n in a.users then a.(users := a.users[n := a.users[n].(role := role)]) else a
  }

  /** The login_attempts row is written even for a name without a user. */
  function Lock(a: Accounts, n: Name, now: real, duration: real): Accounts {
    var until := now + duration;
    var count := if n in a.attempts then a.attempts[n].failedCount else 0;
    Accounts(if n in a.users then a.users[n := a.users[n].(lockedUntil := until)] else a.users,
             a.attempts[n := AttemptRow(count, now, until)])
  }

  /** Both the administrator's unlock and the reset after a good login. */
  function Clear(a: Accounts, n: Name): Accounts {
    Accounts(if n in a.users then a.users[n := a.users[n].(failedLogins := 0, lockedUntil := 0.0)] else a.users,
             if n in a.attempts then a.attempts[n := a.attempts[n].(failedCount := 0, lockedUntil := 0.0)]
             else a.attempts)
  }

  /** The count and lock that a failed login at `now` leaves; a first failure never locks. */
  function FailedRow(a: Accounts, n: Name, now: real): AttemptRow {
    if n !in a.attempts then AttemptRow(1, now, 0.0)
    else
      var count := a.attempts[n].failedCount + 1;
      AttemptRow(count, now, if count >= MAX_FAILED_ATTEMPTS then now + LOCKOUT_SECONDS else 0.0)
  }

  function RecordFailed(a: Accounts, n: Name, now: real): (r: (Accounts, bool)) {
    if n in a.attempts && a.attempts[n].lockedUntil > now then (a, true)
    else
      var row := FailedRow(a, n, now);
      (Accounts(if n in a.users
                then a.users[n := a.users[n].(failedLogins := row.failedCount, lockedUntil := row.lockedUntil)]
                else a.users,
                a.attempts[n := row]),
       row.failedCount >= MAX_FAILED_ATTEMPTS)
  }

  predicate IsLocked(a: Accounts, n: Name, now: real) {
    (n in a.users && a.users[n].lockedUntil > now) || LockedByAttempts(a, n, now)
  }

  predicate LockedByAttempts(a: Accounts, n: Name, now: real) {
    n in a.attempts && a.attempts[n].lockedUntil > now
  }

  datatype LoginResult = Rejected | Failed | Success

  /** `good` is what comparing the password with the stored hash answers. */
  function Login(a: Accounts, n: Name, good: bool, now: real): (r: (Accounts, LoginResult)) {
    if IsLocked(a, n, now) then (a, Rejected)
    else if n in a.users && good then (Clear(a, n), Success)
    else (RecordFailed(a, n, now).0, Failed)
  }

  // ---------------------------------------------------------------- runs

  datatype Op =
    | OpCreate(n: Name, hash: string, role: string)
    | OpDelete(n: Name)
    | OpSetRole(n: Name, role: string)
    | OpLock(n: Name, now: real, duration: real)
    | OpUnlock(n: Name)
    | OpLogin(n: Name, good: bool, now: real)

  function Apply(a: Accounts, op: Op): Accounts {
    match op
    case OpCreate(n, hash, role) => Create(a, n, hash, role).0
    case OpDelete(n) => Delete(a, n)
    case OpSetRole(n, role) => SetRole(a, n, role)
    case OpLock(n, now, duration) => Lock(a, n, now, duration)
    case OpUnlock(n) => Clear(a, n)
    case OpLogin(n, good, now) => Login(a, n, good, now).0
  }

  function Run(a: Accounts, ops: seq<Op>): Accounts {
    if ops == [] then a else Apply(Run(a, ops[..|ops| - 1]), ops[|ops| - 1])
  }

  const EMPTY := Accounts(map[], map[])

  /** The users table never holds a longer lock than login_attempts, counting no row as 0. */
  ghost predicate Mirrored(a: Accounts) {
    forall n | n in a.users ::
      a.users[n].lockedUntil <= 0.0 || (n in a.attempts && a.users[n].lockedUntil <= a.attempts[n].lockedUntil)
  }

  lemma ApplyKeepsMirrored(a: Accounts, op: Op)
    requires Mirrored(a)
    ensures Mirrored(Apply(a, op))
  {
  }

  lemma {:induction false} RunKeepsMirrored(a: Accounts, ops: seq<Op>)
    requires Mirrored(a)
    ensures Mirrored(Run(a, ops))
  {
    if ops != [] {
      RunKeepsMirrored(a, ops[..|ops| - 1]);
      ApplyKeepsMirrored(Run(a, ops[..|ops| - 1]), ops[|ops| - 1]);
    }
  }

  /** In every run of store operations, with any clock readings, asking both tables gives the
      answer that login_attempts gives alone. */
  lemma {:induction false} AttemptsTableDecides(ops: seq<Op>, n: Name, now: real)
    requires now >= 0.0
    ensures IsLocked(Run(EMPTY, ops), n, now) <==> LockedByAttempts(Run(EMPTY, ops), n, now)
  {
    RunKeepsMirrored(EMPTY, ops);
  }

  // ---------------------------------------------------------------- how often a password can be tried

  /** No success and no administrator's action on `n`; anything may happen to other names, and
      the user `n` itself may be deleted and created again. */
  predicate Quiet(a: Accounts, n: Name, op: Op) {
    match op
    case OpLock(m, _, _) => m != n
    case OpUnlock(m) => m != n
    case OpLogin(m, good, now) => m == n ==> Login(a, n, good, now).1 != Success
    case _ => true
  }

  predicate QuietRun(a: Accounts, n: Name, ops: seq<Op>) {
    ops == [] || (QuietRun(a, n, ops[..|ops| - 1]) && Quiet(Run(a, ops[..|ops| - 1]), n, ops[|ops| - 1]))
  }

  predicate IsFailure(a: Accounts, n: Name, op: Op) {
    op.OpLogin? && op.n == n && Login(a, n, op.good, op.now).1 == Failed
  }

  /** When credentials for `n` were compared and found wrong. */
  function Failures(a: Accounts, n: Name, ops: seq<Op>): seq<real> {
    if ops == [] then []
    else
      var front, last := ops[..|ops| - 1], ops[|ops| - 1];
      if IsFailure(Run(a, front), n, last) then Failures(a, n, front) + [last.now] else Failures(a, n, front)
  }

  /** The login calls on `n` read a clock that does not run backwards. */
  predicate Clocked(n: Name, ops: seq<Op>) {
    forall i, j | 0 <= i < j < |ops| && IsLoginOf(n, ops[i]) && IsLoginOf(n, ops[j]) :: ops[i].now <= ops[j].now
  }

  predicate IsLoginOf(n: Name, op: Op) { op.OpLogin? && op.n == n }

  /** Failures in order; from the fifth on, each at least a lockout after the one before. */
  ghost predicate Throttled(times: seq<real>) {
    forall i, j | 0 <= i < j < |times| ::
      times[i] <= times[j] && (j >= MAX_FAILED_ATTEMPTS && j == i + 1 ==> times[j] >= times[i] + LOCKOUT_SECONDS)
  }

  /** The row counts at least the failures so far, and locks for 900 s after the latest of five. */
  ghost predicate RowAfter(a: Accounts, n: Name, times: seq<real>) {
    times != [] ==>
      && n in a.attempts && a.attempts[n].failedCount >= |times|
      && (|times| >= MAX_FAILED_ATTEMPTS ==> a.attempts[n].lockedUntil == times[|times| - 1] + LOCKOUT_SECONDS)
  }

  lemma QuietKeepsRow(a: Accounts, n: Name, op: Op)
    requires Quiet(a, n, op) && !IsFailure(a, n, op)
    ensures (n in Apply(a, op).attempts <==> n in a.attempts)
    ensures n in a.attempts ==> Apply(a, op).attempts[n] == a.attempts[n]
  {
  }

  /** No failure is later than every login call on the name. */
  lemma {:induction false} FailuresNotAfter(a: Accounts, n: Name, ops: seq<Op>, t: real)
    requires forall i | 0 <= i < |ops| && IsLoginOf(n, ops[i]) :: ops[i].now <= t
    ensures forall k | 0 <= k < |Failures(a, n, ops)| :: Failures(a, n, ops)[k] <= t
  {
    if ops != [] {
      var m := |ops| - 1;
      assert forall i | 0 <= i < m :: ops[..m][i] == ops[i];
      FailuresNotAfter(a, n, ops[..m], t);
      if IsFailure(Run(a, ops[..m]), n, ops[m]) { assert IsLoginOf(n, ops[m]); }
    }
  }

  lemma {:induction false} QuietRunThrottles(a: Accounts, n: Name, ops: seq<Op>)
    requires QuietRun(a, n, ops) && Clocked(n, ops)
    ensures Throttled(Failures(a, n, ops)) && RowAfter(Run(a, ops), n, Failures(a, n, ops))
  {
    if ops != [] {
      var m := |ops| - 1;
      var front, op := ops[..m], ops[m];
      assert Clocked(n, front) by { assert forall i | 0 <= i < m :: front[i] == ops[i]; }
      QuietRunThrottles(a, n, front);
      var b, times := Run(a, front), Failures(a, n, front);
      if IsFailure(b, n, op) {
        assert IsLoginOf(n, op) && forall i | 0 <= i < m && IsLoginOf(n, front[i]) :: front[i] == ops[i];
        FailuresNotAfter(a, n, front, op.now);
        assert times != [] && |times| >= MAX_FAILED_ATTEMPTS ==> times[|times| - 1] + LOCKOUT_SECONDS <= op.now;
      } else {
        QuietKeepsRow(b, n, op);
      }
    }
  }

  function CountWithin(times: seq<real>, from: real, to: real): nat {
    if times == [] then 0
    else CountWithin(times[..|times| - 1], from, to) + if from <= times[|times| - 1] <= to then 1 else 0
  }

  /** The gap between two failures, the earlier being at least the fifth. */
  lemma {:induction false} Gap(times: seq<real>, i: nat, j: nat)
    requires Throttled(times) && MAX_FAILED_ATTEMPTS - 1 <= i <= j < |times|
    ensures times[j] >= times[i] + LOCKOUT_SECONDS * (j - i) as real
    decreases j
  {
    if i < j {
      Gap(times, i, j - 1);
      assert times[j] >= times[j - 1] + LOCKOUT_SECONDS;
    }
  }

  /** The first entry at or after `from`, in a list whose last entry is. */
  lemma {:induction false} FirstFrom(times: seq<real>, from: real) returns (lo: nat)
    requires Throttled(times) && times != [] && times[|times| - 1] >= from
    ensures lo < |times| && times[lo] >= from && (lo > 0 ==> times[lo - 1] < from)
    decreases |times|
  {
    var m := |times| - 1;
    if m == 0 || times[m - 1] < from {
      lo := m;
    } else {
      lo := FirstFrom(times[..m], from);
    }
  }

  lemma {:induction false} CountFrom(times: seq<real>, lo: nat, from: real, to: real)
    requires Throttled(times) && lo <= |times| && (lo > 0 ==> times[lo - 1] < from)
    ensures CountWithin(times, from, to) <= |times| - lo
  {
    if |times| > lo {
      CountFrom(times[..|times| - 1], lo, from, to);
    } else if times != [] {
      CountFrom(times[..|times| - 1], lo - 1, from, to);
    }
  }

  lemma {:induction false} ThrottledCount(times: seq<real>, from: real, span: nat, to: real)
    requires Throttled(times) && to < from + LOCKOUT_SECONDS * (span + 1) as real
    ensures CountWithin(times, from, to) <= MAX_FAILED_ATTEMPTS + span
    decreases |times|
  {
    if times != [] {
      var m := |times| - 1;
      if from <= times[m] <= to {
        var lo := FirstFrom(times, from);
        CountFrom(times, lo, from, to);
        if m >= MAX_FAILED_ATTEMPTS - 1 {
          var i := if lo < MAX_FAILED_ATTEMPTS - 1 then MAX_FAILED_ATTEMPTS - 1 else lo;
          Gap(times, i, m);
          assert times[i] >= from;
          assert (m - i) as real < (span + 1) as real;
        }
      } else {
        ThrottledCount(times[..m], from, span, to);
      }
    }
  }

  /** Main result: however login calls on one name fail, and whatever else happens to other
      names, at most 5 + floor(T / 900) credential checks fail in any T seconds. */
  lemma FailuresBounded(a: Accounts, n: Name, ops: seq<Op>, from: real, seconds: real)
    requires QuietRun(a, n, ops) && Clocked(n, ops) && seconds >= 0.0
    ensures CountWithin(Failures(a, n, ops), from, from + seconds)
            <= 5 + (seconds / 900.0).Floor
  {
    QuietRunThrottles(a, n, ops);
    ThrottledCount(Failures(a, n, ops), from, (seconds / LOCKOUT_SECONDS).Floor, from + seconds);
  }

  /** The bound is met: five failures at once, and then one at the end of each lockout. */
  function Burst(n: Name, now: real, k: nat): seq<Op> {
    if k == 0 then []
    else Burst(n, now, k - 1) + [OpLogin(n, false, if k <= MAX_FAILED_ATTEMPTS then now
                                                   else now + LOCKOUT_SECONDS * (k - MAX_FAILED_ATTEMPTS) as real)]
  }

  lemma {:induction false} BurstAllFail(n: Name, now: real, k: nat)
    requires now >= 0.0
    ensures |Failures(EMPTY, n, Burst(n, now, k))| == k
    ensures var a := Run(EMPTY, Burst(n, now, k));
            && n !in a.users && (n in a.attempts <==> k > 0)
            && (k > 0 ==> a.attempts[n].failedCount == k)
            && (0 < k < MAX_FAILED_ATTEMPTS ==> a.attempts[n].lockedUntil == 0.0)
            && (k >= MAX_FAILED_ATTEMPTS ==>
                  a.attempts[n].lockedUntil == now + LOCKOUT_SECONDS * (k - MAX_FAILED_ATTEMPTS + 1) as real)
  {
    if k > 0 {
      BurstAllFail(n, now, k - 1);
      var ops := Burst(n, now, k);
      assert ops[..k - 1] == Burst(n, now, k - 1) by { BurstLength(n, now, k - 1); }
    }
  }

  lemma {:induction false} BurstLength(n: Name, now: real, k: nat)
    ensures |Burst(n, now, k)| == k
  {
    if k > 0 { BurstLength(n, now, k - 1); }
  }
}
