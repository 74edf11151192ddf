/** The store's methods over its three tables. */
module UserStore {
  import opened Lockout
  import Revocation

  // What one call does to the two tables, in terms of their rows; no row of another name changes.

  /** Whichever table has a row for the name: its count and lock are 0, the rest of it stays. */
  ghost predicate Cleared(users: map<Name, UserRow>, users': map<Name, UserRow>,
                          attempts: map<Name, AttemptRow>, attempts': map<Name, AttemptRow>, n: Name)
  {
    && users' - {n} == users - {n} && attempts' - {n} == attempts - {n}
    && (n in users' <==> n in users) && (n in attempts' <==> n in attempts)
    && (n in users ==> users'[n] == UserRow(users[n].hash, users[n].role, 0, 0.0))
    && (n in attempts ==> attempts'[n] == AttemptRow(0, attempts[n].lastFailedAt, 0.0))
  }

  /** One failure more, at `now`; the fifth and every later one locks for 900 seconds, unless it is
      the first on record.  The user's row, if there is one, shows the same count and lock. */
  ghost predicate Counted(users: map<Name, UserRow>, users': map<Name, UserRow>,
                          attempts: map<Name, AttemptRow>, attempts': map<Name, AttemptRow>, n: Name, now: real)
  {
    && users' - {n} == users - {n} && attempts' - {n} == attempts - {n}
    && (n in users' <==> n in users) && n in attempts'
    && attempts'[n].failedCount == (if n in attempts then attempts[n].failedCount + 1 else 1)
    && attempts'[n].lastFailedAt == now
    && attempts'[n].lockedUntil == (if attempts'[n].failedCount >= 5 then now + 900.0 else 0.0)
    && (n in users ==> users'[n] == UserRow(users[n].hash, users[n].role, attempts'[n].failedCount, attempts'[n].lockedUntil))
  }

  class UserStore {
    var users: map<Name, UserRow>
    var loginAttempts: map<Name, AttemptRow>
    var revokedTokens: Revocation.Blacklist
    const checkPassword: (string, string) -> bool  // password, stored hash

    function View(): Accounts reads this { Accounts(users, loginAttempts) }

    constructor (checkPassword: (string, string) -> bool)
      ensures View() == EMPTY && revokedTokens == map[] && this.checkPassword == checkPassword
    {
      this.checkPassword := checkPassword;
      users, loginAttempts, revokedTokens := map[], map[], map[];
    }

    method CreateUser(n: Name, hash: string, role: string) returns (ok: bool)
      modifies this`users
      ensures (View(), ok) == Create(old(View()), n, hash, role)
      ensures ok <==> n !in old(users)
      ensures users == if ok then old(users)[n := UserRow(hash, role, 0, 0.0)] else old(users)
    {
      ok := n !in users;
      if ok {
        users := users[n := UserRow(hash, role, 0, 0.0)];
      }
    }

    method DeleteUser(n: Name) returns (deleted: bool)
      modifies this`users
      ensures View() == Delete(old(View()), n) && deleted == (n in old(users))
      ensures users == old(users) - {n}
    {
      deleted := n in users;
      users := users - {n};
    }

    method UpdateUserRole(n: Name, role: string) returns (ok: bool)
      modifies this`users
      ensures View() == SetRole(old(View()), n, role) && ok == (n in old(users))
      ensures users == if ok then old(users)[n := old(users)[n].(role := role)] else old(users)
    {
      ok := n in users;
      if ok {
        users := users[n := users[n].(role := role)];
      }
    }

    method LockAccount(n: Name, now: real, duration: real) returns (ok: bool)
      modifies this`users, this`loginAttempts
      ensures View() == Lock(old(View()), n, now, duration) && ok == (n in old(users))
      ensures n in loginAttempts && loginAttempts[n].lockedUntil == now + duration && loginAttempts[n].lastFailedAt == now
      ensures loginAttempts[n].failedCount == if n in old(loginAttempts) then old(loginAttempts)[n].failedCount else 0
      ensures users == if ok then old(users)[n := old(users)[n].(lockedUntil := now + duration)] else old(users)
      ensures loginAttempts - {n} == old(loginAttempts) - {n}
    {
      var until := now + duration;
      ok := n in users;
      if ok {
        users := users[n := users[n].(lockedUntil := until)];
      }
      var count := if n in loginAttempts then loginAttempts[n].failedCount else 0;
      loginAttempts := loginAttempts[n := AttemptRow(count, now, until)];
    }

    method ResetFailedLogins(n: Name)
      modifies this`users, this`loginAttempts
      ensures View() == Clear(old(View()), n)
      ensures Cleared(old(users), users, old(loginAttempts), loginAttempts, n)
    {
      if n in loginAttempts {
        loginAttempts := loginAttempts[n := loginAttempts[n].(failedCount := 0, lockedUntil := 0.0)];
      }
      if n in users {
        users := users[n := users[n].(failedLogins := 0, lockedUntil := 0.0)];
      }
    }

    method UnlockAccount(n: Name) returns (ok: bool)
      modifies this`users, this`loginAttempts
      ensures View() == Clear(old(View()), n) && ok == (n in old(users))
      ensures Cleared(old(users), users, old(loginAttempts), loginAttempts, n)
    {
      ok := n in users;
      ResetFailedLogins(n);
    }

    method RecordFailedLogin(n: Name, now: real) returns (locked: bool)
      modifies this`users, this`loginAttempts
      ensures (View(), locked) == RecordFailed(old(View()), n, now)
      ensures n in old(loginAttempts) && old(loginAttempts)[n].lockedUntil > now ==>
                locked && users == old(users) && loginAttempts == old(loginAttempts)
      ensures !(n in old(loginAttempts) && old(loginAttempts)[n].lockedUntil > now) ==>
                && Counted(old(users), users, old(loginAttempts), loginAttempts, n, now)
                && locked == (loginAttempts[n].failedCount >= 5)
    {
      var newCount: nat := 1;
      var until := 0.0;
      if n !in loginAttempts {
        loginAttempts := loginAttempts[n := AttemptRow(1, now, 0.0)];
      } else {
        newCount := loginAttempts[n].failedCount + 1;
        if loginAttempts[n].lockedUntil > now {
          return true;
        }
        until := if newCount >= MAX_FAILED_ATTEMPTS then now + LOCKOUT_SECONDS else 0.0;
        loginAttempts := loginAttempts[n := AttemptRow(newCount, now, until)];
      }
      if n in users {
        users := users[n := users[n].(failedLogins := newCount, lockedUntil := until)];
      }
      locked := newCount >= MAX_FAILED_ATTEMPTS;
    }

    method IsAccountLocked(n: Name, now: real) returns (locked: bool)
      ensures locked == IsLocked(View(), n, now)
      ensures locked <==> (n in users && users[n].lockedUntil > now) || (n in loginAttempts && loginAttempts[n].lockedUntil > now)
    {
      if n in users && users[n].lockedUntil > now {
        return true;
      }
      if n !in loginAttempts {
        return false;
      }
      return loginAttempts[n].lockedUntil > now;
    }

    /** A locked account is turned away before the password is looked at; a wrong password and
        an unknown name are recorded alike. */
    method Authenticate(n: Name, password: string, now: real) returns (result: LoginResult)
      modifies this`users, this`loginAttempts
      ensures (View(), result)
              == Login(old(View()), n, n in old(users) && checkPassword(password, old(users)[n].hash), now)
      ensures result == Rejected <==>
                || (n in old(users) && old(users)[n].lockedUntil > now)
                || (n in old(loginAttempts) && old(loginAttempts)[n].lockedUntil > now)
      ensures result != Rejected ==>
                (result == Success <==> n in old(users) && checkPassword(password, old(users)[n].hash))
      ensures result == Rejected ==> users == old(users) && loginAttempts == old(loginAttempts)
      ensures result == Success ==> Cleared(old(users), users, old(loginAttempts), loginAttempts, n)
      ensures result == Failed ==> Counted(old(users), users, old(loginAttempts), loginAttempts, n, now)
    {
      var locked := IsAccountLocked(n, now);
      if locked {
        return Rejected;
      }
      if n in users && checkPassword(password, users[n].hash) {
        ResetFailedLogins(n);
        return Success;
      }
      var _ := RecordFailedLogin(n, now);
      return Failed;
    }

    method RevokeToken(t: Revocation.Token)
      modifies this`revokedTokens
      ensures revokedTokens == Revocation.Revoke(old(revokedTokens), t)
      ensures t.jti in revokedTokens && revokedTokens[t.jti] == t.exp
      ensures revokedTokens - {t.jti} == old(revokedTokens) - {t.jti}
    {
      revokedTokens := revokedTokens[t.jti := t.exp];
    }

    method PruneRevokedTokens(now: real) returns (removed: nat)
      modifies this`revokedTokens
      ensures revokedTokens == Revocation.Prune(old(revokedTokens), now)
      ensures removed == |Revocation.Expired(old(revokedTokens), now)|
      ensures forall j :: j in revokedTokens <==> j in old(revokedTokens) && old(revokedTokens)[j] as real >= now
      ensures forall j | j in revokedTokens :: revokedTokens[j] == old(revokedTokens)[j]
    {
      var gone := Revocation.Expired(revokedTokens, now);
      revokedTokens := revokedTokens - gone;
      removed := |gone|;
    }

    method VerifyToken(t: Revocation.Token, now: real) returns (accepted: bool)
      modifies this`revokedTokens
      ensures (revokedTokens, accepted) == Revocation.Verify(old(revokedTokens), t, now)
      ensures accepted <==> now < t.exp as real
                            && !(t.jti in old(revokedTokens) && old(revokedTokens)[t.jti] as real >= now)
      ensures t.exp as real <= now ==> revokedTokens == old(revokedTokens)
    {
      if t.exp as real <= now {
        return false;
      }
      var _ := PruneRevokedTokens(now);
      accepted := t.jti !in revokedTokens;
    }
  }
}
