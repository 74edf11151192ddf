/** The token blacklist and its pruning, with one clock reading per call. */
module Revocation {

  type Jti = string

  /** What `create_token` puts in a token and `verify_token` looks at. */
  datatype Token = Token(jti: Jti, exp: int)

  const EXPIRY_SECONDS := 86400

  type Blacklist = map<Jti, int>  // jti -> expires_at

  // ---------------------------------------------------------------- the operations

  /** `now` is the clock's integer part, as `int(time.time())`. */
  function CreateToken(jti: Jti, now: real): Token { Token(jti, now.Floor + EXPIRY_SECONDS) }

  function Expired(b: Blacklist, now: real): set<Jti> { set j | j in b && b[j] as real < now }

  function Prune(b: Blacklist, now: real): Blacklist { b - Expired(b, now) }

  function Revoke(b: Blacklist, t: Token): Blacklist { b[t.jti := t.exp] }

  /** Decoding rejects a token on or after `exp` (section 4.1.4 of RFC 7519) before the blacklist is
      touched; otherwise the blacklist is pruned and then asked. */
  function Verify(b: Blacklist, t: Token, now: real): (Blacklist, bool) {
    if t.exp as real <= now then (b, false)
    else
      var pruned := Prune(b, now);
      (pruned, t.jti !in pruned)
  }

  datatype Op =
    | OpRevoke(t: Token)
    | OpVerify(t: Token, now: real)
    | OpPurge(now: real)

  function Apply(b: Blacklist, op: Op): Blacklist {
    match op
    case OpRevoke(t) => Revoke(b, t)
    case OpVerify(t, now) => Verify(b, t, now).0
    case OpPurge(now) => Prune(b, now)
  }

  function Run(ops: seq<Op>): Blacklist {
    if ops == [] then map[] else Apply(Run(ops[..|ops| - 1]), ops[|ops| - 1])
  }

  // ---------------------------------------------------------------- the blacklist that is never pruned

  predicate EverRevoked(ops: seq<Op>, jti: Jti) {
    exists i | 0 <= i < |ops| :: IsRevoke(ops[i], jti)
  }

  predicate IsRevoke(op: Op, jti: Jti) { op.OpRevoke? && op.t.jti == jti }

  predicate IdealVerify(ops: seq<Op>, t: Token, now: real) {
    now < t.exp as real && !EverRevoked(ops, t.jti)
  }

  /** Tokens are issued under fresh ids, so a jti has one expiry time. */
  ghost predicate OneExpiry(ops: seq<Op>, jti: Jti, exp: int) {
    forall i | 0 <= i < |ops| && IsRevoke(ops[i], jti) :: ops[i].t.exp == exp
  }

  /** A token for each issuance, by id and clock reading. */
  ghost predicate Issued(issued: seq<(Jti, real)>, t: Token) {
    exists i | 0 <= i < |issued| :: t == CreateToken(issued[i].0, issued[i].1)
  }

  /** Fresh ids give it: when no two tokens were issued under one id and only issued tokens are
      revoked, a token's id has that token's expiry wherever it is revoked. */
  lemma FreshIdsOneExpiry(issued: seq<(Jti, real)>, ops: seq<Op>, t: Token)
    requires forall i, j | 0 <= i < j < |issued| :: issued[i].0 != issued[j].0
    requires Issued(issued, t) && forall i | 0 <= i < |ops| && ops[i].OpRevoke? :: Issued(issued, ops[i].t)
    ensures OneExpiry(ops, t.jti, t.exp)
  {
    var i :| 0 <= i < |issued| && t == CreateToken(issued[i].0, issued[i].1);
    forall k | 0 <= k < |ops| && IsRevoke(ops[k], t.jti) ensures ops[k].t.exp == t.exp {
      var j :| 0 <= j < |issued| && ops[k].t == CreateToken(issued[j].0, issued[j].1);
      assert !(i < j) && !(j < i);
    }
  }

  /** A token that is never revoked is accepted for 24 hours from the whole second of its issue, and
      not after. */
  lemma LifeOfAToken(ops: seq<Op>, jti: Jti, issuedAt: real, now: real)
    requires !EverRevoked(ops, jti)
    ensures Verify(Run(ops), CreateToken(jti, issuedAt), now).1 <==> now < (issuedAt.Floor + 86400) as real
  {
    NeverListed(ops, jti);
  }

  lemma {:induction false} NeverListed(ops: seq<Op>, jti: Jti)
    requires !EverRevoked(ops, jti)
    ensures jti !in Run(ops)
  {
    if ops != [] {
      var n := |ops| - 1;
      assert forall i | 0 <= i < n :: ops[..n][i] == ops[i];
      assert !IsRevoke(ops[n], jti);
      NeverListed(ops[..n], jti);
    }
  }

  /** Whether the operation prunes with a reading later than `exp`. */
  predicate PrunesPast(op: Op, exp: int) {
    match op
    case OpVerify(t, now) => now < t.exp as real && exp as real < now
    case OpPurge(now) => exp as real < now
    case OpRevoke(_) => false
  }

  /** Revocation number `i` survives if nothing after it prunes past its expiry. */
  ghost predicate Survives(ops: seq<Op>, i: nat, exp: int) {
    forall k | i < k < |ops| :: !PrunesPast(ops[k], exp)
  }

  ghost predicate Kept(ops: seq<Op>, jti: Jti, exp: int) {
    exists i | 0 <= i < |ops| :: IsRevoke(ops[i], jti) && Survives(ops, i, exp)
  }

  lemma KeptSnoc(ops: seq<Op>, op: Op, jti: Jti, exp: int)
    ensures Kept(ops + [op], jti, exp) <==> IsRevoke(op, jti) || (Kept(ops, jti, exp) && !PrunesPast(op, exp))
  {
    var more, n := ops + [op], |ops|;
    assert more[n] == op && forall i | 0 <= i < n :: more[i] == ops[i];
    if IsRevoke(op, jti) {
      assert Survives(more, n, exp);
    }
    if Kept(ops, jti, exp) && !PrunesPast(op, exp) {
      var i :| 0 <= i < n && IsRevoke(ops[i], jti) && Survives(ops, i, exp);
      assert IsRevoke(more[i], jti) && Survives(more, i, exp);
    }
    if Kept(more, jti, exp) && !IsRevoke(op, jti) {
      var i :| 0 <= i < |more| && IsRevoke(more[i], jti) && Survives(more, i, exp);
      assert i < n && IsRevoke(ops[i], jti);
      assert !PrunesPast(more[n], exp);
      assert forall k | i < k < n :: !PrunesPast(more[k], exp);
      assert Survives(ops, i, exp);
    }
  }

  /** The pruned blacklist holds exactly the revocations that survived, whatever the clock did. */
  lemma {:induction false} BlacklistIsSurvivors(ops: seq<Op>, jti: Jti, exp: int)
    requires OneExpiry(ops, jti, exp)
    ensures jti in Run(ops) <==> Kept(ops, jti, exp)
    ensures jti in Run(ops) ==> Run(ops)[jti] == exp
  {
    if ops != [] {
      var n := |ops| - 1;
      var front := ops[..n];
      assert ops == front + [ops[n]] && forall i | 0 <= i < n :: front[i] == ops[i];
      BlacklistIsSurvivors(front, jti, exp);
      KeptSnoc(front, ops[n], jti, exp);
    }
  }

  /** A pruned answer differs from the never-pruned one exactly when the token is unexpired and
      revoked, and each of its revocations was followed by a prune whose reading lies past the
      token's expiry - that is, later than the present reading. */
  lemma PruningChangesAnswerIff(ops: seq<Op>, t: Token, now: real)
    requires OneExpiry(ops, t.jti, t.exp)
    ensures Verify(Run(ops), t, now).1 != IdealVerify(ops, t, now)
            <==> now < t.exp as real && EverRevoked(ops, t.jti) && !Kept(ops, t.jti, t.exp)
  {
    BlacklistIsSurvivors(ops, t.jti, t.exp);
    if Kept(ops, t.jti, t.exp) {
      var i :| 0 <= i < |ops| && IsRevoke(ops[i], t.jti) && Survives(ops, i, t.exp);
    }
  }

  predicate ReadsClock(op: Op) { op.OpVerify? || op.OpPurge? }

  /** Main result: when no earlier reading is later than the present one, pruning never changes
      an answer. */
  lemma {:induction false} PruningIsInvisible(ops: seq<Op>, t: Token, now: real)
    requires OneExpiry(ops, t.jti, t.exp)
    requires forall i | 0 <= i < |ops| && ReadsClock(ops[i]) :: ops[i].now <= now
    ensures Verify(Run(ops), t, now).1 == IdealVerify(ops, t, now)
  {
    PruningChangesAnswerIff(ops, t, now);
    if now < t.exp as real && EverRevoked(ops, t.jti) {
      var i :| 0 <= i < |ops| && IsRevoke(ops[i], t.jti);
      forall k | i < k < |ops|
        ensures !PrunesPast(ops[k], t.exp)
      {
        assert ReadsClock(ops[k]) ==> ops[k].now <= now;
      }
      assert Survives(ops, i, t.exp);
    }
  }

  /** So a revoked token is refused at every later moment of its life, and after it. */
  lemma RevokedStaysRefused(ops: seq<Op>, t: Token, later: seq<Op>, now: real)
    requires OneExpiry(ops + [OpRevoke(t)] + later, t.jti, t.exp)
    requires forall i | 0 <= i < |ops + [OpRevoke(t)] + later| && ReadsClock((ops + [OpRevoke(t)] + later)[i]) ::
               (ops + [OpRevoke(t)] + later)[i].now <= now
    ensures !Verify(Run(ops + [OpRevoke(t)] + later), t, now).1
  {
    var all := ops + [OpRevoke(t)] + later;
    PruningIsInvisible(all, t, now);
    assert IsRevoke(all[|ops|], t.jti);
  }

  /** With a clock that was set back, a pruned revocation is forgotten while the token lives. */
  lemma ClockSetBack(jti: Jti)
    ensures var ops := [OpRevoke(Token(jti, 100)), OpPurge(200.0)];
            Verify(Run(ops), Token(jti, 100), 50.0).1 && !IdealVerify(ops, Token(jti, 100), 50.0)
  {
    var ops := [OpRevoke(Token(jti, 100)), OpPurge(200.0)];
    assert IsRevoke(ops[0], jti) && PrunesPast(ops[1], 100);
    assert OneExpiry(ops, jti, 100);
    assert !Survives(ops, 0, 100) && !IsRevoke(ops[1], jti);
    PruningChangesAnswerIff(ops, Token(jti, 100), 50.0);
  }
}
