/** The depth-first dependency search over a possibly cyclic package graph. */
module Dependencies {

  type Id = string

  datatype Package = Package(
    dependencies: seq<Id>, required: bool, sizeMb: int, ports: seq<int>, buildroot: seq<string>,
    image: string, install: string, arm64: bool, gpuRecommended: bool, minRamGb: int)

  type Graph = map<Id, Package>

  function Deps(g: Graph, id: Id): seq<Id> { if id in g then g[id].dependencies else [] }

  /** The search's two accumulators. */
  datatype Trail = Trail(seen: set<Id>, resolved: seq<Id>)

  const START := Trail({}, [])

  // ---------------------------------------------------------------- the search

  function Visit(g: Graph, pid: Id, t: Trail): (r: Trail)
    ensures t.seen <= r.seen && pid in r.seen
    decreases g.Keys - t.seen, 0
  {
    if pid in t.seen then t
    else
      var marked := t.(seen := t.seen + {pid});
      if pid !in g then marked
      else
        var below := VisitAll(g, g[pid].dependencies, marked);
        below.(resolved := below.resolved + [pid])
  }

  function VisitAll(g: Graph, ids: seq<Id>, t: Trail): (r: Trail)
    ensures t.seen <= r.seen && forall id | id in ids :: id in r.seen
    decreases g.Keys - t.seen, |ids|
  {
    if ids == [] then t
    else
      var n := |ids| - 1;
      var front := VisitAll(g, ids[..n], t);
      assert g.Keys - front.seen <= g.Keys - t.seen;
      assert ids == ids[..n] + [ids[n]];
      Visit(g, ids[n], front)
  }

  /** The closure of the source with its two captured variables. */
  class Resolution {
    var seen: set<Id>
    var resolved: seq<Id>

    ghost function View(): Trail reads this { Trail(seen, resolved) }

    constructor ()
      ensures View() == START
    {
      seen, resolved := {}, [];
    }

    method Resolve(g: Graph, pid: Id)
      modifies this
      ensures View() == Visit(g, pid, old(View()))
      decreases g.Keys - seen, 0
    {
      if pid in seen {
        return;
      }
      seen := seen + {pid};
      if pid !in g {
        return;
      }
      ResolveAll(g, g[pid].dependencies);
      resolved := resolved + [pid];
    }

    method ResolveAll(g: Graph, ids: seq<Id>)
      modifies this
      ensures View() == VisitAll(g, ids, old(View()))
      decreases g.Keys - seen, |ids|
    {
      for i := 0 to |ids|
        invariant View() == VisitAll(g, ids[..i], old(View()))
      {
        assert ids[..i + 1][..i] == ids[..i];
        assert g.Keys - seen <= g.Keys - old(seen);
        Resolve(g, ids[i]);
      }
      assert ids[..|ids|] == ids;
    }
  }

  // ---------------------------------------------------------------- reachability

  ghost predicate IsPath(g: Graph, p: seq<Id>) {
    |p| > 0 && forall i | 0 <= i < |p| - 1 :: p[i + 1] in Deps(g, p[i])
  }

  ghost predicate Reaches(g: Graph, a: Id, b: Id) {
    exists p :: IsPath(g, p) && p[0] == a && p[|p| - 1] == b
  }

  lemma ReachesSelf(g: Graph, a: Id)
    ensures Reaches(g, a, a)
  {
    assert IsPath(g, [a]) && [a][0] == a && [a][|[a]| - 1] == a;
  }

  lemma ReachesEdge(g: Graph, a: Id, b: Id)
    requires b in Deps(g, a)
    ensures Reaches(g, a, b)
  {
    assert IsPath(g, [a, b]) && [a, b][0] == a && [a, b][|[a, b]| - 1] == b;
  }

  lemma ReachesTrans(g: Graph, a: Id, b: Id, c: Id)
    requires Reaches(g, a, b) && Reaches(g, b, c)
    ensures Reaches(g, a, c)
  {
    var p :| IsPath(g, p) && p[0] == a && p[|p| - 1] == b;
    var q :| IsPath(g, q) && q[0] == b && q[|q| - 1] == c;
    var w := p + q[1..];
    assert IsPath(g, w) && w[0] == a && w[|w| - 1] == c;
  }

  ghost predicate ReachedFrom(g: Graph, roots: seq<Id>, b: Id) {
    exists r | r in roots :: Reaches(g, r, b)
  }

  // ---------------------------------------------------------------- what one search does

  /** Known packages that have been entered but not yet finished. */
  function Open(g: Graph, t: Trail): set<Id> { t.seen * g.Keys - Elements(t.resolved) }

  function Elements(s: seq<Id>): set<Id> { set i | 0 <= i < |s| :: s[i] }

  ghost predicate Distinct(s: seq<Id>) { forall i, j | 0 <= i < j < |s| :: s[i] != s[j] }

  ghost predicate TrailOk(g: Graph, t: Trail) {
    Distinct(t.resolved) && Elements(t.resolved) <= t.seen * g.Keys
  }

  /** The trail only grows, new entries are new packages, and no more are open than before. */
  ghost predicate Grows(g: Graph, t: Trail, r: Trail) {
    && TrailOk(g, r)
    && Open(g, r) == Open(g, t)
    && t.seen <= r.seen
    && |t.resolved| <= |r.resolved| && r.resolved[..|t.resolved|] == t.resolved
    && forall j | |t.resolved| <= j < |r.resolved| :: r.resolved[j] !in t.seen
  }

  /** Entry `j` stands after each known dependency, unless the two lie on a cycle. */
  ghost predicate Settled(g: Graph, seen: set<Id>, resolved: seq<Id>, j: nat)
    requires j < |resolved|
  {
    forall d | d in Deps(g, resolved[j]) ::
      d in seen && (d in g ==> d in resolved[..j] || Reaches(g, d, resolved[j]))
  }

  ghost predicate DepsFirst(g: Graph, t: Trail, r: Trail) {
    forall j | |t.resolved| <= j < |r.resolved| :: Settled(g, r.seen, r.resolved, j)
  }

  ghost predicate NewReached(g: Graph, roots: seq<Id>, t: Trail, r: Trail) {
    forall x | x in r.seen && x !in t.seen :: ReachedFrom(g, roots, x)
  }

  /** Everything a search from a trail guarantees about the trail it returns. */
  ghost predicate Extends(g: Graph, roots: seq<Id>, t: Trail, r: Trail) {
    Grows(g, t, r) && DepsFirst(g, t, r) && NewReached(g, roots, t, r)
  }

  ghost predicate OpenReach(g: Graph, t: Trail, id: Id) {
    forall o | o in Open(g, t) :: Reaches(g, o, id)
  }

  lemma GrowsTrans(g: Graph, t: Trail, u: Trail, r: Trail)
    requires Grows(g, t, u) && Grows(g, u, r)
    ensures Grows(g, t, r)
  {
    forall j | 0 <= j < |u.resolved|
      ensures r.resolved[j] == u.resolved[j]
    {
      assert r.resolved[j] == r.resolved[..|u.resolved|][j];
    }
  }

  lemma DepsFirstTrans(g: Graph, t: Trail, u: Trail, r: Trail)
    requires Grows(g, u, r) && DepsFirst(g, t, u) && DepsFirst(g, u, r)
    ensures DepsFirst(g, t, r)
  {
    forall j | |t.resolved| <= j < |u.resolved|
      ensures Settled(g, r.seen, r.resolved, j)
    {
      assert r.resolved[j] == r.resolved[..|u.resolved|][j];
      assert r.resolved[..j] == r.resolved[..|u.resolved|][..j];
      assert Settled(g, u.seen, u.resolved, j);
    }
  }

  lemma NewReachedTrans(g: Graph, a: seq<Id>, b: seq<Id>, t: Trail, u: Trail, r: Trail)
    requires NewReached(g, a, t, u) && NewReached(g, b, u, r)
    ensures NewReached(g, a + b, t, r)
  {
    forall x | x in r.seen && x !in t.seen
      ensures ReachedFrom(g, a + b, x)
    {
      var q :| (q in a || q in b) && Reaches(g, q, x);
      assert q in a + b;
    }
  }

  lemma {:induction false} VisitExtends(g: Graph, pid: Id, t: Trail)
    requires TrailOk(g, t) && OpenReach(g, t, pid)
    ensures Extends(g, [pid], t, Visit(g, pid, t))
    decreases g.Keys - t.seen, 0
  {
    ReachesSelf(g, pid);
    if pid !in t.seen && pid in g {
      var marked := t.(seen := t.seen + {pid});
      assert Open(g, marked) == Open(g, t) + {pid};
      forall dep | dep in g[pid].dependencies
        ensures OpenReach(g, marked, dep)
      {
        ReachesEdge(g, pid, dep);
        forall o | o in Open(g, t) ensures Reaches(g, o, dep) { ReachesTrans(g, o, pid, dep); }
      }
      VisitAllExtends(g, g[pid].dependencies, marked);
      var below := VisitAll(g, g[pid].dependencies, marked);
      FinishGrows(g, pid, t, below);
      FinishDepsFirst(g, pid, t, below);
      FinishReached(g, pid, t, below);
    } else if pid !in t.seen {
      assert Open(g, Visit(g, pid, t)) == Open(g, t);
    }
  }

  /** Appending a package whose dependencies have all been entered closes what it opened. */
  lemma FinishGrows(g: Graph, pid: Id, t: Trail, below: Trail)
    requires pid in g && pid !in t.seen && TrailOk(g, t)
    requires Grows(g, t.(seen := t.seen + {pid}), below)
    ensures Grows(g, t, below.(resolved := below.resolved + [pid]))
  {
    var r := below.(resolved := below.resolved + [pid]);
    var n := |below.resolved|;
    assert Open(g, t.(seen := t.seen + {pid})) == Open(g, t) + {pid};
    assert pid in Open(g, below) && pid !in Elements(below.resolved);
    assert forall i | 0 <= i < n :: r.resolved[i] == below.resolved[i] && r.resolved[i] in Elements(below.resolved);
    assert Elements(r.resolved) == Elements(below.resolved) + {pid} by { assert r.resolved[n] == pid; }
    assert r.resolved[..|t.resolved|] == below.resolved[..|t.resolved|];
  }

  lemma FinishDepsFirst(g: Graph, pid: Id, t: Trail, below: Trail)
    requires pid in g && pid !in t.seen && OpenReach(g, t, pid) && Reaches(g, pid, pid)
    requires Open(g, below) == Open(g, t.(seen := t.seen + {pid}))
    requires DepsFirst(g, t.(seen := t.seen + {pid}), below)
    requires forall d | d in g[pid].dependencies :: d in below.seen
    ensures DepsFirst(g, t, below.(resolved := below.resolved + [pid]))
  {
    var r := below.(resolved := below.resolved + [pid]);
    var n := |below.resolved|;
    forall j | |t.resolved| <= j < |r.resolved|
      ensures Settled(g, r.seen, r.resolved, j)
    {
      assert r.resolved[..j] == below.resolved[..j];
      if j < n {
        assert Settled(g, below.seen, below.resolved, j);
      } else {
        assert below.resolved[..n] == below.resolved;
        forall d | d in g[pid].dependencies && d in g && d !in below.resolved
          ensures Reaches(g, d, pid)
        {
          assert d in Open(g, below);
        }
      }
    }
  }

  lemma FinishReached(g: Graph, pid: Id, t: Trail, below: Trail)
    requires pid in g && Reaches(g, pid, pid)
    requires NewReached(g, g[pid].dependencies, t.(seen := t.seen + {pid}), below)
    ensures NewReached(g, [pid], t, below.(resolved := below.resolved + [pid]))
  {
    forall x | x in below.seen && x !in t.seen
      ensures ReachedFrom(g, [pid], x)
    {
      assert pid in [pid];
      if x != pid {
        var q :| q in g[pid].dependencies && Reaches(g, q, x);
        ReachesEdge(g, pid, q);
        ReachesTrans(g, pid, q, x);
      }
    }
  }

  lemma {:induction false} VisitAllExtends(g: Graph, ids: seq<Id>, t: Trail)
    requires TrailOk(g, t) && forall id | id in ids :: OpenReach(g, t, id)
    ensures Extends(g, ids, t, VisitAll(g, ids, t))
    decreases g.Keys - t.seen, |ids|
  {
    if ids != [] {
      var n := |ids| - 1;
      assert ids == ids[..n] + [ids[n]];
      VisitAllExtends(g, ids[..n], t);
      var front := VisitAll(g, ids[..n], t);
      assert g.Keys - front.seen <= g.Keys - t.seen;
      assert OpenReach(g, front, ids[n]) by { assert OpenReach(g, t, ids[n]); }
      VisitExtends(g, ids[n], front);
      var r := VisitAll(g, ids, t);
      assert r == Visit(g, ids[n], front);
      GrowsTrans(g, t, front, r);
      DepsFirstTrans(g, t, front, r);
      NewReachedTrans(g, ids[..n], [ids[n]], t, front, r);
    }
  }

  // ---------------------------------------------------------------- the order of siblings

  /** `x` is listed, and `y` behind it. */
  ghost predicate InTurn(listed: seq<Id>, x: Id, y: Id) {
    exists a, b :: 0 <= a < b < |listed| && listed[a] == x && listed[b] == y
  }

  lemma ListedBehind(g: Graph, front: Trail, r: Trail, x: Id, y: Id)
    requires TrailOk(g, front) && Grows(g, front, r) && x in front.resolved && y in r.resolved && y !in front.seen
    ensures InTurn(r.resolved, x, y)
  {
    var n := |front.resolved|;
    var a :| 0 <= a < n && front.resolved[a] == x;
    var b :| 0 <= b < |r.resolved| && r.resolved[b] == y;
    assert r.resolved[..n][a] == r.resolved[a];
    assert forall k | 0 <= k < n :: r.resolved[k] == r.resolved[..n][k] && front.resolved[k] in Elements(front.resolved);
  }

  lemma SeenThenListed(g: Graph, r: Trail, x: Id)
    requires x in g && x in r.seen && x !in Open(g, r)
    ensures x in r.resolved
  {
    assert x in Elements(r.resolved);
  }

  lemma {:induction false} VisitAllSplits(g: Graph, a: seq<Id>, b: seq<Id>, t: Trail)
    ensures VisitAll(g, a + b, t) == VisitAll(g, b, VisitAll(g, a, t))
    decreases |b|
  {
    if b == [] {
      assert a + b == a;
    } else {
      var n := |b| - 1;
      assert (a + b)[..|a| + n] == a + b[..n];
      VisitAllSplits(g, a, b[..n], t);
    }
  }

  /** Of two ids searched for in turn, the later one, if the search for the ids up to the earlier
      one does not reach it, is listed behind the earlier one. */
  lemma ListedInTurn(g: Graph, ids: seq<Id>, t: Trail, i: nat, j: nat)
    requires TrailOk(g, t) && forall id | id in ids :: OpenReach(g, t, id)
    requires i < j < |ids| && ids[i] in g && ids[i] !in Open(g, t) && ids[j] in g && ids[j] !in t.seen
    requires !ReachedFrom(g, ids[..i + 1], ids[j])
    ensures InTurn(VisitAll(g, ids, t).resolved, ids[i], ids[j])
  {
    var first, rest := ids[..i + 1], ids[i + 1..];
    assert ids == first + rest;
    var front, r := VisitAll(g, first, t), VisitAll(g, ids, t);
    VisitAllExtends(g, first, t);
    VisitAllSplits(g, first, rest, t);
    assert OpenReachAll(g, front, rest) by {
      assert forall id | id in rest :: id in ids;
    }
    VisitAllExtends(g, rest, front);
    assert first[i] == ids[i] && rest[j - i - 1] == ids[j];
    SeenThenListed(g, front, ids[i]);
    SeenThenListed(g, r, ids[j]);
    ListedBehind(g, front, r, ids[i], ids[j]);
  }

  ghost predicate OpenReachAll(g: Graph, t: Trail, ids: seq<Id>) { forall id | id in ids :: OpenReach(g, t, id) }

  /** So the dependencies of a package entered for the first time are listed in their own order,
      unless one is already listed, still open, or needed by an earlier one. */
  lemma SiblingsInTurn(g: Graph, pid: Id, t: Trail, i: nat, j: nat)
    requires TrailOk(g, t) && OpenReach(g, t, pid) && pid in g && pid !in t.seen
    requires var deps := g[pid].dependencies;
             && i < j < |deps| && deps[i] in g && deps[i] != pid && deps[i] !in Open(g, t)
             && deps[j] in g && deps[j] != pid && deps[j] !in t.seen && !ReachedFrom(g, deps[..i + 1], deps[j])
    ensures var r, deps := Visit(g, pid, t).resolved, g[pid].dependencies;
            r != [] && r[|r| - 1] == pid && InTurn(r[..|r| - 1], deps[i], deps[j])
  {
    var marked, deps := t.(seen := t.seen + {pid}), g[pid].dependencies;
    assert Open(g, marked) == Open(g, t) + {pid};
    forall dep | dep in deps ensures OpenReach(g, marked, dep) {
      ReachesEdge(g, pid, dep);
      forall o | o in Open(g, t) ensures Reaches(g, o, dep) { ReachesTrans(g, o, pid, dep); }
    }
    ListedInTurn(g, deps, marked, i, j);
    var below, r := VisitAll(g, deps, marked).resolved, Visit(g, pid, t).resolved;
    assert r == below + [pid] && r[..|r| - 1] == below;
  }
}
