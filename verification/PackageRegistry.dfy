/** The package registry and the build manifest on top of the dependency search. */
module PackageRegistry {
  import opened Common
  import opened Dependencies

  /** The catalogue as the dictionary the registry keeps: ids in file order, and what they name. */
  datatype Catalog = Catalog(order: seq<Id>, packages: Graph)

  ghost predicate ValidCatalog(c: Catalog) {
    Distinct(c.order) && Elements(c.order) == c.packages.Keys
  }

  datatype Target = Target(arch: string, accelerator: string)
  datatype Tier = Tier(maxRamGb: int, maxImageSizeGb: int)

  datatype Warning =
    | UnknownTarget | UnknownTier | UnknownPackage(id: Id) | NotArm64(id: Id) | WantsGpu(id: Id)
    | NeedsRam(id: Id) | TooBig

  datatype Manifest = Manifest(packages: seq<Id>, buildroot: set<string>, images: seq<string>,
                               installs: seq<string>, ports: set<int>, sizeMb: int)

  const BASE_SIZE_MB := 200

  // ---------------------------------------------------------------- specification

  function RequiredAmong(c: Catalog, ids: seq<Id>): seq<Id> {
    if ids == [] then []
    else
      var last := ids[|ids| - 1];
      RequiredAmong(c, ids[..|ids| - 1])
      + if last in c.packages && c.packages[last].required then [last] else []
  }

  function Required(c: Catalog): seq<Id> { RequiredAmong(c, c.order) }

  lemma {:induction false} RequiredAmongMembers(c: Catalog, ids: seq<Id>)
    ensures forall x :: x in RequiredAmong(c, ids) <==> x in ids && x in c.packages && c.packages[x].required
    ensures Distinct(ids) ==> Distinct(RequiredAmong(c, ids))
  {
    if ids != [] {
      var n := |ids| - 1;
      RequiredAmongMembers(c, ids[..n]);
      assert ids == ids[..n] + [ids[n]];
      if Distinct(ids) {
        assert forall i | 0 <= i < n :: ids[..n][i] != ids[n];
        assert ids[n] !in RequiredAmong(c, ids[..n]);
      }
    }
  }

  /** In a catalogue whose order lists its packages, exactly the packages marked required, once. */
  lemma RequiredMembers(c: Catalog)
    requires ValidCatalog(c)
    ensures forall x :: x in Required(c) <==> x in c.packages && c.packages[x].required
    ensures Distinct(Required(c))
  {
    RequiredAmongMembers(c, c.order);
    assert forall x | x in c.packages :: x in Elements(c.order);
  }

  function Resolve(c: Catalog, ids: seq<Id>): seq<Id> {
    VisitAll(c.packages, Required(c) + ids, START).resolved
  }

  function SizeOf(g: Graph, id: Id): int { if id in g then g[id].sizeMb else 0 }

  function TotalSize(g: Graph, ids: seq<Id>): int {
    if ids == [] then 0 else TotalSize(g, ids[..|ids| - 1]) + SizeOf(g, ids[|ids| - 1])
  }

  function PackageWarnings(g: Graph, target: Target, tier: Tier, id: Id): seq<Warning> {
    if id !in g then [UnknownPackage(id)]
    else
      (if !g[id].arm64 && target.arch == "aarch64" then [NotArm64(id)] else [])
      + (if g[id].gpuRecommended && target.accelerator == "cpu" then [WantsGpu(id)] else [])
      + (if g[id].minRamGb > tier.maxRamGb then [NeedsRam(id)] else [])
  }

  function AllWarnings(g: Graph, target: Target, tier: Tier, ids: seq<Id>): seq<Warning> {
    if ids == [] then []
    else AllWarnings(g, target, tier, ids[..|ids| - 1]) + PackageWarnings(g, target, tier, ids[|ids| - 1])
  }

  /** What the manifest loop has collected after `ids`. */
  function Collect(g: Graph, ids: seq<Id>): Manifest {
    if ids == [] then Manifest([], {}, [], [], {}, BASE_SIZE_MB)
    else
      var n := |ids| - 1;
      var m, id := Collect(g, ids[..n]), ids[n];
      if id !in g then m.(packages := ids)
      else Manifest(ids, m.buildroot + Strings(g[id].buildroot),
                    m.images + NonEmpty(g[id].image), m.installs + NonEmpty(g[id].install),
                    m.ports + Ints(g[id].ports), m.sizeMb + g[id].sizeMb)
  }

  function NonEmpty(s: string): seq<string> { if s == "" then [] else [s] }
  function Strings(s: seq<string>): set<string> { set i | 0 <= i < |s| :: s[i] }
  function Ints(s: seq<int>): set<int> { set i | 0 <= i < |s| :: s[i] }

  // ---------------------------------------------------------------- the registry's loops

  method GetRequiredPackages(c: Catalog) returns (ids: seq<Id>)
    ensures ids == Required(c)
  {
    ids := [];
    for i := 0 to |c.order|
      invariant ids == RequiredAmong(c, c.order[..i])
    {
      assert c.order[..i + 1][..i] == c.order[..i];
      if c.order[i] in c.packages && c.packages[c.order[i]].required { ids := ids + [c.order[i]]; }
    }
    assert c.order[..|c.order|] == c.order;
  }

  method ResolveDependencies(c: Catalog, ids: seq<Id>) returns (resolved: seq<Id>)
    ensures resolved == Resolve(c, ids)
  {
    var required := GetRequiredPackages(c);
    var search := new Resolution();
    search.ResolveAll(c.packages, required);
    search.ResolveAll(c.packages, ids);
    VisitAllSplits(c.packages, required, ids, START);
    resolved := search.resolved;
  }

  method EstimateImageSizeMb(c: Catalog, ids: seq<Id>) returns (total: int)
    ensures total == BASE_SIZE_MB + TotalSize(c.packages, ids)
    ensures Distinct(ids) ==> total == 200 + SetSize(c.packages, Elements(ids))
  {
    total := BASE_SIZE_MB;
    for i := 0 to |ids|
      invariant total == BASE_SIZE_MB + TotalSize(c.packages, ids[..i])
    {
      assert ids[..i + 1][..i] == ids[..i];
      if ids[i] in c.packages { total := total + c.packages[ids[i]].sizeMb; }
    }
    assert ids[..|ids|] == ids;
    if Distinct(ids) {
      TotalIsSetSize(c.packages, ids);
    }
  }

  /** `None` stands for a target or tier id that the registry does not know. */
  method ValidatePackagesForTarget(c: Catalog, ids: seq<Id>, target: Option<Target>, tier: Option<Tier>)
    returns (warnings: seq<Warning>)
    ensures target.None? ==> warnings == [UnknownTarget]
    ensures target.Some? && tier.None? ==> warnings == [UnknownTier]
    ensures target.Some? && tier.Some? ==>
              warnings == AllWarnings(c.packages, target.value, tier.value, ids)
                          + if BASE_SIZE_MB + TotalSize(c.packages, ids) > 1024 * tier.value.maxImageSizeGb
                            then [TooBig] else []
    ensures target.Some? && tier.Some? ==> forall w :: w in warnings <==> Deserved(c.packages, target.value, tier.value, ids, w)
  {
    if target.None? {
      return [UnknownTarget];
    }
    if tier.None? {
      return [UnknownTier];
    }
    warnings := [];
    for i := 0 to |ids|
      invariant warnings == AllWarnings(c.packages, target.value, tier.value, ids[..i])
    {
      assert ids[..i + 1][..i] == ids[..i];
      warnings := warnings + PackageWarnings(c.packages, target.value, tier.value, ids[i]);
    }
    assert ids[..|ids|] == ids;
    var estimate := EstimateImageSizeMb(c, ids);
    forall w ensures w in warnings <==> w != TooBig && Deserved(c.packages, target.value, tier.value, ids, w) {
      WarningsExact(c.packages, target.value, tier.value, ids, w);
    }
    if estimate > 1024 * tier.value.maxImageSizeGb {
      warnings := warnings + [TooBig];
    }
  }

  /** When a warning is due, for one of the listed packages or for the list as a whole. */
  ghost predicate Deserved(g: Graph, target: Target, tier: Tier, ids: seq<Id>, w: Warning) {
    match w
    case UnknownTarget => false
    case UnknownTier => false
    case UnknownPackage(x) => x in ids && x !in g
    case NotArm64(x) => x in ids && x in g && !g[x].arm64 && target.arch == "aarch64"
    case WantsGpu(x) => x in ids && x in g && g[x].gpuRecommended && target.accelerator == "cpu"
    case NeedsRam(x) => x in ids && x in g && g[x].minRamGb > tier.maxRamGb
    case TooBig => 200 + TotalSize(g, ids) > 1024 * tier.maxImageSizeGb
  }

  function Rank(w: Warning): nat {
    match w
    case NotArm64(_) => 1
    case WantsGpu(_) => 2
    case NeedsRam(_) => 3
    case _ => 0
  }

  /** One package's warnings: each once, architecture before accelerator before memory. */
  lemma OnePackageInOrder(g: Graph, target: Target, tier: Tier, x: Id)
    ensures var ws := AllWarnings(g, target, tier, [x]);
            forall i, j | 0 <= i < j < |ws| :: Rank(ws[i]) < Rank(ws[j])
  {
    assert [x][..0] == [] && AllWarnings(g, target, tier, []) == [];
  }

  lemma {:induction false} WarningsExact(g: Graph, target: Target, tier: Tier, ids: seq<Id>, w: Warning)
    ensures w in AllWarnings(g, target, tier, ids) <==> w != TooBig && Deserved(g, target, tier, ids, w)
  {
    if ids != [] {
      var n := |ids| - 1;
      WarningsExact(g, target, tier, ids[..n], w);
      assert ids == ids[..n] + [ids[n]];
    }
  }

  /** Warnings come package by package: one more package adds its own at the end. */
  lemma WarningsInOrder(g: Graph, target: Target, tier: Tier, ids: seq<Id>, x: Id)
    ensures AllWarnings(g, target, tier, ids + [x]) == AllWarnings(g, target, tier, ids) + AllWarnings(g, target, tier, [x])
  {
    assert (ids + [x])[..|ids|] == ids;
    assert [x][..0] == [] && AllWarnings(g, target, tier, []) == [];
  }

  /** The manifest's sorted duplicate-free lists are kept as the sets they list. */
  method ToBuildManifest(c: Catalog, selection: seq<Id>) returns (m: Manifest)
    ensures m == Collect(c.packages, Resolve(c, selection))
    ensures m.packages == Resolve(c, selection)
    ensures m.sizeMb == 200 + SetSize(c.packages, Elements(m.packages))
    ensures forall p :: p in m.ports <==> exists x | x in Elements(m.packages) :: x in c.packages && p in c.packages[x].ports
    ensures forall b :: b in m.buildroot <==> exists x | x in Elements(m.packages) :: x in c.packages && b in c.packages[x].buildroot
    ensures exists at: seq<nat> :: ImagesAt(c.packages, m.packages, at, m.images)
    ensures exists at: seq<nat> :: InstallsAt(c.packages, m.packages, at, m.installs)
  {
    var resolved := ResolveDependencies(c, selection);
    var buildroot, images, installs, ports: set<int> := {}, [], [], {};
    for i := 0 to |resolved|
      invariant var m := Collect(c.packages, resolved[..i]);
                buildroot == m.buildroot && images == m.images && installs == m.installs && ports == m.ports
    {
      assert resolved[..i + 1][..i] == resolved[..i];
      if resolved[i] !in c.packages {
        continue;
      }
      var package := c.packages[resolved[i]];
      buildroot := buildroot + Strings(package.buildroot);
      if package.image != "" { images := images + [package.image]; }
      if package.install != "" { installs := installs + [package.install]; }
      ports := ports + Ints(package.ports);
    }
    assert resolved[..|resolved|] == resolved;
    CollectFacts(c.packages, resolved);
    var size := EstimateImageSizeMb(c, resolved);
    m := Manifest(resolved, buildroot, images, installs, ports, size);
    EstimateCountsEachOnce(c, selection);
    forall p ensures p in m.ports <==> exists x | x in Elements(m.packages) :: x in c.packages && p in c.packages[x].ports {
      CollectedPorts(c.packages, resolved, p);
    }
    forall b ensures b in m.buildroot <==> exists x | x in Elements(m.packages) :: x in c.packages && b in c.packages[x].buildroot {
      CollectedBuildroot(c.packages, resolved, b);
    }
    ghost var imagesAt := CollectedImages(c.packages, resolved);
    ghost var installsAt := CollectedInstalls(c.packages, resolved);
  }

  /** `given` are what `field` says of the listed packages, where it says anything, in list order. */
  ghost predicate GivenAt(ids: seq<Id>, field: Id -> string, at: seq<nat>, given: seq<string>) {
    && |at| == |given|
    && (forall i | 0 <= i < |at| :: at[i] < |ids| && field(ids[at[i]]) != "" && given[i] == field(ids[at[i]]))
    && (forall i, j | 0 <= i < j < |at| :: at[i] < at[j])
    && (forall k | 0 <= k < |ids| && field(ids[k]) != "" :: k in at)
  }

  ghost predicate ImagesAt(g: Graph, ids: seq<Id>, at: seq<nat>, images: seq<string>) {
    GivenAt(ids, x => if x in g then g[x].image else "", at, images)
  }

  ghost predicate InstallsAt(g: Graph, ids: seq<Id>, at: seq<nat>, installs: seq<string>) {
    GivenAt(ids, x => if x in g then g[x].install else "", at, installs)
  }

  lemma GivenAtSnoc(ids: seq<Id>, field: Id -> string, at: seq<nat>, given: seq<string>)
    requires ids != [] && GivenAt(ids[..|ids| - 1], field, at, given)
    ensures var n := |ids| - 1;
            if field(ids[n]) != "" then GivenAt(ids, field, at + [n], given + [field(ids[n])]) else GivenAt(ids, field, at, given)
  {
    var n := |ids| - 1;
    assert forall k | 0 <= k < n :: ids[..n][k] == ids[k];
    assert forall k | k in at :: k in at + [n];
    assert (at + [n])[|at|] == n;
  }

  lemma {:induction false} CollectedImages(g: Graph, ids: seq<Id>) returns (at: seq<nat>)
    ensures ImagesAt(g, ids, at, Collect(g, ids).images)
  {
    if ids == [] {
      at := [];
    } else {
      var n := |ids| - 1;
      at := CollectedImages(g, ids[..n]);
      GivenAtSnoc(ids, x => if x in g then g[x].image else "", at, Collect(g, ids[..n]).images);
      if ids[n] in g && g[ids[n]].image != "" {
        at := at + [n];
      }
    }
  }

  lemma {:induction false} CollectedInstalls(g: Graph, ids: seq<Id>) returns (at: seq<nat>)
    ensures InstallsAt(g, ids, at, Collect(g, ids).installs)
  {
    if ids == [] {
      at := [];
    } else {
      var n := |ids| - 1;
      at := CollectedInstalls(g, ids[..n]);
      GivenAtSnoc(ids, x => if x in g then g[x].install else "", at, Collect(g, ids[..n]).installs);
      if ids[n] in g && g[ids[n]].install != "" {
        at := at + [n];
      }
    }
  }

  lemma {:induction false} CollectFacts(g: Graph, ids: seq<Id>)
    ensures Collect(g, ids).packages == ids && Collect(g, ids).sizeMb == BASE_SIZE_MB + TotalSize(g, ids)
  {
    if ids != [] { CollectFacts(g, ids[..|ids| - 1]); }
  }

  // ---------------------------------------------------------------- reachability and order

  lemma FromStart(g: Graph, ids: seq<Id>)
    ensures Extends(g, ids, START, VisitAll(g, ids, START))
    ensures forall x | x in VisitAll(g, ids, START).seen && x in g :: x in VisitAll(g, ids, START).resolved
  {
    assert Open(g, START) == {};
    VisitAllExtends(g, ids, START);
    var r := VisitAll(g, ids, START);
    forall x | x in r.seen && x in g
      ensures x in r.resolved
    {
      assert x !in Open(g, r);
    }
  }

  /** The result lists each known package reachable from the required and requested ones, once. */
  lemma ResolvesExactlyTheReachable(c: Catalog, ids: seq<Id>)
    ensures Distinct(Resolve(c, ids))
    ensures forall x :: x in Resolve(c, ids) <==> x in c.packages && ReachedFrom(c.packages, Required(c) + ids, x)
  {
    var g, roots := c.packages, Required(c) + ids;
    var r := VisitAll(g, roots, START);
    FromStart(g, roots);
    forall x
      ensures x in r.resolved <==> x in g && ReachedFrom(g, roots, x)
    {
      if x in r.resolved {
        assert x in Elements(r.resolved);
      }
      if x in g && ReachedFrom(g, roots, x) {
        var q :| q in roots && Reaches(g, q, x);
        var p :| IsPath(g, p) && p[0] == q && p[|p| - 1] == x;
        SeenClosed(g, r, p);
      }
    }
  }

  /** What the search has seen is closed under dependencies. */
  lemma {:induction false} SeenClosed(g: Graph, r: Trail, p: seq<Id>)
    requires IsPath(g, p) && p[0] in r.seen && DepsFirst(g, START, r)
    requires forall x | x in r.seen && x in g :: x in r.resolved
    ensures p[|p| - 1] in r.seen
    decreases |p|
  {
    if |p| > 1 {
      var n := |p| - 1;
      var q := p[..n];
      assert IsPath(g, q) && q[|q| - 1] == p[n - 1] by { assert forall i | 0 <= i < n - 1 :: q[i + 1] in Deps(g, q[i]); }
      SeenClosed(g, r, q);
      assert p[n] in Deps(g, p[n - 1]);
      var j :| 0 <= j < |r.resolved| && r.resolved[j] == p[n - 1];
      assert Settled(g, r.seen, r.resolved, j);
    }
  }

  /** On every graph an entry stands after each of its known dependencies, except those that
      depend on it in turn. */
  lemma DependenciesComeFirst(c: Catalog, ids: seq<Id>, j: nat, d: Id)
    requires j < |Resolve(c, ids)| && d in c.packages && d in Deps(c.packages, Resolve(c, ids)[j])
    ensures d in Resolve(c, ids)
    ensures d in Resolve(c, ids)[..j] || Reaches(c.packages, d, Resolve(c, ids)[j])
  {
    var g, roots := c.packages, Required(c) + ids;
    FromStart(g, roots);
    assert Settled(g, VisitAll(g, roots, START).seen, Resolve(c, ids), j);
  }

  /** No package reaches itself through a dependency. */
  ghost predicate Acyclic(g: Graph) {
    forall a, b | b in Deps(g, a) :: !Reaches(g, b, a)
  }

  /** From position `k` on, every entry stands after all its known dependencies but itself. */
  ghost predicate OrderedFrom(g: Graph, s: seq<Id>, k: nat) {
    forall j | k <= j < |s| :: InPlace(g, s, j)
  }

  ghost predicate InPlace(g: Graph, s: seq<Id>, j: nat)
    requires j < |s|
  {
    forall d | d in Deps(g, s[j]) && d in g && d != s[j] :: d in s[..j]
  }

  lemma AcyclicIsOrdered(c: Catalog, ids: seq<Id>)
    requires Acyclic(c.packages)
    ensures OrderedFrom(c.packages, Resolve(c, ids), 0)
  {
    var s := Resolve(c, ids);
    forall j | 0 <= j < |s|
      ensures InPlace(c.packages, s, j)
    {
      forall d | d in Deps(c.packages, s[j]) && d in c.packages ensures d in s[..j] { DependenciesComeFirst(c, ids, j, d); }
    }
  }

  // ---------------------------------------------------------------- resolving a resolved list

  /** Entering only what was entered, or is unknown, lists nothing new. */
  lemma {:induction false} VisitAllIdle(g: Graph, ids: seq<Id>, t: Trail)
    requires forall d | d in ids && d in g :: d in t.seen
    ensures VisitAll(g, ids, t).resolved == t.resolved
    ensures VisitAll(g, ids, t).seen * g.Keys == t.seen * g.Keys
    decreases |ids|
  {
    if ids != [] { VisitAllIdle(g, ids[..|ids| - 1], t); }
  }

  /** Number of entries that the required packages alone bring in. */
  function RequiredCount(c: Catalog): nat { |VisitAll(c.packages, Required(c), START).resolved| }

  lemma RequiredPrefix(c: Catalog, ids: seq<Id>)
    ensures RequiredCount(c) <= |Resolve(c, ids)|
    ensures Resolve(c, ids)[..RequiredCount(c)] == VisitAll(c.packages, Required(c), START).resolved
  {
    var g := c.packages;
    var t := VisitAll(g, Required(c), START);
    FromStart(g, Required(c));
    VisitAllSplits(g, Required(c), ids, START);
    assert Open(g, START) == {};
    VisitAllExtends(g, ids, t);
  }

  /** Nothing is open and the first `i` entries of `s` are listed, or its first `k` if that is more. */
  ghost predicate ReplayedTo(g: Graph, s: seq<Id>, k: nat, i: nat, t: Trail)
    requires k <= |s| && i <= |s|
  {
    TrailOk(g, t) && Open(g, t) == {} && t.resolved == if i < k then s[..k] else s[..i]
  }

  /** Replaying the first `i` entries of a distinct list, of which the first `k` are already
      there, reproduces the list as far as it is ordered. */
  lemma {:induction false} Replay(g: Graph, s: seq<Id>, k: nat, t: Trail, i: nat)
    requires k <= |s| && Distinct(s) && Elements(s) <= g.Keys && ReplayedTo(g, s, k, 0, t)
    requires i <= |s| && OrderedFrom(g, s[..i], k)
    ensures ReplayedTo(g, s, k, i, VisitAll(g, s[..i], t))
    decreases i
  {
    if i > 0 {
      var front := s[..i - 1];
      assert s[..i][..i - 1] == front && s[..i][i - 1] == s[i - 1];
      OrderedPrefix(g, s[..i], k, i - 1);
      Replay(g, s, k, t, i - 1);
      assert VisitAll(g, s[..i], t) == Visit(g, s[i - 1], VisitAll(g, front, t));
      if i - 1 < k {
        ReplayListed(g, s, k, VisitAll(g, front, t), i - 1);
      } else {
        assert InPlace(g, s[..i], i - 1) && s[..i][..i - 1] == s[..i - 1];
        ReplayNext(g, s, VisitAll(g, front, t), i - 1);
      }
    }
  }

  lemma OrderedPrefix(g: Graph, s: seq<Id>, k: nat, i: nat)
    requires OrderedFrom(g, s, k) && i <= |s|
    ensures OrderedFrom(g, s[..i], k)
  {
    forall j | k <= j < i
      ensures InPlace(g, s[..i], j)
    {
      assert InPlace(g, s, j) && s[..i][j] == s[j] && s[..i][..j] == s[..j];
    }
  }

  lemma SeenIsListed(g: Graph, t: Trail)
    requires Open(g, t) == {}
    ensures forall x | x in g && x in t.seen :: x in t.resolved
  {
    assert forall x | x in g && x in t.seen :: x !in Open(g, t);
  }

  lemma ReplayListed(g: Graph, s: seq<Id>, k: nat, u: Trail, i: nat)
    requires i < k <= |s| && ReplayedTo(g, s, k, i, u)
    ensures ReplayedTo(g, s, k, i + 1, Visit(g, s[i], u))
  {
    assert s[i] == u.resolved[i] && s[i] in Elements(u.resolved);
  }

  /** The next entry's known dependencies are all listed: it is appended, and nothing else. */
  lemma ReplayNext(g: Graph, s: seq<Id>, u: Trail, i: nat)
    requires i < |s| && Distinct(s) && s[i] in g
    requires TrailOk(g, u) && Open(g, u) == {} && u.resolved == s[..i]
    requires forall d | d in Deps(g, s[i]) && d in g && d != s[i] :: d in s[..i]
    ensures var r := Visit(g, s[i], u); TrailOk(g, r) && Open(g, r) == {} && r.resolved == s[..i + 1]
  {
    assert s[i] !in s[..i];
    SeenIsListed(g, u);
    var marked := u.(seen := u.seen + {s[i]});
    forall d | d in g[s[i]].dependencies && d in g
      ensures d in marked.seen
    {
      if d != s[i] { assert d in s[..i] && d in Elements(u.resolved); }
    }
    VisitAllIdle(g, g[s[i]].dependencies, marked);
    var r := Visit(g, s[i], u);
    assert r.resolved == s[..i] + [s[i]] == s[..i + 1];
    assert Elements(r.resolved) == Elements(u.resolved) + {s[i]} by {
      assert forall j | 0 <= j < i :: r.resolved[j] == u.resolved[j];
      assert r.resolved[i] == s[i];
    }
    assert r.seen * g.Keys == u.seen * g.Keys + {s[i]};
  }

  /** Replaying an entry with a known dependency still missing lists something else first. */
  lemma ReplayOutOfOrder(g: Graph, s: seq<Id>, u: Trail, i: nat, d: Id)
    requires i < |s| && s[i] in g && s[i] !in s[..i]
    requires TrailOk(g, u) && Open(g, u) == {} && u.resolved == s[..i]
    requires d in g && d in g[s[i]].dependencies && d != s[i] && d !in s[..i]
    ensures var r := Visit(g, s[i], u); |r.resolved| > i && r.resolved[i] != s[i]
  {
    SeenIsListed(g, u);
    var marked := u.(seen := u.seen + {s[i]});
    assert Open(g, marked) == {s[i]};
    forall dep | dep in g[s[i]].dependencies ensures OpenReach(g, marked, dep) { ReachesEdge(g, s[i], dep); }
    VisitAllExtends(g, g[s[i]].dependencies, marked);
    var below := VisitAll(g, g[s[i]].dependencies, marked);
    assert d !in Open(g, below) && d in below.resolved;
    assert forall q | 0 <= q < i :: below.resolved[q] == s[..i][q] && s[..i][q] in s[..i];
    assert below.resolved[i] !in marked.seen;
  }

  lemma {:induction false} FirstDisorder(g: Graph, s: seq<Id>, k: nat) returns (j: nat, d: Id)
    requires !OrderedFrom(g, s, k)
    ensures k <= j < |s| && OrderedFrom(g, s[..j], k)
    ensures d in Deps(g, s[j]) && d in g && d != s[j] && d !in s[..j]
    decreases |s|
  {
    j :| k <= j < |s| && !InPlace(g, s, j);
    if OrderedFrom(g, s[..j], k) {
      d :| d in Deps(g, s[j]) && d in g && d != s[j] && d !in s[..j];
    } else {
      var front := s[..j];
      j, d := FirstDisorder(g, front, k);
      assert front[..j] == s[..j];
    }
  }

  lemma SecondRun(c: Catalog, ids: seq<Id>)
    ensures var s, g := Resolve(c, ids), c.packages;
            && Distinct(s) && Elements(s) <= g.Keys && RequiredCount(c) <= |s|
            && ReplayedTo(g, s, RequiredCount(c), 0, VisitAll(g, Required(c), START))
            && Resolve(c, s) == VisitAll(g, s, VisitAll(g, Required(c), START)).resolved
  {
    var g := c.packages;
    ResolvesExactlyTheReachable(c, ids);
    RequiredPrefix(c, ids);
    FromStart(g, Required(c));
    assert Open(g, START) == {};
    VisitAllSplits(g, Required(c), Resolve(c, ids), START);
  }

  /** Resolving a resolved list gives it back exactly when, after the part the required packages
      bring in, it stands in dependency order. */
  lemma IdempotentIffOrdered(c: Catalog, ids: seq<Id>)
    ensures Resolve(c, Resolve(c, ids)) == Resolve(c, ids)
            <==> OrderedFrom(c.packages, Resolve(c, ids), RequiredCount(c))
  {
    var g, s, k := c.packages, Resolve(c, ids), RequiredCount(c);
    var t := VisitAll(g, Required(c), START);
    SecondRun(c, ids);
    if OrderedFrom(g, s, k) {
      assert s[..|s|] == s;
      Replay(g, s, k, t, |s|);
    } else {
      var j, d := FirstDisorder(g, s, k);
      Replay(g, s, k, t, j);
      DisorderShows(g, s, t, j, d);
    }
  }

  /** Once listed, an entry keeps its position. */
  lemma ListedStays(g: Graph, rest: seq<Id>, v: Trail, j: nat)
    requires TrailOk(g, v) && Open(g, v) == {} && j < |v.resolved|
    ensures var r := VisitAll(g, rest, v); j < |r.resolved| && r.resolved[j] == v.resolved[j]
  {
    VisitAllExtends(g, rest, v);
    var r := VisitAll(g, rest, v);
    assert r.resolved[j] == r.resolved[..|v.resolved|][j];
  }

  lemma DisorderShows(g: Graph, s: seq<Id>, t: Trail, j: nat, d: Id)
    requires j < |s| && Distinct(s) && Elements(s) <= g.Keys
    requires var u := VisitAll(g, s[..j], t); TrailOk(g, u) && Open(g, u) == {} && u.resolved == s[..j]
    requires d in Deps(g, s[j]) && d in g && d != s[j] && d !in s[..j]
    ensures VisitAll(g, s, t).resolved != s
  {
    var u := VisitAll(g, s[..j], t);
    var v := Visit(g, s[j], u);
    assert s[j] in Elements(s) && s[j] !in s[..j];
    ReplayOutOfOrder(g, s, u, j, d);
    VisitExtends(g, s[j], u);
    ListedStays(g, s[j + 1..], v, j);
    SplitRun(g, s, t, j);
  }

  lemma SplitRun(g: Graph, s: seq<Id>, t: Trail, j: nat)
    requires j < |s|
    ensures VisitAll(g, s, t) == VisitAll(g, s[j + 1..], Visit(g, s[j], VisitAll(g, s[..j], t)))
  {
    assert s[..j + 1][..j] == s[..j] && s[..j + 1][j] == s[j];
    assert s == s[..j + 1] + s[j + 1..];
    VisitAllSplits(g, s[..j + 1], s[j + 1..], t);
  }

  // The same condition read off the catalogue and the selection, before anything is resolved.

  /** `a` is selected, not brought in by the required packages, and on a cycle through its
      dependency `b`. */
  ghost predicate LooseCycle(c: Catalog, ids: seq<Id>, a: Id, b: Id) {
    var g := c.packages;
    && a in g && b in g && a != b && b in Deps(g, a) && Reaches(g, b, a)
    && ReachedFrom(g, ids, a) && !ReachedFrom(g, Required(c), a)
  }

  /** The first entries, and only they, are what the required packages reach. */
  lemma RequiredPart(c: Catalog, ids: seq<Id>, x: Id)
    requires x in Resolve(c, ids)
    ensures RequiredCount(c) <= |Resolve(c, ids)|
    ensures x in Resolve(c, ids)[..RequiredCount(c)] <==> ReachedFrom(c.packages, Required(c), x)
  {
    RequiredPrefix(c, ids);
    assert Required(c) + [] == Required(c);
    ResolvesExactlyTheReachable(c, []);
    ResolvesExactlyTheReachable(c, ids);
  }

  lemma OrderedHasNoLooseCycle(c: Catalog, ids: seq<Id>, a: Id, b: Id)
    requires RequiredCount(c) <= |Resolve(c, ids)| && OrderedFrom(c.packages, Resolve(c, ids), RequiredCount(c))
    ensures !LooseCycle(c, ids, a, b)
  {
    var g, s, k := c.packages, Resolve(c, ids), RequiredCount(c);
    if LooseCycle(c, ids, a, b) {
      var r :| r in ids && Reaches(g, r, a);
      assert r in Required(c) + ids && ReachedFrom(g, Required(c) + ids, a);
      ResolvesExactlyTheReachable(c, ids);
      var j :| 0 <= j < |s| && s[j] == a;
      RequiredPart(c, ids, a);
      assert j >= k && InPlace(g, s, j);
      var i :| 0 <= i < j && s[i] == b;
      LooseCycleDescends(c, ids, a, b, i, j);
    }
  }

  /** Along a path from `b` to `a` the positions only fall. */
  lemma LooseCycleDescends(c: Catalog, ids: seq<Id>, a: Id, b: Id, i: nat, j: nat)
    requires i < |Resolve(c, ids)| && j < |Resolve(c, ids)| && Resolve(c, ids)[i] == b && Resolve(c, ids)[j] == a
    requires RequiredCount(c) <= |Resolve(c, ids)| && OrderedFrom(c.packages, Resolve(c, ids), RequiredCount(c))
    requires Reaches(c.packages, b, a) && !ReachedFrom(c.packages, Required(c), a)
    ensures j <= i
  {
    var g, s, k := c.packages, Resolve(c, ids), RequiredCount(c);
    var p :| IsPath(g, p) && p[0] == b && p[|p| - 1] == a;
    ResolvesExactlyTheReachable(c, ids);
    forall x | x in p && x in s ensures x !in s[..k] {
      var m :| 0 <= m < |p| && p[m] == x;
      PathTail(g, p, m);
      RequiredPart(c, ids, x);
      if ReachedFrom(g, Required(c), x) {
        var r :| r in Required(c) && Reaches(g, r, x);
        ReachesTrans(g, r, x, a);
        assert false;
      }
    }
    var last := PathDescends(g, s, k, p, i);
    assert last == j;
  }

  lemma PathTail(g: Graph, p: seq<Id>, m: nat)
    requires IsPath(g, p) && m < |p|
    ensures Reaches(g, p[m], p[|p| - 1])
  {
    var q := p[m..];
    assert IsPath(g, q) && q[0] == p[m] && q[|q| - 1] == p[|p| - 1];
  }

  lemma {:induction false} PathDescends(g: Graph, s: seq<Id>, k: nat, p: seq<Id>, i: nat) returns (last: nat)
    requires k <= |s| && OrderedFrom(g, s, k) && IsPath(g, p) && i < |s| && s[i] == p[0] && p[|p| - 1] in g
    requires forall x | x in p && x in s :: x !in s[..k]
    ensures last <= i && s[last] == p[|p| - 1]
    decreases |p|
  {
    assert i >= k by {
      assert p[0] in p && p[0] in s;
      assert forall m | 0 <= m < k :: s[..k][m] == s[m] != p[0];
    }
    last := i;
    if |p| > 1 {
      var next := i;
      if p[1] != p[0] {
        assert InPlace(g, s, i) && p[1] in Deps(g, p[0]);
        assert p[1] in g by { assert |p| > 2 ==> p[2] in Deps(g, p[1]); }
        next :| 0 <= next < i && s[next] == p[1];
      }
      last := PathDescends(g, s, k, p[1..], next);
    }
  }

  lemma NoLooseCycleIsOrdered(c: Catalog, ids: seq<Id>)
    requires forall a, b :: !LooseCycle(c, ids, a, b)
    ensures OrderedFrom(c.packages, Resolve(c, ids), RequiredCount(c))
  {
    var g, s, k := c.packages, Resolve(c, ids), RequiredCount(c);
    ResolvesExactlyTheReachable(c, ids);
    forall j, d | k <= j < |s| && d in Deps(g, s[j]) && d in g && d != s[j]
      ensures d in s[..j]
    {
      DependenciesComeFirst(c, ids, j, d);
      RequiredPart(c, ids, s[j]);
      assert s[j] in s && forall i | 0 <= i < k :: s[i] != s[j];
      assert ReachedFrom(g, Required(c) + ids, s[j]) && !LooseCycle(c, ids, s[j], d);
    }
    assert forall j | k <= j < |s| :: InPlace(g, s, j);
  }

  /** Main result: resolving a resolved list gives it back exactly when no selected package beyond
      what the required ones bring in is on a cycle through a dependency of its own. */
  lemma IdempotentIffNoLooseCycle(c: Catalog, ids: seq<Id>)
    ensures Resolve(c, Resolve(c, ids)) == Resolve(c, ids) <==> forall a, b :: !LooseCycle(c, ids, a, b)
  {
    IdempotentIffOrdered(c, ids);
    RequiredPrefix(c, ids);
    if OrderedFrom(c.packages, Resolve(c, ids), RequiredCount(c)) {
      forall a, b ensures !LooseCycle(c, ids, a, b) {
        OrderedHasNoLooseCycle(c, ids, a, b);
      }
    }
    if forall a, b :: !LooseCycle(c, ids, a, b) {
      NoLooseCycleIsOrdered(c, ids);
    }
  }

  /** On an acyclic graph, in particular, resolving again changes nothing. */
  lemma AcyclicIdempotent(c: Catalog, ids: seq<Id>)
    requires Acyclic(c.packages)
    ensures Resolve(c, Resolve(c, ids)) == Resolve(c, ids)
  {
    AcyclicIsOrdered(c, ids);
    IdempotentIffOrdered(c, ids);
  }

  /** On every graph resolving again lists the same packages, perhaps in another order. */
  lemma SameSetAgain(c: Catalog, ids: seq<Id>)
    ensures Elements(Resolve(c, Resolve(c, ids))) == Elements(Resolve(c, ids))
  {
    var g, s := c.packages, Resolve(c, ids);
    ResolvesExactlyTheReachable(c, ids);
    ResolvesExactlyTheReachable(c, s);
    assert forall x :: x in Elements(s) <==> x in s;
    assert forall x :: x in Elements(Resolve(c, s)) <==> x in Resolve(c, s);
    forall x
      ensures x in Resolve(c, s) <==> x in s
    {
      if x in s {
        ReachesSelf(g, x);
        assert x in Required(c) + s;
      }
      if x in Resolve(c, s) {
        var q :| q in Required(c) + s && Reaches(g, q, x);
        if q in Required(c) {
          assert q in Required(c) + ids;
        } else {
          var r :| r in Required(c) + ids && Reaches(g, r, q);
          ReachesTrans(g, r, q, x);
        }
      }
    }
  }

  function TwoPackageCycle(x: Id, y: Id): Catalog {
    Catalog([x, y], map[x := Package([y], false, 1, [], [], "", "", true, false, 0),
                        y := Package([x], false, 1, [], [], "", "", true, false, 0)])
  }

  /** Two packages that need each other come back in the other order each time. */
  lemma CycleReordersTheList(x: Id, y: Id)
    requires x != y
    ensures var c := TwoPackageCycle(x, y);
            ValidCatalog(c) && Resolve(c, [x]) == [y, x] && Resolve(c, Resolve(c, [x])) == [x, y]
  {
    var c := TwoPackageCycle(x, y);
    assert Elements(c.order) == {x, y} by { assert c.order[0] == x && c.order[1] == y; }
    assert Required(c) == [] by {
      assert c.order[..1] == [x] && c.order[..1][..0] == [];
      assert RequiredAmong(c, c.order[..1]) == [];
    }
    ResolveOfCycle(c, x, y);
  }

  lemma ResolveOfCycle(c: Catalog, x: Id, y: Id)
    requires Required(c) == [] && x != y && x in c.packages && y in c.packages
    requires c.packages[x].dependencies == [y] && c.packages[y].dependencies == [x]
    ensures Resolve(c, [x]) == [y, x] && Resolve(c, [y, x]) == [x, y]
  {
    var g := c.packages;
    TwoCycle(g, x, y);
    TwoCycle(g, y, x);
    VisitAllOne(g, x, START);
    VisitAllOne(g, y, START);
    assert Required(c) + [x] == [x] && Required(c) + [y, x] == [y, x];
    assert VisitAll(g, [y, x], START) == Visit(g, x, Visit(g, y, START)) by { assert [y, x][..1] == [y]; }
  }

  lemma VisitAllOne(g: Graph, x: Id, t: Trail)
    ensures VisitAll(g, [x], t) == Visit(g, x, t)
  {
    assert [x][..0] == [];
  }

  lemma TwoCycle(g: Graph, x: Id, y: Id)
    requires x != y && x in g && y in g && g[x].dependencies == [y] && g[y].dependencies == [x]
    ensures Visit(g, x, START) == Trail({x, y}, [y, x])
  {
    var t, u := Trail({x}, []), Trail({x, y}, []);
    assert START.(seen := START.seen + {x}) == t && t.(seen := t.seen + {y}) == u;
    VisitAllOne(g, x, u);
    assert Visit(g, y, t) == u.(resolved := u.resolved + [y]);
    VisitAllOne(g, y, t);
    assert u.resolved + [y] + [x] == [y, x];
  }

  // ---------------------------------------------------------------- size, warnings, manifest

  /** The sizes of a set of packages, each once. */
  ghost function SetSize(g: Graph, ids: set<Id>): int {
    if ids == {} then 0
    else
      var x :| x in ids;
      (if x in g then g[x].sizeMb else 0) + SetSize(g, ids - {x})
  }

  lemma {:induction false} SetSizeRemove(g: Graph, ids: set<Id>, x: Id)
    requires x in ids
    ensures SetSize(g, ids) == SizeOf(g, x) + SetSize(g, ids - {x})
  {
    var y :| y in ids && SetSize(g, ids) == SizeOf(g, y) + SetSize(g, ids - {y});
    if y != x {
      SetSizeRemove(g, ids - {y}, x);
      SetSizeRemove(g, ids - {x}, y);
      assert ids - {x} - {y} == ids - {y} - {x};
    }
  }

  lemma {:induction false} TotalIsSetSize(g: Graph, s: seq<Id>)
    requires Distinct(s)
    ensures TotalSize(g, s) == SetSize(g, Elements(s))
  {
    if s != [] {
      var n := |s| - 1;
      TotalIsSetSize(g, s[..n]);
      assert Elements(s) - {s[n]} == Elements(s[..n]) by {
        assert forall i | 0 <= i < n :: s[..n][i] == s[i];
      }
      assert s[n] in Elements(s);
      SetSizeRemove(g, Elements(s), s[n]);
    }
  }

  /** A listed id counts as often as it is listed, an unknown one not at all. */
  lemma {:induction false} EveryListingCounts(g: Graph, a: seq<Id>, x: Id, b: seq<Id>)
    ensures TotalSize(g, a + [x] + b) == TotalSize(g, a) + (if x in g then g[x].sizeMb else 0) + TotalSize(g, b)
  {
    if b == [] {
      assert a + [x] + b == a + [x] && (a + [x])[..|a|] == a;
    } else {
      var n := |b| - 1;
      assert (a + [x] + b)[..|a| + 1 + n] == a + [x] + b[..n];
      EveryListingCounts(g, a, x, b[..n]);
    }
  }

  /** The estimate of a resolved selection counts each reachable package's size, once. */
  lemma EstimateCountsEachOnce(c: Catalog, ids: seq<Id>)
    ensures TotalSize(c.packages, Resolve(c, ids)) == SetSize(c.packages, Elements(Resolve(c, ids)))
  {
    ResolvesExactlyTheReachable(c, ids);
    TotalIsSetSize(c.packages, Resolve(c, ids));
  }

  /** An unknown-package warning appears exactly for the unknown ids of the list ... */
  lemma {:induction false} UnknownWarningsExact(g: Graph, target: Target, tier: Tier, ids: seq<Id>, x: Id)
    ensures UnknownPackage(x) in AllWarnings(g, target, tier, ids) <==> x in ids && x !in g
  {
    if ids != [] {
      var n := |ids| - 1;
      UnknownWarningsExact(g, target, tier, ids[..n], x);
      assert ids == ids[..n] + [ids[n]];
    }
  }

  /** ... so validating a resolved selection never reports one. */
  lemma ResolvedHasNoUnknown(c: Catalog, ids: seq<Id>, target: Target, tier: Tier, x: Id)
    ensures UnknownPackage(x) !in AllWarnings(c.packages, target, tier, Resolve(c, ids))
  {
    ResolvesExactlyTheReachable(c, ids);
    UnknownWarningsExact(c.packages, target, tier, Resolve(c, ids), x);
  }

  lemma {:induction false} CollectedPorts(g: Graph, ids: seq<Id>, p: int)
    ensures p in Collect(g, ids).ports <==> exists x | x in Elements(ids) :: x in g && p in Ints(g[x].ports)
  {
    if ids != [] {
      CollectedPorts(g, ids[..|ids| - 1], p);
      ElementsSnoc(ids);
    }
  }

  lemma {:induction false} CollectedBuildroot(g: Graph, ids: seq<Id>, b: string)
    ensures b in Collect(g, ids).buildroot <==> exists x | x in Elements(ids) :: x in g && b in Strings(g[x].buildroot)
  {
    if ids != [] {
      CollectedBuildroot(g, ids[..|ids| - 1], b);
      ElementsSnoc(ids);
    }
  }

  lemma ElementsSnoc(ids: seq<Id>)
    requires ids != []
    ensures Elements(ids) == Elements(ids[..|ids| - 1]) + {ids[|ids| - 1]}
  {
    assert forall i | 0 <= i < |ids| - 1 :: ids[..|ids| - 1][i] == ids[i];
  }

  lemma SameElementsSameSets(g: Graph, s: seq<Id>, t: seq<Id>)
    requires Elements(s) == Elements(t)
    ensures Collect(g, s).ports == Collect(g, t).ports && Collect(g, s).buildroot == Collect(g, t).buildroot
  {
    forall p ensures p in Collect(g, s).ports <==> p in Collect(g, t).ports {
      CollectedPorts(g, s, p);
      CollectedPorts(g, t, p);
    }
    forall b ensures b in Collect(g, s).buildroot <==> b in Collect(g, t).buildroot {
      CollectedBuildroot(g, s, b);
      CollectedBuildroot(g, t, b);
    }
  }

  /** A profile saved with its resolved packages and one saved with the raw selection agree on
      the packages as a set, the ports, the buildroot packages and the size, on every graph; and
      on the whole manifest when the graph is acyclic. */
  lemma SavedResolvedOrRaw(c: Catalog, ids: seq<Id>)
    ensures var raw, saved := Collect(c.packages, Resolve(c, ids)), Collect(c.packages, Resolve(c, Resolve(c, ids)));
            && Elements(saved.packages) == Elements(raw.packages)
            && saved.ports == raw.ports && saved.buildroot == raw.buildroot && saved.sizeMb == raw.sizeMb
            && (Acyclic(c.packages) ==> saved == raw)
  {
    var g, s := c.packages, Resolve(c, ids);
    var again := Resolve(c, s);
    SameSetAgain(c, ids);
    SameElementsSameSets(g, again, s);
    CollectFacts(g, s);
    CollectFacts(g, again);
    EstimateCountsEachOnce(c, ids);
    EstimateCountsEachOnce(c, s);
    if Acyclic(g) { AcyclicIdempotent(c, ids); }
  }
}
