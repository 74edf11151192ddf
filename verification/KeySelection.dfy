/** Least-used selection among a provider's keys, over all runs of the key store.  The rows are a
    table by key id; one clock reading serves all availability tests of one selection. */
module KeySelection {
  import opened Common

  type KeyId = string
  type Provider = string

  datatype Row = Row(provider: Provider, hash: string, secret: string, expiresAt: Option<real>, usage: nat,
                     lastUsed: Option<real>, lastError: Option<string>, cooldownUntil: Option<real>, createdAt: real)

  type Table = map<KeyId, Row>

  const COOLDOWN_SECONDS := 60.0

  predicate InCooldown(row: Row, now: real) { row.cooldownUntil.Some? && now < row.cooldownUntil.value }

  predicate Expired(row: Row, now: real) { row.expiresAt.Some? && now > row.expiresAt.value }

  predicate Available(row: Row, now: real) { !InCooldown(row, now) && !Expired(row, now) }

  /** The order of a listing.  Rows that tie on both may come either way. */
  predicate NotAfter(r: Row, s: Row) {
    r.usage < s.usage || (r.usage == s.usage && r.createdAt <= s.createdAt)
  }

  function Keys(t: Table, provider: Provider): set<KeyId> { set id | id in t && t[id].provider == provider }

  ghost predicate Candidate(t: Table, provider: Provider, now: real, id: KeyId) {
    id in t && t[id].provider == provider && Available(t[id], now)
  }

  /** A least-used available key, an oldest one of those. */
  ghost predicate IsPick(t: Table, provider: Provider, now: real, id: KeyId) {
    Candidate(t, provider, now, id) && forall other | Candidate(t, provider, now, other) :: NotAfter(t[id], t[other])
  }

  // ---------------------------------------------------------------- steps of the store

  datatype Event =
    | Select(provider: Provider, now: real, usedAt: real)
    | Error(id: KeyId, error: string, cooldownUntil: Option<real>)
    | Add(id: KeyId, row: Row)
    | Delete(provider: Provider, id: KeyId)

  function Used(t: Table, id: KeyId, at: real): Table {
    if id in t then t[id := t[id].(usage := t[id].usage + 1, lastUsed := Some(at))] else t
  }

  function Failed(t: Table, id: KeyId, error: string, cooldownUntil: Option<real>): Table {
    if id !in t then t
    else if cooldownUntil.Some? then t[id := t[id].(lastError := Some(error), cooldownUntil := cooldownUntil)]
    else t[id := t[id].(lastError := Some(error))]
  }

  predicate Duplicate(t: Table, row: Row) {
    exists id | id in t :: t[id].provider == row.provider && t[id].hash == row.hash
  }

  function Removed(t: Table, provider: Provider, id: KeyId): Table {
    if id in t && t[id].provider == provider then t - {id} else t
  }

  /** `t` can become `u` by one call; a selection may pick any of several tying keys. */
  ghost predicate Step(t: Table, e: Event, u: Table) {
    match e
    case Select(provider, now, usedAt) => SelectStep(t, provider, now, usedAt, u)
    case Error(id, error, until) => u == Failed(t, id, error, until)
    case Add(id, row) => id !in t && row.usage == 0 && u == if Duplicate(t, row) then t else t[id := row]
    case Delete(provider, id) => u == Removed(t, provider, id)
  }

  ghost predicate SelectStep(t: Table, provider: Provider, now: real, usedAt: real, u: Table) {
    if exists id :: Candidate(t, provider, now, id)
    then exists id :: IsPick(t, provider, now, id) && u == Used(t, id, usedAt)
    else u == t
  }

  ghost predicate IsRun(tables: seq<Table>, events: seq<Event>) {
    |tables| == |events| + 1 && forall i | 0 <= i < |events| :: Step(tables[i], events[i], tables[i + 1])
  }

  function Selections(events: seq<Event>, provider: Provider): nat {
    if events == [] then 0
    else
      var last := events[|events| - 1];
      Selections(events[..|events| - 1], provider) + if last.Select? && last.provider == provider then 1 else 0
  }

  // ---------------------------------------------------------------- the store

  datatype ProviderKey = ProviderKey(id: KeyId, row: Row)

  function Ids(keys: seq<ProviderKey>): (ids: seq<KeyId>)
    ensures |ids| == |keys| && forall i | 0 <= i < |ids| :: ids[i] == keys[i].id
  {
    seq(|keys|, i requires 0 <= i < |keys| => keys[i].id)
  }

  function Listed(keys: seq<ProviderKey>, key: ProviderKey): (r: seq<ProviderKey>)
    ensures |r| == |keys| + 1 && r[|keys|] == key && forall i | 0 <= i < |keys| :: r[i] == keys[i]
    ensures forall id :: id in Ids(r) <==> id in Ids(keys) || id == key.id
  {
    assert Ids(keys + [key]) == Ids(keys) + [key.id];
    keys + [key]
  }

  /** Its cooldown, if it has one, is over, and its lifetime, if it has one, is not. */
  predicate Serves(row: Row, now: real) {
    && (row.cooldownUntil.Some? ==> row.cooldownUntil.value <= now)
    && (row.expiresAt.Some? ==> now <= row.expiresAt.value)
  }

  ghost predicate Serving(rows: Table, provider: Provider, now: real, id: KeyId) {
    id in rows && rows[id].provider == provider && Serves(rows[id], now)
  }

  lemma ListedAll(rows: Table, provider: Provider, keys: seq<ProviderKey>)
    requires forall i | 0 <= i < |keys| :: keys[i].id in rows && keys[i].row == rows[keys[i].id]
    requires forall id :: id in Ids(keys) <==> id in Keys(rows, provider)
    ensures forall id | id in rows && rows[id].provider == provider :: exists i :: 0 <= i < |keys| && keys[i].id == id
    ensures forall i | 0 <= i < |keys| :: keys[i].row.provider == provider
  {
    forall id | id in rows && rows[id].provider == provider ensures exists i :: 0 <= i < |keys| && keys[i].id == id {
      assert id in Ids(keys);
    }
    forall i | 0 <= i < |keys| ensures keys[i].row.provider == provider {
      assert Ids(keys)[i] in Ids(keys);
    }
  }

  class ProviderKeyStore {
    var rows: Table
    const decrypt: string -> string

    constructor (decrypt: string -> string)
      ensures rows == map[] && this.decrypt == decrypt
    {
      rows := map[];
      this.decrypt := decrypt;
    }

    method AddKey(id: KeyId, row: Row) returns (added: bool)
      requires id !in rows && row.usage == 0
      modifies this`rows
      ensures Step(old(rows), Add(id, row), rows)
      ensures added <==> forall other | other in old(rows) :: old(rows)[other].provider != row.provider || old(rows)[other].hash != row.hash
      ensures rows == if added then old(rows)[id := row] else old(rows)
    {
      added := !Duplicate(rows, row);
      if added {
        rows := rows[id := row];
      }
    }

    method DeleteKey(provider: Provider, id: KeyId) returns (deleted: bool)
      modifies this`rows
      ensures Step(old(rows), Delete(provider, id), rows)
      ensures deleted <==> id in old(rows) && old(rows)[id].provider == provider
      ensures rows == if deleted then old(rows) - {id} else old(rows)
    {
      deleted := id in rows && rows[id].provider == provider;
      if deleted {
        rows := rows - {id};
      }
    }

    /** Every key of the provider once, in the listing order. */
    method ListKeys(provider: Provider) returns (keys: seq<ProviderKey>)
      ensures forall i | 0 <= i < |keys| :: keys[i].id in rows && keys[i].row == rows[keys[i].id]
      ensures forall id :: id in Ids(keys) <==> id in Keys(rows, provider)
      ensures forall id | id in rows && rows[id].provider == provider :: exists i :: 0 <= i < |keys| && keys[i].id == id
      ensures forall i | 0 <= i < |keys| :: keys[i].row.provider == provider
      ensures forall i, j | 0 <= i < j < |keys| ::
                keys[i].row.usage < keys[j].row.usage
                || (keys[i].row.usage == keys[j].row.usage && keys[i].row.createdAt <= keys[j].row.createdAt)
      ensures forall i, j | 0 <= i < j < |keys| :: NotAfter(keys[i].row, keys[j].row) && keys[i].id != keys[j].id
    {
      var rest := Keys(rows, provider);
      keys := [];
      while rest != {}
        invariant rest <= Keys(rows, provider)
        invariant forall i | 0 <= i < |keys| :: keys[i].id in rows && keys[i].row == rows[keys[i].id]
        invariant forall id :: id in Ids(keys) <==> id in Keys(rows, provider) - rest
        invariant forall i, j | 0 <= i < j < |keys| :: NotAfter(keys[i].row, keys[j].row) && keys[i].id != keys[j].id
        invariant forall i, id | 0 <= i < |keys| && id in rest :: NotAfter(keys[i].row, rows[id])
        decreases |rest|
      {
        FirstExists(rows, rest);
        var id :| id in rest && forall other | other in rest :: NotAfter(rows[id], rows[other]);
        assert forall i | 0 <= i < |keys| :: keys[i].id != id by {
          assert forall i | 0 <= i < |keys| :: Ids(keys)[i] in Ids(keys);
        }
        keys := Listed(keys, ProviderKey(id, rows[id]));
        rest := rest - {id};
      }
      ListedAll(rows, provider, keys);
    }

    method PickKey(provider: Provider, now: real) returns (key: Option<ProviderKey>)
      ensures key.None? <==> !exists id :: Candidate(rows, provider, now, id)
      ensures key.Some? ==> IsPick(rows, provider, now, key.value.id) && key.value.row == rows[key.value.id]
      ensures key.None? <==> forall id | id in rows && rows[id].provider == provider :: !Serves(rows[id], now)
      ensures key.Some? ==>
                && key.value.id in rows && key.value.row == rows[key.value.id]
                && key.value.row.provider == provider && Serves(key.value.row, now)
                && forall id | id in rows && rows[id].provider == provider && Serves(rows[id], now) ::
                     key.value.row.usage < rows[id].usage
                     || (key.value.row.usage == rows[id].usage && key.value.row.createdAt <= rows[id].createdAt)
    {
      forall row: Row ensures Available(row, now) <==> Serves(row, now) {}
      var keys := ListKeys(provider);
      var i := 0;
      while i < |keys| && !Available(keys[i].row, now)
        invariant i <= |keys| && forall j | 0 <= j < i :: !Available(keys[j].row, now)
      {
        i := i + 1;
      }
      forall id | Candidate(rows, provider, now, id) ensures i < |keys| && NotAfter(keys[i].row, rows[id]) {
        assert id in Ids(keys);
      }
      if i == |keys| {
        return None;
      }
      assert Ids(keys)[i] in Keys(rows, provider);
      assert Candidate(rows, provider, now, keys[i].id);
      key := Some(keys[i]);
    }

    method RecordUsage(id: KeyId, now: real)
      modifies this`rows
      ensures rows == Used(old(rows), id, now)
      ensures rows == if id in old(rows)
                      then old(rows)[id := old(rows)[id].(usage := old(rows)[id].usage + 1, lastUsed := Some(now))] else old(rows)
    {
      if id in rows {
        rows := rows[id := rows[id].(usage := rows[id].usage + 1, lastUsed := Some(now))];
      }
    }

    method RecordError(id: KeyId, error: string, applyCooldown: bool, now: real)
      modifies this`rows
      ensures Step(old(rows), Error(id, error, if applyCooldown then Some(now + COOLDOWN_SECONDS) else None), rows)
      ensures applyCooldown && id in rows ==> forall later :: Available(rows[id], later) ==> later >= now + 60.0
      ensures id !in old(rows) ==> rows == old(rows)
      ensures id in old(rows) ==>
                rows == old(rows)[id := old(rows)[id].(lastError := Some(error),
                                                       cooldownUntil := if applyCooldown then Some(now + 60.0) else old(rows)[id].cooldownUntil)]
    {
      if id in rows {
        var row := rows[id].(lastError := Some(error));
        rows := rows[id := if applyCooldown then row.(cooldownUntil := Some(now + COOLDOWN_SECONDS)) else row];
      }
    }

    method GetActiveKeyForProvider(provider: Provider, now: real, usedAt: real) returns (secret: Option<string>)
      modifies this`rows
      ensures Step(old(rows), Select(provider, now, usedAt), rows)
      ensures secret.None? <==> !exists id :: Candidate(old(rows), provider, now, id)
      ensures secret.Some? ==> exists id :: IsPick(old(rows), provider, now, id) && secret.value == decrypt(old(rows)[id].secret)
                                            && rows == Used(old(rows), id, usedAt)
      ensures secret.None? ==> rows == old(rows)
      ensures secret.Some? ==> exists id ::
                && Serving(old(rows), provider, now, id) && secret.value == decrypt(old(rows)[id].secret)
                && rows == old(rows)[id := old(rows)[id].(usage := old(rows)[id].usage + 1, lastUsed := Some(usedAt))]
                && forall other | Serving(old(rows), provider, now, other) :: old(rows)[id].usage <= old(rows)[other].usage
    {
      var key := PickKey(provider, now);
      if key.None? {
        return None;
      }
      assert Serving(rows, provider, now, key.value.id);
      RecordUsage(key.value.id, usedAt);
      secret := Some(decrypt(key.value.row.secret));
    }
  }

  lemma {:induction false} FirstExists(t: Table, ids: set<KeyId>)
    requires ids != {} && ids <= t.Keys
    ensures exists id :: id in ids && forall other | other in ids :: NotAfter(t[id], t[other])
    decreases |ids|
  {
    var id :| id in ids;
    if ids == {id} {
      assert forall other | other in ids :: NotAfter(t[id], t[other]);
    } else {
      FirstExists(t, ids - {id});
      var best :| best in ids - {id} && forall other | other in ids - {id} :: NotAfter(t[best], t[other]);
      var first := if NotAfter(t[best], t[id]) then best else id;
      assert forall other | other in ids :: other != id ==> other in ids - {id};
      assert forall other | other in ids :: NotAfter(t[first], t[other]);
    }
  }

  // ---------------------------------------------------------------- two keys that stay available

  /** Both keys are there throughout, and available whenever their provider's keys are selected from. */
  ghost predicate BothServe(tables: seq<Table>, events: seq<Event>, provider: Provider, a: KeyId, b: KeyId)
    requires |tables| == |events| + 1
  {
    && (forall i | 0 <= i < |tables| :: a in Keys(tables[i], provider) && b in Keys(tables[i], provider))
    && (forall i | 0 <= i < |events| && events[i].Select? && events[i].provider == provider ::
          Available(tables[i][a], events[i].now) && Available(tables[i][b], events[i].now))
  }

  function Lead(t: Table, a: KeyId, b: KeyId): int
    requires a in t && b in t
  {
    t[a].usage - t[b].usage
  }

  lemma StepBoundsLead(t: Table, e: Event, u: Table, provider: Provider, a: KeyId, b: KeyId)
    requires Step(t, e, u) && a in Keys(t, provider) && b in Keys(t, provider) && a in u && b in u
    requires e.Select? && e.provider == provider ==> Available(t[a], e.now) && Available(t[b], e.now)
    ensures Lead(u, a, b) <= Lead(t, a, b) || Lead(u, a, b) <= 1
  {
    if e.Select? && e.provider == provider {
      assert Candidate(t, provider, e.now, a) && Candidate(t, provider, e.now, b);
    }
  }

  /** Whatever happens to other keys, of two keys that stay available neither gets more than one use
      ahead of the other, or further ahead than it was. */
  lemma {:induction false} LeadNeverGrows(tables: seq<Table>, events: seq<Event>, provider: Provider, a: KeyId, b: KeyId)
    requires IsRun(tables, events) && BothServe(tables, events, provider, a, b)
    ensures Lead(tables[|events|], a, b) <= 1 || Lead(tables[|events|], a, b) <= Lead(tables[0], a, b)
  {
    if events != [] {
      var n := |events| - 1;
      LeadNeverGrows(tables[..n + 1], events[..n], provider, a, b);
      StepBoundsLead(tables[n], events[n], tables[n + 1], provider, a, b);
    }
  }

  // ---------------------------------------------------------------- fair shares

  ghost function TotalUsage(t: Table, ids: set<KeyId>): nat
    requires ids <= t.Keys
    decreases |ids|
  {
    if ids == {} then 0 else var id :| id in ids; t[id].usage + TotalUsage(t, ids - {id})
  }

  lemma {:induction false} TotalWithout(t: Table, ids: set<KeyId>, id: KeyId)
    requires ids <= t.Keys && id in ids
    ensures TotalUsage(t, ids) == t[id].usage + TotalUsage(t, ids - {id})
    decreases |ids|
  {
    var x :| x in ids && TotalUsage(t, ids) == t[x].usage + TotalUsage(t, ids - {x});
    if x != id {
      TotalWithout(t, ids - {x}, id);
      TotalWithout(t, ids - {id}, x);
      assert ids - {x} - {id} == ids - {id} - {x};
    }
  }

  lemma {:induction false} TotalOfSameUsage(t: Table, u: Table, ids: set<KeyId>)
    requires ids <= t.Keys && ids <= u.Keys && forall id | id in ids :: t[id].usage == u[id].usage
    ensures TotalUsage(t, ids) == TotalUsage(u, ids)
    decreases |ids|
  {
    if ids != {} {
      var id :| id in ids;
      TotalWithout(t, ids, id);
      TotalWithout(u, ids, id);
      TotalOfSameUsage(t, u, ids - {id});
    }
  }

  lemma {:induction false} TotalWithin(t: Table, ids: set<KeyId>, low: int, high: int)
    requires ids <= t.Keys && forall id | id in ids :: low <= t[id].usage <= high
    ensures |ids| * low <= TotalUsage(t, ids) <= |ids| * high
    decreases |ids|
  {
    if ids != {} {
      var id :| id in ids;
      TotalWithout(t, ids, id);
      TotalWithin(t, ids - {id}, low, high);
      var m := |ids|;
      assert |ids - {id}| == m - 1;
      OneMore(m - 1, low);
      OneMore(m - 1, high);
    }
  }

  /** The keys of a provider stay the same and all available to its selections. */
  ghost predicate AllServe(tables: seq<Table>, events: seq<Event>, provider: Provider)
    requires |tables| == |events| + 1
  {
    && (forall i | 0 <= i < |tables| :: Keys(tables[i], provider) == Keys(tables[0], provider) != {})
    && (forall i, id | 0 <= i < |events| && events[i].Select? && events[i].provider == provider
                       && id in Keys(tables[i], provider) :: Available(tables[i][id], events[i].now))
  }

  lemma StepAddsOne(t: Table, e: Event, u: Table, provider: Provider)
    requires Step(t, e, u) && Keys(u, provider) == Keys(t, provider) != {}
    requires e.Select? && e.provider == provider ==> forall id | id in Keys(t, provider) :: Available(t[id], e.now)
    ensures TotalUsage(u, Keys(t, provider))
         == TotalUsage(t, Keys(t, provider)) + if e.Select? && e.provider == provider then 1 else 0
  {
    var ids := Keys(t, provider);
    if e.Select? && e.provider == provider {
      var some :| some in ids;
      assert Candidate(t, provider, e.now, some);
      var id :| IsPick(t, provider, e.now, id) && u == Used(t, id, e.usedAt);
      TotalWithout(t, ids, id);
      TotalWithout(u, ids, id);
      TotalOfSameUsage(t, u, ids - {id});
    } else {
      TotalOfSameUsage(t, u, ids);
    }
  }

  lemma {:induction false} UsageCountsSelections(tables: seq<Table>, events: seq<Event>, provider: Provider)
    requires IsRun(tables, events) && AllServe(tables, events, provider)
    requires forall id | id in Keys(tables[0], provider) :: tables[0][id].usage == 0
    ensures TotalUsage(tables[|events|], Keys(tables[|events|], provider)) == Selections(events, provider)
  {
    if events == [] {
      TotalWithin(tables[0], Keys(tables[0], provider), 0, 0);
    } else {
      var n := |events| - 1;
      var before := tables[..n + 1];
      assert before[n] == tables[n] && Keys(tables[n], provider) == Keys(tables[n + 1], provider);
      UsageCountsSelections(before, events[..n], provider);
      StepAddsOne(tables[n], events[n], tables[n + 1], provider);
    }
  }

  lemma PairsServe(tables: seq<Table>, events: seq<Event>, provider: Provider, a: KeyId, b: KeyId)
    requires |tables| == |events| + 1 && AllServe(tables, events, provider)
    requires a in Keys(tables[0], provider) && b in Keys(tables[0], provider)
    ensures BothServe(tables, events, provider, a, b)
  {
    forall i | 0 <= i < |tables| ensures a in Keys(tables[i], provider) && b in Keys(tables[i], provider) {
      assert Keys(tables[i], provider) == Keys(tables[0], provider);
    }
  }

  /** From unused keys that stay and stay available, n selections are shared out as evenly as can be:
      the counts add up to n, any two differ by at most 1, and each is n over the number of keys
      rounded down or up. */
  lemma FairShares(tables: seq<Table>, events: seq<Event>, provider: Provider)
    requires IsRun(tables, events) && AllServe(tables, events, provider)
    requires forall id | id in Keys(tables[0], provider) :: tables[0][id].usage == 0
    ensures var t, n := tables[|events|], Selections(events, provider);
            var ids := Keys(t, provider);
            && TotalUsage(t, ids) == n
            && (forall a, b | a in ids && b in ids :: t[a].usage <= t[b].usage + 1)
            && (forall a | a in ids :: n - |ids| < t[a].usage * |ids| < n + |ids|)
  {
    var t := tables[|events|];
    var ids := Keys(t, provider);
    UsageCountsSelections(tables, events, provider);
    forall a, b | a in ids && b in ids ensures t[a].usage <= t[b].usage + 1 {
      PairsServe(tables, events, provider, a, b);
      LeadNeverGrows(tables, events, provider, a, b);
    }
    forall a | a in ids ensures TotalUsage(t, ids) - |ids| < t[a].usage * |ids| < TotalUsage(t, ids) + |ids| {
      ShareIsRounded(t, ids, a);
    }
  }

  lemma ShareIsRounded(t: Table, ids: set<KeyId>, a: KeyId)
    requires ids <= t.Keys && a in ids
    requires forall x, y | x in ids && y in ids :: t[x].usage <= t[y].usage + 1
    ensures TotalUsage(t, ids) - |ids| < t[a].usage * |ids| < TotalUsage(t, ids) + |ids|
  {
    var u: int, m: int := t[a].usage, |ids|;
    TotalWithout(t, ids, a);
    TotalWithin(t, ids - {a}, u - 1, u + 1);
    assert |ids - {a}| == m - 1;
    OthersNearby(m, u);
  }

  lemma OthersNearby(m: int, u: int)
    ensures u + (m - 1) * (u - 1) == u * m - m + 1
    ensures u + (m - 1) * (u + 1) == u * m + m - 1
  {
  }
}
