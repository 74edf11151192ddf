/** The fleet registry's two copies of its state, as values: the in-memory cache and the two
    SQLite tables.  Every function named after a write helper is one committed transaction. */
module FleetStore {
  import opened Common

  type DeviceId = string
  type CommandId = string

  const PENDING := "pending"
  const DELIVERED := "delivered"

  /** A fleet command; `action == None` is the no-op the server answers when nothing waits. */
  datatype Command = Command(action: Option<string>, params: string, id: CommandId, status: string)

  const NOOP := Command(None, "{}", "", PENDING)

  /** What registration alone sets. */
  datatype Profile = Profile(hostname: string, arch: string, board: string, cpuModel: string,
                             cpuCores: int, memoryTotalMb: int, diskTotalGb: real)

  /** What heartbeats alone set. */
  datatype Telemetry = Telemetry(loadedModels: string, serviceHealth: string,
                                 cpuPercent: real, memoryPercent: real, diskPercent: real)

  const NO_PROFILE := Profile("", "", "", "", 0, 0, 0.0)
  const NO_TELEMETRY := Telemetry("[]", "{}", 0.0, 0.0, 0.0)

  datatype Heartbeat = Heartbeat(device: DeviceId, timestamp: string, osVersion: string,
                                 hardware: string, telemetry: Telemetry)

  /** One row of the `devices` table. */
  datatype DeviceRow = DeviceRow(profile: Profile, osVersion: string, hardware: string,
                                 registeredAt: string, lastSeen: string, telemetry: Telemetry)

  /** One row of the `pending_commands` table; the rows are kept in AUTOINCREMENT order. */
  datatype CommandRow = CommandRow(device: DeviceId, id: CommandId, action: string,
                                   params: string, status: string)

  datatype Store = Store(devices: map<DeviceId, DeviceRow>, rows: seq<CommandRow>)

  /** The cached record: the row's columns plus the queue of commands still to be handed out. */
  datatype Record = Record(row: DeviceRow, pending: seq<Command>)

  datatype Server = Server(cache: map<DeviceId, Record>, store: Store)

  // ---------------------------------------------------------------- committed transactions

  /** INSERT ... ON CONFLICT DO UPDATE: every column but `registered_at` is overwritten. */
  function UpsertDevice(st: Store, d: DeviceId, row: DeviceRow): Store {
    var kept := if d in st.devices then row.(registeredAt := st.devices[d].registeredAt) else row;
    st.(devices := st.devices[d := kept])
  }

  predicate HasCommand(rows: seq<CommandRow>, id: CommandId) {
    exists i | 0 <= i < |rows| :: rows[i].id == id
  }

  function RowFor(d: DeviceId, cmd: Command): CommandRow {
    CommandRow(d, cmd.id, if cmd.action.Some? then cmd.action.value else "", cmd.params, cmd.status)
  }

  /** The UNIQUE constraint on `command_id` turns a repeated id into an integrity error. */
  function InsertCommand(st: Store, d: DeviceId, cmd: Command): Option<Store> {
    if HasCommand(st.rows, cmd.id) then None
    else Some(st.(rows := st.rows + [RowFor(d, cmd)]))
  }

  function MarkRow(row: CommandRow, id: CommandId): CommandRow {
    if row.id == id then row.(status := DELIVERED) else row
  }

  function MarkDelivered(st: Store, id: CommandId): Store {
    st.(rows := seq(|st.rows|, i requires 0 <= i < |st.rows| => MarkRow(st.rows[i], id)))
  }

  function RowsNotOf(rows: seq<CommandRow>, d: DeviceId): seq<CommandRow> {
    if rows == [] then []
    else
      var front := RowsNotOf(rows[..|rows| - 1], d);
      if rows[|rows| - 1].device == d then front else front + [rows[|rows| - 1]]
  }

  function DeleteDevice(st: Store, d: DeviceId): Store {
    Store(st.devices - {d}, RowsNotOf(st.rows, d))
  }

  // ---------------------------------------------------------------- start-up

  function ToCommand(row: CommandRow): Command {
    Command(Some(row.action), row.params, row.id, row.status)
  }

  /** `SELECT * FROM pending_commands WHERE status = 'pending' ORDER BY id`, for one device. */
  function Pending(rows: seq<CommandRow>, d: DeviceId): seq<Command> {
    if rows == [] then []
    else
      var last := rows[|rows| - 1];
      Pending(rows[..|rows| - 1], d)
      + if last.device == d && last.status == PENDING then [ToCommand(last)] else []
  }

  /** One record per device row, with the device's pending commands in table order. */
  ghost predicate Matches(cache: map<DeviceId, Record>, st: Store) {
    && cache.Keys == st.devices.Keys
    && forall d | d in cache :: cache[d].row == st.devices[d] && cache[d].pending == Pending(st.rows, d)
  }

  ghost function LoadOnly(ids: set<DeviceId>, st: Store): (cache: map<DeviceId, Record>)
    requires ids <= st.devices.Keys
    ensures cache.Keys == ids
    ensures forall d | d in cache :: cache[d].row == st.devices[d] && cache[d].pending == Pending(st.rows, d)
  {
    if ids == {} then map[]
    else
      var d :| d in ids;
      LoadOnly(ids - {d}, st)[d := Record(st.devices[d], Pending(st.rows, d))]
  }

  ghost function Load(st: Store): (cache: map<DeviceId, Record>)
    ensures Matches(cache, st)
  {
    LoadOnly(st.devices.Keys, st)
  }

  /** A process that starts (or restarts after a crash) on the tables `st`. */
  ghost function Recover(st: Store): Server { Server(Load(st), st) }

  // ---------------------------------------------------------------- registry operations

  function Register(s: Server, d: DeviceId, profile: Profile, osVersion: string, hardware: string,
                    now: string): Server
  {
    var record := if d in s.cache
                  then s.cache[d].(row := s.cache[d].row.(profile := profile, osVersion := osVersion,
                                                          hardware := hardware))
                  else Record(DeviceRow(profile, osVersion, hardware, now, "", NO_TELEMETRY), []);
    Server(s.cache[d := record], UpsertDevice(s.store, d, record.row))
  }

  function ApplyHeartbeat(row: DeviceRow, hb: Heartbeat): DeviceRow {
    row.(lastSeen := hb.timestamp, osVersion := hb.osVersion, hardware := hb.hardware,
         telemetry := hb.telemetry)
  }

  /** First half of `heartbeat`: the record is updated (or created) and its row committed. */
  function HeartbeatUpsert(s: Server, hb: Heartbeat, now: string): Server {
    var held := if hb.device in s.cache then s.cache[hb.device]
                else Record(DeviceRow(NO_PROFILE, hb.osVersion, hb.hardware, now, "", NO_TELEMETRY), []);
    var record := held.(row := ApplyHeartbeat(held.row, hb));
    Server(s.cache[hb.device := record], UpsertDevice(s.store, hb.device, record.row))
  }

  /** Second half: the oldest cached command leaves the queue and its row is marked delivered. */
  function HeartbeatPop(s: Server, d: DeviceId): (Server, Command)
    requires d in s.cache
  {
    var record := s.cache[d];
    if record.pending == [] then (s, NOOP)
    else
      var cmd := record.pending[0];
      (Server(s.cache[d := record.(pending := record.pending[1..])], MarkDelivered(s.store, cmd.id)), cmd)
  }

  /** The cache is appended to first; a repeated id then leaves the table as it was. */
  function Enqueue(s: Server, d: DeviceId, cmd: Command): Server
    requires d in s.cache
  {
    var record := s.cache[d];
    var inserted := InsertCommand(s.store, d, cmd);
    Server(s.cache[d := record.(pending := record.pending + [cmd])],
           if inserted.Some? then inserted.value else s.store)
  }

  function Remove(s: Server, d: DeviceId): Server {
    Server(s.cache - {d}, DeleteDevice(s.store, d))
  }

  // ---------------------------------------------------------------- the invariant

  ghost predicate UniqueIds(rows: seq<CommandRow>) {
    forall i, j | 0 <= i < j < |rows| :: rows[i].id != rows[j].id
  }

  /** The tables alone: ids are unique and no command row belongs to an unknown device. */
  ghost predicate StoreOk(st: Store) {
    UniqueIds(st.rows) && forall i | 0 <= i < |st.rows| :: st.rows[i].device in st.devices
  }

  ghost predicate Good(s: Server) { StoreOk(s.store) && Matches(s.cache, s.store) }

  /** Reloading now would give exactly the cache: same devices, same queues, same order. */
  lemma MatchesIffReloadIsIdentity(s: Server)
    ensures Matches(s.cache, s.store) <==> Recover(s.store) == s
  {
    if Matches(s.cache, s.store) {
      assert forall d | d in s.cache :: s.cache[d] == Load(s.store)[d];
    }
  }

  // ---------------------------------------------------------------- facts about the queue query

  lemma {:induction false} PendingMembers(rows: seq<CommandRow>, d: DeviceId)
    ensures forall c | c in Pending(rows, d) ::
              exists i | 0 <= i < |rows| :: rows[i].device == d && rows[i].status == PENDING && c == ToCommand(rows[i])
    ensures forall i | 0 <= i < |rows| && rows[i].device == d && rows[i].status == PENDING ::
              ToCommand(rows[i]) in Pending(rows, d)
  {
    if rows != [] {
      var n := |rows| - 1;
      PendingMembers(rows[..n], d);
      assert forall i | 0 <= i < n :: rows[..n][i] == rows[i];
    }
  }

  lemma {:induction false} PendingOfUnknown(rows: seq<CommandRow>, d: DeviceId)
    requires forall i | 0 <= i < |rows| :: rows[i].device != d
    ensures Pending(rows, d) == []
  {
    if rows != [] { PendingOfUnknown(rows[..|rows| - 1], d); }
  }

  lemma {:induction false} PendingAfterRemoval(rows: seq<CommandRow>, d: DeviceId, e: DeviceId)
    ensures Pending(RowsNotOf(rows, d), e) == if d == e then [] else Pending(rows, e)
  {
    if rows != [] {
      var n := |rows| - 1;
      PendingAfterRemoval(rows[..n], d, e);
      var front := RowsNotOf(rows[..n], d);
      if rows[n].device != d {
        assert RowsNotOf(rows, d)[..|front|] == front;
      }
    }
  }

  /** The rows kept by DELETE keep their order: they embed into the old rows by a growing map. */
  lemma {:induction false} RemovalKeepsOrder(rows: seq<CommandRow>, d: DeviceId) returns (at: seq<nat>)
    ensures |at| == |RowsNotOf(rows, d)|
    ensures forall i | 0 <= i < |at| :: at[i] < |rows| && rows[at[i]] == RowsNotOf(rows, d)[i] && rows[at[i]].device != d
    ensures forall i, j | 0 <= i < j < |at| :: at[i] < at[j]
    ensures forall k | 0 <= k < |rows| && rows[k].device != d :: rows[k] in RowsNotOf(rows, d)
  {
    if rows == [] {
      at := [];
    } else {
      var n := |rows| - 1;
      at := RemovalKeepsOrder(rows[..n], d);
      assert forall i | 0 <= i < n :: rows[..n][i] == rows[i];
      if rows[n].device != d { at := at + [n]; }
    }
  }

  /** Marking an id that is not the front one's would break this: the first pending row of `d`
      goes, every other queue and the rest of this one stay. */
  lemma {:induction false} PendingAfterMark(rows: seq<CommandRow>, marked: seq<CommandRow>, id: CommandId, e: DeviceId)
    requires |marked| == |rows| && forall i | 0 <= i < |rows| :: marked[i] == MarkRow(rows[i], id)
    requires UniqueIds(rows)
    ensures (forall c | c in Pending(rows, e) :: c.id != id) ==> Pending(marked, e) == Pending(rows, e)
    ensures Pending(rows, e) != [] && Pending(rows, e)[0].id == id ==> Pending(marked, e) == Pending(rows, e)[1..]
  {
    if rows != [] {
      var n := |rows| - 1;
      PendingAfterMark(rows[..n], marked[..n], id, e);
      PendingMembers(rows[..n], e);
      var front := Pending(rows[..n], e);
      if front != [] && front[0].id == id {
        assert rows[n].id != id;
        if rows[n].device == e && rows[n].status == PENDING {
          assert (front + [ToCommand(rows[n])])[1..] == front[1..] + [ToCommand(rows[n])];
        }
      }
    }
  }

  /** The ids waiting for one device are distinct, because the table's ids are. */
  lemma {:induction false} PendingDistinct(rows: seq<CommandRow>, d: DeviceId)
    requires UniqueIds(rows)
    ensures forall i, j | 0 <= i < j < |Pending(rows, d)| :: Pending(rows, d)[i].id != Pending(rows, d)[j].id
  {
    if rows != [] {
      var n := |rows| - 1;
      PendingDistinct(rows[..n], d);
      PendingMembers(rows[..n], d);
      var front := Pending(rows[..n], d);
      forall i | 0 <= i < |front|
        ensures front[i].id != rows[n].id
      {
        assert front[i] in front;
        var k :| 0 <= k < n && front[i] == ToCommand(rows[..n][k]);
        assert rows[..n][k] == rows[k];
      }
    }
  }

  // ---------------------------------------------------------------- each operation keeps the invariant

  lemma RegisterKeepsGood(s: Server, d: DeviceId, profile: Profile, osVersion: string, hardware: string, now: string)
    requires Good(s)
    ensures Good(Register(s, d, profile, osVersion, hardware, now))
  {
    if d !in s.store.devices { PendingOfUnknown(s.store.rows, d); }
  }

  lemma HeartbeatUpsertKeepsGood(s: Server, hb: Heartbeat, now: string)
    requires Good(s)
    ensures Good(HeartbeatUpsert(s, hb, now))
  {
    if hb.device !in s.store.devices { PendingOfUnknown(s.store.rows, hb.device); }
  }

  /** Marking the front command of `d` takes it off `d`'s queue and touches no other queue. */
  lemma MarkPopsFront(rows: seq<CommandRow>, marked: seq<CommandRow>, d: DeviceId, id: CommandId, e: DeviceId)
    requires |marked| == |rows| && forall i | 0 <= i < |rows| :: marked[i] == MarkRow(rows[i], id)
    requires UniqueIds(rows)
    requires Pending(rows, d) != [] && Pending(rows, d)[0].id == id
    ensures Pending(marked, e) == if e == d then Pending(rows, d)[1..] else Pending(rows, e)
  {
    PendingAfterMark(rows, marked, id, e);
    if e != d {
      PendingMembers(rows, d);
      assert Pending(rows, d)[0] in Pending(rows, d);
      var k :| 0 <= k < |rows| && rows[k].device == d && Pending(rows, d)[0] == ToCommand(rows[k]);
      forall c | c in Pending(rows, e)
        ensures c.id != id
      {
        PendingMembers(rows, e);
        var j :| 0 <= j < |rows| && rows[j].device == e && c == ToCommand(rows[j]);
        assert j < k || k < j;
      }
    }
  }

  lemma HeartbeatPopKeepsGood(s: Server, d: DeviceId)
    requires Good(s) && d in s.cache
    ensures Good(HeartbeatPop(s, d).0)
  {
    var pending := Pending(s.store.rows, d);
    if pending != [] {
      var t := HeartbeatPop(s, d).0;
      forall e | e in s.store.devices
        ensures t.cache[e].pending == Pending(t.store.rows, e)
      {
        MarkPopsFront(s.store.rows, t.store.rows, d, pending[0].id, e);
      }
    }
  }

  /** A caller can check this before the call: the id is new to the table, there is an action,
      and the command is marked pending. */
  predicate Acceptable(s: Server, cmd: Command) {
    !HasCommand(s.store.rows, cmd.id) && cmd.action.Some? && cmd.status == PENDING
  }

  lemma PendingSnoc(rows: seq<CommandRow>, row: CommandRow, e: DeviceId)
    ensures Pending(rows + [row], e)
         == Pending(rows, e) + if row.device == e && row.status == PENDING then [ToCommand(row)] else []
  {
    assert (rows + [row])[..|rows|] == rows;
  }

  lemma InsertKeepsStoreOk(st: Store, d: DeviceId, cmd: Command)
    requires StoreOk(st) && d in st.devices
    ensures InsertCommand(st, d, cmd).Some? ==> StoreOk(InsertCommand(st, d, cmd).value)
  {
    if !HasCommand(st.rows, cmd.id) {
      var more := st.rows + [RowFor(d, cmd)];
      assert forall i | 0 <= i < |st.rows| :: more[i] == st.rows[i] && st.rows[i].id != cmd.id;
    }
  }

  lemma AcceptableKeepsQueues(s: Server, d: DeviceId, cmd: Command, e: DeviceId)
    requires Good(s) && d in s.cache && e in s.cache && Acceptable(s, cmd)
    ensures var t := Enqueue(s, d, cmd); t.cache[e].pending == Pending(t.store.rows, e)
  {
    PendingSnoc(s.store.rows, RowFor(d, cmd), e);
  }

  /** Either nothing was inserted or what was inserted loads as something else: the queue of `d` is off. */
  lemma UnacceptableBreaksQueue(s: Server, d: DeviceId, cmd: Command)
    requires Good(s) && d in s.cache && !Acceptable(s, cmd)
    ensures var t := Enqueue(s, d, cmd); t.cache[d].pending != Pending(t.store.rows, d)
  {
    var queue, row := Pending(s.store.rows, d), RowFor(d, cmd);
    PendingSnoc(s.store.rows, row, d);
    assert (queue + [cmd])[|queue|] == cmd && (queue + [ToCommand(row)])[|queue|] == ToCommand(row);
    assert |queue + [cmd]| != |queue|;
  }

  /** Enqueueing keeps cache and tables in agreement exactly when the command is acceptable. */
  lemma EnqueueKeepsGoodIff(s: Server, d: DeviceId, cmd: Command)
    requires Good(s) && d in s.cache
    ensures Good(Enqueue(s, d, cmd)) <==> Acceptable(s, cmd)
    ensures Good(Recover(Enqueue(s, d, cmd).store))
  {
    InsertKeepsStoreOk(s.store, d, cmd);
    if Acceptable(s, cmd) {
      forall e | e in s.cache
        ensures Enqueue(s, d, cmd).cache[e].pending == Pending(Enqueue(s, d, cmd).store.rows, e)
      {
        AcceptableKeepsQueues(s, d, cmd, e);
      }
    } else {
      UnacceptableBreaksQueue(s, d, cmd);
    }
  }

  lemma RemoveKeepsGood(s: Server, d: DeviceId)
    requires Good(s)
    ensures Good(Remove(s, d))
  {
    var rows := s.store.rows;
    var at := RemovalKeepsOrder(rows, d);
    var kept := RowsNotOf(rows, d);
    assert forall i, j | 0 <= i < j < |kept| :: rows[at[i]].id != rows[at[j]].id;
    forall e | e in s.store.devices && e != d
      ensures Pending(kept, e) == Pending(rows, e)
    {
      PendingAfterRemoval(rows, d, e);
    }
  }

  lemma RecoverIsGood(st: Store)
    requires StoreOk(st)
    ensures Good(Recover(st))
  {
  }
}
