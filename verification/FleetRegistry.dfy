/** The registry as the objects the process holds, proved against the values of FleetStore. */
module FleetRegistry {
  import opened Common
  import opened FleetStore

  class DeviceRecord {
    const deviceId: DeviceId
    var row: DeviceRow
    var pendingCommands: seq<Command>

    ghost function View(): Record reads this { Record(row, pendingCommands) }

    constructor (deviceId: DeviceId, row: DeviceRow, pendingCommands: seq<Command>)
      ensures this.deviceId == deviceId && View() == Record(row, pendingCommands)
    {
      this.deviceId, this.row, this.pendingCommands := deviceId, row, pendingCommands;
    }

    method ApplyHeartbeat(hb: Heartbeat)
      modifies this`row
      ensures row == FleetStore.ApplyHeartbeat(old(row), hb)
      ensures row == DeviceRow(old(row).profile, hb.osVersion, hb.hardware, old(row).registeredAt, hb.timestamp, hb.telemetry)
    {
      row := row.(lastSeen := hb.timestamp);
      row := row.(osVersion := hb.osVersion, hardware := hb.hardware);
      row := row.(telemetry := hb.telemetry);
    }
  }

  class Registry {
    var devices: map<DeviceId, DeviceRecord>
    var store: Store
    ghost var cache: map<DeviceId, Record>  // what the record objects hold, as values

    /** Each record sits under its own id, so distinct devices have distinct records. */
    ghost predicate Valid() reads this, devices.Values {
      && cache.Keys == devices.Keys
      && forall d | d in devices :: devices[d].deviceId == d && devices[d].View() == cache[d]
    }

    ghost function View(): Server reads this { Server(cache, store) }

    constructor (store: Store)
      ensures Valid() && View() == Recover(store)
      ensures fresh(devices.Values)
    {
      this.store := store;
      devices, cache := map[], map[];
      new;
      LoadFromDb();
    }

    /** First pass of start-up: the pending rows, grouped by device. */
    static method GroupPending(rows: seq<CommandRow>) returns (byDevice: map<DeviceId, seq<Command>>)
      ensures forall d :: QueueIn(byDevice, d) == Pending(rows, d)
    {
      byDevice := map[];
      for i := 0 to |rows|
        invariant forall d :: QueueIn(byDevice, d) == Pending(rows[..i], d)
      {
        assert rows[..i + 1][..i] == rows[..i];
        if rows[i].status == PENDING {
          byDevice := byDevice[rows[i].device := QueueIn(byDevice, rows[i].device) + [ToCommand(rows[i])]];
        }
      }
      assert rows[..|rows|] == rows;
    }

    /** Second pass: one record for each device row. */
    method MakeRecords(byDevice: map<DeviceId, seq<Command>>)
      requires devices == map[] && cache == map[]
      modifies this`devices, this`cache
      ensures Valid() && fresh(devices.Values) && cache.Keys == store.devices.Keys
      ensures forall d | d in cache :: cache[d] == Record(store.devices[d], QueueIn(byDevice, d))
    {
      var left := store.devices.Keys;
      while left != {}
        invariant left <= store.devices.Keys
        invariant fresh(devices.Values) && Valid()
        invariant cache.Keys == store.devices.Keys - left
        invariant forall d | d in cache :: cache[d] == Record(store.devices[d], QueueIn(byDevice, d))
      {
        var d :| d in left;
        PutNew(d, store.devices[d], QueueIn(byDevice, d));
        left := left - {d};
      }
    }

    method LoadFromDb()
      requires devices == map[] && cache == map[]
      modifies this`devices, this`cache
      ensures Valid() && View() == Recover(store) && fresh(devices.Values)
    {
      var byDevice := GroupPending(store.rows);
      MakeRecords(byDevice);
      MatchesIffReloadIsIdentity(View());
    }

    method PutNew(d: DeviceId, row: DeviceRow, pending: seq<Command>)
      requires Valid()
      modifies this`devices, this`cache
      ensures Valid() && fresh(devices.Values - old(devices.Values))
      ensures devices.Keys == old(devices.Keys) + {d} && cache == old(cache)[d := Record(row, pending)]
    {
      var record := new DeviceRecord(d, row, pending);
      Put(record);
    }

    /** `self._devices[d] = record`. */
    method Put(record: DeviceRecord)
      requires Valid()
      modifies this`devices, this`cache
      ensures Valid() && devices == old(devices)[record.deviceId := record]
      ensures cache == old(cache)[record.deviceId := record.View()]
      ensures devices.Values <= old(devices.Values) + {record}
    {
      devices, cache := devices[record.deviceId := record], cache[record.deviceId := record.View()];
    }

    method Register(d: DeviceId, profile: Profile, osVersion: string, hardware: string, now: string)
      returns (record: DeviceRecord)
      requires Valid()
      modifies this
      ensures Valid() && fresh(devices.Values - old(devices.Values))
      ensures View() == FleetStore.Register(old(View()), d, profile, osVersion, hardware, now)
      ensures d in devices && devices[d] == record
      ensures View().cache == old(View()).cache[d := Registration(old(View()).cache, d, profile, osVersion, hardware, now)]
      ensures store.rows == old(store).rows && store.devices - {d} == old(store).devices - {d}
      ensures d in store.devices && store.devices[d]
              == View().cache[d].row.(registeredAt := if d in old(store).devices then old(store).devices[d].registeredAt
                                                      else View().cache[d].row.registeredAt)
    {
      if d in devices {
        var existing := devices[d];
        record := new DeviceRecord(d, existing.row.(profile := profile, osVersion := osVersion, hardware := hardware),
                                   existing.pendingCommands);
      } else {
        record := new DeviceRecord(d, DeviceRow(profile, osVersion, hardware, now, "", NO_TELEMETRY), []);
      }
      RegisterIs(View(), d, profile, osVersion, hardware, now);
      Put(record);
      store := UpsertDevice(store, d, record.row);
    }

    /** First commit of a heartbeat: the record, known or new, takes the reported state. */
    method NoteHeartbeat(hb: Heartbeat, now: string) returns (record: DeviceRecord)
      requires Valid()
      modifies this, devices.Values
      ensures Valid() && fresh(devices.Values - old(devices.Values))
      ensures View() == HeartbeatUpsert(old(View()), hb, now)
      ensures hb.device in devices && devices[hb.device] == record
    {
      if hb.device in devices {
        record := devices[hb.device];
      } else {
        record := new DeviceRecord(hb.device,
                                   DeviceRow(NO_PROFILE, hb.osVersion, hb.hardware, now, "", NO_TELEMETRY), []);
      }
      record.ApplyHeartbeat(hb);
      devices, cache := devices[hb.device := record], cache[hb.device := record.View()];
      store := UpsertDevice(store, hb.device, record.row);
    }

    /** Second commit: the front of the queue is handed out and its row marked delivered. */
    method PopPending(record: DeviceRecord) returns (cmd: Command)
      requires Valid() && record.deviceId in devices && devices[record.deviceId] == record
      modifies this`cache, this`store, record
      ensures Valid() && devices == old(devices)
      ensures (View(), cmd) == HeartbeatPop(old(View()), record.deviceId)
    {
      if record.pendingCommands != [] {
        cmd := record.pendingCommands[0];
        record.pendingCommands := record.pendingCommands[1..];
        cache := cache[record.deviceId := record.View()];
        store := MarkDelivered(store, cmd.id);
      } else {
        cmd := NOOP;
      }
    }

    method Heartbeat(hb: Heartbeat, now: string) returns (cmd: Command)
      requires Valid()
      modifies this, devices.Values
      ensures Valid() && fresh(devices.Values - old(devices.Values))
      ensures (View(), cmd) == HeartbeatPop(HeartbeatUpsert(old(View()), hb, now), hb.device)
      ensures View().cache == old(View()).cache[hb.device := Beaten(old(View()).cache, hb, now)]
      ensures cmd == if hb.device in old(View()).cache && old(View()).cache[hb.device].pending != []
                     then old(View()).cache[hb.device].pending[0] else NOOP
      ensures |store.rows| == |old(store).rows|
      ensures forall i | 0 <= i < |store.rows| ::
                store.rows[i] == if hb.device in old(View()).cache && old(View()).cache[hb.device].pending != []
                                    && old(store).rows[i].id == cmd.id
                                 then old(store).rows[i].(status := "delivered") else old(store).rows[i]
    {
      HeartbeatIs(View(), hb, now);
      var record := NoteHeartbeat(hb, now);
      cmd := PopPending(record);
    }

    /** `uuid` is the id drawn when the command has none.  False: the device is not registered. */
    method EnqueueCommand(d: DeviceId, cmd: Command, uuid: CommandId) returns (ok: bool, queued: Command)
      requires Valid()
      modifies this`store, this`cache, devices.Values
      ensures Valid() && devices == old(devices)
      ensures ok <==> d in old(View()).cache
      ensures queued == if cmd.id == "" then cmd.(id := uuid) else cmd
      ensures View() == if ok then Enqueue(old(View()), d, queued) else old(View())
      ensures ok ==> View().cache == old(View()).cache[d := Queued(old(View()).cache[d], [queued])]
      ensures ok ==> store.rows == if exists i | 0 <= i < |old(store).rows| :: old(store).rows[i].id == queued.id
                                   then old(store).rows
                                   else old(store).rows + [CommandRow(d, queued.id, if queued.action.Some? then queued.action.value else "",
                                                                      queued.params, queued.status)]
    {
      queued := if cmd.id == "" then cmd.(id := uuid) else cmd;
      ok := d in devices;
      if ok {
        var record := devices[d];
        record.pendingCommands := record.pendingCommands + [queued];
        cache := cache[d := record.View()];
        var inserted := InsertCommand(store, d, queued);
        if inserted.Some? {
          store := inserted.value;
        }
      }
    }

    /** The form that takes an action string.  None: the device is not registered, which raises here. */
    method EnqueueAction(d: DeviceId, action: string, params: string, commandId: CommandId, uuid: CommandId)
      returns (queued: Option<Command>)
      requires Valid() && uuid != ""
      modifies this`store, this`cache, devices.Values
      ensures Valid() && devices == old(devices)
      ensures queued.Some? <==> d in old(View()).cache
      ensures queued.Some? ==>
                && queued.value == Command(Some(action), params, if commandId == "" then uuid else commandId, PENDING)
                && View() == Enqueue(old(View()), d, queued.value)
      ensures queued.None? ==> View() == old(View())
    {
      var ok, cmd := EnqueueCommand(d, Command(Some(action), params, commandId, PENDING), uuid);
      queued := if ok then Some(cmd) else None;
    }

    /** One copy for each target under its own id, enqueued one locked section at a time. */
    method EnqueueOnEach(targets: seq<DeviceId>, cmd: Command, uuids: seq<CommandId>) returns (targeted: seq<DeviceId>)
      requires Valid() && |uuids| == |targets| && "" !in uuids
      modifies this`store, this`cache, devices.Values
      ensures Valid() && devices == old(devices)
      ensures View() == EnqueueAll(old(View()), targets, cmd, uuids)
      ensures targeted == Registered(old(View()), targets)
    {
      targeted := [];
      ghost var before := View();
      for i := 0 to |targets|
        invariant Valid() && devices == old(devices)
        invariant View() == EnqueueAll(before, targets[..i], cmd, uuids[..i])
        invariant targeted == Registered(before, targets[..i])
      {
        assert targets[..i + 1][..i] == targets[..i] && uuids[..i + 1][..i] == uuids[..i];
        EnqueueAllKeepsDevices(before, targets[..i], cmd, uuids[..i]);
        var ok, _ := EnqueueCommand(targets[i], Copy(cmd, uuids[i]), uuids[i]);
        if ok { targeted := targeted + [targets[i]]; }
      }
      assert targets[..|targets|] == targets && uuids[..|uuids|] == uuids;
    }

    /** `list(self._devices.keys())`, in some order. */
    method KeyList() returns (keys: seq<DeviceId>)
      requires Valid()
      ensures forall i, j | 0 <= i < j < |keys| :: keys[i] != keys[j]
      ensures forall d :: d in keys <==> d in devices
      ensures |keys| == |devices|
    {
      keys := [];
      var left := devices.Keys;
      while left != {}
        invariant left <= devices.Keys && |keys| + |left| == |devices.Keys|
        invariant forall i, j | 0 <= i < j < |keys| :: keys[i] != keys[j]
        invariant forall d :: d in keys <==> d in devices && d !in left
      {
        var d :| d in left;
        keys, left := keys + [d], left - {d};
      }
      assert |devices.Keys| == |devices|;
    }

    /** Every registered device is targeted, once. */
    method BroadcastCommand(cmd: Command, uuids: seq<CommandId>) returns (targeted: seq<DeviceId>)
      requires Valid() && |uuids| == |devices| && "" !in uuids
      modifies this`store, this`cache, devices.Values
      ensures Valid() && devices == old(devices)
      ensures |targeted| == |uuids| && View() == EnqueueAll(old(View()), targeted, cmd, uuids)
      ensures forall d :: d in targeted <==> d in old(View()).cache
      ensures forall i, j | 0 <= i < j < |targeted| :: targeted[i] != targeted[j]
      ensures View().cache.Keys == old(View()).cache.Keys
      ensures forall i | 0 <= i < |targeted| ::
                View().cache[targeted[i]]
                == Queued(old(View()).cache[targeted[i]], [Command(cmd.action, cmd.params, uuids[i], "pending")])
    {
      var targets := KeyList();
      ghost var before := View();
      RegisteredOfAll(View(), targets);
      targeted := EnqueueOnEach(targets, cmd, uuids);
      OneCopyEach(before, targeted, cmd, uuids);
    }

    /** `[d for d in device_ids if d in self._devices]`, or all devices. */
    method Targets(deviceIds: Option<seq<DeviceId>>) returns (targets: seq<DeviceId>)
      requires Valid()
      ensures |targets| <= if deviceIds.Some? then |deviceIds.value| else |devices|
      ensures deviceIds.Some? ==> targets == Registered(View(), deviceIds.value)
      ensures deviceIds.None? ==> forall d :: d in targets <==> d in View().cache
      ensures Registered(View(), targets) == targets
    {
      match deviceIds
      case None =>
        targets := KeyList();
        RegisteredOfAll(View(), targets);
      case Some(ids) =>
        targets := [];
        for i := 0 to |ids|
          invariant targets == Registered(View(), ids[..i])
        {
          assert ids[..i + 1][..i] == ids[..i];
          if ids[i] in devices { targets := targets + [ids[i]]; }
        }
        assert ids[..|ids|] == ids;
        RegisteredMembers(View(), ids);
        RegisteredOfAll(View(), targets);
    }

    /** Unknown names among `deviceIds` are dropped before anything is queued. */
    method DeployModel(params: string, deviceIds: Option<seq<DeviceId>>, uuids: seq<CommandId>)
      returns (targeted: seq<DeviceId>)
      requires Valid() && "" !in uuids
      requires |uuids| >= if deviceIds.Some? then |deviceIds.value| else |devices|
      modifies this`store, this`cache, devices.Values
      ensures Valid() && devices == old(devices)
      ensures |targeted| <= |uuids|
      ensures View() == EnqueueAll(old(View()), targeted, PullModel(params), uuids[..|targeted|])
      ensures deviceIds.Some? ==> targeted == Registered(old(View()), deviceIds.value)
      ensures deviceIds.None? ==> forall d :: d in targeted <==> d in old(View()).cache
      ensures deviceIds.Some? ==> exists at: seq<nat> :: KnownAt(deviceIds.value, old(View()).cache.Keys, at, targeted)
      ensures View().cache.Keys == old(View()).cache.Keys
      ensures forall d | d in old(View()).cache :: exists at: seq<nat>, cmds: seq<Command> ::
                && View().cache[d] == Queued(old(View()).cache[d], cmds)
                && Named(targeted, d, at) && Carry(cmds, Some("pull-model"), params, uuids, at)
    {
      var targets := Targets(deviceIds);
      ghost var before := View();
      if deviceIds.Some? {
        var at := RegisteredAt(before, deviceIds.value);
      }
      targeted := EnqueueOnEach(targets, PullModel(params), uuids[..|targets|]);
      EnqueueAllKeepsDevices(before, targeted, PullModel(params), uuids[..|targets|]);
      forall d | d in before.cache
        ensures exists at: seq<nat>, cmds: seq<Command> ::
                  && View().cache[d] == Queued(before.cache[d], cmds)
                  && Named(targeted, d, at) && Carry(cmds, Some("pull-model"), params, uuids, at)
      {
        FanOutQueuesCopies(before, targeted, PullModel(params), uuids[..|targets|], d);
        var at := CopiesAt(d, targeted, PullModel(params), uuids[..|targets|]);
        assert Carry(CopiesFor(d, targeted, PullModel(params), uuids[..|targets|]), Some("pull-model"), params, uuids, at);
      }
    }

    method Remove(d: DeviceId) returns (existed: bool)
      requires Valid()
      modifies this
      ensures Valid() && devices.Values <= old(devices.Values)
      ensures existed <==> d in old(View()).cache
      ensures View() == if existed then FleetStore.Remove(old(View()), d) else old(View())
      ensures View().cache == old(View()).cache - {d}
      ensures existed ==> store.devices == old(store).devices - {d} && store.rows == RowsNotOf(old(store).rows, d)
    {
      existed := d in devices;
      if existed {
        devices, cache := devices - {d}, cache - {d};
        store := DeleteDevice(store, d);
      }
    }
  }

  /** `cmds_by_device.get(d, [])`. */
  function QueueIn(byDevice: map<DeviceId, seq<Command>>, d: DeviceId): seq<Command> {
    if d in byDevice then byDevice[d] else []
  }

  function Copy(cmd: Command, uuid: CommandId): Command { Command(cmd.action, cmd.params, uuid, PENDING) }

  function PullModel(params: string): Command { Command(Some("pull-model"), params, "", PENDING) }

  function EnqueueAll(s: Server, targets: seq<DeviceId>, cmd: Command, uuids: seq<CommandId>): Server
    requires |uuids| == |targets|
  {
    if targets == [] then s
    else
      var n := |targets| - 1;
      var t := EnqueueAll(s, targets[..n], cmd, uuids[..n]);
      if targets[n] in t.cache then Enqueue(t, targets[n], Copy(cmd, uuids[n])) else t
  }

  function Registered(s: Server, targets: seq<DeviceId>): seq<DeviceId> {
    if targets == [] then []
    else
      var n := |targets| - 1;
      Registered(s, targets[..n]) + if targets[n] in s.cache then [targets[n]] else []
  }

  lemma {:induction false} RegisteredMembers(s: Server, targets: seq<DeviceId>)
    ensures |Registered(s, targets)| <= |targets|
    ensures forall d :: d in Registered(s, targets) <==> d in targets && d in s.cache
  {
    if targets != [] {
      var n := |targets| - 1;
      RegisteredMembers(s, targets[..n]);
      assert targets == targets[..n] + [targets[n]];
    }
  }

  lemma {:induction false} RegisteredOfAll(s: Server, targets: seq<DeviceId>)
    requires forall d | d in targets :: d in s.cache
    ensures Registered(s, targets) == targets
  {
    if targets != [] {
      var n := |targets| - 1;
      assert targets == targets[..n] + [targets[n]];
      RegisteredOfAll(s, targets[..n]);
    }
  }

  lemma {:induction false} EnqueueAllKeepsDevices(s: Server, targets: seq<DeviceId>, cmd: Command, uuids: seq<CommandId>)
    requires |uuids| == |targets|
    ensures EnqueueAll(s, targets, cmd, uuids).cache.Keys == s.cache.Keys
  {
    if targets != [] {
      var n := |targets| - 1;
      EnqueueAllKeepsDevices(s, targets[..n], cmd, uuids[..n]);
    }
  }

  /** The copies meant for `d`, in the order of the targets. */
  function CopiesFor(d: DeviceId, targets: seq<DeviceId>, cmd: Command, uuids: seq<CommandId>): seq<Command>
    requires |uuids| == |targets|
  {
    if targets == [] then []
    else
      var n := |targets| - 1;
      CopiesFor(d, targets[..n], cmd, uuids[..n]) + if targets[n] == d then [Copy(cmd, uuids[n])] else []
  }

  // ---------------------------------------------------------------- in plain terms

  /** A record with some commands behind those already waiting. */
  function Queued(record: Record, cmds: seq<Command>): Record { Record(record.row, record.pending + cmds) }

  /** What is cached for a device that registers: what it knew before stays, apart from what
      registration sets; a new device starts with nothing waiting. */
  function Registration(cache: map<DeviceId, Record>, d: DeviceId, profile: Profile, osVersion: string,
                        hardware: string, now: string): Record
  {
    if d in cache
    then Record(DeviceRow(profile, osVersion, hardware, cache[d].row.registeredAt, cache[d].row.lastSeen, cache[d].row.telemetry),
                cache[d].pending)
    else Record(DeviceRow(profile, osVersion, hardware, now, "", NO_TELEMETRY), [])
  }

  lemma RegisterIs(s: Server, d: DeviceId, profile: Profile, osVersion: string, hardware: string, now: string)
    ensures var t := FleetStore.Register(s, d, profile, osVersion, hardware, now);
            && t.cache == s.cache[d := Registration(s.cache, d, profile, osVersion, hardware, now)]
            && t.store.rows == s.store.rows && t.store.devices - {d} == s.store.devices - {d} && d in t.store.devices
            && t.store.devices[d] == t.cache[d].row.(registeredAt := if d in s.store.devices then s.store.devices[d].registeredAt
                                                                     else t.cache[d].row.registeredAt)
  {
  }

  lemma HeartbeatIs(s: Server, hb: Heartbeat, now: string)
    ensures var (t, cmd) := HeartbeatPop(HeartbeatUpsert(s, hb, now), hb.device);
            var waits := hb.device in s.cache && s.cache[hb.device].pending != [];
            && t.cache == s.cache[hb.device := Beaten(s.cache, hb, now)]
            && cmd == (if waits then s.cache[hb.device].pending[0] else NOOP)
            && |t.store.rows| == |s.store.rows|
            && forall i | 0 <= i < |t.store.rows| ::
                 t.store.rows[i] == if waits && s.store.rows[i].id == cmd.id then s.store.rows[i].(status := "delivered")
                                    else s.store.rows[i]
  {
  }

  /** What is cached after a heartbeat: what it reports, and one command fewer if any waited. */
  function Beaten(cache: map<DeviceId, Record>, hb: Heartbeat, now: string): Record {
    var known := hb.device in cache;
    Record(DeviceRow(if known then cache[hb.device].row.profile else NO_PROFILE, hb.osVersion, hb.hardware,
                     if known then cache[hb.device].row.registeredAt else now, hb.timestamp, hb.telemetry),
           if known && cache[hb.device].pending != [] then cache[hb.device].pending[1..] else [])
  }

  /** The places at which a list names `d`, in order. */
  ghost predicate Named(targets: seq<DeviceId>, d: DeviceId, at: seq<nat>) {
    && (forall i | 0 <= i < |at| :: at[i] < |targets| && targets[at[i]] == d)
    && (forall i, j | 0 <= i < j < |at| :: at[i] < at[j])
    && (forall k | 0 <= k < |targets| && targets[k] == d :: k in at)
  }

  /** `targeted` are exactly the known ones of some names, each as often as named, in order. */
  ghost predicate KnownAt(names: seq<DeviceId>, known: set<DeviceId>, at: seq<nat>, targeted: seq<DeviceId>) {
    && |at| == |targeted|
    && (forall i | 0 <= i < |at| :: at[i] < |names| && names[at[i]] in known && targeted[i] == names[at[i]])
    && (forall i, j | 0 <= i < j < |at| :: at[i] < at[j])
    && (forall k | 0 <= k < |names| && names[k] in known :: k in at)
  }

  lemma {:induction false} RegisteredAt(s: Server, names: seq<DeviceId>) returns (at: seq<nat>)
    ensures KnownAt(names, s.cache.Keys, at, Registered(s, names))
  {
    if names == [] {
      at := [];
    } else {
      var n := |names| - 1;
      at := RegisteredAt(s, names[..n]);
      assert forall k | 0 <= k < n :: names[..n][k] == names[k];
      if names[n] in s.cache {
        assert forall k | k in at :: k in at + [n];
        assert (at + [n])[|at|] == n;
        at := at + [n];
      }
    }
  }

  /** Pending commands with this action and these parameters, each under its own id. */
  ghost predicate Carry(cmds: seq<Command>, action: Option<string>, params: string, uuids: seq<CommandId>, at: seq<nat>) {
    |cmds| == |at|
    && forall i | 0 <= i < |at| :: at[i] < |uuids| && cmds[i] == Command(action, params, uuids[at[i]], "pending")
  }

  lemma {:induction false} CopiesAt(d: DeviceId, targets: seq<DeviceId>, cmd: Command, uuids: seq<CommandId>)
    returns (at: seq<nat>)
    requires |uuids| == |targets|
    ensures Named(targets, d, at) && Carry(CopiesFor(d, targets, cmd, uuids), cmd.action, cmd.params, uuids, at)
  {
    if targets == [] {
      at := [];
    } else {
      var n := |targets| - 1;
      at := CopiesAt(d, targets[..n], cmd, uuids[..n]);
      assert forall k | 0 <= k < n :: targets[..n][k] == targets[k] && uuids[..n][k] == uuids[k];
      if targets[n] == d {
        assert forall k | k in at :: k in at + [n];
        assert (at + [n])[|at|] == n;
        at := at + [n];
      }
    }
  }

  lemma OneCopyEach(s: Server, targets: seq<DeviceId>, cmd: Command, uuids: seq<CommandId>)
    requires |uuids| == |targets| && forall d | d in targets :: d in s.cache
    requires forall j, k | 0 <= j < k < |targets| :: targets[j] != targets[k]
    ensures EnqueueAll(s, targets, cmd, uuids).cache.Keys == s.cache.Keys
    ensures forall i | 0 <= i < |targets| ::
              EnqueueAll(s, targets, cmd, uuids).cache[targets[i]]
              == Queued(s.cache[targets[i]], [Command(cmd.action, cmd.params, uuids[i], "pending")])
  {
    EnqueueAllKeepsDevices(s, targets, cmd, uuids);
    forall i | 0 <= i < |targets|
      ensures EnqueueAll(s, targets, cmd, uuids).cache[targets[i]]
           == Queued(s.cache[targets[i]], [Command(cmd.action, cmd.params, uuids[i], "pending")])
    {
      FanOutQueuesCopies(s, targets, cmd, uuids, targets[i]);
      CopyForEach(targets, cmd, uuids, i);
    }
  }

  lemma {:induction false} NoCopies(d: DeviceId, targets: seq<DeviceId>, cmd: Command, uuids: seq<CommandId>)
    requires |uuids| == |targets| && d !in targets
    ensures CopiesFor(d, targets, cmd, uuids) == []
  {
    if targets != [] {
      NoCopies(d, targets[..|targets| - 1], cmd, uuids[..|targets| - 1]);
    }
  }

  lemma {:induction false} CopyForEach(targets: seq<DeviceId>, cmd: Command, uuids: seq<CommandId>, i: nat)
    requires |uuids| == |targets| && i < |targets|
    requires forall j, k | 0 <= j < k < |targets| :: targets[j] != targets[k]
    ensures CopiesFor(targets[i], targets, cmd, uuids) == [Command(cmd.action, cmd.params, uuids[i], "pending")]
  {
    var n := |targets| - 1;
    if i == n {
      NoCopies(targets[n], targets[..n], cmd, uuids[..n]);
    } else {
      CopyForEach(targets[..n], cmd, uuids[..n], i);
    }
  }

  lemma {:induction false} FanOutKeepsGood(s: Server, targets: seq<DeviceId>, cmd: Command, uuids: seq<CommandId>)
    requires Good(s) && cmd.action.Some? && |uuids| == |targets|
    requires forall i, j | 0 <= i < j < |uuids| :: uuids[i] != uuids[j]
    requires forall i | 0 <= i < |uuids| :: !HasCommand(s.store.rows, uuids[i])
    ensures Good(EnqueueAll(s, targets, cmd, uuids))
    ensures forall id | HasCommand(EnqueueAll(s, targets, cmd, uuids).store.rows, id) ::
              HasCommand(s.store.rows, id) || id in uuids
  {
    if targets != [] {
      var n := |targets| - 1;
      FanOutKeepsGood(s, targets[..n], cmd, uuids[..n]);
      var t := EnqueueAll(s, targets[..n], cmd, uuids[..n]);
      assert uuids == uuids[..n] + [uuids[n]];
      if targets[n] in t.cache {
        EnqueueKeepsGoodIff(t, targets[n], Copy(cmd, uuids[n]));
      }
    }
  }

  /** Each registered device's queue grows by exactly the copies meant for it; nothing else in
      the cache changes. */
  lemma {:induction false} FanOutQueuesCopies(s: Server, targets: seq<DeviceId>, cmd: Command, uuids: seq<CommandId>, d: DeviceId)
    requires |uuids| == |targets| && d in s.cache
    ensures EnqueueAll(s, targets, cmd, uuids).cache.Keys == s.cache.Keys
    ensures EnqueueAll(s, targets, cmd, uuids).cache[d]
            == s.cache[d].(pending := s.cache[d].pending + CopiesFor(d, targets, cmd, uuids))
  {
    EnqueueAllKeepsDevices(s, targets, cmd, uuids);
    if targets != [] {
      var n := |targets| - 1;
      FanOutQueuesCopies(s, targets[..n], cmd, uuids[..n], d);
    }
  }
}
