/** Runs of the registry alone, in which the process may die at any commit point. */
module FleetRuns {
  import opened FleetStore

  datatype Op =
    | OpRegister(device: DeviceId, profile: Profile, osVersion: string, hardware: string, now: string)
    | OpHeartbeat(hb: Heartbeat, now: string)
    | OpEnqueue(device: DeviceId, cmd: Command)
    | OpRemove(device: DeviceId)

  /** One locked section, run to its end. */
  function Apply(s: Server, op: Op): Server {
    match op
    case OpRegister(d, profile, osVersion, hardware, now) => Register(s, d, profile, osVersion, hardware, now)
    case OpHeartbeat(hb, now) => HeartbeatPop(HeartbeatUpsert(s, hb, now), hb.device).0
    case OpEnqueue(d, cmd) => if d in s.cache then Enqueue(s, d, cmd) else s
    case OpRemove(d) => if d in s.cache then Remove(s, d) else s
  }

  /** What the tables hold at the start of the section and after each of its transactions. */
  function CommitPoints(s: Server, op: Op): seq<Store> {
    match op
    case OpHeartbeat(hb, now) =>
      var mid := HeartbeatUpsert(s, hb, now);
      [s.store, mid.store, HeartbeatPop(mid, hb.device).0.store]
    case _ => [s.store, Apply(s, op).store]
  }

  /** A section either completes, or the process dies at one of its commit points and restarts. */
  datatype Event = Done(op: Op) | Crash(op: Op, point: nat)

  predicate Possible(s: Server, e: Event) {
    match e
    case Done(op) => op.OpEnqueue? && op.device in s.cache ==> Acceptable(s, op.cmd)
    case Crash(op, point) => point < |CommitPoints(s, op)|
  }

  ghost function After(s: Server, e: Event): Server
    requires Possible(s, e)
  {
    match e
    case Done(op) => Apply(s, op)
    case Crash(op, point) => Recover(CommitPoints(s, op)[point])
  }

  ghost predicate IsRun(s: Server, events: seq<Event>)
    decreases |events|
  {
    events == [] || (Possible(s, events[0]) && IsRun(After(s, events[0]), events[1..]))
  }

  ghost function RunFrom(s: Server, events: seq<Event>): Server
    requires IsRun(s, events)
    decreases |events|
  {
    if events == [] then s else RunFrom(After(s, events[0]), events[1..])
  }

  lemma ApplyKeepsGood(s: Server, op: Op)
    requires Good(s) && Possible(s, Done(op))
    ensures Good(Apply(s, op))
  {
    match op
    case OpRegister(d, profile, osVersion, hardware, now) =>
      RegisterKeepsGood(s, d, profile, osVersion, hardware, now);
    case OpHeartbeat(hb, now) =>
      HeartbeatUpsertKeepsGood(s, hb, now);
      HeartbeatPopKeepsGood(HeartbeatUpsert(s, hb, now), hb.device);
    case OpEnqueue(d, cmd) => if d in s.cache { EnqueueKeepsGoodIff(s, d, cmd); }
    case OpRemove(d) => if d in s.cache { RemoveKeepsGood(s, d); }
  }

  /** A crash at any commit point, even inside an unacceptable enqueue, recovers to agreement. */
  lemma CrashRecoversGood(s: Server, op: Op, point: nat)
    requires Good(s) && point < |CommitPoints(s, op)|
    ensures Good(Recover(CommitPoints(s, op)[point]))
  {
    match op
    case OpRegister(d, profile, osVersion, hardware, now) =>
      RegisterKeepsGood(s, d, profile, osVersion, hardware, now);
    case OpHeartbeat(hb, now) =>
      HeartbeatUpsertKeepsGood(s, hb, now);
      HeartbeatPopKeepsGood(HeartbeatUpsert(s, hb, now), hb.device);
    case OpEnqueue(d, cmd) => if d in s.cache { EnqueueKeepsGoodIff(s, d, cmd); }
    case OpRemove(d) => if d in s.cache { RemoveKeepsGood(s, d); }
  }

  /** Main result: in every run, with crashes anywhere, whenever no section is in progress a
      reload would give back exactly the cached devices and exactly each queue in order. */
  lemma {:induction false} ReloadGivesTheCache(s: Server, events: seq<Event>)
    requires Good(s) && IsRun(s, events)
    ensures Good(RunFrom(s, events))
    ensures Recover(RunFrom(s, events).store) == RunFrom(s, events)
    decreases |events|
  {
    MatchesIffReloadIsIdentity(RunFrom(s, events));
    if events != [] {
      match events[0] {
        case Done(op) => ApplyKeepsGood(s, op);
        case Crash(op, point) => CrashRecoversGood(s, op, point);
      }
      ReloadGivesTheCache(After(s, events[0]), events[1..]);
    }
  }
}
