/** The whole command protocol: one server, any number of devices, a network that loses requests
    and replies, agents that time out, and a server that may die between any two transactions.

    A request that the agent has given up on may still reach the server later.  The agent's half
    is over-approximated: when idle it may send a heartbeat or a flush post at any time.  That the
    order fixed by its loop is one of the runs below is proved in FleetLoop. */
module FleetProtocol {
  import opened Common
  import opened FleetStore

  /** A heartbeat's reply is handed to `execute_command`; a flush post's reply is never read. */
  datatype Purpose = Beat | Flush

  datatype Request = Request(purpose: Purpose, hb: Heartbeat)

  /** The registry lock, held by a heartbeat between its transactions and its reply. */
  datatype Lock = Free | Upserted(req: nat) | Popped(req: nat, cmd: Command)

  /** Who a command was queued for, and how many were committed before it. */
  datatype Origin = Origin(device: DeviceId, stamp: nat)

  datatype System = System(
    server: Server,
    lock: Lock,
    sent: seq<Request>,
    inbound: set<nat>,
    replies: map<nat, Command>,
    waiting: map<DeviceId, nat>,
    // history: what was committed, what was run by which agent, what went missing
    committed: map<CommandId, Origin>,
    executed: seq<(DeviceId, CommandId)>,
    lost: set<CommandId>,
    discarded: set<CommandId>,
    removed: set<DeviceId>)

  datatype Step =
    | Send(purpose: Purpose, hb: Heartbeat)
    | LoseRequest(req: nat)
    | Upsert(req: nat, now: string)
    | Pop
    | Reply
    | LoseReply(req: nat)
    | Receive(device: DeviceId, readable: bool)
    | GiveUp(device: DeviceId)
    | Crash
    | Queue(device: DeviceId, cmd: Command)
    | Enroll(device: DeviceId, profile: Profile, osVersion: string, hardware: string, now: string)
    | Dismiss(device: DeviceId)

  /** Queue carries the protocol's hypotheses: a fresh id, a real action, status pending. */
  predicate Enabled(s: System, step: Step) {
    match step
    case Send(purpose, hb) => hb.device !in s.waiting
    case LoseRequest(r) => r in s.inbound
    case Upsert(r, now) => s.lock.Free? && r in s.inbound && r < |s.sent|
    case Pop => s.lock.Upserted? && s.lock.req < |s.sent| && s.sent[s.lock.req].hb.device in s.server.cache
    case Reply => s.lock.Popped?
    case LoseReply(r) => r in s.replies
    case Receive(d, readable) => d in s.waiting && s.waiting[d] in s.replies && s.waiting[d] < |s.sent|
    case GiveUp(d) => d in s.waiting
    case Crash => true
    case Queue(d, cmd) =>
      s.lock.Free? && d in s.server.cache && cmd.id !in s.committed && cmd.action.Some? && cmd.status == PENDING
    case Enroll(d, profile, osVersion, hardware, now) => s.lock.Free?
    case Dismiss(d) => s.lock.Free? && d in s.server.cache
  }

  function IdIn(cmd: Command): set<CommandId> { if cmd.action.Some? then {cmd.id} else {} }

  function PendingIds(rows: seq<CommandRow>): set<CommandId> {
    set i | 0 <= i < |rows| && rows[i].status == PENDING :: rows[i].id
  }

  function PendingIdsOf(rows: seq<CommandRow>, d: DeviceId): set<CommandId> {
    set i | 0 <= i < |rows| && rows[i].status == PENDING && rows[i].device == d :: rows[i].id
  }

  ghost function Next(s: System, step: Step): System
    requires Enabled(s, step)
  {
    match step
    case Send(purpose, hb) =>
      s.(sent := s.sent + [Request(purpose, hb)], inbound := s.inbound + {|s.sent|},
         waiting := s.waiting[hb.device := |s.sent|])
    case LoseRequest(r) => s.(inbound := s.inbound - {r})
    case Upsert(r, now) =>
      s.(server := HeartbeatUpsert(s.server, s.sent[r].hb, now), lock := Upserted(r), inbound := s.inbound - {r})
    case Pop =>
      var (server, cmd) := HeartbeatPop(s.server, s.sent[s.lock.req].hb.device);
      s.(server := server, lock := Popped(s.lock.req, cmd))
    case Reply => s.(lock := Free, replies := s.replies[s.lock.req := s.lock.cmd])
    case LoseReply(r) => s.(replies := s.replies - {r}, lost := s.lost + IdIn(s.replies[r]))
    case Receive(d, readable) =>
      var r := s.waiting[d];
      var cmd := s.replies[r];
      var runs := s.sent[r].purpose == Beat && readable && cmd.action.Some?;
      s.(replies := s.replies - {r}, waiting := s.waiting - {d},
         executed := if runs then s.executed + [(d, cmd.id)] else s.executed,
         lost := if runs then s.lost else s.lost + IdIn(cmd))
    case GiveUp(d) => s.(waiting := s.waiting - {d})
    case Crash =>
      s.(server := Recover(s.server.store), lock := Free,
         lost := if s.lock.Popped? then s.lost + IdIn(s.lock.cmd) else s.lost)
    case Queue(d, cmd) =>
      s.(server := Enqueue(s.server, d, cmd), committed := s.committed[cmd.id := Origin(d, |s.committed|)])
    case Enroll(d, profile, osVersion, hardware, now) =>
      s.(server := Register(s.server, d, profile, osVersion, hardware, now))
    case Dismiss(d) =>
      s.(server := Remove(s.server, d), removed := s.removed + {d},
         discarded := s.discarded + PendingIdsOf(s.server.store.rows, d))
  }

  ghost predicate Initial(s: System) {
    s == System(Recover(Store(map[], [])), Free, [], {}, map[], map[], map[], [], {}, {}, {})
  }

  // ---------------------------------------------------------------- where a command is

  function RepliedIds(replies: map<nat, Command>): set<CommandId> {
    set r | r in replies && replies[r].action.Some? :: replies[r].id
  }

  function TransitIds(replies: map<nat, Command>, lock: Lock): set<CommandId> {
    RepliedIds(replies) + if lock.Popped? then IdIn(lock.cmd) else {}
  }

  function ExecutedIds(executed: seq<(DeviceId, CommandId)>): set<CommandId> { set e | e in executed :: e.1 }

  datatype Places = Places(pending: set<CommandId>, transit: set<CommandId>, executed: set<CommandId>,
                           lost: set<CommandId>, discarded: set<CommandId>)

  function PlacesOf(s: System): Places {
    Places(PendingIds(s.server.store.rows), TransitIds(s.replies, s.lock), ExecutedIds(s.executed),
           s.lost, s.discarded)
  }

  /** In how many of the five places an id is. */
  function Tally(p: Places, id: CommandId): nat {
    (if id in p.pending then 1 else 0) + (if id in p.transit then 1 else 0) + (if id in p.executed then 1 else 0)
    + (if id in p.lost then 1 else 0) + (if id in p.discarded then 1 else 0)
  }

  /** Every id of `all` is in exactly one of the five places, and no other id is anywhere. */
  ghost predicate Splits(all: set<CommandId>, p: Places) {
    forall id :: Tally(p, id) == if id in all then 1 else 0
  }

  // ---------------------------------------------------------------- the invariant, in parts

  /** Rows are known and in commit order; an id without a row, or discarded, was its device's
      when that device was removed. */
  ghost predicate RowsFit(rows: seq<CommandRow>, c: map<CommandId, Origin>, discarded: set<CommandId>, removed: set<DeviceId>) {
    && (forall i | 0 <= i < |rows| ::
          && rows[i].id in c && c[rows[i].id].device == rows[i].device
          && (rows[i].status == PENDING || rows[i].status == DELIVERED)
          && rows[i].id !in discarded)
    && (forall i, j | 0 <= i < j < |rows| :: c[rows[i].id].stamp < c[rows[j].id].stamp)
    && (forall id | id in c :: c[id].stamp < |c|)
    && (forall id | id in c :: HasCommand(rows, id) || c[id].device in removed)
    && (forall id | id in discarded :: id in c && c[id].device in removed)
  }

  ghost predicate RowsOk(s: System) { RowsFit(s.server.store.rows, s.committed, s.discarded, s.removed) }

  /** A handed-out command answers a request of the device it was queued for. */
  ghost predicate Addressed(s: System, r: nat, cmd: Command) {
    && r < |s.sent|
    && (cmd.action.Some? ==> cmd.id in s.committed && s.committed[cmd.id].device == s.sent[r].hb.device)
  }

  ghost predicate WiresOk(s: System) {
    && (forall r | r in s.inbound :: r < |s.sent| && r !in s.replies)
    && (forall r | r in s.replies :: Addressed(s, r, s.replies[r]))
    && (forall q, r | q in s.replies && r in s.replies && q != r ::
          IdIn(s.replies[q]) !! IdIn(s.replies[r]))
    && (s.lock.Upserted? ==>
          s.lock.req < |s.sent| && s.sent[s.lock.req].hb.device in s.server.cache)
    && (s.lock.Popped? ==> Addressed(s, s.lock.req, s.lock.cmd) && IdIn(s.lock.cmd) !! RepliedIds(s.replies))
    && (!s.lock.Free? ==> s.lock.req !in s.replies && s.lock.req !in s.inbound)
    && (forall d | d in s.waiting :: s.waiting[d] < |s.sent| && s.sent[s.waiting[d]].hb.device == d)
  }

  ghost predicate ExecutedOk(s: System) {
    && (forall i | 0 <= i < |s.executed| ::
          s.executed[i].1 in s.committed && s.committed[s.executed[i].1].device == s.executed[i].0)
    && (forall i, j | 0 <= i < j < |s.executed| :: s.executed[i].1 != s.executed[j].1)
  }

  ghost predicate LedgerOk(s: System) { Splits(s.committed.Keys, PlacesOf(s)) }

  ghost predicate Inv(s: System) {
    Good(s.server) && RowsOk(s) && WiresOk(s) && ExecutedOk(s) && LedgerOk(s)
  }

  // ---------------------------------------------------------------- how the places move

  lemma PendingAfterInsert(rows: seq<CommandRow>, row: CommandRow)
    requires row.status == PENDING
    ensures PendingIds(rows + [row]) == PendingIds(rows) + {row.id}
  {
    var more := rows + [row];
    assert more[|rows|] == row;
    assert forall i | 0 <= i < |rows| :: more[i] == rows[i];
  }

  lemma PendingAfterDelivery(st: Store, k: nat)
    requires UniqueIds(st.rows) && k < |st.rows| && st.rows[k].status == PENDING
    ensures PendingIds(MarkDelivered(st, st.rows[k].id).rows) == PendingIds(st.rows) - {st.rows[k].id}
  {
    var rows, marked := st.rows, MarkDelivered(st, st.rows[k].id).rows;
    assert forall i | 0 <= i < |rows| && i != k :: rows[i].id != rows[k].id && marked[i] == rows[i];
    forall id
      ensures id in PendingIds(marked) <==> id in PendingIds(rows) && id != rows[k].id
    {
      if id in PendingIds(rows) && id != rows[k].id {
        var i :| 0 <= i < |rows| && rows[i].status == PENDING && rows[i].id == id;
        assert marked[i] == rows[i];
      }
    }
  }

  lemma PendingAfterDismissal(rows: seq<CommandRow>, d: DeviceId)
    requires UniqueIds(rows)
    ensures PendingIds(RowsNotOf(rows, d)) == PendingIds(rows) - PendingIdsOf(rows, d)
  {
    var kept := RowsNotOf(rows, d);
    var at := RemovalKeepsOrder(rows, d);
    forall id | id in PendingIds(kept)
      ensures id in PendingIds(rows) && id !in PendingIdsOf(rows, d)
    {
      var i :| 0 <= i < |kept| && kept[i].status == PENDING && kept[i].id == id;
      assert rows[at[i]] == kept[i];
      assert forall k | 0 <= k < |rows| && rows[k].device == d :: k != at[i] && rows[k].id != id;
    }
    forall id | id in PendingIds(rows) && id !in PendingIdsOf(rows, d)
      ensures id in PendingIds(kept)
    {
      var k :| 0 <= k < |rows| && rows[k].status == PENDING && rows[k].id == id;
      assert rows[k] in kept;
    }
  }

  lemma RepliedAfterReply(replies: map<nat, Command>, r: nat, cmd: Command)
    requires r !in replies
    ensures RepliedIds(replies[r := cmd]) == RepliedIds(replies) + IdIn(cmd)
  {
    var more := replies[r := cmd];
    forall id | id in RepliedIds(replies) + IdIn(cmd)
      ensures id in RepliedIds(more)
    {
      if id in RepliedIds(replies) {
        var q :| q in replies && replies[q].action.Some? && replies[q].id == id;
        assert more[q] == replies[q];
      } else {
        assert more[r] == cmd;
      }
    }
  }

  lemma RepliedAfterRead(replies: map<nat, Command>, r: nat)
    requires r in replies
    requires forall p, q | p in replies && q in replies && p != q :: IdIn(replies[p]) !! IdIn(replies[q])
    ensures RepliedIds(replies - {r}) == RepliedIds(replies) - IdIn(replies[r])
    ensures IdIn(replies[r]) <= RepliedIds(replies)
  {
    var less := replies - {r};
    forall id | id in RepliedIds(less)
      ensures id in RepliedIds(replies) && id !in IdIn(replies[r])
    {
      var q :| q in less && less[q].action.Some? && less[q].id == id;
      assert id in IdIn(replies[q]);
    }
    forall id | id in RepliedIds(replies) - IdIn(replies[r])
      ensures id in RepliedIds(less)
    {
      var q :| q in replies && replies[q].action.Some? && replies[q].id == id;
      assert less[q] == replies[q];
    }
  }

  lemma ExecutedAfterRun(executed: seq<(DeviceId, CommandId)>, d: DeviceId, id: CommandId)
    ensures ExecutedIds(executed + [(d, id)]) == ExecutedIds(executed) + {id}
  {
    var more := executed + [(d, id)];
    assert more[|executed|] == (d, id);
    assert forall e | e in executed :: e in more;
  }

  /** Row `k` is the oldest pending row of `d` and holds the front of its cached queue. */
  ghost predicate IsFront(s: Server, d: DeviceId, k: nat) {
    var rows := s.store.rows;
    && d in s.cache && s.cache[d].pending != []
    && k < |rows| && rows[k].device == d && rows[k].status == PENDING
    && ToCommand(rows[k]) == s.cache[d].pending[0]
    && forall i | 0 <= i < |rows| && rows[i].device == d && rows[i].status == PENDING :: k <= i
  }

  lemma PoppedRow(s: Server, d: DeviceId) returns (k: nat)
    requires Good(s) && d in s.cache && s.cache[d].pending != []
    ensures IsFront(s, d, k)
  {
    k := FirstPending(s.store.rows, d);
  }

  lemma {:induction false} FirstPending(rows: seq<CommandRow>, d: DeviceId) returns (k: nat)
    requires Pending(rows, d) != []
    ensures k < |rows| && rows[k].device == d && rows[k].status == PENDING && ToCommand(rows[k]) == Pending(rows, d)[0]
    ensures forall i | 0 <= i < |rows| && rows[i].device == d && rows[i].status == PENDING :: k <= i
  {
    var n := |rows| - 1;
    if Pending(rows[..n], d) != [] {
      k := FirstPending(rows[..n], d);
      assert forall i | 0 <= i < n :: rows[..n][i] == rows[i];
    } else {
      k := n;
      PendingMembers(rows[..n], d);
      assert forall i | 0 <= i < n :: rows[..n][i] == rows[i];
    }
  }

  // ---------------------------------------------------------------- every step keeps the invariant

  lemma StepKeepsServer(s: System, step: Step)
    requires Inv(s) && Enabled(s, step)
    ensures Good(Next(s, step).server)
  {
    match step {
      case Upsert(r, now) => HeartbeatUpsertKeepsGood(s.server, s.sent[r].hb, now);
      case Pop => HeartbeatPopKeepsGood(s.server, s.sent[s.lock.req].hb.device);
      case Crash => RecoverIsGood(s.server.store);
      case Queue(d, cmd) => EnqueueKeepsGoodIff(s.server, d, cmd);
      case Enroll(d, profile, osVersion, hardware, now) =>
        RegisterKeepsGood(s.server, d, profile, osVersion, hardware, now);
      case Dismiss(d) => RemoveKeepsGood(s.server, d);
      case _ =>
    }
  }

  lemma NotYetStored(s: System, id: CommandId)
    requires RowsOk(s) && id !in s.committed
    ensures !HasCommand(s.server.store.rows, id)
  {
  }

  lemma RowsAfterInsert(rows: seq<CommandRow>, row: CommandRow, c: map<CommandId, Origin>,
                        discarded: set<CommandId>, removed: set<DeviceId>)
    requires RowsFit(rows, c, discarded, removed) && row.id !in c && row.status == PENDING
    ensures RowsFit(rows + [row], c[row.id := Origin(row.device, |c|)], discarded, removed)
  {
    var more, c' := rows + [row], c[row.id := Origin(row.device, |c|)];
    assert |c'| == |c| + 1;
    forall id | id in c'
      ensures HasCommand(more, id) || c'[id].device in removed
    {
      if id == row.id {
        assert more[|rows|].id == id;
      } else if HasCommand(rows, id) {
        var i :| 0 <= i < |rows| && rows[i].id == id;
        assert more[i].id == id;
      }
    }
  }

  lemma QueueKeepsRows(s: System, d: DeviceId, cmd: Command)
    requires RowsOk(s) && Enabled(s, Queue(d, cmd))
    ensures RowsOk(Next(s, Queue(d, cmd)))
  {
    NotYetStored(s, cmd.id);
    RowsAfterInsert(s.server.store.rows, CommandRow(d, cmd.id, cmd.action.value, cmd.params, PENDING),
                    s.committed, s.discarded, s.removed);
  }

  lemma PopKeepsRows(s: System)
    requires RowsOk(s) && Enabled(s, Pop)
    ensures RowsOk(Next(s, Pop))
  {
    var rows, marked := s.server.store.rows, Next(s, Pop).server.store.rows;
    assert |marked| == |rows| && forall i | 0 <= i < |rows| :: marked[i].id == rows[i].id && marked[i].device == rows[i].device;
    forall id | HasCommand(rows, id)
      ensures HasCommand(marked, id)
    {
      var i :| 0 <= i < |rows| && rows[i].id == id;
      assert marked[i].id == id;
    }
  }

  lemma KeptNotDiscarded(rows: seq<CommandRow>, d: DeviceId)
    requires UniqueIds(rows)
    ensures forall i | 0 <= i < |RowsNotOf(rows, d)| :: RowsNotOf(rows, d)[i].id !in PendingIdsOf(rows, d)
  {
    var at := RemovalKeepsOrder(rows, d);
    forall i | 0 <= i < |at|
      ensures rows[at[i]].id !in PendingIdsOf(rows, d)
    {
      assert forall k | 0 <= k < |rows| && rows[k].device == d :: k != at[i] && (k < at[i] || at[i] < k);
    }
  }

  lemma KeptStillStored(rows: seq<CommandRow>, d: DeviceId, id: CommandId)
    requires forall k | 0 <= k < |rows| && rows[k].id == id :: rows[k].device != d
    ensures HasCommand(rows, id) ==> HasCommand(RowsNotOf(rows, d), id)
  {
    var at := RemovalKeepsOrder(rows, d);
    if HasCommand(rows, id) {
      var k :| 0 <= k < |rows| && rows[k].id == id;
      assert rows[k] in RowsNotOf(rows, d);
    }
  }

  lemma RowsAfterRemoval(rows: seq<CommandRow>, d: DeviceId, c: map<CommandId, Origin>,
                         discarded: set<CommandId>, removed: set<DeviceId>)
    requires UniqueIds(rows) && RowsFit(rows, c, discarded, removed)
    ensures RowsFit(RowsNotOf(rows, d), c, discarded + PendingIdsOf(rows, d), removed + {d})
  {
    var kept := RowsNotOf(rows, d);
    var at := RemovalKeepsOrder(rows, d);
    KeptNotDiscarded(rows, d);
    forall i, j | 0 <= i < j < |kept|
      ensures c[kept[i].id].stamp < c[kept[j].id].stamp
    {
      assert kept[i] == rows[at[i]] && kept[j] == rows[at[j]] && at[i] < at[j];
    }
    forall id | id in c
      ensures HasCommand(kept, id) || c[id].device in removed + {d}
    {
      if HasCommand(rows, id) && c[id].device != d { KeptStillStored(rows, d, id); }
    }
  }

  lemma DismissKeepsRows(s: System, d: DeviceId)
    requires UniqueIds(s.server.store.rows) && RowsOk(s) && Enabled(s, Dismiss(d))
    ensures RowsOk(Next(s, Dismiss(d)))
  {
    RowsAfterRemoval(s.server.store.rows, d, s.committed, s.discarded, s.removed);
  }

  lemma StepKeepsRows(s: System, step: Step)
    requires UniqueIds(s.server.store.rows) && RowsOk(s) && Enabled(s, step)
    ensures RowsOk(Next(s, step))
  {
    match step {
      case Pop => PopKeepsRows(s);
      case Queue(d, cmd) => QueueKeepsRows(s, d, cmd);
      case Dismiss(d) => DismissKeepsRows(s, d);
      case _ =>
    }
  }

  lemma PopKeepsWires(s: System)
    requires Good(s.server) && RowsOk(s) && WiresOk(s) && Enabled(s, Pop)
    requires PendingIds(s.server.store.rows) !! RepliedIds(s.replies)
    ensures WiresOk(Next(s, Pop))
  {
    var d, t := s.sent[s.lock.req].hb.device, Next(s, Pop);
    if s.server.cache[d].pending != [] {
      var k := PoppedRow(s.server, d);
      assert s.server.store.rows[k].id in PendingIds(s.server.store.rows);
    }
  }

  lemma ReplyKeepsWires(s: System)
    requires WiresOk(s) && Enabled(s, Reply)
    ensures WiresOk(Next(s, Reply))
  {
    var t := Next(s, Reply);
    forall q | q in s.replies
      ensures IdIn(s.replies[q]) !! IdIn(s.lock.cmd)
    {
      if s.replies[q].action.Some? { assert s.replies[q].id in RepliedIds(s.replies); }
    }
  }

  lemma ReadKeepsWires(s: System, step: Step)
    requires WiresOk(s) && Enabled(s, step) && (step.LoseReply? || step.Receive?)
    ensures WiresOk(Next(s, step))
  {
    var r := if step.LoseReply? then step.req else s.waiting[step.device];
    RepliedAfterRead(s.replies, r);
  }

  lemma NetworkStepKeepsWires(s: System, step: Step)
    requires WiresOk(s) && Enabled(s, step) && (step.Send? || step.LoseRequest? || step.GiveUp?)
    ensures WiresOk(Next(s, step))
  {
  }

  lemma ServerStepKeepsWires(s: System, step: Step)
    requires WiresOk(s) && Enabled(s, step) && (step.Upsert? || step.Crash? || step.Enroll? || step.Dismiss?)
    ensures WiresOk(Next(s, step))
  {
  }

  lemma QueueKeepsWires(s: System, d: DeviceId, cmd: Command)
    requires WiresOk(s) && Enabled(s, Queue(d, cmd))
    ensures WiresOk(Next(s, Queue(d, cmd)))
  {
  }

  lemma StepKeepsWires(s: System, step: Step)
    requires WiresOk(s) && Enabled(s, step) && !step.Pop?
    ensures WiresOk(Next(s, step))
  {
    if step.Reply? {
      ReplyKeepsWires(s);
    } else if step.LoseReply? || step.Receive? {
      ReadKeepsWires(s, step);
    } else if step.Queue? {
      QueueKeepsWires(s, step.device, step.cmd);
    } else if step.Send? || step.LoseRequest? || step.GiveUp? {
      NetworkStepKeepsWires(s, step);
    } else {
      ServerStepKeepsWires(s, step);
    }
  }

  lemma StepKeepsExecuted(s: System, step: Step)
    requires WiresOk(s) && ExecutedOk(s) && Enabled(s, step)
    requires RepliedIds(s.replies) !! ExecutedIds(s.executed)
    ensures ExecutedOk(Next(s, step))
  {
    match step {
      case Receive(d, readable) =>
        var cmd := s.replies[s.waiting[d]];
        if cmd.action.Some? {
          assert cmd.id in RepliedIds(s.replies);
          assert forall i | 0 <= i < |s.executed| :: s.executed[i] in s.executed && s.executed[i].1 in ExecutedIds(s.executed);
        }
      case _ =>
    }
  }

  lemma PopKeepsLedger(s: System)
    requires Good(s.server) && LedgerOk(s) && Enabled(s, Pop)
    ensures LedgerOk(Next(s, Pop))
  {
    var d, t := s.sent[s.lock.req].hb.device, Next(s, Pop);
    var p, q := PlacesOf(s), PlacesOf(t);
    if s.server.cache[d].pending == [] {
      assert q == p;
    } else {
      var k := PoppedRow(s.server, d);
      var id := s.server.store.rows[k].id;
      PendingAfterDelivery(s.server.store, k);
      assert id in PendingIds(s.server.store.rows);
      assert q == p.(pending := p.pending - {id}, transit := p.transit + {id});
      assert forall x :: Tally(q, x) == Tally(p, x);
    }
  }

  lemma ReadKeepsLedger(s: System, step: Step)
    requires WiresOk(s) && LedgerOk(s) && Enabled(s, step) && (step.LoseReply? || step.Receive?)
    ensures LedgerOk(Next(s, step))
  {
    var r := if step.LoseReply? then step.req else s.waiting[step.device];
    var t, cmd := Next(s, step), s.replies[r];
    var p, q := PlacesOf(s), PlacesOf(t);
    RepliedAfterRead(s.replies, r);
    if step.Receive? { ExecutedAfterRun(s.executed, step.device, cmd.id); }
    assert q.transit == p.transit - IdIn(cmd) by {
      assert s.lock.Popped? ==> IdIn(s.lock.cmd) !! IdIn(cmd);
    }
    assert q == p.(transit := q.transit, executed := p.executed + IdIn(cmd))
        || q == p.(transit := q.transit, lost := p.lost + IdIn(cmd));
    assert forall x :: Tally(p, x) <= 1 && Tally(q, x) == Tally(p, x);
  }

  lemma DismissKeepsLedger(s: System, d: DeviceId)
    requires UniqueIds(s.server.store.rows) && LedgerOk(s) && Enabled(s, Dismiss(d))
    ensures LedgerOk(Next(s, Dismiss(d)))
  {
    var rows, t := s.server.store.rows, Next(s, Dismiss(d));
    var p, q, gone := PlacesOf(s), PlacesOf(t), PendingIdsOf(rows, d);
    PendingAfterDismissal(rows, d);
    assert gone <= p.pending && q == p.(pending := p.pending - gone, discarded := p.discarded + gone);
    assert forall x :: Tally(p, x) <= 1 && Tally(q, x) == Tally(p, x);
  }

  lemma QueueKeepsLedger(s: System, d: DeviceId, cmd: Command)
    requires !HasCommand(s.server.store.rows, cmd.id) && LedgerOk(s) && Enabled(s, Queue(d, cmd))
    ensures LedgerOk(Next(s, Queue(d, cmd)))
  {
    var rows, t := s.server.store.rows, Next(s, Queue(d, cmd));
    var p, q := PlacesOf(s), PlacesOf(t);
    PendingAfterInsert(rows, CommandRow(d, cmd.id, cmd.action.value, cmd.params, PENDING));
    assert q == p.(pending := p.pending + {cmd.id});
    assert forall x :: Tally(p, x) <= 1 && Tally(q, x) == Tally(p, x) + if x == cmd.id then 1 else 0;
  }

  lemma ReplyKeepsLedger(s: System)
    requires WiresOk(s) && LedgerOk(s) && Enabled(s, Reply)
    ensures LedgerOk(Next(s, Reply))
  {
    RepliedAfterReply(s.replies, s.lock.req, s.lock.cmd);
    assert PlacesOf(Next(s, Reply)) == PlacesOf(s);
  }

  lemma CrashKeepsLedger(s: System)
    requires WiresOk(s) && LedgerOk(s)
    ensures LedgerOk(Next(s, Crash))
  {
    var p, q := PlacesOf(s), PlacesOf(Next(s, Crash));
    assert forall x :: Tally(p, x) <= 1 && Tally(q, x) == Tally(p, x);
  }

  lemma StepKeepsLedger(s: System, step: Step)
    requires Good(s.server) && RowsOk(s) && WiresOk(s) && LedgerOk(s) && Enabled(s, step)
    ensures LedgerOk(Next(s, step))
  {
    match step {
      case Pop => PopKeepsLedger(s);
      case Reply => ReplyKeepsLedger(s);
      case LoseReply(r) => ReadKeepsLedger(s, step);
      case Receive(d, readable) => ReadKeepsLedger(s, step);
      case Crash => CrashKeepsLedger(s);
      case Queue(d, cmd) => NotYetStored(s, cmd.id); QueueKeepsLedger(s, d, cmd);
      case Dismiss(d) => DismissKeepsLedger(s, d);
      case _ => assert PlacesOf(Next(s, step)) == PlacesOf(s);
    }
  }

  lemma LedgerFacts(s: System)
    requires LedgerOk(s)
    ensures s.discarded <= s.committed.Keys && s.lost <= s.committed.Keys
    ensures TransitIds(s.replies, s.lock) !! ExecutedIds(s.executed)
    ensures PendingIds(s.server.store.rows) !! TransitIds(s.replies, s.lock)
  {
    var p := PlacesOf(s);
    assert forall x | x in p.pending || x in p.transit || x in p.discarded || x in p.lost ::
        Tally(p, x) >= 1 && x in s.committed.Keys;
    assert forall x :: Tally(p, x) <= 1;
  }

  lemma StepKeepsInv(s: System, step: Step)
    requires Inv(s) && Enabled(s, step)
    ensures Inv(Next(s, step))
  {
    var t := Next(s, step);
    LedgerFacts(s);
    assert Good(t.server) by { StepKeepsServer(s, step); }
    assert RowsOk(t) by { StepKeepsRows(s, step); }
    assert WiresOk(t) by { if step.Pop? { PopKeepsWires(s); } else { StepKeepsWires(s, step); } }
    assert ExecutedOk(t) by { StepKeepsExecuted(s, step); }
    assert LedgerOk(t) by { StepKeepsLedger(s, step); }
  }

  // ---------------------------------------------------------------- order of execution

  type Origins = map<CommandId, Origin>

  function Stamp(c: Origins, id: CommandId): nat { if id in c then c[id].stamp else 0 }

  ghost predicate Sorted(rows: seq<CommandRow>, c: Origins) {
    forall i, j | 0 <= i < j < |rows| :: Stamp(c, rows[i].id) < Stamp(c, rows[j].id)
  }

  /** Whatever still waits in a device's queue was committed after everything handed to it. */
  ghost predicate HandedOutFirst(rows: seq<CommandRow>, handed: set<CommandId>, c: Origins) {
    forall i, id | 0 <= i < |rows| && rows[i].status == PENDING && id in handed && id in c
                   && c[id].device == rows[i].device :: Stamp(c, id) < Stamp(c, rows[i].id)
  }

  ghost predicate ExecutedInOrder(executed: seq<(DeviceId, CommandId)>, c: Origins) {
    forall i, j | 0 <= i < j < |executed| && executed[i].0 == executed[j].0 ::
      Stamp(c, executed[i].1) < Stamp(c, executed[j].1)
  }

  /** The command request `r` has been answered with, on its way or about to leave the server. */
  function Answer(replies: map<nat, Command>, lock: Lock, r: nat): Command {
    if r in replies then replies[r]
    else if lock.Popped? && lock.req == r then lock.cmd
    else NOOP
  }

  ghost predicate Newest(executed: seq<(DeviceId, CommandId)>, c: Origins, d: DeviceId, cmd: Command) {
    cmd.action.Some? ==>
      forall j | 0 <= j < |executed| && executed[j].0 == d :: Stamp(c, executed[j].1) < Stamp(c, cmd.id)
  }

  function Handed(s: System): set<CommandId> { TransitIds(s.replies, s.lock) + ExecutedIds(s.executed) }

  ghost predicate NextIsNewest(s: System) {
    forall d | d in s.waiting :: Newest(s.executed, s.committed, d, Answer(s.replies, s.lock, s.waiting[d]))
  }

  ghost predicate OrderOk(s: System) {
    && HandedOutFirst(s.server.store.rows, Handed(s), s.committed)
    && ExecutedInOrder(s.executed, s.committed)
    && NextIsNewest(s)
  }

  lemma HandedAfterDelivery(rows: seq<CommandRow>, marked: seq<CommandRow>, k: nat, handed: set<CommandId>, c: Origins)
    requires k < |rows| == |marked| && forall i | 0 <= i < |rows| :: marked[i] == MarkRow(rows[i], rows[k].id)
    requires rows[k].id in c && rows[k].device == c[rows[k].id].device
    requires forall i | 0 <= i < |rows| && rows[i].device == rows[k].device && rows[i].status == PENDING :: k <= i
    requires Sorted(rows, c) && HandedOutFirst(rows, handed, c)
    ensures HandedOutFirst(marked, handed + {rows[k].id}, c)
  {
    forall i, id | 0 <= i < |marked| && marked[i].status == PENDING && id in handed + {rows[k].id} && id in c
                   && c[id].device == marked[i].device
      ensures Stamp(c, id) < Stamp(c, marked[i].id)
    {
      assert marked[i] == rows[i] && i != k;
      if id == rows[k].id { assert k < i; }
    }
  }

  lemma HandedAfterRemoval(rows: seq<CommandRow>, d: DeviceId, handed: set<CommandId>, c: Origins)
    requires HandedOutFirst(rows, handed, c)
    ensures HandedOutFirst(RowsNotOf(rows, d), handed, c)
  {
    var at := RemovalKeepsOrder(rows, d);
    var kept := RowsNotOf(rows, d);
    forall i, id | 0 <= i < |kept| && kept[i].status == PENDING && id in handed && id in c
                   && c[id].device == kept[i].device
      ensures Stamp(c, id) < Stamp(c, kept[i].id)
    {
      assert rows[at[i]] == kept[i];
    }
  }

  lemma HandedAfterInsert(rows: seq<CommandRow>, row: CommandRow, handed: set<CommandId>, c: Origins)
    requires forall id | id in c :: c[id].stamp < |c|
    requires forall i | 0 <= i < |rows| :: rows[i].id in c
    requires row.id !in c && handed <= c.Keys
    requires HandedOutFirst(rows, handed, c)
    ensures HandedOutFirst(rows + [row], handed, c[row.id := Origin(row.device, |c|)])
  {
  }

  /** Every step but Pop, Queue and Dismiss leaves the queues alone and hands nothing out. */
  lemma OthersKeepHandedOut(s: System, step: Step)
    requires WiresOk(s) && HandedOutFirst(s.server.store.rows, Handed(s), s.committed) && Enabled(s, step)
    requires !step.Pop? && !step.Queue? && !step.Dismiss?
    ensures var t := Next(s, step); HandedOutFirst(t.server.store.rows, Handed(t), t.committed)
  {
    var t := Next(s, step);
    assert t.server.store.rows == s.server.store.rows && t.committed == s.committed;
    assert Handed(t) <= Handed(s) by {
      match step {
        case LoseReply(r) => LossHandsNothing(s, r);
        case Receive(d, readable) => ReceiveHandsNothing(s, d, readable);
        case Reply => RepliedAfterReply(s.replies, s.lock.req, s.lock.cmd);
        case _ =>
      }
    }
  }

  lemma StepKeepsHandedOut(s: System, step: Step)
    requires Inv(s) && OrderOk(s) && Enabled(s, step)
    ensures var t := Next(s, step); HandedOutFirst(t.server.store.rows, Handed(t), t.committed)
  {
    if step.Pop? {
      PopKeepsHandedOut(s);
    } else if step.Queue? {
      QueueKeepsHandedOut(s, step.device, step.cmd);
    } else if step.Dismiss? {
      HandedAfterRemoval(s.server.store.rows, step.device, Handed(s), s.committed);
    } else {
      OthersKeepHandedOut(s, step);
    }
  }

  lemma PopHands(s: System, k: nat)
    requires Enabled(s, Pop) && IsFront(s.server, s.sent[s.lock.req].hb.device, k)
    requires RowsOk(s) && HandedOutFirst(s.server.store.rows, Handed(s), s.committed)
    ensures var t := Next(s, Pop); HandedOutFirst(t.server.store.rows, Handed(t), t.committed)
  {
    var rows, t := s.server.store.rows, Next(s, Pop);
    HandedAfterDelivery(rows, t.server.store.rows, k, Handed(s), s.committed);
    assert Handed(t) == Handed(s) + {rows[k].id};
  }

  lemma PopOfNothing(s: System)
    requires Enabled(s, Pop) && s.server.cache[s.sent[s.lock.req].hb.device].pending == []
    ensures Next(s, Pop) == s.(lock := Popped(s.lock.req, NOOP)) && Handed(Next(s, Pop)) == Handed(s)
  {
  }

  lemma PopKeepsHandedOut(s: System)
    requires Good(s.server) && RowsOk(s) && HandedOutFirst(s.server.store.rows, Handed(s), s.committed) && Enabled(s, Pop)
    ensures var t := Next(s, Pop); HandedOutFirst(t.server.store.rows, Handed(t), t.committed)
  {
    if s.server.cache[s.sent[s.lock.req].hb.device].pending == [] {
      PopOfNothing(s);
    } else {
      var k := PoppedRow(s.server, s.sent[s.lock.req].hb.device);
      PopHands(s, k);
    }
  }

  lemma LossHandsNothing(s: System, r: nat)
    requires WiresOk(s) && Enabled(s, LoseReply(r))
    ensures Handed(Next(s, LoseReply(r))) <= Handed(s)
  {
    RepliedAfterRead(s.replies, r);
  }

  lemma ReceiveHandsNothing(s: System, d: DeviceId, readable: bool)
    requires WiresOk(s) && Enabled(s, Receive(d, readable))
    ensures Handed(Next(s, Receive(d, readable))) <= Handed(s)
  {
    var r := s.waiting[d];
    RepliedAfterRead(s.replies, r);
    ExecutedAfterRun(s.executed, d, s.replies[r].id);
  }

  lemma QueueKeepsHandedOut(s: System, d: DeviceId, cmd: Command)
    requires Inv(s) && OrderOk(s) && Enabled(s, Queue(d, cmd))
    ensures var t := Next(s, Queue(d, cmd)); HandedOutFirst(t.server.store.rows, Handed(t), t.committed)
  {
    NotYetStored(s, cmd.id);
    LedgerFacts(s);
    HandedAfterInsert(s.server.store.rows, CommandRow(d, cmd.id, cmd.action.value, cmd.params, PENDING),
                      Handed(s), s.committed);
  }

  lemma OrderAfterRun(executed: seq<(DeviceId, CommandId)>, c: Origins, d: DeviceId, cmd: Command)
    requires ExecutedInOrder(executed, c) && Newest(executed, c, d, cmd) && cmd.action.Some?
    ensures ExecutedInOrder(executed + [(d, cmd.id)], c)
  {
  }

  lemma OrderAfterCommit(executed: seq<(DeviceId, CommandId)>, c: Origins, id: CommandId, o: Origin)
    requires ExecutedInOrder(executed, c) && id !in c
    requires forall i | 0 <= i < |executed| :: executed[i].1 in c
    ensures ExecutedInOrder(executed, c[id := o])
  {
    assert forall x | x in c :: Stamp(c[id := o], x) == Stamp(c, x);
  }

  lemma StepKeepsExecutedOrder(s: System, step: Step)
    requires ExecutedOk(s) && ExecutedInOrder(s.executed, s.committed) && NextIsNewest(s) && Enabled(s, step)
    ensures var t := Next(s, step); ExecutedInOrder(t.executed, t.committed)
  {
    var t := Next(s, step);
    if step.Receive? {
      var cmd := Answer(s.replies, s.lock, s.waiting[step.device]);
      if t.executed != s.executed { OrderAfterRun(s.executed, s.committed, step.device, cmd); }
    } else if step.Queue? {
      OrderAfterCommit(s.executed, s.committed, step.cmd.id, Origin(step.device, |s.committed|));
    }
  }

  lemma NewestKept(executed: seq<(DeviceId, CommandId)>, c: Origins, c': Origins, d: DeviceId, cmd: Command)
    requires Newest(executed, c, d, cmd)
    requires forall j | 0 <= j < |executed| :: executed[j].1 in c
    requires cmd.action.Some? ==> cmd.id in c
    requires forall id | id in c :: id in c' && c'[id] == c[id]
    ensures Newest(executed, c', d, cmd)
  {
  }

  lemma PopGivesNewest(s: System)
    requires Good(s.server) && RowsOk(s) && ExecutedOk(s) && OrderOk(s) && Enabled(s, Pop)
    ensures Newest(s.executed, s.committed, s.sent[s.lock.req].hb.device, Next(s, Pop).lock.cmd)
  {
    var d := s.sent[s.lock.req].hb.device;
    if s.server.cache[d].pending != [] {
      var k := PoppedRow(s.server, d);
      forall j | 0 <= j < |s.executed| && s.executed[j].0 == d
        ensures Stamp(s.committed, s.executed[j].1) < Stamp(s.committed, s.server.store.rows[k].id)
      {
        assert s.executed[j] in s.executed && s.executed[j].1 in ExecutedIds(s.executed);
      }
    }
  }

  lemma ReceiveKeepsNewest(s: System, d: DeviceId, readable: bool)
    requires WiresOk(s) && NextIsNewest(s) && Enabled(s, Receive(d, readable))
    ensures NextIsNewest(Next(s, Receive(d, readable)))
  {
    var t := Next(s, Receive(d, readable));
    forall e | e in t.waiting
      ensures Newest(t.executed, t.committed, e, Answer(t.replies, t.lock, t.waiting[e]))
    {
      assert e != d && s.waiting[e] != s.waiting[d];
      assert Answer(t.replies, t.lock, t.waiting[e]) == Answer(s.replies, s.lock, s.waiting[e]);
    }
  }

  lemma AnswersKeepNewest(s: System, step: Step)
    requires WiresOk(s) && ExecutedOk(s) && NextIsNewest(s) && Enabled(s, step) && !step.Pop? && !step.Receive?
    ensures NextIsNewest(Next(s, step))
  {
    var t := Next(s, step);
    forall d | d in t.waiting
      ensures Newest(t.executed, t.committed, d, Answer(t.replies, t.lock, t.waiting[d]))
    {
      var a := Answer(t.replies, t.lock, t.waiting[d]);
      if d in s.waiting && t.waiting[d] == s.waiting[d] && a == Answer(s.replies, s.lock, s.waiting[d]) {
        assert Addressed(s, s.waiting[d], a) || a == NOOP;
        NewestKept(s.executed, s.committed, t.committed, d, a);
      } else {
        assert a == NOOP;
      }
    }
  }

  lemma PopKeepsNewest(s: System)
    requires Inv(s) && OrderOk(s) && Enabled(s, Pop)
    ensures NextIsNewest(Next(s, Pop))
  {
    var t := Next(s, Pop);
    assert Newest(s.executed, s.committed, s.sent[s.lock.req].hb.device, t.lock.cmd) by { PopGivesNewest(s); }
    forall d | d in t.waiting
      ensures Newest(t.executed, t.committed, d, Answer(t.replies, t.lock, t.waiting[d]))
    {
      if t.waiting[d] != s.lock.req {
        assert Answer(t.replies, t.lock, t.waiting[d]) == Answer(s.replies, s.lock, t.waiting[d]);
      }
    }
  }

  lemma StepKeepsOrder(s: System, step: Step)
    requires Inv(s) && OrderOk(s) && Enabled(s, step)
    ensures OrderOk(Next(s, step))
  {
    StepKeepsHandedOut(s, step);
    StepKeepsExecutedOrder(s, step);
    if step.Pop? {
      PopKeepsNewest(s);
    } else if step.Receive? {
      ReceiveKeepsNewest(s, step.device, step.readable);
    } else {
      AnswersKeepNewest(s, step);
    }
  }

  // ---------------------------------------------------------------- runs

  ghost predicate IsRun(s: System, steps: seq<Step>)
    decreases |steps|
  {
    steps == [] || (Enabled(s, steps[0]) && IsRun(Next(s, steps[0]), steps[1..]))
  }

  ghost function Exec(s: System, steps: seq<Step>): System
    requires IsRun(s, steps)
    decreases |steps|
  {
    if steps == [] then s else Exec(Next(s, steps[0]), steps[1..])
  }

  lemma InitialOk(s: System)
    requires Initial(s)
    ensures Inv(s) && OrderOk(s)
  {
    assert forall id :: Tally(PlacesOf(s), id) == 0;
  }

  lemma {:induction false} RunKeepsInv(s: System, steps: seq<Step>)
    requires Inv(s) && OrderOk(s) && IsRun(s, steps)
    ensures Inv(Exec(s, steps)) && OrderOk(Exec(s, steps))
    decreases |steps|
  {
    if steps != [] {
      StepKeepsInv(s, steps[0]);
      StepKeepsOrder(s, steps[0]);
      RunKeepsInv(Next(s, steps[0]), steps[1..]);
    }
  }

  /** In every run no command id is executed twice, and only by the device it was queued for. */
  lemma ExecutedAtMostOnce(s: System, steps: seq<Step>)
    requires Initial(s) && IsRun(s, steps)
    ensures var t := Exec(s, steps);
            && (forall i, j | 0 <= i < j < |t.executed| :: t.executed[i].1 != t.executed[j].1)
            && (forall i | 0 <= i < |t.executed| ::
                  t.executed[i].1 in t.committed && t.committed[t.executed[i].1].device == t.executed[i].0)
  {
    InitialOk(s);
    RunKeepsInv(s, steps);
  }

  /** In every run each device executes its commands in the order they were committed. */
  lemma ExecutedInCommitOrder(s: System, steps: seq<Step>)
    requires Initial(s) && IsRun(s, steps)
    ensures var t := Exec(s, steps);
            forall i, j | 0 <= i < j < |t.executed| && t.executed[i].0 == t.executed[j].0 ::
              && t.executed[i].1 in t.committed && t.executed[j].1 in t.committed
              && t.committed[t.executed[i].1].stamp < t.committed[t.executed[j].1].stamp
  {
    InitialOk(s);
    RunKeepsInv(s, steps);
  }

  /** In every run each committed id is in exactly one place: still pending in the table, on its
      way to an agent, executed, lost after dispatch, or discarded with its device.  The tables
      reload to the cache at every moment, also in the middle of a heartbeat. */
  lemma CommandsConserved(s: System, steps: seq<Step>)
    requires Initial(s) && IsRun(s, steps)
    ensures var t := Exec(s, steps);
            Splits(t.committed.Keys, PlacesOf(t)) && Recover(t.server.store) == t.server
  {
    InitialOk(s);
    RunKeepsInv(s, steps);
    MatchesIffReloadIsIdentity(Exec(s, steps).server);
  }

  predicate HasRow(rows: seq<CommandRow>, d: DeviceId, id: CommandId, status: string) {
    exists i | 0 <= i < |rows| :: rows[i].device == d && rows[i].id == id && rows[i].status == status
  }

  /** For a device that was never removed, once nothing is on the wire: every id committed for it
      is pending, executed or lost, exactly one of the three, and its row says which side of the
      dispatch it is on. */
  lemma NeverRemovedSplitsInThree(s: System, steps: seq<Step>, d: DeviceId, id: CommandId)
    requires Initial(s) && IsRun(s, steps)
    requires var t := Exec(s, steps);
             d !in t.removed && t.replies == map[] && !t.lock.Popped? && id in t.committed && t.committed[id].device == d
    ensures var t := Exec(s, steps);
            var pending, ran, lost := HasRow(t.server.store.rows, d, id, PENDING), (d, id) in t.executed, id in t.lost;
            && (pending || ran || lost) && !(pending && ran) && !(pending && lost) && !(ran && lost)
            && (HasRow(t.server.store.rows, d, id, DELIVERED) <==> ran || lost)
  {
    InitialOk(s);
    RunKeepsInv(s, steps);
    SplitAtRest(Exec(s, steps), d, id);
  }

  lemma RowSide(s: System, d: DeviceId, id: CommandId)
    requires UniqueIds(s.server.store.rows) && RowsOk(s)
    requires d !in s.removed && id in s.committed && s.committed[id].device == d
    ensures HasRow(s.server.store.rows, d, id, PENDING) <==> id in PendingIds(s.server.store.rows)
    ensures HasRow(s.server.store.rows, d, id, DELIVERED) <==> id !in PendingIds(s.server.store.rows)
  {
    var rows := s.server.store.rows;
    assert HasCommand(rows, id);
    var i :| 0 <= i < |rows| && rows[i].id == id;
    assert forall j | 0 <= j < |rows| && rows[j].id == id :: !(j < i) && !(i < j);
  }

  lemma ExecutedBy(s: System, d: DeviceId, id: CommandId)
    requires ExecutedOk(s) && id in s.committed && s.committed[id].device == d
    ensures (d, id) in s.executed <==> id in ExecutedIds(s.executed)
  {
    if id in ExecutedIds(s.executed) {
      var e :| e in s.executed && e.1 == id;
      var i :| 0 <= i < |s.executed| && s.executed[i] == e;
      assert e == (d, id);
    }
  }

  lemma SplitAtRest(s: System, d: DeviceId, id: CommandId)
    requires Inv(s) && d !in s.removed && s.replies == map[] && !s.lock.Popped?
    requires id in s.committed && s.committed[id].device == d
    ensures var pending, ran, lost := HasRow(s.server.store.rows, d, id, PENDING), (d, id) in s.executed, id in s.lost;
            && (pending || ran || lost) && !(pending && ran) && !(pending && lost) && !(ran && lost)
            && (HasRow(s.server.store.rows, d, id, DELIVERED) <==> ran || lost)
  {
    RowSide(s, d, id);
    ExecutedBy(s, d, id);
    assert Tally(PlacesOf(s), id) == 1;
    assert id !in s.discarded && id !in TransitIds(s.replies, s.lock);
  }

  /** A command that comes back to a flush post, or in a reply that cannot be parsed, goes to
      `lost`; nothing leaves `lost`, so no continuation of the run ever executes it. */
  lemma UnreadReplyIsNeverExecuted(s: System, d: DeviceId, readable: bool, steps: seq<Step>)
    requires Inv(s) && OrderOk(s) && Enabled(s, Receive(d, readable))
    requires s.sent[s.waiting[d]].purpose == Flush || !readable
    requires s.replies[s.waiting[d]].action.Some?
    requires IsRun(Next(s, Receive(d, readable)), steps)
    ensures var t := Exec(Next(s, Receive(d, readable)), steps);
            var id := s.replies[s.waiting[d]].id;
            id in t.lost && id !in ExecutedIds(t.executed) && id !in PendingIds(t.server.store.rows)
  {
    var u := Next(s, Receive(d, readable));
    StepKeepsInv(s, Receive(d, readable));
    StepKeepsOrder(s, Receive(d, readable));
    RunKeepsInv(u, steps);
    LostOnlyGrows(u, steps);
    var t, id := Exec(u, steps), s.replies[s.waiting[d]].id;
    assert Tally(PlacesOf(t), id) <= 1;
  }

  lemma {:induction false} LostOnlyGrows(s: System, steps: seq<Step>)
    requires IsRun(s, steps)
    ensures s.lost <= Exec(s, steps).lost
    decreases |steps|
  {
    if steps != [] { LostOnlyGrows(Next(s, steps[0]), steps[1..]); }
  }

  lemma Prepend(s: System, step: Step, steps: seq<Step>)
    requires Enabled(s, step) && IsRun(Next(s, step), steps)
    ensures IsRun(s, [step] + steps) && Exec(s, [step] + steps) == Exec(Next(s, step), steps)
  {
    assert ([step] + steps)[1..] == steps;
  }

  /** From any state in which a flush post of `d` is inbound and one command waits for `d`. */
  lemma FlushTail(s: System, hb: Heartbeat, cmd: Command) returns (steps: seq<Step>)
    requires s.lock == Free && s.sent == [Request(Flush, hb)] && s.inbound == {0} && s.replies == map[]
    requires s.waiting == map[hb.device := 0] && cmd.action.Some?
    requires hb.device in s.server.cache && s.server.cache[hb.device].pending == [cmd]
    ensures IsRun(s, steps)
    ensures var t := Exec(s, steps); t.committed == s.committed && t.lost == s.lost + {cmd.id} && t.executed == s.executed
  {
    var d := hb.device;
    var s4 := Next(s, Upsert(0, ""));
    var s5 := Next(s4, Pop);
    var s6 := Next(s5, Reply);
    var s7 := Next(s6, Receive(d, true));
    assert IsRun(s7, []);
    Prepend(s6, Receive(d, true), []);
    Prepend(s5, Reply, [Receive(d, true)] + []);
    Prepend(s4, Pop, [Reply] + ([Receive(d, true)] + []));
    Prepend(s, Upsert(0, ""), [Pop] + ([Reply] + ([Receive(d, true)] + [])));
    steps := [Upsert(0, "")] + ([Pop] + ([Reply] + ([Receive(d, true)] + [])));
  }

  /** So "every committed command is executed or still pending" is false: in this run the one
      command ever committed is handed to a flush post and lost. */
  lemma FlushLosesACommand(s: System) returns (steps: seq<Step>)
    requires Initial(s)
    ensures IsRun(s, steps)
    ensures var t := Exec(s, steps); t.committed.Keys == {"c"} && t.lost == {"c"} && t.executed == []
  {
    var hb := Heartbeat("d", "t", "os", "{}", NO_TELEMETRY);
    var cmd := Command(Some("update"), "{}", "c", PENDING);
    var enroll, queue, send := Enroll("d", NO_PROFILE, "os", "{}", "t"), Queue("d", cmd), Send(Flush, hb);
    var s1 := Next(s, enroll);
    var s2 := Next(s1, queue);
    var s3 := Next(s2, send);
    var tail := FlushTail(s3, hb, cmd);
    Prepend(s2, send, tail);
    Prepend(s1, queue, [send] + tail);
    Prepend(s, enroll, [queue] + ([send] + tail));
    steps := [enroll] + ([queue] + ([send] + tail));
  }
}
