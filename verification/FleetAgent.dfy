/** The device's side: the bounded offline queue, the flush loop and the heartbeat loop.
    What the network does is an input of each post, so every pattern of failures is covered. */
module FleetAgent {
  import opened Common
  import opened FleetStore

  const OFFLINE_QUEUE_MAX: nat := 100

  /** How a heartbeat post ends: an exception, a reply that is no JSON object, or a command; or it
      does not come to one because the heartbeat cannot be built. */
  datatype Outcome = Unreachable | Unreadable | Answered(cmd: Command) | Unbuilt

  /** One turn of the loop against the network: what becomes of each flush post, the heartbeat and
      what becomes of it, and the payload built anew after a failed post, if that succeeds. */
  datatype Turn<!P> = Turn(accepts: nat -> bool, beat: P, outcome: Outcome, rebuilt: Option<P>)

  /** What became of a queued payload once it left the queue. */
  datatype Fate = Acknowledged | Overflowed

  datatype Departure<P> = Departure(payload: P, fate: Fate)

  function Payloads<P>(departed: seq<Departure<P>>): seq<P> {
    seq(|departed|, i requires 0 <= i < |departed| => departed[i].payload)
  }

  function Acks<P>(payloads: seq<P>): seq<Departure<P>> {
    seq(|payloads|, i requires 0 <= i < |payloads| => Departure(payloads[i], Acknowledged))
  }

  /** A queue whose history is known: in order of enqueueing, first what left, then what waits.
      Only a payload with a full queue behind it is ever dropped. */
  ghost predicate History<P>(enqueued: seq<P>, departed: seq<Departure<P>>, queue: seq<P>) {
    && |queue| <= OFFLINE_QUEUE_MAX
    && enqueued == Payloads(departed) + queue
    && forall i | 0 <= i < |departed| && departed[i].fate == Overflowed :: i + OFFLINE_QUEUE_MAX < |enqueued|
  }

  /** How many of `n` posts are made with success before one fails. */
  function Accepted(n: nat, accepts: nat -> bool): (k: nat)
    ensures k <= n && (forall i | 0 <= i < k :: accepts(i)) && (k < n ==> !accepts(k))
  {
    if n == 0 then 0
    else
      var k := Accepted(n - 1, accepts);
      if k == n - 1 && accepts(k) then n else k
  }

  function Flushed<P>(queue: seq<P>, accepts: nat -> bool): seq<P> { queue[Accepted(|queue|, accepts)..] }

  /** `deque(maxlen=100).append`: a full deque drops its left end. */
  function Pushed<P>(queue: seq<P>, payloads: seq<P>): seq<P>
    requires |payloads| <= 1
  {
    (if payloads != [] && |queue| == OFFLINE_QUEUE_MAX then queue[1..] else queue) + payloads
  }

  function Overflow<P>(queue: seq<P>, payloads: seq<P>): seq<Departure<P>> {
    if payloads != [] && |queue| == OFFLINE_QUEUE_MAX then [Departure(queue[0], Overflowed)] else []
  }

  class Agent<P> {
    var offlineQueue: seq<P>
    ghost var enqueued: seq<P>
    ghost var departed: seq<Departure<P>>  // in the order they left
    ghost var executed: seq<Command>

    ghost predicate Valid() reads this { History(enqueued, departed, offlineQueue) }

    constructor ()
      ensures Valid() && enqueued == [] && executed == []
    {
      offlineQueue, enqueued, departed, executed := [], [], [], [];
    }

    method EnqueueOffline(payload: P)
      requires Valid()
      modifies this
      ensures Valid() && enqueued == old(enqueued) + [payload] && executed == old(executed)
      ensures offlineQueue == Pushed(old(offlineQueue), [payload])
      ensures departed == old(departed) + Overflow(old(offlineQueue), [payload])
      ensures offlineQueue == (if |old(offlineQueue)| == 100 then old(offlineQueue)[1..] else old(offlineQueue)) + [payload]
    {
      if |offlineQueue| == OFFLINE_QUEUE_MAX {
        departed := departed + [Departure(offlineQueue[0], Overflowed)];
        offlineQueue := offlineQueue[1..];
      }
      offlineQueue := offlineQueue + [payload];
      enqueued := enqueued + [payload];
    }

    /** Posts the front until the queue is empty or a post fails; `accepts[i]` is the network's
        verdict on the i-th post of this call. */
    method FlushOfflineQueue(accepts: nat -> bool) returns (flushed: nat)
      requires Valid()
      modifies this
      ensures Valid() && enqueued == old(enqueued) && executed == old(executed)
      ensures flushed == Accepted(|old(offlineQueue)|, accepts) && offlineQueue == Flushed(old(offlineQueue), accepts)
      ensures departed == old(departed) + Acks(old(offlineQueue)[..flushed])
    {
      flushed := 0;
      ghost var queue0, departed0 := offlineQueue, departed;
      while offlineQueue != []
        invariant Valid() && enqueued == old(enqueued) && executed == old(executed)
        invariant flushed <= |queue0| && offlineQueue == queue0[flushed..]
        invariant forall i | 0 <= i < flushed :: accepts(i)
        invariant departed == departed0 + Acks(queue0[..flushed])
        decreases |offlineQueue|
      {
        if !accepts(flushed) {
          break;
        }
        departed := departed + [Departure(offlineQueue[0], Acknowledged)];
        offlineQueue := offlineQueue[1..];
        flushed := flushed + 1;
      }
    }

    /** A no-op is ignored; anything else is handed to its handler. */
    method ExecuteCommand(cmd: Command)
      modifies this`executed
      ensures executed == old(executed) + if cmd.action.None? then [] else [cmd]
    {
      if cmd.action.None? {
        return;
      }
      executed := executed + [cmd];
    }

    /** One turn of the loop.  The fresh payload built after a failed post is the one queued. */
    method Cycle(turn: Turn<P>)
      requires Valid()
      modifies this
      ensures Valid()
      ensures offlineQueue == AfterTurn(old(offlineQueue), turn)
      ensures enqueued == old(enqueued) + Queued(turn)
      ensures executed == old(executed) + Ran(turn.outcome)
      ensures departed == old(departed) + Departed(old(offlineQueue), turn)
      ensures TurnIs(turn, old(offlineQueue), old(enqueued), old(executed), offlineQueue, enqueued, executed)
    {
      EveryTurnIs(turn, offlineQueue, enqueued, executed);
      ghost var departed0, queue0 := departed, offlineQueue;
      var flushed := FlushOfflineQueue(turn.accepts);
      Conclude(turn);
      assert departed == departed0 + (Acks(queue0[..flushed]) + Overflow(Flushed(queue0, turn.accepts), Queued(turn)));
    }

    /** The part of a turn after the flush: the heartbeat and what becomes of it. */
    method Conclude(turn: Turn<P>)
      requires Valid()
      modifies this
      ensures Valid()
      ensures offlineQueue == Pushed(old(offlineQueue), Queued(turn))
      ensures enqueued == old(enqueued) + Queued(turn)
      ensures executed == old(executed) + Ran(turn.outcome)
      ensures departed == old(departed) + Overflow(old(offlineQueue), Queued(turn))
    {
      match turn.outcome
      case Unreachable =>
        if turn.rebuilt.Some? {
          EnqueueOffline(turn.rebuilt.value);
        }
      case Unreadable => ExecuteCommand(NOOP);
      case Answered(cmd) => ExecuteCommand(cmd);
      case Unbuilt =>
    }

    /** Any number of turns, against any network. */
    method Loop(turns: seq<Turn<P>>) returns (ghost queuedAt: seq<nat>, ghost ranAt: seq<nat>)
      requires Valid()
      modifies this
      ensures Valid()
      ensures offlineQueue == AfterTurns(old(offlineQueue), turns)
      ensures enqueued == old(enqueued) + AllQueued(turns)
      ensures executed == old(executed) + AllRan(turns)
      ensures |enqueued| == |old(enqueued)| + |queuedAt| && enqueued[..|old(enqueued)|] == old(enqueued)
      ensures RebuiltAt(turns, queuedAt, enqueued[|old(enqueued)|..])
      ensures |executed| == |old(executed)| + |ranAt| && executed[..|old(executed)|] == old(executed)
      ensures CommandedAt(turns, ranAt, executed[|old(executed)|..])
    {
      ghost var queue0, enqueued0, executed0 := offlineQueue, enqueued, executed;
      for i := 0 to |turns|
        invariant Valid()
        invariant Looped(turns[..i], queue0, enqueued0, executed0, offlineQueue, enqueued, executed)
      {
        ghost var queue1, enqueued1, executed1 := offlineQueue, enqueued, executed;
        Cycle(turns[i]);
        LoopedSnoc(turns, i, queue0, enqueued0, executed0, queue1, enqueued1, executed1);
      }
      assert turns[..|turns|] == turns;
      queuedAt := QueuedAreRebuilt(turns);
      ranAt := RanAreCommanded(turns);
      assert enqueued[|enqueued0|..] == AllQueued(turns) && executed[|executed0|..] == AllRan(turns);
    }
  }

  // ---------------------------------------------------------------- what the turns call for

  /** The heartbeat's post failed and the payload could be built anew. */
  predicate Rebuilds<P>(turn: Turn<P>) { turn.outcome.Unreachable? && turn.rebuilt.Some? }

  /** The heartbeat was answered with a real command. */
  predicate Commands<P>(turn: Turn<P>) { turn.outcome.Answered? && turn.outcome.cmd.action.Some? }

  /** `payloads` are the rebuilt payloads of exactly the turns that have one, in turn order. */
  ghost predicate RebuiltAt<P>(turns: seq<Turn<P>>, at: seq<nat>, payloads: seq<P>) {
    && |at| == |payloads|
    && (forall i | 0 <= i < |at| :: at[i] < |turns| && Rebuilds(turns[at[i]]) && payloads[i] == turns[at[i]].rebuilt.value)
    && (forall i, j | 0 <= i < j < |at| :: at[i] < at[j])
    && (forall k | 0 <= k < |turns| && Rebuilds(turns[k]) :: k in at)
  }

  /** `cmds` are the commands of exactly the turns answered with one, in turn order. */
  ghost predicate CommandedAt<P>(turns: seq<Turn<P>>, at: seq<nat>, cmds: seq<Command>) {
    && |at| == |cmds|
    && (forall i | 0 <= i < |at| :: at[i] < |turns| && Commands(turns[at[i]]) && cmds[i] == turns[at[i]].outcome.cmd)
    && (forall i, j | 0 <= i < j < |at| :: at[i] < at[j])
    && (forall k | 0 <= k < |turns| && Commands(turns[k]) :: k in at)
  }

  lemma {:induction false} QueuedAreRebuilt<P>(turns: seq<Turn<P>>) returns (at: seq<nat>)
    ensures RebuiltAt(turns, at, AllQueued(turns))
  {
    if turns == [] {
      at := [];
    } else {
      var n := |turns| - 1;
      at := QueuedAreRebuilt(turns[..n]);
      RebuiltAtSnoc(turns, at, AllQueued(turns[..n]));
      if Rebuilds(turns[n]) {
        at := at + [n];
      }
    }
  }

  lemma RebuiltAtSnoc<P>(turns: seq<Turn<P>>, at: seq<nat>, payloads: seq<P>)
    requires turns != [] && RebuiltAt(turns[..|turns| - 1], at, payloads)
    ensures var n := |turns| - 1;
            if Rebuilds(turns[n]) then RebuiltAt(turns, at + [n], payloads + [turns[n].rebuilt.value]) else RebuiltAt(turns, at, payloads)
  {
    var n := |turns| - 1;
    assert forall k | 0 <= k < n :: turns[..n][k] == turns[k];
    assert Rebuilds(turns[n]) ==> (at + [n])[|at|] == n;
    assert forall k | k in at :: k in at + [n];
  }

  lemma {:induction false} RanAreCommanded<P>(turns: seq<Turn<P>>) returns (at: seq<nat>)
    ensures CommandedAt(turns, at, AllRan(turns))
  {
    if turns == [] {
      at := [];
    } else {
      var n := |turns| - 1;
      at := RanAreCommanded(turns[..n]);
      CommandedAtSnoc(turns, at, AllRan(turns[..n]));
      if Commands(turns[n]) {
        at := at + [n];
      }
    }
  }

  lemma CommandedAtSnoc<P>(turns: seq<Turn<P>>, at: seq<nat>, cmds: seq<Command>)
    requires turns != [] && CommandedAt(turns[..|turns| - 1], at, cmds)
    ensures var n := |turns| - 1;
            if Commands(turns[n]) then CommandedAt(turns, at + [n], cmds + [turns[n].outcome.cmd]) else CommandedAt(turns, at, cmds)
  {
    var n := |turns| - 1;
    assert forall k | 0 <= k < n :: turns[..n][k] == turns[k];
    assert Commands(turns[n]) ==> (at + [n])[|at|] == n;
    assert forall k | k in at :: k in at + [n];
  }

  function Queued<P>(turn: Turn<P>): (payloads: seq<P>)
    ensures |payloads| <= 1
  {
    if turn.outcome.Unreachable? && turn.rebuilt.Some? then [turn.rebuilt.value] else []
  }

  function AfterTurn<P>(queue: seq<P>, turn: Turn<P>): seq<P> { Pushed(Flushed(queue, turn.accepts), Queued(turn)) }

  /** A rebuilt payload is enqueued and waits last; otherwise nothing is enqueued and the queue only
      loses payloads from its front.  A real command is executed, and nothing else. */
  ghost predicate TurnIs<P>(turn: Turn<P>, queue: seq<P>, enqueued: seq<P>, executed: seq<Command>,
                            queue': seq<P>, enqueued': seq<P>, executed': seq<Command>)
  {
    && (Rebuilds(turn) ==>
          enqueued' == enqueued + [turn.rebuilt.value] && queue' != [] && queue'[|queue'| - 1] == turn.rebuilt.value)
    && (!Rebuilds(turn) ==>
          enqueued' == enqueued && |queue'| <= |queue| && queue' == queue[|queue| - |queue'|..])
    && executed' == if Commands(turn) then executed + [turn.outcome.cmd] else executed
  }

  lemma EveryTurnIs<P>(turn: Turn<P>, queue: seq<P>, enqueued: seq<P>, executed: seq<Command>)
    ensures TurnIs(turn, queue, enqueued, executed,
                   AfterTurn(queue, turn), enqueued + Queued(turn), executed + Ran(turn.outcome))
  {
  }

  function AfterTurns<P>(queue: seq<P>, turns: seq<Turn<P>>): seq<P> {
    if turns == [] then queue else AfterTurn(AfterTurns(queue, turns[..|turns| - 1]), turns[|turns| - 1])
  }

  /** What one turn takes off the queue: the accepted posts, then perhaps one overflow. */
  function Departed<P>(queue: seq<P>, turn: Turn<P>): seq<Departure<P>> {
    Acks(queue[..Accepted(|queue|, turn.accepts)]) + Overflow(Flushed(queue, turn.accepts), Queued(turn))
  }

  function Ran(outcome: Outcome): seq<Command> {
    if outcome.Answered? && outcome.cmd.action.Some? then [outcome.cmd] else []
  }

  function AllQueued<P>(turns: seq<Turn<P>>): seq<P> {
    if turns == [] then []
    else
      var n := |turns| - 1;
      AllQueued(turns[..n]) + Queued(turns[n])
  }

  function AllRan<P>(turns: seq<Turn<P>>): seq<Command> {
    if turns == [] then [] else AllRan(turns[..|turns| - 1]) + Ran(turns[|turns| - 1].outcome)
  }

  /** What some turns make of a queue, of what was ever enqueued and of what was executed. */
  ghost predicate Looped<P>(turns: seq<Turn<P>>, queue0: seq<P>, enqueued0: seq<P>, executed0: seq<Command>,
                            queue: seq<P>, enqueued: seq<P>, executed: seq<Command>)
  {
    && queue == AfterTurns(queue0, turns)
    && enqueued == enqueued0 + AllQueued(turns)
    && executed == executed0 + AllRan(turns)
  }

  lemma LoopedSnoc<P>(turns: seq<Turn<P>>, i: nat, queue0: seq<P>, enqueued0: seq<P>, executed0: seq<Command>,
                      queue: seq<P>, enqueued: seq<P>, executed: seq<Command>)
    requires i < |turns| && Looped(turns[..i], queue0, enqueued0, executed0, queue, enqueued, executed)
    ensures Looped(turns[..i + 1], queue0, enqueued0, executed0,
                   AfterTurn(queue, turns[i]), enqueued + Queued(turns[i]), executed + Ran(turns[i].outcome))
  {
    var front, more := turns[..i], turns[..i + 1];
    TurnsSnoc(queue0, front, turns[i]);
    assert more == front + [turns[i]];
    assert enqueued0 + AllQueued(front) + Queued(turns[i]) == enqueued0 + (AllQueued(front) + Queued(turns[i]));
    assert executed0 + AllRan(front) + Ran(turns[i].outcome) == executed0 + (AllRan(front) + Ran(turns[i].outcome));
  }

  lemma TurnsSnoc<P>(queue: seq<P>, turns: seq<Turn<P>>, turn: Turn<P>)
    ensures AfterTurns(queue, turns + [turn]) == AfterTurn(AfterTurns(queue, turns), turn)
    ensures AllQueued(turns + [turn]) == AllQueued(turns) + Queued(turn)
    ensures AllRan(turns + [turn]) == AllRan(turns) + Ran(turn.outcome)
  {
    assert (turns + [turn])[..|turns|] == turns;
  }

  function AckedOf<P>(departed: seq<Departure<P>>): seq<P> {
    if departed == [] then []
    else
      var last := departed[|departed| - 1];
      AckedOf(departed[..|departed| - 1]) + if last.fate == Acknowledged then [last.payload] else []
  }

  /** In any state the agent can reach, the queue is the newest part of what was ever enqueued,
      and the payloads acknowledged so far appear in the order they were enqueued. */
  lemma {:induction false} AckedInEnqueueOrder<P>(enqueued: seq<P>, departed: seq<Departure<P>>, queue: seq<P>)
    returns (at: seq<nat>)
    requires History(enqueued, departed, queue)
    ensures |queue| <= 100 && |queue| <= |enqueued| && enqueued[|enqueued| - |queue|..] == queue
    ensures |at| == |AckedOf(departed)|
    ensures forall i | 0 <= i < |at| :: at[i] < |departed| && enqueued[at[i]] == AckedOf(departed)[i]
                                        && departed[at[i]].fate == Acknowledged
    ensures forall i, j | 0 <= i < j < |at| :: at[i] < at[j]
    ensures forall k | 0 <= k < |departed| && k !in at :: k + 100 < |enqueued|
  {
    at := AckedPositions(departed);
    forall k | 0 <= k < |departed| && k !in at
      ensures k + OFFLINE_QUEUE_MAX < |enqueued|
    {
      assert departed[k].fate == Overflowed;
    }
  }

  ghost predicate AreAcks<P>(departed: seq<Departure<P>>, at: seq<nat>) {
    && |at| == |AckedOf(departed)|
    && (forall i | 0 <= i < |at| :: at[i] < |departed| && departed[at[i]] == Departure(AckedOf(departed)[i], Acknowledged))
    && (forall i, j | 0 <= i < j < |at| :: at[i] < at[j])
    && (forall k | 0 <= k < |departed| && departed[k].fate == Acknowledged :: k in at)
  }

  lemma {:induction false} AckedPositions<P>(departed: seq<Departure<P>>) returns (at: seq<nat>)
    ensures AreAcks(departed, at)
  {
    if departed == [] {
      at := [];
    } else {
      var n := |departed| - 1;
      at := AckedPositions(departed[..n]);
      AreAcksSnoc(departed, at);
      if departed[n].fate == Acknowledged {
        at := at + [n];
      }
    }
  }

  lemma AreAcksSnoc<P>(departed: seq<Departure<P>>, at: seq<nat>)
    requires departed != [] && AreAcks(departed[..|departed| - 1], at)
    ensures var n := |departed| - 1;
            if departed[n].fate == Acknowledged then AreAcks(departed, at + [n]) else AreAcks(departed, at)
  {
    var n := |departed| - 1;
    assert forall k | 0 <= k < n :: departed[..n][k] == departed[k];
    assert departed[n].fate == Acknowledged ==> (at + [n])[|at|] == n;
    assert forall k | k in at :: k in at + [n];
  }
}
