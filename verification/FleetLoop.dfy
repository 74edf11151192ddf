/** The agent's loop as steps of the protocol: each turn is a row of sends, each followed by its
    reply or by giving up, and every one of them is enabled when the loop comes to it. */
module FleetLoop {
  import opened Common
  import opened FleetStore
  import opened FleetProtocol
  import opened FleetAgent

  // ---------------------------------------------------------------- a turn as steps

  /** The posts of a flush of which `accepted` succeed, from the `i`-th on; a failed one is the last. */
  function FlushSteps(d: DeviceId, queue: seq<Heartbeat>, accepted: nat, i: nat): seq<Step>
    requires i <= accepted <= |queue|
    decreases accepted - i
  {
    if i < accepted then [Send(Flush, queue[i]), Receive(d, true)] + FlushSteps(d, queue, accepted, i + 1)
    else if i < |queue| then [Send(Flush, queue[i]), GiveUp(d)]
    else []
  }

  function BeatSteps(d: DeviceId, hb: Heartbeat, outcome: Outcome): seq<Step> {
    match outcome
    case Unbuilt => []
    case Unreachable => [Send(Beat, hb), GiveUp(d)]
    case Unreadable => [Send(Beat, hb), Receive(d, false)]
    case Answered(_) => [Send(Beat, hb), Receive(d, true)]
  }

  function TurnSteps(d: DeviceId, queue: seq<Heartbeat>, turn: Turn<Heartbeat>): seq<Step> {
    FlushSteps(d, queue, Accepted(|queue|, turn.accepts), 0) + BeatSteps(d, turn.beat, turn.outcome)
  }

  function LoopSteps(d: DeviceId, queue: seq<Heartbeat>, turns: seq<Turn<Heartbeat>>): seq<Step> {
    if turns == [] then []
    else
      var front := turns[..|turns| - 1];
      LoopSteps(d, queue, front) + TurnSteps(d, AfterTurns(queue, front), turns[|turns| - 1])
  }

  /** The `p`-th pair of steps is an accepted post of `hb`. */
  predicate PostsAt(steps: seq<Step>, p: nat, hb: Heartbeat, d: DeviceId) {
    2 * p + 1 < |steps| && steps[2 * p] == Send(Flush, hb) && steps[2 * p + 1] == Receive(d, true)
  }

  lemma {:induction false} FlushPosts(d: DeviceId, queue: seq<Heartbeat>, accepted: nat, i: nat, k: nat)
    requires i <= k < accepted <= |queue|
    ensures PostsAt(FlushSteps(d, queue, accepted, i), k - i, queue[k], d)
    decreases accepted - i
  {
    if k > i {
      FlushPosts(d, queue, accepted, i + 1, k);
      PostsLater([Send(Flush, queue[i]), Receive(d, true)], FlushSteps(d, queue, accepted, i + 1), k - i - 1, queue[k], d);
    }
  }

  lemma {:induction false} FlushEnds(d: DeviceId, queue: seq<Heartbeat>, accepted: nat, i: nat)
    requires i <= accepted <= |queue|
    ensures var steps := FlushSteps(d, queue, accepted, i);
            && |steps| == 2 * (accepted - i) + (if accepted < |queue| then 2 else 0)
            && (accepted < |queue| ==> steps[|steps| - 2..] == [Send(Flush, queue[accepted]), GiveUp(d)])
    decreases accepted - i
  {
    if i < accepted {
      FlushEnds(d, queue, accepted, i + 1);
    }
  }

  lemma PostsLater(pair: seq<Step>, rest: seq<Step>, p: nat, hb: Heartbeat, d: DeviceId)
    requires |pair| == 2 && PostsAt(rest, p, hb, d)
    ensures PostsAt(pair + rest, p + 1, hb, d)
  {
  }

  /** A turn posts the queue from its front, one payload after another until a post fails or none is
      left, and then its heartbeat, unless that could not be built. */
  lemma TurnStepsAre(d: DeviceId, queue: seq<Heartbeat>, turn: Turn<Heartbeat>, accepted: nat)
    requires accepted <= |queue| && (forall i | 0 <= i < accepted :: turn.accepts(i))
    requires accepted < |queue| ==> !turn.accepts(accepted)
    ensures TurnSteps(d, queue, turn) == FlushSteps(d, queue, accepted, 0) + BeatSteps(d, turn.beat, turn.outcome)
    ensures var flush := FlushSteps(d, queue, accepted, 0);
            && |flush| == 2 * accepted + (if accepted < |queue| then 2 else 0)
            && (forall k | 0 <= k < accepted :: PostsAt(flush, k, queue[k], d))
            && (accepted < |queue| ==> flush[|flush| - 2..] == [Send(Flush, queue[accepted]), GiveUp(d)])
    ensures turn.outcome.Unbuilt? <==> BeatSteps(d, turn.beat, turn.outcome) == []
    ensures !turn.outcome.Unbuilt? ==>
              BeatSteps(d, turn.beat, turn.outcome)
              == [Send(Beat, turn.beat), if turn.outcome.Unreachable? then GiveUp(d) else Receive(d, turn.outcome.Answered?)]
  {
    var k := Accepted(|queue|, turn.accepts);
    assert !(k < accepted) && !(accepted < k);
    FlushEnds(d, queue, accepted, 0);
    forall j | 0 <= j < accepted ensures PostsAt(FlushSteps(d, queue, accepted, 0), j, queue[j], d) {
      FlushPosts(d, queue, accepted, 0, j);
    }
  }

  /** The turns come one after another, each on the queue that the ones before it left. */
  lemma {:induction false} LoopStepsAdd(d: DeviceId, queue: seq<Heartbeat>, turns: seq<Turn<Heartbeat>>, turn: Turn<Heartbeat>)
    ensures LoopSteps(d, queue, turns + [turn]) == LoopSteps(d, queue, turns) + TurnSteps(d, AfterTurns(queue, turns), turn)
  {
    assert (turns + [turn])[..|turns|] == turns;
  }

  // ---------------------------------------------------------------- they alternate

  predicate IsSendOf(step: Step, d: DeviceId) { step.Send? && step.hb.device == d }

  predicate IsEndOf(step: Step, d: DeviceId) { (step.Receive? || step.GiveUp?) && step.device == d }

  ghost predicate Alternates(d: DeviceId, steps: seq<Step>) {
    |steps| % 2 == 0
    && forall i | 0 <= i < |steps| :: if i % 2 == 0 then IsSendOf(steps[i], d) else IsEndOf(steps[i], d)
  }

  ghost predicate AllOf(d: DeviceId, queue: seq<Heartbeat>) { forall i | 0 <= i < |queue| :: queue[i].device == d }

  ghost predicate TurnOf(d: DeviceId, turn: Turn<Heartbeat>) {
    turn.beat.device == d && (turn.rebuilt.Some? ==> turn.rebuilt.value.device == d)
  }

  lemma AlternatesConcat(d: DeviceId, a: seq<Step>, b: seq<Step>)
    requires Alternates(d, a) && Alternates(d, b)
    ensures Alternates(d, a + b)
  {
    forall i | 0 <= i < |a + b|
      ensures if i % 2 == 0 then IsSendOf((a + b)[i], d) else IsEndOf((a + b)[i], d)
    {
      if i >= |a| {
        assert (a + b)[i] == b[i - |a|] && (i - |a|) % 2 == i % 2;
      }
    }
  }

  lemma {:induction false} FlushAlternates(d: DeviceId, queue: seq<Heartbeat>, accepted: nat, i: nat)
    requires i <= accepted <= |queue| && AllOf(d, queue)
    ensures Alternates(d, FlushSteps(d, queue, accepted, i))
    decreases accepted - i
  {
    if i < accepted {
      FlushAlternates(d, queue, accepted, i + 1);
      AlternatesConcat(d, [Send(Flush, queue[i]), Receive(d, true)], FlushSteps(d, queue, accepted, i + 1));
    }
  }

  lemma TurnAlternates(d: DeviceId, queue: seq<Heartbeat>, turn: Turn<Heartbeat>)
    requires AllOf(d, queue) && TurnOf(d, turn)
    ensures Alternates(d, TurnSteps(d, queue, turn))
  {
    var accepted := Accepted(|queue|, turn.accepts);
    FlushAlternates(d, queue, accepted, 0);
    AlternatesConcat(d, FlushSteps(d, queue, accepted, 0), BeatSteps(d, turn.beat, turn.outcome));
  }

  lemma TurnKeepsDevice(d: DeviceId, queue: seq<Heartbeat>, turn: Turn<Heartbeat>)
    requires AllOf(d, queue) && TurnOf(d, turn)
    ensures AllOf(d, AfterTurn(queue, turn))
  {
  }

  lemma {:induction false} LoopAlternates(d: DeviceId, queue: seq<Heartbeat>, turns: seq<Turn<Heartbeat>>)
    requires AllOf(d, queue) && forall i | 0 <= i < |turns| :: TurnOf(d, turns[i])
    ensures Alternates(d, LoopSteps(d, queue, turns)) && AllOf(d, AfterTurns(queue, turns))
  {
    if turns != [] {
      var n := |turns| - 1;
      var before := AfterTurns(queue, turns[..n]);
      LoopAlternates(d, queue, turns[..n]);
      TurnAlternates(d, before, turns[n]);
      TurnKeepsDevice(d, before, turns[n]);
      AlternatesConcat(d, LoopSteps(d, queue, turns[..n]), TurnSteps(d, before, turns[n]));
    }
  }

  /** A send comes first and after every end, an end after every send. */
  predicate Follows(d: DeviceId, own: seq<Step>, next: Step) {
    if own == [] || IsEndOf(own[|own| - 1], d) then IsSendOf(next, d)
    else IsSendOf(own[|own| - 1], d) && IsEndOf(next, d)
  }

  lemma AlternatingFollows(d: DeviceId, steps: seq<Step>, n: nat)
    requires Alternates(d, steps) && n < |steps|
    ensures Follows(d, steps[..n], steps[n])
  {
    assert if n % 2 == 0 then IsSendOf(steps[n], d) else IsEndOf(steps[n], d);
    if n > 0 {
      assert if (n - 1) % 2 == 0 then IsSendOf(steps[n - 1], d) else IsEndOf(steps[n - 1], d);
    }
  }

  // ---------------------------------------------------------------- they are enabled

  /** What a run shows of one device: its sends, and how each ended. */
  function StepsOf(d: DeviceId, steps: seq<Step>): seq<Step> {
    if steps == [] then []
    else (if IsSendOf(steps[0], d) || IsEndOf(steps[0], d) then [steps[0]] else []) + StepsOf(d, steps[1..])
  }

  /** A device waits exactly while the last it did was to send. */
  lemma {:induction false} WaitsAfterSend(s: System, d: DeviceId, steps: seq<Step>)
    requires IsRun(s, steps)
    ensures var own := StepsOf(d, steps);
            d in Exec(s, steps).waiting <==> if own == [] then d in s.waiting else IsSendOf(own[|own| - 1], d)
    decreases |steps|
  {
    if steps != [] {
      WaitsAfterSend(Next(s, steps[0]), d, steps[1..]);
      OneStepWaits(s, d, steps[0]);
    }
  }

  lemma OneStepWaits(s: System, d: DeviceId, step: Step)
    requires Enabled(s, step)
    ensures d in Next(s, step).waiting <==> IsSendOf(step, d) || (!IsEndOf(step, d) && d in s.waiting)
  {
  }

  /** `step` is allowed, or it reads a reply that has not arrived yet. */
  predicate AllowedOrEarly(s: System, step: Step) {
    Enabled(s, step) || (step.Receive? && step.device in s.waiting && s.waiting[step.device] !in s.replies)
  }

  lemma FollowingIsAllowed(s: System, d: DeviceId, own: seq<Step>, next: Step)
    requires Follows(d, own, next)
    requires d in s.waiting <==> own != [] && IsSendOf(own[|own| - 1], d)
    requires d in s.waiting ==> s.waiting[d] < |s.sent|
    ensures AllowedOrEarly(s, next)
  {
  }

  /** Main result: take any turns of a device's loop, and any run, whatever the server, the network
      and other devices do in it, that shows the first `n` steps of those turns.  The loop's next
      step is then one the protocol allows, a reply being read once it has arrived.  So the loop
      never leaves the protocol: every run of it is among the runs proved about. */
  lemma LoopStaysInProtocol(start: System, steps: seq<Step>, d: DeviceId, turns: seq<Turn<Heartbeat>>, n: nat)
    requires Initial(start) && IsRun(start, steps)
    requires forall i | 0 <= i < |turns| :: TurnOf(d, turns[i])
    requires n < |LoopSteps(d, [], turns)| && StepsOf(d, steps) == LoopSteps(d, [], turns)[..n]
    ensures AllowedOrEarly(Exec(start, steps), LoopSteps(d, [], turns)[n])
  {
    LoopAlternates(d, [], turns);
    AlternatingFollows(d, LoopSteps(d, [], turns), n);
    WaitsAfterSend(start, d, steps);
    WaitingWasSent(start, steps, d);
    FollowingIsAllowed(Exec(start, steps), d, StepsOf(d, steps), LoopSteps(d, [], turns)[n]);
  }

  lemma WaitingWasSent(start: System, steps: seq<Step>, d: DeviceId)
    requires Initial(start) && IsRun(start, steps)
    ensures d in Exec(start, steps).waiting ==> Exec(start, steps).waiting[d] < |Exec(start, steps).sent|
  {
    InitialOk(start);
    RunKeepsInv(start, steps);
  }

  /** The outcome that reading a reply gives a heartbeat: the protocol counts as executed exactly
      what the loop then executes. */
  lemma ReadingExecutesAlike(s: System, d: DeviceId, readable: bool)
    requires Enabled(s, Receive(d, readable))
    ensures var request := s.sent[s.waiting[d]];
            var ran := if request.purpose == Flush then []
                       else Ran(if readable then Answered(s.replies[s.waiting[d]]) else Unreadable);
            Next(s, Receive(d, readable)).executed == s.executed + seq(|ran|, i requires 0 <= i < |ran| => (d, ran[i].id))
  {
  }
}
