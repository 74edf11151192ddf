/** Which committed commands can still be executed: exactly when a command is past saving. */
module FleetFate {
  import opened Common
  import opened FleetStore
  import opened FleetProtocol

  /** Request `r` is a heartbeat whose device still waits for its reply. */
  predicate Live(sent: seq<Request>, waiting: map<DeviceId, nat>, r: nat) {
    r < |sent| && sent[r].purpose == Beat && exists d :: d in waiting && waiting[d] == r
  }

  predicate CarriedByLock(lock: Lock, r: nat, id: CommandId) {
    lock.Popped? && lock.req == r && lock.cmd.action.Some? && lock.cmd.id == id
  }

  predicate CarriedByReply(replies: map<nat, Command>, r: nat, id: CommandId) {
    r in replies && replies[r].action.Some? && replies[r].id == id
  }

  /** `id` is on its way as the answer to request `r`. */
  predicate Carries(s: System, r: nat, id: CommandId) {
    CarriedByLock(s.lock, r, id) || CarriedByReply(s.replies, r, id)
  }

  ghost predicate Executed(s: System, id: CommandId) { id in ExecutedIds(s.executed) }

  ghost predicate RunsIn(s: System, id: CommandId, steps: seq<Step>) { IsRun(s, steps) && Executed(Exec(s, steps), id) }

  /** Some continuation of the run executes `id`. */
  ghost predicate CanRun(s: System, id: CommandId) { exists steps :: RunsIn(s, id, steps) }

  // ---------------------------------------------------------------- past saving

  ghost predicate DeadLetter(s: System, r: nat, id: CommandId) { Carries(s, r, id) && !Live(s.sent, s.waiting, r) }

  ghost predicate Doomed(s: System, id: CommandId) {
    id in s.lost || id in s.discarded || exists r :: DeadLetter(s, r, id)
  }

  lemma CarrierKnown(s: System, r: nat, id: CommandId)
    requires WiresOk(s) && Carries(s, r, id)
    ensures r < |s.sent| && id in TransitIds(s.replies, s.lock)
  {
  }

  /** A request that nobody waits for any more is never waited for again. */
  lemma NeverLiveAgain(s: System, step: Step, r: nat)
    requires Enabled(s, step) && r < |s.sent| && !Live(s.sent, s.waiting, r)
    ensures !Live(Next(s, step).sent, Next(s, step).waiting, r)
  {
    var t := Next(s, step);
    forall d | d in t.waiting && t.waiting[d] == r
      ensures t.sent[r].purpose != Beat
    {
      assert d in s.waiting && s.waiting[d] == r;
    }
  }

  /** What was on its way as the answer to `r` stays so, is lost, or is read by the waiting device. */
  lemma StepMovesLetter(s: System, step: Step, r: nat, id: CommandId)
    requires WiresOk(s) && Enabled(s, step) && Carries(s, r, id)
    ensures Carries(Next(s, step), r, id) || id in Next(s, step).lost
            || (Live(s.sent, s.waiting, r) && step.Receive? && s.waiting[step.device] == r)
  {
  }

  lemma StepKeepsDoomed(s: System, step: Step, id: CommandId)
    requires WiresOk(s) && Enabled(s, step) && Doomed(s, id)
    ensures Doomed(Next(s, step), id)
  {
    var t := Next(s, step);
    if id !in s.lost && id !in s.discarded {
      var r :| DeadLetter(s, r, id);
      CarrierKnown(s, r, id);
      NeverLiveAgain(s, step, r);
      StepMovesLetter(s, step, r, id);
      assert id in t.lost || DeadLetter(t, r, id);
    }
  }

  lemma DoomedIsNotExecuted(s: System, id: CommandId)
    requires Inv(s) && Doomed(s, id)
    ensures !Executed(s, id)
  {
    assert Tally(PlacesOf(s), id) <= 1;
    if id !in s.lost && id !in s.discarded {
      var r :| DeadLetter(s, r, id);
      CarrierKnown(s, r, id);
    }
  }

  lemma {:induction false} DoomedNeverRuns(s: System, id: CommandId, steps: seq<Step>)
    requires Inv(s) && Doomed(s, id) && IsRun(s, steps)
    ensures !Executed(Exec(s, steps), id)
    decreases |steps|
  {
    if steps == [] {
      DoomedIsNotExecuted(s, id);
    } else {
      StepKeepsInv(s, steps[0]);
      StepKeepsDoomed(s, steps[0], id);
      DoomedNeverRuns(Next(s, steps[0]), id, steps[1..]);
    }
  }

  // ---------------------------------------------------------------- not past saving

  lemma StepThenCanRun(s: System, step: Step, id: CommandId)
    requires Enabled(s, step) && CanRun(Next(s, step), id)
    ensures CanRun(s, id)
  {
    var steps :| RunsIn(Next(s, step), id, steps);
    Prepend(s, step, steps);
    assert RunsIn(s, id, [step] + steps);
  }

  lemma ExecutedCanRun(s: System, id: CommandId)
    requires Executed(s, id)
    ensures CanRun(s, id)
  {
    assert RunsIn(s, id, []);
  }

  lemma ReadRuns(s: System, d: DeviceId, id: CommandId)
    requires Enabled(s, Receive(d, true)) && s.sent[s.waiting[d]].purpose == Beat && CarriedByReply(s.replies, s.waiting[d], id)
    ensures Executed(Next(s, Receive(d, true)), id)
  {
    assert (d, id) in Next(s, Receive(d, true)).executed;
  }

  lemma LiveLetterCanRun(s: System, r: nat, id: CommandId)
    requires Carries(s, r, id) && Live(s.sent, s.waiting, r)
    ensures CanRun(s, id)
  {
    var d :| d in s.waiting && s.waiting[d] == r;
    if CarriedByLock(s.lock, r, id) {
      var t := Next(s, Reply);
      ReadRuns(t, d, id);
      ExecutedCanRun(Next(t, Receive(d, true)), id);
      StepThenCanRun(t, Receive(d, true), id);
      StepThenCanRun(s, Reply, id);
    } else {
      ReadRuns(s, d, id);
      ExecutedCanRun(Next(s, Receive(d, true)), id);
      StepThenCanRun(s, Receive(d, true), id);
    }
  }

  ghost predicate RunTo(start: System, past: seq<Step>, s: System) {
    Initial(start) && IsRun(start, past) && Exec(start, past) == s
  }

  ghost predicate Reachable(s: System) { exists start, past :: RunTo(start, past, s) }

  lemma ReachableOk(s: System)
    requires Reachable(s)
    ensures Inv(s)
  {
    var start, past :| RunTo(start, past, s);
    InitialOk(start);
    RunKeepsInv(start, past);
  }

  lemma {:induction false} OneStepMore(s: System, past: seq<Step>, step: Step)
    requires IsRun(s, past) && Enabled(Exec(s, past), step)
    ensures IsRun(s, past + [step]) && Exec(s, past + [step]) == Next(Exec(s, past), step)
    decreases |past|
  {
    if past == [] {
      assert past + [step] == [step] && [step][1..] == [];
    } else {
      OneStepMore(Next(s, past[0]), past[1..], step);
      assert (past + [step])[1..] == past[1..] + [step];
    }
  }

  lemma StepStaysReachable(s: System, step: Step)
    requires Reachable(s) && Enabled(s, step)
    ensures Reachable(Next(s, step))
  {
    var start, past :| RunTo(start, past, s);
    OneStepMore(start, past, step);
    assert RunTo(start, past + [step], Next(s, step));
  }

  /** The server is at rest, the device idle, and commands wait for it. */
  ghost predicate Ready(s: System, d: DeviceId) {
    Reachable(s) && s.lock.Free? && d !in s.waiting && d in s.server.cache && s.server.cache[d].pending != []
  }

  /** A heartbeat that nothing goes wrong with, after its hand-out. */
  ghost predicate HandedOut(s: System, t: System, d: DeviceId)
    requires d in s.server.cache && s.server.cache[d].pending != []
  {
    && t.lock == Popped(|s.sent|, s.server.cache[d].pending[0])
    && |t.sent| == |s.sent| + 1 && t.sent[|s.sent|].purpose == Beat
    && d in t.waiting && t.waiting[d] == |s.sent|
    && d in t.server.cache && t.server.cache[d].pending == s.server.cache[d].pending[1..]
  }

  lemma HandOut(s: System, hb: Heartbeat, id: CommandId) returns (t: System)
    requires Ready(s, hb.device)
    ensures Reachable(t) && HandedOut(s, t, hb.device)
    ensures CanRun(t, id) ==> CanRun(s, id)
  {
    ReachableOk(s);
    var s1 := Next(s, Send(Beat, hb));
    StepStaysReachable(s, Send(Beat, hb));
    var s2 := Next(s1, Upsert(|s.sent|, ""));
    StepStaysReachable(s1, Upsert(|s.sent|, ""));
    t := Next(s2, Pop);
    StepStaysReachable(s2, Pop);
    if CanRun(t, id) {
      StepThenCanRun(s2, Pop, id);
      StepThenCanRun(s1, Upsert(|s.sent|, ""), id);
      StepThenCanRun(s, Send(Beat, hb), id);
    }
  }

  lemma HandedOutCanRun(s: System, t: System, d: DeviceId)
    requires d in s.server.cache && s.server.cache[d].pending != [] && HandedOut(s, t, d)
    requires s.server.cache[d].pending[0].action.Some?
    ensures CanRun(t, s.server.cache[d].pending[0].id)
  {
    assert Live(t.sent, t.waiting, |s.sent|);
    LiveLetterCanRun(t, |s.sent|, s.server.cache[d].pending[0].id);
  }

  /** Finishing that heartbeat leaves the rest of the queue for the next one. */
  lemma Finish(s: System, d: DeviceId, id: CommandId) returns (t: System)
    requires Reachable(s) && s.lock.Popped? && s.lock.req < |s.sent| && d in s.waiting && s.waiting[d] == s.lock.req
    requires d in s.server.cache && s.server.cache[d].pending != []
    ensures Ready(t, d) && t.server == s.server
    ensures CanRun(t, id) ==> CanRun(s, id)
  {
    var s1 := Next(s, Reply);
    StepStaysReachable(s, Reply);
    t := Next(s1, Receive(d, true));
    StepStaysReachable(s1, Receive(d, true));
    if CanRun(t, id) {
      StepThenCanRun(s1, Receive(d, true), id);
      StepThenCanRun(s, Reply, id);
    }
  }

  lemma FrontCanRun(s: System, d: DeviceId)
    requires Ready(s, d) && s.server.cache[d].pending[0].action.Some?
    ensures CanRun(s, s.server.cache[d].pending[0].id)
  {
    var t := HandOut(s, Heartbeat(d, "", "", "", NO_TELEMETRY), s.server.cache[d].pending[0].id);
    HandedOutCanRun(s, t, d);
  }

  lemma QueueMovesUp(s: System, d: DeviceId, id: CommandId) returns (u: System)
    requires Ready(s, d) && |s.server.cache[d].pending| > 1
    ensures Ready(u, d) && u.server.cache[d].pending == s.server.cache[d].pending[1..]
    ensures CanRun(u, id) ==> CanRun(s, id)
  {
    var t := HandOut(s, Heartbeat(d, "", "", "", NO_TELEMETRY), id);
    u := Finish(t, d, id);
  }

  ghost predicate QueuedAt(s: System, d: DeviceId, i: nat, id: CommandId) {
    Ready(s, d) && var queue := s.server.cache[d].pending; i < |queue| && queue[i].action.Some? && queue[i].id == id
  }

  lemma FirstCanRun(s: System, d: DeviceId, id: CommandId)
    requires QueuedAt(s, d, 0, id)
    ensures CanRun(s, id)
  {
    FrontCanRun(s, d);
  }

  lemma OneFewerAhead(s: System, d: DeviceId, i: nat, id: CommandId) returns (u: System)
    requires QueuedAt(s, d, i, id) && i > 0
    ensures QueuedAt(u, d, i - 1, id) && (CanRun(u, id) ==> CanRun(s, id))
  {
    u := QueueMovesUp(s, d, id);
  }

  /** One heartbeat after another hands out the queue down to any command in it. */
  lemma {:induction false} QueuedCanRun(s: System, d: DeviceId, i: nat, id: CommandId)
    requires QueuedAt(s, d, i, id)
    ensures CanRun(s, id)
    decreases i
  {
    if i == 0 {
      FirstCanRun(s, d, id);
    } else {
      var u := OneFewerAhead(s, d, i, id);
      QueuedCanRun(u, d, i - 1, id);
    }
  }

  /** From any state: a restart frees the lock, and a device can give up waiting. */
  lemma CanBeReady(s: System, d: DeviceId, id: CommandId) returns (t: System)
    requires Reachable(s) && d in s.server.cache && s.server.cache[d].pending != []
    ensures Ready(t, d) && t.server == s.server
    ensures CanRun(t, id) ==> CanRun(s, id)
  {
    var u := Next(s, Step.Crash);
    ReachableOk(s);
    StepStaysReachable(s, Step.Crash);
    MatchesIffReloadIsIdentity(s.server);
    if d in u.waiting {
      t := Next(u, GiveUp(d));
      StepStaysReachable(u, GiveUp(d));
    } else {
      t := u;
    }
    if CanRun(t, id) {
      if d in u.waiting {
        StepThenCanRun(u, GiveUp(d), id);
      }
      StepThenCanRun(s, Step.Crash, id);
    }
  }

  lemma PendingIsQueued(s: Server, id: CommandId) returns (d: DeviceId, i: nat)
    requires Good(s) && id in PendingIds(s.store.rows)
    ensures d in s.cache && i < |s.cache[d].pending| && s.cache[d].pending[i].id == id && s.cache[d].pending[i].action.Some?
  {
    var rows := s.store.rows;
    var k :| 0 <= k < |rows| && rows[k].status == PENDING && rows[k].id == id;
    d := rows[k].device;
    PendingMembers(rows, d);
    assert ToCommand(rows[k]) in s.cache[d].pending;
    i :| 0 <= i < |s.cache[d].pending| && s.cache[d].pending[i] == ToCommand(rows[k]);
  }

  /** A command that is still pending can always still be executed. */
  lemma PendingCanRun(s: System, id: CommandId)
    requires Reachable(s) && id in PendingIds(s.server.store.rows)
    ensures CanRun(s, id)
  {
    ReachableOk(s);
    var d, i := PendingIsQueued(s.server, id);
    var t := CanBeReady(s, d, id);
    QueuedCanRun(t, d, i, id);
  }

  // ---------------------------------------------------------------- the exact condition

  ghost predicate LiveLetter(s: System, r: nat, id: CommandId) { Carries(s, r, id) && Live(s.sent, s.waiting, r) }

  /** Main result: in every reachable state a committed command that has not been executed yet can
      still be executed if and only if it is still pending, or on its way to a heartbeat whose
      device still waits for it. */
  lemma CanRunIff(s: System, id: CommandId)
    requires Reachable(s) && id in s.committed
    ensures CanRun(s, id) <==> Executed(s, id) || id in PendingIds(s.server.store.rows) || exists r :: LiveLetter(s, r, id)
  {
    ReachableOk(s);
    if Executed(s, id) {
      ExecutedCanRun(s, id);
    } else if id in PendingIds(s.server.store.rows) {
      PendingCanRun(s, id);
    } else if r :| LiveLetter(s, r, id) {
      LiveLetterCanRun(s, r, id);
    } else {
      ElsewhereIsDoomed(s, id);
      forall steps ensures !RunsIn(s, id, steps) {
        if IsRun(s, steps) { DoomedNeverRuns(s, id, steps); }
      }
    }
  }

  lemma ElsewhereIsDoomed(s: System, id: CommandId)
    requires Inv(s) && id in s.committed && !Executed(s, id) && id !in PendingIds(s.server.store.rows)
    requires forall r :: !LiveLetter(s, r, id)
    ensures Doomed(s, id)
  {
    assert Tally(PlacesOf(s), id) == 1;
    if id in TransitIds(s.replies, s.lock) {
      var r := CarrierOf(s, id);
      assert !LiveLetter(s, r, id);
      assert DeadLetter(s, r, id);
    }
  }

  lemma CarrierOf(s: System, id: CommandId) returns (r: nat)
    requires id in TransitIds(s.replies, s.lock)
    ensures Carries(s, r, id)
  {
    if id in RepliedIds(s.replies) {
      r :| r in s.replies && s.replies[r].action.Some? && s.replies[r].id == id;
    } else {
      r := s.lock.req;
    }
  }

  /** So the hand-out decides: the command at the front of the queue can still be executed
      afterwards if and only if the request came from a heartbeat, not a flush, and its device has
      not given up on it. */
  lemma HandOutDecides(s: System)
    requires Inv(s) && Enabled(s, Pop) && s.server.cache[s.sent[s.lock.req].hb.device].pending != []
    ensures var cmd := s.server.cache[s.sent[s.lock.req].hb.device].pending[0];
            CanRun(Next(s, Pop), cmd.id) <==> Live(s.sent, s.waiting, s.lock.req)
  {
    var t := Next(s, Pop);
    var cmd := s.server.cache[s.sent[s.lock.req].hb.device].pending[0];
    StepKeepsInv(s, Pop);
    var k := PoppedRow(s.server, s.sent[s.lock.req].hb.device);
    assert CarriedByLock(t.lock, t.lock.req, cmd.id);
    LetterDecides(t, t.lock.req, cmd.id);
  }

  lemma LetterDecides(s: System, r: nat, id: CommandId)
    requires Inv(s) && Carries(s, r, id)
    ensures CanRun(s, id) <==> Live(s.sent, s.waiting, r)
  {
    if Live(s.sent, s.waiting, r) {
      LiveLetterCanRun(s, r, id);
    } else {
      assert DeadLetter(s, r, id);
      forall steps ensures !RunsIn(s, id, steps) {
        if IsRun(s, steps) { DoomedNeverRuns(s, id, steps); }
      }
    }
  }
}
