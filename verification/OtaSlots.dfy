/** The A/B slot state machine: the state record, the slot contents, and runs of both. */
module OtaSlots {
  import opened Common
  import opened ImageReadback

  type Slot = string

  datatype OtaState = OtaState(current: Slot, standby: Slot, bootcount: int, confirmed: bool)

  const FACTORY := OtaState("a", "b", 0, true)

  // ---------------------------------------------------------------- the state record

  /** A missing or unreadable file loads as the factory state. */
  function Loaded(file: Option<OtaState>): OtaState { if file.Some? then file.value else FACTORY }

  function Booted(s: OtaState): OtaState { s.(bootcount := s.bootcount + 1, confirmed := false) }

  function Confirmed(s: OtaState): OtaState { s.(bootcount := 0, confirmed := true) }

  /** Both switching after an update and rolling back. */
  function Swapped(s: OtaState): OtaState { OtaState(s.standby, s.current, 0, false) }

  predicate ShouldRollback(s: OtaState, limit: int) { !s.confirmed && s.bootcount >= limit }

  class StateManager {
    var file: Option<OtaState>

    ghost function View(): OtaState reads this { Loaded(file) }

    constructor (file: Option<OtaState>)
      ensures this.file == file
    {
      this.file := file;
    }

    method Load() returns (s: OtaState)
      ensures s == View() && s == if file.Some? then file.value else OtaState("a", "b", 0, true)
    {
      if file.None? {
        return FACTORY;
      }
      return file.value;
    }

    method IncrementBootcount()
      modifies this
      ensures View() == Booted(old(View()))
      ensures View() == OtaState(old(View()).current, old(View()).standby, old(View()).bootcount + 1, false)
    {
      var s := Load();
      s := s.(bootcount := s.bootcount + 1);
      s := s.(confirmed := false);
      file := Some(s);
    }

    method Confirm()
      modifies this
      ensures View() == Confirmed(old(View()))
      ensures View() == OtaState(old(View()).current, old(View()).standby, 0, true)
    {
      var s := Load();
      s := s.(bootcount := 0);
      s := s.(confirmed := true);
      file := Some(s);
    }

    method SwitchSlots()
      modifies this
      ensures View() == Swapped(old(View()))
      ensures View() == OtaState(old(View()).standby, old(View()).current, 0, false)
    {
      var s := Load();
      s := s.(current := s.standby, standby := s.current);
      s := s.(confirmed := false, bootcount := 0);
      file := Some(s);
    }
  }

  // ---------------------------------------------------------------- the engine

  datatype Device = Device(state: OtaState, slots: map<Slot, Bytes>)

  /** What a write attempt does to the target slot: nothing when it is refused beforehand (bad
      slot, no image, bad signature); otherwise the slot ends up with some content or none. */
  datatype Attempt = Refused | Wrote(success: bool, content: Option<Bytes>)

  function SetSlot(slots: map<Slot, Bytes>, target: Slot, content: Option<Bytes>): map<Slot, Bytes> {
    if content.Some? then slots[target := content.value] else slots - {target}
  }

  /** `apply_update`: any target slot and any state are accepted; success swaps the pointers. */
  function Applied(d: Device, target: Slot, attempt: Attempt): Device {
    if !IsSlot(target) || attempt.Refused? then d
    else
      var slots := SetSlot(d.slots, target, attempt.content);
      Device(if attempt.success then Swapped(d.state) else d.state, slots)
  }

  /** How an update ends: the signature gate raises, everything else is a yes or no. */
  datatype Verdict = Updated | Failed | Unsigned

  /** What is read back of the slot: all of a slot file, of a device as much as the image is long. */
  function ReadBack(image: Bytes, fileBacked: bool, written: Bytes): Bytes {
    if fileBacked then written else written[..Min(|image|, |written|)]
  }

  class Engine {
    const manager: StateManager
    const digest: Digest
    var slots: map<Slot, Bytes>

    ghost function View(): Device reads this, manager { Device(manager.View(), slots) }

    constructor (manager: StateManager, digest: Digest, slots: map<Slot, Bytes>)
      ensures this.manager == manager && this.digest == digest && this.slots == slots
    {
      this.manager, this.digest, this.slots := manager, digest, slots;
    }

    /** `signed` is what the signature gate says; `copied` and `written` are what the copy, or `dd`
        where the slot is a block device, does; `unlinked` whether a slot file that fails the
        read-back can be removed. */
    method ApplyUpdate(image: Option<Bytes>, target: Slot, signed: bool, fileBacked: bool, copied: bool,
                       written: Option<Bytes>, unlinked: bool, chunkSize: nat, short: nat -> nat)
      returns (verdict: Verdict, ghost attempt: Attempt)
      requires chunkSize > 0
      modifies this`slots, manager
      ensures verdict == Unsigned <==> (target == "a" || target == "b") && image.Some? && !signed
      ensures verdict == Updated <==>
                && (target == "a" || target == "b") && image.Some? && signed && copied && written.Some?
                && digest(ReadBack(image.value, fileBacked, written.value)) == digest(image.value)
      ensures manager.View() == if verdict == Updated
                                then OtaState(old(manager.View()).standby, old(manager.View()).current, 0, false)
                                else old(manager.View())
      ensures (target != "a" && target != "b") || image.None? || !signed ==> slots == old(slots)
      ensures (target == "a" || target == "b") && image.Some? && signed ==>
                && slots - {target} == old(slots) - {target}
                && Held(View(), target) == if verdict == Updated || !copied || !fileBacked || !unlinked then written else None
      ensures verdict == Updated && CollisionFree(digest) ==>
                && target in slots && |image.value| <= |slots[target]|
                && slots[target][..|image.value|] == image.value
                && (fileBacked ==> slots[target] == image.value)
      ensures View() == Applied(old(View()), target, attempt) && Possible(attempt)
    {
      attempt := Refused;
      if !IsSlot(target) || image.None? {
        return Failed, attempt;
      }
      if !signed {
        return Unsigned, attempt;
      }
      var before := if target in slots then Some(slots[target]) else None;
      var success, content := false, written;
      if fileBacked {
        success, content := WriteFileBacked(digest, image, copied, written, unlinked, before, chunkSize, short);
      } else {
        success := WriteDd(digest, image, copied, written, chunkSize, short);
      }
      attempt := Wrote(success, content);
      slots := SetSlot(slots, target, content);
      if !success {
        return Failed, attempt;
      }
      manager.SwitchSlots();
      verdict := Updated;
    }

    method ConfirmBoot()
      modifies manager
      ensures View() == old(View()).(state := Confirmed(old(View()).state))
      ensures View().state.confirmed && View().state.bootcount == 0 && slots == old(slots)
    {
      manager.Confirm();
    }

    /** Asked by the init system at each boot. */
    method ShouldRollbackNow(limit: int) returns (due: bool)
      ensures due == ShouldRollback(View().state, limit)
      ensures due <==> !View().state.confirmed && View().state.bootcount >= limit
    {
      var s := manager.Load();
      if s.confirmed {
        return false;
      }
      return s.bootcount >= limit;
    }

    method RollbackUpdate() returns (ok: bool)
      modifies manager
      ensures View() == old(View()).(state := Swapped(old(View()).state)) && ok
      ensures View().state == OtaState(old(View().state).standby, old(View().state).current, 0, false) && slots == old(slots)
    {
      var s := manager.Load();
      s := s.(current := s.standby, standby := s.current);
      s := s.(confirmed := false);
      s := s.(bootcount := 0);
      manager.file := Some(s);
      ok := true;
    }
  }

  // ---------------------------------------------------------------- runs

  datatype Step = Boot | Confirm | Rollback | Apply(target: Slot, attempt: Attempt)

  function Next(d: Device, step: Step): Device {
    match step
    case Boot => d.(state := Booted(d.state))
    case Confirm => d.(state := Confirmed(d.state))
    case Rollback => d.(state := Swapped(d.state))
    case Apply(target, attempt) => Applied(d, target, attempt)
  }

  function Exec(d: Device, steps: seq<Step>): Device {
    if steps == [] then d else Next(Exec(d, steps[..|steps| - 1]), steps[|steps| - 1])
  }

  predicate Takes(step: Step) {
    step.Apply? && IsSlot(step.target) && step.attempt.Wrote? && step.attempt.success
  }

  /** What a write can come to: a success leaves something in the slot. */
  predicate Possible(attempt: Attempt) { attempt.Wrote? && attempt.success ==> attempt.content.Some? }

  predicate IsSlot(target: Slot) { target == "a" || target == "b" }

  /** The bytes that were current when the latest update was applied, while neither a confirm nor
      a rollback has followed it; `at` is the device before the step. */
  function NextFallback(at: Device, fallback: Option<Option<Bytes>>, step: Step): Option<Option<Bytes>> {
    if Takes(step) then Some(Held(at, at.state.current))
    else if step.Confirm? || step.Rollback? then None
    else fallback
  }

  function Fallback(d: Device, steps: seq<Step>): Option<Option<Bytes>> {
    if steps == [] then None
    else
      var front := steps[..|steps| - 1];
      NextFallback(Exec(d, front), Fallback(d, front), steps[|steps| - 1])
  }

  /** The bytes of the image confirmed last, the first device's own to begin with. */
  function LastGood(d: Device, steps: seq<Step>): Option<Bytes> {
    if steps == [] then Held(d, d.state.current)
    else
      var front, last := steps[..|steps| - 1], steps[|steps| - 1];
      var at := Exec(d, front);
      if last.Confirm? then Held(at, at.state.current) else LastGood(d, front)
  }

  /** What a slot holds. */
  function Held(d: Device, slot: Slot): Option<Bytes> {
    if slot in d.slots then Some(d.slots[slot]) else None
  }

  /** Boots since the last confirm, rollback or successful update. */
  function BootsSince(steps: seq<Step>): nat {
    if steps == [] then 0
    else
      var front, last := steps[..|steps| - 1], steps[|steps| - 1];
      if last.Confirm? || last.Rollback? || Takes(last) then 0
      else BootsSince(front) + if last.Boot? then 1 else 0
  }

  // ---------------------------------------------------------------- the pending fallback

  /** The slots differ, and a pending fallback sits in the standby slot of an unconfirmed state. */
  ghost predicate Guarded(d: Device, fallback: Option<Option<Bytes>>) {
    d.state.current != d.state.standby
    && (fallback.Some? ==> !d.state.confirmed && Held(d, d.state.standby) == fallback.value)
  }

  /** What a caller can check before an update: it spares the running image, and the fallback
      while one is pending. */
  predicate Spares(d: Device, fallback: Option<Option<Bytes>>, target: Slot) {
    target != d.state.current && (fallback.Some? ==> target != d.state.standby)
  }

  /** One outcome of an update: the running image is in the new standby slot exactly when the
      update did not overwrite it, or wrote the same bytes. */
  lemma UpdateKeepsRunningImageIff(d: Device, target: Slot, attempt: Attempt)
    requires IsSlot(target) && attempt.Wrote? && attempt.success
    ensures var e := Applied(d, target, attempt);
            Held(e, e.state.standby) == Held(d, d.state.current)
            <==> target != d.state.current || attempt.content == Held(d, d.state.current)
  {
  }

  ghost predicate KeepsFallback(d: Device, fallback: Option<Option<Bytes>>, target: Slot, attempt: Attempt) {
    Guarded(Applied(d, target, attempt), NextFallback(d, fallback, Apply(target, attempt)))
  }

  /** The code checks neither, so this is the exact condition: whatever comes of the write, the
      fallback is kept if and only if the update spares the running image and a pending fallback. */
  lemma EveryOutcomeKeepsFallbackIff(d: Device, fallback: Option<Option<Bytes>>, target: Slot)
    requires Guarded(d, fallback) && IsSlot(target)
    ensures (forall attempt | Possible(attempt) :: KeepsFallback(d, fallback, target, attempt))
            <==> Spares(d, fallback, target)
  {
    if target == d.state.current {
      var other: Bytes := if Held(d, target) == Some([]) then [0] else [];
      var overwrite := Wrote(true, Some(other));
      UpdateKeepsRunningImageIff(d, target, overwrite);
      assert Possible(overwrite) && !KeepsFallback(d, fallback, target, overwrite);
    } else if fallback.Some? && target == d.state.standby {
      var spoilt := Wrote(false, if fallback.value.Some? then None else Some([]));
      assert Possible(spoilt) && !KeepsFallback(d, fallback, target, spoilt);
    }
  }

  predicate SparingRun(d: Device, steps: seq<Step>) {
    steps == []
    || (SparingRun(d, steps[..|steps| - 1])
        && SparingStep(Exec(d, steps[..|steps| - 1]), Fallback(d, steps[..|steps| - 1]), steps[|steps| - 1]))
  }

  predicate SparingStep(d: Device, fallback: Option<Option<Bytes>>, step: Step) {
    step.Apply? ==> Possible(step.attempt) && (IsSlot(step.target) ==> Spares(d, fallback, step.target))
  }

  /** Main result: from two different slots, in every run whose updates meet that condition, the
      slots stay different, and from a successful update until a confirm or rollback the standby
      slot holds the bytes that were current before it. */
  lemma {:induction false} FallbackIsKept(d: Device, steps: seq<Step>)
    requires d.state.current != d.state.standby && SparingRun(d, steps)
    ensures Guarded(Exec(d, steps), Fallback(d, steps))
  {
    if steps != [] {
      var front, last := steps[..|steps| - 1], steps[|steps| - 1];
      FallbackIsKept(d, front);
      if last.Apply? && IsSlot(last.target) {
        EveryOutcomeKeepsFallbackIff(Exec(d, front), Fallback(d, front), last.target);
        assert KeepsFallback(Exec(d, front), Fallback(d, front), last.target, last.attempt);
      }
    }
  }

  /** So rolling back an unconfirmed update makes exactly those bytes current again. */
  lemma RollbackRestores(d: Device, steps: seq<Step>)
    requires d.state.current != d.state.standby && SparingRun(d, steps) && Fallback(d, steps).Some?
    ensures var e := Exec(d, steps + [Rollback]);
            Held(e, e.state.current) == Fallback(d, steps).value && e.state.current != e.state.standby
  {
    FallbackIsKept(d, steps);
    assert (steps + [Rollback])[..|steps|] == steps;
  }

  // ---------------------------------------------------------------- the caller's rule

  /** A rule that the state record alone decides: write to the recorded standby slot, and only
      when the running image is confirmed. */
  predicate Proper(d: Device, step: Step) {
    step.Apply? ==> step.target == d.state.standby && d.state.confirmed && Possible(step.attempt)
  }

  predicate ProperRun(d: Device, steps: seq<Step>) {
    steps == []
    || (ProperRun(d, steps[..|steps| - 1]) && Proper(Exec(d, steps[..|steps| - 1]), steps[|steps| - 1]))
  }

  lemma {:induction false} ProperRunIsSparing(d: Device, steps: seq<Step>)
    requires d.state.current != d.state.standby && ProperRun(d, steps)
    ensures SparingRun(d, steps)
  {
    if steps != [] {
      ProperRunIsSparing(d, steps[..|steps| - 1]);
      FallbackIsKept(d, steps[..|steps| - 1]);
    }
  }

  /** The rule cannot do without `confirmed`: a second update to the standby slot that fails its
      read-back takes the pending fallback with it. */
  lemma FailedUpdateDestroysFallback(good: Bytes, bad: Bytes)
    ensures var d := Device(FACTORY, map["a" := good]);
            var steps := [Apply("b", Wrote(true, Some(bad))), Apply("a", Wrote(false, None))];
            && Exec(d, steps[..1]).state.standby == "a" && Fallback(d, steps) == Some(Some(good))
            && Held(Exec(d, steps), Exec(d, steps).state.standby) == None && !Guarded(Exec(d, steps), Fallback(d, steps))
  {
    var d := Device(FACTORY, map["a" := good]);
    var first, second := Apply("b", Wrote(true, Some(bad))), Apply("a", Wrote(false, None));
    TwoSteps(d, first, second);
  }

  lemma TwoSteps(d: Device, first: Step, second: Step)
    ensures [first, second][..1] == [first] && Exec(d, [first]) == Next(d, first)
    ensures Exec(d, [first, second]) == Next(Next(d, first), second)
    ensures Fallback(d, [first, second]) == NextFallback(Next(d, first), NextFallback(d, None, first), second)
    ensures !first.Confirm? && !second.Confirm? ==> LastGood(d, [first, second]) == Held(d, d.state.current)
    ensures ProperRun(d, [first, second]) ==> Proper(Next(d, first), second)
  {
    assert [first, second][..1] == [first] && [first][..0] == [];
    assert Exec(d, [first]) == Next(d, first) && Fallback(d, [first]) == NextFallback(d, None, first);
    assert !first.Confirm? ==> LastGood(d, [first]) == Held(d, d.state.current);
  }

  // ---------------------------------------------------------------- the last confirmed image

  ghost predicate Somewhere(d: Device, good: Bytes) { exists slot | slot in d.slots :: d.slots[slot] == good }

  /** Whatever comes of the write, given bytes stay in some slot if and only if a slot other than
      the target holds them. */
  lemma EveryOutcomeKeepsBytesIff(d: Device, target: Slot, good: Bytes)
    requires IsSlot(target)
    ensures (forall attempt | Possible(attempt) :: Somewhere(Applied(d, target, attempt), good))
            <==> exists slot | slot in d.slots && slot != target :: d.slots[slot] == good
  {
    if slot :| slot in d.slots && slot != target && d.slots[slot] == good {
      forall attempt | Possible(attempt) ensures Somewhere(Applied(d, target, attempt), good) {
        assert slot in Applied(d, target, attempt).slots && Applied(d, target, attempt).slots[slot] == good;
      }
    } else {
      var spoilt := Wrote(false, None);
      assert Possible(spoilt) && Applied(d, target, spoilt).slots == d.slots - {target};
      assert !Somewhere(Applied(d, target, spoilt), good);
    }
  }

  /** The last confirmed image is in one of the two slots, and in the current one while confirmed. */
  ghost predicate GoodKept(d: Device, good: Option<Bytes>) {
    && d.state.current != d.state.standby
    && (d.state.confirmed ==> Held(d, d.state.current) == good)
    && (Held(d, d.state.current) == good || Held(d, d.state.standby) == good)
  }

  /** Main result: under the caller's rule, through failed updates, boots, rollbacks and new
      updates alike, the image confirmed last is never overwritten. */
  lemma {:induction false} GoodImageSurvives(d: Device, steps: seq<Step>)
    requires d.state.confirmed && d.state.current != d.state.standby && ProperRun(d, steps)
    ensures GoodKept(Exec(d, steps), LastGood(d, steps))
    ensures LastGood(d, steps).Some? ==> Somewhere(Exec(d, steps), LastGood(d, steps).value)
  {
    if steps != [] {
      GoodImageSurvives(d, steps[..|steps| - 1]);
    }
    var e, good := Exec(d, steps), LastGood(d, steps);
    assert GoodKept(e, good);
    var slot := if Held(e, e.state.current) == good then e.state.current else e.state.standby;
    assert good.Some? ==> slot in e.slots && e.slots[slot] == good.value;
  }

  /** Without the rule it is: a second update on top of an unconfirmed one overwrites the last image
      known to be good. */
  lemma SecondUpdateLosesGoodImage(good: Bytes, bad: Bytes, worse: Bytes)
    requires good != bad && good != worse
    ensures var d := Device(FACTORY, map["a" := good]);
            var steps := [Apply("b", Wrote(true, Some(bad))), Apply("a", Wrote(true, Some(worse)))];
            LastGood(d, steps) == Some(good) && !Somewhere(Exec(d, steps), good) && !ProperRun(d, steps)
  {
    var d := Device(FACTORY, map["a" := good]);
    TwoSteps(d, Apply("b", Wrote(true, Some(bad))), Apply("a", Wrote(true, Some(worse))));
  }

  /** In every run the boot counter counts the boots since the last confirm, rollback or
      successful update, and a boot makes the state unconfirmed. */
  lemma {:induction false} BootcountCounts(d: Device, steps: seq<Step>)
    requires d.state.bootcount == 0
    ensures Exec(d, steps).state.bootcount == BootsSince(steps)
    ensures BootsSince(steps) > 0 ==> !Exec(d, steps).state.confirmed
  {
    if steps != [] { BootcountCounts(d, steps[..|steps| - 1]); }
  }

  /** Main result: with a positive limit, rolling back is due exactly from the limit-th boot after
      the last confirm, rollback or successful update. */
  lemma RollbackDueExactly(d: Device, steps: seq<Step>, limit: int)
    requires d.state.bootcount == 0 && limit >= 1
    ensures ShouldRollback(Exec(d, steps).state, limit) <==> BootsSince(steps) >= limit
  {
    BootcountCounts(d, steps);
  }
}
