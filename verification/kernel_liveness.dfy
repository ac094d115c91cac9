/** Which unfinished Tasks can still move, and which cannot: the exact conditions. */
module KernelLiveness {
  import opened Options
  import opened TaskKernel
  import opened KernelSafety

  /* ---- reclaiming an abandoned Task ---- */

  /** A slot-holding Task can be taken by some Worker at some instant exactly when it never
      entered its running boundary and has no effect in flight. Lease expiry alone is not enough. */
  lemma ReclaimableIff(r: Row)
    requires HoldsSlot(r.queue)
    ensures (exists w: Registration, now: int :: Claimable(r, w, now)) <==> r.status == Pending && r.mutation.None?
  {
    if r.status == Pending && r.mutation.None? {
      var e := if r.eligible.Some? then r.eligible.value else 0;
      var x := if r.expires.Some? then r.expires.value else 0;
      assert Claimable(r, Registration(true, 0, 0, {r.admission.command}, r.admission.pin), if e > x then e else x);
    }
  }

  /** Owned, and already past the point where an ordinary claim may take it. */
  predicate Held(r: Row, f: Fence) {
    Owns(r, f) && (r.status != Pending || r.mutation.Some?)
  }

  /** The operation may release f's Task t: it carries f itself, or hands one of t's sources to a newer Task. */
  predicate MayFree(op: Op, t: string, f: Fence) {
    op.OnTask? && op.task == t && (FenceOf(op.change) == Some(f) || op.change.HandOff?)
  }

  lemma HeldStep(k: Kernel, r: Row, f: Fence, c: Change)
    requires RowOk(r) && Held(r, f) && Next(k, r, c).Some?
    requires FenceOf(c) != Some(f) && !c.HandOff?
    ensures Held(Next(k, r, c).value, f)
    ensures !SideWrite(c) ==> Next(k, r, c).value.items == r.items && Next(k, r, c).value.results == r.results
  {
    if SideWrite(c) {
      SideWriteFrame(r, c);
    } else if Publication(c) {
      PublicationFrame(k, r, c);
    }
  }

  /** No unfenced writer touches a source of t. */
  predicate Untouched(ops: seq<Op>, t: string) {
    forall i | 0 <= i < |ops| && ops[i].OnTask? && ops[i].task == t :: !SideWrite(ops[i].change)
  }

  /** A Task whose owner vanished after the running boundary keeps its slot for ever: no claim, no
      control, no requeue, no adoption, no unfenced writer and no passage of time frees it. Only that
      owner, or an explicitly confirmed newer Task taking one of its failed sources, can. Its sources
      change through unfenced writers alone. */
  lemma {:induction false} AbandonedTaskKeepsSlot(k: Kernel, ops: seq<Op>, t: string, f: Fence)
    requires KernelOk(k) && t in k.rows && Held(k.rows[t], f)
    requires forall i | 0 <= i < |ops| :: !MayFree(ops[i], t, f)
    ensures t in Run(k, ops).rows && Held(Run(k, ops).rows[t], f) && t in Slots(Run(k, ops))
    ensures Untouched(ops, t) ==> Run(k, ops).rows[t].items == k.rows[t].items && Run(k, ops).rows[t].results == k.rows[t].results
    decreases |ops|
  {
    if ops == [] {
    } else {
      assert !MayFree(ops[0], t, f);
      if ops[0].OnTask? && ops[0].task == t && Next(k, k.rows[t], ops[0].change).Some? {
        HeldStep(k, k.rows[t], f, ops[0].change);
      }
      ApplyKeepsKernel(k, ops[0]);
      AbandonedTaskKeepsSlot(Apply(k, ops[0]), ops[1..], t, f);
      assert Untouched(ops, t) ==> Untouched(ops[1..], t);
    }
  }

  /* ---- an accepted cancellation is final ---- */

  predicate Continues(c: Change) {
    c.Requeue? || c.Resume? || c.Adopt? || c.Settle? || c.Defer? || c.Yield?
  }

  lemma CancelStep(k: Kernel, r: Row, c: Change)
    requires RowOk(r) && r.control == Some(Cancel) && Next(k, r, c).Some?
    ensures Next(k, r, c).value.control == Some(Cancel) && Next(k, r, c).value.requests == r.requests
    ensures !Continues(c)
  {
    if Publication(c) {
      PublicationFrame(k, r, c);
    } else if SideWrite(c) {
      SideWriteFrame(r, c);
    }
  }

  /** Over every continuation an accepted cancel stays the last accepted control, and nothing requeues,
      adopts, resumes, yields or releases the Task otherwise. If it ever settles, it settles as
      cancelled, and without a reconciliation it still says so. */
  lemma {:induction false} CancelIsFinal(k: Kernel, ops: seq<Op>, t: string, c: Change)
    requires KernelOk(k) && t in k.rows && k.rows[t].control == Some(Cancel)
    ensures t in Run(k, ops).rows
    ensures Run(k, ops).rows[t].control == Some(Cancel) && Run(k, ops).rows[t].requests == k.rows[t].requests
    ensures Continues(c) ==> Attempt(Run(k, ops), OnTask(t, c)).None?
    ensures StatusOk(k.rows[t]) && (forall i | 0 <= i < |ops| && ops[i].OnTask? && ops[i].task == t :: !ops[i].change.Reconcile?) ==>
              (Run(k, ops).rows[t].queue == Settled ==> Run(k, ops).rows[t].status == Cancelled)
    decreases |ops|
  {
    if ops == [] {
      if Next(k, k.rows[t], c).Some? {
        CancelStep(k, k.rows[t], c);
      }
    } else {
      if ops[0].OnTask? && ops[0].task == t && Next(k, k.rows[t], ops[0].change).Some? {
        CancelStep(k, k.rows[t], ops[0].change);
      }
      ApplyKeepsKernel(k, ops[0]);
      CancelIsFinal(Apply(k, ops[0]), ops[1..], t, c);
    }
    if StatusOk(k.rows[t]) && forall i | 0 <= i < |ops| && ops[i].OnTask? && ops[i].task == t :: !ops[i].change.Reconcile? {
      RunKeepsStatus(k, ops, t);
    }
  }

  /* ---- the second half of an operator's control request ---- */

  /** What request_control settles itself, right after recording the control: there is no owner. */
  predicate SettlesAtOnce(r: Row) {
    r.owner.None? && r.queue in {Queued, WaitingHuman, Suspended}
  }

  function OperatorAcknowledges(r: Row, now: int): Change {
    Acknowledge(None, now, |r.requests|, r.admission.authorized, Frames(r.items), r.started, false)
  }

  /** No source that the control would rewrite has a recorded outcome. */
  predicate ControlFree(r: Row, c: Control) {
    forall i | i in r.items && Controlled(c, r.items[i].status) && !r.items[i].superseded :: !Recorded(r, i)
  }

  lemma ControlOverlayIff(r: Row, c: Control)
    ensures QuietUnder(r.items, ControlOverlay(c, Frames(r.items)))
    ensures OverlayAllowed(r, ControlOverlay(c, Frames(r.items))) <==> ControlFree(r, c)
  {
    var overlay := ControlOverlay(c, Frames(r.items));
    assert forall i | i in r.items && i !in overlay :: !Controlled(c, r.items[i].status);
    assert forall i :: i in overlay <==> i in r.items && Controlled(c, r.items[i].status);
  }

  /** For every row: the operator's own settlement of the last accepted control commits exactly when no
      claim token is left over, no effect is in flight, and no source to be rewritten has a recorded
      outcome. Yielding leaves a token; retrying a failed source leaves a recorded outcome. */
  lemma OperatorSettlesIff(r: Row, now: int)
    ensures AfterAcknowledge(r, OperatorAcknowledges(r, now)).Some? <==>
              r.requests != [] && r.owner.None? && r.mutation.None? && ControlFree(r, Last(r.requests))
    ensures AfterAcknowledge(r, OperatorAcknowledges(r, now)).Some? ==>
              AfterAcknowledge(r, OperatorAcknowledges(r, now)).value.queue == if Last(r.requests) == Pause then Suspended else Settled
  {
    if r.requests != [] {
      ControlOverlayIff(r, Last(r.requests));
    }
  }

  lemma YieldedStep(k: Kernel, r: Row, c: Change)
    requires RowOk(r) && r.queue == Queued && r.owner.Some? && r.control.Some?
    requires Next(k, r, c).Some? && !c.Claim? && !c.HandOff?
    ensures var next := Next(k, r, c).value;
            next.queue == Queued && next.owner == r.owner && next.control.Some? && (!SideWrite(c) ==> next.items == r.items)
  {
    if SideWrite(c) {
      SideWriteFrame(r, c);
    }
  }

  /** A yielded Task with a pending control waits: nothing settles or releases it before some Worker
      claims it again or a newer Task takes one of its sources, and only unfenced writers change
      its sources meanwhile. */
  lemma {:induction false} YieldedControlWaitsForClaim(k: Kernel, ops: seq<Op>, t: string)
    requires KernelOk(k) && t in k.rows
    requires k.rows[t].queue == Queued && k.rows[t].owner.Some? && k.rows[t].control.Some?
    requires forall i | 0 <= i < |ops| && ops[i].OnTask? && ops[i].task == t :: !ops[i].change.Claim? && !ops[i].change.HandOff?
    ensures t in Run(k, ops).rows
    ensures var r := Run(k, ops).rows[t];
            r.queue == Queued && r.owner == k.rows[t].owner && r.control.Some? && (Untouched(ops, t) ==> r.items == k.rows[t].items)
    decreases |ops|
  {
    if ops == [] {
    } else {
      if ops[0].OnTask? && ops[0].task == t && Next(k, k.rows[t], ops[0].change).Some? {
        YieldedStep(k, k.rows[t], ops[0].change);
      }
      ApplyKeepsKernel(k, ops[0]);
      YieldedControlWaitsForClaim(Apply(k, ops[0]), ops[1..], t);
      assert Untouched(ops, t) ==> Untouched(ops[1..], t);
    }
  }

  /** A kernel holding one Task and one live Worker. */
  function Single(r: Row, w: Registration): Kernel {
    Kernel(map["t" := r], map["w" := w])
  }

  lemma TaskApply(k: Kernel, t: string, c: Change, next: Row)
    requires t in k.rows && Next(k, k.rows[t], c) == Some(next)
    ensures Apply(k, OnTask(t, c)) == k.(rows := k.rows[t := next])
  {
  }

  lemma SingleApply(r: Row, w: Registration, c: Change, next: Row)
    requires Next(Single(r, w), r, c) == Some(next)
    ensures Apply(Single(r, w), OnTask("t", c)) == Single(next, w)
  {
    TaskApply(Single(r, w), "t", c, next);
    assert map["t" := r]["t" := next] == map["t" := next];
  }

  lemma RunStep(k: Kernel, op: Op, rest: seq<Op>)
    ensures Run(k, [op] + rest) == Run(Apply(k, op), rest)
  {
    assert ([op] + rest)[1..] == rest;
  }

  lemma SingleStep(r: Row, w: Registration, c: Change, next: Row, rest: seq<Op>)
    requires Next(Single(r, w), r, c) == Some(next)
    ensures Run(Single(r, w), [OnTask("t", c)] + rest) == Run(Single(next, w), rest)
  {
    SingleApply(r, w, c, next);
    RunStep(Single(r, w), OnTask("t", c), rest);
  }

  function Yielded(r: Row): Row {
    r.(generation := 1, owner := Some(Owner("w", "token")))
  }

  lemma ClaimYieldCancel(r: Row, w: Registration)
    requires r == AdmittedRow(r.admission, None) && w == Registration(true, 0, 900, {r.admission.command}, None)
    ensures var c := Claim("w", "token", 0, 900);
            && Next(Single(r, w), r, c) == Some(AfterClaim(r, c))
            && Next(Single(AfterClaim(r, c), w), AfterClaim(r, c), Yield(Fence(Owner("w", "token"), 1), 1, None, None)) == Some(Yielded(r))
            && Next(Single(Yielded(r), w), Yielded(r), Request(Cancel)) == Some(Yielded(r).(control := Some(Cancel), requests := [Cancel]))
  {
    assert [] + [Cancel] == [Cancel];
  }

  /** The run that shows it: claimed, yielded, then cancelled while it is queued. */
  lemma YieldedCancelIsNotImmediate(r: Row, w: Registration)
    requires r == AdmittedRow(r.admission, None) && w == Registration(true, 0, 900, {r.admission.command}, None)
    ensures var f := Fence(Owner("w", "token"), 1);
            var waits := Yielded(r).(control := Some(Cancel), requests := [Cancel]);
            && Run(Single(r, w), [OnTask("t", Claim("w", "token", 0, 900))] + ([OnTask("t", Yield(f, 1, None, None))]
                 + ([OnTask("t", Request(Cancel))] + []))) == Single(waits, w)
            && waits.queue == Queued && !SettlesAtOnce(waits)
            && AfterAcknowledge(waits, OperatorAcknowledges(waits, 2)).None?
  {
    ClaimYieldCancel(r, w);
    var f := Fence(Owner("w", "token"), 1);
    var c := Claim("w", "token", 0, 900);
    var waits := Yielded(r).(control := Some(Cancel), requests := [Cancel]);
    var s3: seq<Op> := [OnTask("t", Request(Cancel))] + [];
    SingleStep(r, w, c, AfterClaim(r, c), [OnTask("t", Yield(f, 1, None, None))] + s3);
    SingleStep(AfterClaim(r, c), w, Yield(f, 1, None, None), Yielded(r), s3);
    SingleStep(Yielded(r), w, Request(Cancel), waits, []);
  }

  /* ---- settled work ---- */

  /** The one transaction that can reopen settled work: the late second half of a pause request. */
  predicate LatePause(r: Row, c: Change) {
    && c.Acknowledge? && c.holder.None?
    && 0 < c.revision == |r.requests| && Last(r.requests) == Pause
  }

  /** What the release still asks of such an acknowledgement: no effect in flight after the close, the
      authority its caller had read, no machine work but what the caller had read, and of that only
      what it may rewrite. */
  predicate PauseAdmitted(r: Row, c: Change)
    requires c.Acknowledge?
  {
    var q := Closed(r, c.close);
    && q.mutation.None? && c.authorized == q.admission.authorized
    && (forall i | i in r.items && MachineWork(r.items[i].status) :: i in c.seen && MachineWork(c.seen[i].status))
    && (forall i | i in c.seen && MachineWork(c.seen[i].status) ::
          && i in r.items
          && (r.items[i].superseded
              || (c.seen[i].attempts == r.items[i].attempts
                  && (Recorded(r, i) || Finished(r.items[i].status) ==> r.items[i].status == ItemPaused))))
  }

  lemma PauseOverlayIff(r: Row, seen: map<string, Frame>)
    ensures QuietUnder(r.items, ControlOverlay(Pause, seen)) <==>
              forall i | i in r.items && MachineWork(r.items[i].status) :: i in seen && MachineWork(seen[i].status)
    ensures OverlayAllowed(r, ControlOverlay(Pause, seen)) <==>
              forall i | i in seen && MachineWork(seen[i].status) ::
                && i in r.items
                && (r.items[i].superseded
                    || (seen[i].attempts == r.items[i].attempts
                        && (Recorded(r, i) || Finished(r.items[i].status) ==> r.items[i].status == ItemPaused)))
  {
    var overlay := ControlOverlay(Pause, seen);
    assert forall i :: i in overlay <==> i in seen && MachineWork(seen[i].status);
    assert forall i | i in overlay :: overlay[i] == Frame(ItemPaused, seen[i].attempts);
  }

  lemma LatePauseIff(r: Row, c: Change)
    requires r.owner.None? && LatePause(r, c)
    ensures AfterAcknowledge(r, c).Some? <==> PauseAdmitted(r, c)
    ensures AfterAcknowledge(r, c).Some? ==>
              AfterAcknowledge(r, c).value.queue == Suspended && AfterAcknowledge(r, c).value.status == Running
  {
    PauseOverlayIff(r, c.seen);
  }

  lemma OnlyLatePause(r: Row, c: Change)
    requires RowOk(r) && r.queue == Settled && c.Acknowledge? && AfterAcknowledge(r, c).Some?
    ensures AfterAcknowledge(r, c).value.queue != Settled ==> LatePause(r, c)
  {
  }

  /** For every transaction on a settled Task: it leaves the settled state exactly when it is such a late
      acknowledgement and the release admits it; nothing compares the queue state, and neither resuming
      nor requeueing moves the control revision. Otherwise its scheduling columns stay, and everything
      stays but for unfenced writers and a repeated cancel. */
  lemma SettledReopensIff(k: Kernel, r: Row, c: Change)
    requires RowOk(r) && r.queue == Settled
    ensures Next(k, r, c).Some? && Next(k, r, c).value.queue != Settled <==> LatePause(r, c) && PauseAdmitted(r, c)
    ensures LatePause(r, c) && PauseAdmitted(r, c) ==> Next(k, r, c).value.queue == Suspended && Next(k, r, c).value.status == Running
    ensures Next(k, r, c).Some? && !c.Acknowledge? ==>
              var next := Next(k, r, c).value;
              next == r.(items := next.items, results := next.results, status := next.status, started := next.started)
    ensures Next(k, r, c).Some? && !c.Acknowledge? && !SideWrite(c) ==> Next(k, r, c).value == r
  {
    if c.Acknowledge? {
      if AfterAcknowledge(r, c).Some? {
        OnlyLatePause(r, c);
      }
      if LatePause(r, c) {
        LatePauseIff(r, c);
      }
    } else if Next(k, r, c).Some? {
      SettledStays(k, r, c);
    }
  }

  lemma SettledStays(k: Kernel, r: Row, c: Change)
    requires RowOk(r) && r.queue == Settled && Next(k, r, c).Some? && !c.Acknowledge?
    ensures var next := Next(k, r, c).value;
            next == r.(items := next.items, results := next.results, status := next.status, started := next.started)
    ensures !SideWrite(c) ==> Next(k, r, c).value == r
  {
    if SideWrite(c) {
      SideWriteFrame(r, c);
    }
  }

  function Asked(r: Row): Row {
    r.(control := Some(Pause), requests := [Pause])
  }

  function Paused(r: Row): Row {
    Asked(r).(queue := Suspended, status := Running)
  }

  function Resumed(r: Row): Row {
    r.(requests := [Pause], queue := WaitingHuman, status := Running, generation := 1)
  }

  function Requeued(r: Row): Row {
    r.(requests := [Pause], generation := 2)
  }

  const CLAIM := Claim("w", "token", 5, 900)

  function Reclaimed(r: Row): Row {
    Requeued(r).(queue := Claimed, generation := 3, owner := Some(Owner("w", "token")), expires := Some(905))
  }

  const BEGIN := Begin(Fence(Owner("w", "token"), 3), 5)

  function Working(r: Row): Row {
    Reclaimed(r).(status := Running, started := Some(5))
  }

  const SETTLE := Settle(Fence(Owner("w", "token"), 3), 6, Completed, map[], Some(5), true)

  function Completes(r: Row): Row {
    r.(requests := [Pause], queue := Settled, status := Completed, started := Some(5), generation := 3)
  }

  /** The second caller of one pause request, whose acknowledgement commits after the first one's. */
  function Second(r: Row): Change {
    Acknowledge(None, 9, 1, r.admission.authorized, map[], None, false)
  }

  lemma PauseAndResume(r: Row, w: Registration)
    requires r == AdmittedRow(r.admission, None)
    ensures Next(Single(r, w), r, Request(Pause)) == Some(Asked(r))
    ensures Next(Single(Asked(r), w), Asked(r), Second(r)) == Some(Paused(r))
    ensures Next(Single(Paused(r), w), Paused(r), Resume) == Some(Resumed(r))
  {
    assert [] + [Pause] == [Pause];
    assert ControlOverlay(Pause, map[]) == map[] && Overlaid(map[], map[]) == map[];
  }

  lemma RequeueAndComplete(r: Row, w: Registration)
    requires r == AdmittedRow(r.admission, None) && r.admission.pin.None?
    requires w == Registration(true, 0, 900, {r.admission.command}, None)
    ensures Next(Single(Resumed(r), w), Resumed(r), Requeue(None, None, None, 1)) == Some(Requeued(r))
    ensures Next(Single(Requeued(r), w), Requeued(r), CLAIM) == Some(Reclaimed(r))
    ensures Next(Single(Reclaimed(r), w), Reclaimed(r), BEGIN) == Some(Working(r))
    ensures Next(Single(Working(r), w), Working(r), SETTLE) == Some(Completes(r))
  {
    assert Slots(Single(Resumed(r), w)) == {};
    assert Overlaid(map[], map[]) == map[];
  }

  /** The run that shows it: a pause is accepted and settled, the Task is resumed, requeued, claimed,
      begun and completed, and then the second caller of the same pause suspends the completed Task. */
  lemma CompletedTaskReopensInARun(r: Row, w: Registration)
    requires r == AdmittedRow(r.admission, None) && r.admission.pin.None?
    requires w == Registration(true, 0, 900, {r.admission.command}, None)
    ensures Run(Single(r, w), [OnTask("t", Request(Pause))] + ([OnTask("t", Second(r))] + ([OnTask("t", Resume)]
              + ([OnTask("t", Requeue(None, None, None, 1))] + ([OnTask("t", CLAIM)] + ([OnTask("t", BEGIN)] + ([OnTask("t", SETTLE)] + [])))))))
            == Single(Completes(r), w)
    ensures Next(Single(Completes(r), w), Completes(r), Second(r)).Some?
            && Next(Single(Completes(r), w), Completes(r), Second(r)).value.queue == Suspended
  {
    PauseAndResume(r, w);
    RequeueAndComplete(r, w);
    SettledReopensIff(Single(Completes(r), w), Completes(r), Second(r));
    var s7: seq<Op> := [OnTask("t", SETTLE)] + [];
    var s6 := [OnTask("t", BEGIN)] + s7;
    var s5 := [OnTask("t", CLAIM)] + s6;
    var s4 := [OnTask("t", Requeue(None, None, None, 1))] + s5;
    var s3 := [OnTask("t", Resume)] + s4;
    SingleStep(r, w, Request(Pause), Asked(r), [OnTask("t", Second(r))] + s3);
    SingleStep(Asked(r), w, Second(r), Paused(r), s3);
    SingleStep(Paused(r), w, Resume, Resumed(r), s4);
    SingleStep(Resumed(r), w, Requeue(None, None, None, 1), Requeued(r), s5);
    SingleStep(Requeued(r), w, CLAIM, Reclaimed(r), s6);
    SingleStep(Reclaimed(r), w, BEGIN, Working(r), s7);
    SingleStep(Working(r), w, SETTLE, Completes(r), []);
  }

  /** Over every run in which no control is acknowledged late, settled work stays settled with the same
      scheduling columns; and if no unfenced writer touches it, it stays exactly as it was. */
  lemma {:induction false} SettledIsFinal(k: Kernel, ops: seq<Op>, t: string)
    requires KernelOk(k) && t in k.rows && k.rows[t].queue == Settled
    requires forall i | 0 <= i < |ops| && ops[i].OnTask? && ops[i].task == t ::
               ops[i].change.Acknowledge? && ops[i].change.holder.None? ==> ops[i].change.revision != |k.rows[t].requests|
    ensures t in Run(k, ops).rows
    ensures var r, later := k.rows[t], Run(k, ops).rows[t];
            later == r.(items := later.items, results := later.results, status := later.status, started := later.started)
    ensures Untouched(ops, t) ==> Run(k, ops).rows[t] == k.rows[t]
    decreases |ops|
  {
    if ops == [] {
    } else {
      var op := ops[0];
      if op.OnTask? && op.task == t && Next(k, k.rows[t], op.change).Some? {
        SettledReopensIff(k, k.rows[t], op.change);
      }
      ApplyKeepsKernel(k, op);
      SettledIsFinal(Apply(k, op), ops[1..], t);
      assert Untouched(ops, t) ==> Untouched(ops[1..], t);
    }
  }

  /** So a source of a settled Task that an operator sends back for another attempt is never started. */
  lemma SettledRetryNeverStarts(k: Kernel, ops: seq<Op>, t: string, c: Change)
    requires KernelOk(k) && t in k.rows && k.rows[t].queue == Settled && (c.Start? || c.Mutate?)
    requires forall i | 0 <= i < |ops| && ops[i].OnTask? && ops[i].task == t ::
               ops[i].change.Acknowledge? && ops[i].change.holder.None? ==> ops[i].change.revision != |k.rows[t].requests|
    ensures Attempt(Run(k, ops), OnTask(t, c)).None?
  {
    SettledIsFinal(k, ops, t);
  }

  /* ---- effects are not replayed ---- */

  /** A source identity with a recorded effect that is not proved empty: over every continuation no
      mutation of it begins, and no attempt of it starts while it has a row. */
  lemma UnprovedEffectNeverReplayed(k: Kernel, ops: seq<Op>, t: string, i: string, c: Change)
    requires t in k.rows && !EffectFree(k.rows[t], i)
    ensures t in Run(k, ops).rows && !EffectFree(Run(k, ops).rows[t], i)
    ensures c.Mutate? && c.item == i ==> Attempt(Run(k, ops), OnTask(t, c)).None?
    ensures c.Start? && c.item == i && i in Run(k, ops).rows[t].items ==> Attempt(Run(k, ops), OnTask(t, c)).None?
  {
    RunIsLater(k, ops, t);
    assert HistoryLater(ResultsOf(k.rows[t], i), ResultsOf(Run(k, ops).rows[t], i));
  }

  /** The adopted Task as its next owner has it, once source i is in its first attempt. */
  function FirstAttempt(r: Row, i: string, f: Fence, now: int): Row {
    r.(queue := Claimed, owner := Some(f.owner), generation := f.generation, expires := Some(now + 1),
       items := r.items[i := Item(Processing, 1, false)])
  }

  /** That protects the identity, not the source: an adoption that replaces the row of an unfinished
      source gives it a fresh identity without Results. Its owner may start that one unless the marker
      names it, and may mutate it exactly when no effect was in flight, whatever the old identity did. */
  lemma FreshIdentityMayMutate(k: Kernel, r: Row, c: Change, i: string, j: string, f: Fence, now: int)
    requires c.Adopt? && Next(k, r, c).Some? && i in c.retired && j in c.minted && j !in r.results
    ensures i !in Next(k, r, c).value.items
    ensures MayStart(Next(k, r, c).value, j, 1) <==> r.mutation != Some(j)
    ensures Next(k, FirstAttempt(Next(k, r, c).value, j, f, now), Mutate(f, now, j)).Some? <==> r.mutation.None?
  {
  }

  /** A boundary closed without any Result is weaker: after the release the marked source may be
      started, and so mutated, again exactly when its status is resumable, because no recorded
      evidence speaks against it. */
  lemma ClosedBoundaryReplayableIff(r: Row, c: Change, i: string)
    requires c.Defer? && c.overlay == map[] && c.close && BoundaryFinished(r) && r.mutation == Some(i)
    requires AfterDefer(r, c).Some? && i !in r.results && !r.items[i].superseded
    ensures AfterDefer(r, c).value.queue == WaitingHuman && AfterDefer(r, c).value.mutation.None?
    ensures MayStart(AfterDefer(r, c).value, i, r.items[i].attempts + 1) <==> Resumable(r.items[i].status)
  {
  }

  /** An adopted source whose row is kept counts its attempts from zero, so its next attempt repeats the
      name of an earlier one: the new attempt's outcome is refused exactly when that one has a Result. */
  lemma AdoptedAttemptMayBeUnrecordable(k: Kernel, r: Row, c: Change, i: string, f: Fence, now: int, to: ItemStatus, e: Evidence)
    requires c.Adopt? && Next(k, r, c).Some? && i in c.reused
    ensures Next(k, FirstAttempt(Next(k, r, c).value, i, f, now), Outcome(f, now, i, 1, to, e)).None? <==>
              1 in ResultsOf(r, i).recorded
  {
  }

  /* ---- whether an unfinished Task can go on ---- */

  /** The transactions by which somebody other than the owner sends a Task on. */
  predicate ReEntry(c: Change) {
    c.Claim? || c.Requeue? || c.Resume? || c.Adopt?
  }

  predicate CanReenter(r: Row) {
    match r.queue
    case Queued => r.status == Pending && r.mutation.None?
    case WaitingHuman =>
      r.control != Some(Cancel) && (r.status in {Pending, Running} || (r.mutation.None? && r.status != Cancelled))
    case Suspended => r.control != Some(Cancel)
    case _ => false
  }

  /** The control an operator can still get accepted that rewrites the least: once cancelled, only the cancel. */
  function MildestControl(r: Row): Control {
    if r.control == Some(Cancel) then Cancel else Pause
  }

  predicate CanBeStopped(r: Row) {
    r.owner.None? && r.mutation.None? && ControlFree(r, MildestControl(r))
  }

  /** An unowned, unsettled Task that nobody can send on, pause or cancel: queued with a wrong status or an
      effect in flight, and a token, an effect or a recorded outcome in the way of a control; cancelled
      while an effect is in flight or a source that would be rewritten has a recorded outcome; waiting
      under a finished status with an effect in flight, or as cancelled over a recorded outcome. */
  predicate Blocked(r: Row) {
    match r.queue
    case Queued =>
      && (r.status != Pending || r.mutation.Some?)
      && (r.owner.Some? || r.mutation.Some? || !ControlFree(r, MildestControl(r)))
    case WaitingHuman =>
      if r.control == Some(Cancel) then r.mutation.Some? || !ControlFree(r, Cancel)
      else r.status !in {Pending, Running} && (r.mutation.Some? || (r.status == Cancelled && !ControlFree(r, Pause)))
    case Suspended => r.control == Some(Cancel) && !ControlFree(r, Cancel)
    case _ => false
  }

  function ClaimTime(r: Row): int {
    if r.eligible.Some? then r.eligible.value else 0
  }

  /** A kernel in which every kind of re-entry that the row allows has room and a Worker. */
  function Roomy(r: Row): Kernel {
    Kernel(map[], map["w" := Registration(true, ClaimTime(r), 900, {r.admission.command}, r.admission.pin)])
  }

  function ReEntryOf(r: Row): Change {
    match r.queue
    case Queued => Claim("w", "token", ClaimTime(r), 900)
    case WaitingHuman =>
      if r.status in {Pending, Running} then Adopt(r.admission.pin, 0, 1, {}, {}, {Unused(r.items.Keys)})
      else Requeue(r.admission.pin, None, None, 1)
    case _ => Resume
  }

  /** A name that is not among the given ones. */
  function Unused(names: set<string>): (name: string)
    ensures name !in names
  {
    UnusedExists(names, |names|);
    Repeat(LeastUnused(names, 0, |names|))
  }

  function Repeat(n: nat): (s: string)
    ensures |s| == n
  {
    seq(n, i => 'x')
  }

  function LeastUnused(names: set<string>, n: nat, limit: nat): (m: nat)
    requires exists j :: n <= j <= limit && Repeat(j) !in names
    ensures Repeat(m) !in names
    decreases limit - n
  {
    if Repeat(n) !in names then n else
      assert forall j :: n <= j <= limit && Repeat(j) !in names ==> n + 1 <= j;
      LeastUnused(names, n + 1, limit)
  }

  /** More lengths than names: one of the repeated letters is free. */
  lemma {:induction false} UnusedExists(names: set<string>, limit: nat)
    requires |names| <= limit
    ensures exists j :: 0 <= j <= limit && Repeat(j) !in names
    decreases limit
  {
    if Repeat(limit) in names {
      var rest := names - {Repeat(limit)};
      assert |rest| == |names| - 1;
      UnusedExists(rest, limit - 1);
      var j :| 0 <= j <= limit - 1 && Repeat(j) !in rest;
      assert |Repeat(j)| != |Repeat(limit)|;
      assert Repeat(j) !in names;
    } else {
      assert 0 <= limit <= limit;
    }
  }

  lemma QueuedReenters(r: Row)
    requires RowOk(r) && r.queue == Queued && CanReenter(r)
    ensures Next(Roomy(r), r, ReEntryOf(r)).Some?
  {
    assert Claimable(r, Roomy(r).workers["w"], ClaimTime(r));
  }

  lemma FreshSourceIsAdopted(r: Row, name: string)
    requires r.queue == WaitingHuman && r.control != Some(Cancel) && r.status in {Pending, Running} && name !in r.items
    ensures AfterAdopt(r, Adopt(r.admission.pin, 0, 1, {}, {}, {name}), true).Some?
  {
    var none: set<string> := {};
    assert name in none + {name};
    assert {name} !! r.items.Keys;
  }

  lemma WaitingRequeues(r: Row)
    requires r.queue == WaitingHuman && r.control != Some(Cancel) && r.mutation.None? && r.status != Cancelled
    ensures AfterRequeue(r, Requeue(r.admission.pin, None, None, 1), true).Some?
  {
  }

  lemma RoomyIsEmpty(r: Row)
    ensures Used(Roomy(r)) == 0
  {
    assert Slots(Roomy(r)) == {};
  }

  lemma WaitingAdopts(r: Row, c: Change)
    requires r.queue == WaitingHuman && CanReenter(r) && r.status in {Pending, Running} && c == ReEntryOf(r)
    ensures Next(Roomy(r), r, c) == AfterAdopt(r, c, true) && AfterAdopt(r, c, true).Some?
  {
    RoomyIsEmpty(r);
    FreshSourceIsAdopted(r, Unused(r.items.Keys));
  }

  lemma WaitingReenters(r: Row)
    requires r.queue == WaitingHuman && CanReenter(r)
    ensures Next(Roomy(r), r, ReEntryOf(r)).Some?
  {
    if r.status in {Pending, Running} {
      WaitingAdopts(r, ReEntryOf(r));
    } else {
      RoomyIsEmpty(r);
      WaitingRequeues(r);
    }
  }

  /** Somebody can send an unowned, unsettled Task on exactly when CanReenter says so. */
  lemma ReEntryIff(r: Row)
    requires RowOk(r) && r.queue != Claimed && r.queue != Settled
    ensures (exists k: Kernel, c: Change :: ReEntry(c) && Next(k, r, c).Some?) <==> CanReenter(r)
  {
    if CanReenter(r) {
      if r.queue == Queued {
        QueuedReenters(r);
      } else if r.queue == WaitingHuman {
        WaitingReenters(r);
      }
      assert ReEntry(ReEntryOf(r)) && Next(Roomy(r), r, ReEntryOf(r)).Some?;
    }
  }

  /** The operator's whole request: record the control, then settle it. */
  predicate Stops(r: Row, wanted: Control, now: int) {
    && AfterRequest(r, wanted).Some?
    && var asked := AfterRequest(r, wanted).value;
       AfterAcknowledge(asked, OperatorAcknowledges(asked, now)).Some?
  }

  lemma StopsIff(r: Row, now: int)
    requires RowOk(r) && r.queue != Settled
    ensures (exists wanted: Control :: Stops(r, wanted, now)) <==> CanBeStopped(r)
  {
    forall wanted: Control | AfterRequest(r, wanted).Some?
      ensures Stops(r, wanted, now) <==> r.owner.None? && r.mutation.None? && ControlFree(r, wanted)
    {
      var asked := AfterRequest(r, wanted).value;
      OperatorSettlesIff(asked, now);
      assert asked.requests != [] && Last(asked.requests) == wanted && asked.items == r.items;
      assert ControlFree(asked, wanted) <==> ControlFree(r, wanted);
    }
    if CanBeStopped(r) {
      assert Stops(r, MildestControl(r), now);
    }
  }

  /** For every unowned, unsettled row: no claim, requeue, resumption or adoption is possible in any kernel
      and no control an operator may ask for can be settled exactly when it is blocked in one of the
      named ways. Every other one can be sent on or stopped. */
  lemma BlockedIff(r: Row, now: int)
    requires RowOk(r) && r.queue != Claimed && r.queue != Settled
    ensures Blocked(r) <==>
              && (forall k: Kernel, c: Change :: ReEntry(c) ==> Next(k, r, c).None?)
              && (forall wanted: Control :: !Stops(r, wanted, now))
  {
    ReEntryIff(r);
    StopsIff(r, now);
  }

  /** A Task that is claimed is held by its owner unless an ordinary Worker may take it. */
  lemma ClaimedIsHeldOrReclaimable(r: Row)
    requires RowOk(r) && r.queue == Claimed
    ensures (exists f: Fence :: Held(r, f)) <==> !(exists w: Registration, now: int :: Claimable(r, w, now))
  {
    ReclaimableIff(r);
    assert r.owner.Some? && Owns(r, Fence(r.owner.value, r.generation));
    if !(r.status == Pending && r.mutation.None?) {
      assert Held(r, Fence(r.owner.value, r.generation));
    }
  }

  /* ---- a cancel that never takes effect ---- */

  /** Waiting, cancelled, and with a source sent back for another attempt whose earlier attempt has a Result. */
  predicate CancelledRetry(r: Row, i: string) {
    && r.queue == WaitingHuman && r.control == Some(Cancel)
    && i in r.items && r.items[i].status == ItemPending && !r.items[i].superseded && Recorded(r, i)
  }

  lemma CancelledRetryStep(k: Kernel, r: Row, c: Change, i: string)
    requires RowOk(r) && CancelledRetry(r, i) && Next(k, r, c).Some? && !Overwrites(c, i)
    ensures CancelledRetry(Next(k, r, c).value, i) && !c.Acknowledge?
  {
    CancelStep(k, r, c);
    if SideWrite(c) {
      SideWriteFrame(r, c);
    } else if Publication(c) {
      PublicationFrame(k, r, c);
    } else if c.Acknowledge? {
      AcknowledgeRefused(r, c, i);
    }
  }

  /** Whatever its caller had read: the source is machine work, and its recorded outcome is protected. */
  lemma AcknowledgeRefused(r: Row, c: Change, i: string)
    requires RowOk(r) && CancelledRetry(r, i) && c.Acknowledge?
    ensures AfterAcknowledge(r, c).None?
  {
    if c.revision == |r.requests| && c.revision > 0 {
      var overlay := ControlOverlay(Cancel, c.seen);
      if i in overlay {
        assert overlay[i].status == ItemCancelled;
      }
    }
  }

  /** The accepted cancel of such a Task is never settled, and the Task never goes on: over every run
      without a projection or a reconciliation of that source it waits for ever, blocked. */
  lemma {:induction false} CancelledRetryWaitsForEver(k: Kernel, ops: seq<Op>, t: string, i: string)
    requires KernelOk(k) && t in k.rows && CancelledRetry(k.rows[t], i)
    requires forall n | 0 <= n < |ops| && ops[n].OnTask? && ops[n].task == t :: !Overwrites(ops[n].change, i)
    ensures t in Run(k, ops).rows && CancelledRetry(Run(k, ops).rows[t], i) && Blocked(Run(k, ops).rows[t])
    decreases |ops|
  {
    if ops == [] {
    } else {
      if ops[0].OnTask? && ops[0].task == t && Next(k, k.rows[t], ops[0].change).Some? {
        CancelledRetryStep(k, k.rows[t], ops[0].change, i);
      }
      ApplyKeepsKernel(k, ops[0]);
      CancelledRetryWaitsForEver(Apply(k, ops[0]), ops[1..], t, i);
    }
  }

  const FAILED_EVIDENCE := Evidence(NoEffect, false, false, false)
  const OWNED := Fence(Owner("w", "token"), 1)

  function Failing(r: Row): Row {
    r.(queue := Claimed, generation := 1, owner := Some(Owner("w", "token")), expires := Some(900), status := Running,
       started := Some(1), items := map["i" := Item(ItemFailed, 1, false)], results := map["i" := History({1}, true)])
  }

  function Reviewed(r: Row): Row {
    Failing(r).(items := map["i" := Item(ItemFailed, 1, false), "j" := Item(WaitingMetadata, 1, false)])
  }

  function Parked(r: Row): Row {
    Reviewed(r).(queue := WaitingHuman, owner := None, expires := None)
  }

  function Retried(r: Row): Row {
    Parked(r).(items := map["i" := Item(ItemPending, 1, false), "j" := Item(WaitingMetadata, 1, false)])
  }

  function CancelAsked(r: Row): Row {
    Retried(r).(control := Some(Cancel), requests := [Cancel])
  }

  const DEFER := Defer(OWNED, 6, Running, map[], Some(1), true)

  function Beginning(r: Row): Row {
    AfterClaim(r, Claim("w", "token", 0, 900)).(status := Running, started := Some(1))
  }

  function FirstSource(r: Row): Row {
    Beginning(r).(items := map["i" := Item(Processing, 1, false)])
  }

  function Another(r: Row): Row {
    Failing(r).(items := map["i" := Item(ItemFailed, 1, false), "j" := Item(Processing, 1, false)])
  }

  lemma FailIt(r: Row, w: Registration)
    requires r == AdmittedRow(r.admission, None) && w == Registration(true, 0, 900, {r.admission.command}, None)
    ensures var a := AfterClaim(r, Claim("w", "token", 0, 900));
            && Next(Single(r, w), r, Claim("w", "token", 0, 900)) == Some(a)
            && Next(Single(a, w), a, Begin(OWNED, 1)) == Some(Beginning(r))
            && Next(Single(Beginning(r), w), Beginning(r), Start(OWNED, 2, "i", 1, false)) == Some(FirstSource(r))
            && Next(Single(FirstSource(r), w), FirstSource(r), Outcome(OWNED, 3, "i", 1, ItemFailed, FAILED_EVIDENCE)) == Some(Failing(r))
  {
    assert FirstSource(r).items["i" := Item(ItemFailed, 1, false)] == map["i" := Item(ItemFailed, 1, false)];
    assert {} + {1} == {1};
  }

  lemma ReviewIt(r: Row, w: Registration)
    requires r == AdmittedRow(r.admission, None)
    ensures Next(Single(Failing(r), w), Failing(r), Start(OWNED, 4, "j", 1, false)) == Some(Another(r))
    ensures Next(Single(Another(r), w), Another(r), Review("j", WaitingMetadata)) == Some(Reviewed(r))
  {
    assert Failing(r).items["j" := Item(Processing, 1, false)] == Another(r).items;
    assert Another(r).items["j" := Item(WaitingMetadata, 1, false)] == Reviewed(r).items;
  }

  lemma ParkIt(r: Row, w: Registration)
    requires r == AdmittedRow(r.admission, None)
    ensures Next(Single(Reviewed(r), w), Reviewed(r), DEFER) == Some(Parked(r))
  {
    var q := Reviewed(r);
    assert Overlaid(q.items, map[]) == q.items;
    assert QuietUnder(q.items, map[]);
    assert MayRelease(q, OWNED, 6, map[]);
    assert AfterDefer(q, DEFER) == Some(Released(q, map[], Running, Some(1), WaitingHuman));
  }

  lemma RetryIt(r: Row, w: Registration)
    requires r == AdmittedRow(r.admission, None)
    ensures Next(Single(Parked(r), w), Parked(r), Retry("i")) == Some(Retried(r))
  {
    assert Parked(r).items["i" := Item(ItemPending, 1, false)] == Retried(r).items;
  }

  lemma CancelIt(r: Row, w: Registration)
    requires r == AdmittedRow(r.admission, None)
    ensures Next(Single(Retried(r), w), Retried(r), Request(Cancel)) == Some(CancelAsked(r))
  {
    assert [] + [Cancel] == [Cancel];
  }

  lemma RunToReviewed(r: Row, w: Registration, rest: seq<Op>)
    requires r == AdmittedRow(r.admission, None) && w == Registration(true, 0, 900, {r.admission.command}, None)
    ensures Run(Single(r, w), [OnTask("t", Claim("w", "token", 0, 900))] + ([OnTask("t", Begin(OWNED, 1))]
              + ([OnTask("t", Start(OWNED, 2, "i", 1, false))] + ([OnTask("t", Outcome(OWNED, 3, "i", 1, ItemFailed, FAILED_EVIDENCE))]
              + ([OnTask("t", Start(OWNED, 4, "j", 1, false))] + ([OnTask("t", Review("j", WaitingMetadata))] + rest))))))
            == Run(Single(Reviewed(r), w), rest)
  {
    FailIt(r, w);
    ReviewIt(r, w);
    var a := AfterClaim(r, Claim("w", "token", 0, 900));
    var s6 := [OnTask("t", Review("j", WaitingMetadata))] + rest;
    var s5 := [OnTask("t", Start(OWNED, 4, "j", 1, false))] + s6;
    var s4 := [OnTask("t", Outcome(OWNED, 3, "i", 1, ItemFailed, FAILED_EVIDENCE))] + s5;
    var s3 := [OnTask("t", Start(OWNED, 2, "i", 1, false))] + s4;
    SingleStep(r, w, Claim("w", "token", 0, 900), a, [OnTask("t", Begin(OWNED, 1))] + s3);
    SingleStep(a, w, Begin(OWNED, 1), Beginning(r), s3);
    SingleStep(Beginning(r), w, Start(OWNED, 2, "i", 1, false), FirstSource(r), s4);
    SingleStep(FirstSource(r), w, Outcome(OWNED, 3, "i", 1, ItemFailed, FAILED_EVIDENCE), Failing(r), s5);
    SingleStep(Failing(r), w, Start(OWNED, 4, "j", 1, false), Another(r), s6);
    SingleStep(Another(r), w, Review("j", WaitingMetadata), Reviewed(r), rest);
  }

  lemma CancelAskedIsStuck(r: Row)
    requires r == AdmittedRow(r.admission, None)
    ensures CancelledRetry(CancelAsked(r), "i") && !Tidy(CancelAsked(r))
  {
    assert MachineWork(CancelAsked(r).items["i"].status);
  }

  /** The run that makes one: a source fails without effect and its Result is recorded, a second source
      waits for review, the Task is deferred, the operator sends the failed source back and then
      cancels the Task. */
  lemma CancelledRetryIsReachable(r: Row, w: Registration)
    requires r == AdmittedRow(r.admission, None) && w == Registration(true, 0, 900, {r.admission.command}, None)
    ensures Run(Single(r, w), [OnTask("t", Claim("w", "token", 0, 900))] + ([OnTask("t", Begin(OWNED, 1))]
              + ([OnTask("t", Start(OWNED, 2, "i", 1, false))] + ([OnTask("t", Outcome(OWNED, 3, "i", 1, ItemFailed, FAILED_EVIDENCE))]
              + ([OnTask("t", Start(OWNED, 4, "j", 1, false))] + ([OnTask("t", Review("j", WaitingMetadata))]
              + ([OnTask("t", DEFER)] + ([OnTask("t", Retry("i"))] + ([OnTask("t", Request(Cancel))] + [])))))))))
            == Single(CancelAsked(r), w)
    ensures CancelledRetry(CancelAsked(r), "i") && !Tidy(CancelAsked(r))
  {
    CancelAskedIsStuck(r);
    ParkIt(r, w);
    RetryIt(r, w);
    CancelIt(r, w);
    var s9: seq<Op> := [OnTask("t", Request(Cancel))] + [];
    var s8 := [OnTask("t", Retry("i"))] + s9;
    RunToReviewed(r, w, [OnTask("t", DEFER)] + s8);
    SingleStep(Reviewed(r), w, DEFER, Parked(r), s8);
    SingleStep(Parked(r), w, Retry("i"), Retried(r), s9);
    SingleStep(Retried(r), w, Request(Cancel), CancelAsked(r), []);
  }

  /* ---- a queued Task that no Worker takes ---- */

  predicate Misqueued(r: Row) {
    r.queue == Queued && r.status != Pending
  }

  lemma MisqueuedStep(k: Kernel, r: Row, c: Change)
    requires RowOk(r) && Misqueued(r) && Next(k, r, c).Some? && !c.Acknowledge? && !c.HandOff?
    ensures Misqueued(Next(k, r, c).value) && !c.Claim?
  {
    if Publication(c) {
      PublicationFrame(k, r, c);
    } else if SideWrite(c) {
      SideWriteFrame(r, c);
      if c.Reconcile? {
        SideWriteStatus(r, c);
      }
    }
  }

  lemma SideWriteStatus(r: Row, c: Change)
    requires c.Reconcile? && AfterSideWrite(r, c).Some?
    ensures AfterSideWrite(r, c).value.status == c.flow && c.flow in {Running, Completed}
    ensures AfterSideWrite(r, c).value.queue == r.queue
  {
  }

  /** An admitted execution whose Task is queued again can be reconciled. From then on no Worker claims the
      Task, whatever it registers for and however long it waits, and the Task keeps its slot, until an
      operator's control is settled on it or one of its sources is handed over. */
  lemma {:induction false} MisqueuedKeepsSlot(k: Kernel, ops: seq<Op>, t: string, c: Change)
    requires KernelOk(k) && t in k.rows && Misqueued(k.rows[t])
    requires forall i | 0 <= i < |ops| && ops[i].OnTask? && ops[i].task == t :: !ops[i].change.Acknowledge? && !ops[i].change.HandOff?
    ensures t in Run(k, ops).rows && Misqueued(Run(k, ops).rows[t]) && t in Slots(Run(k, ops))
    ensures ReEntry(c) ==> Attempt(Run(k, ops), OnTask(t, c)).None?
    decreases |ops|
  {
    if ops == [] {
      ReEntryIff(k.rows[t]);
    } else {
      if ops[0].OnTask? && ops[0].task == t && Next(k, k.rows[t], ops[0].change).Some? {
        MisqueuedStep(k, k.rows[t], ops[0].change);
      }
      ApplyKeepsKernel(k, ops[0]);
      MisqueuedKeepsSlot(Apply(k, ops[0]), ops[1..], t, c);
    }
  }

  const PLAN := Plan(OWNED, 2, {}, map["i" := WaitingConfirm])
  const WAIT := Defer(OWNED, 3, Running, map[], Some(1), false)
  const CLOSE := Reconcile(map["i" := Closing(ItemFailed, 0, FAILED_EVIDENCE)], Completed, Some(1))

  function Planned(r: Row): Row {
    Beginning(r).(items := map["i" := Item(WaitingConfirm, 0, false)])
  }

  function Confirmable(r: Row): Row {
    Planned(r).(queue := WaitingHuman, owner := None, expires := None)
  }

  function Adopted(r: Row): Row {
    Confirmable(r).(admission := r.admission.(authorized := true), status := Pending, queue := Queued,
                    generation := 2, items := map["i" := Item(ItemPending, 0, false)])
  }

  function Reconciled(r: Row): Row {
    Adopted(r).(status := Completed, items := map["i" := Item(ItemFailed, 0, false)], results := map["i" := History({}, true)])
  }

  lemma PlanIt(r: Row, w: Registration)
    requires r == AdmittedRow(r.admission, None) && w == Registration(true, 0, 900, {r.admission.command}, None)
    ensures var a := AfterClaim(r, Claim("w", "token", 0, 900));
            && Next(Single(r, w), r, Claim("w", "token", 0, 900)) == Some(a)
            && Next(Single(a, w), a, Begin(OWNED, 1)) == Some(Beginning(r))
            && Next(Single(Beginning(r), w), Beginning(r), PLAN) == Some(Planned(r))
  {
    var a := Beginning(r);
    assert PLAN.added.Keys == {"i"} && a.items.Keys + {"i"} == {"i"};
    assert "i" in PLAN.added && PLAN.added["i"] == WaitingConfirm;
    assert AfterPlan(a, PLAN).value.items == Planned(r).items;
  }

  lemma DeferPlan(r: Row, w: Registration)
    requires r == AdmittedRow(r.admission, None)
    ensures Next(Single(Planned(r), w), Planned(r), WAIT) == Some(Confirmable(r))
  {
    var q := Planned(r);
    assert Overlaid(q.items, map[]) == q.items;
    assert MayRelease(q, OWNED, 3, map[]);
    assert AfterDefer(q, WAIT) == Some(Released(q, map[], Running, Some(1), WaitingHuman));
  }

  lemma AdoptRow(r: Row)
    requires r == AdmittedRow(r.admission, None)
    ensures AfterAdopt(Confirmable(r), Adopt(r.admission.pin, 4, 1, {"i"}, {}, {}), true) == Some(Adopted(r))
  {
    var none: set<string> := {};
    assert "i" in {"i"} + none;
    assert AdoptedItems(Confirmable(r).items, {"i"}, {}, {}) == Adopted(r).items;
  }

  lemma AdoptPlan(r: Row, w: Registration)
    requires r == AdmittedRow(r.admission, None)
    ensures Next(Single(Confirmable(r), w), Confirmable(r), Adopt(r.admission.pin, 4, 1, {"i"}, {}, {})) == Some(Adopted(r))
  {
    AdoptRow(r);
    NoSlotUsed(Confirmable(r), w);
    AdoptionIsNext(Single(Confirmable(r), w), Confirmable(r), Adopt(r.admission.pin, 4, 1, {"i"}, {}, {}));
  }

  lemma NoSlotUsed(r: Row, w: Registration)
    requires !HoldsSlot(r.queue)
    ensures Used(Single(r, w)) == 0
  {
    assert Slots(Single(r, w)) == {};
  }

  lemma AdoptionIsNext(k: Kernel, r: Row, c: Change)
    requires c.Adopt? && Used(k) < c.capacity
    ensures Next(k, r, c) == AfterAdopt(r, c, true)
  {
  }

  lemma ReconcilePlan(r: Row, w: Registration)
    requires r == AdmittedRow(r.admission, None)
    ensures Next(Single(Adopted(r), w), Adopted(r), CLOSE) == Some(Reconciled(r))
  {
    assert "i" in CLOSE.closings;
    assert AfterReconcile(Adopted(r), CLOSE).value.items == Reconciled(r).items;
    assert AfterReconcile(Adopted(r), CLOSE).value.results == Reconciled(r).results;
  }

  /** The run that makes one: begun, analysed, deferred to the operator, confirmed, and reconciled before any
      Worker took it. Its source has failed, so no control would rewrite anything: a control can still
      be settled, and nothing else can move it. */
  lemma MisqueuedIsReachable(r: Row, w: Registration)
    requires r == AdmittedRow(r.admission, None) && w == Registration(true, 0, 900, {r.admission.command}, None)
    ensures Run(Single(r, w), [OnTask("t", Claim("w", "token", 0, 900))] + ([OnTask("t", Begin(OWNED, 1))] + ([OnTask("t", PLAN)]
              + ([OnTask("t", WAIT)] + ([OnTask("t", Adopt(r.admission.pin, 4, 1, {"i"}, {}, {}))] + ([OnTask("t", CLOSE)] + []))))))
            == Single(Reconciled(r), w)
    ensures Misqueued(Reconciled(r)) && AllFinished(Reconciled(r).items) && CanBeStopped(Reconciled(r))
  {
    PlanIt(r, w);
    DeferPlan(r, w);
    AdoptPlan(r, w);
    ReconcilePlan(r, w);
    var s5: seq<Op> := [OnTask("t", CLOSE)] + [];
    var s4 := [OnTask("t", Adopt(r.admission.pin, 4, 1, {"i"}, {}, {}))] + s5;
    var s3 := [OnTask("t", WAIT)] + s4;
    var s2 := [OnTask("t", PLAN)] + s3;
    var a := AfterClaim(r, Claim("w", "token", 0, 900));
    SingleStep(r, w, Claim("w", "token", 0, 900), a, [OnTask("t", Begin(OWNED, 1))] + s2);
    SingleStep(a, w, Begin(OWNED, 1), Beginning(r), s2);
    SingleStep(Beginning(r), w, PLAN, Planned(r), s3);
    SingleStep(Planned(r), w, WAIT, Confirmable(r), s4);
    SingleStep(Confirmable(r), w, Adopt(r.admission.pin, 4, 1, {"i"}, {}, {}), Adopted(r), s5);
    SingleStep(Adopted(r), w, CLOSE, Reconciled(r), []);
  }
}
