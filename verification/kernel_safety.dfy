/** What every transaction of the kernel keeps, and what therefore holds over every interleaving. */
module KernelSafety {
  import opened Options
  import opened TaskKernel

  /* ---- the row invariant ---- */

  function Last(requests: seq<Control>): Control
    requires requests != []
  {
    requests[|requests| - 1]
  }

  /** The scheduling columns agree with each other. Nothing here speaks of the sources, which unfenced
      writers may change at any time, or of the flow status, which a reconciliation rewrites. */
  ghost predicate RowOk(r: Row) {
    && (r.queue == Claimed ==> r.owner.Some? && r.expires.Some? && r.generation > 0)
    && (r.queue != Claimed ==> r.expires.None?)
    && (!HoldsSlot(r.queue) ==> r.owner.None?)
    && (r.queue == Suspended ==> r.mutation.None?)
    && (r.control.Some? ==> r.requests != [] && Last(r.requests) == r.control.value)
    && (r.requests != [] && Last(r.requests) == Cancel ==> r.control == Some(Cancel))
  }

  ghost predicate KernelOk(k: Kernel) {
    forall t | t in k.rows :: RowOk(k.rows[t])
  }

  predicate Releases(c: Change) {
    c.Acknowledge? || c.Settle? || c.Defer?
  }

  lemma ReleaseKeepsRow(r: Row, c: Change)
    requires RowOk(r)
    ensures c.Acknowledge? && AfterAcknowledge(r, c).Some? ==> RowOk(AfterAcknowledge(r, c).value)
    ensures c.Settle? && AfterSettle(r, c).Some? ==> RowOk(AfterSettle(r, c).value)
    ensures c.Defer? && AfterDefer(r, c).Some? ==> RowOk(AfterDefer(r, c).value)
  {
  }

  /** What a side write may change: the sources, their Results, and the aggregate; only ignoring the
      last unfinished source of a waiting Task also settles it. */
  lemma SideWriteFrame(r: Row, c: Change)
    requires SideWrite(c) && AfterSideWrite(r, c).Some?
    ensures var next := AfterSideWrite(r, c).value;
            && next.admission == r.admission && next.generation == r.generation && next.requests == r.requests
            && next.control == r.control && next.mutation == r.mutation && next.eligible == r.eligible && next.owner == r.owner
            && (next.queue == r.queue || (r.queue == WaitingHuman && next.queue == Settled && c.Ignore?))
            && (next.expires == r.expires || next.queue != r.queue)
            && (next.status == r.status || c.Reconcile? || next.queue != r.queue)
            && (next.started == r.started || c.Reconcile?)
            && (next.queue != r.queue ==> next.status == Completed && next.expires.None?)
  {
  }

  /** What the claim owner writes between its claim and its release. */
  predicate Publication(c: Change) {
    c.Publish? || c.Start? || c.Progress? || c.Outcome? || c.Complete? || c.Mutate? || c.Plan?
  }

  lemma PublicationFrame(k: Kernel, r: Row, c: Change)
    requires Publication(c) && Next(k, r, c).Some?
    ensures var next := Next(k, r, c).value;
            && r.queue == next.queue == Claimed && next.admission == r.admission && next.generation == r.generation
            && next.requests == r.requests && next.control == r.control && next.eligible == r.eligible
            && next.owner == r.owner && next.expires == r.expires && r.owner == Some(FenceOf(c).value.owner)
            && r.generation == FenceOf(c).value.generation
  {
  }

  lemma OtherKeepsRow(k: Kernel, r: Row, c: Change)
    requires RowOk(r) && !Releases(c) && !SideWrite(c) && Next(k, r, c).Some?
    ensures RowOk(Next(k, r, c).value)
  {
    if Publication(c) {
      PublicationFrame(k, r, c);
    } else if c.Request? {
      assert Next(k, r, c).value.requests in {r.requests, r.requests + [c.wanted]};
    }
  }

  /** No transaction leaves a row outside the invariant. */
  lemma NextKeepsRow(k: Kernel, r: Row, c: Change)
    requires RowOk(r) && Next(k, r, c).Some?
    ensures RowOk(Next(k, r, c).value)
  {
    if Releases(c) {
      ReleaseKeepsRow(r, c);
    } else if SideWrite(c) {
      SideWriteFrame(r, c);
    } else {
      OtherKeepsRow(k, r, c);
    }
  }

  lemma ApplyKeepsKernel(k: Kernel, op: Op)
    requires KernelOk(k)
    ensures KernelOk(Apply(k, op))
  {
    if op.OnTask? && op.task in k.rows && Next(k, k.rows[op.task], op.change).Some? {
      NextKeepsRow(k, k.rows[op.task], op.change);
    }
  }

  /** Every kernel reached by any interleaving of any processes satisfies the row invariant. */
  lemma {:induction false} RunKeepsKernel(k: Kernel, ops: seq<Op>)
    requires KernelOk(k)
    ensures KernelOk(Run(k, ops))
    decreases |ops|
  {
    if ops == [] {
    } else {
      ApplyKeepsKernel(k, ops[0]);
      RunKeepsKernel(Apply(k, ops[0]), ops[1..]);
    }
  }

  /* ---- machine work and slots ---- */

  /** A Task without a slot has no machine work, and a source handed to a newer Task keeps its outcome. */
  ghost predicate Tidy(r: Row) {
    && (!HoldsSlot(r.queue) ==> !HasMachineWork(r.items))
    && forall i | i in r.items && r.items[i].superseded :: r.items[i].status in {ItemFailed, Partial}
  }

  /** The steps that leave that: an operator's decision or retry, or a projection to machine work, on a
      Task without a slot; a retry or another projection of a source that was handed over. */
  predicate Untidies(r: Row, c: Change) {
    match c
    case Decide(i, skip) => !skip && !HoldsSlot(r.queue)
    case Retry(i) => i in r.items && (!HoldsSlot(r.queue) || r.items[i].superseded)
    case Project(i, _, to) =>
      (MachineWork(to) && !HoldsSlot(r.queue)) || (i in r.items && r.items[i].superseded && to !in {ItemFailed, Partial})
    case _ => false
  }

  lemma OverlayKeepsTidy(items: map<string, Item>, overlay: map<string, Frame>)
    requires QuietUnder(items, overlay)
    requires forall i | i in items && items[i].superseded :: items[i].status in {ItemFailed, Partial}
    ensures !HasMachineWork(Overlaid(items, overlay))
    ensures forall i | i in items && items[i].superseded :: Overlaid(items, overlay)[i] == items[i]
  {
    var after := Overlaid(items, overlay);
    forall i | i in after
      ensures !MachineWork(after[i].status)
    {
      assert i in items;
    }
  }

  lemma ReleaseKeepsTidy(r: Row, c: Change)
    requires Tidy(r)
    ensures c.Acknowledge? && AfterAcknowledge(r, c).Some? ==> Tidy(AfterAcknowledge(r, c).value)
    ensures c.Settle? && AfterSettle(r, c).Some? ==> Tidy(AfterSettle(r, c).value)
    ensures c.Defer? && AfterDefer(r, c).Some? ==> Tidy(AfterDefer(r, c).value)
  {
    if c.Acknowledge? && AfterAcknowledge(r, c).Some? {
      OverlayKeepsTidy(r.items, ControlOverlay(r.requests[c.revision - 1], c.seen));
    } else if c.Settle? && AfterSettle(r, c).Some? {
      OverlayKeepsTidy(r.items, c.overlay);
    } else if c.Defer? && AfterDefer(r, c).Some? {
      OverlayKeepsTidy(r.items, c.overlay);
    }
  }

  /** A write of one source of a Task whose slot does not change. */
  lemma OneSourceTidy(r: Row, next: Row, i: string)
    requires Tidy(r) && next.queue == r.queue && i in next.items
    requires next.items == r.items[i := next.items[i]]
    ensures Tidy(next) <==>
              && (!HoldsSlot(r.queue) ==> !MachineWork(next.items[i].status))
              && (next.items[i].superseded ==> next.items[i].status in {ItemFailed, Partial})
  {
    forall j | j in next.items && j != i ensures j in r.items && next.items[j] == r.items[j] {
    }
    if HoldsSlot(r.queue) || !MachineWork(next.items[i].status) {
      forall j | j in next.items ensures HoldsSlot(r.queue) || !MachineWork(next.items[j].status) {
        assert j == i || next.items[j] == r.items[j];
      }
    }
  }

  lemma SideWriteTidyIff(r: Row, c: Change)
    requires Tidy(r) && SideWrite(c) && AfterSideWrite(r, c).Some?
    ensures Tidy(AfterSideWrite(r, c).value) <==> !Untidies(r, c)
  {
    var next := AfterSideWrite(r, c).value;
    if c.Reconcile? {
      forall i | i in next.items
        ensures MachineWork(next.items[i].status) ==> MachineWork(r.items[i].status)
        ensures next.items[i].superseded ==> next.items[i].status in {ItemFailed, Partial}
      {
      }
    } else if c.Ignore? {
      var q := WithStatus(r, c.item, Ignored);
      OneSourceTidy(r, q, c.item);
      assert next.items == q.items;
    } else {
      OneSourceTidy(r, next, c.item);
    }
  }

  lemma SourceKeepsTidy(k: Kernel, r: Row, c: Change)
    requires Tidy(r) && (c.Start? || c.Progress? || c.Outcome? || c.Complete? || c.HandOff?) && Next(k, r, c).Some?
    ensures Tidy(Next(k, r, c).value)
  {
    var next := Next(k, r, c).value;
    if c.HandOff? {
      forall j | j in next.items ensures MachineWork(next.items[j].status) ==> MachineWork(r.items[j].status) {
      }
    } else {
      OneSourceTidy(r, next, c.item);
    }
  }

  lemma OtherKeepsTidy(k: Kernel, r: Row, c: Change)
    requires Tidy(r) && !Releases(c) && !SideWrite(c) && Next(k, r, c).Some?
    ensures Tidy(Next(k, r, c).value)
  {
    if c.Start? || c.Progress? || c.Outcome? || c.Complete? || c.HandOff? {
      SourceKeepsTidy(k, r, c);
    } else if !c.Plan? && !c.Adopt? {
      KeepsSources(k, r, c);
    }
  }

  lemma KeepsSources(k: Kernel, r: Row, c: Change)
    requires !Releases(c) && !SideWrite(c) && Next(k, r, c).Some?
    requires !c.Start? && !c.Progress? && !c.Outcome? && !c.Complete? && !c.HandOff? && !c.Plan? && !c.Adopt?
    ensures Next(k, r, c).value.items == r.items && Next(k, r, c).value.results == r.results
    ensures Next(k, r, c).value.admission == r.admission
    ensures HoldsSlot(r.queue) ==> HoldsSlot(Next(k, r, c).value.queue)
  {
  }

  /** One step keeps a Task tidy exactly when it is none of those. */
  lemma TidyIff(k: Kernel, r: Row, c: Change)
    requires Tidy(r) && Next(k, r, c).Some?
    ensures Tidy(Next(k, r, c).value) <==> !Untidies(r, c)
  {
    if Releases(c) {
      ReleaseKeepsTidy(r, c);
    } else if SideWrite(c) {
      SideWriteTidyIff(r, c);
    } else {
      OtherKeepsTidy(k, r, c);
    }
  }

  /** So in every run without an operator's decision or retry and without a projection of this Task, a
      released slot means that no machine work is left. */
  lemma {:induction false} RunKeepsTidy(k: Kernel, ops: seq<Op>, t: string)
    requires t in k.rows && Tidy(k.rows[t])
    requires forall i | 0 <= i < |ops| && ops[i].OnTask? && ops[i].task == t ::
               !ops[i].change.Decide? && !ops[i].change.Retry? && !ops[i].change.Project?
    ensures t in Run(k, ops).rows && Tidy(Run(k, ops).rows[t])
    decreases |ops|
  {
    if ops == [] {
    } else {
      if ops[0].OnTask? && ops[0].task == t && Next(k, k.rows[t], ops[0].change).Some? {
        TidyIff(k, k.rows[t], ops[0].change);
      }
      RunKeepsTidy(Apply(k, ops[0]), ops[1..], t);
    }
  }

  /* ---- the flow status and the queue ---- */

  /** The flow status agrees with the queue. */
  ghost predicate StatusOk(r: Row) {
    && (r.queue == Queued ==> r.status == Pending)
    && (r.queue == Suspended ==> r.status == Running)
    && (r.queue == Settled ==> r.status in {Completed, Failed, Cancelled})
    && (r.queue == Settled && r.control == Some(Cancel) ==> r.status == Cancelled)
  }

  /** Reconciling an interrupted execution writes the status without looking at the queue. */
  predicate Misstates(r: Row, c: Change) {
    c.Reconcile? && (r.queue == Queued || (r.queue == Suspended && c.flow != Running)
                     || (r.queue == Settled && (c.flow == Running || r.control == Some(Cancel))))
  }

  lemma SideWriteStatusIff(r: Row, c: Change)
    requires RowOk(r) && StatusOk(r) && SideWrite(c) && AfterSideWrite(r, c).Some?
    ensures StatusOk(AfterSideWrite(r, c).value) <==> !Misstates(r, c)
  {
    SideWriteFrame(r, c);
    if c.Reconcile? {
      assert AfterSideWrite(r, c).value.status == c.flow;
    }
  }

  lemma StatusIff(k: Kernel, r: Row, c: Change)
    requires RowOk(r) && StatusOk(r) && Next(k, r, c).Some?
    ensures StatusOk(Next(k, r, c).value) <==> !Misstates(r, c)
  {
    if Publication(c) {
      PublicationFrame(k, r, c);
    } else if SideWrite(c) {
      SideWriteStatusIff(r, c);
    } else if Releases(c) {
      ReleaseStatus(r, c);
    }
  }

  lemma ReleaseStatus(r: Row, c: Change)
    requires RowOk(r)
    ensures c.Acknowledge? && AfterAcknowledge(r, c).Some? ==> StatusOk(AfterAcknowledge(r, c).value)
    ensures c.Settle? && AfterSettle(r, c).Some? ==> StatusOk(AfterSettle(r, c).value)
    ensures c.Defer? && AfterDefer(r, c).Some? ==> StatusOk(AfterDefer(r, c).value)
  {
  }

  lemma {:induction false} RunKeepsStatus(k: Kernel, ops: seq<Op>, t: string)
    requires KernelOk(k) && t in k.rows && StatusOk(k.rows[t])
    requires forall i | 0 <= i < |ops| && ops[i].OnTask? && ops[i].task == t :: !ops[i].change.Reconcile?
    ensures t in Run(k, ops).rows && StatusOk(Run(k, ops).rows[t])
    decreases |ops|
  {
    if ops == [] {
    } else {
      if ops[0].OnTask? && ops[0].task == t && Next(k, k.rows[t], ops[0].change).Some? {
        StatusIff(k, k.rows[t], ops[0].change);
      }
      ApplyKeepsKernel(k, ops[0]);
      RunKeepsStatus(Apply(k, ops[0]), ops[1..], t);
    }
  }

  /* ---- the in-flight marker ---- */

  /** Only an owned Task has an effect in flight. */
  predicate Unmarked(r: Row) {
    r.queue != Claimed ==> r.mutation.None?
  }

  /** Handing over the last source of an owner while another source's effect is in flight. */
  predicate LeavesMarker(r: Row, c: Change) {
    c.HandOff? && r.queue == Claimed && r.mutation.Some? && AfterHandOff(r, c.item).Some?
    && AfterHandOff(r, c.item).value.queue != Claimed && r.mutation != Some(c.item)
  }

  /** The marker outlives its owner through such a hand-off and in no other way; an adoption may then
      queue the marked Task, which no Worker can claim. */
  lemma MarkerIff(k: Kernel, r: Row, c: Change)
    requires RowOk(r) && Unmarked(r) && Next(k, r, c).Some?
    ensures Unmarked(Next(k, r, c).value) <==> !LeavesMarker(r, c)
  {
    if Publication(c) {
      PublicationFrame(k, r, c);
    } else if SideWrite(c) {
      SideWriteFrame(r, c);
    }
  }

  /* ---- history: what no transaction ever takes back ---- */

  /** later may follow r in time. */
  ghost predicate RowLater(r: Row, later: Row) {
    && later.admission.command == r.admission.command && later.admission.pin == r.admission.pin
    && later.admission.created == r.admission.created
    && (r.admission.authorized ==> later.admission.authorized)
    && r.generation <= later.generation
    && r.requests <= later.requests
    && forall i :: HistoryLater(ResultsOf(r, i), ResultsOf(later, i))
  }

  predicate HistoryLater(h: History, later: History) {
    h.recorded <= later.recorded && (later.free ==> h.free)
  }

  lemma ResultsGrow(k: Kernel, r: Row, c: Change)
    requires Next(k, r, c).Some?
    ensures forall i :: HistoryLater(ResultsOf(r, i), ResultsOf(Next(k, r, c).value, i))
  {
    var next := Next(k, r, c).value;
    if c.Outcome? || c.Complete? {
      forall i ensures HistoryLater(ResultsOf(r, i), ResultsOf(next, i)) {
        assert i != c.item ==> ResultsOf(next, i) == ResultsOf(r, i);
      }
    } else if c.Reconcile? {
      forall i ensures HistoryLater(ResultsOf(r, i), ResultsOf(next, i)) {
      }
    } else {
      ResultsStay(k, r, c);
    }
  }

  lemma ResultsStay(k: Kernel, r: Row, c: Change)
    requires Next(k, r, c).Some? && !c.Outcome? && !c.Complete? && !c.Reconcile?
    ensures Next(k, r, c).value.results == r.results
  {
    if Releases(c) {
      ReleaseKeepsResults(r, c);
    } else if SideWrite(c) {
      assert Next(k, r, c) == AfterSideWrite(r, c);
    } else if c.Publish? || c.Start? || c.Progress? || c.Mutate? {
      assert Next(k, r, c) == AfterPublication(r, c);
    }
  }

  lemma ReleaseKeepsResults(r: Row, c: Change)
    ensures c.Acknowledge? && AfterAcknowledge(r, c).Some? ==> AfterAcknowledge(r, c).value.results == r.results
    ensures c.Settle? && AfterSettle(r, c).Some? ==> AfterSettle(r, c).value.results == r.results
    ensures c.Defer? && AfterDefer(r, c).Some? ==> AfterDefer(r, c).value.results == r.results
  {
  }

  lemma AdmissionStays(k: Kernel, r: Row, c: Change)
    requires Next(k, r, c).Some?
    ensures Next(k, r, c).value.admission == if c.Adopt? then r.admission.(authorized := true) else r.admission
    ensures r.generation <= Next(k, r, c).value.generation && r.requests <= Next(k, r, c).value.requests
  {
    if Publication(c) {
      PublicationFrame(k, r, c);
    } else if SideWrite(c) {
      SideWriteFrame(r, c);
    }
  }

  lemma NextIsLater(k: Kernel, r: Row, c: Change)
    requires Next(k, r, c).Some?
    ensures RowLater(r, Next(k, r, c).value)
  {
    ResultsGrow(k, r, c);
    AdmissionStays(k, r, c);
  }

  /** An admitted Task is never lost: its row stays for every continuation, with the admitted command,
      time and pin, an authority that is only ever granted, every accepted control, every recorded
      attempt and every effect that was not proved empty. */
  lemma {:induction false} RunIsLater(k: Kernel, ops: seq<Op>, t: string)
    requires t in k.rows
    ensures t in Run(k, ops).rows && RowLater(k.rows[t], Run(k, ops).rows[t])
    decreases |ops|
  {
    if ops == [] {
    } else {
      var k1 := Apply(k, ops[0]);
      if ops[0].OnTask? && ops[0].task == t && Next(k, k.rows[t], ops[0].change).Some? {
        NextIsLater(k, k.rows[t], ops[0].change);
      }
      RunIsLater(k1, ops[1..], t);
      LaterIsTransitive(k.rows[t], k1.rows[t], Run(k, ops).rows[t]);
    }
  }

  lemma LaterIsTransitive(a: Row, b: Row, c: Row)
    requires RowLater(a, b) && RowLater(b, c)
    ensures RowLater(a, c)
  {
    forall i ensures HistoryLater(ResultsOf(a, i), ResultsOf(c, i)) {
      assert HistoryLater(ResultsOf(a, i), ResultsOf(b, i)) && HistoryLater(ResultsOf(b, i), ResultsOf(c, i));
    }
  }

  /** Whether the authority changed is decided by adoption alone. */
  lemma AuthorityIff(k: Kernel, r: Row, c: Change)
    requires Next(k, r, c).Some?
    ensures Next(k, r, c).value.admission != r.admission <==> c.Adopt? && !r.admission.authorized
  {
    AdmissionStays(k, r, c);
  }

  /* ---- one source ---- */

  /** A finished outcome is taken back by exactly these: a start or a retry of a failed source, a
      projection that had read another status, a reconciliation that writes another one. */
  predicate TakesBack(r: Row, c: Change, i: string)
    requires i in r.items
  {
    match c
    case Start(_, _, item, _, _) => item == i
    case Retry(item) => item == i
    case Project(item, _, to) => item == i && to != r.items[i].status
    case Reconcile(closings, _, _) => i in closings && closings[i].to != r.items[i].status
    case _ => false
  }

  predicate Outcomes(c: Change) {
    Releases(c) || SideWrite(c) || c.Start? || c.Progress? || c.Outcome? || c.Complete? || c.HandOff? || c.Plan? || c.Adopt?
  }

  lemma FinishedInSideWrite(r: Row, c: Change, i: string)
    requires i in r.items && Finished(r.items[i].status) && SideWrite(c) && AfterSideWrite(r, c).Some?
    ensures var next := AfterSideWrite(r, c).value;
            i in next.items && (next.items[i].status == r.items[i].status <==> !TakesBack(r, c, i))
  {
  }

  lemma FinishedInOther(k: Kernel, r: Row, c: Change, i: string)
    requires i in r.items && Finished(r.items[i].status) && !Releases(c) && !SideWrite(c) && Next(k, r, c).Some?
    ensures var next := Next(k, r, c).value;
            i in next.items && (next.items[i].status == r.items[i].status <==> !TakesBack(r, c, i))
  {
    if !Outcomes(c) {
      KeepsSources(k, r, c);
    }
  }

  /** For every transaction and every finished source: the source keeps its row and its outcome exactly
      when the transaction is none of those. */
  lemma FinishedIff(k: Kernel, r: Row, c: Change, i: string)
    requires i in r.items && Finished(r.items[i].status) && Next(k, r, c).Some?
    ensures var next := Next(k, r, c).value;
            (i in next.items && next.items[i].status == r.items[i].status) <==> !TakesBack(r, c, i)
  {
    if Releases(c) {
      FinishedInRelease(r, c, i);
    } else if SideWrite(c) {
      FinishedInSideWrite(r, c, i);
    } else {
      FinishedInOther(k, r, c, i);
    }
  }

  lemma FinishedInRelease(r: Row, c: Change, i: string)
    requires i in r.items && Finished(r.items[i].status)
    ensures c.Acknowledge? && AfterAcknowledge(r, c).Some? ==> AfterAcknowledge(r, c).value.items.Keys == r.items.Keys
                                                               && AfterAcknowledge(r, c).value.items[i].status == r.items[i].status
    ensures c.Settle? && AfterSettle(r, c).Some? ==> AfterSettle(r, c).value.items.Keys == r.items.Keys
                                                     && AfterSettle(r, c).value.items[i].status == r.items[i].status
    ensures c.Defer? && AfterDefer(r, c).Some? ==> AfterDefer(r, c).value.items.Keys == r.items.Keys
                                                   && AfterDefer(r, c).value.items[i].status == r.items[i].status
  {
  }

  /** A write of i that can change a finished outcome other than a failed one. */
  predicate Overwrites(c: Change, i: string) {
    (c.Project? && c.item == i) || (c.Reconcile? && i in c.closings)
  }

  /** A finished outcome other than a failed one is kept by every run without a stale projection and
      without a reconciliation of that source: no start, no retry, no adoption and no release takes it back. */
  lemma {:induction false} OutcomeIsKept(k: Kernel, ops: seq<Op>, t: string, i: string)
    requires t in k.rows && i in k.rows[t].items
    requires Finished(k.rows[t].items[i].status) && k.rows[t].items[i].status != ItemFailed
    requires forall n | 0 <= n < |ops| && ops[n].OnTask? && ops[n].task == t :: !Overwrites(ops[n].change, i)
    ensures t in Run(k, ops).rows && i in Run(k, ops).rows[t].items
    ensures Run(k, ops).rows[t].items[i].status == k.rows[t].items[i].status
    decreases |ops|
  {
    if ops == [] {
    } else {
      var c := ops[0];
      if c.OnTask? && c.task == t && Next(k, k.rows[t], c.change).Some? {
        FinishedIff(k, k.rows[t], c.change, i);
      }
      OutcomeIsKept(Apply(k, c), ops[1..], t, i);
    }
  }

  /** A source without a finished outcome loses its row by adoption alone, and the fresh row that takes
      its place has no Results: what the old identity did is not asked for. */
  lemma RowIsDeletedIff(k: Kernel, r: Row, c: Change, i: string)
    requires i in r.items && Next(k, r, c).Some?
    ensures i !in Next(k, r, c).value.items <==> c.Adopt? && i in c.retired
    ensures c.Adopt? ==> forall j | j in c.minted ::
              Next(k, r, c).value.items[j] == Item(ItemPending, 0, false) && ResultsOf(Next(k, r, c).value, j) == ResultsOf(r, j)
  {
    if !Outcomes(c) {
      KeepsSources(k, r, c);
    }
  }

  /* ---- fencing ---- */

  /** The fence carried by a guarded transaction. */
  function FenceOf(c: Change): Option<Fence> {
    match c
    case Heartbeat(f, _, _) => Some(f)
    case Begin(f, _) => Some(f)
    case Acknowledge(h, _, _, _, _, _, _) => h
    case Settle(f, _, _, _, _, _) => Some(f)
    case Defer(f, _, _, _, _, _) => Some(f)
    case Yield(f, _, _, _) => Some(f)
    case Publish(f, _, _, _) => Some(f)
    case Start(f, _, _, _, _) => Some(f)
    case Progress(f, _, _, _, _) => Some(f)
    case Outcome(f, _, _, _, _, _) => Some(f)
    case Complete(f, _, _, _, _, _, _, _) => Some(f)
    case Mutate(f, _, _) => Some(f)
    case Plan(f, _, _, _) => Some(f)
    case _ => None
  }

  /** The fence names an ownership that this row has already left behind. */
  predicate Stale(r: Row, f: Fence) {
    r.generation > f.generation || (r.generation == f.generation && !Owns(r, f))
  }

  lemma StaleStep(k: Kernel, r: Row, c: Change, f: Fence)
    requires Stale(r, f) && Next(k, r, c).Some?
    ensures Stale(Next(k, r, c).value, f)
  {
    if Publication(c) {
      PublicationFrame(k, r, c);
    } else if SideWrite(c) {
      SideWriteFrame(r, c);
    }
  }

  lemma StaleRefused(k: Kernel, r: Row, c: Change, f: Fence)
    requires Stale(r, f) && FenceOf(c) == Some(f)
    ensures Next(k, r, c).None?
  {
  }

  /** Once left behind, an ownership is never valid again, and nothing it guards ever commits:
      not an item, not a Result, not an aggregate, not a plan, not a release, not even a heartbeat.
      A review or a projection is not guarded: the previous owner can still write those. */
  lemma {:induction false} StaleFenceStaysStale(k: Kernel, ops: seq<Op>, t: string, f: Fence, c: Change)
    requires t in k.rows && Stale(k.rows[t], f)
    ensures t in Run(k, ops).rows && Stale(Run(k, ops).rows[t], f)
    ensures FenceOf(c) == Some(f) ==> Attempt(Run(k, ops), OnTask(t, c)).None?
    decreases |ops|
  {
    if ops == [] {
      if FenceOf(c) == Some(f) {
        StaleRefused(k, k.rows[t], c, f);
      }
    } else {
      if ops[0].OnTask? && ops[0].task == t && Next(k, k.rows[t], ops[0].change).Some? {
        StaleStep(k, k.rows[t], ops[0].change, f);
      }
      StaleFenceStaysStale(Apply(k, ops[0]), ops[1..], t, f, c);
    }
  }

  /** Every claim mints an ownership strictly newer than every ownership the row ever had, so a
      Task has at most one owner at any instant and a previous owner's fence is already stale. */
  lemma ClaimSupersedes(k: Kernel, t: string, c: Change, f: Fence)
    requires c.Claim? && t in k.rows && f.generation <= k.rows[t].generation
    requires Next(k, k.rows[t], c).Some?
    ensures var r := Next(k, k.rows[t], c).value;
            Owns(r, Fence(Owner(c.worker, c.token), r.generation)) && Stale(r, f)
  {
  }

  /* ---- capacity ---- */

  function CapacityOf(op: Op): nat {
    match op
    case Admit(_, _, _, capacity) => capacity
    case OnTask(_, Requeue(_, _, _, capacity)) => capacity
    case OnTask(_, Adopt(_, _, capacity, _, _, _)) => capacity
    case _ => 0
  }

  lemma SubsetSize(a: set<string>, b: set<string>)
    requires a <= b
    ensures |a| <= |b|
    decreases b
  {
    if !(b <= a) {
      var x :| x in b && x !in a;
      SubsetSize(a, b - {x});
    } else {
      assert a == b;
    }
  }

  lemma NewSlotOnlyByReentry(k: Kernel, r: Row, c: Change)
    requires Next(k, r, c).Some?
    ensures HoldsSlot(Next(k, r, c).value.queue) && !HoldsSlot(r.queue) ==> (c.Requeue? || c.Adopt?) && Used(k) < c.capacity
  {
    if Publication(c) {
      PublicationFrame(k, r, c);
    } else if SideWrite(c) {
      SideWriteFrame(r, c);
    }
  }

  lemma ChangedSlots(k: Kernel, t: string, next: Row)
    requires t in k.rows
    ensures var after := Slots(k.(rows := k.rows[t := next]));
            if HoldsSlot(next.queue) && !HoldsSlot(k.rows[t].queue) then |after| == Used(k) + 1 else |after| <= Used(k)
  {
    var before, after := Slots(k), Slots(k.(rows := k.rows[t := next]));
    if HoldsSlot(next.queue) && t !in before {
      assert after == before + {t};
    } else {
      SubsetSize(after, before);
    }
  }

  lemma AdmittedSlots(k: Kernel, t: string, row: Row)
    requires t !in k.rows && HoldsSlot(row.queue)
    ensures Used(k.(rows := k.rows[t := row])) == Used(k) + 1
  {
    assert Slots(k.(rows := k.rows[t := row])) == Slots(k) + {t};
  }

  lemma SameRowsSameSlots(k: Kernel, next: Kernel)
    requires next.rows == k.rows
    ensures Used(next) == Used(k)
  {
    assert Slots(next) == Slots(k);
  }

  /** Only an admission or a re-entry takes a new slot, and only below the capacity it was given. */
  lemma StepCapacity(k: Kernel, op: Op)
    ensures Used(Apply(k, op)) <= Used(k) || Used(Apply(k, op)) <= CapacityOf(op)
  {
    match op
    case Admit(task, admission, until, capacity) =>
      if Attempt(k, op).Some? {
        AdmittedSlots(k, task, AdmittedRow(admission, until));
      }
    case OnTask(task, change) =>
      if task in k.rows && Next(k, k.rows[task], change).Some? {
        NewSlotOnlyByReentry(k, k.rows[task], change);
        ChangedSlots(k, task, Next(k, k.rows[task], change).value);
      }
    case _ => SameRowsSameSlots(k, Apply(k, op));
  }

  /** Over any run whose admissions all see capacities up to limit, the shared slots in use never
      pass limit; lowering the capacity later never lets a further admission in above it. */
  lemma {:induction false} RunCapacity(k: Kernel, ops: seq<Op>, limit: nat)
    requires forall i | 0 <= i < |ops| :: CapacityOf(ops[i]) <= limit
    ensures Used(Run(k, ops)) <= if Used(k) <= limit then limit else Used(k)
    decreases |ops|
  {
    if ops == [] {
    } else {
      StepCapacity(k, ops[0]);
      RunCapacity(Apply(k, ops[0]), ops[1..], limit);
    }
  }

  /** From the empty database, under capacities up to limit: every reachable kernel satisfies the row
      invariant and never has more than limit slots in use. */
  lemma ReachableKernels(ops: seq<Op>, limit: nat)
    requires forall i | 0 <= i < |ops| :: CapacityOf(ops[i]) <= limit
    ensures KernelOk(Run(EMPTY_KERNEL, ops)) && Used(Run(EMPTY_KERNEL, ops)) <= limit
  {
    RunKeepsKernel(EMPTY_KERNEL, ops);
    RunCapacity(EMPTY_KERNEL, ops, limit);
    assert Slots(EMPTY_KERNEL) == {};
  }
}
