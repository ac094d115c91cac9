/** One direct CLI organize execution: admit, claim, begin, work, and end the claim exactly once.

    The process runs against the shared kernel. Before each of its own transactions any other
    processes may commit any transactions, and its own transaction may raise before it commits or
    after it did; the schedule says what happens, and every contract here holds for all schedules. */
module DirectOrganize {
  import opened Options
  import opened TaskKernel
  import opened KernelSafety
  import opened KernelLiveness

  /* ---- what other processes cannot do ---- */

  /** A transaction of somebody else: it cannot know this process's claim token, and nobody else
      registers its Worker name; both are drawn from uuid4 and secrets. */
  predicate Foreign(op: Op, me: Owner) {
    && (op.Register? ==> op.worker != me.worker)
    && (op.OnTask? && FenceOf(op.change).Some? ==> FenceOf(op.change).value.owner != me)
    && (op.OnTask? && op.change.Claim? ==> Owner(op.change.worker, op.change.token) != me)
  }

  predicate LiveWorker(k: Kernel, worker: string) {
    worker in k.workers && k.workers[worker].live
  }

  /** What an unfenced writer writes: the new status of every source that it names. */
  function Written(c: Change): map<string, ItemStatus> {
    match c
    case Review(item, to) => map[item := to]
    case Decide(item, skip) => map[item := if skip then Skipped else ItemPending]
    case Ignore(item, _) => map[item := Ignored]
    case Retry(item) => map[item := ItemPending]
    case Project(item, _, to) => map[item := to]
    case Reconcile(closings, _, _) => map i | i in closings :: closings[i].to
    case _ => map[]
  }

  predicate Commits(k: Kernel, op: Op, t: string) {
    op.OnTask? && op.task == t && t in k.rows && Next(k, k.rows[t], op.change).Some?
  }

  /** What the unfenced writers that commit in this run leave written, each source as its last writer left it. */
  function WrittenBy(k: Kernel, ops: seq<Op>, t: string): map<string, ItemStatus>
    decreases |ops|
  {
    if ops == [] then map[] else WrittenIn(k, ops[0], t) + WrittenBy(Apply(k, ops[0]), ops[1..], t)
  }

  function WrittenIn(k: Kernel, op: Op, t: string): map<string, ItemStatus> {
    if Commits(k, op, t) then Written(op.change) else map[]
  }

  /** The sources that newer Tasks take over in this run. */
  function HandedBy(k: Kernel, ops: seq<Op>, t: string): set<string>
    decreases |ops|
  {
    if ops == [] then {} else HandedIn(k, ops[0], t) + HandedBy(Apply(k, ops[0]), ops[1..], t)
  }

  function HandedIn(k: Kernel, op: Op, t: string): set<string> {
    if Commits(k, op, t) && op.change.HandOff? then {op.change.item} else {}
  }

  function HandedOver(items: map<string, Item>): set<string> {
    set i | i in items && items[i].superseded
  }

  /** The sources at the end of the run are those at its start, overridden by what the unfenced writers wrote. */
  ghost predicate Followed(k: Kernel, ops: seq<Op>, t: string) {
    && t in k.rows && t in Run(k, ops).rows
    && var r, later := k.rows[t], Run(k, ops).rows[t];
       && Statuses(later.items) == Statuses(r.items) + WrittenBy(k, ops, t)
       && HandedOver(later.items) == HandedOver(r.items) + HandedBy(k, ops, t)
  }

  ghost predicate Unreconciled(ops: seq<Op>, t: string) {
    forall j | 0 <= j < |ops| && ops[j].OnTask? && ops[j].task == t :: !ops[j].change.Reconcile?
  }

  /** What a claim owner may rely on over a run of others: an ownership that ended stays ended; an ownership
      that is still valid was valid all along, an accepted control stays accepted, the sources changed
      by what unfenced writers wrote and in no other way, and only a reconciliation moved the aggregate. */
  ghost predicate Undisturbed(k: Kernel, ops: seq<Op>, t: string, f: Fence) {
    && (KernelOk(k) ==> KernelOk(Run(k, ops)))
    && (LiveWorker(Run(k, ops), f.owner.worker) ==> LiveWorker(k, f.owner.worker))
    && (t in k.rows ==> Kept(k, ops, t, f))
  }

  ghost predicate Kept(k: Kernel, ops: seq<Op>, t: string, f: Fence) {
    && t in k.rows && t in Run(k, ops).rows
    && var r, later := k.rows[t], Run(k, ops).rows[t];
       && r.generation <= later.generation
       && (f.generation <= r.generation && Owns(later, f) ==>
             && Owns(r, f)
             && (r.control.Some? ==> later.control.Some?)
             && Followed(k, ops, t)
             && (Unreconciled(ops, t) ==> later.status == r.status && later.started == r.started))
  }

  lemma {:induction false} WrittenConcat(k: Kernel, a: seq<Op>, b: seq<Op>, t: string)
    ensures WrittenBy(k, a + b, t) == WrittenBy(k, a, t) + WrittenBy(Run(k, a), b, t)
    ensures HandedBy(k, a + b, t) == HandedBy(k, a, t) + HandedBy(Run(k, a), b, t)
    decreases |a|
  {
    if a == [] {
      assert a + b == b;
    } else {
      var k1, rest := Apply(k, a[0]), a[1..];
      assert a == [a[0]] + rest && a + b == [a[0]] + (rest + b);
      WrittenConcat(k1, rest, b, t);
      WrittenFirst(k, a[0], rest, t);
      WrittenFirst(k, a[0], rest + b, t);
      RunFirst(k, a[0], rest);
      Overriding(WrittenIn(k, a[0], t), WrittenBy(k1, rest, t), WrittenBy(Run(k1, rest), b, t));
    }
  }

  lemma WrittenFirst(k: Kernel, op: Op, rest: seq<Op>, t: string)
    ensures WrittenBy(k, [op] + rest, t) == WrittenIn(k, op, t) + WrittenBy(Apply(k, op), rest, t)
    ensures HandedBy(k, [op] + rest, t) == HandedIn(k, op, t) + HandedBy(Apply(k, op), rest, t)
  {
    assert ([op] + rest)[1..] == rest;
  }

  lemma RunFirst(k: Kernel, op: Op, rest: seq<Op>)
    ensures Run(k, [op] + rest) == Run(Apply(k, op), rest)
  {
    assert ([op] + rest)[1..] == rest;
  }

  lemma FollowedConcat(k: Kernel, a: seq<Op>, b: seq<Op>, t: string)
    requires Followed(k, a, t) && Followed(Run(k, a), b, t)
    ensures Followed(k, a + b, t)
  {
    RunConcat(k, a, b);
    WrittenConcat(k, a, b, t);
    Overriding(Statuses(k.rows[t].items), WrittenBy(k, a, t), WrittenBy(Run(k, a), b, t));
  }

  lemma Overriding(x: map<string, ItemStatus>, y: map<string, ItemStatus>, z: map<string, ItemStatus>)
    ensures x + (y + z) == (x + y) + z
  {
  }

  lemma KeptConcat(k: Kernel, a: seq<Op>, b: seq<Op>, t: string, f: Fence)
    requires Kept(k, a, t, f) && Kept(Run(k, a), b, t, f)
    ensures Kept(k, a + b, t, f)
  {
    RunConcat(k, a, b);
    if f.generation <= k.rows[t].generation && Owns(Run(k, a + b).rows[t], f) {
      FollowedConcat(k, a, b, t);
      if Unreconciled(a + b, t) {
        UnreconciledParts(a, b, t);
      }
    }
  }

  lemma UnreconciledParts(a: seq<Op>, b: seq<Op>, t: string)
    requires Unreconciled(a + b, t)
    ensures Unreconciled(a, t) && Unreconciled(b, t)
  {
    forall j | 0 <= j < |a| ensures a[j] == (a + b)[j] {
    }
    forall j | 0 <= j < |b| ensures b[j] == (a + b)[|a| + j] {
    }
  }

  lemma UpdatedStatuses(items: map<string, Item>, i: string, item: Item)
    ensures Statuses(items[i := item]) == Statuses(items) + map[i := item.status]
    ensures HandedOver(items[i := item]) == HandedOver(items) - {i} + if item.superseded then {i} else {}
  {
  }

  lemma OneSourceWritten(r: Row, c: Change, next: Row)
    requires SideWrite(c) && !c.Reconcile? && AfterSideWrite(r, c) == Some(next)
    ensures c.item in next.items && next.items == r.items[c.item := next.items[c.item]]
    ensures Written(c) == map[c.item := next.items[c.item].status]
    ensures next.items[c.item].superseded <==> c.item in r.items && r.items[c.item].superseded
  {
  }

  lemma ReconciliationWritten(r: Row, c: Change, next: Row)
    requires c.Reconcile? && AfterReconcile(r, c) == Some(next)
    ensures Statuses(next.items) == Statuses(r.items) + Written(c)
    ensures HandedOver(next.items) == HandedOver(r.items)
  {
  }

  /** A committed unfenced writer changes the statuses by what it writes and by nothing else. */
  lemma SideWriteWrites(r: Row, c: Change, next: Row)
    requires SideWrite(c) && AfterSideWrite(r, c) == Some(next)
    ensures Statuses(next.items) == Statuses(r.items) + Written(c)
    ensures HandedOver(next.items) == HandedOver(r.items)
  {
    if c.Reconcile? {
      assert AfterReconcile(r, c) == Some(next);
      ReconciliationWritten(r, c, next);
    } else {
      OneSourceWritten(r, c, next);
      UpdatedStatuses(r.items, c.item, next.items[c.item]);
    }
  }

  lemma RunOne(k: Kernel, op: Op)
    ensures Run(k, [op]) == Apply(k, op)
  {
    assert [op][1..] == [] && Run(Apply(k, op), []) == Apply(k, op);
  }

  lemma WrittenByOne(k: Kernel, op: Op, t: string)
    ensures WrittenBy(k, [op], t) == WrittenIn(k, op, t) && HandedBy(k, [op], t) == HandedIn(k, op, t)
  {
    assert [op] == [op] + [];
    WrittenFirst(k, op, [], t);
    assert WrittenBy(Apply(k, op), [], t) == map[] && HandedBy(Apply(k, op), [], t) == {};
  }

  lemma FollowedOne(k: Kernel, t: string, c: Change, next: Row)
    requires t in k.rows && Next(k, k.rows[t], c) == Some(next)
    requires Statuses(next.items) == Statuses(k.rows[t].items) + Written(c)
    requires HandedOver(next.items) == HandedOver(k.rows[t].items) + if c.HandOff? then {c.item} else {}
    ensures Followed(k, [OnTask(t, c)], t)
  {
    RunOne(k, OnTask(t, c));
    WrittenByOne(k, OnTask(t, c), t);
  }

  lemma SideWriteIsNext(k: Kernel, r: Row, c: Change)
    requires SideWrite(c)
    ensures Next(k, r, c) == AfterSideWrite(r, c)
  {
    match c
    case Review(_, _) =>
    case Decide(_, _) =>
    case Ignore(_, _) =>
    case Retry(_) =>
    case Project(_, _, _) =>
    case Reconcile(_, _, _) =>
  }

  lemma HandOffMarks(k: Kernel, r: Row, c: Change, next: Row)
    requires c.HandOff? && Next(k, r, c) == Some(next)
    ensures c.item in r.items && next.items == r.items[c.item := r.items[c.item].(superseded := true)]
  {
  }

  /** One committed transaction that is an unfenced writer, a hand-over, or leaves the sources alone. */
  lemma FollowedStep(k: Kernel, t: string, c: Change, next: Row)
    requires t in k.rows && Next(k, k.rows[t], c) == Some(next)
    requires SideWrite(c) || c.HandOff? || (next.items == k.rows[t].items && Written(c) == map[])
    ensures Followed(k, [OnTask(t, c)], t)
  {
    var r := k.rows[t];
    if SideWrite(c) {
      SideWriteIsNext(k, r, c);
      SideWriteWrites(r, c, next);
    } else if c.HandOff? {
      HandOffMarks(k, r, c, next);
      UpdatedStatuses(r.items, c.item, next.items[c.item]);
      assert Statuses(next.items) == Statuses(r.items);
    }
    FollowedOne(k, t, c, next);
  }

  /** While the ownership stands, one transaction of somebody else is a request, a hand-over that leaves
      work behind, or an unfenced writer. */
  lemma KeptStep(k: Kernel, c: Change, t: string, f: Fence)
    requires t in k.rows && Next(k, k.rows[t], c).Some? && f.generation <= k.rows[t].generation
    requires FenceOf(c).Some? ==> FenceOf(c).value.owner != f.owner
    requires c.Claim? ==> Owner(c.worker, c.token) != f.owner
    ensures Kept(k, [OnTask(t, c)], t, f)
  {
    var later := Next(k, k.rows[t], c).value;
    RunOne(k, OnTask(t, c));
    GenerationGrows(k, k.rows[t], c);
    if Owns(later, f) {
      StillOwned(k, k.rows[t], c, f);
      FollowedStep(k, t, c, later);
      if SideWrite(c) {
        SideWriteFrame(k.rows[t], c);
        assert Unreconciled([OnTask(t, c)], t) ==> ![OnTask(t, c)][0].change.Reconcile?;
      }
    }
  }

  lemma StillOwned(k: Kernel, r: Row, c: Change, f: Fence)
    requires Next(k, r, c).Some? && Owns(Next(k, r, c).value, f) && f.generation <= r.generation
    requires FenceOf(c).Some? ==> FenceOf(c).value.owner != f.owner
    requires c.Claim? ==> Owner(c.worker, c.token) != f.owner
    ensures Owns(r, f) && (SideWrite(c) || c.Request? || c.HandOff?)
    ensures r.control.Some? ==> Next(k, r, c).value.control.Some?
    ensures !SideWrite(c) ==> Next(k, r, c).value.status == r.status && Next(k, r, c).value.started == r.started
    ensures c.Request? ==> Next(k, r, c).value.items == r.items
  {
    if Publication(c) {
      PublicationFrame(k, r, c);
    } else if SideWrite(c) {
      SideWriteFrame(r, c);
    }
  }

  lemma ForeignStep(k: Kernel, op: Op, t: string, f: Fence)
    requires Foreign(op, f.owner)
    ensures Undisturbed(k, [op], t, f)
  {
    RunOne(k, op);
    if KernelOk(k) {
      ApplyKeepsKernel(k, op);
    }
    if t in k.rows {
      if Commits(k, op, t) {
        GenerationGrows(k, k.rows[t], op.change);
        if f.generation <= k.rows[t].generation {
          KeptStep(k, op.change, t, f);
        }
      } else {
        WrittenByOne(k, op, t);
        assert Apply(k, op).rows[t] == k.rows[t];
      }
    }
  }

  lemma GenerationGrows(k: Kernel, r: Row, c: Change)
    requires Next(k, r, c).Some?
    ensures r.generation <= Next(k, r, c).value.generation
  {
    AdmissionStays(k, r, c);
  }

  lemma NothingHappened(k: Kernel, t: string, f: Fence)
    ensures Undisturbed(k, [], t, f)
  {
    assert Run(k, []) == k;
  }

  /** Whatever other processes commit. */
  lemma {:induction false} ForeignRun(k: Kernel, ops: seq<Op>, t: string, f: Fence)
    requires forall i | 0 <= i < |ops| :: Foreign(ops[i], f.owner)
    ensures Undisturbed(k, ops, t, f)
    decreases |ops|
  {
    if ops == [] {
      NothingHappened(k, t, f);
    } else {
      ForeignStep(k, ops[0], t, f);
      RunOne(k, ops[0]);
      ForeignRun(Apply(k, ops[0]), ops[1..], t, f);
      assert [ops[0]] + ops[1..] == ops;
      if t in k.rows {
        KeptConcat(k, [ops[0]], ops[1..], t, f);
      }
    }
  }

  /* ---- the settlement rule ---- */

  datatype SettlementInputs = SettlementInputs(
    ended: bool, machineWork: bool, humanDecision: bool, liveCall: bool,
    scopeProven: bool, orchestrationError: bool, cancellation: bool)

  /** The precedence of the shared flow rule. */
  function SettleTaskFlow(x: SettlementInputs): FlowStatus {
    if x.cancellation then Cancelled
    else if x.orchestrationError || !x.scopeProven then Failed
    else if !x.ended || x.machineWork || x.liveCall || x.humanDecision then Running
    else Completed
  }

  datatype Arm = Acknowledged | SettledFailed | HandedOn | DeferredToHuman | SettledCompleted

  predicate StillMachine(s: ItemStatus) {
    !Finished(s) && !AwaitsHuman(s)
  }

  /** The arm a pass takes, read off the recorded statuses alone. */
  ghost predicate ArmFits(arm: Arm, statuses: map<string, ItemStatus>, failure: bool) {
    match arm
    case Acknowledged => true
    case SettledFailed => failure
    case HandedOn => !failure && exists i :: i in statuses && StillMachine(statuses[i])
    case DeferredToHuman =>
      && !failure
      && (forall i | i in statuses :: !StillMachine(statuses[i]))
      && exists i :: i in statuses && AwaitsHuman(statuses[i])
    case SettledCompleted => !failure && forall i | i in statuses :: Finished(statuses[i])
  }

  /** The arm of one returned pass: the shared rule first, then the kind of work that is left. */
  function ChooseArm(items: map<string, ItemStatus>, failure: bool): (arm: Arm)
    ensures arm != Acknowledged && ArmFits(arm, items, failure)
  {
    var waiting := set i | i in items && AwaitsHuman(items[i]);
    var machine := set i | i in items && StillMachine(items[i]);
    var decision := SettleTaskFlow(SettlementInputs(true, machine != {}, waiting != {}, false, !failure, failure, false));
    if decision == Failed then SettledFailed
    else if machine != {} then
      assert exists i :: i in machine;
      HandedOn
    else
      assert forall i | i in items :: i !in machine;
      if waiting != {} then
        assert exists i :: i in waiting;
        DeferredToHuman
      else
        assert forall i | i in items :: i !in waiting;
        SettledCompleted
  }

  /** File outcomes never choose the arm: two recordings of the same sources that agree on which
      are still machine work and which wait for the operator settle alike, however many of the
      others succeeded, failed, were skipped or ignored; and only one arm fits. */
  lemma ArmIgnoresOutcomes(items: map<string, ItemStatus>, other: map<string, ItemStatus>, failure: bool, arm: Arm)
    requires items.Keys == other.Keys
    requires forall i | i in items :: StillMachine(items[i]) == StillMachine(other[i]) && AwaitsHuman(items[i]) == AwaitsHuman(other[i])
    ensures ChooseArm(items, failure) == ChooseArm(other, failure)
    ensures arm != Acknowledged && ArmFits(arm, other, failure) ==> arm == ChooseArm(items, failure)
  {
    assert forall i | i in other :: i in items;
    assert ArmFits(ChooseArm(items, failure), other, failure);
  }

  /** How each arm leaves the Task: the queue state and the published flow status. */
  predicate Leaves(arm: Arm, r: Row) {
    match arm
    case Acknowledged => (r.queue == Suspended && r.status == Running) || (r.queue == Settled && r.status == Cancelled)
    case SettledFailed => r.queue == Settled && r.status == Failed && r.started.None?
    case HandedOn => r.queue == Queued && r.status == Pending && r.started.None?
    case DeferredToHuman => r.queue == WaitingHuman && r.status == Pending && r.started.None?
    case SettledCompleted => r.queue == Settled && r.status == Completed && r.started.None?
  }

  predicate EndsClaim(c: Change, f: Fence, arm: Arm) {
    FenceOf(c) == Some(f) &&
    match arm
    case Acknowledged => c.Acknowledge?
    case SettledFailed => c.Settle? && c.outcome == Failed
    case HandedOn => c.Yield?
    case DeferredToHuman => c.Defer?
    case SettledCompleted => c.Settle? && c.outcome == Completed
  }

  /* ---- what one release of the claim owner does to the row ---- */

  lemma SettleFacts(r: Row, c: Change)
    requires c.Settle? && c.started.None? && c.outcome in {Failed, Completed} && AfterSettle(r, c).Some?
    ensures Owns(r, c.fence)
    ensures Leaves(if c.outcome == Failed then SettledFailed else SettledCompleted, AfterSettle(r, c).value)
    ensures AfterSettle(r, c).value.items == Overlaid(r.items, c.overlay)
  {
  }

  lemma DeferFacts(r: Row, c: Change)
    requires c.Defer? && c.flow == Pending && c.overlay == map[] && c.started.None? && AfterDefer(r, c).Some?
    ensures Owns(r, c.fence) && Leaves(DeferredToHuman, AfterDefer(r, c).value)
    ensures AfterDefer(r, c).value.items == r.items && !HasMachineWork(r.items)
  {
    assert Overlaid(r.items, map[]) == r.items;
    assert forall i | i in r.items :: i !in c.overlay;
  }

  lemma AcknowledgeFacts(r: Row, c: Change)
    requires c.Acknowledge? && AfterAcknowledge(r, c).Some?
    ensures c.holder.Some? ==> Owns(r, c.holder.value)
    ensures Leaves(Acknowledged, AfterAcknowledge(r, c).value) && AfterAcknowledge(r, c).value.owner.None?
    ensures AfterAcknowledge(r, c).value.generation == r.generation
  {
  }

  /** A terminal settlement of the durable sources commits exactly when no source is queued or
      processing, no cancel is accepted, and any in-flight marker names one of the sources. The
      failure arm is no exception. */
  lemma SettleCommitsIff(r: Row, f: Fence, now: int, outcome: FlowStatus)
    requires RowOk(r) && OwnsLive(r, f, now) && outcome in {Failed, Completed, Cancelled}
    ensures AfterSettle(r, Settle(f, now, outcome, Frames(r.items), None, true)).Some? <==>
              !HasMachineWork(r.items) && r.control != Some(Cancel) && (r.mutation.Some? ==> r.mutation.value in r.items)
  {
    var overlay := Frames(r.items);
    assert forall i | i in overlay :: r.items[i].superseded || FrameAllowed(r, i, overlay[i]);
    if HasMachineWork(r.items) {
      var i :| i in r.items && MachineWork(r.items[i].status);
      assert i in overlay && MachineWork(overlay[i].status);
    }
  }

  lemma RefusedWhileProcessing(k: Kernel, t: string, f: Fence, now: int)
    requires t in k.rows && RowOk(k.rows[t]) && OwnsLive(k.rows[t], f, now) && HasMachineWork(k.rows[t].items)
    ensures Attempt(k, OnTask(t, Settle(f, now, Failed, Frames(k.rows[t].items), None, true))).None?
  {
    SettleCommitsIff(k.rows[t], f, now, Failed);
    ReleaseIsNext(k, k.rows[t], Settle(f, now, Failed, Frames(k.rows[t].items), None, true));
  }

  /** So an unproved scope that was found with a source still processing cannot settle as failed:
      the pass raises, and over every continuation without its fence the Task holds its slot. */
  lemma UnprovedScopeWithMachineWorkKeepsSlot(k: Kernel, t: string, f: Fence, now: int, ops: seq<Op>)
    requires KernelOk(k) && t in k.rows && OwnsLive(k.rows[t], f, now) && k.rows[t].status == Running
    requires HasMachineWork(k.rows[t].items)
    requires forall i | 0 <= i < |ops| :: !MayFree(ops[i], t, f)
    ensures ChooseArm(Statuses(k.rows[t].items), true) == SettledFailed
    ensures Attempt(k, OnTask(t, Settle(f, now, Failed, Frames(k.rows[t].items), None, true))).None?
    ensures t in Slots(Run(k, ops))
  {
    RefusedWhileProcessing(k, t, f, now);
    AbandonedTaskKeepsSlot(k, ops, t, f);
  }

  /** The waiting arm first publishes the admitted, still pending projection: from that instant until
      its second transaction, and for good if that one fails, lease expiry hands a Task that already
      ran to the next Worker, which the running boundary had excluded. */
  lemma WaitingArmReopensTakeover(k: Kernel, r: Row, f: Fence, now: int)
    requires OwnsLive(r, f, now) && r.status == Running && r.mutation.None?
    ensures !exists w: Registration, at: int :: Claimable(r, w, at)
    ensures Next(k, r, Publish(f, now, Pending, None)).Some?
    ensures exists w: Registration, at: int :: Claimable(Next(k, r, Publish(f, now, Pending, None)).value, w, at)
  {
    ReclaimableIff(r);
    ReclaimableIff(Next(k, r, Publish(f, now, Pending, None)).value);
  }

  /* ---- an arm chosen from an earlier read ---- */

  /** What is written over the sources that were read takes the arm's ground away: a yielding arm has no
      machine work any more; a deferring one has some, or nothing that waits; a completing one has
      something unfinished. */
  ghost predicate Spoils(arm: Arm, seen: map<string, ItemStatus>, written: map<string, ItemStatus>) {
    match arm
    case HandedOn =>
      && (forall i | i in written :: !StillMachine(written[i]))
      && (forall i | i in seen && StillMachine(seen[i]) :: i in written)
    case DeferredToHuman =>
      || (exists i :: i in written && StillMachine(written[i]))
      || (&& (forall i | i in written :: !AwaitsHuman(written[i]))
          && (forall i | i in seen && AwaitsHuman(seen[i]) :: i in written))
    case SettledCompleted => exists i :: i in written && !Finished(written[i])
    case _ => false
  }

  lemma YieldSpoiledIff(seen: map<string, ItemStatus>, written: map<string, ItemStatus>)
    requires ArmFits(HandedOn, seen, false)
    ensures ArmFits(HandedOn, seen + written, false) <==> !Spoils(HandedOn, seen, written)
  {
    var after := seen + written;
    if ArmFits(HandedOn, after, false) {
      var i :| i in after && StillMachine(after[i]);
      assert if i in written then StillMachine(written[i]) else i in seen && StillMachine(seen[i]);
    } else {
      assert forall i | i in written :: i in after && after[i] == written[i];
      assert forall i | i in seen && i !in written :: i in after && after[i] == seen[i];
    }
  }

  lemma DeferSpoiledIff(seen: map<string, ItemStatus>, written: map<string, ItemStatus>)
    requires ArmFits(DeferredToHuman, seen, false)
    ensures ArmFits(DeferredToHuman, seen + written, false) <==> !Spoils(DeferredToHuman, seen, written)
  {
    var after := seen + written;
    assert forall i | i in written :: i in after && after[i] == written[i];
    assert forall i | i in seen && i !in written :: i in after && after[i] == seen[i];
    if ArmFits(DeferredToHuman, after, false) {
      var i :| i in after && AwaitsHuman(after[i]);
      assert if i in written then AwaitsHuman(written[i]) else i in seen && AwaitsHuman(seen[i]);
    }
  }

  lemma CompleteSpoiledIff(seen: map<string, ItemStatus>, written: map<string, ItemStatus>)
    requires ArmFits(SettledCompleted, seen, false)
    ensures ArmFits(SettledCompleted, seen + written, false) <==> !Spoils(SettledCompleted, seen, written)
  {
    var after := seen + written;
    assert forall i | i in written :: i in after && after[i] == written[i];
  }

  lemma SpoiledIff(arm: Arm, seen: map<string, ItemStatus>, written: map<string, ItemStatus>, failure: bool)
    requires ArmFits(arm, seen, failure)
    ensures ArmFits(arm, seen + written, failure) <==> !Spoils(arm, seen, written)
  {
    match arm
    case HandedOn => YieldSpoiledIff(seen, written);
    case DeferredToHuman => DeferSpoiledIff(seen, written);
    case SettledCompleted => CompleteSpoiledIff(seen, written);
    case _ =>
  }

  /** For every unfenced writer that commits and every arm that fits: the arm fits afterwards exactly when
      what the writer writes does not spoil it. */
  lemma SideWriteSpoilsIff(r: Row, c: Change, next: Row, arm: Arm, failure: bool)
    requires SideWrite(c) && AfterSideWrite(r, c) == Some(next) && ArmFits(arm, Statuses(r.items), failure)
    ensures ArmFits(arm, Statuses(next.items), failure) <==> !Spoils(arm, Statuses(r.items), Written(c))
  {
    SideWriteWrites(r, c, next);
    SpoiledIff(arm, Statuses(r.items), Written(c), failure);
  }

  /** The two settling arms write the sources they had read, but for those handed over. */
  function LeftBy(arm: Arm, items: map<string, Item>, seen: map<string, Frame>): map<string, Item> {
    if arm in {SettledFailed, SettledCompleted} then Overlaid(items, seen) else items
  }

  /** What outlives the release of what was written before it. */
  function Lasting(arm: Arm, seen: map<string, ItemStatus>, written: map<string, ItemStatus>, handed: set<string>)
    : map<string, ItemStatus>
  {
    if arm in {SettledFailed, SettledCompleted} then map i | i in written && (i !in seen || i in handed) :: written[i] else written
  }

  lemma LeftIs(arm: Arm, r: Row, before: Row, written: map<string, ItemStatus>)
    requires Statuses(before.items) == Statuses(r.items) + written
    ensures Statuses(LeftBy(arm, before.items, Frames(r.items)))
         == Statuses(r.items) + Lasting(arm, Statuses(r.items), written, HandedOver(before.items))
  {
    var seen, left := Statuses(r.items), LeftBy(arm, before.items, Frames(r.items));
    var lasting := Lasting(arm, seen, written, HandedOver(before.items));
    assert left.Keys == before.items.Keys == Statuses(before.items).Keys == (seen + lasting).Keys;
    forall i | i in left ensures left[i].status == (seen + lasting)[i] {
      assert before.items[i].status == Statuses(before.items)[i] == (seen + written)[i];
      if arm in {SettledFailed, SettledCompleted} && i in seen && !before.items[i].superseded {
        assert i in Frames(r.items) && left[i].status == seen[i];
        assert i !in lasting;
      }
    }
  }

  /** Over every run between the read and the release: the arm chosen from the sources at its start fits
      those that the release leaves exactly when what the unfenced writers wrote, as far as it outlives
      the release, does not spoil it. */
  lemma ArmStillFits(arm: Arm, k: Kernel, ops: seq<Op>, t: string, left: Row, failure: bool)
    requires Followed(k, ops, t) && ArmFits(arm, Statuses(k.rows[t].items), failure)
    requires left.items == LeftBy(arm, Run(k, ops).rows[t].items, Frames(k.rows[t].items))
    ensures ArmFits(arm, Statuses(left.items), failure) <==> !Spoiled(arm, k, ops, t)
  {
    var r := k.rows[t];
    LeftIs(arm, r, Run(k, ops).rows[t], WrittenBy(k, ops, t));
    SpoiledIff(arm, Statuses(r.items), Lasting(arm, Statuses(r.items), WrittenBy(k, ops, t), HandedOver(r.items) + HandedBy(k, ops, t)), failure);
  }

  /** The run ops from k, where the arm was chosen, spoils it. */
  ghost predicate Spoiled(arm: Arm, k: Kernel, ops: seq<Op>, t: string)
    requires t in k.rows
  {
    var seen := Statuses(k.rows[t].items);
    Spoils(arm, seen, Lasting(arm, seen, WrittenBy(k, ops, t), HandedOver(k.rows[t].items) + HandedBy(k, ops, t)))
  }

  lemma OneWaits(r: Row, i: string)
    requires i in r.items && AwaitsHuman(r.items[i].status) && forall j | j in r.items && j != i :: Finished(r.items[j].status)
    ensures ChooseArm(Statuses(r.items), false) == DeferredToHuman
  {
    var seen := Statuses(r.items);
    assert i in seen && AwaitsHuman(seen[i]);
    assert ArmFits(DeferredToHuman, seen, false);
    ArmIgnoresOutcomes(seen, seen, false, DeferredToHuman);
  }

  /** The gap is real. One source waits, the others are finished, and the pass has chosen to defer; the
      operator ignores the source before the release. The release commits all the same, and leaves a
      Task waiting for the operator with every source finished, which the ignoring itself could not
      settle because the Task was still owned. */
  lemma IgnoredBeforeDeferStrands(r: Row, f: Fence, now: int, i: string, settles: bool)
    requires OwnsLive(r, f, now) && r.mutation.None? && r.control.None?
    requires i in r.items && Ignorable(r.items[i].status) && forall j | j in r.items && j != i :: Finished(r.items[j].status)
    ensures ChooseArm(Statuses(r.items), false) == DeferredToHuman
    ensures AfterSideWrite(r, Ignore(i, settles)) == Some(WithStatus(r, i, Ignored))
    ensures var left := AfterDefer(WithStatus(r, i, Ignored), Defer(f, now, Pending, map[], None, true));
            && left.Some? && left.value.queue == WaitingHuman && AllFinished(left.value.items)
            && ChooseArm(Statuses(left.value.items), false) == SettledCompleted
  {
    OneWaits(r, i);
    IgnoredDefers(WithStatus(r, i, Ignored), f, now);
  }

  lemma IgnoredDefers(q: Row, f: Fence, now: int)
    requires OwnsLive(q, f, now) && q.mutation.None? && q.control.None? && AllFinished(q.items)
    ensures var left := AfterDefer(q, Defer(f, now, Pending, map[], None, true));
            && left.Some? && left.value.queue == WaitingHuman && AllFinished(left.value.items)
            && ChooseArm(Statuses(left.value.items), false) == SettledCompleted
  {
    assert Overlaid(q.items, map[]) == q.items;
    assert AfterDefer(q, Defer(f, now, Pending, map[], None, true)) == Some(Released(q, map[], Pending, None, WaitingHuman));
    ArmIgnoresOutcomes(Statuses(q.items), Statuses(q.items), false, SettledCompleted);
  }

  /** An operator's retry between the read and the completing release: the release is refused exactly when
      the failed attempt has a Result of its own; otherwise it commits and writes the failure back. */
  lemma RetriedBeforeSettleIff(r: Row, f: Fence, now: int, i: string)
    requires OwnsLive(r, f, now) && r.mutation.None? && r.control.None? && AllFinished(r.items)
    requires i in r.items && r.items[i].status == ItemFailed && !r.items[i].superseded
    ensures AfterSideWrite(r, Retry(i)) == Some(WithStatus(r, i, ItemPending))
    ensures var left := AfterSettle(WithStatus(r, i, ItemPending), Settle(f, now, Completed, Frames(r.items), None, true));
            && (left.Some? <==> !Recorded(r, i))
            && (left.Some? ==> left.value.items[i].status == ItemFailed)
  {
    var q, overlay := WithStatus(r, i, ItemPending), Frames(r.items);
    assert q.items.Keys == r.items.Keys;
    assert QuietUnder(q.items, overlay);
    forall j | j in overlay && j != i ensures q.items[j].superseded || FrameAllowed(q, j, overlay[j]) {
      assert q.items[j] == r.items[j];
    }
    assert OverlayAllowed(q, overlay) <==> MayPublish(q, i, ItemFailed) by {
      assert overlay[i] == Frame(ItemFailed, q.items[i].attempts) && !q.items[i].superseded;
    }
    assert MayPublish(q, i, ItemFailed) <==> !Recorded(r, i);
  }

  /** left is what arm's release leaves of the sources that the run ops from k ends with. */
  ghost predicate LeftAfter(k: Kernel, ops: seq<Op>, t: string, arm: Arm, read: map<string, Frame>, left: Row) {
    Followed(k, ops, t) && left.items == LeftBy(arm, Run(k, ops).rows[t].items, read)
  }

  /** The stretch of the trace from n to at, cut where mid ended. */
  lemma Joined(mid: seq<Op>, n: nat, trace: seq<Op>, at: nat)
    requires n <= |mid| <= at <= |trace| && mid <= trace
    ensures trace[n..at] == mid[n..] + trace[|mid|..at]
  {
  }

  lemma LeftAcross(k: Kernel, mid: seq<Op>, n: nat, trace: seq<Op>, at: nat, t: string, arm: Arm, read: map<string, Frame>, left: Row)
    requires n <= |mid| <= at <= |trace| && mid <= trace
    requires Followed(k, mid[n..], t) && LeftAfter(Run(k, mid[n..]), trace[|mid|..at], t, arm, read, left)
    ensures LeftAfter(k, trace[n..at], t, arm, read, left)
  {
    Joined(mid, n, trace, at);
    FollowedConcat(k, mid[n..], trace[|mid|..at], t);
    RunConcat(k, mid[n..], trace[|mid|..at]);
  }

  lemma RunSince(origin: Kernel, mid: seq<Op>, trace: seq<Op>)
    requires mid <= trace
    ensures Run(origin, trace) == Run(Run(origin, mid), trace[|mid|..])
  {
    assert trace == mid + trace[|mid|..];
    RunConcat(origin, mid, trace[|mid|..]);
  }

  lemma PublishFollows(k: Kernel, n: nat, trace: seq<Op>, at: nat, t: string, f: Fence, c: Change, next: Row)
    requires n <= at <= |trace| && trace == trace[..at] + [OnTask(t, c)] && c.Publish? && c.fence == f && c.started.None?
    requires Kept(k, trace[n..at], t, f) && f.generation <= k.rows[t].generation
    requires Next(Run(k, trace[n..at]), Run(k, trace[n..at]).rows[t], c) == Some(next)
    ensures Owns(k.rows[t], f) && Owns(next, f) && Followed(k, trace[n..], t)
    ensures next.status == c.flow && next.started.None?
  {
    FollowedByOwn(k, n, trace, at, t, c, next);
  }

  lemma YieldLeaves(k: Kernel, ops: seq<Op>, t: string, f: Fence, now: int, started: Option<int>, left: Row)
    requires Kept(k, ops, t, f) && f.generation <= k.rows[t].generation
    requires Next(Run(k, ops), Run(k, ops).rows[t], Yield(f, now, started, None)) == Some(left)
    ensures Owns(k.rows[t], f) && LeftAfter(k, ops, t, HandedOn, map[], left)
    ensures left.queue == Queued && left.status == Pending && left.started == started && left.control.None?
  {
    YieldIsNext(Run(k, ops), Run(k, ops).rows[t], f, now, started);
  }

  /** One own transaction that leaves the sources alone, after a stretch that ends at at. */
  lemma FollowedByOwn(k: Kernel, n: nat, trace: seq<Op>, at: nat, t: string, c: Change, next: Row)
    requires n <= at <= |trace| && trace == trace[..at] + [OnTask(t, c)] && Followed(k, trace[n..at], t)
    requires Next(Run(k, trace[n..at]), Run(k, trace[n..at]).rows[t], c) == Some(next)
    requires next.items == Run(k, trace[n..at]).rows[t].items && Written(c) == map[]
    ensures Followed(k, trace[n..], t)
  {
    assert trace[n..] == trace[n..at] + [OnTask(t, c)];
    FollowedStep(Run(k, trace[n..at]), t, c, next);
    FollowedConcat(k, trace[n..at], [OnTask(t, c)], t);
  }

  predicate IsRelease(c: Change) {
    c.Acknowledge? || c.Settle? || c.Defer?
  }

  lemma TaskStep(k: Kernel, next: Kernel, t: string, c: Change)
    requires Attempt(k, OnTask(t, c)) == Some(next)
    ensures t in k.rows && t in next.rows && Next(k, k.rows[t], c) == Some(next.rows[t]) && next.workers == k.workers
    ensures k.rows[t].generation <= next.rows[t].generation
  {
    GenerationGrows(k, k.rows[t], c);
  }

  lemma ReleaseIsNext(k: Kernel, r: Row, c: Change)
    requires IsRelease(c)
    ensures Next(k, r, c) == AfterRelease(r, c)
  {
  }

  lemma RequestFacts(r: Row, next: Row, wanted: Control, f: Fence)
    requires AfterRequest(r, wanted) == Some(next)
    ensures next.control == Some(wanted) && (Owns(next, f) <==> Owns(r, f))
  {
  }

  lemma YieldIsNext(k: Kernel, r: Row, f: Fence, now: int, started: Option<int>)
    requires Next(k, r, Yield(f, now, started, None)).Some?
    ensures var next := Next(k, r, Yield(f, now, started, None)).value;
            && Owns(r, f) && next.items == r.items && next.queue == Queued && next.status == Pending
            && next.started == started && next.control.None?
  {
  }

  function AfterRelease(r: Row, c: Change): Option<Row>
    requires IsRelease(c)
  {
    if c.Acknowledge? then AfterAcknowledge(r, c) else if c.Settle? then AfterSettle(r, c) else AfterDefer(r, c)
  }

  lemma ReleaseFacts(r: Row, c: Change)
    requires IsRelease(c) && AfterRelease(r, c).Some?
    ensures AfterRelease(r, c).value.generation == r.generation && AfterRelease(r, c).value.owner.None?
    ensures FenceOf(c).Some? ==> Owns(r, FenceOf(c).value)
  {
  }

  /* ---- the process ---- */

  /** What becomes of one own call: it answers, it raises and nothing happened, or it raises after its commit. */
  datatype Fault = NoFault | BeforeCommit | AfterCommit

  /** Before one own transaction: what others commit, how the transaction itself fares, the new clock. */
  datatype Turn = Turn(others: seq<Op>, fault: Fault, clock: int)

  datatype Reply = Committed | Refused | Raised

  /** One publication the organizing pipeline makes for a source; a fatal one ends the pass when it fails. */
  datatype Work = Work(step: Step, fatal: bool)

  datatype Step =
    | Begins(item: string, attempt: nat, gated: bool)
    | Notes(item: string, attempt: nat, to: ItemStatus)
    | Records(item: string, attempt: nat, to: ItemStatus, evidence: Evidence)
    | Asks(item: string, to: ItemStatus)
    | Mutates(item: string)
    | Keepalive

  datatype PassResult = Returned(scanErrors: bool) | IncompleteScope | Crashed

  datatype Exit = Done(arm: Arm) | Aborted

  /** What a settlement rests on: the statuses it read, and the lengths of the trace at that instant and
      when its claim-ending transaction ran. */
  datatype Basis = Basis(seen: map<string, ItemStatus>, at: nat, until: nat)

  /** The arm was chosen well from what was read after place n of the trace, and it fits the Task as its
      release left it exactly when what the unfenced writers committed between the two did not spoil it. */
  ghost predicate RestsOn(origin: Kernel, trace: seq<Op>, t: string, arm: Arm, basis: Basis, left: Row, failure: bool, n: nat) {
    && n <= basis.at <= basis.until <= |trace|
    && var k := Run(origin, trace[..basis.at]);
       && t in k.rows && basis.seen == Statuses(k.rows[t].items)
       && ArmFits(arm, basis.seen, failure)
       && (ArmFits(arm, Statuses(left.items), failure) <==> !Spoiled(arm, k, trace[basis.at..basis.until], t))
  }

  lemma RestsOnLonger(origin: Kernel, earlier: seq<Op>, trace: seq<Op>, t: string, arm: Arm, basis: Basis, left: Row, failure: bool, n: nat)
    requires earlier <= trace && RestsOn(origin, earlier, t, arm, basis, left, failure, n)
    ensures RestsOn(origin, trace, t, arm, basis, left, failure, n)
  {
    assert trace[..basis.at] == earlier[..basis.at];
    assert trace[basis.at..basis.until] == earlier[basis.at..basis.until];
  }

  const LEASE := 900

  function Published(s: Step, f: Fence, now: int): Change {
    match s
    case Begins(item, attempt, gated) => Start(f, now, item, attempt, gated)
    case Notes(item, attempt, to) => Progress(f, now, item, attempt, to)
    case Records(item, attempt, to, evidence) => Outcome(f, now, item, attempt, to, evidence)
    case Asks(item, to) => Review(item, to)
    case Mutates(item) => Mutate(f, now, item)
    case Keepalive => Heartbeat(f, now, LEASE)
  }

  /** What a call answers, and whether it commits, follow from its fault and from whether its transaction may. */
  predicate AsScheduled(fault: Fault, reply: Reply, committed: bool, allowed: bool) {
    && (reply == Raised <==> fault != NoFault)
    && (committed <==> allowed && fault != BeforeCommit)
  }

  predicate Ending(op: Op) {
    op.OnTask? && FenceOf(op.change).Some?
    && (op.change.Acknowledge? || op.change.Settle? || op.change.Defer? || op.change.Yield?)
  }

  /* ---- a pass that nobody disturbs ---- */

  predicate MayBegin(r: Row, f: Fence, now: int) {
    r.control.None? && OwnsLive(r, f, now) && r.status == Pending
  }

  predicate MayYield(r: Row, f: Fence, now: int) {
    OwnsLive(r, f, now) && r.mutation.None? && r.control.None?
  }

  /** The in-flight marker is closed by the release: it names a source, and no source is machine work. */
  predicate Unmarked(r: Row, close: bool) {
    r.mutation.None? || (close && r.mutation.value in r.items && !HasMachineWork(r.items))
  }

  /** The owner can settle the accepted control. */
  predicate Answers(r: Row, f: Fence, now: int, close: bool) {
    r.control.Some? && OwnsLive(r, f, now) && Unmarked(r, close) && ControlFree(r, r.control.value)
  }

  lemma AnswersIff(r: Row, f: Fence, now: int, close: bool)
    requires RowOk(r) && r.control.Some?
    ensures AfterAcknowledge(r, Acknowledge(Some(f), now, |r.requests|, r.admission.authorized, Frames(r.items), r.started, close)).Some?
       <==> Answers(r, f, now, close)
  {
    ControlOverlayIff(r, r.control.value);
    var q := Closed(r, close);
    assert ControlFree(q, r.control.value) <==> ControlFree(r, r.control.value);
    ControlOverlayIff(q, r.control.value);
  }

  predicate ArmCommits(r: Row, f: Fence, now: int, arm: Arm, items: map<string, Frame>) {
    match arm
    case HandedOn => MayYield(r, f, now)
    case DeferredToHuman => AfterDefer(r, Defer(f, now, Pending, map[], None, true)).Some?
    case Acknowledged => false
    case _ => AfterSettle(r, Settle(f, now, if arm == SettledFailed then Failed else Completed, items, None, true)).Some?
  }

  /** The settlement that the pass chooses commits: a yield with no effect in flight, a deferral or a
      settlement with no machine work and a marker, if any, that names a source. */
  predicate Ends(r: Row, f: Fence, now: int, failure: bool) {
    && OwnsLive(r, f, now)
    && match ChooseArm(Statuses(r.items), failure)
       case HandedOn => r.mutation.None? && r.control.None?
       case _ => !HasMachineWork(r.items) && r.control != Some(Cancel) && (r.mutation.Some? ==> r.mutation.value in r.items)
  }

  lemma YieldCommitsIff(k: Kernel, r: Row, f: Fence, now: int, started: Option<int>)
    ensures Next(k, r, Yield(f, now, started, None)).Some? <==> MayYield(r, f, now)
  {
  }

  lemma PublishedRow(k: Kernel, t: string, f: Fence, now: int, flow: FlowStatus)
    requires t in k.rows
    ensures var r, next := k.rows[t], Apply(k, OnTask(t, Publish(f, now, flow, None)));
            t in next.rows && next.rows[t] == if OwnsLive(r, f, now) then r.(status := flow, started := None) else r
  {
  }

  /** Publishing first changes nothing about what the ending release needs. */
  lemma PublishedFirst(r: Row, f: Fence, now: int, flow: FlowStatus)
    ensures var published := if OwnsLive(r, f, now) then r.(status := flow, started := None) else r;
            && (MayYield(r, f, now) <==> OwnsLive(r, f, now) && MayYield(published, f, now))
            && (ArmCommits(r, f, now, DeferredToHuman, map[]) <==>
                  OwnsLive(r, f, now) && ArmCommits(published, f, now, DeferredToHuman, map[]))
  {
  }

  lemma DeferCommitsIff(r: Row, f: Fence, now: int)
    ensures AfterDefer(r, Defer(f, now, Pending, map[], None, true)).Some? <==>
              && OwnsLive(r, f, now) && !HasMachineWork(r.items) && r.control != Some(Cancel)
              && (r.mutation.Some? ==> r.mutation.value in r.items)
  {
  }

  lemma SettleNeedsLease(r: Row, f: Fence, now: int, outcome: FlowStatus, items: map<string, Frame>)
    requires AfterSettle(r, Settle(f, now, outcome, items, None, true)).Some?
    ensures OwnsLive(r, f, now)
  {
  }

  lemma EndsIff(r: Row, f: Fence, now: int, failure: bool)
    requires RowOk(r)
    ensures ArmCommits(r, f, now, ChooseArm(Statuses(r.items), failure), Frames(r.items)) <==> Ends(r, f, now, failure)
  {
    match ChooseArm(Statuses(r.items), failure)
    case HandedOn =>
    case DeferredToHuman => DeferCommitsIff(r, f, now);
    case SettledFailed => SettledIff(r, f, now, Failed);
    case SettledCompleted => SettledIff(r, f, now, Completed);
  }

  lemma SettledIff(r: Row, f: Fence, now: int, outcome: FlowStatus)
    requires RowOk(r) && outcome in {Failed, Completed}
    ensures AfterSettle(r, Settle(f, now, outcome, Frames(r.items), None, true)).Some? <==>
              && OwnsLive(r, f, now) && !HasMachineWork(r.items) && r.control != Some(Cancel)
              && (r.mutation.Some? ==> r.mutation.value in r.items)
  {
    if AfterSettle(r, Settle(f, now, outcome, Frames(r.items), None, true)).Some? {
      SettleNeedsLease(r, f, now, outcome, Frames(r.items));
    }
    if OwnsLive(r, f, now) {
      SettleCommitsIff(r, f, now, outcome);
    }
  }

  /** The Worker that one CLI execution registers for itself. */
  function Transient(now: int): Registration {
    Registration(true, now, LEASE, {"organize"}, None)
  }

  /** The kernel after the registration and the named claim. */
  function AtClaim(k: Kernel, t: string, me: Owner, now: int): Kernel {
    Apply(Apply(k, Register(me.worker, Transient(now))), OnTask(t, Claim(me.worker, me.token, now, LEASE)))
  }

  /** The kernel at the running boundary. */
  function AtStart(k: Kernel, t: string, me: Owner, now: int): Kernel {
    Apply(AtClaim(k, t, me, now),
          OnTask(t, Begin(Fence(me, if t in k.rows then k.rows[t].generation + 1 else 0), now)))
  }

  function Admitted(k: Kernel, t: string, a: Admission): Kernel {
    k.(rows := k.rows[t := AdmittedRow(a, None)])
  }

  predicate Startable(k: Kernel, t: string, a: Admission, capacity: nat) {
    t !in k.rows && Used(k) < capacity && a.command == "organize"
  }

  /** Every fatal publication of the work commits, one after the other. */
  predicate WorkCommits(k: Kernel, work: seq<Work>, t: string, f: Fence, now: int)
    decreases |work|
  {
    work == [] || (&& (work[0].fatal ==> Attempt(k, OnTask(t, Published(work[0].step, f, now))).Some?)
                   && WorkCommits(Apply(k, OnTask(t, Published(work[0].step, f, now))), work[1..], t, f, now))
  }

  function Worked(k: Kernel, work: seq<Work>, t: string, f: Fence, now: int): Kernel
    decreases |work|
  {
    if work == [] then k else Worked(Apply(k, OnTask(t, Published(work[0].step, f, now))), work[1..], t, f, now)
  }

  /** The Task can be ended as the returned pass asks: the accepted control, or else the CLI's own cancel, is
      answered, and without either the settlement of the sources commits. */
  predicate Finishes(r: Row, f: Fence, now: int, failure: bool, cancelled: bool) {
    if r.control.Some? then Answers(r, f, now, true)
    else if cancelled then OwnsLive(r, f, now) && Unmarked(r, true) && ControlFree(r, Cancel)
    else Ends(r, f, now, failure)
  }

  predicate PassEnds(k: Kernel, work: seq<Work>, t: string, f: Fence, now: int, result: PassResult, cancelled: bool) {
    && WorkCommits(k, work, t, f, now) && !result.Crashed?
    && var done := Worked(k, work, t, f, now);
       t in done.rows && Finishes(done.rows[t], f, now, result != Returned(false), cancelled)
  }

  lemma ClaimAlone(k: Kernel, t: string, me: Owner, now: int)
    ensures var registered := Apply(k, Register(me.worker, Transient(now)));
            var claim := OnTask(t, Claim(me.worker, me.token, now, LEASE));
            && registered.rows == k.rows && Attempt(k, Register(me.worker, Transient(now))).Some?
            && (Attempt(registered, claim).Some? <==> t in k.rows && Claimable(k.rows[t], Transient(now), now))
            && (Attempt(registered, claim).Some? ==>
                  && t in AtClaim(k, t, me, now).rows
                  && AtClaim(k, t, me, now).rows[t].generation == k.rows[t].generation + 1
                  && AtClaim(k, t, me, now).rows[t].control == k.rows[t].control
                  && AtClaim(k, t, me, now).rows[t].status == Pending
                  && OwnsLive(AtClaim(k, t, me, now).rows[t], Fence(me, k.rows[t].generation + 1), now))
  {
  }

  lemma WorkStep(k: Kernel, work: seq<Work>, i: nat, t: string, f: Fence, now: int)
    requires i < |work| && t in k.rows
    ensures var c := Published(work[i].step, f, now);
            && (WorkCommits(k, work[i..], t, f, now) <==>
                  (work[i].fatal ==> Next(k, k.rows[t], c).Some?) && WorkCommits(Apply(k, OnTask(t, c)), work[i + 1..], t, f, now))
            && Worked(k, work[i..], t, f, now) == Worked(Apply(k, OnTask(t, c)), work[i + 1..], t, f, now)
  {
    assert work[i..][0] == work[i] && work[i..][1..] == work[i + 1..];
  }

  /** The row that the end of a pass finds when nobody else is at work. */
  function Observed(r: Row, cancelled: bool): Row {
    if cancelled && r.control.None? then r.(control := Some(Cancel), requests := r.requests + [Cancel]) else r
  }

  /** The CLI's own cancel: recorded, and settled at once when nobody owns the Task. */
  function CancelledBy(r: Row, now: int): Option<Row> {
    match AfterRequest(r, Cancel)
    case None => None
    case Some(q) =>
      if q.owner.None? && q.queue in {Queued, WaitingHuman, Suspended}
      then AfterAcknowledge(q, Acknowledge(None, now, |q.requests|, q.admission.authorized, Frames(q.items), q.started, false))
      else Some(q)
  }

  /** On a claimed Task it is recorded and nothing else; on one that nobody owns it settles the Task exactly when
      no effect is in flight and no source to be cancelled has a recorded outcome. */
  lemma CancelledByIff(r: Row, now: int)
    requires RowOk(r) && r.queue != Settled
    ensures r.queue == Claimed && r.control.None? ==> CancelledBy(r, now) == Some(Observed(r, true))
    ensures r.owner.None? ==>
              (CancelledBy(r, now).Some? <==> r.mutation.None? && ControlFree(r, Cancel))
              && (CancelledBy(r, now).Some? ==> Leaves(Acknowledged, CancelledBy(r, now).value) && CancelledBy(r, now).value.queue == Settled)
  {
    if r.owner.None? {
      var q := AfterRequest(r, Cancel).value;
      assert Last(q.requests) == Cancel && q.items == r.items && q.results == r.results;
      assert ControlFree(q, Cancel) <==> ControlFree(r, Cancel);
      OperatorSettlesIff(q, now);
    }
  }

  lemma FinishesIff(r: Row, f: Fence, now: int, failure: bool, cancelled: bool)
    ensures var q := Observed(r, cancelled);
            Finishes(r, f, now, failure, cancelled) <==> if q.control.Some? then Answers(q, f, now, true) else Ends(q, f, now, failure)
    ensures Finishes(r, f, now, failure, cancelled) ==> Owns(r, f)
  {
    assert cancelled && r.control.None? ==> (ControlFree(Observed(r, cancelled), Cancel) <==> ControlFree(r, Cancel));
  }

  class CliProcess {
    const task: string
    const me: Owner
    const admission: Admission
    const capacity: nat
    var kernel: Kernel
    var schedule: seq<Turn>
    var clock: int
    var stopFailed: bool
    /** The claim-ending transactions this process committed, in order. */
    ghost var endings: seq<Change>
    /** The own transactions that committed although their call raised. */
    ghost var lost: seq<Op>
    /** Every transaction that anybody attempted since this process started; the kernel is its run. */
    ghost var trace: seq<Op>
    ghost const origin: Kernel

    constructor (task: string, me: Owner, admission: Admission, capacity: nat, kernel: Kernel, schedule: seq<Turn>, clock: int)
      requires KernelOk(kernel)
      requires forall t, o | t in schedule && o in t.others :: Foreign(o, me)
      ensures Valid() && this.kernel == kernel && origin == kernel && endings == [] && lost == [] && trace == [] && !stopFailed
      ensures this.task == task && this.me == me && this.admission == admission && this.capacity == capacity
    {
      this.task, this.me, this.admission, this.capacity := task, me, admission, capacity;
      this.kernel, this.schedule, this.clock, this.stopFailed := kernel, schedule, clock, false;
      endings, lost, trace, origin := [], [], [], kernel;
    }

    ghost predicate Valid()
      reads this
    {
      && KernelOk(kernel)
      && kernel == Run(origin, trace)
      && forall t, o | t in schedule && o in t.others :: Foreign(o, me)
    }

    /** f is an ownership this process was granted. */
    ghost predicate Granted(f: Fence)
      reads this
    {
      f.owner == me && task in kernel.rows && f.generation <= kernel.rows[task].generation
    }

    /** Exactly one claim-ending transaction was added, it is arm's own under f, and it left the Task so. */
    ghost predicate Ended(earlier: seq<Change>, f: Fence, arm: Arm)
      reads this
    {
      && |endings| == |earlier| + 1 && earlier < endings
      && EndsClaim(endings[|earlier|], f, arm)
      && task in kernel.rows && Leaves(arm, kernel.rows[task])
    }

    /** No claim was ended, or f's was, as arm does it, by a call that raised all the same. */
    ghost predicate Unended(earlier: seq<Change>, f: Fence, arm: Arm)
      reads this
    {
      endings == earlier || (&& |endings| == |earlier| + 1 && earlier < endings && EndsClaim(endings[|earlier|], f, arm)
                             && OnTask(task, endings[|earlier|]) in lost)
    }

    /** Others run; the turn says what becomes of the call that follows. */
    method Advance(ghost f: Fence) returns (fault: Fault)
      requires Valid() && f.owner == me
      modifies this
      ensures Valid() && old(trace) <= trace && kernel == Run(old(kernel), trace[|old(trace)|..])
              && Undisturbed(old(kernel), trace[|old(trace)|..], task, f)
      ensures endings == old(endings) && lost == old(lost) && stopFailed == old(stopFailed)
      ensures Calm() && (old(schedule) == [] ==> fault == NoFault && kernel == old(kernel))
      ensures old(schedule) != [] ==>
                && fault == old(schedule)[0].fault && trace == old(trace) + old(schedule)[0].others
                && clock == old(schedule)[0].clock && schedule == old(schedule)[1..]
    {
      var turn := if schedule == [] then Turn([], NoFault, clock) else schedule[0];
      ForeignRun(kernel, turn.others, task, f);
      RunConcat(origin, trace, turn.others);
      assert (trace + turn.others)[|trace|..] == turn.others;
      kernel := Run(kernel, turn.others);
      trace := trace + turn.others;
      clock := turn.clock;
      schedule := if schedule == [] then [] else schedule[1..];
      fault := turn.fault;
    }

    /** Others run, then this process reads; None when the read raises. */
    method Look(ghost f: Fence) returns (row: Option<Row>)
      requires Valid() && f.owner == me
      modifies this
      ensures Valid() && old(trace) <= trace && kernel == Run(old(kernel), trace[|old(trace)|..])
              && Undisturbed(old(kernel), trace[|old(trace)|..], task, f)
      ensures endings == old(endings) && lost == old(lost) && stopFailed == old(stopFailed)
      ensures row.Some? ==> task in kernel.rows && row.value == kernel.rows[task]
      ensures Calm() && (old(schedule) == [] ==> kernel == old(kernel) && (row.Some? <==> task in kernel.rows))
      ensures row.Some? <==> task in kernel.rows && (old(schedule) != [] ==> old(schedule)[0].fault == NoFault)
    {
      var fault := Advance(f);
      row := if fault != NoFault || task !in kernel.rows then None else Some(kernel.rows[task]);
    }

    /** Others run, then this process's own transaction commits, is refused, or its call raises before or
        after the commit. before and at are the kernel and the length of the trace it ran on. */
    method Execute(op: Op, ghost f: Fence) returns (reply: Reply, ghost before: Kernel, ghost at: nat)
      requires Valid() && f.owner == me
      modifies this
      ensures Valid() && old(trace) <= trace && stopFailed == old(stopFailed)
      ensures |old(trace)| <= at <= |trace| && KernelOk(before)
      ensures before == Run(old(kernel), trace[|old(trace)|..at]) && Undisturbed(old(kernel), trace[|old(trace)|..at], task, f)
      ensures (kernel == before && trace == trace[..at]) || (Attempt(before, op) == Some(kernel) && trace == trace[..at] + [op])
      ensures reply == Committed ==> Attempt(before, op) == Some(kernel) && trace == trace[..at] + [op] && lost == old(lost)
      ensures reply == Refused ==> Attempt(before, op).None? && kernel == before && trace == trace[..at] && lost == old(lost)
      ensures reply == Raised ==> lost == if |trace| == at then old(lost) else old(lost) + [op]
      ensures endings == if |trace| > at && Ending(op) then old(endings) + [op.change] else old(endings)
      ensures Calm() && (old(schedule) == [] ==>
                kernel == Apply(old(kernel), op) && (reply == Committed <==> Attempt(old(kernel), op).Some?))
      ensures old(schedule) != [] ==> AsScheduled(old(schedule)[0].fault, reply, |trace| > at, Attempt(before, op).Some?)
    {
      var fault := Advance(f);
      before := kernel;
      at := |trace|;
      ghost var n := |old(trace)|;
      assert trace[..at] == trace && trace[n..at] == trace[n..];
      assert (trace + [op])[n..at] == trace[n..at];
      reply := if fault == NoFault then Refused else Raised;
      if fault != BeforeCommit && Attempt(kernel, op).Some? {
        Commit(op);
        if fault == NoFault {
          reply := Committed;
        } else {
          lost := lost + [op];
        }
      }
    }

    method Commit(op: Op)
      requires Valid() && Attempt(kernel, op).Some?
      modifies this`kernel, this`trace, this`endings
      ensures Valid() && kernel == Attempt(old(kernel), op).value && trace == old(trace) + [op]
      ensures endings == if Ending(op) then old(endings) + [op.change] else old(endings)
    {
      ApplyKeepsKernel(kernel, op);
      RunConcat(origin, trace, [op]);
      RunOne(kernel, op);
      kernel := Attempt(kernel, op).value;
      trace := trace + [op];
      if Ending(op) {
        endings := endings + [op.change];
      }
    }

    /** Best-effort cleanup: an error is swallowed and remembered. */
    method StopWorker(ghost f: Fence)
      requires Valid() && f.owner == me
      modifies this
      ensures Valid() && old(trace) <= trace && endings == old(endings)
      ensures old(stopFailed) ==> stopFailed
      ensures old(lost) <= lost && forall o | o in lost[|old(lost)|..] :: o.Stop?
      ensures stopFailed || !LiveWorker(kernel, me.worker)
      ensures Calm()
    {
      var reply, before, at := Execute(Stop(me.worker, clock), f);
      if reply == Raised {
        stopFailed := true;
      }
    }

    /** One transaction on the Task, seen at its row. */
    method Transact(c: Change, f: Fence) returns (ok: bool, ghost before: Kernel, ghost at: nat)
      requires Valid() && Granted(f)
      modifies this
      ensures Valid() && Granted(f) && Onward()
      ensures endings == old(endings) || (Ending(OnTask(task, c)) && endings == old(endings) + [c] && (ok || OnTask(task, c) in lost))
      ensures ok ==> |old(trace)| <= at <= |trace| && trace == trace[..at] + [OnTask(task, c)] && lost == old(lost)
      ensures ok ==> endings == if Ending(OnTask(task, c)) then old(endings) + [c] else old(endings)
      ensures ok ==> before == Run(old(kernel), trace[|old(trace)|..at]) && Kept(old(kernel), trace[|old(trace)|..at], task, f)
                     && Next(before, before.rows[task], c) == Some(kernel.rows[task])
      ensures old(schedule) == [] ==> kernel == Apply(old(kernel), OnTask(task, c))
                                      && (ok <==> Next(old(kernel), old(kernel).rows[task], c).Some?)
                                      && (ok ==> Next(old(kernel), old(kernel).rows[task], c) == Some(kernel.rows[task]))
    {
      var reply: Reply;
      reply, before, at := Execute(OnTask(task, c), f);
      ok := reply == Committed;
      assert before == Run(old(kernel), trace[|old(trace)|..at]) && Kept(old(kernel), trace[|old(trace)|..at], task, f);
      if |trace| > at {
        TaskStep(before, kernel, task, c);
      }
    }

    /** One release transaction. */
    method Release(c: Change, f: Fence) returns (ok: bool, ghost before: Row, ghost at: nat)
      requires Valid() && Granted(f) && IsRelease(c) && (FenceOf(c).Some? ==> FenceOf(c) == Some(f))
      modifies this
      ensures Valid() && Granted(f) && Onward()
      ensures !ok ==> endings == old(endings) || (FenceOf(c).Some? && endings == old(endings) + [c] && OnTask(task, c) in lost)
      ensures ok ==> |old(trace)| <= at <= |trace| && trace == trace[..at] + [OnTask(task, c)] && lost == old(lost)
      ensures ok ==> Kept(old(kernel), trace[|old(trace)|..at], task, f) && before == Run(old(kernel), trace[|old(trace)|..at]).rows[task]
      ensures ok ==> AfterRelease(before, c) == Some(kernel.rows[task])
      ensures ok ==> endings == if FenceOf(c).Some? then old(endings) + [c] else old(endings)
      ensures ok && FenceOf(c).Some? ==> old(Owns(kernel.rows[task], f)) && Owns(before, f)
      ensures old(schedule) == [] ==> (ok <==> AfterRelease(old(kernel.rows[task]), c).Some?)
                                      && (ok ==> AfterRelease(old(kernel.rows[task]), c) == Some(kernel.rows[task]))
    {
      ghost var earlier: Kernel;
      ReleaseIsNext(kernel, kernel.rows[task], c);
      ok, earlier, at := Transact(c, f);
      before := kernel.rows[task];
      if ok {
        before := earlier.rows[task];
        ReleaseIsNext(earlier, before, c);
        ReleaseFacts(before, c);
      }
    }

    /** The owner's side of a control request: settle exactly the control it read. */
    method AcknowledgeControl(f: Fence, close: bool) returns (ok: bool)
      requires Valid() && Granted(f)
      modifies this
      ensures Valid() && Granted(f) && Onward()
      ensures !ok ==> Unended(old(endings), f, Acknowledged)
      ensures ok ==> Ended(old(endings), f, Acknowledged) && old(Owns(kernel.rows[task], f))
      ensures old(schedule) == [] ==> (ok <==> old(Answers(kernel.rows[task], f, clock, close)))
    {
      var now := clock;
      var state := Look(f);
      if state.None? || state.value.control.None? {
        return false;
      }
      var items := Look(f);
      if items.None? {
        return false;
      }
      ghost var before: Row;
      ghost var at: nat;
      var c := Acknowledge(Some(f), now, |state.value.requests|, items.value.admission.authorized,
                           Frames(items.value.items), items.value.started, close);
      AnswersIff(state.value, f, now, close);
      ok, before, at := Release(c, f);
      if ok {
        AcknowledgeFacts(before, c);
      }
    }

    /** Publish the running boundary, unless a control was already accepted. */
    method BeginWork(f: Fence) returns (ok: bool)
      requires Valid() && Granted(f)
      modifies this
      ensures Valid() && Granted(f) && Onward() && endings == old(endings)
      ensures ok ==> Owns(kernel.rows[task], f) && kernel.rows[task].status == Running
      ensures old(schedule) == [] ==> (ok <==> old(MayBegin(kernel.rows[task], f, clock)))
                                      && (ok ==> kernel == Apply(old(kernel), OnTask(task, Begin(f, clock))))
    {
      var now := clock;
      var state := Look(f);
      if state.None? || state.value.control.Some? {
        return false;
      }
      ghost var before: Kernel;
      ghost var at: nat;
      ok, before, at := Transact(Begin(f, now), f);
    }

    /** The yielding transaction; at is the length of the trace it ran on. */
    method YieldNow(f: Fence, now: int, started: Option<int>) returns (ok: bool, ghost at: nat)
      requires Valid() && Granted(f)
      modifies this
      ensures Valid() && Granted(f) && Onward()
      ensures !ok ==> Unended(old(endings), f, HandedOn)
      ensures ok ==> old(Owns(kernel.rows[task], f)) && |old(trace)| <= at <= |trace|
                     && |endings| == |old(endings)| + 1 && old(endings) < endings
                     && EndsClaim(endings[|old(endings)|], f, HandedOn)
                     && LeftAfter(old(kernel), trace[|old(trace)|..at], task, HandedOn, map[], kernel.rows[task])
                     && kernel.rows[task].queue == Queued && kernel.rows[task].status == Pending
                     && kernel.rows[task].started == started && kernel.rows[task].control.None?
      ensures old(schedule) == [] ==> (ok <==> MayYield(old(kernel.rows[task]), f, now))
    {
      ghost var entry, n := kernel, |trace|;
      ghost var before: Kernel;
      YieldCommitsIff(kernel, kernel.rows[task], f, now, started);
      ok, before, at := Transact(Yield(f, now, started, None), f);
      if ok {
        YieldLeaves(entry, trace[n..at], task, f, now, started, kernel.rows[task]);
      }
    }

    /** Give the claim back while the Task keeps its slot; a pending control or effect refuses it. */
    method YieldClaim(f: Fence, started: Option<int>) returns (ok: bool, ghost at: nat)
      requires Valid() && Granted(f)
      modifies this
      ensures Valid() && Granted(f) && Onward()
      ensures !ok ==> Unended(old(endings), f, HandedOn)
      ensures ok ==> old(Owns(kernel.rows[task], f)) && |old(trace)| <= at <= |trace|
                     && |endings| == |old(endings)| + 1 && old(endings) < endings
                     && EndsClaim(endings[|old(endings)|], f, HandedOn)
                     && LeftAfter(old(kernel), trace[|old(trace)|..at], task, HandedOn, map[], kernel.rows[task])
                     && kernel.rows[task].queue == Queued && kernel.rows[task].status == Pending
                     && kernel.rows[task].started == started && kernel.rows[task].control.None?
      ensures old(schedule) == [] ==> (ok <==> old(MayYield(kernel.rows[task], f, clock)))
    {
      var now := clock;
      ghost var entry, n := kernel, |trace|;
      at := n;
      var again := Look(f);
      if again.None? || again.value.control.Some? || again.value.mutation.Some? {
        return false, at;
      }
      ghost var mid := trace;
      ok, at := YieldNow(f, now, started);
      if ok {
        LeftAcross(entry, mid, n, trace, at, task, HandedOn, map[], kernel.rows[task]);
      }
    }

    method PublishTask(f: Fence, flow: FlowStatus) returns (ok: bool)
      requires Valid() && Granted(f)
      modifies this
      ensures Valid() && Granted(f) && Onward() && endings == old(endings)
      ensures ok ==> old(Owns(kernel.rows[task], f)) && Owns(kernel.rows[task], f)
                     && kernel == Run(old(kernel), trace[|old(trace)|..]) && Followed(old(kernel), trace[|old(trace)|..], task)
                     && kernel.rows[task].status == flow && kernel.rows[task].started.None?
      ensures old(schedule) == [] ==> kernel == Apply(old(kernel), OnTask(task, Publish(f, clock, flow, None)))
                                      && (ok <==> old(OwnsLive(kernel.rows[task], f, clock)))
    {
      ghost var before: Kernel;
      ghost var at: nat;
      ghost var entry, mid := kernel, trace;
      var c := Publish(f, clock, flow, None);
      ok, before, at := Transact(c, f);
      if ok {
        RunSince(origin, mid, trace);
        PublishFollows(entry, |mid|, trace, at, task, f, c, kernel.rows[task]);
      }
    }

    method DeferToHuman(f: Fence) returns (ok: bool, ghost at: nat)
      requires Valid() && Granted(f)
      modifies this
      ensures Valid() && Granted(f) && Onward()
      ensures !ok ==> Unended(old(endings), f, DeferredToHuman)
      ensures ok ==> Ended(old(endings), f, DeferredToHuman) && old(Owns(kernel.rows[task], f)) && |old(trace)| <= at <= |trace|
                     && LeftAfter(old(kernel), trace[|old(trace)|..at], task, DeferredToHuman, map[], kernel.rows[task])
      ensures old(schedule) == [] ==> (ok <==> old(ArmCommits(kernel.rows[task], f, clock, DeferredToHuman, map[])))
    {
      var c := Defer(f, clock, Pending, map[], None, true);
      ghost var before: Row;
      ok, before, at := Release(c, f);
      if ok {
        DeferFacts(before, c);
      }
    }

    method SettleTask(f: Fence, outcome: FlowStatus, items: map<string, Frame>) returns (ok: bool, ghost at: nat)
      requires Valid() && Granted(f) && outcome in {Failed, Completed}
      modifies this
      ensures Valid() && Granted(f) && Onward()
      ensures !ok ==> Unended(old(endings), f, if outcome == Failed then SettledFailed else SettledCompleted)
      ensures ok ==> Ended(old(endings), f, if outcome == Failed then SettledFailed else SettledCompleted)
                     && old(Owns(kernel.rows[task], f)) && |old(trace)| <= at <= |trace|
                     && LeftAfter(old(kernel), trace[|old(trace)|..at], task, SettledCompleted, items, kernel.rows[task])
      ensures old(schedule) == [] ==>
                (ok <==> old(ArmCommits(kernel.rows[task], f, clock, if outcome == Failed then SettledFailed else SettledCompleted, items)))
    {
      var c := Settle(f, clock, outcome, items, None, true);
      ghost var before: Row;
      ok, before, at := Release(c, f);
      if ok {
        SettleFacts(before, c);
      }
    }

    /** Give the claim back after a failed running boundary: settle an accepted control, or yield.
        Any error here is swallowed, so a failure leaves the claim where it is. */
    method HandBack(f: Fence, started: Option<int>) returns (arm: Option<Arm>)
      requires Valid() && Granted(f)
      modifies this
      ensures Valid() && Granted(f) && Onward()
      ensures arm.None? ==> Unended(old(endings), f, Acknowledged) || Unended(old(endings), f, HandedOn)
      ensures arm.Some? ==> arm.value in {Acknowledged, HandedOn}
                            && |endings| == |old(endings)| + 1 && old(endings) < endings
                            && EndsClaim(endings[|old(endings)|], f, arm.value)
      ensures arm == Some(HandedOn) ==> kernel.rows[task].control.None? && kernel.rows[task].queue == Queued
      ensures arm == Some(Acknowledged) ==> Leaves(Acknowledged, kernel.rows[task])
      ensures old(schedule) == [] ==>
                (arm.Some? <==> old(Answers(kernel.rows[task], f, clock, false)) || old(MayYield(kernel.rows[task], f, clock)))
    {
      var state := Look(f);
      if state.None? {
        return None;
      }
      if state.value.control.Some? {
        var ok := AcknowledgeControl(f, false);
        return if ok then Some(Acknowledged) else None;
      }
      ghost var at: nat;
      var ok: bool;
      ok, at := YieldClaim(f, started);
      arm := if ok then Some(HandedOn) else None;
    }

    /** The transient Worker's registration, under its own name and for organizing alone. */
    method RegisterWorker() returns (reply: Reply)
      requires Valid()
      modifies this
      ensures Valid() && old(trace) <= trace && stopFailed == old(stopFailed) && endings == old(endings) && old(lost) <= lost
      ensures reply != Committed && LiveWorker(kernel, me.worker) ==> LiveWorker(old(kernel), me.worker) || RegisterLost()
      ensures Calm() && (old(schedule) == [] ==>
                reply == Committed && kernel == Apply(old(kernel), Register(me.worker, Transient(old(clock)))))
    {
      ghost var none := Fence(me, 0);
      ghost var before: Kernel;
      ghost var at: nat;
      reply, before, at := Execute(Register(me.worker, Registration(true, clock, LEASE, {"organize"}, None)), none);
      assert lost != old(lost) ==> lost[|lost| - 1].Register?;
    }

    /** The named claim. */
    method TakeClaim() returns (reply: Reply)
      requires Valid()
      modifies this
      ensures Valid() && old(trace) <= trace && stopFailed == old(stopFailed) && endings == old(endings) && old(lost) <= lost
      ensures reply == Committed ==> task in kernel.rows && Owns(kernel.rows[task], Fence(me, kernel.rows[task].generation))
      ensures Calm() && (old(schedule) == [] ==>
                && kernel == Apply(old(kernel), OnTask(task, Claim(me.worker, me.token, old(clock), LEASE)))
                && (reply == Committed <==>
                      Attempt(old(kernel), OnTask(task, Claim(me.worker, me.token, old(clock), LEASE))).Some?))
    {
      ghost var none := Fence(me, 0);
      ghost var before: Kernel;
      ghost var at: nat;
      reply, before, at := Execute(OnTask(task, Claim(me.worker, me.token, clock, LEASE)), none);
    }

    /** Register the transient Worker and take the named claim; without it the Worker is stopped again,
        unless already the registration raised. */
    method ClaimTask() returns (claim: Option<Fence>)
      requires Valid()
      modifies this
      ensures Valid() && old(trace) <= trace && (old(stopFailed) ==> stopFailed) && endings == old(endings) && old(lost) <= lost
      ensures claim.Some? ==> Granted(claim.value) && Owns(kernel.rows[task], claim.value)
      ensures claim.None? && LiveWorker(kernel, me.worker) ==> stopFailed || LiveWorker(old(kernel), me.worker) || RegisterLost()
      ensures Calm() && (old(schedule) == [] ==>
                && (claim.Some? <==> task in old(kernel.rows) && old(Claimable(kernel.rows[task], Transient(clock), clock)))
                && (claim.Some? ==> kernel == AtClaim(old(kernel), task, me, old(clock)) && OwnsLive(kernel.rows[task], claim.value, clock)
                                    && claim == Some(Fence(me, old(kernel.rows[task].generation) + 1))))
    {
      ghost var none := Fence(me, 0);
      ClaimAlone(kernel, task, me, clock);
      var reply := RegisterWorker();
      if reply != Committed {
        return None;
      }
      reply := TakeClaim();
      if reply != Committed {
        StopWorker(none);
        var state := Look(none);
        return None;
      }
      claim := Some(Fence(me, kernel.rows[task].generation));
    }

    /** Publish the running boundary, or give the claim back and stop the Worker. */
    method BeginOrHandBack(f: Fence) returns (begun: bool)
      requires Valid() && Granted(f)
      modifies this
      ensures Valid() && old(trace) <= trace && (old(stopFailed) ==> stopFailed) && old(lost) <= lost
      ensures begun ==> Granted(f) && Owns(kernel.rows[task], f) && kernel.rows[task].status == Running && endings == old(endings)
      ensures !begun ==> old(endings) <= endings && |endings| <= |old(endings)| + 1
                         && (endings != old(endings) ==> HandedBack(endings[|old(endings)|]))
      ensures !begun && LiveWorker(kernel, me.worker) ==> stopFailed
      ensures Calm() && (old(schedule) == [] ==>
                && (begun <==> old(MayBegin(kernel.rows[task], f, clock)))
                && (begun ==> kernel == Apply(old(kernel), OnTask(task, Begin(f, clock)))))
    {
      var started := kernel.rows[task].started;
      begun := BeginWork(f);
      if !begun {
        var arm := HandBack(f, started);
        StopWorker(f);
      }
    }

    /** Register, claim the admitted Task, and publish its running boundary; undo what a failure left. */
    method Drive() returns (claim: Option<Fence>)
      requires Valid()
      modifies this
      ensures Valid() && old(trace) <= trace && (old(stopFailed) ==> stopFailed) && old(lost) <= lost
      ensures claim.Some? ==> Granted(claim.value) && Owns(kernel.rows[task], claim.value)
                              && kernel.rows[task].status == Running && endings == old(endings)
      ensures claim.None? ==> old(endings) <= endings && |endings| <= |old(endings)| + 1
      ensures claim.None? && endings != old(endings) ==> HandedBack(endings[|old(endings)|])
      ensures claim.None? && LiveWorker(kernel, me.worker) ==> stopFailed || LiveWorker(old(kernel), me.worker) || RegisterLost()
      ensures Calm() && (old(schedule) == [] ==>
                && (claim.Some? <==> task in old(kernel.rows) && old(Claimable(kernel.rows[task], Transient(clock), clock))
                                     && old(kernel.rows[task]).control.None?)
                && (claim.Some? ==> kernel == AtStart(old(kernel), task, me, old(clock))
                                    && claim == Some(Fence(me, old(kernel.rows[task].generation) + 1))))
    {
      ClaimAlone(kernel, task, me, clock);
      claim := ClaimTask();
      if claim.None? {
        return None;
      }
      var begun := BeginOrHandBack(claim.value);
      if !begun {
        return None;
      }
    }

    /** Machine work remains: publish the Task as running and keep its slot for the next claim. */
    method HandOn(f: Fence) returns (ok: bool, ghost at: nat)
      requires Valid() && Granted(f)
      modifies this
      ensures Valid() && Granted(f) && Onward()
      ensures !ok ==> Unended(old(endings), f, HandedOn)
      ensures ok ==> Ended(old(endings), f, HandedOn) && old(Owns(kernel.rows[task], f)) && |old(trace)| <= at <= |trace|
                     && LeftAfter(old(kernel), trace[|old(trace)|..at], task, HandedOn, map[], kernel.rows[task])
      ensures old(schedule) == [] ==> (ok <==> old(MayYield(kernel.rows[task], f, clock)))
    {
      ghost var entry, n := kernel, |trace|;
      at := n;
      PublishedRow(kernel, task, f, clock, Running);
      PublishedFirst(kernel.rows[task], f, clock, Running);
      ok := PublishTask(f, Running);
      if ok {
        ghost var mid := trace;
        ok, at := YieldClaim(f, None);
        if ok {
          LeftAcross(entry, mid, n, trace, at, task, HandedOn, map[], kernel.rows[task]);
        }
      }
    }

    /** Only the operator can go on: the published projection is the admitted Task, still pending. */
    method WaitForHuman(f: Fence) returns (ok: bool, ghost at: nat)
      requires Valid() && Granted(f)
      modifies this
      ensures Valid() && Granted(f) && Onward()
      ensures !ok ==> Unended(old(endings), f, DeferredToHuman)
      ensures ok ==> Ended(old(endings), f, DeferredToHuman) && old(Owns(kernel.rows[task], f)) && |old(trace)| <= at <= |trace|
                     && LeftAfter(old(kernel), trace[|old(trace)|..at], task, DeferredToHuman, map[], kernel.rows[task])
      ensures old(schedule) == [] ==> (ok <==> old(ArmCommits(kernel.rows[task], f, clock, DeferredToHuman, map[])))
    {
      ghost var entry, n := kernel, |trace|;
      at := n;
      PublishedRow(kernel, task, f, clock, Pending);
      PublishedFirst(kernel.rows[task], f, clock, Pending);
      ok := PublishTask(f, Pending);
      if ok {
        ghost var mid := trace;
        ok, at := DeferToHuman(f);
        if ok {
          LeftAcross(entry, mid, n, trace, at, task, DeferredToHuman, map[], kernel.rows[task]);
        }
      }
    }

    /** End the claim in the chosen arm; at is the length of the trace it ran on. */
    method TakeArm(f: Fence, chosen: Arm, items: map<string, Frame>) returns (ok: bool, ghost at: nat)
      requires Valid() && Granted(f) && chosen != Acknowledged
      modifies this
      ensures Valid() && Granted(f) && Onward()
      ensures !ok ==> Unended(old(endings), f, chosen)
      ensures ok ==> Ended(old(endings), f, chosen) && old(Owns(kernel.rows[task], f)) && |old(trace)| <= at <= |trace|
                     && LeftAfter(old(kernel), trace[|old(trace)|..at], task, chosen, items, kernel.rows[task])
      ensures old(schedule) == [] ==> (ok <==> old(ArmCommits(kernel.rows[task], f, clock, chosen, items)))
    {
      if chosen == HandedOn {
        ok, at := HandOn(f);
      } else if chosen == DeferredToHuman {
        ok, at := WaitForHuman(f);
      } else {
        ok, at := SettleTask(f, if chosen == SettledFailed then Failed else Completed, items);
      }
    }

    /** Settle one returned pass under its live claim. The arm is chosen from the sources as this call
        reads them; basis says what it read, and when. */
    method SettlePass(f: Fence, failure: bool) returns (arm: Option<Arm>, ghost basis: Basis)
      requires Valid() && Granted(f)
      modifies this
      ensures Valid() && Granted(f) && Onward()
      ensures arm.None? ==> endings == old(endings) || exists a: Arm :: Unended(old(endings), f, a)
      ensures arm.Some? ==> old(Owns(kernel.rows[task], f)) && arm != Some(Acknowledged) && Ended(old(endings), f, arm.value)
                            && Rests(arm.value, basis, kernel.rows[task], failure, |old(trace)|)
      ensures old(schedule) == [] ==> (arm.Some? <==> old(Ends(kernel.rows[task], f, clock, failure)))
    {
      var state := Look(f);
      basis := Basis(map[], |trace|, |trace|);
      if state.None? {
        return None, basis;
      }
      var items := Statuses(state.value.items);
      var chosen := ChooseArm(items, failure);
      EndsIff(state.value, f, clock, failure);
      ghost var entry, mid := kernel, trace;
      ghost var at: nat;
      var ok: bool;
      ok, at := TakeArm(f, chosen, Frames(state.value.items));
      basis := Basis(items, |mid|, at);
      arm := if ok then Some(chosen) else None;
      if ok {
        assert trace[..|mid|] == mid;
        ArmStillFits(chosen, entry, trace[|mid|..at], task, kernel.rows[task], failure);
      }
    }

    method PerformOne(f: Fence, step: Step) returns (ok: bool)
      requires Valid() && Granted(f)
      modifies this
      ensures Valid() && Granted(f) && Onward() && endings == old(endings)
      ensures old(schedule) == [] ==> kernel == Apply(old(kernel), OnTask(task, Published(step, f, clock)))
                                      && (ok <==> Next(old(kernel), old(kernel).rows[task], Published(step, f, clock)).Some?)
    {
      ghost var before: Kernel;
      ghost var at: nat;
      ok, before, at := Transact(Published(step, f, clock), f);
    }

    /** Publish the pipeline's work under the claim; false when a fatal publication failed. */
    method Perform(f: Fence, work: seq<Work>) returns (ok: bool)
      requires Valid() && Granted(f)
      modifies this
      ensures Valid() && Granted(f) && Onward() && endings == old(endings)
      ensures old(schedule) == [] ==> (ok <==> WorkCommits(old(kernel), work, task, f, clock))
                                      && (ok ==> kernel == Worked(old(kernel), work, task, f, clock))
    {
      for i := 0 to |work|
        invariant Valid() && Granted(f) && Onward() && endings == old(endings)
        invariant old(schedule) == [] ==>
                    && (WorkCommits(old(kernel), work, task, f, clock) <==> WorkCommits(kernel, work[i..], task, f, clock))
                    && Worked(old(kernel), work, task, f, clock) == Worked(kernel, work[i..], task, f, clock)
      {
        WorkStep(kernel, work, i, task, f, clock);
        var done := PerformOne(f, work[i].step);
        if !done && work[i].fatal {
          return false;
        }
      }
      ok := true;
    }

    method RecordCancel(f: Fence) returns (ok: bool)
      requires Valid() && Granted(f)
      modifies this
      ensures Valid() && Granted(f) && Onward() && endings == old(endings)
      ensures ok ==> kernel.rows[task].control == Some(Cancel)
      ensures ok && Owns(kernel.rows[task], f) ==> old(Owns(kernel.rows[task], f))
      ensures old(schedule) == [] ==> (ok <==> AfterRequest(old(kernel.rows[task]), Cancel).Some?)
                                      && (ok ==> AfterRequest(old(kernel.rows[task]), Cancel) == Some(kernel.rows[task]))
    {
      ghost var before: Kernel;
      ghost var at: nat;
      ok, before, at := Transact(Request(Cancel), f);
      if ok {
        RequestFacts(before.rows[task], kernel.rows[task], Cancel, f);
      }
    }

    /** The CLI's own cancellation: record it, and settle it at once when the Task has no owner any more. */
    method RequestCancel(f: Fence) returns (ok: bool)
      requires Valid() && Granted(f)
      modifies this
      ensures Valid() && Granted(f) && Onward() && endings == old(endings)
      ensures ok && Owns(kernel.rows[task], f) ==> old(Owns(kernel.rows[task], f)) && kernel.rows[task].control.Some?
      ensures old(schedule) == [] ==> (ok <==> CancelledBy(old(kernel.rows[task]), old(clock)).Some?)
                                      && (ok ==> CancelledBy(old(kernel.rows[task]), old(clock)) == Some(kernel.rows[task]))
    {
      ok := RecordCancel(f);
      if !ok {
        return false;
      }
      var row := kernel.rows[task];
      if row.owner.None? && row.queue in {Queued, WaitingHuman, Suspended} {
        var items := Look(f);
        if items.None? {
          return false;
        }
        var c := Acknowledge(None, clock, |row.requests|, items.value.admission.authorized,
                             Frames(items.value.items), items.value.started, false);
        ghost var earlier: Row;
        ghost var at: nat;
        ok, earlier, at := Release(c, f);
        if ok {
          AcknowledgeFacts(earlier, c);
        }
      }
    }

    /** The control that ends the pass: what is recorded, after the CLI's own cancellation if it wants one. */
    method ObserveControl(f: Fence, cancelled: bool) returns (state: Option<Row>)
      requires Valid() && Granted(f)
      modifies this
      ensures Valid() && Granted(f) && Onward() && endings == old(endings)
      ensures state.Some? ==> state.value == kernel.rows[task]
      ensures state.Some? && (cancelled || old(kernel.rows[task].control.Some?)) && state.value.control.None? ==>
                !Owns(kernel.rows[task], f)
      ensures old(schedule) == [] && old(kernel.rows[task]).queue == Claimed ==>
                state == Some(Observed(old(kernel.rows[task]), cancelled))
      ensures state.Some? && Owns(kernel.rows[task], f) ==> old(Owns(kernel.rows[task], f))
    {
      if kernel.rows[task].queue == Claimed {
        CancelledByIff(kernel.rows[task], clock);
      }
      state := Look(f);
      if state.Some? && cancelled && state.value.control.None? {
        var requested := RequestCancel(f);
        if !requested {
          return None;
        }
        state := Look(f);
      }
    }

    /** The end itself, under the control that was read. */
    method EndObserved(f: Fence, failure: bool, controlled: bool) returns (arm: Option<Arm>, ghost basis: Basis)
      requires Valid() && Granted(f)
      modifies this
      ensures Valid() && Granted(f) && Onward()
      ensures arm.None? ==> endings == old(endings) || exists a: Arm :: Unended(old(endings), f, a)
      ensures arm.Some? ==> Ended(old(endings), f, arm.value) && (arm == Some(Acknowledged) <==> controlled)
                            && old(Owns(kernel.rows[task], f))
                            && Rests(arm.value, basis, kernel.rows[task], failure, |old(trace)|)
      ensures old(schedule) == [] ==>
                (arm.Some? <==> old(if controlled then Answers(kernel.rows[task], f, clock, true) else Ends(kernel.rows[task], f, clock, failure)))
    {
      basis := Basis(Statuses(kernel.rows[task].items), |trace|, |trace|);
      ghost var entry := trace;
      if controlled {
        var ok := AcknowledgeControl(f, true);
        arm := if ok then Some(Acknowledged) else None;
        assert trace[..|entry|] == entry;
      } else {
        arm, basis := SettlePass(f, failure);
      }
    }

    /** What happens once the pass returned: the operator's control owns the outcome, else it settles.
        left is the Task as the claim-ending transaction left it, asked the length of the trace when the
        control was read. */
    method EndPass(f: Fence, failure: bool, cancelled: bool)
      returns (arm: Option<Arm>, ghost left: Row, ghost basis: Basis, ghost asked: nat)
      requires Valid() && Granted(f)
      modifies this
      ensures Valid() && Granted(f) && Onward()
      ensures arm.None? ==> endings == old(endings) || exists a: Arm :: Unended(old(endings), f, a)
      ensures arm.Some? ==> Ended(old(endings), f, arm.value) && left == kernel.rows[task]
                            && Rests(arm.value, basis, left, failure, |old(trace)|)
      ensures |old(trace)| <= asked <= |trace| && (arm.Some? ==> ControlDecides(arm.value, asked))
      ensures arm.Some? && (cancelled || old(kernel.rows[task].control.Some?)) ==> arm == Some(Acknowledged)
      ensures old(schedule) == [] ==> (arm.Some? <==> old(Finishes(kernel.rows[task], f, clock, failure, cancelled)))
    {
      left, basis, asked := kernel.rows[task], Basis(map[], |trace|, |trace|), |trace|;
      ghost var entry := trace;
      FinishesIff(kernel.rows[task], f, clock, failure, cancelled);
      var state := ObserveControl(f, cancelled);
      if state.None? {
        return None, left, basis, |trace|;
      }
      asked := |trace|;
      ghost var read := trace;
      arm, basis := EndObserved(f, failure, state.value.control.Some?);
      left := kernel.rows[task];
      assert trace[..asked] == read && |entry| <= asked;
    }

    /** The work under the claim, and what ends it; returned is the length of the trace when the pass returned. */
    method WorkAndEnd(f: Fence, work: seq<Work>, result: PassResult, cancelled: bool)
      returns (arm: Option<Arm>, ghost left: Row, ghost basis: Basis, ghost returned: nat, ghost asked: nat)
      requires Valid() && Granted(f)
      modifies this
      ensures Valid() && Granted(f) && Onward()
      ensures |old(trace)| <= returned <= asked <= |trace|
      ensures arm.None? ==> endings == old(endings) || exists a: Arm :: Unended(old(endings), f, a)
      ensures arm.Some? ==> Ended(old(endings), f, arm.value) && left == kernel.rows[task] && !result.Crashed?
                            && Rests(arm.value, basis, left, result != Returned(false), |old(trace)|)
                            && ControlDecides(arm.value, asked)
      ensures arm.Some? && (cancelled || ControlAt(returned).Some?) ==> arm == Some(Acknowledged)
      ensures old(schedule) == [] ==> (arm.Some? <==> PassEnds(old(kernel), work, task, f, old(clock), result, cancelled))
    {
      var ok := Perform(f, work);
      arm, left, basis, returned, asked := None, kernel.rows[task], Basis(map[], |trace|, |trace|), |trace|, |trace|;
      if ok && !result.Crashed? {
        ghost var worked := trace;
        arm, left, basis, asked := EndPass(f, result != Returned(false), cancelled);
        assert trace[..returned] == worked;
      }
    }

    /** The claimed part of the branch with its finally. */
    method RunClaimed(f: Fence, work: seq<Work>, result: PassResult, cancelled: bool)
      returns (arm: Option<Arm>, ghost left: Row, ghost basis: Basis, ghost returned: nat, ghost asked: nat)
      requires Valid() && Granted(f)
      modifies this
      ensures Valid() && old(trace) <= trace && old(lost) <= lost
      ensures LiveWorker(kernel, me.worker) ==> stopFailed
      ensures |old(trace)| <= returned <= asked <= |trace|
      ensures arm.None? && endings != old(endings) ==>
                |endings| == |old(endings)| + 1 && old(endings) < endings && OnTask(task, endings[|old(endings)|]) in lost
      ensures arm.Some? ==> |endings| == |old(endings)| + 1 && old(endings) < endings
                            && EndsClaim(endings[|old(endings)|], f, arm.value) && Leaves(arm.value, left)
      ensures arm.Some? ==> !result.Crashed? && ControlDecides(arm.value, asked)
                            && Rests(arm.value, basis, left, result != Returned(false), |old(trace)|)
      ensures arm.Some? && (cancelled || ControlAt(returned).Some?) ==> arm == Some(Acknowledged)
      ensures old(schedule) == [] ==> (arm.Some? <==> PassEnds(old(kernel), work, task, f, old(clock), result, cancelled))
    {
      arm, left, basis, returned, asked := WorkAndEnd(f, work, result, cancelled);
      ghost var ended := trace;
      StopWorker(f);
      if arm.Some? {
        RestsOnLonger(origin, ended, trace, task, arm.value, basis, left, result != Returned(false), |old(trace)|);
      }
      assert trace[..asked] == ended[..asked] && trace[..returned] == ended[..returned];
    }

    /** The whole execution branch with its finally. A pass that is done committed exactly one
        claim-ending transaction. An aborted one that had begun committed none and leaves the claim to
        its lease, or one whose call raised after the commit; one that never began at most handed its
        claim back. A control that was accepted before the work returned is acknowledged, as is any that the
        read at asked finds, and none else. Whatever failed, its transient Worker is not live unless stopping it raised or the
        registration committed although its call raised. */
    method RunPass(work: seq<Work>, result: PassResult, cancelled: bool)
      returns (exit: Exit, ghost left: Row, ghost began: bool, ghost basis: Basis, ghost returned: nat, ghost asked: nat)
      requires Valid() && endings == [] && lost == [] && !stopFailed && !LiveWorker(kernel, me.worker)
      modifies this
      ensures Valid() && old(trace) <= trace
      ensures LiveWorker(kernel, me.worker) ==> stopFailed || RegisterLost()
      ensures exit.Done? ==> |endings| == 1 && Leaves(exit.arm, left) && Rests(exit.arm, basis, left, result != Returned(false), |old(trace)|)
                             && exists f: Fence :: f.owner == me && EndsClaim(endings[0], f, exit.arm)
      ensures exit.Done? ==> |old(trace)| <= returned <= asked <= |trace| && ControlDecides(exit.arm, asked)
      ensures exit.Done? && (cancelled || ControlAt(returned).Some?) ==> exit.arm == Acknowledged
      ensures exit.Done? ==> began && !result.Crashed?
      ensures exit.Aborted? ==> |endings| <= 1
      ensures exit.Aborted? && began && endings != [] ==> OnTask(task, endings[0]) in lost
      ensures exit.Aborted? && !began && endings != [] ==> HandedBack(endings[0])
      ensures old(schedule) == [] ==>
                && (began <==> Startable(old(kernel), task, admission, capacity))
                && (exit.Done? <==> began && PassEnds(AtStart(Admitted(old(kernel), task, admission), task, me, old(clock)),
                                                      work, task, Fence(me, 1), old(clock), result, cancelled))
    {
      ghost var none := Fence(me, 0);
      left, began, basis, returned, asked := AdmittedRow(admission, None), false, Basis(map[], |trace|, |trace|), |trace|, |trace|;
      ghost var before: Kernel;
      ghost var at: nat;
      var reply: Reply;
      reply, before, at := Execute(Admit(task, admission, None, capacity), none);
      if reply != Committed {
        return Aborted, left, began, basis, returned, asked;
      }
      var claim := Drive();
      if claim.None? {
        return Aborted, left, began, basis, returned, asked;
      }
      began := true;
      var f := claim.value;
      var arm: Option<Arm>;
      arm, left, basis, returned, asked := RunClaimed(f, work, result, cancelled);
      exit := if arm.Some? then Done(arm.value) else Aborted;
    }

    /** The control accepted on the Task when the trace had length n. */
    ghost function ControlAt(n: nat): Option<Control>
      requires n <= |trace|
      reads this
    {
      var k := Run(origin, trace[..n]);
      if task in k.rows then k.rows[task].control else None
    }

    /** The pass ends by acknowledging exactly when the control read at n had been accepted. */
    ghost predicate ControlDecides(arm: Arm, n: nat)
      requires n <= |trace|
      reads this
    {
      arm == Acknowledged <==> ControlAt(n).Some?
    }

    ghost predicate Rests(arm: Arm, basis: Basis, left: Row, failure: bool, n: nat)
      reads this
    {
      RestsOn(origin, trace, task, arm, basis, left, failure, n)
    }

    /** The claim was given back before the work had begun. */
    ghost predicate HandedBack(c: Change) {
      exists f: Fence :: f.owner == me && (EndsClaim(c, f, Acknowledged) || EndsClaim(c, f, HandedOn))
    }

    /** The registration committed although its call raised. */
    ghost predicate RegisterLost()
      reads this
    {
      exists i :: 0 <= i < |lost| && lost[i].Register?
    }

    /** Once nothing is scheduled any more, nothing ever is, and the clock stands still. */
    twostate predicate Calm()
      reads this
    {
      old(schedule) == [] ==> schedule == [] && clock == old(clock)
    }

    /** The trace and the lost calls only grew, no stop failed, and no Worker of this name came alive. */
    twostate predicate Onward()
      reads this
    {
      && old(trace) <= trace && old(lost) <= lost && OnlyTask(old(lost)) && stopFailed == old(stopFailed) && Calm()
      && (LiveWorker(kernel, me.worker) ==> LiveWorker(old(kernel), me.worker))
    }

    /** Nothing but transactions on the Task was lost since. */
    ghost predicate OnlyTask(earlier: seq<Op>)
      reads this
    {
      forall i | |earlier| <= i < |lost| :: lost[i].OnTask?
    }
  }
}
