/** The kernel's transactions read along the columns: for every column what each transaction writes to it,
    and for every transaction the stored values it asks for. */
module KernelColumns {
  import opened Options
  import opened TaskKernel
  import opened KernelSafety

  /* ---- the statuses ---- */

  /** Every source is machine work, waits for a person, is paused or is finished, and only one of these. A pause
      rewrites the machine work, a cancel all that is not finished. */
  lemma StatusesAreSorted(s: ItemStatus)
    ensures MachineWork(s) <==> s in {ItemPending, Processing}
    ensures AwaitsHuman(s) <==> s != ItemPaused && !MachineWork(s) && !Finished(s)
    ensures Finished(s) <==> s in {DryRun, Success, Partial, ItemFailed, Skipped, ItemCancelled, Ignored}
    ensures Ignorable(s) <==> AwaitsHuman(s) && s !in {WaitingConfirm, WaitingClassification}
    ensures Resumable(s) <==> s in {ItemPending, ItemPaused, ItemFailed, WaitingConfirm}
    ensures Controlled(Pause, s) <==> MachineWork(s)
    ensures Controlled(Cancel, s) <==> !Finished(s)
  {
  }

  /* ---- column by column ---- */

  predicate Reenters(c: Change) {
    c.Requeue? || c.Resume? || c.Adopt?
  }

  /** A hand-over that gives the slot back: no control is accepted and no machine work is left. */
  predicate FreesSlot(r: Row, c: Change, next: Row) {
    c.HandOff? && r.control.None? && forall i | i in next.items :: next.items[i].status !in {ItemPending, Processing}
  }

  predicate Done(r: Row) {
    forall i | i in r.items :: Finished(r.items[i].status)
  }

  /** Ignoring the last unfinished source of a Task that waits for nobody else. */
  predicate SettlesIgnored(r: Row, c: Change, next: Row) {
    && c.Ignore? && c.settles && r.queue == WaitingHuman && r.owner.None? && r.control.None? && r.mutation.None?
    && Done(next)
  }

  /** The claim's identity: the generation grows with every claim and every re-entry, and the owner is the last
      claimer until a release, a re-entry or a hand-over takes it away. A yield does not. */
  lemma OwnerColumns(k: Kernel, r: Row, c: Change, next: Row)
    requires Next(k, r, c) == Some(next)
    ensures next.generation == if c.Claim? || Reenters(c) then r.generation + 1 else r.generation
    ensures next.owner == if c.Claim? then Some(Owner(c.worker, c.token))
                          else if Releases(c) || Reenters(c) || FreesSlot(r, c, next) then None
                          else r.owner
  {
  }

  lemma LeaseColumn(k: Kernel, r: Row, c: Change, next: Row)
    requires Next(k, r, c) == Some(next)
    ensures next.expires == if c.Claim? || c.Heartbeat? then Some(c.now + c.lease)
                            else if Releases(c) || c.Yield? || Reenters(c) || FreesSlot(r, c, next) || SettlesIgnored(r, c, next) then None
                            else r.expires
  {
  }

  /** The queue states a Task moves through. */
  lemma QueueColumn(k: Kernel, r: Row, c: Change, next: Row)
    requires Next(k, r, c) == Some(next)
    ensures next.queue ==
              match c
              case Claim(_, _, _, _) => Claimed
              case Yield(_, _, _, _) => Queued
              case Settle(_, _, _, _, _, _) => Settled
              case Defer(_, _, _, _, _, _) => WaitingHuman
              case Acknowledge(_, _, _, _, _, _, _) => if r.requests != [] && Last(r.requests) == Pause then Suspended else Settled
              case Requeue(_, _, _, _) => Queued
              case Adopt(_, _, _, _, _, _) => Queued
              case Resume => WaitingHuman
              case HandOff(_) => if !FreesSlot(r, c, next) then r.queue else if Done(next) then Settled else WaitingHuman
              case Ignore(_, _) => if SettlesIgnored(r, c, next) then Settled else r.queue
              case _ => r.queue
  {
  }

  /** The aggregate that the operator sees. */
  lemma StatusColumn(k: Kernel, r: Row, c: Change, next: Row)
    requires Next(k, r, c) == Some(next)
    ensures next.status ==
              match c
              case Begin(_, _) => Running
              case Resume => Running
              case Yield(_, _, _, _) => Pending
              case Requeue(_, _, _, _) => Pending
              case Adopt(_, _, _, _, _, _) => Pending
              case Settle(_, _, outcome, _, _, _) => outcome
              case Acknowledge(_, _, _, _, _, _, _) => if r.requests != [] && Last(r.requests) == Pause then Running else Cancelled
              case Defer(_, _, flow, _, _, _) => flow
              case Publish(_, _, flow, _) => flow
              case Complete(_, _, _, _, _, _, flow, _) => flow
              case Reconcile(_, flow, _) => flow
              case HandOff(_) => if FreesSlot(r, c, next) && Done(next) then Completed else r.status
              case Ignore(_, _) => if SettlesIgnored(r, c, next) then Completed else r.status
              case _ => r.status
  {
  }

  /** The start of the work: the running boundary and an adoption keep an earlier one, every publication of the
      aggregate writes what its caller holds. */
  lemma StartedColumn(k: Kernel, r: Row, c: Change, next: Row)
    requires Next(k, r, c) == Some(next)
    ensures next.started ==
              if c.Begin? || c.Adopt? then (if r.started.Some? then r.started else Some(c.now))
              else if c.Acknowledge? || c.Settle? || c.Defer? || c.Yield? || c.Publish? || c.Complete? || c.Reconcile? then c.started
              else r.started
  {
  }

  /** The accepted control stays until a re-entry clears it, every new one is listed, and the list is kept. */
  lemma ControlColumns(k: Kernel, r: Row, c: Change, next: Row)
    requires Next(k, r, c) == Some(next)
    ensures next.control == if c.Request? then Some(c.wanted) else if Reenters(c) then None else r.control
    ensures next.requests == if c.Request? && r.control != Some(c.wanted) then r.requests + [c.wanted] else r.requests
  {
  }

  /** The due time and what the admission fixed. */
  lemma AdmissionColumns(k: Kernel, r: Row, c: Change, next: Row)
    requires Next(k, r, c) == Some(next)
    ensures next.eligible == if c.Yield? || c.Requeue? then c.until else if c.Resume? || c.Adopt? then None else r.eligible
    ensures next.admission == if c.Adopt? then r.admission.(authorized := true) else r.admission
  {
  }

  /** The in-flight marker: a mutation sets it; a release that may close it does so when no machine work is
      left; an outcome and a hand-over clear the marker of their own source. */
  lemma MarkerColumn(k: Kernel, r: Row, c: Change, next: Row)
    requires Next(k, r, c) == Some(next)
    ensures next.mutation ==
              if c.Mutate? then Some(c.item)
              else if Releases(c) then None
              else if c.HandOff? && r.mutation == Some(c.item) then None
              else if (c.Outcome? || c.Complete?) && r.mutation == Some(c.item) && ClearsBoundary(c.evidence) then None
              else r.mutation
    ensures Releases(c) && r.mutation.Some? ==>
              c.close && r.mutation.value in r.items
              && forall i | i in r.items :: r.items[i].status !in {ItemPending, Processing}
  {
  }

  /** Where one source is after a transaction: its status. */
  function StatusAfter(r: Row, c: Change, i: string): ItemStatus
    requires i in r.items
  {
    var s := r.items[i].status;
    match c
    case Start(_, _, item, _, gated) => if item == i then (if gated then Skipped else Processing) else s
    case Progress(_, _, item, _, to) => if item == i then to else s
    case Outcome(_, _, item, _, to, _) => if item == i then to else s
    case Complete(_, _, item, _, to, _, _, _) => if item == i then to else s
    case Review(item, to) => if item == i then to else s
    case Decide(item, skip) => if item == i then (if skip then Skipped else ItemPending) else s
    case Ignore(item, _) => if item == i then Ignored else s
    case Retry(item) => if item == i then ItemPending else s
    case Project(item, _, to) => if item == i then to else s
    case Plan(_, _, failed, _) => if i in failed && !Finished(s) then ItemFailed else s
    case Adopt(_, _, _, reused, _, _) => if i in reused then ItemPending else s
    case Reconcile(closings, _, _) => if i in closings then closings[i].to else s
    case Settle(_, _, _, overlay, _, _) => if i in overlay && !r.items[i].superseded then overlay[i].status else s
    case Defer(_, _, _, overlay, _, _) => if i in overlay && !r.items[i].superseded then overlay[i].status else s
    case Acknowledge(_, _, _, _, seen, _, _) =>
      if i !in seen || r.items[i].superseded || r.requests == [] then s
      else if Last(r.requests) == Pause then (if seen[i].status in {ItemPending, Processing} then ItemPaused else s)
      else if Finished(seen[i].status) then s
      else ItemCancelled
    case _ => s
  }

  function AttemptsAfter(r: Row, c: Change, i: string): nat
    requires i in r.items
  {
    match c
    case Start(_, _, item, attempt, _) => if item == i then attempt else r.items[i].attempts
    case Adopt(_, _, _, reused, _, _) => if i in reused then 0 else r.items[i].attempts
    case Project(item, attempts, _) => if item == i then attempts else r.items[i].attempts
    case Reconcile(closings, _, _) => if i in closings then closings[i].attempts else r.items[i].attempts
    case _ => r.items[i].attempts
  }

  /** Where one source with a row is after a transaction that leaves it that row. */
  predicate SourceFollows(r: Row, c: Change, next: Row, i: string)
    requires i in r.items && i in next.items
  {
    && next.items[i].status == StatusAfter(r, c, i)
    && next.items[i].attempts == AttemptsAfter(r, c, i)
    && (next.items[i].superseded <==> r.items[i].superseded || (c.HandOff? && c.item == i))
  }

  /** What a release writes over the sources. */
  function OverlayOf(r: Row, c: Change): map<string, Frame>
    requires Releases(c)
  {
    if c.Settle? || c.Defer? then c.overlay
    else if r.requests == [] then map[]
    else ControlOverlay(Last(r.requests), c.seen)
  }

  lemma AnswersTheLast(r: Row, c: Change, next: Row)
    requires c.Acknowledge? && AfterAcknowledge(r, c) == Some(next)
    ensures c.revision == |r.requests| > 0
    ensures Closed(r, c.close).requests == r.requests && Closed(r, c.close).items == r.items
  {
  }

  lemma AnswerWrites(r: Row, c: Change, next: Row)
    requires c.Acknowledge? && AfterAcknowledge(r, c) == Some(next) && c.revision == |r.requests| > 0
    requires Closed(r, c.close).requests == r.requests && Closed(r, c.close).items == r.items
    ensures next.items == Overlaid(r.items, ControlOverlay(Last(r.requests), c.seen))
  {
  }

  lemma AnswerOverlays(r: Row, c: Change, next: Row)
    requires c.Acknowledge? && AfterAcknowledge(r, c) == Some(next)
    ensures r.requests != [] && next.items == Overlaid(r.items, ControlOverlay(Last(r.requests), c.seen))
  {
    AnswersTheLast(r, c, next);
    AnswerWrites(r, c, next);
  }

  lemma EndOverlays(r: Row, c: Change, next: Row)
    requires (c.Settle? && AfterSettle(r, c) == Some(next)) || (c.Defer? && AfterDefer(r, c) == Some(next))
    ensures next.items == Overlaid(r.items, c.overlay)
  {
  }

  lemma ReleaseOverlays(k: Kernel, r: Row, c: Change, next: Row)
    requires Releases(c) && Next(k, r, c) == Some(next)
    ensures next.items == Overlaid(r.items, OverlayOf(r, c)) && (c.Acknowledge? ==> r.requests != [])
  {
    if c.Acknowledge? {
      AnswerOverlays(r, c, next);
    } else {
      EndOverlays(r, c, next);
    }
  }

  lemma ReleasedSource(k: Kernel, r: Row, c: Change, next: Row, i: string)
    requires Releases(c) && Next(k, r, c) == Some(next) && i in r.items && i in next.items
    ensures SourceFollows(r, c, next, i)
  {
    ReleaseOverlays(k, r, c, next);
    OverlaidSource(r, c, i);
  }

  lemma OverlaidSource(r: Row, c: Change, i: string)
    requires Releases(c) && i in r.items && (c.Acknowledge? ==> r.requests != [])
    ensures var item := Overlaid(r.items, OverlayOf(r, c))[i];
            item == r.items[i].(status := StatusAfter(r, c, i)) && AttemptsAfter(r, c, i) == r.items[i].attempts
  {
    if c.Acknowledge? && i in c.seen {
      StatusesAreSorted(c.seen[i].status);
    }
  }

  lemma PublishedSource(k: Kernel, r: Row, c: Change, next: Row, i: string)
    requires Publication(c) && Next(k, r, c) == Some(next) && i in r.items && i in next.items
    ensures SourceFollows(r, c, next, i)
  {
  }

  lemma SideWrittenSource(k: Kernel, r: Row, c: Change, next: Row, i: string)
    requires SideWrite(c) && Next(k, r, c) == Some(next) && i in r.items && i in next.items
    ensures SourceFollows(r, c, next, i)
  {
  }

  lemma OtherSource(k: Kernel, r: Row, c: Change, next: Row, i: string)
    requires !Releases(c) && !Publication(c) && !SideWrite(c) && Next(k, r, c) == Some(next) && i in r.items && i in next.items
    requires !(c.Adopt? && i in c.retired)
    ensures SourceFollows(r, c, next, i)
  {
  }

  /** A source that has a row, after any transaction that leaves it that row. */
  lemma SourceColumns(k: Kernel, r: Row, c: Change, next: Row, i: string)
    requires Next(k, r, c) == Some(next) && i in r.items && i in next.items
    requires !(c.Adopt? && i in c.retired)
    ensures next.items[i].status == StatusAfter(r, c, i)
    ensures next.items[i].attempts == AttemptsAfter(r, c, i)
    ensures next.items[i].superseded <==> r.items[i].superseded || (c.HandOff? && c.item == i)
  {
    if Releases(c) {
      ReleasedSource(k, r, c, next, i);
    } else if Publication(c) {
      PublishedSource(k, r, c, next, i);
    } else if SideWrite(c) {
      SideWrittenSource(k, r, c, next, i);
    } else {
      OtherSource(k, r, c, next, i);
    }
  }

  /** How a source's row begins. */
  function NewItem(c: Change, i: string): Item {
    match c
    case Start(_, _, _, _, gated) => Item(if gated then Skipped else Processing, 1, false)
    case Plan(_, _, _, added) => Item(if i in added then added[i] else ItemPending, 0, false)
    case Project(_, attempts, to) => Item(to, attempts, false)
    case _ => Item(ItemPending, 0, false)
  }

  function KeysAfter(r: Row, c: Change): set<string> {
    match c
    case Start(_, _, item, _, _) => r.items.Keys + {item}
    case Plan(_, _, _, added) => r.items.Keys + added.Keys
    case Adopt(_, _, _, _, retired, minted) => r.items.Keys - retired + minted
    case Project(item, _, _) => r.items.Keys + {item}
    case _ => r.items.Keys
  }

  lemma PublishedRows(k: Kernel, r: Row, c: Change, next: Row)
    requires Publication(c) && Next(k, r, c) == Some(next)
    ensures next.items.Keys == KeysAfter(r, c)
    ensures forall i | i in next.items && i !in r.items :: next.items[i] == NewItem(c, i)
  {
  }

  lemma SideWrittenRows(k: Kernel, r: Row, c: Change, next: Row)
    requires SideWrite(c) && Next(k, r, c) == Some(next)
    ensures next.items.Keys == KeysAfter(r, c)
    ensures forall i | i in next.items && i !in r.items :: next.items[i] == NewItem(c, i)
  {
  }

  lemma OtherRows(k: Kernel, r: Row, c: Change, next: Row)
    requires !Releases(c) && !Publication(c) && !SideWrite(c) && Next(k, r, c) == Some(next)
    ensures next.items.Keys == KeysAfter(r, c)
    ensures forall i | i in next.items && i !in r.items :: next.items[i] == NewItem(c, i)
  {
  }

  /** The rows themselves: only a start, a plan, an adoption and a projection add one, only an adoption takes
      one away, and this is how a new one begins. */
  lemma SourceRows(k: Kernel, r: Row, c: Change, next: Row)
    requires Next(k, r, c) == Some(next)
    ensures next.items.Keys == KeysAfter(r, c)
    ensures forall i | i in next.items && i !in r.items :: next.items[i] == NewItem(c, i)
  {
    if Publication(c) {
      PublishedRows(k, r, c, next);
    } else if SideWrite(c) {
      SideWrittenRows(k, r, c, next);
    } else if Releases(c) {
      ReleaseOverlays(k, r, c, next);
    } else {
      OtherRows(k, r, c, next);
    }
  }

  /** The Results: each recording adds one, under the attempt's own name or outside the attempts. */
  lemma ResultColumns(k: Kernel, r: Row, c: Change, next: Row, i: string)
    requires Next(k, r, c) == Some(next)
    ensures ResultsOf(next, i).recorded ==
              if c.Outcome? && c.item == i then ResultsOf(r, i).recorded + {c.attempt} else ResultsOf(r, i).recorded
    ensures ResultsOf(next, i).free <==>
              && ResultsOf(r, i).free
              && (c.Outcome? && c.item == i ==> ProvesNoEffect(c.evidence))
              && (c.Complete? && c.item == i ==> ProvesNoEffect(c.evidence))
              && (c.Reconcile? && i in c.closings ==> ProvesNoEffect(c.closings[i].evidence))
  {
    if !c.Outcome? && !c.Complete? && !c.Reconcile? {
      ResultsStay(k, r, c);
    }
  }

  /* ---- what is asked for ---- */

  /** f's ownership at the instant now. */
  predicate Holds(r: Row, f: Fence, now: int) {
    && r.queue == Claimed && r.owner == Some(f.owner) && r.generation == f.generation
    && r.expires.Some? && now < r.expires.value
  }

  /** The transactions of an owner on the Task itself. */
  lemma OwnerCommitsIff(k: Kernel, r: Row, f: Fence, now: int, lease: nat, started: Option<int>, until: Option<int>, flow: FlowStatus)
    ensures Next(k, r, Heartbeat(f, now, lease)).Some? <==>
              r.queue == Claimed && r.owner == Some(f.owner) && r.generation == f.generation
    ensures Next(k, r, Begin(f, now)).Some? <==> Holds(r, f, now) && r.status == Pending
    ensures Next(k, r, Publish(f, now, flow, started)).Some? <==> Holds(r, f, now)
    ensures Next(k, r, Yield(f, now, started, until)).Some? <==> Holds(r, f, now) && r.mutation.None? && r.control.None?
  {
  }

  /** A start: the next attempt of a source that can go on, was not handed over, has no effect on record and is
      not the one in flight; a source without a row starts at its first attempt. */
  lemma StartCommitsIff(k: Kernel, r: Row, f: Fence, now: int, i: string, attempt: nat, gated: bool)
    ensures Next(k, r, Start(f, now, i, attempt, gated)).Some? <==>
              && Holds(r, f, now) && r.mutation != Some(i)
              && if i !in r.items then attempt == 1
                 else && attempt == r.items[i].attempts + 1 && !r.items[i].superseded
                      && r.items[i].status in {ItemPending, ItemPaused, ItemFailed, WaitingConfirm}
                      && (i in r.results ==> r.results[i].free)
  {
  }

  /** A mutation: of a source in its processing, with no effect on record, and no other mutation in flight. */
  lemma MutateCommitsIff(k: Kernel, r: Row, f: Fence, now: int, i: string)
    ensures Next(k, r, Mutate(f, now, i)).Some? <==>
              && Holds(r, f, now) && r.mutation.None?
              && i in r.items && r.items[i].status == Processing && (i in r.results ==> r.results[i].free)
  {
  }

  /** This attempt of the source has a Result of its own name. */
  predicate Reported(r: Row, i: string)
    requires i in r.items
  {
    i in r.results && r.items[i].attempts in r.results[i].recorded
  }

  /** The status of a source with an outcome, or with a Result of its attempt, can be written again but not changed. */
  predicate Keeps(r: Row, i: string, to: ItemStatus)
    requires i in r.items
  {
    Finished(r.items[i].status) || Reported(r, i) ==> to == r.items[i].status
  }

  lemma ProgressCommitsIff(k: Kernel, r: Row, f: Fence, now: int, i: string, attempt: nat, to: ItemStatus)
    ensures Next(k, r, Progress(f, now, i, attempt, to)).Some? <==>
              && Holds(r, f, now)
              && i in r.items && !r.items[i].superseded && attempt == r.items[i].attempts && Keeps(r, i, to)
  {
  }

  /** An outcome: the first one of a processing attempt, whoever records it. */
  lemma OutcomeCommitsIff(k: Kernel, r: Row, f: Fence, now: int, i: string, attempt: nat, to: ItemStatus, e: Evidence,
                          flow: FlowStatus, started: Option<int>)
    ensures Next(k, r, Outcome(f, now, i, attempt, to, e)).Some? <==>
              && Holds(r, f, now)
              && i in r.items && !r.items[i].superseded && attempt == r.items[i].attempts
              && r.items[i].status == Processing && !Reported(r, i)
    ensures Next(k, r, Complete(f, now, i, attempt, to, e, flow, started)).Some? <==>
              Next(k, r, Outcome(f, now, i, attempt, to, e)).Some?
  {
  }

  lemma PlanCommitsIff(k: Kernel, r: Row, f: Fence, now: int, failed: set<string>, added: map<string, ItemStatus>)
    ensures Next(k, r, Plan(f, now, failed, added)).Some? <==>
              && Holds(r, f, now)
              && (forall i | i in failed :: i in r.items)
              && (forall i | i in added :: i !in r.items && added[i] in {WaitingConfirm, ItemFailed})
  {
  }

  /** A release under the claim: no cancel, no effect in flight beyond the closable one, and, in the caller's own
      view laid over the stored sources, no machine work and no rewritten outcome. */
  predicate Releasable(r: Row, f: Fence, now: int, overlay: map<string, Frame>, close: bool) {
    && Holds(r, f, now) && r.control != Some(Cancel)
    && (r.mutation.Some? ==> close && r.mutation.value in r.items && forall i | i in r.items :: !MachineWork(r.items[i].status))
    && Quiet(r, overlay)
  }

  predicate Quiet(r: Row, overlay: map<string, Frame>) {
    && (forall i | i in r.items && i !in overlay :: !MachineWork(r.items[i].status))
    && (forall i | i in overlay ::
          && i in r.items && !MachineWork(overlay[i].status)
          && (r.items[i].superseded || (overlay[i].attempts == r.items[i].attempts && Keeps(r, i, overlay[i].status))))
  }

  lemma ClosedAsks(r: Row, close: bool)
    ensures Closed(r, close).mutation.None? <==>
              (r.mutation.Some? ==> close && r.mutation.value in r.items && forall i | i in r.items :: !MachineWork(r.items[i].status))
    ensures Closed(r, close) == r.(mutation := Closed(r, close).mutation)
  {
  }

  lemma QuietIff(r: Row, overlay: map<string, Frame>)
    ensures QuietUnder(r.items, overlay) && OverlayAllowed(r, overlay) <==> Quiet(r, overlay)
  {
    forall i | i in overlay && i in r.items && !r.items[i].superseded
      ensures FrameAllowed(r, i, overlay[i]) <==> overlay[i].attempts == r.items[i].attempts && Keeps(r, i, overlay[i].status)
    {
    }
  }

  lemma ReleaseCommitsIff(k: Kernel, r: Row, f: Fence, now: int, outcome: FlowStatus, overlay: map<string, Frame>,
                          started: Option<int>, close: bool)
    ensures Next(k, r, Settle(f, now, outcome, overlay, started, close)).Some? <==>
              Releasable(r, f, now, overlay, close) && outcome in {Completed, Failed, Cancelled}
    ensures Next(k, r, Defer(f, now, outcome, overlay, started, close)).Some? <==> Releasable(r, f, now, overlay, close)
  {
    ClosedAsks(r, close);
    QuietIff(r, overlay);
    QuietIff(Closed(r, close), overlay);
  }

  /** An accepted control is answered by the owner, or by anyone when nobody owns the Task, at the revision of
      the last request and with the authority the Task has. */
  lemma AcknowledgeCommitsIff(k: Kernel, r: Row, holder: Option<Fence>, now: int, revision: nat, authorized: bool,
                              seen: map<string, Frame>, started: Option<int>, close: bool)
    ensures Next(k, r, Acknowledge(holder, now, revision, authorized, seen, started, close)).Some? <==>
              && r.requests != [] && revision == |r.requests| && authorized == r.admission.authorized
              && (if holder.Some? then Holds(r, holder.value, now) else r.owner.None?)
              && (r.mutation.Some? ==> close && r.mutation.value in r.items && forall i | i in r.items :: !MachineWork(r.items[i].status))
              && Quiet(r, ControlOverlay(Last(r.requests), seen))
  {
    ClosedAsks(r, close);
    if r.requests != [] {
      QuietIff(r, ControlOverlay(Last(r.requests), seen));
      QuietIff(Closed(r, close), ControlOverlay(Last(r.requests), seen));
    }
  }

  /** A request: of the control already accepted, or of another one unless the Task is settled or cancelled. */
  lemma RequestCommitsIff(k: Kernel, r: Row, wanted: Control)
    ensures Next(k, r, Request(wanted)).Some? <==> r.control == Some(wanted) || (r.queue != Settled && r.control != Some(Cancel))
  {
  }

  /** Re-entry, for the three ways back. */
  lemma ReentryCommitsIff(k: Kernel, r: Row, pin: Option<Pin>, expected: Option<nat>, until: Option<int>, capacity: nat)
    ensures Next(k, r, Requeue(pin, expected, until, capacity)).Some? <==>
              && (r.queue == WaitingHuman || r.queue == Suspended) && r.mutation.None?
              && r.control != Some(Cancel) && r.status != Cancelled
              && (expected == None || expected == Some(|r.requests|)) && r.admission.pin == pin && Used(k) < capacity
    ensures Next(k, r, Resume).Some? <==> r.queue == Suspended && r.control != Some(Cancel)
  {
  }

  lemma AdoptCommitsIff(k: Kernel, r: Row, pin: Option<Pin>, now: int, capacity: nat, reused: set<string>,
                        retired: set<string>, minted: set<string>)
    ensures Next(k, r, Adopt(pin, now, capacity, reused, retired, minted)).Some? <==>
              && r.queue == WaitingHuman && r.control != Some(Cancel) && (r.status == Pending || r.status == Running)
              && r.admission.pin == pin && Used(k) < capacity
              && (reused != {} || minted != {}) && (retired == {} || minted != {})
              && (forall i | i in reused :: i !in retired) && (forall i | i in minted :: i !in r.items)
              && (forall i | i in reused || i in retired :: i in r.items && !Finished(r.items[i].status) && !r.items[i].superseded)
  {
    assert reused + minted == {} <==> reused == {} && minted == {};
  }

  /** The writers of a source without a fence ask for the source's status and for nothing about the claim. */
  lemma DecisionCommitsIff(k: Kernel, r: Row, i: string, to: ItemStatus, skip: bool, settles: bool)
    ensures Next(k, r, Review(i, to)).Some? <==> i in r.items && r.items[i].status == Processing && AwaitsHuman(to)
    ensures Next(k, r, Decide(i, skip)).Some? <==>
              i in r.items && (if skip then r.items[i].status == WaitingConfirm else AwaitsHuman(r.items[i].status))
    ensures Next(k, r, Ignore(i, settles)).Some? <==>
              i in r.items && r.items[i].status in {WaitingRecognition, WaitingMetadata, WaitingCorrection}
    ensures Next(k, r, Retry(i)).Some? <==> i in r.items && r.items[i].status == ItemFailed
  {
  }

  lemma ProjectCommitsIff(k: Kernel, r: Row, i: string, attempts: nat, to: ItemStatus)
    ensures Next(k, r, Project(i, attempts, to)).Some? <==>
              if to == ItemPending then i !in r.items && attempts == 0
              else to in {Processing, ItemFailed, WaitingConfirm, WaitingRecognition, WaitingMetadata, WaitingCorrection, WaitingClassification}
  {
  }

  lemma HandOffCommitsIff(k: Kernel, r: Row, i: string)
    ensures Next(k, r, HandOff(i)).Some? <==>
              r.queue != Settled && i in r.items && r.items[i].status in {ItemFailed, Partial} && !r.items[i].superseded
  {
  }

  lemma ReconcileCommitsIff(k: Kernel, r: Row, closings: map<string, Closing>, flow: FlowStatus, started: Option<int>)
    ensures Next(k, r, Reconcile(closings, flow, started)).Some? <==>
              && closings != map[] && flow in {Running, Completed}
              && forall i | i in closings :: i in r.items && closings[i].to in {ItemFailed, Partial}
  {
  }

  /* ---- the Tasks and the Workers ---- */

  /** A Task is admitted once, into a free slot, queued and untouched; nothing but its own transactions changes
      its row, and a Worker's entry is changed by its registration, its heartbeats and its stop alone. */
  lemma KernelCommits(k: Kernel, op: Op)
    ensures Attempt(k, op).Some? <==>
              match op
              case Admit(task, _, _, capacity) => task !in k.rows && |Slots(k)| < capacity
              case Register(_, _) => true
              case Beat(worker, _) => worker in k.workers && k.workers[worker].live
              case Stop(worker, _) => worker in k.workers
              case OnTask(task, c) => task in k.rows && Next(k, k.rows[task], c).Some?
  {
    assert Slots(k) == set t | t in k.rows && HoldsSlot(k.rows[t].queue);
  }

  lemma RowWrites(k: Kernel, op: Op, next: Kernel, t: string)
    requires Attempt(k, op) == Some(next)
    ensures t in next.rows <==> t in k.rows || (op.Admit? && op.task == t)
    ensures t in k.rows && !(op.OnTask? && op.task == t) ==> next.rows[t] == k.rows[t]
    ensures op.Admit? && op.task == t ==>
              next.rows[t] == Row(op.admission, Pending, None, Queued, op.until, 0, None, None, None, [], None, map[], map[])
    ensures t in k.rows && op.OnTask? && op.task == t ==> Next(k, k.rows[t], op.change) == Some(next.rows[t])
  {
  }

  lemma WorkerWrites(k: Kernel, op: Op, next: Kernel, w: string)
    requires Attempt(k, op) == Some(next)
    ensures w in next.workers <==> w in k.workers || (op.Register? && op.worker == w)
    ensures w in next.workers ==>
              next.workers[w] ==
                if op.Register? && op.worker == w then op.registration.(live := true)
                else if op.Beat? && op.worker == w then k.workers[w].(seen := op.now)
                else if op.Stop? && op.worker == w then k.workers[w].(live := false, seen := op.now)
                else k.workers[w]
  {
  }
}
