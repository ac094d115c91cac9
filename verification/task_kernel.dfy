/** The Task scheduling kernel: one row per admitted Task, and the transactions that may change it.

    Every constructor of Change is one committed SQLite transaction of the runtime repository. Some
    carry a claim fence, some are the operator's, and some write a source of a kernel-managed Task
    without any fence at all: reviews, decisions, ignores, retries, analysis projections and the
    reconciliation of an interrupted manual execution. A transaction either commits a whole new row
    or writes nothing, so its model is a function returning the new row or None. Instants are
    integers of one common clock. */
module TaskKernel {
  import opened Options

  /* ---- vocabulary ---- */

  datatype FlowStatus = Pending | Running | Completed | Failed | Cancelled

  datatype QueueState = Queued | Claimed | WaitingHuman | Suspended | Settled

  datatype Control = Pause | Cancel

  datatype ItemStatus =
    | ItemPending | Processing
    | DryRun | Success | Partial | ItemFailed | Skipped | ItemCancelled | Ignored
    | WaitingConfirm | WaitingRecognition | WaitingMetadata | WaitingCorrection | WaitingClassification
    | ItemPaused

  /** Outcomes that finish a source, SETTLED_ITEM_STATUSES. */
  predicate Finished(s: ItemStatus) {
    s in {DryRun, Success, Partial, ItemFailed, Skipped, ItemCancelled, Ignored}
  }

  /** The waiting kinds an operator may ignore. */
  predicate Ignorable(s: ItemStatus) {
    s in {WaitingRecognition, WaitingMetadata, WaitingCorrection}
  }

  predicate AwaitsHuman(s: ItemStatus) {
    s in {WaitingConfirm, WaitingRecognition, WaitingMetadata, WaitingCorrection, WaitingClassification}
  }

  /** Admitted machine work that still holds its Task's slot. */
  predicate MachineWork(s: ItemStatus) {
    s == ItemPending || s == Processing
  }

  predicate Resumable(s: ItemStatus) {
    s in {ItemPending, ItemPaused, ItemFailed, WaitingConfirm}
  }

  /** The items one acknowledged control rewrites. */
  predicate Controlled(c: Control, s: ItemStatus) {
    match c
    case Pause => MachineWork(s)
    case Cancel => MachineWork(s) || AwaitsHuman(s) || s == ItemPaused
  }

  function ControlledTo(c: Control): ItemStatus {
    if c == Pause then ItemPaused else ItemCancelled
  }

  datatype Certainty = NoEffect | VerifiedComplete | Unverified

  /** What a published Result says about the Storage effects of its attempt. */
  datatype Evidence = Evidence(certainty: Certainty, uncertain: bool, operations: bool, successful: bool)

  predicate ProvesNoEffect(e: Evidence) {
    e.certainty == NoEffect && !e.successful && !e.uncertain && !e.operations
  }

  predicate ClearsBoundary(e: Evidence) {
    e.certainty != Unverified && !e.uncertain && (e.certainty == VerifiedComplete || !e.operations)
  }

  /** One row of task_items: one concrete source. superseded: a newer Task owns the source. */
  datatype Item = Item(status: ItemStatus, attempts: nat, superseded: bool)

  /** The task_results of one source identity, which nothing ever deletes. recorded: the attempts with
      a Result under the attempt's own name; free: every Result proves that nothing happened. */
  datatype History = History(recorded: set<nat>, free: bool)

  const NO_HISTORY := History({}, true)

  datatype Pin = Pin(id: string, digest: string)

  /** What the admission fixed. Only adopting a confirmed decision rewrites any of it: the authority. */
  datatype Admission = Admission(command: string, pin: Option<Pin>, authorized: bool, created: int)

  datatype Owner = Owner(worker: string, token: string)

  /** The exact ownership one guarded transaction is made under. */
  datatype Fence = Fence(owner: Owner, generation: nat)

  /** tasks and task_scheduling joined. requests lists every control ever accepted, so the
      stored control revision is |requests|. */
  datatype Row = Row(
    admission: Admission,
    status: FlowStatus,
    started: Option<int>,
    queue: QueueState,
    eligible: Option<int>,
    generation: nat,
    owner: Option<Owner>,
    expires: Option<int>,
    control: Option<Control>,
    requests: seq<Control>,
    mutation: Option<string>,
    items: map<string, Item>,
    results: map<string, History>)

  datatype Registration = Registration(live: bool, seen: int, interval: nat, commands: set<string>, pin: Option<Pin>)

  datatype Kernel = Kernel(rows: map<string, Row>, workers: map<string, Registration>)

  predicate HoldsSlot(q: QueueState) {
    q == Queued || q == Claimed
  }

  ghost function Slots(k: Kernel): set<string> {
    set t | t in k.rows && HoldsSlot(k.rows[t].queue)
  }

  function Used(k: Kernel): nat {
    |set t | t in k.rows && HoldsSlot(k.rows[t].queue)|
  }

  /* ---- ownership ---- */

  predicate Owns(r: Row, f: Fence) {
    r.queue == Claimed && r.owner == Some(f.owner) && r.generation == f.generation
  }

  predicate OwnsLive(r: Row, f: Fence, now: int) {
    Owns(r, f) && r.expires.Some? && r.expires.value > now
  }

  function StaleAfter(interval: nat): nat {
    if interval * 3 > 10 then interval * 3 else 10
  }

  predicate Eligible(k: Kernel, worker: string, now: int) {
    && worker in k.workers
    && var w := k.workers[worker];
    && w.live
    && now - w.seen <= StaleAfter(w.interval)
    && w.commands != {}
  }

  /** The WHERE clause shared by the global and the named claim. */
  predicate Claimable(r: Row, w: Registration, now: int) {
    && HoldsSlot(r.queue)
    && r.status == Pending
    && (r.eligible.None? || r.eligible.value <= now)
    && (r.owner.None? || r.expires.None? || r.expires.value <= now)
    && r.mutation.None?
    && r.admission.command in w.commands
    && (w.pin.Some? ==> r.admission.pin == w.pin)
  }

  /* ---- item publications ---- */

  predicate HasMachineWork(items: map<string, Item>) {
    exists i :: i in items && MachineWork(items[i].status)
  }

  predicate AllFinished(items: map<string, Item>) {
    forall i | i in items :: Finished(items[i].status)
  }

  function ResultsOf(r: Row, i: string): History {
    if i in r.results then r.results[i] else NO_HISTORY
  }

  /** The current attempt of this source has a Result of its own name. */
  predicate Recorded(r: Row, i: string) {
    i in r.items && r.items[i].attempts in ResultsOf(r, i).recorded
  }

  predicate EffectFree(r: Row, i: string) {
    ResultsOf(r, i).free
  }

  /** One more Result; a manual execution names its Results at random, outside the attempts. */
  function Adding(r: Row, i: string, attempt: Option<nat>, e: Evidence): map<string, History> {
    var h := ResultsOf(r, i);
    r.results[i := History(h.recorded + (if attempt.Some? then {attempt.value} else {}), h.free && ProvesNoEffect(e))]
  }

  /** A later frame of the same attempt may not rewrite a recorded outcome. */
  predicate MayPublish(r: Row, i: string, to: ItemStatus) {
    && i in r.items
    && !r.items[i].superseded
    && (Recorded(r, i) || Finished(r.items[i].status) ==> r.items[i].status == to)
  }

  /** A start advances exactly one attempt of a source whose Results are free of effects; a source
      without a row is not asked for its Results. */
  predicate MayStart(r: Row, i: string, attempt: nat) {
    && attempt == (if i in r.items then r.items[i].attempts else 0) + 1
    && (i in r.items ==>
          && !r.items[i].superseded
          && Resumable(r.items[i].status)
          && EffectFree(r, i))
    && r.mutation != Some(i)
  }

  /** gated: an earlier outcome of the source excludes it, so the start only records that. */
  function StartedItem(r: Row, i: string, gated: bool): Item {
    var to := if gated then Skipped else Processing;
    if i in r.items then r.items[i].(status := to, attempts := r.items[i].attempts + 1) else Item(to, 1, false)
  }

  /** One source as a caller had read it, or as a release writes it. */
  datatype Frame = Frame(status: ItemStatus, attempts: nat)

  /** What a release writes over the durable rows. */
  function Overlaid(items: map<string, Item>, overlay: map<string, Frame>): map<string, Item> {
    map i | i in items ::
      if i in overlay && !items[i].superseded then items[i].(status := overlay[i].status) else items[i]
  }

  /** The no-machine-work test reads the caller's overlay over the stored statuses. */
  predicate QuietUnder(items: map<string, Item>, overlay: map<string, Frame>) {
    && (forall i | i in overlay :: !MachineWork(overlay[i].status))
    && (forall i | i in items && i !in overlay :: !MachineWork(items[i].status))
  }

  /** Every overlaid row that is still this Task's own passes the publication rule, in its current attempt. */
  predicate OverlayAllowed(r: Row, overlay: map<string, Frame>) {
    forall i | i in overlay :: i in r.items && (r.items[i].superseded || FrameAllowed(r, i, overlay[i]))
  }

  predicate FrameAllowed(r: Row, i: string, frame: Frame) {
    MayPublish(r, i, frame.status) && frame.attempts == r.items[i].attempts
  }

  /** Whether an in-flight marker is the finished history of a pass that already returned. */
  predicate BoundaryFinished(r: Row) {
    && r.mutation.Some?
    && r.mutation.value in r.items
    && !HasMachineWork(r.items)
  }

  function Closed(r: Row, close: bool): Row {
    if close && BoundaryFinished(r) then r.(mutation := None) else r
  }

  /** What an acknowledged control writes over the sources its caller read. */
  function ControlOverlay(c: Control, seen: map<string, Frame>): map<string, Frame> {
    map i | i in seen && Controlled(c, seen[i].status) :: Frame(ControlledTo(c), seen[i].attempts)
  }

  function Frames(items: map<string, Item>): map<string, Frame> {
    map i | i in items :: Frame(items[i].status, items[i].attempts)
  }

  function Statuses(items: map<string, Item>): map<string, ItemStatus> {
    map i | i in items :: items[i].status
  }

  /** The one write every release performs: give the claim back and publish the aggregate. */
  function Released(r: Row, overlay: map<string, Frame>, status: FlowStatus, started: Option<int>,
                    queue: QueueState): Row
  {
    r.(status := status, started := started, queue := queue, owner := None, expires := None,
       items := Overlaid(r.items, overlay))
  }

  /* ---- transactions ---- */

  /** What a reconciliation writes for one source; attempts is the count it had read. */
  datatype Closing = Closing(to: ItemStatus, attempts: nat, evidence: Evidence)

  datatype Change =
    // claims and controls
    | Claim(worker: string, token: string, now: int, lease: nat)
    | Heartbeat(fence: Fence, now: int, lease: nat)
    | Begin(fence: Fence, now: int)
    | Request(wanted: Control)
    | Acknowledge(holder: Option<Fence>, now: int, revision: nat, authorized: bool, seen: map<string, Frame>,
                  started: Option<int>, close: bool)
    // releases and publications under the claim
    | Settle(fence: Fence, now: int, outcome: FlowStatus, overlay: map<string, Frame>, started: Option<int>, close: bool)
    | Defer(fence: Fence, now: int, flow: FlowStatus, overlay: map<string, Frame>, started: Option<int>, close: bool)
    | Yield(fence: Fence, now: int, started: Option<int>, until: Option<int>)
    | Publish(fence: Fence, now: int, flow: FlowStatus, started: Option<int>)
    | Start(fence: Fence, now: int, item: string, attempt: nat, gated: bool)
    | Progress(fence: Fence, now: int, item: string, attempt: nat, to: ItemStatus)
    | Outcome(fence: Fence, now: int, item: string, attempt: nat, to: ItemStatus, evidence: Evidence)
    | Complete(fence: Fence, now: int, item: string, attempt: nat, to: ItemStatus, evidence: Evidence,
               flow: FlowStatus, started: Option<int>)
    | Mutate(fence: Fence, now: int, item: string)
    | Plan(fence: Fence, now: int, failed: set<string>, added: map<string, ItemStatus>)
    // re-entry
    | Requeue(pin: Option<Pin>, expected: Option<nat>, until: Option<int>, capacity: nat)
    | Resume
    | Adopt(pin: Option<Pin>, now: int, capacity: nat, reused: set<string>, retired: set<string>, minted: set<string>)
    | HandOff(item: string)
    // writers of sources without a fence
    | Review(item: string, to: ItemStatus)
    | Decide(item: string, skip: bool)
    | Ignore(item: string, settles: bool)
    | Retry(item: string)
    | Project(item: string, attempts: nat, to: ItemStatus)
    | Reconcile(closings: map<string, Closing>, flow: FlowStatus, started: Option<int>)

  /** The unfenced writers of sources. */
  predicate SideWrite(c: Change) {
    c.Review? || c.Decide? || c.Ignore? || c.Retry? || c.Project? || c.Reconcile?
  }

  datatype Op =
    | Admit(task: string, admission: Admission, until: Option<int>, capacity: nat)
    | Register(worker: string, registration: Registration)
    | Beat(worker: string, now: int)
    | Stop(worker: string, now: int)
    | OnTask(task: string, change: Change)

  function AdmittedRow(a: Admission, until: Option<int>): Row {
    Row(a, Pending, None, Queued, until, 0, None, None, None, [], None, map[], map[])
  }

  function AfterClaim(r: Row, c: Change): Row
    requires c.Claim?
  {
    r.(queue := Claimed, generation := r.generation + 1, owner := Some(Owner(c.worker, c.token)),
       expires := Some(c.now + c.lease))
  }

  function AfterRequest(r: Row, c: Control): Option<Row> {
    if r.control == Some(c) then Some(r)
    else if r.queue == Settled || r.control == Some(Cancel) then None
    else Some(r.(control := Some(c), requests := r.requests + [c]))
  }

  /** The acknowledging caller settles the control it read at that revision; without a fence the
      Task must have no owner. Nothing here looks at the queue state. */
  function AfterAcknowledge(r: Row, c: Change): Option<Row>
    requires c.Acknowledge?
  {
    var q := Closed(r, c.close);
    if q.mutation.Some? || c.revision == 0 || c.revision != |q.requests| || c.authorized != q.admission.authorized then None
    else if (if c.holder.Some? then !OwnsLive(q, c.holder.value, c.now) else q.owner.Some?) then None
    else
      var control := q.requests[c.revision - 1];
      var overlay := ControlOverlay(control, c.seen);
      if !QuietUnder(q.items, overlay) || !OverlayAllowed(q, overlay) then None
      else if control == Pause then Some(Released(q, overlay, Running, c.started, Suspended))
      else Some(Released(q, overlay, Cancelled, c.started, Settled))
  }

  predicate MayRelease(q: Row, f: Fence, now: int, overlay: map<string, Frame>) {
    && q.mutation.None?
    && q.control != Some(Cancel)
    && OwnsLive(q, f, now)
    && QuietUnder(q.items, overlay)
    && OverlayAllowed(q, overlay)
  }

  function AfterSettle(r: Row, c: Change): Option<Row>
    requires c.Settle?
  {
    var q := Closed(r, c.close);
    if c.outcome in {Completed, Failed, Cancelled} && MayRelease(q, c.fence, c.now, c.overlay)
    then Some(Released(q, c.overlay, c.outcome, c.started, Settled))
    else None
  }

  function AfterDefer(r: Row, c: Change): Option<Row>
    requires c.Defer?
  {
    var q := Closed(r, c.close);
    if MayRelease(q, c.fence, c.now, c.overlay)
    then Some(Released(q, c.overlay, c.flow, c.started, WaitingHuman))
    else None
  }

  /** Yielding keeps the worker and token columns: only the lease and the queue state change. */
  function AfterYield(r: Row, c: Change): Option<Row>
    requires c.Yield?
  {
    if OwnsLive(r, c.fence, c.now) && r.mutation.None? && r.control.None?
    then Some(r.(status := Pending, started := c.started, queue := Queued, eligible := c.until, expires := None))
    else None
  }

  /** The outcome of a processing attempt that has no Result of its own name yet. */
  predicate MayRecord(r: Row, f: Fence, now: int, i: string, attempt: nat, to: ItemStatus) {
    && OwnsLive(r, f, now)
    && MayPublish(r, i, to)
    && attempt == r.items[i].attempts
    && r.items[i].status == Processing && !Recorded(r, i)
  }

  function WithOutcome(r: Row, i: string, to: ItemStatus, attempt: Option<nat>, e: Evidence): Row
    requires i in r.items
  {
    r.(items := r.items[i := r.items[i].(status := to)],
       results := Adding(r, i, attempt, e),
       mutation := if r.mutation == Some(i) && ClearsBoundary(e) then None else r.mutation)
  }

  function AfterOutcome(r: Row, c: Change): Option<Row>
    requires c.Outcome?
  {
    if MayRecord(r, c.fence, c.now, c.item, c.attempt, c.to)
    then Some(WithOutcome(r, c.item, c.to, Some(c.attempt), c.evidence))
    else None
  }

  /** A manual execution's outcome publishes the aggregate in the same transaction. */
  function AfterComplete(r: Row, c: Change): Option<Row>
    requires c.Complete?
  {
    if MayRecord(r, c.fence, c.now, c.item, c.attempt, c.to)
    then Some(WithOutcome(r, c.item, c.to, None, c.evidence).(status := c.flow, started := c.started))
    else None
  }

  /** The analysed plan: every ready source without a row gets one, every technical failure is recorded
      on the row it has, unless that row is finished. */
  function AfterPlan(r: Row, c: Change): Option<Row>
    requires c.Plan?
  {
    if OwnsLive(r, c.fence, c.now) && c.failed <= r.items.Keys && c.added.Keys !! r.items.Keys
       && forall i | i in c.added :: c.added[i] in {WaitingConfirm, ItemFailed}
    then Some(r.(items := map i | i in r.items.Keys + c.added.Keys ::
                   if i !in r.items then Item(c.added[i], 0, false)
                   else if i in c.failed && !Finished(r.items[i].status) then r.items[i].(status := ItemFailed)
                   else r.items[i]))
    else None
  }

  function AfterRequeue(r: Row, c: Change, free: bool): Option<Row>
    requires c.Requeue?
  {
    if r.queue in {WaitingHuman, Suspended} && r.mutation.None? && r.control != Some(Cancel)
       && (c.expected.Some? ==> c.expected.value == |r.requests|)
       && r.status != Cancelled && r.admission.pin == c.pin && free
    then Some(r.(status := Pending, queue := Queued, eligible := c.until, generation := r.generation + 1,
                 owner := None, expires := None, control := None))
    else None
  }

  /** A confirmed decision continues this Task: the confirmed sources become queued work again. A source
      keeps its row, with the attempts counted from zero, unless an execution already owns that row;
      then the row is deleted and a fresh one takes its place. The in-flight marker is not asked for. */
  function AfterAdopt(r: Row, c: Change, free: bool): Option<Row>
    requires c.Adopt?
  {
    if r.queue == WaitingHuman && r.control != Some(Cancel) && r.status in {Pending, Running}
       && r.admission.pin == c.pin && free
       && c.reused + c.minted != {} && (c.retired != {} ==> c.minted != {})
       && c.reused !! c.retired && c.minted !! r.items.Keys
       && (forall i | i in c.reused + c.retired :: i in r.items && !Finished(r.items[i].status) && !r.items[i].superseded)
    then Some(r.(admission := r.admission.(authorized := true), status := Pending,
                 started := if r.started.Some? then r.started else Some(c.now),
                 queue := Queued, eligible := None, generation := r.generation + 1,
                 owner := None, expires := None, control := None,
                 items := AdoptedItems(r.items, c.reused, c.retired, c.minted)))
    else None
  }

  function AdoptedItems(items: map<string, Item>, reused: set<string>, retired: set<string>, minted: set<string>)
    : map<string, Item>
  {
    map i | i in items.Keys - retired + minted ::
      if i !in items then Item(ItemPending, 0, false)
      else if i in reused then items[i].(status := ItemPending, attempts := 0)
      else items[i]
  }

  /** A newer confirmed Task took over one failed source; the slot goes back when nothing is left to do. */
  function AfterHandOff(r: Row, i: string): Option<Row> {
    if r.queue == Settled || i !in r.items || r.items[i].status !in {ItemFailed, Partial} || r.items[i].superseded
    then None
    else
      var q := r.(items := r.items[i := r.items[i].(superseded := true)],
                  mutation := if r.mutation == Some(i) then None else r.mutation);
      if HasMachineWork(q.items) || q.control.Some? then Some(q)
      else if AllFinished(q.items)
      then Some(q.(status := Completed, queue := Settled, owner := None, expires := None))
      else Some(q.(queue := WaitingHuman, owner := None, expires := None))
  }

  function WithStatus(r: Row, i: string, to: ItemStatus): Row
    requires i in r.items
  {
    r.(items := r.items[i := r.items[i].(status := to)])
  }

  /** Ignoring a source may settle a waiting Task of which it was the last unfinished one. */
  function AfterIgnore(r: Row, i: string, settles: bool): Option<Row> {
    if i in r.items && Ignorable(r.items[i].status) then
      var q := WithStatus(r, i, Ignored);
      if settles && q.queue == WaitingHuman && q.owner.None? && q.control.None? && q.mutation.None? && AllFinished(q.items)
      then Some(q.(status := Completed, queue := Settled, expires := None))
      else Some(q)
    else None
  }

  /** An analysis projection writes the row it read earlier, attempts included, over whatever is there. */
  function AfterProject(r: Row, i: string, attempts: nat, to: ItemStatus): Option<Row> {
    if to == ItemPending then
      if i in r.items || attempts != 0 then None else Some(r.(items := r.items[i := Item(ItemPending, 0, false)]))
    else if to == Processing || to == ItemFailed || AwaitsHuman(to) then
      Some(r.(items := r.items[i := Item(to, attempts, i in r.items && r.items[i].superseded)]))
    else None
  }

  /** An interrupted manual execution is closed: its unfinished sources get an outcome and a Result, and
      the Task its aggregate. Its writes conflict with the row that took the place of a deleted one, since
      a Task has one row per source. The scheduling row is not touched. */
  function AfterReconcile(r: Row, c: Change): Option<Row>
    requires c.Reconcile?
  {
    if c.closings != map[] && c.closings.Keys <= r.items.Keys && c.flow in {Running, Completed}
       && forall i | i in c.closings :: c.closings[i].to in {ItemFailed, Partial}
    then Some(r.(status := c.flow, started := c.started,
                 items := map i | i in r.items ::
                   if i in c.closings then r.items[i].(status := c.closings[i].to, attempts := c.closings[i].attempts)
                   else r.items[i],
                 results := map i | i in r.results.Keys + c.closings.Keys ::
                   if i in c.closings
                   then History(ResultsOf(r, i).recorded, ResultsOf(r, i).free && ProvesNoEffect(c.closings[i].evidence))
                   else r.results[i]))
    else None
  }

  function AfterSideWrite(r: Row, c: Change): Option<Row>
    requires SideWrite(c)
  {
    match c
    case Review(i, to) =>
      if i in r.items && r.items[i].status == Processing && AwaitsHuman(to) then Some(WithStatus(r, i, to)) else None
    case Decide(i, skip) =>
      if i in r.items && (if skip then r.items[i].status == WaitingConfirm else AwaitsHuman(r.items[i].status))
      then Some(WithStatus(r, i, if skip then Skipped else ItemPending)) else None
    case Ignore(i, settles) => AfterIgnore(r, i, settles)
    case Retry(i) => if i in r.items && r.items[i].status == ItemFailed then Some(WithStatus(r, i, ItemPending)) else None
    case Project(i, attempts, to) => AfterProject(r, i, attempts, to)
    case Reconcile(_, _, _) => AfterReconcile(r, c)
  }

  function AfterResume(r: Row): Option<Row> {
    if r.queue == Suspended && r.control != Some(Cancel)
    then Some(r.(status := Running, queue := WaitingHuman, eligible := None, generation := r.generation + 1,
                 owner := None, expires := None, control := None))
    else None
  }

  /** A transaction of the claim owner that writes one source, the aggregate or the in-flight marker. */
  function AfterPublication(r: Row, c: Change): Option<Row>
    requires c.Publish? || c.Start? || c.Progress? || c.Mutate?
  {
    match c
    case Publish(fence, now, flow, started) =>
      if OwnsLive(r, fence, now) then Some(r.(status := flow, started := started)) else None
    case Start(fence, now, item, attempt, gated) =>
      if OwnsLive(r, fence, now) && MayStart(r, item, attempt)
      then Some(r.(items := r.items[item := StartedItem(r, item, gated)]))
      else None
    case Progress(fence, now, item, attempt, to) =>
      if OwnsLive(r, fence, now) && MayPublish(r, item, to) && attempt == r.items[item].attempts
      then Some(WithStatus(r, item, to))
      else None
    case Mutate(fence, now, item) =>
      if OwnsLive(r, fence, now) && item in r.items && r.items[item].status == Processing
         && EffectFree(r, item) && r.mutation.None?
      then Some(r.(mutation := Some(item)))
      else None
  }

  function Next(k: Kernel, r: Row, c: Change): Option<Row> {
    match c
    case Claim(worker, _, now, _) =>
      if Eligible(k, worker, now) && Claimable(r, k.workers[worker], now) then Some(AfterClaim(r, c)) else None
    case Heartbeat(fence, now, lease) =>
      if Owns(r, fence) then Some(r.(expires := Some(now + lease))) else None
    case Begin(fence, now) =>
      if OwnsLive(r, fence, now) && r.status == Pending
      then Some(r.(status := Running, started := if r.started.Some? then r.started else Some(now)))
      else None
    case Request(wanted) => AfterRequest(r, wanted)
    case Acknowledge(_, _, _, _, _, _, _) => AfterAcknowledge(r, c)
    case Settle(_, _, _, _, _, _) => AfterSettle(r, c)
    case Defer(_, _, _, _, _, _) => AfterDefer(r, c)
    case Yield(_, _, _, _) => AfterYield(r, c)
    case Outcome(_, _, _, _, _, _) => AfterOutcome(r, c)
    case Complete(_, _, _, _, _, _, _, _) => AfterComplete(r, c)
    case Plan(_, _, _, _) => AfterPlan(r, c)
    case Requeue(_, _, _, capacity) => AfterRequeue(r, c, Used(k) < capacity)
    case Resume => AfterResume(r)
    case Adopt(_, _, capacity, _, _, _) => AfterAdopt(r, c, Used(k) < capacity)
    case HandOff(item) => AfterHandOff(r, item)
    case Publish(_, _, _, _) => AfterPublication(r, c)
    case Start(_, _, _, _, _) => AfterPublication(r, c)
    case Progress(_, _, _, _, _) => AfterPublication(r, c)
    case Mutate(_, _, _) => AfterPublication(r, c)
    case Review(_, _) => AfterSideWrite(r, c)
    case Decide(_, _) => AfterSideWrite(r, c)
    case Ignore(_, _) => AfterSideWrite(r, c)
    case Retry(_) => AfterSideWrite(r, c)
    case Project(_, _, _) => AfterSideWrite(r, c)
    case Reconcile(_, _, _) => AfterSideWrite(r, c)
  }

  /** One attempted transaction: the committed kernel, or None when it was refused and rolled back. */
  function Attempt(k: Kernel, op: Op): Option<Kernel> {
    match op
    case Admit(task, admission, until, capacity) =>
      if task in k.rows || Used(k) >= capacity then None
      else Some(k.(rows := k.rows[task := AdmittedRow(admission, until)]))
    case Register(worker, registration) =>
      Some(k.(workers := k.workers[worker := registration.(live := true)]))
    case Beat(worker, now) =>
      if worker !in k.workers || !k.workers[worker].live then None
      else Some(k.(workers := k.workers[worker := k.workers[worker].(seen := now)]))
    case Stop(worker, now) =>
      if worker !in k.workers then None
      else Some(k.(workers := k.workers[worker := k.workers[worker].(live := false, seen := now)]))
    case OnTask(task, change) =>
      if task !in k.rows then None
      else match Next(k, k.rows[task], change)
           case None => None
           case Some(row) => Some(k.(rows := k.rows[task := row]))
  }

  function Apply(k: Kernel, op: Op): Kernel {
    match Attempt(k, op)
    case None => k
    case Some(next) => next
  }

  /** Any interleaving of any number of processes is one sequence of attempted transactions. */
  function Run(k: Kernel, ops: seq<Op>): Kernel
    decreases |ops|
  {
    if ops == [] then k else Run(Apply(k, ops[0]), ops[1..])
  }

  lemma {:induction false} RunConcat(k: Kernel, a: seq<Op>, b: seq<Op>)
    ensures Run(k, a + b) == Run(Run(k, a), b)
    decreases |a|
  {
    if a == [] {
      assert a + b == b;
    } else {
      assert (a + b)[0] == a[0] && (a + b)[1..] == a[1..] + b;
      RunConcat(Apply(k, a[0]), a[1..], b);
    }
  }

  const EMPTY_KERNEL := Kernel(map[], map[])
}
