/** Which queued Task the resident Worker registers for, and how long a queued Task can wait for that. */
module PendingQueue {
  import opened Options
  import opened TextOrder
  import opened TaskKernel
  import opened KernelSafety
  import DirectOrganize
  import KernelLiveness

  /* ---- the listed Tasks and their order ---- */

  predicate Listed(r: Row) {
    HoldsSlot(r.queue) && r.status == Pending
  }

  datatype Key = Key(due: int, created: int, id: string)

  function KeyOf(t: string, r: Row): Key {
    Key(if r.eligible.Some? then r.eligible.value else r.admission.created, r.admission.created, t)
  }

  predicate Before(a: Key, b: Key) {
    || a.due < b.due
    || (a.due == b.due && (a.created < b.created || (a.created == b.created && StrLe(a.id, b.id))))
  }

  lemma BeforeIsTotal(a: Key, b: Key, c: Key)
    ensures Before(a, b) || Before(b, a)
    ensures Before(a, b) && Before(b, a) ==> a == b
    ensures Before(a, b) && Before(b, c) ==> Before(a, c)
  {
    StrTotal(a.id, b.id);
    if StrLe(a.id, b.id) && StrLe(b.id, a.id) {
      StrAntisymmetric(a.id, b.id);
    }
    if StrLe(a.id, b.id) && StrLe(b.id, c.id) {
      StrTransitive(a.id, b.id, c.id);
    }
  }

  predicate InFront(k: Kernel, u: string, t: string) {
    u in k.rows && t in k.rows && u != t && Before(KeyOf(u, k.rows[u]), KeyOf(t, k.rows[t]))
  }

  /** t comes first among the Tasks of s. */
  ghost predicate First(k: Kernel, s: set<string>, t: string) {
    t in s && forall u | u in s && u != t :: InFront(k, t, u)
  }

  ghost function Listing(k: Kernel): set<string> {
    set t | t in k.rows && Listed(k.rows[t])
  }

  lemma {:induction false} SomeFirst(k: Kernel, s: set<string>)
    requires s != {} && s <= k.rows.Keys
    ensures exists t :: First(k, s, t)
    decreases |s|
  {
    var any :| any in s;
    var rest := s - {any};
    if rest == {} {
      assert forall u | u in s :: u == any || u in rest;
      assert First(k, s, any);
    } else {
      SomeFirst(k, rest);
      var head :| First(k, rest, head);
      BeforeIsTotal(KeyOf(any, k.rows[any]), KeyOf(head, k.rows[head]), KeyOf(any, k.rows[any]));
      if InFront(k, any, head) {
        forall u | u in s && u != any ensures InFront(k, any, u) {
          assert u in rest && (u == head || InFront(k, head, u));
          BeforeIsTotal(KeyOf(any, k.rows[any]), KeyOf(head, k.rows[head]), KeyOf(u, k.rows[u]));
        }
        assert First(k, s, any);
      } else {
        assert First(k, s, head);
      }
    }
  }

  lemma FirstIsUnique(k: Kernel, s: set<string>, t: string)
    requires First(k, s, t) && s <= k.rows.Keys
    ensures forall u | First(k, s, u) :: u == t
  {
    forall u | First(k, s, u) ensures u == t {
      BeforeIsTotal(KeyOf(t, k.rows[t]), KeyOf(u, k.rows[u]), KeyOf(t, k.rows[t]));
    }
  }

  /** ORDER BY ... LIMIT 1 over the Tasks of s. */
  ghost function FirstOf(k: Kernel, s: set<string>): (head: Option<string>)
    requires s <= k.rows.Keys
    ensures head.None? <==> s == {}
    ensures forall t :: head == Some(t) <==> First(k, s, t)
  {
    if s == {} then None
    else
      SomeFirst(k, s);
      var t :| First(k, s, t);
      FirstIsUnique(k, s, t);
      Some(t)
  }

  ghost function Head(k: Kernel): Option<string> {
    FirstOf(k, Listing(k))
  }

  /** When a Task is due: at its own time, or from its admission on. */
  predicate DueAt(r: Row, due: int) {
    r.eligible == Some(due) || (r.eligible.None? && r.admission.created == due)
  }

  /** The head is a queued or claimed, still pending Task, and every other such Task is due later, or as late and
      admitted later, or as late and admitted together with a greater id. */
  lemma HeadIff(k: Kernel, t: string)
    ensures Head(k) == Some(t) <==>
              && t in k.rows && k.rows[t].queue in {Queued, Claimed} && k.rows[t].status == Pending
              && forall u, a, b |
                   && u in k.rows && u != t && k.rows[u].queue in {Queued, Claimed} && k.rows[u].status == Pending
                   && DueAt(k.rows[t], a) && DueAt(k.rows[u], b) ::
                   || a < b
                   || (a == b && k.rows[t].admission.created < k.rows[u].admission.created)
                   || (a == b && k.rows[t].admission.created == k.rows[u].admission.created && StrLe(t, u))
  {
    assert forall u :: u in Listing(k) <==> u in k.rows && k.rows[u].queue in {Queued, Claimed} && k.rows[u].status == Pending;
    forall u, a, b | t in k.rows && u in k.rows && DueAt(k.rows[t], a) && DueAt(k.rows[u], b)
      ensures KeyOf(t, k.rows[t]).due == a && KeyOf(u, k.rows[u]).due == b
    {
    }
    assert forall u | u in k.rows :: DueAt(k.rows[u], KeyOf(u, k.rows[u]).due);
  }

  /** The pin the Worker registers: the head's own, or the Active reference when nothing is queued. */
  ghost function SelectedPin(k: Kernel, active: Option<Pin>): Option<Pin> {
    if Head(k).Some? then k.rows[Head(k).value].admission.pin else active
  }

  /* ---- the Worker that registers for it ---- */

  class ResidentWorker {
    const id: string
    const commands: set<string>
    const interval: nat
    var pin: Option<Pin>
    var registered: bool

    constructor (id: string, commands: set<string>, interval: nat)
      ensures this.id == id && this.commands == commands && this.interval == interval
      ensures pin == None && !registered
    {
      this.id, this.commands, this.interval := id, commands, interval;
      pin, registered := None, false;
    }

    /** What this process believes about its own registration row is true. */
    predicate Agrees(k: Kernel)
      reads this
    {
      registered ==> id in k.workers && k.workers[id].pin == pin && k.workers[id].commands == commands
    }

    /** selected is what the snapshot resolver answered just before. */
    method EnsureRegistration(k: Kernel, selected: Option<Pin>, now: int) returns (next: Kernel)
      requires Agrees(k)
      modifies this
      ensures Agrees(next) && registered && pin == selected
      ensures id in next.workers && next.workers[id].pin == selected && next.workers[id].commands == commands
      ensures next.rows == k.rows
      ensures next == k || next == Apply(k, Register(id, Registration(true, now, interval, commands, selected)))
      ensures next == k <== old(registered) && old(pin) == selected
    {
      next := k;
      if pin != selected {
        pin := selected;
        registered := false;
      }
      if !registered {
        next := k.(workers := k.workers[id := Registration(true, now, interval, commands, pin)]);
        registered := true;
      }
    }
  }

  /* ---- what that Worker's next claim takes ---- */

  ghost function ClaimableBy(k: Kernel, w: Registration, now: int): set<string> {
    set t | t in k.rows && Claimable(k.rows[t], w, now)
  }

  ghost function NextClaim(k: Kernel, w: Registration, now: int): Option<string> {
    FirstOf(k, ClaimableBy(k, w, now))
  }

  /** A Worker registered for the head takes the head exactly when the head can be taken at all. */
  lemma HeadIsClaimedIff(k: Kernel, w: Registration, now: int, active: Option<Pin>)
    requires Head(k).Some? && w.pin == SelectedPin(k, active)
    ensures NextClaim(k, w, now) == Head(k) <==> Claimable(k.rows[Head(k).value], w, now)
  {
    var h := Head(k).value;
    assert First(k, Listing(k), h);
    if NextClaim(k, w, now).Some? {
      assert First(k, ClaimableBy(k, w, now), NextClaim(k, w, now).value);
    }
    if Claimable(k.rows[h], w, now) {
      assert ClaimableBy(k, w, now) <= Listing(k);
      assert First(k, ClaimableBy(k, w, now), h);
    }
  }

  /** Behind a head that cannot be taken, exactly the Tasks of the head's own pin are served. */
  lemma BehindTheHead(k: Kernel, w: Registration, now: int, active: Option<Pin>)
    requires Head(k).Some? && w.pin == SelectedPin(k, active) && w.pin.Some?
    ensures NextClaim(k, w, now).Some? <==>
              exists t :: t in k.rows && k.rows[t].admission.pin == w.pin && Claimable(k.rows[t], w.(pin := None), now)
    ensures NextClaim(k, w, now).Some? ==> k.rows[NextClaim(k, w, now).value].admission.pin == w.pin
  {
    forall t | t in k.rows
      ensures t in ClaimableBy(k, w, now) <==> k.rows[t].admission.pin == w.pin && Claimable(k.rows[t], w.(pin := None), now)
    {
    }
    if NextClaim(k, w, now).Some? {
      assert First(k, ClaimableBy(k, w, now), NextClaim(k, w, now).value);
    }
  }

  /** A head whose own due time lies ahead hides nothing: no listed Task is due before it. */
  lemma FutureHeadHidesNothing(k: Kernel, w: Registration, now: int, t: string)
    requires Head(k).Some? && k.rows[Head(k).value].eligible.Some? && k.rows[Head(k).value].eligible.value > now
    requires t in k.rows && Claimable(k.rows[t], w, now)
    ensures k.rows[t].eligible.None? && k.rows[t].admission.created > now
  {
    var h := Head(k).value;
    assert First(k, Listing(k), h) && t in Listing(k);
    assert h != t;
  }

  /* ---- how long a Task waits ---- */

  ghost function Ahead(k: Kernel, t: string): set<string> {
    set u | u in k.rows && Listed(k.rows[u]) && InFront(k, u, t)
  }

  predicate Waits(k: Kernel, t: string) {
    t in k.rows && Listed(k.rows[t])
  }

  lemma HeadIsAheadOrIt(k: Kernel, t: string)
    requires Waits(k, t)
    ensures Head(k).Some? && (Head(k) == Some(t) || Head(k).value in Ahead(k, t))
    ensures Ahead(k, t) == {} <==> Head(k) == Some(t)
  {
    assert t in Listing(k);
    var h := Head(k).value;
    assert First(k, Listing(k), h);
    forall u | u in k.rows && Listed(k.rows[u]) && h == t ensures u !in Ahead(k, t) {
      assert u == t || InFront(k, t, u);
      BeforeIsTotal(KeyOf(u, k.rows[u]), KeyOf(t, k.rows[t]), KeyOf(u, k.rows[u]));
    }
  }

  /** One selection round: t keeps waiting at its place, nobody slips in front of it, and the
      selected head, unless it is t, is no longer in front of t at the next selection. */
  ghost predicate Round(k: Kernel, next: Kernel, t: string) {
    && Waits(k, t) && Waits(next, t) && KeyOf(t, next.rows[t]) == KeyOf(t, k.rows[t])
    && Ahead(next, t) <= Ahead(k, t)
    && (Head(k) == Some(t) || (Head(k).Some? && Head(k).value !in Ahead(next, t)))
  }

  /** states[i] is the kernel at the i-th selection. */
  ghost predicate Rounds(states: seq<Kernel>, t: string) {
    && states != [] && Waits(states[0], t)
    && forall i | 0 <= i < |states| - 1 :: Round(states[i], states[i + 1], t)
  }

  /** A waiting Task is selected after at most as many selections as Tasks were ahead of it. */
  lemma {:induction false} SelectedInTime(states: seq<Kernel>, t: string) returns (i: nat)
    requires Rounds(states, t) && |states| > |Ahead(states[0], t)|
    ensures i <= |Ahead(states[0], t)| && Head(states[i]) == Some(t)
    decreases |states|
  {
    HeadIsAheadOrIt(states[0], t);
    if Head(states[0]) == Some(t) {
      i := 0;
    } else {
      var h := Head(states[0]).value;
      assert |states| > 1 && Round(states[0], states[0 + 1], t);
      var before, after := Ahead(states[0], t), Ahead(states[1], t);
      assert after <= before - {h};
      SubsetSize(after, before - {h});
      var rest := states[1..];
      forall j | 0 <= j < |rest| - 1 ensures Round(rest[j], rest[j + 1], t) {
        assert Round(states[j + 1], states[j + 1 + 1], t);
      }
      var j := SelectedInTime(rest, t);
      i := j + 1;
    }
  }

  /* ---- who can slip in front ---- */

  predicate Overtakes(k: Kernel, op: Op, t: string, u: string) {
    && InFront(Apply(k, op), u, t) && Listed(Apply(k, op).rows[u])
    && !(InFront(k, u, t) && Listed(k.rows[u]))
  }

  predicate Relists(c: Change) {
    c.Requeue? || c.Yield? || c.Adopt? || ((c.Publish? || c.Complete?) && c.flow == Pending)
  }

  /** The due time a relisted row gets. */
  function DueAfter(r: Row, c: Change): Option<int> {
    if c.Requeue? || c.Yield? then c.until else if c.Adopt? then None else r.eligible
  }

  /** A row enters the listing, or changes its place in it, only in these ways. */
  lemma EnteringRow(k: Kernel, r: Row, c: Change)
    requires Next(k, r, c).Some? && Listed(Next(k, r, c).value)
    ensures Next(k, r, c).value.admission.created == r.admission.created
    ensures Next(k, r, c).value.eligible == DueAfter(r, c)
    ensures !Listed(r) || Next(k, r, c).value.eligible != r.eligible ==> Relists(c)
  {
    AdmissionStays(k, r, c);
    if Publication(c) {
      PublicationFrame(k, r, c);
    } else if SideWrite(c) {
      SideWriteFrame(r, c);
    }
  }

  /** Only an admission, a requeue, a yield, an adoption, or publishing a claimed Task as pending again can
      put a Task in front of a waiting one; each enters with the due time it was given, or else with
      the admission time it always had. */
  lemma OnlyRelistingOvertakes(k: Kernel, op: Op, t: string, u: string)
    requires Waits(k, t) && Waits(Apply(k, op), t) && KeyOf(t, Apply(k, op).rows[t]) == KeyOf(t, k.rows[t])
    requires Overtakes(k, op, t, u)
    ensures op.Admit? || (op.OnTask? && Relists(op.change) && u in k.rows)
    ensures op.Admit? ==> op.task == u && Before(KeyOf(u, AdmittedRow(op.admission, op.until)), KeyOf(t, k.rows[t]))
    ensures op.OnTask? ==> op.task == u && Before(KeyOf(u, k.rows[u].(eligible := DueAfter(k.rows[u], op.change))), KeyOf(t, k.rows[t]))
  {
    if op.OnTask? {
      var r := k.rows[op.task];
      var next := Next(k, r, op.change);
      if next.Some? && Listed(next.value) {
        EnteringRow(k, r, op.change);
      }
    }
  }

  /** A run in which t keeps its place and no step overtakes it. */
  ghost predicate Undisturbed(k: Kernel, ops: seq<Op>, t: string)
    requires Waits(k, t)
    decreases |ops|
  {
    || ops == []
    || (&& Waits(Apply(k, ops[0]), t) && KeyOf(t, Apply(k, ops[0]).rows[t]) == KeyOf(t, k.rows[t])
        && (forall u :: !Overtakes(k, ops[0], t, u))
        && Undisturbed(Apply(k, ops[0]), ops[1..], t))
  }

  lemma {:induction false} NobodySlipsIn(k: Kernel, ops: seq<Op>, t: string)
    requires Waits(k, t) && Undisturbed(k, ops, t)
    ensures Waits(Run(k, ops), t) && KeyOf(t, Run(k, ops).rows[t]) == KeyOf(t, k.rows[t])
    ensures Ahead(Run(k, ops), t) <= Ahead(k, t)
    decreases |ops|
  {
    if ops == [] {
    } else {
      var next := Apply(k, ops[0]);
      forall u | u in Ahead(next, t) ensures u in Ahead(k, t) {
        assert !Overtakes(k, ops[0], t, u);
      }
      NobodySlipsIn(next, ops[1..], t);
    }
  }

  /** Between two selections any interleaving may run; if it disturbs nobody and the selected Task has
      gone from in front, that is a round. */
  lemma RunIsRound(k: Kernel, ops: seq<Op>, t: string)
    requires Waits(k, t) && Undisturbed(k, ops, t)
    requires Head(k) == Some(t) || (Head(k).Some? && Head(k).value !in Ahead(Run(k, ops), t))
    ensures Round(k, Run(k, ops), t)
  {
    NobodySlipsIn(k, ops, t);
  }

  /* ---- a head that never leaves ---- */

  /** Owned, listed, and with an effect in flight: the owner died between publishing the Task as
      pending and releasing it. */
  predicate Stuck(r: Row, f: Fence) {
    KernelLiveness.Held(r, f) && Listed(r) && r.mutation.Some?
  }

  /** Frees h, or rewrites its status: an interrupted manual execution of it is reconciled. */
  predicate MayUnstick(op: Op, h: string, f: Fence) {
    KernelLiveness.MayFree(op, h, f) || (op.OnTask? && op.task == h && op.change.Reconcile?)
  }

  lemma StuckStep(k: Kernel, r: Row, f: Fence, c: Change)
    requires RowOk(r) && Stuck(r, f) && Next(k, r, c).Some?
    requires FenceOf(c) != Some(f) && !c.HandOff? && !c.Reconcile?
    ensures Stuck(Next(k, r, c).value, f)
    ensures KeyOf("", Next(k, r, c).value) == KeyOf("", r) && Next(k, r, c).value.admission == r.admission
  {
    KernelLiveness.HeldStep(k, r, f, c);
    if Publication(c) {
      PublicationFrame(k, r, c);
    } else if SideWrite(c) {
      SideWriteFrame(r, c);
    }
  }

  lemma {:induction false} StuckStays(k: Kernel, ops: seq<Op>, h: string, f: Fence)
    requires KernelOk(k) && h in k.rows && Stuck(k.rows[h], f)
    requires forall i | 0 <= i < |ops| :: !MayUnstick(ops[i], h, f)
    ensures h in Run(k, ops).rows && Stuck(Run(k, ops).rows[h], f)
    ensures Run(k, ops).rows[h].admission == k.rows[h].admission
    decreases |ops|
  {
    if ops == [] {
    } else {
      assert !MayUnstick(ops[0], h, f);
      if ops[0].OnTask? && ops[0].task == h && Next(k, k.rows[h], ops[0].change).Some? {
        StuckStep(k, k.rows[h], f, ops[0].change);
      }
      ApplyKeepsKernel(k, ops[0]);
      StuckStays(Apply(k, ops[0]), ops[1..], h, f);
    }
  }

  /** A stuck head stays the head through every interleaving that neither frees nor overtakes it, and a
      Worker registered for it then never claims a Task of another pin. */
  lemma StuckHeadStarvesOtherPins(k: Kernel, ops: seq<Op>, h: string, f: Fence, w: Registration, now: int, active: Option<Pin>)
    requires KernelOk(k) && Head(k) == Some(h) && Stuck(k.rows[h], f) && k.rows[h].admission.pin.Some?
    requires forall i | 0 <= i < |ops| :: !MayUnstick(ops[i], h, f)
    requires Undisturbed(k, ops, h)
    requires w.pin == SelectedPin(Run(k, ops), active)
    ensures Head(Run(k, ops)) == Some(h) && NextClaim(Run(k, ops), w, now) != Some(h)
    ensures NextClaim(Run(k, ops), w, now).Some? ==>
              Run(k, ops).rows[NextClaim(Run(k, ops), w, now).value].admission.pin == k.rows[h].admission.pin
  {
    assert First(k, Listing(k), h);
    var later := Run(k, ops);
    StuckStays(k, ops, h, f);
    NobodySlipsIn(k, ops, h);
    HeadIsAheadOrIt(k, h);
    HeadIsAheadOrIt(later, h);
    HeadIsClaimedIff(later, w, now, active);
    BehindTheHead(later, w, now, active);
  }

  /* ---- the stuck head exists ---- */

  const FENCE := Fence(Owner("w", "token"), 1)
  const CLAIM := Claim("w", "token", 0, 900)
  const DONE := Item(ItemFailed, 1, false)

  /** A failed attempt that completed operations and cannot say whether it changed anything. */
  const UNVERIFIED := Evidence(Unverified, true, true, false)

  const REPORT := Outcome(FENCE, 4, "i", 1, ItemFailed, UNVERIFIED)

  function Begun(r: Row): Row {
    AfterClaim(r, CLAIM).(status := Running, started := Some(1))
  }

  function Started(r: Row): Row {
    Begun(r).(items := map["i" := Item(Processing, 1, false)])
  }

  function Mutated(r: Row): Row {
    Started(r).(mutation := Some("i"))
  }

  function Reported(r: Row): Row {
    Mutated(r).(items := map["i" := DONE], results := map["i" := History({1}, false)])
  }

  function Identified(r: Row): Row {
    Reported(r).(items := map["i" := DONE, "j" := Item(Processing, 1, false)])
  }

  function Asked(r: Row): Row {
    Reported(r).(items := map["i" := DONE, "j" := Item(WaitingMetadata, 1, false)])
  }

  function Deferring(r: Row): Row {
    Asked(r).(status := Pending, started := None)
  }

  lemma EffectReported(r: Row, w: Registration)
    requires r == AdmittedRow(r.admission, None) && w == Registration(true, 0, 900, {r.admission.command}, r.admission.pin)
    ensures Next(KernelLiveness.Single(r, w), r, CLAIM) == Some(AfterClaim(r, CLAIM))
    ensures Next(KernelLiveness.Single(AfterClaim(r, CLAIM), w), AfterClaim(r, CLAIM), Begin(FENCE, 1)) == Some(Begun(r))
    ensures Next(KernelLiveness.Single(Begun(r), w), Begun(r), Start(FENCE, 2, "i", 1, false)) == Some(Started(r))
    ensures Next(KernelLiveness.Single(Started(r), w), Started(r), Mutate(FENCE, 3, "i")) == Some(Mutated(r))
  {
    assert map[]["i" := Item(Processing, 1, false)] == map["i" := Item(Processing, 1, false)];
  }

  lemma FailureReported(r: Row, w: Registration)
    requires r == AdmittedRow(r.admission, None)
    ensures Next(KernelLiveness.Single(Mutated(r), w), Mutated(r), REPORT) == Some(Reported(r))
  {
    assert Mutated(r).items["i" := DONE] == Reported(r).items;
    assert {} + {1} == {1};
  }

  lemma ReviewAsked(r: Row, w: Registration)
    requires r == AdmittedRow(r.admission, None)
    ensures Next(KernelLiveness.Single(Reported(r), w), Reported(r), Start(FENCE, 5, "j", 1, false)) == Some(Identified(r))
    ensures Next(KernelLiveness.Single(Identified(r), w), Identified(r), Review("j", WaitingMetadata)) == Some(Asked(r))
    ensures Next(KernelLiveness.Single(Asked(r), w), Asked(r), Publish(FENCE, 7, Pending, None)) == Some(Deferring(r))
  {
    assert Reported(r).items["j" := Item(Processing, 1, false)] == Identified(r).items;
    assert Identified(r).items["j" := Item(WaitingMetadata, 1, false)] == Asked(r).items;
  }

  lemma WaitingIsDeferred(r: Row)
    ensures DirectOrganize.ChooseArm(Statuses(Asked(r).items), false) == DirectOrganize.DeferredToHuman
  {
    var seen := Statuses(Asked(r).items);
    assert seen == map["i" := ItemFailed, "j" := WaitingMetadata];
    assert "j" in seen && AwaitsHuman(seen["j"]);
    assert DirectOrganize.ArmFits(DirectOrganize.DeferredToHuman, seen, false);
    DirectOrganize.ArmIgnoresOutcomes(seen, seen, false, DirectOrganize.DeferredToHuman);
  }

  lemma OnlyTaskIsHead(r: Row, w: Registration)
    requires Listed(r)
    ensures Head(KernelLiveness.Single(r, w)) == Some("t")
  {
    var k := KernelLiveness.Single(r, w);
    assert First(k, Listing(k), "t");
  }

  /** The run that makes one, as a direct pass produces it: a source's failed attempt leaves an effect that
      nobody could verify, a second source waits for a review, and the pass chooses the waiting arm. It
      publishes the Task with the status it was admitted with and dies before the release, which
      would have closed the recorded effect. */
  lemma StuckHeadIsReachable(r: Row, w: Registration)
    requires r == AdmittedRow(r.admission, None) && w == Registration(true, 0, 900, {r.admission.command}, r.admission.pin)
    ensures DirectOrganize.ChooseArm(Statuses(Asked(r).items), false) == DirectOrganize.DeferredToHuman
    ensures Run(KernelLiveness.Single(r, w), [OnTask("t", CLAIM)] + ([OnTask("t", Begin(FENCE, 1))]
              + ([OnTask("t", Start(FENCE, 2, "i", 1, false))] + ([OnTask("t", Mutate(FENCE, 3, "i"))] + ([OnTask("t", REPORT)]
              + ([OnTask("t", Start(FENCE, 5, "j", 1, false))] + ([OnTask("t", Review("j", WaitingMetadata))]
              + ([OnTask("t", Publish(FENCE, 7, Pending, None))] + []))))))))
            == KernelLiveness.Single(Deferring(r), w)
    ensures Stuck(Deferring(r), FENCE) && Head(KernelLiveness.Single(Deferring(r), w)) == Some("t")
    ensures AfterDefer(Deferring(r), Defer(FENCE, 8, Pending, map[], None, true)).Some?
  {
    WaitingIsDeferred(r);
    OnlyTaskIsHead(Deferring(r), w);
    CloseWouldRelease(r);
    EffectReported(r, w);
    FailureReported(r, w);
    ReviewAsked(r, w);
    var s8: seq<Op> := [OnTask("t", Publish(FENCE, 7, Pending, None))] + [];
    var s7 := [OnTask("t", Review("j", WaitingMetadata))] + s8;
    var s6 := [OnTask("t", Start(FENCE, 5, "j", 1, false))] + s7;
    var s5 := [OnTask("t", REPORT)] + s6;
    var s4 := [OnTask("t", Mutate(FENCE, 3, "i"))] + s5;
    var s3 := [OnTask("t", Start(FENCE, 2, "i", 1, false))] + s4;
    KernelLiveness.SingleStep(r, w, CLAIM, AfterClaim(r, CLAIM), [OnTask("t", Begin(FENCE, 1))] + s3);
    KernelLiveness.SingleStep(AfterClaim(r, CLAIM), w, Begin(FENCE, 1), Begun(r), s3);
    KernelLiveness.SingleStep(Begun(r), w, Start(FENCE, 2, "i", 1, false), Started(r), s4);
    KernelLiveness.SingleStep(Started(r), w, Mutate(FENCE, 3, "i"), Mutated(r), s5);
    KernelLiveness.SingleStep(Mutated(r), w, REPORT, Reported(r), s6);
    KernelLiveness.SingleStep(Reported(r), w, Start(FENCE, 5, "j", 1, false), Identified(r), s7);
    KernelLiveness.SingleStep(Identified(r), w, Review("j", WaitingMetadata), Asked(r), s8);
    KernelLiveness.SingleStep(Asked(r), w, Publish(FENCE, 7, Pending, None), Deferring(r), []);
  }

  lemma CloseWouldRelease(r: Row)
    requires r == AdmittedRow(r.admission, None)
    ensures AfterDefer(Deferring(r), Defer(FENCE, 8, Pending, map[], None, true)).Some?
  {
    var q := Closed(Deferring(r), true);
    assert BoundaryFinished(Deferring(r));
    assert MayRelease(q, FENCE, 8, map[]);
  }
}
