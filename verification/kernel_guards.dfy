/** What the guards of the kernel's transactions let through, on the columns they read: the lease of a claim,
    the evidence of a Result, the start of an attempt. */
module KernelGuards {
  import opened Options
  import opened TaskKernel
  import opened KernelSafety

  /* ---- the lease ---- */

  /** Before the lease ends nobody claims an owned Task, whoever asks. */
  lemma LiveLeaseBarsClaims(k: Kernel, r: Row, c: Change)
    requires r.queue == Claimed && r.owner.Some? && r.expires.Some? && c.Claim? && c.now < r.expires.value
    ensures Next(k, r, c).None?
  {
  }

  /** The instants at which this Worker's claim of the Task commits: from the later one of the due time and the
      end of the lease on, up to ten seconds or three intervals after the Worker's last heartbeat. */
  lemma ClaimCommitsIff(k: Kernel, r: Row, worker: string, token: string, now: int, lease: nat)
    requires worker in k.workers
    ensures var w := k.workers[worker];
            Next(k, r, Claim(worker, token, now, lease)).Some? <==>
              && (r.eligible.Some? ==> r.eligible.value <= now)
              && (r.owner.Some? && r.expires.Some? ==> r.expires.value <= now)
              && (now <= w.seen + 10 || now <= w.seen + 3 * w.interval)
              && w.live && r.admission.command in w.commands && (w.pin.Some? ==> r.admission.pin == w.pin)
              && r.queue in {Queued, Claimed} && r.status == Pending && r.mutation.None?
  {
  }

  /** And what it grants: the owner, the next generation, and a lease of exactly the asked length. */
  lemma ClaimGrants(k: Kernel, r: Row, c: Change)
    requires c.Claim? && Next(k, r, c).Some?
    ensures Next(k, r, c).value ==
              r.(queue := Claimed, generation := r.generation + 1, owner := Some(Owner(c.worker, c.token)), expires := Some(c.now + c.lease))
  {
  }

  /** The ways an ownership ends: its owner releases or yields, a hand-over takes the slot, or a claim is made
      at or after the end of its lease. */
  predicate Ends(r: Row, f: Fence, c: Change)
    requires r.expires.Some?
  {
    || (FenceOf(c) == Some(f) && (c.Acknowledge? || c.Settle? || c.Defer? || c.Yield?))
    || (c.HandOff? && AfterHandOff(r, c.item).Some? && AfterHandOff(r, c.item).value.queue != Claimed)
    || (c.Claim? && r.expires.value <= c.now)
  }

  /** For every transaction on an owned Task: the ownership survives it exactly when it is none of those. */
  lemma OwnershipEndsIff(k: Kernel, r: Row, f: Fence, c: Change)
    requires RowOk(r) && Owns(r, f) && Next(k, r, c).Some?
    ensures Owns(Next(k, r, c).value, f) <==> !Ends(r, f, c)
  {
    if Publication(c) {
      PublicationFrame(k, r, c);
    } else if SideWrite(c) {
      SideWriteFrame(r, c);
    }
  }

  /** The transaction leaves f's ownership of t alone up to instant e: no claim of t is made at e or later, f
      neither releases nor yields it nor shortens its lease, and no newer Task takes one of its sources. */
  predicate Spares(op: Op, t: string, f: Fence, e: int) {
    op.OnTask? && op.task == t ==>
      match op.change
      case Claim(_, _, now, _) => now < e
      case Heartbeat(fence, now, lease) => fence == f ==> e <= now + lease
      case HandOff(_) => false
      case _ => FenceOf(op.change) == Some(f) ==> !Releases(op.change) && !op.change.Yield?
  }

  lemma LeaseStep(k: Kernel, r: Row, f: Fence, e: int, t: string, c: Change)
    requires RowOk(r) && Owns(r, f) && e <= r.expires.value && Next(k, r, c).Some? && Spares(OnTask(t, c), t, f, e)
    ensures var next := Next(k, r, c).value; Owns(next, f) && next.expires.Some? && e <= next.expires.value
  {
    if Publication(c) {
      PublicationFrame(k, r, c);
    } else if SideWrite(c) {
      SideWriteFrame(r, c);
    }
  }

  /** Over every run: while no claim is made at or after the end of the lease, nobody takes a claimed Task from
      its owner; only the owner's own release and a hand-over end the ownership before. */
  lemma {:induction false} OwnedForItsLease(k: Kernel, ops: seq<Op>, t: string, f: Fence, e: int)
    requires KernelOk(k) && t in k.rows && Owns(k.rows[t], f) && e <= k.rows[t].expires.value
    requires forall i | 0 <= i < |ops| :: Spares(ops[i], t, f, e)
    ensures t in Run(k, ops).rows && Owns(Run(k, ops).rows[t], f)
    ensures Run(k, ops).rows[t].expires.Some? && e <= Run(k, ops).rows[t].expires.value
    decreases |ops|
  {
    if ops == [] {
    } else {
      assert Spares(ops[0], t, f, e);
      if ops[0].OnTask? && ops[0].task == t && Next(k, k.rows[t], ops[0].change).Some? {
        LeaseStep(k, k.rows[t], f, e, t, ops[0].change);
      }
      ApplyKeepsKernel(k, ops[0]);
      OwnedForItsLease(Apply(k, ops[0]), ops[1..], t, f, e);
    }
  }

  /** So a claim owns its Task for the whole lease it asked for. */
  lemma ClaimedForItsLease(k: Kernel, ops: seq<Op>, t: string, c: Change)
    requires KernelOk(k) && t in k.rows && c.Claim? && Next(k, k.rows[t], c).Some?
    requires forall i | 0 <= i < |ops| :: Spares(ops[i], t, Fence(Owner(c.worker, c.token), k.rows[t].generation + 1), c.now + c.lease)
    ensures var later := Run(Apply(k, OnTask(t, c)), ops);
            t in later.rows && Owns(later.rows[t], Fence(Owner(c.worker, c.token), k.rows[t].generation + 1))
  {
    ApplyKeepsKernel(k, OnTask(t, c));
    ClaimGrants(k, k.rows[t], c);
    OwnedForItsLease(Apply(k, OnTask(t, c)), ops, t, Fence(Owner(c.worker, c.token), k.rows[t].generation + 1), c.now + c.lease);
  }

  /* ---- the evidence of a Result ---- */

  /** The Result says that something happened, may have happened, or was done. */
  predicate Acts(e: Evidence) {
    e.certainty != NoEffect || e.successful || e.uncertain || e.operations
  }

  /** The transaction records a Result of i with this evidence. */
  predicate Records(c: Change, i: string, e: Evidence) {
    || (c.Outcome? && c.item == i && c.evidence == e)
    || (c.Complete? && c.item == i && c.evidence == e)
    || (c.Reconcile? && i in c.closings && c.closings[i].evidence == e)
  }

  lemma RecordedIff(k: Kernel, r: Row, c: Change, i: string, e: Evidence)
    requires Records(c, i, e) && Next(k, r, c).Some?
    ensures EffectFree(Next(k, r, c).value, i) <==> EffectFree(r, i) && !Acts(e)
  {
  }

  /** Once a Result that acts is recorded for a source, no continuation ever mutates that source again, nor
      starts an attempt of it while it has a row. */
  lemma ActedSourceIsLeftAlone(k: Kernel, t: string, c: Change, i: string, e: Evidence, ops: seq<Op>, d: Change)
    requires t in k.rows && Next(k, k.rows[t], c).Some? && Records(c, i, e) && Acts(e)
    ensures var later := Run(Apply(k, OnTask(t, c)), ops);
            && (d.Mutate? && d.item == i ==> Attempt(later, OnTask(t, d)).None?)
            && (d.Start? && d.item == i && t in later.rows && i in later.rows[t].items ==> Attempt(later, OnTask(t, d)).None?)
  {
    var k1 := Apply(k, OnTask(t, c));
    RecordedIff(k, k.rows[t], c, i, e);
    RunIsLater(k1, ops, t);
    assert HistoryLater(ResultsOf(k1.rows[t], i), ResultsOf(Run(k1, ops).rows[t], i));
  }

  /** A Result that does not act, and a Result of another source, leave the guard of a source as it was. */
  lemma CleanResultKeepsGuard(k: Kernel, r: Row, c: Change, i: string)
    requires Next(k, r, c).Some? && forall e | Records(c, i, e) :: !Acts(e)
    ensures EffectFree(Next(k, r, c).value, i) <==> EffectFree(r, i)
  {
    if c.Outcome? || c.Complete? {
      assert Records(c, c.item, c.evidence);
    } else if c.Reconcile? {
      assert i in c.closings ==> Records(c, i, c.closings[i].evidence);
    } else {
      ResultsStay(k, r, c);
    }
  }

  /** The in-flight marker is cleared by an outcome exactly when the outcome is its own source's and leaves
      nothing unknown: verified, without uncertain effects, and complete if anything was done. */
  lemma OutcomeClearsMarkerIff(k: Kernel, r: Row, c: Change)
    requires (c.Outcome? || c.Complete?) && Next(k, r, c).Some? && r.mutation.Some?
    ensures Next(k, r, c).value.mutation in {None, r.mutation}
    ensures Next(k, r, c).value.mutation.None? <==>
              && r.mutation == Some(c.item) && !c.evidence.uncertain
              && (c.evidence.certainty == VerifiedComplete || (c.evidence.certainty == NoEffect && !c.evidence.operations))
  {
  }
}
