/** When the repository's planning documents are accepted together. */
module Governance {
  import opened Options
  import Roadmap

  /* ---- the documents ---- */

  const PLANNED := "PLANNED"
  const ACTIVE := "ACTIVE"
  const FIX_REQUIRED := "FIX REQUIRED"
  const READY := "READY FOR A REVIEW"
  const CLOSED := "PASS / CLOSED"
  const SLICE_STATUSES: set<string> := {PLANNED, ACTIVE, FIX_REQUIRED, READY, CLOSED}
  const TASK_STATUSES: set<string> := {PLANNED, "IN PROGRESS", FIX_REQUIRED, "READY FOR B REVIEW"}
  const SLICE_TYPE := "SLICE"
  const STANDALONE_TYPE := "STANDALONE MINOR BUG"
  const NOT_SET := "NOT SET"

  /** What each header search found in the Slice contract. */
  datatype SliceFields = SliceFields(id: Option<nat>, status: Option<string>, base: Option<string>, head: Option<string>)

  datatype SliceState = SliceState(id: nat, status: string, base: string, head: string)

  function ParseSlice(f: SliceFields): Option<SliceState> {
    if f.id.Some? && f.status.Some? && f.base.Some? && f.head.Some? && f.status.value in SLICE_STATUSES
    then Some(SliceState(f.id.value, f.status.value, f.base.value, f.head.value))
    else None
  }

  /** idle: the text opens with the no-active-Task heading. */
  datatype TaskFields = TaskFields(idle: bool, status: Option<string>, kind: Option<string>, parent: Option<string>, base: Option<string>)

  datatype TaskState = Idle | Standalone(base: string) | OfSlice(parent: nat, base: string)

  predicate Numeric(s: string) {
    s != "" && forall i | 0 <= i < |s| :: Roadmap.Digit(s[i])
  }

  function ParseTask(f: TaskFields): Option<TaskState> {
    if f.idle then Some(Idle)
    else if f.status.None? || f.status.value !in TASK_STATUSES then None
    else
      var kind := if f.kind.Some? then f.kind.value else SLICE_TYPE;
      if kind !in {SLICE_TYPE, STANDALONE_TYPE} || f.parent.None? || f.base.None? then None
      else if kind == STANDALONE_TYPE then (if f.parent.value == "NONE" then Some(Standalone(f.base.value)) else None)
      else if Numeric(f.parent.value) then Some(OfSlice(Roadmap.Value(f.parent.value), f.base.value))
      else None
  }

  /** A Slice contract is read exactly when all four headers are there and its status is a known one, and
      each header goes to its own place: the base is never the implementation head. */
  lemma SliceIff(f: SliceFields, s: SliceState)
    ensures ParseSlice(f) == Some(s) <==>
              && f == SliceFields(Some(s.id), Some(s.status), Some(s.base), Some(s.head))
              && s.status in {"PLANNED", "ACTIVE", "FIX REQUIRED", "READY FOR A REVIEW", "PASS / CLOSED"}
  {
  }

  /** An active Task has a known status; without a type it belongs to a Slice. */
  predicate TaskReads(f: TaskFields, task: TaskState) {
    match task
    case Idle => f.idle
    case Standalone(base) =>
      && !f.idle && f.status.Some? && f.status.value in {"PLANNED", "IN PROGRESS", "FIX REQUIRED", "READY FOR B REVIEW"}
      && f.kind == Some("STANDALONE MINOR BUG") && f.parent == Some("NONE") && f.base == Some(base)
    case OfSlice(parent, base) =>
      && !f.idle && f.status.Some? && f.status.value in {"PLANNED", "IN PROGRESS", "FIX REQUIRED", "READY FOR B REVIEW"}
      && (f.kind.None? || f.kind == Some("SLICE")) && f.base == Some(base)
      && f.parent.Some? && Roadmap.Digits(f.parent.value) && IsValue(f.parent.value, parent)
  }

  predicate IsValue(digits: string, n: nat) {
    (forall i | 0 <= i < |digits| :: Roadmap.Digit(digits[i])) && Roadmap.Value(digits) == n
  }

  /** The Task a document is read as: no Task, a standalone one, or one of the Slice its parent names. */
  lemma TaskIff(f: TaskFields, task: TaskState)
    ensures ParseTask(f) == Some(task) <==> TaskReads(f, task)
  {
    if f.parent.Some? {
      Roadmap.DigitsIff(f.parent.value);
      assert !Roadmap.Digit("NONE"[0]);
    }
  }

  /* ---- history ---- */

  type History = map<string, set<string>>

  ghost predicate Path(h: History, path: seq<string>) {
    && path != []
    && (forall i | 0 <= i < |path| :: path[i] in h)
    && (forall i | 0 <= i < |path| - 1 :: path[i + 1] in h[path[i]])
  }

  /** git merge-base --is-ancestor: a path along parents leads from the descendant to the ancestor. */
  ghost predicate IsAncestor(h: History, ancestor: string, descendant: string) {
    exists path :: Path(h, path) && path[0] == descendant && path[|path| - 1] == ancestor
  }

  predicate FullSha(s: string) {
    |s| == 40 && forall i | 0 <= i < |s| :: '0' <= s[i] <= '9' || 'a' <= s[i] <= 'f'
  }

  predicate IsCommit(h: History, sha: string) {
    FullSha(sha) && sha in h
  }

  ghost predicate Lineage(h: History, s: SliceState, head: string) {
    && IsCommit(h, s.base) && IsAncestor(h, s.base, head)
    && (s.head == NOT_SET || (IsCommit(h, s.head) && IsAncestor(h, s.base, s.head)))
  }

  const HEX: set<char> := {'0', '1', '2', '3', '4', '5', '6', '7', '8', '9', 'a', 'b', 'c', 'd', 'e', 'f'}

  lemma HexIff(c: char)
    ensures '0' <= c <= '9' || 'a' <= c <= 'f' <==> c in HEX
  {
    assert (c as int) as char == c;
  }

  lemma IsCommitIff(h: History, sha: string)
    ensures IsCommit(h, sha) <==> sha in h && |sha| == 40 && forall i | 0 <= i < |sha| :: sha[i] in HEX
  {
    forall c: char ensures '0' <= c <= '9' || 'a' <= c <= 'f' <==> c in HEX {
      HexIff(c);
    }
  }

  /** The commits the documents record. */
  function Recorded(s: SliceState, task: TaskState): set<string> {
    {s.base} + (if s.head == "NOT SET" then {} else {s.head}) + (if task.Idle? then {} else {task.base})
  }

  /** The history test, commit by commit: every recorded one is a full SHA of a known commit, HEAD descends
      from both bases, and a recorded implementation head descends from the Slice base. */
  lemma HistoryIff(h: History, s: SliceState, task: TaskState, head: string)
    ensures Lineage(h, s, head) && Based(h, task, head) <==>
              && (forall c | c in Recorded(s, task) :: c in h && |c| == 40 && forall i | 0 <= i < |c| :: c[i] in HEX)
              && IsAncestor(h, s.base, head)
              && (s.head != "NOT SET" ==> IsAncestor(h, s.base, s.head))
              && (!task.Idle? ==> IsAncestor(h, task.base, head))
  {
    forall c: string
      ensures IsCommit(h, c) <==> c in h && |c| == 40 && forall i | 0 <= i < |c| :: c[i] in HEX
    {
      IsCommitIff(h, c);
    }
    assert forall c :: c in Recorded(s, task) <==>
      c == s.base || (s.head != "NOT SET" && c == s.head) || (!task.Idle? && c == task.base);
  }

  /* ---- the next open Slice ---- */

  type Rows = map<nat, string>

  ghost predicate Smallest(ids: set<nat>, n: nat) {
    n in ids && forall m | m in ids :: n <= m
  }

  lemma {:induction false} SmallestExists(ids: set<nat>)
    requires ids != {}
    ensures exists n :: Smallest(ids, n)
    decreases ids
  {
    var n :| n in ids;
    var rest := ids - {n};
    assert ids == rest + {n};
    if rest == {} {
      assert Smallest(ids, n);
    } else {
      SmallestExists(rest);
      var k :| Smallest(rest, k);
      assert Smallest(ids, if n <= k then n else k);
    }
  }

  ghost function Ascending(ids: set<nat>): seq<nat>
    decreases ids
  {
    if ids == {} then []
    else
      SmallestExists(ids);
      var n :| Smallest(ids, n);
      [n] + Ascending(ids - {n})
  }

  ghost predicate Increasing(s: seq<nat>) {
    forall i, j | 0 <= i < j < |s| :: s[i] < s[j]
  }

  lemma {:induction false} AscendingIs(ids: set<nat>)
    ensures forall n :: n in Ascending(ids) <==> n in ids
    ensures Increasing(Ascending(ids))
    decreases ids
  {
    if ids == {} {
    } else {
      var r := Ascending(ids);
      var n, rest := r[0], r[1..];
      assert r == [n] + rest;
      assert Smallest(ids, n) && rest == Ascending(ids - {n});
      AscendingIs(ids - {n});
      LeastInFront(ids, n, rest);
    }
  }

  lemma LeastInFront(ids: set<nat>, n: nat, rest: seq<nat>)
    requires Smallest(ids, n) && Increasing(rest) && forall m :: m in rest <==> m in ids - {n}
    ensures Increasing([n] + rest) && forall m :: m in [n] + rest <==> m in ids
  {
    forall j | 0 <= j < |rest| ensures n < rest[j] {
      assert rest[j] in rest;
    }
  }

  function FirstOpen(ids: seq<nat>, rows: Rows): Option<nat> {
    if ids == [] then None
    else if ids[0] in rows && rows[ids[0]] != CLOSED then Some(ids[0])
    else FirstOpen(ids[1..], rows)
  }

  /** next(row for row in sorted(rows above) if not closed). */
  ghost function NextOpen(rows: Rows, id: nat): Option<nat> {
    FirstOpen(Ascending(set n | n in rows && n > id), rows)
  }

  lemma {:induction false} FirstOpenIs(ids: seq<nat>, rows: Rows)
    requires Increasing(ids) && forall n | n in ids :: n in rows
    ensures FirstOpen(ids, rows).None? <==> forall n | n in ids :: rows[n] == CLOSED
    ensures FirstOpen(ids, rows).Some? ==>
              && FirstOpen(ids, rows).value in ids && rows[FirstOpen(ids, rows).value] != CLOSED
              && forall n | n in ids && n < FirstOpen(ids, rows).value :: rows[n] == CLOSED
    decreases |ids|
  {
    if ids == [] {
    } else {
      assert ids == [ids[0]] + ids[1..];
      forall n | n in ids[1..] ensures ids[0] < n {
        var i :| 0 <= i < |ids[1..]| && ids[1..][i] == n;
        assert ids[i + 1] == n;
      }
      FirstOpenIs(ids[1..], rows);
    }
  }

  /** The least-numbered unclosed Slice above id. */
  predicate OpensNext(rows: Rows, id: nat, n: nat) {
    n in rows && n > id && rows[n] != CLOSED && forall m | m in rows && id < m < n :: rows[m] == CLOSED
  }

  lemma NextOpenIff(rows: Rows, id: nat, n: nat)
    ensures NextOpen(rows, id) == Some(n) <==> OpensNext(rows, id, n)
    ensures NextOpen(rows, id).None? <==> forall m | m in rows && m > id :: rows[m] == CLOSED
  {
    var above := set m | m in rows && m > id;
    var ids := Ascending(above);
    AscendingIs(above);
    assert forall m :: m in ids <==> m in rows && m > id;
    FirstOpenIs(ids, rows);
    OpenedIs(rows, id, n, ids, FirstOpen(ids, rows));
  }

  /** The first unclosed one of the ascending row numbers above id, seen from a row number n. */
  lemma OpenedIs(rows: Rows, id: nat, n: nat, ids: seq<nat>, open: Option<nat>)
    requires forall m :: m in ids <==> m in rows && m > id
    requires open.None? <==> forall m | m in ids :: rows[m] == CLOSED
    requires open.Some? ==> open.value in ids && rows[open.value] != CLOSED && forall m | m in ids && m < open.value :: rows[m] == CLOSED
    ensures open == Some(n) <==> OpensNext(rows, id, n)
    ensures open.None? <==> forall m | m in rows && m > id :: rows[m] == CLOSED
  {
    if open.None? {
      forall m | m in rows && m > id ensures rows[m] == CLOSED {
        assert m in ids;
      }
    } else {
      assert open.value in rows && open.value > id;
      if OpensNext(rows, id, n) {
        assert n in ids && open.value in ids;
      }
    }
  }

  /* ---- the check ---- */

  datatype Reason =
    | ContractChanged | BadSlice | BadTask | BadRoadmap | BrokenLineage | BadTaskBase
    | NoRow | WrongRow | NeedsTask | NextNotPlanned | UnclosedSlice | SliceNotRunning | WrongParent

  datatype Verdict = Accepted | Refused(why: Reason)

  datatype Repository = Repository(
    history: History,
    head: string,
    committedSlice: string,
    workingSlice: string,
    slice: SliceFields,
    task: TaskFields,
    roadmap: string)

  ghost function CheckIdle(s: SliceState, rows: Rows): Verdict {
    if s.id !in rows then Refused(NoRow)
    else
      var row := rows[s.id];
      if s.status == PLANNED then (if row == PLANNED then Accepted else Refused(WrongRow))
      else if s.status == FIX_REQUIRED then Refused(NeedsTask)
      else if s.status == ACTIVE then (if row == ACTIVE then Accepted else Refused(WrongRow))
      else if s.status == READY then (if row in {PLANNED, ACTIVE} then Accepted else Refused(WrongRow))
      else if row != CLOSED then Refused(WrongRow)
      else
        var next := NextOpen(rows, s.id);
        NextOpenIff(rows, s.id, if next.Some? then next.value else 0);
        if next.Some? && rows[next.value] != PLANNED then Refused(NextNotPlanned) else Accepted
  }

  ghost function CheckTask(s: SliceState, task: TaskState, rows: Rows): Verdict {
    match task
    case Idle => CheckIdle(s, rows)
    case Standalone(_) => if s.status !in {CLOSED, PLANNED} then Refused(UnclosedSlice) else CheckIdle(s, rows)
    case OfSlice(parent, _) =>
      if s.status !in {ACTIVE, FIX_REQUIRED} then Refused(SliceNotRunning)
      else if parent != s.id then Refused(WrongParent)
      else if s.id !in rows then Refused(NoRow)
      else if rows[s.id] != ACTIVE then Refused(WrongRow)
      else Accepted
  }

  ghost function Check(r: Repository): Verdict {
    if r.workingSlice != r.committedSlice then Refused(ContractChanged)
    else
      var slice, task, rows := ParseSlice(r.slice), ParseTask(r.task), Roadmap.Parse(r.roadmap);
      if slice.None? then Refused(BadSlice)
      else if task.None? then Refused(BadTask)
      else if rows.None? then Refused(BadRoadmap)
      else if !Lineage(r.history, slice.value, r.head) then Refused(BrokenLineage)
      else if !task.value.Idle? && !(IsCommit(r.history, task.value.base) && IsAncestor(r.history, task.value.base, r.head))
      then Refused(BadTaskBase)
      else CheckTask(slice.value, task.value, rows.value)
  }

  /* ---- what acceptance means ---- */

  /** The Roadmap statuses that fit a Slice status beside a Task; none when the two exclude each other. */
  function FittingRows(status: string, task: TaskState): set<string> {
    match task
    case Idle => if status == FIX_REQUIRED then {} else if status == READY then {PLANNED, ACTIVE} else {status}
    case Standalone(_) => if status in {CLOSED, PLANNED} then {status} else {}
    case OfSlice(_, _) => if status in {ACTIVE, FIX_REQUIRED} then {ACTIVE} else {}
  }

  /** The documents agree: the Slice's row fits, a Slice Task names its own Slice, and once a Slice is
      closed the first unclosed one after it is only planned. */
  ghost predicate Agree(s: SliceState, task: TaskState, rows: Rows) {
    && s.id in rows && rows[s.id] in FittingRows(s.status, task)
    && (task.OfSlice? ==> task.parent == s.id)
    && (s.status == CLOSED ==> forall n | OpensNext(rows, s.id, n) :: rows[n] == PLANNED)
  }

  lemma TaskAcceptedIff(s: SliceState, task: TaskState, rows: Rows)
    requires s.status in SLICE_STATUSES
    ensures CheckTask(s, task, rows) == Accepted <==> Agree(s, task, rows)
  {
    var next := NextOpen(rows, s.id);
    forall n: nat | OpensNext(rows, s.id, n) ensures next == Some(n) {
      NextOpenIff(rows, s.id, n);
    }
    if next.Some? {
      NextOpenIff(rows, s.id, next.value);
    }
  }

  ghost predicate Based(h: History, task: TaskState, head: string) {
    task.Idle? || (IsCommit(h, task.base) && IsAncestor(h, task.base, head))
  }

  /** Acceptance, for every repository: an unchanged contract, readable documents, a history that holds
      the recorded commits in order, and agreement. */
  lemma AcceptedIff(r: Repository)
    ensures Check(r) == Accepted <==>
              && r.workingSlice == r.committedSlice
              && ParseSlice(r.slice).Some? && ParseTask(r.task).Some? && Roadmap.Parse(r.roadmap).Some?
              && Lineage(r.history, ParseSlice(r.slice).value, r.head)
              && Based(r.history, ParseTask(r.task).value, r.head)
              && Agree(ParseSlice(r.slice).value, ParseTask(r.task).value, Roadmap.Parse(r.roadmap).value)
  {
    if ParseSlice(r.slice).Some? && ParseTask(r.task).Some? && Roadmap.Parse(r.roadmap).Some? {
      TaskAcceptedIff(ParseSlice(r.slice).value, ParseTask(r.task).value, Roadmap.Parse(r.roadmap).value);
    }
  }

  /** With a closed Slice and no active Task, acceptance is that its row is closed and the least unclosed
      Slice above it, if there is one, is planned. */
  lemma ClosedAndIdleIff(s: SliceState, rows: Rows)
    requires s.status == CLOSED && s.id in rows
    ensures CheckTask(s, Idle, rows) == Accepted <==>
              rows[s.id] == CLOSED && forall n | OpensNext(rows, s.id, n) :: rows[n] == PLANNED
  {
    TaskAcceptedIff(s, Idle, rows);
  }

  /** Beside an accepted standalone Task the Roadmap repeats the Slice's own status. */
  lemma StandaloneRowMatches(r: Repository)
    requires Check(r) == Accepted && ParseTask(r.task).value.Standalone?
    ensures var s := ParseSlice(r.slice).value;
            s.status in {CLOSED, PLANNED} && s.id in Roadmap.Parse(r.roadmap).value && Roadmap.Parse(r.roadmap).value[s.id] == s.status
  {
    AcceptedIff(r);
  }

  /** Rows below the current Slice never matter, open or not. */
  lemma EarlierRowsIgnored(s: SliceState, task: TaskState, rows: Rows, others: Rows)
    requires s.status in SLICE_STATUSES
    requires forall n | n >= s.id :: (n in rows <==> n in others) && (n in rows ==> rows[n] == others[n])
    ensures CheckTask(s, task, rows) == CheckTask(s, task, others)
  {
    var above := set n | n in rows && n > s.id;
    assert above == set n | n in others && n > s.id;
    AscendingIs(above);
    FirstOpenAgrees(Ascending(above), rows, others);
    if NextOpen(rows, s.id).Some? {
      NextOpenIff(rows, s.id, NextOpen(rows, s.id).value);
    }
  }

  lemma {:induction false} FirstOpenAgrees(ids: seq<nat>, rows: Rows, others: Rows)
    requires forall n | n in ids :: n in rows && n in others && rows[n] == others[n]
    ensures FirstOpen(ids, rows) == FirstOpen(ids, others)
    decreases |ids|
  {
    if ids == [] {
    } else {
      FirstOpenAgrees(ids[1..], rows, others);
    }
  }

  /** Writing NONE as the parent does not make a Task standalone: without the explicit type it is refused. */
  lemma NoneAloneIsRefused(f: TaskFields)
    requires !f.idle && f.parent == Some("NONE")
    ensures ParseTask(f).Some? ==> f.kind == Some(STANDALONE_TYPE) && ParseTask(f).value.Standalone?
  {
    assert !Roadmap.Digit("NONE"[0]);
  }

  /* ---- acceptance survives further commits ---- */

  /** later holds every commit of h with the same parents. */
  predicate Extends(h: History, later: History) {
    forall c | c in h :: c in later && later[c] == h[c]
  }

  lemma AncestryGrows(h: History, later: History, a: string, d: string)
    requires Extends(h, later) && IsAncestor(h, a, d)
    ensures IsAncestor(later, a, d)
  {
    var path :| Path(h, path) && path[0] == d && path[|path| - 1] == a;
    assert Path(later, path);
  }

  lemma AncestryIsTransitive(h: History, a: string, b: string, c: string)
    requires IsAncestor(h, a, b) && IsAncestor(h, b, c)
    ensures IsAncestor(h, a, c)
  {
    var p :| Path(h, p) && p[0] == b && p[|p| - 1] == a;
    var q :| Path(h, q) && q[0] == c && q[|q| - 1] == b;
    var r := q + p[1..];
    forall i | 0 <= i < |r| - 1 ensures r[i + 1] in h[r[i]] {
      if i >= |q| - 1 {
        assert r[i] == p[i - |q| + 1] && r[i + 1] == p[i - |q| + 2];
      }
    }
    assert Path(h, r) && r[0] == c;
    assert r[|r| - 1] == a;
  }

  /** Committing on top of an accepted HEAD, without touching the documents, is accepted again. */
  lemma CommitsKeepAcceptance(r: Repository, later: History, head: string)
    requires Check(r) == Accepted && Extends(r.history, later) && IsAncestor(later, r.head, head)
    ensures Check(r.(history := later, head := head)) == Accepted
  {
    AcceptedIff(r);
    var s, t := ParseSlice(r.slice).value, ParseTask(r.task).value;
    AncestryGrows(r.history, later, s.base, r.head);
    AncestryIsTransitive(later, s.base, r.head, head);
    if s.head != NOT_SET {
      AncestryGrows(r.history, later, s.base, s.head);
    }
    if !t.Idle? {
      AncestryGrows(r.history, later, t.base, r.head);
      AncestryIsTransitive(later, t.base, r.head, head);
    }
    AcceptedIff(r.(history := later, head := head));
  }
}
