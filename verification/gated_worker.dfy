/** The harness's gated transfer worker: which write it pauses, and who owns the patched write method. */
module GatedWorker {
  import opened Options
  import PythonText

  /* ---- the gate on one worker's writes ---- */

  const FOLDER := "Browser-Paused-Move-Resource-Directory"
  const NAMES: set<string> := {"Browser-Move-Resource-Second.txt", "Browser-Move-Media-Second.txt"}
  const GATE_AFTER := 3

  predicate InFolder(path: string) {
    PythonText.Occurs(FOLDER, path)
  }

  /** The last component of a path. */
  function Name(path: string): string
    decreases |path|
  {
    if '/' !in path then path else Name(path[1..])
  }

  predicate IsNamed(path: string) {
    Name(path) in NAMES
  }

  /** The last component is what stands behind the last slash. */
  lemma {:induction false} NameIs(a: string, b: string)
    requires '/' !in b
    ensures Name(b) == b && Name(a + "/" + b) == b
    decreases |a|
  {
    var path := a + "/" + b;
    assert path[|a|] == '/';
    if a == "" {
      assert path[1..] == b;
    } else {
      assert path[1..] == a[1..] + "/" + b;
      NameIs(a[1..], b);
    }
  }

  lemma {:induction false} NameStands(path: string) returns (a: string)
    ensures '/' !in Name(path) && (path == Name(path) || path == a + "/" + Name(path))
    decreases |path|
  {
    a := "";
    if '/' in path {
      var rest := NameStands(path[1..]);
      assert path == [path[0]] + path[1..];
      if path[1..] == Name(path) {
        assert path[0] == '/';
      } else {
        a := [path[0]] + rest;
      }
    }
  }

  /** A write is one of the two paused ones exactly when its path ends in one of their names. */
  lemma IsNamedIff(path: string)
    ensures IsNamed(path) <==>
              EndsIn(path, "Browser-Move-Resource-Second.txt") || EndsIn(path, "Browser-Move-Media-Second.txt")
  {
    EndsInIff(path, "Browser-Move-Resource-Second.txt");
    EndsInIff(path, "Browser-Move-Media-Second.txt");
  }

  ghost predicate EndsIn(path: string, name: string) {
    path == name || exists a :: path == a + "/" + name
  }

  lemma EndsInIff(path: string, name: string)
    requires '/' !in name
    ensures EndsIn(path, name) <==> Name(path) == name
  {
    var a := NameStands(path);
    NameIs("", name);
    forall b | path == b + "/" + name ensures Name(path) == name {
      NameIs(b, name);
    }
  }

  datatype GateState = GateState(entered: bool, folderWrites: nat)

  class Gate {
    const move: bool
    var entered: bool
    var folderWrites: nat

    constructor (move: bool)
      ensures this.move == move && State() == OPEN
    {
      this.move, entered, folderWrites := move, false, 0;
    }

    function State(): GateState
      reads this
    {
      GateState(entered, folderWrites)
    }

    /** One call of the patched write, up to the point where it waits or goes on to the real write. */
    method Pass(path: string) returns (pauses: bool)
      modifies this
      ensures pauses == PausesIn(old(State()), move, path) && State() == AfterPass(old(State()), move, path)
    {
      pauses := false;
      if move {
        if InFolder(path) && !entered {
          folderWrites := folderWrites + 1;
          if folderWrites == GATE_AFTER {
            entered := true;
            pauses := true;
          }
        }
      } else if IsNamed(path) && !entered {
        entered := true;
        pauses := true;
      }
    }
  }

  const OPEN := GateState(false, 0)

  predicate PausesIn(g: GateState, move: bool, path: string) {
    !g.entered && if move then InFolder(path) && g.folderWrites + 1 == GATE_AFTER else IsNamed(path)
  }

  function AfterPass(g: GateState, move: bool, path: string): GateState {
    GateState(g.entered || PausesIn(g, move, path), g.folderWrites + if move && InFolder(path) && !g.entered then 1 else 0)
  }

  function After(move: bool, paths: seq<string>): GateState
    decreases |paths|
  {
    if paths == [] then OPEN else AfterPass(After(move, paths[..|paths| - 1]), move, paths[|paths| - 1])
  }

  /** Whether the i-th write of a worker's run pauses. */
  predicate Pauses(move: bool, paths: seq<string>, i: nat)
    requires i < |paths|
  {
    PausesIn(After(move, paths[..i]), move, paths[i])
  }

  function FolderWrites(paths: seq<string>): nat
    decreases |paths|
  {
    if paths == [] then 0
    else FolderWrites(paths[..|paths| - 1]) + if InFolder(paths[|paths| - 1]) then 1 else 0
  }

  /** The gate has been entered exactly when enough writes came by, and until then it counts them all. */
  lemma {:induction false} GateCounts(move: bool, paths: seq<string>)
    ensures move ==>
              var g := After(true, paths);
              (g.entered <==> FolderWrites(paths) >= GATE_AFTER)
              && g.folderWrites == if g.entered then GATE_AFTER else FolderWrites(paths)
    ensures !move ==> (After(false, paths).entered <==> exists i | 0 <= i < |paths| :: IsNamed(paths[i]))
    decreases |paths|
  {
    if paths == [] {
    } else {
      var n := |paths| - 1;
      GateCounts(move, paths[..n]);
      assert forall i | 0 <= i < n :: paths[..n][i] == paths[i];
    }
  }

  /** The paused write, stated from the writes alone: in move mode the folder write before which exactly
      two folder writes are complete; otherwise the first write of one of the two names. */
  lemma PausesIff(move: bool, paths: seq<string>, i: nat)
    requires i < |paths|
    ensures Pauses(move, paths, i) <==>
              if move then InFolder(paths[i]) && FolderWrites(paths[..i]) == GATE_AFTER - 1
              else IsNamed(paths[i]) && forall j | 0 <= j < i :: !IsNamed(paths[j])
  {
    GateCounts(move, paths[..i]);
    assert forall j | 0 <= j < i :: paths[..i][j] == paths[j];
  }

  lemma {:induction false} FolderWritesGrow(paths: seq<string>, i: nat, j: nat)
    requires i < j <= |paths| && InFolder(paths[i])
    ensures FolderWrites(paths[..j]) > FolderWrites(paths[..i])
    decreases j
  {
    assert paths[..j][..j - 1] == paths[..j - 1];
    if j == i + 1 {
    } else {
      FolderWritesGrow(paths, i, j - 1);
    }
  }

  /** A worker pauses at most one write. */
  lemma PausesOnce(move: bool, paths: seq<string>, i: nat, j: nat)
    requires i < |paths| && j < |paths| && Pauses(move, paths, i) && Pauses(move, paths, j)
    ensures i == j
  {
    PausesIff(move, paths, i);
    PausesIff(move, paths, j);
    if move && i < j {
      FolderWritesGrow(paths, i, j);
    } else if move && j < i {
      FolderWritesGrow(paths, j, i);
    }
  }

  /** A move with at least three folder writes pauses, with two of them durable; with fewer it never does. */
  lemma {:induction false} MovePausesIff(paths: seq<string>)
    ensures (exists i | 0 <= i < |paths| :: Pauses(true, paths, i)) <==> FolderWrites(paths) >= GATE_AFTER
    decreases |paths|
  {
    if paths == [] {
    } else {
      var n := |paths| - 1;
      MovePausesIff(paths[..n]);
      forall i: nat | i < n ensures Pauses(true, paths, i) == Pauses(true, paths[..n], i) {
        assert paths[..n][..i] == paths[..i];
      }
      PausesIff(true, paths, n);
      if FolderWrites(paths) >= GATE_AFTER && FolderWrites(paths[..n]) < GATE_AFTER {
        assert Pauses(true, paths, n);
      } else if FolderWrites(paths) >= GATE_AFTER {
        var i: nat :| i < n && Pauses(true, paths[..n], i);
        assert Pauses(true, paths, i);
      } else {
        forall i: nat | i <= n ensures !Pauses(true, paths, i) {
          assert i < n ==> !Pauses(true, paths[..n], i);
        }
      }
    }
  }

  /* ---- the lifecycle of the workers ---- */

  /** LocalStorage.write: the original, or the gate of one worker. */
  datatype Method = Original | GateOf(worker: nat)

  datatype Phase = Launched | Inside | Paused | Done

  /** captured is the write its gate passes on to, read by the start request; saved is what the patch
      found when the thread entered it, and puts back. */
  datatype Worker = Worker(phase: Phase, entered: bool, released: bool, captured: Method, saved: Method)

  /** What the one request being served is doing. */
  datatype Request = Idle | Waiting(worker: nat) | Joining(worker: nat, starting: bool)

  datatype Harness = Harness(write: Method, workers: seq<Worker>, current: Option<nat>, request: Request)

  datatype Event =
    | Start
    | SeeEntered
    | GiveUpWaiting
    | Release
    | Joined
    | GiveUpJoining
    | Patch(worker: nat)
    | Reach(worker: nat)
    | Resume(worker: nat)
    | Leave(worker: nat)

  predicate Live(h: Harness, w: nat) {
    w < |h.workers| && h.workers[w].phase != Done
  }

  function Set(h: Harness, w: nat, worker: Worker): Harness
    requires w < |h.workers|
  {
    h.(workers := h.workers[w := worker])
  }

  function StepRequest(h: Harness, e: Event): Harness {
    match e
    case Start =>
      if h.request != Idle || (h.current.Some? && Live(h, h.current.value)) then h
      else Harness(h.write, h.workers + [Worker(Launched, false, false, h.write, Original)], Some(|h.workers|), Waiting(|h.workers|))
    case SeeEntered =>
      if h.request.Waiting? && h.request.worker < |h.workers| && h.workers[h.request.worker].entered
      then h.(request := Idle) else h
    case GiveUpWaiting =>
      if h.request.Waiting? && h.request.worker < |h.workers| && !h.workers[h.request.worker].entered
      then Set(h, h.request.worker, h.workers[h.request.worker].(released := true)).(request := Joining(h.request.worker, true))
      else h
    case Release =>
      if h.request != Idle || h.current.None? || h.current.value >= |h.workers| then h
      else Set(h, h.current.value, h.workers[h.current.value].(released := true)).(request := Joining(h.current.value, false))
    case Joined =>
      if h.request.Joining? && !Live(h, h.request.worker) then h.(current := None, request := Idle) else h
    case GiveUpJoining =>
      if h.request.Joining? && Live(h, h.request.worker)
      then h.(current := if h.request.starting then None else h.current, request := Idle)
      else h
    case _ => h
  }

  /** Threads move on their own; a paused write resumes when it is released or its wait runs out. */
  function StepWorker(h: Harness, e: Event, w: nat): Harness
    requires w < |h.workers|
  {
    var worker := h.workers[w];
    match e
    case Patch(_) =>
      if worker.phase == Launched then Set(h, w, worker.(phase := Inside, saved := h.write)).(write := GateOf(w)) else h
    case Reach(_) =>
      if worker.phase == Inside && !worker.entered
      then Set(h, w, worker.(phase := if worker.released then Inside else Paused, entered := true)) else h
    case Resume(_) => if worker.phase == Paused then Set(h, w, worker.(phase := Inside)) else h
    case Leave(_) => if worker.phase == Inside then Set(h, w, worker.(phase := Done)).(write := worker.saved) else h
    case _ => h
  }

  function Step(h: Harness, e: Event): Harness {
    if e.Patch? || e.Reach? || e.Resume? || e.Leave? then
      if e.worker < |h.workers| then StepWorker(h, e, e.worker) else h
    else StepRequest(h, e)
  }

  function Run(h: Harness, events: seq<Event>): Harness
    decreases |events|
  {
    if events == [] then h else Run(Step(h, events[0]), events[1..])
  }

  const IDLE := Harness(Original, [], None, Idle)

  predicate Patched(w: Worker) {
    w.phase == Inside || w.phase == Paused
  }

  /* ---- one worker at a time ---- */

  ghost predicate SomeLive(h: Harness) {
    exists w: nat :: Live(h, w)
  }

  ghost predicate AtMostOne(h: Harness) {
    forall v: nat, w: nat | Live(h, v) && Live(h, w) :: v == w
  }

  /** A start that is let through while a worker is still alive: the harness has forgotten that one. */
  ghost predicate Overlaps(h: Harness, e: Event) {
    e.Start? && h.request == Idle && !(h.current.Some? && Live(h, h.current.value)) && SomeLive(h)
  }

  ghost predicate NeverOverlaps(h: Harness, events: seq<Event>)
    decreases |events|
  {
    events == [] || (!Overlaps(h, events[0]) && NeverOverlaps(Step(h, events[0]), events[1..]))
  }

  /** At every instant of the run at most one worker is alive. */
  ghost predicate AlwaysOne(h: Harness, events: seq<Event>)
    decreases |events|
  {
    AtMostOne(h) && (events == [] || AlwaysOne(Step(h, events[0]), events[1..]))
  }

  /** At most one worker is alive; the write is the gate of the one inside its patch, or else the original;
      and every gate and every patch found the original. */
  ghost predicate Alone(h: Harness) {
    && AtMostOne(h)
    && (forall w | 0 <= w < |h.workers| :: h.workers[w].captured == Original)
    && (forall w | 0 <= w < |h.workers| && Patched(h.workers[w]) :: h.workers[w].saved == Original && h.write == GateOf(w))
    && ((forall w | 0 <= w < |h.workers| :: !Patched(h.workers[w])) ==> h.write == Original)
  }

  lemma RequestKeepsAlone(h: Harness, e: Event)
    requires Alone(h) && !Overlaps(h, e)
    ensures Alone(StepRequest(h, e))
  {
    var next := StepRequest(h, e);
    if e.Start? && next != h {
      assert !SomeLive(h);
      forall w: nat | w < |h.workers| ensures next.workers[w] == h.workers[w] && !Live(next, w) && !Patched(h.workers[w]) {
        assert !Live(h, w);
      }
    } else {
      assert forall w: nat :: Live(next, w) ==> Live(h, w);
      assert forall w: nat | w < |h.workers| :: next.workers[w].phase == h.workers[w].phase;
    }
  }

  lemma WorkerKeepsAlone(h: Harness, e: Event, w: nat)
    requires Alone(h) && w < |h.workers|
    ensures Alone(StepWorker(h, e, w))
  {
    var next := StepWorker(h, e, w);
    assert forall v: nat :: Live(next, v) ==> Live(h, v);
    if next != h {
      assert Live(h, w);
      forall v: nat | v < |h.workers| && v != w ensures !Live(h, v) && next.workers[v] == h.workers[v] {
      }
      assert Patched(h.workers[w]) ==> h.workers[w].saved == Original;
      assert !Patched(h.workers[w]) ==> h.write == Original;
    }
  }

  lemma StepKeepsAlone(h: Harness, e: Event)
    requires Alone(h) && !Overlaps(h, e)
    ensures Alone(Step(h, e))
  {
    if e.Patch? || e.Reach? || e.Resume? || e.Leave? {
      if e.worker < |h.workers| {
        WorkerKeepsAlone(h, e, e.worker);
      }
    } else {
      RequestKeepsAlone(h, e);
    }
  }

  lemma OverlapIsTwo(h: Harness, e: Event)
    requires Overlaps(h, e)
    ensures !AtMostOne(Step(h, e))
  {
    var w: nat :| Live(h, w);
    var next := Step(h, e);
    assert next.workers[w] == h.workers[w];
    assert Live(next, w) && Live(next, |h.workers|);
  }

  lemma {:induction false} AlwaysOneIff(h: Harness, events: seq<Event>)
    requires Alone(h)
    ensures AlwaysOne(h, events) <==> NeverOverlaps(h, events)
    ensures NeverOverlaps(h, events) ==> Alone(Run(h, events))
    decreases |events|
  {
    if events == [] {
    } else if Overlaps(h, events[0]) {
      OverlapIsTwo(h, events[0]);
      TwoNow(Step(h, events[0]), events[1..]);
    } else {
      StepKeepsAlone(h, events[0]);
      AlwaysOneIff(Step(h, events[0]), events[1..]);
    }
  }

  lemma TwoNow(h: Harness, events: seq<Event>)
    requires !AtMostOne(h)
    ensures !AlwaysOne(h, events)
  {
  }

  /** Over every run of one request at a time: never are two workers alive exactly when no start overlaps a
      forgotten worker. And then, whenever none is alive, the original write is in place, and every
      gate passes on to the original. */
  lemma OneWorkerAndRestored(events: seq<Event>)
    ensures AlwaysOne(IDLE, events) <==> NeverOverlaps(IDLE, events)
    ensures NeverOverlaps(IDLE, events) ==>
              var h := Run(IDLE, events);
              && (!SomeLive(h) ==> h.write == Original)
              && (forall w | 0 <= w < |h.workers| :: h.workers[w].captured == Original)
  {
    AlwaysOneIff(IDLE, events);
    if NeverOverlaps(IDLE, events) {
      var h := Run(IDLE, events);
      if !SomeLive(h) {
        forall w | 0 <= w < |h.workers| ensures !Patched(h.workers[w]) {
          assert !Live(h, w);
        }
      }
    }
  }

  /* ---- how a worker is forgotten ---- */

  /** A start that stops joining forgets a worker that is still alive. */
  predicate Forgets(h: Harness, e: Event) {
    e.GiveUpJoining? && h.request.Joining? && h.request.starting && Live(h, h.request.worker)
  }

  ghost predicate NeverForgets(h: Harness, events: seq<Event>)
    decreases |events|
  {
    events == [] || (!Forgets(h, events[0]) && NeverForgets(Step(h, events[0]), events[1..]))
  }

  /** Only the current worker is alive, and only it is waited for or joined. */
  ghost predicate Owned(h: Harness) {
    && (forall w | 0 <= w < |h.workers| && h.workers[w].phase != Done :: h.current == Some(w))
    && (!h.request.Idle? ==> h.current == Some(h.request.worker))
  }

  lemma StepKeepsOwned(h: Harness, e: Event)
    requires Owned(h) && !Forgets(h, e)
    ensures Owned(Step(h, e)) && !Overlaps(h, e)
  {
  }

  /** Nothing else forgets one: a run in which no start stops joining a live worker never overlaps. A release
      that stops joining is harmless: the worker stays current and a new start is refused. */
  lemma {:induction false} RunKeepsOwned(h: Harness, events: seq<Event>)
    requires Owned(h) && NeverForgets(h, events)
    ensures Owned(Run(h, events)) && NeverOverlaps(h, events)
    decreases |events|
  {
    if events == [] {
    } else {
      StepKeepsOwned(h, events[0]);
      RunKeepsOwned(Step(h, events[0]), events[1..]);
    }
  }

  /** An overlap is real, and worse than two workers. A start that gave up on a worker still inside its patch
      lets a second start through, whose gate passes on to the first one; the two patches then end in the
      wrong order and the first gate stays installed. */
  lemma ForgottenGateStays()
    ensures Run(IDLE, FORGETTING + OVERLAPPING) == LEAKED && LEAKED.write == GateOf(0) && !Live(LEAKED, 0) && !Live(LEAKED, 1)
  {
    RunFour(IDLE, Start, GiveUpWaiting, Patch(0), GiveUpJoining, OVERLAPPING);
    FirstHalf();
    RunFour(FORGOTTEN, Start, Patch(1), Leave(0), Leave(1), []);
    SecondHalf();
    assert OVERLAPPING + [] == OVERLAPPING;
  }

  const FORGOTTEN := Harness(GateOf(0), [Worker(Inside, false, true, Original, Original)], None, Idle)
  const LEAKED := Harness(GateOf(0), [Worker(Done, false, true, Original, Original), Worker(Done, false, false, GateOf(0), GateOf(0))],
                          Some(1), Waiting(1))

  lemma FirstHalf()
    ensures Step(Step(Step(Step(IDLE, Start), GiveUpWaiting), Patch(0)), GiveUpJoining) == FORGOTTEN
  {
  }

  lemma SecondHalf()
    ensures Step(Step(Step(Step(FORGOTTEN, Start), Patch(1)), Leave(0)), Leave(1)) == LEAKED
  {
    assert Step(FORGOTTEN, Start).workers == [FORGOTTEN.workers[0], Worker(Launched, false, false, GateOf(0), Original)];
  }

  const FORGETTING := [Start, GiveUpWaiting, Patch(0), GiveUpJoining]
  const OVERLAPPING := [Start, Patch(1), Leave(0), Leave(1)]

  lemma RunOne(h: Harness, e: Event, rest: seq<Event>)
    ensures Run(h, [e] + rest) == Run(Step(h, e), rest)
  {
    assert ([e] + rest)[1..] == rest;
  }

  lemma RunFour(h: Harness, a: Event, b: Event, c: Event, d: Event, rest: seq<Event>)
    ensures Run(h, [a, b, c, d] + rest) == Run(Step(Step(Step(Step(h, a), b), c), d), rest)
  {
    RunOne(h, a, [b, c, d] + rest);
    RunOne(Step(h, a), b, [c, d] + rest);
    RunOne(Step(Step(h, a), b), c, [d] + rest);
    RunOne(Step(Step(Step(h, a), b), c), d, rest);
    assert [a, b, c, d] + rest == [a] + ([b, c, d] + rest);
    assert [b, c, d] + rest == [b] + ([c, d] + rest);
    assert [c, d] + rest == [c] + ([d] + rest);
  }

  /* ---- when each event happens ---- */

  predicate InRange(h: Harness) {
    && (h.current.Some? ==> h.current.value < |h.workers|)
    && (h.request.Waiting? || h.request.Joining? ==> h.request.worker < |h.workers|)
  }

  /** Every event happens exactly in its own situation, and changes nothing otherwise. */
  lemma EventHappensIff(h: Harness, e: Event)
    requires InRange(h)
    ensures Step(h, e) != h <==>
              match e
              case Start => h.request == Idle && !(h.current.Some? && h.workers[h.current.value].phase != Done)
              case SeeEntered => h.request.Waiting? && h.workers[h.request.worker].entered
              case GiveUpWaiting => h.request.Waiting? && !h.workers[h.request.worker].entered
              case Release => h.request == Idle && h.current.Some?
              case Joined => h.request.Joining? && h.workers[h.request.worker].phase == Done
              case GiveUpJoining => h.request.Joining? && h.workers[h.request.worker].phase != Done
              case Patch(w) => w < |h.workers| && h.workers[w].phase == Launched
              case Reach(w) => w < |h.workers| && h.workers[w].phase == Inside && !h.workers[w].entered
              case Resume(w) => w < |h.workers| && h.workers[w].phase == Paused
              case Leave(w) => w < |h.workers| && h.workers[w].phase == Inside
    ensures InRange(Step(h, e))
  {
    var next := Step(h, e);
    match e
    case Start => assert next != h ==> |next.workers| == |h.workers| + 1;
    case GiveUpWaiting => assert next != h ==> next.request.Joining?;
    case Release => assert next != h ==> next.request.Joining?;
    case Patch(w) => assert next != h ==> next.workers[w].phase == Inside;
    case Reach(w) => assert next != h ==> next.workers[w].entered;
    case Resume(w) => assert next != h ==> next.workers[w].phase == Inside;
    case Leave(w) => assert next != h ==> next.workers[w].phase == Done;
    case _ =>
  }

  /** The start of a worker that reaches its write: the gate is installed, the write pauses, and the request is
      answered while the worker stays current. */
  lemma StartedAndPaused(h: Harness)
    requires h.request == Idle && !(h.current.Some? && Live(h, h.current.value))
    ensures var w := |h.workers|;
            Run(h, [Start, Patch(w), Reach(w), SeeEntered]) ==
              Harness(GateOf(w), h.workers + [Worker(Paused, true, false, h.write, h.write)], Some(w), Idle)
  {
    var w := |h.workers|;
    RunFour(h, Start, Patch(w), Reach(w), SeeEntered, []);
    assert [Start, Patch(w), Reach(w), SeeEntered] + [] == [Start, Patch(w), Reach(w), SeeEntered];
    var h1 := Step(h, Start);
    assert h1 == Harness(h.write, h.workers + [Worker(Launched, false, false, h.write, Original)], Some(w), Waiting(w));
    var h2 := Step(h1, Patch(w));
    assert h2 == Harness(GateOf(w), h.workers + [Worker(Inside, false, false, h.write, h.write)], Some(w), Waiting(w));
    var h3 := Step(h2, Reach(w));
    assert h3 == Harness(GateOf(w), h.workers + [Worker(Paused, true, false, h.write, h.write)], Some(w), Waiting(w));
  }

  /** Its release: the paused write goes on, the patch puts back what it found, the join answers, and no worker
      is current any more. */
  lemma ReleasedAndGone(h: Harness, others: seq<Worker>, back: Method)
    requires var w := |others|; h == Harness(GateOf(w), others + [Worker(Paused, true, false, back, back)], Some(w), Idle)
    ensures var w := |others|;
            Run(h, [Release, Resume(w), Leave(w), Joined]) == Harness(back, others + [Worker(Done, true, true, back, back)], None, Idle)
  {
    var w := |others|;
    RunFour(h, Release, Resume(w), Leave(w), Joined, []);
    assert [Release, Resume(w), Leave(w), Joined] + [] == [Release, Resume(w), Leave(w), Joined];
    var h1 := Step(h, Release);
    assert h1 == Harness(GateOf(w), others + [Worker(Paused, true, true, back, back)], Some(w), Joining(w, false));
    var h2 := Step(h1, Resume(w));
    assert h2 == Harness(GateOf(w), others + [Worker(Inside, true, true, back, back)], Some(w), Joining(w, false));
    var h3 := Step(h2, Leave(w));
    assert h3 == Harness(back, others + [Worker(Done, true, true, back, back)], Some(w), Joining(w, false));
  }

  /** A start that gives up waiting releases its worker, whose write then does not pause any more. */
  lemma GivenUpDoesNotPause(h: Harness)
    requires h.request == Idle && !(h.current.Some? && Live(h, h.current.value))
    ensures var w := |h.workers|;
            Run(h, [Start, Patch(w), GiveUpWaiting, Reach(w)]) ==
              Harness(GateOf(w), h.workers + [Worker(Inside, true, true, h.write, h.write)], Some(w), Joining(w, true))
  {
    var w := |h.workers|;
    RunFour(h, Start, Patch(w), GiveUpWaiting, Reach(w), []);
    assert [Start, Patch(w), GiveUpWaiting, Reach(w)] + [] == [Start, Patch(w), GiveUpWaiting, Reach(w)];
    var h1 := Step(h, Start);
    assert h1 == Harness(h.write, h.workers + [Worker(Launched, false, false, h.write, Original)], Some(w), Waiting(w));
    var h2 := Step(h1, Patch(w));
    assert h2 == Harness(GateOf(w), h.workers + [Worker(Inside, false, false, h.write, h.write)], Some(w), Waiting(w));
    var h3 := Step(h2, GiveUpWaiting);
    assert h3 == Harness(GateOf(w), h.workers + [Worker(Inside, false, true, h.write, h.write)], Some(w), Joining(w, true));
  }
}
