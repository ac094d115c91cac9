/** The counters the fake upstream keeps under one lock, under every interleaving of its request threads. */
module ExploreStats {
  import opened Options
  import opened PythonText

  datatype Page = Page(route: string, number: int, totalPages: int, totalResults: int)

  datatype Stats = Stats(requests: nat, routes: map<string, nat>, floors: seq<(string, string)>, pages: seq<Page>)

  datatype Mode = NoFailure | UpstreamAuth | Search500 | Genre503

  function Get(routes: map<string, nat>, route: string): nat {
    if route in routes then routes[route] else 0
  }

  /* ---- the lock-protected object ---- */

  class Upstream {
    var requests: nat
    var routes: map<string, nat>
    var floors: seq<(string, string)>
    var pages: seq<Page>
    var mode: Mode

    constructor ()
      ensures Value() == EMPTY && mode == NoFailure
    {
      requests, routes, floors, pages, mode := 0, map[], [], [], NoFailure;
    }

    function Value(): Stats
      reads this
    {
      Stats(requests, routes, floors, pages)
    }

    /** One more request in all, one more of this route, and no other change: a total that was the sum
        over the routes still is. */
    method Record(route: string)
      modifies this
      ensures OneMore(old(Value()), Value(), route) && mode == old(mode)
      ensures old(requests == Sum(routes)) ==> requests == Sum(routes)
    {
      SumIncrement(routes, route);
      requests := requests + 1;
      routes := routes[route := Get(routes, route) + 1];
    }

    method AppendFloor(route: string, floor: string)
      modifies this
      ensures Value() == old(Value()).(floors := old(floors) + [(route, floor)]) && mode == old(mode)
    {
      floors := floors + [(route, floor)];
    }

    method AppendPage(page: Page)
      modifies this
      ensures Value() == old(Value()).(pages := old(pages) + [page]) && mode == old(mode)
    {
      pages := pages + [page];
    }

    /** The status of an injected failure for this path, if one applies now. */
    method FailureResponse(path: string) returns (status: Option<int>)
      ensures status.Some? <==> Fails(mode, path)
      ensures status.Some? ==> status.value == match mode case UpstreamAuth => 401 case Search500 => 500 case _ => 503
    {
      if mode == UpstreamAuth {
        return Some(401);
      }
      if mode == Search500 && Occurs("/search/", path) {
        return Some(500);
      }
      if mode == Genre503 && Occurs("/genre/", path) {
        return Some(503);
      }
      status := None;
    }

    method SetMode(wanted: Mode)
      modifies this`mode
      ensures mode == wanted
    {
      mode := wanted;
    }
  }

  const EMPTY := Stats(0, map[], [], [])

  /** The total and this route's count grow by one; every other route's count, the floors and the pages stay. */
  ghost predicate OneMore(before: Stats, after: Stats, route: string) {
    && after.requests == before.requests + 1
    && Get(after.routes, route) == Get(before.routes, route) + 1
    && after.routes.Keys == before.routes.Keys + {route}
    && (forall other | other != route :: Get(after.routes, other) == Get(before.routes, other))
    && after.floors == before.floors && after.pages == before.pages
  }

  function AfterRecord(s: Stats, route: string): Stats {
    s.(requests := s.requests + 1, routes := s.routes[route := Get(s.routes, route) + 1])
  }

  /** The counting section of a request thread is the only change with that effect. */
  lemma RecordIsOneMore(before: Stats, after: Stats, route: string)
    ensures OneMore(before, after, route) <==> after == AfterRecord(before, route)
  {
    if OneMore(before, after, route) {
      forall other | other in after.routes ensures other in AfterRecord(before, route).routes
                                                   && after.routes[other] == AfterRecord(before, route).routes[other] {
        assert Get(after.routes, other) == Get(AfterRecord(before, route).routes, other);
      }
      assert after.routes == AfterRecord(before, route).routes;
    }
  }

  predicate Fails(mode: Mode, path: string) {
    mode == UpstreamAuth || (mode == Search500 && Occurs("/search/", path)) || (mode == Genre503 && Occurs("/genre/", path))
  }

  /* ---- request threads ---- */

  /** The request path without its leading slash and version prefix. */
  function Route(path: string): string {
    var p := if "/" <= path then path[1..] else path;
    if "3/" <= p then p[2..] else p
  }

  predicate IsList(route: string) {
    "discover/" <= route || "search/" <= route
  }

  /** Where a request thread stands; Ended(paged) says whether it appended its page. A thread may stop
      anywhere, by returning or by an exception. */
  datatype Place = Arrived | Recorded | Checked | Floored | Ended(recorded: bool, paged: bool)

  datatype Thread = Thread(path: string, floor: Option<string>, place: Place)

  datatype System = System(stats: Stats, mode: Mode, threads: map<nat, Thread>)

  /** One atomic section of one thread, or one change of the failure mode. */
  datatype Event =
    | Arrive(id: nat, path: string, floor: Option<string>)
    | Count(id: nat)
    | Check(id: nat)
    | Floor(id: nat)
    | List(id: nat, number: int, totalPages: int, totalResults: int)
    | Stop(id: nat)
    | Switch(mode: Mode)

  function Moved(s: System, id: nat, place: Place): System
    requires id in s.threads
  {
    s.(threads := s.threads[id := s.threads[id].(place := place)])
  }

  predicate HasCounted(t: Thread) {
    t.place.Recorded? || t.place.Checked? || t.place.Floored? || (t.place.Ended? && t.place.recorded)
  }

  function StepThread(s: System, id: nat, e: Event): System
    requires id in s.threads
  {
    var t := s.threads[id];
    match e
    case Count(_) =>
      if t.place == Arrived then Moved(s.(stats := AfterRecord(s.stats, Route(t.path))), id, Recorded) else s
    case Check(_) =>
      if t.place != Recorded then s
      else if Fails(s.mode, t.path) then Moved(s, id, Ended(true, false))
      else Moved(s, id, if t.floor.Some? then Checked else Floored)
    case Floor(_) =>
      if t.place == Checked && t.floor.Some?
      then Moved(s.(stats := s.stats.(floors := s.stats.floors + [(Route(t.path), t.floor.value)])), id, Floored)
      else s
    case List(_, number, totalPages, totalResults) =>
      if t.place == Floored && IsList(Route(t.path))
      then Moved(s.(stats := s.stats.(pages := s.stats.pages + [Page(Route(t.path), number, totalPages, totalResults)])),
                 id, Ended(true, true))
      else s
    case Stop(_) => if t.place.Ended? then s else Moved(s, id, Ended(t.place != Arrived, false))
    case _ => s
  }

  function Step(s: System, e: Event): System {
    match e
    case Arrive(id, path, floor) =>
      if id in s.threads then s else s.(threads := s.threads[id := Thread(path, floor, Arrived)])
    case Switch(mode) => s.(mode := mode)
    case _ => if e.id in s.threads then StepThread(s, e.id, e) else s
  }

  function Run(s: System, events: seq<Event>): System
    decreases |events|
  {
    if events == [] then s else Run(Step(s, events[0]), events[1..])
  }

  const START := System(EMPTY, NoFailure, map[])

  /* ---- sums ---- */

  ghost function Sum(m: map<string, nat>): nat
    decreases m.Keys
  {
    if m.Keys == {} then 0
    else
      var r :| r in m.Keys;
      m[r] + Sum(m - {r})
  }

  lemma {:induction false} SumOne(m: map<string, nat>, r: string)
    requires r in m
    ensures Sum(m) == m[r] + Sum(m - {r})
    decreases m.Keys
  {
    var q :| q in m.Keys && Sum(m) == m[q] + Sum(m - {q});
    if q == r {
    } else {
      SumOne(m - {q}, r);
      SumOne(m - {r}, q);
      assert m - {q} - {r} == m - {r} - {q};
    }
  }

  lemma SumIncrement(m: map<string, nat>, r: string)
    ensures Sum(m[r := Get(m, r) + 1]) == Sum(m) + 1
  {
    var next := m[r := Get(m, r) + 1];
    SumOne(next, r);
    assert next - {r} == m - {r};
    if r in m {
      SumOne(m, r);
    } else {
      assert m - {r} == m;
    }
  }

  /* ---- what the counters mean ---- */

  ghost function Counted(s: System, route: string): set<nat> {
    set id | id in s.threads && HasCounted(s.threads[id]) && Route(s.threads[id].path) == route
  }

  ghost function Paged(s: System, route: string): set<nat> {
    set id | id in s.threads && s.threads[id].place == Ended(true, true) && Route(s.threads[id].path) == route
  }

  function PagesOf(pages: seq<Page>, route: string): nat
    decreases |pages|
  {
    if pages == [] then 0
    else PagesOf(pages[..|pages| - 1], route) + if pages[|pages| - 1].route == route then 1 else 0
  }

  /** Every count is the number of the threads that made it. */
  ghost predicate Consistent(s: System) {
    && s.stats.requests == Sum(s.stats.routes)
    && (forall route :: Get(s.stats.routes, route) == |Counted(s, route)|)
    && (forall route :: PagesOf(s.stats.pages, route) == |Paged(s, route)|)
    && (forall id | id in s.threads && s.threads[id].place == Ended(true, true) :: IsList(Route(s.threads[id].path)))
  }

  /** The threads of one route after one thread moved. */
  lemma MovedCounted(s: System, next: System, id: nat, u: Thread, route: string)
    requires id in s.threads && next.threads == s.threads[id := u] && u.path == s.threads[id].path
    requires HasCounted(s.threads[id]) ==> HasCounted(u)
    ensures |Counted(next, route)| == |Counted(s, route)| +
              if Route(u.path) == route && HasCounted(u) && !HasCounted(s.threads[id]) then 1 else 0
  {
    if Route(u.path) == route && HasCounted(u) && !HasCounted(s.threads[id]) {
      assert Counted(next, route) == Counted(s, route) + {id};
    } else {
      assert Counted(next, route) == Counted(s, route);
    }
  }

  lemma MovedPaged(s: System, next: System, id: nat, u: Thread, route: string)
    requires id in s.threads && next.threads == s.threads[id := u] && u.path == s.threads[id].path
    requires s.threads[id].place != Ended(true, true)
    ensures |Paged(next, route)| == |Paged(s, route)| + if Route(u.path) == route && u.place == Ended(true, true) then 1 else 0
  {
    if Route(u.path) == route && u.place == Ended(true, true) {
      assert Paged(next, route) == Paged(s, route) + {id};
    } else {
      assert Paged(next, route) == Paged(s, route);
    }
  }

  lemma ArrivalCounts(s: System, id: nat, t: Thread, route: string)
    requires id !in s.threads && t.place == Arrived
    ensures var next := s.(threads := s.threads[id := t]);
            Counted(next, route) == Counted(s, route) && Paged(next, route) == Paged(s, route)
  {
  }

  lemma SwitchCounts(s: System, mode: Mode, route: string)
    ensures Counted(s.(mode := mode), route) == Counted(s, route) && Paged(s.(mode := mode), route) == Paged(s, route)
  {
  }

  /** What one section does: it moves its thread, and counts it or its page when it says so. */
  ghost predicate Section(s: System, next: System, id: nat, u: Thread) {
    && id in s.threads
    && next.threads == s.threads[id := u] && u.path == s.threads[id].path
    && s.threads[id].place != Ended(true, true)
    && (HasCounted(s.threads[id]) ==> HasCounted(u))
    && (u.place == Ended(true, true) ==> IsList(Route(u.path)))
    && (if HasCounted(u) && !HasCounted(s.threads[id])
        then next.stats.requests == s.stats.requests + 1
             && next.stats.routes == s.stats.routes[Route(u.path) := Get(s.stats.routes, Route(u.path)) + 1]
        else next.stats.requests == s.stats.requests && next.stats.routes == s.stats.routes)
    && (if u.place == Ended(true, true)
        then exists page :: next.stats.pages == s.stats.pages + [page] && page.route == Route(u.path)
        else next.stats.pages == s.stats.pages)
  }

  lemma StepIsSection(s: System, id: nat, e: Event)
    requires id in s.threads && StepThread(s, id, e) != s
    ensures Section(s, StepThread(s, id, e), id, StepThread(s, id, e).threads[id])
  {
    var next := StepThread(s, id, e);
    if e.List? {
      assert next.stats.pages == s.stats.pages + [next.stats.pages[|s.stats.pages|]];
    }
  }

  lemma SectionPages(s: System, next: System, id: nat, u: Thread, route: string)
    requires Section(s, next, id, u)
    ensures PagesOf(next.stats.pages, route) ==
              PagesOf(s.stats.pages, route) + if Route(u.path) == route && u.place == Ended(true, true) then 1 else 0
  {
    if u.place == Ended(true, true) {
      assert next.stats.pages[..|s.stats.pages|] == s.stats.pages;
    }
  }

  lemma SectionConsistent(s: System, next: System, id: nat, u: Thread)
    requires Consistent(s) && Section(s, next, id, u)
    ensures Consistent(next)
  {
    forall route ensures Get(next.stats.routes, route) == |Counted(next, route)| {
      MovedCounted(s, next, id, u, route);
    }
    forall route ensures PagesOf(next.stats.pages, route) == |Paged(next, route)| {
      MovedPaged(s, next, id, u, route);
      SectionPages(s, next, id, u, route);
    }
    if HasCounted(u) && !HasCounted(s.threads[id]) {
      SumIncrement(s.stats.routes, Route(u.path));
    }
  }

  lemma StepConsistent(s: System, e: Event)
    requires Consistent(s)
    ensures Consistent(Step(s, e))
  {
    match e
    case Arrive(id, path, floor) =>
      if id !in s.threads {
        forall route ensures Counted(Step(s, e), route) == Counted(s, route) && Paged(Step(s, e), route) == Paged(s, route) {
          ArrivalCounts(s, id, Thread(path, floor, Arrived), route);
        }
      }
    case Switch(mode) =>
      forall route ensures Counted(Step(s, e), route) == Counted(s, route) && Paged(Step(s, e), route) == Paged(s, route) {
        SwitchCounts(s, mode, route);
      }
    case _ =>
      if e.id in s.threads && StepThread(s, e.id, e) != s {
        StepIsSection(s, e.id, e);
        SectionConsistent(s, StepThread(s, e.id, e), e.id, StepThread(s, e.id, e).threads[e.id]);
      }
  }

  lemma {:induction false} RunConsistent(s: System, events: seq<Event>)
    requires Consistent(s)
    ensures Consistent(Run(s, events))
    decreases |events|
  {
    if events == [] {
    } else {
      StepConsistent(s, events[0]);
      RunConsistent(Step(s, events[0]), events[1..]);
    }
  }

  lemma StartConsistent()
    ensures Consistent(START)
  {
    forall route ensures Counted(START, route) == {} && Paged(START, route) == {} {
    }
  }

  lemma SubsetCount(a: set<nat>, b: set<nat>)
    requires a <= b
    ensures |b| == |a| + |b - a|
  {
    assert b == a + (b - a);
  }

  /** At every instant of every interleaving, with failures injected and threads dying anywhere: the
      total is the sum over the routes, a route never has more pages than requests, and the
      difference is exactly the requests that were counted but appended no page. */
  lemma CountersAgree(events: seq<Event>, route: string)
    ensures var s := Run(START, events);
            && s.stats.requests == Sum(s.stats.routes)
            && PagesOf(s.stats.pages, route) + |Counted(s, route) - Paged(s, route)| == Get(s.stats.routes, route)
            && (!IsList(route) ==> PagesOf(s.stats.pages, route) == 0)
  {
    StartConsistent();
    RunConsistent(START, events);
    var s := Run(START, events);
    SubsetCount(Paged(s, route), Counted(s, route));
    if !IsList(route) {
      assert Paged(s, route) == {};
    }
  }

  /** When no request of a route is still counting, failed or dead, its pages are its requests. */
  lemma AllListedIff(events: seq<Event>, route: string)
    ensures var s := Run(START, events);
            PagesOf(s.stats.pages, route) == Get(s.stats.routes, route) <==>
            forall id | id in Counted(s, route) :: s.threads[id].place == Ended(true, true)
  {
    CountersAgree(events, route);
    var s := Run(START, events);
    var rest := Counted(s, route) - Paged(s, route);
    if |rest| == 0 {
      assert rest == {};
      forall id | id in Counted(s, route) ensures s.threads[id].place == Ended(true, true) {
        assert id !in rest;
      }
    } else {
      assert rest != {};
      var id :| id in rest;
      assert id in Counted(s, route) && id !in Paged(s, route);
    }
  }

  /* ---- one request from its arrival to its page ---- */

  /** One leading slash and then one version prefix are taken off, and nothing else. */
  lemma RouteIs(rest: string)
    ensures Route("/3/" + rest) == rest && Route("3/" + rest) == rest
    ensures !("3/" <= rest) ==> Route("/" + rest) == rest
    ensures !("/" <= rest) && !("3/" <= rest) ==> Route(rest) == rest
  {
    assert "/3/" + rest == "/" + ("3/" + rest);
    assert ("/" + ("3/" + rest))[1..] == "3/" + rest;
    assert ("3/" + rest)[2..] == rest && ("3/" + rest)[0] == '3';
    assert ("/" + rest)[1..] == rest;
  }

  lemma IsListIff(route: string)
    ensures IsList(route) <==> exists rest :: route == "discover/" + rest || route == "search/" + rest
  {
    if "discover/" <= route {
      assert route == "discover/" + route[9..];
    }
    if "search/" <= route {
      assert route == "search/" + route[7..];
    }
  }

  function Served(id: nat, path: string, floor: Option<string>, page: Page): seq<Event> {
    [Arrive(id, path, floor), Count(id), Check(id), Floor(id), List(id, page.number, page.totalPages, page.totalResults)]
  }

  /** What one request leaves behind: one more count; then, unless a failure is injected, its vote floor, if it
      sent one, and, on a list route, its page. */
  function Left(s: Stats, mode: Mode, path: string, floor: Option<string>, page: Page): Stats {
    var counted := AfterRecord(s, Route(path));
    if Fails(mode, path) then counted
    else
      counted.(floors := if floor.Some? then s.floors + [(Route(path), floor.value)] else s.floors,
               pages := if IsList(Route(path)) then s.pages + [page] else s.pages)
  }

  lemma RunFive(s: System, a: Event, b: Event, c: Event, d: Event, e: Event)
    ensures Run(s, [a, b, c, d, e]) == Step(Step(Step(Step(Step(s, a), b), c), d), e)
  {
    var s1, s2, s3, s4 := Step(s, a), Step(Step(s, a), b), Step(Step(Step(s, a), b), c), Step(Step(Step(Step(s, a), b), c), d);
    assert [a, b, c, d, e][1..] == [b, c, d, e] && [b, c, d, e][1..] == [c, d, e] && [c, d, e][1..] == [d, e];
    assert [d, e][1..] == [e] && [e][1..] == [];
    assert Run(s4, [e]) == Run(Step(s4, e), []) == Step(s4, e);
    assert Run(s3, [d, e]) == Run(s4, [e]);
    assert Run(s2, [c, d, e]) == Run(s3, [d, e]);
    assert Run(s1, [b, c, d, e]) == Run(s2, [c, d, e]);
  }

  /** A request that is served through leaves exactly that, in every state, and no other thread is touched. */
  lemma RequestLeaves(s: System, id: nat, path: string, floor: Option<string>, page: Page)
    requires id !in s.threads && page.route == Route(path)
    ensures var t := Run(s, Served(id, path, floor, page));
            && t.stats == Left(s.stats, s.mode, path, floor, page) && t.mode == s.mode
            && t.threads == s.threads[id := Thread(path, floor,
                              if Fails(s.mode, path) then Ended(true, false) else if IsList(Route(path)) then Ended(true, true) else Floored)]
  {
    RunFive(s, Arrive(id, path, floor), Count(id), Check(id), Floor(id), List(id, page.number, page.totalPages, page.totalResults));
  }

  /** And a thread may stop anywhere, keeping what it did. */
  lemma StopKeeps(s: System, id: nat)
    requires id in s.threads && !s.threads[id].place.Ended?
    ensures Step(s, Stop(id)).stats == s.stats
    ensures Step(s, Stop(id)).threads == s.threads[id := s.threads[id].(place := Ended(HasCounted(s.threads[id]), false))]
  {
  }
}
