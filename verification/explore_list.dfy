/** The list answers of the Explore upstream: filters, a stable descending order, and pages. */
module ExploreList {
  import opened Options
  import PythonText
  import opened TextOrder

  datatype Work = Work(id: int, title: string, original: string, date: string, average: Option<real>, votes: int,
                       genres: set<int>, language: string)

  datatype Query = Query(page: int, genres: Option<set<int>>, language: Option<string>, year: Option<string>,
                         minAverage: Option<real>, minVotes: Option<int>, needle: Option<string>, sortBy: string)

  /* ---- filters ---- */

  function Filter<T>(s: seq<T>, p: T -> bool): seq<T> {
    if s == [] then [] else (if p(s[0]) then [s[0]] else []) + Filter(s[1..], p)
  }

  lemma {:induction false} FilterMembers<T>(s: seq<T>, p: T -> bool, x: T)
    ensures x in Filter(s, p) <==> x in s && p(x)
    decreases |s|
  {
    if s == [] {
    } else {
      FilterMembers(s[1..], p, x);
      assert s == [s[0]] + s[1..];
    }
  }

  lemma {:induction false} FilterConcat<T>(a: seq<T>, b: seq<T>, p: T -> bool)
    ensures Filter(a + b, p) == Filter(a, p) + Filter(b, p)
    decreases |a|
  {
    if a == [] {
      assert a + b == b;
    } else {
      assert (a + b)[0] == a[0] && (a + b)[1..] == a[1..] + b;
      FilterConcat(a[1..], b, p);
      PythonText.Associative(if p(a[0]) then [a[0]] else [], Filter(a[1..], p), Filter(b, p));
    }
  }

  lemma {:induction false} FilterTwice<T(!new)>(s: seq<T>, p: T -> bool, q: T -> bool, both: T -> bool)
    requires forall x :: both(x) <==> p(x) && q(x)
    ensures Filter(Filter(s, p), q) == Filter(s, both)
    decreases |s|
  {
    if s == [] {
    } else {
      FilterTwice(s[1..], p, q, both);
      FilterConcat(if p(s[0]) then [s[0]] else [], Filter(s[1..], p), q);
    }
  }

  predicate HasGenres(w: Work, q: Query) {
    q.genres.Some? ==> q.genres.value <= w.genres
  }

  predicate HasLanguage(w: Work, q: Query) {
    q.language.Some? ==> w.language == q.language.value
  }

  predicate HasYear(w: Work, q: Query) {
    q.year.Some? ==> q.year.value + "-" <= w.date
  }

  predicate HasAverage(w: Work, q: Query) {
    q.minAverage.Some? ==> w.average.Some? && w.average.value >= q.minAverage.value
  }

  predicate HasVotes(w: Work, q: Query) {
    q.minVotes.Some? ==> w.votes >= q.minVotes.value
  }

  /** fold is the case folding both texts go through. */
  predicate HasText(w: Work, q: Query, fold: string -> string) {
    q.needle.Some? ==> PythonText.Occurs(fold(q.needle.value), fold(w.title)) || PythonText.Occurs(fold(q.needle.value), fold(w.original))
  }

  predicate Matches(w: Work, q: Query, fold: string -> string) {
    && HasGenres(w, q) && HasLanguage(w, q) && HasYear(w, q)
    && HasAverage(w, q) && HasVotes(w, q) && HasText(w, q, fold)
  }

  datatype Criterion = Genres | Language | Year | Average | Votes | Text

  predicate Asked(c: Criterion, q: Query) {
    match c
    case Genres => q.genres.Some?
    case Language => q.language.Some?
    case Year => q.year.Some?
    case Average => q.minAverage.Some?
    case Votes => q.minVotes.Some?
    case Text => q.needle.Some?
  }

  predicate Passes(c: Criterion, w: Work, q: Query, fold: string -> string) {
    match c
    case Genres => HasGenres(w, q)
    case Language => HasLanguage(w, q)
    case Year => HasYear(w, q)
    case Average => HasAverage(w, q)
    case Votes => HasVotes(w, q)
    case Text => HasText(w, q, fold)
  }

  function Test(c: Criterion, q: Query, fold: string -> string): Work -> bool {
    w => Passes(c, w, q, fold)
  }

  function Matching(q: Query, fold: string -> string): Work -> bool {
    w => Matches(w, q, fold)
  }

  function Both<T>(p: T -> bool, q: T -> bool): T -> bool {
    x => p(x) && q(x)
  }

  /* ---- the stable descending order ---- */

  ghost predicate Preorder<T(!new)>(le: (T, T) -> bool) {
    && (forall a, b :: le(a, b) || le(b, a))
    && (forall a, b, c :: le(a, b) && le(b, c) ==> le(a, c))
  }

  predicate Same<T>(le: (T, T) -> bool, a: T, b: T) {
    le(a, b) && le(b, a)
  }

  predicate Descending<T>(s: seq<T>, le: (T, T) -> bool) {
    forall i, j | 0 <= i < j < |s| :: le(s[j], s[i])
  }

  /** The works that rank with x, in their order. */
  ghost function Tied<T(!new)>(s: seq<T>, le: (T, T) -> bool, x: T): seq<T> {
    Filter(s, y => Same(le, x, y))
  }

  /** What a stable sort in descending order promises: descending, and ties as they were. */
  ghost predicate StablySorted<T(!new)>(s: seq<T>, r: seq<T>, le: (T, T) -> bool) {
    Descending(r, le) && forall x :: Tied(r, le, x) == Tied(s, le, x)
  }

  /** The promise leaves one result only, so it says everything about the sort. */
  lemma {:induction false} StablySortedIsUnique<T(!new)>(s: seq<T>, q: seq<T>, r: seq<T>, le: (T, T) -> bool)
    requires Preorder(le) && StablySorted(s, q, le) && StablySorted(s, r, le)
    ensures q == r
  {
    forall x ensures Tied(q, le, x) == Tied(r, le, x) {
      assert Tied(q, le, x) == Tied(s, le, x);
    }
    SameTiesSameList(q, r, le);
  }

  lemma TiedMembers<T(!new)>(s: seq<T>, le: (T, T) -> bool, x: T)
    requires Preorder(le)
    ensures x in Tied(s, le, x) <==> x in s
  {
    FilterMembers(s, y => Same(le, x, y), x);
  }

  lemma SameMembers<T(!new)>(q: seq<T>, r: seq<T>, le: (T, T) -> bool, x: T)
    requires Preorder(le) && Tied(q, le, x) == Tied(r, le, x)
    ensures x in q <==> x in r
  {
    TiedMembers(q, le, x);
    TiedMembers(r, le, x);
  }

  lemma SameHead<T(!new)>(q: seq<T>, r: seq<T>, le: (T, T) -> bool)
    requires Preorder(le) && Descending(q, le) && Descending(r, le) && q != [] && r != []
    requires forall x :: Tied(q, le, x) == Tied(r, le, x)
    ensures q[0] == r[0]
  {
    SameMembers(q, r, le, q[0]);
    SameMembers(q, r, le, r[0]);
    assert Same(le, q[0], r[0]);
    assert Tied(q, le, q[0])[0] == q[0] && Tied(r, le, q[0])[0] == r[0];
  }

  lemma {:induction false} SameTiesSameList<T(!new)>(q: seq<T>, r: seq<T>, le: (T, T) -> bool)
    requires Preorder(le) && Descending(q, le) && Descending(r, le)
    requires forall x :: Tied(q, le, x) == Tied(r, le, x)
    ensures q == r
    decreases |q|
  {
    if q != [] {
      SameMembers(q, r, le, q[0]);
    }
    if r != [] {
      SameMembers(q, r, le, r[0]);
    }
    assert q == [] <==> r == [];
    if q == [] {
    } else {
      SameHead(q, r, le);
      forall y ensures Tied(q[1..], le, y) == Tied(r[1..], le, y) {
        assert Tied(q, le, y) == Tied(r, le, y);
        TiedTail(q, le, y);
        TiedTail(r, le, y);
      }
      SameTiesSameList(q[1..], r[1..], le);
      assert q == [q[0]] + q[1..] && r == [r[0]] + r[1..];
    }
  }

  lemma TiedTail<T(!new)>(s: seq<T>, le: (T, T) -> bool, y: T)
    requires s != []
    ensures Tied(s[1..], le, y) == if Same(le, y, s[0]) then Tied(s, le, y)[1..] else Tied(s, le, y)
  {
  }

  /** list.sort(reverse=True): an element goes in front of the first later one it is not below. */
  function Insert<T>(x: T, s: seq<T>, le: (T, T) -> bool): seq<T> {
    if s == [] || le(s[0], x) then [x] + s else [s[0]] + Insert(x, s[1..], le)
  }

  function Sorted<T>(s: seq<T>, le: (T, T) -> bool): seq<T> {
    if s == [] then [] else Insert(s[0], Sorted(s[1..], le), le)
  }

  lemma {:induction false} InsertKeepsElements<T>(x: T, s: seq<T>, le: (T, T) -> bool)
    ensures forall y :: y in Insert(x, s, le) <==> y == x || y in s
    decreases |s|
  {
    if s == [] || le(s[0], x) {
    } else {
      InsertKeepsElements(x, s[1..], le);
    }
  }

  lemma {:induction false} InsertDescends<T(!new)>(x: T, s: seq<T>, le: (T, T) -> bool)
    requires Preorder(le) && Descending(s, le)
    ensures Descending(Insert(x, s, le), le)
    decreases |s|
  {
    if s == [] || le(s[0], x) {
      forall j | 0 <= j < |s| ensures le(s[j], x) {
        assert j == 0 || le(s[j], s[0]);
      }
    } else {
      var rest := Insert(x, s[1..], le);
      InsertDescends(x, s[1..], le);
      InsertKeepsElements(x, s[1..], le);
      forall j | 0 <= j < |rest| ensures le(rest[j], s[0]) {
        assert rest[j] in rest && (rest[j] == x || rest[j] in s[1..]);
      }
    }
  }

  lemma {:induction false} InsertTies<T(!new)>(x: T, s: seq<T>, le: (T, T) -> bool, y: T)
    requires Preorder(le)
    ensures Tied(Insert(x, s, le), le, y) == Tied([x] + s, le, y)
    decreases |s|
  {
    if s == [] || le(s[0], x) {
    } else {
      InsertTies(x, s[1..], le, y);
      FilterConcat([s[0]], Insert(x, s[1..], le), z => Same(le, y, z));
      FilterConcat([x], s[1..], z => Same(le, y, z));
      FilterConcat([x], s, z => Same(le, y, z));
      assert s == [s[0]] + s[1..];
      FilterConcat([s[0]], s[1..], z => Same(le, y, z));
      assert !(Same(le, y, x) && Same(le, y, s[0]));
    }
  }

  lemma {:induction false} SortedIsStable<T(!new)>(s: seq<T>, le: (T, T) -> bool)
    requires Preorder(le)
    ensures StablySorted(s, Sorted(s, le), le)
    decreases |s|
  {
    if s == [] {
    } else {
      var rest := Sorted(s[1..], le);
      SortedIsStable(s[1..], le);
      InsertDescends(s[0], rest, le);
      forall y ensures Tied(Sorted(s, le), le, y) == Tied(s, le, y) {
        InsertTies(s[0], rest, le, y);
        assert Tied(rest, le, y) == Tied(s[1..], le, y);
        FilterConcat([s[0]], rest, z => Same(le, y, z));
        FilterConcat([s[0]], s[1..], z => Same(le, y, z));
        assert s == [s[0]] + s[1..];
      }
    }
  }

  /* ---- the two orders ---- */

  /** float(vote_average or -1): a zero average counts as none. */
  function Rating(w: Work): real {
    if w.average.Some? && w.average.value != 0.0 then w.average.value else -1.0
  }

  predicate RatedBelow(a: Work, b: Work) {
    Rating(a) <= Rating(b)
  }

  predicate DatedBefore(a: Work, b: Work) {
    StrLe(a.date, b.date)
  }

  lemma OrdersAreTotal()
    ensures Preorder(RatedBelow) && Preorder(DatedBefore)
  {
    forall a: Work, b: Work ensures DatedBefore(a, b) || DatedBefore(b, a) {
      StrTotal(a.date, b.date);
    }
    forall a: Work, b: Work, c: Work | DatedBefore(a, b) && DatedBefore(b, c) ensures DatedBefore(a, c) {
      StrTransitive(a.date, b.date, c.date);
    }
  }

  predicate ByRating(sortBy: string) {
    "vote_average" <= sortBy
  }

  predicate ByDate(sortBy: string) {
    !ByRating(sortBy) && ("primary_release" <= sortBy || "first_air" <= sortBy)
  }

  /** What the list must be: the matching works in their order, or stably sorted as asked. */
  ghost predicate Listing(works: seq<Work>, q: Query, fold: string -> string, list: seq<Work>) {
    var matching := Filter(works, Matching(q, fold));
    if ByRating(q.sortBy) then StablySorted(matching, list, RatedBelow)
    else if ByDate(q.sortBy) then StablySorted(matching, list, DatedBefore)
    else list == matching
  }

  /** One list only is meant by it. */
  lemma ListingIsUnique(works: seq<Work>, q: Query, fold: string -> string, a: seq<Work>, b: seq<Work>)
    requires Listing(works, q, fold, a) && Listing(works, q, fold, b)
    ensures a == b
  {
    OrdersAreTotal();
    if ByRating(q.sortBy) {
      StablySortedIsUnique(Filter(works, Matching(q, fold)), a, b, RatedBelow);
    } else if ByDate(q.sortBy) {
      StablySortedIsUnique(Filter(works, Matching(q, fold)), a, b, DatedBefore);
    }
  }

  /** The order is read off the front of the parameter. */
  lemma OrderIff(sortBy: string)
    ensures ByRating(sortBy) <==> exists x :: sortBy == "vote_average" + x
    ensures ByDate(sortBy) <==> exists x :: sortBy == "primary_release" + x || sortBy == "first_air" + x
  {
    if ByRating(sortBy) {
      assert sortBy == "vote_average" + sortBy[12..] && sortBy[0] == 'v';
    }
    if "primary_release" <= sortBy {
      assert sortBy == "primary_release" + sortBy[15..] && sortBy[0] == 'p';
    }
    if "first_air" <= sortBy {
      assert sortBy == "first_air" + sortBy[9..] && sortBy[0] == 'f';
    }
    assert forall x :: ("primary_release" + x)[0] == 'p' && ("first_air" + x)[0] == 'f';
  }

  /** The needle stands somewhere in s. */
  ghost predicate Holds(s: string, needle: string) {
    exists a, b :: s == a + needle + b
  }

  lemma OccursIff(needle: string, s: string)
    ensures PythonText.Occurs(needle, s) <==> Holds(s, needle)
  {
    if PythonText.Occurs(needle, s) {
      var i :| 0 <= i <= |s| && needle <= s[i..];
      assert s == s[..i] + needle + s[i..][|needle|..];
    }
    forall a, b | s == a + needle + b ensures needle <= s[|a|..] {
      assert s[|a|..] == needle + b;
    }
  }

  lemma YearIff(year: string, date: string)
    ensures year + "-" <= date <==> exists rest :: date == year + "-" + rest
  {
    if year + "-" <= date {
      assert date == year + "-" + date[|year| + 1..];
    }
  }

  /** What a work must have, filter by filter; a parameter that was not given asks for nothing. */
  ghost predicate Wanted(w: Work, q: Query, fold: string -> string) {
    && (q.genres.Some? ==> forall g | g in q.genres.value :: g in w.genres)
    && (q.language.Some? ==> w.language == q.language.value)
    && (q.year.Some? ==> exists rest :: w.date == q.year.value + "-" + rest)
    && (q.minAverage.Some? ==> w.average.Some? && !(w.average.value < q.minAverage.value))
    && (q.minVotes.Some? ==> !(w.votes < q.minVotes.value))
    && (q.needle.Some? ==> Holds(fold(w.title), fold(q.needle.value)) || Holds(fold(w.original), fold(q.needle.value)))
  }

  lemma MatchesIff(w: Work, q: Query, fold: string -> string)
    ensures Matches(w, q, fold) <==> Wanted(w, q, fold)
  {
    if q.year.Some? {
      YearIff(q.year.value, w.date);
    }
    if q.genres.Some? {
      SubsetIff(q.genres.value, w.genres);
    }
    TextIff(w, q, fold);
  }

  lemma SubsetIff(a: set<int>, b: set<int>)
    ensures a <= b <==> forall g | g in a :: g in b
  {
    if forall g | g in a :: g in b {
      assert a * b == a;
    }
  }

  lemma TextIff(w: Work, q: Query, fold: string -> string)
    ensures HasText(w, q, fold) <==>
              q.needle.Some? ==> Holds(fold(w.title), fold(q.needle.value)) || Holds(fold(w.original), fold(q.needle.value))
  {
    if q.needle.Some? {
      OccursIff(fold(q.needle.value), fold(w.title));
      OccursIff(fold(q.needle.value), fold(w.original));
    }
  }

  lemma SortKeepsMembers(s: seq<Work>, r: seq<Work>, le: (Work, Work) -> bool, w: Work)
    requires Preorder(le) && StablySorted(s, r, le)
    ensures w in r <==> w in s
  {
    assert Tied(r, le, w) == Tied(s, le, w);
    SameMembers(r, s, le, w);
  }

  /** The list holds the works that pass every filter asked for, and no others. */
  lemma ListedIff(works: seq<Work>, q: Query, fold: string -> string, list: seq<Work>, w: Work)
    requires Listing(works, q, fold, list)
    ensures w in list <==> w in works && Wanted(w, q, fold)
  {
    OrdersAreTotal();
    var matching := Filter(works, Matching(q, fold));
    FilterMembers(works, Matching(q, fold), w);
    MatchesIff(w, q, fold);
    if ByRating(q.sortBy) {
      SortKeepsMembers(matching, list, RatedBelow, w);
    } else if ByDate(q.sortBy) {
      SortKeepsMembers(matching, list, DatedBefore, w);
    }
  }

  /** Asked for by date, the list runs from the newest work to the oldest. */
  lemma NewestFirst(works: seq<Work>, q: Query, fold: string -> string, list: seq<Work>, x: string, i: nat, j: nat)
    requires Listing(works, q, fold, list) && i < j < |list|
    requires q.sortBy == "primary_release" + x || q.sortBy == "first_air" + x
    ensures list[j].date <= list[i].date || exists k: nat :: DiffersBelow(list[j].date, list[i].date, k)
  {
    OrderIff(q.sortBy);
    assert DatedBefore(list[j], list[i]);
    StrLeIff(list[j].date, list[i].date);
  }

  /** No average, or an average of zero. */
  predicate Unrated(w: Work) {
    w.average == None || w.average == Some(0.0)
  }

  /** Asked for by rating, the list runs from the best work to the worst, and an unrated work stands where
      a rating of minus one would. */
  lemma BestFirst(works: seq<Work>, q: Query, fold: string -> string, list: seq<Work>, x: string, i: nat, j: nat)
    requires Listing(works, q, fold, list) && i < j < |list| && q.sortBy == "vote_average" + x
    ensures !Unrated(list[i]) && !Unrated(list[j]) ==> list[i].average.value >= list[j].average.value
    ensures !Unrated(list[i]) && Unrated(list[j]) ==> list[i].average.value >= -1.0
    ensures Unrated(list[i]) && !Unrated(list[j]) ==> -1.0 >= list[j].average.value
  {
    OrderIff(q.sortBy);
    assert RatedBelow(list[j], list[i]);
  }

  /* ---- pages ---- */

  const PAGE_SIZE := 20

  datatype Payload = Payload(page: int, totalPages: nat, totalResults: nat, results: seq<Work>)

  function Clamp(i: int, n: nat): nat {
    if i < 0 then (if i + n < 0 then 0 else i + n) else if i > n then n else i
  }

  /** Python's s[lo:hi], in which negative positions count from the end. */
  function Slice<T>(s: seq<T>, lo: int, hi: int): seq<T> {
    if Clamp(lo, |s|) < Clamp(hi, |s|) then s[Clamp(lo, |s|)..Clamp(hi, |s|)] else []
  }

  function PageOf<T>(list: seq<T>, page: int): seq<T> {
    Slice(list, (page - 1) * PAGE_SIZE, (page - 1) * PAGE_SIZE + PAGE_SIZE)
  }

  function TotalPages(total: nat): nat {
    (total + PAGE_SIZE - 1) / PAGE_SIZE
  }

  /** One filter step: it runs only when its parameter was given. */
  function Step(c: Criterion, s: seq<Work>, q: Query, fold: string -> string): seq<Work> {
    if Asked(c, q) then Filter(s, Test(c, q, fold)) else s
  }

  lemma {:induction false} FilterAll<T(!new)>(s: seq<T>, p: T -> bool)
    requires forall x :: p(x)
    ensures Filter(s, p) == s
    decreases |s|
  {
    if s == [] {
    } else {
      FilterAll(s[1..], p);
    }
  }

  lemma StepIsFilter(c: Criterion, s: seq<Work>, q: Query, fold: string -> string)
    ensures Step(c, s, q, fold) == Filter(s, Test(c, q, fold))
  {
    if !Asked(c, q) {
      FilterAll(s, Test(c, q, fold));
    }
  }

  /** A further step narrows the test by one criterion. */
  lemma StepNarrows(c: Criterion, all: seq<Work>, test: Work -> bool, q: Query, fold: string -> string)
    ensures Step(c, Filter(all, test), q, fold) == Filter(all, Both(test, Test(c, q, fold)))
  {
    StepIsFilter(c, Filter(all, test), q, fold);
    FilterTwice(all, test, Test(c, q, fold), Both(test, Test(c, q, fold)));
  }

  /** Filtering step by step is filtering by the conjunction, in the same order. */
  method FilterWorks(all: seq<Work>, q: Query, fold: string -> string) returns (works: seq<Work>)
    ensures works == Filter(all, Matching(q, fold))
  {
    works := all;
    if q.genres.Some? {
      works := Filter(works, Test(Genres, q, fold));
    }
    StepIsFilter(Genres, all, q, fold);
    ghost var test := Test(Genres, q, fold);
    if q.language.Some? {
      works := Filter(works, Test(Language, q, fold));
    }
    StepNarrows(Language, all, test, q, fold);
    test := Both(test, Test(Language, q, fold));
    if q.year.Some? {
      works := Filter(works, Test(Year, q, fold));
    }
    StepNarrows(Year, all, test, q, fold);
    test := Both(test, Test(Year, q, fold));
    if q.minAverage.Some? {
      works := Filter(works, Test(Average, q, fold));
    }
    StepNarrows(Average, all, test, q, fold);
    test := Both(test, Test(Average, q, fold));
    if q.minVotes.Some? {
      works := Filter(works, Test(Votes, q, fold));
    }
    StepNarrows(Votes, all, test, q, fold);
    test := Both(test, Test(Votes, q, fold));
    if q.needle.Some? {
      works := Filter(works, Test(Text, q, fold));
    }
    StepNarrows(Text, all, test, q, fold);
    FilterAgrees(all, Both(test, Test(Text, q, fold)), Matching(q, fold));
  }

  method ListPayload(all: seq<Work>, q: Query, fold: string -> string) returns (payload: Payload)
    ensures exists list :: Listing(all, q, fold, list)
                           && payload == Payload(q.page, TotalPages(|list|), |list|, PageOf(list, q.page))
  {
    var works := FilterWorks(all, q, fold);
    OrdersAreTotal();
    if ByRating(q.sortBy) {
      SortedIsStable(works, RatedBelow);
      works := Sorted(works, RatedBelow);
    } else if ByDate(q.sortBy) {
      SortedIsStable(works, DatedBefore);
      works := Sorted(works, DatedBefore);
    }
    assert Listing(all, q, fold, works);
    var total := |works|;
    var start := (q.page - 1) * PAGE_SIZE;
    payload := Payload(q.page, (total + PAGE_SIZE - 1) / PAGE_SIZE, total, Slice(works, start, start + PAGE_SIZE));
  }

  /* ---- what the pages promise ---- */

  function Pages<T>(list: seq<T>, n: nat): seq<T> {
    if n == 0 then [] else Pages(list, n - 1) + PageOf(list, n)
  }

  function Least(a: int, b: int): int {
    if a < b then a else b
  }

  lemma PageIs<T>(list: seq<T>, page: int)
    requires page >= 1
    ensures PageOf(list, page) == list[Least((page - 1) * PAGE_SIZE, |list|)..Least(page * PAGE_SIZE, |list|)]
  {
  }

  lemma {:induction false} PagesArePrefix<T>(list: seq<T>, n: nat)
    ensures Pages(list, n) == list[..Least(n * PAGE_SIZE, |list|)]
  {
    if n == 0 {
    } else {
      PagesArePrefix(list, n - 1);
      PageIs(list, n);
      PrefixGrows(list, Least((n - 1) * PAGE_SIZE, |list|), Least(n * PAGE_SIZE, |list|));
    }
  }

  lemma PrefixGrows<T>(list: seq<T>, m: int, n: int)
    requires 0 <= m <= n <= |list|
    ensures list[..m] + list[m..n] == list[..n]
  {
  }

  /** The announced pages concatenate to exactly the list; the last of them is not empty, and every page
      after it is. */
  lemma PagesCover<T>(list: seq<T>, page: int)
    requires page >= 1
    ensures Pages(list, TotalPages(|list|)) == list
    ensures PageOf(list, page) == [] <==> page > TotalPages(|list|)
    ensures |PageOf(list, page)| == PAGE_SIZE <== page < TotalPages(|list|)
  {
    PagesArePrefix(list, TotalPages(|list|));
    PageIs(list, page);
    assert list[..|list|] == list;
  }

  /** Every place in the list is a place on exactly one page. */
  lemma OnePagePerPlace<T>(list: seq<T>, i: nat, page: int, j: nat)
    requires i < |list| && page >= 1
    ensures (j < |PageOf(list, page)| && (page - 1) * PAGE_SIZE + j == i)
        <==> (page == i / PAGE_SIZE + 1 && j == i % PAGE_SIZE)
    ensures j < |PageOf(list, page)| && page == i / PAGE_SIZE + 1 && j == i % PAGE_SIZE ==> PageOf(list, page)[j] == list[i]
  {
    PageIs(list, page);
  }

  /** Pages below one are not refused: page zero is empty, and a negative page counts from the end. */
  lemma PagesBelowOne<T>(list: seq<T>, page: int)
    requires page <= 0
    ensures PageOf(list, page) == [] <==> page == 0 || |list| <= -page * PAGE_SIZE
    ensures page < 0 && |list| >= (1 - page) * PAGE_SIZE ==>
              PageOf(list, page) == list[|list| - (1 - page) * PAGE_SIZE..|list| + page * PAGE_SIZE]
  {
  }

  /** With ratings that are not negative, no rated work comes after an unrated one. */
  lemma UnratedLast(s: seq<Work>, r: seq<Work>, i: nat, j: nat)
    requires StablySorted(s, r, RatedBelow) && i < j < |r|
    requires forall w | w in s && w.average.Some? :: w.average.value >= 0.0
    requires r[i].average.None?
    ensures r[j].average.None? || r[j].average.value == 0.0
  {
    OrdersAreTotal();
    assert Tied(r, RatedBelow, r[j]) == Tied(s, RatedBelow, r[j]);
    SameMembers(r, s, RatedBelow, r[j]);
    assert RatedBelow(r[j], r[i]);
  }

  /** The two requests name the same order, whatever follows the name: a direction, or anything else. */
  predicate SameOrder(a: string, b: string) {
    (ByRating(a) <==> ByRating(b)) && (ByDate(a) <==> ByDate(b))
  }

  /** The direction asked for is not read: two requests that differ in what follows the name of the order have
      one and the same answer, and it is in descending order. */
  lemma DirectionIsIgnored(works: seq<Work>, q: Query, other: string, fold: string -> string, a: seq<Work>, b: seq<Work>)
    requires SameOrder(q.sortBy, other)
    requires Listing(works, q, fold, a) && Listing(works, q.(sortBy := other), fold, b)
    ensures a == b
    ensures ByRating(q.sortBy) ==> Descending(a, RatedBelow)
    ensures ByDate(q.sortBy) ==> Descending(a, DatedBefore)
  {
    OrdersAreTotal();
    FilterAgrees(works, Matching(q, fold), Matching(q.(sortBy := other), fold));
    ListingIsUnique(works, q, fold, a, b);
  }

  lemma BothDirectionsAgree(order: string)
    requires order in {"vote_average", "primary_release_date", "first_air_date"}
    ensures SameOrder(order + ".asc", order + ".desc")
    ensures ByRating(order + ".asc") || ByDate(order + ".asc")
  {
    var up, down := order + ".asc", order + ".desc";
    assert up[0] == down[0] == order[0] && up[..4] == down[..4] == order[..4];
    if order == "primary_release_date" {
      assert "primary_release" <= up && "primary_release" <= down;
    }
  }

  lemma {:induction false} FilterAgrees<T(!new)>(s: seq<T>, p: T -> bool, q: T -> bool)
    requires forall x :: p(x) == q(x)
    ensures Filter(s, p) == Filter(s, q)
    decreases |s|
  {
    if s == [] {
    } else {
      FilterAgrees(s[1..], p, q);
    }
  }
}
