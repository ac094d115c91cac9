/** Which configured root owns a path, decided in three places, and the Storage path below it.

    A path is the list of its parts after resolution on a filesystem without symbolic links, without
    the leading "/", which every absolute path has in common. */
module LibraryRoots {
  import opened Options
  import opened TextOrder
  import PythonText

  type Path = seq<string>

  predicate ValidName(name: string) {
    name != "" && name != "." && name != ".." && '/' !in name
  }

  predicate ValidPath(p: Path) {
    forall i | 0 <= i < |p| :: ValidName(p[i])
  }

  /** candidate == root or root in candidate.parents */
  predicate Inside(candidate: Path, root: Path) {
    root <= candidate
  }

  datatype Binding = Binding(id: string, root: Option<Path>)

  predicate Contains(b: Binding, candidate: Path) {
    b.root.Some? && Inside(candidate, b.root.value)
  }

  /* ---- the order of the match tuples ---- */

  datatype Match = Match(id: string, root: Path)

  predicate MatchLe(a: Match, b: Match) {
    |a.root| < |b.root| || (|a.root| == |b.root| && StrLe(a.id, b.id))
  }

  lemma MatchOrder(a: Match, b: Match, c: Match)
    ensures MatchLe(a, b) || MatchLe(b, a)
    ensures MatchLe(a, b) && MatchLe(b, c) ==> MatchLe(a, c)
    ensures MatchLe(a, a)
  {
    StrTotal(a.id, b.id);
    StrTotal(a.id, a.id);
    if StrLe(a.id, b.id) && StrLe(b.id, c.id) {
      StrTransitive(a.id, b.id, c.id);
    }
  }

  /* ---- what is selected ---- */

  /** m is a containing binding; every containing root is an ancestor of its root or that root
      itself, and among the bindings of that very root it has the greatest id. */
  ghost predicate Selected(bindings: seq<Binding>, candidate: Path, m: Match) {
    && Binding(m.id, Some(m.root)) in bindings && Inside(candidate, m.root)
    && forall b | b in bindings && Contains(b, candidate) ::
         b.root.value <= m.root && (b.root.value == m.root ==> StrLe(b.id, m.id))
  }

  /** The roots containing one path form a chain, so equal depth means the same root. */
  lemma ContainingRootsFormAChain(candidate: Path, a: Path, b: Path)
    requires Inside(candidate, a) && Inside(candidate, b)
    ensures a <= b || b <= a
    ensures |a| == |b| ==> a == b
    ensures |a| <= |b| ==> a <= b
  {
    assert forall i | 0 <= i < |a| && i < |b| :: a[i] == candidate[i] == b[i];
  }

  /** At most one answer is right, whichever algorithm looked for it. */
  lemma SelectedIsUnique(bindings: seq<Binding>, candidate: Path, m: Match, n: Match)
    requires Selected(bindings, candidate, m) && Selected(bindings, candidate, n)
    ensures m == n
  {
    assert Contains(Binding(m.id, Some(m.root)), candidate) && Contains(Binding(n.id, Some(n.root)), candidate);
    assert m.root <= n.root && n.root <= m.root;
    StrAntisymmetric(m.id, n.id);
  }

  ghost predicate AllMatches(bindings: seq<Binding>, candidate: Path, matches: seq<Match>) {
    forall m :: m in matches <==> Binding(m.id, Some(m.root)) in bindings && Inside(candidate, m.root)
  }

  /** The greatest match tuple is the deepest root; the chain makes depth decide. */
  lemma GreatestIsSelected(bindings: seq<Binding>, candidate: Path, matches: seq<Match>, m: Match)
    requires AllMatches(bindings, candidate, matches) && m in matches
    requires forall n | n in matches :: MatchLe(n, m)
    ensures Selected(bindings, candidate, m)
  {
    forall b | b in bindings && Contains(b, candidate)
      ensures b.root.value <= m.root && (b.root.value == m.root ==> StrLe(b.id, m.id))
    {
      assert Match(b.id, b.root.value) in matches;
      ContainingRootsFormAChain(candidate, b.root.value, m.root);
    }
  }

  /** The loop that all three selectors begin with. */
  method CollectMatches(bindings: seq<Binding>, candidate: Path) returns (matches: seq<Match>)
    ensures AllMatches(bindings, candidate, matches)
    ensures matches == [] <==> forall b | b in bindings :: !Contains(b, candidate)
  {
    matches := [];
    for i := 0 to |bindings|
      invariant AllMatches(bindings[..i], candidate, matches)
      invariant matches == [] <==> forall b | b in bindings[..i] :: !Contains(b, candidate)
    {
      var b := bindings[i];
      assert bindings[..i + 1] == bindings[..i] + [b];
      if b.root.Some? && Inside(candidate, b.root.value) {
        matches := matches + [Match(b.id, b.root.value)];
      }
    }
    assert bindings[..|bindings|] == bindings;
  }

  datatype Choice = NotInside | UnknownLibrary(id: string) | Chosen(found: Match)

  /** The runtime's selector: the maximum (depth, id, root) tuple, then the library lookup. */
  method ResourceLibrary(libraries: set<string>, roots: seq<Binding>, candidate: Path) returns (choice: Choice)
    ensures choice.NotInside? <==> forall b | b in roots :: !Contains(b, candidate)
    ensures choice.Chosen? ==> Selected(roots, candidate, choice.found) && choice.found.id in libraries
    ensures choice.UnknownLibrary? ==>
              choice.id !in libraries && exists m: Match :: m.id == choice.id && Selected(roots, candidate, m)
  {
    var matches := CollectMatches(roots, candidate);
    if matches == [] {
      return NotInside;
    }
    var best := matches[0];
    MatchOrder(best, best, best);
    for i := 1 to |matches|
      invariant best in matches
      invariant forall n | n in matches[..i] :: MatchLe(n, best)
    {
      MatchOrder(matches[i], best, best);
      forall n | n in matches[..i] ensures MatchLe(best, matches[i]) ==> MatchLe(n, matches[i]) {
        MatchOrder(n, best, matches[i]);
      }
      MatchOrder(matches[i], matches[i], matches[i]);
      assert matches[..i + 1] == matches[..i] + [matches[i]];
      if !MatchLe(matches[i], best) {
        best := matches[i];
      }
    }
    assert matches[..|matches|] == matches;
    GreatestIsSelected(roots, candidate, matches, best);
    choice := if best.id in libraries then Chosen(best) else UnknownLibrary(best.id);
  }

  predicate Descending(s: seq<Match>) {
    forall i, j | 0 <= i < j < |s| :: MatchLe(s[j], s[i])
  }

  lemma InsertKeepsOrder(s: seq<Match>, p: nat, x: Match)
    requires Descending(s) && p <= |s|
    requires forall i | 0 <= i < p :: MatchLe(x, s[i])
    requires p < |s| ==> !MatchLe(x, s[p])
    ensures Descending(s[..p] + [x] + s[p..])
    ensures multiset(s[..p] + [x] + s[p..]) == multiset(s) + multiset{x}
  {
    forall j | p <= j < |s| ensures MatchLe(s[j], x) {
      MatchOrder(x, s[p], s[p]);
      MatchOrder(s[j], s[p], x);
      MatchOrder(s[p], s[p], s[p]);
    }
    assert s == s[..p] + s[p..];
  }

  method SortDescending(matches: seq<Match>) returns (s: seq<Match>)
    ensures Descending(s) && multiset(s) == multiset(matches)
  {
    s := [];
    for k := 0 to |matches|
      invariant Descending(s) && multiset(s) == multiset(matches[..k])
    {
      var p := 0;
      while p < |s| && MatchLe(matches[k], s[p])
        invariant 0 <= p <= |s|
        invariant forall i | 0 <= i < p :: MatchLe(matches[k], s[i])
      {
        p := p + 1;
      }
      InsertKeepsOrder(s, p, matches[k]);
      assert matches[..k + 1] == matches[..k] + [matches[k]];
      s := s[..p] + [matches[k]] + s[p..];
    }
    assert matches[..|matches|] == matches;
  }

  /** The strategy CLI's selector: an explicit id wins, then the first of the reverse-sorted matches. */
  method ResolveResourceLibraryId(candidate: Path, explicit: Option<string>, bindings: seq<Binding>, fallback: string)
    returns (id: string)
    ensures explicit.Some? && explicit.value != "" ==> id == explicit.value
    ensures !(explicit.Some? && explicit.value != "") && (forall b | b in bindings :: !Contains(b, candidate)) ==> id == fallback
    ensures !(explicit.Some? && explicit.value != "") && (exists b :: b in bindings && Contains(b, candidate)) ==>
              exists m: Match :: m.id == id && Selected(bindings, candidate, m)
  {
    if explicit.Some? && explicit.value != "" {
      return explicit.value;
    }
    var matches := CollectMatches(bindings, candidate);
    if matches == [] {
      return fallback;
    }
    var sorted := SortDescending(matches);
    assert |sorted| == |matches| by {
      assert |multiset(sorted)| == |multiset(matches)|;
    }
    assert forall n :: n in matches <==> n in multiset(sorted);
    MatchOrder(sorted[0], sorted[0], sorted[0]);
    GreatestIsSelected(bindings, candidate, matches, sorted[0]);
    id := sorted[0].id;
  }

  /** The parent directory; the filesystem root is its own. */
  function Parent(path: Path): (parent: Path)
    ensures path == [] ==> parent == []
    ensures path != [] ==> path == parent + [path[|path| - 1]]
  {
    if path == [] then path else path[..|path| - 1]
  }

  /** The execution selector: the first root of maximum depth, by default the parent directory. */
  method ExecutionRoot(source: Path, bindings: seq<Binding>) returns (root: Path)
    ensures (forall b | b in bindings :: !Contains(b, source)) ==> root == Parent(source)
    ensures (exists b :: b in bindings && Contains(b, source)) ==>
              exists m: Match :: m.root == root && Selected(bindings, source, m)
    ensures Inside(source, root)
  {
    root := Parent(source);
    var matches := CollectMatches(bindings, source);
    if matches != [] {
      var first := matches[0];
      for i := 1 to |matches|
        invariant first in matches
        invariant forall n | n in matches[..i] :: |n.root| <= |first.root|
      {
        assert matches[..i + 1] == matches[..i] + [matches[i]];
        if |matches[i].root| > |first.root| {
          first := matches[i];
        }
      }
      assert matches[..|matches|] == matches;
      root := first.root;
      DeepestHasSelected(bindings, source, matches, first);
    }
  }

  /** Some binding of the deepest root is the selected one. */
  lemma {:induction false} DeepestHasSelected(bindings: seq<Binding>, candidate: Path, matches: seq<Match>, first: Match)
    requires AllMatches(bindings, candidate, matches) && first in matches
    requires forall n | n in matches :: |n.root| <= |first.root|
    ensures exists m: Match :: m.root == first.root && Selected(bindings, candidate, m)
    decreases set n | n in matches && !MatchLe(n, first)
  {
    if forall n | n in matches :: MatchLe(n, first) {
      GreatestIsSelected(bindings, candidate, matches, first);
    } else {
      var next :| next in matches && !MatchLe(next, first);
      ContainingRootsFormAChain(candidate, next.root, first.root);
      forall n | n in matches && MatchLe(n, first) ensures MatchLe(n, next) {
        MatchOrder(first, next, next);
        MatchOrder(n, first, next);
      }
      MatchOrder(next, next, next);
      var rest, all := (set n | n in matches && !MatchLe(n, next)), (set n | n in matches && !MatchLe(n, first));
      assert next in all && next !in rest;
      assert forall n | n in rest :: n in all;
      DeepestHasSelected(bindings, candidate, matches, next);
    }
  }

  /* ---- the Storage path below the selected root ---- */

  function Join(parts: seq<string>): string {
    PythonText.Join(parts, '/')
  }

  /** relative_to(root).as_posix(); the root itself is ".". */
  function Relative(candidate: Path, root: Path): (r: string)
    requires Inside(candidate, root)
  {
    if candidate == root then "." else Join(candidate[|root|..])
  }

  function StripLeft(s: string): string {
    if s != "" && s[0] == '/' then StripLeft(s[1..]) else s
  }

  function StripRight(s: string): string
    decreases |s|
  {
    if s != "" && s[|s| - 1] == '/' then StripRight(s[..|s| - 1]) else s
  }

  function StripSlashes(s: string): string {
    StripRight(StripLeft(s))
  }

  function StoragePath(libraryRoot: string, relative: string): string {
    var root, rest := StripSlashes(libraryRoot), StripSlashes(relative);
    if root == "" then rest else if rest == "" then root else root + "/" + rest
  }

  predicate Slashes(s: string) {
    forall i | 0 <= i < |s| :: s[i] == '/'
  }

  predicate Bare(s: string) {
    s == "" || (s[0] != '/' && s[|s| - 1] != '/')
  }

  lemma {:induction false} StripLeftSlashes(a: string, s: string)
    requires Slashes(a) && (s == "" || s[0] != '/')
    ensures StripLeft(a + s) == s
    decreases |a|
  {
    if a == "" {
      assert a + s == s;
    } else {
      assert (a + s)[1..] == a[1..] + s;
      StripLeftSlashes(a[1..], s);
    }
  }

  lemma {:induction false} StripRightSlashes(s: string, b: string)
    requires Slashes(b) && (s == "" || s[|s| - 1] != '/')
    ensures StripRight(s + b) == s
    decreases |b|
  {
    if b == "" {
      assert s + b == s;
    } else {
      assert (s + b)[..|s + b| - 1] == s + b[..|b| - 1];
      StripRightSlashes(s, b[..|b| - 1]);
    }
  }

  /** Slashes at both ends are taken off, all of them, and no other character. */
  lemma SlashesComeOff(a: string, s: string, b: string)
    requires Slashes(a) && Slashes(b) && Bare(s)
    ensures StripSlashes(a + s + b) == s
  {
    if s == "" {
      StripLeftSlashes(a + b, "");
      assert a + s + b == a + b + "";
    } else {
      StripLeftSlashes(a, s + b);
      assert a + s + b == a + (s + b);
      StripRightSlashes(s, b);
    }
  }

  /** The library root stands first and the path below it second, with one slash between them and none
      around them; an empty part leaves no slash behind. */
  lemma StoragePathIs(a: string, root: string, b: string, c: string, rest: string, d: string)
    requires Slashes(a) && Slashes(b) && Slashes(c) && Slashes(d) && Bare(root) && Bare(rest)
    ensures root != "" && rest != "" ==> StoragePath(a + root + b, c + rest + d) == root + "/" + rest
    ensures root == "" ==> StoragePath(a + root + b, c + rest + d) == rest
    ensures rest == "" ==> StoragePath(a + root + b, c + rest + d) == root
  {
    SlashesComeOff(a, root, b);
    SlashesComeOff(c, rest, d);
  }

  lemma {:induction false} JoinShape(parts: seq<string>)
    requires parts != [] && ValidPath(parts)
    ensures Join(parts) != "" && Join(parts)[0] != '/' && Join(parts)[|Join(parts)| - 1] != '/'
    decreases |parts|
  {
    assert parts[0] != "" && parts[0][0] in parts[0] && parts[0][|parts[0]| - 1] in parts[0];
    if |parts| <= 1 {
    } else {
      JoinShape(parts[1..]);
    }
  }

  lemma NameEndsFirst(x: string, y: string, a: string, b: string)
    requires '/' !in y && (a == "" || a[0] == '/') && x + a == y + b
    ensures |y| <= |x|
  {
    var s := x + a;
    assert a != "" ==> s[|x|] == '/';
    assert forall i | 0 <= i < |y| :: s[i] == (y + b)[i] == y[i] && y[i] in y;
  }

  /** Where the first name ends decides it: names carry no slash. */
  lemma FirstNameDecides(x: string, y: string, a: string, b: string)
    requires '/' !in x && '/' !in y
    requires (a == "" || a[0] == '/') && (b == "" || b[0] == '/') && x + a == y + b
    ensures x == y && a == b
  {
    NameEndsFirst(x, y, a, b);
    NameEndsFirst(y, x, b, a);
    assert x == (x + a)[..|x|] && y == (y + b)[..|y|];
    assert a == (x + a)[|x|..] && b == (y + b)[|y|..];
  }

  function AfterFirst(parts: seq<string>): string
    requires parts != []
  {
    if |parts| == 1 then "" else "/" + Join(parts[1..])
  }

  lemma JoinSplits(parts: seq<string>)
    requires parts != []
    ensures Join(parts) == parts[0] + AfterFirst(parts)
  {
  }

  lemma {:induction false} JoinInjective(a: seq<string>, b: seq<string>)
    requires a != [] && b != [] && ValidPath(a) && ValidPath(b) && Join(a) == Join(b)
    ensures a == b
    decreases |a|
  {
    JoinSplits(a);
    JoinSplits(b);
    assert ValidName(a[0]) && ValidName(b[0]);
    FirstNameDecides(a[0], b[0], AfterFirst(a), AfterFirst(b));
    assert a == [a[0]] + a[1..] && b == [b[0]] + b[1..];
    if |a| <= 1 {
    } else {
      assert |b| > 1 && AfterFirst(a)[1..] == Join(a[1..]) && AfterFirst(b)[1..] == Join(b[1..]);
      JoinInjective(a[1..], b[1..]);
    }
  }

  lemma RelativeShape(candidate: Path, root: Path)
    requires ValidPath(candidate) && Inside(candidate, root)
    ensures StripSlashes(Relative(candidate, root)) == Relative(candidate, root) != ""
  {
    if candidate != root {
      JoinShape(candidate[|root|..]);
    }
  }

  /** Below one root, and including it, no two paths share a Storage path, whatever slashes surround
      the configured library root. */
  lemma StoragePathInjective(libraryRoot: string, root: Path, a: Path, b: Path)
    requires ValidPath(a) && ValidPath(b) && Inside(a, root) && Inside(b, root)
    requires StoragePath(libraryRoot, Relative(a, root)) == StoragePath(libraryRoot, Relative(b, root))
    ensures a == b
  {
    RelativeShape(a, root);
    RelativeShape(b, root);
    var prefix := StripSlashes(libraryRoot);
    var x, y := Relative(a, root), Relative(b, root);
    assert x == y by {
      if prefix != "" {
        assert (prefix + "/" + x)[|prefix| + 1..] == x && (prefix + "/" + y)[|prefix| + 1..] == y;
      }
    }
    var p, q := a[|root|..], b[|root|..];
    if a != root && b != root {
      JoinInjective(p, q);
    } else if a != root {
      SingleDot(p);
    } else if b != root {
      SingleDot(q);
    }
    assert a == root + p && b == root + q;
  }

  lemma SingleDot(parts: seq<string>)
    requires parts != [] && ValidPath(parts)
    ensures Join(parts) != "."
  {
    if |parts| > 1 {
      assert |parts[0]| > 0 && |Join(parts)| >= 2;
    }
  }
}
