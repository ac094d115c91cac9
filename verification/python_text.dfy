/** The pieces of Python's str that the modelled code leans on: strip, find, split and splitlines. */
module PythonText {
  /* ---- characters ---- */

  /** The characters at which str.splitlines ends a line. */
  predicate Breaks(c: char) {
    '\n' <= c <= '\r' || '\U{1C}' <= c <= '\U{1E}' || c == '\U{85}' || '\U{2028}' <= c <= '\U{2029}'
  }

  /** The characters str.strip removes. */
  predicate Space(c: char) {
    || '\t' <= c <= '\r' || '\U{1C}' <= c <= ' ' || c == '\U{85}' || c == '\U{A0}' || c == '\U{1680}'
    || '\U{2000}' <= c <= '\U{200A}' || '\U{2028}' <= c <= '\U{2029}' || c == '\U{202F}' || c == '\U{205F}'
    || c == '\U{3000}'
  }

  function StripLeft(s: string): string {
    if s != "" && Space(s[0]) then StripLeft(s[1..]) else s
  }

  function StripRight(s: string): string {
    if s != "" && Space(s[|s| - 1]) then StripRight(s[..|s| - 1]) else s
  }

  function Strip(s: string): string {
    StripRight(StripLeft(s))
  }

  /** Where the blank run that starts at i ends. */
  function SkipBlanks(s: string, i: nat): (n: nat)
    requires i <= |s|
    ensures i <= n <= |s| && (forall j | i <= j < n :: Space(s[j])) && (n < |s| ==> !Space(s[n]))
    decreases |s| - i
  {
    if i < |s| && Space(s[i]) then SkipBlanks(s, i + 1) else i
  }

  lemma SkipBlanksIs(s: string, i: nat, n: nat)
    requires i <= n <= |s| && (forall j | i <= j < n :: Space(s[j])) && (n < |s| ==> !Space(s[n]))
    ensures SkipBlanks(s, i) == n
  {
    var m := SkipBlanks(s, i);
  }

  /** The position of the first c, or the length of s. */
  function Find(s: string, c: char): (n: nat)
    ensures n <= |s| && (n < |s| ==> s[n] == c) && c !in s[..n]
  {
    if s == "" || s[0] == c then 0
    else
      assert s[..Find(s[1..], c) + 1] == [s[0]] + s[1..][..Find(s[1..], c)];
      Find(s[1..], c) + 1
  }

  lemma FindIs(s: string, c: char, n: nat)
    requires n < |s| && s[n] == c && forall i | 0 <= i < n :: s[i] != c
    ensures Find(s, c) == n
  {
    var m := Find(s, c);
    assert forall i | 0 <= i < m :: s[..m][i] == s[i];
  }

  predicate Blank(s: string) {
    forall i | 0 <= i < |s| :: Space(s[i])
  }

  lemma {:induction false} StripLeftBlank(a: string, s: string)
    requires Blank(a) && s != "" && !Space(s[0])
    ensures StripLeft(a + s) == s
    decreases |a|
  {
    if a == "" {
      assert a + s == s;
    } else {
      StripLeftBlank(a[1..], s);
      assert (a + s)[1..] == a[1..] + s;
    }
  }

  lemma {:induction false} StripRightBlank(s: string, b: string)
    requires Blank(b) && s != "" && !Space(s[|s| - 1])
    ensures StripRight(s + b) == s
    decreases |b|
  {
    if b == "" {
      assert s + b == s;
    } else {
      StripRightBlank(s, b[..|b| - 1]);
      assert (s + b)[..|s + b| - 1] == s + b[..|b| - 1];
    }
  }

  lemma StripBlank(a: string, s: string, b: string)
    requires Blank(a) && Blank(b) && s != "" && !Space(s[0]) && !Space(s[|s| - 1])
    ensures Strip(a + s + b) == s
  {
    StripLeftBlank(a, s + b);
    assert a + s + b == a + (s + b);
    StripRightBlank(s, b);
  }

  /** What strip takes off on the left is blank, and it stops at the first other character. */
  lemma {:induction false} StripLeftParts(s: string) returns (a: string)
    ensures Blank(a) && s == a + StripLeft(s) && (StripLeft(s) != "" ==> !Space(StripLeft(s)[0]))
    decreases |s|
  {
    if s != "" && Space(s[0]) {
      var rest := StripLeftParts(s[1..]);
      a := [s[0]] + rest;
      assert s == [s[0]] + s[1..];
      Associative([s[0]], rest, StripLeft(s[1..]));
    } else {
      a := "";
    }
  }

  lemma {:induction false} StripRightParts(s: string) returns (b: string)
    ensures Blank(b) && s == StripRight(s) + b && (StripRight(s) != "" ==> !Space(StripRight(s)[|StripRight(s)| - 1]))
    decreases |s|
  {
    if s != "" && Space(s[|s| - 1]) {
      var rest := StripRightParts(s[..|s| - 1]);
      b := rest + [s[|s| - 1]];
      assert s == s[..|s| - 1] + [s[|s| - 1]];
      Associative(StripRight(s[..|s| - 1]), rest, [s[|s| - 1]]);
    } else {
      b := "";
    }
  }

  /** A text is its strip with blanks on both sides, and the strip has none at its edges. */
  lemma StripParts(s: string) returns (a: string, b: string)
    ensures Blank(a) && Blank(b) && s == a + Strip(s) + b
    ensures Strip(s) != "" ==> !Space(Strip(s)[0]) && !Space(Strip(s)[|Strip(s)| - 1])
  {
    a := StripLeftParts(s);
    b := StripRightParts(StripLeft(s));
    assert s == a + (Strip(s) + b);
  }

  lemma BlankMiddle(p: string, r: string, q: string)
    requires Blank(p + r + q)
    ensures Blank(r)
  {
    var t := p + r + q;
    assert forall i | 0 <= i < |r| :: r[i] == t[|p| + i];
  }

  lemma BlankEdges(p: string, r: string, q: string)
    requires Blank(p) && Blank(q)
    ensures var t := p + r + q; (p != "" ==> t != "" && Space(t[0])) && (q != "" ==> t != "" && Space(t[|t| - 1]))
  {
  }

  /** Blanks around a text without blanks at its edges, the empty one included. */
  lemma StripTrimmed(a: string, s: string, b: string)
    requires Blank(a) && Blank(b) && (s != "" ==> !Space(s[0]) && !Space(s[|s| - 1]))
    ensures Strip(a + s + b) == s
  {
    if s == "" {
      var p, q := StripParts(a + s + b);
      BlankMiddle(p, Strip(a + s + b), q);
    } else {
      StripBlank(a, s, b);
    }
  }

  lemma WhereFound(s: string, c: char)
    ensures Find(s, c) < |s| <==> c in s
  {
    var n := Find(s, c);
    assert n == |s| ==> s[..n] == s;
  }

  /** needle in s */
  predicate Occurs(needle: string, s: string) {
    exists i | 0 <= i <= |s| :: needle <= s[i..]
  }

  /* ---- split ---- */

  function Split(s: string, c: char): (parts: seq<string>)
    ensures parts != [] && forall i | 0 <= i < |parts| :: c !in parts[i]
    decreases |s|
  {
    var n := Find(s, c);
    if n == |s| then
      assert s == s[..n];
      [s]
    else [s[..n]] + Split(s[n + 1..], c)
  }

  lemma SplitOnce(first: string, c: char, rest: string)
    requires c !in first
    ensures Split(first + [c] + rest, c) == [first] + Split(rest, c)
  {
    var s := first + [c] + rest;
    assert forall i | 0 <= i < |first| :: s[i] == first[i] && first[i] in first;
    FindIs(s, c, |first|);
    assert s[..|first|] == first && s[|first| + 1..] == rest;
  }

  lemma SplitNone(s: string, c: char)
    requires c !in s
    ensures Split(s, c) == [s]
  {
    assert forall i | 0 <= i < |s| :: s[i] in s;
  }

  function Join(parts: seq<string>, c: char): string {
    if parts == [] then "" else if |parts| == 1 then parts[0] else parts[0] + [c] + Join(parts[1..], c)
  }

  /** Splitting undoes joining when no part holds the separator. */
  lemma {:induction false} SplitJoin(parts: seq<string>, c: char)
    requires parts != [] && forall i | 0 <= i < |parts| :: c !in parts[i]
    ensures Split(Join(parts, c), c) == parts
    decreases |parts|
  {
    if |parts| == 1 {
      SplitNone(parts[0], c);
    } else {
      SplitOnce(parts[0], c, Join(parts[1..], c));
      SplitJoin(parts[1..], c);
      assert parts == [parts[0]] + parts[1..];
    }
  }

  /** And joining undoes splitting. */
  lemma {:induction false} JoinSplit(s: string, c: char)
    ensures Join(Split(s, c), c) == s
    decreases |s|
  {
    var n := Find(s, c);
    if n == |s| {
    } else {
      var rest := Split(s[n + 1..], c);
      JoinSplit(s[n + 1..], c);
      assert ([s[..n]] + rest)[1..] == rest;
      assert s == s[..n] + [c] + s[n + 1..];
    }
  }

  lemma {:induction false} JoinConcat(a: seq<string>, b: seq<string>, c: char)
    requires a != [] && b != []
    ensures Join(a + b, c) == Join(a, c) + [c] + Join(b, c)
    decreases |a|
  {
    assert (a + b)[0] == a[0] && (a + b)[1..] == a[1..] + b;
    if |a| == 1 {
      assert a[1..] + b == b;
    } else {
      JoinConcat(a[1..], b, c);
    }
  }

  /** A separator cuts in the same place whatever stands around it. */
  lemma SplitAround(x: string, c: char, y: string)
    ensures Split(x + [c] + y, c) == Split(x, c) + Split(y, c)
  {
    JoinSplit(x, c);
    JoinSplit(y, c);
    JoinConcat(Split(x, c), Split(y, c), c);
    SplitJoin(Split(x, c) + Split(y, c), c);
  }

  /* ---- lines ---- */

  function LineEnd(s: string): (n: nat)
    ensures n <= |s| && (n < |s| ==> Breaks(s[n])) && forall i | 0 <= i < n :: !Breaks(s[i])
  {
    if s == "" || Breaks(s[0]) then 0 else LineEnd(s[1..]) + 1
  }

  /** A carriage return and a following line feed end one line together. */
  function NextLine(s: string): (n: nat)
    requires LineEnd(s) < |s|
    ensures LineEnd(s) < n <= |s|
  {
    var n := LineEnd(s);
    if s[n] == '\r' && n + 1 < |s| && s[n + 1] == '\n' then n + 2 else n + 1
  }

  function Lines(s: string): seq<string>
    decreases |s|
  {
    if s == "" then []
    else if LineEnd(s) == |s| then [s]
    else [s[..LineEnd(s)]] + Lines(s[NextLine(s)..])
  }

  lemma {:induction false} LineEndIs(s: string, n: nat)
    requires n < |s| && Breaks(s[n]) && forall i | 0 <= i < n :: !Breaks(s[i])
    ensures LineEnd(s) == n
    decreases n
  {
    if n == 0 {
    } else {
      LineEndIs(s[1..], n - 1);
    }
  }

  lemma FirstLineConcat(a: string, b: string)
    requires a != "" && a[|a| - 1] == '\n'
    ensures LineEnd(a) < |a|
    ensures Lines(a) == [a[..LineEnd(a)]] + Lines(a[NextLine(a)..])
    ensures Lines(a + b) == [a[..LineEnd(a)]] + Lines(a[NextLine(a)..] + b)
  {
    var n, k := LineEnd(a), NextLine(a);
    LineEndIs(a + b, n);
    assert NextLine(a + b) == k;
    assert (a + b)[..n] == a[..n];
    assert (a + b)[k..] == a[k..] + b;
  }

  lemma Associative<T>(a: seq<T>, b: seq<T>, c: seq<T>)
    ensures a + (b + c) == a + b + c
  {
  }

  /** Text that ends with a line feed can be followed by any other text line by line. */
  lemma {:induction false} LinesConcat(a: string, b: string)
    requires a != "" ==> a[|a| - 1] == '\n'
    ensures Lines(a + b) == Lines(a) + Lines(b)
    decreases |a|
  {
    if a == "" {
      assert a + b == b;
    } else {
      FirstLineConcat(a, b);
      var rest := a[NextLine(a)..];
      LinesConcat(rest, b);
      Associative([a[..LineEnd(a)]], Lines(rest), Lines(b));
    }
  }

  /** A text without line breaks, ended by a line feed, is one line. */
  lemma SingleLine(s: string)
    requires forall i | 0 <= i < |s| :: !Breaks(s[i])
    ensures Lines(s + "\n") == [s]
  {
    var t := s + "\n";
    assert forall i | 0 <= i < |s| :: t[i] == s[i];
    LineEndIs(t, |s|);
    assert t[..LineEnd(t)] == s && t[NextLine(t)..] == "";
  }

  /* ---- comprehensions ---- */

  function Each<A, B>(f: A -> B, s: seq<A>): (r: seq<B>)
    ensures |r| == |s| && forall i | 0 <= i < |s| :: r[i] == f(s[i])
  {
    seq(|s|, i requires 0 <= i < |s| => f(s[i]))
  }

  lemma EachConcat<A, B>(f: A -> B, a: seq<A>, b: seq<A>)
    ensures Each(f, a + b) == Each(f, a) + Each(f, b)
  {
  }
}
