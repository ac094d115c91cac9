/** Secrets and bearer credentials are masked in every message that is shown. */
module Redaction {
  import opened PythonText

  predicate At(s: string, w: string, i: nat) {
    i <= |s| && w <= s[i..]
  }

  ghost predicate Contains(s: string, w: string) {
    exists i: nat :: At(s, w, i)
  }

  const MASK := "***"

  /* ---- str.replace: leftmost, non-overlapping ---- */

  function Replace(s: string, w: string): string
    requires w != ""
    decreases |s|
  {
    if s == "" then ""
    else if w <= s then MASK + Replace(s[|w|..], w)
    else [s[0]] + Replace(s[1..], w)
  }

  /* ---- the bearer pattern: every piece of it is followed by a character it cannot take ---- */

  /** Case-insensitive equality with a lower-case letter; two dotted and dotless letters fold to i. */
  predicate Folds(c: char, letter: char) {
    || c == letter
    || ('A' <= c <= 'Z' && letter == c - 'A' + 'a')
    || (letter == 'i' && (c == '\U{130}' || c == '\U{131}'))
  }

  predicate Word(s: string, i: nat, w: string) {
    i + |w| <= |s| && forall j | 0 <= j < |w| :: Folds(s[i + j], w[j])
  }

  /** Where the run of other characters that starts at i ends. */
  function SkipSolid(s: string, i: nat): (n: nat)
    requires i <= |s|
    ensures i <= n <= |s| && (forall j | i <= j < n :: !Space(s[j])) && (n < |s| ==> Space(s[n]))
    decreases |s| - i
  {
    if i < |s| && !Space(s[i]) then SkipSolid(s, i + 1) else i
  }

  const FIELD := "authorization"
  const KIND := "bearer"

  /** The length of "authorization : bearer " at the front when a credential follows it, else 0. */
  function Header(s: string): (n: nat)
    ensures n > 0 ==> n < |s| && !Space(s[n])
  {
    if !Word(s, 0, FIELD) then 0
    else
      var a := SkipBlanks(s, |FIELD|);
      if a == |s| || s[a] != ':' then 0
      else
        var b := SkipBlanks(s, a + 1);
        if !Word(s, b, KIND) then 0
        else
          var c := SkipBlanks(s, b + |KIND|);
          if c == b + |KIND| || c == |s| then 0 else c
  }

  /** Wherever find sees a header, what stands after it up to the next blank becomes the mask. */
  function Cover(s: string, find: string -> nat): string
    decreases |s|
  {
    if s == "" then ""
    else
      var n := find(s);
      if 0 < n < |s| then s[..n] + MASK + Cover(s[SkipSolid(s, n)..], find)
      else [s[0]] + Cover(s[1..], find)
  }

  function Bearer(s: string): string {
    Cover(s, Header)
  }

  /* ---- the whole ---- */

  const NAMES := ["TMDB_ACCESS_TOKEN", "TMDB_TOKEN"]

  function Hide(message: string, secret: string): string {
    if secret == "" then message else Replace(message, secret)
  }

  function Secret(environment: map<string, string>, name: string): string {
    if name in environment then environment[name] else ""
  }

  function Redacted(message: string, first: string, second: string): string {
    Bearer(Hide(Hide(message, first), second))
  }

  method Redact(message: string, environment: map<string, string>) returns (shown: string)
    ensures shown == Redacted(message,
                              if "TMDB_ACCESS_TOKEN" in environment then environment["TMDB_ACCESS_TOKEN"] else "",
                              if "TMDB_TOKEN" in environment then environment["TMDB_TOKEN"] else "")
  {
    shown := message;
    for i := 0 to |NAMES|
      invariant shown == if i == 0 then message
                         else if i == 1 then Hide(message, Secret(environment, NAMES[0]))
                         else Hide(Hide(message, Secret(environment, NAMES[0])), Secret(environment, NAMES[1]))
    {
      var secret := Secret(environment, NAMES[i]);
      if secret != "" {
        shown := Replace(shown, secret);
      }
    }
    shown := Bearer(shown);
  }

  /* ---- masking brings nothing in ---- */

  predicate ThreeStars(w: string, i: nat) {
    i + 2 < |w| && w[i] == w[i + 1] == w[i + 2] == '*'
  }

  /** No star at the end, and never three together. */
  predicate Tail(u: string) {
    (u != "" ==> u[|u| - 1] != '*') && forall i | 0 <= i < |u| :: !ThreeStars(u, i)
  }

  /** A text no mask can help to form: no star at either end, and never three together. */
  predicate StarSafe(w: string) {
    w != "" && w[0] != '*' && Tail(w)
  }

  /** t is s with some stretches replaced by the mask. */
  ghost predicate Masked(s: string, t: string)
    decreases |t|
  {
    || (s == "" && t == "")
    || (s != "" && t != "" && s[0] == t[0] && Masked(s[1..], t[1..]))
    || (MASK <= t && exists k: nat :: k <= |s| && Masked(s[k..], t[3..]))
  }

  lemma MaskEndsTail(t: string, u: string)
    requires MASK <= t && u <= t && u != ""
    ensures !Tail(u)
  {
    assert t[0] == t[1] == t[2] == '*';
    assert |u| >= 3 ==> ThreeStars(u, 0);
  }

  lemma PastMask(t: string, u: string, i: nat)
    requires MASK <= t && At(t, u, i) && u != "" && u[0] != '*'
    ensures i >= 3 && At(t[3..], u, i - 3)
  {
    assert t[0] == t[1] == t[2] == '*' && t[i] == u[0];
    assert t[3..][i - 3..] == t[i..];
  }

  /** What stands at the front of the masked text, up to a mask, stood at the front before. */
  lemma {:induction false} FrontWasThere(s: string, t: string, u: string)
    requires Masked(s, t) && Tail(u) && u <= t
    ensures u <= s
    decreases |t|
  {
    if u == "" {
    } else {
      if MASK <= t {
        MaskEndsTail(t, u);
      } else {
        assert forall i | 0 <= i < |u[1..]| :: ThreeStars(u[1..], i) ==> ThreeStars(u, i + 1);
        FrontWasThere(s[1..], t[1..], u[1..]);
      }
    }
  }

  /** Masking never makes a star-safe text appear that was not there. */
  lemma {:induction false} NothingBroughtIn(s: string, t: string, u: string)
    requires Masked(s, t) && StarSafe(u) && Contains(t, u)
    ensures Contains(s, u)
    decreases |t|
  {
    var i: nat :| At(t, u, i);
    if i == 0 {
      FrontWasThere(s, t, u);
      assert At(s, u, 0);
    } else if s != "" && s[0] == t[0] && Masked(s[1..], t[1..]) {
      assert t[1..][i - 1..] == t[i..];
      assert At(t[1..], u, i - 1);
      NothingBroughtIn(s[1..], t[1..], u);
      var j: nat :| At(s[1..], u, j);
      assert s[1..][j..] == s[j + 1..];
      assert At(s, u, j + 1);
    } else {
      var k: nat :| k <= |s| && Masked(s[k..], t[3..]);
      PastMask(t, u, i);
      NothingBroughtIn(s[k..], t[3..], u);
      var j: nat :| At(s[k..], u, j);
      assert s[k..][j..] == s[j + k..];
      assert At(s, u, j + k);
    }
  }

  lemma {:induction false} ReplaceMasks(s: string, w: string)
    requires w != ""
    ensures Masked(s, Replace(s, w))
    decreases |s|
  {
    if s == "" {
    } else {
      if w <= s {
        ReplaceMasks(s[|w|..], w);
        assert (MASK + Replace(s[|w|..], w))[3..] == Replace(s[|w|..], w);
      } else {
        ReplaceMasks(s[1..], w);
        assert ([s[0]] + Replace(s[1..], w))[1..] == Replace(s[1..], w);
      }
    }
  }

  lemma {:induction false} CopyMasked(a: string, s: string, t: string)
    requires Masked(s, t)
    ensures Masked(a + s, a + t)
    decreases |a|
  {
    if a == "" {
      assert a + s == s && a + t == t;
    } else {
      CopyMasked(a[1..], s, t);
      assert (a + s)[1..] == a[1..] + s && (a + t)[1..] == a[1..] + t;
    }
  }

  lemma MaskMasked(s: string, k: nat, t: string)
    requires k <= |s| && Masked(s[k..], t)
    ensures Masked(s, MASK + t)
  {
    assert (MASK + t)[3..] == t;
  }

  /** The front is kept, what follows up to k is masked. */
  lemma FrontMasked(s: string, n: nat, k: nat, t: string)
    requires n <= k <= |s| && Masked(s[k..], t)
    ensures Masked(s, s[..n] + MASK + t)
  {
    assert s[n..][k - n..] == s[k..];
    MaskMasked(s[n..], k - n, t);
    CopyMasked(s[..n], s[n..], MASK + t);
    assert s[..n] + s[n..] == s && s[..n] + (MASK + t) == s[..n] + MASK + t;
  }

  lemma {:induction false} CoverMasks(s: string, find: string -> nat)
    ensures Masked(s, Cover(s, find))
    decreases |s|
  {
    if s == "" {
    } else {
      var n := find(s);
      if 0 < n < |s| {
        var k := SkipSolid(s, n);
        CoverMasks(s[k..], find);
        FrontMasked(s, n, k, Cover(s[k..], find));
      } else {
        CoverMasks(s[1..], find);
        assert ([s[0]] + Cover(s[1..], find))[1..] == Cover(s[1..], find);
      }
    }
  }

  /* ---- replacement leaves nothing behind ---- */

  lemma AtCopied(c: char, t: string, w: string, i: nat)
    requires i > 0
    ensures At([c] + t, w, i) <==> At(t, w, i - 1)
  {
    assert i <= |t| + 1 ==> ([c] + t)[i..] == t[i - 1..];
  }

  lemma NotAtMasked(t: string, w: string, i: nat)
    requires w != "" && w[0] != '*' && (i >= 3 ==> !At(t, w, i - 3))
    ensures !At(MASK + t, w, i)
  {
    assert (MASK + t)[3..] == t;
    if At(MASK + t, w, i) {
      PastMask(MASK + t, w, i);
    }
  }

  lemma {:induction false} ReplaceLeavesNone(s: string, w: string, i: nat)
    requires StarSafe(w)
    ensures !At(Replace(s, w), w, i)
    decreases |s|
  {
    if s == "" {
    } else if w <= s {
      var rest := s[|w|..];
      if i >= 3 {
        ReplaceLeavesNone(rest, w, i - 3);
      }
      NotAtMasked(Replace(rest, w), w, i);
      assert Replace(s, w) == MASK + Replace(rest, w);
    } else if i > 0 {
      ReplaceLeavesNone(s[1..], w, i - 1);
      AtCopied(s[0], Replace(s[1..], w), w, i);
    } else {
      ReplaceMasks(s, w);
      NotAtFront(s, Replace(s, w), w);
    }
  }

  lemma NotAtFront(s: string, t: string, w: string)
    requires Masked(s, t) && Tail(w) && !(w <= s)
    ensures !At(t, w, 0)
  {
    AtFront(t, w);
    if w <= t {
      FrontWasThere(s, t, w);
    }
  }

  lemma AtFront(t: string, w: string)
    ensures At(t, w, 0) <==> w <= t
  {
    assert t[0..] == t;
  }

  lemma ReplaceRemoves(s: string, w: string)
    requires StarSafe(w)
    ensures !Contains(Replace(s, w), w)
  {
    forall i: nat ensures !At(Replace(s, w), w, i) {
      ReplaceLeavesNone(s, w, i);
    }
  }

  lemma {:induction false} ReplaceSkips(x: string, s: string, w: string)
    requires w != "" && forall p | 0 <= p < |x| :: !At(x + s, w, p)
    ensures Replace(x + s, w) == x + Replace(s, w)
    decreases |x|
  {
    if x == "" {
      assert x + s == s;
    } else {
      assert (x + s)[0..] == x + s && !At(x + s, w, 0);
      assert (x + s)[1..] == x[1..] + s;
      forall p | 0 <= p < |x[1..]| ensures !At(x[1..] + s, w, p) {
        assert (x[1..] + s)[p..] == (x + s)[p + 1..] && !At(x + s, w, p + 1);
      }
      ReplaceSkips(x[1..], s, w);
    }
  }

  lemma {:induction false} ShortUnchanged(s: string, w: string)
    requires |s| < |w|
    ensures Replace(s, w) == s
    decreases |s|
  {
    if s == "" {
    } else {
      ShortUnchanged(s[1..], w);
    }
  }

  /** In w[..n] + w, a match that starts early makes the n-th character equal to the first. */
  lemma EarlyMatch(w: string, n: nat, y: string, p: nat)
    requires p < n < |w| && At(w[..n] + (w + y), w, p)
    ensures w[n] == w[0]
  {
    var s := w[..n] + (w + y);
    assert s[p..][n] == w[n] && s[p..][0] == w[0];
    assert s[p + n] == w[p] == s[p];
  }

  /** A message whose replacement spells the secret out again: the secret with itself put in place of
      the stars that the mask will write. */
  function Trap(w: string, n: nat, m: nat): string
    requires n <= m <= |w|
  {
    w[..n] + (w + w[m..])
  }

  function Sprung(w: string, n: nat, m: nat): string
    requires n <= m <= |w|
  {
    w[..n] + (MASK + w[m..])
  }

  lemma TrapIsReplaced(w: string, n: nat, m: nat)
    requires n < m <= |w| && (n > 0 ==> w[n] != w[0])
    ensures Replace(Trap(w, n, m), w) == Sprung(w, n, m)
  {
    var s := w + w[m..];
    forall p | 0 <= p < n ensures !At(w[..n] + s, w, p) {
      if At(w[..n] + s, w, p) {
        EarlyMatch(w, n, w[m..], p);
      }
    }
    ReplaceSkips(w[..n], s, w);
    ShortUnchanged(w[m..], w);
    assert w <= s && s[|w|..] == w[m..];
  }

  lemma FirstStarIsTrapped(w: string)
    requires w != "" && w[0] == '*'
    ensures At(Sprung(w, 0, 1), w, 2)
  {
    assert Sprung(w, 0, 1)[2..] == w;
  }

  lemma LastStarIsTrapped(w: string)
    requires w != "" && w[|w| - 1] == '*'
    ensures At(Sprung(w, |w| - 1, |w|), w, 0)
  {
    var t := Sprung(w, |w| - 1, |w|);
    assert t[..|w|] == w;
    AtFront(t, w);
  }

  lemma ThreeStarsAreTrapped(w: string, i: nat)
    requires ThreeStars(w, i)
    ensures At(Sprung(w, i, i + 3), w, 0)
  {
    var t := Sprung(w, i, i + 3);
    assert t == w;
    AtFront(t, w);
  }

  lemma UnsafeIsTrapped(w: string) returns (s: string)
    requires w != "" && !StarSafe(w)
    ensures Contains(Replace(s, w), w)
  {
    if w[0] == '*' {
      s := Trap(w, 0, 1);
      TrapIsReplaced(w, 0, 1);
      FirstStarIsTrapped(w);
    } else if w[|w| - 1] == '*' {
      s := Trap(w, |w| - 1, |w|);
      TrapIsReplaced(w, |w| - 1, |w|);
      LastStarIsTrapped(w);
    } else {
      var i: nat :| i < |w| && ThreeStars(w, i);
      s := Trap(w, i, i + 3);
      TrapIsReplaced(w, i, i + 3);
      ThreeStarsAreTrapped(w, i);
    }
  }

  ghost predicate AlwaysRemoved(w: string)
    requires w != ""
  {
    forall s: string :: !Contains(Replace(s, w), w)
  }

  /** Replacing a secret removes it from every message exactly when no star is at its edge and no three
      stand together in it. A secret without stars is one of these. */
  lemma ReplaceRemovesIff(w: string)
    requires w != ""
    ensures AlwaysRemoved(w) <==> StarSafe(w)
    ensures '*' !in w ==> StarSafe(w)
  {
    if StarSafe(w) {
      forall s: string ensures !Contains(Replace(s, w), w) {
        ReplaceRemoves(s, w);
      }
    } else {
      var s := UnsafeIsTrapped(w);
      assert Contains(Replace(s, w), w);
    }
  }

  /* ---- what the whole promises ---- */

  predicate Hidden(secret: string) {
    secret == "" || StarSafe(secret)
  }

  lemma HideMasks(s: string, secret: string)
    ensures Masked(s, Hide(s, secret))
  {
    if secret == "" {
      CopyMasked(s, "", "");
      assert s + "" == s;
    } else {
      ReplaceMasks(s, secret);
    }
  }

  /** A star-safe secret is never shown, whatever the other one is: neither the other replacement nor the
      credential mask brings it back. */
  lemma NoSecretShown(message: string, first: string, second: string)
    ensures StarSafe(first) ==> !Contains(Redacted(message, first, second), first)
    ensures StarSafe(second) ==> !Contains(Redacted(message, first, second), second)
  {
    var one := Hide(message, first);
    var two := Hide(one, second);
    CoverMasks(two, Header);
    if StarSafe(second) {
      ReplaceRemoves(one, second);
      if Contains(Bearer(two), second) {
        NothingBroughtIn(two, Bearer(two), second);
      }
    }
    if StarSafe(first) {
      ReplaceRemoves(message, first);
      HideMasks(one, second);
      if Contains(Bearer(two), first) {
        NothingBroughtIn(two, Bearer(two), first);
        NothingBroughtIn(one, two, first);
      }
    }
  }

  ghost predicate NoHeader(s: string, find: string -> nat) {
    forall i | 0 <= i <= |s| :: find(s[i..]) == 0
  }

  lemma {:induction false} CoverAbsent(s: string, find: string -> nat)
    requires NoHeader(s, find)
    ensures Cover(s, find) == s
    decreases |s|
  {
    if s == "" {
    } else {
      assert s[0..] == s;
      forall i | 0 <= i <= |s[1..]| ensures find(s[1..][i..]) == 0 {
        assert s[1..][i..] == s[i + 1..];
      }
      CoverAbsent(s[1..], find);
    }
  }

  lemma {:induction false} ReplaceAbsent(s: string, w: string)
    requires w != "" && !Contains(s, w)
    ensures Replace(s, w) == s
    decreases |s|
  {
    if s == "" {
    } else {
      assert s[0..] == s && !At(s, w, 0);
      forall i: nat ensures !At(s[1..], w, i) {
        if At(s[1..], w, i) {
          assert s[1..][i..] == s[i + 1..];
          assert At(s, w, i + 1);
        }
      }
      ReplaceAbsent(s[1..], w);
    }
  }

  lemma WordIsLocal(s: string, t: string, n: nat, i: nat, w: string)
    requires n <= |s| && n <= |t| && s[..n] == t[..n] && i + |w| <= n
    ensures Word(s, i, w) == Word(t, i, w)
  {
    assert forall k | 0 <= k < n :: s[k] == s[..n][k] == t[..n][k] == t[k];
  }

  /** Where the parts of a header of length n stand: the colon at a, the second word at b. */
  ghost predicate HeaderAt(s: string, a: nat, b: nat, n: nat) {
    && 13 <= a < b && b + 6 < n < |s|
    && Word(s, 0, FIELD) && s[a] == ':' && Word(s, b, KIND) && !Space(s[n])
    && forall k | 13 <= k < a || a < k < b || b + 6 <= k < n :: Space(s[k])
  }

  lemma HeaderPlaces(s: string) returns (a: nat, b: nat)
    requires Header(s) > 0
    ensures HeaderAt(s, a, b, Header(s))
  {
    a := SkipBlanks(s, |FIELD|);
    b := SkipBlanks(s, a + 1);
  }

  lemma NotBlank(c: char)
    requires c == ':' || Folds(c, 'b')
    ensures !Space(c)
  {
  }

  lemma HeaderFromPlaces(s: string, a: nat, b: nat, n: nat)
    requires HeaderAt(s, a, b, n)
    ensures Header(s) == n
  {
    NotBlank(s[a]);
    SkipBlanksIs(s, |FIELD|, a);
    assert Folds(s[b + 0], KIND[0]);
    NotBlank(s[b]);
    SkipBlanksIs(s, a + 1, b);
    SkipBlanksIs(s, b + |KIND|, n);
  }

  /** A header is recognised from its own characters and the kind of the one after it. */
  lemma HeaderIsLocal(s: string, t: string)
    requires Header(s) > 0 && Header(s) < |t|
    requires t[..Header(s)] == s[..Header(s)] && !Space(t[Header(s)])
    ensures Header(t) == Header(s)
  {
    var n := Header(s);
    var a, b := HeaderPlaces(s);
    WordIsLocal(s, t, n, 0, FIELD);
    WordIsLocal(s, t, n, b, KIND);
    SameFront(s, t, n);
    HeaderFromPlaces(t, a, b, n);
  }

  lemma SameFront(s: string, t: string, n: nat)
    requires n <= |s| && n <= |t| && s[..n] == t[..n]
    ensures forall k | 0 <= k < n :: t[k] == s[k]
  {
    assert forall k | 0 <= k < n :: s[k] == s[..n][k] == t[..n][k] == t[k];
  }

  lemma WordHasNoStar(s: string, i: nat, w: string)
    requires Word(s, i, w) && forall j | 0 <= j < |w| :: 'a' <= w[j] <= 'z'
    ensures forall j | i <= j < i + |w| :: s[j] != '*'
  {
    forall k | i <= k < i + |w| ensures s[k] != '*' {
      assert Folds(s[i + (k - i)], w[k - i]);
    }
  }

  lemma HeaderHasNoStar(s: string)
    requires Header(s) > 0
    ensures '*' !in s[..Header(s)]
  {
    var a, b := HeaderPlaces(s);
    WordHasNoStar(s, 0, FIELD);
    WordHasNoStar(s, b, KIND);
  }

  lemma StarInFront(t: string, n: nat, k: nat)
    requires n < k <= |t| && t[n] == '*'
    ensures '*' in t[..k]
  {
    assert t[..k][n] == '*';
  }

  lemma FrontOfHeader(s: string, n: nat, rest: string, k: nat)
    requires n < |s| && !Space(s[n])
    requires var t := s[..n] + MASK + rest; k < |t| && '*' !in t[..k]
    ensures var t := s[..n] + MASK + rest; k < |s| && s[..k] == t[..k] && (Space(s[k]) <==> Space(t[k]))
  {
    var t := s[..n] + MASK + rest;
    assert t[n] == '*';
    if k > n {
      StarInFront(t, n, k);
    }
  }

  lemma FrontOfCopy(s: string, rest: string, k: nat)
    requires s != "" && 0 < k <= |rest|
    ensures ([s[0]] + rest)[..k] == [s[0]] + rest[..k - 1] && ([s[0]] + rest)[k] == rest[k - 1]
    ensures '*' !in ([s[0]] + rest)[..k] ==> '*' !in rest[..k - 1]
    ensures k < |s| ==> s[..k] == [s[0]] + s[1..][..k - 1] && s[k] == s[1..][k - 1]
  {
    var t := [s[0]] + rest;
    assert t[..k][1..] == rest[..k - 1];
  }

  /** What masking needs of a header finder: a header holds no star, starts with no blank, is followed
      by no blank, and is found again from its own characters and the kind of the one after it. */
  ghost predicate Finder(find: string -> nat) {
    && (forall s :: find(s) > 0 ==> find(s) < |s| && !Space(s[find(s)]) && !Space(s[0]) && '*' !in s[..find(s)])
    && (forall s, t :: SameHeader(s, t, find(s)) ==> find(t) == find(s))
  }

  predicate SameHeader(s: string, t: string, n: nat) {
    0 < n < |s| && n < |t| && t[..n] == s[..n] && !Space(t[n])
  }

  lemma HeaderIsFinder()
    ensures Finder(Header)
  {
    forall s | Header(s) > 0 ensures !Space(s[0]) && '*' !in s[..Header(s)] {
      assert Folds(s[0 + 0], FIELD[0]);
      HeaderHasNoStar(s);
    }
    forall s, t | SameHeader(s, t, Header(s)) ensures Header(t) == Header(s) {
      HeaderIsLocal(s, t);
    }
  }

  /** Up to the first star the masked text is the text itself, and a blank stays a blank there. */
  lemma {:induction false} FrontIsCopied(s: string, k: nat, find: string -> nat)
    requires Finder(find)
    requires k < |Cover(s, find)| && '*' !in Cover(s, find)[..k]
    ensures k < |s| && s[..k] == Cover(s, find)[..k] && (Space(s[k]) <==> Space(Cover(s, find)[k]))
    decreases |s|
  {
    var n := find(s);
    if n > 0 {
      FrontOfHeader(s, n, Cover(s[SkipSolid(s, n)..], find), k);
    } else if k > 0 {
      FrontOfCopy(s, Cover(s[1..], find), k);
      FrontIsCopied(s[1..], k - 1, find);
    }
  }

  lemma MaskPlace(front: string, tail: string)
    ensures var t, n := front + MASK + tail, |front|;
            |t| == n + 3 + |tail| && t[n] == '*' && t[n + 1] == '*' && t[n + 2] == '*' && t[n + 3..] == tail
    ensures tail != "" ==> (front + MASK + tail)[|front| + 3] == tail[0]
  {
  }

  lemma MaskIsSolid(front: string, tail: string)
    requires tail != "" ==> Space(tail[0])
    ensures SkipSolid(front + MASK + tail, |front|) == |front| + 3
  {
    MaskPlace(front, tail);
    SolidRun(front + MASK + tail, |front|);
  }

  lemma SolidRun(t: string, n: nat)
    requires n + 3 <= |t| && t[n] == t[n + 1] == t[n + 2] == '*' && (n + 3 < |t| ==> Space(t[n + 3]))
    ensures SkipSolid(t, n) == n + 3
  {
    assert !Space('*');
  }

  lemma HeaderWasThere(s: string, find: string -> nat)
    requires Finder(find) && find(Cover(s, find)) > 0
    ensures find(s) > 0
  {
    var t := Cover(s, find);
    FrontIsCopied(s, find(t), find);
    assert SameHeader(t, s, find(t));
  }

  lemma CoverHeaderTwice(s: string, find: string -> nat)
    requires Finder(find) && find(s) > 0
    requires var rest := Cover(s[SkipSolid(s, find(s))..], find);
             Cover(rest, find) == rest && (rest != "" ==> Space(rest[0]))
    ensures Cover(Cover(s, find), find) == Cover(s, find)
  {
    var n := find(s);
    var rest := Cover(s[SkipSolid(s, n)..], find);
    var t := s[..n] + MASK + rest;
    assert t[n] == '*' && t[..n] == s[..n];
    assert SameHeader(s, t, n);
    MaskPlace(s[..n], rest);
    MaskIsSolid(s[..n], rest);
  }

  /** Every credential left in the text is the mask itself: masking again changes nothing. */
  lemma {:induction false} CoverTwice(s: string, find: string -> nat)
    requires Finder(find)
    ensures Cover(Cover(s, find), find) == Cover(s, find)
    decreases |s|
  {
    if s == "" {
    } else {
      var n := find(s);
      if n > 0 {
        CoverTwice(s[SkipSolid(s, n)..], find);
        CoverHeaderTwice(s, find);
      } else {
        CoverTwice(s[1..], find);
        if find(Cover(s, find)) > 0 {
          HeaderWasThere(s, find);
        }
        assert ([s[0]] + Cover(s[1..], find))[1..] == Cover(s[1..], find);
      }
    }
  }

  /** Redacting what was redacted changes nothing. */
  lemma RedactedTwice(message: string, first: string, second: string)
    requires Hidden(first) && Hidden(second)
    ensures Redacted(Redacted(message, first, second), first, second) == Redacted(message, first, second)
  {
    var shown := Redacted(message, first, second);
    NoSecretShown(message, first, second);
    if first != "" {
      ReplaceAbsent(shown, first);
    }
    if second != "" {
      ReplaceAbsent(shown, second);
    }
    HeaderIsFinder();
    CoverTwice(Hide(Hide(message, first), second), Header);
  }

  /** A message with neither secret and no credential is shown as it is. */
  lemma HarmlessIsKept(message: string, first: string, second: string)
    requires first != "" ==> !Contains(message, first)
    requires second != "" ==> !Contains(message, second)
    requires NoHeader(message, Header)
    ensures Redacted(message, first, second) == message
  {
    if first != "" {
      ReplaceAbsent(message, first);
    }
    if second != "" {
      ReplaceAbsent(message, second);
    }
    CoverAbsent(message, Header);
  }
}
