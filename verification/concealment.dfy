/** Which secrets the redaction never shows, whatever the message and whatever the other secret. */
module Concealment {
  import opened PythonText
  import opened Redaction

  /* ---- a text in which masking changes nothing ---- */

  /** From n on s goes on with exactly the mask, or s ends within it. */
  predicate MaskFollows(s: string, n: nat)
    requires n <= |s|
  {
    var k := SkipSolid(s, n);
    if k < |s| then s[n..k] == MASK else s[n..] <= MASK
  }

  /** No credential that find sees in w would be masked into something else. */
  ghost predicate Legible(w: string, find: string -> nat) {
    forall p | 0 <= p < |w| && 0 < find(w[p..]) < |w[p..]| :: MaskFollows(w[p..], find(w[p..]))
  }

  predicate MaskedAt(s: string, n: nat) {
    n + 3 <= |s| && s[n..n + 3] == MASK && SkipSolid(s, n) == n + 3
  }

  /** No header starts inside a header and its mask. */
  ghost predicate Lone(find: string -> nat) {
    forall s, d: nat | MaskedHeader(s, find(s)) && 0 < d < find(s) + 3 :: find(s[d..]) == 0
  }

  predicate MaskedHeader(s: string, n: nat) {
    n > 0 && MaskedAt(s, n)
  }

  lemma LetterOf(c: char, x: char, y: char)
    requires 'a' <= x <= 'z' && 'a' <= y <= 'z' && Folds(c, x) && x != y
    ensures !Folds(c, y)
  {
  }

  lemma SpaceIsNoLetter(c: char, x: char)
    requires Space(c) && 'a' <= x <= 'z'
    ensures !Folds(c, x)
  {
  }

  /** Inside a header no second one can start: its first two letters stand together only at the front. */
  lemma NoStartInside(s: string, d: nat)
    requires Header(s) > 0 && 0 < d < Header(s)
    ensures !Folds(s[d], FIELD[0]) || !Folds(s[d + 1], FIELD[1])
  {
    var a := SkipBlanks(s, |FIELD|);
    var b := SkipBlanks(s, a + 1);
    if d < |FIELD| {
      assert Folds(s[0 + d], FIELD[d]);
      if d == 8 {
        assert Folds(s[0 + 9], FIELD[9]);
        LetterOf(s[9], 't', 'u');
      } else {
        assert FIELD[d] != 'a' && 'a' <= FIELD[d] <= 'z';
        LetterOf(s[d], FIELD[d], 'a');
      }
    } else if b <= d < b + |KIND| {
      assert Folds(s[b + (d - b)], KIND[d - b]);
      if d == b + 2 {
        assert Folds(s[b + 3], KIND[3]);
        LetterOf(s[d + 1], 'r', 'u');
      } else {
        assert KIND[d - b] != 'a' && 'a' <= KIND[d - b] <= 'z';
        LetterOf(s[d], KIND[d - b], 'a');
      }
    } else if d != a {
      assert Space(s[d]);
      SpaceIsNoLetter(s[d], 'a');
    }
  }

  lemma HeaderStarts(u: string)
    ensures Header(u) > 0 ==> |u| > 2 && Folds(u[0], FIELD[0]) && Folds(u[1], FIELD[1])
  {
    assert Word(u, 0, FIELD) ==> Folds(u[0 + 0], FIELD[0]) && Folds(u[0 + 1], FIELD[1]);
  }

  lemma LoneHeader(s: string, d: nat)
    requires MaskedHeader(s, Header(s)) && 0 < d < Header(s) + 3
    ensures Header(s[d..]) == 0
  {
    var n := Header(s);
    HeaderStarts(s[d..]);
    if d < n {
      NoStartInside(s, d);
    } else {
      assert s[d] == s[n..n + 3][d - n] == '*';
    }
  }

  lemma HeaderIsLone()
    ensures Lone(Header)
  {
    forall s, d: nat | MaskedHeader(s, Header(s)) && 0 < d < Header(s) + 3 ensures Header(s[d..]) == 0 {
      LoneHeader(s, d);
    }
  }

  lemma LoneAt(s: string, d: nat, find: string -> nat)
    requires Lone(find) && MaskedHeader(s, find(s)) && 0 < d < find(s) + 3
    ensures find(s[d..]) == 0
  {
  }

  lemma RestIsBlank(u: string, find: string -> nat)
    requires Finder(find) && (u != "" ==> Space(u[0]))
    ensures Cover(u, find) != "" ==> Space(Cover(u, find)[0])
  {
  }

  /** A text that masking leaves alone starts, when it starts with a header, with a masked credential, and
      masking leaves alone what follows. */
  lemma StableFront(t: string, find: string -> nat)
    requires Finder(find) && Cover(t, find) == t && find(t) > 0
    ensures MaskedAt(t, find(t)) && Cover(t[find(t) + 3..], find) == t[find(t) + 3..]
  {
    var n := find(t);
    var k := SkipSolid(t, n);
    var rest := Cover(t[k..], find);
    assert t == t[..n] + MASK + rest;
    MaskPlace(t[..n], rest);
    RestIsBlank(t[k..], find);
    MaskIsSolid(t[..n], rest);
    assert t[n..n + 3] == MASK;
  }

  lemma StableTail(t: string, find: string -> nat)
    requires Cover(t, find) == t && t != "" && find(t) == 0
    ensures Cover(t[1..], find) == t[1..]
  {
    assert ([t[0]] + Cover(t[1..], find))[1..] == Cover(t[1..], find);
  }

  lemma {:induction false} ShownCredential(t: string, j: nat, find: string -> nat)
    requires Finder(find) && Lone(find) && Cover(t, find) == t && j < |t| && find(t[j..]) > 0
    ensures MaskedAt(t[j..], find(t[j..]))
    decreases |t|
  {
    var n := find(t);
    if j == 0 {
      assert t[0..] == t;
      StableFront(t, find);
    } else if n > 0 {
      StableFront(t, find);
      if j >= n + 3 {
        assert t[n + 3..][j - n - 3..] == t[j..];
        ShownCredential(t[n + 3..], j - n - 3, find);
      } else {
        LoneAt(t, j, find);
      }
    } else {
      StableTail(t, find);
      assert t[1..][j - 1..] == t[j..];
      ShownCredential(t[1..], j - 1, find);
    }
  }

  /** What stands in a masked text is legible. */
  lemma ShownIsLegible(t: string, w: string, find: string -> nat)
    requires Finder(find) && Lone(find) && Cover(t, find) == t && Contains(t, w)
    ensures Legible(w, find)
  {
    var i: nat :| At(t, w, i);
    forall p | 0 <= p < |w| && 0 < find(w[p..]) < |w[p..]| ensures MaskFollows(w[p..], find(w[p..])) {
      PartsAgree(t, w, i, p);
      PartIsLegible(t, w[p..], i + p, find);
    }
  }

  lemma PartsAgree(t: string, w: string, i: nat, p: nat)
    requires At(t, w, i) && p < |w|
    ensures i + p < |t| && w[p..] <= t[i + p..]
  {
    assert t[i..][p..] == t[i + p..];
    assert w == t[i..][..|w|];
  }

  lemma HeaderInPrefix(s: string, u: string, find: string -> nat)
    requires Finder(find) && s <= u && 0 < find(s) < |s|
    ensures find(u) == find(s)
  {
    var n := find(s);
    assert u[..n] == s[..n] && u[n] == s[n];
    assert SameHeader(s, u, n);
  }

  lemma PartIsLegible(t: string, s: string, j: nat, find: string -> nat)
    requires Finder(find) && Lone(find) && Cover(t, find) == t && j < |t| && s <= t[j..] && 0 < find(s) < |s|
    ensures MaskFollows(s, find(s))
  {
    HeaderInPrefix(s, t[j..], find);
    ShownCredential(t, j, find);
    PrefixIsMasked(s, t[j..], find(s));
  }

  lemma PrefixIsMasked(s: string, u: string, n: nat)
    requires s <= u && n < |s| && MaskedAt(u, n)
    ensures MaskFollows(s, n)
  {
    var k := SkipSolid(s, n);
    assert forall j | 0 <= j < |s| :: s[j] == u[j];
    if k < |s| {
      assert k == n + 3;
      assert s[n..k] == u[n..n + 3];
    } else {
      assert |s| <= n + 3;
      assert s[n..] == MASK[..|s| - n] by {
        assert forall j | n <= j < |s| :: s[j] == u[n..n + 3][j - n];
      }
    }
  }

  lemma LegibleSuffix(w: string, k: nat, find: string -> nat)
    requires Legible(w, find) && k <= |w|
    ensures Legible(w[k..], find)
  {
    forall p | 0 <= p < |w[k..]| && 0 < find(w[k..][p..]) < |w[k..][p..]| ensures MaskFollows(w[k..][p..], find(w[k..][p..])) {
      assert w[k..][p..] == w[k + p..];
    }
  }

  predicate Stars(z: string) {
    forall i | 0 <= i < |z| :: z[i] == '*'
  }

  /** Masking keeps a legible text, and stars behind it do not change that. */
  lemma {:induction false} LegibleIsShown(w: string, z: string, find: string -> nat)
    requires Finder(find) && Legible(w, find) && Stars(z)
    ensures w <= Cover(w + z, find)
    decreases |w|
  {
    if w == "" {
    } else if find(w + z) > 0 {
      var n := find(w + z);
      LegibleHeader(w, z, find);
      if SkipSolid(w, n) < |w| {
        var k := SkipSolid(w, n);
        LegibleSuffix(w, k, find);
        LegibleIsShown(w[k..], z, find);
        SameSolid(w, w + z, n);
        MaskedInside(w, z, n, find);
      } else {
        MaskedAtEnd(w, z, n, find);
      }
    } else {
      LegibleSuffix(w, 1, find);
      LegibleIsShown(w[1..], z, find);
      FirstIsCopied(w, z, find);
    }
  }

  lemma FirstIsCopied(w: string, z: string, find: string -> nat)
    requires w != "" && find(w + z) == 0 && w[1..] <= Cover(w[1..] + z, find)
    ensures w <= Cover(w + z, find)
  {
    assert (w + z)[1..] == w[1..] + z;
    assert Cover(w + z, find) == [w[0]] + Cover(w[1..] + z, find);
    assert w == [w[0]] + w[1..];
    Extended([w[0]], w[1..], Cover(w[1..] + z, find));
  }

  lemma LegibleHeader(w: string, z: string, find: string -> nat)
    requires Finder(find) && Legible(w, find) && Stars(z) && w != "" && find(w + z) > 0
    ensures find(w + z) <= |w| && find(w + z) < |w + z| && MaskFollows(w, find(w + z))
  {
    var t, n := w + z, find(w + z);
    assert '*' !in t[..n];
    if n > |w| {
      StarInFront(t, |w|, n);
    } else if n < |w| {
      assert w[..n] == t[..n] && w[n] == t[n];
      assert SameHeader(t, w, n);
      assert w[0..] == w;
    }
  }

  lemma MaskedInside(w: string, z: string, n: nat, find: string -> nat)
    requires n == find(w + z) && 0 < n < |w| && SkipSolid(w, n) < |w| && SkipSolid(w + z, n) == SkipSolid(w, n)
    requires w[n..SkipSolid(w, n)] == MASK && w[SkipSolid(w, n)..] <= Cover(w[SkipSolid(w, n)..] + z, find)
    ensures w <= Cover(w + z, find)
  {
    var t, k := w + z, SkipSolid(w, n);
    assert t[k..] == w[k..] + z && t[..n] == w[..n];
    assert w == (w[..n] + MASK) + w[k..];
    assert Cover(t, find) == (w[..n] + MASK) + Cover(w[k..] + z, find);
    Extended(w[..n] + MASK, w[k..], Cover(w[k..] + z, find));
  }

  lemma MaskedAtEnd(w: string, z: string, n: nat, find: string -> nat)
    requires n == find(w + z) && 0 < n <= |w| && n < |w + z| && w[n..] <= MASK
    ensures w <= Cover(w + z, find)
  {
    var t := w + z;
    var rest := Cover(t[SkipSolid(t, n)..], find);
    assert t[..n] == w[..n];
    assert Cover(t, find) == w[..n] + (MASK + rest);
    assert w == w[..n] + w[n..];
    Extended(w[..n], w[n..], MASK + rest);
  }

  lemma Extended(a: string, b: string, c: string)
    requires b <= c
    ensures a + b <= a + c
  {
  }

  lemma {:induction false} SameSolid(w: string, t: string, n: nat)
    requires w <= t && n <= |w| && SkipSolid(w, n) < |w|
    ensures SkipSolid(t, n) == SkipSolid(w, n)
    decreases |w| - n
  {
    if n < |w| && !Space(w[n]) {
      SameSolid(w, t, n + 1);
    } else {
    }
  }

  lemma StarIsCopied(s: string, find: string -> nat)
    requires Finder(find)
    ensures Cover("*" + s, find) == "*" + Cover(s, find)
  {
    var t := "*" + s;
    assert t[1..] == s && t[0] == '*';
    if find(t) > 0 {
      StarInFront(t, 0, find(t));
    }
  }

  lemma TwoStarsCopied(w: string, find: string -> nat)
    requires Finder(find) && w <= Cover(w, find)
    ensures At(Cover("*" + ("*" + w), find), w, 2)
  {
    var c := Cover(w, find);
    StarIsCopied("*" + w, find);
    StarIsCopied(w, find);
    assert ("*" + ("*" + c))[2..] == c;
  }

  lemma FirstSprung(w: string)
    requires w != "" && w[0] == '*'
    ensures Sprung(w, 0, 1) == "*" + ("*" + w)
  {
    assert w == "*" + w[1..];
    assert w[..0] == "";
  }

  lemma LastSprung(w: string)
    requires w != "" && w[|w| - 1] == '*'
    ensures Sprung(w, |w| - 1, |w|) == w + "**"
  {
    assert w == w[..|w| - 1] + "*";
    assert w[|w|..] == "";
    assert MASK + "" == "*" + "**";
  }

  lemma ThreeSprung(w: string, i: nat)
    requires ThreeStars(w, i)
    ensures Sprung(w, i, i + 3) == w + ""
  {
    assert w[i..i + 3] == MASK;
    assert w == w[..i] + (w[i..i + 3] + w[i + 3..]);
  }

  lemma StarsBehindShown(w: string, z: string, find: string -> nat)
    requires Finder(find) && Legible(w, find) && Stars(z)
    ensures At(Cover(w + z, find), w, 0)
  {
    LegibleIsShown(w, z, find);
    AtFront(Cover(w + z, find), w);
  }

  lemma FirstStarReplaced(w: string)
    requires w != "" && w[0] == '*'
    ensures Replace(Trap(w, 0, 1), w) == "*" + ("*" + w)
  {
    TrapIsReplaced(w, 0, 1);
    FirstSprung(w);
  }

  lemma LastStarReplaced(w: string)
    requires w != "" && w[0] != '*' && w[|w| - 1] == '*'
    ensures Replace(Trap(w, |w| - 1, |w|), w) == w + "**"
  {
    TrapIsReplaced(w, |w| - 1, |w|);
    LastSprung(w);
  }

  lemma ThreeStarsReplaced(w: string, i: nat)
    requires ThreeStars(w, i) && w[0] != '*'
    ensures Replace(Trap(w, i, i + 3), w) == w + ""
  {
    TrapIsReplaced(w, i, i + 3);
    ThreeSprung(w, i);
  }

  lemma TwoStarsAreShown(w: string, find: string -> nat)
    requires Finder(find) && Legible(w, find)
    ensures At(Cover("*" + ("*" + w), find), w, 2)
  {
    LegibleIsShown(w, "", find);
    assert w + "" == w;
    TwoStarsCopied(w, find);
  }

  /** The message whose replacement shows a legible secret that is not star-safe. */
  lemma UnsafeIsShown(w: string, find: string -> nat) returns (s: string)
    requires Finder(find) && w != "" && !StarSafe(w) && Legible(w, find)
    ensures Contains(Cover(Replace(s, w), find), w)
  {
    if w[0] == '*' {
      s := Trap(w, 0, 1);
      FirstStarReplaced(w);
      TwoStarsAreShown(w, find);
    } else if w[|w| - 1] == '*' {
      s := Trap(w, |w| - 1, |w|);
      LastStarReplaced(w);
      StarsBehindShown(w, "**", find);
    } else {
      var i: nat :| i < |w| && ThreeStars(w, i);
      s := Trap(w, i, i + 3);
      ThreeStarsReplaced(w, i);
      StarsBehindShown(w, "", find);
    }
  }

  predicate BlankFree(s: string) {
    forall i | 0 <= i < |s| :: !Space(s[i])
  }

  /** A credential needs a blank in front of it. */
  lemma BlankFreeIsLegible(w: string)
    requires BlankFree(w)
    ensures Legible(w, Header)
  {
    forall p | 0 <= p < |w| ensures Header(w[p..]) == 0 {
      var t := w[p..];
      assert forall j | 0 <= j < |t| :: !Space(t[j]);
    }
  }

  /** In either place, beside any other secret, and in every message. */
  ghost predicate NeverShown(w: string) {
    && (forall message: string, other: string :: !Contains(Redacted(message, w, other), w))
    && (forall message: string, other: string :: !Contains(Redacted(message, other, w), w))
  }

  lemma IllegibleIsHidden(s: string, w: string)
    requires !Legible(w, Header)
    ensures !Contains(Bearer(s), w)
  {
    HeaderIsFinder();
    HeaderIsLone();
    CoverTwice(s, Header);
    if Contains(Bearer(s), w) {
      ShownIsLegible(Bearer(s), w, Header);
    }
  }

  lemma SafeIsNeverShown(w: string)
    requires StarSafe(w) || !Legible(w, Header)
    ensures NeverShown(w)
  {
    forall message: string, other: string
      ensures !Contains(Redacted(message, w, other), w) && !Contains(Redacted(message, other, w), w)
    {
      if StarSafe(w) {
        NoSecretShown(message, w, other);
        NoSecretShown(message, other, w);
      } else {
        IllegibleIsHidden(Hide(Hide(message, w), other), w);
        IllegibleIsHidden(Hide(Hide(message, other), w), w);
      }
    }
  }

  /** The whole redaction hides a secret for good exactly when the secret is star-safe, or itself holds a
      credential that is not the mask; one without blanks holds none. */
  lemma NeverShownIff(w: string)
    requires w != ""
    ensures NeverShown(w) <==> StarSafe(w) || !Legible(w, Header)
    ensures BlankFree(w) ==> Legible(w, Header)
  {
    if BlankFree(w) {
      BlankFreeIsLegible(w);
    }
    if StarSafe(w) || !Legible(w, Header) {
      SafeIsNeverShown(w);
    } else {
      HeaderIsFinder();
      var s := UnsafeIsShown(w, Header);
      assert Contains(Redacted(s, w, ""), w);
    }
  }
}
