/** Which stretches of a message are credentials, and what becomes of them: read off the text alone, without
    the scanner that finds them. */
module Credentials {
  import opened PythonText
  import opened Redaction
  import opened Concealment

  /* ---- the pattern, as text ---- */

  function Lower(c: char): char {
    if 'A' <= c <= 'Z' then c - 'A' + 'a' else c
  }

  /** Both are this letter in either case; two further characters count as an i. */
  predicate Alike(c: char, letter: char) {
    Lower(c) == letter || (letter == 'i' && c in {'\U{130}', '\U{131}'})
  }

  predicate Reads(s: string, word: string) {
    |s| == |word| && forall i | 0 <= i < |s| :: Alike(s[i], word[i])
  }

  /** The parts of what stands in front of a credential. */
  datatype Front = Front(field: string, before: string, after: string, kind: string, gap: string)

  predicate IsFront(p: Front) {
    && Reads(p.field, "authorization") && Reads(p.kind, "bearer")
    && Blank(p.before) && Blank(p.after) && Blank(p.gap) && p.gap != ""
  }

  function TextOf(p: Front): string {
    p.field + (p.before + (":" + (p.after + (p.kind + p.gap))))
  }

  /** s begins with such a front of length n, and a credential follows. */
  ghost predicate Announces(s: string, n: nat) {
    exists p: Front :: IsFront(p) && AnnouncedBy(s, n, p)
  }

  predicate AnnouncedBy(s: string, n: nat, p: Front) {
    n == |TextOf(p)| && n < |s| && s[..n] == TextOf(p) && !Space(s[n])
  }

  lemma LettersAgree(c: char, letter: char)
    requires 'a' <= letter <= 'z'
    ensures Alike(c, letter) <==> Folds(c, letter)
    ensures Alike(c, letter) ==> !Space(c) && c != ':'
  {
  }

  lemma WordReads(s: string, i: nat, w: string)
    requires i + |w| <= |s| && forall j | 0 <= j < |w| :: 'a' <= w[j] <= 'z'
    ensures Word(s, i, w) <==> Reads(s[i..i + |w|], w)
    ensures Word(s, i, w) ==> forall j | i <= j < i + |w| :: !Space(s[j])
  {
    forall j | 0 <= j < |w| ensures Folds(s[i + j], w[j]) <==> Alike(s[i..i + |w|][j], w[j]) {
      LettersAgree(s[i + j], w[j]);
    }
    if Word(s, i, w) {
      forall j | i <= j < i + |w| ensures !Space(s[j]) {
        assert Folds(s[i + (j - i)], w[j - i]);
        LettersAgree(s[j], w[j - i]);
      }
    }
  }

  lemma Peel(s: string, i: nat, n: nat, a: string, rest: string)
    requires i <= n <= |s| && s[i..n] == a + rest
    ensures i + |a| <= n && s[i..i + |a|] == a && s[i + |a|..n] == rest
  {
    assert s[i..n][..|a|] == a && s[i..n][|a|..] == rest;
  }

  /** Where the parts of a front stand in the text that it begins. */
  lemma PartsOf(s: string, p: Front, n: nat)
    requires |p.field| == 13 && |p.kind| == 6 && n == |TextOf(p)| <= |s| && s[..n] == TextOf(p)
    ensures var a := 13 + |p.before|; var b := a + 1 + |p.after|; var c := b + 6 + |p.gap|;
            && n == c && s[0..13] == p.field && s[13..a] == p.before && s[a..a + 1] == ":" && s[a + 1..b] == p.after
            && s[b..b + 6] == p.kind && s[b + 6..c] == p.gap
  {
    var a := 13 + |p.before|;
    var b := a + 1 + |p.after|;
    assert s[0..n] == s[..n];
    var fourth := p.kind + p.gap;
    var third := p.after + fourth;
    var second := ":" + third;
    var first := p.before + second;
    Peel(s, 0, n, p.field, first);
    Peel(s, 13, n, p.before, second);
    Peel(s, a, n, ":", third);
    Peel(s, a + 1, n, p.after, fourth);
    Peel(s, b, n, p.kind, p.gap);
  }

  lemma BlankSlice(s: string, i: nat, j: nat)
    requires i <= j <= |s|
    ensures Blank(s[i..j]) <==> forall k | i <= k < j :: Space(s[k])
  {
    assert forall k | i <= k < j :: s[k] == s[i..j][k - i];
  }

  lemma AnnouncedIsHeader(s: string, p: Front, n: nat)
    requires IsFront(p) && AnnouncedBy(s, n, p)
    ensures Header(s) == n
  {
    PartsOf(s, p, n);
    HeaderFromParts(s, 13 + |p.before|, 13 + |p.before| + 1 + |p.after|, n);
  }

  lemma HeaderFromParts(s: string, a: nat, b: nat, n: nat)
    requires 13 <= a < b && b + 6 < n < |s|
    requires Reads(s[0..13], "authorization") && Blank(s[13..a]) && s[a..a + 1] == ":" && Blank(s[a + 1..b])
    requires Reads(s[b..b + 6], "bearer") && Blank(s[b + 6..n]) && !Space(s[n])
    ensures Header(s) == n
  {
    WordReads(s, 0, FIELD);
    assert s[a] == s[a..a + 1][0];
    WordReads(s, b, KIND);
    BlankSlice(s, 13, a);
    BlankSlice(s, a + 1, b);
    BlankSlice(s, b + 6, n);
    HeaderFromPlaces(s, a, b, n);
  }

  lemma Join(s: string, i: nat, j: nat, n: nat)
    requires i <= j <= n <= |s|
    ensures s[i..j] + s[j..n] == s[i..n]
  {
  }

  lemma SlicesJoin(s: string, a: nat, b: nat, n: nat)
    requires 13 <= a < b && b + 6 <= n <= |s| && s[a] == ':'
    ensures s[..13] + (s[13..a] + (":" + (s[a + 1..b] + (s[b..b + 6] + s[b + 6..n])))) == s[..n]
  {
    Join(s, b, b + 6, n);
    Join(s, a + 1, b, n);
    assert s[a..a + 1] == ":";
    Join(s, a, a + 1, n);
    Join(s, 13, a, n);
    Join(s, 0, 13, n);
    assert s[0..13] == s[..13] && s[0..n] == s[..n];
  }

  lemma HeaderIsAnnounced(s: string)
    requires Header(s) > 0
    ensures Announces(s, Header(s))
  {
    var n := Header(s);
    var a, b := HeaderPlaces(s);
    var p := Front(s[..13], s[13..a], s[a + 1..b], s[b..b + 6], s[b + 6..n]);
    WordReads(s, 0, FIELD);
    assert s[0..13] == s[..13];
    WordReads(s, b, KIND);
    BlankSlice(s, 13, a);
    BlankSlice(s, a + 1, b);
    BlankSlice(s, b + 6, n);
    SlicesJoin(s, a, b, n);
    assert IsFront(p) && AnnouncedBy(s, n, p);
  }

  /** The scanner finds exactly the fronts: a text begins with one of length n, and a credential follows,
      exactly when the scanner says n. */
  lemma HeaderIff(s: string, n: nat)
    ensures Announces(s, n) <==> n > 0 && Header(s) == n
  {
    if Announces(s, n) {
      var p: Front :| IsFront(p) && AnnouncedBy(s, n, p);
      AnnouncedIsHeader(s, p, n);
    }
    if Header(s) > 0 {
      HeaderIsAnnounced(s);
    }
  }

  /* ---- what is shown of a message ---- */

  /** Somewhere in s a credential begins. */
  ghost predicate HasCredential(s: string) {
    exists i: nat, n: nat :: i <= |s| && Announces(s[i..], n)
  }

  lemma NoCredentialNoHeader(s: string)
    requires !HasCredential(s)
    ensures NoHeader(s, Header)
  {
    forall i | 0 <= i <= |s| ensures Header(s[i..]) == 0 {
      if Header(s[i..]) > 0 {
        HeaderIsAnnounced(s[i..]);
      }
    }
  }

  /** Text without a credential is kept. */
  lemma PlainIsKept(s: string)
    requires !HasCredential(s)
    ensures Redacted(s, "", "") == s
  {
    NoCredentialNoHeader(s);
    CoverAbsent(s, Header);
  }

  /** The credential is a run of other characters, up to the end or to a blank. */
  predicate EndsCredential(rest: string) {
    rest == "" || Space(rest[0])
  }

  predicate Solid(s: string) {
    s != "" && forall i | 0 <= i < |s| :: !Space(s[i])
  }

  lemma CoverAtFront(front: string, v: string, rest: string, find: string -> nat)
    requires Solid(v) && EndsCredential(rest) && front != "" && find(front + v + rest) == |front|
    ensures Cover(front + v + rest, find) == front + MASK + Cover(rest, find)
  {
    var s, n := front + v + rest, |front|;
    SolidEnds(front, v, rest);
    assert s[n + |v|..] == rest && s[..n] == front;
  }

  lemma CredentialAtFront(p: Front, v: string, rest: string)
    requires IsFront(p) && Solid(v) && EndsCredential(rest)
    ensures Bearer(TextOf(p) + v + rest) == TextOf(p) + MASK + Bearer(rest)
  {
    var t := TextOf(p);
    var s := t + v + rest;
    assert s[..|t|] == t && s[|t|] == v[0];
    assert AnnouncedBy(s, |t|, p);
    AnnouncedIsHeader(s, p, |t|);
    CoverAtFront(t, v, rest, Header);
  }

  lemma SkipSolidIs(s: string, i: nat, n: nat)
    requires i <= n <= |s| && (forall j | i <= j < n :: !Space(s[j])) && (n < |s| ==> Space(s[n]))
    ensures SkipSolid(s, i) == n
  {
    var m := SkipSolid(s, i);
  }

  lemma SolidEnds(front: string, v: string, rest: string)
    requires Solid(v) && EndsCredential(rest)
    ensures SkipSolid(front + v + rest, |front|) == |front| + |v|
  {
    var s, n := front + v + rest, |front|;
    assert forall j | n <= j < n + |v| :: s[j] == v[j - n];
    assert rest != "" ==> s[n + |v|] == rest[0];
    SkipSolidIs(s, n, n + |v|);
  }

  /** No credential begins in front of the last letter of s. */
  ghost predicate QuietFront(front: string, letter: char) {
    !HasCredential(front + [letter])
  }

  /** A header in front of a field would end at the field, or run into it: both are excluded. */
  lemma NothingInFront(front: string, p: Front, more: string, i: nat)
    requires IsFront(p) && QuietFront(front, p.field[0]) && i < |front|
    ensures Header((front + (TextOf(p) + more))[i..]) == 0
  {
    var s := front + (TextOf(p) + more);
    var u := s[i..];
    var n, d := Header(u), |front| - i;
    assert u[d] == p.field[0] && u[d + 1] == p.field[1];
    LettersAgree(p.field[0], 'a');
    LettersAgree(p.field[1], 'u');
    if n > d {
      NoStartInside(u, d);
    } else if n > 0 {
      var short := (front + [p.field[0]])[i..];
      assert short[..n] == u[..n] && short[n] == u[n];
      HeaderIsLocal(u, short);
      HeaderIsAnnounced(short);
    }
  }

  lemma OneIsKept(t: string, find: string -> nat)
    requires t != "" && find(t) == 0
    ensures Cover(t, find) == [t[0]] + Cover(t[1..], find)
  {
  }

  /** find sees nothing that starts in front, with s behind it. */
  predicate Passes(front: string, s: string, find: string -> nat)
    decreases |front|
  {
    front == "" || (find(front + s) == 0 && Passes(front[1..], s, find))
  }

  lemma {:induction false} NothingPasses(front: string, s: string, k: nat, find: string -> nat)
    requires k <= |front| && forall i | k <= i < |front| :: find((front + s)[i..]) == 0
    ensures Passes(front[k..], s, find)
    decreases |front| - k
  {
    if k == |front| {
    } else {
      NothingPasses(front, s, k + 1, find);
      assert front[k..][1..] == front[k + 1..];
      assert (front + s)[k..] == front[k..] + s;
    }
  }

  lemma Consed(front: string, s: string)
    requires front != ""
    ensures (front + s)[0] == front[0] && (front + s)[1..] == front[1..] + s && [front[0]] + (front[1..] + s) == front + s
  {
  }

  lemma {:induction false} FrontIsKept(front: string, s: string, find: string -> nat)
    requires Passes(front, s, find)
    ensures Cover(front + s, find) == front + Cover(s, find)
    decreases |front|
  {
    if front == "" {
      assert front + s == s;
    } else {
      FrontIsKept(front[1..], s, find);
      Consed(front, s);
      Consed(front, Cover(s, find));
      OneIsKept(front + s, find);
    }
  }

  /** A credential is masked wherever it stands, whatever the case of the words in front of it and whatever
      blanks stand between them; the text in front of it is kept, and the text behind it is treated alike. */
  lemma CredentialIsMasked(front: string, p: Front, v: string, rest: string)
    requires IsFront(p) && Solid(v) && EndsCredential(rest) && QuietFront(front, p.field[0])
    ensures Redacted(front + (TextOf(p) + v + rest), "", "") == front + (TextOf(p) + "***" + Redacted(rest, "", ""))
  {
    var s := TextOf(p) + v + rest;
    assert s == TextOf(p) + (v + rest);
    forall i | 0 <= i < |front| ensures Header((front + s)[i..]) == 0 {
      NothingInFront(front, p, v + rest, i);
    }
    NothingPasses(front, s, 0, Header);
    assert front[0..] == front;
    FrontIsKept(front, s, Header);
    CredentialAtFront(p, v, rest);
  }
}
