/** Strings in the order of their code points, the order of Python tuples and of SQLite text. */
module TextOrder {
  predicate StrLe(a: string, b: string)
    decreases |a|
  {
    a == "" || (b != "" && (a[0] < b[0] || (a[0] == b[0] && StrLe(a[1..], b[1..]))))
  }

  lemma {:induction false} StrTotal(a: string, b: string)
    ensures StrLe(a, b) || StrLe(b, a)
    decreases |a|
  {
    if a == "" || b == "" || a[0] != b[0] {
    } else {
      StrTotal(a[1..], b[1..]);
    }
  }

  lemma {:induction false} StrAntisymmetric(a: string, b: string)
    requires StrLe(a, b) && StrLe(b, a)
    ensures a == b
    decreases |a|
  {
    if a == "" {
    } else {
      StrAntisymmetric(a[1..], b[1..]);
      assert a == [a[0]] + a[1..] && b == [b[0]] + b[1..];
    }
  }

  lemma {:induction false} StrTransitive(a: string, b: string, c: string)
    requires StrLe(a, b) && StrLe(b, c)
    ensures StrLe(a, c)
    decreases |a|
  {
    if a == "" || a[0] != b[0] || b[0] != c[0] {
    } else {
      StrTransitive(a[1..], b[1..], c[1..]);
    }
  }

  /** The first place at which a and b differ, where a has the smaller character. */
  ghost predicate DiffersBelow(a: string, b: string, i: nat) {
    i < |a| && i < |b| && a[..i] == b[..i] && a[i] < b[i]
  }

  lemma DiffersBehind(c: char, p: string, q: string, i: nat)
    ensures DiffersBelow([c] + p, [c] + q, i + 1) <==> DiffersBelow(p, q, i)
  {
    var a, b := [c] + p, [c] + q;
    if i < |p| && i < |q| {
      assert a[..i + 1] == [c] + p[..i] && b[..i + 1] == [c] + q[..i];
      assert p[..i] == a[..i + 1][1..] && q[..i] == b[..i + 1][1..];
    }
  }

  lemma SameStart(a: string, b: string, i: nat)
    requires i < |a| && i < |b| && a[..i] == b[..i]
    ensures i > 0 ==> a[0] == b[0]
  {
    if i > 0 {
      assert a[..i][0] == b[..i][0];
    }
  }

  /** Texts agree up to their first difference, and the smaller character there, or the end, comes first. */
  lemma {:induction false} StrLeIff(a: string, b: string)
    ensures StrLe(a, b) <==> a <= b || exists i: nat :: DiffersBelow(a, b, i)
    decreases |a|
  {
    if a == "" || b == "" {
    } else if a[0] == b[0] {
      var p, q := a[1..], b[1..];
      assert a == [a[0]] + p && b == [a[0]] + q;
      StrLeIff(p, q);
      forall i: nat ensures DiffersBelow(a, b, i + 1) <==> DiffersBelow(p, q, i) {
        DiffersBehind(a[0], p, q, i);
      }
      forall i: nat | DiffersBelow(a, b, i) ensures i > 0 && DiffersBelow(p, q, i - 1) {
        assert i > 0 ==> DiffersBelow(a, b, i - 1 + 1);
      }
    } else {
      assert a[..0] == b[..0];
      assert a[0] < b[0] ==> DiffersBelow(a, b, 0);
      forall i: nat | DiffersBelow(a, b, i) ensures i == 0 {
        SameStart(a, b, i);
      }
    }
  }
}
