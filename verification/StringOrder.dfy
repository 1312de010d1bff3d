/** Lexicographic string order, as Python compares `str` values and Arrow compares utf8 columns. */
module StringOrder {
  import opened Sorting

  predicate StrLt(a: string, b: string) {
    if b == "" then false
    else if a == "" then true
    else a[0] < b[0] || (a[0] == b[0] && StrLt(a[1..], b[1..]))
  }

  predicate StrLe(a: string, b: string) {
    a == b || StrLt(a, b)
  }

  lemma {:induction false} StrTrichotomy(a: string, b: string)
    ensures a == b || StrLt(a, b) || StrLt(b, a)
    ensures !(a == b && StrLt(a, b)) && !(StrLt(a, b) && StrLt(b, a))
  {
    if a != "" && b != "" && a[0] == b[0] {
      StrTrichotomy(a[1..], b[1..]);
      assert a == [a[0]] + a[1..] && b == [b[0]] + b[1..];
    }
  }

  lemma {:induction false} StrTransitive(a: string, b: string, c: string)
    requires StrLt(a, b) && StrLt(b, c)
    ensures StrLt(a, c)
  {
    if a != "" && a[0] == b[0] && b[0] == c[0] {
      StrTransitive(a[1..], b[1..], c[1..]);
    }
  }

  lemma {:induction false} StrLeIsTotal()
    ensures TotalPreorder(StrLe)
  {
    forall x, y ensures StrLe(x, y) || StrLe(y, x) {
      StrTrichotomy(x, y);
    }
    forall x, y, z | StrLe(x, y) && StrLe(y, z) ensures StrLe(x, z) {
      if x != y && y != z { StrTransitive(x, y, z); }
    }
  }

  lemma {:induction false} StrLeAntisymmetric(x: string, y: string)
    requires StrLe(x, y) && StrLe(y, x)
    ensures x == y
  {
    StrTrichotomy(x, y);
  }

  /** A common prefix does not affect the comparison. */
  lemma {:induction false} StrLtPrefix(p: string, a: string, b: string)
    ensures StrLt(p + a, p + b) <==> StrLt(a, b)
  {
    if p == "" {
      assert p + a == a && p + b == b;
    } else {
      assert (p + a)[1..] == p[1..] + a && (p + b)[1..] == p[1..] + b;
      StrLtPrefix(p[1..], a, b);
    }
  }

  /** Different heads of equal length decide the comparison before the tails are read. */
  lemma {:induction false} StrLtHead(p: string, q: string, a: string, b: string)
    requires |p| == |q| && p != q
    ensures StrLt(p + a, q + b) <==> StrLt(p, q)
  {
    assert (p + a)[1..] == p[1..] + a && (q + b)[1..] == q[1..] + b;
    if p[0] == q[0] {
      assert p == [p[0]] + p[1..] && q == [q[0]] + q[1..];
      StrLtHead(p[1..], q[1..], a, b);
    }
  }
}
