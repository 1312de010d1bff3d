/** Finite sequences: concatenation, filtering, sums, and what permutations leave unchanged. */
module Seqs {

  datatype Option<+T> = None | Some(value: T)

  function Concat<T>(ss: seq<seq<T>>): seq<T> {
    if ss == [] then [] else ss[0] + Concat(ss[1..])
  }

  lemma {:induction false} ConcatAppend<T>(a: seq<seq<T>>, b: seq<seq<T>>)
    ensures Concat(a + b) == Concat(a) + Concat(b)
  {
    if a == [] {
      assert a + b == b;
    } else {
      assert (a + b)[1..] == a[1..] + b;
      ConcatAppend(a[1..], b);
    }
  }

  lemma {:induction false} ConcatSnoc<T>(a: seq<seq<T>>, x: seq<T>)
    ensures Concat(a + [x]) == Concat(a) + x
  {
    ConcatAppend(a, [x]);
    assert Concat([x]) == x;
  }

  lemma {:induction false} ConcatMembers<T>(ss: seq<seq<T>>, x: T)
    ensures x in Concat(ss) <==> exists i :: 0 <= i < |ss| && x in ss[i]
  {
    if ss != [] {
      ConcatMembers(ss[1..], x);
      if x in Concat(ss[1..]) {
        var i :| 0 <= i < |ss[1..]| && x in ss[1..][i];
        assert x in ss[i + 1];
      }
      if i :| 0 <= i < |ss| && x in ss[i] {
        assert i > 0 ==> x in ss[1..][i - 1];
      }
    }
  }

  /** Concatenating columns or rows of a grid gives the same multiset. */
  lemma {:induction false} ConcatZip<T>(a: seq<seq<T>>, b: seq<seq<T>>, c: seq<seq<T>>)
    requires |a| == |b| == |c|
    requires forall i :: 0 <= i < |a| ==> c[i] == a[i] + b[i]
    ensures multiset(Concat(c)) == multiset(Concat(a)) + multiset(Concat(b))
  {
    if a != [] {
      ConcatZip(a[1..], b[1..], c[1..]);
    }
  }

  function Filter<T>(p: T -> bool, s: seq<T>): seq<T> {
    if s == [] then [] else (if p(s[0]) then [s[0]] else []) + Filter(p, s[1..])
  }

  lemma FilterMembers<T>(p: T -> bool, s: seq<T>)
    ensures forall x :: x in Filter(p, s) ==> x in s && p(x)
    ensures forall x :: x in s && p(x) ==> x in Filter(p, s)
  {}

  /** `pos` lists, in order, the positions of `s` at which `p` holds. */
  ghost predicate Positions<T>(p: T -> bool, s: seq<T>, pos: seq<nat>) {
    && (forall i :: 0 <= i < |pos| ==> pos[i] < |s| && p(s[pos[i]]))
    && (forall i, j :: 0 <= i < j < |pos| ==> pos[i] < pos[j])
    && (forall k: nat :: k < |s| && p(s[k]) ==> k in pos)
  }

  lemma {:induction false} PositionsSnoc<T>(p: T -> bool, s: seq<T>, x: T, pos: seq<nat>)
    requires Positions(p, s, pos)
    ensures Positions(p, s + [x], if p(x) then pos + [|s|] else pos)
  {
    var t, more := s + [x], if p(x) then pos + [|s|] else pos;
    assert t[|s|] == x && forall k :: 0 <= k < |s| ==> t[k] == s[k];
    assert forall i :: 0 <= i < |pos| ==> more[i] == pos[i];
    forall k: nat | k < |t| && p(t[k]) ensures k in more {
      if k == |s| { assert more[|pos|] == k; } else { assert p(s[k]) && k in pos; }
    }
  }

  /** Filtering keeps the elements at those positions, in order. */
  lemma {:induction false} FilterPositions<T>(p: T -> bool, s: seq<T>) returns (pos: seq<nat>)
    ensures Positions(p, s, pos) && |pos| == |Filter(p, s)|
    ensures forall i :: 0 <= i < |pos| ==> Filter(p, s)[i] == s[pos[i]]
  {
    pos := [];
    if s != [] {
      var init, x := s[..|s| - 1], s[|s| - 1];
      assert s == init + [x];
      FilterAppend(p, init, [x]);
      assert Filter(p, [x]) == if p(x) then [x] else [] by { assert |[x][1..]| == 0; }
      var before := FilterPositions(p, init);
      PositionsSnoc(p, init, x, before);
      pos := if p(x) then before + [|init|] else before;
    }
  }

  lemma {:induction false} FilterAppend<T>(p: T -> bool, a: seq<T>, b: seq<T>)
    ensures Filter(p, a + b) == Filter(p, a) + Filter(p, b)
  {
    if a == [] {
      assert a + b == b;
    } else {
      var head := if p(a[0]) then [a[0]] else [];
      FilterAppend(p, a[1..], b);
      assert (a + b)[1..] == a[1..] + b;
      assert Filter(p, a + b) == head + (Filter(p, a[1..]) + Filter(p, b));
      assert head + (Filter(p, a[1..]) + Filter(p, b)) == Filter(p, a) + Filter(p, b);
    }
  }

  lemma FilterKeepsAll<T>(p: T -> bool, s: seq<T>)
    requires forall i :: 0 <= i < |s| ==> p(s[i])
    ensures Filter(p, s) == s
  {}

  lemma FilterKeepsNone<T>(p: T -> bool, s: seq<T>)
    requires forall i :: 0 <= i < |s| ==> !p(s[i])
    ensures Filter(p, s) == []
  {}

  lemma {:induction false} FilterRemove<T>(p: T -> bool, b: seq<T>, k: nat)
    requires k < |b|
    ensures multiset(Filter(p, b)) == multiset(Filter(p, [b[k]])) + multiset(Filter(p, b[..k] + b[k + 1..]))
  {
    var front, back := b[..k], b[k + 1..];
    FilterAppend(p, front, back);
    FilterMiddle(p, front, b[k], back);
    assert b == front + ([b[k]] + back);
    MultisetMiddle(Filter(p, front), Filter(p, [b[k]]), Filter(p, back));
  }

  lemma {:induction false} FilterMiddle<T>(p: T -> bool, front: seq<T>, x: T, back: seq<T>)
    ensures Filter(p, front + ([x] + back)) == Filter(p, front) + (Filter(p, [x]) + Filter(p, back))
  {
    FilterAppend(p, front, [x] + back);
    FilterAppend(p, [x], back);
  }

  lemma MultisetMiddle<T>(a: seq<T>, b: seq<T>, c: seq<T>)
    ensures multiset(a + (b + c)) == multiset(b) + multiset(a + c)
  {}

  lemma {:induction false} FilterPermutation<T>(p: T -> bool, a: seq<T>, b: seq<T>)
    requires multiset(a) == multiset(b)
    ensures multiset(Filter(p, a)) == multiset(Filter(p, b))
  {
    if a == [] {
      assert |multiset(b)| == 0;
    } else {
      var k := Remove(a, b);
      FilterPermutation(p, a[1..], b[..k] + b[k + 1..]);
      FilterRemove(p, b, k);
      FilterRemove(p, a, 0);
      assert a[..0] + a[1..] == a[1..];
    }
  }

  function Map<T, U>(f: T -> U, s: seq<T>): (r: seq<U>)
    ensures |r| == |s|
    ensures forall i :: 0 <= i < |s| ==> r[i] == f(s[i])
  {
    if s == [] then [] else [f(s[0])] + Map(f, s[1..])
  }

  lemma MapAppend<T, U>(f: T -> U, a: seq<T>, b: seq<T>)
    ensures Map(f, a + b) == Map(f, a) + Map(f, b)
  {}

  lemma MapTake<T, U>(f: T -> U, s: seq<T>, n: nat)
    requires n <= |s|
    ensures Map(f, s)[..n] == Map(f, s[..n])
  {}

  lemma {:induction false} MapPermutation<T, U>(f: T -> U, a: seq<T>, b: seq<T>)
    requires multiset(a) == multiset(b)
    ensures multiset(Map(f, a)) == multiset(Map(f, b))
  {
    if a == [] {
      assert multiset(b) == multiset{};
      assert b == [];
    } else {
      var k := Remove(a, b);
      var rest := b[..k] + b[k + 1..];
      MapPermutation(f, a[1..], rest);
      MapAppend(f, b[..k], b[k + 1..]);
      MapAppend(f, b[..k], b[k..]);
      assert b == b[..k] + b[k..];
      assert b[k..][1..] == b[k + 1..];
    }
  }

  /** The first element of `a` sits somewhere in its permutation `b`; removing both leaves permutations. */
  lemma {:induction false} Remove<T>(a: seq<T>, b: seq<T>) returns (k: nat)
    requires a != [] && multiset(a) == multiset(b)
    ensures k < |b| && b[k] == a[0]
    ensures multiset(a[1..]) == multiset(b[..k] + b[k + 1..])
  {
    assert a[0] in multiset(b);
    k :| 0 <= k < |b| && b[k] == a[0];
    assert a == [a[0]] + a[1..];
    assert b == b[..k] + ([b[k]] + b[k + 1..]);
    assert multiset(b) == multiset(b[..k] + b[k + 1..]) + multiset{b[k]};
    assert multiset(a[1..]) == multiset(a) - multiset{a[0]};
  }

  lemma {:induction false} PermutationLength<T>(a: seq<T>, b: seq<T>)
    requires multiset(a) == multiset(b)
    ensures |a| == |b|
  {
    assert |multiset(a)| == |a| && |multiset(b)| == |b|;
  }

  function SumBy<T>(f: T -> int, s: seq<T>): int {
    if s == [] then 0 else f(s[0]) + SumBy(f, s[1..])
  }

  lemma {:induction false} SumByAppend<T>(f: T -> int, a: seq<T>, b: seq<T>)
    ensures SumBy(f, a + b) == SumBy(f, a) + SumBy(f, b)
  {
    if a == [] {
      assert a + b == b;
    } else {
      assert (a + b)[1..] == a[1..] + b;
      SumByAppend(f, a[1..], b);
    }
  }

  lemma {:induction false} SumByPermutation<T>(f: T -> int, a: seq<T>, b: seq<T>)
    requires multiset(a) == multiset(b)
    ensures SumBy(f, a) == SumBy(f, b)
  {
    if a == [] {
      assert |multiset(b)| == 0;
    } else {
      var k := Remove(a, b);
      SumByPermutation(f, a[1..], b[..k] + b[k + 1..]);
      SumByAppend(f, b[..k], b[k + 1..]);
      SumByAppend(f, b[..k], b[k..]);
      assert b == b[..k] + b[k..];
    }
  }

  function Id(x: int): int { x }

  function Sum(s: seq<int>): int {
    SumBy(Id, s)
  }

  lemma {:induction false} SumBySnoc<T>(f: T -> int, a: seq<T>, x: T)
    ensures SumBy(f, a + [x]) == SumBy(f, a) + f(x)
  {
    SumByAppend(f, a, [x]);
    assert SumBy(f, [x]) == f(x) + SumBy(f, []);
  }

  lemma {:induction false} SumByUpdate<T>(f: T -> int, s: seq<T>, i: nat, x: T)
    requires i < |s|
    ensures SumBy(f, s[i := x]) == SumBy(f, s) - f(s[i]) + f(x)
  {
    assert s == s[..i] + ([s[i]] + s[i + 1..]);
    assert s[i := x] == s[..i] + ([x] + s[i + 1..]);
    SumByAppend(f, s[..i], [s[i]] + s[i + 1..]);
    SumByAppend(f, s[..i], [x] + s[i + 1..]);
  }

  /** Pigeonhole: numbers that total more than `|xs|` times `c` include one above `c`. */
  lemma {:induction false} Pigeonhole(xs: seq<int>, c: int) returns (j: nat)
    requires Sum(xs) > |xs| * c
    ensures j < |xs| && xs[j] > c
  {
    if xs[0] > c {
      j := 0;
    } else {
      assert Sum(xs) == xs[0] + Sum(xs[1..]);
      j := Pigeonhole(xs[1..], c);
      j := j + 1;
    }
  }

  ghost predicate NoDups<T>(s: seq<T>) {
    forall i, j :: 0 <= i < j < |s| ==> s[i] != s[j]
  }

  function Elements<T>(s: seq<T>): set<T> {
    set x | x in s
  }

  /** A sequence has as many distinct elements as positions exactly when nothing repeats. */
  lemma {:induction false} DistinctCount<T>(s: seq<T>)
    ensures |Elements(s)| <= |s|
    ensures |Elements(s)| == |s| <==> NoDups(s)
  {
    if s != [] {
      var rest := s[..|s| - 1];
      var last := s[|s| - 1];
      DistinctCount(rest);
      assert Elements(s) == Elements(rest) + {last};
      if last in rest {
        assert Elements(s) == Elements(rest);
        var k :| 0 <= k < |rest| && rest[k] == last;
        assert s[k] == s[|s| - 1];
      } else {
        assert NoDups(s) <==> NoDups(rest);
      }
    }
  }

  lemma {:induction false} PermutationElements<T>(a: seq<T>, b: seq<T>)
    requires multiset(a) == multiset(b)
    ensures Elements(a) == Elements(b)
  {
    forall x | x in a ensures x in b { assert x in multiset(b); }
    forall x | x in b ensures x in a { assert x in multiset(a); }
  }

  lemma {:induction false} ElementsSnoc<T>(s: seq<T>)
    requires s != []
    ensures Elements(s) == Elements(s[..|s| - 1]) + {s[|s| - 1]}
    ensures NoDups(s) ==> NoDups(s[..|s| - 1]) && s[|s| - 1] !in Elements(s[..|s| - 1])
  {
    assert s == s[..|s| - 1] + [s[|s| - 1]];
  }

  lemma {:induction false} NoDupsMultiplicity<T>(s: seq<T>, x: T)
    requires NoDups(s)
    ensures multiset(s)[x] == if x in s then 1 else 0
  {
    if s != [] {
      assert s == [s[0]] + s[1..];
      NoDupsMultiplicity(s[1..], x);
    }
  }

  lemma {:induction false} RepeatMultiplicity<T>(s: seq<T>, i: nat, j: nat)
    requires i < j < |s| && s[i] == s[j]
    ensures multiset(s)[s[i]] >= 2
  {
    assert s == s[..j] + s[j..];
    assert s[i] in multiset(s[..j]) && s[j] in multiset(s[j..]);
  }

  lemma {:induction false} NoDupsFromMultiplicity<T>(s: seq<T>)
    requires forall x :: x in s ==> multiset(s)[x] <= 1
    ensures NoDups(s)
  {
    forall i, j | 0 <= i < j < |s| ensures s[i] != s[j] {
      if s[i] == s[j] {
        RepeatMultiplicity(s, i, j);
        assert false;
      }
    }
  }

  lemma {:induction false} NoDupsPermutation<T>(a: seq<T>, b: seq<T>)
    requires multiset(a) == multiset(b) && NoDups(a)
    ensures NoDups(b)
  {
    forall x | x in b ensures multiset(b)[x] <= 1 {
      NoDupsMultiplicity(a, x);
    }
    NoDupsFromMultiplicity(b);
  }

  lemma {:induction false} NoDupsAppend<T>(a: seq<T>, b: seq<T>)
    requires NoDups(a + b)
    ensures NoDups(a) && NoDups(b) && forall x :: x in a ==> x !in b
  {
    assert forall i :: 0 <= i < |a| ==> (a + b)[i] == a[i];
    assert forall i :: 0 <= i < |b| ==> (a + b)[|a| + i] == b[i];
  }

  /** In a concatenation without repeats, an element lives in one part only, and once. */
  lemma {:induction false} OnePart<T>(ss: seq<seq<T>>, i: nat, j: nat, x: T)
    requires NoDups(Concat(ss))
    requires i < |ss| && j < |ss| && x in ss[i] && x in ss[j]
    ensures i == j && NoDups(ss[i])
  {
    NoDupsAppend(ss[0], Concat(ss[1..]));
    if i == 0 && j == 0 {
    } else if i == 0 {
      assert ss[1..][j - 1] == ss[j];
      ConcatMembers(ss[1..], x);
    } else if j == 0 {
      assert ss[1..][i - 1] == ss[i];
      ConcatMembers(ss[1..], x);
    } else {
      OnePart(ss[1..], i - 1, j - 1, x);
    }
  }
}
