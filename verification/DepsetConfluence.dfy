/** Why the order of execution does not matter: depsets that may touch the same file are always ordered. */
module DepsetConfluence {
  import opened Seqs
  import opened BuildGraphs
  import opened BuildOrders
  import opened Depsets
  import opened DepsetExecution

  ghost predicate IsDepset(g: DepGraph, n: string) {
    n in g.attrs && g.attrs[n].DepsetNode?
  }

  ghost function NodeReads(s: Setup, g: DepGraph, n: string): set<string> {
    if IsDepset(g, n) then Reads(s.config, g.attrs[n].depset, s.cacheDir) else {}
  }

  ghost function NodeWrites(s: Setup, g: DepGraph, n: string): Option<string> {
    if IsDepset(g, n) then Writes(s.config, g.attrs[n].depset) else None
  }

  /** `x` writes a file that `y` reads or writes. */
  ghost predicate Interferes(s: Setup, g: DepGraph, x: string, y: string) {
    var w := NodeWrites(s, g, x);
    w.Some? && (w.value in NodeReads(s, g, y) || w == NodeWrites(s, g, y))
  }

  ghost predicate Conflict(s: Setup, g: DepGraph, x: string, y: string) {
    Interferes(s, g, x, y) || Interferes(s, g, y, x)
  }

  /** Nodes that touch the same file are ordered by the graph. */
  ghost predicate Orderly(s: Setup, g: DepGraph, nodes: set<string>) {
    forall x, y :: x in nodes && y in nodes && x != y && Conflict(s, g, x, y) ==> Comparable(g, x, y)
  }

  ghost predicate SameAt(a: Files, b: Files, p: string) {
    (p in a <==> p in b) && (p in a ==> a[p] == b[p])
  }

  lemma VisibleSame(a: Files, b: Files, paths: set<string>)
    requires forall p :: p in paths ==> SameAt(a, b, p)
    ensures Visible(a, paths) == Visible(b, paths)
  {}

  // ----- Runs -----

  ghost function Then(s: Setup, g: DepGraph, before: Option<Files>, n: string): Option<Files> {
    if before.None? then None else Visit(s, g, n, before.value)
  }

  lemma {:induction false} RunThen(s: Setup, g: DepGraph, order: seq<string>, n: string, files: Files)
    ensures Run(s, g, order + [n], files) == Then(s, g, Run(s, g, order, files), n)
  {
    assert (order + [n])[..|order|] == order;
  }

  lemma {:induction false} VisitLeaves(s: Setup, g: DepGraph, n: string, files: Files, p: string)
    requires Visit(s, g, n, files).Some? && NodeWrites(s, g, n) != Some(p)
    ensures SameAt(Visit(s, g, n, files).value, files, p)
  {}

  /** A run changes no file but those its depsets write, from any point of the run on. */
  lemma {:induction false} RunUnwritten(s: Setup, g: DepGraph, order: seq<string>, k: nat, files: Files, p: string)
    requires k <= |order| && Run(s, g, order, files).Some?
    requires forall i :: k <= i < |order| ==> NodeWrites(s, g, order[i]) != Some(p)
    ensures Run(s, g, order[..k], files).Some?
    ensures SameAt(Run(s, g, order, files).value, Run(s, g, order[..k], files).value, p)
  {
    if k == |order| {
      assert order[..k] == order;
    } else {
      var init, n := order[..|order| - 1], order[|order| - 1];
      assert init[..k] == order[..k];
      RunUnwritten(s, g, init, k, files, p);
      VisitLeaves(s, g, n, Run(s, g, init, files).value, p);
    }
  }

  /** Visiting two nodes that do not conflict gives the same in either order, failures included. */
  lemma {:induction false} VisitsCommute(s: Setup, g: DepGraph, x: string, y: string, files: Files)
    requires !Conflict(s, g, x, y)
    ensures Then(s, g, Visit(s, g, x, files), y) == Then(s, g, Visit(s, g, y, files), x)
  {
    if IsDepset(g, x) && IsDepset(g, y) {
      StepsCommute(s, g.attrs[x].depset, g.attrs[y].depset, files);
    }
  }

  lemma {:induction false} ResultUnaffected(s: Setup, d: Depset, e: Depset, files: Files)
    requires Step(s, d, files).Some?
    requires Writes(s.config, d).Some? ==> Writes(s.config, d).value !in Reads(s.config, e, s.cacheDir)
    ensures Result(s, e, Step(s, d, files).value) == Result(s, e, files)
  {
    VisibleSame(Step(s, d, files).value, files, Reads(s.config, e, s.cacheDir));
  }

  ghost predicate Independent(s: Setup, d: Depset, e: Depset) {
    var w, v := Writes(s.config, d), Writes(s.config, e);
    && (w.Some? ==> w.value !in Reads(s.config, e, s.cacheDir) && w != v)
    && (v.Some? ==> v.value !in Reads(s.config, d, s.cacheDir))
  }

  lemma PutsCommute(files: Files, w: Option<string>, x: string, v: Option<string>, y: string)
    requires w.Some? ==> w != v
    ensures Put(Put(files, w, x), v, y) == Put(Put(files, v, y), w, x)
  {}

  lemma {:induction false} SecondStep(s: Setup, d: Depset, e: Depset, files: Files)
    requires Step(s, d, files).Some?
    requires Writes(s.config, d).Some? ==> Writes(s.config, d).value !in Reads(s.config, e, s.cacheDir)
    ensures Step(s, e, Step(s, d, files).value) ==
            var r := Result(s, e, files);
            if r.None? then None else Some(Put(Step(s, d, files).value, Writes(s.config, e), r.value))
  {
    ResultUnaffected(s, d, e, files);
  }

  lemma {:induction false} StepsCommute(s: Setup, d: Depset, e: Depset, files: Files)
    requires Independent(s, d, e)
    ensures var first, other := Step(s, d, files), Step(s, e, files);
            (if first.None? then None else Step(s, e, first.value))
            == if other.None? then None else Step(s, d, other.value)
  {
    var x, y := Result(s, d, files), Result(s, e, files);
    if x.Some? { SecondStep(s, d, e, files); }
    if y.Some? { SecondStep(s, e, d, files); }
    if x.Some? && y.Some? { PutsCommute(files, Writes(s.config, d), x.value, Writes(s.config, e), y.value); }
  }

  // ----- Confluence -----

  /** A node that conflicts with nothing after it may as well be visited last. */
  lemma {:induction false} MoveLast(s: Setup, g: DepGraph, pre: seq<string>, x: string, post: seq<string>, files: Files)
    requires forall i :: 0 <= i < |post| ==> !Conflict(s, g, x, post[i])
    ensures Run(s, g, pre + [x] + post, files) == Run(s, g, pre + post + [x], files)
  {
    if post == [] {
      assert pre + [x] + post == pre + [x] == pre + post + [x];
    } else {
      var init, z := post[..|post| - 1], post[|post| - 1];
      MoveLast(s, g, pre, x, init, files);
      assert pre + [x] + post == pre + [x] + init + [z];
      assert pre + post == pre + init + [z];
      var before := Run(s, g, pre + init, files);
      RunThen(s, g, pre + [x] + init, z, files);
      RunThen(s, g, pre + init, x, files);
      RunThen(s, g, pre + init, z, files);
      RunThen(s, g, pre + post, x, files);
      if before.Some? { VisitsCommute(s, g, x, z, before.value); }
    }
  }

  lemma {:induction false} NoConflictAfter(s: Setup, g: DepGraph, a: seq<string>, b: seq<string>, k: nat, j: nat)
    requires WellFormed(g) && Orderly(s, g, Elements(a)) && a != []
    requires Ordered(g, a) && Ordered(g, b) && Elements(a) == Elements(b)
    requires k < j < |b| && b[k] == a[|a| - 1]
    ensures !Conflict(s, g, b[k], b[j])
  {
    FollowersIncomparable(g, a, b, k, j);
    assert b[k] in Elements(b) && b[j] in Elements(b) && b[k] != b[j];
  }

  lemma {:induction false} MoveToEnd(s: Setup, g: DepGraph, b: seq<string>, k: nat, files: Files)
    requires k < |b| && forall j :: k < j < |b| ==> !Conflict(s, g, b[k], b[j])
    ensures Run(s, g, b, files) == Then(s, g, Run(s, g, Without(b, k), files), b[k])
  {
    MoveLast(s, g, b[..k], b[k], b[k + 1..], files);
    assert b == b[..k] + [b[k]] + b[k + 1..];
    RunThen(s, g, Without(b, k), b[k], files);
  }

  lemma {:induction false} SameLast(s: Setup, g: DepGraph, a: seq<string>, b: seq<string>, k: nat, files: Files)
    requires WellFormed(g) && Orderly(s, g, Elements(a)) && a != []
    requires Ordered(g, a) && Ordered(g, b) && Elements(a) == Elements(b)
    requires k < |b| && b[k] == a[|a| - 1]
    requires Run(s, g, a[..|a| - 1], files) == Run(s, g, Without(b, k), files)
    ensures Run(s, g, a, files) == Run(s, g, b, files)
  {
    forall j | k < j < |b| ensures !Conflict(s, g, b[k], b[j]) {
      NoConflictAfter(s, g, a, b, k, j);
    }
    MoveToEnd(s, g, b, k, files);
  }

  lemma {:induction false} OrderlyPart(s: Setup, g: DepGraph, nodes: set<string>, part: set<string>)
    requires Orderly(s, g, nodes) && part <= nodes
    ensures Orderly(s, g, part)
  {
    forall x, y | x in part && y in part && x != y && Conflict(s, g, x, y) ensures Comparable(g, x, y) {
      assert x in nodes && y in nodes;
    }
  }

  lemma {:induction false} OrderlyInit(s: Setup, g: DepGraph, a: seq<string>)
    requires WellFormed(g) && a != [] && Ordered(g, a) && Orderly(s, g, Elements(a))
    ensures Ordered(g, a[..|a| - 1]) && Orderly(s, g, Elements(a[..|a| - 1]))
  {
    OrderedPrefix(g, a, |a| - 1);
    ElementsSnoc(a);
    OrderlyPart(s, g, Elements(a), Elements(a[..|a| - 1]));
  }

  /** Confluence: any two topological orders of the same nodes leave the same files or both fail. */
  lemma {:induction false} Confluence(s: Setup, g: DepGraph, a: seq<string>, b: seq<string>, files: Files)
    requires WellFormed(g) && Orderly(s, g, Elements(a))
    requires Ordered(g, a) && Ordered(g, b) && Elements(a) == Elements(b)
    ensures Run(s, g, a, files) == Run(s, g, b, files)
    decreases |a|
  {
    if a == [] {
      DistinctCount(b);
    } else {
      assert a[|a| - 1] in Elements(a);
      var k := PositionOf(b, a[|a| - 1]);
      OrderedWithout(g, a, b, k);
      OrderlyInit(s, g, a);
      Confluence(s, g, a[..|a| - 1], Without(b, k), files);
      SameLast(s, g, a, b, k, files);
    }
  }

  // ----- Building part of the graph -----

  lemma {:induction false} RunInPart(s: Setup, g: DepGraph, keep: set<string>, order: seq<string>, files: Files)
    requires Elements(order) <= keep
    ensures Run(s, Subgraph(g, keep), order, files) == Run(s, g, order, files)
  {
    if order != [] {
      ElementsSnoc(order);
      RunInPart(s, g, keep, order[..|order| - 1], files);
      assert order[|order| - 1] in keep;
    }
  }

  ghost predicate WritesNone(s: Setup, g: DepGraph, nodes: set<string>, p: string) {
    forall n :: n in nodes ==> NodeWrites(s, g, n) != Some(p)
  }

  /** Whatever follows `part` in a complete order, a file written by none of it is as `part` left it. */
  lemma {:induction false} PartDecides(s: Setup, g: DepGraph, part: seq<string>, more: seq<string>, files: Files,
                                       p: string)
    requires Ordered(g, part + more) && Run(s, g, part + more, files).Some?
    requires WritesNone(s, g, Elements(part + more) - Elements(part), p)
    ensures Run(s, g, part, files).Some?
    ensures SameAt(Run(s, g, part, files).value, Run(s, g, part + more, files).value, p)
  {
    var order := part + more;
    assert order[..|part|] == part;
    forall i | |part| <= i < |order| ensures NodeWrites(s, g, order[i]) != Some(p) {
      assert order[i] in Elements(order);
      assert order[i] !in Elements(part);
    }
    RunUnwritten(s, g, order, |part|, files, p);
  }

  lemma {:induction false} PrefixSucceeds(s: Setup, g: DepGraph, part: seq<string>, more: seq<string>, files: Files)
    requires Run(s, g, part + more, files).Some?
    ensures Run(s, g, part, files).Some?
  {
    if more == [] {
      assert part + more == part;
    } else {
      var init, n := more[..|more| - 1], more[|more| - 1];
      assert part + more == part + init + [n];
      RunThen(s, g, part + init, n, files);
      PrefixSucceeds(s, g, part, init, files);
    }
  }

  /**
   * When the full build succeeds, building some targets with only their ancestors succeeds too, and
   * leaves the same content in every file that no other depset of the graph writes.
   */
  lemma {:induction false} PartialBuild(s: Setup, g: DepGraph, full: seq<string>, targets: set<string>,
                                        part: seq<string>, files: Files)
    requires WellFormed(g) && Orderly(s, g, g.nodes) && targets <= g.nodes
    requires Ordered(g, full) && Elements(full) == g.nodes && Run(s, g, full, files).Some?
    requires Ordered(Subgraph(g, WithAncestors(g, targets)), part) && Elements(part) == WithAncestors(g, targets)
    ensures Run(s, Subgraph(g, WithAncestors(g, targets)), part, files).Some?
    ensures forall p :: WritesNone(s, g, g.nodes - WithAncestors(g, targets), p) ==>
              SameAt(Run(s, Subgraph(g, WithAncestors(g, targets)), part, files).value, Run(s, g, full, files).value, p)
  {
    var keep := WithAncestors(g, targets);
    WithAncestorsIsLeast(g, targets, {});
    OrderedPart(g, keep, part);
    FullOrderAcyclic(g, full);
    var more := CompleteOrder(g, part, g.nodes);
    Confluence(s, g, full, part + more, files);
    RunInPart(s, g, keep, part, files);
    PrefixSucceeds(s, g, part, more, files);
    forall p | WritesNone(s, g, g.nodes - keep, p)
      ensures SameAt(Run(s, g, part, files).value, Run(s, g, full, files).value, p)
    {
      PartDecides(s, g, part, more, files, p);
    }
  }

  // ----- Lock files are up to date -----

  /** `files` with the initial content (or absence) of `p` put back. */
  ghost function Restored(files: Files, initial: Files, p: string): Files {
    if p in initial then files[p := initial[p]] else files - {p}
  }

  /** No other node writes what the k-th one writes, and those that write what it reads come before it. */
  ghost predicate FedByAncestors(s: Setup, g: DepGraph, order: seq<string>, k: nat)
    requires k < |order|
  {
    forall i :: 0 <= i < |order| && i != k && NodeWrites(s, g, order[i]).Some? ==>
      && NodeWrites(s, g, order[i]) != NodeWrites(s, g, order[k])
      && (NodeWrites(s, g, order[i]).value in NodeReads(s, g, order[k]) ==> Reaches(g, order[i], order[k]))
  }

  lemma {:induction false} WrittenBefore(s: Setup, g: DepGraph, order: seq<string>, k: nat, p: string)
    requires WellFormed(g) && Ordered(g, order) && k < |order| && FedByAncestors(s, g, order, k)
    requires p in NodeReads(s, g, order[k]) && NodeWrites(s, g, order[k]) != Some(p)
    ensures forall i :: k <= i < |order| ==> NodeWrites(s, g, order[i]) != Some(p)
  {
    forall i | k <= i < |order| ensures NodeWrites(s, g, order[i]) != Some(p) {
      if i != k && NodeWrites(s, g, order[i]) == Some(p) { ReachesBefore(g, order, i, k); }
    }
  }

  lemma {:induction false} PartsSucceed(s: Setup, g: DepGraph, order: seq<string>, k: nat, files: Files)
    requires k <= |order| && Run(s, g, order, files).Some?
    ensures Run(s, g, order[..k], files).Some?
  {
    assert order[..k] + order[k..] == order;
    PrefixSucceeds(s, g, order[..k], order[k..], files);
  }

  lemma {:induction false} InputStays(s: Setup, g: DepGraph, order: seq<string>, k: nat, initial: Files, out: string,
                                      p: string)
    requires WellFormed(g) && Ordered(g, order) && k < |order| && FedByAncestors(s, g, order, k)
    requires Run(s, g, order, initial).Some? && Run(s, g, order[..k], initial).Some?
    requires NodeWrites(s, g, order[k]) == Some(out) && p in NodeReads(s, g, order[k])
    ensures SameAt(Run(s, g, order[..k], initial).value, Restored(Run(s, g, order, initial).value, initial, out), p)
  {
    if p == out {
      RunUnwritten(s, g, order[..k], 0, initial, p);
    } else {
      WrittenBefore(s, g, order, k, p);
      RunUnwritten(s, g, order, k, initial, p);
    }
  }

  lemma {:induction false} OutputStays(s: Setup, g: DepGraph, order: seq<string>, k: nat, initial: Files, out: string)
    requires k < |order| && FedByAncestors(s, g, order, k)
    requires Run(s, g, order, initial).Some? && Run(s, g, order[..k], initial).Some?
    requires NodeWrites(s, g, order[k]) == Some(out)
    ensures var files := Run(s, g, order, initial).value;
            && out in files
            && Result(s, g.attrs[order[k]].depset, Run(s, g, order[..k], initial).value) == Some(files[out])
  {
    PartsSucceed(s, g, order, k + 1, initial);
    assert order[..k + 1] == order[..k] + [order[k]];
    RunThen(s, g, order[..k], order[k], initial);
    RunUnwritten(s, g, order, k + 1, initial, out);
  }

  /**
   * After a successful run, a lock file is what its depset makes of the final files, its own output put
   * back to its initial version.
   */
  lemma {:induction false} RunSettles(s: Setup, g: DepGraph, order: seq<string>, k: nat, initial: Files, out: string)
    requires WellFormed(g) && Ordered(g, order) && k < |order| && FedByAncestors(s, g, order, k)
    requires Run(s, g, order, initial).Some? && NodeWrites(s, g, order[k]) == Some(out)
    ensures var files := Run(s, g, order, initial).value;
            out in files && Result(s, g.attrs[order[k]].depset, Restored(files, initial, out)) == Some(files[out])
  {
    PartsSucceed(s, g, order, k, initial);
    OutputStays(s, g, order, k, initial, out);
    var before, after := Run(s, g, order[..k], initial).value, Restored(Run(s, g, order, initial).value, initial, out);
    forall p | p in NodeReads(s, g, order[k]) ensures SameAt(before, after, p) {
      InputStays(s, g, order, k, initial, out, p);
    }
    VisibleSame(before, after, NodeReads(s, g, order[k]));
  }
}
