/** Temporal train/val/test splits of a transaction table (tfm_repo/scripts/create_temporal_splits.py). */
module TemporalSplits {
  import opened Seqs
  import opened Sorting
  import opened StringOrder
  import opened Dates

  datatype Row = Row(year: nat, month: nat, day: nat, fraud: bool, fields: string) {
    function Date(): string {
      DateString(year, month, day)
    }
  }

  function DateOf(r: Row): string { r.Date() }

  /** The distinct dates of a table. */
  function DatesOf(rows: seq<Row>): set<string> {
    Elements(Map(DateOf, rows))
  }

  lemma {:induction false} DatesMember(rows: seq<Row>, d: string)
    ensures d in DatesOf(rows) <==> exists r :: r in rows && r.Date() == d
  {
    var dates := Map(DateOf, rows);
    if d in dates {
      var i :| 0 <= i < |rows| && dates[i] == d;
      assert rows[i] in rows && rows[i].Date() == d;
    }
    if r :| r in rows && r.Date() == d {
      var i :| 0 <= i < |rows| && rows[i] == r;
      assert dates[i] == d;
    }
  }

  function On(d: string): Row -> bool { (r: Row) => r.Date() == d }
  function Before(d: string): Row -> bool { (r: Row) => StrLt(r.Date(), d) }
  function UpTo(d: string): Row -> bool { (r: Row) => StrLe(r.Date(), d) }
  function Among(ds: set<string>): Row -> bool { (r: Row) => r.Date() in ds }

  // ----- Daily counts -----

  function CountOn(rows: seq<Row>, d: string): int {
    |Filter(On(d), rows)|
  }

  function DailyCounts(rows: seq<Row>): map<string, int> {
    map d | d in DatesOf(rows) :: CountOn(rows, d)
  }

  /** `counts[value] += count` on a `Counter`. */
  function Bump(counts: map<string, int>, d: string, n: int): map<string, int> {
    counts[d := (if d in counts then counts[d] else 0) + n]
  }

  lemma {:induction false} FilterOne(rows: seq<Row>, ds: set<string>, d: string)
    requires d !in ds
    ensures |Filter(Among(ds + {d}), rows)| == |Filter(Among(ds), rows)| + CountOn(rows, d)
  {
    if rows != [] {
      FilterOne(rows[1..], ds, d);
    }
  }

  lemma {:induction false} AmongAll(rows: seq<Row>)
    ensures Filter(Among(DatesOf(rows)), rows) == rows
  {
    forall i | 0 <= i < |rows| ensures Among(DatesOf(rows))(rows[i]) {
      assert rows[i] in rows;
      DatesMember(rows, rows[i].Date());
    }
    FilterKeepsAll(Among(DatesOf(rows)), rows);
  }

  function Count(counts: map<string, int>, d: string): int {
    if d in counts then counts[d] else 0
  }

  /** The accumulators of `compute_daily_counts`. */
  datatype Tally = Tally(counts: map<string, int>, total: int)

  /** The tally has absorbed the rows seen before and those of the batch dated in `done`. */
  ghost predicate Absorbed(t: Tally, seen: seq<Row>, batch: seq<Row>, done: set<string>) {
    && t.counts.Keys == DatesOf(seen) + done
    && t.total == |seen| + |Filter(Among(done), batch)|
    && forall d :: Count(t.counts, d) == CountOn(seen, d) + (if d in done then CountOn(batch, d) else 0)
  }

  lemma {:induction false} CountZero(rows: seq<Row>, d: string)
    ensures CountOn(rows, d) == 0 <==> d !in DatesOf(rows)
  {
    FilterMembers(On(d), rows);
    DatesMember(rows, d);
    if CountOn(rows, d) > 0 {
      assert Filter(On(d), rows)[0] in Filter(On(d), rows);
    }
  }

  function TallyOf(rows: seq<Row>): Tally {
    Tally(DailyCounts(rows), |rows|)
  }

  lemma {:induction false} AbsorbStart(seen: seq<Row>, batch: seq<Row>)
    ensures Absorbed(TallyOf(seen), seen, batch, {})
  {
    FilterKeepsNone(Among({}), batch);
    forall d ensures Count(DailyCounts(seen), d) == CountOn(seen, d) {
      CountZero(seen, d);
    }
  }

  /** `counts[value] += count; total += count` for one date of the batch. */
  function AddDate(t: Tally, batch: seq<Row>, d: string): Tally {
    Tally(Bump(t.counts, d, CountOn(batch, d)), t.total + CountOn(batch, d))
  }

  lemma {:induction false} AbsorbStep(t: Tally, seen: seq<Row>, batch: seq<Row>, done: set<string>, d: string)
    requires Absorbed(t, seen, batch, done) && d !in done
    ensures Absorbed(AddDate(t, batch, d), seen, batch, done + {d})
  {
    FilterOne(batch, done, d);
  }

  lemma {:induction false} AbsorbEnd(t: Tally, seen: seq<Row>, batch: seq<Row>)
    requires Absorbed(t, seen, batch, DatesOf(batch))
    ensures t == TallyOf(seen + batch)
  {
    AmongAll(batch);
    DatesAppend(seen, batch);
    forall d | d in t.counts ensures t.counts[d] == CountOn(seen + batch, d) {
      CountAppend(t.counts, seen, batch, d);
    }
  }

  lemma {:induction false} CountAppend(counts: map<string, int>, seen: seq<Row>, batch: seq<Row>, d: string)
    requires Count(counts, d) == CountOn(seen, d) + (if d in DatesOf(batch) then CountOn(batch, d) else 0)
    ensures Count(counts, d) == CountOn(seen + batch, d)
  {
    CountZero(batch, d);
    FilterAppend(On(d), seen, batch);
  }

  /** The values of `pc.value_counts`: distinct, in order of first appearance. */
  function Distinct(s: seq<string>): seq<string> {
    if s == [] then []
    else
      var before := Distinct(s[..|s| - 1]);
      if s[|s| - 1] in before then before else before + [s[|s| - 1]]
  }

  lemma {:induction false} DistinctFacts(s: seq<string>)
    ensures NoDups(Distinct(s)) && Elements(Distinct(s)) == Elements(s)
  {
    if s != [] {
      var init, x := s[..|s| - 1], s[|s| - 1];
      DistinctFacts(init);
      assert Elements(s) == Elements(init) + {x};
      assert x in Distinct(init) <==> x in Elements(Distinct(init));
      assert Elements(Distinct(init) + [x]) == Elements(Distinct(init)) + {x};
    }
  }

  function AddDates(t: Tally, batch: seq<Row>, ds: seq<string>): Tally {
    if ds == [] then t else AddDate(AddDates(t, batch, ds[..|ds| - 1]), batch, ds[|ds| - 1])
  }

  lemma {:induction false} AddAbsorbs(t: Tally, seen: seq<Row>, batch: seq<Row>, ds: seq<string>)
    requires Absorbed(t, seen, batch, {}) && NoDups(ds)
    ensures Absorbed(AddDates(t, batch, ds), seen, batch, Elements(ds))
  {
    if ds == [] {
      assert Elements(ds) == {};
    } else {
      var init, d := ds[..|ds| - 1], ds[|ds| - 1];
      ElementsSnoc(ds);
      AddAbsorbs(t, seen, batch, init);
      AbsorbStep(AddDates(t, batch, init), seen, batch, Elements(init), d);
    }
  }

  function Values(batch: seq<Row>): seq<string> {
    Distinct(Map(DateOf, batch))
  }

  /** Adding a batch's value counts tallies the rows seen before followed by the batch. */
  lemma {:induction false} BatchTallied(seen: seq<Row>, batch: seq<Row>)
    ensures AddDates(TallyOf(seen), batch, Values(batch)) == TallyOf(seen + batch)
  {
    DistinctFacts(Map(DateOf, batch));
    AbsorbStart(seen, batch);
    AddAbsorbs(TallyOf(seen), seen, batch, Values(batch));
    AbsorbEnd(AddDates(TallyOf(seen), batch, Values(batch)), seen, batch);
  }

  /** The loop over the value counts of one batch. */
  method AddBatch(start: Tally, batch: seq<Row>, values: seq<string>) returns (t: Tally)
    ensures t == AddDates(start, batch, values)
  {
    t := start;
    for i := 0 to |values|
      invariant t == AddDates(start, batch, values[..i])
    {
      assert values[..i + 1][..i] == values[..i];
      t := AddDate(t, batch, values[i]);
    }
    assert values[..|values|] == values;
  }

  lemma {:induction false} DatesAppend(a: seq<Row>, b: seq<Row>)
    ensures DatesOf(a + b) == DatesOf(a) + DatesOf(b)
  {
    MapAppend(DateOf, a, b);
  }

  /** The counts and the total depend on the rows alone, not on how they come in batches. */
  method ComputeDailyCounts(batches: seq<seq<Row>>) returns (t: Tally)
    ensures t == TallyOf(Concat(batches))
  {
    t := Tally(map[], 0);
    for i := 0 to |batches|
      invariant t == TallyOf(Concat(batches[..i]))
    {
      ConcatSnoc(batches[..i], batches[i]);
      assert batches[..i + 1] == batches[..i] + [batches[i]];
      BatchTallied(Concat(batches[..i]), batches[i]);
      t := AddBatch(t, batches[i], Values(batches[i]));
    }
    assert batches[..|batches|] == batches;
  }

  // ----- Cutoffs -----

  function CountIn(counts: map<string, int>): string -> int {
    d => Count(counts, d)
  }

  function Cumulative(counts: map<string, int>, dates: seq<string>): int {
    SumBy(CountIn(counts), dates)
  }

  /** The first date at which the cumulative count reaches `target`. */
  function FirstReaching(counts: map<string, int>, dates: seq<string>, target: real): Option<string> {
    if dates == [] then None
    else
      var earlier := FirstReaching(counts, dates[..|dates| - 1], target);
      if earlier.Some? then earlier
      else if Cumulative(counts, dates) as real >= target then Some(dates[|dates| - 1])
      else None
  }

  lemma {:induction false} FirstStays(counts: map<string, int>, dates: seq<string>, k: nat, target: real)
    requires k <= |dates| && FirstReaching(counts, dates[..k], target).Some?
    ensures FirstReaching(counts, dates, target) == FirstReaching(counts, dates[..k], target)
    decreases |dates| - k
  {
    if k == |dates| {
      assert dates[..k] == dates;
    } else {
      assert dates[..k + 1][..k] == dates[..k];
      FirstStays(counts, dates, k + 1, target);
    }
  }

  lemma {:induction false} FirstStep(counts: map<string, int>, dates: seq<string>, k: nat, target: real)
    requires k < |dates|
    ensures Cumulative(counts, dates[..k + 1]) == Cumulative(counts, dates[..k]) + Count(counts, dates[k])
    ensures FirstReaching(counts, dates[..k + 1], target) ==
            var earlier := FirstReaching(counts, dates[..k], target);
            if earlier.Some? then earlier
            else if Cumulative(counts, dates[..k + 1]) as real >= target then Some(dates[k])
            else None
  {
    assert dates[..k + 1][..k] == dates[..k];
    SumBySnoc(CountIn(counts), dates[..k], dates[k]);
    assert dates[..k + 1] == dates[..k] + [dates[k]];
  }

  datatype Cutoffs = Cutoffs(train: string, test: string)

  /** The loop of `cutoffs_from_counts` over the sorted dates; `None` where it raises. */
  method ScanCutoffs(counts: map<string, int>, dates: seq<string>, trainTarget: real, testTarget: real)
    returns (r: Option<Cutoffs>)
    requires trainTarget <= testTarget
    ensures r == (var train := FirstReaching(counts, dates, trainTarget);
                  var test := FirstReaching(counts, dates, testTarget);
                  if train.Some? && test.Some? then Some(Cutoffs(train.value, test.value)) else None)
  {
    var cumulative := 0;
    var trainCut: Option<string>, testCut: Option<string> := None, None;
    for k := 0 to |dates|
      invariant cumulative == Cumulative(counts, dates[..k])
      invariant trainCut == FirstReaching(counts, dates[..k], trainTarget)
      invariant testCut == FirstReaching(counts, dates[..k], testTarget) == None
    {
      FirstStep(counts, dates, k, trainTarget);
      FirstStep(counts, dates, k, testTarget);
      cumulative := cumulative + Count(counts, dates[k]);
      if trainCut.None? && cumulative as real >= trainTarget {
        trainCut := Some(dates[k]);
      }
      if testCut.None? && cumulative as real >= testTarget {
        testCut := Some(dates[k]);
        FirstStays(counts, dates, k + 1, trainTarget);
        FirstStays(counts, dates, k + 1, testTarget);
        return Some(Cutoffs(trainCut.value, testCut.value));
      }
    }
    assert dates[..|dates|] == dates;
    r := None;
  }

  /** The keys of a dictionary as a list. */
  method ListKeys(m: map<string, int>) returns (keys: seq<string>)
    ensures NoDups(keys) && Elements(keys) == m.Keys
  {
    keys := [];
    var left := m.Keys;
    while left != {}
      invariant NoDups(keys) && Elements(keys) == m.Keys - left && left <= m.Keys
      decreases |left|
    {
      var k :| k in left;
      assert k !in Elements(keys);
      assert Elements(keys + [k]) == Elements(keys) + {k};
      keys, left := keys + [k], left - {k};
    }
  }

  function RowCount(p: Row -> bool, rows: seq<Row>): int {
    |Filter(p, rows)|
  }

  /** At least `target` rows are dated `d` or earlier. */
  predicate Reached(rows: seq<Row>, target: real, d: string) {
    RowCount(UpTo(d), rows) as real >= target
  }

  /** `c` is the least date of the table at which `target` rows are reached. */
  ghost predicate IsCut(rows: seq<Row>, target: real, c: string) {
    && c in DatesOf(rows) && Reached(rows, target, c)
    && forall d :: d in DatesOf(rows) && StrLt(d, c) ==> !Reached(rows, target, d)
  }

  lemma {:induction false} CutUnique(rows: seq<Row>, target: real, a: string, b: string)
    requires IsCut(rows, target, a) && IsCut(rows, target, b)
    ensures a == b
  {
    StrTrichotomy(a, b);
  }

  lemma {:induction false} FilterSame(p: Row -> bool, q: Row -> bool, rows: seq<Row>)
    requires forall i :: 0 <= i < |rows| ==> p(rows[i]) == q(rows[i])
    ensures Filter(p, rows) == Filter(q, rows)
  {
    if rows != [] {
      FilterSame(p, q, rows[1..]);
    }
  }

  /** The dates of a table, each once, in order. */
  ghost predicate SortedDates(rows: seq<Row>, dates: seq<string>) {
    NoDups(dates) && Elements(dates) == DatesOf(rows) && Sorted(StrLe, dates)
  }

  lemma {:induction false} CumulativeAmong(counts: map<string, int>, rows: seq<Row>, dates: seq<string>)
    requires NoDups(dates) && forall k :: 0 <= k < |dates| ==> Count(counts, dates[k]) == CountOn(rows, dates[k])
    ensures Cumulative(counts, dates) == RowCount(Among(Elements(dates)), rows)
  {
    if dates == [] {
      FilterKeepsNone(Among(Elements(dates)), rows);
    } else {
      var init, d := dates[..|dates| - 1], dates[|dates| - 1];
      ElementsSnoc(dates);
      CumulativeAmong(counts, rows, init);
      FilterOne(rows, Elements(init), d);
      SumBySnoc(CountIn(counts), init, d);
      assert dates == init + [d];
    }
  }

  lemma {:induction false} PrefixIsUpTo(rows: seq<Row>, dates: seq<string>, k: nat, d: string)
    requires SortedDates(rows, dates) && k < |dates| && d in DatesOf(rows)
    ensures d in Elements(dates[..k + 1]) <==> StrLe(d, dates[k])
  {
    assert d in Elements(dates);
    var j :| 0 <= j < |dates| && dates[j] == d;
    if j <= k {
      assert dates[..k + 1][j] == d;
      assert j < k ==> StrLe(dates[j], dates[k]);
    } else {
      assert StrLe(dates[k], dates[j]) && dates[k] != dates[j];
      StrTrichotomy(dates[k], dates[j]);
      var head := dates[..k + 1];
      forall i | 0 <= i < |head| ensures head[i] != d { assert dates[i] != dates[j]; }
    }
  }

  /** The running sum at the k-th sorted date is the number of rows dated up to it. */
  lemma {:induction false} CumulativeUpTo(rows: seq<Row>, dates: seq<string>, k: nat)
    requires SortedDates(rows, dates) && k < |dates|
    ensures Cumulative(DailyCounts(rows), dates[..k + 1]) == RowCount(UpTo(dates[k]), rows)
  {
    var prefix := dates[..k + 1];
    forall j | 0 <= j < |prefix| ensures Count(DailyCounts(rows), prefix[j]) == CountOn(rows, prefix[j]) {
      assert prefix[j] in Elements(dates);
    }
    CumulativeAmong(DailyCounts(rows), rows, prefix);
    forall i | 0 <= i < |rows| ensures Among(Elements(prefix))(rows[i]) == UpTo(dates[k])(rows[i]) {
      assert rows[i] in rows;
      DatesMember(rows, rows[i].Date());
      PrefixIsUpTo(rows, dates, k, rows[i].Date());
    }
    FilterSame(Among(Elements(prefix)), UpTo(dates[k]), rows);
  }

  lemma {:induction false} EarlierDate(rows: seq<Row>, dates: seq<string>, k: nat, d: string) returns (j: nat)
    requires SortedDates(rows, dates) && k < |dates| && d in DatesOf(rows) && StrLt(d, dates[k])
    ensures j < k && dates[j] == d
  {
    assert d in Elements(dates);
    j :| 0 <= j < |dates| && dates[j] == d;
    StrTrichotomy(d, dates[k]);
  }

  /** No date before position `n` reaches the target. */
  ghost predicate NoneReached(rows: seq<Row>, dates: seq<string>, n: nat, target: real) {
    forall j :: 0 <= j < n && j < |dates| ==> !Reached(rows, target, dates[j])
  }

  lemma {:induction false} NewCut(rows: seq<Row>, dates: seq<string>, k: nat, target: real)
    requires SortedDates(rows, dates) && k < |dates| && Reached(rows, target, dates[k])
    requires NoneReached(rows, dates, k, target)
    ensures IsCut(rows, target, dates[k])
  {
    assert dates[k] in Elements(dates);
    forall d | d in DatesOf(rows) && StrLt(d, dates[k]) ensures !Reached(rows, target, d) {
      var j := EarlierDate(rows, dates, k, d);
    }
  }

  /** Scanning the sorted dates finds the least date that reaches the target. */
  lemma {:induction false} FirstIsCut(rows: seq<Row>, dates: seq<string>, n: nat, target: real)
    requires SortedDates(rows, dates) && n <= |dates|
    ensures var first := FirstReaching(DailyCounts(rows), dates[..n], target);
            if first.Some? then IsCut(rows, target, first.value) else NoneReached(rows, dates, n, target)
  {
    if n > 0 {
      FirstIsCut(rows, dates, n - 1, target);
      CutStep(rows, dates, n - 1, target, FirstReaching(DailyCounts(rows), dates[..n - 1], target));
    }
  }

  lemma {:induction false} CutStep(rows: seq<Row>, dates: seq<string>, k: nat, target: real, earlier: Option<string>)
    requires SortedDates(rows, dates) && k < |dates|
    requires earlier == FirstReaching(DailyCounts(rows), dates[..k], target)
    requires if earlier.Some? then IsCut(rows, target, earlier.value) else NoneReached(rows, dates, k, target)
    ensures var first := FirstReaching(DailyCounts(rows), dates[..k + 1], target);
            if first.Some? then IsCut(rows, target, first.value) else NoneReached(rows, dates, k + 1, target)
  {
    FirstStep(DailyCounts(rows), dates, k, target);
    CumulativeUpTo(rows, dates, k);
    if earlier.None? && Reached(rows, target, dates[k]) {
      NewCut(rows, dates, k, target);
    }
  }

  lemma {:induction false} SortedKeys(rows: seq<Row>, keys: seq<string>)
    requires NoDups(keys) && Elements(keys) == DatesOf(rows)
    ensures SortedDates(rows, Sort(StrLe, keys))
  {
    var dates := Sort(StrLe, keys);
    StrLeIsTotal();
    SortSorts(StrLe, keys);
    SortPermutes(StrLe, keys);
    NoDupsPermutation(keys, dates);
    PermutationElements(keys, dates);
  }

  /** All rows are dated up to the last date, so any share below one is reached. */
  lemma {:induction false} LastReaches(rows: seq<Row>, dates: seq<string>, target: real)
    requires SortedDates(rows, dates) && rows != [] && target <= |rows| as real
    ensures dates != [] && Reached(rows, target, dates[|dates| - 1])
  {
    assert rows[0] in rows;
    DatesMember(rows, rows[0].Date());
    assert rows[0].Date() in Elements(dates);
    var last := |dates| - 1;
    forall i | 0 <= i < |rows| ensures UpTo(dates[last])(rows[i]) {
      assert rows[i] in rows;
      DatesMember(rows, rows[i].Date());
      PrefixIsUpTo(rows, dates, last, rows[i].Date());
      assert dates[..last + 1] == dates;
    }
    FilterKeepsAll(UpTo(dates[last]), rows);
  }

  lemma {:induction false} FirstExists(rows: seq<Row>, dates: seq<string>, target: real)
    requires SortedDates(rows, dates) && target <= |rows| as real
    ensures var first := FirstReaching(DailyCounts(rows), dates, target);
            && (first.Some? <==> rows != [])
            && (first.Some? ==> IsCut(rows, target, first.value))
  {
    FirstIsCut(rows, dates, |dates|, target);
    assert dates[..|dates|] == dates;
    if rows == [] {
      assert Map(DateOf, rows) == [];
      assert Elements(dates) == {};
      if dates != [] { assert dates[0] in Elements(dates); }
    } else {
      LastReaches(rows, dates, target);
    }
  }

  /** The targets of a table: its size times the ratios. */
  function Target(n: nat, ratio: real): real {
    n as real * ratio
  }

  lemma {:induction false} TargetBounds(n: nat, train: real, test: real)
    requires 0.0 < train < test < 1.0
    ensures Target(n, train) <= Target(n, test) <= n as real
    ensures n > 0 ==> 0.0 < Target(n, train)
  {
    var x := n as real;
    assert x * (test - train) >= 0.0;
    assert x * (1.0 - test) >= 0.0;
    assert n > 0 ==> x * train > 0.0;
  }

  lemma {:induction false} BothCuts(rows: seq<Row>, dates: seq<string>, trainTarget: real, testTarget: real)
    requires SortedDates(rows, dates) && trainTarget <= testTarget <= |rows| as real
    ensures var train := FirstReaching(DailyCounts(rows), dates, trainTarget);
            var test := FirstReaching(DailyCounts(rows), dates, testTarget);
            && (train.Some? <==> rows != []) && (test.Some? <==> rows != [])
            && (rows != [] ==> IsCut(rows, trainTarget, train.value) && IsCut(rows, testTarget, test.value))
  {
    FirstExists(rows, dates, trainTarget);
    FirstExists(rows, dates, testTarget);
  }

  /**
   * `cutoffs_from_counts` on the counts of a table: it raises exactly on the empty table, and otherwise
   * finds the least dates at which the two shares are reached.
   */
  method CutoffsFromCounts(t: Tally, trainTarget: real, testTarget: real, ghost rows: seq<Row>)
    returns (r: Option<Cutoffs>)
    requires t == TallyOf(rows) && trainTarget <= testTarget <= |rows| as real
    ensures r.Some? <==> rows != []
    ensures r.Some? ==> IsCut(rows, trainTarget, r.value.train) && IsCut(rows, testTarget, r.value.test)
  {
    var keys := ListKeys(t.counts);
    var dates := Sort(StrLe, keys);
    SortedKeys(rows, keys);
    BothCuts(rows, dates, trainTarget, testTarget);
    r := ScanCutoffs(t.counts, dates, trainTarget, testTarget);
  }

  // ----- What the cutoffs guarantee -----

  lemma {:induction false} CutsOrdered(rows: seq<Row>, trainTarget: real, testTarget: real, c: Cutoffs)
    requires trainTarget <= testTarget && IsCut(rows, trainTarget, c.train) && IsCut(rows, testTarget, c.test)
    ensures StrLe(c.train, c.test)
  {
    assert Reached(rows, trainTarget, c.test);
    StrTrichotomy(c.train, c.test);
  }

  lemma {:induction false} LatestRow(rows: seq<Row>) returns (m: Row)
    requires rows != []
    ensures m in rows && forall i :: 0 <= i < |rows| ==> StrLe(rows[i].Date(), m.Date())
  {
    if |rows| == 1 {
      m := rows[0];
    } else {
      var rest := LatestRow(rows[1..]);
      StrLeIsTotal();
      m := if StrLe(rows[0].Date(), rest.Date()) then rest else rows[0];
      forall i | 0 <= i < |rows| ensures StrLe(rows[i].Date(), m.Date()) {
        if i > 0 { assert StrLe(rows[1..][i - 1].Date(), rest.Date()); }
      }
    }
  }

  /** Fewer rows than the share lie strictly before the cutoff. */
  lemma {:induction false} FewBefore(rows: seq<Row>, target: real, c: string)
    requires IsCut(rows, target, c) && 0.0 < target
    ensures RowCount(Before(c), rows) as real < target
  {
    var early := Filter(Before(c), rows);
    FilterMembers(Before(c), rows);
    if early == [] {
      assert RowCount(Before(c), rows) == 0;
    } else {
      var m := LatestRow(early);
      assert m in rows && Before(c)(m);
      DatesMember(rows, m.Date());
      CountBefore(rows, c, m, early);
    }
  }

  lemma {:induction false} BeforeIsUpTo(rows: seq<Row>, c: string, m: Row, early: seq<Row>, r: Row)
    requires early == Filter(Before(c), rows) && m in early && r in rows
    requires forall i :: 0 <= i < |early| ==> StrLe(early[i].Date(), m.Date())
    ensures Before(c)(r) == UpTo(m.Date())(r)
  {
    FilterMembers(Before(c), rows);
    if StrLt(r.Date(), c) {
      assert r in early;
    } else if StrLe(r.Date(), m.Date()) && r.Date() != m.Date() {
      StrTransitive(r.Date(), m.Date(), c);
    }
  }

  lemma {:induction false} CountBefore(rows: seq<Row>, c: string, m: Row, early: seq<Row>)
    requires early == Filter(Before(c), rows) && m in early
    requires forall i :: 0 <= i < |early| ==> StrLe(early[i].Date(), m.Date())
    ensures RowCount(Before(c), rows) == RowCount(UpTo(m.Date()), rows)
  {
    forall i | 0 <= i < |rows| ensures Before(c)(rows[i]) == UpTo(m.Date())(rows[i]) {
      BeforeIsUpTo(rows, c, m, early, rows[i]);
    }
    FilterSame(Before(c), UpTo(m.Date()), rows);
  }

  // ----- Writing the splits -----

  function InVal(c: Cutoffs): Row -> bool {
    (r: Row) => StrLe(c.train, r.Date()) && StrLt(r.Date(), c.test)
  }

  function InTest(c: Cutoffs): Row -> bool {
    (r: Row) => StrLe(c.test, r.Date())
  }

  predicate IsFraud(r: Row) { r.fraud }

  /** The three output files and the frauds in them; the row counts are the lengths. */
  datatype Splits = Splits(train: seq<Row>, val: seq<Row>, test: seq<Row>)
  datatype Stats = Stats(rows: int, fraud: int)
  datatype Report = Report(train: Stats, val: Stats, test: Stats)

  function SplitRows(c: Cutoffs, rows: seq<Row>): Splits {
    Splits(Filter(Before(c.train), rows), Filter(InVal(c), rows), Filter(InTest(c), rows))
  }

  function StatsOf(rows: seq<Row>): Stats {
    Stats(|rows|, |Filter(IsFraud, rows)|)
  }

  function ReportOf(s: Splits): Report {
    Report(StatsOf(s.train), StatsOf(s.val), StatsOf(s.test))
  }

  /** Appending to a split: the writer's rows grow and the statistics with them. */
  lemma {:induction false} StatsAppend(a: seq<Row>, b: seq<Row>)
    ensures StatsOf(a + b) == Stats(StatsOf(a).rows + |b|, StatsOf(a).fraud + |Filter(IsFraud, b)|)
  {
    FilterAppend(IsFraud, a, b);
  }

  function Extend(s: Splits, t: Splits): Splits {
    Splits(s.train + t.train, s.val + t.val, s.test + t.test)
  }

  function AddStats(a: Stats, rows: seq<Row>): Stats {
    Stats(a.rows + |rows|, a.fraud + |Filter(IsFraud, rows)|)
  }

  lemma {:induction false} SplitAppend(c: Cutoffs, a: seq<Row>, b: seq<Row>)
    ensures SplitRows(c, a + b) == Extend(SplitRows(c, a), SplitRows(c, b))
  {
    FilterAppend(Before(c.train), a, b);
    FilterAppend(InVal(c), a, b);
    FilterAppend(InTest(c), a, b);
  }

  /** `stats[split]["rows"] += rows` and the frauds, for the three splits. */
  function AddReport(r: Report, t: Splits): Report {
    Report(AddStats(r.train, t.train), AddStats(r.val, t.val), AddStats(r.test, t.test))
  }

  lemma {:induction false} BatchSplit(c: Cutoffs, batches: seq<seq<Row>>, i: nat)
    requires i < |batches|
    ensures SplitRows(c, Concat(batches[..i + 1]))
         == Extend(SplitRows(c, Concat(batches[..i])), SplitRows(c, batches[i]))
  {
    ConcatSnoc(batches[..i], batches[i]);
    assert batches[..i + 1] == batches[..i] + [batches[i]];
    SplitAppend(c, Concat(batches[..i]), batches[i]);
  }

  lemma {:induction false} ReportExtend(s: Splits, t: Splits)
    ensures ReportOf(Extend(s, t)) == AddReport(ReportOf(s), t)
  {
    StatsAppend(s.train, t.train);
    StatsAppend(s.val, t.val);
    StatsAppend(s.test, t.test);
  }

  function FraudOf(r: Row): int {
    if r.fraud then 1 else 0
  }

  /** The statistics count these rows and the frauds among them. */
  predicate Counts(stats: Stats, rows: seq<Row>) {
    stats.rows == |rows| && stats.fraud == SumBy(FraudOf, rows)
  }

  lemma {:induction false} StatsCount(rows: seq<Row>)
    ensures Counts(StatsOf(rows), rows)
  {
    if rows != [] { StatsCount(rows[1..]); }
  }

  /** Each part of the report counts the rows of its own output. */
  predicate Accurate(report: Report, out: Splits) {
    Counts(report.train, out.train) && Counts(report.val, out.val) && Counts(report.test, out.test)
  }

  lemma {:induction false} ReportAccurate(out: Splits)
    ensures Accurate(ReportOf(out), out)
  {
    StatsCount(out.train);
    StatsCount(out.val);
    StatsCount(out.test);
  }

  /** `write_splits`: the outputs do not depend on how the rows come in batches. */
  method WriteSplits(batches: seq<seq<Row>>, c: Cutoffs) returns (out: Splits, report: Report)
    ensures out == SplitRows(c, Concat(batches)) && report == ReportOf(out) && Accurate(report, out)
  {
    out := Splits([], [], []);
    report := Report(Stats(0, 0), Stats(0, 0), Stats(0, 0));
    for i := 0 to |batches|
      invariant out == SplitRows(c, Concat(batches[..i])) && report == ReportOf(out)
    {
      var part := SplitRows(c, batches[i]);
      BatchSplit(c, batches, i);
      ReportExtend(out, part);
      report := AddReport(report, part);
      out := Extend(out, part);
    }
    assert batches[..|batches|] == batches;
    ReportAccurate(out);
  }

  // ----- What the splits guarantee -----

  /** `part` is the rows of the table at which `p` holds, in the table's order. */
  ghost predicate Picks(p: Row -> bool, rows: seq<Row>, part: seq<Row>, pos: seq<nat>) {
    Positions(p, rows, pos) && |part| == |pos| && forall i :: 0 <= i < |pos| ==> part[i] == rows[pos[i]]
  }

  /** Each output takes its rows in the table's order: those before, between and from the cutoffs on. */
  lemma {:induction false} SplitsInOrder(c: Cutoffs, rows: seq<Row>) returns (a: seq<nat>, b: seq<nat>, d: seq<nat>)
    ensures Picks((r: Row) => StrLt(r.Date(), c.train), rows, SplitRows(c, rows).train, a)
    ensures Picks((r: Row) => !StrLt(r.Date(), c.train) && StrLt(r.Date(), c.test), rows, SplitRows(c, rows).val, b)
    ensures Picks((r: Row) => !StrLt(r.Date(), c.test), rows, SplitRows(c, rows).test, d)
  {
    a := PicksFilter(Before(c.train), (r: Row) => StrLt(r.Date(), c.train), rows);
    forall r: Row ensures InVal(c)(r) <==> !StrLt(r.Date(), c.train) && StrLt(r.Date(), c.test) {
      StrTrichotomy(c.train, r.Date());
    }
    b := PicksFilter(InVal(c), (r: Row) => !StrLt(r.Date(), c.train) && StrLt(r.Date(), c.test), rows);
    forall r: Row ensures InTest(c)(r) <==> !StrLt(r.Date(), c.test) {
      StrTrichotomy(c.test, r.Date());
    }
    d := PicksFilter(InTest(c), (r: Row) => !StrLt(r.Date(), c.test), rows);
  }

  lemma {:induction false} PicksFilter(p: Row -> bool, q: Row -> bool, rows: seq<Row>) returns (pos: seq<nat>)
    requires forall r :: p(r) == q(r)
    ensures Picks(q, rows, Filter(p, rows), pos)
  {
    pos := FilterPositions(p, rows);
  }

  /** Exactly one mask selects `r`. */
  predicate InOneSplit(c: Cutoffs, r: Row) {
    var n := (if Before(c.train)(r) then 1 else 0) + (if InVal(c)(r) then 1 else 0) + (if InTest(c)(r) then 1 else 0);
    n == 1
  }

  /** The masks partition a row if and only if it is not dated from the test cutoff up to before the train cutoff. */
  lemma {:induction false} MasksPartition(c: Cutoffs, r: Row)
    ensures InOneSplit(c, r) <==> !(StrLe(c.test, r.Date()) && StrLt(r.Date(), c.train))
    ensures StrLe(c.train, c.test) ==> InOneSplit(c, r)
  {
    StrTrichotomy(r.Date(), c.train);
    StrTrichotomy(r.Date(), c.test);
    if StrLe(c.test, r.Date()) && StrLt(r.Date(), c.train) && StrLe(c.train, c.test) {
      StrLeIsTotal();
      assert false;
    }
    if StrLt(r.Date(), c.train) && StrLt(c.train, c.test) { StrTransitive(r.Date(), c.train, c.test); }
  }

  lemma {:induction false} ThreeWay(p: Row -> bool, q: Row -> bool, t: Row -> bool, rows: seq<Row>)
    requires forall i :: 0 <= i < |rows| ==>
               var r := rows[i]; (p(r) && !q(r) && !t(r)) || (!p(r) && q(r) && !t(r)) || (!p(r) && !q(r) && t(r))
    ensures multiset(rows) == multiset(Filter(p, rows) + Filter(q, rows) + Filter(t, rows))
  {
    if rows != [] {
      ThreeWay(p, q, t, rows[1..]);
      assert rows == [rows[0]] + rows[1..];
    }
  }

  /** With ordered cutoffs every row goes to one split: rows and frauds add up, nothing is lost or doubled. */
  lemma {:induction false} SplitsPartition(c: Cutoffs, rows: seq<Row>)
    requires StrLe(c.train, c.test)
    ensures var s := SplitRows(c, rows);
            && multiset(rows) == multiset(s.train + s.val + s.test)
            && StatsOf(s.train).rows + StatsOf(s.val).rows + StatsOf(s.test).rows == StatsOf(rows).rows
            && StatsOf(s.train).fraud + StatsOf(s.val).fraud + StatsOf(s.test).fraud == StatsOf(rows).fraud
  {
    var s := SplitRows(c, rows);
    forall i | 0 <= i < |rows| ensures InOneSplit(c, rows[i]) {
      MasksPartition(c, rows[i]);
    }
    ThreeWay(Before(c.train), InVal(c), InTest(c), rows);
    PermutationLength(rows, s.train + s.val + s.test);
    FilterPermutation(IsFraud, rows, s.train + s.val + s.test);
    PermutationLength(Filter(IsFraud, rows), Filter(IsFraud, s.train + s.val + s.test));
    FilterAppend(IsFraud, s.train + s.val, s.test);
    FilterAppend(IsFraud, s.train, s.val);
  }

  /** Every train row is before every val and test row, and every val row before every test row. */
  ghost predicate Separates(before: (Row, Row) -> bool, s: Splits) {
    && (forall x, y :: x in s.train && y in s.val ==> before(x, y))
    && (forall x, y :: x in s.val && y in s.test ==> before(x, y))
    && (forall x, y :: x in s.train && y in s.test ==> before(x, y))
  }

  predicate SortsBefore(x: Row, y: Row) {
    StrLt(x.Date(), y.Date())
  }

  predicate Earlier(x: Row, y: Row) {
    DateLt(x.year, x.month, x.day, y.year, y.month, y.day)
  }

  ghost predicate TwoDigitDays(rows: seq<Row>) {
    forall r :: r in rows ==> r.month < 100 && r.day < 100
  }

  ghost predicate AllYearsAgree(rows: seq<Row>) {
    forall x, y :: x in rows && y in rows ==> YearsAgree(x.year, y.year)
  }

  /** No temporal leakage between the date strings of the splits. */
  lemma {:induction false} NoLeakage(c: Cutoffs, rows: seq<Row>)
    requires StrLe(c.train, c.test)
    ensures Separates(SortsBefore, SplitRows(c, rows))
  {
    FilterMembers(Before(c.train), rows);
    FilterMembers(InVal(c), rows);
    FilterMembers(InTest(c), rows);
    var s := SplitRows(c, rows);
    forall x, y | x in s.train && y in s.val ensures SortsBefore(x, y) {
      LtLe(x.Date(), c.train, y.Date());
    }
    forall x, y | x in s.val && y in s.test ensures SortsBefore(x, y) {
      LtLe(x.Date(), c.test, y.Date());
    }
    forall x, y | x in s.train && y in s.test ensures SortsBefore(x, y) {
      LtLe(x.Date(), c.train, c.test);
      LtLe(x.Date(), c.test, y.Date());
    }
  }

  lemma {:induction false} SplitMembers(c: Cutoffs, rows: seq<Row>, r: Row)
    requires r in SplitRows(c, rows).train || r in SplitRows(c, rows).val || r in SplitRows(c, rows).test
    ensures r in rows
  {
    FilterMembers(Before(c.train), rows);
    FilterMembers(InVal(c), rows);
    FilterMembers(InTest(c), rows);
  }

  lemma {:induction false} RowOrder(rows: seq<Row>, x: Row, y: Row)
    requires TwoDigitDays(rows) && x in rows && y in rows
    ensures (SortsBefore(x, y) <==> Earlier(x, y)) <==> YearsAgree(x.year, y.year)
  {
    DateOrder(x.year, x.month, x.day, y.year, y.month, y.day);
  }

  /** Nor any leakage between the calendar dates, when all years agree. */
  lemma {:induction false} NoCalendarLeakage(c: Cutoffs, rows: seq<Row>)
    requires StrLe(c.train, c.test) && TwoDigitDays(rows) && AllYearsAgree(rows)
    ensures Separates(Earlier, SplitRows(c, rows))
  {
    NoLeakage(c, rows);
    var s := SplitRows(c, rows);
    forall x, y | SortsBefore(x, y) && (x in s.train || x in s.val) && (y in s.val || y in s.test)
      ensures Earlier(x, y)
    {
      SplitMembers(c, rows, x);
      SplitMembers(c, rows, y);
      RowOrder(rows, x, y);
    }
  }

  lemma {:induction false} LtLe(a: string, b: string, d: string)
    ensures StrLt(a, b) && StrLe(b, d) ==> StrLt(a, d)
  {
    if StrLt(a, b) && StrLt(b, d) { StrTransitive(a, b, d); }
  }

  /** Dated before the test cutoff means train or val. */
  lemma {:induction false} TrainAndVal(c: Cutoffs, rows: seq<Row>)
    requires StrLe(c.train, c.test)
    ensures |SplitRows(c, rows).train| + |SplitRows(c, rows).val| == RowCount(Before(c.test), rows)
  {
    if rows != [] {
      TrainAndVal(c, rows[1..]);
      MasksPartition(c, rows[0]);
      StrTrichotomy(rows[0].Date(), c.test);
    }
  }

  datatype SplitResult = InvalidRatios | NoCutoffs | Done(cutoffs: Cutoffs, splits: Splits, report: Report)

  /** Train has fewer rows than its share, train and val together fewer than theirs, and test has some. */
  ghost predicate WithinShares(rows: seq<Row>, trainRatio: real, testRatio: real, s: Splits) {
    && |s.train| as real < |rows| as real * trainRatio
    && (|s.train| + |s.val|) as real < |rows| as real * testRatio
    && s.test != []
  }

  lemma {:induction false} SharesHold(rows: seq<Row>, trainRatio: real, testRatio: real, c: Cutoffs)
    requires 0.0 < trainRatio < testRatio < 1.0 && rows != []
    requires IsCut(rows, Target(|rows|, trainRatio), c.train) && IsCut(rows, Target(|rows|, testRatio), c.test)
    ensures StrLe(c.train, c.test) && WithinShares(rows, trainRatio, testRatio, SplitRows(c, rows))
  {
    var trainTarget, testTarget := Target(|rows|, trainRatio), Target(|rows|, testRatio);
    TargetBounds(|rows|, trainRatio, testRatio);
    CutsOrdered(rows, trainTarget, testTarget, c);
    FewBefore(rows, trainTarget, c.train);
    FewBefore(rows, testTarget, c.test);
    TrainAndVal(c, rows);
    TestHasRows(rows, c);
  }

  lemma {:induction false} TestHasRows(rows: seq<Row>, c: Cutoffs)
    requires c.test in DatesOf(rows)
    ensures SplitRows(c, rows).test != []
  {
    DatesMember(rows, c.test);
    var r :| r in rows && r.Date() == c.test;
    FilterMembers(InTest(c), rows);
    assert InTest(c)(r);
  }

  // ----- Leakage is avoided for all ratios exactly when the years agree -----

  lemma {:induction false} Listing(s: set<string>) returns (keys: seq<string>)
    ensures NoDups(keys) && Elements(keys) == s
  {
    keys := [];
    if s != {} {
      var k :| k in s;
      keys := Listing(s - {k});
      assert k !in Elements(keys);
      assert Elements(keys + [k]) == Elements(keys) + {k};
      keys := keys + [k];
    }
  }

  lemma {:induction false} CutExists(rows: seq<Row>, target: real) returns (c: string)
    requires rows != [] && target <= |rows| as real
    ensures IsCut(rows, target, c)
  {
    var keys := Listing(DatesOf(rows));
    SortedKeys(rows, keys);
    FirstExists(rows, Sort(StrLe, keys), target);
    c := FirstReaching(DailyCounts(rows), Sort(StrLe, keys), target).value;
  }

  lemma {:induction false} UpToSplits(rows: seq<Row>, d: string)
    ensures RowCount(UpTo(d), rows) == RowCount(Before(d), rows) + CountOn(rows, d)
  {
    if rows != [] {
      UpToSplits(rows[1..], d);
      StrTrichotomy(rows[0].Date(), d);
    }
  }

  lemma {:induction false} UpToBefore(rows: seq<Row>, d: string, c: string)
    requires StrLt(d, c)
    ensures RowCount(UpTo(d), rows) <= RowCount(Before(c), rows)
  {
    if rows != [] {
      UpToBefore(rows[1..], d, c);
      if StrLt(rows[0].Date(), d) { StrTransitive(rows[0].Date(), d, c); }
    }
  }

  lemma {:induction false} BeforeAndOn(rows: seq<Row>, d: string)
    ensures RowCount(Before(d), rows) + CountOn(rows, d) <= |rows|
  {
    if rows != [] {
      BeforeAndOn(rows[1..], d);
      StrTrichotomy(rows[0].Date(), d);
    }
  }

  /** Any date of the table is the cutoff for a target half a row above what lies before it. */
  lemma {:induction false} DateIsCut(rows: seq<Row>, d: string)
    requires d in DatesOf(rows)
    ensures IsCut(rows, RowCount(Before(d), rows) as real + 0.5, d)
    ensures RowCount(Before(d), rows) < |rows|
  {
    CountZero(rows, d);
    UpToSplits(rows, d);
    BeforeAndOn(rows, d);
    forall e | e in DatesOf(rows) && StrLt(e, d)
      ensures !Reached(rows, RowCount(Before(d), rows) as real + 0.5, e)
    {
      UpToBefore(rows, e, d);
    }
  }

  /** The script, with valid ratios, finds these cutoffs. */
  ghost predicate CutsAt(rows: seq<Row>, trainRatio: real, testRatio: real, c: Cutoffs) {
    && 0.0 < trainRatio < testRatio < 1.0
    && IsCut(rows, Target(|rows|, trainRatio), c.train) && IsCut(rows, Target(|rows|, testRatio), c.test)
  }

  lemma {:induction false} RatioFor(n: nat, target: real) returns (ratio: real)
    requires 0.0 < target < n as real
    ensures 0.0 < ratio < 1.0 && Target(n, ratio) == target
  {
    ratio := target / n as real;
  }

  /** Some ratios put the test cutoff on any given date. */
  lemma {:induction false} CutsOn(rows: seq<Row>, d: string) returns (trainRatio: real, testRatio: real, c: Cutoffs)
    requires d in DatesOf(rows)
    ensures CutsAt(rows, trainRatio, testRatio, c) && c.test == d
  {
    DateIsCut(rows, d);
    testRatio := RatioFor(|rows|, RowCount(Before(d), rows) as real + 0.5);
    trainRatio := testRatio / 2.0;
    TargetBounds(|rows|, trainRatio, testRatio);
    var train := CutExists(rows, Target(|rows|, trainRatio));
    c := Cutoffs(train, d);
  }

  /** Two rows whose strings are in the wrong order leak for some ratios. */
  lemma {:induction false} LeakAt(rows: seq<Row>, x: Row, y: Row)
    returns (trainRatio: real, testRatio: real, c: Cutoffs)
    requires x in rows && y in rows && SortsBefore(x, y) && !Earlier(x, y)
    ensures CutsAt(rows, trainRatio, testRatio, c) && !Separates(Earlier, SplitRows(c, rows))
  {
    DatesMember(rows, y.Date());
    trainRatio, testRatio, c := CutsOn(rows, y.Date());
    FilterMembers(Before(c.train), rows);
    FilterMembers(InVal(c), rows);
    FilterMembers(InTest(c), rows);
    StrTrichotomy(x.Date(), c.train);
    var s := SplitRows(c, rows);
    assert y in s.test && (x in s.train || x in s.val);
  }

  /**
   * The calendar dates of the splits are apart for all valid ratios if and only if the years of the
   * table agree.
   */
  lemma {:induction false} LeakageExact(rows: seq<Row>)
    requires TwoDigitDays(rows)
    ensures (forall trainRatio, testRatio, c ::
               CutsAt(rows, trainRatio, testRatio, c) ==> Separates(Earlier, SplitRows(c, rows)))
       <==> AllYearsAgree(rows)
  {
    if AllYearsAgree(rows) {
      forall trainRatio, testRatio, c | CutsAt(rows, trainRatio, testRatio, c)
        ensures Separates(Earlier, SplitRows(c, rows))
      {
        TargetBounds(|rows|, trainRatio, testRatio);
        CutsOrdered(rows, Target(|rows|, trainRatio), Target(|rows|, testRatio), c);
        NoCalendarLeakage(c, rows);
      }
    } else {
      var x, y :| x in rows && y in rows && !YearsAgree(x.year, y.year);
      Misordered(rows, x, y);
      if SortsBefore(x, y) && !Earlier(x, y) {
        var trainRatio, testRatio, c := LeakAt(rows, x, y);
      } else {
        var trainRatio, testRatio, c := LeakAt(rows, y, x);
      }
    }
  }

  lemma {:induction false} Misordered(rows: seq<Row>, x: Row, y: Row)
    requires TwoDigitDays(rows) && x in rows && y in rows && !YearsAgree(x.year, y.year)
    ensures (SortsBefore(x, y) && !Earlier(x, y)) || (SortsBefore(y, x) && !Earlier(y, x))
  {
    RowOrder(rows, x, y);
    RowOrder(rows, y, x);
    DateOrder(x.year, x.month, x.day, y.year, y.month, y.day);
    StrTrichotomy(x.Date(), y.Date());
  }

  /** What the outputs promise: every row in one of them, and no leakage. */
  ghost predicate SoundSplits(rows: seq<Row>, s: Splits) {
    && multiset(rows) == multiset(s.train + s.val + s.test)
    && Separates(SortsBefore, s)
    && (TwoDigitDays(rows) && AllYearsAgree(rows) ==> Separates(Earlier, s))
  }

  lemma {:induction false} SplitsSound(rows: seq<Row>, c: Cutoffs)
    requires StrLe(c.train, c.test)
    ensures SoundSplits(rows, SplitRows(c, rows))
  {
    SplitsPartition(c, rows);
    NoLeakage(c, rows);
    if TwoDigitDays(rows) && AllYearsAgree(rows) { NoCalendarLeakage(c, rows); }
  }

  /**
   * The script on a table read twice, in any batches. Invalid ratios and an empty table are the only
   * failures; otherwise the cutoffs are the least dates reaching the two shares, and the outputs are the
   * rows split at them.
   */
  method CreateTemporalSplits(countBatches: seq<seq<Row>>, writeBatches: seq<seq<Row>>, trainRatio: real,
                              testRatio: real)
    returns (r: SplitResult)
    requires Concat(countBatches) == Concat(writeBatches)
    ensures r.InvalidRatios? <==> !(0.0 < trainRatio < testRatio < 1.0)
    ensures r.NoCutoffs? <==> 0.0 < trainRatio < testRatio < 1.0 && Concat(writeBatches) == []
    ensures r.Done? ==>
              var rows := Concat(writeBatches);
              && CutsAt(rows, trainRatio, testRatio, r.cutoffs)
              && r.splits == SplitRows(r.cutoffs, rows) && Accurate(r.report, r.splits)
              && WithinShares(rows, trainRatio, testRatio, r.splits) && SoundSplits(rows, r.splits)
  {
    if !(0.0 < trainRatio < testRatio < 1.0) {
      return InvalidRatios;
    }
    ghost var rows := Concat(writeBatches);
    var t := ComputeDailyCounts(countBatches);
    TargetBounds(|rows|, trainRatio, testRatio);
    var cutoffs := CutoffsFromCounts(t, Target(t.total, trainRatio), Target(t.total, testRatio), rows);
    if cutoffs.None? {
      return NoCutoffs;
    }
    var splits, report := WriteSplits(writeBatches, cutoffs.value);
    SharesHold(rows, trainRatio, testRatio, cutoffs.value);
    SplitsSound(rows, cutoffs.value);
    r := Done(cutoffs.value, splits, report);
  }
}
