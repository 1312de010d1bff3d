/** Phase 2 of the sharder: filling the slots with contiguous, name-ordered slices. */
module ShardFill {
  import opened Seqs
  import opened Sorting
  import opened StringOrder
  import opened BazelRules
  import opened ShardAllocation

  /** Python's `s[a:b]` for non-negative bounds, which clamps instead of failing. */
  function Slice<T>(s: seq<T>, a: nat, b: nat): seq<T> {
    var hi := if b < |s| then b else |s|;
    if a <= hi then s[a..hi] else []
  }

  function StartOf(slots: seq<map<int, int>>, t: int, i: nat): int
    requires i <= |slots|
  {
    SumBy(SlotAt(t), slots[..i])
  }

  ghost predicate NonNegative(slots: seq<map<int, int>>) {
    forall i, t :: 0 <= i < |slots| ==> Slot(slots[i], t) >= 0
  }

  lemma {:induction false} StartNonNegative(slots: seq<map<int, int>>, t: int, i: nat)
    requires i <= |slots| && NonNegative(slots)
    ensures StartOf(slots, t, i) >= 0
    ensures i < |slots| ==> StartOf(slots, t, i + 1) == StartOf(slots, t, i) + Slot(slots[i], t)
  {
    if i > 0 { StartNonNegative(slots, t, i - 1); }
    if i < |slots| {
      SumBySnoc(SlotAt(t), slots[..i], slots[i]);
      assert slots[..i + 1] == slots[..i] + [slots[i]];
    }
  }

  /** The tests of group `g` that shard `i` takes. */
  ghost function Portion(g: TimeGroup, slots: seq<map<int, int>>, i: nat): seq<Rule>
    requires i < |slots| && NonNegative(slots)
  {
    StartNonNegative(slots, g.timeout, i);
    var start := StartOf(slots, g.timeout, i);
    Slice(Sort(NameLe, g.rules), start, start + Slot(slots[i], g.timeout))
  }

  ghost function ShardRules(groups: seq<TimeGroup>, slots: seq<map<int, int>>, i: nat): seq<Rule>
    requires i < |slots| && NonNegative(slots)
  {
    if groups == [] then []
    else ShardRules(groups[..|groups| - 1], slots, i) + Portion(groups[|groups| - 1], slots, i)
  }

  ghost function Shards(groups: seq<TimeGroup>, slots: seq<map<int, int>>): (r: seq<seq<Rule>>)
    requires NonNegative(slots)
  {
    seq(|slots|, i requires 0 <= i < |slots| => ShardRules(groups, slots, i))
  }

  ghost function Portions(g: TimeGroup, slots: seq<map<int, int>>): seq<seq<Rule>>
    requires NonNegative(slots)
  {
    seq(|slots|, i requires 0 <= i < |slots| => Portion(g, slots, i))
  }

  /** The slots provide exactly one place per rule of every group. */
  ghost predicate Fits(groups: seq<TimeGroup>, slots: seq<map<int, int>>) {
    && NonNegative(slots)
    && forall k :: 0 <= k < |groups| ==> StartOf(slots, groups[k].timeout, |slots|) == |groups[k].rules|
  }

  // ----- Phase 1 makes slots that fit -----

  lemma {:induction false} AllocatedNonNegative(jobs: seq<int>, count: nat)
    requires count > 0
    ensures NonNegative(Allocate(jobs, count).slots)
  {
    if jobs != [] {
      AllocatedNonNegative(jobs[..|jobs| - 1], count);
      var prev := Allocate(jobs[..|jobs| - 1], count);
      forall i, t | 0 <= i < count ensures Slot(Allocate(jobs, count).slots[i], t) >= 0 {
        assert Slot(prev.slots[i], t) >= 0;
      }
    }
  }

  lemma {:induction false} RepeatCount(t: int, n: nat, u: int)
    ensures multiset(Repeat(t, n))[u] == if t == u then n else 0
  {
    if n > 0 {
      RepeatCount(t, n - 1, u);
      RepeatSnoc([], t, n - 1);
      assert Repeat(t, n) == Repeat(t, n - 1) + [t];
    }
  }

  lemma {:induction false} ClassedSnoc(init: seq<TimeGroup>, g: TimeGroup, t: int)
    ensures Classed(init + [g], t) <==> Classed(init, t) || g.timeout == t
  {
    var groups := init + [g];
    assert groups[|init|] == g && g in groups;
    if Classed(init, t) {
      var h :| h in init && h.timeout == t;
      assert h in groups;
    }
  }

  lemma {:induction false} JobsCount(groups: seq<TimeGroup>, t: int)
    requires Descending(groups)
    ensures forall k :: 0 <= k < |groups| && groups[k].timeout == t ==> multiset(Jobs(groups))[t] == |groups[k].rules|
    ensures multiset(Jobs(groups))[t] > 0 ==> Classed(groups, t)
  {
    if groups != [] {
      var init, g := groups[..|groups| - 1], groups[|groups| - 1];
      assert groups == init + [g];
      JobsCount(init, t);
      RepeatCount(g.timeout, |g.rules|, t);
      ClassedSnoc(init, g, t);
      if g.timeout == t {
        assert !Classed(init, t);
      }
    }
  }

  lemma {:induction false} AllocationFits(groups: seq<TimeGroup>, count: nat)
    requires count > 0 && Descending(groups)
    ensures Fits(groups, Allocate(Jobs(groups), count).slots)
  {
    var slots := Allocate(Jobs(groups), count).slots;
    AllocatedNonNegative(Jobs(groups), count);
    forall k | 0 <= k < |groups| ensures StartOf(slots, groups[k].timeout, |slots|) == |groups[k].rules| {
      JobsCount(groups, groups[k].timeout);
      SlotsCount(Jobs(groups), count, groups[k].timeout);
      assert slots[..|slots|] == slots;
    }
  }

  // ----- What filling produces -----

  lemma {:induction false} StartMonotone(slots: seq<map<int, int>>, t: int, i: nat, j: nat)
    requires i <= j <= |slots| && NonNegative(slots)
    ensures 0 <= StartOf(slots, t, i) <= StartOf(slots, t, j)
  {
    if i < j {
      StartMonotone(slots, t, i, j - 1);
      StartNonNegative(slots, t, j - 1);
    } else {
      StartNonNegative(slots, t, i);
    }
  }

  /** A portion is exactly as long as its slot count: the slice never runs past the group. */
  lemma {:induction false} PortionExact(g: TimeGroup, slots: seq<map<int, int>>, i: nat)
    requires i < |slots| && Fits([g], slots)
    ensures StartOf(slots, g.timeout, i) + Slot(slots[i], g.timeout) <= |g.rules|
    ensures |Portion(g, slots, i)| == Slot(slots[i], g.timeout)
    ensures forall r :: r in Portion(g, slots, i) ==> r in g.rules
  {
    StartNonNegative(slots, g.timeout, i);
    StartMonotone(slots, g.timeout, i + 1, |slots|);
    assert [g][0] == g;
    SortPermutes(NameLe, g.rules);
    forall r | r in Portion(g, slots, i) ensures r in g.rules {
      assert r in Sort(NameLe, g.rules);
      assert r in multiset(Sort(NameLe, g.rules));
    }
  }

  lemma SliceExtends<T>(s: seq<T>, a: nat, b: nat)
    requires a <= b <= |s|
    ensures s[..a] + Slice(s, a, b) == s[..b]
  {}

  lemma {:induction false} PortionsStep(g: TimeGroup, slots: seq<map<int, int>>, i: nat)
    requires i < |slots| && Fits([g], slots)
    ensures Concat(Portions(g, slots)[..i + 1]) == Concat(Portions(g, slots)[..i]) + Portion(g, slots, i)
  {
    var portions := Portions(g, slots);
    ConcatSnoc(portions[..i], portions[i]);
    assert portions[..i + 1] == portions[..i] + [portions[i]];
  }

  lemma {:induction false} StartWithin(g: TimeGroup, slots: seq<map<int, int>>, i: nat)
    requires i <= |slots| && Fits([g], slots)
    ensures 0 <= StartOf(slots, g.timeout, i) <= |Sort(NameLe, g.rules)|
    ensures StartOf(slots, g.timeout, |slots|) == |Sort(NameLe, g.rules)| == |g.rules|
  {
    SortPermutes(NameLe, g.rules);
    StartMonotone(slots, g.timeout, i, |slots|);
    assert [g][0] == g;
  }

  lemma {:induction false} PortionsPrefix(g: TimeGroup, slots: seq<map<int, int>>, i: nat)
    requires i <= |slots| && Fits([g], slots)
    ensures 0 <= StartOf(slots, g.timeout, i) <= |Sort(NameLe, g.rules)|
    ensures Concat(Portions(g, slots)[..i]) == Sort(NameLe, g.rules)[..StartOf(slots, g.timeout, i)]
  {
    StartWithin(g, slots, i);
    if i == 0 {
      assert slots[..0] == [];
    } else {
      var start := StartOf(slots, g.timeout, i - 1);
      PortionsPrefix(g, slots, i - 1);
      PortionsStep(g, slots, i - 1);
      StartNonNegative(slots, g.timeout, i - 1);
      SliceExtends(Sort(NameLe, g.rules), start, start + Slot(slots[i - 1], g.timeout));
    }
  }

  /** The portions tile the name-sorted group: nothing overlaps, nothing is left over. */
  lemma {:induction false} PortionsTile(g: TimeGroup, slots: seq<map<int, int>>)
    requires Fits([g], slots)
    ensures Concat(Portions(g, slots)) == Sort(NameLe, g.rules)
  {
    PortionsPrefix(g, slots, |slots|);
    StartWithin(g, slots, |slots|);
    assert Portions(g, slots)[..|slots|] == Portions(g, slots);
    assert Sort(NameLe, g.rules)[..|g.rules|] == Sort(NameLe, g.rules);
  }

  lemma {:induction false} AllRulesSnoc(groups: seq<TimeGroup>, g: TimeGroup)
    ensures AllRules(groups + [g]) == AllRules(groups) + g.rules
  {
    MapAppend(RulesOf, groups, [g]);
    ConcatSnoc(Map(RulesOf, groups), g.rules);
    assert Map(RulesOf, [g]) == [g.rules];
  }

  /** Filling is a permutation: every rule lands in some shard, as often as it was given. */
  lemma {:induction false} FillConserves(groups: seq<TimeGroup>, slots: seq<map<int, int>>)
    requires Fits(groups, slots)
    ensures multiset(Concat(Shards(groups, slots))) == multiset(AllRules(groups))
  {
    if groups == [] {
      EmptyConcat(Shards(groups, slots));
      assert Map(RulesOf, groups) == [];
    } else {
      var n := |groups| - 1;
      var g := groups[n];
      FillConserves(groups[..n], slots);
      FillGroup(groups[..n], g, slots);
      AllRulesSnoc(groups[..n], g);
      assert groups == groups[..n] + [g];
    }
  }

  lemma {:induction false} FillGroup(groups: seq<TimeGroup>, g: TimeGroup, slots: seq<map<int, int>>)
    requires Fits([g], slots)
    ensures multiset(Concat(Shards(groups + [g], slots))) == multiset(Concat(Shards(groups, slots))) + multiset(g.rules)
  {
    assert (groups + [g])[..|groups|] == groups;
    ConcatZip(Shards(groups, slots), Portions(g, slots), Shards(groups + [g], slots));
    PortionsTile(g, slots);
    SortPermutes(NameLe, g.rules);
  }

  lemma {:induction false} EmptyConcat(ss: seq<seq<Rule>>)
    requires forall i :: 0 <= i < |ss| ==> ss[i] == []
    ensures Concat(ss) == []
  {
    if ss != [] { EmptyConcat(ss[1..]); }
  }

  lemma {:induction false} UniformTotal(rules: seq<Rule>, t: int)
    requires forall r :: r in rules ==> r.ActualTimeout() == t
    ensures Total(rules) == t * |rules|
  {
    if rules != [] {
      UniformTotal(rules[1..], t);
      assert t * |rules| == t + t * |rules[1..]|;
    }
  }

  lemma {:induction false} PortionTime(g: TimeGroup, slots: seq<map<int, int>>, i: nat)
    requires i < |slots| && Fits([g], slots) && forall r :: r in g.rules ==> r.ActualTimeout() == g.timeout
    ensures Total(Portion(g, slots, i)) == g.timeout * Slot(slots[i], g.timeout)
  {
    PortionExact(g, slots, i);
    UniformTotal(Portion(g, slots, i), g.timeout);
  }

  /** The tests given to a shard take exactly the time its slots stand for. */
  lemma {:induction false} FillTimeLast(init: seq<TimeGroup>, g: TimeGroup, slots: seq<map<int, int>>, i: nat)
    requires i < |slots| && Fits([g], slots) && forall r :: r in g.rules ==> r.ActualTimeout() == g.timeout
    requires Total(ShardRules(init, slots, i)) == SlotTime(init, slots[i])
    ensures Total(ShardRules(init, slots, i) + Portion(g, slots, i)) == SlotTime(init + [g], slots[i])
  {
    PortionTime(g, slots, i);
    SumByAppend(TimeoutOf, ShardRules(init, slots, i), Portion(g, slots, i));
    SumBySnoc(Weight(slots[i]), init, g);
  }

  lemma {:induction false} FillTime(groups: seq<TimeGroup>, slots: seq<map<int, int>>, i: nat)
    requires Fits(groups, slots) && WellGrouped(groups) && i < |slots|
    ensures Total(ShardRules(groups, slots, i)) == SlotTime(groups, slots[i])
  {
    if groups != [] {
      var n := |groups| - 1;
      FillTime(groups[..n], slots, i);
      FillTimeLast(groups[..n], groups[n], slots, i);
      assert groups == groups[..n] + [groups[n]];
    }
  }

  // ----- The strategy as a whole -----

  /** The shards of the optimal strategy. */
  ghost function OptimalShards(groups: seq<TimeGroup>, count: nat): (r: seq<seq<Rule>>)
    requires count > 0
    ensures |r| == count
  {
    AllocatedNonNegative(Jobs(groups), count);
    Shards(groups, Allocate(Jobs(groups), count).slots)
  }

  /** Phase 2 refines phase 1: a shard's total timeout is the load phase 1 computed for it. */
  lemma {:induction false} FillRefinesAllocation(groups: seq<TimeGroup>, count: nat, i: nat)
    requires i < count && WellGrouped(groups)
    ensures Total(OptimalShards(groups, count)[i]) == Allocate(Jobs(groups), count).times[i]
    ensures multiset(Concat(OptimalShards(groups, count))) == multiset(AllRules(groups))
  {
    var jobs := Jobs(groups);
    AllocationFits(groups, count);
    FillConserves(groups, Allocate(jobs, count).slots);
    FillTime(groups, Allocate(jobs, count).slots, i);
    forall k | 0 <= k < |jobs| ensures Classed(groups, jobs[k]) {
      JobsCount(groups, jobs[k]);
      assert jobs[k] in multiset(jobs);
    }
    LoadIsSlotTime(groups, jobs, count, i);
  }

  datatype SanityError = DuplicateRules | MissingRules
  datatype Checked = Ok(names: seq<string>) | Failed(error: SanityError)

  /** The phase 2 loops of `get_rules_for_shard_optimal`. */
  method FillSlots(groups: seq<TimeGroup>, slots: seq<map<int, int>>) returns (shards: seq<seq<Rule>>)
    requires NonNegative(slots)
    ensures shards == Shards(groups, slots)
  {
    shards := seq(|slots|, _ => []);
    for g := 0 to |groups|
      invariant |shards| == |slots|
      invariant forall j :: 0 <= j < |slots| ==> shards[j] == ShardRules(groups[..g], slots, j)
    {
      var t := groups[g].timeout;
      var sortedRules := Sort(NameLe, groups[g].rules);
      assert groups[..g + 1][..g] == groups[..g];
      for i := 0 to |slots|
        invariant |shards| == |slots|
        invariant forall j :: i <= j < |slots| ==> shards[j] == ShardRules(groups[..g], slots, j)
        invariant forall j :: 0 <= j < i ==> shards[j] == ShardRules(groups[..g + 1], slots, j)
      {
        StartNonNegative(slots, t, i);
        var start := StartOf(slots, t, i);
        var end := start + Slot(slots[i], t);
        shards := shards[i := shards[i] + Slice(sortedRules, start, end)];
      }
    }
    assert groups[..|groups|] == groups;
  }

  /** `sum(len(shard) for shard in all_shard_rules)` and the union of the shards as sets. */
  method Survey(shards: seq<seq<Rule>>) returns (total: nat, all: set<Rule>)
    ensures total == |Concat(shards)| && all == Elements(Concat(shards))
  {
    total, all := 0, {};
    for i := 0 to |shards|
      invariant total == |Concat(shards[..i])| && all == Elements(Concat(shards[..i]))
    {
      ConcatSnoc(shards[..i], shards[i]);
      assert shards[..i + 1] == shards[..i] + [shards[i]];
      total := total + |shards[i]|;
      all := all + Elements(shards[i]);
    }
    assert shards[..|shards|] == shards;
  }

  /**
   * The optimal strategy for one shard. The run-time check for duplicates fails exactly when a rule
   * was given twice; the check for missing rules never fails.
   */
  method GetRulesForShardOptimal(groups: seq<TimeGroup>, index: nat, count: nat) returns (r: Checked)
    requires WellGrouped(groups) && index < count
    ensures r.Ok? <==> NoDups(AllRules(groups))
    ensures r.Failed? ==> r.error == DuplicateRules
    ensures r.Ok? ==> r.names == Sort(StrLe, Names(OptimalShards(groups, count)[index]))
  {
    var slots := AllocateSlotsToShards(groups, count);
    AllocatedNonNegative(Jobs(groups), count);
    var shards := FillSlots(groups, slots);
    FillRefinesAllocation(groups, count, index);
    var allRules := AllRules(groups);
    var total, all := Survey(shards);
    DistinctCount(Concat(shards));
    if NoDups(allRules) { NoDupsPermutation(allRules, Concat(shards)); }
    if NoDups(Concat(shards)) { NoDupsPermutation(Concat(shards), allRules); }
    PermutationElements(Concat(shards), allRules);
    if |all| != total {
      return Failed(DuplicateRules);
    }
    if all != Elements(allRules) {
      return Failed(MissingRules);
    }
    r := Ok(Sort(StrLe, Names(shards[index])));
  }
}
