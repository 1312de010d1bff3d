/** The sharder end to end: optimality, and exactly-once across independent workers. */
module Sharding {
  import opened Seqs
  import opened Sorting
  import opened StringOrder
  import opened BazelRules
  import opened ShardAllocation
  import opened ShardFill

  // ----- Makespan optimality -----

  /** Seconds contributed by rules that need at least `t`. */
  function AtLeast(t: int): Rule -> int {
    (r: Rule) => if r.ActualTimeout() >= t then r.ActualTimeout() else 0
  }

  lemma TimeoutsDivide(a: int, b: int)
    requires a in TIMEOUTS && b in TIMEOUTS && a >= b
    ensures b > 0 && a % b == 0
  {}

  lemma {:induction false} JobsFollowGroups(groups: seq<TimeGroup>)
    requires WellGrouped(groups)
    ensures Jobs(groups) == Map(TimeoutOf, AllRules(groups))
  {
    if groups != [] {
      var n := |groups| - 1;
      JobsFollowGroups(groups[..n]);
      AllRulesSnoc(groups[..n], groups[n]);
      assert groups == groups[..n] + [groups[n]];
      MapAppend(TimeoutOf, AllRules(groups[..n]), groups[n].rules);
      assert Map(TimeoutOf, groups[n].rules) == Repeat(groups[n].timeout, |groups[n].rules|);
    }
  }

  lemma {:induction false} JobsDescend(groups: seq<TimeGroup>, i: nat, j: nat)
    requires Descending(groups) && i <= j < |Jobs(groups)|
    ensures Jobs(groups)[i] >= Jobs(groups)[j]
    ensures Classed(groups, Jobs(groups)[i])
  {
    var n := |groups| - 1;
    var before := Jobs(groups[..n]);
    if j < |before| {
      JobsDescend(groups[..n], i, j);
      var g :| g in groups[..n] && g.timeout == Jobs(groups)[i];
      assert g in groups;
    } else if i < |before| {
      JobsDescend(groups[..n], i, i);
      var g :| g in groups[..n] && g.timeout == Jobs(groups)[i];
      assert g in groups;
    } else {
      assert groups[n] in groups;
    }
  }

  /** The timeouts 3600, 900, 300 and 60, longest first, form a divisibility chain. */
  lemma {:induction false} JobsChain(rules: seq<Rule>)
    ensures Chain(Jobs(Grouped(rules)))
  {
    var groups := Grouped(rules);
    GroupedFacts(rules);
    forall i, j | 0 <= i <= j < |Jobs(groups)| ensures Jobs(groups)[j] > 0 && Jobs(groups)[i] % Jobs(groups)[j] == 0 {
      JobsDescend(groups, i, j);
      JobsDescend(groups, j, j);
      TimeoutsDivide(Jobs(groups)[i], Jobs(groups)[j]);
    }
  }

  lemma {:induction false} SumOfTimeouts(rules: seq<Rule>)
    ensures Sum(Map(TimeoutOf, rules)) == Total(rules)
  {
    if rules != [] { SumOfTimeouts(rules[1..]); }
  }

  lemma {:induction false} AllAtLeast(rules: seq<Rule>, t: int)
    requires forall i :: 0 <= i < |rules| ==> rules[i].ActualTimeout() >= t
    ensures SumBy(AtLeast(t), rules) == Total(rules)
  {
    if rules != [] { AllAtLeast(rules[1..], t); }
  }

  lemma {:induction false} PrefixWithin(rules: seq<Rule>, n: nat, t: int)
    requires n <= |rules| && forall i :: 0 <= i < n ==> rules[i].ActualTimeout() >= t
    ensures Sum(Map(TimeoutOf, rules)[..n]) <= SumBy(AtLeast(t), rules)
  {
    var a, b := rules[..n], rules[n..];
    SplitWithin(a, b, t);
    MapTake(TimeoutOf, rules, n);
    assert a + b == rules;
  }

  lemma {:induction false} SplitWithin(a: seq<Rule>, b: seq<Rule>, t: int)
    requires forall i :: 0 <= i < |a| ==> a[i].ActualTimeout() >= t
    ensures Sum(Map(TimeoutOf, a)) <= SumBy(AtLeast(t), a + b)
  {
    SumOfTimeouts(a);
    AllAtLeast(a, t);
    AtLeastNonNegative(b, t);
    SumByAppend(AtLeast(t), a, b);
  }

  lemma {:induction false} AtLeastNonNegative(rules: seq<Rule>, t: int)
    ensures 0 <= SumBy(AtLeast(t), rules) <= Total(rules)
  {
    if rules != [] { AtLeastNonNegative(rules[1..], t); }
  }

  lemma {:induction false} AtLeastDivisible(rules: seq<Rule>, t: int)
    requires t in TIMEOUTS
    ensures SumBy(AtLeast(t), rules) % t == 0
  {
    if rules != [] {
      AtLeastDivisible(rules[1..], t);
      if rules[0].ActualTimeout() >= t {
        TimeoutsDivide(rules[0].ActualTimeout(), t);
        DivisibleSum(rules[0].ActualTimeout(), SumBy(AtLeast(t), rules[1..]), t);
      }
    }
  }

  function Loads(t: int, shards: seq<seq<Rule>>): seq<int> {
    Map((s: seq<Rule>) => SumBy(AtLeast(t), s), shards)
  }

  lemma {:induction false} LoadsAddUp(t: int, shards: seq<seq<Rule>>)
    ensures Sum(Loads(t, shards)) == SumBy(AtLeast(t), Concat(shards))
  {
    if shards != [] {
      LoadsAddUp(t, shards[1..]);
      SumByAppend(AtLeast(t), shards[0], Concat(shards[1..]));
      assert Loads(t, shards) == [SumBy(AtLeast(t), shards[0])] + Loads(t, shards[1..]);
      assert Loads(t, shards)[1..] == Loads(t, shards[1..]);
    }
  }

  lemma {:induction false} MultipleGap(x: int, load: int, t: int)
    requires t > 0 && x % t == 0 && load % t == 0 && x > load - t
    ensures x >= load
  {
    var p, q := x / t, load / t;
    assert x == t * p && load == t * q;
    assert t * (p - q + 1) > 0;
    PositiveFactor(p - q + 1, t);
    TimesNonNegative(p - q, t);
  }

  lemma PositiveFactor(k: int, t: int)
    requires t > 0 && t * k > 0
    ensures k > 0
  {}

  lemma TimesNonNegative(k: int, t: int)
    requires t > 0 && k >= 0
    ensures t * k >= 0
  {}

  /** `other` deals the same rules to the same number of shards, in any way whatever. */
  ghost predicate IsPlan(rules: seq<Rule>, other: seq<seq<Rule>>, count: nat) {
    |other| == count && multiset(Concat(other)) == multiset(rules)
  }

  lemma {:induction false} CrowdedRules(groups: seq<TimeGroup>, k: nat, count: nat, load: int) returns (t: int)
    requires WellGrouped(groups) && (forall g :: g in groups ==> g.timeout in TIMEOUTS)
    requires Crowded(Jobs(groups), k, count, load)
    ensures t in TIMEOUTS && load % t == 0 && SumBy(AtLeast(t), AllRules(groups)) > count * (load - t)
  {
    t := Jobs(groups)[k];
    JobsDescend(groups, k, k);
    LongJobsWithin(groups, k);
    CrowdedTotal(Jobs(groups), k, count, load, SumBy(AtLeast(t), AllRules(groups)));
  }

  lemma CrowdedTotal(jobs: seq<int>, k: nat, count: nat, load: int, total: int)
    requires Crowded(jobs, k, count, load) && Sum(jobs[..k + 1]) <= total
    ensures load % jobs[k] == 0 && total > count * (load - jobs[k])
  {}

  lemma {:induction false} CrowdedPlan(rules: seq<Rule>, other: seq<seq<Rule>>, count: nat, k: nat, load: int)
    returns (j: nat)
    requires count > 0 && IsPlan(rules, other, count)
    requires Crowded(Jobs(Grouped(rules)), k, count, load)
    ensures j < count && Total(other[j]) >= load
  {
    GroupedFacts(rules);
    var t := CrowdedRules(Grouped(rules), k, count, load);
    SumByPermutation(AtLeast(t), AllRules(Grouped(rules)), Concat(other));
    j := CrowdedShard(other, t, load);
  }

  /** The jobs up to `k` are among those that need at least as long as job `k`. */
  lemma {:induction false} LongJobsWithin(groups: seq<TimeGroup>, k: nat)
    requires WellGrouped(groups) && k < |Jobs(groups)|
    ensures Sum(Jobs(groups)[..k + 1]) <= SumBy(AtLeast(Jobs(groups)[k]), AllRules(groups))
  {
    JobsFollowGroups(groups);
    var all := AllRules(groups);
    forall i | 0 <= i < k + 1 ensures all[i].ActualTimeout() >= Jobs(groups)[k] {
      JobsDescend(groups, i, k);
      assert Jobs(groups)[i] == TimeoutOf(all[i]);
    }
    PrefixWithin(all, k + 1, Jobs(groups)[k]);
  }

  lemma {:induction false} CrowdedShard(other: seq<seq<Rule>>, t: int, load: int) returns (j: nat)
    requires t in TIMEOUTS && load % t == 0
    requires SumBy(AtLeast(t), Concat(other)) > |other| * (load - t)
    ensures j < |other| && Total(other[j]) >= load
  {
    LoadsAddUp(t, other);
    j := Pigeonhole(Loads(t, other), load - t);
    AtLeastDivisible(other[j], t);
    MultipleGap(SumBy(AtLeast(t), other[j]), load, t);
    AtLeastNonNegative(other[j], t);
  }

  /**
   * The greedy strategy is makespan-optimal: whatever shard you look at, every other way of dealing
   * the rules to `count` shards has a shard that takes at least as long.
   */
  lemma {:induction false} OptimalMakespan(rules: seq<Rule>, other: seq<seq<Rule>>, count: nat, i: nat)
    requires i < count && IsPlan(rules, other, count)
    ensures IsPlan(rules, OptimalShards(Grouped(rules), count), count)
    ensures exists j :: 0 <= j < count && Total(OptimalShards(Grouped(rules), count)[i]) <= Total(other[j])
  {
    var groups := Grouped(rules);
    GroupedFacts(rules);
    FillRefinesAllocation(groups, count, i);
    var load := Allocate(Jobs(groups), count).times[i];
    var j: nat := 0;
    if load > 0 {
      JobsChain(rules);
      var k := DecidingJob(Jobs(groups), count, i);
      j := CrowdedPlan(rules, other, count, k, load);
    } else {
      AtLeastNonNegative(other[0], 0);
    }
    assert Total(OptimalShards(groups, count)[i]) <= Total(other[j]);
  }

  // ----- No empty shards, and balance -----

  function NoTests(shard: seq<Rule>): int {
    if shard == [] then 1 else 0
  }

  lemma {:induction false} TotalPositive(rules: seq<Rule>)
    ensures Total(rules) >= |rules|
  {
    if rules != [] { TotalPositive(rules[1..]); }
  }

  lemma {:induction false} IdleIsEmpty(shards: seq<seq<Rule>>, times: seq<int>)
    requires |shards| == |times| && forall i :: 0 <= i < |shards| ==> Total(shards[i]) == times[i]
    ensures SumBy(NoTests, shards) == SumBy(Idle, times)
  {
    if shards != [] {
      TotalPositive(shards[0]);
      IdleIsEmpty(shards[1..], times[1..]);
    }
  }

  /** With n rules exactly max(0, count - n) shards stay empty; loads differ by one timeout at most. */
  lemma {:induction false} BalancedShards(rules: seq<Rule>, count: nat, largest: int)
    requires count > 0 && 0 <= largest && forall r :: r in rules ==> r.ActualTimeout() <= largest
    ensures SumBy(NoTests, OptimalShards(Grouped(rules), count)) == if |rules| < count then count - |rules| else 0
    ensures forall i, j :: 0 <= i < count && 0 <= j < count ==>
              Total(OptimalShards(Grouped(rules), count)[i]) - Total(OptimalShards(Grouped(rules), count)[j]) <= largest
  {
    var groups := Grouped(rules);
    var jobs := Jobs(groups);
    var shards := OptimalShards(groups, count);
    JobsOfRules(rules, largest);
    EmptyShards(jobs, count);
    forall i | 0 <= i < count ensures Total(shards[i]) == Allocate(jobs, count).times[i] {
      GroupedFacts(rules);
      FillRefinesAllocation(groups, count, i);
    }
    IdleIsEmpty(shards, Allocate(jobs, count).times);
    forall i, j | 0 <= i < count && 0 <= j < count ensures Total(shards[i]) - Total(shards[j]) <= largest {
      LoadSpread(jobs, count, largest, i, j);
    }
  }

  lemma {:induction false} JobsOfRules(rules: seq<Rule>, largest: int)
    requires forall r :: r in rules ==> r.ActualTimeout() <= largest
    ensures |Jobs(Grouped(rules))| == |rules|
    ensures forall k :: 0 <= k < |rules| ==> 0 < Jobs(Grouped(rules))[k] <= largest
  {
    GroupedFacts(rules);
    JobsFollowGroups(Grouped(rules));
    TimeoutsWithin(AllRules(Grouped(rules)), rules, largest);
  }

  lemma {:induction false} TimeoutsWithin(all: seq<Rule>, rules: seq<Rule>, largest: int)
    requires multiset(all) == multiset(rules) && forall r :: r in rules ==> r.ActualTimeout() <= largest
    ensures |Map(TimeoutOf, all)| == |rules|
    ensures forall k :: 0 <= k < |rules| ==> 0 < Map(TimeoutOf, all)[k] <= largest
  {
    PermutationLength(all, rules);
    forall k | 0 <= k < |rules| ensures 0 < TimeoutOf(all[k]) <= largest {
      assert all[k] in multiset(rules);
    }
  }

  // ----- One shard's tests, under either strategy -----

  datatype Strategy = Optimal | Naive

  /** Python's `s[index::count]`. */
  function Stride<T>(s: seq<T>, index: nat, count: nat): seq<T>
    requires count > 0
    decreases if index < |s| then |s| - index else 0
  {
    if index >= |s| then [] else [s[index]] + Stride(s, index + count, count)
  }

  /** What `bazel_sharding.main` returns for one shard. */
  ghost function ShardNames(strategy: Strategy, rules: seq<Rule>, index: nat, count: nat): seq<string>
    requires index < count
  {
    match strategy
    case Optimal => Sort(StrLe, Names(OptimalShards(Grouped(rules), count)[index]))
    case Naive => Names(Stride(Sort(RuleLe, AllRules(Grouped(rules))), index, count))
  }

  method GetRulesForShardNaive(groups: seq<TimeGroup>, index: nat, count: nat) returns (names: seq<string>)
    requires index < count
    ensures names == Names(Stride(Sort(RuleLe, AllRules(groups)), index, count))
  {
    var allRules: seq<Rule> := [];
    for g := 0 to |groups|
      invariant allRules == AllRules(groups[..g])
    {
      AllRulesSnoc(groups[..g], groups[g]);
      assert groups[..g + 1] == groups[..g] + [groups[g]];
      allRules := allRules + groups[g].rules;
    }
    assert groups[..|groups|] == groups;
    names := Names(Stride(Sort(RuleLe, allRules), index, count));
  }

  /** `bazel_sharding.main` on the rules the query returned: it fails only for repeated rules. */
  method ShardTargets(rules: seq<Rule>, index: nat, count: nat, strategy: Strategy) returns (r: Checked)
    requires index < count
    ensures r.Failed? <==> strategy.Optimal? && !NoDups(rules)
    ensures r.Ok? ==> r.names == ShardNames(strategy, rules, index, count)
  {
    var groups := GroupRulesByTimeNeeded(rules);
    GroupedFacts(rules);
    if NoDups(rules) { NoDupsPermutation(rules, AllRules(groups)); }
    if NoDups(AllRules(groups)) { NoDupsPermutation(AllRules(groups), rules); }
    if strategy.Optimal? {
      r := GetRulesForShardOptimal(groups, index, count);
    } else {
      var names := GetRulesForShardNaive(groups, index, count);
      r := Ok(names);
    }
  }

  // ----- Every rule is in one shard -----

  ghost predicate OnlyShard(strategy: Strategy, rules: seq<Rule>, count: nat, name: string, i: nat) {
    && i < count
    && multiset(ShardNames(strategy, rules, i, count))[name] == 1
    && forall j: nat :: j < count && name in ShardNames(strategy, rules, j, count) ==> j == i
  }

  lemma {:induction false} NamesConcat(shards: seq<seq<Rule>>)
    ensures Names(Concat(shards)) == Concat(Map(Names, shards))
  {
    if shards != [] {
      NamesConcat(shards[1..]);
      MapAppend(NameOf, shards[0], Concat(shards[1..]));
      assert Map(Names, shards)[1..] == Map(Names, shards[1..]);
    }
  }

  lemma {:induction false} SortedMembers(s: seq<string>, x: string)
    ensures multiset(Sort(StrLe, s))[x] == multiset(s)[x]
    ensures x in Sort(StrLe, s) <==> x in s
  {
    SortPermutes(StrLe, s);
    assert x in Sort(StrLe, s) <==> x in multiset(Sort(StrLe, s));
    assert x in s <==> x in multiset(s);
  }

  lemma {:induction false} OptimalNames(rules: seq<Rule>, count: nat)
    requires count > 0
    ensures multiset(Concat(Map(Names, OptimalShards(Grouped(rules), count)))) == multiset(Names(rules))
  {
    var shards := OptimalShards(Grouped(rules), count);
    GroupedFacts(rules);
    FillRefinesAllocation(Grouped(rules), count, 0);
    NamesConcat(shards);
    MapPermutation(NameOf, rules, Concat(shards));
  }

  lemma {:induction false} OptimalOnce(rules: seq<Rule>, count: nat, name: string) returns (i: nat)
    requires count > 0 && NoDups(Names(rules)) && name in Names(rules)
    ensures OnlyShard(Optimal, rules, count, name, i)
  {
    var shards := OptimalShards(Grouped(rules), count);
    var parts := Map(Names, shards);
    OptimalNames(rules, count);
    NoDupsPermutation(Names(rules), Concat(parts));
    assert name in multiset(Names(rules));
    assert name in multiset(Concat(parts));
    ConcatMembers(parts, name);
    i :| 0 <= i < |parts| && name in parts[i];
    OnePart(parts, i, i, name);
    NoDupsMultiplicity(parts[i], name);
    SortedMembers(parts[i], name);
    forall j: nat | j < count && name in ShardNames(Optimal, rules, j, count) ensures j == i {
      SortedMembers(parts[j], name);
      OnePart(parts, i, j, name);
    }
  }

  lemma {:induction false} StrideHas<T>(s: seq<T>, i: nat, c: nat, q: nat)
    requires c > 0 && i + q * c < |s|
    ensures s[i + q * c] in Stride(s, i, c)
    decreases q
  {
    if q > 0 {
      assert i + q * c == i + c + (q - 1) * c;
      StrideHas(s, i + c, c, q - 1);
    }
  }

  lemma {:induction false} StrideFrom<T>(s: seq<T>, i: nat, c: nat, x: T) returns (q: nat)
    requires c > 0 && x in Stride(s, i, c)
    ensures i + q * c < |s| && s[i + q * c] == x
    decreases |s| - i
  {
    if s[i] == x {
      q := 0;
    } else {
      var p := StrideFrom(s, i + c, c, x);
      q := p + 1;
      assert i + q * c == i + c + p * c;
    }
  }

  lemma {:induction false} StrideNoDups<T>(s: seq<T>, i: nat, c: nat)
    requires c > 0 && NoDups(s)
    ensures NoDups(Stride(s, i, c))
    decreases if i < |s| then |s| - i else 0
  {
    if i < |s| {
      StrideNoDups(s, i + c, c);
      if s[i] in Stride(s, i + c, c) {
        var q := StrideFrom(s, i + c, c, s[i]);
        assert false;
      }
    }
  }

  lemma {:induction false} StrideNames(s: seq<Rule>, i: nat, c: nat)
    requires c > 0
    ensures Names(Stride(s, i, c)) == Stride(Names(s), i, c)
    decreases if i < |s| then |s| - i else 0
  {
    if i < |s| { StrideNames(s, i + c, c); }
  }

  lemma {:induction false} SameResidue(i: nat, q: nat, j: nat, p: nat, c: nat)
    requires i < c && j < c && i + q * c == j + p * c
    ensures i == j
  {
    if i < j {
      SmallMultiple(q - p, c) by { assert c * (q - p) == j - i; }
    } else {
      SmallMultiple(p - q, c) by { assert c * (p - q) == i - j; }
    }
  }

  lemma QuotientRemainder(p: nat, count: nat)
    requires count > 0
    ensures p == p % count + (p / count) * count
  {}

  /** Position `p` belongs to the stride that starts at its remainder, and to no other. */
  lemma {:induction false} StrideOf(names: seq<string>, count: nat, p: nat, j: nat)
    requires j < count && p < |names| && NoDups(names) && names[p] in Stride(names, j, count)
    ensures j == p % count
  {
    var r := StrideFrom(names, j, count, names[p]);
    QuotientRemainder(p, count);
    SameResidue(p % count, p / count, j, r, count);
  }

  lemma {:induction false} StrideOnce(names: seq<string>, count: nat, name: string) returns (i: nat)
    requires count > 0 && NoDups(names) && name in names
    ensures i < count && name in Stride(names, i, count)
    ensures forall j: nat :: j < count && name in Stride(names, j, count) ==> j == i
  {
    var p :| 0 <= p < |names| && names[p] == name;
    i := p % count;
    QuotientRemainder(p, count);
    StrideHas(names, i, count, p / count);
    forall j: nat | j < count && name in Stride(names, j, count) ensures j == i {
      StrideOf(names, count, p, j);
    }
  }

  lemma {:induction false} NaiveNames(rules: seq<Rule>)
    ensures multiset(Names(Sort(RuleLe, AllRules(Grouped(rules))))) == multiset(Names(rules))
  {
    GroupedFacts(rules);
    SortPermutes(RuleLe, AllRules(Grouped(rules)));
    MapPermutation(NameOf, rules, Sort(RuleLe, AllRules(Grouped(rules))));
  }

  lemma {:induction false} NaiveDistinct(rules: seq<Rule>, all: seq<Rule>, name: string)
    requires NoDups(Names(rules)) && name in Names(rules) && all == Sort(RuleLe, AllRules(Grouped(rules)))
    ensures NoDups(Names(all)) && name in Names(all)
  {
    NaiveNames(rules);
    NoDupsPermutation(Names(rules), Names(all));
    assert name in multiset(Names(rules));
    assert name in multiset(Names(all));
  }

  lemma {:induction false} NaiveOnce(rules: seq<Rule>, count: nat, name: string) returns (i: nat)
    requires count > 0 && NoDups(Names(rules)) && name in Names(rules)
    ensures OnlyShard(Naive, rules, count, name, i)
  {
    var all := Sort(RuleLe, AllRules(Grouped(rules)));
    NaiveDistinct(rules, all, name);
    i := StrideOnce(Names(all), count, name);
    StrideNames(all, i, count);
    StrideNoDups(Names(all), i, count);
    NoDupsMultiplicity(Stride(Names(all), i, count), name);
    forall j: nat | j < count && name in ShardNames(Naive, rules, j, count) ensures j == i {
      StrideNames(all, j, count);
    }
  }

  lemma {:induction false} InOneShard(strategy: Strategy, rules: seq<Rule>, count: nat, name: string) returns (i: nat)
    requires count > 0 && NoDups(Names(rules)) && name in Names(rules)
    ensures OnlyShard(strategy, rules, count, name, i)
  {
    match strategy
    case Optimal => i := OptimalOnce(rules, count, name);
    case Naive => i := NaiveOnce(rules, count, name);
  }

  // ----- Workers that never talk to each other -----

  lemma {:induction false} ShardNamesDeterministic(strategy: Strategy, a: seq<Rule>, b: seq<Rule>, index: nat,
                                                   count: nat)
    requires index < count && multiset(a) == multiset(b) && NoDups(Names(a))
    ensures ShardNames(strategy, a, index, count) == ShardNames(strategy, b, index, count)
  {
    GroupedDeterministic(a, b);
  }

  /** Worker `w` owns shard `i`, computed from its own listing of the rules, and runs `name` in it. */
  ghost predicate RunsOn(strategy: Strategy, listings: seq<seq<Rule>>, perWorker: nat, name: string, w: nat, i: nat) {
    && w * perWorker <= i < (w + 1) * perWorker && i < |listings|
    && name in ShardNames(strategy, listings[i], i, |listings|)
  }

  /** Every shard was computed from the same distinctly named rules, in an order of its own. */
  ghost predicate SameRules(listings: seq<seq<Rule>>, rules: seq<Rule>) {
    && NoDups(Names(rules))
    && forall i :: 0 <= i < |listings| ==> multiset(listings[i]) == multiset(rules)
  }

  lemma TimesMonotone(a: nat, b: nat, c: nat)
    requires a <= b
    ensures a * c <= b * c
  {}

  lemma {:induction false} WorkerOf(i: nat, workers: nat, perWorker: nat) returns (w: nat)
    requires i < workers * perWorker
    ensures w < workers && w * perWorker <= i < (w + 1) * perWorker
  {
    assert perWorker > 0;
    w := i / perWorker;
    assert i == w * perWorker + i % perWorker;
    if w >= workers {
      TimesMonotone(workers, w, perWorker);
      assert false;
    }
  }

  lemma {:induction false} OneWorker(i: nat, perWorker: nat, v: nat, w: nat)
    requires v * perWorker <= i < (v + 1) * perWorker && w * perWorker <= i < (w + 1) * perWorker
    ensures v == w
  {
    if v < w {
      TimesMonotone(v + 1, w, perWorker);
      assert false;
    } else if w < v {
      TimesMonotone(w + 1, v, perWorker);
      assert false;
    }
  }

  /**
   * Coordination-free exactly-once: every shard of every worker is computed from scratch, from its own
   * listing of the rules, yet every test runs on one worker, in one of its shards, once.
   */
  lemma {:induction false} ExactlyOnce(strategy: Strategy, rules: seq<Rule>, listings: seq<seq<Rule>>,
                    workers: nat, perWorker: nat, name: string) returns (w: nat, i: nat)
    requires 0 < workers && 0 < perWorker && |listings| == workers * perWorker
    requires SameRules(listings, rules) && name in Names(rules)
    ensures w < workers && RunsOn(strategy, listings, perWorker, name, w, i)
    ensures multiset(ShardNames(strategy, listings[i], i, |listings|))[name] == 1
    ensures forall v: nat, j: nat :: RunsOn(strategy, listings, perWorker, name, v, j) ==> v == w && j == i
  {
    var count := |listings|;
    i := InOneShard(strategy, rules, count, name);
    w := WorkerOf(i, workers, perWorker);
    ShardNamesDeterministic(strategy, rules, listings[i], i, count);
    forall v: nat, j: nat | RunsOn(strategy, listings, perWorker, name, v, j) ensures v == w && j == i {
      ShardNamesDeterministic(strategy, rules, listings[j], j, count);
      OneWorker(i, perWorker, v, w);
    }
  }

  lemma {:induction false} PartsWithin(parts: seq<seq<string>>, index: nat, names: seq<string>, name: string)
    requires multiset(Concat(parts)) == multiset(names) && index < |parts| && name in parts[index]
    ensures name in names
  {
    ConcatMembers(parts, name);
    assert name in multiset(Concat(parts));
    assert name in multiset(names);
  }

  lemma {:induction false} StrideWithin(all: seq<string>, index: nat, count: nat, names: seq<string>, name: string)
    requires count > 0 && multiset(all) == multiset(names) && name in Stride(all, index, count)
    ensures name in names
  {
    var q := StrideFrom(all, index, count, name);
    assert name in multiset(all);
    assert name in multiset(names);
  }

  /** Nothing runs that was not asked for. */
  lemma {:induction false} NothingElse(strategy: Strategy, rules: seq<Rule>, index: nat, count: nat, name: string)
    requires index < count && name in ShardNames(strategy, rules, index, count)
    ensures name in Names(rules)
  {
    match strategy {
      case Optimal =>
        var parts := Map(Names, OptimalShards(Grouped(rules), count));
        SortedMembers(parts[index], name);
        OptimalNames(rules, count);
        PartsWithin(parts, index, Names(rules), name);
      case Naive =>
        var all := Sort(RuleLe, AllRules(Grouped(rules)));
        StrideNames(all, index, count);
        NaiveNames(rules);
        StrideWithin(Names(all), index, count, Names(rules), name);
    }
  }
}
