/** What the sharder's answers guarantee, stated on the test names it returns. */
module ShardGuarantees {
  import opened Seqs
  import opened Sorting
  import opened StringOrder
  import opened BazelRules
  import opened ShardAllocation
  import opened ShardFill
  import opened Sharding

  function NameIn(names: seq<string>): Rule -> bool {
    (r: Rule) => r.name in names
  }

  /** The rules that a list of names stands for. */
  function Named(rules: seq<Rule>, names: seq<string>): seq<Rule> {
    Filter(NameIn(names), rules)
  }

  /** The seconds that shard `i` of the optimal strategy takes. */
  ghost function ShardTime(rules: seq<Rule>, i: nat, count: nat): int
    requires i < count
  {
    Total(Named(rules, ShardNames(Optimal, rules, i, count)))
  }

  // ----- The names of a shard stand for its rules -----

  lemma {:induction false} NamesMember(rules: seq<Rule>, name: string)
    ensures name in Names(rules) <==> exists r :: r in rules && r.name == name
  {
    var names := Names(rules);
    if name in names {
      var i :| 0 <= i < |rules| && names[i] == name;
      assert rules[i] in rules;
    }
    if r :| r in rules && r.name == name {
      var i :| 0 <= i < |rules| && rules[i] == r;
      assert names[i] == name;
    }
  }

  lemma {:induction false} SameRule(rules: seq<Rule>, r: Rule, s: Rule)
    requires NoDups(Names(rules)) && r in rules && s in rules && r.name == s.name
    ensures r == s
  {
    var i :| 0 <= i < |rules| && rules[i] == r;
    var j :| 0 <= j < |rules| && rules[j] == s;
    assert Names(rules)[i] == Names(rules)[j];
  }

  lemma {:induction false} DistinctRules(rules: seq<Rule>)
    requires NoDups(Names(rules))
    ensures NoDups(rules)
  {
    forall i, j | 0 <= i < j < |rules| ensures rules[i] != rules[j] {
      assert Names(rules)[i] != Names(rules)[j];
    }
  }

  lemma {:induction false} FilterNoDups(p: Rule -> bool, rules: seq<Rule>)
    requires NoDups(rules)
    ensures NoDups(Filter(p, rules))
  {
    if rules != [] {
      FilterNoDups(p, rules[1..]);
      FilterMembers(p, rules[1..]);
      assert rules[0] !in rules[1..];
    }
  }

  /** A part of the rules is what its own names select. */
  lemma {:induction false} NamedPart(rules: seq<Rule>, part: seq<Rule>, names: seq<string>)
    requires NoDups(Names(rules)) && NoDups(part) && multiset(names) == multiset(Names(part))
    requires forall r :: r in part ==> r in rules
    ensures multiset(Named(rules, names)) == multiset(part)
  {
    var named := Named(rules, names);
    DistinctRules(rules);
    FilterNoDups(NameIn(names), rules);
    FilterMembers(NameIn(names), rules);
    forall r: Rule ensures multiset(named)[r] == multiset(part)[r] {
      assert r.name in names <==> r.name in multiset(names);
      assert r.name in Names(part) <==> r.name in multiset(Names(part));
      NamesMember(part, r.name);
      if r in rules && r.name in names {
        var s :| s in part && s.name == r.name;
        SameRule(rules, r, s);
      }
      NoDupsMultiplicity(named, r);
      NoDupsMultiplicity(part, r);
    }
  }

  lemma {:induction false} ShardPart(rules: seq<Rule>, i: nat, count: nat)
    requires NoDups(Names(rules)) && i < count
    ensures var part := OptimalShards(Grouped(rules), count)[i];
            NoDups(part) && forall r :: r in part ==> r in rules
  {
    var shards := OptimalShards(Grouped(rules), count);
    DistinctRules(rules);
    GroupedFacts(rules);
    FillRefinesAllocation(Grouped(rules), count, i);
    NoDupsPermutation(rules, Concat(shards));
    PermutationElements(rules, Concat(shards));
    forall r | r in shards[i] ensures r in rules {
      ConcatMembers(shards, r);
      assert r in Elements(Concat(shards));
    }
    if shards[i] != [] { OnePart(shards, i, i, shards[i][0]); }
  }

  lemma {:induction false} ShardStandsFor(rules: seq<Rule>, i: nat, count: nat)
    requires NoDups(Names(rules)) && i < count
    ensures multiset(Named(rules, ShardNames(Optimal, rules, i, count)))
         == multiset(OptimalShards(Grouped(rules), count)[i])
    ensures ShardTime(rules, i, count) == Total(OptimalShards(Grouped(rules), count)[i])
  {
    var part := OptimalShards(Grouped(rules), count)[i];
    var names := ShardNames(Optimal, rules, i, count);
    ShardPart(rules, i, count);
    SortPermutes(StrLe, Names(part));
    NamedPart(rules, part, names);
    SumByPermutation(TimeoutOf, Named(rules, names), part);
  }

  // ----- Optimality and balance of the answers -----

  /** No shard takes longer than the longest shard of any other way of dealing the rules. */
  lemma {:induction false} AnswersAreOptimal(rules: seq<Rule>, other: seq<seq<Rule>>, count: nat, i: nat)
    requires NoDups(Names(rules)) && i < count && IsPlan(rules, other, count)
    ensures exists j :: 0 <= j < count && ShardTime(rules, i, count) <= Total(other[j])
  {
    ShardStandsFor(rules, i, count);
    OptimalMakespan(rules, other, count, i);
  }

  function NoNames(names: seq<string>): int {
    if names == [] then 1 else 0
  }

  ghost function Answers(strategy: Strategy, rules: seq<Rule>, count: nat): seq<seq<string>> {
    seq(count, i requires 0 <= i < count => ShardNames(strategy, rules, i, count))
  }

  lemma {:induction false} EmptyAlike(answers: seq<seq<string>>, shards: seq<seq<Rule>>)
    requires |answers| == |shards| && forall i :: 0 <= i < |shards| ==> (answers[i] == [] <==> shards[i] == [])
    ensures SumBy(NoNames, answers) == SumBy(NoTests, shards)
  {
    if shards != [] {
      EmptyAlike(answers[1..], shards[1..]);
    }
  }

  /** With n tests, exactly max(0, count - n) shards are empty, and times differ by at most the largest timeout. */
  lemma {:induction false} AnswersAreBalanced(rules: seq<Rule>, count: nat, largest: int)
    requires NoDups(Names(rules)) && count > 0 && 0 <= largest
    requires forall r :: r in rules ==> r.ActualTimeout() <= largest
    ensures SumBy(NoNames, Answers(Optimal, rules, count)) == if |rules| < count then count - |rules| else 0
    ensures forall i, j :: 0 <= i < count && 0 <= j < count ==>
              ShardTime(rules, i, count) - ShardTime(rules, j, count) <= largest
  {
    var answers, shards := Answers(Optimal, rules, count), OptimalShards(Grouped(rules), count);
    BalancedShards(rules, count, largest);
    forall i | 0 <= i < count ensures answers[i] == [] <==> shards[i] == [] {
      SortPermutes(StrLe, Names(shards[i]));
    }
    EmptyAlike(answers, shards);
    forall i, j | 0 <= i < count && 0 <= j < count
      ensures ShardTime(rules, i, count) - ShardTime(rules, j, count) <= largest
    {
      ShardStandsFor(rules, i, count);
      ShardStandsFor(rules, j, count);
    }
  }

  // ----- Tests of one timeout are clustered by name -----

  lemma {:induction false} InPortion(groups: seq<TimeGroup>, slots: seq<map<int, int>>, i: nat, r: Rule)
    returns (k: nat)
    requires i < |slots| && NonNegative(slots) && r in ShardRules(groups, slots, i)
    ensures k < |groups| && r in Portion(groups[k], slots, i)
  {
    var n := |groups| - 1;
    if r in Portion(groups[n], slots, i) {
      k := n;
    } else {
      k := InPortion(groups[..n], slots, i, r);
    }
  }

  /** Where in the name-sorted group a shard finds its tests. */
  lemma {:induction false} PortionPosition(g: TimeGroup, slots: seq<map<int, int>>, i: nat, r: Rule) returns (p: nat)
    requires i < |slots| && Fits([g], slots) && r in Portion(g, slots, i)
    ensures StartOf(slots, g.timeout, i) <= p < StartOf(slots, g.timeout, i + 1)
    ensures p < |Sort(NameLe, g.rules)| && Sort(NameLe, g.rules)[p] == r
  {
    PortionExact(g, slots, i);
    StartNonNegative(slots, g.timeout, i);
    SortPermutes(NameLe, g.rules);
    var a :| 0 <= a < |Portion(g, slots, i)| && Portion(g, slots, i)[a] == r;
    SliceAt(Sort(NameLe, g.rules), StartOf(slots, g.timeout, i), Slot(slots[i], g.timeout), a);
    p := StartOf(slots, g.timeout, i) + a;
  }

  /** What an earlier shard takes of a group lies before what a later one takes. */
  lemma {:induction false} PortionsByName(g: TimeGroup, slots: seq<map<int, int>>, i: nat, j: nat, r: Rule, s: Rule)
    requires i < j < |slots| && Fits([g], slots) && r in Portion(g, slots, i) && s in Portion(g, slots, j)
    ensures NameLe(r, s)
  {
    var p := PortionPosition(g, slots, i, r);
    var q := PortionPosition(g, slots, j, s);
    StartMonotone(slots, g.timeout, i + 1, j);
    RuleOrderIsTotal();
    SortSorts(NameLe, g.rules);
  }

  lemma SliceAt<T>(s: seq<T>, start: nat, n: nat, k: nat)
    requires start + n <= |s| && k < n
    ensures |Slice(s, start, start + n)| == n && Slice(s, start, start + n)[k] == s[start + k]
  {}

  lemma {:induction false} SameGroup(groups: seq<TimeGroup>, slots: seq<map<int, int>>, i: nat, r: Rule, k: nat)
    requires WellGrouped(groups) && Fits(groups, slots) && i < |slots|
    requires k < |groups| && r in Portion(groups[k], slots, i)
    ensures r.ActualTimeout() == groups[k].timeout && Fits([groups[k]], slots)
  {
    PortionExact(groups[k], slots, i);
  }

  lemma {:induction false} ShardsByName(groups: seq<TimeGroup>, slots: seq<map<int, int>>, i: nat, j: nat,
                                        r: Rule, s: Rule)
    requires WellGrouped(groups) && Fits(groups, slots) && i < j < |slots|
    requires r in ShardRules(groups, slots, i) && s in ShardRules(groups, slots, j)
    requires r.ActualTimeout() == s.ActualTimeout()
    ensures NameLe(r, s)
  {
    var k := InPortion(groups, slots, i, r);
    var l := InPortion(groups, slots, j, s);
    SameGroup(groups, slots, i, r, k);
    SameGroup(groups, slots, j, s, l);
    assert k == l;
    PortionsByName(groups[k], slots, i, j, r, s);
  }

  lemma {:induction false} RuleOfName(rules: seq<Rule>, i: nat, count: nat, r: Rule)
    requires NoDups(Names(rules)) && i < count && r in rules && r.name in ShardNames(Optimal, rules, i, count)
    ensures r in OptimalShards(Grouped(rules), count)[i]
  {
    var part := OptimalShards(Grouped(rules), count)[i];
    SortedMembers(Names(part), r.name);
    NamesMember(part, r.name);
    var s :| s in part && s.name == r.name;
    ShardPart(rules, i, count);
    SameRule(rules, r, s);
  }

  /** Of two tests with the same timeout in different shards, the one in the earlier shard has the smaller name. */
  lemma {:induction false} AnswersClusterByName(rules: seq<Rule>, count: nat, i: nat, j: nat, r: Rule, s: Rule)
    requires NoDups(Names(rules)) && i < j < count && r in rules && s in rules
    requires r.name in ShardNames(Optimal, rules, i, count) && s.name in ShardNames(Optimal, rules, j, count)
    requires r.ActualTimeout() == s.ActualTimeout()
    ensures StrLt(r.name, s.name)
  {
    var groups := Grouped(rules);
    GroupedFacts(rules);
    AllocationFits(groups, count);
    RuleOfName(rules, i, count, r);
    RuleOfName(rules, j, count, s);
    ShardsByName(groups, Allocate(Jobs(groups), count).slots, i, j, r, s);
    if r.name == s.name {
      var only := InOneShard(Optimal, rules, count, r.name) by { NamesMember(rules, r.name); }
      assert false;
    }
  }

  /** An answer lists its names in order. */
  lemma {:induction false} AnswersAreSorted(rules: seq<Rule>, i: nat, count: nat)
    requires i < count
    ensures Sorted(StrLe, ShardNames(Optimal, rules, i, count))
  {
    StrLeIsTotal();
    SortSorts(StrLe, Names(OptimalShards(Grouped(rules), count)[i]));
  }

  // ----- The naive strategy -----

  lemma {:induction false} NamesSorted(s: seq<Rule>)
    requires Sorted(RuleLe, s)
    ensures Sorted(StrLe, Names(s))
  {
    forall i, j | 0 <= i < j < |s| ensures StrLe(Names(s)[i], Names(s)[j]) {
      assert RuleLe(s[i], s[j]);
    }
  }

  lemma {:induction false} NaiveOrder(rules: seq<Rule>)
    ensures Names(Sort(RuleLe, AllRules(Grouped(rules)))) == Sort(StrLe, Names(rules))
  {
    var all := Sort(RuleLe, AllRules(Grouped(rules)));
    RuleOrderIsTotal();
    StrLeIsTotal();
    SortSorts(RuleLe, AllRules(Grouped(rules)));
    NamesSorted(all);
    NaiveNames(rules);
    SortSorts(StrLe, Names(rules));
    SortPermutes(StrLe, Names(rules));
    forall x, y | StrLe(x, y) && StrLe(y, x) ensures x == y { StrLeAntisymmetric(x, y); }
    SortedUnique(StrLe, Names(all), Sort(StrLe, Names(rules)));
  }

  lemma {:induction false} StrideAt<T>(s: seq<T>, i: nat, c: nat, q: nat)
    requires c > 0
    ensures q < |Stride(s, i, c)| <==> i + q * c < |s|
    ensures q < |Stride(s, i, c)| ==> Stride(s, i, c)[q] == s[i + q * c]
    decreases q
  {
    if q > 0 {
      assert i + q * c == i + c + (q - 1) * c;
      StrideAt(s, i + c, c, q - 1);
    }
  }

  /** The naive strategy deals the tests out by name, one shard after the other. */
  lemma {:induction false} NaiveDeals(rules: seq<Rule>, i: nat, count: nat, q: nat)
    requires i < count
    ensures var answer, sorted := ShardNames(Naive, rules, i, count), Sort(StrLe, Names(rules));
            && (q < |answer| <==> i + q * count < |sorted|)
            && (q < |answer| ==> answer[q] == sorted[i + q * count])
  {
    var all := Sort(RuleLe, AllRules(Grouped(rules)));
    NaiveOrder(rules);
    StrideNames(all, i, count);
    StrideAt(Names(all), i, count, q);
  }
}
