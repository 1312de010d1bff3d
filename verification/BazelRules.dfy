/** Bazel test rules and their grouping by timeout (ray/ci/ray_ci/bazel_sharding.py). */
module BazelRules {
  import opened Seqs
  import opened Sorting
  import opened StringOrder

  datatype Size = Small | Medium | Large | Enormous
  datatype Timeout = Short | Moderate | Long | Eternal

  datatype Rule = Rule(name: string, size: Size, timeout: Option<Timeout>) {
    /** Seconds Bazel allows the rule; an explicit timeout takes priority over the size. */
    function ActualTimeout(): (t: int)
      ensures t in TIMEOUTS
    {
      match timeout
      case Some(Short) => 60
      case Some(Moderate) => 60 * 5
      case Some(Long) => 60 * 15
      case Some(Eternal) => 60 * 60
      case None =>
        match size
        case Small => 60
        case Medium => 60 * 5
        case Large => 60 * 15
        case Enormous => 60 * 60
    }
  }

  /** Every possible timeout, longest first. */
  const TIMEOUTS: seq<int> := [3600, 900, 300, 60]

  /**
   * Bazel's table: an explicit timeout decides alone, longer timeouts and larger sizes mean more seconds,
   * and each size stands for one timeout. With the four values in `TIMEOUTS` this leaves no choice.
   */
  lemma {:induction false} TimeoutTable(a: Rule, b: Rule)
    ensures a.timeout.Some? && a.timeout == b.timeout ==> a.ActualTimeout() == b.ActualTimeout()
    ensures a.timeout.None? && b.timeout.None? && a.size == b.size ==> a.ActualTimeout() == b.ActualTimeout()
    ensures a.(timeout := Some(Short)).ActualTimeout() < a.(timeout := Some(Moderate)).ActualTimeout()
            < a.(timeout := Some(Long)).ActualTimeout() < a.(timeout := Some(Eternal)).ActualTimeout()
    ensures Rule(a.name, Small, None).ActualTimeout() < Rule(a.name, Medium, None).ActualTimeout()
            < Rule(a.name, Large, None).ActualTimeout() < Rule(a.name, Enormous, None).ActualTimeout()
    ensures Elements(TIMEOUTS) == {60, 5 * 60, 15 * 60, 60 * 60}
  {
    assert Elements(TIMEOUTS) == {TIMEOUTS[0], TIMEOUTS[1], TIMEOUTS[2], TIMEOUTS[3]};
  }

  /** The complement of `BazelRule.__lt__` with its operands exchanged. */
  predicate RuleLe(a: Rule, b: Rule) {
    StrLt(a.name, b.name) || (a.name == b.name && a.ActualTimeout() <= b.ActualTimeout())
  }

  predicate NameLe(a: Rule, b: Rule) {
    StrLe(a.name, b.name)
  }

  function NameOf(r: Rule): string { r.name }

  function Names(rules: seq<Rule>): seq<string> {
    Map(NameOf, rules)
  }

  function TimeoutOf(r: Rule): int { r.ActualTimeout() }

  /** Total timeout of a shard. */
  function Total(rules: seq<Rule>): int {
    SumBy(TimeoutOf, rules)
  }

  datatype TimeGroup = TimeGroup(timeout: int, rules: seq<Rule>)

  function Needs(t: int): Rule -> bool {
    (r: Rule) => r.ActualTimeout() == t
  }

  function Bucket(rules: seq<Rule>, t: int): seq<Rule> {
    Sort(RuleLe, Filter(Needs(t), rules))
  }

  /** The non-empty buckets for the timeouts `ts`, in that order. */
  function GroupsFor(ts: seq<int>, rules: seq<Rule>): seq<TimeGroup> {
    if ts == [] then []
    else
      (if Filter(Needs(ts[0]), rules) == [] then [] else [TimeGroup(ts[0], Bucket(rules, ts[0]))])
      + GroupsFor(ts[1..], rules)
  }

  /** What `group_rules_by_time_needed` returns. */
  function Grouped(rules: seq<Rule>): seq<TimeGroup> {
    GroupsFor(TIMEOUTS, rules)
  }

  ghost predicate Descending(groups: seq<TimeGroup>) {
    forall i, j :: 0 <= i < j < |groups| ==> groups[i].timeout > groups[j].timeout
  }

  /** What the shard functions expect: descending timeouts, each rule filed under its own. */
  ghost predicate WellGrouped(groups: seq<TimeGroup>) {
    && Descending(groups)
    && (forall i :: 0 <= i < |groups| ==> forall r :: r in groups[i].rules ==> r.ActualTimeout() == groups[i].timeout)
  }

  function RulesOf(g: TimeGroup): seq<Rule> { g.rules }

  /** `all_rules` of the source: the groups' rules, one group after the other. */
  function AllRules(groups: seq<TimeGroup>): seq<Rule> {
    Concat(Map(RulesOf, groups))
  }

  lemma {:induction false} RuleOrderIsTotal()
    ensures TotalPreorder(RuleLe) && TotalPreorder(NameLe)
  {
    StrLeIsTotal();
    forall x: Rule, y: Rule ensures RuleLe(x, y) || RuleLe(y, x) {
      StrTrichotomy(x.name, y.name);
    }
    forall x: Rule, y: Rule, z: Rule | RuleLe(x, y) && RuleLe(y, z) ensures RuleLe(x, z) {
      if StrLt(x.name, y.name) && StrLt(y.name, z.name) { StrTransitive(x.name, y.name, z.name); }
    }
  }

  lemma {:induction false} DistinctNamesNoTies(rules: seq<Rule>, some: seq<Rule>)
    requires NoDups(Names(rules)) && forall r :: r in some ==> r in rules
    ensures NoTies(RuleLe, some) && NoTies(NameLe, some)
  {
    forall x, y | x in some && y in some && StrLe(x.name, y.name) && StrLe(y.name, x.name) ensures x == y {
      StrLeAntisymmetric(x.name, y.name);
      var i :| 0 <= i < |rules| && rules[i] == x;
      var j :| 0 <= j < |rules| && rules[j] == y;
      assert Names(rules)[i] == Names(rules)[j];
    }
  }

  lemma {:induction false} BucketMembers(rules: seq<Rule>, t: int)
    ensures forall r :: r in Bucket(rules, t) <==> r in rules && r.ActualTimeout() == t
    ensures multiset(Bucket(rules, t)) == multiset(Filter(Needs(t), rules))
  {
    SortPermutes(RuleLe, Filter(Needs(t), rules));
    FilterMembers(Needs(t), rules);
    forall r ensures r in Bucket(rules, t) <==> r in rules && r.ActualTimeout() == t {
      assert r in Bucket(rules, t) <==> r in multiset(Bucket(rules, t));
      assert r in Filter(Needs(t), rules) <==> r in multiset(Filter(Needs(t), rules));
    }
  }

  function NeedsAny(ts: seq<int>): Rule -> bool {
    (r: Rule) => r.ActualTimeout() in ts
  }

  lemma {:induction false} FilterSplit(ts: seq<int>, rules: seq<Rule>)
    requires ts != [] && ts[0] !in ts[1..]
    ensures multiset(Filter(NeedsAny(ts), rules))
         == multiset(Filter(Needs(ts[0]), rules)) + multiset(Filter(NeedsAny(ts[1..]), rules))
  {
    if rules != [] {
      FilterSplit(ts, rules[1..]);
    }
  }

  ghost predicate Decreasing(ts: seq<int>) {
    forall i, j :: 0 <= i < j < |ts| ==> ts[i] > ts[j]
  }

  /** A rule group is listed exactly when its timeout is, and some rule needs it. */
  lemma {:induction false} GroupsForMembers(ts: seq<int>, rules: seq<Rule>, g: TimeGroup)
    ensures g in GroupsFor(ts, rules)
       <==> g.timeout in ts && Filter(Needs(g.timeout), rules) != [] && g.rules == Bucket(rules, g.timeout)
  {
    if ts != [] {
      GroupsForMembers(ts[1..], rules, g);
    }
  }

  lemma {:induction false} GroupsForDescend(ts: seq<int>, rules: seq<Rule>)
    requires Decreasing(ts)
    ensures Descending(GroupsFor(ts, rules))
  {
    if ts != [] {
      var rest := GroupsFor(ts[1..], rules);
      GroupsForDescend(ts[1..], rules);
      forall g | g in rest ensures g.timeout < ts[0] {
        GroupsForMembers(ts[1..], rules, g);
      }
    }
  }

  lemma {:induction false} AllRulesCons(g: TimeGroup, groups: seq<TimeGroup>)
    ensures AllRules([g] + groups) == g.rules + AllRules(groups)
  {
    assert ([g] + groups)[1..] == groups;
    assert Map(RulesOf, [g] + groups) == [g.rules] + Map(RulesOf, groups);
    assert ([g.rules] + Map(RulesOf, groups))[1..] == Map(RulesOf, groups);
  }

  lemma {:induction false} GroupsForKeep(ts: seq<int>, rules: seq<Rule>)
    requires Decreasing(ts)
    ensures multiset(AllRules(GroupsFor(ts, rules))) == multiset(Filter(NeedsAny(ts), rules))
  {
    if ts == [] {
      FilterKeepsNone(NeedsAny(ts), rules);
    } else {
      GroupsForKeep(ts[1..], rules);
      FilterSplit(ts, rules);
      BucketMembers(rules, ts[0]);
      var rest := GroupsFor(ts[1..], rules);
      if Filter(Needs(ts[0]), rules) == [] {
        assert GroupsFor(ts, rules) == rest;
      } else {
        var g := TimeGroup(ts[0], Bucket(rules, ts[0]));
        assert GroupsFor(ts, rules) == [g] + rest;
        AllRulesCons(g, rest);
      }
    }
  }

  lemma {:induction false} GroupsForFacts(ts: seq<int>, rules: seq<Rule>)
    requires Decreasing(ts) && forall r :: r in rules ==> r.ActualTimeout() in ts
    ensures WellGrouped(GroupsFor(ts, rules))
    ensures multiset(AllRules(GroupsFor(ts, rules))) == multiset(rules)
    ensures forall g :: g in GroupsFor(ts, rules) ==> g.timeout in ts
  {
    GroupsForKeep(ts, rules);
    GroupsForDescend(ts, rules);
    FilterKeepsAll(NeedsAny(ts), rules);
    forall g | g in GroupsFor(ts, rules)
      ensures g.timeout in ts && forall r :: r in g.rules ==> r.ActualTimeout() == g.timeout
    {
      GroupsForMembers(ts, rules, g);
      BucketMembers(rules, g.timeout);
    }
  }

  /** Grouping loses and invents nothing, and files every rule under its own timeout, longest first. */
  lemma {:induction false} GroupedFacts(rules: seq<Rule>)
    ensures WellGrouped(Grouped(rules))
    ensures multiset(AllRules(Grouped(rules))) == multiset(rules)
    ensures forall g :: g in Grouped(rules) ==> g.timeout in TIMEOUTS
  {
    GroupsForFacts(TIMEOUTS, rules);
  }

  lemma {:induction false} BucketPermutation(t: int, a: seq<Rule>, b: seq<Rule>)
    requires multiset(a) == multiset(b) && NoDups(Names(a))
    ensures Bucket(a, t) == Bucket(b, t) && |Filter(Needs(t), a)| == |Filter(Needs(t), b)|
  {
    FilterPermutation(Needs(t), a, b);
    PermutationLength(Filter(Needs(t), a), Filter(Needs(t), b));
    RuleOrderIsTotal();
    FilterMembers(Needs(t), a);
    DistinctNamesNoTies(a, Filter(Needs(t), a));
    SortDeterministic(RuleLe, Filter(Needs(t), a), Filter(Needs(t), b));
  }

  lemma {:induction false} GroupsForPermutation(ts: seq<int>, a: seq<Rule>, b: seq<Rule>)
    requires multiset(a) == multiset(b) && NoDups(Names(a))
    ensures GroupsFor(ts, a) == GroupsFor(ts, b)
  {
    if ts != [] {
      GroupsForPermutation(ts[1..], a, b);
      BucketPermutation(ts[0], a, b);
    }
  }

  /** Workers that see the same distinctly named rules in different orders form the same groups. */
  lemma {:induction false} GroupedDeterministic(a: seq<Rule>, b: seq<Rule>)
    requires multiset(a) == multiset(b) && NoDups(Names(a))
    ensures Grouped(a) == Grouped(b)
  {
    GroupsForPermutation(TIMEOUTS, a, b);
  }

  predicate LongerFirst(a: TimeGroup, b: TimeGroup) {
    a.timeout >= b.timeout
  }

  lemma {:induction false} SameElements(a: seq<TimeGroup>, b: seq<TimeGroup>)
    requires NoDups(a) && NoDups(b) && forall g :: g in a <==> g in b
    ensures multiset(a) == multiset(b)
  {
    forall g: TimeGroup ensures multiset(a)[g] == multiset(b)[g] {
      NoDupsMultiplicity(a, g);
      NoDupsMultiplicity(b, g);
    }
  }

  /** Sorting the dictionary's items by descending timeout gives the listing by timeout class. */
  lemma {:induction false} SortedItems(items: seq<TimeGroup>, rules: seq<Rule>)
    requires NoDups(items) && forall g :: g in items <==> g in Grouped(rules)
    ensures Sort(LongerFirst, items) == Grouped(rules)
  {
    GroupedFacts(rules);
    SameElements(items, Grouped(rules));
    SortPermutes(LongerFirst, items);
    SortSorts(LongerFirst, items);
    SortedUnique(LongerFirst, Grouped(rules), Sort(LongerFirst, items));
  }

  /** The dictionary holds, in order of arrival, the rules needing each timeout seen so far. */
  ghost predicate Tallied(grouped: map<int, seq<Rule>>, rules: seq<Rule>, t: int) {
    && Filter(Needs(t), rules) == (if t in grouped then grouped[t] else [])
    && (t in grouped ==> grouped[t] != [])
  }

  /** `grouped_rules[rule.actual_timeout_s].append(rule)` on a dictionary with empty defaults. */
  function File(grouped: map<int, seq<Rule>>, r: Rule): map<int, seq<Rule>> {
    var t := r.ActualTimeout();
    grouped[t := (if t in grouped then grouped[t] else []) + [r]]
  }

  function Tally(rules: seq<Rule>): map<int, seq<Rule>> {
    if rules == [] then map[] else File(Tally(rules[..|rules| - 1]), rules[|rules| - 1])
  }

  lemma {:induction false} FilterSnoc(p: Rule -> bool, rules: seq<Rule>, r: Rule)
    ensures Filter(p, rules + [r]) == if p(r) then Filter(p, rules) + [r] else Filter(p, rules)
  {
    FilterAppend(p, rules, [r]);
    assert [r][1..] == [];
  }

  lemma {:induction false} TallySnoc(rules: seq<Rule>, r: Rule)
    ensures Tally(rules + [r]) == File(Tally(rules), r)
  {
    assert (rules + [r])[..|rules|] == rules;
  }

  lemma {:induction false} TallyAt(rules: seq<Rule>, t: int)
    ensures Filter(Needs(t), rules) == if t in Tally(rules) then Tally(rules)[t] else []
    ensures t in Tally(rules) ==> Tally(rules)[t] != []
  {
    if rules != [] {
      var init, r := rules[..|rules| - 1], rules[|rules| - 1];
      assert rules == init + [r];
      TallyAt(init, t);
      TallySnoc(init, r);
      FilterSnoc(Needs(t), init, r);
    }
  }

  /** `items` lists the sorted dictionary entries whose keys are in `done`. */
  ghost predicate Itemised(items: seq<TimeGroup>, grouped: map<int, seq<Rule>>, done: seq<int>) {
    && NoDups(items)
    && forall g :: g in items <==>
         g.timeout in done && g.timeout in grouped && g.rules == Sort(RuleLe, grouped[g.timeout])
  }

  lemma {:induction false} ItemStep(items: seq<TimeGroup>, grouped: map<int, seq<Rule>>, done: seq<int>, t: int)
    requires Itemised(items, grouped, done) && t in grouped && t !in done
    ensures Itemised(items + [TimeGroup(t, Sort(RuleLe, grouped[t]))], grouped, done + [t])
  {
    var g := TimeGroup(t, Sort(RuleLe, grouped[t]));
    assert g !in items;
    assert forall h :: h in items + [g] <==> h in items || h == g;
  }

  lemma {:induction false} ItemsAreGroups(items: seq<TimeGroup>, grouped: map<int, seq<Rule>>, keys: seq<int>,
                                          rules: seq<Rule>)
    requires forall t :: Tallied(grouped, rules, t)
    requires Itemised(items, grouped, keys) && forall t :: t in keys <==> t in grouped
    ensures Sort(LongerFirst, items) == Grouped(rules)
  {
    forall g ensures g in items <==> g in Grouped(rules) {
      GroupsForMembers(TIMEOUTS, rules, g);
      assert Tallied(grouped, rules, g.timeout);
      if g in items {
        var r := Filter(Needs(g.timeout), rules)[0];
        FilterMembers(Needs(g.timeout), rules);
        assert r in Filter(Needs(g.timeout), rules) && Needs(g.timeout)(r);
      }
    }
    SortedItems(items, rules);
  }

  method GroupRulesByTimeNeeded(rules: seq<Rule>) returns (groups: seq<TimeGroup>)
    ensures groups == Grouped(rules)
  {
    var grouped: map<int, seq<Rule>> := map[];
    var keys: seq<int> := [];  // the dictionary's keys, in insertion order
    for i := 0 to |rules|
      invariant grouped == Tally(rules[..i])
      invariant NoDups(keys) && forall t :: t in keys <==> t in grouped
    {
      assert rules[..i + 1][..i] == rules[..i];
      var t := rules[i].ActualTimeout();
      if t !in grouped { keys := keys + [t]; }
      grouped := File(grouped, rules[i]);
    }
    assert rules[..|rules|] == rules;
    var items: seq<TimeGroup> := [];
    for k := 0 to |keys|
      invariant Itemised(items, grouped, keys[..k])
    {
      ItemStep(items, grouped, keys[..k], keys[k]);
      assert keys[..k + 1] == keys[..k] + [keys[k]];
      items := items + [TimeGroup(keys[k], Sort(RuleLe, grouped[keys[k]]))];
    }
    assert keys[..|keys|] == keys;
    forall t: int ensures Tallied(grouped, rules, t) {
      TallyAt(rules, t);
    }
    ItemsAreGroups(items, grouped, keys, rules);
    groups := Sort(LongerFirst, items);
  }

  /** Within a group the rules are listed by name. */
  lemma {:induction false} GroupsByName(rules: seq<Rule>, k: nat)
    requires k < |Grouped(rules)|
    ensures Sorted(NameLe, Grouped(rules)[k].rules)
  {
    var g := Grouped(rules)[k];
    GroupsForMembers(TIMEOUTS, rules, g);
    RuleOrderIsTotal();
    SortSorts(RuleLe, Filter(Needs(g.timeout), rules));
    forall i, j | 0 <= i < j < |g.rules| ensures NameLe(g.rules[i], g.rules[j]) {
      assert RuleLe(g.rules[i], g.rules[j]);
    }
  }
}
