/** Phase 1 of the sharder: greedy allocation of slots to the least-loaded shard. */
module ShardAllocation {
  import opened Seqs
  import opened BazelRules

  /** Load in seconds and slots per timeout, shard by shard. */
  datatype Allocation = Allocation(times: seq<int>, slots: seq<map<int, int>>)

  /** Lookup in a `defaultdict(int)`. */
  function Slot(m: map<int, int>, t: int): int {
    if t in m then m[t] else 0
  }

  /** `shard_slots[...][timeout] += 1`. */
  function Bump(m: map<int, int>, t: int): map<int, int> {
    m[t := Slot(m, t) + 1]
  }

  /** `min(range(count), key=...)`: the first of the least-loaded shards. */
  function LeastLoaded(times: seq<int>): (k: nat)
    requires times != []
    ensures k < |times|
  {
    var last := |times| - 1;
    if last == 0 then 0
    else
      var k := LeastLoaded(times[..last]);
      if times[last] < times[k] then last else k
  }

  /** No shard has a smaller load, and every earlier one a larger. */
  lemma {:induction false} FirstLeastLoaded(times: seq<int>)
    requires times != []
    ensures forall j :: 0 <= j < |times| ==> times[LeastLoaded(times)] <= times[j]
    ensures forall j :: 0 <= j < LeastLoaded(times) ==> times[LeastLoaded(times)] < times[j]
  {
    var last := |times| - 1;
    if last > 0 {
      FirstLeastLoaded(times[..last]);
      forall j | 0 <= j < last ensures times[..last][j] == times[j] {}
    }
  }

  function Place(a: Allocation, t: int): Allocation
    requires 0 < |a.times| == |a.slots|
  {
    var k := LeastLoaded(a.times);
    Allocation(a.times[k := a.times[k] + t], a.slots[k := Bump(a.slots[k], t)])
  }

  function Zeros(count: nat): seq<int> {
    seq(count, _ => 0)
  }

  function NoSlots(count: nat): seq<map<int, int>> {
    seq(count, _ => map[])
  }

  /** The state after placing `jobs` in order on `count` shards. */
  function Allocate(jobs: seq<int>, count: nat): (a: Allocation)
    requires count > 0
    ensures |a.times| == |a.slots| == count
  {
    if jobs == [] then Allocation(Zeros(count), NoSlots(count))
    else Place(Allocate(jobs[..|jobs| - 1], count), jobs[|jobs| - 1])
  }

  lemma {:induction false} AllocateSnoc(jobs: seq<int>, t: int, count: nat)
    requires count > 0
    ensures Allocate(jobs + [t], count) == Place(Allocate(jobs, count), t)
  {
    assert (jobs + [t])[..|jobs|] == jobs;
  }

  function Repeat(t: int, n: nat): seq<int> {
    seq(n, _ => t)
  }

  lemma RepeatSnoc(before: seq<int>, t: int, k: nat)
    ensures before + Repeat(t, k) + [t] == before + Repeat(t, k + 1)
  {}

  /** One job per rule, in the order the two nested loops visit them. */
  function Jobs(groups: seq<TimeGroup>): seq<int> {
    if groups == [] then []
    else Jobs(groups[..|groups| - 1]) + Repeat(groups[|groups| - 1].timeout, |groups[|groups| - 1].rules|)
  }

  /** Placing `n` jobs of `t` seconds each: one run of the inner loop. */
  function PlaceMany(a: Allocation, t: int, n: nat): (r: Allocation)
    requires 0 < |a.times| == |a.slots|
    ensures |r.times| == |r.slots| == |a.times|
  {
    if n == 0 then a else Place(PlaceMany(a, t, n - 1), t)
  }

  function AllocateGroups(groups: seq<TimeGroup>, count: nat): (r: Allocation)
    requires count > 0
    ensures |r.times| == |r.slots| == count
  {
    if groups == [] then Allocation(Zeros(count), NoSlots(count))
    else
      var g := groups[|groups| - 1];
      PlaceMany(AllocateGroups(groups[..|groups| - 1], count), g.timeout, |g.rules|)
  }

  lemma {:induction false} PlaceManyIsAllocate(before: seq<int>, t: int, n: nat, count: nat)
    requires count > 0
    ensures PlaceMany(Allocate(before, count), t, n) == Allocate(before + Repeat(t, n), count)
  {
    if n == 0 {
      assert before + Repeat(t, 0) == before;
    } else {
      PlaceManyIsAllocate(before, t, n - 1, count);
      PlaceOneMore(before, t, n, count);
    }
  }

  lemma {:induction false} PlaceOneMore(before: seq<int>, t: int, n: nat, count: nat)
    requires count > 0 && n > 0
    requires PlaceMany(Allocate(before, count), t, n - 1) == Allocate(before + Repeat(t, n - 1), count)
    ensures PlaceMany(Allocate(before, count), t, n) == Allocate(before + Repeat(t, n), count)
  {
    RepeatSnoc(before, t, n - 1);
    AllocateSnoc(before + Repeat(t, n - 1), t, count);
  }

  /** The nested loops place the flat list of jobs. */
  lemma {:induction false} GroupsAreJobs(groups: seq<TimeGroup>, count: nat)
    requires count > 0
    ensures AllocateGroups(groups, count) == Allocate(Jobs(groups), count)
  {
    if groups != [] {
      var n := |groups| - 1;
      GroupsAreJobs(groups[..n], count);
      PlaceManyIsAllocate(Jobs(groups[..n]), groups[n].timeout, |groups[n].rules|, count);
    }
  }

  /** The inner loop: each of `n` tests goes to the least-loaded shard. */
  method PlaceGroup(oldTimes: seq<int>, oldSlots: seq<map<int, int>>, t: int, n: nat)
    returns (times: seq<int>, slots: seq<map<int, int>>)
    requires 0 < |oldTimes| == |oldSlots|
    ensures Allocation(times, slots) == PlaceMany(Allocation(oldTimes, oldSlots), t, n)
  {
    times, slots := oldTimes, oldSlots;
    for k := 0 to n
      invariant Allocation(times, slots) == PlaceMany(Allocation(oldTimes, oldSlots), t, k)
    {
      var best := LeastLoaded(times);
      slots := slots[best := Bump(slots[best], t)];
      times := times[best := times[best] + t];
    }
  }

  method AllocateSlotsToShards(groups: seq<TimeGroup>, count: nat) returns (slots: seq<map<int, int>>)
    requires count > 0
    ensures slots == Allocate(Jobs(groups), count).slots
  {
    var times := Zeros(count);
    slots := NoSlots(count);
    for g := 0 to |groups|
      invariant Allocation(times, slots) == AllocateGroups(groups[..g], count)
    {
      assert groups[..g + 1][..g] == groups[..g];
      times, slots := PlaceGroup(times, slots, groups[g].timeout, |groups[g].rules|);
    }
    assert groups[..|groups|] == groups;
    GroupsAreJobs(groups, count);
  }

  // ----- What every step keeps -----

  function SlotAt(t: int): map<int, int> -> int {
    m => Slot(m, t)
  }

  lemma {:induction false} SumZeros(n: nat)
    ensures Sum(Zeros(n)) == 0
  {
    if n > 0 {
      SumZeros(n - 1);
      assert Zeros(n)[1..] == Zeros(n - 1);
    }
  }

  /** No second is lost: the loads add up to the jobs placed. */
  lemma {:induction false} LoadsConserved(jobs: seq<int>, count: nat)
    requires count > 0
    ensures Sum(Allocate(jobs, count).times) == Sum(jobs)
  {
    if jobs == [] {
      SumZeros(count);
    } else {
      var n := |jobs| - 1;
      LoadsConserved(jobs[..n], count);
      PlaceAddsLoad(Allocate(jobs[..n], count), jobs[n]);
      SumBySnoc(Id, jobs[..n], jobs[n]);
      assert jobs == jobs[..n] + [jobs[n]];
    }
  }

  lemma {:induction false} PlaceAddsLoad(a: Allocation, t: int)
    requires 0 < |a.times| == |a.slots|
    ensures Sum(Place(a, t).times) == Sum(a.times) + t
  {
    var k := LeastLoaded(a.times);
    SumByUpdate(Id, a.times, k, a.times[k] + t);
  }

  lemma {:induction false} NoSlotsCount(n: nat, t: int)
    ensures SumBy(SlotAt(t), NoSlots(n)) == 0
  {
    if n > 0 {
      NoSlotsCount(n - 1, t);
      assert NoSlots(n)[1..] == NoSlots(n - 1);
    }
  }

  /** The slots for a timeout number exactly the jobs with that timeout. */
  lemma {:induction false} SlotsCount(jobs: seq<int>, count: nat, t: int)
    requires count > 0
    ensures SumBy(SlotAt(t), Allocate(jobs, count).slots) == multiset(jobs)[t]
  {
    if jobs == [] {
      NoSlotsCount(count, t);
    } else {
      var n := |jobs| - 1;
      SlotsCount(jobs[..n], count, t);
      var prev := Allocate(jobs[..n], count);
      var k := LeastLoaded(prev.times);
      SumByUpdate(SlotAt(t), prev.slots, k, Bump(prev.slots[k], jobs[n]));
      assert jobs == jobs[..n] + [jobs[n]];
    }
  }

  function Weight(m: map<int, int>): TimeGroup -> int {
    (g: TimeGroup) => g.timeout * Slot(m, g.timeout)
  }

  /** Seconds taken by the slots of one shard. */
  function SlotTime(groups: seq<TimeGroup>, m: map<int, int>): int {
    SumBy(Weight(m), groups)
  }

  ghost predicate Classed(groups: seq<TimeGroup>, t: int) {
    exists g :: g in groups && g.timeout == t
  }

  lemma {:induction false} SlotTimeBump(groups: seq<TimeGroup>, m: map<int, int>, t: int)
    requires Descending(groups)
    ensures SlotTime(groups, Bump(m, t))
         == SlotTime(groups, m) + if Classed(groups, t) then t else 0
  {
    if groups != [] {
      SlotTimeBump(groups[1..], m, t);
      if groups[0].timeout == t {
        assert t * (Slot(m, t) + 1) == t * Slot(m, t) + t;
        assert forall g :: g in groups[1..] ==> g.timeout < t;
      } else {
        assert forall g :: g in groups && g.timeout == t ==> g in groups[1..];
      }
    }
  }

  lemma {:induction false} SlotTimeEmpty(groups: seq<TimeGroup>)
    ensures SlotTime(groups, map[]) == 0
  {
    if groups != [] {
      SlotTimeEmpty(groups[1..]);
    }
  }

  /** A shard's load is the time its slots stand for. */
  lemma {:induction false} LoadIsSlotTime(groups: seq<TimeGroup>, jobs: seq<int>, count: nat, i: nat)
    requires i < count && Descending(groups)
    requires forall k :: 0 <= k < |jobs| ==> Classed(groups, jobs[k])
    ensures Allocate(jobs, count).times[i] == SlotTime(groups, Allocate(jobs, count).slots[i])
  {
    if jobs == [] {
      SlotTimeEmpty(groups);
    } else {
      var n := |jobs| - 1;
      LoadIsSlotTime(groups, jobs[..n], count, i);
      SlotTimeBump(groups, Allocate(jobs[..n], count).slots[i], jobs[n]);
    }
  }

  /** A common divisor of the jobs divides every load. */
  lemma {:induction false} LoadsDivisible(jobs: seq<int>, count: nat, d: int, i: nat)
    requires i < count && d > 0 && forall k :: 0 <= k < |jobs| ==> jobs[k] % d == 0
    ensures Allocate(jobs, count).times[i] % d == 0
  {
    if jobs != [] {
      var n := |jobs| - 1;
      LoadsDivisible(jobs[..n], count, d, i);
      DivisibleSum(Allocate(jobs[..n], count).times[i], jobs[n], d);
    }
  }

  lemma {:induction false} DivisibleSum(a: int, b: int, d: int)
    requires d > 0 && a % d == 0 && b % d == 0
    ensures (a + b) % d == 0
  {
    var q := a / d + b / d;
    assert a + b == d * q by {
      assert a == d * (a / d) && b == d * (b / d);
    }
    Multiple(q, d);
  }

  lemma {:induction false} Multiple(k: int, d: int)
    requires d > 0
    ensures (d * k) % d == 0
  {
    var q, r := (d * k) / d, (d * k) % d;
    assert d * (k - q) == r;
    assert 0 <= r < d;
    SmallMultiple(k - q, d);
  }

  lemma SmallMultiple(k: int, d: int)
    requires d > 0 && 0 <= d * k < d
    ensures k == 0
  {}

  /** At every step, two loads differ by at most the largest job placed so far. */
  lemma {:induction false} LoadSpread(jobs: seq<int>, count: nat, largest: int, i: nat, j: nat)
    requires i < count && j < count && 0 <= largest && forall k :: 0 <= k < |jobs| ==> 0 <= jobs[k] <= largest
    ensures Allocate(jobs, count).times[i] - Allocate(jobs, count).times[j] <= largest
  {
    if jobs != [] {
      LoadSpread(jobs[..|jobs| - 1], count, largest, i, j);
      FirstLeastLoaded(Allocate(jobs[..|jobs| - 1], count).times);
    }
  }

  function Idle(x: int): int {
    if x <= 0 then 1 else 0
  }

  lemma {:induction false} AllIdle(n: nat)
    ensures SumBy(Idle, Zeros(n)) == n
  {
    if n > 0 {
      AllIdle(n - 1);
      assert Zeros(n)[1..] == Zeros(n - 1);
    }
  }

  lemma {:induction false} NoneIdle(times: seq<int>)
    requires forall i :: 0 <= i < |times| ==> times[i] > 0
    ensures SumBy(Idle, times) == 0
  {
    if times != [] { NoneIdle(times[1..]); }
  }

  lemma {:induction false} IdleBound(times: seq<int>, i: nat)
    requires i < |times|
    ensures 0 <= SumBy(Idle, times) && (times[i] <= 0 ==> SumBy(Idle, times) >= 1)
  {
    if |times| > 1 {
      IdleBound(times[1..], if i == 0 then 0 else i - 1);
    }
  }

  lemma {:induction false} IdleStep(times: seq<int>, k: nat, t: int)
    requires k < |times| && t > 0 && 0 <= times[k]
    requires forall j :: 0 <= j < |times| ==> times[k] <= times[j]
    ensures SumBy(Idle, times[k := times[k] + t])
         == if SumBy(Idle, times) > 0 then SumBy(Idle, times) - 1 else 0
  {
    SumByUpdate(Idle, times, k, times[k] + t);
    IdleBound(times, k);
    if times[k] > 0 { NoneIdle(times); }
  }

  lemma {:induction false} IdlePlace(a: Allocation, t: int)
    requires 0 < |a.times| == |a.slots| && t > 0 && 0 <= a.times[LeastLoaded(a.times)]
    ensures SumBy(Idle, Place(a, t).times) == if SumBy(Idle, a.times) > 0 then SumBy(Idle, a.times) - 1 else 0
  {
    FirstLeastLoaded(a.times);
    IdleStep(a.times, LeastLoaded(a.times), t);
  }

  lemma {:induction false} LoadsNonNegative(jobs: seq<int>, count: nat, i: nat)
    requires i < count && forall k :: 0 <= k < |jobs| ==> jobs[k] > 0
    ensures Allocate(jobs, count).times[i] >= 0
  {
    if jobs != [] {
      LoadsNonNegative(jobs[..|jobs| - 1], count, i);
    }
  }

  /** No empty shards while there is work: n jobs leave exactly max(0, count - n) shards empty. */
  lemma {:induction false} EmptyShards(jobs: seq<int>, count: nat)
    requires count > 0 && forall k :: 0 <= k < |jobs| ==> jobs[k] > 0
    ensures SumBy(Idle, Allocate(jobs, count).times) == if |jobs| < count then count - |jobs| else 0
  {
    if jobs == [] {
      AllIdle(count);
    } else {
      var n := |jobs| - 1;
      EmptyShards(jobs[..n], count);
      LoadsNonNegative(jobs[..n], count, LeastLoaded(Allocate(jobs[..n], count).times));
      IdlePlace(Allocate(jobs[..n], count), jobs[n]);
    }
  }

  // ----- The job that decides a shard's load -----

  /** Positive sizes in which every later job divides every earlier one. */
  ghost predicate Chain(jobs: seq<int>) {
    && (forall i :: 0 <= i < |jobs| ==> jobs[i] > 0)
    && (forall i, j :: 0 <= i <= j < |jobs| ==> jobs[i] % jobs[j] == 0)
  }

  lemma {:induction false} SumLowerBound(xs: seq<int>, c: int)
    requires forall i :: 0 <= i < |xs| ==> xs[i] >= c
    ensures Sum(xs) >= |xs| * c
  {
    if xs != [] {
      SumLowerBound(xs[1..], c);
    }
  }

  /** The jobs up to `k` total more than `count` times the load without job `k`. */
  ghost predicate Crowded(jobs: seq<int>, k: nat, count: nat, load: int) {
    k < |jobs| && jobs[k] > 0 && load % jobs[k] == 0 && Sum(jobs[..k + 1]) > count * (load - jobs[k])
  }

  lemma {:induction false} LastJob(jobs: seq<int>, count: nat, i: nat)
    requires i < count && jobs != [] && Chain(jobs)
    requires LeastLoaded(Allocate(jobs[..|jobs| - 1], count).times) == i
    ensures Crowded(jobs, |jobs| - 1, count, Allocate(jobs, count).times[i])
  {
    var n := |jobs| - 1;
    var a := Allocate(jobs[..n], count);
    LoadsDivisible(jobs, count, jobs[n], i);
    PlacedTotal(a, jobs[..n], jobs[n], count);
    assert jobs[..n + 1] == jobs[..n] + [jobs[n]];
    assert Allocate(jobs, count) == Place(a, jobs[n]);
  }

  lemma {:induction false} PlacedTotal(a: Allocation, before: seq<int>, t: int, count: nat)
    requires count > 0 && a == Allocate(before, count) && t > 0
    ensures Sum(before + [t]) > count * (Place(a, t).times[LeastLoaded(a.times)] - t)
  {
    LoadsConserved(before, count);
    FirstLeastLoaded(a.times);
    SumLowerBound(a.times, a.times[LeastLoaded(a.times)]);
    SumBySnoc(Id, before, t);
    PlaceOnLeast(a, t);
  }

  lemma PlaceOnLeast(a: Allocation, t: int)
    requires 0 < |a.times| == |a.slots|
    ensures Place(a, t).times[LeastLoaded(a.times)] - t == a.times[LeastLoaded(a.times)]
  {}

  lemma {:induction false} CrowdedPrefix(jobs: seq<int>, n: nat, k: nat, count: nat, load: int)
    requires n <= |jobs| && Chain(jobs) && Crowded(jobs[..n], k, count, load)
    ensures Crowded(jobs, k, count, load)
  {
    assert jobs[..n][..k + 1] == jobs[..k + 1];
  }

  /**
   * The last job `k` on a busy shard was put there because every shard already carried at least
   * load minus that job, so the jobs up to `k` total more than `count` times that much.
   */
  lemma {:induction false} DecidingJob(jobs: seq<int>, count: nat, i: nat) returns (k: nat)
    requires i < count && Chain(jobs) && Allocate(jobs, count).times[i] > 0
    ensures Crowded(jobs, k, count, Allocate(jobs, count).times[i])
  {
    var n := |jobs| - 1;
    var prev := Allocate(jobs[..n], count);
    if LeastLoaded(prev.times) == i {
      k := n;
      LastJob(jobs, count, i);
    } else {
      assert Allocate(jobs, count).times[i] == prev.times[i];
      k := DecidingJob(jobs[..n], count, i);
      CrowdedPrefix(jobs, n, k, count, prev.times[i]);
    }
  }
}
