/** A worker's docker runs: its non-empty shards and the GPUs each run gets. */
module TesterContainers {
  import opened Seqs
  import opened Sorting
  import opened StringOrder
  import opened BazelRules
  import opened ShardFill
  import opened Sharding
  import opened ShardGuarantees

  /** `ceil(a / n)` in exact arithmetic. */
  function CeilDiv(a: nat, n: nat): (q: nat)
    requires n > 0
    ensures n * q >= a && (q > 0 ==> n * (q - 1) < a)
  {
    var q := (a + n - 1) / n;
    assert n * q == a + n - 1 - (a + n - 1) % n;
    q
  }

  function ChunkIntoN<T>(list: seq<T>, n: nat): seq<seq<T>>
    requires n > 0
  {
    var size := CeilDiv(|list|, n);
    seq(n, x requires 0 <= x < n => Slice(list, x * size, x * size + size))
  }

  lemma SliceJoin<T>(list: seq<T>, a: nat, b: nat)
    requires a <= b
    ensures Slice(list, 0, a) + Slice(list, a, b) == Slice(list, 0, b)
  {}

  lemma {:induction false} ChunksPrefix<T>(list: seq<T>, n: nat, x: nat)
    requires 0 < n && x <= n
    ensures Concat(ChunkIntoN(list, n)[..x]) == Slice(list, 0, x * CeilDiv(|list|, n))
  {
    if x > 0 {
      var size := CeilDiv(|list|, n);
      var chunks := ChunkIntoN(list, n);
      ChunksPrefix(list, n, x - 1);
      SliceSnoc(list, chunks[..x - 1], chunks[x - 1], (x - 1) * size, (x - 1) * size + size);
      assert chunks[..x] == chunks[..x - 1] + [chunks[x - 1]];
      TimesNext(x, size);
    }
  }

  lemma TimesNext(x: nat, size: nat)
    requires x > 0
    ensures (x - 1) * size + size == x * size
  {}

  lemma {:induction false} SliceSnoc<T>(list: seq<T>, chunks: seq<seq<T>>, c: seq<T>, a: nat, b: nat)
    requires a <= b && Concat(chunks) == Slice(list, 0, a) && c == Slice(list, a, b)
    ensures Concat(chunks + [c]) == Slice(list, 0, b)
  {
    ConcatSnoc(chunks, c);
    SliceJoin(list, a, b);
  }

  lemma SliceAll<T>(list: seq<T>, b: nat)
    requires b >= |list|
    ensures Slice(list, 0, b) == list
  {}

  lemma ChunkLength<T>(list: seq<T>, n: nat, x: nat)
    requires x < n
    ensures |ChunkIntoN(list, n)[x]| <= CeilDiv(|list|, n)
  {}

  /** Exactly `n` chunks, none longer than ceil(len / n), that concatenate to the list. */
  lemma {:induction false} ChunksTile<T>(list: seq<T>, n: nat)
    requires n > 0
    ensures |ChunkIntoN(list, n)| == n && Concat(ChunkIntoN(list, n)) == list
    ensures forall x :: 0 <= x < n ==> |ChunkIntoN(list, n)[x]| <= CeilDiv(|list|, n)
  {
    ChunksPrefix(list, n, n);
    SliceAll(list, n * CeilDiv(|list|, n));
    assert ChunkIntoN(list, n)[..n] == ChunkIntoN(list, n);
    forall x | 0 <= x < n ensures |ChunkIntoN(list, n)[x]| <= CeilDiv(|list|, n) { ChunkLength(list, n, x); }
  }

  lemma ChunkEmpty<T>(list: seq<T>, n: nat, x: nat)
    requires x < n
    ensures ChunkIntoN(list, n)[x] == [] <==> x * CeilDiv(|list|, n) >= |list|
  {}

  /** Every run gets a GPU exactly when the chunks before the last leave one over. */
  lemma {:induction false} EveryRunGetsGpu<T>(gpus: seq<T>, runs: nat)
    requires runs > 0
    ensures (forall x :: 0 <= x < runs ==> ChunkIntoN(gpus, runs)[x] != [])
       <==> (runs - 1) * CeilDiv(|gpus|, runs) < |gpus|
  {
    ChunkEmpty(gpus, runs, runs - 1);
    forall x: nat | x < runs && (runs - 1) * CeilDiv(|gpus|, runs) < |gpus| ensures ChunkIntoN(gpus, runs)[x] != [] {
      ChunkEmpty(gpus, runs, x);
      TimesMonotone(x, runs - 1, CeilDiv(|gpus|, runs));
    }
  }

  /** Four GPUs over three runs: the even division leaves the third run without any. */
  lemma {:induction false} FourGpusThreeRuns()
    ensures ChunkIntoN([0, 1, 2, 3], 3)[2] == []
  {
    ChunkEmpty([0, 1, 2, 3], 3, 2);
  }

  // ----- Even division -----

  /** The size of the chunk that starts at `at`. */
  function ChunkSize(length: nat, size: nat, at: nat): nat {
    if at + size <= length then size else if at < length then length - at else 0
  }

  lemma ChunkSizeIs<T>(list: seq<T>, n: nat, x: nat)
    requires x < n
    ensures var size := CeilDiv(|list|, n);
            |ChunkIntoN(list, n)[x]| == ChunkSize(|list|, size, x * size)
  {}

  /** With at most one item missing, every chunk is full or lacks one. */
  lemma {:induction false} AlmostFull(length: nat, n: nat, size: nat, x: nat)
    requires x < n && n * size - 1 <= length <= n * size && size > 1
    ensures size - 1 <= ChunkSize(length, size, x * size) <= size
  {
    TimesMonotone(x + 1, n, size);
    assert (x + 1) * size == x * size + size;
  }

  lemma {:induction false} LastChunk(length: nat, n: nat, size: nat)
    requires n > 0 && size > 0 && n * size >= length && n * (size - 1) < length
    ensures ChunkSize(length, size, 0) == size
    ensures var missing := n * size - length;
            ChunkSize(length, size, (n - 1) * size) == if missing < size then size - missing else 0
  {
    assert n * size == (n - 1) * size + size;
    assert n * (size - 1) >= size - 1 by { TimesMonotone(1, n, size - 1); }
  }

  ghost predicate Even<T>(chunks: seq<seq<T>>) {
    forall x, y :: 0 <= x < |chunks| && 0 <= y < |chunks| ==> |chunks[x]| <= |chunks[y]| + 1
  }

  lemma {:induction false} SmallChunksEven<T>(list: seq<T>, n: nat)
    requires n > 0 && CeilDiv(|list|, n) <= 1
    ensures Even(ChunkIntoN(list, n))
  {
    forall x: nat | x < n ensures |ChunkIntoN(list, n)[x]| <= 1 { ChunkSizeIs(list, n, x); }
  }

  lemma {:induction false} AlmostFullEven<T>(list: seq<T>, n: nat)
    requires n > 0 && CeilDiv(|list|, n) > 1 && n * CeilDiv(|list|, n) - |list| <= 1
    ensures Even(ChunkIntoN(list, n))
  {
    var size := CeilDiv(|list|, n);
    forall x: nat | x < n ensures size - 1 <= |ChunkIntoN(list, n)[x]| <= size {
      ChunkSizeIs(list, n, x);
      AlmostFull(|list|, n, size, x);
    }
  }

  lemma {:induction false} UnevenEnds<T>(list: seq<T>, n: nat)
    requires n > 0 && CeilDiv(|list|, n) > 1 && n * CeilDiv(|list|, n) - |list| > 1
    ensures !Even(ChunkIntoN(list, n))
  {
    var chunks := ChunkIntoN(list, n);
    ChunkSizeIs(list, n, 0);
    ChunkSizeIs(list, n, n - 1);
    LastChunk(|list|, n, CeilDiv(|list|, n));
    assert |chunks[0]| > |chunks[n - 1]| + 1;
  }

  /** Chunk sizes differ by at most one exactly when chunks hold at most one item, or at most one is missing. */
  lemma {:induction false} EvenlyDivided<T>(list: seq<T>, n: nat)
    requires n > 0
    ensures var size := CeilDiv(|list|, n);
            Even(ChunkIntoN(list, n)) <==> size <= 1 || n * size - |list| <= 1
  {
    var size := CeilDiv(|list|, n);
    if size <= 1 {
      SmallChunksEven(list, n);
    } else if n * size - |list| <= 1 {
      AlmostFullEven(list, n);
    } else {
      UnevenEnds(list, n);
    }
  }

  /** Seven GPUs over three runs are divided 3, 3, 1. */
  lemma {:induction false} SevenGpusThreeRuns()
    ensures |ChunkIntoN(Gpus(7), 3)[0]| == |ChunkIntoN(Gpus(7), 3)[1]| == 3 && |ChunkIntoN(Gpus(7), 3)[2]| == 1
  {
    ChunkSizeIs(Gpus(7), 3, 0);
    ChunkSizeIs(Gpus(7), 3, 1);
    ChunkSizeIs(Gpus(7), 3, 2);
  }

  // ----- run_tests -----

  datatype DockerRun = DockerRun(tests: seq<string>, gpus: seq<int>)
  datatype Plan = Planned(runs: seq<DockerRun>) | Aborted(error: SanityError)

  function TestsOf(run: DockerRun): seq<string> { run.tests }
  function GpusOf(run: DockerRun): seq<int> { run.gpus }
  predicate HasTests(shard: seq<string>) { shard != [] }

  function Gpus(n: nat): seq<int> {
    seq(n, i => i)
  }

  /** The shards of one container, each computed from its own listing of the rules. */
  ghost function ContainerShards(listings: seq<seq<Rule>>, ids: seq<nat>, count: nat): seq<seq<string>>
    requires |listings| == |ids| && forall k :: 0 <= k < |ids| ==> ids[k] < count
  {
    seq(|ids|, k requires 0 <= k < |ids| => ShardNames(Optimal, listings[k], ids[k], count))
  }

  lemma {:induction false} ContainerSnoc(listings: seq<seq<Rule>>, ids: seq<nat>, count: nat, k: nat)
    requires |listings| == |ids| && k < |ids| && forall j :: 0 <= j < |ids| ==> ids[j] < count
    ensures ContainerShards(listings[..k + 1], ids[..k + 1], count)
         == ContainerShards(listings[..k], ids[..k], count) + [ShardNames(Optimal, listings[k], ids[k], count)]
  {
    var before, after := ContainerShards(listings[..k], ids[..k], count),
                         ContainerShards(listings[..k + 1], ids[..k + 1], count);
    assert |before| == k && |after| == k + 1;
    forall j | 0 <= j < k ensures after[j] == before[j] {}
  }

  ghost predicate AllDistinct(listings: seq<seq<Rule>>) {
    forall k :: 0 <= k < |listings| ==> NoDups(listings[k])
  }

  lemma {:induction false} AllDistinctSnoc(listings: seq<seq<Rule>>, k: nat)
    requires k < |listings|
    ensures AllDistinct(listings[..k + 1]) <==> AllDistinct(listings[..k]) && NoDups(listings[k])
    ensures AllDistinct(listings) ==> NoDups(listings[k])
  {
    assert listings[..k + 1] == listings[..k] + [listings[k]];
  }

  lemma {:induction false} NextChunk(listings: seq<seq<Rule>>, ids: seq<nat>, count: nat, k: nat, names: seq<string>)
    requires |listings| == |ids| && k < |ids| && forall j :: 0 <= j < |ids| ==> ids[j] < count
    requires names == ShardNames(Optimal, listings[k], ids[k], count)
    ensures Filter(HasTests, ContainerShards(listings[..k + 1], ids[..k + 1], count))
         == Filter(HasTests, ContainerShards(listings[..k], ids[..k], count)) + Filter(HasTests, [names])
  {
    ContainerSnoc(listings, ids, count, k);
    FilterAppend(HasTests, ContainerShards(listings[..k], ids[..k], count), [names]);
  }

  /** The shards of the container that hold tests, or the error of the first that cannot be computed. */
  method CollectChunks(listings: seq<seq<Rule>>, ids: seq<nat>, count: nat)
    returns (chunks: seq<seq<string>>, error: Option<SanityError>)
    requires |listings| == |ids| && forall k :: 0 <= k < |ids| ==> ids[k] < count
    ensures error.None? <==> AllDistinct(listings)
    ensures error.None? ==> chunks == Filter(HasTests, ContainerShards(listings, ids, count))
  {
    chunks := [];
    for k := 0 to |ids|
      invariant AllDistinct(listings[..k])
      invariant chunks == Filter(HasTests, ContainerShards(listings[..k], ids[..k], count))
    {
      AllDistinctSnoc(listings, k);
      var shard := ShardTargets(listings[k], ids[k], count, Optimal);
      if shard.Failed? {
        return chunks, Some(shard.error);
      }
      NextChunk(listings, ids, count, k, shard.names);
      chunks := chunks + Filter(HasTests, [shard.names]);
    }
    assert ids[..|ids|] == ids && listings[..|ids|] == listings;
    error := None;
  }

  method RunTests(listings: seq<seq<Rule>>, ids: seq<nat>, count: nat, gpus: nat) returns (plan: Plan)
    requires |listings| == |ids| && forall k :: 0 <= k < |ids| ==> ids[k] < count
    ensures plan.Planned? <==> AllDistinct(listings)
    ensures plan.Planned? ==> Map(TestsOf, plan.runs) == Filter(HasTests, ContainerShards(listings, ids, count))
    ensures plan.Planned? ==> forall i :: 0 <= i < |plan.runs| ==> plan.runs[i].tests != []
    ensures plan.Planned? && plan.runs != [] ==> Map(GpusOf, plan.runs) == ChunkIntoN(Gpus(gpus), |plan.runs|)
  {
    var chunks, error := CollectChunks(listings, ids, count);
    if error.Some? {
      return Aborted(error.value);
    }
    plan := Planned(AssignGpus(chunks, gpus));
    GpusAssigned(chunks, gpus);
    NoEmptyRuns(ContainerShards(listings, ids, count), plan.runs);
  }

  lemma {:induction false} NoEmptyRuns(shards: seq<seq<string>>, runs: seq<DockerRun>)
    requires Map(TestsOf, runs) == Filter(HasTests, shards)
    ensures forall i :: 0 <= i < |runs| ==> runs[i].tests != []
  {
    FilterMembers(HasTests, shards);
    forall i | 0 <= i < |runs| ensures runs[i].tests != [] {
      assert Map(TestsOf, runs)[i] in Filter(HasTests, shards);
    }
  }

  /** One docker run per chunk; no runs at all when there are no tests. */
  function AssignGpus(chunks: seq<seq<string>>, gpus: nat): seq<DockerRun> {
    if chunks == [] then []
    else
      var gpuIds := ChunkIntoN(Gpus(gpus), |chunks|);
      seq(|chunks|, i requires 0 <= i < |chunks| => DockerRun(chunks[i], gpuIds[i]))
  }

  /** Every run has its own chunk of GPUs, and together they use each GPU once. */
  lemma {:induction false} GpusAssigned(chunks: seq<seq<string>>, gpus: nat)
    ensures Map(TestsOf, AssignGpus(chunks, gpus)) == chunks
    ensures chunks != [] ==> Map(GpusOf, AssignGpus(chunks, gpus)) == ChunkIntoN(Gpus(gpus), |chunks|)
  {
    if chunks != [] {
      assert Map(GpusOf, AssignGpus(chunks, gpus)) == ChunkIntoN(Gpus(gpus), |chunks|);
    }
  }

  lemma GpusDistinct(gpus: nat)
    ensures NoDups(Gpus(gpus))
  {}

  lemma {:induction false} GpuInRange(gpus: nat, id: int)
    ensures id in Gpus(gpus) <==> 0 <= id < gpus
  {
    if 0 <= id < gpus { assert Gpus(gpus)[id] == id; }
  }

  /** No GPU is given to two runs, and every GPU is given to one. */
  lemma {:induction false} GpusDisjoint(runs: seq<DockerRun>, gpus: nat, i: nat, j: nat, id: int)
    requires runs != [] && Map(GpusOf, runs) == ChunkIntoN(Gpus(gpus), |runs|)
    ensures (exists k :: 0 <= k < |runs| && id in runs[k].gpus) <==> 0 <= id < gpus
    ensures i < |runs| && j < |runs| && id in runs[i].gpus && id in runs[j].gpus ==> i == j
  {
    var parts := Map(GpusOf, runs);
    ChunksTile(Gpus(gpus), |runs|);
    GpusDistinct(gpus);
    ConcatMembers(parts, id);
    GpuInRange(gpus, id);
    if k :| 0 <= k < |parts| && id in parts[k] { assert id in runs[k].gpus; }
    if k :| 0 <= k < |runs| && id in runs[k].gpus { assert id in parts[k]; }
    if i < |runs| && j < |runs| && id in runs[i].gpus && id in runs[j].gpus { OnePart(parts, i, j, id); }
  }

  // ----- All docker runs of all workers -----

  /** `list(range(start, end))`. */
  function Range(start: nat, end: nat): seq<nat>
    requires start <= end
  {
    seq(end - start, k requires 0 <= k < end - start => start + k)
  }

  /** The tests of each docker run of a worker that owns the shards from `start` to `end`. */
  ghost function WorkerRuns(listings: seq<seq<Rule>>, start: nat, end: nat): seq<seq<string>>
    requires start <= end <= |listings|
  {
    Filter(HasTests, ContainerShards(listings[start..end], Range(start, end), |listings|))
  }

  lemma {:induction false} WorkerRange(w: nat, perWorker: nat, workers: nat)
    requires w < workers
    ensures 0 <= w * perWorker <= (w + 1) * perWorker <= workers * perWorker
  {
    TimesMonotone(w + 1, workers, perWorker);
    TimesMonotone(w, w + 1, perWorker);
  }

  /** One worker: the container of `_get_container` runs its tests. */
  method RunWorker(listings: seq<seq<Rule>>, workers: nat, perWorker: nat, w: nat, gpus: nat) returns (plan: Plan)
    requires |listings| == workers * perWorker && w < workers
    ensures 0 <= w * perWorker <= (w + 1) * perWorker <= |listings|
    ensures plan.Planned? <==> AllDistinct(listings[w * perWorker..(w + 1) * perWorker])
    ensures plan.Planned? ==> Map(TestsOf, plan.runs) == WorkerRuns(listings, w * perWorker, (w + 1) * perWorker)
    ensures plan.Planned? ==> forall i :: 0 <= i < |plan.runs| ==> plan.runs[i].tests != []
    ensures plan.Planned? && plan.runs != [] ==> Map(GpusOf, plan.runs) == ChunkIntoN(Gpus(gpus), |plan.runs|)
  {
    WorkerRange(w, perWorker, workers);
    var start, end := w * perWorker, (w + 1) * perWorker;
    plan := RunTests(listings[start..end], Range(start, end), |listings|, gpus);
  }

  /** The shards as any one worker would compute them. */
  ghost function AllShards(rules: seq<Rule>, count: nat): seq<seq<string>> {
    seq(count, i requires 0 <= i < count => ShardNames(Optimal, rules, i, count))
  }

  lemma {:induction false} SameShard(rules: seq<Rule>, listings: seq<seq<Rule>>, i: nat)
    requires i < |listings| && SameRules(listings, rules)
    ensures ShardNames(Optimal, listings[i], i, |listings|) == AllShards(rules, |listings|)[i]
  {
    ShardNamesDeterministic(Optimal, rules, listings[i], i, |listings|);
  }

  /** Consecutive shards of one container are the corresponding slice of all shards. */
  lemma {:induction false} WorkerSlice(rules: seq<Rule>, listings: seq<seq<Rule>>, start: nat, end: nat)
    requires start <= end <= |listings| && SameRules(listings, rules)
    ensures WorkerRuns(listings, start, end) == Filter(HasTests, AllShards(rules, |listings|)[start..end])
  {
    var own := ContainerShards(listings[start..end], Range(start, end), |listings|);
    var part := AllShards(rules, |listings|)[start..end];
    forall k | 0 <= k < |own| ensures own[k] == part[k] {
      SameShard(rules, listings, start + k);
    }
    assert own == part;
  }

  lemma {:induction false} DropEmpty(ss: seq<seq<string>>)
    ensures Concat(Filter(HasTests, ss)) == Concat(ss)
  {
    if ss != [] {
      var more := Filter(HasTests, ss[1..]);
      DropEmpty(ss[1..]);
      var kept := if HasTests(ss[0]) then [ss[0]] else [];
      assert Filter(HasTests, ss) == kept + more;
      ConcatAppend(kept, more);
      assert Concat(kept) == ss[0] by { assert [ss[0]][1..] == []; }
    }
  }

  /** Worker `w` owns the shards from `ends[w]` to `ends[w + 1]`. */
  ghost predicate Divides(ends: seq<nat>, count: nat) {
    && ends != [] && ends[0] == 0 && ends[|ends| - 1] == count
    && forall v, w :: 0 <= v <= w < |ends| ==> ends[v] <= ends[w]
  }

  /** The tests run by the first `n` workers, in order. */
  ghost function TestsRun(listings: seq<seq<Rule>>, ends: seq<nat>, n: nat): seq<string>
    requires Divides(ends, |listings|) && n < |ends|
  {
    if n == 0 then []
    else TestsRun(listings, ends, n - 1) + Concat(WorkerRuns(listings, ends[n - 1], ends[n]))
  }

  lemma {:induction false} NextWorker(shards: seq<seq<string>>, start: nat, end: nat)
    requires start <= end <= |shards|
    ensures Concat(shards[..start]) + Concat(Filter(HasTests, shards[start..end])) == Concat(shards[..end])
  {
    DropEmpty(shards[start..end]);
    ConcatAppend(shards[..start], shards[start..end]);
    assert shards[..end] == shards[..start] + shards[start..end];
  }

  /** Every worker runs the non-empty shards of its range. */
  ghost predicate RunFrom(listings: seq<seq<Rule>>, ends: seq<nat>, shards: seq<seq<string>>) {
    && |shards| == |listings| && Divides(ends, |listings|)
    && forall w :: 0 <= w < |ends| - 1 ==>
         WorkerRuns(listings, ends[w], ends[w + 1]) == Filter(HasTests, shards[ends[w]..ends[w + 1]])
  }

  lemma {:induction false} RunsAreShards(listings: seq<seq<Rule>>, ends: seq<nat>, shards: seq<seq<string>>, n: nat)
    requires RunFrom(listings, ends, shards) && n < |ends|
    ensures TestsRun(listings, ends, n) == Concat(shards[..ends[n]])
  {
    if n > 0 {
      var w := n - 1;
      RunsAreShards(listings, ends, shards, w);
      NextWorker(shards, ends[w], ends[w + 1]);
    }
  }

  lemma {:induction false} ConcatPermuted(a: seq<seq<string>>, b: seq<seq<string>>)
    requires |a| == |b| && forall i :: 0 <= i < |a| ==> multiset(a[i]) == multiset(b[i])
    ensures multiset(Concat(a)) == multiset(Concat(b))
  {
    if a != [] {
      ConcatPermuted(a[1..], b[1..]);
      assert Concat(a) == a[0] + Concat(a[1..]) && Concat(b) == b[0] + Concat(b[1..]);
    }
  }

  lemma {:induction false} ShardsHoldNames(rules: seq<Rule>, count: nat)
    requires count > 0
    ensures multiset(Concat(AllShards(rules, count))) == multiset(Names(rules))
  {
    var shards, parts := AllShards(rules, count), Map(Names, OptimalShards(Grouped(rules), count));
    OptimalNames(rules, count);
    forall i | 0 <= i < count ensures multiset(shards[i]) == multiset(parts[i]) {
      SortPermutes(StrLe, parts[i]);
    }
    ConcatPermuted(shards, parts);
  }

  /** The ranges of `_get_container`, worker after worker. */
  function Ends(workers: nat, perWorker: nat): seq<nat> {
    seq(workers + 1, w requires 0 <= w <= workers => w * perWorker)
  }

  lemma {:induction false} EndsDivide(workers: nat, perWorker: nat)
    ensures Divides(Ends(workers, perWorker), workers * perWorker)
  {
    forall v: nat, w: nat | v <= w <= workers ensures v * perWorker <= w * perWorker {
      TimesMonotone(v, w, perWorker);
    }
  }

  /** Over all docker runs of all workers, every test is run once, and nothing else is run. */
  lemma {:induction false} DockerRunsExactlyOnce(rules: seq<Rule>, listings: seq<seq<Rule>>, workers: nat,
                                                 perWorker: nat)
    requires 0 < |listings| == workers * perWorker && SameRules(listings, rules)
    ensures Divides(Ends(workers, perWorker), |listings|)
    ensures multiset(TestsRun(listings, Ends(workers, perWorker), workers)) == multiset(Names(rules))
    ensures NoDups(TestsRun(listings, Ends(workers, perWorker), workers))
  {
    EndsDivide(workers, perWorker);
    AllRunOnce(rules, listings, Ends(workers, perWorker), workers);
  }

  lemma {:induction false} AllRunOnce(rules: seq<Rule>, listings: seq<seq<Rule>>, ends: seq<nat>, workers: nat)
    requires listings != [] && |ends| == workers + 1 && Divides(ends, |listings|) && SameRules(listings, rules)
    ensures multiset(TestsRun(listings, ends, workers)) == multiset(Names(rules))
    ensures NoDups(TestsRun(listings, ends, workers))
  {
    var shards := AllShards(rules, |listings|);
    forall w | 0 <= w < |ends| - 1
      ensures WorkerRuns(listings, ends[w], ends[w + 1]) == Filter(HasTests, shards[ends[w]..ends[w + 1]])
    {
      WorkerSlice(rules, listings, ends[w], ends[w + 1]);
    }
    RunsAreShards(listings, ends, shards, workers);
    assert shards[..|listings|] == shards;
    ShardsHoldNames(rules, |listings|);
    NoDupsPermutation(Names(rules), TestsRun(listings, ends, workers));
  }

  lemma {:induction false} InFiltered(ss: seq<seq<string>>, k: nat) returns (j: nat)
    requires k < |Filter(HasTests, ss)|
    ensures j < |ss| && ss[j] == Filter(HasTests, ss)[k]
  {
    FilterMembers(HasTests, ss);
    var x := Filter(HasTests, ss)[k];
    assert x in Filter(HasTests, ss);
    j :| 0 <= j < |ss| && ss[j] == x;
  }

  lemma {:induction false} RunIsShard(rules: seq<Rule>, listings: seq<seq<Rule>>, start: nat, end: nat, k: nat)
    returns (i: nat)
    requires start <= end <= |listings| && SameRules(listings, rules) && k < |WorkerRuns(listings, start, end)|
    ensures start <= i < end && WorkerRuns(listings, start, end)[k] == ShardNames(Optimal, rules, i, |listings|)
  {
    WorkerSlice(rules, listings, start, end);
    var j := InFiltered(AllShards(rules, |listings|)[start..end], k);
    i := start + j;
  }

  /** No docker run takes longer than the longest shard of any way of dealing the tests to that many runs. */
  lemma {:induction false} DockerRunsAreOptimal(rules: seq<Rule>, listings: seq<seq<Rule>>, start: nat, end: nat,
                                                k: nat, other: seq<seq<Rule>>)
    requires start <= end <= |listings| && SameRules(listings, rules) && k < |WorkerRuns(listings, start, end)|
    requires IsPlan(rules, other, |listings|)
    ensures exists j :: 0 <= j < |other| && Total(Named(rules, WorkerRuns(listings, start, end)[k])) <= Total(other[j])
  {
    var i := RunIsShard(rules, listings, start, end, k);
    AnswersAreOptimal(rules, other, |listings|, i);
    var j :| 0 <= j < |listings| && ShardTime(rules, i, |listings|) <= Total(other[j]);
  }
}
