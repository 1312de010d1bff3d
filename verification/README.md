# Verified models of the CI sharder, the dependency-set builder and the transaction pipeline

This Dafny project models four parts of the repository and proves what their code and documentation
promise. `dafny verify dfyconfig.toml` checks all of it.

1. **The CI test sharder** (`BazelRules`, `ShardAllocation`, `ShardFill`, `Sharding`, `ShardGuarantees`,
   `TesterContainers`).
   Bazel rules are grouped by timeout, slots go greedily to the least-loaded shard, and slots are filled
   with contiguous name-ordered slices. Because the only timeouts are 60, 300, 900 and 3600 seconds, each
   dividing the next, the greedy is exactly makespan-optimal: no other way of dealing the rules to the same
   number of shards has a shorter longest shard. Every worker computes its shards alone, from its own
   listing of the rules, and still every test runs exactly once, in one docker run of one worker.
2. **The dependency-set builder** (`BuildGraphs`, `BuildOrders`, `Depsets`, `DepsetExpansion`, `UvFlags`,
   `UvCalls`, `DepsetExecution`, `DepsetCalls`, `DepsetConfluence`, `DepsetRaces`, `DepsetManager`). Graph
   construction, ancestor closure, Kahn's algorithm, the recursive requirement expansion with its shared list,
   flag overriding, uv command lines that read back as what was asked for, and execution on a file system. Every topological order leaves the same lock files or fails likewise, for
   all tools and files, if and only if the graph orders the depsets that touch the same file; and building
   a depset with only its ancestors gives the lock files of the full build.
3. **The transaction pipeline** (`Dates`, `TemporalSplits`, `Sequences`). Daily counts, cutoffs, streamed
   splitting, and packing into fixed-length token sequences that decode back.
4. **The tag-rule parser and matcher** (`TagParser`, `TagContents`, `TagRejections`, `TagPrinter`, `Paths`,
   `TagMatching`). The line parser, what a file means line by line, which files are rejected, a canonical
   printer as the parser's inverse, first-match lookup and the collection of tags.

`Seqs`, `Sorting`, `StringOrder`, `Decimals` and `Text` hold what these share: Python's stable `sorted`,
string comparison, `str(n)`, `strip`, `split` and the like.

## How the model is made

- Foreign behaviour enters as parameters: the rules a Bazel query returned (in any order, per shard),
  `uv pip compile` and the lock-file library as arbitrary functions (`Tools`), `fnmatch` as an arbitrary
  predicate (`Glob`). Failures of these are values (`None`, `Failed`, ...).
- Loops of the source are loops here, objects it mutates are classes; each method's `ensures` ties it to a
  function, and the lemmas are about those functions.
- Ratios are exact reals and `ceil(len / n)` is exact integer division. Integers are unbounded.
- `list(set(...))` in `get_expanded_depset_requirements` is a set, since Python leaves its order open and
  `compile` sorts what it receives; constraints and requirements of a uv call are multisets for the same reason.
- A uv call is a function of the call and of the files it names, its own previous output included.

## Where code and promise differ

- "Divide gpus evenly among chunks" (`ray/ci/ray_ci/tester_container.py:97`): a run can be left without
  any GPU although there are enough, for example 4 GPUs over 3 runs, and 7 GPUs over 3 runs are divided
  3, 3, 1. `EveryRunGetsGpu` states exactly when every run gets one, `EvenlyDivided` exactly when the
  shares differ by at most one.
- `_override_uv_flags` takes the argument after an overridden flag for its value. Overriding a flag without
  a value also drops the flag after it, and a kept flag loses a value that looks like an overridden flag.
  `OverrideExact` states exactly on which argument lists the right arguments are dropped, `DefaultOverride`
  which single flags of the default arguments can be overridden, and `NoHeaderSwallows` what happens to
  `--generate-hashes` when `--no-header` is overridden.
- "Unique (user, card) group key" (`tfm_repo/src/ray_tokenize.py:71`) holds for cards that differ modulo
  100; `KeySeparates` states exactly when, and `KeyCollision` gives two accounts that share a key.
- The split script compares `YYYY-MM-DD` strings (`tfm_repo/scripts/create_temporal_splits.py:9`). They
  order as dates if and only if the years have equally many digits or the shorter year is at most the
  leading digits of the longer one (`DateOrder`); the year 999 sorts after the year 1000
  (`ShortYearSortsLate`). The splits of a table are apart in the calendar for all ratios exactly when the
  years of the table pass that test (`LeakageExact`).
- Nothing in the configuration checks stops a depset from reading a lock file of a depset it does not depend
  on. `ConfluenceExact` states exactly when that makes the outcome depend on the order, and
  `HiddenReadMatters` gives a configuration of two depsets.

## Model

| member | source | states |
|---|---|---|
| BazelRules.GroupRulesByTimeNeeded | ray/ci/ray_ci/bazel_sharding.py:199-211 | The dictionary loop, the per-timeout sorts and the descending sort yield the sorted non-empty buckets of 3600, 900, 300 and 60 seconds, in that order |
| BazelRules.GroupedFacts | ray/ci/ray_ci/bazel_sharding.py:47-66 | Grouping keeps every rule as often as given, files it under its own timeout, and timeouts strictly descend |
| BazelRules.TimeoutTable | ray/ci/ray_ci/bazel_sharding.py:47-66 | An explicit timeout decides alone, longer timeouts and larger sizes mean more seconds, and the seconds are 60, 300, 900 and 3600, which leaves no choice for any entry |
| BazelRules.GroupsByName | ray/ci/ray_ci/bazel_sharding.py:209-210 | Within a group the rules are listed by name |
| BazelRules.GroupedDeterministic | ray/ci/ray_ci/bazel_sharding.py:199-211 | Two listings of the same distinctly named rules in different orders give identical groups |
| ShardAllocation.AllocateSlotsToShards | ray/ci/ray_ci/bazel_sharding.py:214-235 | The nested loops compute the slots of the greedy placement of the flat job list |
| ShardAllocation.FirstLeastLoaded | ray/ci/ray_ci/bazel_sharding.py:230-231 | The chosen shard has minimal load and every earlier shard a larger one |
| ShardAllocation.LoadsConserved | ray/ci/ray_ci/bazel_sharding.py:228-233 | After any job list the shard loads add up to the jobs |
| ShardAllocation.SlotsCount | ray/ci/ray_ci/bazel_sharding.py:228-233 | For every timeout the slots over all shards number exactly the jobs with that timeout |
| ShardAllocation.LoadSpread | ray/ci/ray_ci/bazel_sharding.py:228-233 | At every step two loads differ by at most the largest job placed so far |
| ShardAllocation.EmptyShards | ray/ci/ray_ci/bazel_sharding.py:228-233 | n positive jobs leave exactly max(0, count - n) shards empty |
| ShardAllocation.DecidingJob | ray/ci/ray_ci/bazel_sharding.py:228-233 | Some job on a busy shard exists such that the jobs up to it total more than count times the load without it, and it divides the load |
| ShardFill.PortionsTile | ray/ci/ray_ci/bazel_sharding.py:269-277 | The slices of a group over all shards concatenate to the name-sorted group |
| ShardFill.FillRefinesAllocation | ray/ci/ray_ci/bazel_sharding.py:264-277 | Each shard's total timeout is the load phase 1 computed, and the shards together are a permutation of the rules |
| ShardFill.GetRulesForShardOptimal | ray/ci/ray_ci/bazel_sharding.py:249-311 | The duplicate check fails exactly when a rule was given twice, the missing-rule check never, and otherwise the result is the sorted names of the shard |
| Sharding.OptimalMakespan | ray/ci/ray_ci/bazel_sharding.py:214-277 | For all rules and counts, no shard takes longer than the longest shard of any other way of dealing the rules |
| Sharding.BalancedShards | ray/ci/ray_ci/bazel_sharding.py:252-259 | Exactly max(0, count - n) shards get no test, and total timeouts differ by at most the largest one |
| Sharding.GetRulesForShardNaive | ray/ci/ray_ci/bazel_sharding.py:238-246 | The names at every count-th position of all sorted rules |
| Sharding.ShardTargets | ray/ci/ray_ci/bazel_sharding.py:332-341 | The driver fails only under the optimal strategy and only on repeated rules, otherwise it returns the strategy's shard |
| ShardGuarantees.AnswersAreOptimal | ray/ci/ray_ci/bazel_sharding.py:249-341 | The tests named in a shard take no longer than the longest shard of any other way of dealing the rules |
| ShardGuarantees.AnswersAreBalanced | ray/ci/ray_ci/bazel_sharding.py:252-259 | Exactly max(0, count - n) of the answers are empty, and the times of the named tests differ by at most the largest timeout |
| ShardGuarantees.AnswersClusterByName | ray/ci/ray_ci/bazel_sharding.py:266-277 | Of two tests with the same timeout in different shards, the one in the earlier shard has the smaller name |
| ShardGuarantees.AnswersAreSorted | ray/ci/ray_ci/bazel_sharding.py:311-311 | An answer lists its names in order |
| ShardGuarantees.NaiveDeals | ray/ci/ray_ci/bazel_sharding.py:238-246 | The q-th name of shard i is the one at position i + q * count of all names in order |
| Sharding.InOneShard | ray/ci/ray_ci/bazel_sharding.py:238-311 | Under either strategy every name is in exactly one shard, once |
| Sharding.ExactlyOnce | ray/ci/ray_ci/tester.py:313-326 | With every shard computed from its own listing of the rules, each test runs on one worker, in one of its shards, once |
| Sharding.NothingElse | ray/ci/ray_ci/bazel_sharding.py:238-311 | No shard holds a name that was not among the rules |
| TesterContainers.ChunksTile | ray/ci/ray_ci/utils.py:32-37 | Exactly n chunks, none longer than ceil(len/n), concatenating to the list |
| TesterContainers.EveryRunGetsGpu | ray/ci/ray_ci/tester_container.py:97-98 | Every run gets a GPU if and only if the chunks before the last leave one over |
| TesterContainers.FourGpusThreeRuns | ray/ci/ray_ci/utils.py:32-37 | Four GPUs over three runs leave the third without any |
| TesterContainers.EvenlyDivided | ray/ci/ray_ci/tester_container.py:97-98 | Chunk sizes differ by at most one if and only if chunks hold at most one item or at most one item is missing to fill them all |
| TesterContainers.SevenGpusThreeRuns | ray/ci/ray_ci/utils.py:32-37 | Seven GPUs over three runs are divided 3, 3, 1 |
| TesterContainers.RunTests | ray/ci/ray_ci/tester_container.py:83-111 | The runs are the container's non-empty shards in order, run i gets GPU chunk i, and it aborts exactly on repeated rules |
| TesterContainers.GpusDisjoint | ray/ci/ray_ci/tester_container.py:97-111 | Exactly the GPU ids in range are given to some run, and none to two |
| TesterContainers.RunWorker | ray/ci/ray_ci/tester.py:313-326 | A worker runs the non-empty shards of its range, and aborts exactly on repeated rules |
| TesterContainers.DockerRunsExactlyOnce | ray/ci/ray_ci/tester_container.py:83-111 | Over all docker runs of all workers, each computed from its own listing, every test is run once and nothing else is run |
| TesterContainers.DockerRunsAreOptimal | ray/ci/ray_ci/tester_container.py:83-111 | No docker run takes longer than the longest shard of any other way of dealing the tests to as many shards |
| BuildGraphs.WithAncestorsIsLeast | ray/ci/raydepsets/cli.py:246-250 | A set of nodes with everything that reaches it is the least ancestor-closed set holding it |
| BuildGraphs.Ancestors | ray/ci/raydepsets/cli.py:248-248 | The backward search finds exactly the other nodes from which the node is reachable |
| BuildGraphs.TopologicalSort | ray/ci/raydepsets/cli.py:277-277 | Kahn's algorithm completes if and only if the graph has no cycle; on any graph each yielded node follows all its predecessors |
| Depsets.BuiltFacts | ray/ci/raydepsets/cli.py:170-242 | Edges are exactly the declared references and hooks, attributes exactly those of added nodes, a depset node's depset is from the configuration |
| Depsets.EdgesByOperation | ray/ci/raydepsets/cli.py:175-242 | The edges by operation: from the source of a subset or relax depset, from those an expand depset lists, and from hooks |
| Depsets.ResolvableExact | ray/ci/raydepsets/cli.py:183-229 | The checks pass exactly on known operations whose source is given and whose references all exist |
| Depsets.NoPlaceholders | ray/ci/raydepsets/cli.py:172-242 | If every reference and operation is known, no node is left without attributes although forward edges create bare nodes |
| Depsets.NodeCarriesDepset | ray/ci/raydepsets/cli.py:175-242 | With distinct node names a depset's node carries that depset at the end |
| Depsets.NodeCarriesHook | ray/ci/raydepsets/cli.py:232-242 | With distinct names, hook k of a depset is a node with that hook's command and the depset's file |
| Depsets.HookNamesDiffer | ray/ci/raydepsets/cli.py:234-234 | A hook name tells the depset and the hook |
| Depsets.SelectionExact | ray/ci/raydepsets/cli.py:252-269 | Building one file keeps exactly the nodes from which one of its depsets can be reached |
| Depsets.GetDepsetFirst | ray/ci/raydepsets/cli.py:531-536 | A name stands for the first depset that has it |
| Depsets.GraphManager.Build | ray/ci/raydepsets/cli.py:170-244 | It raises exactly on an unknown operation or reference, otherwise the graph is the built one or its restriction to the file's nodes and their ancestors |
| Depsets.GraphManager.SubgraphDependencyNodes | ray/ci/raydepsets/cli.py:246-250 | The graph becomes the subgraph of the depset and its ancestors |
| Depsets.GraphManager.SubgraphConfigNodes | ray/ci/raydepsets/cli.py:252-269 | The graph becomes the subgraph of the file's nodes and all their ancestors |
| DepsetExpansion.GetExpandedDepsetRequirements | ray/ci/raydepsets/cli.py:501-518 | The recursion terminates on a topological order, extends the shared list by the expansion and returns the list's elements |
| DepsetExpansion.ExpansionIsReachable | ray/ci/raydepsets/cli.py:501-518 | As a set, the list holds exactly the requirements of the depsets reachable through expand nodes |
| DepsetExpansion.OrderIsGrounded | ray/ci/raydepsets/cli.py:271-284 | On any checked configuration, cyclic or not, whatever a yielded node refers to was yielded before it |
| UvFlags.OverrideUvFlags | ray/ci/raydepsets/cli.py:551-565 | The loop keeps what the skip rule keeps and appends the flattened overrides |
| UvFlags.KeptNoNames | ray/ci/raydepsets/cli.py:556-563 | No kept argument is the name of an overridden flag |
| UvFlags.OthersDropNothing | ray/ci/raydepsets/cli.py:553-553 | Overrides that do not start with two dashes drop nothing |
| UvFlags.OverrideExact | ray/ci/raydepsets/cli.py:551-565 | For every argument list, the dropped tokens are exactly those of the overridden flags if and only if a lone overridden flag is followed by another overridden one (whose value, if any, again looks like one) or by nothing, and no kept flag has a value that looks like an overridden flag |
| UvFlags.OverrideTokens | ray/ci/raydepsets/cli.py:551-565 | On aligned arguments the result is the other arguments in order followed by the overrides |
| UvFlags.OverrideMeaning | ray/ci/raydepsets/cli.py:551-565 | That list denotes the original flag map updated with the overrides |
| UvFlags.DefaultOverride | ray/ci/raydepsets/cli.py:19-27 | Overriding one flag of the default arguments drops the right tokens if and only if it is none of the five valueless ones before the last, not a `--quiet` that something follows, and not the cache directory |
| DepsetExecution.NoHeaderSwallows | ray/ci/raydepsets/cli.py:19-27 | A depset that overrides --no-header starts from the default arguments without --generate-hashes (unless the cache directory is itself named --no-header) |
| DepsetCalls.FlagsDenote | ray/ci/raydepsets/cli.py:367-379 | The flags of a call denote the defaults updated with the overrides and then with the appended flags |
| UvCalls.BuildArgs | ray/ci/raydepsets/cli.py:380-391 | The loops append -c before each sorted constraint, the sorted requirements, - for packages and -o with the output |
| UvCalls.ReadsBack | ray/ci/raydepsets/cli.py:380-391 | Read back, the command line names exactly the constraints, requirements, packages and output asked for if and only if no requirement file is called -, -c or -o |
| DepsetCalls.CompileCall | ray/ci/raydepsets/cli.py:317-327 | A compile depset asks uv for its own constraints, requirements, packages and output |
| DepsetCalls.SubsetCall | ray/ci/raydepsets/cli.py:394-415 | A subset depset is refused unless its requirements are all reachable from its source, and is constrained by the source's lock file alone |
| DepsetCalls.ExpandCall | ray/ci/raydepsets/cli.py:417-449 | An expand depset asks for the relaxed lock files, the expansions of the others and its own requirements, each as often as contributed |
| DepsetCalls.CallWrites | ray/ci/raydepsets/cli.py:286-299 | uv sees exactly the files its command line names, and its answer goes to the output path and nowhere else |
| DepsetCalls.RelaxStep | ray/ci/raydepsets/cli.py:451-480 | A relax depset rewrites its source's lock file, into its own output if it has one, and fails without it |
| DepsetCalls.RelaxKeeps | ray/ci/raydepsets/cli.py:470-473 | Exactly the requirements of other packages are kept, each at its place in the order |
| DepsetManager.RelaxRemoves | ray/ci/raydepsets/cli.py:461-473 | Relaxing fails exactly on a package that is not pinned, and otherwise removes the named packages and nothing else |
| DepsetManager.DependencySetManager.CheckSubsetExists | ray/ci/raydepsets/cli.py:493-499 | It raises exactly when some requirement is not among the expanded requirements of the source |
| DepsetManager.DependencySetManager.CollectInputs | ray/ci/raydepsets/cli.py:430-438 | The loop collects lock files of relaxed depsets and expanded requirements of the others, and fails only on a relaxed one without output |
| DepsetManager.DependencySetManager.ExecuteDepset | ray/ci/raydepsets/cli.py:315-480 | The files change by the depset's one output, computed from the files it may read, or not at all |
| DepsetManager.DependencySetManager.Execute | ray/ci/raydepsets/cli.py:271-284 | It runs a topological order of the graph or of a depset's ancestors, succeeds exactly on a known name, an acyclic graph and a run without a failing step, and always leaves the files of the steps that succeeded |
| DepsetManager.BuildCommand | ray/ci/raydepsets/cli.py:60-91 | The command is rejected exactly on an unresolvable configuration; otherwise it executes the selected graph, and ends as every topological order of it does if depsets that touch the same file are ordered |
| DepsetManager.SelectedExact | ray/ci/raydepsets/cli.py:243-269 | With all files every node is selected, otherwise exactly those that lead to a depset of the given file |
| DepsetManager.NarrowedExact | ray/ci/raydepsets/cli.py:246-250 | A named depset narrows that to exactly the nodes that lead to it |
| DepsetConfluence.RunSettles | ray/ci/raydepsets/cli.py:277-284 | After a successful run a lock file is what its depset produces from the final files, if its inputs are written by ancestors only |
| DepsetConfluence.RunUnwritten | ray/ci/raydepsets/cli.py:277-284 | A run changes no file but those its depsets write, from any point of the run on |
| DepsetConfluence.VisitsCommute | ray/ci/raydepsets/cli.py:315-480 | Two nodes that touch no common file can be executed in either order, failures included |
| DepsetConfluence.Confluence | ray/ci/raydepsets/cli.py:271-480 | If nodes that touch the same file are comparable in the graph, two topological orders of the same nodes leave the same files or both fail |
| DepsetConfluence.PartialBuild | ray/ci/raydepsets/cli.py:246-284 | Building some targets with only their ancestors succeeds when the full build does and gives the same content to every file the rest of the graph does not write |
| DepsetRaces.ConfluenceExact | ray/ci/raydepsets/cli.py:271-480 | With an own output per depset, the order is irrelevant for all tools and files if and only if no two depsets that can run touch the same file without being ordered by the graph |
| DepsetRaces.RaceMatters | ray/ci/raydepsets/cli.py:380-392 | For every such pair there are tools, files and two topological orders with different outcomes |
| DepsetRaces.HiddenReadMatters | ray/ci/raydepsets/cli.py:380-392 | Two compile depsets, one constrained by the output of the other without a reference, are such a pair |
| Dates.DateOrder | tfm_repo/scripts/create_temporal_splits.py:84-88 | For all years and two-digit months and days, strings are injective, and compare as dates if and only if the years have equally many digits or the shorter is at most the leading digits of the longer (full-date of section 5.6 of RFC 3339, ordering of section 5.1) |
| Dates.FourDigitYears | tfm_repo/scripts/create_temporal_splits.py:85-85 | All four-digit years have numerals of equal length |
| Dates.ShortYearSortsLate | tfm_repo/scripts/create_temporal_splits.py:84-88 | The last day of the year 999 sorts after the first day of 1000 |
| TemporalSplits.ComputeDailyCounts | tfm_repo/scripts/create_temporal_splits.py:103-114 | For every batching, counts and total are those of the whole table |
| TemporalSplits.ScanCutoffs | tfm_repo/scripts/create_temporal_splits.py:118-130 | The loop with its break finds the first dates whose running counts reach the two targets, or raises |
| TemporalSplits.CutoffsFromCounts | tfm_repo/scripts/create_temporal_splits.py:117-130 | It raises exactly on the empty table, otherwise each cutoff is the least date reaching its target |
| TemporalSplits.CutUnique | tfm_repo/scripts/create_temporal_splits.py:117-130 | A table and a target determine the cutoff |
| TemporalSplits.FewBefore | tfm_repo/scripts/create_temporal_splits.py:121-127 | Fewer rows than the target lie strictly before the cutoff |
| TemporalSplits.WriteSplits | tfm_repo/scripts/create_temporal_splits.py:158-191 | For every batching the outputs are the masked rows of the whole table, and each part of the statistics counts the rows and frauds of its own output |
| TemporalSplits.SplitsInOrder | tfm_repo/scripts/create_temporal_splits.py:176-185 | Each output holds the rows before, between or from the cutoffs on, at increasing positions of the table |
| TemporalSplits.MasksPartition | tfm_repo/scripts/create_temporal_splits.py:176-180 | Exactly one mask selects a row unless its date lies between a smaller test cutoff and the train cutoff |
| TemporalSplits.SplitsPartition | tfm_repo/scripts/create_temporal_splits.py:176-185 | The three outputs together are a permutation of the table, and rows and frauds add up |
| TemporalSplits.NoLeakage | tfm_repo/scripts/create_temporal_splits.py:176-180 | Every train date string precedes every val one, and those precede every test one |
| TemporalSplits.NoCalendarLeakage | tfm_repo/scripts/create_temporal_splits.py:176-180 | The same holds of the calendar dates when all years of the table agree |
| TemporalSplits.LeakageExact | tfm_repo/scripts/create_temporal_splits.py:117-180 | Calendar dates of the splits are apart for all valid ratios if and only if all years of the table agree |
| TemporalSplits.CreateTemporalSplits | tfm_repo/scripts/create_temporal_splits.py:224-241 | The script fails exactly on invalid ratios or an empty table; otherwise the outputs partition the table without leakage, train and train plus val stay below their shares and test is non-empty |
| Sequences.BuildSequences | tfm_repo/src/ray_tokenize.py:82-104 | The loops produce the encoded chunks of the group's token rows, oldest first and those of one moment as they came |
| Sequences.PadChunk | tfm_repo/src/ray_tokenize.py:98-100 | The array holds the tokens cut to the length, then padding |
| Sequences.SequenceCount | tfm_repo/src/ray_tokenize.py:90-104 | There are ceil(n/chunk_size) sequences, all of the sequence length |
| Sequences.ChunkRoundTrip | tfm_repo/src/ray_tokenize.py:91-100 | Decoding a chunk gives its rows back if they fit and nothing if they were cut, for arbitrary ids |
| Sequences.GroupRoundTrip | tfm_repo/src/ray_tokenize.py:82-104 | Decoding all sequences gives the transactions in the order of time if and only if the largest chunk fits |
| Sequences.LosslessExact | tfm_repo/src/ray_tokenize.py:82-104 | The sequences determine the token rows, for whatever decoder, if and only if chunk_size * (n_fields + 1) tokens fit: at most the end marker is cut |
| Sequences.DefaultsFit | tfm_repo/src/ray_common.py:71-75 | At 315 transactions and 4096 tokens full chunks fit if and only if there are at most 12 fields |
| Sequences.StableOrder | tfm_repo/src/ray_tokenize.py:86-88 | The timestamps ascend, the transactions are the same, and for every timestamp its transactions keep their order |
| Sequences.TimeOrderUnique | tfm_repo/src/ray_tokenize.py:86-88 | There is only one such order |
| Sequences.ChunkLayout | tfm_repo/src/ray_tokenize.py:91-100 | Which token stands where: the start marker, each id in its place, separators, the end marker and padding |
| Sequences.TwoTransactions | tfm_repo/src/ray_common.py:77-80 | Two transactions given in the wrong order become 1 11 3 12 2 0 0 0 |
| Sequences.KeySeparates | tfm_repo/src/ray_tokenize.py:71-71 | Two cards never share a key across users if and only if they are equal or differ modulo 100 |
| Sequences.AccountRoundTrip | tfm_repo/src/ray_tokenize.py:71-104 | With cards below 100 each transaction is in its account's group only, whose sequences decode to the account's transactions in order |
| TagParser.ParseRules | ray/ci/pipeline/determine_tests_to_run.py:93-164 | The line loop computes the parse of the content, both errors included |
| TagParser.NoiseInvariance | ray/ci/pipeline/determine_tests_to_run.py:123-133 | Files with the same lines of code parse alike up to line numbers, errors included |
| TagParser.CodeLineIsCut | ray/ci/pipeline/determine_tests_to_run.py:127-133 | Stripping, testing and cutting amount to removing the comment and the surrounding whitespace |
| TagParser.CommentIsNoise | ray/ci/pipeline/determine_tests_to_run.py:100-101 | A trailing comment adds nothing to a line, and blank lines have no code |
| TagParser.InsertNoise | ray/ci/pipeline/determine_tests_to_run.py:127-129 | A line without code can be inserted anywhere |
| TagParser.LineEnds | ray/ci/pipeline/determine_tests_to_run.py:123-123 | Each line break ends a line, and a carriage return with a newline is one break |
| TagContents.FileExact | ray/ci/pipeline/determine_tests_to_run.py:113-164 | A file declares exactly the words of its declaration lines, and each stretch of lines up to a semicolon is the rule with exactly its tags, directories, files and patterns |
| TagContents.DeclaredExact | ray/ci/pipeline/determine_tests_to_run.py:135-139 | Whatever parses declares exactly the words of its declaration lines |
| TagRejections.RejectionExact | ray/ci/pipeline/determine_tests_to_run.py:135-151 | A file is rejected exactly for a declaration after other code or something after a semicolon, with the error of the first such line |
| TagRejections.LastSemicolonOptional | ray/ci/pipeline/determine_tests_to_run.py:160-162 | A printed file needs its last semicolon exactly when its last rule is empty |
| TagRejections.RuleLines | ray/ci/pipeline/determine_tests_to_run.py:124-154 | A rule's line number is that of the semicolon that ends it |
| TagRejections.RuleLinesIncrease | ray/ci/pipeline/determine_tests_to_run.py:124-154 | Later rules have larger line numbers |
| TagPrinter.ParseWellFormed | ray/ci/pipeline/determine_tests_to_run.py:113-164 | Every parse yields well-formed declarations and rules |
| TagPrinter.RoundTrip | ray/ci/pipeline/determine_tests_to_run.py:93-164 | Parsing the printing of well-formed declarations and rules gives them back, rules in order |
| TagPrinter.Reprint | ray/ci/pipeline/determine_tests_to_run.py:93-164 | Whatever parsed, printing and parsing again gives the same declarations and rules |
| TagMatching.MatchRule | ray/ci/pipeline/determine_tests_to_run.py:75-85 | A file matches when it is or lies below a directory, is a file, or matches a pattern of the rule |
| Paths.InDirExact | ray/ci/pipeline/determine_tests_to_run.py:77-77 | A file is in a directory exactly when the path components of the directory begin its own |
| Paths.DirectoryFacts | ray/ci/pipeline/determine_tests_to_run.py:77-77 | Everything below a directory is in it, a sibling with a longer name is not, and being in a directory is transitive |
| TagMatching.MatchesByLine | ray/ci/pipeline/determine_tests_to_run.py:75-85 | A rule matches exactly the files that one of its path lines covers, as a pattern, a directory or a file |
| TagMatching.TagRuleSet.AddRules | ray/ci/pipeline/determine_tests_to_run.py:175-178 | A parsed file's declarations and rules are added at the end; a file with errors changes nothing |
| TagMatching.TagRuleSet.CheckRules | ray/ci/pipeline/determine_tests_to_run.py:180-188 | It raises exactly when some rule uses an undeclared tag |
| TagMatching.TagRuleSet.MatchTags | ray/ci/pipeline/determine_tests_to_run.py:190-195 | The scan returns the tags of the first match |
| TagMatching.FirstMatchIsFirst | ray/ci/pipeline/determine_tests_to_run.py:190-195 | The result is that of a matching rule before which none matches, and there is none exactly when no rule matches |
| TagMatching.FirstMatchAppend | ray/ci/pipeline/determine_tests_to_run.py:175-195 | Rules added earlier win, later ones are a fallback |
| TagMatching.CollectedOrder | ray/ci/pipeline/determine_tests_to_run.py:231-245 | The emitted set depends only on which files changed, and grows with them |
| TagMatching.TagsForExact | ray/ci/pipeline/determine_tests_to_run.py:231-245 | A file adds exactly the tags of the first rule that matches it, or the fallback tags when none does |
| TagMatching.TagRuleSet.CollectTags | ray/ci/pipeline/determine_tests_to_run.py:217-250 | The collection loop emits the built-in tags and each file's tags, or hits the unknown-tag assertion |
| TagMatching.AssertionHolds | ray/ci/pipeline/determine_tests_to_run.py:215-250 | After a passed rule check the assertion holds if and only if the built-in tags are declared, and the fallback tags too when some file is unhandled |

## Left out

- Bazel, uv, docker, git, S3, Buildkite and subprocess calls: foreign; their results are parameters.
- Building the Bazel query and reading its XML: the model starts from the list of rules.
- Effects of pre-hook commands: arbitrary shell; hooks are nodes ordered before their depset and change no file here.
- Files that uv reads without being named in the call, such as nested `-r` includes, or named in its flags.
- `--check` mode of the depset builder (temporary copies and diffs), YAML loading and build-argument substitution.
- Parquet input and output, Arrow types, nulls and `normalize_output_table`: tables are sequences of rows, and
  both passes over a file see the same rows.
- Negative years, months or days; rounding of the ratio products in floating point.
- Dates.DateOrder: months and days of more than two digits are not covered, because no calendar has them.
- The cuDF tokenizer, its vocabulary, the model and the embeddings.
- `fnmatch` patterns themselves: any predicate.
- The branch of the tag script that runs outside pull requests and prints `*`.
- BuildGraphs.TopologicalSort: does not fix the order among ready nodes, which networkx takes from insertion order; the theorems hold for every such order.
