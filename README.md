# Hybrid flow-shop scheduling with setup times, in Dafny

This project models the core of `rust-ga`, a solver for the hybrid flow-shop
problem with sequence-dependent setup times. Jobs go through a series of
stages. Each stage has one or more identical parallel machines. A job takes a
processing time at each stage, and zero means it skips the stage. A machine
adds a setup time that depends on the job it ran before. The aim is a job
permutation with a small makespan, the latest completion time at the last
stage.

The modelled core is:

- the makespan engine (`Makespan::makespan`). It simulates a permutation
  stage by stage with first-in-first-out dispatch and places each job on the
  machine that finishes it earliest. It also has the unused
  earliest-completion-time operations.
- the construction heuristics: best insertion, NEH, the greedy constructive
  heuristic (GCH) and the per-stage permutation variant of NEH (`neh_p`);
- the genetic algorithm: chromosomes and their text form, SJOX crossover,
  SHIFT mutation, crowding with its two distances, the replacement
  strategies, and the generation step of `GA::run`;
- iterated greedy: destruction, reconstruction, local search by insertion,
  acceptance, and the count-based termination.

The problem instance and the chromosome are values (`datatype`s). The
evaluator (`Makespan`, with its evaluation counter), the GCH constructor and
the GA (population and mating pool) are classes whose methods update their
fields. The replacement strategies work in place on an `array` of
chromosomes. Pure logic is written as functions with lemmas. Each loop of the
source is a method, proved against a specification function.

Every random draw is a parameter of the method that uses it: an index in
range, a list of Fisher–Yates swap positions, a coin. A property therefore
holds for every outcome of the random number generator. Nothing is executed;
every claim below is a verified contract.

Where the repository's files disagree with each other, the model follows the
code that calls the function:

- `chromosome.rs` declares only a `jobs` field. Its callers read and write a
  cached `makespan` (`gch.rs:35-37`, `crowding.rs:104-107`, `ga.rs:67`), and
  `updated` appears next to it. The `Chromosome` datatype therefore has all
  three fields.
- `Chromosome::new` takes a `Problem` and `thread_rng` (`chromosome.rs:13-18`).
  The callers pass the instance and their own generator. The model takes the
  number of jobs and the shuffle draws.
- `insert_job` returns a `Vec` (`neh.rs:34-51`). The iterated greedy uses it as
  a `(Vec<u32>, u32)` pair and passes `&job` (`iterated_greedy.rs:116`, `181`).
  `NEH.InsertJob` and `IteratedGreedy.Reinsert` return both the schedule and
  its makespan.
- The genetic-algorithm tests sort chromosomes and compare them
  (`tests.rs:19-31`), and `ga.rs:61`, `ga.rs:94` and `crowding.rs:178` need
  `Ord` and `PartialEq`. `chromosome.rs:7-10` derives only `Debug`. The model
  orders and matches chromosomes by their cached makespan (see "Left out").

## Model

| member | source | states |
|---|---|---|
| `Instances.Setup` | src/common/instance/instance.rs:3-16 | a setup time plus the processing time of the same job at that stage never exceed the instance's one-dispatch bound `Step()` |
| `MakespanEngine.Chosen` | src/common/makespan.rs:140-172 | the machine loop starting from `(u32::MAX, 0)`: the time is no larger than any candidate; when a machine is found, its time is attained and every lower machine is strictly slower, so ties go to the lowest machine; with no candidate the result is `(u32::MAX, 0)` |
| `MakespanEngine.ChosenNext` | src/common/makespan.rs:159-168 | one more machine replaces the choice so far only when its completion time is strictly smaller |
| `MakespanEngine.FifoStep` | src/common/makespan.rs:106-137 | `fifo` keeps the earlier records, records exactly the dispatched job last, and leaves the stage state well formed |
| `MakespanEngine.FifoStepZero` | src/common/makespan.rs:125-131 | a job with zero processing time goes on no machine and takes the completion time recorded last at the stage, or its own ready time when it is first |
| `MakespanEngine.RunStage` | src/common/makespan.rs:72-81 | a stage run records exactly the dispatched jobs, in dispatch order |
| `MakespanEngine.RunStageRuns` | src/common/makespan.rs:125-136 | the machines' run lists hold exactly the dispatched jobs with non-zero processing time at the stage |
| `MakespanEngine.RunStageZero` | src/common/makespan.rs:125-131 | across a whole stage run, a skipping job takes the time of the entry recorded just before it |
| `MakespanEngine.RunStageFacts` | src/common/makespan.rs:106-172 | when there is room below `u32::MAX`, a placed job completes no earlier than its ready time plus its processing time, and every run list's completion times strictly increase |
| `MakespanEngine.ChosenMachine` | src/common/makespan.rs:140-172 | when every machine is free within a bound, the chosen machine exists, its time is that machine's completion time, and that time is at most the bound plus one dispatch |
| `MakespanEngine.FifoStepBound` | src/common/makespan.rs:106-137 | one `fifo` call adds at most one dispatch (`Step()`) to the latest recorded time |
| `MakespanEngine.StageAt` | src/common/makespan.rs:65-94 | every stage's job-completion list is a rearrangement of the order |
| `MakespanEngine.Prev` | src/common/makespan.rs:60-63 | `prev_stage_completions` always holds each job of the order once |
| `MakespanEngine.DispatchAt` | src/common/makespan.rs:66-70 | every stage dispatches a rearrangement of the order, all valid job ids |
| `MakespanEngine.DispatchOrder` | src/common/makespan.rs:60-70 | stage 0 dispatches the order with every job ready at 0; every later stage dispatches a rearrangement of the previous stage's completions, ascending by completion time, with equal times kept in their previous order (stable sort) |
| `MakespanEngine.DispatchRearranges` | src/common/makespan.rs:68-70 | sorting for dispatch only rearranges the previous stage's completions |
| `MakespanEngine.MaxTime` | src/common/makespan.rs:96-103 | the result bounds every completion time and is attained by one of them |
| `MakespanEngine.MaxTimeUnique` | src/common/makespan.rs:96-103 | any attained upper bound of the completion times is the maximum |
| `MakespanEngine.Schedule` | src/common/makespan.rs:65-94 | the simulation has one stage state per stage, each the one the stage recursion defines |
| `MakespanEngine.MakespanOf` | src/common/makespan.rs:40-104 | the makespan is the latest completion time of the last stage: it bounds every entry there and is attained by one |
| `MakespanEngine.StageBound` | src/common/makespan.rs:65-94 | stage `s` records no completion time above `(s + 1) * n * Step()` |
| `MakespanEngine.StageTiming` | src/common/makespan.rs:72-81 | at every stage a placed job finishes no earlier than its previous-stage completion plus its processing time, run lists are strictly increasing, and a skipping job takes the previous entry's time |
| `MakespanEngine.StageJobs` | src/common/makespan.rs:65-94 | at every stage each job of the order is recorded exactly once, no job runs twice, and a job runs on a machine exactly when it is in the order and has non-zero processing time there |
| `MakespanEngine.MakespanFits` | src/common/makespan.rs:96-103 | the makespan of a valid instance stays below `u32::MAX`, so it never meets the sentinel |
| `MakespanEngine.Makespan.constructor` | src/common/makespan.rs:32-37 | a new evaluator holds the instance and has counted nothing |
| `MakespanEngine.Makespan.Evaluate` | src/common/makespan.rs:40-104 | the counter goes up by exactly one; the result is `MakespanOf` the order and the machine run lists of its simulation |
| `MakespanEngine.Makespan.FifoStage` | src/common/makespan.rs:72-81 | the FIFO loop of one stage leaves that stage's lists as `RunStage` and every other stage unchanged |
| `MakespanEngine.Makespan.Fifo` | src/common/makespan.rs:106-137 | `fifo` updates only its stage, exactly as `FifoStep` |
| `MakespanEngine.Makespan.ChooseMachineForJob` | src/common/makespan.rs:140-172 | the returned `(time, machine)` is `Chosen` of the machines' completion times for the job |
| `MakespanEngine.Makespan.ChooseFastestJobAndMachine` | src/common/makespan.rs:202-225 | the pick is `Fastest`: the first outstanding entry of least completion time, on its best machine |
| `MakespanEngine.Makespan.EarliestCompletionTime` | src/common/makespan.rs:174-199 | records the fastest pick at the stage and removes its entry, by first position, from the outstanding list |
| `MakespanEngine.Makespan.FirstCompleteStage` | src/common/makespan.rs:82-91 | the earliest-completion branch of one stage gives `EctRun` from the previous stage's list |
| `MakespanEngine.Makespan.PositionOf` | src/common/makespan.rs:193-198 | `iter().position`: the first index of the value, or the length when it is absent |
| `MakespanEngine.Makespan.LatestTime` | src/common/makespan.rs:96-103 | `max().unwrap()` is `MaxTime` |
| `MakespanEngine.RecordedEnd` | src/common/makespan.rs:96-103 | once every stage is recorded, the latest time of the last stage's list is `MakespanOf` the order |
| `MakespanEngine.RecordedMachines` | src/common/makespan.rs:40-104 | the run lists of the finished simulation are `MachineCompletions` of the order |
| `MakespanEngine.Fastest` | src/common/makespan.rs:202-225 | a pick below `u32::MAX` names a real job |
| `MakespanEngine.FastestFirst` | src/common/makespan.rs:193-225 | the pick is the first outstanding entry of least best time, no entry finishes earlier, and `iter().position` finds that very entry |
| `MakespanEngine.FastestSmallest` | src/common/makespan.rs:202-225 | the pick's time is no larger than that of any outstanding entry on any machine, and entries before the pick finish strictly later on every machine |
| `MakespanEngine.FastestLowestMachine` | src/common/makespan.rs:202-225 | the pick uses the lowest machine that attains its completion time |
| `MakespanEngine.Position` | src/common/makespan.rs:193-198 | the position found holds the value and no earlier position does |
| `MakespanEngine.EctStep` | src/common/makespan.rs:174-199 | one step keeps the stage state well formed and shortens the outstanding list by one |
| `MakespanEngine.EarliestCompletionStep` | src/common/makespan.rs:174-199 | the removed entry is the first entry of least completion time; the outstanding list loses exactly it; the pick is recorded last |
| `MakespanEngine.EctRun` | src/common/makespan.rs:82-91 | the branch keeps the stage state well formed |
| `MakespanEngine.EctStepJobs` | src/common/makespan.rs:174-199 | a step moves exactly one job from the outstanding list to the record |
| `MakespanEngine.EctRunJobs` | src/common/makespan.rs:82-91 | every outstanding job is recorded at the stage exactly once, after the jobs already recorded |
| `BestInsertion.RearrangedInsertable` | src/common/best_insertion.rs:19-27 | when `block ++ jobs` rearranges a valid non-empty schedule, the block can be inserted into `jobs` and every candidate evaluated |
| `BestInsertion.PlacementMultiset` | src/common/best_insertion.rs:27-42 | every candidate is a rearrangement of `block ++ jobs` |
| `BestInsertion.RotatePlacement` | src/common/best_insertion.rs:39-42 | rotating the window right by one moves the block one place to the right |
| `BestInsertion.PlacementSchedulable` | src/common/best_insertion.rs:28-42 | every candidate can be evaluated by the engine |
| `BestInsertion.SpanIs` | src/common/best_insertion.rs:28-42 | the recorded span of candidate `k` is its makespan |
| `BestInsertion.MinPrefixLeast` | src/common/best_insertion.rs:51-57 | the running best span is no larger than any span seen, and is attained |
| `BestInsertion.TiesStep` | src/common/best_insertion.rs:51-57 | a strictly better span restarts the list of best candidates, an equal one joins it, a worse one leaves it unchanged |
| `BestInsertion.TiesNonEmpty` | src/common/best_insertion.rs:51-65 | the list of best candidates is never empty |
| `BestInsertion.TiesExactly` | src/common/best_insertion.rs:51-65 | the best candidates are exactly the candidates whose span equals the least span |
| `BestInsertion.PlacementFirst` | src/common/best_insertion.rs:27-28 | candidate 0 is the block in front of the jobs |
| `BestInsertion.RotateRight` | src/common/best_insertion.rs:41 | `rotate_right(1)` of the window moves its last element to the front and shifts the rest by one |
| `BestInsertion.ShiftBlock` | src/common/best_insertion.rs:39-42 | each rotation turns candidate `k` into candidate `k + 1` |
| `BestInsertion.EvaluatePlacement` | src/common/best_insertion.rs:42 | one evaluation of a candidate counts once and returns its span |
| `BestInsertion.FirstCandidate` | src/common/best_insertion.rs:27-28 | loads `block ++ jobs`, candidate 0, into the window and evaluates it once |
| `BestInsertion.NextCandidate` | src/common/best_insertion.rs:39-42 | each loop pass rotates the window to the next candidate and evaluates it once |
| `BestInsertion.Record` | src/common/best_insertion.rs:45-57 | after each candidate, the best span is the least so far, the best list holds exactly the candidates attaining it, and the drawn rotation's candidate is kept once seen |
| `BestInsertion.ScanRotations` | src/common/best_insertion.rs:39-58 | the loop evaluates `|jobs|` candidates and ends with the least span, its ties and the drawn candidate |
| `BestInsertion.FindBestInsertion` | src/common/best_insertion.rs:19-66 | the counter goes up by `|jobs| + 1`; with a random result allowed and drawn, the result is the candidate at rotation `randomIdx + 1` with its span; otherwise a candidate of least span with that span |
| `BestInsertion.InsertionResult` | src/common/best_insertion.rs:60-65 | either result is a rearrangement of `block ++ jobs` returned with its own makespan |
| `BestInsertion.BestSpanLeast` | src/common/best_insertion.rs:51-65 | no candidate position gives a smaller makespan than the span returned on the non-random path |
| `NEH.SortedWeights` | src/common/construction/neh.rs:15-24 | the stable sort by total time followed by the reverse lists each job once, totals descending, the larger id first on ties |
| `NEH.ReversedBefore` | src/common/construction/neh.rs:24 | reversing a list ascending in (total, id) gives totals descending, the larger id first on ties |
| `NEH.SortJobs` | src/common/construction/neh.rs:15-31 | the result is a permutation of the jobs, in descending total processing time, the larger id first on ties |
| `NEH.FirstBest` | src/common/construction/neh.rs:38-49 | the position kept is one of the positions tried |
| `NEH.FirstBestLeast` | src/common/construction/neh.rs:38-49 | no tried position has a smaller span than the one kept, and every earlier position is strictly worse |
| `NEH.BestPosition` | src/common/construction/neh.rs:38-49 | the chosen position lies within the schedule, its end included |
| `NEH.BestInserted` | src/common/construction/neh.rs:34-51 | the result is the schedule plus the job, one longer |
| `NEH.FirstLeastIsFirstBest` | src/common/construction/neh.rs:45 | the strict `>` keeps the first position of least span |
| `NEH.FirstSpanFits` | src/common/construction/neh.rs:36-45 | the makespan at position 0 is below `u32::MAX`, so the strict `>` against the start value always takes it |
| `NEH.InsertJob` | src/common/construction/neh.rs:34-51 | `|schedule| + 1` evaluations; the result is `BestInserted` with its makespan |
| `NEH.TryPosition` | src/common/construction/neh.rs:39-48 | one loop pass evaluates one more position and keeps the first position of least span, its span and its schedule |
| `NEH.BestInsertedOptimal` | src/common/construction/neh.rs:34-51 | no insertion position gives a smaller makespan, and every earlier position gives a strictly larger one |
| `NEH.Built` | src/common/construction/neh.rs:4-12 | the schedule built from the first `n` jobs of the order is a rearrangement of them |
| `NEH.Neh` | src/common/construction/neh.rs:4-12 | the order is `sort_jobs`'s; the schedule is `Built` from all of it, a permutation of the jobs; the counter grows by `n(n+1)/2`, one per tried position |
| `NehPermutation.ReadyInFirst` | src/common/construction/neh_permutation.rs:42-47 | the lookup returns the time of the job's first entry in the previous stage's list |
| `NehPermutation.Assign` | src/common/construction/neh_permutation.rs:48-58 | placing a job, whatever its processing time, keeps the stage state well formed |
| `NehPermutation.PermStage` | src/common/construction/neh_permutation.rs:40-61 | each stage records the jobs in exactly the NEH order |
| `NehPermutation.PermSpanMax` | src/common/construction/neh_permutation.rs:65-73 | the result bounds every completion time of every stage and is attained |
| `NehPermutation.PermStageBound` | src/common/construction/neh_permutation.rs:40-61 | each stage adds at most one dispatch per job, zero-time jobs included |
| `NehPermutation.PermTiming` | src/common/construction/neh_permutation.rs:42-58 | each job completes no earlier than its previous-stage completion plus its processing time |
| `NehPermutation.PermReady` | src/common/construction/neh_permutation.rs:42-47 | the ready time looked up is the job's completion at the previous stage |
| `NehPermutation.PermStageRuns` | src/common/construction/neh_permutation.rs:48-58 | every job of a stage goes on exactly one machine |
| `NehPermutation.LookUp` | src/common/construction/neh_permutation.rs:42-47 | finds the job's entry in the previous stage's list |
| `NehPermutation.PermStageRun` | src/common/construction/neh_permutation.rs:40-61 | one stage of the loop gives `PermStage` |
| `NehPermutation.RecordedAll` | src/common/construction/neh_permutation.rs:40-61 | once every stage is recorded, the job-completion lists are the stages of `neh_p` |
| `NehPermutation.NehP` | src/common/construction/neh_permutation.rs:11-74 | the order is NEH's; the span is the largest completion time over all stages of the per-stage simulation; the evaluation counter is untouched |
| `Gch.Constructor.constructor` | src/common/construction/gch.rs:9-12 | the constructor holds the given evaluator |
| `Gch.Constructor.Create` | src/common/construction/gch.rs:15-39 | shuffles the jobs into a permutation, then builds greedily from the back of it: each job goes into a least-makespan position of the schedule left by the jobs after it; the result is a permutation with its makespan stored (`u32::MAX` for a single job) and is not marked updated; `n(n+1)/2 - 1` evaluations |
| `Gch.Constructor.Next` | src/common/construction/gch.rs:41-47 | the iterator never ends: every call yields a fresh evaluated permutation |
| `Gch.InsertFromBack` | src/common/construction/gch.rs:25-33 | the loop of `create` leaves the history of greedy rounds down to position 0 |
| `Gch.ProgressStart` | src/common/construction/gch.rs:25 | the last job alone, with span `u32::MAX`, starts the history |
| `Gch.Round` | src/common/construction/gch.rs:28-33 | one pass pops the next job and inserts it greedily, with `|order| + 1` evaluations |
| `Gch.GreedyExtend` | src/common/construction/gch.rs:28-33 | a greedy insertion extends the history by one round |
| `Gch.Popped` | src/common/construction/gch.rs:28-32 | the popped job can go into the schedule of the jobs after it |
| `Gch.InsertGreedily` | src/common/construction/gch.rs:32 | `find_best_insertion` without a random result inserts the job at a least-makespan position |
| `Gch.GreedyLeast` | src/common/construction/gch.rs:15-39 | in every round no position of the job gives a smaller makespan than the one chosen |
| `Gch.SuffixDistinct` | src/common/construction/gch.rs:28-33 | the jobs still to be placed are distinct ids |
| `Chromosomes.Shuffle` | src/genetic_algorithm/entities/chromosome.rs:16 | the Fisher–Yates swaps only rearrange the elements |
| `Chromosomes.ShuffledRange` | src/genetic_algorithm/entities/chromosome.rs:14-16 | the collected and shuffled ids are a permutation of `0..n` |
| `Chromosomes.New` | src/genetic_algorithm/entities/chromosome.rs:13-18 | a new chromosome is a permutation of the jobs, not yet evaluated |
| `Chromosomes.Digit` | src/genetic_algorithm/entities/chromosome.rs:123-134 | a digit below ten is a character `'0'..'9'` |
| `Chromosomes.Decimal` | src/genetic_algorithm/entities/chromosome.rs:127-132 | a job's text is a non-empty run of digits without a leading zero |
| `Chromosomes.DecimalRoundTrip` | src/genetic_algorithm/entities/chromosome.rs:127-132 | parsing a job's text gives the job back |
| `Chromosomes.Display` | src/genetic_algorithm/entities/chromosome.rs:123-134 | the text is the jobs joined by single dashes |
| `Chromosomes.JoinedShape` | src/genetic_algorithm/entities/chromosome.rs:123-134 | the text neither starts nor ends with a dash and holds one dash fewer than there are jobs |
| `Chromosomes.Split` | src/genetic_algorithm/entities/chromosome.rs:123-134 | splitting on dashes always gives at least one piece |
| `Chromosomes.SplitJoined` | src/genetic_algorithm/entities/chromosome.rs:123-134 | the pieces of the text are exactly the jobs' texts |
| `Chromosomes.DashFree` | src/genetic_algorithm/entities/chromosome.rs:127-132 | a job's text holds no dash |
| `Chromosomes.DisplayRoundTrip` | src/genetic_algorithm/entities/chromosome.rs:123-134 | splitting the text on dashes and parsing each piece gives the job list back |
| `Crossover.ParentsSwap` | src/genetic_algorithm/operators/crossover.rs:12-15 | the parents' requirements hold in either order |
| `Crossover.Sjox` | src/genetic_algorithm/operators/crossover.rs:12-60 | both children keep their own parent's prefix up to the cut and every job the parents share at a position; the rest follows the other parent's order; each child is a rearrangement of the parents and holds no filler; both are fresh chromosomes |
| `Crossover.Children` | src/genetic_algorithm/operators/crossover.rs:14-57 | both children built in place are the offspring of their parent pair: they agree with their template and fill its open slots with the other parent's missing jobs in order |
| `Crossover.ReadyToFill` | src/genetic_algorithm/operators/crossover.rs:24-50 | the two templates hold fillers at the same positions, none below the cut, and one missing job per filler |
| `Crossover.Child` | src/genetic_algorithm/operators/crossover.rs:52-59 | a child meeting the contract keeps its parent's prefix and shared jobs, rearranges its parent and holds no filler |
| `Crossover.ChildKeeps` | src/genetic_algorithm/operators/crossover.rs:52-57 | the fill keeps every job the template holds |
| `Crossover.MarkCommon` | src/genetic_algorithm/operators/crossover.rs:33-50 | the zip loop turns both buffers into their templates and collects, in order, each parent's jobs the other child lacks |
| `Crossover.FillSlots` | src/genetic_algorithm/operators/crossover.rs:52-57 | the fill loop keeps the templates' jobs and puts the collected jobs into the fillers, left to right |
| `Crossover.FillPosition` | src/genetic_algorithm/operators/crossover.rs:53-56 | one round fills position `i` of both children when it holds the filler and keeps the fill loop's state |
| `Crossover.MissingCount` | src/genetic_algorithm/operators/crossover.rs:43-57 | the template's jobs and the other parent's missing jobs together make up that parent, and there are exactly as many missing jobs as fillers |
| `Crossover.SlotsDetermine` | src/genetic_algorithm/operators/crossover.rs:12-60 | two sequences agreeing with a template and holding the same jobs in its slots are equal, so `Sjox`'s contract determines each child |
| `Crossover.ExampleTemplates` | src/genetic_algorithm/tests.rs:34-42 | the templates of the test parents with cut 4 |
| `Crossover.FirstExampleMissing` | src/genetic_algorithm/tests.rs:34-42 | the jobs missing from the first test template, in `p2`'s order |
| `Crossover.SecondExampleMissing` | src/genetic_algorithm/tests.rs:34-42 | the jobs missing from the second test template, in `p1`'s order |
| `Crossover.FirstExampleSlots` | src/genetic_algorithm/tests.rs:34-42 | filling the first template gives `[4,7,9,3,2,5,6,8,1]` |
| `Crossover.SecondExampleSlots` | src/genetic_algorithm/tests.rs:34-42 | filling the second template gives `[9,2,4,5,7,3,6,8,1]` |
| `Crossover.ExampleParents` | src/genetic_algorithm/tests.rs:34-42 | the test chromosomes are valid parents |
| `Crossover.FirstExampleChild` | src/genetic_algorithm/tests.rs:34-42 | the first expected child meets `Sjox`'s contract |
| `Crossover.SecondExampleChild` | src/genetic_algorithm/tests.rs:34-42 | the second expected child meets `Sjox`'s contract |
| `Crossover.SjoxExample` | src/genetic_algorithm/tests.rs:34-42 | on the test parents with cut 4, `Sjox` can only return the expected children |
| `Mutation.Shifted` | src/genetic_algorithm/operators/mutation.rs:17-20 | the job at `from` moves to `to`; the jobs between close the gap by one place; all others stay; only a rearrangement |
| `Mutation.ShiftedBack` | src/genetic_algorithm/operators/mutation.rs:17-20 | moving the job back from `to` to `from` restores the schedule |
| `Mutation.ShiftedInPlace` | src/genetic_algorithm/operators/mutation.rs:17-20 | a move to the same position changes nothing |
| `Mutation.Shift` | src/genetic_algorithm/operators/mutation.rs:12-21 | the jobs become `Shifted` by the drawn positions; the cached makespan and the flag are untouched |
| `Crowding.Matches` | src/genetic_algorithm/operators/crowding.rs:23-31 | the exact-match distance counts the positions where the two job lists agree, so it is at most their length |
| `Crowding.MatchesSymmetric` | src/genetic_algorithm/operators/crowding.rs:23-31 | the exact-match distance is symmetric |
| `Crowding.MatchesSelf` | src/genetic_algorithm/operators/crowding.rs:23-31 | a job list matches itself at every position |
| `Crowding.MatchesBelow` | src/genetic_algorithm/operators/crowding.rs:23-31 | lists that disagree at some common position match at fewer positions than either length |
| `Crowding.Positions` | src/genetic_algorithm/operators/crowding.rs:35-46 | the index array has one entry per job id |
| `Crowding.PositionsOfDistinct` | src/genetic_algorithm/operators/crowding.rs:35-46 | for distinct jobs the index array records each job's position, and 0 for the jobs not in the list |
| `Crowding.DeviationSymmetric` | src/genetic_algorithm/operators/crowding.rs:48-51 | the fold of position differences does not depend on the order of the two index arrays |
| `Crowding.DeviationZero` | src/genetic_algorithm/operators/crowding.rs:48-51 | an index array deviates from itself by 0 |
| `Crowding.DeviationFacts` | src/genetic_algorithm/operators/crowding.rs:33-53 | the deviation distance is 0 between identical lists and symmetric between lists of one length |
| `Crowding.DeviationPositive` | src/genetic_algorithm/operators/crowding.rs:48-51 | a difference at any position of the index arrays makes the sum positive |
| `Crowding.DeviationIdentifies` | src/genetic_algorithm/operators/crowding.rs:33-53 | between permutations the deviation is 0 exactly when they are equal |
| `Crowding.IndexArrays` | src/genetic_algorithm/operators/crowding.rs:35-46 | the loop fills both index arrays with each job's position |
| `Crowding.Deviations` | src/genetic_algorithm/operators/crowding.rs:33-53 | the method computes the deviation distance |
| `Crowding.ExactMatchExample` | src/genetic_algorithm/operators/crowding.rs:198-204 | the test's exact-match distance is 4 |
| `Crowding.DeviationExample` | src/genetic_algorithm/operators/crowding.rs:206-212 | the test's deviation distance is 12 |
| `Crowding.Measure` | src/genetic_algorithm/operators/crowding.rs:74-79 | computes the distance the `dtype` selects |
| `Crowding.FindWinner` | src/genetic_algorithm/operators/crowding.rs:94-117 | with scale 0 the winner is the parent or the child, no worse than either; on equal makespans the coin decides |
| `Crowding.SurvivorSelection` | src/genetic_algorithm/operators/crowding.rs:55-92 | each parent meets the child of the nearer pairing, and the survivors are those tournaments' winners in parent order |
| `Crowding.SurvivorsFacts` | src/genetic_algorithm/operators/crowding.rs:55-92 | each parent meets a different child; the pairing taken is never farther in total than the other one; each survivor is no worse than the parent and its opponent |
| `Crowding.StraightSurvivorsExample` | src/genetic_algorithm/operators/crowding.rs:214-246 | in the test where `p1` meets `c1`, the survivors are `[p1, c2]` whatever the coins |
| `Crowding.CrossedSurvivorsExample` | src/genetic_algorithm/operators/crowding.rs:248-280 | in the test where `p1` meets `c2`, the survivors are `[c2, c1]` whatever the coins |
| `Crowding.Ranking` | src/genetic_algorithm/operators/crowding.rs:156-160 | each individual is paired with its own index and its distance from the newcomer |
| `Crowding.Nearest` | src/genetic_algorithm/operators/crowding.rs:162-165 | the `k` nearest are `k` entries |
| `Crowding.LeastFit` | src/genetic_algorithm/operators/crowding.rs:168-172 | `max_by_key` gives an entry of largest makespan, the last such on ties |
| `Crowding.SortedRanking` | src/genetic_algorithm/operators/crowding.rs:162 | the stable sort by distance keeps every entry and orders by distance, then by index |
| `Crowding.NearestFacts` | src/genetic_algorithm/operators/crowding.rs:156-165 | the `k` nearest are distinct individuals, and no one left out is strictly nearer |
| `Crowding.KNearestReplacement` | src/genetic_algorithm/operators/crowding.rs:139-183 | `None` exactly when all `k` nearest are strictly fitter than the newcomer; otherwise the index of one of them that is no fitter than any other of them |
| `Crowding.MaxByFitness` | src/genetic_algorithm/operators/crowding.rs:168-172 | the loop finds `LeastFit` |
| `Crowding.ExampleRanking` | src/genetic_algorithm/operators/crowding.rs:282-348 | the test newcomer ranks the test population by distance |
| `Crowding.NearestReplacedExample` | src/genetic_algorithm/operators/crowding.rs:282-303 | with `k = 1` the newcomer replaces individual 2 |
| `Crowding.LeastFitReplacedExample` | src/genetic_algorithm/operators/crowding.rs:305-325 | with `k = 2` it replaces the least fit, individual 1 |
| `Crowding.NoReplacementExample` | src/genetic_algorithm/operators/crowding.rs:327-348 | with `k = 2` and fitter neighbours it replaces none |
| `Replacement.RandomReplace` | src/genetic_algorithm/operators/replacement.rs:29-38 | the kept prefix is untouched and every later index gets a fresh chromosome |
| `Replacement.Take` | src/genetic_algorithm/operators/replacement.rs:45-47 | `take(k)` gives `k` constructed chromosomes for `k` GCH runs of evaluations |
| `Replacement.GchReplace` | src/genetic_algorithm/operators/replacement.rs:40-54 | the kept prefix is untouched; the constructed chromosomes fill the later indices in construction order |
| `Replacement.MutateReplace` | src/genetic_algorithm/operators/replacement.rs:56-79 | the kept prefix is untouched; the first half of the replaced slots take shifted copies of drawn kept individuals; the rest get fresh chromosomes |
| `Replacement.NoReplace` | src/genetic_algorithm/operators/replacement.rs:81-90 | the population is left as it is |
| `Ga.Winner` | src/genetic_algorithm/ga.rs:56-64 | the tournament winner is one of the two draws; with `KEEP_BEST` it ranks no worse than either (the first on a tie); otherwise it is the drawn one |
| `Ga.PermutationParents` | src/genetic_algorithm/ga.rs:71-73 | two permutations of the jobs can be crossed |
| `Ga.CrossPair` | src/genetic_algorithm/ga.rs:71-83 | a pair that crosses is replaced by SJOX's children, otherwise kept |
| `Ga.MutateOne` | src/genetic_algorithm/ga.rs:86-90 | an individual is shifted when its draw says so, otherwise kept |
| `Ga.MateStep` | src/genetic_algorithm/ga.rs:71-83 | one chunk of the crossover loop |
| `Ga.Mate` | src/genetic_algorithm/ga.rs:71-83 | every pair is crossed or kept by its own draw; an odd last individual is kept |
| `Ga.MutatePool` | src/genetic_algorithm/ga.rs:86-90 | every individual is mutated by its own draw, independently |
| `Ga.SortedPerms` | src/genetic_algorithm/ga.rs:94 | sorting keeps a population of permutations |
| `Ga.Elites` | src/genetic_algorithm/ga.rs:95-97 | the first `ELITISM` individuals, as fresh chromosomes |
| `Ga.ElitesBest` | src/genetic_algorithm/ga.rs:94-97 | sorting keeps every individual, and no later individual ranks below an elite |
| `Ga.Scored` | src/genetic_algorithm/ga.rs:47-49 | evaluation keeps the population's size |
| `Ga.GA.constructor` | src/genetic_algorithm/ga.rs:24-42 | `POPULATION_SIZE` fresh permutations and an empty mating pool |
| `Ga.GA.Evaluate` | src/genetic_algorithm/ga.rs:47-49 | each individual stores its given makespan; nothing else changes |
| `Ga.GA.Select` | src/genetic_algorithm/ga.rs:52-69 | the cleared mating pool receives each tournament's winner, jobs and makespan; the population is untouched |
| `Ga.GA.Elitism` | src/genetic_algorithm/ga.rs:94-97 | the population is sorted stably by makespan and its first `ELITISM` members' jobs join the mating pool |
| `Ga.GA.Swap` | src/genetic_algorithm/ga.rs:106-110 | the population becomes fresh copies of the mating pool's jobs, in order |
| `Ga.GA.Breed` | src/genetic_algorithm/ga.rs:46-90 | evaluation, then selection, crossover and mutation, each by its own relation, leave `POPULATION_SIZE - ELITISM` permutations in the mating pool |
| `Ga.GA.Renew` | src/genetic_algorithm/ga.rs:92-110 | the new population is the bred pool's jobs followed by the elites', none evaluated |
| `Ga.GA.Generation` | src/genetic_algorithm/ga.rs:45-111 | one iteration: the new population is fresh copies of the selected, crossed and mutated individuals followed by the `ELITISM` best-ranked evaluated ones, which is the `Generated` relation |
| `Ga.GA.Run` | src/genetic_algorithm/ga.rs:44-112 | exactly `ITERATIONS` generations: the trail of populations starts at the initial one, ends at the final one, and each step is one `Generated` step under that generation's draws (evaluation, selection, crossover, mutation, elitism, swap); the result is `POPULATION_SIZE` unevaluated permutations |
| `IteratedGreedy.SpanIsMakespan` | src/iterated_greedy/iterated_greedy.rs:111 | the span tracked for a schedule is its makespan |
| `IteratedGreedy.ReinsertedIs` | src/iterated_greedy/iterated_greedy.rs:116 | the tracked reinsertion is NEH's best insertion |
| `IteratedGreedy.Evaluate` | src/iterated_greedy/iterated_greedy.rs:111 | one evaluation, returning the schedule's makespan |
| `IteratedGreedy.Reinsert` | src/iterated_greedy/iterated_greedy.rs:116 | `insert_job` with its `|schedule| + 1` evaluations; the result is the best insertion with its makespan |
| `IteratedGreedy.RemoveRandom` | src/iterated_greedy/iterated_greedy.rs:193-204 | removes the job at the drawn index and returns it; nothing else is lost |
| `IteratedGreedy.RemoveRestored` | src/iterated_greedy/iterated_greedy.rs:193-204 | putting the removed job back at its index restores the schedule |
| `IteratedGreedy.Remaining` | src/iterated_greedy/iterated_greedy.rs:109-112 | removing jobs at `k` drawn indices, one after the other, leaves `k` fewer jobs |
| `IteratedGreedy.RemovedJobs` | src/iterated_greedy/iterated_greedy.rs:109-113 | the jobs those removals take out, in removal order, one per index; with what remains they make up the schedule |
| `IteratedGreedy.RemovedRestored` | src/iterated_greedy/iterated_greedy.rs:109-113 | putting the removed jobs back at their indices, last removal first, gives the schedule back: nothing is lost or reordered |
| `IteratedGreedy.RemoveOneMore` | src/iterated_greedy/iterated_greedy.rs:110-113 | one more removal takes the job at the drawn index out of what remains and appends it to the removed jobs |
| `IteratedGreedy.SubSchedulable` | src/iterated_greedy/iterated_greedy.rs:109-114 | a non-empty part of a schedule can still be evaluated |
| `IteratedGreedy.Untried` | src/iterated_greedy/iterated_greedy.rs:175-177 | while fewer jobs were tried than the schedule holds, an untried one exists, so the retry loop ends |
| `IteratedGreedy.Pick` | src/iterated_greedy/iterated_greedy.rs:173-177 | removes a job not removed before in this pass |
| `IteratedGreedy.TriedOneMore` | src/iterated_greedy/iterated_greedy.rs:179 | recording the picked job keeps the tried list distinct and within the schedule |
| `IteratedGreedy.Try` | src/iterated_greedy/iterated_greedy.rs:171-186 | one try reinserts a fresh job at its best place and keeps the result only when strictly better |
| `IteratedGreedy.TryFacts` | src/iterated_greedy/iterated_greedy.rs:176-181 | the job taken out by a try can be reinserted, and the reinsertion holds the same jobs |
| `IteratedGreedy.Searched` | src/iterated_greedy/iterated_greedy.rs:171-186 | the incumbent after tries at drawn indices is a rearrangement of the schedule, of the same length |
| `IteratedGreedy.PickedJobs` | src/iterated_greedy/iterated_greedy.rs:176-179 | the tried jobs, one per drawn index, each the job at that index of the incumbent of its time |
| `IteratedGreedy.SearchOneMore` | src/iterated_greedy/iterated_greedy.rs:175-185 | one more try reinserts the job at the drawn index at its best place and keeps the result only when its makespan is strictly smaller |
| `IteratedGreedy.SearchedNoWorse` | src/iterated_greedy/iterated_greedy.rs:183-185 | the tries never raise the incumbent's makespan |
| `IteratedGreedy.TimesIs` | src/iterated_greedy/iterated_greedy.rs:163-171 | the pass's evaluation count is `n` times the schedule length |
| `IteratedGreedy.Pass` | src/iterated_greedy/iterated_greedy.rs:167-187 | `n` tries at drawn indices: the result is exactly `Searched` of those tries, the tried jobs are `PickedJobs` of them and distinct; `n` times the schedule length evaluations |
| `IteratedGreedy.Improve` | src/iterated_greedy/iterated_greedy.rs:156-190 | one evaluation, then one pass of `len / 5` tries: the result is `Searched` of those tries, with its makespan, a rearrangement no worse than the input |
| `IteratedGreedy.Destroy` | src/iterated_greedy/iterated_greedy.rs:109-114 | for `d` drawn indices, the rest is `Remaining` and the deleted jobs are `RemovedJobs` of those removals, order kept; one evaluation per removal |
| `IteratedGreedy.RemoveOne` | src/iterated_greedy/iterated_greedy.rs:110-113 | one round of destruction: one more drawn removal, the reduced schedule evaluated with one evaluation |
| `IteratedGreedy.Rebuilt` | src/iterated_greedy/iterated_greedy.rs:115-117 | reinserting the first `n` deleted jobs gives back all but the rest of them |
| `IteratedGreedy.RebuiltStep` | src/iterated_greedy/iterated_greedy.rs:115-117 | each reinsertion is the best insertion of the next deleted job |
| `IteratedGreedy.Construct` | src/iterated_greedy/iterated_greedy.rs:115-117 | the deleted jobs are reinserted in deletion order, each at its best place; the result is a rearrangement of the original schedule |
| `IteratedGreedy.StillToInsert` | src/iterated_greedy/iterated_greedy.rs:115-117 | the next deleted job can still be inserted |
| `IteratedGreedy.Perturb` | src/iterated_greedy/iterated_greedy.rs:107-117 | destruction then construction: the result is `Rebuilt` from `Remaining` and `RemovedJobs` of `current` at the drawn indices, with its makespan; `d` plus the insertions' evaluations |
| `IteratedGreedy.Iterate` | src/iterated_greedy/iterated_greedy.rs:107-129 | one iteration: the perturbed schedule is `Rebuilt` from `Remaining`/`RemovedJobs` of `current` at `d` drawn indices; the candidate is `Searched` of it over `len / 5` tries; a strictly better candidate becomes current (and best when better still); otherwise current stays or takes the perturbed schedule |
| `IteratedGreedy.Accept` | src/iterated_greedy/iterated_greedy.rs:120-129 | the acceptance rule on a candidate and the rebuilt schedule |
| `IteratedGreedy.Initial` | src/iterated_greedy/iterated_greedy.rs:75-78 | starts from the given schedule, or from a permutation of all jobs (NEH's) when none is given |
| `IteratedGreedy.Run` | src/iterated_greedy/iterated_greedy.rs:65-141 | loops while `is_terminated` (lines 213-227) is false, so at least `allowed_count` evaluations are spent; the best is a scored rearrangement of the start, no worse than the start and than the start after its local search (`improved`) |
| `IteratedGreedy.Advance` | src/iterated_greedy/iterated_greedy.rs:100-137 | one loop pass records the new current schedule and keeps the best no worse than every schedule held so far |
| `Sorting.SortByMultiset` | src/common/makespan.rs:68-70 | `sort_by_key` only rearranges |
| `Sorting.SortBySorted` | src/common/makespan.rs:68-70 | the sort's result is ascending in its key |
| `Sorting.SortByStable` | src/common/makespan.rs:68-70 | equal keys keep their relative order |
| `Sorting.SortByLex` | src/common/construction/neh.rs:23 | sorting a list ascending in id by total time leaves it ascending in total time, then id |

## Left out

- `MakespanEngine.Makespan.Evaluate`: completion times, counters and sums are
  unbounded `nat`s, not `u32`. `Instance.Valid()` requires
  `stages * jobs * Step() < u32::MAX`, so no completion time reaches the
  sentinel (`MakespanFits`). Wrap-around on larger instances is not modelled.
- `MakespanEngine.Makespan.Evaluate`: models the FIFO branch only, because
  `PROCESS_FIFO` is `true` (`makespan.rs:5-6`, `66`). The first-complete
  branch (`makespan.rs:82-91`) is modelled as separate operations
  (`FirstCompleteStage`, `EarliestCompletionTime`,
  `ChooseFastestJobAndMachine`) that `Evaluate` never reaches.
- `Crowding.FindWinner`: only scale 0, deterministic crowding
  (`crowding.rs:100-117`). The probabilistic branch for a positive scale
  (`crowding.rs:119-135`) uses floating point and is left out.
  `SurvivorSelection` and `KNearestReplacement` inherit this.
- `Crowding.KNearestReplacement`: `&winner == c` (`crowding.rs:178`) is taken
  to compare cached makespans. Chromosome equality is not derived in
  `chromosome.rs`.
- `Crowding.Matches`: the `i32` count and the `f64` absolute value of the
  deviation distance are unbounded integers.
- `Ga.Winner`: `std::cmp::min` (`ga.rs:61`) and the sort (`ga.rs:94`) are
  taken to order chromosomes by cached makespan, with `None` below every
  `Some`. `Ord` is not derived in `chromosome.rs`.
- `Ga.GA.Elitism`: inherits that ordering.
- `Ga.GA.Breed`: inherits that ordering through `Ga.Winner`.
- `Ga.GA.Evaluate`: takes the makespans as a parameter.
  `Chromosome::makespan` is not part of the repository's chromosome file, so
  the makespans need not be those of the engine.
- `Ga.GA.Run`: the `KEEP_BEST`, `XOVER_PROB` and `MUTATION_PROB` draws
  (`params.rs:5-7`) are booleans in the draws, not floating-point
  comparisons. The `println!` of each generation (`ga.rs:99-104`) is left
  out.
- `Ga.GA.constructor`: takes the instance instead of parsing `PROBLEM_FILE`
  (`ga.rs:25`). Instance parsing is not part of this model.
- `Replacement.MutateReplace`: the source calls
  `mutation::Random::apply(&mut new_c, m, rng)` (`replacement.rs:69`), which
  the repository does not define. The model applies SHIFT, the only mutation
  in `mutation.rs`, so a copy's makespan is left unset rather than possibly
  evaluated by `m`.
- `Replacement.RandomReplace`: the kept count `always_keep` is computed from a
  floating-point fraction of the population (`replacement.rs:31`). It is
  given directly as `alwaysKeep`.
- `Replacement.GchReplace`: the kept count is given directly as `alwaysKeep`,
  as in `RandomReplace`.
- `Replacement.MutateReplace`: the kept count is given directly as
  `alwaysKeep`, as in `RandomReplace`.
- `BestInsertion.FindBestInsertion`: the `KEEP_BEST` floating-point draw is the
  `takeRandom` boolean. The rotation index is the `randomIdx` parameter.
- `NehPermutation.NehP`: the `println!` at `neh_permutation.rs:63` is left
  out.
- `IteratedGreedy.Run`: the CSV trace (`iterated_greedy.rs:131-138`) and its
  file output are left out. The wall-clock termination selected by
  `IG_GRID_SEARCH` (`iterated_greedy.rs:221-222`) is left out; only the
  count-based test is modelled. `IsTerminated` is that test, the loop
  condition, and has no contract of its own.
- `IteratedGreedy.Initial`: without a given schedule, states only that NEH's
  schedule is a permutation of all jobs. NEH's own properties are stated by
  `NEH.Neh`.
- `IteratedGreedy.Accept`: the simulated-annealing test
  (`iterated_greedy.rs:125-126`) and `find_temp` (`143-153`) use floating
  point. Accepting the rebuilt schedule is an arbitrary choice.
- `IteratedGreedy.Pick`: the retry loop of `remove_random` calls
  (`iterated_greedy.rs:175-177`) is replaced by a direct choice of an index
  whose job was not tried yet. `Untried` shows that the loop would end.
- `IteratedGreedy.Improve`: `improvement` is never set back to `true`
  (`iterated_greedy.rs:167-168`), so the outer loop runs once. The model
  performs that single pass.
- `Mutation.Shift`: returns the changed chromosome instead of mutating it in
  place. The two positions are parameters instead of `thread_rng` draws.
- `Chromosomes.New`: the shuffle draws are a parameter, not `thread_rng`.
- Every random draw (shuffle positions, indices, cut points, coins) is a
  parameter constrained to the range the source draws from. A property
  proved therefore holds for every outcome of the generator.
- `IteratedGreedy.Destroy`, `IteratedGreedy.Pass`: the indices drawn by
  `remove_random` are chosen inside the method and returned as ghost
  outputs (`drawn`, `picks`), so the contracts hold for whatever was drawn.
- `Makespan::makespan`'s `Vec` and tuple types, the instance parser,
  `makespan_v2.rs`, `iterative_greedy.rs`, `mddr.rs`, `solver.rs`,
  `local_search.rs`, the option types and the Python tooling are not part of
  this model.
