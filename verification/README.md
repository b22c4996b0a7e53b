# Jeryu CI control plane: a verified model

The project models the deterministic part of the Jeryu CI runner: how a workflow is expanded, assembled,
validated and scheduled, how work is placed on an epoch-fenced fleet of runners, how pull requests pass
the merge queue, and five smaller units around them. `dafny verify dfyconfig.toml` checks everything.

| file | what it models |
|---|---|
| `Order.dfy`, `Text.dfy`, `Numbers.dfy` | ordered-set iteration, stable sorting, texts, machine integers |
| `PipelineIr.dfy` | pipeline IR, canonical text, IR hash, structural validation |
| `CanonicalReading.dfy` | reading the canonical text back: when it determines the pipeline |
| `Dag.dfy` | dependency chains, cycles and depth: the reference notions for scheduling |
| `Scheduler.dfy` | the layered topological sort |
| `Matrix.dfy` | build-matrix expansion |
| `Naming.dfy` | sanitising, expanded job ids and their collisions |
| `Steps.dfy` | matrix references in steps, step ids, expanded names |
| `Compiler.dfy` | expansion of jobs, resolution of `needs`, the compile pipeline and when it succeeds |
| `CompiledText.dfy` | the canonical text of compiled pipelines |
| `Registry.dfy` | node registry with epoch fencing, and its runs |
| `Fleet.dfy`, `FleetBatch.dfy` | runner fleet over the registry, slot conservation, batches |
| `MergeQueue.dfy` | witness-gated FIFO queue with a greedy pass |
| `WarmPool.dfy` | warm container pool, its runtime and its id source |
| `PromptFilter.dfy` | the terminal output filter that answers one prompt |
| `ReceiptJson.dfy` | receipt JSON and a reader for it |
| `Allowlist.dfy` | egress allowlist against the DNS subdomain relation |
| `Governor.dfy` | worker-count arithmetic |

Objects that the source updates in place are classes (`NodeRegistry`, `RunnerFleet`, `MergeQueue`,
`ContainerRuntime`, `WorkcellManager`, `WarmPool`, `ThemePromptAutoSelect`). Each of their methods is proved
against a step function on values, and the results about whole runs are lemmas about those step functions.
What a step function or a text computes is in turn stated without it: over the operations of a run, by counting,
or by a reader of the text.

Where the code differs from what its comments say, the model follows the code:

- `register` is documented to give a strictly higher epoch than ever held. At the 64-bit maximum it cannot:
  `SaturatedTokenComesBack` exhibits the run, `FencingHoldsExactlyBelowSaturation` the exact condition.
- A batch that runs out of slots dispatches nothing but keeps the slots it had reserved;
  `FailedBatchBlocksTheClass` shows that the class is then full.
- The governor's ceiling is commented as the central safety invariant and its floor as "never zero".
  `HardCeilingHoldsExactly` says when the ceiling is kept (a floor above it wins: `FloorOverrunsCeiling`),
  `NoWorkersExactly` when no worker is allowed.
- An exact-host rule written with a port or a final dot is accepted and does not match the host it names
  (`HostRulePermitsItself`); one with a port matches nothing at all (`HostRuleIsReachable`).
- `reap_orphans` also removes warm containers that the ledger does not name, and a later claim hands such a
  container out (`ReapThenClaim`, with the exact condition in `Claim`).
- Different combinations of a matrix can get the same job id: values that differ only in case
  (`CaseVariantsCollide`), in characters an id cannot hold (`SpacesCollide`) or in underscores at the end
  (`TrailingSeparatorsCollide`), that contain the separator (`SeparatorsCollide`) or are empty
  (`EmptyValueCollides`). `WordsCollideExactly` says when ids differ for values without such separators,
  `OneAxisCollidesExactly` for all values of a single axis, and `Compile` refuses a workflow whose ids do not.
- The values of a matrix are substituted axis by axis into what the axes before left, so a value that is itself a
  reference is substituted again (`ValuesAreReadAgain`); `SubstitutionMeaning` holds where pieces cannot run together.
- A claim that fails because a container did not start has already taken its entry out of the pool and claimed
  its cell, unless the pool was drained (`Claim`).
- The canonical text, and with it the IR hash and the pipeline id, leaves out the default token scope
  (`ScopeIsNotPrinted`, `ScopeIsNotInTheId`), and it does not escape keys and joined lists, so different pipelines can share it
  (`DifferentJobsSameText`, and a twin for every mount, list, edge, class and source that is not readable).
  `CanonicalTextDetermines` says exactly what the text of a readable pipeline determines.

## Model

| member | source | states |
|---|---|---|
| `Scheduler.DeterministicSchedule` | components/jeryu-ci-runner/crates/jeryu-ci-scheduler/src/schedule.rs:49-110 | for every pipeline: the first repeated id, else the first unknown edge endpoint, else `Cycle` exactly when a chain of edges returns to its start, else rounds in which round k lists, in increasing order, exactly the jobs whose longest dependency chain has k edges, with the hash of that layout |
| `Scheduler.HashedTextReadsBack` | components/jeryu-ci-runner/crates/jeryu-ci-scheduler/src/schedule.rs:96-109 | for ids without commas and line breaks the schedule hash is taken of a text that reads back to the IR hash and to the rounds, indices and jobs in order |
| `Scheduler.CollectIds` | components/jeryu-ci-runner/crates/jeryu-ci-scheduler/src/schedule.rs:50-55 | the id set of distinct ids, or the first id in list order that repeats an earlier one |
| `Scheduler.CollectDependencies` | components/jeryu-ci-runner/crates/jeryu-ci-scheduler/src/schedule.rs:57-69 | a dependency map that records exactly the edges, or the first unknown endpoint, `from` before `to` |
| `Scheduler.Ready` | components/jeryu-ci-runner/crates/jeryu-ci-scheduler/src/schedule.rs:74-82 | exactly the remaining jobs all of whose dependencies are completed, once each, in increasing order |
| `Scheduler.BuildRounds` | components/jeryu-ci-runner/crates/jeryu-ci-scheduler/src/schedule.rs:71-94 | the loop answers `Cycle` if and only if the edges are cyclic, and otherwise lays every job out at its depth |
| `Scheduler.ReadyDepth` | components/jeryu-ci-runner/crates/jeryu-ci-scheduler/src/schedule.rs:74-93 | a job that becomes ready in round k has a longest dependency chain of exactly k edges |
| `Scheduler.ProgressStep` | components/jeryu-ci-runner/crates/jeryu-ci-scheduler/src/schedule.rs:86-93 | moving the ready jobs from remaining to completed keeps the loop invariant, including that every job still waiting depends on something not placed before the newest round |
| `Scheduler.NothingReadyImpliesCyclic` | components/jeryu-ci-runner/crates/jeryu-ci-scheduler/src/schedule.rs:83-85 | when nothing is ready and jobs remain, the edges contain a cycle (soundness of the early `Cycle` exit) |
| `Scheduler.FinishedIsAcyclic` | components/jeryu-ci-runner/crates/jeryu-ci-scheduler/src/schedule.rs:73-94 | a finished layout excludes every cycle (completeness of the `Cycle` verdict) |
| `Dag.WalkBack` | components/jeryu-ci-runner/crates/jeryu-ci-scheduler/src/schedule.rs:83-85 | the pigeonhole step: walking backwards inside a finite set whose members all depend on members must repeat one, which closes a cycle |
| `Dag.LabelsGrowAlongChains` | components/jeryu-ci-runner/crates/jeryu-ci-scheduler/src/schedule.rs:71-94 | any labelling that increases along edges grows by at least the length of every chain |
| `Scheduler.DependenciesFirst` | components/jeryu-ci-runner/crates/jeryu-ci-scheduler/src/schedule.rs:71-94 | each job lies in one round only, strictly after all its dependencies |
| `Scheduler.ScheduleIsOptimal` | components/jeryu-ci-runner/crates/jeryu-ci-scheduler/src/schedule.rs:71-94 | no layering that respects the edges places any job earlier or uses fewer rounds |
| `Scheduler.LayoutUnique` | components/jeryu-ci-runner/crates/jeryu-ci-scheduler/src/schedule.rs:71-109 | the rounds are a function of the job ids and the edge set alone |
| `Scheduler.VerdictKind` | components/jeryu-ci-runner/crates/jeryu-ci-scheduler/src/schedule.rs:49-110 | each of the three errors is returned exactly under its own condition |
| `Scheduler.ScheduleIgnoresListOrder` | components/jeryu-ci-runner/crates/jeryu-ci-scheduler/src/schedule.rs:49-110 | permuting job and edge lists leaves rounds, schedule hash and `Cycle` verdict unchanged, and a rejected list rejected for the same kind of reason |
| `Scheduler.ValidatedPipelinesSchedule` | components/jeryu-ci-runner/crates/jeryu-ci-ir/src/pipeline.rs:147-178 | a pipeline accepted by validation fails to schedule exactly when its edges are cyclic |
| `Order.AscendingUnique` | components/jeryu-ci-runner/crates/jeryu-ci-scheduler/src/schedule.rs:74-82 | a set has one increasing enumeration, so ordered-set iteration is determined by its contents |
| `PipelineIr.Canonical` | components/jeryu-ci-runner/crates/jeryu-ci-ir/src/pipeline.rs:59-141 | the canonical text is the header lines, the jobs sorted by id and the edges sorted by (from, to) |
| `PipelineIr.JobCanonicalInto` | components/jeryu-ci-runner/crates/jeryu-ci-ir/src/job.rs:116-185 | appends to the buffer the job text with inputs and outputs by key, mounts by (name, path), artifacts by name and steps in order |
| `PipelineIr.EscapeCanonicalRoundTrip` | components/jeryu-ci-runner/crates/jeryu-ci-ir/src/hashing.rs:65-74 | an escaped value holds no line break and reads back to the value, although the two replacements run one after the other |
| `PipelineIr.CanonicalIgnoresListOrder` | components/jeryu-ci-runner/crates/jeryu-ci-ir/src/pipeline.rs:129-145 | with distinct job ids, permuting the job and edge lists changes neither canonical text nor IR hash |
| `CanonicalReading.RenderDetermines` | components/jeryu-ci-runner/crates/jeryu-ci-ir/src/hashing.rs:65-74 | a text whose keys hold no equals sign and no line break reads back line by line |
| `CanonicalReading.JobDetermines` | components/jeryu-ci-runner/crates/jeryu-ci-ir/src/job.rs:116-185 | the lines of a readable job determine every field of it |
| `CanonicalReading.CanonicalTextDetermines` | components/jeryu-ci-runner/crates/jeryu-ci-ir/src/pipeline.rs:59-145 | among readable pipelines the canonical text is the same if and only if, once jobs, edges, mounts and artifacts are sorted, the pipelines agree on everything but the default token scope |
| `CanonicalReading.ParseCanonical` | components/jeryu-ci-runner/crates/jeryu-ci-ir/src/hashing.rs:65-74 | a line reader gets the lines of a readable pipeline back from its text |
| `CanonicalReading.HeaderLineSays` | components/jeryu-ci-runner/crates/jeryu-ci-ir/src/pipeline.rs:59-127 | every header line stands in the text |
| `CanonicalReading.HeaderShowsContext` | components/jeryu-ci-runner/crates/jeryu-ci-ir/src/pipeline.rs:61-65 | the text gives id, source, repository, commit and trust tier under their keys |
| `CanonicalReading.HeaderShowsScope` | components/jeryu-ci-runner/crates/jeryu-ci-ir/src/pipeline.rs:66-75 | the value of each sharing flag of the cache policy stands under its own key |
| `CanonicalReading.HeaderShowsPromotion` | components/jeryu-ci-runner/crates/jeryu-ci-ir/src/pipeline.rs:76-85 | the value of each promotion flag of the cache policy stands under its own key |
| `CanonicalReading.HeaderShowsArtifacts` | components/jeryu-ci-runner/crates/jeryu-ci-ir/src/pipeline.rs:86-100 | the artifact policy stands under its keys |
| `CanonicalReading.HeaderShowsPolicies` | components/jeryu-ci-runner/crates/jeryu-ci-ir/src/pipeline.rs:101-127 | the permission, secret, proof and signing policies stand under their keys |
| `CanonicalReading.TextSaysJob` | components/jeryu-ci-runner/crates/jeryu-ci-ir/src/job.rs:117-132 | the text gives every fixed field of every job under its key |
| `CanonicalReading.TextSaysInputs` | components/jeryu-ci-runner/crates/jeryu-ci-ir/src/job.rs:133-138 | it gives every input and output of every job |
| `CanonicalReading.TextSaysStorageOfJob` | components/jeryu-ci-runner/crates/jeryu-ci-ir/src/job.rs:139-168 | it shows every mount and every artifact of a job with its parts in order |
| `CanonicalReading.TextSaysStep` | components/jeryu-ci-runner/crates/jeryu-ci-ir/src/job.rs:169-185 | it gives the fields of every step |
| `CanonicalReading.TextSaysEnv` | components/jeryu-ci-runner/crates/jeryu-ci-ir/src/job.rs:169-185 | it gives every environment value of every step |
| `CanonicalReading.TextSaysEdge` | components/jeryu-ci-runner/crates/jeryu-ci-ir/src/pipeline.rs:137-139 | it shows every edge from the needed job to the one that needs it |
| `CanonicalReading.TextOrder` | components/jeryu-ci-runner/crates/jeryu-ci-ir/src/pipeline.rs:129-136 | jobs are shown in id order, edges by source and then target |
| `CanonicalReading.JobTextOrder` | components/jeryu-ci-runner/crates/jeryu-ci-ir/src/job.rs:139-168 | mounts are shown by name and path, artifacts by name |
| `CanonicalReading.JobsInOrder` | components/jeryu-ci-runner/crates/jeryu-ci-ir/src/pipeline.rs:129-133 | the job lines of the text, read in order, are the jobs of the sorted pipeline |
| `CanonicalReading.StepsInOrder` | components/jeryu-ci-runner/crates/jeryu-ci-ir/src/job.rs:169-185 | the step lines of a job, read in order, are its steps in the order in which they run |
| `CanonicalReading.MapTextOrder` | components/jeryu-ci-runner/crates/jeryu-ci-ir/src/job.rs:133-138 | inputs, outputs and environments are shown in key order, each key once |
| `CanonicalReading.PartsInOrder` | components/jeryu-ci-runner/crates/jeryu-ci-ir/src/job.rs:133-185 | inputs, outputs, mounts, artifacts and steps of a job follow one another in this order |
| `CanonicalReading.ScopeIsNotPrinted` | components/jeryu-ci-runner/crates/jeryu-ci-ir/src/pipeline.rs:101-105 | the default token scope is not printed: every pipeline shares text and IR hash with the same pipeline under any other scope |
| `CanonicalReading.EveryPipelineHasATwin` | components/jeryu-ci-runner/crates/jeryu-ci-ir/src/policy.rs:42-46 | hence no pipeline is determined by its canonical text alone |
| `CanonicalReading.KeysCollide` | components/jeryu-ci-runner/crates/jeryu-ci-ir/src/hashing.rs:65-70 | keys are not escaped: a key with an equals sign, and no backslash or line break behind it, shares its line with the shorter key and a longer value |
| `CanonicalReading.MountTwin` | components/jeryu-ci-runner/crates/jeryu-ci-ir/src/job.rs:139-153 | every mount with a bar in its name or path shares its line with another mount |
| `CanonicalReading.ListTwin` | components/jeryu-ci-runner/crates/jeryu-ci-ir/src/job.rs:156-167 | every list with a comma in an item, and the list of one empty text, joins to the same text as another list |
| `CanonicalReading.EdgeTwin` | components/jeryu-ci-runner/crates/jeryu-ci-ir/src/pipeline.rs:137-139 | every edge whose source contains an arrow shares its line with another edge |
| `CanonicalReading.ClassTwin` | components/jeryu-ci-runner/crates/jeryu-ci-ir/src/job.rs:119-119 | every custom class spelled like a named class shares its text with it |
| `CanonicalReading.SourceTwin` | components/jeryu-ci-runner/crates/jeryu-ci-ir/src/enums.rs:9-36 | every unknown pipeline source spelled like a named one shares its text with it |
| `CanonicalReading.ArtifactsCollide` | components/jeryu-ci-runner/crates/jeryu-ci-ir/src/job.rs:154-168 | for all names, labels, numbers and path lists: a name that ends in a label and a number reads as the shorter name with that label and number |
| `CanonicalReading.DifferentJobsSameText` | components/jeryu-ci-runner/crates/jeryu-ci-ir/src/job.rs:133-135 | for every job and every such key: two different jobs with the same canonical text, hence the same hash without any hash collision |
| `PipelineIr.Validate` | components/jeryu-ci-runner/crates/jeryu-ci-ir/src/pipeline.rs:147-178 | accepts exactly the pipelines with usable repo, commit and distinct non-blank job ids, steps in every job and edges between two different known jobs; otherwise reports the first fault in that order |
| `PipelineIr.NewHeaderIsSecure` | components/jeryu-ci-runner/crates/jeryu-ci-ir/src/policy.rs:14-100 | a new pipeline starts from the context and the secure default policies |
| `PipelineIr.NewIdReadsBack` | components/jeryu-ci-runner/crates/jeryu-ci-ir/src/pipeline.rs:33-57 | its first id is the hash of a text that reads back to source, repository and commit |
| `Order.StableSortSorts` | components/jeryu-ci-runner/crates/jeryu-ci-ir/src/pipeline.rs:129-136 | sorting yields a sorted permutation of its input |
| `Order.StableSortPermutation` | components/jeryu-ci-runner/crates/jeryu-ci-ir/src/pipeline.rs:129-136 | sorting forgets the input order whenever elements that compare equal are equal |
| `Order.StableSortIsStable` | components/jeryu-ci-runner/crates/jeryu-ci-ir/src/job.rs:154-156 | elements that tie keep the order in which they came |
| `Matrix.MatrixCombinations` | components/jeryu-ci-runner/crates/jeryu-ci-compiler/src/matrix.rs:30-49 | the nested loops compute the combination list whose members, count and order the lemmas below characterise, including the single empty combination of an empty matrix |
| `Matrix.ExpandAxis` | components/jeryu-ci-runner/crates/jeryu-ci-compiler/src/matrix.rs:38-46 | the two inner loops extend every combination by every value, in order |
| `Matrix.ExpansionIsTheProduct` | components/jeryu-ci-runner/crates/jeryu-ci-compiler/src/matrix.rs:30-49 | a combination is listed if and only if it assigns each axis one of its values and nothing else |
| `Matrix.CombosCount` | components/jeryu-ci-runner/crates/jeryu-ci-compiler/src/matrix.rs:36-48 | the number of combinations is the product of the axis lengths |
| `Matrix.CombosAt` | components/jeryu-ci-runner/crates/jeryu-ci-compiler/src/matrix.rs:36-48 | the combination at each position is read off the mixed-radix digits of the position |
| `Matrix.EveryChoiceOccurs` | components/jeryu-ci-runner/crates/jeryu-ci-compiler/src/matrix.rs:36-48 | every choice of value positions occurs, at its lexicographic rank |
| `Matrix.EveryPositionIsAChoice` | components/jeryu-ci-runner/crates/jeryu-ci-compiler/src/matrix.rs:36-48 | every position is the rank of a choice |
| `Matrix.RankIsLexicographic` | components/jeryu-ci-runner/crates/jeryu-ci-compiler/src/matrix.rs:36-48 | the order is lexicographic, first axis most significant |
| `Matrix.DistinctChoicesDistinctCombos` | components/jeryu-ci-runner/crates/jeryu-ci-compiler/src/matrix.rs:36-48 | axes without repeated values give different combinations to different choices |
| `Matrix.CombosAreDistinctExactly` | components/jeryu-ci-runner/crates/jeryu-ci-compiler/src/matrix.rs:30-49 | no combination is returned twice if and only if no axis repeats a value or some axis has none |
| `Matrix.CountZero` | components/jeryu-ci-runner/crates/jeryu-ci-compiler/src/matrix.rs:36-48 | there is no combination at all exactly when some axis has no values |
| `Naming.Sanitize` | components/jeryu-ci-runner/crates/jeryu-ci-ir/src/hashing.rs:24-41 | the character loop computes the sanitised id |
| `Naming.SanitizeIsIdempotent` | components/jeryu-ci-runner/crates/jeryu-ci-ir/src/hashing.rs:24-41 | a sanitised id is not empty, uses id characters only and has no underscore at either end; such ids are fixed points |
| `Naming.ExpandedId` | components/jeryu-ci-runner/crates/jeryu-ci-compiler/src/matrix.rs:51-61 | every expanded id is a clean id |
| `Naming.ExpandedIdText` | components/jeryu-ci-runner/crates/jeryu-ci-compiler/src/matrix.rs:51-61 | an expanded id is the pushed origin followed by the normal forms of axis names and values, trimmed |
| `Naming.AlikeCollide` | components/jeryu-ci-runner/crates/jeryu-ci-compiler/src/matrix.rs:51-61 | combinations whose values have the same normal forms get the same job id |
| `Naming.WordsCollideExactly` | components/jeryu-ci-runner/crates/jeryu-ci-compiler/src/matrix.rs:51-61 | over the same axes, with values whose normal forms are not empty, have no underscore at either end and none doubled, two combinations get the same id if and only if their values have the same normal forms |
| `Naming.OneAxisCollidesExactly` | components/jeryu-ci-runner/crates/jeryu-ci-compiler/src/matrix.rs:51-61 | with one axis and any values at all, two values get the same id if and only if their normal forms agree without trailing underscores |
| `Naming.PlainValuesGiveDistinctIds` | components/jeryu-ci-runner/crates/jeryu-ci-compiler/src/matrix.rs:51-61 | with values of lower-case letters, digits, dots, dashes and single inner underscores (`x86_64`), ids are equal exactly for equal combinations |
| `Naming.CaseVariantsCollide` | components/jeryu-ci-runner/crates/jeryu-ci-compiler/src/matrix.rs:51-61 | values that differ only in case have the same normal form, so their ids are equal |
| `Naming.SpacesCollide` | components/jeryu-ci-runner/crates/jeryu-ci-compiler/src/matrix.rs:51-61 | a space and an underscore give the same id, for every origin and axis |
| `Naming.SeparatorsCollide` | components/jeryu-ci-runner/crates/jeryu-ci-compiler/src/matrix.rs:55-60 | values that contain the separator move text between axes: equal ids with a different normal form on every axis |
| `Naming.TrailingSeparatorsCollide` | components/jeryu-ci-runner/crates/jeryu-ci-ir/src/hashing.rs:35-35 | for every origin and combination: one more underscore at the end of the last axis gives the same id, with a different normal form |
| `Naming.EmptyValueCollides` | components/jeryu-ci-runner/crates/jeryu-ci-ir/src/hashing.rs:35-40 | an empty value can collide with a value that spells the fallback name |
| `Compiler.ExpandDecl` | components/jeryu-ci-runner/crates/jeryu-ci-compiler/src/github.rs:107-135 | a job without steps is refused; otherwise one pending job per combination, in combination order |
| `Compiler.ExpandAll` | components/jeryu-ci-runner/crates/jeryu-ci-compiler/src/github.rs:28-43 | the expansions of all jobs in order, or the first job without steps |
| `Steps.SubstitutionMeaning` | components/jeryu-ci-runner/crates/jeryu-ci-compiler/src/steps.rs:149-158 | for every text made of literals and axis references that do not run into one another, the substitution puts each axis value in the place of its reference and changes nothing else |
| `Steps.NoReferenceRemains` | components/jeryu-ci-runner/crates/jeryu-ci-compiler/src/steps.rs:149-158 | afterwards the text refers to no axis of the combination |
| `Steps.ValuesAreReadAgain` | components/jeryu-ci-runner/crates/jeryu-ci-compiler/src/steps.rs:149-158 | a value that is itself a reference to a later axis is substituted in turn, so the condition on values is needed |
| `Steps.StepMeaning` | components/jeryu-ci-runner/crates/jeryu-ci-compiler/src/steps.rs:138-158 | command, uses and name of every step are so instantiated; absent ones stay absent, environment and directory are kept |
| `Steps.StepIdsDiffer` | components/jeryu-ci-runner/crates/jeryu-ci-compiler/src/steps.rs:138-146 | the step ids of a job start with the job id and are pairwise different |
| `Steps.PlainTextIsKept` | components/jeryu-ci-runner/crates/jeryu-ci-compiler/src/steps.rs:149-158 | a text that refers to no axis is the same in every expansion |
| `Steps.NameShowsAxes` | components/jeryu-ci-runner/crates/jeryu-ci-compiler/src/matrix.rs:63-74 | an expanded name starts with the origin and shows every axis with its value |
| `Compiler.GroupByOrigin` | components/jeryu-ci-runner/crates/jeryu-ci-compiler/src/pipeline.rs:31-37 | the map holds exactly the origins, each with exactly the ids expanded from it |
| `Compiler.AddEdges` | components/jeryu-ci-runner/crates/jeryu-ci-compiler/src/pipeline.rs:47-55 | adds exactly the edges from the given ids, none twice |
| `Compiler.ResolveNeeds` | components/jeryu-ci-runner/crates/jeryu-ci-compiler/src/pipeline.rs:43-56 | the edges of one job are exactly those from the expansions of its needs, or its first unknown need is reported |
| `Compiler.ResolveAll` | components/jeryu-ci-runner/crates/jeryu-ci-compiler/src/pipeline.rs:41-57 | the emitted edges are, without duplicates, exactly the pairs of an expansion of a needed origin and an expansion that needs it; otherwise the first unresolved need |
| `Compiler.FinishPipeline` | components/jeryu-ci-runner/crates/jeryu-ci-compiler/src/pipeline.rs:17-63 | succeeds exactly on a non-empty list with all needs resolved, and then jobs and edges are sorted, complete and duplicate-free |
| `Compiler.AcceptableIsWellFormed` | components/jeryu-ci-runner/crates/jeryu-ci-ir/src/pipeline.rs:147-178 | an assembled pipeline passes validation if and only if its pending jobs have usable repo, commit and ids, steps, no id twice and no need of their own origin |
| `Compiler.AssembleAndValidate` | components/jeryu-ci-runner/crates/jeryu-ci-compiler/src/lib.rs:40-54 | succeeds if and only if there are jobs, all needs resolve and the jobs are acceptable; each error under its own condition, with the first unresolved need or the first validation fault of the assembled pipeline |
| `Compiler.CompilesExactly` | components/jeryu-ci-runner/crates/jeryu-ci-compiler/src/lib.rs:32-55 | the condition on the expansions, said of the declarations alone |
| `Compiler.Compile` | components/jeryu-ci-runner/crates/jeryu-ci-compiler/src/lib.rs:32-55 | from the secure default policies, succeeds if and only if repo and commit are usable, every job has steps, some job expands, every need of a job that expands names another job that does, and all expanded ids differ; otherwise the error and its content are determined; the result carries the rehashed id |
| `Compiler.CompiledJob` | components/jeryu-ci-runner/crates/jeryu-ci-compiler/src/github.rs:107-135 | every declaration and combination has a job in the compiled pipeline, with the declared runner, timeout, scope, artifacts and mounts, its axis values as inputs, no network and one attempt |
| `Compiler.CompiledStep` | components/jeryu-ci-runner/crates/jeryu-ci-compiler/src/steps.rs:138-162 | the steps of that job carry the axis values in the places of the references |
| `Compiler.JobsAreDeclared` | components/jeryu-ci-runner/crates/jeryu-ci-compiler/src/github.rs:107-135 | and no other jobs are in it |
| `Compiler.AssembledOrder` | components/jeryu-ci-runner/crates/jeryu-ci-compiler/src/pipeline.rs:58-62 | jobs and edges of a compiled pipeline are sorted: jobs by id, edges strictly by their source and then their target |
| `Compiler.IdTextReadsBack` | components/jeryu-ci-runner/crates/jeryu-ci-compiler/src/lib.rs:44-50 | the pipeline id is the hash of a text that reads back to source, repository, commit and IR hash |
| `Compiler.NeedsRunFirst` | components/jeryu-ci-runner/crates/jeryu-ci-compiler/src/pipeline.rs:41-61 | in every schedule each expansion of B lies in a strictly earlier round than each expansion of A whenever A needs B |
| `Compiler.WorkflowNeedsRunFirst` | components/jeryu-ci-runner/crates/jeryu-ci-compiler/src/github.rs:111-134 | the same named by declarations and combinations: both expansions do occur, and in that order |
| `Compiler.CycleVerdictIsAboutNeeds` | components/jeryu-ci-runner/crates/jeryu-ci-compiler/src/pipeline.rs:41-57 | the expanded edge graph is cyclic exactly when the `needs` relation between origins is |
| `Compiler.CompiledWorkflowSchedules` | components/jeryu-ci-runner/crates/jeryu-ci-compiler/src/lib.rs:32-55 | a compiled workflow with distinct job names is scheduled, except exactly when its `needs` are circular, and then the answer is `Cycle` |
| `Compiler.NeedingAnEmptyMatrixIsRefused` | components/jeryu-ci-runner/crates/jeryu-ci-compiler/src/pipeline.rs:43-46 | needing a job whose matrix has an axis without values never resolves |
| `Compiler.PendingIdsDiffer` | components/jeryu-ci-runner/crates/jeryu-ci-compiler/src/lib.rs:51-53 | in an assembled pipeline with distinct ids no two pending jobs share an id |
| `Compiler.JobIdNamesOneCombination` | components/jeryu-ci-runner/crates/jeryu-ci-compiler/src/github.rs:114-133 | although sanitised ids can collide, in a compiled pipeline a job id names one origin and one combination |
| `Compiler.DistinctWorkflow` | components/jeryu-ci-runner/crates/jeryu-ci-compiler/src/github.rs:113-134 | the expanded ids of a workflow are distinct if and only if no axis repeats a value and ids differ within each job and between jobs |
| `Compiler.AlikeCombinationsAreRefused` | components/jeryu-ci-runner/crates/jeryu-ci-compiler/src/lib.rs:51-53 | a matrix with two combinations whose values have the same normal forms never compiles |
| `Compiler.PlainMatrixIsDistinct` | components/jeryu-ci-runner/crates/jeryu-ci-compiler/src/github.rs:113-134 | a matrix of plain values (single inner underscores allowed), none twice on an axis, never collides with itself |
| `CompiledText.CompiledIsReadable` | components/jeryu-ci-runner/crates/jeryu-ci-compiler/src/github.rs:113-134 | what the compiler emits for readable declarations is readable, whatever the names and matrix values |
| `CompiledText.CompiledTextDetermines` | components/jeryu-ci-runner/crates/jeryu-ci-ir/src/pipeline.rs:59-145 | two compiled workflows have the same canonical text exactly when they are the same pipeline up to listing order: the compiler uses named sources and the default token scope |
| `CompiledText.ScopeIsNotInTheId` | components/jeryu-ci-runner/crates/jeryu-ci-compiler/src/lib.rs:44-50 | the pipeline id does not tell default token scopes apart |
| `Registry.NodeRegistry.Register` | components/jeryu-ci-runner/crates/jeryu-runner-registry/src/node_registry.rs:20-45 | the record is replaced by a fresh active one at the next epoch, all others stay, and the acknowledgement carries that epoch |
| `Registry.NodeRegistry.Heartbeat` | components/jeryu-ci-runner/crates/jeryu-runner-registry/src/node_registry.rs:53-75 | liveness is refreshed, and ownership confirmed, exactly for the current owner; a drain request is reported either way |
| `Registry.OwnsExactlyWhileTimely` | components/jeryu-ci-runner/crates/jeryu-runner-registry/src/node_registry.rs:53-114 | after a registration or accepted heartbeat an incarnation that is not registered anew owns its node, after every further run, if and only if no sweep came later than the allowance after the last sign of life before it |
| `Registry.SignsAreAccepted` | components/jeryu-ci-runner/crates/jeryu-runner-registry/src/node_registry.rs:20-80 | a heartbeat of the current owner is accepted, and a registration always starts an incarnation |
| `Registry.FreshNodeServes` | components/jeryu-ci-runner/crates/jeryu-runner-registry/src/node_registry.rs:20-45 | a freshly registered node takes a job exactly when it offers a slot, the class and every required tag |
| `Registry.ReportMeaning` | components/jeryu-ci-runner/crates/jeryu-runner-registry/src/node_registry.rs:96-114 | a sweep reports exactly the nodes it ended, each with its new epoch and its jobs in flight |
| `Registry.NodeRegistry.IsCurrentOwner` | components/jeryu-ci-runner/crates/jeryu-runner-registry/src/node_registry.rs:82-86 | true exactly for a node that is not dead at the claimed epoch |
| `Registry.NodeRegistry.Reap` | components/jeryu-ci-runner/crates/jeryu-runner-registry/src/node_registry.rs:96-114 | the in-place sweep expires exactly the live nodes past their deadline, bumps their epochs and reports them in id order |
| `Registry.NodeRegistry.Drain` | components/jeryu-ci-runner/crates/jeryu-runner-registry/src/node_registry.rs:121-129 | turns an active node to draining and reports whether it did |
| `Registry.NodeRegistry.Assign` | components/jeryu-ci-runner/crates/jeryu-runner-registry/src/node_registry.rs:139-151 | one more job in flight on the least eligible node id, at that node's epoch; nothing when no node is eligible |
| `Registry.NodeRegistry.Release` | components/jeryu-ci-runner/crates/jeryu-runner-registry/src/node_registry.rs:155-159 | one job less in flight, not below zero, and no other change |
| `Registry.FirstEligibleIsChosen` | components/jeryu-ci-runner/crates/jeryu-runner-registry/src/node_registry.rs:139-144 | the first eligible node met in iteration order is the least eligible id |
| `Registry.SweepIsReaped` | components/jeryu-ci-runner/crates/jeryu-runner-registry/src/node_registry.rs:96-114 | updating the records one by one equals updating them all at once |
| `Registry.StepKeepsOrPasses` | components/jeryu-ci-runner/crates/jeryu-runner-registry/src/node_registry.rs:20-159 | every operation keeps the owner or moves the node past its epoch, and never lowers an epoch |
| `Registry.FencedForever` | components/jeryu-ci-runner/crates/jeryu-runner-registry/src/node_registry.rs:20-159 | in every run from every state, a (node, epoch) pair below saturation that stops owning never owns again |
| `Registry.ReapOne` | components/jeryu-ci-runner/crates/jeryu-runner-registry/src/node_registry.rs:99-111 | the body of the sweep fences and reports exactly a live node past its deadline |
| `Registry.RegistrationsCountEpochs` | components/jeryu-ci-runner/crates/jeryu-runner-registry/src/node_registry.rs:22-25 | from the empty registry n registrations reach epoch n |
| `Registry.SaturatedTokenComesBack` | components/jeryu-ci-runner/crates/jeryu-runner-registry/src/node_registry.rs:22-25 | registrations alone reach the saturated epoch, and there a reap and a registration hand the old token back |
| `Registry.FencingHoldsExactlyBelowSaturation` | components/jeryu-ci-runner/crates/jeryu-runner-registry/src/node_registry.rs:15-25 | over all runs from the empty registry fencing holds if and only if the epoch is below the 64-bit maximum |
| `Registry.EpochsNeverDecrease` | components/jeryu-ci-runner/crates/jeryu-runner-registry/src/node_registry.rs:20-159 | over any run the epoch of a known node never decreases |
| `Registry.RegistrationOutranksHistory` | components/jeryu-ci-runner/crates/jeryu-runner-registry/src/node_registry.rs:15-25 | below saturation a registration gets a higher epoch than any the node held at any earlier point of the run |
| `Registry.NoAssignmentWithoutRegistration` | components/jeryu-ci-runner/crates/jeryu-runner-registry/src/node_registry.rs:116-151 | a drained, reaped or unknown node is chosen by no assignment of any run until it registers again |
| `Registry.DrainAndReapStopWork` | components/jeryu-ci-runner/crates/jeryu-runner-registry/src/node_registry.rs:96-129 | a drained node takes no work, and after a sweep a node takes work exactly if it did before and is not expired |
| `Fleet.RunnerFleet.Register` | components/jeryu-ci-runner/crates/jeryu-runnerd/src/fleet.rs:272-277 | registry and daemon map move together to the new epoch |
| `Fleet.RunnerFleet.ReserveJob` | components/jeryu-ci-runner/crates/jeryu-runnerd/src/fleet.rs:298-315 | whole new state and result: policy denial, no capacity, missing daemon with the slot given back, or a reservation at the node's epoch |
| `Fleet.RunnerFleet.RunReserved` | components/jeryu-ci-runner/crates/jeryu-runnerd/src/fleet.rs:318-341 | whole new state and result: fenced by the registry, missing daemon, fenced by the daemon, or dispatched with the slot released |
| `Fleet.RunnerFleet.SubmitBatch` | components/jeryu-ci-runner/crates/jeryu-runnerd/src/fleet.rs:345-357 | all reservations first, then all runs, stopping at the first failure with earlier reservations kept |
| `Fleet.RunnerFleet.Heartbeat` | components/jeryu-ci-runner/crates/jeryu-runnerd/src/fleet.rs:360-374 | beats with the daemon's own epoch (0 for an unknown node); the acknowledgement says whether that pair owns the node and whether the node drains; in a fleet in step it owns exactly when the node is known and not dead |
| `Fleet.RunnerFleet.Reap` | components/jeryu-ci-runner/crates/jeryu-runnerd/src/fleet.rs:377-379 | expires stale nodes, reports them in id order and leaves daemons and dispatches alone |
| `Fleet.RunnerFleet.Drain` | components/jeryu-ci-runner/crates/jeryu-runnerd/src/fleet.rs:382-384 | drains the node, says whether it was active, and leaves daemons and dispatches alone |
| `Fleet.StepKeepsSync` | components/jeryu-ci-runner/crates/jeryu-runnerd/src/fleet.rs:272-384 | every operation keeps registry and daemon map in step |
| `Fleet.RunKeepsSync` | components/jeryu-ci-runner/crates/jeryu-runnerd/src/fleet.rs:272-384 | in every reachable state both maps have the same ids and agree on the epoch of every node not dead |
| `Fleet.RunOutcome` | components/jeryu-ci-runner/crates/jeryu-runnerd/src/fleet.rs:158-167 | in step, a reservation runs exactly for a current owner; the only error is the registry's fencing, and then nothing changes |
| `Fleet.StepIsARegistryRun` | components/jeryu-ci-runner/crates/jeryu-runnerd/src/fleet.rs:272-384 | every fleet operation is, at the registry, the one operation it stands for: a heartbeat carries the node's own epoch, a fenced run releases nothing |
| `Fleet.FleetRunIsARegistryRun` | components/jeryu-ci-runner/crates/jeryu-runnerd/src/fleet.rs:272-384 | every run of the fleet is a run of the registry, so fencing and liveness hold of fleets |
| `Fleet.LostReservationNeverRuns` | components/jeryu-ci-runner/crates/jeryu-runnerd/src/fleet.rs:318-341 | a reservation that lost its node is refused for ever after and changes nothing, below epoch saturation |
| `Fleet.ReserveOutcome` | components/jeryu-ci-runner/crates/jeryu-runnerd/src/fleet.rs:298-315 | in step, the only failure of an accepted job is lack of capacity, without effect; a success names a current owner |
| `Fleet.StepBalanced` | components/jeryu-ci-runner/crates/jeryu-runnerd/src/fleet.rs:298-341 | each operation that runs only outstanding reservations keeps in-flight counts equal to outstanding reservations |
| `Fleet.RegisterBalanced` | components/jeryu-ci-runner/crates/jeryu-runnerd/src/fleet.rs:272-277 | a registration keeps the slot count if and only if no reservation is outstanding at the new epoch |
| `Fleet.RegistrationBelowSaturation` | components/jeryu-ci-runner/crates/jeryu-runnerd/src/fleet.rs:272-277 | below the saturated epoch no reservation can be outstanding at the new epoch, so stale reservations never touch a newer incarnation |
| `Fleet.SlotsAreConserved` | components/jeryu-ci-runner/crates/jeryu-runnerd/src/fleet.rs:298-341 | over whole runs every live node's in-flight count is the number of outstanding reservations at its current epoch and never exceeds capacity |
| `Fleet.EmptyFleetIsBalanced` | components/jeryu-ci-runner/crates/jeryu-runnerd/src/fleet.rs:298-341 | a new fleet is balanced |
| `Fleet.ShortRunsAreDisciplined` | components/jeryu-ci-runner/crates/jeryu-runnerd/src/fleet.rs:272-341 | a run too short to reach the saturated epoch needs no condition on registrations |
| `Fleet.EveryHistoryConservesSlots` | components/jeryu-ci-runner/crates/jeryu-runnerd/src/fleet.rs:272-384 | from a new fleet every history of fewer than 2^64 operations that runs each reservation at most once keeps the slots balanced |
| `Fleet.ExtraRunUnbalances` | components/jeryu-ci-runner/crates/jeryu-runnerd/src/fleet.rs:170-171 | running a cloned reservation a second time breaks the count exactly when it names a current owner with something in flight |
| `FleetBatch.ChosenMeansFree` | components/jeryu-ci-runner/crates/jeryu-runner-registry/src/node_registry.rs:139-144 | an assignment is possible exactly when some active node supporting the class has a free slot |
| `FleetBatch.ReserveAllOutcome` | components/jeryu-ci-runner/crates/jeryu-runnerd/src/fleet.rs:349-352 | reserving n jobs of a class takes min(n, free) slots, and fails exactly when n exceeds the free slots |
| `FleetBatch.RunAllRestores` | components/jeryu-ci-runner/crates/jeryu-runnerd/src/fleet.rs:353-356 | running the reservations that make up the load dispatches them in order and restores every count |
| `FleetBatch.BatchSucceedsIffSlotsSuffice` | components/jeryu-ci-runner/crates/jeryu-runnerd/src/fleet.rs:345-357 | a batch of accepted jobs of one class succeeds if and only if it fits into the free slots; on success all jobs are dispatched in order and all counts restored, on failure none is dispatched and all free slots of the class stay taken |
| `FleetBatch.FailedBatchBlocksTheClass` | components/jeryu-ci-runner/crates/jeryu-runnerd/src/fleet.rs:349-352 | after a failed batch the next non-empty batch of the class fails too |
| `FleetBatch.BatchIsAllOrNothing` | components/jeryu-ci-runner/crates/jeryu-runnerd/src/fleet.rs:345-357 | a batch of any jobs either dispatches them all and restores every count, or dispatches none and keeps exactly the reservations of the jobs before the one that failed |
| `FleetBatch.BatchIsDisciplined` | components/jeryu-ci-runner/crates/jeryu-runnerd/src/fleet.rs:345-357 | any batch is a run covered by slot conservation; success leaves the outstanding reservations as they were, failure adds exactly those it had taken |
| `MergeQueue.MergeQueue.Enqueue` | components/jeryu-ci-runner/crates/jeryu-ci-scheduler/src/merge_queue.rs:86-138 | admits exactly the pull requests whose witness covers repo, id, head and path set, and appends a queued entry for them; otherwise the error says whether a witness is missing, is for something else or has other paths, and nothing changes |
| `MergeQueue.MergeQueue.ProcessAll` | components/jeryu-ci-runner/crates/jeryu-ci-scheduler/src/merge_queue.rs:141-211 | entries, accepted paths and summary after one in-place pass |
| `MergeQueue.ProcessMeaning` | components/jeryu-ci-runner/crates/jeryu-ci-scheduler/src/merge_queue.rs:141-211 | position by position: a settled entry is untouched, a queued one gets its synthetic head and the state that the validator's answer calls for, on the paths accepted before the pass and those of entries ahead of it found mergeable |
| `MergeQueue.SummaryCounts` | components/jeryu-ci-runner/crates/jeryu-ci-scheduler/src/merge_queue.rs:141-211 | the summary counts what it says: entries queued before, and those among them that are mergeable, in conflict or failed after |
| `MergeQueue.SyntheticShaShows` | components/jeryu-ci-runner/crates/jeryu-ci-scheduler/src/merge_queue.rs:219-226 | the synthetic head shows branch, base and head, and slashes of the branch are gone |
| `MergeQueue.CollectAccepted` | components/jeryu-ci-runner/crates/jeryu-ci-scheduler/src/merge_queue.rs:143-148 | the persisted paths and the paths of all mergeable entries |
| `MergeQueue.SettleEntry` | components/jeryu-ci-runner/crates/jeryu-ci-scheduler/src/merge_queue.rs:150-207 | only a queued entry is validated; its state, speculative sha, the accepted paths and the counters follow the outcome |
| `MergeQueue.DeterministicOutcome` | components/jeryu-ci-runner/crates/jeryu-ci-scheduler/src/merge_queue.rs:41-52 | the validator passes exactly the entries disjoint from the accepted paths, and its refusals are recognised as conflicts |
| `MergeQueue.ConflictNamesFirstPath` | components/jeryu-ci-runner/crates/jeryu-ci-scheduler/src/merge_queue.rs:41-52 | a conflict names the first path, in string order, that both sides change |
| `MergeQueue.ProcessingTwiceIsProcessingOnce` | components/jeryu-ci-runner/crates/jeryu-ci-scheduler/src/merge_queue.rs:141-211 | from any queue, a second pass right after the first changes nothing and counts nothing, for any validator |
| `MergeQueue.BatchingDoesNotMatter` | components/jeryu-ci-runner/crates/jeryu-ci-scheduler/src/merge_queue.rs:141-211 | for any validator and any history, intermediate passes change neither final entries nor accepted paths, and the summaries add up to that of one final pass |
| `MergeQueue.QueueStaysGreedy` | components/jeryu-ci-runner/crates/jeryu-ci-scheduler/src/merge_queue.rs:86-211 | under any interleaving, decided entries come first and follow the greedy rule, accepted paths are the union of the mergeable entries' paths, and every witness covers its entry; after a pass all entries are decided |
| `MergeQueue.MergeablesAreDisjoint` | components/jeryu-ci-runner/crates/jeryu-ci-scheduler/src/merge_queue.rs:149-178 | mergeable entries never share a path |
| `MergeQueue.ConflictHasACause` | components/jeryu-ci-runner/crates/jeryu-ci-scheduler/src/merge_queue.rs:179-192 | an entry dequeued for a conflict overlaps an earlier mergeable one |
| `MergeQueue.MergeablePathsMember` | components/jeryu-core/crates/jeryu-core/src/phase7.rs:78-83 | a path is accepted from the entries exactly when some mergeable entry changes it |
| `WarmPool.ContainerRuntime.StartWarm` | components/jeryu-ci-runner/crates/jeryu-runner-oci/src/runtime.rs:209-231 | a never used container id, added with its label unless the start fails |
| `WarmPool.ContainerRuntime.Remove` | components/jeryu-ci-runner/crates/jeryu-runner-oci/src/runtime.rs:245-257 | drops the container with that id and no other, or fails and changes nothing |
| `WarmPool.WorkcellManager.WarmOne` | components/jeryu-ci-runner/crates/jeryu-runnerd/src/workcell/manager.rs:286-293 | the next id, recorded as ready; it is new if and only if the serial number has not saturated |
| `WarmPool.WorkcellManager.ClaimReady` | components/jeryu-ci-runner/crates/jeryu-runnerd/src/workcell/manager.rs:81-104 | an unknown cell is denied; a known one is claimed, or blocked when its startup rebase failed |
| `WarmPool.IdsAreInjective` | components/jeryu-ci-runner/crates/jeryu-runnerd/src/workcell/manager.rs:286-293 | different serial numbers give different zero-padded ids |
| `WarmPool.WarmPool.WarmCell` | components/jeryu-ci-runner/crates/jeryu-runnerd/src/warm_pool.rs:185-192 | a live entry with a fresh container and, until the serial number saturates, a cell that was not known before and is ready; or the failed start with nothing added |
| `WarmPool.WarmPool.Refill` | components/jeryu-ci-runner/crates/jeryu-runnerd/src/warm_pool.rs:177-183 | from any sound pool: fills to the target depth with clean starts only, or stops at the first failed start; existing entries keep their places, added ones are live, nothing that ran stops |
| `WarmPool.WarmPool.Take` | components/jeryu-ci-runner/crates/jeryu-runnerd/src/warm_pool.rs:129-132 | the front entry, or a cold start exactly when the pool is drained |
| `WarmPool.WarmPool.LeaseAndRefill` | components/jeryu-ci-runner/crates/jeryu-runnerd/src/warm_pool.rs:129-141 | an entry leaves the pool, its cell is claimed or blocked, and the pool is filled again before the outcome of the lease counts; what a failed start leaves behind is stated for the cold start and for the refill |
| `WarmPool.WarmPool.Claim` | components/jeryu-ci-runner/crates/jeryu-runnerd/src/warm_pool.rs:117-159 | from any sound pool: unless a start failed, every outcome (granted, blocked lease, rejected plan) leaves target depth and warm entries distinct and disjoint from everything handed out; below serial saturation the cell of a granted claim was never handed out before and is none still in the pool; a pool that was live stays live; the claimed container runs if and only if the pool was drained or the container at its front was running; a failed start leaves the pool short, with nothing handed out if it was the cold start, and otherwise with the entry gone and its cell claimed though no handle is returned |
| `WarmPool.WarmPool.TakeAndLease` | components/jeryu-ci-runner/crates/jeryu-runnerd/src/warm_pool.rs:129-141 | the cell of a lease is none handed out before and none still in the pool |
| `WarmPool.ReapThenClaim` | components/jeryu-ci-runner/crates/jeryu-runnerd/src/warm_pool.rs:117-175 | a claim after reaping is granted as usual and hands out a container that runs if and only if the ledger named its cell |
| `WarmPool.WarmPool.RemoveOrphans` | components/jeryu-ci-runner/crates/jeryu-runnerd/src/warm_pool.rs:166-172 | the sweep stops at the first orphan whose removal fails, with exactly the orphans listed before it gone |
| `WarmPool.WarmPool.ReapOrphans` | components/jeryu-ci-runner/crates/jeryu-runnerd/src/warm_pool.rs:165-175 | succeeds if and only if listing and all removals do, and then exactly the containers outside the ledger are gone and reported, sorted; a warm entry stays live if and only if the ledger names it; a failure leaves the orphans before it gone and unreported |
| `WarmPool.NewPool` | components/jeryu-ci-runner/crates/jeryu-runnerd/src/warm_pool.rs:81-90 | a pool at its depth after exactly that many starts, or the failure that stopped it |
| `WarmPool.OrphansMeaning` | components/jeryu-ci-runner/crates/jeryu-runnerd/src/warm_pool.rs:166-172 | with distinct container ids, removal by id removes the orphans and nothing else |
| `PromptFilter.ThemePromptAutoSelect.Filter` | components/jeryu-ci-runner/crates/jeryu-agentbridge/src/pty_driver.rs:152-179 | new state, forwarded bytes and typed bytes of one call |
| `PromptFilter.ThemePromptAutoSelect.TakePending` | components/jeryu-ci-runner/crates/jeryu-agentbridge/src/pty_driver.rs:181-187 | hands out what is pending and empties it |
| `PromptFilter.RunShape` | components/jeryu-ci-runner/crates/jeryu-agentbridge/src/pty_driver.rs:151-192 | every run is transparent so far or selected at one chunk boundary |
| `PromptFilter.FilterIsFaithful` | components/jeryu-ci-runner/crates/jeryu-agentbridge/src/pty_driver.rs:151-192 | over any chunk sequence the output is the input, or the input minus one prompt that ends at a chunk boundary with later chunks passed or dropped whole; the selection is typed once or never |
| `PromptFilter.SelectedExactly` | components/jeryu-ci-runner/crates/jeryu-agentbridge/src/pty_driver.rs:151-192 | the selection has been typed after a run if and only if at some chunk the bytes held back before it, followed by the chunk, decode to a prompt |
| `PromptFilter.PendingIsHeldBack` | components/jeryu-ci-runner/crates/jeryu-agentbridge/src/pty_driver.rs:157-178 | what is held back, said of the chunks alone, is what the filter holds |
| `PromptFilter.PromptIsAnswered` | components/jeryu-ci-runner/crates/jeryu-agentbridge/src/pty_driver.rs:157-170 | after ordinary chunks, a prompt in one chunk or split over several is typed at and suppressed, and the output is the chunks before it |
| `PromptFilter.BufferAndKeystrokesBounded` | components/jeryu-ci-runner/crates/jeryu-agentbridge/src/pty_driver.rs:162-178 | pending never exceeds 16 KiB after a call, and the keystrokes are typed exactly when selected, once |
| `PromptFilter.OrdinaryOutputIsUntouched` | components/jeryu-ci-runner/crates/jeryu-agentbridge/src/pty_driver.rs:157-160 | output that never looks like the prompt passes unbuffered |
| `PromptFilter.RepeatedPromptIsDropped` | components/jeryu-ci-runner/crates/jeryu-agentbridge/src/pty_driver.rs:153-155 | a prompt drawn again after selection is dropped and not answered |
| `ReceiptJson.EscapeJson` | components/jeryu-ci-runner/crates/jeryu-runner-core/src/receipt.rs:177-191 | the character loop computes the escaped text that the lemmas below read back |
| `ReceiptJson.EscapeRoundTrip` | components/jeryu-ci-runner/crates/jeryu-runner-core/src/receipt.rs:177-191 | scanning by section 7 of RFC 8259 returns the string and stops at the closing quote that was written, whatever follows |
| `ReceiptJson.EscapedTextIsPrintable` | components/jeryu-ci-runner/crates/jeryu-runner-core/src/receipt.rs:180-187 | escaped text holds no control character |
| `ReceiptJson.EscapeIsInjective` | components/jeryu-ci-runner/crates/jeryu-runner-core/src/receipt.rs:177-191 | different strings have different escaped forms |
| `ReceiptJson.EscapesAreShort` | components/jeryu-ci-runner/crates/jeryu-runner-core/src/receipt.rs:180-188 | only quotes, backslashes and control characters are escaped, five of them in two characters, the rest in six with small hexadecimal digits |
| `ReceiptJson.ReceiptReadsBack` | components/jeryu-ci-runner/crates/jeryu-runner-core/src/receipt.rs:123-166 | the receipt text lexes to exactly its members with every value as it was |
| `ReceiptJson.ObjectIsRead` | components/jeryu-ci-runner/crates/jeryu-runner-core/src/receipt.rs:123-166 | an object reader finds thirteen members in the text |
| `ReceiptJson.JsonShowsOrigin` | components/jeryu-ci-runner/crates/jeryu-runner-core/src/receipt.rs:135-156 | receipt, job, repository and commit stand under their keys |
| `ReceiptJson.JsonShowsResult` | components/jeryu-ci-runner/crates/jeryu-runner-core/src/receipt.rs:139-160 | runner class, trust tier, status and exit code, or null, stand under their keys |
| `ReceiptJson.JsonShowsCircumstances` | components/jeryu-ci-runner/crates/jeryu-runner-core/src/receipt.rs:143-165 | start, end, reasons, sandbox and message stand under their keys |
| `ReceiptJson.ToJsonIsInjective` | components/jeryu-ci-runner/crates/jeryu-runner-core/src/receipt.rs:123-166 | no two receipts have the same JSON text |
| `Allowlist.SuffixTestIsSubdomainTest` | components/jeryu-ci-runner/crates/jeryu-egress/src/allowlist.rs:117-125 | for all strings the suffix test agrees with the subdomain relation on labels |
| `Allowlist.PermitsMeaning` | components/jeryu-ci-runner/crates/jeryu-egress/src/allowlist.rs:53-102 | a host is permitted exactly when, normalised and not empty, it equals an allowed host or its labels end with the labels of an allowed suffix |
| `Allowlist.HostMeaning` | components/jeryu-ci-runner/crates/jeryu-egress/src/allowlist.rs:84-93 | a host is read as its name in lower case, without blanks around it, one final dot and a port |
| `Allowlist.EveryHostHasAForm` | components/jeryu-ci-runner/crates/jeryu-egress/src/allowlist.rs:84-93 | every host text has that form, so this is how all of them are read |
| `Allowlist.RuleMeaning` | components/jeryu-ci-runner/crates/jeryu-egress/src/allowlist.rs:58-66 | a rule is its text in lower case without the blanks around it |
| `Allowlist.PortIsIgnored` | components/jeryu-ci-runner/crates/jeryu-egress/src/allowlist.rs:89 | a port changes no decision |
| `Allowlist.CaseIsIgnored` | components/jeryu-ci-runner/crates/jeryu-egress/src/allowlist.rs:58-88 | the case of ASCII letters changes neither a rule nor a host |
| `Allowlist.HostRulePermitsItself` | components/jeryu-ci-runner/crates/jeryu-egress/src/allowlist.rs:53-102 | an exact-host rule permits the host it is written as if and only if it is not empty, holds no colon and does not end in a dot |
| `Allowlist.HostRuleIsReachable` | components/jeryu-ci-runner/crates/jeryu-egress/src/allowlist.rs:58-62 | an exact-host rule can match some host text exactly when it holds no colon |
| `Governor.SafeCap` | components/jeryu-ci-runner/crates/jeryu-ci-governor/src/lib.rs:214-257 | the cap and the one constraint that explains it |
| `Governor.BindingIsUnique` | components/jeryu-ci-runner/crates/jeryu-ci-governor/src/lib.rs:224-255 | exactly one constraint can be reported |
| `Governor.DecideJobs` | components/jeryu-ci-runner/crates/jeryu-ci-governor/src/lib.rs:213-283 | a request is served up to the cap and not below the floor; the request is the binding exactly when it is at most the cap |
| `Governor.GrantsExactly` | components/jeryu-ci-runner/crates/jeryu-ci-governor/src/lib.rs:213-283 | n workers are granted if and only if n is within the floor, or within memory, CPU budget and ceiling (twice over when overloaded), at most two when thrashing, and not more than asked for |
| `Governor.MemoryBindsTightly` | components/jeryu-ci-runner/crates/jeryu-ci-governor/src/lib.rs:217-229 | when memory is the reported constraint one more worker would not fit |
| `Governor.CeilingHoldsExactly` | components/jeryu-ci-runner/crates/jeryu-ci-governor/src/lib.rs:231-255 | workers lie between the floor and the larger of ceiling and floor, except exactly with ceiling 0, floor 0, an overloaded box and a request for work |
| `Governor.HardCeilingHoldsExactly` | components/jeryu-ci-runner/crates/jeryu-ci-governor/src/lib.rs:172-174 | the ceiling itself is kept if and only if the floor does not lie above it and it is not a zero ceiling on an overloaded box that is asked for work |
| `Governor.FloorOverrunsCeiling` | components/jeryu-ci-runner/crates/jeryu-ci-governor/src/lib.rs:251-255 | a floor above the ceiling overruns it for every load and request, for one at ceiling 2 and floor 5 |
| `Governor.NoWorkersExactly` | components/jeryu-ci-runner/crates/jeryu-ci-governor/src/lib.rs:251-275 | zero workers exactly when the floor is 0 and either 0 was asked for or the ceiling is 0 without overload |
| `Governor.MemoryIsMonotone` | components/jeryu-ci-runner/crates/jeryu-ci-governor/src/lib.rs:217-219 | more available memory alone never lowers the worker count |
| `Governor.MemoryFits` | components/jeryu-ci-runner/crates/jeryu-ci-governor/src/lib.rs:217-255 | the workers' memory budgets fit into available memory unless workers are at most max(1, floor) |
| `Governor.RequestIsMonotone` | components/jeryu-ci-runner/crates/jeryu-ci-governor/src/lib.rs:259-282 | asking for more never yields less, and no request yields more than no request |

## Left out

- Parsing: workflow YAML and native TOML lexing, step attributes, the `EmptyInput` and `InvalidRunner` errors; the model starts from job declarations with their matrix maps.
- Hash functions: the FNV hash is a parameter; nothing is claimed about collisions.
- Compiler.Compile: validation errors keep their structure instead of being rendered to text.
- Runner policy selection: a job carries the class policy chose, or the denial.
- CanonicalReading.CanonicalTextDetermines: the conditions on mounts, lists, edges, classes and sources are exact item by item; those on keys and artifact names come with a family of collisions, since not every key with a line break and not every name with a bar has a twin.
- Naming.WordsCollideExactly: for several axes, values with doubled or outer underscores are not characterised; for one axis all values are (`OneAxisCollidesExactly`).
- Steps.SubstitutionMeaning: literals and values that hold the opening of a reference, or form it where they meet, are not characterised beyond `ValuesAreReadAgain`; nor are axis names with a dollar sign or a closing brace.
- Label tables (runner classes, sources, tiers, scopes, modes, receipt states) are constants taken over from the source; only that they differ where they must is proved.
- Job execution: dispatching appends the reservation to a log; receipts of executed jobs are not modelled.
- MergeQueue.MergeQueue.Enqueue: receipts, minted ids and error texts are left out; the fresh id is a parameter.
- WarmPool.ContainerRuntime.StartWarm: which starts fail is an arbitrary function of the serial number; the operation log and the wrap-around of the 64-bit serial are not modelled.
- WarmPool.WorkcellManager.ClaimReady: the queue of ready cells and the contents of a lease are left out; a cell is ready, claimed or blocked.
- WarmPool.WarmPool.Claim: session planning is reduced to whether the plan is accepted, startup to whether the rebase succeeded.
- PromptFilter.ThemePromptAutoSelect.Filter: UTF-8 lossy decoding is an arbitrary function, and write errors are ignored as in the source.
- Governor.DecideJobs: the CPU cap and the overload flag, computed in floating point, are arbitrary inputs; reason texts are left out.
- ReceiptJson.ReceiptReadsBack: the reader covers the JSON that receipts use (no fractions, exponents, booleans or whitespace).
- Integer widths: epochs and slot counts are bounded as in the source; timeouts, retention days, timestamps, memory sizes and queue counters are unbounded.
- Registry snapshots, health views, `submit` and other thin wrappers over the modelled operations.
- Kernel sandbox, proxies, command-line container runtime, microVM launcher, OAuth transport, cache service, workcell repair and archive, bug tracker, web contracts: not modelled.
