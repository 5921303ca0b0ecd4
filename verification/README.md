# Lumilake: a verified model

Lumilake compiles workflow specifications into runtime graphs, cuts their inputs into row
slices, claims workers, and drives jobs through a lifecycle that is persisted in
interchangeable stores. "Dynamic" jobs run in rounds: a planner emits the next subgraph after
each round, the server admits it, forwards references to earlier results as inputs, and runs
it as a child job.

This project models the logic behind these parts in Dafny and proves what they are meant to
guarantee. `dafny verify dfyconfig.toml` checks all of it.

## How the model is laid out

| module | what it models |
|---|---|
| `Sequences`, `Digraph` | duplicate-free lists, stable sort; paths, cycles, longest paths of finite graphs |
| `TopologicalSort`, `RuntimeGraphs`, `WorkflowGraph` | the layered sort and its two callers |
| `SpecRefs`, `NodePrefix` | node references inside nested specs, and renaming all nodes of a graph |
| `Cardinality` | the one-pass whole-list analysis and merging of graphs |
| `RowCounts`, `PythonSteps` | static row counts against generated steps; building Lambda steps |
| `Reshape` | flatten and regroup around a per-row vision model |
| `BoundIds`, `References`, `Forwarding`, `Admission`, `Workflow`, `DynamicRun` | a round from the planner's subgraph to compiled ops, and whole runs of rounds |
| `JobLifecycle` | statuses of parents and children under interleaved locked sections |
| `Capacity` | how many dispatches the idle workers can serve |
| `JobStorage`, `SaveLocks`, `Recovery` | the job index in its backends, write locks, startup recovery |
| `Slicing`, `Escape` | slicing inputs by row; brace escaping |

Code that works by changing state is modelled by methods with loops and by classes with
fields; what they compute is stated by specification functions and predicates, and the lemmas
are about those. Concurrency (`JobLifecycle`, `SaveLocks`) is modelled as steps over a state:
one step is a section under the lock, or a stretch without a suspension point. Every theorem
about runs holds for every sequence of steps.

## What turned out not to hold

Several promises hold only under a condition. The model keeps the code as it is, exhibits
inputs or runs on which the promise fails, and proves exactly when it holds.

- `remap` rewrites a phantom reference that holds a placeholder of a renamed node
  (`SpecRefs.PhantomPlaceholderMoves`; exactly when: `SpecRefs.RemapRenamesExactly`,
  `NodePrefix.PrefixRenamesRefs`).
- With a `.` in the prefix a renamed placeholder can still name the old id
  (`NodePrefix.DottedPrefixStillMentions`; a renamed placeholder is read under its new name
  exactly when: `NodePrefix.PrefixedPlaceholderReads`).
- Prefixing can turn a phantom dependency into a real one (`NodePrefix.CollisionMakesCycle`;
  exactly when: `NodePrefix.PrefixIsomorphic`).
- A round whose op ids or paths spell a made-up id is admitted and forwarded, and then fails to
  compile (`Admission.SeparatorIdFailsToCompile`, `Admission.RowsPathFailsToCompile`; exactly
  when: `Admission.AdmittedRoundCompiles`).
- Claiming group by group with gated task types can serve fewer dispatches than
  `dispatch_count` says (`Capacity.ClaimingInTurnMayFallShort`; exactly when, per claim:
  `Capacity.ClaimCosts`, for all claims: `Capacity.ClaimingReachesFormula`).
- Static row counts ignore that empty and non-empty columns do not broadcast (exactly when:
  `RowCounts.StaticAgainstRuntime`).
- A completed child can be relabelled by a late timeout
  (`JobLifecycle.CompletedChildMayBeRelabelled`; exactly when:
  `JobLifecycle.RelabelledOnlyByTimeout`).
- An unexpected error in the driver can leave a live child without a driver
  (`JobLifecycle.AbandonedChildStaysLive`; exactly when: `JobLifecycle.OrphanedOnlyByAbandoning`).
- A copy of a record made before `save` can overwrite a newer version, though never with an
  active status (`SaveLocks.StaleCopyIsStored`; exactly when: `SaveLocks.VersionGoesBackExactly`).

One promise holds because of what the callers pass: the round's prompt is put into a template
without the escaping that other messages get, and it survives because the two prompts the
planner code uses hold no brace (`Escape.RoundPromptArrives`, `Escape.UnescapedPromptSurvives`).

## Model

| member | source | states |
|---|---|---|
| `TopologicalSort.TopologicalSort` | src/lumilake_server/utils/graph.py:5-33 | Returns an order exactly when the graph is acyclic; the order holds every key and neighbour once, every edge points forward, nodes come layer by layer and within a layer by key, and the round of the loop that emits a node is the length of the longest path into it. |
| `TopologicalSort.ReleaseLayer` | src/lumilake_server/utils/graph.py:19-28 | Releasing a layer subtracts each emitted predecessor once and collects exactly the nodes whose in-degree has just reached zero. |
| `TopologicalSort.StuckHasCycle` | src/lumilake_server/utils/graph.py:30-31 | When nothing is ready and nodes remain, the remaining nodes contain a cycle: the length test never rejects an acyclic graph. |
| `Digraph.NoSourceHasCycle` | src/lumilake_server/utils/graph.py:30-31 | A nonempty finite set of nodes each with a predecessor in the set contains a cycle, found by walking backwards. |
| `Digraph.AcyclicHasHeights` | src/lumilake_server/utils/graph.py:16-28 | In an acyclic graph every node has a longest incoming path, the number the layers are compared with. |
| `WorkflowGraph.SortGraph` | src/lumilake_server/graphs/graph.py:161-167 | The reordered graph holds exactly the ops that read an op or are read by one, each once, readers after what they read; it raises exactly on a cycle. |
| `RuntimeGraphs.BuildDepGraph` | src/lumilake_server/runtime/runtime_graph.py:233-238 | The two loops build the dependency graph with phantom ids included: an edge for every dependency and no other. |
| `RuntimeGraphs.TopologicalOrder` | src/lumilake_server/runtime/runtime_graph.py:225-250 | Raises exactly when the dependencies, phantoms included, form a cycle; otherwise returns the canonical order of the runtime nodes: by longest dependency path, then by place in the stored order. |
| `RuntimeGraphs.CanonicalOrderUnique` | src/lumilake_server/runtime/runtime_graph.py:225-250 | There is one canonical order, so the result depends on no iteration order of sets, dictionaries or phantoms. |
| `RuntimeGraphs.OrderIsIdempotent` | src/lumilake_server/runtime/runtime_graph.py:676 | Stored back as the node order, the order is reproduced. |
| `NodePrefix.WithNodePrefix` | src/lumilake_server/runtime/runtime_graph.py:277-357 | Field by field: the copy has exactly the prefixed ids, in the same order; under each its type and any keyword mode are kept, dependencies on nodes carry the prefixed id and phantom ids stay, and in the spec every text is renamed (a `node` text that is a node moves, in any other text the placeholders of the node's own dependencies move) while keys, nesting, lists, tuples and other values are unchanged. |
| `NodePrefix.PrefixIsomorphic` | src/lumilake_server/runtime/runtime_graph.py:277-357 | The prefixed dependency graph is the original one renamed if and only if no phantom carries a prefixed id; otherwise no inverse renaming exists at all. |
| `NodePrefix.PrefixCommutes` | src/lumilake_server/runtime/runtime_graph.py:277-357 | Under the same condition prefixing keeps acyclicity and maps the canonical order of the original onto that of the copy. |
| `NodePrefix.CollisionMakesCycle` | src/lumilake_server/runtime/runtime_graph.py:279-336 | Without the condition it fails: a node depending on a phantom named like its own prefixed id becomes a cycle. |
| `SpecRefs.RefsOfRemap` | src/lumilake_server/runtime/runtime_graph.py:293-308 | For every nested spec, the references found after `remap` are the renamed references found before, in the same order. |
| `SpecRefs.RemapRenamesTexts` | src/lumilake_server/runtime/runtime_graph.py:293-308 | All texts of a spec, in order: after `remap` a `node` text in the mapping is its new id and every other text is the substituted one; without its texts the spec is the same. |
| `SpecRefs.RemapRenamesExactly` | src/lumilake_server/runtime/runtime_graph.py:283-308 | For renamings that lengthen ids, as a prefix does: references are renamed as intended, phantom ids fixed, if and only if no phantom reference holds, read from left to right, a placeholder of a node to be renamed. |
| `SpecRefs.PhantomPlaceholderMoves` | src/lumilake_server/runtime/runtime_graph.py:283-308 | The family of specs on which a phantom id is rewritten although it should stay. |
| `SpecRefs.RemapRenames` | src/lumilake_server/runtime/runtime_graph.py:2041-2068 | Renaming commutes with reference extraction on every spec whose phantom references do not open a placeholder with `${`, whatever the renaming. |
| `NodePrefix.PrefixRenamesRefs` | src/lumilake_server/runtime/runtime_graph.py:309-336 | The same condition for a node of a prefixed graph, whose own dependencies are what its placeholders are rewritten for. |
| `NodePrefix.PrefixedTextsForget` | src/lumilake_server/runtime/runtime_graph.py:283-336 | No text of a prefixed node names one of the node's dependencies in a placeholder by its old id, for prefixes without `.` and `}` and if no prefixed id is the id of a node. |
| `NodePrefix.PrefixedPlaceholderReads` | src/lumilake_server/runtime/runtime_graph.py:53 | A placeholder with the prefixed name is read as one of that name if and only if the prefix holds no `.` and no `}`. |
| `NodePrefix.DottedPrefixStillMentions` | src/lumilake_server/runtime/runtime_graph.py:283-291 | The family on which a prefix with a `.` leaves a text that still names the old id. |
| `SpecRefs.SubstituteWritten` | src/lumilake_server/runtime/runtime_graph.py:283-291 | A written placeholder is renamed at its node and keeps its path, and the text after it is treated independently. |
| `SpecRefs.SubstituteOther` | src/lumilake_server/runtime/runtime_graph.py:283-291 | Where no placeholder starts, the character stays and the rest is treated on its own. |
| `SpecRefs.SubstituteForgets` | src/lumilake_server/runtime/runtime_graph.py:283-291 | After the substitution a text, read again from left to right, names none of the nodes that were to be renamed, if new names can be read and none is an old one: the substitution makes no placeholder where there was none. |
| `Cardinality.ListLambdaCardinalityNodes` | src/lumilake_server/runtime/runtime_graph.py:252-275 | One pass over a topological order computes the least set closed under the propagation rule. |
| `Cardinality.LeastClosedUnique` | src/lumilake_server/runtime/runtime_graph.py:252-275 | That least set is unique. |
| `Cardinality.LeastClosedIsReached` | src/lumilake_server/runtime/runtime_graph.py:252-275 | It is what dependency chains reach that start at a python step of mode `list` and enter no python step of another mode. |
| `Cardinality.MergeRuntimeGraphs` | src/lumilake_server/runtime/runtime_graph.py:360-399 | Merging succeeds exactly when no node id occurs twice, and concatenates the orders. |
| `Cardinality.MergedIsTopological` | src/lumilake_server/runtime/runtime_graph.py:360-399 | The merged order of graphs whose dependencies do not cross is topological. |
| `Cardinality.MergedCardinality` | src/lumilake_server/runtime/runtime_graph.py:252-275 | On the merged graph the pass finds the union of what it finds on the parts. |
| `PythonSteps.Builder.BuildPythonStep` | src/lumilake_server/runtime/runtime_graph.py:683-793 | The memoised recursion terminates and succeeds exactly when every Lambda still needed can be compiled; then it adds exactly those, each once, every step after the nodes it depends on, with the plan and dependencies of its inputs, and leaves all earlier nodes alone. |
| `PythonSteps.MemoIsSound` | src/lumilake_server/runtime/runtime_graph.py:695-696 | Skipping what is already built leaves the same set of steps as building everything anew. |
| `PythonSteps.NeededIsReached` | src/lumilake_server/runtime/runtime_graph.py:683-713 | A call builds exactly the Lambdas that are read from it along inputs through Lambdas that are not built yet. |
| `PythonSteps.AcyclicIsLayered` | src/lumilake_server/runtime/runtime_graph.py:683-713 | On an acyclic op graph the measure the recursion descends on exists. |
| `PythonSteps.StepRefersToDeps` | src/lumilake_server/runtime/runtime_graph.py:700-756 | The references found in a built step are exactly its dependencies; literal values contribute none. |
| `PythonSteps.StepReadsInputs` | src/lumilake_server/runtime/runtime_graph.py:700-756 | The plan of a built step has one entry per input, in order: a Lambda under its own id, an upstream op under its runtime id, an input op as the list of its own values. |
| `PythonSteps.Builder.BuildStandalone` | src/lumilake_server/runtime/runtime_graph.py:620-648 | On success every row-mode Lambda has a task that nothing had visited, that is an output, has an image, or is a dependency, spec reference or condition of an earlier node; every task added is read from one of these through Lambdas that had none; it fails exactly when something needed cannot be compiled. |
| `PythonSteps.Builder.CheckInlinedLambdaRefs` | src/lumilake_server/runtime/runtime_graph.py:2001-2025 | Complains exactly when some node refers to a row-mode Lambda that has no task, and names such a node and reference. |
| `PythonSteps.Builder.BuildThenCheck` | src/lumilake_server/runtime/runtime_graph.py:620-657 | After a successful pass the check never complains. |
| `PythonSteps.PassLeavesNoInlinedRefs` | src/lumilake_server/runtime/runtime_graph.py:1982-2025 | Why: what earlier nodes refer to is built, and what the pass builds refers only to nodes that exist. |
| `RowCounts.CheckLengths` | src/lumilake_server/runtime/python_step.py:214-220 | The generated length check accepts exactly when every column has one value or as many as the longest. |
| `RowCounts.RowMain` | src/lumilake_server/runtime/python_step.py:209-228 | A row step emits one item per row, each the function of that row. |
| `RowCounts.RowOf` | src/lumilake_server/runtime/python_step.py:221 | At each position a row holds the single value of its column, or the value that stands in that row. |
| `RowCounts.AlignedMain` | src/lumilake_server/runtime/python_step.py:239-258 | An aligned step succeeds exactly when lengths broadcast and the function answers once per row. |
| `RowCounts.StaticAgainstRuntime` | src/lumilake_server/runtime/runtime_graph.py:2876-2899 | For every list of known counts: the run-time check passes if and only if the static check does and empty columns are not mixed with others. |
| `RowCounts.ForetoldCount` | src/lumilake_server/runtime/runtime_graph.py:2876-2899 | A step that passes emits the count computed for it, except that all-empty inputs are counted as one row. |
| `RowCounts.AcceptedCountsAreExact` | src/lumilake_server/runtime/runtime_graph.py:2901-2964 | On any DAG of row and aligned Lambdas over non-empty values, if every step is accepted then every generated check passes and every op emits exactly its static count. |
| `RowCounts.RejectionIsSound` | src/lumilake_server/runtime/runtime_graph.py:2876-2899 | A rejected step fails its check in every run that reaches it, also when list-mode Lambdas are upstream. |
| `RowCounts.KnownCountIsRight` | src/lumilake_server/runtime/runtime_graph.py:2955-2963 | A static count above one is right in every run whose earlier steps have passed, although unknown inputs were ignored. |
| `Reshape.Flatten` | src/lumilake_server/runtime/python_step.py:128-177 | Accepts exactly the column plans whose grouped columns match the image groups and whose row columns have one value or one per row, names the first bad column, and lists one rendered prompt per image, row by row. |
| `Reshape.CellsAreColumns` | src/lumilake_server/runtime/python_step.py:158-171 | Each label of a prompt stands for the value in its own column: at that row and position of a grouped column, at that row of a column with one value per row, the only value of a column with one; nothing else is bound. |
| `Reshape.FlatItemAt` | src/lumilake_server/runtime/python_step.py:155-176 | Image `j` of row `i` is item offset(i)+j, rendered from its own cells, and carries row `i`. |
| `Reshape.Regroup` | src/lumilake_server/runtime/python_step.py:179-207 | Succeeds exactly when outputs and rows pair up, rows are integers in range and every row gets its number of outputs; then each row holds its outputs in order. Otherwise it reports the first fault. |
| `Reshape.RegroupUndoesFlatten` | src/lumilake_server/runtime/python_step.py:128-207 | For every ragged grouping flatten accepts and any outputs, one per prompt, regroup accepts and gives each row exactly its own part of the outputs. |
| `Reshape.FlattenInferRegroup` | src/lumilake_server/runtime/runtime_graph.py:1101-1240 | Flatten, a prompt-by-prompt model and regroup together: no error, group sizes kept, answer (i, j) is the answer to the prompt of image (i, j), and the groups side by side are the answers to the flattened prompts in order. |
| `BoundIds.InputIdInjective` | src/lumilake_server/dynamic/driver.py:445-465 | The made-up input id determines its reference and its path, for ids without the separator. |
| `BoundIds.MaterializerIsNoInput` | src/lumilake_server/dynamic/driver.py:445-465 | A decoder id is never the id of a bound input, for result paths that do not end in the decoder suffix. |
| `BoundIds.MaterializerInjective` | src/lumilake_server/dynamic/driver.py:452-465 | Decoder ids determine reference and path. |
| `BoundIds.RowsPathCollides` | src/lumilake_server/dynamic/driver.py:445-465 | A path ending in the suffix makes a decoder id and an input id equal. |
| `References.WalkValuesPerRow` | src/lumilake_server/dynamic/driver.py:376-400 | One value per item, one-element lists unwrapped; fails exactly on a missing field or when items and rows differ in number. |
| `References.ForwardValues` | src/lumilake_server/dynamic/driver.py:321-327 | One text per item: a string as it is, a list as its JSON; fails exactly on a missing field. |
| `References.ForwardValuesFlattened` | src/lumilake_server/dynamic/driver.py:328-342 | The texts of the items side by side, one for each element of a list and one for anything else, each at its place, with the total length; fails exactly on a missing field. |
| `References.TextsDetermined` | src/lumilake_server/dynamic/driver.py:321-400 | The stored items leave no choice: a reference is bound to one list of texts only. |
| `Forwarding.Forwarder.AddMaterializer` | src/lumilake_server/dynamic/driver.py:445-465 | Binds the JSON input and adds its decoder at most once; afterwards the id is decoded and its decoder is the one returned. |
| `Forwarding.Forwarder.BindImplicit` | src/lumilake_server/dynamic/driver.py:467-496 | Rewrites a reference to a decoder exactly when some row holds a list; fails exactly when the result cannot be matched to rows, mixes lists and scalars, or is a list for an image source; the ids bound and decoded stay those the references so far call for. |
| `Forwarding.Forwarder.BindExplicit` | src/lumilake_server/dynamic/driver.py:498-522 | Gives the consumer the decoder exactly when the id is decoded by then and the bound input otherwise; fails exactly when the id is not bound yet and the values cannot be matched. |
| `Forwarding.ForwardRefs` | src/lumilake_server/dynamic/driver.py:430-588 | Succeeds exactly when every reference of the round can be forwarded in its turn; then the ids bound and the decoders added are exactly those that follow from the list of references, the ops are rewritten and otherwise kept, and each input holds the texts of the stored items: with several rows one per row (a string, the element of a one-element list, or the JSON of the list), with one row one per item for a whole result and one per element for a path. |
| `Admission.BoundInputIsOwn` | src/lumilake_server/dynamic/driver.py:430-588 | Where ids determine references, the id bound for a reference holds the texts of that very reference. |
| `Forwarding.ForwardsOpByOp` | src/lumilake_server/dynamic/driver.py:430-588 | Where one id does not stand for two references, forwarding succeeds exactly when every reference of every op could be forwarded alone. |
| `Admission.CheckIds` | src/lumilake_server/dynamic/driver.py:740-772 | The id pass accepts exactly non-empty, unreserved, new and distinct ids of supported op types. |
| `Admission.CheckRefs` | src/lumilake_server/dynamic/driver.py:785-809 | The reference pass accepts exactly references to the input, to earlier results that are available, and to ops emitted before. |
| `Admission.ValidateEmittedSubgraph` | src/lumilake_server/dynamic/driver.py:711-824 | The passes together accept exactly the admissible subgraphs. |
| `Admission.CurrentLeaves` | src/lumilake_server/dynamic/driver.py:1052-1059 | The leaves are exactly the ops no op of the round reads. |
| `Workflow.RegisterIds` | src/lumilake_server/parser/yaml_parser.py:235-267 | Registration succeeds exactly when input and op ids are distinct and op types supported; otherwise it reports the first op at fault by its id, as a duplicate if the id is taken and as unsupported if not. |
| `Workflow.CompileWorkflow` | src/lumilake_server/parser/yaml_parser.py:234-285 | The pending loop ends with an order exactly when ids register, references are known and the references are acyclic; each error is raised exactly on its own fault and names it: the first op that cannot be registered, the first op with an unknown reference, and the largest set of ops each of which reads another of the set. |
| `Workflow.StuckHasCycle` | src/lumilake_server/parser/yaml_parser.py:271-285 | A sweep without progress means a cycle. |
| `Workflow.EmissionComplete` | src/lumilake_server/parser/yaml_parser.py:271-285 | When the loop empties the pending set, every op came after what it reads, so there is no cycle. |
| `Admission.AdmittedRoundCompiles` | src/lumilake_server/dynamic/driver.py:739-809 | Admission soundness: an admitted and forwarded round passes all duplicate-id, unknown-id and cycle checks of the compiler if and only if the ids made up for its references stay apart: no op is named like a bound input or a decoder, and no decoder like a bound input. |
| `Admission.CleanRoundCompiles` | src/lumilake_server/dynamic/driver.py:739-809 | In particular every such round compiles whose op ids and forwarded ids hold no separator and whose forwarded paths are result paths. |
| `Admission.CleanNamesApart` | src/lumilake_server/dynamic/driver.py:445-465 | Such names keep the made-up ids apart and make each stand for one reference. |
| `Admission.ForwardedRefLeads` | src/lumilake_server/dynamic/driver.py:430-588 | After forwarding each `inputs` reference of an admitted round is a bound input, a decoder or an earlier op of the round, whatever the names. |
| `Admission.RoundRecomputesNothing` | src/lumilake_server/dynamic/driver.py:1091-1107 | The compiled round contains its own ops, none of which has run, and the decoders of its references, and nothing else; it shares an id with an earlier op only if a decoder is named like one. |
| `Admission.ForwardedInputDelivers` | src/lumilake_server/dynamic/driver.py:430-496 | When made-up ids are apart and determine their references, what a rewritten implicit reference leads to, an input or a decoder of one, holds exactly the texts of the items of the op it named, walked by that op's forward path. |
| `Admission.ForwardedColumnDelivers` | src/lumilake_server/dynamic/driver.py:498-570 | The same for explicit references: the texts of the items at the referenced path. |
| `Admission.SeparatorIdFailsToCompile` | src/lumilake_server/dynamic/driver.py:445-465 | For every earlier op and path, a round that is admissible, that forwarding accepts and that no forwarding of it lets compile: its op is named like the input bound for that path. |
| `Admission.RowsPathFailsToCompile` | src/lumilake_server/dynamic/driver.py:445-465 | The same for a round that reads a path and, beside it, the path with the decoder suffix. |
| `DynamicRun.HistoryIsAcyclic` | src/lumilake_server/dynamic/driver.py:785-809 | The references of all ops ever admitted, over all rounds, are acyclic. |
| `DynamicRun.AppendRound` | src/lumilake_server/dynamic/driver.py:785-809 | An admissible round extends a good history to a good history with new ids only. |
| `DynamicRun.DynamicJob.Admit` | src/lumilake_server/routes/jobs.py:1989-2008 | Registers every op exactly when the subgraph is admissible, changing and removing no earlier entry. |
| `DynamicRun.DynamicJob.BuildRound` | src/lumilake_server/dynamic/driver.py:1062-1153 | A ready round is built if and only if its references can be forwarded and the made-up ids stay apart, and it fails in forwarding exactly when the first is not so; what is compiled is its own ops, none of which has run, and decoders. |
| `DynamicRun.DynamicJob.StoreRound` | src/lumilake_server/routes/jobs.py:2211-2287 | Stores exactly the leaves and exports of the round when all were returned and the plan could be read, and changes nothing otherwise. |
| `DynamicRun.StoredOpByOp` | src/lumilake_server/dynamic/driver.py:1052-1059 | Op by op: stored are the items of every op of the round that no op of it reads or that is exported, and what was stored before. |
| `DynamicRun.DynamicJob.RunRound` | src/lumilake_server/routes/jobs.py:2116-2309 | One pass as an exact relation between the states before and after: a round that cannot be built, does not start, does not come back whole or is answered unreadably ends the run with its status; otherwise its outputs are stored, and it stops, fails or goes on as the reply says. The compiled graph holds no op that has run. |
| `DynamicRun.DynamicJob.RunChild` | src/lumilake_server/routes/jobs.py:2177-2309 | A child counts when it starts; its outputs are stored exactly when all were returned and the reply is readable, and the reply decides. |
| `DynamicRun.DynamicJob.AskFirst` | src/lumilake_server/routes/jobs.py:2070-2112 | An external planner's first reply: stopped exactly on a stop, going on exactly when its subgraph is admissible, failed otherwise, and no child is created. |
| `DynamicRun.TurnDecides` | src/lumilake_server/routes/jobs.py:2068-2309 | A turn goes on exactly when its reply is heard and admitted, and stops exactly when it is heard and told to stop. |
| `DynamicRun.DynamicJob.Run` | src/lumilake_server/routes/jobs.py:2068-2309 | Over every run: it is a sequence of turns, each taken in the state the one before left, that ends only when a turn ends it or the rounds are used up; the registry only grows, the whole history is acyclic, no op runs twice, and at most `max_rounds` children are created (one fewer with an external planner). |
| `DynamicRun.StopEndsRun` | src/lumilake_server/routes/jobs.py:2068-2309 | A run whose first `n` turns are answered by admitted subgraphs and whose next one is told to stop ends there as stopped, with a child and a completed round for every turn that ran one. |
| `DynamicRun.RunUsesAllRounds` | src/lumilake_server/routes/jobs.py:2068-2309 | A run all of whose turns go on takes exactly `max_rounds` turns. |
| `JobLifecycle.StepKeepsConsistent` | src/lumilake_server/routes/jobs.py:1829-1889 | Every locked section keeps: all but the newest child completed, the driver between rounds only when all are, a cancellation has every child it passed terminal. |
| `JobLifecycle.TerminalIsFinal` | src/lumilake_server/routes/jobs.py:2414-2421 | In every run a terminal job stays terminal and gains no child; a root keeps its very status; a child that ended otherwise never becomes completed. |
| `JobLifecycle.RootLabel` | src/lumilake_server/routes/jobs.py:1829-1889 | In every run a root carries the label `end` if and only if an earlier step ended it, while live, with that label: a finished run or driver with its outcome, a shutdown with failed, an accepted cancellation with cancelled. |
| `JobLifecycle.LiveLabel` | src/lumilake_server/routes/jobs.py:2414-2421 | Step by step: a live job gets a terminal label exactly from a step that ends it, and that label; otherwise it says running after a start and what it said before if not. |
| `JobLifecycle.EndedLabel` | src/lumilake_server/routes/jobs.py:1864-1889 | A job that has ended is relabelled by a timed-out await on it, with the label of the timeout, and by a refusal of the backend, as failed; by nothing else. |
| `JobLifecycle.CancelLeavesNoLiveChild` | src/lumilake_server/routes/jobs.py:3524-3569 | When a cancellation has returned, the job and all its children are terminal, then and at every later moment of every run. |
| `JobLifecycle.CancelledForGood` | src/lumilake_server/routes/jobs.py:3524-3537 | The target of an accepted cancellation is cancelled at once, and a root is cancelled at every later moment of every run. |
| `JobLifecycle.LoopLabelsChild` | src/lumilake_server/routes/jobs.py:3551-3569 | A child that the loop finds live is written cancelled; when the backend answers it is failed exactly if the backend refused, and still cancelled if not, unless an await on it timed out meanwhile. |
| `JobLifecycle.OlderChildrenAreCompleted` | src/lumilake_server/routes/jobs.py:2177-2200 | All but the last child of a dynamic run are completed and stay so. |
| `JobLifecycle.ChildJoinsLiveParent` | src/lumilake_server/routes/jobs.py:1829-1835 | A child is added only while its parent is live. |
| `JobLifecycle.OrphanedOnlyByAbandoning` | src/lumilake_server/routes/jobs.py:2346-2354 | A live child keeps a driver that waits for it through every step except one: the driver failing with an unexpected error while the child is live. |
| `JobLifecycle.NoOrphans` | src/lumilake_server/routes/jobs.py:1864-1889 | In a run without such an error no live child is ever without its waiting driver. |
| `JobLifecycle.ShutdownEndsEveryJob` | src/lumilake_server/routes/jobs.py:1155-1168 | In every run, after a shutdown each job there was is terminal for good: it gains no child, a live root ends as failed, a finished root keeps its status, and an unfinished job never becomes completed. |
| `JobLifecycle.RelabelledOnlyByTimeout` | src/lumilake_server/routes/jobs.py:1881-1884 | In every run a completed job is still completed later if and only if no await on it has timed out since. |
| `JobLifecycle.CompletedLost` | src/lumilake_server/routes/jobs.py:1864-1889 | Step by step: a completed job loses its label if and only if the step is the timeout write of the await on it. |
| `JobLifecycle.CompletedChildMayBeRelabelled` | src/lumilake_server/routes/jobs.py:1881-1884 | A run from the empty server in which this happens. |
| `JobLifecycle.AbandonedChildStaysLive` | src/lumilake_server/routes/jobs.py:2346-2354 | The run that leaves a failed parent with a live child. |
| `JobLifecycle.JobTable.SubmitDynamicChild` | src/lumilake_server/routes/jobs.py:1829-1835 | The child is added, pending and last among its parent's children, exactly when the parent is live; otherwise no record changes and the driver is gone. |
| `JobLifecycle.JobTable.AwaitChild` | src/lumilake_server/routes/jobs.py:1864-1889 | A timed-out child gets exactly the timeout's label whatever it was, and no other record changes; otherwise no record changes and the driver goes on exactly when the child is completed, and then all children are. |
| `JobLifecycle.JobTable.CancelJob` | src/lumilake_server/routes/jobs.py:3524-3537 | Accepted exactly when the job is live, and then its record, and no other, is cancelled; a finished job is left as it is. |
| `JobLifecycle.JobTable.CancelNextChild` | src/lumilake_server/routes/jobs.py:3551-3559 | One turn of the loop: a live child, and no other record, is cancelled and asked about, any other child is passed; when no child is left, all are terminal. |
| `JobLifecycle.JobTable.BackendAnswered` | src/lumilake_server/routes/jobs.py:3561-3569 | A refused backend cancellation writes failed onto the child just cancelled; an accepted one writes nothing. |
| `JobLifecycle.JobTable.MarkRunningJobsFailed` | src/lumilake_server/routes/jobs.py:1155-1168 | Every live record is failed, every other one is as it was, and no live job remains. |
| `JobLifecycle.JobTable.Start` | src/lumilake_server/routes/jobs.py:2414-2421 | A live job is running afterwards and no other record changes; a terminal one is not started. |
| `JobLifecycle.JobTable.Finish` | src/lumilake_server/routes/jobs.py:2506-2583 | A live job gets exactly the outcome's label; a terminal one is left as it is. |
| `JobLifecycle.JobTable.Conclude` | src/lumilake_server/routes/jobs.py:2325-2354 | The driver writes exactly its outcome, on a live parent only. |
| `Capacity.DispatchCount` | src/lumilake_server/runtime/capacity.py:44-90 | The count is the largest number of pairwise disjoint groups of the given sizes, drawn from eligible workers, each with a worker for all gated types. |
| `Capacity.DispatchesIsMaximum` | src/lumilake_server/runtime/capacity.py:44-90 | For every number: that many disjoint groups exist if and only if it is at most the formula. |
| `Capacity.GroupOnProfiles` | src/lumilake_server/runtime/capacity.py:44-90 | What a group is, on the snapshot: as many idle workers of each class as claimed, each meeting the hardware test when profiles are known, and one CPU worker whose profile lists every gated type. |
| `Capacity.PackingNeedsEnough` | src/lumilake_server/runtime/capacity.py:44-90 | Upper bound: disjoint groups use up workers and capable workers. |
| `Capacity.EnoughPacks` | src/lumilake_server/runtime/capacity.py:44-90 | Lower bound: leaders are set aside first, then the remaining workers are dealt out. |
| `Capacity.EligibleWorkers` | src/lumilake_server/runtime/capacity.py:131-182 | What it selects is a valid group without repetitions, and it selects one exactly when the count is at least one. |
| `Capacity.ClaimCosts` | src/lumilake_server/runtime/capacity.py:131-182 | Taking any group costs at least one dispatch, and exactly one if and only if no types are gated or enough capable workers are left. |
| `Capacity.ClaimingInTurn` | src/lumilake_server/runtime/capacity.py:131-182 | Claiming until nothing is left never beats the count, and reaches it without gated types or with one CPU worker per group. |
| `Capacity.ClaimingReachesFormula` | src/lumilake_server/runtime/capacity.py:131-182 | Claiming until nothing is left reaches the count if and only if every claim on the way leaves enough capable workers for the dispatches that could follow. |
| `Capacity.ClaimingInTurnMayFallShort` | src/lumilake_server/runtime/capacity.py:171-181 | With gated types and groups of two it can fall short: the snapshots on which the count is two and claiming yields one. |
| `JobStorage.FilterSummaries` | src/lumilake_server/utils/job_storage.py:151-172 | The loop keeps exactly the matching summaries, in order; an empty status set does not filter, an empty id set matches nothing, children never match. |
| `JobStorage.SortedIsListing` | src/lumilake_server/utils/job_storage.py:140-148 | Filtering then sorting the dictionary entries gives the strictly sorted listing. |
| `JobStorage.ListingUnique` | src/lumilake_server/utils/job_storage.py:140-172 | A store content has one listing. |
| `JobStorage.ListingOnFields` | src/lumilake_server/utils/job_storage.py:140-172 | A listing holds exactly the root jobs of the organisation that pass the user, id and status filters, newest first, ties by descending job id. |
| `JobStorage.LexByFirstDifference` | src/lumilake_server/utils/job_storage.py:140-148 | Ids compare where they first differ, a proper beginning first. |
| `JobStorage.InMemoryStore.Save` | src/lumilake_server/utils/job_storage.py:186-197 | The dictionary index maps the job to its latest summary and changes nothing else. |
| `JobStorage.InMemoryStore.ListSummaries` | src/lumilake_server/utils/job_storage.py:239-258 | Returns the page of the listing and its total; the items are indexed root jobs of the organisation that pass the filters, newest first. |
| `JobStorage.InMemoryStore.IterSummaries` | src/lumilake_server/utils/job_storage.py:455-466 | Yields exactly the indexed summaries with a given status. |
| `JobStorage.BlobStore.Save` | src/lumilake_server/utils/job_storage.py:343-351 | Rewriting the JSON index with one entry set maps the job to its latest summary and changes nothing else. |
| `JobStorage.BlobStore.ListSummaries` | src/lumilake_server/utils/job_storage.py:427-453 | Decoding the index, then filtering, sorting and cutting, returns the page of the listing and its total, with the same promises about the items. |
| `JobStorage.UpsertDecoded` | src/lumilake_server/utils/job_storage.py:347-351 | Setting an entry of the JSON index is setting the summary in the decoded dictionary, its place included. |
| `JobStorage.SqliteStore.Save` | src/lumilake_server/utils/job_storage.py:595-638 | Upserts the row and prunes when due. |
| `JobStorage.SqliteStore.ListSummaries` | src/lumilake_server/utils/job_storage.py:669-691 | COUNT, ORDER BY, LIMIT and OFFSET return the same page and total as the listing of the rows, with the same promises about the items. |
| `JobStorage.PagesConcatenate` | src/lumilake_server/utils/job_storage.py:252-258 | The first pages side by side are the beginning of the listing. |
| `JobStorage.SavesAgree` | src/lumilake_server/utils/job_storage.py:758-784 | After any saves the table differs from the dictionary by missing finished jobs only, and not at all with retention off. |
| `JobStorage.ActiveListingsAgree` | src/lumilake_server/utils/job_storage.py:758-784 | Listings restricted to pending and running agree whatever has been pruned. |
| `JobStorage.PrunedListing` | src/lumilake_server/utils/job_storage.py:758-784 | Any other listing loses only finished jobs, the order of the rest unchanged. |
| `JobStorage.CompareStores` | src/lumilake_server/utils/job_storage.py:427-453 | Fed the same saves, the in-memory and blob stores answer every query and page alike, and so does SQLite with retention off or when asked for live statuses only. |
| `JobStorage.IterJobRecords` | src/lumilake_server/routes/trace.py:80-116 | The paging loop visits each listed summary once, newest first, up to the cap, and skips missing records. |
| `SaveLocks.StepKeepsConsistent` | src/lumilake_server/utils/job_storage.py:39-63 | Every step of any thread keeps the lock invariants: one owner of the guard, distinct locks per job, what is read under the lock is not older than what is stored. |
| `SaveLocks.LockNeverReplaced` | src/lumilake_server/utils/job_storage.py:46-53 | In every interleaving the lock of a job, once made, is the one all later saves use. |
| `SaveLocks.OneWriterPerJob` | src/lumilake_server/utils/job_storage.py:55-63 | At most one thread is inside `_save_locked` for a job. |
| `SaveLocks.HolderCanMove` | src/lumilake_server/utils/job_storage.py:46-63 | Whenever a saver has to wait, another saver that holds what it waits for can move: no deadlock. |
| `SaveLocks.VersionGoesBackExactly` | src/lumilake_server/utils/job_storage.py:55-63 | In every run a stored version goes back at a step if and only if the step stores data taken before a change of the record while the data stored last was taken after it; and only a copy made before `save` can be such data. |
| `SaveLocks.SavesGoForward` | src/lumilake_server/utils/job_storage.py:55-63 | A save of the live record never stores an older version than there is, and no save turns a stored terminal status active. |
| `SaveLocks.StaleCopyIsStored` | src/lumilake_server/routes/jobs.py:1922-1924 | A run from the start in which a copied finished record overwrites a newer one. |
| `SaveLocks.StoredTerminalStays` | src/lumilake_server/routes/jobs.py:1922-1924 | In every run a stored terminal status never reverts to active, and stored versions never go back unless an overtaken copy is written. |
| `Recovery.JobArchive.Save` | src/lumilake_server/utils/job_storage.py:343-351 | Record first, index second; either write may fail. |
| `Recovery.JobArchive.RecoverInFlightJobs` | src/lumilake_server/routes/jobs.py:1178-1265 | A pass that does not raise leaves every candidate settled, record and index alike: failed if its record was active, as it had ended otherwise; any pass leaves all other jobs alone and every finished record as it was; it raises exactly the jobs it could not read or write. |
| `Recovery.RetryStaysSound` | src/lumilake_server/routes/jobs.py:1268-1299 | Passes can be repeated: no candidate is lost and nothing finished is touched. |
| `Recovery.JobArchive.RecoverUntilDone` | src/lumilake_server/routes/jobs.py:1268-1299 | When it reports done every original candidate is settled, and finished records are as they were; it does so as soon as one pass meets no fault. |
| `Slicing.InputShape` | src/lumilake_server/routes/jobs.py:175-184 | Accepts exactly inputs whose lengths are one or the longest, and returns that length and the varying inputs. |
| `Slicing.ChunkInputs` | src/lumilake_server/routes/jobs.py:150-172 | Cuts exactly the well-shaped inputs into consecutive batches. |
| `Slicing.SlicesConcatenate` | src/lumilake_server/routes/jobs.py:150-172 | The slices of a varying input concatenate back to it; a single value is the same in every slice. |
| `Slicing.SliceInputs` | src/lumilake_server/routes/jobs.py:1757-1792 | Slice starts and lengths tile `[0, total)` without gap or overlap, and each length is that of its slice. |
| `Slicing.RowPerSlice` | src/lumilake_server/routes/jobs.py:1757-1792 | Inputs with one value per row, cut at batch size 1: slice `i` is row `i` of every input. |
| `Slicing.ForwardedRowPerSlice` | src/lumilake_server/dynamic/driver.py:376-400 | For forwarded inputs: slice `i` holds symbol `i` and, for every forwarded reference, the text that item `i` of its op has at its path. |
| `Escape.EscapedRendersToItself` | src/lumilake_server/dynamic/blocks.py:33-40 | For every text and mapping, rendering the escaped text succeeds and yields the text. |
| `Escape.EscapedThenRest` | src/lumilake_server/dynamic/blocks.py:33-40 | Whatever follows the escaped text is rendered as if on its own. |
| `Escape.EscapedThenField` | src/lumilake_server/dynamic/blocks.py:118-130 | It composes with a following `{ref0}` field. |
| `Escape.UnescapedSurvives` | src/lumilake_server/dynamic/blocks.py:33-40 | Without the escape a text survives rendering if and only if it has no brace. |
| `Escape.RoundPromptArrives` | src/lumilake_server/dynamic/driver.py:930-943 | Every round: the user message is the planner prompt unchanged, followed by the observation if the round has leaves, whatever the observation is. |
| `Escape.UnescapedPromptSurvives` | src/lumilake_server/dynamic/blocks.py:118-120 | As a parameter of the round graph, an unescaped prompt arrives unchanged under every observation if and only if it has no brace. |

## Left out

- `JobLifecycle.CancelLeavesNoLiveChild`: two record objects for one job, which a concurrent reload from storage can create, are not modelled; there is one record per id.
- `JobLifecycle.StepKeepsConsistent`: job ids drawn for children are taken to be new, as unique ids are.
- `JobLifecycle.NoOrphans`: that a child's task which returns normally has ended its record is taken from `_run_job`, whose body is modelled only by the status writes it makes.
- `SaveLocks.StepKeepsConsistent`: the threads are a state machine over values; the dictionary of locks is a field of the state, and each step is one atomic access.
- `SaveLocks.VersionGoesBackExactly`: reading a record and writing it are single steps; a field changed halfway through reading (a torn snapshot) is not modelled.
- `Admission.ValidateEmittedSubgraph`: models the id, export, reference and leaf passes; `_validate_declared_inputs`, which compares declared inputs with the op configuration, is not modelled.
- `References.WalkValuesPerRow`: a stored item is a map from paths to walked values; parsing JSON along the path is not modelled, and neither is splitting the path.
- `Capacity.DispatchCount`: the hardware test is any predicate on profiles.
- `Slicing.InputShape`: the varying inputs are a set; their alphabetical order is not modelled.
- `Slicing.ForwardedRowPerSlice`: states alignment for more than one row; with a single row flattened values may differ in length.
- `Escape.EscapedRendersToItself`: format fields with conversions, specs, attributes or indexes count as errors.
- `JobStorage.CompareStores`: that a summary written as JSON is read back as it was is an assumption (`RoundTrips`), so the timestamps and numbers of a summary are not modelled as text; the one-time import of the old index is not modelled, and the content of a store does not change while it is listed.
- `JobStorage.IterJobRecords`: the loop is proved over the in-memory store; the other listings have the same contract.
- `PythonSteps.Builder.BuildPythonStep`: of a step's specification only the plan is kept; code, limits, image and cache settings carry no node references, and the marker for grouped upstream outputs is dropped.
- `Recovery.JobArchive.RecoverInFlightJobs`: the set of jobs in memory is fixed during a pass.
- `NodePrefix.WithNodePrefix`: output maps and the map from ops to runtime nodes are not modelled; they are renamed the same way.
- Library templates (`resolve_subgraph`) and the emitters of op fields in the YAML parser.
- `make_id` hashing: compiled ids are the user ids themselves.
- `condition` edges: the sort uses dependencies only.
- Reservation of output locations, artifacts, and `iter_summaries` with an empty status set, where the backends differ.
- HTTP routes, hooks, authorisation, usage and trace collection, and the FlowMesh and data clients.
- The n8n parser, LLM and SQL content, data profiling, cost estimates.
