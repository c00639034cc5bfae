# Deep Active Inference Analysis — a Dafny model of its core

This project models, in Dafny, the core of *Deep Active Inference Analysis*. That is a
workbench where active-inference agents are configured, trained and compared on small grid
worlds through a graphical interface. The model covers four parts:

- **The BTAI planner.** A factor graph of `FactorNode`s and `VariableNode`s carries the
  messages of (loopy) belief propagation. A `TemporalSlice` holds the beliefs of one time step:
  the I-step infers them, the P-step predicts the next step's beliefs, and the expected free
  energy is its risk plus its ambiguity. The tree of slices is searched by Monte-Carlo tree
  search (`MCTS`), and `BTAI_3MF` drives one planning and acting cycle. The agent's likelihood
  and prior tables (`a()`, `c()`, `d()`) and the tables of the EFE test script (`a_matrix`,
  `b_matrix`, `c_matrix`, `d_matrix`, `pre_process`) are modelled too.
- **The two grid worlds.** `MiniSpritesEnvironment` is a coloured sprite on a small grid whose
  reward lies on the side its colour names. `SpritesEnvironment` is the dSprites world: the
  latent state, the image index and the easy, hard and epistemic rewards.
- **GUI helpers.** The job-status duration text, the truncated project labels, the project
  names and the first free default name, the keyboard map of a game, and the check that a
  configuration file may be created or renamed.
- **The epistemic-value test script.** Bayes posteriors and the epistemic value of a
  likelihood.

Conventions of the model:

- Probabilities are `real`s. `log` and `sqrt` are parameters, so the proofs do not depend on
  floating point.
- Random draws, files, directories and the clock are parameters or plain values.
- Objects the source updates in place are classes: the factor graph, the planning tree, the
  agent and the environments. Their methods are proved equal to pure functions of the old
  state, and the properties are lemmas about those functions.

## Model

| member | source | states |
|---|---|---|
| Text.NatToString | gui/pages/ProjectPage.py:100-103 | `str(n)` of a natural number: decimal digits with no leading zero, a single digit exactly when n < 10 |
| Text.ParseNatToString | gui/pages/ProjectPage.py:100-103 | reading back the digits of `str(n)` gives n |
| Text.NatToStringInjective | gui/pages/ProjectPage.py:100-103 | distinct numbers have distinct decimal texts |
| Text.IntToString | gui/widgets/frames/JobStatusFrame.py:190-192 | `int` formatting: a negative number is a minus sign followed by digits that read back as its magnitude |
| Text.Pad2 | gui/widgets/frames/JobStatusFrame.py:188 | `:02` formatting of a number below 100: exactly two digits that read back as the number |
| JobStatus.DivMod | gui/widgets/frames/JobStatusFrame.py:184-187 | Python `divmod` on a positive divisor: quotient·divisor + remainder is the dividend, and the remainder lies in [0, divisor) |
| JobStatus.Decompose | gui/widgets/frames/JobStatusFrame.py:184-187 | the chained `divmod`s split a duration into days, hours < 24, minutes < 60, seconds < 60 and a fraction in [0,1) that add back up to the duration |
| JobStatus.FloorDivMod | gui/widgets/frames/JobStatusFrame.py:184-187 | one `divmod` by a whole number of seconds gives the integer quotient and remainder of the whole seconds |
| JobStatus.DecomposeWholeSeconds | gui/widgets/frames/JobStatusFrame.py:184-188 | the parts are n/86400, n%86400/3600, n%3600/60 and n%60 of the whole seconds n |
| JobStatus.MinutesSeconds | gui/widgets/frames/JobStatusFrame.py:188 | the `MM:SS` segment: five characters whose two fields read back as the minutes and the seconds |
| JobStatus.ExecutionTime | gui/widgets/frames/JobStatusFrame.py:182-193 | the text always holds at least the `MM:SS` segment; its exact forms are the lemmas below |
| JobStatus.UnderAnHour | gui/widgets/frames/JobStatusFrame.py:188 | under an hour the text is exactly `MM:SS` of the whole minutes and seconds |
| JobStatus.HoursForm | gui/widgets/frames/JobStatusFrame.py:188-190 | from one hour to a day the text is the hours, the literal `:02:`, then `MM:SS` |
| JobStatus.DaysForm | gui/widgets/frames/JobStatusFrame.py:189-192 | with days the text is the days, `:`, the hours, `:02:`, then `MM:SS` |
| JobStatus.EndsWithMinutesSeconds | gui/widgets/frames/JobStatusFrame.py:188-192 | every text ends with `MM:SS` reading back as n%3600/60 and n%60 |
| JobStatus.OneHourAsWritten | gui/widgets/frames/JobStatusFrame.py:190 | one hour is shown as `1:02:00:00` although the minutes are zero |
| JobStatus.ExecutionTimeIntended | gui/widgets/frames/JobStatusFrame.py:189-192 | the corrected text, with the hours zero-padded to two digits, is at least `MM:SS` long |
| JobStatus.IntendedReadsBack | gui/widgets/frames/JobStatusFrame.py:188-192 | from one hour to a day the corrected text is `HH:MM:SS`, and its fields read back as the whole seconds |
| ProjectPages.SliceEnd | gui/pages/ProjectSelectionPage.py:197 | where Python's slice `[0:e]` stops: e itself within the string, counted from the back when negative, never past the end |
| ProjectPages.Truncate | gui/pages/ProjectSelectionPage.py:189-198 | the string itself, or a prefix of it followed by `...` |
| ProjectPages.TruncateFits | gui/pages/ProjectSelectionPage.py:196-198 | a string no longer than the maximum is returned unchanged |
| ProjectPages.TruncateCuts | gui/pages/ProjectSelectionPage.py:196-197 | with a maximum of at least 3, a longer string becomes its first max−3 characters and `...`, exactly max long |
| ProjectPages.TruncateIdempotent | gui/pages/ProjectSelectionPage.py:196-198 | with a maximum of at least 3 the result fits, and truncating again changes nothing |
| ProjectPages.TruncateBelowThree | gui/pages/ProjectSelectionPage.py:196-197 | with a maximum below 3, a string that does not fit comes back longer than the maximum |
| ProjectPages.GetProjectName | gui/pages/ProjectSelectionPage.py:95-101 | "New Project" past the last project; `projects[index]` for an index in range and `projects[len + index]` for a negative one down to −len; the IndexError exactly for an index before −len |
| ProjectPages.ButtonLabels | gui/pages/ProjectSelectionPage.py:95-101 | buttons 0..len show the projects in order, then "New Project" |
| ProjectPages.ProjectName | gui/pages/ProjectPage.py:93-103 | the n-th default name is `New_project_` followed by the digits of n |
| ProjectPages.ProjectNameInjective | gui/pages/ProjectPage.py:93-103 | distinct numbers give distinct default names |
| ProjectPages.NamesFitInListing | gui/pages/ProjectPage.py:96-102 | a listing holding the first n default names has at least n entries, so the search ends |
| ProjectPages.FreshIndex | gui/pages/ProjectPage.py:93-103 | the search returns the smallest number whose default name is not listed, and it is at most the number of entries |
| ProjectPages.ProjectsDirectory.constructor | gui/pages/ProjectPage.py:89-90 | the directory holds the given entries |
| ProjectPages.ProjectsDirectory.CreateNewProject | gui/pages/ProjectPage.py:84-111 | creates a name that was not listed, the default name with the smallest free number, and adds it to the directory |
| Frames.BindAll | gui/widgets/frames/EnvironmentFrame.py:330-335 | every key of a tuple gets the tuple's action, `None` included, and the other keys keep theirs |
| Frames.PreProcess | gui/widgets/frames/EnvironmentFrame.py:322-338 | the loop builds the in-order merge of the entries, each overriding the keys it names |
| Frames.MergedKeys | gui/widgets/frames/EnvironmentFrame.py:328-338 | the map binds exactly the keys that some entry names |
| Frames.MergedLastWins | gui/widgets/frames/EnvironmentFrame.py:328-338 | a key is bound to the action of the last entry that names it |
| Frames.Basename | gui/widgets/frames/EnvironmentFrame.py:201-202 | `os.path.basename`: the suffix after the last `/`, itself free of `/` |
| Frames.CreationDecision | gui/widgets/frames/EnvironmentFrame.py:204-207 | creation is allowed exactly when the target name is free, and it removes nothing |
| Frames.UpdateDecision | gui/widgets/frames/EnvironmentFrame.py:209-219 | an update is allowed exactly when the source exists and the target is the source or free; it then removes the source, and otherwise nothing changes |
| Frames.ApprovedTargetIsFree | gui/widgets/frames/AgentFrame.py:157-172 | when the check passes, the target name is free afterwards and no name was added |
| Frames.Directory.constructor | gui/widgets/frames/EnvironmentFrame.py:205 | the directory holds the given names |
| Frames.Directory.CanUpdateBePerformed | gui/widgets/frames/EnvironmentFrame.py:191-219 | the answer and the directory afterwards are the decision on the base names of the two files (`AgentFrame.can_update_be_performed` is the same check on the agents directory) |
| Tensors.Max | agents/graph/FactorNode.py:48 | `.max()`: an upper bound of the entries that one entry attains |
| Tensors.SupNormalised | agents/graph/FactorNode.py:48-54 | a message with maximum 0 is returned unchanged; otherwise its maximum becomes 1, and scaling back by the old maximum gives the input |
| Tensors.MassNormalised | agents/inference/TemporalSlice.py:239-242 | the posterior sums to 1 and is a rescaling of the product; a product of zero mass becomes uniform |
| Tensors.ShapeAverage | agents/graph/FactorNode.py:47 | eliminating an axis removes exactly that axis from the shape |
| Tensors.StochasticAverage | agents/inference/TemporalSlice.py:332-335 | averaging a conditional distribution over a parent, with weights that sum to 1, leaves a conditional distribution |
| Tensors.AverageOneHot | agents/inference/TemporalSlice.py:303-304 | averaging over an axis with a one-hot weight selects that slice |
| Tensors.SumOneHot | agents/inference/TemporalSlice.py:304 | the one-hot action vector sums to 1 |
| FactorGraphs.IndexOf | agents/graph/FactorNode.py:36 | `list.index`: the first position of the element, or the length when it is absent |
| FactorGraphs.IndexOfDistinct | agents/graph/FactorNode.py:33-36 | in a list without repeats, `index` gives back an element's own position |
| FactorGraphs.NoneInFill | agents/inference/TemporalSlice.py:279-285 | filling one empty slot lowers `count_none_messages` by one |
| FactorGraphs.WithMessageKeeps | agents/inference/TemporalSlice.py:163 | delivering a message keeps the graph well formed and keeps every full slot full |
| FactorGraphs.EmptySlotsFill | agents/inference/TemporalSlice.py:128-133 | each delivery into an empty slot lowers the graph's number of empty slots by one |
| FactorGraphs.EliminateStep | agents/graph/FactorNode.py:33-47 | one iteration: slots are only filled, never overwritten; without defaults they are untouched; a missing message or a bad axis fails |
| FactorGraphs.EliminateFrom | agents/graph/FactorNode.py:33-47 | the iterations from the last neighbour down to a position keep the same guarantees |
| FactorGraphs.FactorOutcome | agents/graph/FactorNode.py:29-54 | the factor's message is sup-normalised; the only failures are missing parameters, a missing message, a bad axis or an empty message |
| FactorGraphs.EliminateNeighbours | agents/graph/FactorNode.py:33-47 | the loop over the neighbours, last first, computes the recursive elimination |
| FactorGraphs.StepAt | agents/graph/FactorNode.py:33-47 | the elimination loop unrolls by one neighbour |
| FactorGraphs.FailureIsFinal | agents/graph/FactorNode.py:33-47 | once a step fails, the remaining steps keep that failure |
| FactorGraphs.ProductFold | agents/graph/VariableNode.py:23-27 | the left-to-right product of the other slots, failing at an empty one |
| FactorGraphs.VariableMessage | agents/graph/VariableNode.py:16-34 | `VariableNode.compute_message`: the product sup-normalised, or an error |
| FactorGraphs.ProductFoldPresent | agents/graph/VariableNode.py:24-27 | with every other slot full, the fold is the entrywise product of their messages |
| FactorGraphs.VariableMessageProduct | agents/graph/VariableNode.py:23-34 | with every other slot full, the message is the sup-normalised entrywise product |
| FactorGraphs.VariableMessageNoInput | agents/graph/VariableNode.py:23-28 | with no other slot, `.max()` of `None` fails |
| FactorGraphs.VariableMessageGap | agents/graph/VariableNode.py:27 | an empty slot after a full one makes the product fail |
| FactorGraphs.KindFilter | agents/inference/TemporalSlice.py:149 | the factor nodes, or the variable nodes, are exactly the listed nodes of that kind |
| FactorGraphs.StateFilter | agents/inference/TemporalSlice.py:230 | the state nodes are exactly the variable nodes that are states |
| FactorGraphs.LeafFilter | agents/inference/TemporalSlice.py:124 | the leaves are exactly the listed nodes with at most one neighbour |
| FactorGraphs.FactorGraph.constructor | agents/graph/FactorNode.py:12-20 | the graph holds the given well-formed nodes |
| FactorGraphs.FactorGraph.ResetMessages | agents/inference/TemporalSlice.py:69 | every slot of every node is emptied; nothing else changes |
| FactorGraphs.FactorGraph.FactorMessage | agents/graph/FactorNode.py:22-54 | the message and the slots afterwards are the factor outcome; slots are only filled, and without defaults they are untouched |
| FactorGraphs.FactorGraph.ComputeMessage | agents/graph/VariableNode.py:16-34 | dispatches on the node's kind: the factor outcome for a factor, the variable message for a variable |
| FactorGraphs.FactorGraph.Deliver | agents/inference/TemporalSlice.py:131 | writes the message into the target's slot for the sender; nothing else changes |
| FactorGraphs.FactorGraph.SetParams | agents/inference/TemporalSlice.py:89-90 | replaces one node's parameters; nothing else changes |
| FactorGraphs.Settled | agents/graph/FactorNode.py:39-44 | writing back the slots a factor's message computation leaves keeps the graph well formed and only fills empty slots; without defaults nothing changes |
| FactorGraphs.MessageErrors | agents/graph/FactorNode.py:29-54 | a message computation never fails with the posterior pass's or the sweep's errors |
| FactorGraphs.FactorOkNonEmpty | agents/graph/FactorNode.py:48-54 | a factor message that succeeds is not empty |
| Beliefs.EliminateStochastic | agents/inference/TemporalSlice.py:332-335 | eliminating the parents of a conditional distribution with distributions leaves a distribution |
| Beliefs.ForwardPredictionStochastic | agents/inference/TemporalSlice.py:322-336 | a forward prediction through a conditional distribution, from distributions and a one-hot action, is a distribution |
| Beliefs.ForwardPredictionSelects | agents/inference/TemporalSlice.py:303-336 | under action a, the prediction equals the prediction through the table's slice at a |
| Beliefs.Accumulate | agents/inference/TemporalSlice.py:231-238 | the product of the messages in slot order, stopping at the first empty slot, with a flag saying whether all were present |
| Beliefs.Marginal | agents/inference/TemporalSlice.py:230-242 | the flag is set exactly when every slot holds a message |
| Beliefs.AccumulateProduct | agents/inference/TemporalSlice.py:232-238 | with every slot full, the accumulated value is the entrywise product of all messages |
| Beliefs.MarginalIsNormalisedProduct | agents/inference/TemporalSlice.py:231-242 | the marginal sums to 1 and rescales to the product of the messages; a product of zero mass becomes uniform |
| Beliefs.Outer | agents/inference/TemporalSlice.py:369-370 | `torch.outer(..).view(-1)`: entry i·m+j is p[i]·q[j] |
| Beliefs.SumOuter | agents/inference/TemporalSlice.py:369-370 | the flattened outer product sums to the product of the sums |
| Beliefs.JointSumsToOne | agents/inference/TemporalSlice.py:363-370 | the joint posterior of a preference's variables is a distribution |
| Beliefs.RiskEntries | agents/inference/TemporalSlice.py:375 | the entries q·(log q − log c), one per joint value |
| Beliefs.RiskOfMatch | agents/inference/TemporalSlice.py:373-376 | observations distributed exactly as preferred carry no risk |
| Beliefs.RiskTerms | agents/inference/TemporalSlice.py:346-391 | at most one risk term per preference |
| Beliefs.RiskTermsOnePerPreference | agents/inference/TemporalSlice.py:356-389 | each preference gets its own term exactly when no key is among the variables already processed |
| Beliefs.RiskTermsFresh | agents/inference/TemporalSlice.py:356-389 | without shadowing, term i is the risk of preference i |
| Beliefs.RiskTermsShadowed | agents/inference/TemporalSlice.py:358-360 | a shadowed key makes its preference be skipped, so there are fewer terms than preferences |
| Beliefs.AmbiguityTerms | agents/inference/TemporalSlice.py:393-436 | one ambiguity term per observation modality, in order |
| Beliefs.AmbiguityNonNeg | agents/inference/TemporalSlice.py:404-414 | the ambiguity, an expected entropy, is never negative |
| Beliefs.EfeWithoutRisk | agents/inference/TemporalSlice.py:338-344 | when every preference is met exactly, the expected free energy is the ambiguity alone |
| Beliefs.SingleEntry | agents/inference/TemporalSlice.py:386 | `.item()`: a value exactly when the tensor holds one entry, and then it is that entry |
| Beliefs.DrawnPreference | agents/inference/TemporalSlice.py:382 | `prior_pref.log()[i]` on the stored, unflattened table: a value only when row `i` exists and holds one entry, and then it is that entry |
| Beliefs.SampledRisk | agents/inference/TemporalSlice.py:377-386 | the sampled risk is defined iff there is at least one draw and every drawn row of the stored preference holds a single entry; otherwise the source raises (ZeroDivisionError, IndexError or `.item()`) |
| Beliefs.SampledRiskOneVariable | agents/inference/TemporalSlice.py:377-383 | for a preference over one variable, the sampled risk is the mean of `log q[i] − log c[i]` over the draws, `c` being the flattened table the analytic branch uses |
| Beliefs.SampledRiskOfMatch | agents/inference/TemporalSlice.py:377-383 | with a one-variable preference equal to the joint and at least one draw, the sampled risk is 0 |
| Beliefs.SampledRiskWideTable | agents/inference/TemporalSlice.py:382-386 | a preference over two or more variables whose second axis has two or more values makes the sampled branch fail whatever is drawn |
| Beliefs.SampledAmbiguity | agents/inference/TemporalSlice.py:416-431 | the sampled ambiguity is defined iff there is at least one draw; no draw is the ZeroDivisionError |
| Beliefs.SampledAmbiguityOfOneDraw | agents/inference/TemporalSlice.py:415-431 | repeating one draw gives that draw's surprise −log L |
| TemporalSlices.NewSlice | agents/inference/TemporalSlice.py:23-62 | a fresh slice: zero cost, one visit, no parent, no children, the given prior, posteriors of ones over every state and a posterior slot per observation |
| TemporalSlices.UctPrefersLowerCost | agents/inference/TemporalSlice.py:76-83 | between slices with equal visits, the cheaper one scores higher |
| TemporalSlices.CanComputeMessageIff | agents/inference/TemporalSlice.py:266-276 | a node can send to `dest` exactly when every other slot holds a message |
| TemporalSlices.TargetNodes | agents/inference/TemporalSlice.py:244-255 | the targets are exactly the neighbours without the node's message that it can already serve, each listed once |
| TemporalSlices.ResetClears | agents/inference/TemporalSlice.py:69 | after a reset every slot is empty |
| TemporalSlices.DeliveredAll | agents/inference/TemporalSlice.py:149-163 | once every node has sent to every neighbour, every slot is full |
| TemporalSlices.FillExtends | agents/inference/TemporalSlice.py:128-133 | filling an empty slot never overwrites a delivered message |
| TemporalSlices.MaxAbsDiff | agents/inference/TemporalSlice.py:157 | the largest absolute entry difference: non-negative, at least every entry's difference and attained by one entry |
| TemporalSlices.MaxAbsDiffBelow | agents/inference/TemporalSlice.py:150-157 | a delivery changes by less than a bound exactly when no entry moved by that bound or more; at bound 1 this is the test that ends the sweeps, so a sweep of unchanged messages into full slots ends them |
| TemporalSlices.MultiplyMessages | agents/inference/TemporalSlice.py:231-238 | the loop computes the accumulated product starting from ones |
| TemporalSlices.PosteriorsFrom | agents/inference/TemporalSlice.py:230-242 | the pass over the state nodes succeeds exactly when every visited node has all its messages |
| TemporalSlices.VisitStateNodes | agents/inference/TemporalSlice.py:230-242 | the loop over the state nodes computes that pass |
| TemporalSlices.PosteriorsFromOk | agents/inference/TemporalSlice.py:225-242 | on success each visited posterior is the normalised product of its messages, and the other posteriors are unchanged |
| TemporalSlices.PredictedStates | agents/inference/TemporalSlice.py:306-311 | one predicted posterior for every state |
| TemporalSlices.PredictedObservations | agents/inference/TemporalSlice.py:313-318 | one predicted posterior for every observation |
| TemporalSlices.PredictionsAreDistributions | agents/inference/TemporalSlice.py:306-318 | every predicted state and observation posterior sums to 1 and has its variable's size |
| TemporalSlices.WithPriors | agents/inference/TemporalSlice.py:89-90 | exactly the state nodes take their posterior as parameters |
| TemporalSlices.WithPriorsStep | agents/inference/TemporalSlice.py:89-90 | writing posteriors as priors keeps every slot and the graph's structure |
| TemporalSlices.RestartKeepsTree | agents/inference/TemporalSlice.py:64-74 | restarting the root as a parentless leaf keeps the tree's links |
| TemporalSlices.AppendKeepsTree | agents/inference/TemporalSlice.py:299-301 | appending a child leaf and listing it last keeps the tree's links |
| TemporalSlices.PredictStates | agents/inference/TemporalSlice.py:306-311 | the loop over the states computes their predicted posteriors |
| TemporalSlices.PredictObservations | agents/inference/TemporalSlice.py:313-318 | the loop over the observations computes their predicted posteriors |
| TemporalSlices.SendAll | agents/inference/TemporalSlice.py:153-163 | one node sends to each neighbour in order; slots are only filled, and each neighbour then holds its message |
| TemporalSlices.SearchTree.constructor | agents/inference/TemporalSlice.py:23-62 | a tree of one fresh slice over the graph |
| TemporalSlices.SearchTree.Reset | agents/inference/TemporalSlice.py:64-74 | every slot emptied; the root's prior, cost, visits, parent and children are those of a fresh slice; its posteriors are kept |
| TemporalSlices.SearchTree.UsePosteriorsAsEmpiricalPriors | agents/inference/TemporalSlice.py:85-90 | every state node takes the root's posterior as its parameters; nothing else changes |
| TemporalSlices.SearchTree.PStep | agents/inference/TemporalSlice.py:287-320 | appends the child reached by the action, with predicted posteriors, listed last among the parent's children |
| TemporalSlices.SearchTree.ComputePosteriors | agents/inference/TemporalSlice.py:225-242 | the root's posteriors become the normalised products, raising at the first node with an empty slot |
| TemporalSlices.SearchTree.ServeTargets | agents/inference/TemporalSlice.py:129-133 | each delivery fills an empty slot, so the empty count drops by the number of targets |
| TemporalSlices.SearchTree.PropagateBeliefs | agents/inference/TemporalSlice.py:122-133 | the queue loop ends, and it never overwrites a delivered message |
| TemporalSlices.SearchTree.SendToNeighbours | agents/inference/TemporalSlice.py:153-163 | one node's turn in a sweep: every neighbour then holds its message, full slots stay full, and the largest change it reports is non-negative |
| TemporalSlices.SearchTree.PropagateLoopy | agents/inference/TemporalSlice.py:148-163 | the sweeps never empty a slot, and once they converge every slot is full |
| TemporalSlices.SearchTree.IStepBP | agents/inference/TemporalSlice.py:112-136 | only the root's state posteriors and empty slots change, and on success each posterior is the normalised product of its node's messages |
| TemporalSlices.SearchTree.IStepLBP | agents/inference/TemporalSlice.py:138-166 | after converged sweeps every slot is full, so the posterior pass cannot fail and each posterior is the normalised product of its node's messages |
| TemporalSlices.SearchTree.IStep | agents/inference/TemporalSlice.py:92-110 | a runtime error empties the slots and falls back to loopy propagation once; other errors escape |
| Planning.FirstMax | agents/planning/MCTS.py:24 | Python `max`: the first index of a largest entry |
| Planning.FirstMin | agents/planning/MCTS.py:62 | Python `min`: the first index of a smallest entry |
| Planning.ChildScores | agents/planning/MCTS.py:24 | the UCT criterion of each child, with its parent's visit count |
| Planning.BestChild | agents/planning/MCTS.py:24 | a child of the slice whose criterion no sibling exceeds |
| Planning.GreedyWithoutExploration | agents/planning/MCTS.py:17-25 | at exploration 0 `select_node` moves to a child of least average cost, every earlier child costing strictly more |
| Planning.Descend | agents/planning/MCTS.py:17-25 | moving to the best child until none is left reaches a leaf |
| Planning.Chain | agents/planning/MCTS.py:64-68 | the ancestors along the parent links, nearest first, each stored before the one below it |
| Planning.DescendUnder | agents/planning/MCTS.py:22-25 | the leaf reached lies under the slice it started from |
| Planning.ChildIsFreshLeaf | agents/inference/TemporalSlice.py:294-301 | a new child records its action and parent, costs nothing yet, is a leaf and was visited once |
| Planning.NodeEfes | agents/planning/MCTS.py:62 | the expected free energy of each listed slice |
| Planning.Cheapest | agents/planning/MCTS.py:62 | the first listed slice of least expected free energy |
| Planning.BackupEffect | agents/planning/MCTS.py:63-68 | each ancestor gains exactly one visit and the cost backed up; every other slice is untouched |
| Planning.BackupKeepsTree | agents/planning/MCTS.py:63-68 | back-up keeps the tree's links and every slice's fit to the model |
| Planning.SiblingsUntouched | agents/planning/MCTS.py:62-68 | the slice backed up from and its siblings are not among its ancestors |
| Planning.ChainLink | agents/planning/MCTS.py:64-68 | each ancestor links to the next, and the last has no parent |
| Planning.EvaluatedKeepsTree | agents/planning/MCTS.py:43-44 | evaluation keeps the tree's links and every slice's fit to the model |
| Planning.EvaluatedKeepsShape | agents/planning/MCTS.py:43-44 | evaluation changes costs only |
| Planning.BackupKeepsShape | agents/planning/MCTS.py:63-68 | back-up changes only costs and visits |
| Planning.ExpandedBranching | agents/planning/MCTS.py:28-36 | expanding a leaf gives it one child per action, in action order, and every slice stays a leaf or fully expanded |
| Planning.Mcts.constructor | agents/planning/MCTS.py:6-13 | the planner keeps its exploration constant |
| Planning.Mcts.SelectNode | agents/planning/MCTS.py:17-25 | the loop reaches the leaf found by always taking the best child |
| Planning.SliceEfe | agents/inference/TemporalSlice.py:338-344 | `node.efe(-1)` of a slice; when every preference is met exactly by its predicted joint and no key is shadowed, it is the sum of the ambiguity terms alone |
| Planning.Evaluated | agents/planning/MCTS.py:43-44 | the tree after evaluation: same length, only costs change, each listed slice's cost is its expected free energy, and every unlisted slice is unchanged |
| Planning.Backup | agents/planning/MCTS.py:63-68 | the tree after back-up keeps its number of slices (the effect on each slice is stated by Planning.BackupEffect) |
| Planning.Mcts.Expansion | agents/planning/MCTS.py:27-36 | one child per action, in action order, appended after the old slices and listed as the node's new children; the old slices are otherwise unchanged, and branching and action order are kept |
| Planning.Mcts.Evaluation | agents/planning/MCTS.py:38-44 | the new slices are `Evaluated` of the old ones: each listed slice's cost becomes its expected free energy and nothing else changes |
| Planning.Mcts.Propagation | agents/planning/MCTS.py:57-68 | succeeds iff some slice is listed (`min` of an empty list raises, and then nothing changes); the new slices are `Backup` along `Chain` from the parent of the cheapest listed slice, with that slice's stored cost |
| Planning.Mcts.BackUpFrom | agents/planning/MCTS.py:63-68 | the parent walk from `start` gives `Backup` along `Chain(start)`: each ancestor gains the cost and one visit |
| Planning.Mcts.BackUpAlong | agents/planning/MCTS.py:64-68 | the `while current is not None` loop along a chain of distinct linked slices gives `Backup` along that chain |
| Agents.NoisyIdentity | agents/impl/BTAI_3MF.py:36-41 | a table with `1 − noise` on the diagonal and `noise/(n−1)` elsewhere |
| Agents.NoisyIdentityColumns | agents/impl/BTAI_3MF.py:36-41 | every column of a noisy identity sums to 1 |
| Agents.Likelihoods | agents/impl/BTAI_3MF.py:28-42 | `a()`: one noisy identity per modality, keyed by name, the later table winning on a repeated name |
| Agents.Uniform | agents/impl/BTAI_3MF.py:121 | a uniform vector that sums to 1 |
| Agents.Peaked | agents/impl/BTAI_3MF.py:102-104 | the peak at its index and the rest shared evenly, summing to 1 with at least two entries |
| Agents.YPreference | agents/impl/BTAI_3MF.py:101-105 | 0.4 on the bottom row and the rest shared evenly; an empty preference raises |
| Agents.StatePrior | agents/impl/BTAI_3MF.py:119-126 | uniform, or `1 − noise` on the true value; a true value out of range raises |
| Agents.Priors | agents/impl/BTAI_3MF.py:109-127 | `d()`: one prior per hidden state but the first, failing exactly when a true value is out of range |
| Agents.RestartKeepsOrder | agents/impl/BTAI_3MF.py:159 | restarting the current slice keeps branching and action order |
| Agents.PosteriorChangeKeepsShape | agents/impl/BTAI_3MF.py:160 | changing posteriors keeps the tree's shape |
| Agents.DeeperRootKeepsTree | agents/impl/BTAI_3MF.py:167 | moving the root down to a child keeps the tree's links |
| Agents.FirstWithAction | agents/impl/BTAI_3MF.py:167 | `next(filter(..))`: the first child reached by the action |
| Agents.Visits | agents/impl/BTAI_3MF.py:166 | the visit count of each child |
| Agents.Agent.constructor | agents/impl/BTAI_3MF.py:12-26 | the agent keeps its tree, exploration constant and planning budget |
| Agents.Agent.PlanningCycle | agents/impl/BTAI_3MF.py:161-165 | one iteration succeeds exactly when there are actions; the root then gains one visit and is fully expanded |
| Agents.Agent.Step | agents/impl/BTAI_3MF.py:152-169 | the chosen action is the most visited child's (first on ties); the root was visited budget+1 times; the child's posteriors become the priors; no choice is possible without budget or actions |
| Agents.Agent.Restart | agents/impl/BTAI_3MF.py:159-160 | the current slice becomes a fresh leaf, and only non-runtime errors escape inference |
| Agents.Agent.Plan | agents/impl/BTAI_3MF.py:161-165 | the loop succeeds exactly when the budget is 0 or there are actions, leaving the root with budget+1 visits |
| Agents.Agent.Choose | agents/impl/BTAI_3MF.py:166-169 | the most visited child becomes the current slice and its posteriors the priors |
| Agents.Agent.Grow | agents/impl/BTAI_3MF.py:163-164 | expansion then evaluation appends one child per action to the leaf, keeping every stored link |
| Agents.ExpandedLinks | agents/planning/MCTS.py:33-36 | expansion keeps the stored slices' links and links the new ones to the leaf |
| Agents.CycleEffect | agents/impl/BTAI_3MF.py:162-165 | one iteration gives the root exactly one visit and keeps it fully expanded |
| MiniSprites.Clamp | environments/impl/MiniSpritesEnvironment.py:239-253 | a value brought into [0, hi], unchanged inside it |
| MiniSprites.Clamped | environments/impl/MiniSpritesEnvironment.py:239-253 | the position is brought into the grid, unchanged inside it; nothing else changes |
| MiniSprites.ClampedIdempotent | environments/impl/MiniSpritesEnvironment.py:239-253 | clamping twice is clamping once |
| MiniSprites.HardRewardBounds | environments/impl/MiniSpritesEnvironment.py:205-237 | the reward lies in [−1, 1] and is positive exactly on the half its colour names |
| MiniSprites.DownEndsTrial | environments/impl/MiniSpritesEnvironment.py:129-145 | `down` ends the trial exactly on leaving the bottom, with the hard reward |
| MiniSprites.OtherActionsContinue | environments/impl/MiniSpritesEnvironment.py:147-200 | the other actions never end a trial, and below the grid `left` and `right` change nothing |
| MiniSprites.StepOutcome | environments/impl/MiniSpritesEnvironment.py:101-124 | one frame per step; an invalid action exits; the trial ends on the action's end or on the frame budget with −1 |
| MiniSprites.StepRewardBounded | environments/impl/MiniSpritesEnvironment.py:101-124 | every reported reward lies in [−1, 1] |
| MiniSprites.ActPositionIgnoresCounters | environments/impl/MiniSpritesEnvironment.py:129-200 | an action's move does not depend on the frame counter or the last reward |
| MiniSprites.StepPositionIgnoresCounters | environments/impl/MiniSpritesEnvironment.py:101-124 | a step's move does not depend on the frame counter or the last reward |
| MiniSprites.FrameLightsOnePixel | environments/impl/MiniSpritesEnvironment.py:86-99 | a frame lights exactly one pixel, at 255: the clamped position on the colour's channel |
| MiniSprites.Environment.constructor | environments/impl/MiniSpritesEnvironment.py:17-47 | the configuration, then a reset to the drawn position and colour |
| MiniSprites.Environment.Reset | environments/impl/MiniSpritesEnvironment.py:66-76 | counters cleared, the drawn position and colour, and the first frame |
| MiniSprites.Environment.EnsurePositionIsValid | environments/impl/MiniSpritesEnvironment.py:239-253 | the position is clamped into the grid |
| MiniSprites.Environment.CurrentFrame | environments/impl/MiniSpritesEnvironment.py:86-99 | clamps, then returns the frame of the position |
| MiniSprites.Environment.ComputeHardReward | environments/impl/MiniSpritesEnvironment.py:225-237 | clamps, then returns the reward of the colour's side |
| MiniSprites.Environment.Down | environments/impl/MiniSpritesEnvironment.py:129-145 | the state and trial end of `down` |
| MiniSprites.Environment.Up | environments/impl/MiniSpritesEnvironment.py:147-158 | the state of `up` |
| MiniSprites.Environment.Right | environments/impl/MiniSpritesEnvironment.py:160-175 | the state of `right` |
| MiniSprites.Environment.Left | environments/impl/MiniSpritesEnvironment.py:177-193 | the state of `left` |
| MiniSprites.Environment.Step | environments/impl/MiniSpritesEnvironment.py:101-124 | the state and outcome of a step, with the frame of the new position |
| Sprites.ToMultiIndex | environments/impl/SpritesEnvironment.py:120-133 | one digit per base; the digits weighted by the bases give the index back when the last base is 1 |
| Sprites.Clamp | environments/impl/SpritesEnvironment.py:368-382 | a coordinate brought into [0, 31], unchanged inside it |
| Sprites.Clamped | environments/impl/SpritesEnvironment.py:368-382 | column and row brought into the grid; nothing else changes |
| Sprites.SideRewardBounds | environments/impl/SpritesEnvironment.py:307-325 | on the grid the side rewards lie in [−1, 1], the left one positive exactly on columns 0..15 and the right one on 16..31 |
| Sprites.EasyRewardBounds | environments/impl/SpritesEnvironment.py:355-366 | the easy reward lies in [−1, 1] and is 1, ending the trial, exactly on the target corner |
| Sprites.Once | environments/impl/SpritesEnvironment.py:173-178 | one repetition keeps a well-formed latent state |
| Sprites.Repeat | environments/impl/SpritesEnvironment.py:172-182 | the repetitions keep a well-formed latent state |
| Sprites.Run | environments/impl/SpritesEnvironment.py:164-182 | a step's action phase keeps a well-formed latent state |
| Sprites.DownKeepsOffset | environments/impl/SpritesEnvironment.py:211-234 | `down` keeps the image index on the clamped position |
| Sprites.UpKeepsOffset | environments/impl/SpritesEnvironment.py:236-254 | `up` keeps the image index on the clamped position |
| Sprites.RightKeepsOffset | environments/impl/SpritesEnvironment.py:256-275 | `right` keeps the image index on the clamped position |
| Sprites.LeftKeepsOffset | environments/impl/SpritesEnvironment.py:277-294 | `left` keeps the image index on the clamped position |
| Sprites.ActKeepsOffset | environments/impl/SpritesEnvironment.py:167-175 | every action keeps the image index on the clamped position and the frame counter |
| Sprites.OnceKeepsOffset | environments/impl/SpritesEnvironment.py:173-177 | one repetition keeps them too |
| Sprites.RepeatKeepsOffset | environments/impl/SpritesEnvironment.py:172-182 | so do the repetitions |
| Sprites.StepProperties | environments/impl/SpritesEnvironment.py:157-191 | one frame per step, the image index kept on the position, an exit exactly on a running invalid action, −1 on an exhausted budget |
| Sprites.RowMoves | environments/impl/SpritesEnvironment.py:211-254 | `down`/`up` move the row by one after clamping, and the index follows only on the grid |
| Sprites.ColumnMoves | environments/impl/SpritesEnvironment.py:256-294 | `right`/`left` move the column by one after clamping, and the index moves by 32 only on the grid |
| Sprites.EasyEpistemicCrossing | environments/impl/SpritesEnvironment.py:256-294 | crossing an edge in the easy epistemic task gives +1 on the rewarded side and −1 on the other; nothing else ends such a trial |
| Sprites.HardRewardsBounded | environments/impl/SpritesEnvironment.py:327-353 | every hard reward lies in [−1, 1] |
| Sprites.Environment.constructor | environments/impl/SpritesEnvironment.py:50-65 | the configuration, then a reset to the drawn image |
| Sprites.Environment.Reset | environments/impl/SpritesEnvironment.py:143-155 | a copy of the drawn latent state, counters cleared, hint hidden |
| Sprites.Environment.EnsurePositionIsValid | environments/impl/SpritesEnvironment.py:368-382 | the position is clamped into the grid |
| Sprites.Environment.ComputeHardReward | environments/impl/SpritesEnvironment.py:341-353 | clamps, then the reward of the shape's side |
| Sprites.Environment.ComputeHardRewardEpistemic | environments/impl/SpritesEnvironment.py:327-339 | clamps, then the reward of the drawn side |
| Sprites.Environment.ComputeEasyReward | environments/impl/SpritesEnvironment.py:355-366 | clamps, then the distance reward to the target corner |
| Sprites.Environment.Down | environments/impl/SpritesEnvironment.py:211-234 | the state and trial end of `down` |
| Sprites.Environment.Up | environments/impl/SpritesEnvironment.py:236-254 | the state of `up` |
| Sprites.Environment.Right | environments/impl/SpritesEnvironment.py:256-275 | the state and trial end of `right` |
| Sprites.Environment.Left | environments/impl/SpritesEnvironment.py:277-294 | the state and trial end of `left` |
| Sprites.Environment.RunOnce | environments/impl/SpritesEnvironment.py:173-177 | one repetition's state and trial end |
| Sprites.Environment.Repetitions | environments/impl/SpritesEnvironment.py:172-182 | the repetition loop stops at an exit or at the first end of trial |
| Sprites.Environment.Step | environments/impl/SpritesEnvironment.py:157-191 | the state and outcome of a step |
| EpistemicValues.BayesColumns | test/epistemic_value_computation.py:42-43 | each column of a posterior sums to 1 |
| EpistemicValues.JointByState | test/epistemic_value_computation.py:40-42 | entry (j, k) is likelihood[k][j] · prior[j] |
| EpistemicValues.NormaliseColumns | test/epistemic_value_computation.py:43 | each entry becomes Bayes' posterior |
| EpistemicValues.Posterior | test/epistemic_value_computation.py:37-43 | the posterior of one likelihood is Bayes' rule |
| EpistemicValues.ComputePosteriors | test/epistemic_value_computation.py:35-45 | every posterior entry is Bayes' posterior |
| EpistemicValues.JointByOutcome | test/epistemic_value_computation.py:53-56 | entry (j, k) is likelihood[j][k] · q[k] |
| EpistemicValues.LogRatios | test/epistemic_value_computation.py:59-64 | entry (j, k) is log posterior[k][j] − log q[k] |
| EpistemicValues.EpistemicValueOf | test/epistemic_value_computation.py:50-67 | one epistemic value: the expected log ratio |
| EpistemicValues.ComputeEpistemicValues | test/epistemic_value_computation.py:48-70 | each value is the epistemic value of its likelihood |
| EpistemicValues.NoChangeNoValue | test/epistemic_value_computation.py:59-67 | a posterior equal to the prior carries no epistemic value |
| EpistemicValues.UninformativeLikelihood | test/epistemic_value_computation.py:42-43 | a likelihood that ignores the state leaves the posterior equal to the prior |
| EpistemicValues.UninformativeHasNoValue | test/epistemic_value_computation.py:48-70 | so an uninformative likelihood has no epistemic value |
| EfeMatrices.PixelName | test/efe_computation.py:22 | `O_{x}_{y}`: the two coordinates' digits around an underscore |
| EfeMatrices.PixelNameInjective | test/efe_computation.py:22 | distinct pixels have distinct names |
| EfeMatrices.ALikelihoodColumn | test/efe_computation.py:13-21 | every likelihood column sums to 1, and for small noise its strict maximum is the expected channel |
| EfeMatrices.FillCell | test/efe_computation.py:17-21 | one cell gets its final entries; no other cell changes |
| EfeMatrices.PixelLikelihood | test/efe_computation.py:13-21 | the table of one pixel holds its entries |
| EfeMatrices.AddColumn | test/efe_computation.py:12-22 | one pass of the outer loop: every pixel of the column gets its likelihood under its name, and earlier entries are kept |
| EfeMatrices.AMatrix | test/efe_computation.py:9-23 | `a_matrix`: keys are exactly pixel names, each holding that pixel's likelihood |
| EfeMatrices.DestInRange | test/efe_computation.py:40-43 | the destination lies in the grid |
| EfeMatrices.DestMovesOneCell | environments/impl/MiniSpritesEnvironment.py:129-193 | from a fresh position inside the grid, the moving coordinate goes one cell in the action's direction, stopping at the edges: the table `b_matrix` evidently intends |
| EfeMatrices.BColumnSumsToOne | test/efe_computation.py:35-44 | each transition column sums to 1 |
| EfeMatrices.StepFrom | test/efe_computation.py:40-43 | stepping from a position freshly set to value `j` lands on the intended destination, or exits on an action past 4 |
| EfeMatrices.TransitionIntended | test/efe_computation.py:34-45 | the table with every action taken from value `j`, whose columns move one cell (DestMovesOneCell); None on the ZeroDivisionError of a single-value state or the exit of a sixth action |
| EfeMatrices.BMatrixIntended | test/efe_computation.py:26-46 | `b_matrix` built from the intended tables, or None on the same failures |
| EfeMatrices.DestFromInRange | test/efe_computation.py:41-43 | from any position, the landing coordinate lies in the grid |
| EfeMatrices.ViewWrites | environments/impl/MiniSpritesEnvironment.py:129-193 | what an action writes through the views of `cur_state`: the `+=`/`-=` of the moved coordinate only, none after a clamp that rebinds it, nothing on idle or exit |
| EfeMatrices.AliasedDestTable | test/efe_computation.py:37-43 | the tables as written: column state down/up stay, left moves one column (on a grid of two rows or more), right stays except from column 0; row state down moves one row, up stays except from the last row, the rest stay |
| EfeMatrices.AliasedColumnsStay | test/efe_computation.py:40 | from an inner row the written up column stays on the row the sprite leaves, and from an inner column the right column stays on the column the sprite leaves |
| EfeMatrices.StepThroughViews | test/efe_computation.py:40-43 | one visit as written: the landing coordinate from where `cur_state` stands, or the exit, and `cur_state` after the step's writes |
| EfeMatrices.FillAliasedColumn | test/efe_computation.py:37-44 | the inner loop for value `j`: column `j` becomes the as-written entries, other columns untouched; false on the exit of an action past 4 |
| EfeMatrices.Transition | test/efe_computation.py:34-45 | the table of a moving state as written, with the actions chained through `cur_state`; None on the ZeroDivisionError of a single-value state or the exit of a sixth action |
| EfeMatrices.BMatrix | test/efe_computation.py:26-46 | `b_matrix` as written: the colour's noisy identity and the two chained tables, or None on the same failures |
| EfeMatrices.Preference | test/efe_computation.py:50-53 | `1 − noise` on the preferred channel and `noise/3` on the others |
| EfeMatrices.CMatrix | test/efe_computation.py:49-54 | `c_matrix` as written: left prefers channel 0, right channel 1, each summing to 1 − noise/3 |
| EfeMatrices.TrueState | environments/impl/MiniSpritesEnvironment.py:59-64 | `get_state`: three coordinates |
| EfeMatrices.WrapIndex | test/efe_computation.py:66 | Python indexing: a negative index counts from the back, out of range is the IndexError |
| EfeMatrices.PriorForSumsToOne | test/efe_computation.py:62-66 | every prior that can be built sums to 1 |
| EfeMatrices.StatePrior | test/efe_computation.py:61-68 | one prior, or None when it cannot be built |
| EfeMatrices.DMatrix | test/efe_computation.py:57-69 | `d_matrix`: keys S_x, S_y, S_color with their priors; None exactly when one cannot be built |
| EfeMatrices.Observation | test/efe_computation.py:97-99 | three channels |
| EfeMatrices.PreProcess | test/efe_computation.py:93-100 | every pixel's observation, keyed by its name and nothing else |
| EfeMatrices.PixelObservation | test/efe_computation.py:97-99 | the pixel scaled by 1/255, with channel 2 set when it is black |
| EfeMatrices.RowMajorNamesDiffer | test/efe_computation.py:95-97 | the pixels visited earlier have other names |
| EfeMatrices.FrameObservationOneHot | test/efe_computation.py:97-99 | a frame's pixels pre-process to one-hot observations on the channel shown |
| EfeMatrices.LikelihoodMatchesFrame | test/efe_computation.py:13-21 | the likelihood's likely channel is the one the pre-processed frame shows |
| EfeMatrices.ExitRewardOfSide | environments/impl/MiniSpritesEnvironment.py:129-145 | leaving the bottom earns the reward of the colour's side |
| EfeMatrices.LeftCornerRewards | environments/impl/MiniSpritesEnvironment.py:205-213 | leaving from the bottom-left earns 1 with the reward on the left and −1 on the right |
| EfeMatrices.RightCornerRewards | environments/impl/MiniSpritesEnvironment.py:215-223 | leaving from the bottom-right earns 1 with the reward on the right and −1 on the left |
| EfeMatrices.PreferredLeftCornerLoses | test/efe_computation.py:52 | the bottom-left's preferred channel is the one shown when the reward is on the right, where leaving earns −1 |
| EfeMatrices.CMatrixIntended | test/efe_computation.py:49-54 | each corner prefers the channel of the colour rewarded on its side |
| EfeMatrices.IntendedCornersWin | test/efe_computation.py:88-89 | with those preferences a corner shows its preferred channel exactly when leaving there earns 1 |

## Left out

- Printing, `exit` messages, logging, pygame/tkinter widgets and gym registration are not modelled: they are I/O.
- Random draws (`random.choices`, `np.random`, the initial colour and position) are parameters of the model.
- Floating point is modelled by reals. Infinities and NaN cannot arise in the model, so the `exit(42)` NaN check of `i_step_lbp` is a branch that cannot happen.
- `log` and `sqrt` are uninterpreted parameters, so numeric values of risk, ambiguity or UCT are not computed.
- TemporalSlices.SearchTree.PropagateLoopy: the sweeps run under a fuel bound, because the source loop has no termination argument. Running out of fuel is reported as an error.
- `set_evidence` at the start of both I-steps is not modelled: the FactorGraph class that defines it is not part of this model.
- `i_step_backpropagation` and `create_encoder` are not modelled: they train a neural network.
- Agents.Step, Planning.Mcts.Evaluation, Planning.Mcts.Propagation: MCTS uses the analytic expected free energy (`efe(-1)`), not `efe(self.n_samples)` (MCTS.py:44 and :62). With sampling, the source draws a fresh estimate as `min`'s key at :62, separate from the cost stored at :44; the model uses one value for both. The sampled estimators are modelled as functions of given draws (`Beliefs.SampledRisk`, `Beliefs.SampledAmbiguity`).
- Beliefs.Item: `.item()` in the analytic ambiguity is not guarded. On a tensor with several entries, where torch raises, it gives the first entry, and on an empty one 0.0.
- Beliefs.SampledRisk: the draws are parameters, and every failure of the sampled branch (no draw; a drawn row past the first axis or with several entries, which `BTAI_3MF.c()`'s three-axis position/shape table always gives) is one `None`, without distinguishing ZeroDivisionError, IndexError and the error of `.item()`.
- The debug EFE recomputations and prints in `MCTS.evaluation` (MCTS.py:45-55) are left out.
- `BTAI_3MF.b()` and `create_temporal_slide` are not modelled: they step a simulator copy of the environment and call `TemporalSliceBuilder`, which is not part of this model.
- The test script's `create_temporal_slide` and `run` are not modelled, for the same reason.
- Operators.average is not part of this model; it is modelled by `Tensors.Average` as the weighted sum over one axis.
- `save`, `learn` and `load_sprites_dataset` of the agent and the dSprites environment are left out (files, downloads, datasets).
- Sprites.Environment.Step: `current_frame` reads an image from the dataset, so the model returns the outcome without the image.
- Frames.Directory.CanUpdateBePerformed: `os.listdir` and `os.remove` are modelled as a set of names.
- ProjectPages.ProjectsDirectory.CreateNewProject: the `agents` and `environments` sub-directories are not tracked.
- EfeMatrices.Transition: the environment's last reward after the loops is not stated.
- Tensors.MulVec: the product of two messages of different lengths is truncated to the shorter one. Torch broadcasts a length-1 operand and raises a RuntimeError on any other mismatch; neither is modelled.
- FactorGraphs.ProductFold: multiplies with `Tensors.MulVec`, so messages of different lengths are truncated instead of broadcast or refused. ProductFoldPresent and VariableMessageProduct require one common length, where nothing is truncated.
- FactorGraphs.VariableMessage: inherits the truncation of ProductFold.
- Beliefs.Accumulate: multiplies with `Tensors.MulVec` and so truncates messages of different lengths. AccumulateProduct requires one common length.
- Beliefs.Marginal: inherits the truncation of Accumulate. MarginalIsNormalisedProduct requires one common length.
- TemporalSlices.MultiplyMessages: the loop form of Accumulate, with the same truncation.
- Beliefs.RiskEntries: a posterior and a preference of different lengths are compared on their common prefix, where torch broadcasts a length-1 operand or raises.
- Beliefs.Risk: inherits the common-prefix comparison of RiskEntries.
- TemporalSlices.MaxAbsDiff: messages of different lengths are compared on their common prefix, where numpy broadcasts or raises; on an empty message it returns 0.0, where numpy's `.max()` of an empty array raises ValueError (TemporalSlice.py:157).
- EfeMatrices.PreProcess: the image must have 3 channels, as every frame of the environment does.
- EpistemicValues.ComputePosteriors: torch's division by a zero evidence does not raise but gives NaN entries for that column; the model's `requires` excludes such a column instead of modelling NaN.
- Beliefs.AmbiguityTerms and Beliefs.RiskTerms state the number of terms. Their values are given by `Beliefs.Ambiguity` and `Beliefs.Risk`, with the properties stated in the lemmas above.
- The colour of the a_matrix likelihoods follows the channel convention of the frame (`Channel`), which differs from `get_state`'s `int(reward_on_the_right)`. LikelihoodMatchesFrame states the agreement for the channel convention.

## Findings

| source | as written | input that shows it | evidently intended | confidence | as-written member | corrected member |
|---|---|---|---|---|---|---|
| gui/widgets/frames/JobStatusFrame.py:190 | the hours are followed by the literal text `:02:` instead of a zero-padded hours field | a duration of 3600 s is shown as `1:02:00:00` | `f"{hours:02}:"`, giving `01:00:00` | high, not executed | JobStatus.OneHourAsWritten | JobStatus.IntendedReadsBack |
| test/efe_computation.py:40 | `env.x` and `env.y` are bound to views of `cur_state`, so the environment's `+= 1.0`/`-= 1.0` write into `cur_state` and each action of value `j` starts where the previous one left it | width = height = 5, S_y, j = 1, action 1 (up): down first moved `cur_state` to row 2, so row 1 gets `1 − noise` where the sprite moves to row 0; likewise S_x, j = 1, action 3 (right) gets column 1 instead of 2 | every action taken from value `j`, e.g. by binding plain numbers (`cur_state[0].item()`) | high, not executed | EfeMatrices.AliasedColumnsStay | EfeMatrices.TransitionIntended |
| test/efe_computation.py:52-53 | the bottom-left pixel prefers channel 0, the channel a sprite shows when the reward is on the right | reward on the right, sprite at (0, height−1): the preferred observation, yet leaving earns −1 | bottom-left prefers the channel of the left-rewarded colour (1), bottom-right channel 0 | medium, not executed | EfeMatrices.PreferredLeftCornerLoses | EfeMatrices.IntendedCornersWin |
