# Models of the mcpproxy-go benchmark, roadmap and tray logic

This project models the parts of mcpproxy-go that decide something, and proves
what they promise for all inputs, all runs and all interleavings:

- **Roadmap** (`RoadmapCycles`, `RoadmapText`, `RoadmapSweep`): the three-colour
  search for dependency cycles, and the sweep that moves shipped epics from the
  roadmap into the archive by cutting, pruning, stamping and appending text. A
  file is a sequence of lines, each an epic start, a banner, a blank or other
  text. A run is any sequence of sweeps, each of which may crash before, between
  or after its writes.
- **Response cost** (`ResponseSpans`, `TokenAttribution`, `Percentiles`): the
  walk that partitions a response into labelled byte spans, the pass that
  attributes tokens to the spans, and nearest-rank percentiles. The JSON decoder
  is a stream of tokens with increasing end offsets; the tokenizer is any list
  of pieces.
- **Retrieval metrics** (`RetrievalMetrics`): recall, reciprocal rank, average
  precision, nDCG and their means. Numbers are reals, and the logarithmic
  discount is any positive, strictly decreasing function.
- **Encodings**: canonical JSON (`JsonText`, `CanonicalJson`), shell quoting
  (`ShellCommand`), class dedup (`TronDedup`), the split of compiled text
  (`TscgSplit`), compact signatures (`CompactSignature`) and the scanner for
  Swift calls (`SwiftScanner`).
- **Benchmark loading** (`ToolRetCorpus`) with the library sort by its contract
  (`Sorting`), and the **shutdown protocol** of the tray (`TrayShutdown`).

Loops and updates in place are methods and classes that are proved equal to a
specification function; the lemmas state what the specification means. `Strings`
holds what the modules share.

Where the code and its own comments disagree, the code is modelled:

- `find_cycles` (scripts/gen-roadmap.py:244) says it reports every cycle. It
  reports at least one step of each (`RoadmapCycles.ReportsHitEveryCycle`). One
  search reports a cycle exactly when it entered nodes by all its steps but one
  (`RoadmapCycles.ReportedExactlyWhen`). Every cycle is reported for every order
  of the keys exactly when different cycles share no step
  (`RoadmapCycles.EveryCycleIsReportedExactlyWhen`). If loops share a step to an
  epic, some order of the epics hides one
  (`RoadmapCycles.ReorderedRoadmapHidesALoop`).
- The sweep (scripts/gen-roadmap.py:1293-1295) calls a re-run after a crash a
  no-op for the duplicated epics. It refuses the whole sweep; a sweep that is
  ready otherwise moves exactly when no choice is archived already
  (`RoadmapSweep.SweepMovesExactlyWhen`). Nor does a sweep ever move the last
  epics under a bare key (`RoadmapSweep.SweepNeverEmptiesTheRoadmap`).
- `ScoreRetrieval` (bench/metrics.go:210-212) adds to one map entry once per
  requested cutoff, so a cutoff requested twice is reported at twice its mean,
  which differs from the mean for some golden set exactly when the cutoff is
  positive (`RetrievalMetrics.ReportedRecallIsTheMean`). `NDCGAtK` can exceed 1
  exactly for rankings that repeat an id among the first k
  (`RetrievalMetrics.NdcgIsBoundedExactlyWithoutRepeats`).
- The split of compiled text (bench/arms/tscg.go:275-278) promises that the
  fields reconstruct the text exactly. They do exactly when some body line is
  not indented (`TscgSplit.LosslessExactlyWhen`), and a name that holds the
  closure marker can make the slice expression panic
  (`TscgSplit.PanicsExactlyForSuchNames`).

To check everything: `dafny verify dfyconfig.toml`.

## Model

| member | source | states |
|---|---|---|
| RoadmapCycles.FindCycles | scripts/gen-roadmap.py:243-277 | the report is empty exactly when no dependency loop exists; each report is a simple loop, no two reports are one loop started at different items, every loop contains the closing step of a report, where no two simple loops share a step all are reported, and of loops that share a step to the first epic at most one is |
| RoadmapCycles.EmptyReportMeansAcyclic | scripts/gen-roadmap.py:243-277 | the search reports nothing exactly for acyclic graphs |
| RoadmapCycles.ReportsAreCycles | scripts/gen-roadmap.py:264-270 | every report is a closed walk along edges with distinct nodes except the repeated end point, and reports are pairwise different |
| RoadmapCycles.ReportsHitEveryCycle | scripts/gen-roadmap.py:257-277 | finds, for any closed walk of the graph, a step of it that closes a reported cycle |
| RoadmapCycles.SomeStepIsReported | scripts/gen-roadmap.py:261-272 | nodes finish after all their dependents unless the step was reported, so no closed walk escapes |
| RoadmapCycles.EveryCycleIsReportedExactlyWhen | scripts/gen-roadmap.py:243-277 | every simple cycle is reported up to rotation, for every order of the keys, exactly when simple cycles that share a step are the same up to rotation |
| RoadmapCycles.ReportedExactlyWhen | scripts/gen-roadmap.py:257-277 | one search reports a simple cycle exactly when it entered nodes by all steps of the cycle but one |
| RoadmapCycles.SeparateCyclesAreReported | scripts/gen-roadmap.py:257-277 | in such a graph every key order reports every simple cycle |
| RoadmapCycles.SharedStepHidesACycle | scripts/gen-roadmap.py:261-276 | if two simple cycles share a step, the search whose first key is the target of that step reports both only if they are one cycle |
| RoadmapCycles.FirstEpicHidesLoops | scripts/gen-roadmap.py:247-276 | the first epic is the first key, so of loops that share a step to it at most one is reported |
| RoadmapCycles.ReorderedRoadmapHidesALoop | scripts/gen-roadmap.py:243-277 | if two loops share a step to an epic, the roadmap with that epic moved to the top has the same loops and reports at most one of the two |
| RoadmapCycles.MovingKeepsLoops | scripts/gen-roadmap.py:206-213 | moving an epic to the top of the file changes no dependency and no loop |
| RoadmapCycles.NoCycleIsReportedTwice | scripts/gen-roadmap.py:266-268 | no two reports are rotations of one another, which the guard alone does not give |
| RoadmapCycles.OnlyOneReportTakesTheStep | scripts/gen-roadmap.py:265-268 | the closing step of a report lies on no other report |
| RoadmapCycles.WalkKeepsPaths | scripts/gen-roadmap.py:261-272 | each node is entered once, with the stack as its path, and every report is the end of such a path |
| RoadmapCycles.NotEveryCycleIsReported | scripts/gen-roadmap.py:244 | the comment that every cycle is reported is false: a graph with two cycles of which one is reported |
| RoadmapCycles.WalkKeepsSound | scripts/gen-roadmap.py:261-272 | what one call of `walk` keeps: the stack is a path of grey nodes, reports are cycles, finished nodes are settled, and its node ends up finished |
| RoadmapCycles.FromRootsIsSound | scripts/gen-roadmap.py:274-276 | after the first k roots the stack is empty and those roots are finished |
| RoadmapCycles.BuildGraph | scripts/gen-roadmap.py:247-255 | the adjacency dictionary has an edge from a dependency to an item exactly when the item lists it |
| RoadmapCycles.DeclareIds | scripts/gen-roadmap.py:206-213 | the dictionary starts with exactly the epic and task ids as keys and no edges |
| RoadmapCycles.DeclareTasks | scripts/gen-roadmap.py:211-212 | the task ids of one epic become keys, and no edge changes |
| RoadmapCycles.AppendDependent | scripts/gen-roadmap.py:250-255 | one `depends_on` list adds exactly its edges, undeclared targets becoming keys |
| RoadmapCycles.CycleFinder.WalkFrom | scripts/gen-roadmap.py:261-272 | the recursive procedure over the mutable colours, stack and reports computes the specified search, and terminates because white nodes decrease |
| RoadmapCycles.CycleFinder.VisitAll | scripts/gen-roadmap.py:264-270 | its loop over the dependents computes the specified rounds |
| RoadmapCycles.CycleFinder.ExamineNext | scripts/gen-roadmap.py:265-270 | grey dependents are reported once, white ones entered, black ones passed over |
| RoadmapCycles.CycleFinder.Run | scripts/gen-roadmap.py:274-277 | the outer loop leaves exactly the specified reports |
| RoadmapText.FindEpicBlocks | scripts/gen-roadmap.py:1044-1060 | the loops over the lines find the specified blocks |
| RoadmapText.BlocksAreWellFormed | scripts/gen-roadmap.py:1044-1060 | blocks are non-empty, start with their epic line, end in content, are disjoint and in file order, and every epic line starts one |
| RoadmapText.BlockIdsAreScanIds | scripts/gen-roadmap.py:1044-1060 | the block ids are the ids of the epic lines in order |
| RoadmapText.ContentIsCovered | scripts/gen-roadmap.py:1054-1059 | a line that is neither blank nor banner and has an epic line above it belongs to a block |
| RoadmapText.OneEpicPerBlock | scripts/gen-roadmap.py:1044-1060 | no block holds a second epic line |
| RoadmapText.TrimBack | scripts/gen-roadmap.py:1056-1058 | the loop that lowers `end` stops behind the last content line and never before the line after the start |
| RoadmapText.CutBlocks | scripts/gen-roadmap.py:1257-1259 | the lines kept by the index set are those outside the chosen blocks |
| RoadmapText.CutRemovesChosenIds | scripts/gen-roadmap.py:1257-1259 | after the cut the file scans as the old ids without the chosen ones, in order |
| RoadmapText.CutConservesLines | scripts/gen-roadmap.py:1248-1259 | kept and cut lines together are the lines of the file |
| RoadmapText.InsideIsCutText | scripts/gen-roadmap.py:1248-1251 | the cut lines are exactly the texts of the chosen blocks |
| RoadmapText.SurgeryRemovesChosenIds | scripts/gen-roadmap.py:1257-1259 | cut then prune: ids are the old ones without the chosen, and every content line outside the cut survives in order |
| RoadmapText.SurgeryKeepsEntries | scripts/gen-roadmap.py:1257-1259 | cut then prune: the content above the first epic and the content lines of every epic that is not chosen are what they were, epic by epic |
| RoadmapText.ContentLineInCut | scripts/gen-roadmap.py:1257-1259 | a content line is cut exactly when the epic above it is chosen |
| RoadmapText.EntriesAreBlockContents | scripts/gen-roadmap.py:1053-1060 | the blocks hold exactly the content lines of their epics |
| RoadmapText.PruneEmptySections | scripts/gen-roadmap.py:1082-1109 | the two loops with the growing `drop` set compute the specified pruning |
| RoadmapText.MarkSections | scripts/gen-roadmap.py:1085-1094 | the marked lines are the banners without an epic before the next banner, with the blanks behind them |
| RoadmapText.PruneKeepsContent | scripts/gen-roadmap.py:1082-1109 | pruning removes banners and blanks only |
| RoadmapText.PruneDropsOnlyEmptySections | scripts/gen-roadmap.py:1082-1109 | blanks aside, exactly the banners without an epic are dropped; every banner that heads an epic survives in its place |
| RoadmapText.PruneIsPruned | scripts/gen-roadmap.py:1082-1109 | the result has no empty section, no double blank, no blank between banner and epic and no blank end |
| RoadmapText.PruneIsIdleExactlyWhenPruned | scripts/gen-roadmap.py:1082-1109 | pruning changes nothing exactly in such files, and is idempotent |
| RoadmapText.StampIsReversible | scripts/gen-roadmap.py:1112-1122 | the two stamp lines hold the shipping and the archiving date in this order, and removing them gives the block back; a block with an `archived_on` line is left alone, so a second stamp changes nothing |
| RoadmapText.StampKeepsWhole | scripts/gen-roadmap.py:1112-1122 | a stamped block is still one block with its old id |
| RoadmapText.BlockTextIsWhole | scripts/gen-roadmap.py:1248-1251 | the cut text of a block is one block with that id |
| RoadmapText.AppendAddsOneBlock | scripts/gen-roadmap.py:1282-1284 | appending a block to a file, with or without a blank line, adds that block and id and leaves the others as they were |
| RoadmapText.BlocksAppend | scripts/gen-roadmap.py:1044-1060 | scanning distributes over appending lines that start with an epic |
| RoadmapText.BlocksBeforeSpacing | scripts/gen-roadmap.py:1047-1058 | blank lines and banners at the end of a file belong to no block |
| RoadmapSweep.RunKeepsKnownIds | scripts/gen-roadmap.py:1159-1300 | over any sequence of sweeps, each possibly crashing before, between or after its writes, the epic ids of both files together never change |
| RoadmapSweep.SweepKeepsKnownIds | scripts/gen-roadmap.py:1246-1297 | one sweep with any crash point keeps the epic ids of both files together |
| RoadmapSweep.RunKeepsEntries | scripts/gen-roadmap.py:1159-1300 | over any such sequence each epic keeps its content lines, in the roadmap as they were, or in the archive as they were or with the stamp lines |
| RoadmapSweep.SweepKeepsEntry | scripts/gen-roadmap.py:1246-1297 | one sweep with any crash point keeps them |
| RoadmapSweep.RunKeepsArchive | scripts/gen-roadmap.py:1272-1297 | over any such sequence the old blocks of the archive stay as they are, in front of the new ones |
| RoadmapSweep.RunKeepsArchiveUnique | scripts/gen-roadmap.py:1286-1290 | over any such sequence no epic id is archived twice, when each sweep reads the archive it would write as its epic lines say |
| RoadmapSweep.SweepKeepsArchiveUnique | scripts/gen-roadmap.py:1286-1290 | one sweep keeps the archive free of repeated ids, when the extended archive is read as its epic lines say |
| RoadmapSweep.MoveMovesExactlyThePicks | scripts/gen-roadmap.py:1246-1297 | a completed sweep removes exactly the chosen ids, keeps all other content, and appends exactly their stamped blocks behind the old archive blocks |
| RoadmapSweep.CrashBetweenWritesIsStable | scripts/gen-roadmap.py:1286-1297 | after a crash between the writes, re-runs that still choose one of those epics leave both files unchanged, however many there are |
| RoadmapSweep.SweepMovesExactlyWhen | scripts/gen-roadmap.py:1159-1297 | when the two texts it would write are read as their epic lines say and archive ids are unique, a sweep moves exactly when it is ready (roadmap read as its epic lines say, files parsed, ids unique, `gh` or force, something to pick, no dry run, archive appendable) and no choice is archived already |
| RoadmapSweep.SomeSweepMoves | scripts/gen-roadmap.py:1159-1297 | every roadmap with unique ids and two epics or more is moved by some sweep that leaves one of them |
| RoadmapSweep.SweepNeverEmptiesTheRoadmap | scripts/gen-roadmap.py:1261-1267 | a sweep that chooses every epic of a roadmap whose content above the first epic ends with the bare key never moves: the key it would leave reads as a null value, over which the survivor check fails |
| RoadmapSweep.ArchivedPickBlocksSweep | scripts/gen-roadmap.py:1286-1290 | choosing one epic that is archived already stops the whole sweep, where the comment promises a no-op for that epic only |
| RoadmapSweep.SurvivorCheckHolds | scripts/gen-roadmap.py:1261-1270 | when the text that is left is read as its epic lines say, the check of the surviving ids never fails |
| RoadmapSweep.AppendedBlocks | scripts/gen-roadmap.py:1282-1284 | the extended archive has its old blocks and then one stamped block per choice |
| RoadmapSweep.ShippedOnIsNewestMerge | scripts/gen-roadmap.py:1016-1041 | an epic is dated by the newest merge of all its PRs, and blocked exactly when some PR is not a dated merge or there is none |
| RoadmapSweep.EpicShippedOn | scripts/gen-roadmap.py:1016-1041 | the loop with its early return computes the specified date or blocker |
| RoadmapSweep.EpicPrNumbers | scripts/gen-roadmap.py:996-1003 | the loop collects the PRs of the epic and its tasks, each task PR once |
| RoadmapSweep.PrNumbersAreReferences | scripts/gen-roadmap.py:996-1003 | a number is collected exactly when the epic or one of its tasks refers to it |
| RoadmapSweep.Repository.SweepArchive | scripts/gen-roadmap.py:1159-1300 | the method that rewrites the two files does what the plan says, archive first, up to its crash point; every refusal leaves both as they are |
| RoadmapSweep.Repository.MovePicks | scripts/gen-roadmap.py:1246-1297 | the part from the excision to the writes, with its three refusals |
| RoadmapSweep.Repository.ChoosePicks | scripts/gen-roadmap.py:1203-1226 | the selection loop picks exactly the qualifying epics, each once and in file order: done, not kept, all tasks done, and either merge state is not consulted (stamp `unknown`) or the newest merge of its PRs is at least min-age-days whole days ago (stamp its date) |
| RoadmapSweep.PickedExactlyWhen | scripts/gen-roadmap.py:1203-1226 | an epic with a unique id is picked with a stamp exactly when it qualifies for that stamp |
| RoadmapSweep.MoveArchivesTheQualified | scripts/gen-roadmap.py:1203-1297 | a sweep that moves takes exactly the qualifying epics out of the roadmap, and the new blocks of the archive are theirs, each with its own stamp |
| RoadmapSweep.MoveIsChecked | scripts/gen-roadmap.py:1159-1290 | what a moving sweep has checked of the files, the flags and the two texts it writes |
| RoadmapSweep.CanAppendExactlyWhen | scripts/gen-roadmap.py:1125-1156 | an archive may be appended to exactly when it lists epics, all seen by the text scan, and ends inside their list, or lists none below a bare key |
| RoadmapSweep.SeparatedBlocks | scripts/gen-roadmap.py:1282-1284 | each pick adds its stamped block, behind one blank line unless the text ends with the bare key |
| RoadmapSweep.StripEndIs | scripts/gen-roadmap.py:1275 | the empty lines at the end of the old archive are dropped, and nothing else |
| RoadmapSweep.Repository.AppendPicks | scripts/gen-roadmap.py:1282-1284 | the loop that appends the stamped blocks |
| ResponseSpans.ResponseWalk.Run | bench/respcost.go:70-128 | succeeds exactly on acceptable token streams; then the spans are a gap-free ordered cover, each byte counts for `input_schemas`, `descriptions` or `metadata` exactly when its token belongs to a pair with key `inputSchema`, `description` or another key inside a tool, for `usage_instructions` exactly in a top-level pair of that name, and for `other` otherwise; the count is the length of the last "tools" array |
| ResponseSpans.LabelsFollowTheResponse | bench/respcost.go:75-181 | each token of the response counts for the component of the pair it stands in, stated on token positions with the literal keys |
| ResponseSpans.LabelledBytesCountFor | bench/respcost.go:75-125 | so does each byte, a token owning the bytes from the end of the token before it; bytes behind the response are `other` |
| ResponseSpans.ToolCountIsLast | bench/respcost.go:86-103 | the count is that of the last "tools" array, 0 if there is none |
| ResponseSpans.AcceptsExactlyResponses | bench/respcost.go:83-124 | what the walk accepts, without the walk: a unique response structure spelled by the tokens, then white space only |
| ResponseSpans.ParseResponseInverts | bench/respcost.go:70-128 | the walk's grammar reads back every response it could have been given |
| ResponseSpans.ParseResponseIsSound | bench/respcost.go:70-128 | whatever it reads is spelled by exactly the tokens consumed |
| ResponseSpans.EmitLabels | bench/respcost.go:75-80 | appending a span up to the decoder's offset keeps the cover and labels the new bytes |
| ResponseSpans.FinishLabels | bench/respcost.go:125 | the last span gives the rest of the text the label `other` |
| ResponseSpans.ResponseWalk.Emit | bench/respcost.go:75-80 | the closure advances `mark` and labels exactly the tokens read since |
| ResponseSpans.ResponseWalk.WalkPair | bench/respcost.go:146-167 | one pair of a tool owns the bytes from the previous value to the end of its own, under the label of its key |
| ResponseSpans.ResponseWalk.WalkPairs | bench/respcost.go:146-167 | the pairs of one tool |
| ResponseSpans.ResponseWalk.WalkTool | bench/respcost.go:140-174 | one element of the tools array |
| ResponseSpans.ResponseWalk.WalkToolList | bench/respcost.go:139-174 | the elements of the tools array, counted |
| ResponseSpans.ResponseWalk.WalkTools | bench/respcost.go:133-181 | the array with its brackets |
| ResponseSpans.ResponseWalk.WalkTopPair | bench/respcost.go:89-117 | one top-level pair; a later "tools" pair replaces the count |
| ResponseSpans.ResponseWalk.WalkTop | bench/respcost.go:88-117 | the top-level loop |
| ResponseSpans.ResponseWalk.ExpectDelim | bench/respcost.go:184-194 | consumes one token exactly when it is the wanted delimiter |
| TokenAttribution.MeasureResponse | bench/respcost.go:269-285 | fails only when the walk rejects the response or the tokenizer does not spell the text: validation after the walk never fails; the spans label each byte by the pair it stands in, and the returned components add up to the returned total over the canonical labels |
| TokenAttribution.AttributeTokens | bench/respcost.go:205-237 | the two-pointer pass succeeds exactly for partitions and faithful pieces, and each component is the number of pieces that start in a span with its label, and the components add up to the total |
| TokenAttribution.CountsAreStarts | bench/respcost.go:212-231 | a component is the number of pieces whose first byte, laid one behind the other, lies in a span with its label |
| TokenAttribution.ValidateSpanPartition | bench/respcost.go:241-263 | accepts exactly the partitions of [0, textLen) |
| TokenAttribution.ComponentsSumToTotal | bench/respcost.go:196-204 | the naive counts of the labels add up to the number of tokens |
| TokenAttribution.CountsSumToTotal | bench/respcost.go:196-237 | components that hold these counts add up to the number of tokens over any list that names each label of the spans once |
| TokenAttribution.CountsDependOnLabelsOnly | bench/respcost.go:217-231 | partitions that label the bytes alike give the same counts |
| TokenAttribution.SplitKeepsLabels | bench/respcost.go:50-57 | splitting a span, or merging it back, is such a change |
| RetrievalMetrics.NdcgIsOneExactlyWhenIdeal | bench/metrics.go:86-128 | for a ranking without repeated ids among its first k, nDCG is 1 exactly when its first k gains are the sorted relevances padded with zeros |
| RetrievalMetrics.NdcgIsBounded | bench/metrics.go:86-103 | nDCG of such a ranking is at most 1, and at least 0 for non-negative relevances |
| RetrievalMetrics.NdcgIsBoundedExactlyWithoutRepeats | bench/metrics.go:86-103 | nDCG stays at most 1 for all labels exactly when no id stands twice among the first k |
| RetrievalMetrics.RepeatedIdExceedsOne | bench/metrics.go:86-103 | whenever one does, labels for the ids of the ranking make nDCG exceed 1 |
| RetrievalMetrics.IdealDominates | bench/metrics.go:105-128 | every prefix of a ranking gains at most what the ideal prefix gains |
| RetrievalMetrics.DominatedDcg | bench/metrics.go:96 | prefix domination carries over to the discounted sums, strictly unless the sequences are equal |
| RetrievalMetrics.GainsComeFromLabels | bench/metrics.go:30-39 | the positive gains of a ranking without repeated ids are a selection of the relevances |
| RetrievalMetrics.SortIsSorted | bench/metrics.go:114-119 | the sorted relevances descend and are a permutation |
| RetrievalMetrics.SortedIsUnique | bench/metrics.go:114-119 | there is only one such list |
| RetrievalMetrics.SortInPlace | bench/metrics.go:114-119 | the insertion sort with swaps on the array leaves exactly that list |
| RetrievalMetrics.IdealDcg | bench/metrics.go:107-128 | the discounted sum of the first k of the sorted relevances |
| RetrievalMetrics.NdcgAtK | bench/metrics.go:86-103 | the loops compute the specified quotient, 0 when there is no ideal gain |
| RetrievalMetrics.RecallIsMonotone | bench/metrics.go:52-70 | recall is not negative and does not fall as the cutoff grows, for any ranking |
| RetrievalMetrics.RecallIsBounded | bench/metrics.go:52-70 | it is at most 1 when no id stands twice among the first k |
| RetrievalMetrics.RecallIsBoundedExactlyWithoutRepeats | bench/metrics.go:52-70 | and at most 1 for all labels exactly then |
| RetrievalMetrics.RecallAtK | bench/metrics.go:55-70 | the loop computes the specified fraction |
| RetrievalMetrics.AveragePrecisionIsBounded | bench/metrics.go:130-148 | average precision lies in [0,1] |
| RetrievalMetrics.AveragePrecisionIsBoundedExactlyWithoutRepeats | bench/metrics.go:130-148 | it is at most 1 for all labels exactly when no id stands twice in the ranking |
| RetrievalMetrics.AveragePrecisionIsOneExactlyWhen | bench/metrics.go:130-148 | it is 1 exactly when the ranking opens with all relevant tools |
| RetrievalMetrics.PrecisionSumBound | bench/metrics.go:139-146 | the precisions add up to at most the hits, and to the hits exactly when no irrelevant result precedes a relevant one |
| RetrievalMetrics.ComputeAveragePrecision | bench/metrics.go:134-148 | the accumulator loop computes the specified sum over the relevant count |
| RetrievalMetrics.ComputeReciprocalRank | bench/metrics.go:72-81 | the result times the rank of the first relevant id is 1, and it is 0 exactly when no ranked id is relevant |
| RetrievalMetrics.FirstLabelDecides | bench/metrics.go:30-39 | the first label with the id gives its relevance, an id without label has 0 |
| RetrievalMetrics.OneRelevantTool | bench/metrics.go:72-148 | with one relevant tool, at position i, nDCG is the discount of i over the first discount, and average precision and reciprocal rank are one over the rank |
| RetrievalMetrics.RecallIsTheShare | bench/metrics.go:52-70 | recall is the share of the relevant labels among the first k positions |
| RetrievalMetrics.DcgIsTheSum | bench/metrics.go:86-97 | the discounted gain is the sum over positions of the gain times the discount of that position |
| RetrievalMetrics.AveragePrecisionIsTheMean | bench/metrics.go:130-148 | average precision is the sum of the precisions at the relevant positions over the number of relevant labels |
| RetrievalMetrics.FindRelevance | bench/metrics.go:32-39 | the first label with the id decides |
| RetrievalMetrics.RelevantCount | bench/metrics.go:42-50 | counts the labels with relevance 1 or more |
| RetrievalMetrics.ScoreRetrieval | bench/metrics.go:188-237 | fails exactly for an empty golden set or a failing search, naming the first query that fails; otherwise MRR is the mean of reciprocal ranks, nDCG at 10 and MAP are the means of their scores, and the recall at k is its mean times the number of listings of k |
| RetrievalMetrics.ReportedRecallIsTheMean | bench/metrics.go:203-222 | the recall reported for every cutoff is its mean, for all golden sets and searches, exactly when no positive cutoff is requested twice |
| RetrievalMetrics.RecallIsReportedExactlyWhen | bench/metrics.go:210-222 | for one golden set, exactly when every cutoff requested more than once has mean 0 |
| RetrievalMetrics.DoubledRecall | bench/metrics.go:191-222 | requesting a positive cutoff twice makes `ScoreRetrieval` report 2 for a perfect search |
| RetrievalMetrics.RecallSumsAreTotals | bench/metrics.go:203-216 | the map accumulates, for each cutoff, the total recall times how often it is requested |
| RetrievalMetrics.SumsAreTotals | bench/metrics.go:204-216 | the other accumulators are the totals of their scores |
| RetrievalMetrics.MeanRecallIsMonotone | bench/metrics.go:218-222 | mean recall inherits the bounds and the monotonicity across cutoffs |
| RetrievalMetrics.OtherMeansAreBounded | bench/metrics.go:223-232 | MRR, nDCG@10 and MAP lie in [0,1] |
| RetrievalMetrics.MaxCutoff | bench/metrics.go:195-201 | the search limit is the largest cutoff, at least 10 |
| CanonicalJson.SameBytesExactlyWhenSameValue | bench/canonical.go:12-45 | two accepted texts have equal canonical bytes exactly when they denote the same value |
| CanonicalJson.CanonicalDenotesTheSameValue | bench/canonical.go:12-45 | the canonical text is accepted and denotes the value of the original |
| CanonicalJson.CanonicalIsIdempotent | bench/canonical.go:12-45 | canonicalising again changes nothing |
| CanonicalJson.TrailingDataIsRejected | bench/canonical.go:47-61 | white space behind an accepted text changes nothing; anything else behind it is rejected, unless it continues a final number |
| CanonicalJson.DecodesExactlyTheGrammar | bench/canonical.go:26-36 | the accepted texts are those of RFC 8259 sections 2 to 7: lexemes and blanks that spell one value |
| CanonicalJson.DecodeInvertsPrint | bench/canonical.go:37-44 | decoding what the encoder writes gives back the value |
| CanonicalJson.DecodeInvertsEncode | bench/canonical.go:37-44 | string literals: unescaping undoes the encoder's escaping |
| CanonicalJson.SameIsEqualNormalForm | bench/canonical.go:12-17 | values agree as key maps, ordered arrays and verbatim numbers exactly when their sorted forms are equal |
| CanonicalJson.NormalizeIsCanonical | bench/canonical.go:13-17 | at every depth keys are strictly ascending |
| CanonicalJson.CanonicalIsFixed | bench/canonical.go:12-17 | a value in that form is left alone |
| CanonicalJson.NormalizeKeepsLookup | bench/canonical.go:28-31 | the decoder's map keeps for each key the last value written |
| CanonicalJson.WrittenSpellsTokens | bench/canonical.go:37-44 | the encoder's output is a spelling of the value's tokens by valid lexemes |
| CanonicalJson.CanonicalIsCompact | bench/canonical.go:12-17 | the canonical text has no white space between lexemes, and in strings every character stands for itself unless it is a quote, a backslash, a control character or a line separator |
| CanonicalJson.CanonicalIsTheOnlySuchText | bench/canonical.go:12-44 | it is the only compact text that denotes the same value with keys strictly ascending at every depth |
| CanonicalJson.PlainStringsStay | bench/canonical.go:37-41 | a string of plain characters is written as it stands |
| CanonicalJson.CanonicalIsOneLine | bench/canonical.go:43-44 | a canonical text holds no line break or other control character |
| CanonicalJson.EscapesMean | bench/canonical.go:26-31 | the short escapes and the hexadecimal digits of RFC 8259 section 7 |
| CanonicalJson.SurrogatesMean | bench/canonical.go:26-31 | a UTF-16 pair of escapes is one character beyond U+FFFF, a lone surrogate reads as U+FFFD |
| CanonicalJson.ParseInverts | bench/canonical.go:26-31 | the value parser reads back the tokens of any value |
| CanonicalJson.ParseIsSound | bench/canonical.go:26-31 | what it reads is made of exactly those tokens |
| JsonText.LexInverts | bench/canonical.go:26-31 | scanning any spelling of valid lexemes gives the lexemes |
| JsonText.NumberGrammar | bench/canonical.go:26-31 | a number is a sign, an integer without leading zero, a fraction and an exponent, RFC 8259 section 6 |
| JsonText.LexIsSound | bench/canonical.go:26-31 | whatever is scanned is spelled by the text |
| ShellCommand.ShellReadsBackExactWords | cmd/mcpproxy-tray/main.go:883-891 | split by the rules of IEEE Std 1003.1-2017 sections 2.2.1 to 2.2.3 and 2.3, the command is the words exec, binary, args, exactly when none holds a NUL |
| ShellCommand.QuoteReadsBack | cmd/mcpproxy-tray/main.go:893-910 | a quoted argument in front of any text reads as that argument, whatever it holds but NUL |
| ShellCommand.QuotingReplacesQuotes | cmd/mcpproxy-tray/main.go:893-910 | quoting replaces each single quote by its escape and changes nothing else |
| ShellCommand.EscapedReadsBack | cmd/mcpproxy-tray/main.go:901-907 | inside the quotes the escaped text reads as the argument |
| ShellCommand.CommandIsInjective | cmd/mcpproxy-tray/main.go:883-891 | different invocations have different command lines |
| ShellCommand.ShellQuote | cmd/mcpproxy-tray/main.go:893-910 | the byte loop builds the specified quoting, also for the empty argument |
| ShellCommand.BuildShellExecCommand | cmd/mcpproxy-tray/main.go:883-891 | the append loop and the join build the specified command |
| TronDedup.EncodeListing | bench/arms/tron.go:105-146 | succeeds exactly when every schema can be canonicalised and no two different ones share a class name; the text reads back: split at blank lines it is a block with one class line per distinct canonical schema, in order, and then one part per tool; an error names the first tool that cannot be added |
| TronDedup.TextReadsBack | bench/arms/tron.go:84-146 | putting the body on its class line in place of each reference gives the tool's own form, for names without line breaks |
| TronDedup.IndexKeepsFields | bench/arms/tron.go:148-168 | the index keeps name, server and description, fails exactly for an unreadable schema, and has parameters exactly for a tool with one |
| TronDedup.ExpandingGivesTheTools | bench/arms/tron.go:90-146 | replacing each class reference by its declared body gives every tool's own encoding |
| TronDedup.ClassIsSharedExactlyBySameSchema | bench/arms/tron.go:30-47 | two tools refer to one class exactly when their schemas denote the same JSON value |
| TronDedup.ClassesAreDeclaredOnce | bench/arms/tron.go:110-133 | no class name and no body is declared twice |
| TronDedup.ClassesFollowFirstAppearance | bench/arms/tron.go:105-132 | classes stand in the order in which their schemas first appear |
| TronDedup.BodiesAreTheSchemas | bench/arms/tron.go:110-133 | the declared bodies are exactly the canonical schemas of the tools |
| TronDedup.IndexNamesTheSameClass | bench/arms/tron.go:148-168 | the index metadata names a class exactly when the listing entry does |
| SwiftScanner.StopsExactlyAtTheClose | scripts/check-settings-parity.py:62-93 | the loop with its depth counter and string flag stops at a parenthesis exactly when a balanced argument text, with closed string literals, ends there |
| SwiftScanner.RunsOutExactlyWhenUnclosed | scripts/check-settings-parity.py:66-93 | it reaches the end of the text exactly when no such text is closed |
| SwiftScanner.ScanInvertsSpell | scripts/check-settings-parity.py:50-95 | on filler text interleaved with calls it returns exactly the argument texts, in order |
| SwiftScanner.EveryTextComesApart | scripts/check-settings-parity.py:50-95 | every text whatever is such a source, with the blocks as its disjoint argument texts |
| SwiftScanner.OnlyOneWayApart | scripts/check-settings-parity.py:50-95 | in one way only |
| SwiftScanner.FindsTheMarker | scripts/check-settings-parity.py:58-60 | the first marker found is the one behind marker-free filler; none straddles its end |
| SwiftScanner.SkipsBody | scripts/check-settings-parity.py:68-93 | at any depth the loop passes over a whole balanced text |
| SwiftScanner.ScanBody | scripts/check-settings-parity.py:61-93 | the inner loop keeps exactly the text between its two ends, also when it breaks off one past the end behind a backslash |
| SwiftScanner.ConfigFieldBlocks | scripts/check-settings-parity.py:50-95 | the outer loop terminates on any text, always advancing, with the specified blocks |
| TscgSplit.LosslessExactlyWhen | bench/arms/tscg.go:275-317 | name, description and parameters reassemble to the compiled text exactly when some body line is not indented; otherwise one line break too many appears |
| TscgSplit.IndentedBodyIsLossy | bench/arms/tscg.go:299-310 | every text with indented lines only between header and closure line is split and does not reassemble |
| TscgSplit.SomeTextIsLossy | bench/arms/tscg.go:275-278 | there is such a text |
| TscgSplit.SplitInvertsAssemble | bench/arms/tscg.go:260-317 | a text assembled from a description whose last line is not indented, indented parameter lines and a closure line is split into these parts |
| TscgSplit.PanicsExactlyForSuchNames | bench/arms/tscg.go:285-294 | some compiled text makes the slice bounds cross exactly when the name followed by a colon holds the closure marker |
| TscgSplit.JoinInvertsSplit | bench/arms/tscg.go:299-305 | joining the split lines gives the body |
| TscgSplit.SplitInvertsJoin | bench/arms/tscg.go:299-305 | splitting joined lines gives the lines |
| TscgSplit.IndexMetadata | bench/arms/tscg.go:279-317 | the method with its downward loop computes the specified outcome, error, panic or metadata |
| TscgSplit.OutcomeExactlyWhen | bench/arms/tscg.go:285-294 | each refusal and the panic exactly when: no header, no closure line opened or no bracket at the end, the last one opened inside the header |
| CompactSignature.EachPropertyOnce | bench/arms/compact.go:127-164 | the list has every declared property exactly once, required ones first, the others in ascending order |
| CompactSignature.RequiredInArrayOrder | bench/arms/compact.go:147-157 | required parameters stand in the order in which the array first names them |
| CompactSignature.IterationDoesNotShow | bench/arms/compact.go:158-164 | the order in which the property map is walked does not show |
| CompactSignature.CompactParams | bench/arms/compact.go:134-173 | the loops build the specified signature for every walking order |
| CompactSignature.SignatureReadsBack | bench/arms/compact.go:127-173 | split at the commas, a signature gives each parameter, bare when required and marked otherwise, with its type, for names without commas |
| CompactSignature.ParamsAre | bench/arms/compact.go:166-172 | required parameters are rendered with `:` and the others with `?:` |
| CompactSignature.DistinctKeepsFirsts | bench/arms/compact.go:105-120 | deduplication keeps each element once, in order of first appearance |
| CompactSignature.UnionHoldsExactly | bench/arms/compact.go:103-125 | a union holds exactly the mapped names of its members other than null and empty |
| CompactSignature.CompactUnion | bench/arms/compact.go:105-125 | the loop with the `seen` map computes the specified union text |
| CompactSignature.CompactType | bench/arms/compact.go:50-101 | a single type, a type array, anyOf and oneOf all read as the union of the names they declare, an unreadable type as the empty union |
| CompactSignature.TypeReadsBack | bench/arms/compact.go:53-101 | split at the bars, a type gives exactly the mapped names the property declares by its type, else by anyOf, else by oneOf; `any` if there are none |
| CompactSignature.TypeNameTable | bench/arms/compact.go:23-36 | the short names of the six JSON types; anything else is `any` |
| CompactSignature.NullDoesNotShow | bench/arms/compact.go:58-66 | a null member changes no union wherever it stands, and a nullable type reads as the type |
| CompactSignature.SingleIsUnion | bench/arms/compact.go:75-82 | a single name reads as the union of that name alone |
| ToolRetCorpus.LoadToolRet | bench/corpusio/toolret.go:113-214 | accepts exactly the caches whose records are all valid and some query is scoreable; otherwise the error names a record that is at fault |
| ToolRetCorpus.LoadedIsSound | bench/corpusio/toolret.go:137-214 | ids are unique and ascending, golden plus dropped is the number of queries, and every label has relevance 1 or more and a tool in the corpus |
| ToolRetCorpus.LoadedHoldsTheRows | bench/corpusio/toolret.go:134-201 | the benchmark holds a tool for every row, with id, server, name and description from their columns, and a golden query for exactly the rows with a label of relevance 1 or more, with exactly those labels |
| ToolRetCorpus.AcceptableExactlyWhen | bench/corpusio/toolret.go:113-197 | what is accepted, on the fields of the cache: revisions, different non-empty ids, texts that are not blank, labels of known tools, and some label of relevance 1 or more |
| ToolRetCorpus.RowOrderDoesNotShow | bench/corpusio/toolret.go:137-201 | caches with the same rows in any order load as the same benchmark |
| ToolRetCorpus.GoldenKeepsLabels | bench/corpusio/toolret.go:181-199 | a golden query has exactly the surviving labels, sorted |
| ToolRetCorpus.ScoredAreTheScoreable | bench/corpusio/toolret.go:169-201 | the golden queries are exactly the rows with a surviving label |
| ToolRetCorpus.LoadTools | bench/corpusio/toolret.go:139-162 | the validation loop over the tools |
| ToolRetCorpus.LoadQueries | bench/corpusio/toolret.go:166-201 | the validation loop over the queries, with its drop count |
| ToolRetCorpus.LoadLabels | bench/corpusio/toolret.go:181-193 | the validation loop over the labels of one query |
| ToolRetCorpus.SubsetQueries | bench/corpusio/toolret.go:222-250 | two errors, and otherwise the specified selection |
| ToolRetCorpus.SubsetIsSound | bench/corpusio/toolret.go:216-250 | the subset has min(size, n) members of the golden set in ascending order, without repetition when ids are unique |
| ToolRetCorpus.SubsetIsTheFirstPicks | bench/corpusio/toolret.go:227-250 | the subset is what the first `size` entries of the permutation name in the list sorted by id, or the whole list |
| ToolRetCorpus.SubsetIgnoresOrder | bench/corpusio/toolret.go:216-222 | with unique ids, reordering the queries does not change the subset |
| Percentiles.PercentileIsTheSmallestCover | bench/respcost.go:310-324 | the nearest-rank percentile is the smallest sample such that at least p per cent of the samples are at most it |
| Percentiles.PercentileIsMet | bench/respcost.go:310-324 | the same with the samples counted as a set of positions |
| Percentiles.PercentileIsMonotone | bench/flipgate.go:253-266 | percentiles grow with p, for any p |
| Percentiles.IndexIsMonotone | bench/arms/toon.go:362-373 | the index read from the sorted samples grows with p |
| Percentiles.PercentileIgnoresOrder | bench/live_report.go:579-592 | a percentile is one of the samples and depends on them only as a multiset |
| Percentiles.SummaryIsOrdered | bench/respcost.go:287-308 | P50, P95 and Max ascend, and the mean lies between the least and the greatest sample |
| Percentiles.SummarizeResponseCost | bench/respcost.go:291-308 | P50 and P95 are the smallest samples that at least 50 and 95 per cent of the totals do not exceed, with the maximum and the mean; zero for none |
| TrayShutdown.ClosedExactlyWhenWorkerEnded | cmd/mcpproxy-tray/main.go:161-209 | in every reachable state the channel has been closed at most once, and exactly when the worker has ended, panic or not |
| TrayShutdown.OthersReturnAfterTheClose | cmd/mcpproxy-tray/main.go:161-213 | one caller at most is the first; all others return only after the close |
| TrayShutdown.CancelComesAfterShutdown | cmd/mcpproxy-tray/main.go:179-194 | the worker does not begin to cancel the context before the launcher's turn is over and the state machine's shutdown has returned |
| TrayShutdown.AssignedLauncherIsStopped | cmd/mcpproxy-tray/main.go:181-185 | a launcher assigned before the worker looks has been shut down by then |
| TrayShutdown.AssignedTrayIsQuit | cmd/mcpproxy-tray/main.go:199-203 | a tray assigned before the worker looks has been told to quit by then |
| TrayShutdown.TasksComeInOrder | cmd/mcpproxy-tray/main.go:176-203 | the worker notifies the state machine, stops launcher and state machine, cancels, waits and quits the tray in this order; only a launcher or tray that is nil is skipped |
| TrayShutdown.RunKeepsInvariant | cmd/mcpproxy-tray/main.go:161-213 | the inductive invariant over every interleaving |
| TrayShutdown.NoDeadlock | cmd/mcpproxy-tray/main.go:161-213 | until every call has returned and the worker has ended, some goroutine can step |
| TrayShutdown.RunsAreFinite | cmd/mcpproxy-tray/main.go:161-213 | no run with n callers is longer than 5n + 17 steps |
| TrayShutdown.AtRestAfterACall | cmd/mcpproxy-tray/main.go:161-213 | at rest after a call the channel is closed, and the context cancelled exactly when the worker got past its fourth task |
| TrayShutdown.ReturnsProveLittle | cmd/mcpproxy-tray/main.go:161-213 | the first caller may return before anything was shut down, and a panic releases the others although nothing was cancelled |

## Left out

- Floating point: scores, means and percentile ranks are exact reals; rounding, log2 and the truncation of very large counts are not modelled.
- Strings: JSON and Go strings are sequences of characters; invalid UTF-8 and its replacement by U+FFFD while decoding, and the decoder's nesting limit of 10000, are not modelled.
- JSON decoding inside `PartitionRetrieveToolsResponse`, `compactParams` and `LoadToolRet`: the models start from tokens with offsets, the decoded schema, and the decoded cache records.
- PyYAML: an arbitrary function from lines to a parse result. The properties about archive uniqueness, crashes and when a sweep moves assume, of the texts that sweep would write and of no others, that a parse which finds epics finds exactly the epic lines; for the roadmap as read `assert_blocks_match_yaml` checks it.
- Blank lines and banners inside an epic's block: pruning may collapse or drop them, so what survives a sweep is stated for the content lines.
- Line endings, the two regular expressions as such, and temporary files: a line comes classified, and each write is atomic.
- Roadmap rendering: the third write of a sweep, ROADMAP.md, and all Markdown, Mermaid and HTML output.
- `gh`, git, clocks, random numbers, the tokenizer and SHA-256: parameters (a lookup of pull request states, the current time, a permutation, a list of pieces, an arbitrary digest).
- Library sorts: modelled by one stable sort. Where ties are possible (labels of one query that repeat a tool id) the order among them is not specified by the source.
- Delimiters in names: TRON listings and compact signatures do not escape them, so their texts are read back for names without line breaks and without commas; `TronDedup.ExpandingGivesTheTools` and `CompactSignature.EachPropertyOnce` need no such condition.
- The shell: expansions, redirections and compound commands are one case, "not a plain list of words"; the choice of the shell binary is left out.
- The tray's shutdown: what the launcher, the state machine and the tray do inside one call, timeouts in `main` after the event loop, and a panic inside the deferred function.
- ToolRet: the two revisions and the upstream drop count that are copied into the result.
- Node shim of the TSCG arm (`encodeBatch`), arm registration, and `EncodeListing` of the compact and TSCG arms: process plumbing and joins.
- Break-even, session, flip-gate and arm-runner accounting, the CLI, the doctor, the network clients and the servers: bookkeeping or plumbing beside the properties above.
