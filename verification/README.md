# Verified model of the agentic Text-to-SQL system

The repository turns questions in English or Vietnamese into SQLite queries with a small
local model, and surrounds that model with deterministic code: rewriting rules for draft
queries, an admission rule, a result comparison, a join closure, sensor monitors, a
fail-closed watchdog, a crash-safe benchmark suite, bounded agent loops. This project
models that deterministic code and proves what it guarantees, for every database, every
interleaving, every crash point and every answer of the language model.

Loops and objects that are updated step by step are methods and classes, each proved
against a specification function; the lemmas are about those functions. The steps of the
two monitors, of the guard and of the suite are functions from state to state, and the
histories of those steps are arbitrary sequences of events. What a specification function
decides is then characterised apart from its body, by positions in the catalog, readings of
a sensor line, cells of two results or events of a history, so that the theorems about it
are theorems about those.

## Modules

* `Sql`, `SqlFacts` - a SELECT syntax, name resolution as SQLite does it (sources first in
  WHERE and GROUP BY, aliases first in ORDER BY, ordinals), compiled plans, and their
  denotation: joins, WHERE, groups with bare columns, HAVING, DISTINCT, ORDER BY with NULL
  placement, LIMIT and OFFSET. Ties may be broken in any way, so a plan has a set of answers.
  `Marked` builds databases that tell rows apart.
* `OutputContract`, `ProjectionChoice`, `ProjectionPlan`, `ProjectionMeaning`,
  `ProjectionExact`, `ProjectionLimits`, `SortKeys`, `CaptureExact`, `ProjectionExamples` -
  dropping unrequested output columns: when that is done, and what it means.
* `GroupRank`, `GroupRankChoice`, `GroupRankMeaning`, `GroupRankExact` - ranking groups by
  their size.
* `OutputDispatch` - the scalar average, and which of the three output edits applies.
* `RankBinding`, `ClauseCritic`, `CriticChoice`, `RepairContract`, `RepairChoice`,
  `RankRepairMeaning`, `RankExact`, `RankExamples` - "top k by metric": binding, critic,
  compiled repair, admission, meaning.
* `ExecutionEqual`, `ResultMeaning`, `Sorting`, `Orders` - result equivalence.
* `FkGraph`, `JoinClosure`, `JoinForest`, `SchemaLinker`, `LinkerMeaning` - join closure and
  schema context.
* `Hardware`, `GpuMonitor`, `WindowsMonitor`, `ResourceGuard` - sensors and the watchdog.
* `InferenceRunner`, `GuardedSuite`, `SuiteSteps`, `SuiteTermination`, `SuiteHistory` - the
  worker, the suite driver, when its loop ends, and whole histories of launches, crashes and
  reboots.
* `SpiderAdapter`, `ManifestMeaning` - quotas and stratified picks of the hundred-case manifest.
* `Validation`, `Correction` - the layer 5 correction loop.
* `Budgets`, `Ollama`, `A1Service`, `A1Facts` - the question-first run and its budget.
* `EmbeddingCache` - the chunked embedding cache.

## What the proofs found

Some properties the design aims at do not hold of the code for every input. Each failure
has a concrete witness and a condition, read off the input, under which the property holds.

* Projection edit, captured aliases. A dropped alias may still be named in WHERE or ON
  (the edited query no longer prepares), may stand for an integer literal in a sort or group key
  (`1 AS k ... ORDER BY k` becomes an ordinal), or may expand to a bare column name that a
  kept output uses as its own alias. The edit compiles to the draft's plan without the
  dropped outputs if and only if none of the three happens: `EditedPlan`, with `LeakFails`,
  `OrdinalExample`, `AliasExample` and, for a GROUP BY key, `GroupExample`. A capture in the
  ORDER BY of a draft without groups may still be harmless, for instance when it repeats an
  earlier key: the answers stay the same if the sort keys that the outputs can show stay the
  same, and only then when one source is ordered by columns and constants:
  `CaptureExactly`.
* Projection edit, bare columns. Dropping `MAX(x)` from a grouped query changes the row
  SQLite reads ungrouped columns from: `BareColumnExample`. The edit keeps the meaning on
  every database only if the draft is not grouped, no aggregate is dropped, every kept output
  is a group key or LIMIT is 0; where HAVING and ORDER BY have one value per group, exactly
  then: `ProjectionExactly`. For other HAVING and ORDER BY clauses `ProjectionKeepsMeaning`
  gives a sufficient condition only.
* The guard against DISTINCT is needed: `DistinctExample`.
* Rank repair. A kept `ORDER BY ... DESC NULLS FIRST` is not looked at by the critic, so the
  repaired query may return rows without a value first: `NullsExample`. When an English and
  a Vietnamese direction word disagree, the critic follows one and the compiler the other.
  The planned query answers the asked top k on every database if and only if the contract
  set the order, or the languages agree and the kept order puts NULL where the smallest
  value goes, or no row is asked for, or the outputs read no column: `RankRepairExactly`.
  When an output is a plain column the failure needs no choice of SQLite's operators:
  `RankRepairFailsIn`.
  `ContractFixpoint` says exactly when admission succeeds.
* Group ranking. An unqualified GROUP BY key that is also a source column is grouped by the
  column, while the added ORDER BY uses the output expression of that name:
  `KeyClashExample` gives orders for which the wrong group is returned. The winner is
  returned on every conforming database if and only if the keys do not clash or the outputs
  read no column outside the count: `GroupRankingExactly`, and `ClashBetraysIn` for plain
  columns in every world. With a descending tie key NULL still sorts first,
  which `Wins` states.
* Correction. After two repairs, a stop on repeated SQL can return the report of another
  statement. That cannot happen if and only if one repair or one call is allowed:
  `RepeatedSqlReport`, with `ForeignReport` for all other bounds.
* Suite, no end. A worker that fills the checkpoint, exits cleanly and leaves no report is
  run again forever: `NoReportNoEnd`. `EndlessExactly` says for which launches the loop goes
  on without end; for all others `SuiteDriver.Loop` ends.
* Suite, orphans. A worker that outlives a crash of the driver before its process number is
  on disk can later shrink the checkpoint: `OrphanShrinks`. The theorems about histories hold
  of those in which such an orphan does not write.

## Model

| member | source | states |
|---|---|---|
| OutputContract.SplitOutputs | src/agentic_text2sql/layer4_validation/output_contract.py:115-135 | the loop splits the outputs into exactly those bound to a requested column, in order, and the rest, and collects the bindings met |
| OutputContract.ExpandDropped | src/agentic_text2sql/layer4_validation/output_contract.py:145-168 | succeeds exactly when every dropped alias is unique among the outputs and no catalog column; then it is the one-by-one expansion |
| OutputContract.Projection | src/agentic_text2sql/layer4_validation/output_contract.py:87-170 | yields the edited statement exactly when the guards hold, which `ProjectionChoice.FiresExactly` characterises; RequestedShown and UnansweredRefused give what that means for each requested word |
| ProjectionChoice.KeptExactly | src/agentic_text2sql/layer4_validation/output_contract.py:94-137 | an output is kept if and only if SQLite reads it from a source's column all of whose words were requested |
| ProjectionChoice.FiresExactly | src/agentic_text2sql/layer4_validation/output_contract.py:87-146 | the edit fires if and only if every requested word belongs to an asked column or a source's table, no two asked columns have the same words, each is shown by just one output, some output shows none, and neither ordinals nor a shared alias stand in the way |
| ProjectionChoice.RequestedShown | src/agentic_text2sql/layer4_validation/output_contract.py:103-137 | when it fires the outputs left are just those, and every requested word is a word of a column one of them reads, or of a source's table |
| ProjectionChoice.UnansweredRefused | src/agentic_text2sql/layer4_validation/output_contract.py:107-109 | a requested word that no asked column and no source's table has makes the edit abstain |
| ProjectionPlan.ExpandMeans | src/agentic_text2sql/layer4_validation/output_contract.py:147-168 | substitution lemma: expanding one alias resolves to what the alias resolved to, in every clause scope |
| ProjectionPlan.LicenseGuards | src/agentic_text2sql/layer4_validation/output_contract.py:89-144 | the syntactic guards give what the proofs use: unique aliases off the catalog, no ordinals, an aggregate only with GROUP BY |
| ProjectionPlan.EditedPlan | src/agentic_text2sql/layer4_validation/output_contract.py:136-170 | the edited statement compiles to the draft's plan minus the dropped outputs if and only if no dropped alias is captured |
| ProjectionMeaning.AnswersKept | src/agentic_text2sql/layer4_validation/output_contract.py:169-170 | a plan without some outputs answers exactly the full plan's answers without those columns, when bare columns cannot shift |
| ProjectionMeaning.ProjectionKeepsMeaning | src/agentic_text2sql/layer4_validation/output_contract.py:31-170 | when no alias is captured and no bare column can shift, the edited statement has on every database exactly the draft's answers without the dropped columns: rows, order, multiplicity, LIMIT |
| ProjectionExact.BareNeeded | src/agentic_text2sql/layer4_validation/output_contract.py:91-93 | whatever HAVING and ORDER BY are, a grouped plan loses its meaning on some database when an aggregate is dropped, a kept output is no group key and LIMIT is not 0 |
| ProjectionExact.ProjectionExactly | src/agentic_text2sql/layer4_validation/output_contract.py:31-170 | without captures, that condition is necessary for every licensed edit, and sufficient when HAVING and ORDER BY have one value per group |
| CaptureExact.CaptureExactly | src/agentic_text2sql/layer4_validation/output_contract.py:138-168 | for a draft without groups whose edit prepares, captured ORDER BY aliases keep the meaning if the visible sort keys stay the same, and only then when one source is ordered by columns and constants and LIMIT is not 0 |
| ProjectionLimits.KeptAreRequested | src/agentic_text2sql/layer4_validation/output_contract.py:94-137 | every requested column is read by exactly one kept output, from a source over the very table it was bound to |
| ProjectionLimits.LeakFails | src/agentic_text2sql/layer4_validation/output_contract.py:154-156 | a dropped alias used in WHERE or ON makes the edited statement fail to prepare |
| ProjectionExamples.OrdinalExample | src/agentic_text2sql/layer4_validation/output_contract.py:138-168 | witness: an expanded alias becomes an ordinal and the rows come back in another order |
| ProjectionExamples.AliasExample | src/agentic_text2sql/layer4_validation/output_contract.py:147-168 | witness: an expanded alias is captured by a kept output's alias |
| ProjectionExamples.GroupExample | src/agentic_text2sql/layer4_validation/output_contract.py:147-168 | witness: an expanded alias in GROUP BY becomes an ordinal, and one row becomes two |
| ProjectionExamples.BareColumnExample | src/agentic_text2sql/layer4_validation/output_contract.py:91-93 | witness: dropping MAX lets SQLite read bare columns from another row |
| ProjectionExamples.DistinctExample | src/agentic_text2sql/layer4_validation/output_contract.py:31-41 | witness: without the guard against DISTINCT the edit would lose a row |
| GroupRankChoice.RanksExactly | src/agentic_text2sql/layer4_validation/output_contract.py:173-266 | the ranking edit yields a statement if and only if the one source is the base table the question asks to count, rows of it are counted and nothing else is aggregated, and the one group key is the column or month of the tie policy; and then it is the draft ordered by that count and key, limited to one |
| GroupRank.RankIdempotent | src/agentic_text2sql/layer4_validation/output_contract.py:173-266 | the ranking edit applied to its own output changes nothing |
| GroupRank.SameKey | src/agentic_text2sql/layer4_validation/output_contract.py:230-255 | the GROUP BY key and the added ORDER BY key mean the same expression if and only if the key does not clash |
| GroupRankMeaning.RankPlan | src/agentic_text2sql/layer4_validation/output_contract.py:256-266 | the edited statement compiles to a plan sorted by group size, then by the group key, limited to one |
| GroupRankMeaning.ExtremeGroupWins | src/agentic_text2sql/layer4_validation/output_contract.py:256-266 | such a plan answers with the one winning group, and with nothing on an empty population |
| GroupRankMeaning.WinnerUnique | src/agentic_text2sql/layer4_validation/output_contract.py:262-264 | two winning keys are equal: the tie key leaves one winner |
| GroupRankExact.StoredOrderIrrelevant | src/agentic_text2sql/layer4_validation/output_contract.py:256-266 | permuting the stored tables does not change the one answer of the edited statement, when its outputs are keys and counts |
| GroupRankMeaning.GroupRankingAnswers | src/agentic_text2sql/layer4_validation/output_contract.py:173-266 | when the keys do not clash, on any conforming table content the edited statement returns just the group with the extreme count and, among ties, the extreme key |
| GroupRankExact.GroupRankingExactly | src/agentic_text2sql/layer4_validation/output_contract.py:173-266 | every answer on every conforming database is the winning group if and only if the keys do not clash or the outputs read no column outside the count |
| GroupRankExact.ClashBetraysIn | src/agentic_text2sql/layer4_validation/output_contract.py:230-255 | with clashing keys, a plain column behind the alias and a plain output, the wrong group is returned on some conforming database whatever SQLite's operators are, as long as conditions hold |
| RankExamples.KeyClashExample | src/agentic_text2sql/layer4_validation/output_contract.py:230-255 | witness: a licensed edit with clashing keys, a conforming database and an answer that is not the winning group |
| OutputDispatch.AveragesExactly | src/agentic_text2sql/layer4_validation/output_contract.py:269-299 | the scalar edit is the average of the one numeric column of a base table that the metric names, for a bare draft without aggregate, and there is none otherwise |
| OutputDispatch.EditedPlainly | src/agentic_text2sql/layer4_validation/output_contract.py:31-41 | an edit is made only of an unnested statement without DISTINCT, OFFSET or `*`, and never one that changes nothing |
| OutputDispatch.EditedWhenever | src/agentic_text2sql/layer4_validation/output_contract.py:310-319 | no edit of such a statement means that projection, ranking or else the average would not change it |
| OutputDispatch.ProjectionSettles | src/agentic_text2sql/layer4_validation/output_contract.py:87-170 | the projection edit does not fire on its own output |
| OutputDispatch.OutputSettles | src/agentic_text2sql/layer4_validation/output_contract.py:269-333 | re-compiling the contract of a planned statement never finds the same code; after a scalar average it finds none, after a ranking none unless an ordinal in the old ORDER BY had blocked the projection |
| RankBinding.MetricIsOnly | src/agentic_text2sql/layer4_validation/rank_binding.py:18-27 | a metric is bound if and only if one position of the whole catalog has a column all of whose words are in the question, and it is that column |
| RepairChoice.MatchesExactly | src/agentic_text2sql/layer4_validation/rank_binding.py:30-71 | the critic recognises an order if and only if its first key, or the one output alias it names, is certain to read the metric |
| ClauseCritic.ChildrenOf | src/agentic_text2sql/layer4_validation/clause_critic.py:148-156 | at least two children are found exactly when two other sources may multiply the parent's rows |
| ClauseCritic.FindSiblingRisk | src/agentic_text2sql/layer4_validation/clause_critic.py:141-167 | the nested search with its breaks finds a fan-out risk exactly when there is one |
| ClauseCritic.AssessRank | src/agentic_text2sql/layer4_validation/clause_critic.py:52-129 | the reassigned direction and the appended findings are the order and limit findings of the specification |
| ClauseCritic.AssessClauses | src/agentic_text2sql/layer4_validation/clause_critic.py:36-194 | the appended findings are the assessment that the repair lemmas are about |
| CriticChoice.ContradictsExactly | src/agentic_text2sql/layer4_validation/clause_critic.py:36-139 | the critic contradicts a statement of any shape for just three causes, each characterised: no order, the wrong direction of a recognised order, another limit than asked |
| CriticChoice.UniqueKeyMeans | src/agentic_text2sql/layer4_validation/clause_critic.py:25-33 | columns count as unique if and only if any two records that agree on them agree on the primary key, and there is one |
| CriticChoice.SiblingsExactly | src/agentic_text2sql/layer4_validation/clause_critic.py:141-167 | the grain is left open if and only if the statement aggregates over a source whose rows two others may each multiply |
| RepairContract.CompileRepairContract | src/agentic_text2sql/layer4_validation/repair_contract.py:29-100 | editing the copy field by field yields the planned contract, or none in every refusal case |
| RepairChoice.PlansExactly | src/agentic_text2sql/layer4_validation/repair_contract.py:29-100 | for the critic's own findings a repair by a metric is planned if and only if the question asks a ranking in one direction of at most 200 rows, the draft has one source and nothing but WHERE, ORDER BY and LIMIT, that column alone is named by the question, and the order is missing or by it and direction or limit are wrong |
| RepairChoice.PlannedIs | src/agentic_text2sql/layer4_validation/repair_contract.py:60-88 | the planned statement is the draft with the asked limit and, where it had no order, one by the metric, or where it went the wrong way, its first key turned; nothing else changes |
| RepairContract.Reassessed | src/agentic_text2sql/layer4_validation/repair_contract.py:66-100 | re-assessing the planned statement leaves no new UNKNOWN code, and a contradiction exactly on a language disagreement it had to settle |
| RepairContract.ContractFixpoint | src/agentic_text2sql/layer4_validation/repair_contract.py:103-120 | admission accepts only the planned tree, and accepts it when it validates exactly under the stated condition on the two languages |
| RankRepairMeaning.PlannedPlan | src/agentic_text2sql/layer4_validation/repair_contract.py:71-88 | the planned statement prepares to the draft's plan with another order and limit only, sorted first by the one catalog column the question names |
| RankRepairMeaning.PlannedDirection | src/agentic_text2sql/layer4_validation/repair_contract.py:66-85 | the planned direction is the asked one if and only if the order was touched or the languages agree |
| RankRepairMeaning.RankRepairTopK | src/agentic_text2sql/layer4_validation/repair_contract.py:29-100 | when the planned order is the asked one, the planned query returns on every table content min(count, population) rows of the unchanged population and omits none that beats a returned one by the one catalog column the question names |
| RankExact.RankRepairExactly | src/agentic_text2sql/layer4_validation/repair_contract.py:29-100 | every answer on every database is such a top k if and only if the planned order is the asked one, or no row is asked for, or the outputs read no column |
| RankExact.RankRepairFailsIn | src/agentic_text2sql/layer4_validation/repair_contract.py:29-100 | with a plain output column and another planned order than the asked one, rows that are no asked top k are returned on some database whatever SQLite's operators are, as long as conditions hold |
| RankExamples.NullsExample | src/agentic_text2sql/layer4_validation/clause_critic.py:74-90 | witness: NULLS FIRST is kept and no answer is the asked top 1 |
| ExecutionEqual.ExecutionEqual | src/agentic_text2sql_eval/spider_release.py:229-247 | on rectangular results true exactly when some tried column permutation makes the key rows equal, as multisets or as sequences |
| ResultMeaning.RoundsToNearest | src/agentic_text2sql_eval/spider_release.py:216-218 | six-decimal rounding gives the nearest millionth, on a tie the even one |
| ResultMeaning.KeysAgree | src/agentic_text2sql_eval/spider_release.py:216-221 | two cells have one key if and only if both are NULL, equal texts or blobs, the same non-finite number, or numbers with one nearest millionth |
| ResultMeaning.EquivalentMeans | src/agentic_text2sql_eval/spider_release.py:224-247 | results are equivalent if and only if some rearrangement of columns and, unless ordered, of rows makes every cell agree with the gold cell in its place |
| ResultMeaning.IntegersDiffer | src/agentic_text2sql_eval/spider_release.py:216-221 | different integers never agree, and NULL agrees with NULL only |
| ExecutionEqual.Reflexive | src/agentic_text2sql_eval/spider_release.py:229-247 | every result equals itself |
| ExecutionEqual.Symmetric | src/agentic_text2sql_eval/spider_release.py:229-247 | by inverse permutations, at every width |
| ExecutionEqual.Transitive | src/agentic_text2sql_eval/spider_release.py:229-247 | by composed permutations, at every width |
| Sorting.SortCanonical | src/agentic_text2sql_eval/spider_release.py:224-226 | sorting by an injective repr is a canonical form of the multiset of rows |
| Sorting.PermutationsComplete | src/agentic_text2sql_eval/spider_release.py:243-244 | the enumeration yields exactly the permutations of its pool |
| FkGraph.BuildAdjacency | src/agentic_text2sql/layer2_grounding/fk_graph.py:33-43 | the nested loops build the adjacency, or raise on a foreign key with unequal column lists |
| FkGraph.AdjacencyEdges | src/agentic_text2sql/layer2_grounding/fk_graph.py:33-43 | the graph is undirected and its edges are exactly the foreign keys |
| JoinClosure.FindPathLoop | src/agentic_text2sql/layer2_grounding/fk_graph.py:51-64 | the queue loop ends on every graph and computes the search the next row is about |
| JoinClosure.FindPathNearest | src/agentic_text2sql/layer2_grounding/fk_graph.py:51-64 | a path found is a shortest path to any selected table, within the hop bound; when none is found none is within the bound |
| JoinForest.MinimalJoinClosure | src/agentic_text2sql/layer2_grounding/fk_graph.py:28-70 | the seed loop computes the closure, and refuses other hop bounds and unequal keys |
| JoinForest.ClosureMonotone | src/agentic_text2sql/layer2_grounding/fk_graph.py:46-70 | a longer seed prefix selects at least the same tables and joins |
| JoinForest.ClosureIsForest | src/agentic_text2sql/layer2_grounding/fk_graph.py:46-70 | every seed is selected, joins are edges between selected tables, form no cycle, and number the selected tables less one less the unattached seeds |
| JoinForest.JoinsAreForeignKeys | src/agentic_text2sql/layer2_grounding/fk_graph.py:33-70 | every join of a closure is a foreign key of the catalog |
| JoinForest.ClosureCanonical | src/agentic_text2sql/layer2_grounding/fk_graph.py:46-70 | the closure does not depend on the order in which the catalog lists its foreign keys |
| SchemaLinker.CollectTables | src/agentic_text2sql/layer2_grounding/schema_linker.py:46-61 | the two loops with their breaks collect the first distinct tables of the ranked documents, up to the bound |
| SchemaLinker.LinkSchema | src/agentic_text2sql/layer2_grounding/schema_linker.py:25-103 | returns the context of the longest seed prefix such that it and all shorter ones fit; fails exactly when the first does not fit or the input is unusable |
| LinkerMeaning.SeedsAreFirstNamed | src/agentic_text2sql/layer2_grounding/schema_linker.py:46-61 | the seeds are distinct named tables, each first named before those it precedes; a table left out is named after all of the allowed number of others |
| LinkerMeaning.ColumnsExactly | src/agentic_text2sql/layer2_grounding/schema_linker.py:67-75 | a column is selected if and only if a document of a selected table is about it or a join of the closure needs it |
| LinkerMeaning.EvidenceNext | src/agentic_text2sql/layer2_grounding/schema_linker.py:80-90 | the evidence is the documents of selected tables, all of them, in ranked order |
| SchemaLinker.ContextsGrow | src/agentic_text2sql/layer2_grounding/schema_linker.py:65-75 | tables, joins and columns only grow with the number of seeds |
| SchemaLinker.ContextConsistent | src/agentic_text2sql/layer2_grounding/schema_linker.py:65-75 | every seed is selected, and both ends of every join are selected columns of selected tables |
| Hardware.SampleReadsLine | src/agentic_text2sql/hardware.py:281-295 | a line is taken if and only if it has six readings, none negative, all but power whole, utilization a percentage; every field of the sample is the reading of that name, power the higher of the two |
| Hardware.SafeExactly | src/agentic_text2sql/hardware.py:327-368 | a sample has no unsafe reason if and only if it is a possible reading within every limit |
| Hardware.SafeMeansNoBreach | src/agentic_text2sql/hardware.py:327-368 | a sample without an unsafe reason reaches no GPU limit |
| GpuMonitor.PeakIsMaximum | src/agentic_text2sql/gpu_monitor.py:60-76 | merged frames are the pointwise maximum: at least every frame, each field attained |
| GpuMonitor.BreachSurvives | src/agentic_text2sql/gpu_monitor.py:60-76 | a frame over a GPU limit makes every merge that contains it breach |
| GpuMonitor.GpuMonitor.Accept | src/agentic_text2sql/gpu_monitor.py:38-77 | a line that cannot be read fails the stream, as does a gap; any other joins what waits |
| GpuMonitor.AcceptedLine | src/agentic_text2sql/gpu_monitor.py:57-77 | a good line no more than half a second after the last accepted one joins the accepted frames, and stays |
| GpuMonitor.FramesAreTimely | src/agentic_text2sql/gpu_monitor.py:57-77 | consecutive accepted frames are read at most half a second apart, in every interleaving |
| GpuMonitor.GpuMonitor.StopReader | src/agentic_text2sql/gpu_monitor.py:79-90 | a reader that ends while not closing leaves an error |
| GpuMonitor.GpuMonitor.Poll | src/agentic_text2sql/gpu_monitor.py:139-155 | one turn of sample: takes everything that waits, or waits, or fails; a stale or late stream fails for good, a dead one fails the call and records no error |
| GpuMonitor.NoFrameLost | src/agentic_text2sql/gpu_monitor.py:57-155 | in every interleaving the samples taken are the maxima of consecutive disjoint blocks that, with what waits, are all accepted frames in order |
| GpuMonitor.AcceptedIsTaken | src/agentic_text2sql/gpu_monitor.py:57-155 | a frame accepted before a poll that completes is in a block whose maximum is taken, or the poll failed |
| GpuMonitor.PollDecides | src/agentic_text2sql/gpu_monitor.py:139-155 | a poll takes what waits exactly when there is no error, the sensor lives and the newest frame is no older than half a second; when it goes on, and when it fails for good |
| GpuMonitor.ReaderEnds | src/agentic_text2sql/gpu_monitor.py:79-90 | the end of the reader leaves an error unless it was asked to close and had not failed |
| GpuMonitor.TakenIsFresh | src/agentic_text2sql/gpu_monitor.py:139-155 | a sample is taken only when the newest frame is no more than half a second old |
| GpuMonitor.ErrorIsFinal | src/agentic_text2sql/gpu_monitor.py:122-127 | after an error every poll fails and takes nothing |
| GpuMonitor.RejectedLineFails | src/agentic_text2sql/gpu_monitor.py:58-90 | a malformed line or a stream gap adds no frame, and whatever happens until the reader records its error, every poll after that fails and takes nothing |
| WindowsMonitor.WindowsHostMonitor.Accept | src/agentic_text2sql/windows_monitor.py:36-64 | a frame is accepted exactly when it is the first ready frame or a valid, timely answer to the pending nonce |
| WindowsMonitor.WindowsHostMonitor.BeginSample | src/agentic_text2sql/windows_monitor.py:142-160 | a call announces its nonce, or fails on a dead, unready or broken channel |
| WindowsMonitor.WindowsHostMonitor.LookAlive | src/agentic_text2sql/windows_monitor.py:162 | each turn of the wait fails on an error or a dead process, and otherwise goes on to look for the answer |
| WindowsMonitor.WindowsHostMonitor.LookResult | src/agentic_text2sql/windows_monitor.py:163-168 | a call delivers the answer to its own nonce in time, or fails for good |
| WindowsMonitor.WindowsHostMonitor.LookTimeout | src/agentic_text2sql/windows_monitor.py:169-173 | after one second without an answer the monitor fails for good |
| WindowsMonitor.OnlyOwnReplies | src/agentic_text2sql/windows_monitor.py:36-183 | in every interleaving a returned value came from a frame with the call's own nonce, received and delivered within one second; no nonce is accepted twice |
| WindowsMonitor.TakenExactly | src/agentic_text2sql/windows_monitor.py:36-64 | a sample is taken if and only if its numbers are possible and it carries the pending nonce within a second of the request; any other frame but the first ready one makes the reader fail |
| WindowsMonitor.AnswerDelivered | src/agentic_text2sql/windows_monitor.py:163-168 | in every interleaving the look at the result delivers the values of the frame taken for this call if a second has not passed, fails for good if it has, and goes on when there is none |
| WindowsMonitor.CallBegins | src/agentic_text2sql/windows_monitor.py:142-160 | a call begins exactly on a ready channel without an error and with a live helper that takes the request; what it then announces and forgets |
| WindowsMonitor.CallGoesOn | src/agentic_text2sql/windows_monitor.py:161-173 | a call under way fails on an error, a dead helper or an answer a second overdue, and otherwise goes round |
| WindowsMonitor.ErrorIsFinal | src/agentic_text2sql/windows_monitor.py:177-183 | after an error only calls that had begun before it can still deliver |
| WindowsMonitor.LaterCallsFail | src/agentic_text2sql/windows_monitor.py:142-183 | after an error every call that begins fails |
| WindowsMonitor.RejectedFrameIsFinal | src/agentic_text2sql/windows_monitor.py:66-79 | a rejected frame is not taken and leaves the permanent error |
| ResourceGuard.Observing | src/agentic_text2sql/resource_guard.py:197-242 | the watch before, during and after the child ends as specified: reason, peak, number of samples |
| ResourceGuard.Guard.GuardedProcess | src/agentic_text2sql/resource_guard.py:164-296 | a run on a set latch changes nothing; any other run writes its journal, sets the latch exactly on a resource stop or clean-up failure, and raises exactly when it must |
| ResourceGuard.FailClosed | src/agentic_text2sql/resource_guard.py:206-296 | the child starts exactly after a safe first observation; the run latches exactly on a bad first one, a bad one while the child runs, a bad last one not forestalled, or a failed clean-up; and it returns exactly when all were made and safe, the exit code is 0 and all was cleaned up |
| ResourceGuard.LatchIsPermanent | src/agentic_text2sql/resource_guard.py:178-181 | on a set latch no later run starts a child |
| ResourceGuard.PeakRecorded | src/agentic_text2sql/resource_guard.py:67-87 | the recorded peak dominates every sample observed |
| ResourceGuard.PeakObserved | src/agentic_text2sql/resource_guard.py:67-87 | and each of its fields was observed; as many samples are counted as were made |
| ResourceGuard.ObservedHosts | src/agentic_text2sql/resource_guard.py:90-103 | an observation is safe only if this host's memory, and that of Windows where it is monitored, is within the limits |
| ResourceGuard.NoBreachEscapes | src/agentic_text2sql/resource_guard.py:201-245 | an accepted sensor line whose memory, temperature, either power or clock is over its limit, read before the run's last completed poll, makes the run raise with the latch set, in any interleaving, and no later run on it starts a child |
| ResourceGuard.BrokenStreamLatches | src/agentic_text2sql/resource_guard.py:201-245 | a malformed line or stream gap recorded before a poll of the run has the same effect |
| ResourceGuard.BrokenObservationLatches | src/agentic_text2sql/resource_guard.py:219-228 | a failed observation has the same effect |
| InferenceRunner.RunInference | src/agentic_text2sql_eval/inference_runner.py:43-83 | a refused call writes nothing; otherwise the k-th write is the old predictions and the first k new ones, and the run stops just before the first infrastructure failure |
| InferenceRunner.CheckpointsArePrefixes | src/agentic_text2sql_eval/inference_runner.py:64-83 | every checkpoint written is a manifest prefix that extends the initial one by the number of new cases |
| GuardedSuite.SelectKeepsManifestOrder | scripts/_guarded_suite.py:32-39 | a selection is refused exactly when it repeats or invents a case; otherwise it is the requested cases, each once, in manifest order |
| GuardedSuite.SuiteDriver.Start | scripts/_guarded_suite.py:121-170 | the refusals of a launch, and the READY state it writes otherwise |
| SuiteSteps.StartsExactly | scripts/_guarded_suite.py:84-170 | a launch starts if and only if its cases are distinct, the checkpoint is a prefix of them, the configuration is the recorded one, no latch is set, no worker of this boot lives and an unclean stop is met with the pilot flag; and the state it writes, field by field |
| GuardedSuite.SuiteDriver.Head | scripts/_guarded_suite.py:210-243 | the loop head completes, fails, pauses or announces a batch |
| SuiteSteps.HeadDecides | scripts/_guarded_suite.py:210-243 | which of the four, read off checkpoint, report, pause request and limits, and what is then on disk |
| GuardedSuite.SuiteDriver.Spawned | scripts/_guarded_suite.py:197-199 | the worker's number is recorded, and nothing else |
| GuardedSuite.SuiteDriver.Cooldown | scripts/_guarded_suite.py:201-208 | the COOLING state, which forgets the worker and its clean-up only when it is gone |
| SuiteSteps.DeadlineRecorded | scripts/_guarded_suite.py:201-208 | the deadline is on disk unless the checkpoint is no prefix, and then nothing is written |
| GuardedSuite.SuiteDriver.Judge | scripts/_guarded_suite.py:257-277 | a batch succeeds only if exactly the expected case was persisted; otherwise the suite stops, keeping a living worker's number |
| SuiteSteps.BatchSucceedsExactly | scripts/_guarded_suite.py:257-277 | a batch succeeds if and only if the guard did and the checkpoint holds one case more, or is still full; what any other leaves on disk |
| GuardedSuite.SuiteDriver.Loop | scripts/_guarded_suite.py:210-288 | unless the turns go on forever the loop ends, and leaves the files and locals that the turns make of them |
| SuiteTermination.OneTurn | scripts/_guarded_suite.py:210-277 | exactly when a turn leads back to the loop head, and what it then changes |
| SuiteTermination.AfterKeeps | scripts/_guarded_suite.py:210-288 | after any number of turns the checkpoint is a manifest prefix that grew by at most one case a turn, and an ended launch has settled: COMPLETE only for the whole manifest and a matching report |
| SuiteTermination.BatchesBounded | scripts/_guarded_suite.py:227-240 | a launch runs no more batches than it is allowed, a pilot at most one |
| SuiteTermination.DiligentEnds | scripts/_guarded_suite.py:210-288 | with a worker that always leaves a report the loop ends within the measure, and settles |
| SuiteTermination.EndlessExactly | scripts/_guarded_suite.py:227-277 | the loop runs n batches for every n if and only if nothing bounds the launch, no report exists, every batch succeeds without a pause and, once the checkpoint is full, leaves no report |
| SuiteTermination.NoReportNoEnd | scripts/_guarded_suite.py:210-288 | witness family: with a full checkpoint and no report, n turns run n batches, for every n |
| SuiteHistory.CheckpointIsPrefix | scripts/_guarded_suite.py:120-288 | over every history in which no orphan writes the checkpoint stays a duplicate-free manifest prefix, never shrinks, and grows by at most one case per batch |
| SuiteHistory.OrphanShrinks | scripts/_guarded_suite.py:196-199 | witness: a worker that outlives a crash before its number is on disk writes a shorter checkpoint over a longer one |
| SuiteHistory.RunWorker | src/agentic_text2sql_eval/inference_runner.py:43-83 | the inference loop with one new case makes of the checkpoint what the worker step of the histories makes of it, or nothing on an infrastructure failure |
| SuiteHistory.CompleteIsTruthful | scripts/_guarded_suite.py:212-226 | in those histories COMPLETE on disk means all cases, a matching report, no living worker but an orphan, every worker cleaned up after, no clean-up pending |
| SuiteHistory.BatchesAreLicensed | scripts/_guarded_suite.py:129-147 | in those histories every batch started without a latch or another worker (nor an orphan, if none was left), not before the recorded cool-down, and while an unclean stop is unresolved only as a pilot's first |
| SuiteHistory.CooldownIsKept | scripts/_guarded_suite.py:166-208 | in those histories no batch starts before the time plus seconds of the latest cool-down step, taken from the events, through crashes, relaunches and reboots; that step never raises in them (CoolRecords) |
| SuiteHistory.PauseStops | scripts/_guarded_suite.py:227-240 | the loop head under a pause request ends the launch without a batch |
| SuiteHistory.PauseStays | scripts/_guarded_suite.py:148-154 | a pause request stays until the operator withdraws it or a launch follows a pause written after it |
| SuiteHistory.ResumeForgets | scripts/_guarded_suite.py:148-154 | and such a launch, when not refused, removes it |
| SuiteHistory.PilotRunsOnce | scripts/_guarded_suite.py:227-240 | a pilot launch starts at most one batch |
| SuiteHistory.LatchStopsTheSuite | scripts/_guarded_suite.py:129-132 | until the operator removes it, a latch lets no batch start, whatever else happens |
| SpiderAdapter.GroupRows | src/agentic_text2sql_eval/spider_adapter.py:68-71 | the groups are exactly the rows that are not excluded, by database, each once |
| SpiderAdapter.Chosen | src/agentic_text2sql_eval/spider_adapter.py:75-78 | the candidate with the best claim, none exactly when all are exhausted |
| SpiderAdapter.Apportion | src/agentic_text2sql_eval/spider_adapter.py:72-80 | ends on every input, succeeds exactly when the minima fit under 100 and the rows reach it, and is then divisor-optimal |
| SpiderAdapter.RaiseOptimal | src/agentic_text2sql_eval/spider_adapter.py:78-80 | raising the best claim keeps divisor-optimality |
| SpiderAdapter.ApportionmentUnique | src/agentic_text2sql_eval/spider_adapter.py:72-80 | divisor-optimal quotas with that total are unique, so the order of databases does not matter |
| SpiderAdapter.PositionsSpread | src/agentic_text2sql_eval/spider_adapter.py:93 | with no more picks than rows the positions are in range and strictly increasing |
| SpiderAdapter.PositionBounds | src/agentic_text2sql_eval/spider_adapter.py:93 | each pick is the row that contains the middle of its stratum |
| SpiderAdapter.CreateManifest | src/agentic_text2sql_eval/spider_adapter.py:63-113 | a manifest exactly under that condition, of exactly 100 distinct rows, none excluded, with the optimal quotas; the final check never fires |
| ManifestMeaning.QuotasAreFair | src/agentic_text2sql_eval/spider_adapter.py:72-80 | one hundred in all, each database between five (or all its rows) and all its rows, and by rows per place none that could take one more has a better claim than another had to its last |
| ManifestMeaning.PicksAreQuantiles | src/agentic_text2sql_eval/spider_adapter.py:81-100 | pick r of a database is the row in the middle of the r-th of equal strata of its rows by rank |
| Validation.RepairableMeans | src/agentic_text2sql/layer5_correction/classifier.py:5-18 | a rejected report can be repaired unless its class is missing, a policy violation, a timeout or unknown; what it says of its own eligibility never matters |
| Validation.SameError | src/agentic_text2sql/layer5_correction/loop_controller.py:12-16 | two failures have one fingerprint exactly when class and signals agree, up to the order of signals |
| Correction.Run | src/agentic_text2sql/layer5_correction/service.py:42-210 | the loop ends for all bounds and computes the specified outcome |
| Correction.CorrectionSound | src/agentic_text2sql/layer5_correction/service.py:70-210 | repairs and calls stay in bounds, every validated statement is new, recovered exactly on VALID with an accepted report, the report is the candidate's unless SQL repeats |
| Correction.CorrectionExplained | src/agentic_text2sql/layer5_correction/service.py:42-210 | which bounds are refused; every statement tried is the model's answer to its call with the report it got, every call is in time and about a report that can be repaired, and each stop reason has its cause |
| Correction.RepeatedSqlReport | src/agentic_text2sql/layer5_correction/service.py:146-160 | on repeated SQL the report is the candidate's own in every run if and only if the bounds allow one repair or one call |
| Correction.ForeignReport | src/agentic_text2sql/layer5_correction/service.py:146-160 | witness for all other bounds: a run returns the report of another statement |
| Budgets.RequestBudget.Consume | src/agentic_text2sql/workflow/budgets.py:37-41 | an attempt is recorded exactly when time and requests are left, and otherwise nothing is |
| Budgets.RequestBudget.CanRequest | src/agentic_text2sql/workflow/budgets.py:43-44 | a request is offered exactly when one is left and the minimum time remains |
| Ollama.OllamaProvider.GenerateStructured | src/agentic_text2sql/adapters/llm/ollama_provider.py:187-236 | every request sent is one attempt of the budget; only malformed answers are retried, a bounded number of times |
| Ollama.OllamaProvider.Send | src/agentic_text2sql/adapters/llm/ollama_provider.py:125-145 | no request is sent that the budget did not admit |
| A1Service.A1QueryService.TryRepair | src/agentic_text2sql/layer6_application/a1_service.py:534-604 | a repair is attempted only in repair mode and for a recoverable error or a licensed contradiction; a CPU repair asks no model, is attempted exactly when a tree is planned and a second is left, and evaluates that tree exactly when time is left; one by the model is attempted exactly when its prompt fits and a request is left |
| A1Service.A1QueryService.Run | src/agentic_text2sql/layer6_application/a1_service.py:385-637 | requests over draft, critic, repair and format retries stay within the budget; the answer is the draft or the repair it admitted, with the matching status |
| A1Facts.IncumbentNeverWorsens | src/agentic_text2sql/layer6_application/a1_service.py:579-625 | an accepted draft ends SUCCEEDED with itself or an accepted repair with strictly fewer contradictions and no new unknown; a rejected one is replaced only by an accepted repair without any |
| A1Facts.RecoverableExactly | src/agentic_text2sql/layer6_application/a1_service.py:534-536 | a rejected draft counts as recoverable if and only if its error is known and none of eight classes |
| A1Facts.RepairsAreLicensed | src/agentic_text2sql/layer6_application/a1_service.py:534-540 | a repair is attempted only with corrections on, in repair mode, for one of seven errors or a contradiction, in obligation mode with an eligible contract |
| A1Facts.CpuRepairHappens | src/agentic_text2sql/layer6_application/a1_service.py:541-578 | with time at every reading of the clock a contradicted draft with an eligible contract is repaired: the planned tree is evaluated |
| A1Facts.StatusTells | src/agentic_text2sql/layer6_application/a1_service.py:445-637 | what each status says about routing, grounding, the model and the answer's report |
| A1Facts.PolicyViolationIsFinal | src/agentic_text2sql/layer6_application/a1_service.py:534-540 | a draft that violates policy is never repaired |
| A1Facts.OffAndShadowAgree | src/agentic_text2sql/layer6_application/a1_service.py:494-540 | for one draft, the modes off and shadow, and repair mode with corrections off, select the same candidate and status whatever the critic returns |
| A1Facts.AdmitsExactly | src/agentic_text2sql/layer6_application/a1_service.py:97-135 | admit_repair accepts if and only if nothing but the first key's direction or the limit changed, each only where it was contradicted, with strictly fewer contradictions and no new unknown |
| A1Facts.AdmittedKeepsPopulation | src/agentic_text2sql/layer6_application/a1_service.py:97-135 | what admit_repair accepts differs from the draft's plan only in licensed order directions and limit, and draws on the same population on every database |
| A1Facts.RankRunSelects | src/agentic_text2sql/layer6_application/a1_service.py:537-615 | in obligation mode a run on a ranking question ends with the planned statement exactly under the stated condition, and otherwise with the draft |
| A1Facts.RankRunRepairs | src/agentic_text2sql/layer6_application/a1_service.py:537-615 | with time at every reading of the clock and no disagreement of languages the planned statement is evaluated, and is the answer when accepted |
| A1Facts.RankRunAnswers | src/agentic_text2sql/layer6_application/a1_service.py:537-625 | and its answers are then on every database the asked top k of the draft's own population, if and only if the order is the asked one, or no row is asked for, or the outputs read no column |
| EmbeddingCache.IndexService.Lookup | src/agentic_text2sql/layer2_grounding/service.py:265-278 | the lookups in chunks of 500 find exactly the stored rows of all texts |
| EmbeddingCache.IndexService.CachedEmbeddings | src/agentic_text2sql/layer2_grounding/service.py:249-298 | asks for just the missing texts, stores them, leaves the store alone on a wrong count, and answers or refuses on inconsistent dimensions |
| EmbeddingCache.CacheIsDirect | src/agentic_text2sql/layer2_grounding/service.py:293-296 | on a genuine store the answer is the direct embedding of every document, duplicates included |
| EmbeddingCache.CallTwice | src/agentic_text2sql/layer2_grounding/service.py:279-293 | the store stays genuine and an immediate second call asks for nothing and answers the same |

## Left out

* SQL parsing and printing: statements are trees, a printed tree is taken to parse back to itself, and identifiers are case-exact. Subqueries, CTEs and windows appear only as the flag the guards test. A `*` output is one value made of the cells of its row, so ordinals and names that point into it are not resolved.
* OutputContract.Simple: refuses every nested scope, while the code looks for subquery, CTE and window nodes only; statements with EXISTS over a SELECT, which the code lets through, have no meaning here.
* GroupRank.TableNamed: of two catalog tables with one name the code's dictionary takes the last, the model and SQLite's lookup the first; a catalog read from SQLite has no two.
* Reading natural language by regular expressions: counts, direction words, tie keys, requested terms and word sets are inputs, combined in the order of the branches.
* What a scalar average returns: the statement is modelled, its value is an aggregate that SQLite decides. Which columns have a numeric type is an input, and an output contract is its code and its planned statement.
* What SQLite decides - scalar operators, aggregates other than COUNT, truth of a value, LIMIT expressions, the row bare columns come from - is a parameter of every theorem.
* `expand_tables`: an easy bounded expansion beside the closure. In `minimal_join_closure` the text of a join stands for the join, and the sorting of the returned joins is not modelled.
* The ranking of retrieval candidates in `link_schema`, the rendering of the context and its token estimate: the ranked documents are an input, the cost is any function.
* Floating point: finite numbers are exact rationals, and `repr` is taken to be injective on row keys, so negative zero and rounding of ratios are not modelled.
* Process groups, signals, lock files, sockets, the sensor processes' start-up and shutdown, and the GPU journal file. Taking a lock makes a step atomic.
* SuiteHistory.CheckpointIsPrefix: assumes, as do CompleteIsTruthful and BatchesAreLicensed, that a worker which outlives a crash before its number is on disk writes nothing more, because the code cannot detect such an orphan (`OrphanShrinks`). Crashes fall between the modelled steps; a single state write is atomic.
* SuiteHistory.CooldownIsKept: is about histories in which no orphan writes. Only there can the cool-down step meet a checkpoint that is no prefix; it then raises, and neither the code nor the model records the deadline (`SuiteSteps.DeadlineRecorded`). That the cool-down lasts at least sixty seconds is checked on the command line and not modelled.
* SuiteHistory.BatchesAreLicensed: the code does not call a batch that failed in an orderly way an unclean stop, so neither does the model. The operator's removal of a latch is taken to include stopping workers and unloading models.
* GuardedSuite.SuiteDriver.Loop: asks that the turns do not go on forever, because then the code does not end either; `EndlessExactly` says when that is. Crashes of the driver are in SuiteHistory only.
* ProjectionChoice.FiresExactly: is about drafts that prepare and whose sources have names; for others `OutputContract.Projection` and `UnansweredRefused` say what is checked, as there is no column an output reads.
* WindowsMonitor.OnlyOwnReplies: nonces are taken to be fresh, as the code's random identifiers are meant to be.
* ExecutionEqual.ExecutionEqual: rows of unequal length within one result are not modelled; SQLite does not return them.
* GroupRankMeaning.GroupRankingAnswers: assumes that the two keys do not clash, which `GroupRankingExactly` shows is needed, and that the table holds no NULL in a column declared NOT NULL.
* ProjectionMeaning.ProjectionKeepsMeaning: assumes that nothing kept depends on the row SQLite reads bare columns from. `ProjectionExactly` gives the exact condition where HAVING and ORDER BY have one value per group; where they read bare columns only its necessity is proved. Captured aliases are the subject of `EditedPlan` and `CaptureExactly`; whether a capture shows in a grouped draft, or through a join or an expression key, is not decided.
* RankRepairMeaning.RankRepairTopK: assumes that the planned order is the asked one, which `RankRepairExactly` shows is needed, and that table names are distinct.
* Prompts, schemas, HTTP, grounding, `grounded_model_findings`, telemetry and timings of the question-first run: the critic's findings reach the answer only through the model's repair prompt.
* A1Service.A1QueryService.Run: a provider outside the shared budget is accounted one request a call, whatever it retries on its own.
* EmbeddingCache.IndexService.CachedEmbeddings: model and template are fixed, so a text stands for its key; SQLite's transaction and concurrent writers are not modelled.
* Streamlit, FastAPI, command lines, reports, metrics, dataset builders, settings and the tmux runner.
