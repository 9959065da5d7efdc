# Verified models of the SemQL cores

A Dafny model of the algorithms SemQL's answers depend on, and proofs of what
they guarantee. Each module follows one source file; loops and objects that
change state are methods and classes proved against a specification, and the
guarantees are lemmas about that specification.

- `Spec`, `Cnf`: predicate trees and their conjunctive normal form, with
  three-valued meaning.
- `ResultCache`, `CacheIsolation`: the engine's LRU and TTL cache as a machine
  over whole traces, and, on an explicit heap, the containers that results and
  entries are made of. `TypeInference` infers column types from values.
  `AsyncRuns` interleaves calls on one asynchronous engine, and `AsyncProgress`
  shows that each can finish.
- `SemanticGraph`, `GraphReader`, `GraphMeaning`: the artifact graph, its
  memoised reader and what equal descriptors mean. `Compare`, `CompareChecks`,
  `CompareResults`, `CompareRenaming`, `ComparePermuting`: the comparison of two
  artifacts, what it demands of them, and when it finds them equivalent.
- `AnalysisDraft`, `AnalysisBuilder`, `AnalysisAssembly`, `AnalysisNames`,
  `AnalysisOutputs`, `AnalysisResult`, `AnalysisBuild`: the construction of an
  artifact, step by step, and when it succeeds. `AnalysisUse`, `AnalysisLookup`
  and `AnalysisHaving` say what every reference and name stands for;
  `AnalysisSoundness`, `AnalysisReading`, `AnalysisSenses` and
  `AnalysisPopulation` prove what holds of every artifact built and read it back.
- `Schema`, `SchemaMeaning`, `TupleSchema`, `TupleMeaning`: the projection of a
  JSON Schema without reference cycles or tuple schemas, what it deletes, and
  what the latter does to validation.
- `AutoPlan`, `AutoPlanDecisions`, `AutoPlanMeaning`, `SemiJoin`: planning filters
  into semi-joins, running them in stages, and their meaning. The other way to run
  such a query is a merge: `MergeJoins` plans its joins, `MergePlanned` says when
  it can be planned, and `BridgeMerge` when both ways give the same rows.
- `Cohort`, `CohortKeys`, `CohortComparison`, `CohortMeaning`, `CohortCells`,
  `CohortFailures`, `Decimals`: aligning measurements to members by typed key,
  exact decimal differences, what every cell is and which failure is raised.
- `RowAdapter`, `RowMeaning`, `JoinClosure`, `TimeSpine`, and `Catalog`,
  `CatalogMeaning`, `CatalogJoins`, `CatalogRoundTrip`: filtering and ordering
  rows, join paths, time buckets, inheritance between cubes and inferred joins.
- `Naming`, `Sequences`, `Wrappers`: shared small pieces.

`dafny verify dfyconfig.toml` checks the project.

Where the code falls short of what its comments or its documentation say, the
model keeps the code and the exact condition is proved:

- The comparison expansion renumbers aggregates but lets other outputs keep
  their numbers. Projections list measures last, so output identifiers clash
  exactly when periods are compared and an inline measure stands beside an
  aggregate one (`AnalysisReading.BuiltStructure`, `AnalysisReading.ClashIffInline`,
  and `AnalysisReading.InlineClashes` for a query that does it).
- Fields are registered by canonical name, the later one winning, and touched
  cubes are registered last. So a reference's node describes another field
  exactly when a later registration has its name: a measure and a dimension of
  one name on one cube suffice (`AnalysisUse.NodeIsOwnIff`,
  `AnalysisUse.SharedNameMisleads`).
- The planner says that its rewrite and the merge it replaces return identical
  rows. The merge can be planned exactly when every rewritten cube has a backend
  and a bridge of its own (`MergePlanned.MergeIsPlannedIff`,
  `BridgeMerge.OneBackendRefused`). Then they agree on every query with output
  dimensions, and on others exactly when some row survives, or no list was empty
  and the measure is no count (`BridgeMerge.PlannedIsMerged`,
  `BridgeMerge.StarvedTotal`, `BridgeMerge.UncountedTotal`).
- The day-index time spines agree with the documented buckets exactly when
  buckets start at midnight. Below a day they gain a bucket before the window
  and miss those no midnight falls in: 23 of the 24 hours of a day
  (`TimeSpine.SpinesAgreeIffDayAligned`, `TimeSpine.BelowADayGains`,
  `TimeSpine.MissedIff`, `TimeSpine.HoursAreMissed`).
- Decimal inference counts digits for zero and for trailing zeros, and refuses
  columns a 38-digit type would hold exactly when only those digits exceed 38
  (`TypeInference.RefusedIffNoneHolds`, `TypeInference.ZeroCostsADigit`,
  `TypeInference.TrailingZeroCostsADigit`).
- A column that mixes floats and integers becomes DOUBLE, which rounds an
  integer exactly when it is no double, though a column is otherwise refused
  rather than rounded (`TypeInference.LosslessIff`, `TypeInference.MixedColumnRounds`).
- A catalog's own cube under a reflection cube's name is left out of the
  catalog's specification. Rebuilding gives the same cubes exactly when the
  catalog ends with the reflection cubes unchanged (`CatalogRoundTrip.RebuiltIff`,
  `CatalogRoundTrip.TakenNameIsLost`).

## Model

| member | source | states |
|---|---|---|
| Cnf.ToCnfPreservesMeaning | packages/semql/src/semql/cnf.py:29-74 | for every well-formed tree and every assignment of true, false or unknown to its filters, the normal form has the same Kleene value as the tree |
| Cnf.ToCnfShape | packages/semql/src/semql/cnf.py:29-74 | every result is a literal, a flat OR of distinct literals, or a flat AND of at least two distinct such clauses |
| Cnf.FixedPointsAreCnf | packages/semql/src/semql/cnf.py:29-74 | a well-formed tree is returned unchanged iff it is already in that form |
| Cnf.ToCnfIdempotent | packages/semql/src/semql/cnf.py:61-71 | normalising twice is normalising once |
| Cnf.WeightOfNotEach | packages/semql/src/semql/cnf.py:45-52 | pushing NOT onto n children doubles their summed weight, so it still weighs less than the NOT it replaces: the measure under which the recursion ends |
| Cnf.ProductIsAllChoices | packages/semql/src/semql/cnf.py:138-149 | the product is exactly the set of lists that pick one element from each list |
| Cnf.ProductLoop | packages/semql/src/semql/cnf.py:138-149 | the nested loops compute that product |
| Cnf.FlattenAndDedupLoop | packages/semql/src/semql/cnf.py:77-99 | the loop with its `seen` set yields first occurrences of the spliced children, in order |
| Cnf.DistributeMeaning | packages/semql/src/semql/cnf.py:102-135 | all distributed clauses reach a truth threshold iff some disjunct does |
| Cnf.DistributeShape | packages/semql/src/semql/cnf.py:102-135 | distribution of normal disjuncts yields clauses only, and at least one |
| Cnf.DistributeLoop | packages/semql/src/semql/cnf.py:102-135 | the loop builds those clauses |
| Cnf.Normalise | packages/semql/src/semql/cnf.py:185-198 | the recursion over the loops returns the normal form of the tree |
| ResultCache.Engine.Execute | packages/semql-engine/src/semql_engine/engine.py:839-876 | one call changes the ordered dictionary and the counters exactly as one step of the cache specification, and replies as it does |
| ResultCache.Engine.ClearCache | packages/semql-engine/src/semql_engine/engine.py:797-800 | clearing empties the cache and keeps both counters |
| ResultCache.AlwaysWellKept | packages/semql-engine/src/semql_engine/engine.py:862-873 | after any trace, keys are unique and at most `cache_size` entries are held |
| ResultCache.CountersBalance | packages/semql-engine/src/semql_engine/engine.py:834-838 | after any trace, with expiry, failures and values that cannot be cached, hits plus misses equal the completed runs |
| ResultCache.RecencyIsByLastUse | packages/semql-engine/src/semql_engine/engine.py:850-851 | the recency list holds every key used since the last clear, once, in increasing order of last use |
| ResultCache.CacheIsMostRecent | packages/semql-engine/src/semql_engine/engine.py:869-873 | without a TTL the cache is exactly the last `cache_size` distinct cacheable keys used |
| ResultCache.HitIffRecent | packages/semql-engine/src/semql_engine/engine.py:844-857 | without a TTL a request is a hit iff its key is among those |
| ResultCache.HitsCarryOver | packages/semql-engine/src/semql_engine/engine.py:844-873 | a request that hits in a smaller cache hits in a larger one on the same trace |
| ResultCache.Inclusion | packages/semql-engine/src/semql_engine/engine.py:839-876 | the keys of a smaller cache are the most recent of the keys of a larger one after every trace, and the larger never has fewer hits |
| ResultCache.SlotOrigin | packages/semql-engine/src/semql_engine/engine.py:862-871 | every cached entry is the value of the latest completed execution of its key since the last clear |
| ResultCache.HitIsFresh | packages/semql-engine/src/semql_engine/engine.py:844-857 | a hit returns that execution's value, before its time to live has passed |
| CacheIsolation.ViewOfRows | packages/semql-engine/src/semql_engine/engine.py:567-582 | a result copied row by row reads, to every depth, as the original |
| CacheIsolation.ViewFrame | packages/semql-engine/src/semql_engine/engine.py:567-582 | what is read inside a closed set of containers depends only on those containers |
| CacheIsolation.AlwaysIsolated | packages/semql-engine/src/semql_engine/engine.py:844-873 | in every run, with callers mutating what they hold between calls, the entries stay apart from everything returned |
| CacheIsolation.NothingShared | packages/semql-engine/src/semql_engine/engine.py:574-582 | no container reachable from any result ever returned is reachable from an entry |
| CacheIsolation.EntryReadsAsStored | packages/semql-engine/src/semql_engine/engine.py:862-871 | from its storing on, no sequence of steps changes what an entry reads as |
| CacheIsolation.EntryStays | packages/semql-engine/src/semql_engine/engine.py:862-873 | what an execution stored stays in the cache until it is evicted |
| CacheIsolation.HitReadsAsStored | packages/semql-engine/src/semql_engine/engine.py:845-857 | a later hit returns rows that read as the execution that stored the entry produced them |
| TypeInference.Infer | packages/semql-engine/src/semql_engine/engine.py:1014-1073 | the branches and the two measuring loops return the specified type or refusal |
| TypeInference.Measure | packages/semql-engine/src/semql_engine/engine.py:1051-1064 | the loops find the largest scale and the most integer digits |
| TypeInference.LosslessIff | packages/semql-engine/src/semql_engine/engine.py:1024-1073 | every value of a column is held exactly by its inferred type unless it is an integer that is no double in a column of numbers with a float; an inferred DECIMAL(p, s) has 1 <= p <= 38 and 0 <= s <= p |
| TypeInference.MixedColumnRounds | packages/semql-engine/src/semql_engine/engine.py:1024-1040 | a float beside 2^53 + 1 becomes DOUBLE and the integer is rounded |
| TypeInference.RepresentableIff | packages/semql-engine/src/semql_engine/engine.py:1051-1073 | some decimal type of at most 38 digits holds a column of finite decimals iff its non-zero values need at most 38 digits once trailing fractional zeros are dropped |
| TypeInference.RefusedIffNoneHolds | packages/semql-engine/src/semql_engine/engine.py:1065-1073 | such a column is refused iff no such type holds it, except exactly when 38 digits are exceeded by zeros alone |
| TypeInference.InferredIsLeastIff | packages/semql-engine/src/semql_engine/engine.py:1051-1065 | the inferred scale and precision are the least that hold the column iff neither zeros nor trailing fractional zeros raise them |
| TypeInference.ZeroCostsADigit | packages/semql-engine/src/semql_engine/engine.py:1059-1072 | zero beside 38 decimal places is refused although DECIMAL(38, 38) holds both |
| TypeInference.TrailingZeroCostsADigit | packages/semql-engine/src/semql_engine/engine.py:1059-1072 | 39 decimal places ending in zero are refused although DECIMAL(38, 38) holds the number |
| AsyncRuns.ConcurrentIsAlone | packages/semql-engine/src/semql_engine/engine.py:1374-1531 | in every interleaving on private connections a finished call has sent the rows its plan yields alone, and a stream's chunks are non-empty, at most `chunk_rows` long and concatenate to them |
| AsyncProgress.EachCanFinish | packages/semql-engine/src/semql_engine/engine.py:1374-1531 | from every state that calls on private connections reach, each call can still finish, without new calls, having sent the rows its plan yields alone |
| AsyncRuns.StreamedIsMerged | packages/semql-engine/src/semql_engine/engine.py:1292-1300 | a plan that passes the test for streaming its only fragment yields, merged, exactly that fragment's rows, if it came from the compiler |
| AsyncRuns.ClausesAreSkipped | packages/semql-engine/src/semql_engine/engine.py:1292-1300 | the test alone does not make them equal: a plan with a merge clause passes it and the clause is skipped |
| AsyncRuns.AlwaysIsolated | packages/semql-engine/src/semql_engine/engine.py:1350-1367 | every interleaving of calls, arrivals, merges and fetches keeps each stream on its own connection with its own remaining rows |
| AsyncRuns.LoadFragments | packages/semql-engine/src/semql_engine/engine.py:1420-1423 | the loading loop makes table i hold fragment i's rows and leaves other tables alone |
| AsyncRuns.NextChunk | packages/semql-engine/src/semql_engine/engine.py:1484-1493 | the pulling loop takes the first `chunk_rows` rows and leaves the rest |
| AsyncRuns.SharedConnectionInterferes | packages/semql-engine/src/semql_engine/engine.py:1332-1362 | on a caller-supplied connection two streams can interleave so that one sends the other's rows |
| GraphReader.WalkSucceedsIffSound | packages/semql/src/semql/_compare.py:142-157 | reading a key succeeds iff no path from it repeats a key, leaves the artifact or reads a missing slot |
| GraphReader.MemoIsReusable | packages/semql/src/semql/_compare.py:146-147 | a descriptor read on its own may be reused below any active keys that lead to it |
| GraphReader.WalkStandsAlone | packages/semql/src/semql/_compare.py:151-156 | what is read below active keys is what is read on its own, so remembering it is sound |
| GraphReader.Graph.Visit | packages/semql/src/semql/_compare.py:142-157 | the visit with its active set and memo table returns what the plain walk returns, descriptor or fault, and restores the active set |
| GraphReader.Graph.VisitAll | packages/semql/src/semql/_compare.py:167-168 | visiting a list reads it left to right as the plain walk does |
| GraphMeaning.SameDescriptorIff | packages/semql/src/semql/_compare.py:142-196 | two keys that are read have one descriptor iff the graphs can be followed from them side by side: same literals, slots and grain in any order, operands in order, population predicates in any order, and so on below, whatever the identifiers |
| Compare.ExpressionEquivalence | packages/semql/src/semql/_compare.py:270-297 | without the shared-snapshot flag, EXPRESSION comparison answers equivalent iff both sides read completely, name the same catalog snapshot and have the same output meanings |
| Compare.ExpressionSymmetric | packages/semql/src/semql/_compare.py:270-297 | EXPRESSION equivalence is symmetric |
| Compare.ExpressionTransitive | packages/semql/src/semql/_compare.py:270-297 | EXPRESSION equivalence is transitive |
| Compare.ResultImpliesExpression | packages/semql/src/semql/_compare.py:294-333 | RESULT equivalence implies EXPRESSION equivalence |
| Compare.SharedNotTransitive | packages/semql/src/semql/_compare.py:284-293 | with the shared-snapshot flag it is not transitive: three artifacts that show it |
| CompareChecks.StructureFaultIs | packages/semql/src/semql/_compare.py:87-140 | the first fault, in order: nodes, populations, slots and outputs under different non-empty identifiers, outputs under different aliases, outputs on nodes there are, enrichments of outputs there are |
| CompareChecks.ValidIs | packages/semql/src/semql/_compare.py:198-227 | reading an artifact without such a fault succeeds iff every reference in it can be followed to an end; then an unknown word, and then two outputs that read the same, are reported |
| CompareChecks.KnownIff | packages/semql/src/semql/_compare.py:198-227 | a node's words are known iff it is a dimension or a time column, or its aggregate is listed under its kind |
| CompareResults.ExpressionIff | packages/semql/src/semql/_compare.py:270-297 | EXPRESSION answers equivalent iff both artifacts read whole, name one snapshot or the flag stands for what they do not name, and their outputs read the same, each as often |
| CompareResults.ExpressionReason | packages/semql/src/semql/_compare.py:237-297 | otherwise the fault or reason given is the first that applies, in the stated order |
| CompareResults.ResultIff | packages/semql/src/semql/_compare.py:270-333 | RESULT answers equivalent iff, besides, both results are there, grain and predicates agree as multisets, order nodes, directions, time policy, ranking and details are equal, joins are equal, assumptions but for merge keys agree as multisets, and the inputs agree: complete contexts that read the same, or the caller's word, or nothing bound |
| CompareResults.ResultReason | packages/semql/src/semql/_compare.py:294-333 | otherwise the reason is, in order, that of EXPRESSION, a missing result, a different result, different joins, different assumptions, or that of the inputs |
| CompareRenaming.RenamingInvariant | packages/semql/src/semql/_compare.py:87-333 | renaming node, population, slot, output and alias names consistently and injectively on either side never changes the outcome or the fault |
| CompareRenaming.WalkAgrees | packages/semql/src/semql/_compare.py:142-196 | the reader builds the same descriptor of a renamed node, or reports the same fault |
| ComparePermuting.PermutingInvariant | packages/semql/src/semql/_compare.py:87-333 | permuting the node, binding and output tuples of either side never changes the outcome; at most which fault is raised |
| AnalysisBuilder.Builder.AddField | packages/semql/src/semql/analysis.py:259-270 | a field is added on first use with its operands, later uses return the same node, and it fails iff the reference or an operand in turn is unknown, naming the first that is |
| AnalysisUse.FoundIffRegistered | packages/semql/src/semql/analysis.py:259-283 | all references are found iff each of them, and of the operands they lead to, is registered |
| AnalysisUse.NodeIsOwnIff | packages/semql/src/semql/analysis.py:230-257 | a resolved field's reference gets its own field's node iff no later registration has its canonical name |
| AnalysisUse.FieldNodeSays | packages/semql/src/semql/analysis.py:271-340 | the node of every reference in use says its field's name, kind, aggregate and stage, the query's grain, and reads a ratio's operands in order |
| AnalysisUse.AllRefsAre | packages/semql/src/semql/analysis.py:345-616 | the references of an analysis are its resolved fields' names, its columns, its measures and its inline measures' operands |
| AnalysisLookup.RegisteredMeans | packages/semql/src/semql/analysis.py:230-257 | a registered reference means the field its last list has last: time dimension, touched cubes, tree leaves, flat filters, operands, dimensions, measures, in this order |
| AnalysisLookup.ResolveMeans | packages/semql/src/semql/analysis.py:373-399 | a filter's reference means the last tree leaf that has it, else the first flat filter, else what is registered |
| AnalysisUse.SharedNameMisleads | packages/semql/src/semql/analysis.py:249-251 | a query for a measure that shares its name with a dimension of its cube: the node describes the dimension |
| AnalysisBuilder.Builder.AddNewField | packages/semql/src/semql/analysis.py:271-343 | the field gets the very next identifier, taken before its operands are added, and its node reads exactly its ratio operands' nodes; it fails as AddField does |
| AnalysisBuilder.Builder.AddPredicateField | packages/semql/src/semql/analysis.py:358-371 | a predicate reads a fresh row node of the field, with no population |
| AnalysisBuilder.Builder.AddFilter | packages/semql/src/semql/analysis.py:373-399 | a filter resolves by leaf, then flat filter, then field; its node describes exactly the filter, and it fails iff nothing resolves |
| AnalysisBuilder.Builder.AddTargetFilter | packages/semql/src/semql/analysis.py:401-441 | one predicate node on the target, and one slot iff the filter binds values |
| AnalysisBuilder.Builder.AddBool | packages/semql/src/semql/analysis.py:443-457 | the subgraph added for a Boolean tree describes exactly that tree |
| AnalysisAssembly.AddRoots | packages/semql/src/semql/analysis.py:459-475 | flat filters and tree get one root that describes their conjunction, or none |
| AnalysisAssembly.AddSegments | packages/semql/src/semql/analysis.py:476-487 | one node per segment, describing the predicate of that segment |
| AnalysisAssembly.AddWindow | packages/semql/src/semql/analysis.py:488-515 | the node added describes the window over a row node of its field with its own slot, and it fails iff the field is unknown |
| AnalysisAssembly.AddContexts | packages/semql/src/semql/analysis.py:528-544 | one node and one private slot per policy context, the node describing the context bound by that slot |
| AnalysisOutputs.Projector.AddOutput | packages/semql/src/semql/analysis.py:578-591 | an output is appended with the next number unless its identity was seen |
| AnalysisOutputs.AliasIs | packages/semql/src/semql/analysis.py:584-584 | an output is called by the first alias of its reference, and by its own name without one |
| AnalysisOutputs.IdentityIff | packages/semql/src/semql/analysis.py:629-634 | inline measures have one identity iff they apply one operation to the same references in the same order |
| AnalysisOutputs.Projector.AddColumns | packages/semql/src/semql/analysis.py:593-600 | columns become outputs numbered in order, each on its field's node; it fails iff a field is not found or two columns are on one node |
| AnalysisOutputs.Projector.AddDerived | packages/semql/src/semql/analysis.py:614-635 | inline measures become nodes that compute their operation over their operands' nodes, numbered on; it fails iff an operand is not found or two have one identity |
| AnalysisOutputs.Projector.AddFacets | packages/semql/src/semql/analysis.py:645-694 | an aggregate becomes its current and prior values and the difference and ratio of those two nodes, numbered from the outputs so far; each of its names gains a suffixed and a dotted form for each facet, standing for that facet's node |
| AnalysisOutputs.Projector.ExpandComparison | packages/semql/src/semql/analysis.py:636-694 | the expansion replaces each aggregate by its four facets and keeps other outputs, with the nodes and identifiers they had; what every name then stands for is a function of the outputs and their names |
| AnalysisOutputs.Projector.AddHaving | packages/semql/src/semql/analysis.py:696-713 | filter i becomes a predicate that applies it to the field, inline measure or facet its name stands for, and it fails iff a name stands for nothing |
| AnalysisHaving.NamingIs | packages/semql/src/semql/analysis.py:593-613 | a name stands for the node of the last column or measure by which that node has, or had been given, the name, or, alias by alias, for what the aliased name stood for; a node's names are those given to it and such aliases |
| AnalysisHaving.HavingIs | packages/semql/src/semql/analysis.py:593-713 | a name in HAVING stands for the facet of the last compared output that makes it of a base name, with an underscore or dotted, else for the last inline measure so called, else for the node above |
| AnalysisBuild.AddPopulation | packages/semql/src/semql/analysis.py:459-571 | the population's predicates describe, in order, the filters and tree, the segments, the time window and the policy contexts; it fails iff a filter or the window's field does not resolve |
| AnalysisResult.AddResult | packages/semql/src/semql/analysis.py:731-864 | every order clause, up to the first name that stands for nothing, keeps its direction and names the last output of that alias, else what projected outputs, dimensions, measures or the time bucket give its reference, else the last aggregate, dimension or time node of it; partition and order of the ranking likewise, without the last; time slots bind the two windows; it fails iff a bucketed query has no grain or the ranking names nothing projected |
| AnalysisResult.FindOrderIs | packages/semql/src/semql/analysis.py:731-757 | the order found is that order, in terms of outputs, query and nodes |
| AnalysisResult.FindRankingIs | packages/semql/src/semql/analysis.py:819-852 | the ranking found is that ranking, and there is none iff a name of it stands for nothing |
| AnalysisResult.TieBreakersSorted | packages/semql/src/semql/analysis.py:836-848 | for exact ties the tie breakers are the rest of the grain, in the order of references, then identifiers |
| AnalysisBuild.Build | packages/semql/src/semql/analysis.py:215-918 | an artifact is returned iff references and filters resolve, projections differ, and HAVING, grain and ranking name something; it satisfies the closed, layered contract `BuiltFrom`, and its population, outputs, post-aggregate predicates, result and grain denote what the query asks for; sources, policies, catalog, joins and assumptions are the plan's, derivations those of a rollup, and it is complete iff the plan's scope is, something is put out and every order clause is bound |
| AnalysisSoundness.StepDown | packages/semql/src/semql/analysis.py:358-371 | rank: reading goes from post-aggregate predicates to computed nodes to fields to the population to row nodes, and inside a layer down a counter or along a ratio operand |
| AnalysisSoundness.SoundIffRatiosBottomOut | packages/semql/src/semql/analysis.py:276-283 | the graph built is closed and acyclic iff no ratio measure in use reaches itself through its operands; which are in use is a function of the query |
| AnalysisSoundness.PlainNamesBottomOut | packages/semql/src/semql/compile.py:2089-2096 | when no operand of a ratio in use is a ratio, as compilation demands, that is always so |
| AnalysisReading.BuiltValidates | packages/semql/src/semql/_compare.py:198-227 | complete validation of a built artifact meets a cycle iff a ratio measure reaches itself; otherwise, with known vocabulary, it fails iff two outputs have one descriptor |
| AnalysisSenses.SensesSame | packages/semql/src/semql/_compare.py:142-196 | two outputs have one descriptor iff they are the same field, the same operation over the same fields in order, or the same facet of one field |
| AnalysisSenses.BuiltValidatesAs | packages/semql/src/semql/_compare.py:198-227 | so it reports a repeated output iff two inline measures of the query apply one operation to the same fields in the same order |
| AnalysisReading.PlainBuiltValidates | packages/semql/src/semql/_compare.py:198-227 | for a query compilation accepts it never meets a cycle |
| AnalysisReading.RootUnfolds | packages/semql/src/semql/analysis.py:459-475 | unfolding the filter root read back from a built artifact gives the shape of `filters` AND `where` |
| AnalysisReading.PredicatesRead | packages/semql/src/semql/analysis.py:459-571 | every predicate of the population, read back from a built artifact, is the descriptor of the filter, segment, window or context it stands for |
| AnalysisPopulation.TreeIff | packages/semql/src/semql/analysis.py:373-457 | two filter trees have one descriptor iff they are the same tree of the same tests: one operator on one field, and lists of as many values |
| AnalysisPopulation.BuiltPopulationsAgreeIff | packages/semql/src/semql/analysis.py:459-571 | the populations of two built artifacts read the same iff the queries have the same filter tree, the same segments and policy contexts as often, the same window, compared or not, and the same inclusion, touched cubes and policies |
| AnalysisReading.CompareNumbersDistinct | packages/semql/src/semql/analysis.py:637-691 | the numbers given by the comparison expansion differ iff no other output follows an aggregate |
| AnalysisReading.BuiltStructure | packages/semql/src/semql/analysis.py:578-694 | a built artifact's structural faults concern output names only: identifiers clash iff it compares periods and another output follows an aggregate, and otherwise a repeated alias is reported iff two outputs are given one alias |
| AnalysisReading.ClashIffInline | packages/semql/src/semql/logical.py:435-468 | as projections list measures last, that is so iff there are an aggregate and an inline measure |
| AnalysisReading.InlineClashes | packages/semql/src/semql/analysis.py:637-691 | a query with one measure and one inline measure whose outputs are numbered 1, 2, 3, 4, 2 |
| Schema.CyclicDefNamesExact | packages/semql/src/semql/_schema.py:267-278 | the simple-path search returns exactly the definitions on a reference cycle, self-loops included |
| Schema.InlineResult | packages/semql/src/semql/_schema.py:217-232 | rewriting tuples leaves no `prefixItems` at any depth and adds no reference |
| Schema.StripRemovesIffGuarded | packages/semql/src/semql/_schema.py:281-318 | stripping removes every banned reference iff each lies under a property that goes |
| SchemaMeaning.ReferencesAnyIff | packages/semql/src/semql/_schema.py:303-318 | the recursive test finds a value iff some way down by items, anyOf, oneOf and allOf leads from it to a node whose own reference is banned |
| SchemaMeaning.StripExactly | packages/semql/src/semql/_schema.py:281-300 | at every depth exactly the properties with such a way are missing; every other child stays in order with its place and reference, and every required name stays unless its property went |
| SchemaMeaning.RefsAre | packages/semql/src/semql/_schema.py:246-258 | the names a schema refers to are those at the end of any way down |
| SchemaMeaning.InlineExactly | packages/semql/src/semql/_schema.py:217-232 | at every depth only tuple positions and an `items` beside them are replaced, by one `items`: the only distinct position, or a choice between the distinct ones in order |
| Schema.StripKeepsRequiredDeclared | packages/semql/src/semql/_schema.py:288-295 | a property and its `required` entry go together |
| Schema.PruneUnreachable | packages/semql/src/semql/_schema.py:321-336 | the worklist, popping in any order, keeps exactly the definitions reached from inside the root, whose own reference does not count |
| Schema.ToLlmSafe | packages/semql/src/semql/_schema.py:135-149 | the projection performs the three rewrites in order, the last two only when a cycle was found |
| SchemaMeaning.ProjectionIs | packages/semql/src/semql/_schema.py:135-149 | the projection is exactly that: tuples rewritten; then, if definitions lie on reference cycles, those gone with the properties that lead to them; then what the root does not reach gone |
| Schema.NoTuplesRemain | packages/semql/src/semql/_schema.py:135-149 | the projection contains no tuple schema |
| Schema.NoCyclesRemain | packages/semql/src/semql/_schema.py:137-149 | the projection's definitions are acyclic |
| Schema.KeptIsReachable | packages/semql/src/semql/_schema.py:142-146 | when a cycle was found, the remaining definitions are exactly those reached from inside the projected root |
| Schema.DanglingIffUnguarded | packages/semql/src/semql/_schema.py:137-149 | for an input without dangling references, none dangles afterwards iff in the root and every surviving definition each reference to a cyclic definition lies under a deleted property, and a root that is a reference names a surviving definition |
| Schema.RootRefIsPruned | packages/semql/src/semql/_schema.py:104-106 | a root that is nothing but a reference keeps no definition as soon as there is a cycle anywhere |
| TupleSchema.DistinctPositions | packages/semql/src/semql/_schema.py:223-226 | the loop keeps each position schema once, in order |
| TupleSchema.ItemsOfDistinct | packages/semql/src/semql/_schema.py:223-232 | the schema for all elements is the one distinct position schema, or a choice between them in order, each rewritten |
| TupleSchema.InlineLoosens | packages/semql/src/semql/_schema.py:217-232 | where tuple schemas bound their arrays by their own length, whatever a schema accepts the rewritten schema accepts |
| TupleMeaning.InlineIsLoose | packages/semql/src/semql/_schema.py:217-232 | whatever its bounds, a rewritten schema accepts exactly the values in which every element of a tuple is of some position, not of its own, and that otherwise satisfy the schema |
| TupleSchema.UnboundedTightens | packages/semql/src/semql/_schema.py:217-232 | without that bound it can reject what was accepted |
| AutoPlan.GroupFilters | packages/semql/src/semql/autoplan.py:297-299 | filters are grouped by cube in order of first appearance, by identity |
| AutoPlan.RouteForeign | packages/semql/src/semql/autoplan.py:315-348 | the loop routes every foreign cube as specified and consumes exactly the pushed cubes' filters |
| AutoPlan.PlanQuery | packages/semql/src/semql/autoplan.py:273-357 | the planner returns the specified rewrite and decisions, and the query itself when it defers or pushes nothing |
| AutoPlanDecisions.DecisionsAre | packages/semql/src/semql/autoplan.py:93-357 | of a query of measures and filters alone, the plan decides exactly on the cubes of another backend that only filters name and that a bridge links to one put out on the measures' sole backend; it merges exactly those whose size hint exceeds the limit where all measures are sums, counts or averages and some filter of the cube is no equality, membership or lookup; it says why, and pushes the others over the first such bridge, the inner key on the cube |
| AutoPlanMeaning.RewriteTakes | packages/semql/src/semql/autoplan.py:319-357 | each injected semi-join takes all filters of one foreign cube, selects a key of that cube and tests a key of a kept one; the filters left are those of the other cubes |
| AutoPlanMeaning.RewriteConservesFilters | packages/semql/src/semql/autoplan.py:340-356 | every occurrence of every filter stays or moves to one semi-join, never both |
| AutoPlanMeaning.StagedIsSurvivors | packages/semql/src/semql/autoplan.py:339-347 | run in stages, the rewritten query keeps the rows for which every rewritten cube has a row with their key that makes all of its filters true |
| AutoPlanMeaning.PlannedQueryMeaning | packages/semql/src/semql/autoplan.py:255-357 | for every query planned, the staged run delivers the surviving rows: those with a match in every rewritten cube |
| BridgeMerge.FragmentIs | packages/semql/src/semql/compile.py:2410-2443 | a foreign fragment, grouped by its bridge key, holds exactly the keys of the rows that pass the cube's filters, once each |
| MergeJoins.BuildMergeJoins | packages/semql/src/semql/federate.py:739-803 | the passes over the pending bridges plan one join along each bridge, each from a fragment joined before to a new one, and succeed iff the bridges form a tree of backends around the primary one |
| MergePlanned.MergeIsPlannedIff | packages/semql/src/semql/federate.py:2470-2482 | the merge of a query the planner rewrites can be planned iff every rewritten cube has a backend and a bridge of its own |
| MergePlanned.JoinsAreInjected | packages/semql/src/semql/federate.py:885-887 | its joins are then exactly those of the injected semi-joins: their keys, from the primary fragment, dropping rows without a partner |
| BridgeMerge.MergeIsStaged | packages/semql-engine/src/semql_engine/merge/duckdb.py:206-248 | grouped merges and staged runs have rows for the same output cells, with the same value of every sum, count and average; ungrouped ones agree iff some row survives, or no list was empty and the measure is no count |
| BridgeMerge.DirectValueIs | packages/semql-engine/src/semql_engine/merge/duckdb.py:206-248 | a count is the number of its rows; an average times the number of rows that have a term is their sum, and NULL when none has |
| BridgeMerge.PlannedIsMerged | packages/semql/src/semql/autoplan.py:18-20 | so where its merge can be planned, a rewritten query returns the merge's rows iff it has output dimensions, or some row survives, or no list was empty and the measure is no count |
| BridgeMerge.StarvedTotal | packages/semql-engine/src/semql_engine/semijoin.py:73-76 | a total over a department nobody is in: the merge gives a row holding NULL, the staged run no row |
| BridgeMerge.UncountedTotal | packages/semql-engine/src/semql_engine/merge/duckdb.py:244-248 | a count over a department without facts: the merge gives NULL, the staged run zero |
| BridgeMerge.OneBackendRefused | packages/semql/src/semql/federate.py:790-803 | two filtered cubes on one backend: the planner rewrites both, the merge cannot be planned |
| BridgeMerge.RawIsInnerJoin | packages/semql/src/semql/federate.py:1402-1408 | in raw-rows mode fragments are not grouped, and with one bridge per rewritten cube the merge is the nested-loop inner join under all original filters, row for row |
| BridgeMerge.RawRowsIff | packages/semql/src/semql/federate.py:1402-1408 | there it has the staged rows iff no surviving row has two matches in a rewritten cube |
| SemiJoin.ProjectValues | packages/semql-engine/src/semql_engine/semijoin.py:35-46 | the loop returns the column's values without NULLs or repeats, in order of first appearance |
| SemiJoin.ValuesExact | packages/semql-engine/src/semql_engine/semijoin.py:35-46 | those are exactly the values present in the column, once each |
| SemiJoin.RunSemiJoin | packages/semql-engine/src/semql_engine/semijoin.py:58-86 | the stages bind the specified filters, stop on an empty IN list and skip an empty NOT IN list |
| SemiJoin.BoundExact | packages/semql-engine/src/semql_engine/semijoin.py:70-83 | the bound filters are true of a row iff it passes every stage, and a stopped run passes no row |
| SemiJoin.RunStages | packages/semql-engine/src/semql_engine/semijoin.py:58-86 | the run delivers nothing when an IN list is empty, and otherwise what the query delivers on exactly the rows that satisfy the residual filters and pass every inner column; the former differs from the latter iff the query delivers something on no rows, like a scalar aggregate |
| SemiJoin.InMatchesSql | packages/semql-engine/src/semql_engine/semijoin.py:11-17 | the IN stage keeps what SQL's three-valued IN over the inner column keeps, NULLs and empty columns included |
| SemiJoin.NotInMatchesSqlIff | packages/semql-engine/src/semql_engine/semijoin.py:14-17 | the NOT IN stage keeps what SQL's NOT IN over the inner column keeps iff the column has no NULL |
| Cohort.NormalizeKey | packages/semql-engine/src/semql_engine/cohort.py:69-119 | the loop returns the typed key, or the first component's failure |
| Cohort.NumberKeysAgree | packages/semql-engine/src/semql_engine/cohort.py:75-82 | keys of integers, decimals and finite floats are equal iff the numbers written are, whatever their type or scale |
| CohortKeys.KeysAgreeIff | packages/semql-engine/src/semql_engine/cohort.py:69-119 | a key is made exactly of cells of their logical types, and two keys are equal exactly when all their cells are one value of the type, however represented |
| CohortKeys.PartFails | packages/semql-engine/src/semql_engine/cohort.py:69-119 | a component fails iff it is NULL, a number that is not finite, or not of its type, and with the failure of that reason |
| Cohort.SelectMembers | packages/semql-engine/src/semql_engine/cohort.py:240-256 | the loop returns the members or the first row's failure |
| Cohort.AlignRows | packages/semql-engine/src/semql_engine/cohort.py:299-309 | the loop returns the aligned payloads or the first row's failure |
| Cohort.MeasureStages | packages/semql-engine/src/semql_engine/cohort.py:279-312 | all measurements are aligned in order, with presence and coverage |
| Cohort.RunCohort | packages/semql-engine/src/semql_engine/cohort.py:233-375 | the run returns the specified outcome or failure |
| Decimals.DifferenceDigits | packages/semql-engine/src/semql_engine/cohort.py:136-142 | the exact difference of two finite decimals has at most max(adjusted exponents, 0) + scale + 2 digits |
| Decimals.DifferenceIsExact | packages/semql-engine/src/semql_engine/cohort.py:139-147 | so under the chosen precision a difference is never rounded |
| Decimals.MarginIff | packages/semql-engine/src/semql_engine/cohort.py:139-142 | with the margin as a parameter, no difference is ever rounded iff it is at least 2; the code takes 3 |
| Decimals.CanonicalIffSame | packages/semql-engine/src/semql_engine/cohort.py:82-82 | the canonical form of a decimal is the same for two decimals iff they are the same number |
| CohortMeaning.MembersAreRows | packages/semql-engine/src/semql_engine/cohort.py:247-256 | there is one member per selected row, in order, under different typed keys |
| CohortMeaning.AlignedIff | packages/semql-engine/src/semql_engine/cohort.py:300-309 | a measurement is accepted iff every row's key is a member's and no key matches twice |
| CohortMeaning.OverflowIsRedundant | packages/semql-engine/src/semql_engine/cohort.py:293-309 | the size check rejects nothing that alignment would accept |
| CohortMeaning.RunIsLeftJoin | packages/semql-engine/src/semql_engine/cohort.py:240-375 | accepted runs are the nested-loop left outer join on typed keys, one row per member in selection order, of the declared width, and each computed cell computes its comparison of two cells of its own row, left and right |
| CohortComparison.ComputedIs | packages/semql-engine/src/semql_engine/cohort.py:129-167 | of integers and finite decimals a difference and the right number add up to the left one; the cell is NULL iff an operand is NULL or a divisor zero; every quotient, and a difference with a float, is what rounding arithmetic gives for left and right |
| CohortComparison.RefusesIff | packages/semql-engine/src/semql_engine/cohort.py:129-155 | two cells raise each of the three failures iff one is no number; a decimal stands beside a float; or a decimal that is not finite stands beside an integer or a decimal |
| CohortCells.ComputedCells | packages/semql-engine/src/semql_engine/cohort.py:327-352 | in an accepted run each computed cell is that comparison of the metrics it names, read from the measurement row with the member's typed key, NULL where there is none |
| CohortCells.CopiedCells | packages/semql-engine/src/semql_engine/cohort.py:354-367 | the cells before are the keys and attributes of the selected row and each measurement's columns, read from the row with the member's key |
| CohortFailures.MembersFailIff | packages/semql-engine/src/semql_engine/cohort.py:247-256 | the selection is accepted iff all rows have different typed keys; otherwise the first other row names the failure |
| CohortFailures.AlignedFailsIff | packages/semql-engine/src/semql_engine/cohort.py:299-309 | a measurement is accepted iff all rows have different typed keys of members; otherwise the first other row names the failure |
| CohortFailures.RunFailsIff | packages/semql-engine/src/semql_engine/cohort.py:325-352 | after that a run fails iff a comparison names a column that is no metric or meets two cells that are refused; the first such comparison and member name the failure |
| CohortFailures.NobodySelected | packages/semql-engine/src/semql_engine/cohort.py:269-277 | an accepted selection of no rows gives no rows, nobody present and nothing counted |
| CohortMeaning.PresenceAndCoverage | packages/semql-engine/src/semql_engine/cohort.py:310-312 | a presence flag is true iff some row has the member's key; the matched count is the number of measurement rows and of true flags |
| CohortMeaning.ShuffleInvariant | packages/semql-engine/src/semql_engine/cohort.py:299-375 | an accepted outcome does not depend on the order of any measurement's rows |
| RowAdapter.FilterAll | packages/semql-engine/src/semql_engine/rows.py:146-147 | the loops keep the rows on which every scope and user predicate holds |
| RowAdapter.SortAll | packages/semql-engine/src/semql_engine/rows.py:149-150 | the loop sorts by the keys from last to first |
| RowAdapter.ExecuteRows | packages/semql-engine/src/semql_engine/rows.py:141-154 | the result is the projection of the sliced, sorted, filtered table, empty for an unknown table |
| RowAdapter.SelectedExactly | packages/semql-engine/src/semql_engine/rows.py:146-147 | a row occurs in the selection as often as in the table when all predicates hold on it, and otherwise not |
| RowAdapter.SortOrders | packages/semql-engine/src/semql_engine/rows.py:149-150 | a stable pass by one key over rows ordered by the later keys orders them by that key first |
| RowAdapter.OrderIsUnique | packages/semql-engine/src/semql_engine/rows.py:149-150 | two arrangements of the same rows in stable lexicographic order are equal |
| RowAdapter.PassesAreLexicographic | packages/semql-engine/src/semql_engine/rows.py:149-150 | the passes give the one stable lexicographic arrangement over mixed directions |
| RowAdapter.NullsByDirection | packages/semql-engine/src/semql_engine/rows.py:178-181 | in the sorted result no row with a value precedes a NULL when the first key ascends, and no NULL precedes a value when it descends |
| RowMeaning.PassesInKeyOrder | packages/semql-engine/src/semql_engine/rows.py:149-181 | of two sorted rows, on every key up to the first that tells them apart, the earlier has the smaller value ascending and the greater descending, NULL before values ascending and after them descending |
| RowMeaning.AnswerIs | packages/semql-engine/src/semql_engine/rows.py:141-175 | the answer shows the named cells of the rows on which every predicate holds, ordered by the keys, ties in table order, as far as the slice goes |
| RowMeaning.WindowsMeet | packages/semql-engine/src/semql_engine/rows.py:169-174 | two time windows that meet select, together, what the window over both selects, each row once |
| JoinClosure.BuildGraph | packages/semql-prompt/src/semql_prompt/adaptive.py:148-153 | the loops list exactly the neighbours over joins declared on either side between available cubes |
| JoinClosure.Expand | packages/semql-prompt/src/semql_prompt/adaptive.py:159-163 | expanding one cube keeps exact distances, parent links and the order of the queue |
| JoinClosure.Search | packages/semql-prompt/src/semql_prompt/adaptive.py:155-163 | the search discovers its target iff some path of joins connects it to the start, with exact distances and parent links |
| JoinClosure.TracePath | packages/semql-prompt/src/semql_prompt/adaptive.py:166-170 | following parent links ends at the start, by a shortest undirected path |
| JoinClosure.Close | packages/semql-prompt/src/semql_prompt/adaptive.py:143-174 | the result is the de-duplicated selection followed by the cubes of one shortest path per reachable target; it fails iff the first of several selected cubes is unavailable |
| JoinClosure.ClosureConnects | packages/semql-prompt/src/semql_prompt/adaptive.py:143-174 | the result has no duplicates, starts with the selection, connects every reachable selected cube to the first inside itself, and adds only cubes on those paths |
| Catalog.MergeByName | packages/semql/src/semql/catalog.py:1407-1413 | the loops give the insertion-ordered dictionary of the parent's fields overridden by the child's |
| Catalog.FlattenCube | packages/semql/src/semql/catalog.py:1393-1422 | the recursion returns the flattened cube or the fault at which it stops |
| Catalog.ResolveExtends | packages/semql/src/semql/catalog.py:1383-1430 | all cubes are flattened in order, or the first fault is raised |
| Catalog.InferJoins | packages/semql/src/semql/catalog.py:105-141 | the loop infers one join per foreign key whose target has no explicit join |
| Catalog.AugmentCubes | packages/semql/src/semql/catalog.py:95-144 | entries are replaced by the augmented cubes in order |
| Catalog.Construct | packages/semql/src/semql/catalog.py:952-984 | construction appends missing reflection cubes, flattens, checks names and augments |
| CatalogMeaning.FlattenFailsIffBroken | packages/semql/src/semql/catalog.py:1393-1406 | flattening a cube fails iff its parent chain leaves the catalog or enters a cycle |
| CatalogMeaning.ResolveFailsIff | packages/semql/src/semql/catalog.py:1424-1430 | resolution fails iff that holds of some cube that extends |
| CatalogMeaning.MergeIs | packages/semql/src/semql/catalog.py:1407-1413 | a merged list names each field once, the parent's first, with the child's declaration where there is one |
| CatalogMeaning.InheritsNearest | packages/semql/src/semql/catalog.py:1393-1422 | each field of a flattened cube is the nearest declaration on its chain, and a cube that extends lists ancestors' fields first |
| CatalogJoins.InferredAre | packages/semql/src/semql/catalog.py:105-141 | there is one many-to-one join for each foreign key without an explicit join to its cube, in order, on that dimension and the target's primary key; otherwise the first foreign key that names no cube with a primary key is the fault |
| CatalogJoins.AugmentedJoins | packages/semql/src/semql/catalog.py:95-144 | an augmented cube has its own joins first, then those, and is otherwise unchanged |
| CatalogRoundTrip.CompleteAgain | packages/semql/src/semql/catalog.py:95-144 | flattening followed by join inference is a fixed point, also when only some cubes were built before |
| CatalogRoundTrip.RoundTrip | packages/semql/src/semql/catalog.py:1022-1041 | when no user cube takes a reflection cube's name, building from a catalog's own specification gives its cubes again |
| CatalogRoundTrip.RebuiltIff | packages/semql/src/semql/catalog.py:1022-1041 | in general they are the same iff the catalog ends with the reflection cubes unchanged |
| CatalogRoundTrip.TakenNameIsLost | packages/semql/src/semql/catalog.py:1028-1029 | a catalog whose own cube under a reflection cube's name is replaced |
| TimeSpine.SeriesSpineExact | packages/semql/src/semql/backend.py:304-363 | the stepped and filtered series is the bucket starts from the window's first bucket to before its end, in order, once each |
| TimeSpine.DayRecipesAgree | packages/semql/src/semql/backend.py:449-556 | counting rows and listing dates give the same spine |
| TimeSpine.DatesSpineExact | packages/semql/src/semql/backend.py:449-485 | for buckets that start at midnight, the truncated days are those same bucket starts |
| TimeSpine.SpinesAgreeIffDayAligned | packages/semql/src/semql/backend.py:746-780 | the day-index recipes give the spine of every window iff all buckets start at midnight |
| TimeSpine.MissedIff | packages/semql/src/semql/backend.py:746-780 | a bucket is missed in every window iff it does not start at midnight and the next midnight falls in a later one |
| TimeSpine.HoursAreMissed | packages/semql/src/semql/backend.py:746-780 | hour buckets over a day: one is listed and the other 23 are missed |
| TimeSpine.SundayIsGreatest | packages/semql/src/semql/backend.py:129-143 | shifting, truncating to Monday and shifting back gives the greatest Sunday boundary not after the input |

## Left out

Weaker or narrower than the source on purpose:

- ResultCache.Inclusion: states nothing with a TTL, where expiry times make the property false, nor of the entries' values, which differ when the smaller cache has executed a request again.
- ComparePermuting.PermutingInvariant: does not fix which of several faults is raised, because the reader stops at the first one.
- AnalysisBuild.Build: takes policy contexts already sorted, and folds fields that no reader follows into one text; caller-supplied derivations and wording of coverage reasons are not part of this model.
- AnalysisUse.FoundIffRegistered: asks that references of one canonical name lead to one field; where they do not, which is found first depends on the order of use, and `AnalysisUse.NoteAllSuffices` gives the half that holds regardless.
- AnalysisUse.NodeIsOwnIff: takes for granted that the resolver hands over each reference with a field it can spell; the resolver is not part of this model.
- Schema.InlineResult: works on a typed tree, so a property named like a keyword is never taken for one, and an empty tuple list counts as absent.
- TupleSchema.InlineLoosens: covers items, anyOf, allOf, properties and references followed to any depth; under `not` and `oneOf` accepting more inside can mean accepting less outside.
- AutoPlanMeaning.PlannedQueryMeaning: filters of cubes left to the merge stay on the outer rows here, where the source joins one more fragment for them.
- MergePlanned.MergeIsPlannedIff: takes every cube the query touches to be on the primary backend or rewritten, and the planner's bridges to be among the merge's.
- BridgeMerge.MergeIsStaged: before the merge the engine refuses a fragment that repeats a key on the "one" side of a bridge (packages/semql/src/semql/federate.py:888-900), which a grouped foreign fragment never does but the primary one can; this refusal, and HAVING, order and limit after the merge, are left out.
- BridgeMerge.RawIsInnerJoin: the same refusal is left out here, where a foreign fragment can repeat a key.
- AutoPlan.PlanQuery: takes the bridges found between cubes as given, and leaves out stripping an unrequested time grain first.
- Cohort.RunCohort: takes the plan's preflight for granted apart from stage shapes, and keeps quotients and float differences behind a parameter because they round.
- RowAdapter.ExecuteRows: compares values of one ordered type; comparing values of different types raises in the source.
- JoinClosure.Close: does not say which of several shortest paths is taken.
- Catalog.Construct: of the validations only the check for duplicate names is modelled; collecting all diagnostics instead of raising the first is left out.
- CatalogRoundTrip.RoundTrip: speaks of the cubes, not of views, lookups, glossary or entities, which are copied.
- TimeSpine.SeriesSpineExact: takes truncation and the next bucket as parameters, so week-start settings and calendars of the backends stay outside.
- AsyncRuns.ConcurrentIsAlone: merge statements and adapters are functions of tables and fragments, adapters answer with the declared columns, and plans come from the compiler (packages/semql/src/semql/federate.py:2388-2424); failures, key validation, cancellation and a caller-supplied merge engine are left out.
- TypeInference.LosslessIff: floats and other host types keep the type they are given elsewhere.

Not modelled at all:

- Emitting, parsing and rendering SQL, DuckDB and the drivers: foreign code.
- Merge-key uniqueness checks and validation evidence: one pass over a set of keys.
- Keys and orders taken from `repr` or serialised values: structural equality and multisets stand for them.
- `profile_schema` and `flatten_root_ref`: removing declared properties, and one step of reference resolution.
- Observability hooks, warnings and the wording of errors.
- Prompt rendering and budgets, the MCP server, introspection heuristics, authentication, drift probes and demos: text and I/O.
