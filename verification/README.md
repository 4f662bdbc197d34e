# CrustyDB in Dafny

A model of the finished core of CrustyDB, a teaching database, with proofs about it:

- the slotted heap page, from bytes up to a finite map of slots (`PageLayout`, `PageSpec`, `PageRuns`, `HeapPage`);
- logical plans as arena graphs, their merging and their lowering (`GraphTheory`, `Graphs`, `PlanTrees`, `Plans`,
  `Lowering`);
- a meaning for plans (`Relational`) and the two optimizer rules, as functions on plan trees and as methods on plan
  graphs (`PredicatePushdown`, `PredicateRule`, `ProjectionPushdown`, `ProjectionRule`, `RulesTogether`);
- what physical plans mean and what lowering keeps of a plan's meaning (`PhysicalPlans`);
- expressions: field arithmetic and order, binding, the bytecode compiler and its stack machine (`Fields`, `Arithmetic`,
  `Ast`, `ByteCode`);
- the pull operators, and whole plans run through compiler and operators (`Streams`, `Iterators`, `Execution`);
- decimals as text and aggregate accumulators (`Decimals`, `DecimalTexts`, `Aggregation`);
- the lock manager (`Locks`).

`dafny verify dfyconfig.toml` checks everything.

## How the model reads the source

Code that changes things in place is a class or a method with loops; each such method is proved equal to a function of
the old state, and the properties are lemmas about that function. Integers are unbounded in Dafny, so i64 arithmetic is
wrapped explicitly, as a release build does; a build with overflow checks panics instead. A Rust panic is the value
`Panic` where callers can meet it and a precondition where it marks a caller's mistake.

A plan means a schema and a sequence of rows. A row passes a predicate when the predicate evaluates to `true` on it by
column name; a cell whose computation failed keeps its failure. What the plan language leaves open is a parameter of the
database: the value of an aggregate over its group, the order a sort gives to rows with certain keys, the printed form
of a literal. Every theorem about plans is for all of them.

Where the code does not do what it is for, the code is kept, a lemma shows the failure, and another says exactly when
it works:

- `add_value` of an empty value can destroy the last record of a page (`OverrunLoses`, `OverrunIsReachable`,
  `AddKeepsIff`).
- Printing and parsing a decimal loses values between -1 and 0 and all values of scale 0 (`RoundTripIff`).
- Parsing a decimal drops the minus of `-0.5` (`MinusLost`, `ParseExact`) and reads a fraction with more digits than the
  scale as zero (`LongFractionLost`, `LongCutIff`).
- Decimals of different scales are ordered by their unscaled values (`ScalesMislead`, `OrderedIffSameScale`).
- Projection pushdown does not collect the columns of a cross product's filter, and then answers as if the tables were
  empty (`NarrowExact`). Predicate pushdown is what puts filters there, so in that order the rules lose all rows of a
  family of queries (`BothRules`, `TestIsLost`, `RowsAreLost`, with a row lost in `LessRowIsLost`). This is a fact about
  what the plans mean: in the engine, binding a missing column panics (src/common/src/ast_expr.rs:119-122), lowering
  drops a cross product's filter (src/queryexe/src/query/planner.rs:63-66), and nothing in the repository applies one
  rule after the other.
- Predicate pushdown moves a having clause without columns below an aggregate without groups (`HavingWithoutGroups`,
  `GrouplessExact`).
- A join added over two nodes that are not the root, or a filter added over a named child that is the root, leaves a
  plan whose lowered form has another root (`LowerJoined`, `LowerOver`, `JoinAwayFromRoot`).
- Lowering drops having clauses, the filters of joins and cross products and all but the first equality of a join
  (`CrossFilterDropped`, `LoweringKeepsIff`).
- A hash join whose equality names the right input first gets its inputs swapped but not the terms compiled for them
  (`JoinOrderIff`). Predicate pushdown always names the left input first (`SplitExact`, `PushFaces`).

## Model

| member | source | states |
|---|---|---|
| PageLayout.PutSlotDirectory | src/storage/heapstore/src/heap_page.rs:168-213 | writing a slot entry changes that entry of the directory to the given one and no other |
| PageLayout.PutFreeStartFrame | src/storage/heapstore/src/heap_page.rs:148-166 | writing free_start keeps page id, slot count and directory, and reads back |
| PageRuns.NewPageValid | src/storage/heapstore/src/page.rs:25-31 | a new page satisfies the page invariant, has its id and denotes the empty map |
| HeapPage.Page.constructor | src/storage/heapstore/src/page.rs:25-31 | the byte array of a new page |
| HeapPage.Page.GetPageId | src/storage/heapstore/src/page.rs:34-37 | the page id stored in the header |
| PageSpec.SortRecordsSorted | src/storage/heapstore/src/heap_page.rs:249-264 | the records to compact are in offset order |
| PageSpec.SortRecordsKeeps | src/storage/heapstore/src/heap_page.rs:249-264 | sorting them is a permutation |
| PageSpec.PlacingStep | src/storage/heapstore/src/heap_page.rs:266-273 | one left move keeps the compaction invariant: placed records are disjoint, the others still lie ahead |
| PageSpec.TurnKeepsValues | src/storage/heapstore/src/heap_page.rs:266-273 | one left move changes the value of no slot, overlapping moves included |
| PageSpec.CompactedFacts | src/storage/heapstore/src/heap_page.rs:245-275 | compaction keeps every slot's value and leaves free_start at header size plus total live length, with disjoint regions |
| PageSpec.ShiftedFacts | src/storage/heapstore/src/heap_page.rs:279-315 | with six spare bytes the body shift keeps every slot's value, moves the regions six bytes up and clears the room made |
| HeapPage.Page.Compact | src/storage/heapstore/src/heap_page.rs:245-275 | the in-place loop computes that compaction |
| HeapPage.Page.PlaceRecords | src/storage/heapstore/src/heap_page.rs:266-274 | the moving loop, record by record, and the final free_start |
| HeapPage.Page.ShiftBodyForNewSlot | src/storage/heapstore/src/heap_page.rs:279-315 | the in-place shift computes that shift, truncated at the page end |
| HeapPage.Page.BumpOffsets | src/storage/heapstore/src/heap_page.rs:296-311 | the offset loop bumps every live entry once |
| HeapPage.Page.FindLowestFreeSlot | src/storage/heapstore/src/heap_page.rs:215-226 | the lowest free slot id, or the slot count when none is free |
| HeapPage.Page.GetFreeSpace | src/storage/heapstore/src/heap_page.rs:51-58 | 4096 less header and live lengths, saturating |
| PageRuns.ValidReads | src/storage/heapstore/src/heap_page.rs:51-58 | on a valid page the free space, lowest free slot and live total are those of the abstract map |
| PageRuns.AddStores | src/storage/heapstore/src/heap_page.rs:62-101 | with room and no overrun the value lands in the lowest free slot and the page stays valid; the late None cannot happen |
| PageRuns.AddRefines | src/storage/heapstore/src/heap_page.rs:62-101 | insertion is insertion into the abstract map, succeeds exactly when free space covers value and slot entry, and a refusal changes no byte |
| PageRuns.DeleteRefines | src/storage/heapstore/src/heap_page.rs:118-127 | deletion is deletion from the abstract map; a failed one changes no byte |
| HeapPage.Page.AddValue | src/storage/heapstore/src/heap_page.rs:62-101 | the method computes that insertion, with the overrun case spelled out |
| HeapPage.Page.ReadValue | src/storage/heapstore/src/heap_page.rs:104-115 | the bytes of a live slot inside the page, None otherwise |
| HeapPage.Page.DeleteValue | src/storage/heapstore/src/heap_page.rs:118-127 | the method computes that deletion and keeps the page invariant |
| PageRuns.StepRefines | src/storage/heapstore/src/heap_page.rs:62-128 | one operation that does not overrun answers like the abstract map and keeps the page invariant |
| PageRuns.StepExact | src/storage/heapstore/src/heap_page.rs:62-128 | on every valid page an operation answers and stores like the abstract map if and only if it does not overrun |
| PageRuns.NonEmptyNoOverrun | src/storage/heapstore/src/heap_page.rs:62-128 | runs that insert only non-empty values never overrun |
| PageRuns.RunRefines | src/storage/heapstore/src/heap_page.rs:62-128 | every run of inserts and deletes without an overrun refines the finite map, answer by answer |
| PageRuns.GetValueIsHistory | src/storage/heapstore/src/heap_page.rs:62-128 | after every such run from a new page a slot holds what was last stored there, and nothing if it was deleted or never used |
| PageRuns.SpaceConserved | src/storage/heapstore/src/heap_page.rs:46-58 | header size, live lengths and free space add up to 4096 |
| PageRuns.AddCosts | src/storage/heapstore/src/heap_page.rs:62-101 | a stored value costs exactly its length and the new slot entry, if any |
| PageRuns.DeleteFrees | src/storage/heapstore/src/heap_page.rs:118-127 | a deletion gives back exactly the record's length |
| PageRuns.OverrunLoses | src/storage/heapstore/src/heap_page.rs:79-97 | adding an empty value on a page without six spare bytes makes an existing slot unreadable |
| PageRuns.OverrunIsReachable | src/storage/heapstore/src/heap_page.rs:62-101 | a run of ordinary operations leads to such a page |
| PageRuns.AddKeepsIff | src/storage/heapstore/src/heap_page.rs:62-101 | insertion keeps all existing values if and only if it is not that overrun |
| HeapPage.LivePairsExact | src/storage/heapstore/src/heap_page.rs:325-352 | the iteration order lists exactly the live pairs, by ascending slot id |
| HeapPage.PageIterator.Next | src/storage/heapstore/src/heap_page.rs:328-337 | the iterator delivers that list one by one |
| Graphs.LinkedAddEdge | src/common/src/crusty_graph.rs:137-154 | pushing an edge in front keeps every intrusive list equal to the node's edges, newest first |
| Graphs.CrustyGraph.AddNode | src/common/src/crusty_graph.rs:106-114 | one more node, same edges |
| Graphs.CrustyGraph.AddEdge | src/common/src/crusty_graph.rs:137-154 | one more edge, same nodes |
| Graphs.EdgeWalk.Next | src/common/src/crusty_graph.rs:284-307 | the iterator delivers a node's targets one by one |
| Graphs.CrustyGraph.EdgesFrom | src/common/src/crusty_graph.rs:165-167 | walking a node's edges ends and lists its targets in reverse insertion order |
| Graphs.CrustyGraph.CountIncoming | src/common/src/crusty_graph.rs:207-217 | every node's in-degree, multi-edges counted |
| Graphs.Lower | src/common/src/crusty_graph.rs:230-239 | lowering the counters of a node's children never goes below zero and keeps the invariant of Kahn's algorithm |
| Graphs.CrustyGraph.TopologicalOrder | src/common/src/crusty_graph.rs:202-247 | an order of all nodes with every edge forward if there is one; None exactly on a cycle, self-loops included |
| Graphs.OrderOrCycle | src/common/src/crusty_graph.rs:242-246 | a short result means that no order exists and that there is a cycle, and only then |
| Graphs.CrustyGraph.CycleFree | src/common/src/crusty_graph.rs:250-252 | true exactly without a cycle |
| Graphs.CrustyGraph.AllReachableFrom | src/common/src/crusty_graph.rs:256-274 | ends on every graph and says whether every node is reachable; an error exactly for an unknown start |
| Graphs.SearchShrinks | src/common/src/crusty_graph.rs:262-272 | why the search ends although nodes are pushed repeatedly |
| PlanTrees.DenotesMerged | src/common/src/logical_plan/mod.rs:60-85 | a copied and shifted plan under a new node reads as the new operator over the left tree, then the right tree |
| Plans.Plan.AddNode | src/common/src/logical_plan/mod.rs:92-98 | a new node; the first one becomes the root |
| Plans.Plan.AddEdge | src/common/src/logical_plan/mod.rs:108-118 | a new edge; one into the root makes its source the root |
| Plans.Plan.Merge | src/common/src/logical_plan/mod.rs:60-85 | two tree-shaped plans become one tree with child order kept and the new node as root |
| Plans.Plan.AddOver | src/optimizer/src/pushdown_predicate.rs:337-342 | an operator put over a plan: its tree with one more node on top |
| Plans.Plan.AddBinary | src/common/src/logical_plan/mod.rs:332-359 | a join over two nodes becomes the root, which is the one its edges imply exactly when one of the two was the root |
| Plans.Plan.AddUnary | src/common/src/logical_plan/mod.rs:300-330 | a filter, projection or aggregate goes over the root or a named child; the root is the one the edges imply exactly when the named child was not the root; an empty plan gets a node but no root |
| Lowering.LowerPlan | src/queryexe/src/query/planner.rs:104-121 | the physical plan has the same ordered edges and base tables, the lowered operators in the same places (what they mean: PhysicalPlans.LoweredGraphMeans), and the same root exactly when the logical root is what its edges imply |
| Lowering.LowerNodes | src/queryexe/src/query/planner.rs:109-114 | all operators are lowered in index order and the scanned tables recorded; an equality-free join is the only failure |
| Lowering.LowerEdges | src/queryexe/src/query/planner.rs:116-118 | edges added after all nodes are the same edges in the same order |
| Lowering.LoweringKeepsTree | src/queryexe/src/query/planner.rs:104-121 | read from any node, the physical plan is the lowered tree of the logical one |
| Lowering.LowerJoined | src/queryexe/src/query/planner.rs:104-121 | after a join over two nodes of a tracked plan the lowered root is the logical one exactly when one of the two was the root |
| Lowering.LowerOver | src/queryexe/src/query/planner.rs:104-121 | after a one-child operator it is exactly when no child was named or one that was not the root |
| Lowering.JoinAwayFromRoot | src/common/src/logical_plan/mod.rs:332-345 | three scans and a join of the last two: the logical root is the join, the physical root the first scan |
| Lowering.BaseTablesConcat | src/queryexe/src/query/planner.rs:37-37 | the recorded tables of one list of operators after another are those of the one and then of the other |
| Lowering.BaseTableOf | src/queryexe/src/query/planner.rs:37-37 | a scan records its own container and nothing else does |
| PhysicalPlans.LoweredMeans | src/queryexe/src/query/planner.rs:23-96 | every lowered plan has the schema and rows of the plan that is left when having clauses, join and cross product filters and further equalities are dropped: scan filters and projections, grouping, sort keys and join inputs all kept |
| PhysicalPlans.LoweringKeepsMeaning | src/queryexe/src/query/planner.rs:23-96 | without dropped tests, or when no row that reaches a node fails one, the lowered plan has the schema and rows of the plan |
| PhysicalPlans.LoweringKeepsIff | src/queryexe/src/query/planner.rs:47-66 | over inputs that are kept, the meaning is kept if and only if every remaining row passes the tests the node lost |
| PhysicalPlans.CrossFilterDropped | src/queryexe/src/query/planner.rs:63-66 | two one-row tables: the filter refuses the pair, the lowered plan returns it |
| PhysicalPlans.JoinOrderIff | src/queryexe/src/query/planner.rs:339-406 | a join on one equality is lowered to a join with the same schema and rows if and only if the equality names the left input first or is not between two plain columns |
| PhysicalPlans.OptimizedLowers | src/queryexe/src/query/planner.rs:104-121 | after predicate pushdown every join finds its inputs in order, and the lowered plan means what is left of the optimized one; when no dropped test matters, what the original plan means |
| PhysicalPlans.LoweredGraphMeans | src/queryexe/src/query/planner.rs:104-121 | the same of plan graphs: read from any node the lowered graph is a tree that means what is left of the logical one |
| PhysicalPlans.MeaningWide | src/queryexe/src/query/planner.rs:233-417 | every row of every plan has as many cells as its schema has columns |
| Ast.BindSucceeds | src/common/src/ast_expr.rs:113-138 | binding succeeds exactly on aggregate-free expressions over the schema |
| Ast.BindKeepsMeaning | src/common/src/ast_expr.rs:113-138 | evaluating by bound index is evaluating by name |
| Ast.ComputedFromColumns | src/queryexe/src/query/planner.rs:123-135 | before binding, computed-from holds exactly when every mentioned name is in the schema |
| Ast.EvalNamedAgree | src/queryexe/src/stats/mod.rs:209-260 | a value depends only on the columns mentioned |
| Ast.IntegersCompare | src/queryexe/src/stats/mod.rs:229-235 | the six comparisons of integers are those of numbers |
| Ast.FieldsCompare | src/queryexe/src/stats/mod.rs:229-235 | of any two fields exactly one is smaller, equal or greater, and which of the six comparisons hold follows from that |
| Ast.LogicTable | src/queryexe/src/stats/mod.rs:236-247 | And and Or are the truth tables, and an error on anything but two booleans |
| ByteCode.ByteCodeExpr.Eval | src/common/src/bytecode_expr.rs:94-109 | the dispatch loop computes the stack machine |
| ByteCode.ConvertInner | src/queryexe/src/query/planner.rs:148-202 | the compiler appends exactly the code and literals of a bound expression, and fails on any other |
| ByteCode.CompiledPushesValue | src/common/src/bytecode_expr.rs:128-260 | from any stack, inside any program, compiled code pushes exactly the value and goes on behind itself |
| ByteCode.CompilerCorrect | src/queryexe/src/query/planner.rs:138-202 | running compiled code gives the reference evaluator's value, panics exactly where it has none, and never underflows or misses a literal |
| ByteCode.PipelineCorrect | src/queryexe/src/query/planner.rs:138-202 | binding, compiling and running an expression evaluates it by name |
| ByteCode.Convert | src/queryexe/src/query/planner.rs:138-146 | the entry point does so, and fails exactly when binding does |
| ByteCode.IntegerCode | src/common/src/bytecode_expr.rs:154-188 | compiled arithmetic on integers computes sum, difference, product and truncated quotient of the operands in their written order, wrapped to 64 bits, and panics on a zero divisor or the one overflowing quotient |
| ByteCode.ComparisonCode | src/common/src/bytecode_expr.rs:190-242 | compiled comparisons of integers compare the operands in their written order; And and Or of integers panic |
| ByteCode.LogicCode | src/common/src/bytecode_expr.rs:244-260 | compiled And and Or are the truth tables |
| Relational.ProductFilter | src/optimizer/src/pushdown_predicate.rs:58-97 | a test on pairs that splits into left, right and rest may be applied to the sides first |
| PredicatePushdown.SplitAndKeeps | src/optimizer/src/pushdown_predicate.rs:237-245 | a row passes all conjuncts exactly when it passes the predicate |
| PredicatePushdown.CombineKeeps | src/optimizer/src/pushdown_predicate.rs:223-235 | the combined predicate passes the same rows as the list |
| PredicatePushdown.CombineSplit | src/optimizer/src/pushdown_predicate.rs:223-245 | splitting undoes combining |
| PredicatePushdown.SplitKeeps | src/optimizer/src/pushdown_predicate.rs:58-81 | distributing predicates to left, right, equalities and rest loses and adds no row pair (where each goes: PredicatePushdown.SplitExact) |
| PredicatePushdown.SplitExact | src/optimizer/src/pushdown_predicate.rs:58-81 | left gets what its columns cover, right what only its columns cover, in order; equalities come from the list with their left term first; the rest is what fits nowhere; and no predicate is duplicated |
| PredicatePushdown.CombineSnoc | src/optimizer/src/pushdown_predicate.rs:223-235 | the combined predicate nests to the left, in list order |
| PredicatePushdown.BaseColumns | src/optimizer/src/pushdown_predicate.rs:262-328 | the columns computed for a plan of scans, filters and joins are those of its result |
| PredicatePushdown.JoinKept | src/optimizer/src/pushdown_predicate.rs:41-98 | a join of filtered sides with promoted equalities is the filtered join |
| PredicatePushdown.PushCross | src/optimizer/src/pushdown_predicate.rs:99-160 | the same for a cross product, turned into a join or not |
| PredicatePushdown.KeysFiltered | src/optimizer/src/pushdown_predicate.rs:186-196 | filtering rows by group columns filters the list of group keys |
| PredicatePushdown.GroupKept | src/optimizer/src/pushdown_predicate.rs:186-196 | a group whose key passes keeps all its rows |
| PredicatePushdown.PushAggregate | src/optimizer/src/pushdown_predicate.rs:177-206 | predicates over group columns may go below the aggregate |
| PredicatePushdown.PushBase | src/optimizer/src/pushdown_predicate.rs:16-176 | pushing predicates into scans, filters and joins is filtering their result |
| PredicatePushdown.PushdownKeepsMeaning | src/optimizer/src/pushdown_predicate.rs:16-218 | for every admissible plan and every database the rule keeps schema and rows |
| PredicatePushdown.OutputPushSafe | src/optimizer/src/pushdown_predicate.rs:186-196 | over an aggregate by plain columns, what the rule pushes below speaks of group-by columns only |
| PredicatePushdown.TranslatedKept | src/queryexe/src/query/translate_and_validate.rs:218-360 | the rule keeps the meaning of every plan of the translator's shape: scans, filters and joins, an aggregate by plain columns or without any, filters over its output, projections and sorts |
| PredicatePushdown.PushSettles | src/optimizer/src/pushdown_predicate.rs:16-218 | for every plan no filter node is left and every predicate sits as low as its columns allow |
| PredicatePushdown.PushFaces | src/optimizer/src/pushdown_predicate.rs:41-160 | if every join has the left input first in its equalities, so has every join after the rule, with the old equalities still in front |
| PredicatePushdown.ScanCollects | src/optimizer/src/pushdown_predicate.rs:161-176 | the conjuncts of a scan after the rule are the pushed predicates and then its own; table and projection stay |
| PredicatePushdown.GrouplessExact | src/optimizer/src/pushdown_predicate.rs:177-206 | without groups, pushing column-free having clauses keeps the meaning if and only if they are true or the rest refuses the group of no rows |
| PredicatePushdown.HavingWithoutGroups | src/optimizer/src/pushdown_predicate.rs:177-206 | without groups a column-free having clause changes the result |
| PredicateRule.ExtractColumns | src/optimizer/src/optimizer.rs:39-65 | the accumulator grows by exactly the names mentioned |
| PredicateRule.ExtractColumnsVec | src/optimizer/src/optimizer.rs:33-37 | the same for a list of expressions |
| PredicateRule.ExtractPlanColumns | src/optimizer/src/pushdown_predicate.rs:262-328 | walking the graph computes the columns of the tree |
| PredicateRule.CanBePushedDown | src/optimizer/src/pushdown_predicate.rs:247-260 | true exactly when the child has every column of the predicate |
| PredicateRule.SeparateByAnd | src/optimizer/src/pushdown_predicate.rs:237-245 | the conjuncts are appended in order |
| PredicateRule.CombineWithAnd | src/optimizer/src/pushdown_predicate.rs:223-235 | the reducing loop computes the left-nested conjunction |
| PredicateRule.Distribute | src/optimizer/src/pushdown_predicate.rs:58-81 | the draining loop computes the split, with every equality naming the left input first |
| PredicateRule.DivideHaving | src/optimizer/src/pushdown_predicate.rs:186-194 | the loop separates pushable from staying predicates, order kept |
| PredicateRule.Pushdown | src/optimizer/src/pushdown_predicate.rs:16-218 | the graph it builds, read from its root, is the tree the rule computes; the input plan is untouched |
| PredicateRule.PushdownThrough | src/optimizer/src/pushdown_predicate.rs:330-343 | the same through a projection or sort |
| PredicateRule.Apply | src/optimizer/src/pushdown_predicate.rs:346-352 | the new plan graph means what the old one means over every database with that catalog, has every predicate as low as its columns allow, and keeps the left input first in every join |
| ProjectionPushdown.InsertIncreasing | src/optimizer/src/pushdown_projection.rs:19-19 | the name set stays strictly ordered under insertion |
| ProjectionPushdown.CollectExact | src/optimizer/src/pushdown_projection.rs:16-119 | the names collected are the given ones and exactly those that projections, filters, joins, aggregates, group-bys and sort keys mention; having clauses and cross product filters do not count |
| ProjectionPushdown.KeptIncreasing | src/optimizer/src/pushdown_projection.rs:93-114 | a narrowed scan lists its columns in increasing order |
| ProjectionPushdown.NarrowSchema | src/optimizer/src/pushdown_projection.rs:93-114 | narrowed results have a part of the old columns and all wanted ones of them |
| ProjectionPushdown.ProductAgrees | src/optimizer/src/pushdown_projection.rs:55-79 | pairs of narrowed rows agree with the pairs of the full rows |
| ProjectionPushdown.OutputsAgree | src/optimizer/src/pushdown_projection.rs:44-54 | an aggregate over narrowed rows has exactly the same output |
| ProjectionPushdown.NarrowRows | src/optimizer/src/pushdown_projection.rs:16-119 | with covered filters every narrowed row agrees with its full row, and fixed outputs are equal |
| ProjectionPushdown.NarrowKeepsMeaning | src/optimizer/src/pushdown_projection.rs:16-119 | plans with a fixed output and covered filters keep schema and rows, scans narrowed to no column included |
| ProjectionPushdown.UncoveredEmpties | src/optimizer/src/pushdown_projection.rs:71-79 | below projections and aggregates an uncovered cross product filter leaves no row |
| ProjectionPushdown.UncoveredStarves | src/optimizer/src/pushdown_projection.rs:16-119 | a plan with an uncovered filter is optimized to one that answers as if all tables were empty |
| ProjectionPushdown.NarrowExact | src/optimizer/src/pushdown_projection.rs:16-119 | for every plan with a fixed output the meaning is kept if and only if the filters are covered or the plan returns what it returns over empty tables |
| ProjectionPushdown.GroupedExact | src/optimizer/src/pushdown_projection.rs:16-119 | with group-by columns in every aggregate, that is if and only if they are covered or nothing is returned |
| ProjectionPushdown.GrouplessNarrowExact | src/optimizer/src/pushdown_projection.rs:44-54 | without group-by columns, if and only if they are covered or the rows aggregate like no rows at all |
| ProjectionPushdown.UnfilteredCovered | src/optimizer/src/pushdown_projection.rs:71-79 | plans without cross product filters are always covered |
| ProjectionPushdown.NarrowSlims | src/optimizer/src/pushdown_projection.rs:93-114 | every scan delivers only collected columns of its own table |
| ProjectionRule.NewProjection | src/optimizer/src/pushdown_projection.rs:100-105 | the loop picks the table's names in set order |
| ProjectionRule.Pushdown | src/optimizer/src/pushdown_projection.rs:16-119 | the graph it builds is the narrowed tree, and the name set it passes on is the collected one |
| ProjectionRule.Apply | src/optimizer/src/pushdown_projection.rs:122-128 | over every database the new graph means the same exactly when the filters are covered or the plan returns what it returns over empty tables |
| RulesTogether.BothRules | src/optimizer/src/optimizer.rs:23-31 | predicates then projections keep the meaning if and only if the filters left on cross products are covered or the plan returns what it returns over empty tables |
| RulesTogether.TestIsLost | src/optimizer/src/pushdown_projection.rs:71-79 | a family of two-table queries that the first rule turns from covered to uncovered |
| RulesTogether.RowsAreLost | src/optimizer/src/pushdown_projection.rs:71-79 | over every database these queries return nothing after both rules |
| RulesTogether.LessRowIsLost | src/optimizer/src/pushdown_projection.rs:71-79 | two one-row tables and a comparison between them: the row is there before the rules and gone after them |
| RulesTogether.UnfilteredKept | src/optimizer/src/pushdown_projection.rs:16-119 | without cross product filters projection pushdown alone keeps the meaning |
| Iterators.OpIterator.Tuples | src/queryexe/src/opiterator/tuple_iterator.rs:28-41 | a reversed copy that will deliver the given tuples in order |
| Iterators.OpIterator.Configure | src/queryexe/src/opiterator/cross_join.rs:31-34 | left inputs may be consumed, right inputs stay rewindable, the stream to deliver is unchanged |
| Iterators.OpIterator.Open | src/queryexe/src/opiterator/cross_join.rs:36-44 | opening fails exactly when an input fails at its start, and leaves the stream as it was |
| Iterators.OpIterator.NextTuple | src/queryexe/src/opiterator/tuple_iterator.rs:84-100 | both modes deliver the next tuple of the stream |
| Iterators.OpIterator.NextFiltered | src/queryexe/src/opiterator/filter.rs:51-72 | the next tuple that passes, an error at a predicate that is not boolean |
| Iterators.OpIterator.NextProjected | src/queryexe/src/opiterator/project.rs:40-57 | the next tuple with all fields evaluated in order |
| Iterators.OpIterator.NextPair | src/queryexe/src/opiterator/cross_join.rs:46-59 | the next pair in left-major order, through rewinds of the right input |
| Iterators.OpIterator.Rewind | src/queryexe/src/opiterator/cross_join.rs:68-73 | at any point a rewindable operator starts the same stream again, and cannot fail |
| Iterators.EvalFields | src/queryexe/src/opiterator/project.rs:46-50 | the field loop evaluates every expression in order and stops at the first panic |
| Iterators.Execute | src/queryexe/src/testutil.rs:16-21 | from open to exhaustion an operator delivers exactly its stream or its failure |
| Execution.CrossExecutes | src/queryexe/src/opiterator/cross_join.rs:36-73 | a cross join succeeds exactly when its left input does and, unless that is empty, its right input, and then delivers the left-major list of pairs |
| Execution.FilterExecutes | src/queryexe/src/opiterator/filter.rs:51-72 | a filter succeeds exactly when its predicate is boolean on every input, and then delivers the filtered list |
| Execution.ProjectExecutes | src/queryexe/src/opiterator/project.rs:40-57 | a projection succeeds exactly when every field has a value, and then delivers the mapped list |
| Streams.FilterStops | src/queryexe/src/opiterator/filter.rs:51-72 | a filter stops at the first tuple without a truth value, with an error if it has another value and a panic if it has none, after delivering what passed before |
| Streams.MapStops | src/queryexe/src/opiterator/project.rs:40-57 | a projection stops at the first tuple with a field that has no value |
| Streams.CrossStops | src/queryexe/src/opiterator/cross_join.rs:46-59 | when its right input fails, a cross join stops in its first round with that failure |
| Streams.CrossLeftFails | src/queryexe/src/opiterator/cross_join.rs:46-59 | when its left input fails, it does so after all pairs of the tuples delivered |
| Execution.StreamMeans | src/queryexe/src/query/planner.rs:233-417 | for every tree of projections, filters and cross products over scans, the operators succeed exactly when every evaluation reached does, and then deliver the rows the plan means |
| Execution.OpeningSucceeds | src/queryexe/src/opiterator/cross_join.rs:36-44 | opening them succeeds when every part of the plan does |
| Execution.Build | src/queryexe/src/query/planner.rs:233-417 | compiling and stacking gives operators with exactly that stream and opening |
| Execution.Run | src/queryexe/src/query/planner.rs:211-417 | compiling, stacking and running such a plan returns the plan's rows over every database that holds the tables, exactly when opening and every evaluation reached succeed |
| Fields.FieldLessTotal | src/common/src/datatypes.rs:85-93 | the field order is total and antisymmetric |
| Fields.FieldLessTransitive | src/common/src/datatypes.rs:85-93 | and transitive |
| Fields.StringLessExact | src/common/src/datatypes.rs:85-93 | strings compare by their first difference, and a proper prefix comes first |
| Fields.FieldLessWithin | src/common/src/datatypes.rs:85-93 | fields of one variant compare by contents, decimals by unscaled value and then scale, false before true |
| Fields.FieldLessAcross | src/common/src/datatypes.rs:85-93 | variants compare in the order of their declaration |
| Arithmetic.SameScaleOrder | src/common/src/datatypes.rs:85-93 | decimals of one scale are ordered by amount |
| Arithmetic.ScalesMislead | src/common/src/datatypes.rs:85-93 | 2 comes before 1.5 |
| Arithmetic.OrderedIffSameScale | src/common/src/datatypes.rs:85-93 | between two scales the order is that of the amounts if and only if the scales are the same |
| Arithmetic.AddExact | src/common/src/datatypes.rs:119-143 | adding integers and decimals of any scales is the exact sum at the larger scale, wrapped once |
| Arithmetic.SubExact | src/common/src/datatypes.rs:145-169 | subtracting integers and decimals of any scales is the exact difference at the larger scale, wrapped once |
| Arithmetic.SubUndoesAdd | src/common/src/datatypes.rs:119-169 | subtracting what was added gives the first operand back at the larger scale, overflow included |
| Arithmetic.MulExact | src/common/src/datatypes.rs:171-206 | a product with at most one decimal is exact at that scale, wrapped once |
| Arithmetic.MulRounds | src/common/src/datatypes.rs:177-190 | a product of two decimals is the nearest amount at the larger scale, when the unscaled product fits |
| Arithmetic.DivExact | src/common/src/datatypes.rs:208-262 | integer division: the remainder is smaller than the divisor and has the sign of the dividend |
| Arithmetic.QuotientUnique | src/common/src/datatypes.rs:208-262 | there is only one such quotient |
| Arithmetic.DivRounds | src/common/src/datatypes.rs:208-262 | a quotient with a decimal is the nearest amount at the larger scale, when the scaled dividend fits |
| Arithmetic.MathSucceeds | src/common/src/datatypes.rs:119-262 | arithmetic succeeds exactly on two numbers, with a divisor that is not zero and no overflowing quotient; which failures panic |
| Aggregation.SumExact | src/queryexe/src/opiterator/aggregate.rs:45-64 | folding sums over mixed fields is the exact sum at the maximum scale, wrapped once |
| Aggregation.SumNoOverflow | src/queryexe/src/opiterator/aggregate.rs:45-64 | without overflow of the final sum it is that sum |
| Aggregation.MergeCommutes | src/queryexe/src/opiterator/aggregate.rs:45-64 | two values may be merged in either order, for all five operators and all fields |
| Aggregation.FoldPermutation | src/queryexe/src/opiterator/aggregate.rs:45-64 | every permutation of a group gives the same accumulator |
| Aggregation.MaxOfGroup | src/queryexe/src/opiterator/aggregate.rs:48-51 | the fold for Max is a member of the group that none exceeds |
| Aggregation.MinOfGroup | src/queryexe/src/opiterator/aggregate.rs:52-55 | the fold for Min is a member of the group below none |
| Aggregation.CountOfGroup | src/queryexe/src/opiterator/aggregate.rs:47-47 | the fold for Count adds the number of fields, wrapped |
| Decimals.ValueOfDigits | src/common/src/datatypes.rs:497-518 | the printed digits of a number read back as it |
| Decimals.RoundTripNonNegative | src/common/src/datatypes.rs:398-444 | printing then parsing a non-negative decimal gives it back, or an error when it has too many digits |
| Decimals.RoundTripNegative | src/common/src/datatypes.rs:398-444 | the same from -1 downwards |
| Decimals.RoundTripLostSign | src/common/src/datatypes.rs:497-518 | between -1 and 0 the printed text is always refused |
| Decimals.RoundTripNoScale | src/common/src/datatypes.rs:497-518 | at scale 0 the printed text is always refused |
| Decimals.RoundTripIff | src/common/src/datatypes.rs:398-444 | parsing undoes printing if and only if the scale is positive, the digits fit and the value is not between -1 and 0 (texts not printed by the program: DecimalTexts.ParsePoint) |
| DecimalTexts.ParsePoint | src/common/src/datatypes.rs:398-444 | a sign, digits, a point and at most as many digits as the scale: the number scaled up with its sign taken from the integer part, or an error exactly when the integer part is too long |
| DecimalTexts.ParseExact | src/common/src/datatypes.rs:398-444 | that is the decimal number written, if and only if it has no minus before a zero integer part or is zero |
| DecimalTexts.MinusLost | src/common/src/datatypes.rs:433-443 | a minus before a zero integer part is ignored |
| DecimalTexts.ParseWithoutPoint | src/common/src/datatypes.rs:398-444 | without a point the text is the integer, scaled up, or an error exactly when it is too long |
| DecimalTexts.ParseLong | src/common/src/datatypes.rs:419-443 | with more fraction digits than the scale the fraction counts for nothing, or is refused when its digits exceed the scale as a number |
| DecimalTexts.LongCutIff | src/common/src/datatypes.rs:419-443 | such a text is read as its value cut at the scale if and only if the digits that should stay are zeros |
| DecimalTexts.LongFractionLost | src/common/src/datatypes.rs:419-443 | 0.0120 at scale 3 is read as zero |
| DecimalTexts.TwoPoints | src/common/src/datatypes.rs:400-406 | a text with two or more points is refused |
| Locks.AcquireConsistent | src/txn_manager/src/lockmanager.rs:55-100 | acquiring keeps the two maps in agreement |
| Locks.AcquireGrants | src/txn_manager/src/lockmanager.rs:55-100 | a lock is granted exactly when every other holder and the request are read-only |
| Locks.AcquireHolds | src/txn_manager/src/lockmanager.rs:55-100 | a grant adds exactly that holding; a granted write lock is exclusive; the kind of every lock afterwards: as asked for on a fresh value, raised by a granted write, otherwise as before |
| Locks.GrantedExactly | src/txn_manager/src/lockmanager.rs:55-179 | after every run a read is granted exactly when no other transaction may write the value, a write exactly when no other transaction holds it |
| Locks.WriteLockHasWriter | src/txn_manager/src/lockmanager.rs:55-179 | after every run the holder of a lock of kind ReadWrite was granted it for writing |
| Locks.ReadersShare | src/txn_manager/src/lockmanager.rs:55-100 | after a read lock on a fresh value every other transaction is granted one, too |
| Locks.ReleaseFacts | src/txn_manager/src/lockmanager.rs:147-179 | a release succeeds exactly when held, removes exactly that holding, and otherwise changes nothing |
| Locks.ReleaseAllFacts | src/txn_manager/src/lockmanager.rs:119-139 | releasing all succeeds exactly when something is held, then nothing is, and others keep theirs |
| Locks.RunConsistent | src/txn_manager/src/lockmanager.rs:43-179 | in every reachable state the two maps agree, without duplicates or empty lists |
| Locks.WriterIsAlone | src/txn_manager/src/lockmanager.rs:55-179 | after every run a transaction that may write holds the only lock on the value |
| Locks.LockSafety | src/txn_manager/src/lockmanager.rs:55-179 | while it may, nobody else holds, is granted or may write that value |
| Locks.LockManager.AcquireLock | src/txn_manager/src/lockmanager.rs:55-100 | the method computes that step on both maps (when it grants: Locks.GrantedExactly) |
| Locks.LockManager.ReleaseLock | src/txn_manager/src/lockmanager.rs:147-179 | the method computes that step on both maps |
| Locks.LockManager.ReleaseLocks | src/txn_manager/src/lockmanager.rs:119-139 | the loop over the page list computes that step |

## Left out

- Heap files, buffer pool, storage managers: file I/O and unfinished bodies.
- HashEqJoin, NestedLoopJoin, SortMergeJoin, the Aggregate operator and Sort: unimplemented or lowered to unimplemented code; a physical plan means what these operators are given to compute, and aggregates and sorts are parameters of a plan's meaning.
- PhysicalPlans.LoweredMeans: a join whose first equality cannot be computed from its inputs, left input first, is excluded; JoinOrderIff says what becomes of the other order.
- PhysicalPlans.JoinOrderIff: the two inputs have different column names, as SidesFit says.
- PhysicalPlans.LoweringKeepsIff: about one node over inputs that are kept; below a node that loses rows a dropped test may cease to matter, which LoweringKeepsMeaning covers in one direction.
- Update, ReadDeltas and WriteDeltas: both rules refuse them.
- PredicatePushdown.TranslatedKept: scans have no projection yet, the two sides of a join have different column names, no aggregate is named like an input column, and without group-by columns every having conjunct speaks of some aggregate; GrouplessExact covers those that do not.
- ProjectionPushdown.NarrowKeepsMeaning: for scans without an earlier projection, which the rule ignores.
- PredicateRule.Pushdown: expressions with column indices and tables missing from the catalog make the rule panic and are excluded.
- Iterators.Execute: the optional sort of the collected tuples, a convenience of the helper, is not modelled.
- Execution.Run: the tables come as tuple lists; a scan with its own filter or projection, which panics instead of returning an error, is not executed.
- Iterators.OpIterator.Configure: called before the operator is opened, as the executor does; `close` is not modelled, because a closed tuple iterator forgets its position and cannot be opened again.
- Iterators.OpIterator.CrossJoin: the right input must be rewindable, as every operator is when created; the four operators are one class with a kind, since dynamic dispatch has no counterpart here.
- Arithmetic.MulRounds: the program rounds an f64 quotient, the model the exact one; results with more than 53 significant bits can differ in their last digits. Unscaled products beyond 64 bits wrap first and are not stated.
- Arithmetic.DivRounds: the same, for scaled dividends that fit 64 bits and exponents up to 18.
- DecimalTexts.ParsePoint: scales and integer parts of up to 18 digits, beyond which powers of ten do not fit 64 bits; builds with overflow checks panic where DecimalTexts.ParseLong says that a long fraction is dropped.
- Literals that are dates are opaque; serialization, JSON and CBOR are not part of this model.
- Plan statistics, selectivity estimates, the catalog, server, client and command parsing: peripheral or I/O.
