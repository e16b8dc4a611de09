# ChiselStrike: compiled forms mean what the simple forms mean

ChiselStrike lets a program describe data access in TypeScript and runs it as staged SQL, flat
tables and partially evaluated policies.  This project models the parts where one form is turned
into another and proves that the meaning stays: for every operator chain, every object tree, every
policy, every run.  Where the code does not keep the meaning in all cases, the exact condition
under which it does is proved, with a concrete case on the other side.

Each file is one module.  Loops and updates of the source are methods and classes, proved equal to
a specification function or to the new state; the theorems are lemmas about those functions.

- **Sequences**, **Values**: filter, stable sort and its tie classes; values, their order, and
  three-valued expression evaluation.
- **JsonFilter**: the JSON filter language, translated by the server and evaluated by the client.
- **QueryPlan**, **Cursor**: operator chains, run as nested SELECTs on the server (all filters of a
  stage gathered, only its last sort kept, a cut after each Take or Skip) and as generators on the
  client.  The reference is each operator's own `apply`.
- **Paging**, **PagingWalk**: cursors of the CRUD endpoint, their filters, and walks over pages.
- **EntityStore**, **EntityLoad**, **PlanShape**, **RoundTrip**: an object tree becomes upserts with
  numbered placeholders; left joins, column indices and decoding bring it back.
- **ControlFlow**: statements of a policy function become a control-flow graph.
- **PolicyRules**: region trees become one condition per action; conditions go through an external
  boolean simplifier, which is a parameter with the hypothesis that it keeps truth values.
- **PolicyFilter**: the skip condition is evaluated against the request and pushed into the query;
  the policy runs on the rows that come back.
- **Outbox**: pollers with a lock, crashes and two transactions, as a state machine, and the poller
  itself as methods whose every action is a step of it.
- **HandleRing**: the circular doubly linked list behind the debugging handle, on the heap.
- **OrderedMap**, **TypeDelta**, **PrefixMap**: type evolution and longest path prefix, both over
  maps that iterate in key order.

## What the proofs found

- Keeping only the last sort of a stage is right exactly when, among the rows that pass, the last
  sort ties no pair that the earlier sorts would swap (`QueryPlan.LastSortSuffices`); as a condition
  on the sorts alone, on tables with unique ids, when it orders by the id or by every field an
  earlier sort orders by (`QueryPlan.DroppingSortsIsSafeIff`).
- A later `select` that asks for a column an earlier one dropped gives that column on the server and
  not on the client.  On a chain that the database runs this is all that can differ: both sides give
  the same exactly when no row that is left has such a column (`Cursor.SelectsAgreeIff`).
- A null field under `$ne` is kept by the client and dropped by the database
  (`JsonFilter.NullBreaksAgreement`), and a comparison with it throws on the client.  On a record
  whose fields are of their type or missing, both sides agree on all accepted filters exactly when
  no field that such a filter can name is missing (`JsonFilter.AgreeOnAllIff`); a single filter on a
  missing field agrees exactly when it has no condition, is plain equality, or reaches an `$eq`
  after nothing but `$ne` (`JsonFilter.MissingFieldAgreesIff`).
- An inclusive cursor's filter looks at the first axis only.  Taken alone it keeps too much, but it
  is exact in the one state where the code reaches it (`Paging.InclusiveFilterIsExactIff`,
  `PagingWalk.EmptyPageTurnsBack`), and the link leads to the last page of all rows that match
  (`PagingWalk.BackLinkLeadsToTheEnd`).
- A link keeps the request's `offset`, so behind each page the walk passes over rows that no page
  shows (`PagingWalk.NextPassesOver`).
- The link that a page ends with is refused when its row has null in a sort field, so a walk breaks
  off there; it works exactly when no sort field of the row is null (`PagingWalk.LinkWorksIff`).
- An empty block makes the control-flow graph lead back to the statement before it; the graph is
  right exactly when no empty block is reachable (`ControlFlow.GraphIsRightIff`).
- The translation for the simplifier numbers predicates in a byte: with overflow checks it stops at
  the 256th predicate, without them it is undone up to 256 and wrong beyond
  (`PolicyRules.RoundTripIff`).
- The pushed filter sees the user id as `user_id`, the policy as `userId`.  The two views of a
  request agree on all members that a policy reads exactly when there is no user or the policy does
  not read the user id (`PolicyFilter.MembersAgreeIff`).  The policy that lets a user see the rows
  with `ctx.userId == row.owner` allows the owner's rows, and its compiled filter keeps no row at
  all (`PolicyFilter.UserIdIsLost`).

## Model

| member | source | states |
|---|---|---|
| JsonFilter.TranslateFilter | server/src/datastore/filter.rs:8-50 | the loop over a filter object builds the expression of the recursive specification, errors and depth limit included |
| JsonFilter.TranslateField | server/src/datastore/filter.rs:60-101 | the same for field filters |
| JsonFilter.TranslatesIff | server/src/datastore/filter.rs:8-101 | whatever JSON comes in, it is translated exactly when it is a filter (known operators over arrays and filters, comparisons with constants) nested at most 100 deep |
| JsonFilter.TranslatesIffShallow | server/src/datastore/filter.rs:8-101 | a well-typed filter is refused only for nesting beyond 100, and then always |
| JsonFilter.FilterAgrees | api/src/filter.ts:26-127 | on a record whose fields fit the filter's type the client's filter does not throw and has the truth value of the translated expression |
| JsonFilter.AgreeOnAllIff | api/src/filter.ts:26-127 | for a record whose fields are missing or of their type, both sides agree on all well-typed accepted filters if and only if no field that such a filter can name is missing |
| JsonFilter.MissingFieldAgreesIff | api/src/filter.ts:52-127 | on a missing field both sides agree on a field filter if and only if it is plain equality, has no condition, or has an `$eq` after `$ne` conditions only |
| JsonFilter.NullBreaksAgreement | api/src/filter.ts:94-98 | for any record and any missing scalar field, the client keeps the record under `$ne` and the database does not |
| QueryPlan.SplitOnFirstTake | server/src/datastore/query.rs:663-673 | the cut comes right after the first Take or Skip, and nothing is lost |
| QueryPlan.GatherFilters | server/src/datastore/query.rs:675-688 | the gathered expression is the conjunction of all filters, in order |
| QueryPlan.MakeRawQuery | server/src/datastore/query.rs:719-760 | the loop nests one SELECT per stage and fails on the same operators as the specification |
| QueryPlan.SortBySortBy | server/src/datastore/query.rs:690-694 | two stable sorts are one sort whose leading keys are the later ones |
| QueryPlan.BodyNormalForm | server/src/datastore/query.rs:719-745 | filters and sorts in any order are one filter followed by one sort by all keys |
| QueryPlan.LastSortSuffices | server/src/datastore/query.rs:690-694 | dropping all sorts but the last is right on given rows if and only if the last sort ties no inverted pair |
| QueryPlan.DroppingSortsIsSafeIff | server/src/datastore/query.rs:690-694 | it is right on all typed tables with unique ids if and only if the last sort orders by the id or covers the fields of the earlier ones |
| QueryPlan.RawQueryRefines | server/src/datastore/query.rs:719-760 | the nested SELECTs compute what the operators compute one after the other |
| QueryPlan.OneStageIsExact | server/src/datastore/query.rs:719-760 | for one stage the condition on the rows is exact |
| QueryPlan.CoveredSortsAgree | server/src/datastore/query.rs:690-694 | when each stage's last sort covers the earlier ones, or the id where ids are unique, the condition holds on all rows |
| QueryPlan.CompilesIff | server/src/datastore/query.rs:711-760 | building the query fails exactly for a Count that is not last, a last sort by an unknown field, or a filter over an unknown field |
| QueryPlan.ExprIsValidIff | server/src/datastore/query.rs:532-602 | a filter can be written as SQL exactly when each operand is a constant or a chain of properties that leads through the type's fields |
| QueryPlan.UnknownColumnIsRefused | server/src/datastore/query.rs:578-602 | a query with a filter over a column that the type lacks is refused, wherever the filter stands |
| QueryPlan.UnknownSortIsRefused | server/src/datastore/query.rs:608-631 | a query that sorts by a field that the type lacks is refused, unless a later sort of the stage replaces it |
| Cursor.ApplyTake | api/src/datastore.ts:118-136 | the generator yields the first `count` elements |
| Cursor.ApplySkip | api/src/datastore.ts:154-168 | the generator yields what comes after the first `count` elements |
| Cursor.ApplyFilter | api/src/datastore.ts:265-278 | the generator yields the elements that pass, in order |
| Cursor.ApplySelect | api/src/datastore.ts:226-243 | each element is cut down to the listed columns it has |
| Cursor.ApplyCount | api/src/datastore.ts:435-447 | one number, the length of the input |
| Cursor.ApplyAggregate | api/src/datastore.ts:473-488 | one value, the fold from the left, also on no input |
| Cursor.AggregateMeans | api/src/datastore.ts:473-488 | an aggregate of nothing is its initial value, and one more element is taken in by one more operation |
| Cursor.MinByMeans | api/src/datastore.ts:503-517 | the minimum is a value of the column, not null, that no other is below, and undefined exactly when there is none |
| Cursor.MaxByMeans | api/src/datastore.ts:519-533 | the same for the maximum |
| Cursor.ProcessProjections | server/src/datastore/query.rs:296-310 | the last projection, cleared by Count, and the operators without projections |
| Cursor.EvalIsNoneIff | api/src/datastore.ts:34-40 | the database takes exactly the chains without map, predicate filter and aggregate |
| Cursor.CursorMatchesReference | api/src/datastore.ts:723-729 | iterating any compatible cursor, run by the database as a whole or in part, gives what applying every operator in order gives |
| Cursor.CursorMatchesReferenceStatically | api/src/datastore.ts:723-729 | the same without a condition on order or columns of the rows when last sorts cover earlier ones or, on unique ids, the id, and selects narrow |
| Cursor.SelectsAgreeIff | api/src/datastore.ts:226-255 | a chain of selects among other database operators gives the same on both sides if and only if no remaining row has a column of the last select that an earlier one dropped |
| Cursor.ReferenceIsView | api/src/datastore.ts:226-243 | the reference stream of a database chain is the view, through its selects, of the rows the operators leave |
| Cursor.EvalFilterReads | api/src/filter.ts:26-50 | a well-typed filter depends on the fields of its type only |
| Cursor.ToExprIsValid | server/src/datastore/query.rs:532-560 | the expression of a well-typed filter can be written as SQL |
| Paging.MakeFilter | server/src/datastore/crud.rs:367-402 | the two loops build the disjunction of guarded comparisons, or fail on an axis without a scalar field of the value's type |
| Paging.ParseUrlQuery | server/src/datastore/crud.rs:222-276 | the loop over parameters gives the specified query: a cursor replaces the sort and adds its filter |
| Paging.RequestMeans | server/src/datastore/crud.rs:222-276 | a request's filters are those of its parameters in order, of other parameters the last one counts, the sort ends in the id; it is refused exactly for an unparsed value, an unknown sort field, a second cursor, or a cursor that does not fit the type |
| Paging.CursorRequestMeans | server/src/datastore/crud.rs:269-272 | with a cursor the sort is that of its axes in its direction, and its filter is added behind the others |
| Paging.MakePageUrl | server/src/datastore/crud.rs:182-193 | the link keeps all parameters but sort and cursor and ends with the cursor |
| Paging.ExclusiveFilterMeans | server/src/datastore/crud.rs:367-402 | an exclusive filter keeps exactly the rows strictly beyond the position in lexicographic order |
| Paging.InclusiveFilterCollapses | server/src/datastore/crud.rs:367-402 | an inclusive filter is the comparison on the first axis alone |
| Paging.InclusiveFilterIsExactIff | server/src/datastore/crud.rs:367-402 | the inclusive filter is right on a row exactly unless the row shares the first axis value and comes before on the others |
| PagingWalk.OneStageQuery | server/src/datastore/crud.rs:279-292 | without offset a request is filter, sort by the query's sort, take a page |
| PagingWalk.RequestReturns | server/src/datastore/crud.rs:60-292 | a request returns, of the rows that pass all filters in sort order, the page behind the offset, in reverse for a backward cursor |
| PagingWalk.OffsetIsAppliedAgain | server/src/datastore/crud.rs:182-193 | links keep the offset, and the page behind a link leaves out as many rows behind the cursor |
| PagingWalk.NextPassesOver | server/src/datastore/crud.rs:182-193 | with an offset n, `next` from the full first page passes over n rows that come after it |
| PagingWalk.LinkQuery | server/src/datastore/crud.rs:182-193 | a link reads back as its query with the cursor's sort and filter |
| PagingWalk.CursorSelects | server/src/datastore/crud.rs:350-402 | the cursor at a row selects the matching rows after it, or before it in reverse order |
| PagingWalk.WalkVisitsEachRowOnce | server/src/datastore/crud.rs:132-193 | following `next` visits every matching row once in sort order, in ceil(n/page_size)+1 requests |
| PagingWalk.PrevUndoesNext | server/src/datastore/crud.rs:78-177 | from a full page, `next` then `prev` gives the same rows and the very `next` link that was followed |
| PagingWalk.EmptyPageTurnsBack | server/src/datastore/crud.rs:132-155 | behind an empty page there is only the link back, whose filter keeps all matching rows, none of which is beyond the position |
| PagingWalk.BackLinkLeadsToTheEnd | server/src/datastore/crud.rs:132-155 | requesting that link gives the last page_size matching rows in sort order, or the first ones going backward |
| PagingWalk.LinkWorksIff | server/src/datastore/crud.rs:157-177 | the link at a row is accepted if and only if no sort field of the row is null |
| EntityStore.InsertionOf | server/src/datastore/engine.rs:610-687 | the recursive loop gives the specified statements, nested entities first, and the id tree, or the same error |
| EntityStore.InsertQueryOf | server/src/datastore/engine.rs:797-855 | the loop with its bind counter gives the specified columns and id column, and refuses unknown fields |
| EntityStore.ShallowInsertionOf | server/src/datastore/engine.rs:857-880 | the loop gives the specified statement for one entity |
| EntityStore.ShallowPlaceholders | server/src/datastore/engine.rs:857-880 | in a successful shallow insertion placeholders and arguments match one to one, each for its own field |
| EntityStore.DeepPlaceholders | server/src/datastore/engine.rs:621-677 | the same for deep insertion, which skips absent and null optional fields by another test than the statement |
| EntityStore.PlaceholdersInRange | server/src/datastore/engine.rs:804-833 | numbered through, the placeholders are as many as the arguments and each stands for one of them |
| EntityStore.InsertionId | server/src/datastore/engine.rs:660-687 | the reported id is the given one or else the generated one |
| EntityStore.IdsAreReported | server/src/datastore/engine.rs:621-687 | the id tree has the id of every entity of the tree, a child for each field that holds a nested object and no other |
| EntityStore.InsertionSucceedsIff | server/src/datastore/engine.rs:610-687 | insertion succeeds exactly when every field can be stored, in nested objects too, and every value has a field |
| EntityStore.ShallowSucceedsIff | server/src/datastore/engine.rs:857-880 | shallow insertion succeeds exactly when each field not skipped has a value of its kind, a relation its id, and every value has a field |
| EntityLoad.MaxPrefix | server/src/datastore/query.rs:780-789 | the longest prefix within the limit that ends on a character boundary |
| EntityLoad.PlanBuilder.MakeScalarField | server/src/datastore/query.rs:313-335 | the field gets the next column index and one column is added |
| EntityLoad.PlanBuilder.LoadEntityRecursive | server/src/datastore/query.rs:350-416 | the recursion over the counters gives the specified fields, joins and columns |
| EntityLoad.RowToEntityValue | server/src/datastore/engine.rs:400-488 | the loop decodes a row as specified, with its error cases |
| PlanShape.AliasesAreDistinct | server/src/datastore/query.rs:374-383 | all table aliases differ, also after cutting to 63 bytes |
| PlanShape.AliasKeepsCounter | server/src/datastore/query.rs:791-795 | cutting an alias keeps the counter that tells it apart |
| PlanShape.JoinsAreNumbered | server/src/datastore/query.rs:350-416 | the joins are numbered through from 0 as nested entities are found, each under its type's name, and the counter counts them |
| PlanShape.AliasReads | server/src/datastore/query.rs:374-383 | an alias of at most 63 bytes reads JOIN, the number in decimal, and the type name twice |
| PlanShape.BoundariesAreCharacters | server/src/datastore/query.rs:780-789 | in UTF-8 text the places where an identifier may be cut are exactly those between whole characters |
| PlanShape.ColumnsPointHome | server/src/datastore/query.rs:313-416 | every column index points at a column of its own field and table alias, and no two fields share one |
| RoundTrip.EachRowIsStored | server/src/datastore/engine.rs:842-853 | statements with fresh, distinct ids leave exactly their rows, whatever their order |
| RoundTrip.OtherRowsUnchanged | server/src/datastore/engine.rs:842-853 | rows of other ids are untouched |
| RoundTrip.TreeIsStored | server/src/datastore/engine.rs:610-687 | after the statements of an insertion, the tables hold a row with the right columns for every entity of the tree |
| RoundTrip.StatementsFollowTree | server/src/datastore/engine.rs:621-687 | the statements write one row for each entity of the tree, nested entities first, and no other |
| RoundTrip.JoinParts | server/src/datastore/query.rs:500-520 | with distinct aliases each left join finds the row its key column names |
| RoundTrip.StoreThenLoad | server/src/datastore/engine.rs:400-488 | storing a tree and loading it by its id gives the tree with ids filled in and missing fields defaulted |
| RoundTrip.FullTreeSurvives | server/src/datastore/engine.rs:400-488 | a tree given in full comes back unchanged |
| RoundTrip.CompletedHas | server/src/datastore/engine.rs:691-790 | the completed tree has exactly the completed fields of the type |
| ControlFlow.CFGBuilder.MergeOutTo | chiselc/src/tools/analysis/control_flow.rs:57-61 | every open edge gets the target, in order |
| ControlFlow.CFGBuilder.BlockOf | chiselc/src/tools/analysis/control_flow.rs:63-82 | the loop with its optional root and current edges gives the specified piece, also for an empty block |
| ControlFlow.CFGBuilder.StmtOf | chiselc/src/tools/analysis/control_flow.rs:84-139 | the builder's state and result are the specified piece |
| ControlFlow.CFGBuilder.AddStmtNode | chiselc/src/tools/analysis/control_flow.rs:141-147 | the node is new, mapped to its statement, and becomes the previous one |
| ControlFlow.BuildGraph | chiselc/src/tools/analysis/control_flow.rs:165-191 | the whole graph as specified |
| ControlFlow.WalkIsExecutionIff | chiselc/src/tools/analysis/control_flow.rs:57-191 | walking from Start to End visits exactly the statements that run, in order, if and only if the run meets no empty block |
| ControlFlow.WalkIsUnique | chiselc/src/tools/analysis/control_flow.rs:57-191 | under given test outcomes there is at most one walk |
| ControlFlow.GraphIsRightIff | chiselc/src/tools/analysis/control_flow.rs:81-82 | the graph is right for all test outcomes if and only if no empty block is reachable in the text |
| ControlFlow.EdgesGoForward | chiselc/src/tools/analysis/control_flow.rs:57-148 | without empty blocks each edge leads to a later node or to End |
| ControlFlow.NodesAreStatements | chiselc/src/tools/analysis/control_flow.rs:114-147 | building fails exactly on unsupported statements, and each node is the statement at its place in the text |
| PolicyRules.Environment.Parse | chiselc/src/policies.rs:408-466 | parsing with the growing environment gives the specified predicate and environment, or the same error |
| PolicyRules.ParseKeepsMeaning | chiselc/src/policies.rs:408-466 | a parsed predicate has the value of its expression; the environment only grows and numbers no variable twice |
| PolicyRules.MergeActions | chiselc/src/policies.rs:554-570 | the loop over the actions gives the pointwise disjunction |
| PolicyRules.RulesBuilder.InferRulesFromRegion | chiselc/src/policies.rs:630-651 | the builder's actions and state are the specified ones |
| PolicyRules.RulesDecide | chiselc/src/policies.rs:608-695 | if the entry condition holds, exactly the action that running the tree returns has its condition true; otherwise none has |
| PolicyRules.InferSucceedsIff | chiselc/src/policies.rs:608-695 | a policy compiles exactly when it consists of supported tests, returns of an action by its name, and blocks that fall off the end |
| PolicyRules.ActionIsReturned | chiselc/src/policies.rs:653-695 | the action read off a block is the one that running it returns, and Deny when it falls off the end |
| PolicyRules.Mapping.Translate | chiselc/src/policies.rs:280-312 | the translation with its growing mapping gives the specified formula |
| PolicyRules.MappingGrows | chiselc/src/policies.rs:280-312 | the mapping only grows, holds no predicate twice, and ends with the open predicates of the condition |
| PolicyRules.RoundTripIff | chiselc/src/policies.rs:280-331 | translating and reading back folds boolean literals and changes nothing else, if and only if there are at most 255 (checked) or 256 (wrapping) predicates |
| PolicyRules.NothingToFold | chiselc/src/policies.rs:294-296 | the folded condition is the condition itself exactly when no predicate is a boolean literal |
| PolicyRules.FromBoolMeans | chiselc/src/policies.rs:314-331 | a formula read back has its truth value, with n-ary operators joined from the left |
| PolicyRules.FromBoolSucceedsIff | chiselc/src/policies.rs:314-331 | reading back panics exactly on an empty operator or a term outside the mapping |
| PolicyRules.SimplifyKeepsTruth | chiselc/src/policies.rs:268-276 | simplifying keeps truth and asks for no new predicate |
| PolicyRules.WhereMeansNotSkip | chiselc/src/policies.rs:210-229 | the condition of a compiled policy holds exactly when running it does not skip; without one it never skips |
| PolicyFilter.PartialEvalKeepsValue | server/src/policy/interpreter.rs:53-102 | partial evaluation succeeds on typed predicates, leaves a literal exactly of what the request decides, and the literal is the value |
| PolicyFilter.ResidualKeepsValue | server/src/policy/engine.rs:262-299 | the expression of what is left has the predicate's value |
| PolicyFilter.MembersAgreeIff | server/src/policy/engine.rs:38-74 | the two request views agree on every member a policy reads if and only if there is no user or the policy does not read the user id |
| PolicyFilter.FilterIsMade | server/src/policy/engine.rs:152-179 | a policy whose predicates read only the request and fields of the row gets a filter exactly if it has a condition |
| PolicyFilter.FilterMeansNotSkip | server/src/policy/engine.rs:152-179 | for a policy that does not read a present user id, the database keeps exactly the rows that the policy does not skip |
| PolicyFilter.MethodPolicyIsPushed | chiselc/src/policies.rs:210-229 | a policy that skips by `ctx.method` meets all conditions of the theorem, and its filter keeps a row exactly when the method is another |
| PolicyFilter.FieldTestRuns | server/src/policy/interpreter.rs:53-102 | a test on a field fails exactly for undefined, null, false, 0 and the empty string; compared with null it holds exactly for null and undefined |
| PolicyFilter.NullIsUnknown | server/src/policy/engine.rs:214-262 | over predicates that are NULL the condition's expression is NULL or has its truth value |
| PolicyFilter.UserIdIsLost | server/src/policy/engine.rs:44-58 | the owner policy through `ctx.userId`, compiled with any simplifier, allows the owner's rows and yields a filter that keeps no row |
| PolicyFilter.PolicyProcessor.ProcessRead | server/src/policy/mod.rs:163-199 | result, errors and the set of changed rows as specified |
| PolicyFilter.PolicyProcessor.PollAll | server/src/policy/mod.rs:262-281 | the stream drops skipped rows and goes on after errors |
| PolicyFilter.StreamYields | server/src/policy/mod.rs:262-281 | one output for each item that is not skipped, in order and independent of what came before |
| PolicyFilter.StreamMarks | server/src/policy/mod.rs:182-191 | the ids marked dirty are exactly those of rows let through and changed |
| PolicyFilter.PushdownIsSafeIff | server/src/policy/mod.rs:163-199 | dropping rows first leaves stream, errors and changed rows as they were, on all inputs, if and only if only skipped rows are dropped |
| PolicyFilter.PushedFilterKeepsStream | server/src/datastore/query.rs:418-429 | pushing the filter of a compiled policy that does not read a present user id changes nothing that the reader sees and leaves no row to skip |
| Outbox.StepKeepsInv | server/src/ops/kafka.rs:49-116 | every step keeps the lock, table, counting and order invariants |
| Outbox.StepAccounts | server/src/ops/kafka.rs:97-113 | publishes of a row = deaths between its publish and its delete + 1 if deleted + 1 if in flight, after any step |
| Outbox.RunsAreSafe | server/src/ops/kafka.rs:49-116 | in every interleaving each committed row is in the table or published, at most once more than pollers died after publishing it, and each poll publishes in order of seqNo |
| Outbox.OutboxService.PublishRow | server/src/ops/kafka.rs:83-114 | one row takes protocol steps only, whatever call fails and whether it had its effect |
| Outbox.FollowingIsSafe | server/src/ops/kafka.rs:49-116 | wherever steps of the protocol lead, the invariants and safety hold |
| Outbox.OutboxService.Poll | server/src/ops/kafka.rs:49-116 | a poll takes protocol steps only, publishes the rows in order, and empties the table when nothing fails |
| HandleRing.Insert | dbgarc/src/lib.rs:48-66 | the node is linked in right after the given one |
| HandleRing.Remove | dbgarc/src/lib.rs:68-81 | the others form the ring in the same order; a node alone stays linked to itself |
| HandleRing.Handles.Clone | dbgarc/src/lib.rs:153-159 | the new handle comes right after its origin and the strong count goes up |
| HandleRing.Handles.Drop | dbgarc/src/lib.rs:140-144 | the other handles stay a ring in their order |
| HandleRing.Handles.TryUnwrap | dbgarc/src/lib.rs:119-137 | it succeeds exactly for the last handle without outside references, and otherwise leaves the ring in the order it was in |
| HandleRing.Iter.Next | dbgarc/src/lib.rs:37-45 | one step along the ring, None at the end |
| HandleRing.CollectOthers | dbgarc/src/lib.rs:37-117 | iterating from a handle visits each other handle once, in ring order, and stops |
| HandleRing.TracesAreInOrder | dbgarc/src/lib.rs:37-117 | one trace for each node, in their order |
| HandleRing.Rotate | dbgarc/src/lib.rs:48-81 | a ring may be read from any node on |
| HandleRing.SameLinks | dbgarc/src/lib.rs:126-133 | a ring in the same order has the same links in each node |
| TypeDelta.TypeDeltaOf | server/src/types/type_system.rs:49-173 | the two loops give the specified delta or error |
| TypeDelta.ScanMeans | server/src/types/type_system.rs:72-150 | the first loop sorts the new fields into added and updated ones and leaves the old ones without a successor |
| TypeDelta.DeltaExistsIff | server/src/types/type_system.rs:55-164 | a delta exists exactly when no field that others may rely on appears, disappears, changes type or becomes unique |
| TypeDelta.RequiredFieldIsRefused | server/src/types/type_system.rs:72-164 | without leave for unsafe replacements a required field without default can neither appear nor disappear |
| TypeDelta.TrivialFieldIsAdded | server/src/types/type_system.rs:72-78 | an optional field, or one with a default, is added when the others stay |
| TypeDelta.DeltaParts | server/src/types/type_system.rs:72-164 | every new field without a predecessor is added, every old field without a successor removed, and the updates turn any other old field into its new version |
| TypeDelta.DeltaUpdates | server/src/types/type_system.rs:115-147 | the updates are for exactly the old fields with a successor |
| TypeDelta.UpdatesAreMinimal | server/src/types/type_system.rs:115-147 | an update holds attributes exactly if one differs, and sorted labels exactly if they differ other than in order |
| TypeDelta.ReplayGivesNew | server/src/types/type_system.rs:115-164 | replaying the delta on the stored fields gives the new fields and no others, up to label order and type notation |
| TypeDelta.ReplayHasNoTwins | server/src/types/type_system.rs:72-164 | no name occurs twice after the replay |
| TypeDelta.IndexesFollow | server/src/types/type_system.rs:175-190 | the index differences turn the old set of indexed field lists into the new one |
| PrefixMap.PrefixMap.Insert | server/src/prefix_map.rs:32-34 | one key changes and the order is kept |
| PrefixMap.PrefixMap.LongestPrefix | server/src/prefix_map.rs:21-30 | the first match of the backward scan is the longest path prefix, and None means there is none |
| PrefixMap.LastIsLongest | server/src/prefix_map.rs:21-30 | of two path prefixes the later one in key order is longer |
| PrefixMap.PathPrefixMeans | server/src/prefix_map.rs:37-46 | a key is a path prefix exactly when the path begins with its segments, whole ones only, or any after a closing slash |

## Left out

- SQL text, escaping, drivers and collation: stages, upserts and joins are operations on rows, and text compares by code point.
- Numbers are integers; floating point, dates, byte arrays, arrays and LIKE are not modelled.
- Walks of requests with `offset`: a link applies the offset again (PagingWalk.OffsetIsAppliedAgain), so such a walk leaves rows out and only its first step is stated.
- Base64 and JSON encoding of cursors and the URL text: parameters are parsed values, which may be invalid.
- JsonFilter.FilterAgrees: a client exception in the middle of a stream is not modelled beyond the filter's own result; filters are typed, and fields that the type names hold no null, because the two sides differ on null as AgreeOnAllIff says.
- Cursor.CursorMatchesReference: conversion of dates and buffers and the type errors of `mergeSourceIntoEntity` are not part of this model; a compiled filter's expression is assumed to agree with its predicate.  Of the rows that reach a filter, null is excluded in the fields it reads, because the two sides differ there; of the rows that reach a sort, null and entities are excluded in the fields it sorts by, because JavaScript and SQL order them differently.
- Cursor.SelectsAgreeIff: has the same limits.
- PagingWalk.WalkVisitsEachRowOnce: matching rows have no null in a sort field, because a link at such a row is refused (LinkWorksIff); other fields may be null.
- PagingWalk.PrevUndoesNext: has the same limit.
- PagingWalk.EmptyPageTurnsBack: matching rows have no null in a field of the cursor.
- RoundTrip.StoreThenLoad: types are finite trees (a type does not contain itself), not auth types, and field policies are absent; the syntax check of uuids and column defaults of the table itself are not modelled.
- RoundTrip.FullTreeSurvives: has the same limits.
- `ON CONFLICT` updates of existing rows are modelled by the upsert, but the round trip is stated for fresh ids: absent optional fields keep their old value otherwise.
- PlanShape.AliasesAreDistinct: asks that the entity's own table does not start with J; generated table names start with `ty_`.
- Loops, switches and exceptions in policy functions: the graph builder refuses them.
- Region extraction from the graph: the graph and the rule builder are two separate theorems.
- PolicyRules.SimplifyKeepsTruth: the boolean library is a parameter, assumed to return an equivalent formula over no new terms.
- PolicyFilter.FilterMeansNotSkip: compared values are scalars of one kind and logical operands are booleans, because JavaScript coerces and SQL does not; fields of the row that a policy compares hold no null, and the request is used through its members only.  Reading a member of null throws in JavaScript and is undefined here, and so are members of strings such as `length`.
- PolicyFilter.PolicyProcessor.ProcessRead: logging and the request-wide cache of instances are not part of this model; one instance is.
- PolicyFilter.UserIdIsLost: is about one policy; that the views differ for every policy that reads the user id is MembersAgreeIff, but whether this changes its filter depends on the policy.
- Outbox liveness: a job may land on a worker that ignores it, so only safety is stated.
- Outbox.RunsAreSafe: is about one server process with one lock; the broker and the database are reliable apart from failing calls.
- HandleRing.Handles.TryUnwrap: weak references always upgrade while a handle lives, and locks are taken one at a time, so blocking is not modelled.
- TypeDelta.ReplayGivesNew: a field's version and its database form of the default are not part of this model.
- The older user and label policies, transforms and omitted fields of `load_entity_recursive`.
- HTTP, gRPC, Kafka, file watching, templates, secrets and generated clients: input and output or thin wrappers.
