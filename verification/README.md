# The gateway's generated data layer

The server keeps its tenants, services, deployments, domains and certificates
behind data-access code generated by ent. Most of that code is plumbing, but three
parts are algorithms that run in memory, and this project models them and proves
what they are for.

**Eager loading.** A query builder owns the builders that its `With...` calls
attached. Executing it reads its own rows, and then loads each requested edge with
one more query for all nodes at once: foreign keys are collected without
duplicates, the sub-query is filtered to them, and the neighbours are handed to the
nodes through a map. `Plan.Run` is that batched join as a value and `Plan.After` the
builder it leaves behind; `Join.Naive` is the reference, which queries again for
every single node. `Loader` and `Builders` are the code itself: classes for builders
and nodes, loops over maps and slices, edges written in place. They are proved
against `Run` and `After`.

**Creating.** A single `Save` wraps its body in hooks. A bulk `Save` builds one
closure per builder; each validates, fills its slot, calls the next one, and marks
its mutation done on the way back; the last one issues the one insert.
`Chain.RunSingle` and `Chain.RunBulk` are those chains as values, with a trace of
what is entered, inserted and left; `Create` is the code, with shared slots, mutable
mutations and a log. Hooks are data: what they do to the mutation, whether they hand
on the same object or one of their own or refuse, and what they make of the outcome.

**The row codec, upserts and updates.** `Certificates` covers `scanValues`,
`assignValues`, `defaults`, `check` and `createSpec`; `Upsert` the conflict options and
the update set they resolve to; `DomainUpdate` the mutation that collects edge changes
and the operations it is compiled to.

The entity-dependent part of the queries is a schema record (`Schema`), so that what
is proved holds for every generated entity of that shape, required and nullable keys
alike; `Catalog` has the records of the six entities with edges.

## What the code does not do

Some of what one would expect of the code is false. Each case is stated by a lemma:
where it depends on the request or the store, with the exact condition under which
the expectation does hold. `Witness` has stores and requests at which the first three
fail.

- An offset and a limit on a sub-query cut the whole batch, not the list of each
  parent: `NestedLoop.WindowAgreesIff`, `NestedLoop.OneWindowAgreesIff` for one edge,
  `NestedLoop.RunIsNaiveIff` for windows at all levels of the request.
- After a traversal with `Unique(false)` that yields a node twice, only the last copy
  gets the children: `NestedLoop.TraversalIsNaiveIff`, `NestedLoop.UndistinctTraversalIff`.
- Executing a builder twice is harmless on one store, but on a changed one the second
  run cannot see new neighbours, because the filters of the first run stay:
  `Rerun.SecondRunAgrees`, `Fresh.SecondRunIsFreshIff` for the whole graph, and
  `Stale.SecondRunFindsIff` and `Stale.SecondRunListsIff` for one node and one list.
- `Limit(0)` makes `IDs` return nothing and `All` return everything: `Terminal.IdsAgreeIff`.
- A second `IDs` on one builder fails: `Terminal.SecondIdsFails`.
- `provider_meta` is merged, not replaced, when its column is read twice:
  `Certificates.MetaIsMerged`. A NULL id reads as the nil uuid: `Certificates.LastIdWinsIff`.
- The bulk `Save` checks the builder's own mutation, not the one its hooks hand on:
  `Chain.BulkOfOneIsSingle`, `Chain.ReplacementIsNotChecked`.
- All-or-nothing rests on hooks that report honestly: `Chain.AllOrNothingIff`.
- The raw option `ResolveWithNewValues` overwrites the id: `Upsert.RawNewValuesReplaceId`.
  (The comment of `UpdateNewValues` speaks of the id only; the code, which the model
  follows, keeps `created_at` as well.)
- `Ignore` takes back only what concerns inserted columns: `Upsert.IgnoreTakesBack`.
- Clearing an edge does not take back additions made before: `DomainUpdate.CallsAreObeyedIff`.

## Model

| member | source | states |
|---|---|---|
| NestedLoop.RunIsNestedLoopIff | server/ent/deployment_query.go:407-508 | for every tree of requests, at any depth, with any filters, orders, selected columns, traversals, limits and offsets: the run is the nested-loop join, except that an earlier copy of a node read twice has an empty one-to-many list, iff the windows fit at every level that is run (`FitsEverywhere`: a many-to-one window is harmless to its batch, a one-to-many window commutes with the distribution) |
| NestedLoop.RunIsNaiveIff | server/ent/deploymentversion_query.go:370-433 | so a query that reads no row twice (over a table, or DISTINCT, as a traversal is by default) loads exactly the graph of the nested-loop join iff the windows fit at every level |
| NestedLoop.UnlimitedFits | server/ent/deployment_query.go:407-508 | without limits and offsets on sub-queries the windows fit on every store |
| NestedLoop.RunIsNaive | server/ent/deployment_query.go:407-508 | the special case of `RunIsNaiveIff` for requests without limits and offsets on sub-queries: the run is always the nested-loop join |
| Rows.RowsAreExact | server/ent/deployment_query.go:519-560 | what a query reads, apart from its own limit and offset: every row that it starts from and that passes its predicates, exactly once if it is DISTINCT (as a traversal is by default) and otherwise as often as it comes, ordered by the terms, earlier ones first, each ascending or descending |
| Rows.WindowIsExact | server/ent/deployment_query.go:545-550 | the offset skips that many of these rows, and then a limit other than zero bounds how many are left |
| Rows.NodesShowRows | server/ent/deployment_query.go:407-448 | the nodes are those rows in order; each shows exactly the id, the selected columns and the key of a loaded edge, or all columns if none was selected, with the values of the row |
| Rows.NodesHaveKeys | server/ent/certificate.go:117-134 | a node has the id of its row, and its foreign key if that was read; a key that was not selected is nil, or the zero uuid where the schema requires one |
| Rows.NodeIdsAreExact | server/ent/deployment_query.go:407-448 | so without a window the ids of the nodes are those of the passing rows, each once if the query is DISTINCT |
| Rows.InvalidFieldIsExact | server/ent/deployment_query.go:381-404 | a selection is invalid iff it names something that is neither the id, the foreign key nor an attribute, and the run reports the first such name |
| Rows.RunFailsAtFirstFault | server/ent/deployment_query.go:407-441 | with selections at several levels: a run fails iff some level that it reaches selects an unknown column, and reports the first, own selection before the many-to-one and that before the one-to-many sub-query |
| Rows.SelectKeyIsExact | server/ent/domain_query.go:489-491 | the sub-query of a one-to-many edge shows what it would show by itself and its foreign key, and is not changed otherwise |
| Traversal.DistinctRows | server/ent/deployment_query.go:519-526 | a traversal with the default uniqueness, and any query that asks for DISTINCT, reads no row twice, whatever columns are selected and whatever its window |
| NestedLoop.TraversalIsNaiveIff | server/ent/deployment_query.go:407-508 | whatever was said about uniqueness, the run is the nested-loop join iff the windows fit at every level and no row is read twice that has more children than the sub-query's offset skips |
| NestedLoop.UndistinctTraversalIff | server/ent/deployment_query.go:519-526 | for `Unique(false)` without a window of the query's own, in terms of what the traversal yields: iff the windows of the sub-queries fit and no row that it yields twice passes the predicates and has children past the offset |
| Join.OneAgrees | server/ent/certificate_query.go:405-436 | many-to-one, for a sub-query without limit and offset of its own: looking a key up in the batch finds what querying for that one key finds, whatever the levels below are |
| Limits.NeighbourAlone | server/ent/certificate_query.go:405-436 | the same for any window: querying for one key finds what the whole batch has for it, and nothing if there is an offset |
| Join.ManyAgrees | server/ent/domain_query.go:479-511 | one-to-many, for a sub-query without limit and offset of its own: the neighbours of the batch with a node's id as key are, in order, what querying for that node alone finds |
| Limits.ListAloneIsCut | server/ent/domain_query.go:479-511 | the same for any window: querying for one node's children finds those that the whole batch has for it, cut to the window |
| Join.LoadedKeysWereAsked | server/ent/domain_query.go:479-511 | every node a keyed sub-query loads has its key among those asked for, whatever is selected, so the unexpected-foreign-key errors cannot occur |
| Join.ProjectionHoldsKeys | server/ent/deployment_query.go:519-541 | whatever columns were selected, those scanned include the id and, when the edge is loaded, the foreign key |
| Projection.ProjectionKeepsShape | server/ent/domain_query.go:522-544 | selecting columns at any level, with limits, DISTINCT and traversals, changes no id and no edge of the loaded graph |
| Limits.ManyBatchIff | server/ent/domain_query.go:479-511 | distributing a batch with the right rows, and anything hanging on them, gives every node what querying for it alone finds iff the window commutes with the distribution and everything hanging on the batch is right |
| Limits.OneBatchIff | server/ent/certificate_query.go:405-436 | the same for the many-to-one edge, iff the window is harmless and everything hanging on the batch is right |
| NestedLoop.WindowAgreesIff | server/ent/deployment_query.go:479-508 | an offset and a limit on a one-to-many sub-query, either or both, act as they would for each parent alone iff the windows below it fit and: the batch is no longer than the limit (or, with an offset, than the offset), or it is one parent's, or, with both, the page ends within one parent's nodes and no other parent has more than the offset |
| NestedLoop.OneWindowAgreesIff | server/ent/deployment_query.go:450-478 | a many-to-one sub-query gives every node what querying for its key alone gives iff, when there are keys, the windows below it fit and its limit cuts nothing off the batch, or its offset skips all of it |
| Witness.LimitWitness | server/ent/domain_query.go:479-511 | two domains with one certificate each, at most one asked for: the run is not the nested-loop join |
| Witness.TraversalWitness | server/ent/domain_query.go:407-448 | two certificates of one domain: following them to their domains with `Unique(false)` reads the domain twice, and the run is not the nested-loop join |
| Witness.StaleWitness | server/ent/certificate_query.go:405-436 | a certificate that moved to another domain between two runs: the second run is not what a fresh request loads |
| Edges.LimitBoundsBatch | server/ent/deployment_query.go:479-508 | a limit on a one-to-many sub-query bounds the sum of all lists |
| Edges.LimitStarvesParent | server/ent/deployment_query.go:479-508 | when more parents than the limit have children, some parent with children gets an empty list |
| Edges.OneEdgeReports | server/ent/certificate.go:76-83 | after any successful run the accessor says not-loaded iff the edge was not requested, not-found iff it was but the key is null or the sub-query read no row with that id, and otherwise yields the node with that id |
| Edges.OneEdgeTruth | server/ent/certificate.go:76-83 | for a sub-query without limit and offset: not-found iff the key is null, dangling, or its row fails the sub-query's predicates |
| Edges.ManyEdgeTruth | server/ent/domain.go:70-75 | the list accessor fails iff the edge was not requested, and never yields nil |
| Edges.SecondEdgeKeepsFirst | server/ent/domain_query.go:407-448 | loading the second edge leaves everything the first one reports as it was |
| Edges.OneToManyConserves | server/ent/domain_query.go:479-511 | the list lengths sum to the number of neighbours: each goes into exactly one list |
| Edges.GroupingPartitions | server/ent/certificate_query.go:405-419 | the groups by foreign key hold every node that has a key exactly once |
| Rerun.SecondRunAgrees | server/ent/deployment_query.go:450-508 | executing one builder again on the same store loads the same graph or the same error, although its sub-queries kept their filters |
| Stale.SecondRunFindsIff | server/ent/deployment_query.go:450-478 | for a many-to-one sub-query without limit and offset of its own, executed again on a changed store: builder and fresh request agree on whether a node has its neighbour iff it has none, or the first run left no filter, or it asked for that key |
| Stale.SecondRunListsIff | server/ent/deployment_query.go:479-508 | for a one-to-many sub-query without limit and offset of its own: they list the same children iff the node has none, or the first run left no filter, or it read that node |
| Fresh.SecondRunIsFreshIff | server/ent/deployment_query.go:450-508 | on a changed store, with any limits and offsets: the whole graph is what a fresh request loads iff, at every level that the first run reached, adding its filter to the fresh sub-query takes none of the rows that it reads |
| Fresh.KeepsIff | server/ent/deployment_query.go:450-508 | for a sub-query without limit and offset the filter takes none iff every row has a key that the first run asked for: new keys that are dangling or filtered out do not matter |
| Fresh.AskedKeysKeep | server/ent/deployment_query.go:450-508 | with any window it takes none if every key needed now was asked for before |
| Rerun.StaleFilter | server/ent/deployment_query.go:450-478 | the second run's sub-query returns only ids that the first run asked for |
| Terminal.IdsAreIdsOfAll | server/ent/certificate_query.go:206-215 | `IDs` lists the ids of the nodes of `All`, in the same order, for any builder without an earlier selection, any non-zero limit and fewer than 2^31 rows, traversals and offsets without limit included |
| Terminal.IdsAgreeIff | server/ent/certificate_query.go:447-520 | the two agree iff the limit is not zero or there is nothing to list; with a zero limit `IDs` is empty and `All` unlimited |
| Terminal.SecondIdsFails | server/ent/certificate_query.go:206-215 | a second `IDs` on one builder selects the id twice and cannot be scanned |
| Terminal.OnlyIsExact | server/ent/certificate_query.go:134-147 | reading two rows, whatever limit was set before, `Only` yields the node iff exactly one matches, not-found iff none, not-singular iff several |
| Terminal.ExistIsExact | server/ent/certificate_query.go:245-255 | `Exist` is true iff the unlimited query has a row; after an earlier `Select` it fails, with the first unknown column or because the id is selected on top |
| Terminal.FirstIsExact | server/ent/certificate_query.go:88-97 | `First` is the first node of the query without the limit, or not-found iff there is none |
| NestedLoop.FirstIsFirstOfAll | server/ent/certificate_query.go:88-97 | without limits and offsets on sub-queries it is that node with everything that hangs on it |
| Terminal.FirstIdIsExact | server/ent/certificate_query.go:110-120 | `FirstID` is the id of the first node of the query without the limit, or not-found; after an earlier `Select` it fails |
| Terminal.GetIsLookup | server/ent/client.go:736-738 | `Get` is lookup by primary key: a node with the id, the key and every attribute of the row that has the id, and no edge loaded, or not-found |
| Sql.SortIsSorted | server/ent/certificate_query.go:471-488 | the rows of an ordered query are in order (the reference for the unseen SQL layer) |
| Sql.AtMostIsLexicographic | server/ent/ent.go:123-144 | the order of several terms is lexicographic, each term ascending or descending by itself (reference SQL layer) |
| Sql.SortIsStable | server/ent/certificate_query.go:471-488 | rows that no term tells apart stay in storage order (reference SQL layer) |
| Sql.FilterSort | server/ent/certificate_query.go:471-488 | filtering and sorting rows commute (reference SQL layer) |
| Sql.DistinctIgnoresColumns | server/ent/certificate_query.go:206-215 | over rows of one table DISTINCT keeps the same rows for any columns that include the id (reference SQL layer) |
| Sql.DistinctIsExact | server/ent/certificate_query.go:206-215 | DISTINCT keeps exactly one row of every tuple that occurs, in order of first occurrence (reference SQL layer) |
| Loader.GroupByKey | server/ent/certificate_query.go:405-419 | the first loop yields the keys in order of first occurrence without duplicates, and for each key the nodes with it in order; nil keys are skipped |
| Loader.KeysInOrder | server/ent/certificate_query.go:405-419 | one node more adds at most its own key, at the end: the keys are in order of first occurrence |
| Loader.AssignOne | server/ent/certificate_query.go:420-436 | the second loop gives every node the last neighbour with its key and reports the first neighbour that nobody asked for |
| Loader.AssignGroup | server/ent/certificate_query.go:431-434 | a neighbour is assigned to exactly the nodes of its group |
| Loader.IndexById | server/ent/domain_query.go:479-488 | the index maps each id to the last node with it, and every list is initialised to an empty, non-nil slice |
| Loader.AssignMany | server/ent/domain_query.go:499-511 | every neighbour is appended, in order, to the node its key names; nil and unknown keys are the two errors |
| Loader.GroupIsSelect | server/ent/certificate_query.go:405-419 | a group is the subsequence of the nodes with that key |
| Loader.NothingUnexpected | server/ent/certificate_query.go:425-430 | the unexpected-foreign-key branch is dead when the neighbours honour the id filter |
| Loader.FirstUnexpected | server/ent/certificate_query.go:425-430 | otherwise the error names the first neighbour that nobody asked for |
| Loader.NothingMisplaced | server/ent/domain_query.go:499-511 | both error branches of the one-to-many loop are dead when the neighbours honour the key filter |
| Loader.FirstMisplaced | server/ent/domain_query.go:499-511 | otherwise the error is about the first neighbour with a nil key, by its id, or with an unknown key, by that key |
| Loader.TargetIsLast | server/ent/certificate_query.go:425-436 | the pointer a node ends with is the neighbour at the last occurrence of its key |
| Builders.Query.Value | server/ent/deployment_query.go:22-35 | a builder with the builders below it denotes a finite request whose sub-queries fit their edges |
| Builders.Query.Where | server/ent/deployment_query.go:37-40 | predicates are appended; sub-queries and everything else stay |
| Builders.Query.Limit | server/ent/deployment_query.go:43-46 | only the limit changes |
| Builders.Query.Offset | server/ent/deployment_query.go:49-52 | only the offset changes |
| Builders.Query.Order | server/ent/deployment_query.go:62-65 | order terms are appended; nothing else changes |
| Builders.Query.Unique | server/ent/deployment_query.go:56-59 | only the uniqueness flag changes |
| Builders.Query.Select | server/ent/deployment_query.go:368-374 | columns are appended; nothing else changes |
| Builders.Query.WithOne | server/ent/deployment_query.go:313-320 | the call allocates the sub-query, its options configure it, and it replaces the edge's sub-query: all builders added are new, so the structure stays a tree |
| Builders.Query.WithMany | server/ent/deployment_query.go:324-331 | the same for the one-to-many edge |
| Builders.Query.Do | server/ent/deployment_query.go:37-65 | any one builder call does to the request what `Applied` says, and adds only new builders |
| Builders.Query.DoAll | server/ent/deployment_query.go:313-331 | the loop over the options does to the sub-query what the calls in order do |
| Builders.CallEffect | server/ent/deployment_query.go:37-65 | each call adds to, or sets, what it is about and leaves the rest of the selection alone |
| Builders.ChainEffect | server/ent/deployment_query.go:37-65 | a chain of calls collects predicates, order terms and columns in order, and of limits, offsets and uniqueness the last one counts |
| Builders.EdgeEffect | server/ent/deployment_query.go:313-320 | the sub-query that a many-to-one `With...` attaches has exactly what its options ask for |
| Builders.ManyEdgeEffect | server/ent/deployment_query.go:324-331 | the same for the one-to-many edge |
| Builders.Query.SelectForeignKey | server/ent/domain_query.go:489-491 | a non-empty selection gains the foreign key once; an empty one stays empty |
| Builders.Query.Clone | server/ent/deployment_query.go:293-309 | a clone shares no builder with the original at any depth, and stands for the same request; cloning nil gives nil |
| Builders.RunClone | server/ent/deployment_query.go:293-309 | any calls, with nested options, and any of the terminal calls on a clone leave the original and all its sub-queries as they were, and do what they would have done on the original |
| Builders.Query.PrepareQuery | server/ent/deployment_query.go:381-404 | the first selected column that the entity does not have is the error |
| Builders.Query.BuildSpec | server/ent/deployment_query.go:519-560 | the specification the reference semantics assumes: the id once, the selection, the foreign key once when needed |
| Rows.ColumnsSentAreExact | server/ent/deployment_query.go:526-541 | with a selection the specification has the id, first and once, every other selected column as often as it was selected, and the key of a loaded edge at least once |
| Builders.Query.BuildSelector | server/ent/certificate_query.go:490-520 | the selector the reference semantics of `IDs` assumes |
| Builders.Query.All | server/ent/certificate_query.go:187-194 | the nodes returned show, pointer by pointer, the graph of `Run`, or the same error; the builder is left as `After` says |
| Builders.Query.SqlAll | server/ent/deployment_query.go:407-448 | the same for the inner method: own rows first, then the two edges in order |
| Builders.Query.First | server/ent/certificate_query.go:88-97 | the first node of the request with its limit set to one, or not-found |
| Builders.Query.Only | server/ent/certificate_query.go:134-147 | the outcome of `Terminal.Only`, with the limit left at two |
| Builders.Query.IDs | server/ent/certificate_query.go:206-215 | the outcome of `Terminal.Ids`, with the id selected and a traversal made unique |
| Builders.Query.FirstID | server/ent/certificate_query.go:110-120 | the first id of the request with its limit set to one, or not-found |
| Builders.Query.Exist | server/ent/certificate_query.go:245-255 | the outcome of `Terminal.Exist` |
| Builders.End | server/ent/certificate_query.go:88-255 | each terminal call: its answer, and the builder it leaves |
| Builders.LoadOne | server/ent/deployment_query.go:450-478 | group, filter, run the sub-query, assign: every node points to the neighbour that `Plan.AttachOne` names, and no other field of a node changes |
| Builders.LoadMany | server/ent/deployment_query.go:479-508 | index, select the key, filter, run, append: every node's list is the one that `Plan.AttachMany` names |
| Certificates.ScanValues | server/ent/certificate.go:86-107 | slot `i` is an empty holder of the type of column `i` |
| Certificates.Certificate.AssignValues | server/ent/certificate.go:111-243 | the entity after the columns in order, up to the first error; too few values are an error and change nothing |
| Certificates.SwitchesAgree | server/ent/certificate.go:86-243 | for any columns, repeated and unknown ones included, the only possible error is a JSON document that does not parse |
| Certificates.FieldsAreIndependent | server/ent/certificate.go:111-243 | each field depends on the cells of its own column only |
| Certificates.LastNonNullWins | server/ent/certificate.go:111-243 | a field other than `provider_meta` ends as its last non-null cell or its old value; the id too if none of its cells is NULL |
| Certificates.UnknownColumnIsKept | server/ent/certificate.go:236-238 | a column that the entity does not have keeps its last cell under its name |
| Certificates.WrongHolderIsRejected | server/ent/certificate.go:117-122 | a holder of another type than the column's is rejected by the column's name, and the entity is left as it was |
| Certificates.LastIdWinsIff | server/ent/certificate.go:117-122 | the id does so iff its last cell is not NULL, or there is none, or that value is the nil uuid |
| Certificates.MetaIsMerged | server/ent/certificate.go:199-206 | for any columns, cells and entity, `provider_meta` ends as its last document iff that has the keys of every object since the last JSON null, and of the old map if there was none |
| Certificates.CreateSpecOf | server/ent/certificate_create.go:387-483 | the request holds exactly what the draft has, and the node exactly its values, unset fields at zero |
| Certificates.WriteFields | server/ent/certificate_create.go:397-464 | a column is written iff the draft has it, with the draft's value |
| Certificates.FillNode | server/ent/certificate_create.go:387-483 | the returned entity has the draft's values and zero elsewhere |
| Certificates.SpecIsUnique | server/ent/certificate_create.go:387-483 | the request is determined by the draft |
| Certificates.RoundTrip | server/ent/certificate_create.go:364-385 | write, then read: what is stored is scanned and assigned back into the very entity that create returned, nil and null fields included, for any column list that covers all columns |
| Certificates.ReadsBackDraft | server/ent/certificate_create.go:387-483 | and what is read back has, field by field, the value set on the create, or zero |
| Certificates.CheckGuardsRequired | server/ent/certificate_create.go:320-361 | the check passes iff the request will write every required column, none of the validated ones empty; otherwise it names the first column in the schema's order that fails |
| Certificates.DefaultsLeaveCallerFields | server/ent/certificate_create.go:285-317 | defaults are idempotent, set the id, and leave only the caller's own fields for `check` to miss |
| Certificates.DefaultsAreExact | server/ent/certificate_create.go:285-317 | per column: what the caller set stays, what was unset becomes the schema's default (source `manual`, status `pending`, four empty texts, no renew attempts, a new id), and the other columns stay |
| Chain.TraceIsNested | server/ent/certificate_create.go:1224-1268 | for any numbers of builders and hooks, whatever they answer, frames are entered in order and left in exactly the reverse order, and the insert is innermost |
| Chain.FullTrace | server/ent/certificate_create.go:1224-1268 | when all builders pass, the trace enters all hooks and bodies of builder 0, 1, and so on, inserts once in the middle, and leaves them all in reverse |
| Chain.InsertsExactlyOnce | server/ent/certificate_create.go:1232-1250 | the insert runs once iff no hook refuses and all checks pass, else never; slot `k` is what builder `k`'s hooks handed on |
| Chain.AllOrNothing | server/ent/certificate_create.go:1217-1270 | with honest hooks the bulk succeeds iff all builders pass and the insert succeeds; then all mutations are done, otherwise none |
| Chain.OutcomeOfAnyHooks | server/ent/certificate_create.go:1224-1268 | if all builders pass, with any hooks: the error returned, the mutations done, and every slot filled from its own builder |
| Chain.OutcomeOfAnyBulk | server/ent/certificate_create.go:1217-1270 | error and done mutations of every bulk: any hooks, and whether or not a refusal or a failed check stops the chain |
| Chain.AllOrNothingIff | server/ent/certificate_create.go:1217-1270 | for any hooks at all, the done mutations agree with whether the rows were stored iff every body that goes on is told the truth about it, and the error iff the first builder's hooks tell it |
| Chain.AllOrNothingOfPassing | server/ent/certificate_create.go:1251-1256 | if all builders pass: iff what the hooks of every builder but the first make of what they are told agrees with the insert |
| Chain.AgreesIffKept | server/ent/certificate_create.go:1251-1256 | the case of one dishonest hook list, at the end: rows are stored and reported failed, or lost and reported saved, unless it keeps the outcome |
| Chain.BulkOfOneIsSingle | server/ent/certificate_create.go:1217-1270 | a bulk of one equals a single save, event by event, iff the check says the same of the builder's own mutation and of the one handed on |
| Chain.InPlaceHooksKeepOwn | server/ent/certificate_create.go:1227-1235 | hooks that edit in place hand on the builder's own mutation |
| Chain.InPlaceBulkOfOneIsSingle | server/ent/certificate_create.go:257-260 | so for such hooks a bulk of one is a single save |
| Chain.ReplacementIsNotChecked | server/ent/certificate_create.go:1232-1235 | with a hook that hands on its own mutation, the bulk inserts one that fails the check, or rejects one that passes |
| Chain.SingleIsNested | server/ent/ent.go:532-563 | the hooks of a single save nest with the first outermost, and the insert sees what the innermost one handed on |
| Chain.HonestReplies | server/ent/ent.go:532-563 | a list of honest hooks is honest |
| Create.WrapOrFail | server/ent/ent.go:539-554 | the right fold over the hooks, or, if any is nil, an error before anything has run |
| Create.WrapAll | server/ent/certificate_create.go:1257-1260 | the right fold over the hooks, or a panic at a nil one |
| Create.Save | server/ent/certificate_create.go:257-260 | a single save is `RunSingle`: outcome, log, done, node, and the saved contents and id even if a hook reports an error afterwards; a nil hook is an error and nothing has run |
| Create.Builder.Defaults | server/ent/certificate_create.go:285-317 | unset fields get their defaults, set ones stay |
| Create.Builder.SqlSave | server/ent/certificate_create.go:364-385 | check, then the request, then the insert; done and id are set iff it succeeded |
| Create.Builder.Invoke | server/ent/ent.go:539-563 | the wrapped mutators do what `RunSingle` says, the body copying the mutation it was handed over the builder's own |
| Create.SaveBulk | server/ent/certificate_create.go:1217-1270 | a bulk save is `RunBulk`: outcome, log, every slot's request and node, and exactly the mutations of the outcome done, each with its node's id; it panics iff some hook is nil, and then nothing has run |
| Create.SingleCreates | server/ent/certificate_create.go:257-260 | with hooks that edit nothing a single save inserts what the caller set and the defaults, nothing else (stated of `Save` as well) |
| Create.BulkCreates | server/ent/certificate_create.go:1217-1270 | and a bulk save those of every builder, in order (stated of `SaveBulk` as well) |
| Create.Bulk.Prepare | server/ent/certificate_create.go:1224-1263 | the loop sets the defaults of every builder and its closure, and panics at the first nil hook |
| Create.Bulk.Mutate | server/ent/certificate_create.go:1227-1260 | the closures of builder `i` from a hook on do what `RunChain` says, and touch nothing of the builders before it |
| Create.Bulk.MutateBody | server/ent/certificate_create.go:1227-1256 | the body: check the own mutation, adopt the handed one, fill the slot, go on, mark done only while unwinding |
| Create.Bulk.PutSlot | server/ent/certificate_create.go:1235-1237 | slot `i` gets the request and the node of the draft, the slots before it stay |
| Create.Bulk.PutBatch | server/ent/certificate_create.go:1242-1250 | the insert is issued over all slots, while every builder's mutation holds the draft of its slot |
| Create.Bulk.MarkDone | server/ent/certificate_create.go:1251-1256 | on the way back a mutation gets its node's id and is done iff everything below succeeded |
| Create.Bulk.CallNext | server/ent/certificate_create.go:1238-1250 | the next builder's closure, or the insert over all slots after the last |
| Create.ChainKeepsSlots | server/ent/certificate_create.go:1235-1250 | what runs inside a body keeps the slots filled before and marks only later builders |
| Client.Append | server/ent/client.go:653-655 | appending returns the longer list and never writes an element the old slice shows, also when it reuses the array |
| Client.Registry.Use | server/ent/client.go:653-655 | every list handed out before still shows what it showed, and is a prefix of the client's list |
| Client.Registry.Hooks | server/ent/client.go:664-667 | a new builder gets the list as it is now |
| Upsert.UpsertKeepsIdentity | server/ent/certificate_create.go:815-853 | after any chain of generated calls, on one create or a bulk, a conflicting row keeps its id and creation time, if the resolver covers what is inserted |
| Identity.BulkSeesItsBatch | server/ent/certificate_create.go:1346-1359 | it does: in every insert of a bulk, whatever the hooks, the resolver finds in the builders the very drafts that are inserted |
| Identity.SingleSeesItsBatch | server/ent/certificate_create.go:815-826 | the same for a single save |
| Identity.BulkUpsertKeepsIdentity | server/ent/certificate_create.go:1346-1359 | so every row met by the insert of a bulk keeps its id and creation time, for any hooks and any generated upsert calls |
| Identity.SingleUpsertKeepsIdentity | server/ent/certificate_create.go:815-853 | the same for a single save |
| Identity.HandedHasIdentity | server/ent/certificate_create.go:314-317 | with hooks that edit in place, `defaults` gave an inserted draft its id and `check` saw its creation time |
| Identity.BulkPinsBoth | server/ent/certificate_create.go:355-357 | so the resolver finds, and pins, both in every insert |
| Upsert.PinningIff | server/ent/certificate_create.go:815-826 | `UpdateNewValues` keeps them iff its resolver sees an id and a creation time whenever the insert writes one |
| Upsert.EagerPinningFails | server/ent/certificate_create.go:314-317 | a resolver run before `defaults` would keep the id iff the caller had set one: laziness is needed |
| Upsert.RawNewValuesReplaceId | server/ent/certificate_create.go:501-506 | the raw option alone replaces the id whenever the insert writes one |
| Upsert.ChainMeaning | server/ent/certificate_create.go:815-853 | the whole row after a chain, in terms of the drafts: nothing changes after `DoNothing`; id and creation time stay; any other column is what the last call that mentions it says, `UpdateNewValues` and `Ignore` mentioning those for which some draft has a value |
| Upsert.NewValuesMeaning | server/ent/certificate_create.go:815-826 | `UpdateNewValues` takes over every column for which some draft has a value, except the id and the creation time, and no other |
| Upsert.LastEditDecides | server/ent/certificate_create.go:535-800 | a setter of the last call decides its column: value, proposed value, NULL, or the old number plus the amount |
| Upsert.InsertColumnsAreExact | server/ent/certificate_create.go:387-483 | the insert has a column iff some draft has a value for it, the id and the foreign key included |
| Upsert.IgnoreTakesBack | server/ent/certificate_create.go:835-838 | `Ignore` restores the columns for which some draft has a value and no others |
| Upsert.IdentityColumns | server/ent/certificate_create.go:395-464 | the insert writes the id, or the creation time, iff some mutation has it |
| Upsert.RunPinIdentity | server/ent/certificate_create.go:1346-1359 | the bulk resolver's loop pins each column iff some builder's mutation has it |
| Upsert.Upserting.Do | server/ent/certificate_create.go:815-853 | each generated call appends its options in order |
| Upsert.Upserting.OnConflict | server/ent/certificate_create.go:501-506 | raw options replace all earlier ones |
| Upsert.Upserting.OnConflictColumns | server/ent/certificate_create.go:514-519 | a conflict target is appended to the options |
| DomainUpdate.UpdateMeansMutation | server/ent/domain_update.go:256-382 | running the compiled operations gives, for every combination, (nothing if cleared, else the old edges without the removed) plus the added, and set over cleared over old for fields and tenant |
| DomainUpdate.ManyAndOneAgree | server/ent/domain_update.go:627-773 | any two compilations of one mutation mean the same, whatever order their ids are listed in; the copies of the compilation in the two builders are one method here |
| DomainUpdate.UpdateObeysCalls | server/ent/domain_update.go:256-382 | from the setter calls to the store: fields end as the calls in order would leave them, the tenant too if the check passes, and the certificates iff none's last mention is an addition before a clear |
| DomainUpdate.CallsAreObeyedIff | server/ent/mutation.go:6666-6695 | the exact condition for the collected sets to mean the calls carried out one by one |
| DomainUpdate.FieldsAreObeyed | server/ent/mutation.go:6379-6382 | of setting and clearing a field, the last call wins, although a setter does not forget an earlier clear |
| DomainUpdate.TenantIsObeyed | server/ent/mutation.go:6276-6278 | of a tenant that was only set the last id counts, and one only cleared is gone |
| DomainUpdate.CallsAreChecked | server/ent/domain_update.go:244-254 | over any chain of calls: the check reports an empty hostname iff the last call about the hostname sets it to the empty text, otherwise a cleared required edge iff the tenant was both cleared and set, in either order, and otherwise nothing |
| DomainUpdate.SaveMany | server/ent/domain_update.go:256-382 | an empty hostname, or a tenant both cleared and set, is the error and nothing is sent; otherwise the compiled mutation is sent once and the answer returned; done iff it was updated |
| DomainUpdate.SaveOne | server/ent/domain_update.go:627-773 | likewise, with the missing id and the first unknown column as further errors that send nothing |
| DomainUpdate.SelectedColumnsAreExact | server/ent/domain_update.go:637-648 | a selection reads back the id, first and once, and every other selected column as often as it was selected |
| DomainUpdate.FirstInvalidIsExact | server/ent/domain_update.go:641-644 | the unknown column reported is the first one selected |
| DomainUpdate.Emit | server/ent/domain_update.go:268-369 | exactly the mutation's fields, clears and additions are emitted; removed ids only if there are some and the edge is not cleared |
| DomainUpdate.Listed | server/ent/mutation.go:6697-6710 | the ids of a set, each once, in no particular order |
| DomainUpdate.DomainMutation.AddCertificateIDs | server/ent/mutation.go:6666-6673 | the ids are added; removed ids stay removed |
| DomainUpdate.DomainMutation.RemoveCertificateIDs | server/ent/mutation.go:6686-6694 | the ids are removed, and no longer added |
| DomainUpdate.DomainMutation.Do | server/ent/mutation.go:6276-6694 | what each setter, clearer, adder and remover does to the mutation |

## Left out

- SQL text, dialects, drivers, transactions and pools: a store is a table of rows with distinct ids in a fixed order, and a query denotes a sequence of rows.
- The libraries `sqlgraph` and `dialect/sql` are not part of this model. They are taken to do the following: a zero limit or offset in a query specification means none; scanning into a list of ids takes exactly one column; a batch insert stores all rows or none; a column that an insert does not write is NULL; in an update set the last write to a column wins; `DO NOTHING` leaves the row alone; an update clears edges and fields before it sets and adds. That adding an edge fails when the certificate already has another domain, or when several rows are updated, is left to that layer.
- Negative limits and offsets, and counts of 2^31 rows and more in `IDs`.
- Interceptors, traversers, the query context and its `Op`: queries run without them.
- `GroupBy`, `Aggregate`, `Count`, the scalar selectors and the panicking `...X` variants.
- The path closure of a traversal reads its parent builder when it runs; here a path is a function of the store. The closures passed to `With...` that modify the sub-query are the sub-query as they leave it.
- More than one one-to-many edge, or more than one many-to-one edge, per entity: of `Tenant` and `Service` one edge of each kind is modelled. The entities without edges repeat the template.
- Hooks that call the next mutator more than once, keep it for later, touch other builders, or return another node than they were given; the type assertions on mutations and returned values.
- The same builder twice in one bulk, and builders whose mutation was saved before.
- `MapCreateBulk`, `UpsertOne.ID`, and the errors of `Exec` for missing or misplaced conflict options.
- Time and uuid generation: new ids are parameters. Times, statuses and the JSON document are values without an encoding; a document may fail to parse.
- The one generated upsert setter per field and kind is one call with a list of edits that may not name the id or `created_at`, as no generated setter does.
- DomainUpdate.ManyAndOneAgree: the source writes the compilation out twice, with the same operations in the same order; the model has it once, as `DomainUpdate.Emit`.
- Deletes, reads of old values by mutations, and the frontend.
