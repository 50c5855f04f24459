# Relay gateway: the account store and the audit gate, modelled in Dafny

The gateway keeps its accounts in a database behind generated `ent` builders, and guards its
frontend dependencies with a small audit script. This project models the parts of both that hold
real algorithms, and proves what they promise. `dafny verify dfyconfig.toml` checks everything.

| file | what it models |
|---|---|
| `Prelude.dfy` | sequence vocabulary: filtering, distinctness, and the stable sort that stands for ORDER BY |
| `Schema.dfy` | tables, edges, rows and the database as relations; query trees as values; projection |
| `QueryMeaning.dfy` | which rows, columns and neighbours a query means, column by column |
| `Loaders.dfy` | entities on the heap and the loader shapes that index a batch and hand neighbours back |
| `EagerLoad.dfy` | batched eager loading over a tree of nested queries: what every slot holds, and what a run leaves on the nested queries |
| `EagerReference.dfy` | the lookup row by row, and the agreement of batched loading with it |
| `EagerLoadFacts.dfy` | partition of rows, nested windows, accessors, projection, two routes to the groups, running twice |
| `BulkCreate.dfy`, `BulkSave.dfy`, `BulkCreateFacts.dfy` | the mutator chain of a bulk create: as a function of the state, in place over shared arrays, and its guarantees |
| `EdgePlan.dfy` | the edge changes a mutation collects, the Clear/Add edges that an update emits, and from calls to relations |
| `QueryTrees.dfy` | query trees: what a configuring step and a copy do, path by path |
| `QueryBuilder.dfy` | the mutable query builder: configuring, cloning, and the limited ways of running it |
| `RowCodec.dfy` | defaults, checks, the insert of a creation, and scanning a row back into an account |
| `AuditParser.dfy` | the line parser of the exception file, and the file as text |
| `AuditGate.dfy` | the tuples of an audit report, the exception index and the verdict |
| `AuditMeaning.dfy` | what the tool's text, report and gate functions mean in the words of their inputs |

How the pieces are read:

- A node is an `Entity` with a projected row, the set of requested edges, and edge slots that the
  loaders write in place. All generated node types share this class; `Schema.Edge` says which
  foreign key or join table an edge uses.
- `EagerLoad.Shows` says what a loaded node holds for any query tree, windows included: in every
  requested slot the images of its row's share of what the edge's one query returned for the batch.
  `EagerReference.Matches` is the reference meaning: the images of exactly the rows that a lookup
  for that row alone finds. The two agree without windows below the root; with them, the exact
  condition is given.
- A loader restricts the nested query it runs, and the restriction stays: every load returns the
  query as it is left behind, `EagerLoad.After`.
- Mutations of a bulk create are objects in a store that builders and hooks refer to. A hook is a
  strategy: whenever it gets control it may edit its mutation in place; from the content and the
  outcomes so far it decides whether to call the next mutator again, with its own object or with a
  new one, and what to return. Every terminating hook is one.
- `EdgePlan` compares what a plan does to a relation with what the calls on the mutation said, one
  after the other.
- A query builder carries a ghost `view`, the `Query` value it stands for; every method says what it
  does to that value.
- Definitions that an operation shares with its specification are pinned down apart from it, in the
  words of the inputs: rows, columns and keys by name (`QueryMeaning`), calls by what they were made
  on (`EdgePlan.UpdateEdges`), settings field by field at every path (`QueryTrees.CopyOf`), exceptions
  and findings by their texts (`AuditGate.Admits`, `AuditMeaning`). The fixed tables are listed by
  column, edge and step: `RowCodec.ColumnTypes`, `OtherColumnTypes`, `OptionalStartNil`,
  `OthersStartZero`, `GivenMeans`, `DefaultsMean`, `PassesMeans` and `AssignMeans`;
  `QueryMeaning.KeysOfNodes` and `EdgesByTable`; `QueryTrees.StepTouchesOne`.
- The audit gate takes today's date, date parsing, lower-casing and `str()` as parameters. `Raised`
  stands for an uncaught Python exception.

Where the code does not do what one would expect, the exact condition is proved:

- A limit or offset on a nested query is applied to the whole batch. It means "per node" exactly
  when it cuts nothing off, leaves nothing, or the part up to its end belongs to one node and no
  other node has rows beyond the offset (`WindowExact` for any batch; `NestedWindowToMany`,
  `NestedWindowToOne` and `NestedWindowJoined` for the slots of the three shapes). For a limit alone
  that is: it cuts nothing off or one node owns all rows (`NestedLimitToMany`).
  `NestedLimitCanStarve` is a database on which it is not.
- A many-to-many slot lists its nodes in the order in which the whole batch first mentions them;
  under an order that tells the looked-up rows apart this is the order of the node's own lookup
  (`JoinedSlotExact`, `FirstAppearance`, `JoinedShareOrder`).
- A loader leaves its batch condition on the nested builder, unless the batch was empty or had no
  keys. Over a keyed edge a second run loads what a fresh builder would exactly when every row it
  needs satisfies the left condition (`RerunExact`); on the same rows it always does
  (`RunTwiceShows`, `RunTwiceHits`). Over a many-to-many edge the first run leaves a join, the second
  joins twice, and its first joined row meets a scan slot of the wrong type: it panics, or no row is
  joined and it loads nothing (`RerunJoined`).
- Clearing a to-many edge does not withdraw ids already waiting to be added; an update does what its
  calls say exactly when no such id is left over (`FaithfulIff`, `AddThenClear`). For to-one edges
  `OneFaithfulIff` gives the guard of every call.
- The gate compares severities only for the first tuple of a key. It lets through what checking
  every tuple would refuse exactly when a later tuple of a key disagrees and the first of that key
  does not (`DedupHidesExactly`); every tuple passes exactly when the gate accepts the tuples in
  every order (`EachMeansEveryOrder`, `OrderCanDecide`).
- A vulnerability without a usable identifier passes unseen, whatever its severity (`EntryVanishes`).
- A record of the exception file survives printing and parsing exactly when no later key reads as a
  header, a comment or a new item (`RoundTripExact`), and a file exactly when in addition nothing in
  it holds a line break (`TextRoundTripExact`).
- Validation in a bulk create looks at the object that the builder holds. An edit in place is seen
  (`EditIsChecked`), and while every hook hands on its own object, however edited, all batched specs
  come from accepted content (`SaveOwnIsChecked`). A new object that the last hook hands over is
  installed exactly when the held one is accepted, whatever validation would say of the new one
  (`LastHookFills`, `SubstituteIsNotChecked`).
- A successful save reports a nil node for a builder exactly when no call filled it
  (`NilNodeIffNeverFilled`); behind one hook, exactly when the hook reports success although every
  call it made was rejected by validation or it made none (`NilNodeIffClaimed`).
- The limit set by `First`, `Only` or `Exist` stays on the builder, and the id column stays selected
  (the `view` clauses of those methods). If the scan into a list of ids wants one column, an id query
  fails on a builder with selected fields, so always the second time (`IDs`, `ExistTwice`).

## Model

| member | source | states |
|---|---|---|
| Queries.ColumnsComplete | backend/ent/account_query.go:866-880 | for any selected fields: the id comes first and only once, every field is there, and so is the key of every requested to-one edge |
| Queries.SpecColumns | backend/ent/accountgroup_query.go:456-466 | putting the column list together step by step gives that list |
| Queries.NodeRowKeys | backend/ent/account_query.go:688-783 | projection never hides the id or a foreign key that a loader reads |
| Queries.NarrowAfter | backend/ent/account_query.go:881-901 | narrowing the result of a wide query equals running the narrow query, order included |
| QueryMeaning.QueryMeans | backend/ent/account_query.go:881-901 | a query matches exactly the table's rows that pass every predicate, as often as they occur, by the first ORDER BY key that tells two apart, and in table order where none does |
| QueryMeaning.WindowMeans | backend/ent/account_query.go:888-893 | which rows a limit and an offset leave, by position; a zero limit leaves all |
| QueryMeaning.ProjectionMeans | backend/ent/account_query.go:866-880 | without a selection a node has its whole row; with one, exactly the selected columns, the id and the keys its loaders need, with the row's values |
| QueryMeaning.AccountNeighbours | backend/ent/account_query.go:688-784 | an account's proxy, parent and children, by the columns that link them |
| QueryMeaning.AccountBelongings | backend/ent/account_query.go:785-845 | an account's usage logs, join rows and groups, by the columns that link them |
| QueryMeaning.GroupNeighbours | backend/ent/group_query.go:848-1000 | a group's accounts and join rows, by the columns that link them |
| QueryMeaning.JoinNeighbours | backend/ent/accountgroup_query.go:379-436 | the account and the group that a join row names |
| Loaders.ScanRow | backend/ent/account_query.go:566-571 | one more row gives one more node, with the row's columns as selected, the requested edges noted and every slot empty |
| Loaders.IndexById | backend/ent/account_query.go:753-761 | the batch ids in node order, an index from id to node, and emptied slots |
| Loaders.AssignMany | backend/ent/account_query.go:772-782 | each node gets exactly the neighbours that name it, in row order; an error exactly when some key is nil or unknown, reporting the first such key |
| Loaders.IndexByFk | backend/ent/account_query.go:689-700 | the distinct keys of a batch and the holders of each |
| Loaders.FkIndexHolders | backend/ent/account_query.go:690-700 | the index lists a key exactly when some node holds it, with all its holders in order |
| Loaders.StoreInAll | backend/ent/account_query.go:714-716 | a neighbour is stored in every holder and in nothing else |
| Loaders.AssignOne | backend/ent/account_query.go:709-717 | each node ends with the last neighbour that carries its key; an error exactly for an id nobody asked for |
| Loaders.ScanJoined | backend/ent/account_query.go:651-671 | joined rows with duplicates give one node per target in order of first appearance, and exactly who wants which |
| Loaders.AppendToAll | backend/ent/account_query.go:682-684 | the outcome of visiting the recorded nodes does not depend on the order of the visit |
| Loaders.AssignJoined | backend/ent/account_query.go:677-686 | each node ends with the neighbours it asked for, in neighbour order; an error exactly for an unrecorded id |
| EagerLoad.SqlAll | backend/ent/account_query.go:550-625 | for every query tree, windows included, each node has its row's columns (all without a selection, else the selected ones and the keys) and in every requested slot its row's share of what that edge's query returned for the batch; it fails exactly when a query that the load reaches fails or joins twice; the query tree is left as `After` says; terminates for any data |
| EagerLoad.LoadEdges | backend/ent/account_query.go:584-624 | loading every requested edge of a batch leaves every node showing its row and the query as `After` says, or fails exactly when a reached query fails |
| EagerLoad.LoadNext | backend/ent/accountgroup_query.go:364-376 | loading one edge keeps what earlier loaders did and leaves later edges untouched |
| EagerLoad.LoadToMany | backend/ent/account_query.go:752-784 | the batched to-many load gives every node its share, under any window, and leaves the batch condition and the key column on the nested query |
| EagerLoad.LoadToOne | backend/ent/account_query.go:688-719 | the batched to-one load gives every node its share, under any window; no query is run and nothing is left behind when no node has a key |
| EagerLoad.LoadManyToMany | backend/ent/account_query.go:627-687 | the batched many-to-many load gives every node its share, each neighbour once, under any window, and leaves the join on the nested query |
| EagerLoad.FetchKeyed | backend/ent/account_query.go:766-771 | the one query of a keyed load returns the rows of the batch with their own eager loads, and keeps the batch condition |
| EagerLoad.FetchJoined | backend/ent/account_query.go:638-676 | the one query of a many-to-many load returns each target once with its own eager loads, records all sources and keeps the join; with an earlier join still there its first row panics |
| EagerLoad.HitsFail | backend/ent/account_query.go:584-624 | with no earlier join in the tree, a load can fail only if some query of the tree does |
| EagerLoad.HandBack | backend/ent/account_query.go:677-686 | handing back many-to-many neighbours cannot fail on rows of the load's own query, and gives every node its share |
| EagerLoad.OwnedIsShare | backend/ent/account_query.go:766-782 | grouping by key hands every node its share of what the batch query returned, in order, under any limit or offset |
| EagerLoad.OneIsShare | backend/ent/accountgroup_query.go:379-407 | the last neighbour with a node's key is its share: the only row with that key, or none |
| EagerLoad.WantedIsShare | backend/ent/account_query.go:651-686 | the neighbours that recorded a node are its share: the targets that the joined rows pair with it, each once, in the order of the batch |
| EagerLoad.JoinedMembers | backend/ent/account_query.go:638-646 | a joined row says that the source is in the batch, the target passes the query, and a join row links them |
| EagerLoad.ShownColumns | backend/ent/account_query.go:566-571 | at any depth a loaded node has its row's columns |
| EagerLoad.NoOrphans | backend/ent/account_query.go:772-780 | the orphan errors of a to-many load cannot occur for rows that its own query returned |
| EagerLoad.NoStrangers | backend/ent/account_query.go:709-713 | nor can the unexpected-key error of a to-one load |
| EagerReference.ManyShareIsLookup | backend/ent/account_query.go:766-782 | without a window a to-many share is the node's own lookup |
| EagerReference.OneShareIsLookup | backend/ent/account_query.go:704-717 | so is a to-one share |
| EagerReference.JoinedShareIsLookup | backend/ent/group_query.go:848-908 | a row is looked up for a node exactly when it is in the node's many-to-many share |
| EagerReference.JoinedShareOrder | backend/ent/account_query.go:638-686 | that share lists each looked-up row exactly once, and in the lookup's order when ORDER BY tells the rows apart |
| EagerReference.ShowsMatch | backend/ent/account_query.go:550-625 | without windows and earlier joins below the root, a node that shows its row of a batch matches the row-by-row reference, at every depth |
| EagerReference.LoadAll | backend/ent/account_query.go:550-625 | for such trees a load returns, in order, nodes with their rows' columns that match the row-by-row reference, or fails because some query of the tree does |
| EagerLoadFacts.SharesPartition | backend/ent/account_query.go:752-784 | without orphans every neighbour lands in exactly one node's list and the lengths add up |
| EagerLoadFacts.NestedLimitExact | backend/ent/account_query.go:888-890 | cutting a batch cuts every owner's rows alike if and only if nothing is cut off or one owner has all rows |
| EagerLoadFacts.NestedOffsetExact | backend/ent/account_query.go:891-893 | the same for skipping rows |
| EagerLoadFacts.WindowExact | backend/ent/account_query.go:888-893 | cutting a batch to any limit and offset cuts every owner's rows alike if and only if the window fits |
| EagerLoadFacts.NestedWindowToMany | backend/ent/account_query.go:752-784 | with any limit and offset on a nested to-many query, every node's share is the window of its own lookup if and only if the window fits the batch |
| EagerLoadFacts.NestedLimitToMany | backend/ent/account_query.go:888-890 | for a limit alone: if and only if it cuts nothing off or one node owns all matching rows |
| EagerLoadFacts.NestedWindowToOne | backend/ent/account_query.go:704-717 | on a nested to-one query: if and only if the window cuts nothing off or leaves nothing |
| EagerLoadFacts.NestedWindowJoined | backend/ent/account_query.go:638-671 | on a nested many-to-many query the window counts joined rows: it is per node if and only if it fits them |
| EagerLoadFacts.NestedLimitCanStarve | backend/ent/account_query.go:888-890 | a database on which a limit of one child, asked for with two accounts, is not per account |
| EagerLoadFacts.JoinedSlotExact | backend/ent/account_query.go:627-687 | for any joined rows a node ends with the ids joined to it, each once, in first-appearance order |
| EagerLoadFacts.FirstAppearance | backend/ent/account_query.go:661-670 | further joined rows only add targets at the end |
| EagerLoadFacts.SlotIds | backend/ent/account_query.go:584-624 | the ids in a slot are the ids that the lookup finds |
| EagerLoadFacts.AccessorsReport | backend/ent/account.go:111-165 | an accessor reports "not loaded" exactly when the edge was not requested, "not found" exactly when the lookup is empty |
| EagerLoadFacts.SelectKeepsEdges | backend/ent/account_query.go:866-880 | selecting any fields changes no loaded edge |
| EagerLoadFacts.DirectRoute | backend/ent/account_query.go:627-687 | an unfiltered groups edge reaches exactly the joined groups |
| EagerLoadFacts.IndirectRoute | backend/ent/accountgroup_query.go:408-436 | so do the join entities followed by their group |
| EagerLoadFacts.TwoRoutesAgree | backend/ent/account_query.go:815-844 | both routes from an account reach the same group ids |
| EagerLoadFacts.RerunNarrows | backend/ent/account_query.go:766-768 | the condition that a keyed load leaves on its query filters what the query matches later |
| EagerLoadFacts.LeftSettings | backend/ent/account_query.go:763-771 | a keyed load leaves one more predicate on the linking column, and that column among the selected ones; a many-to-many load its join; no other setting changes |
| EagerLoadFacts.RerunExact | backend/ent/account_query.go:766-768 | over a keyed edge a second run, on whatever the database holds by then, loads what a fresh builder would if and only if the first left no condition (no rows or no keys) or every row that the second needs satisfies it |
| EagerLoadFacts.RunTwiceShows | backend/ent/account_query.go:688-783 | a tree of keyed edges, under any windows, shows the same rows by the same images when it is run again |
| EagerLoadFacts.RunTwiceHits | backend/ent/account_query.go:584-624 | and reaches a failing query exactly when it did before |
| EagerLoadFacts.RerunJoined | backend/ent/account_query.go:638-671 | after a first many-to-many run on some rows the second panics or loads nothing; without an offset it panics if and only if a fresh run would find a row linked to the first batch too |
| BulkSave.AccountCreateBulk.MutateAt | backend/ent/account_create.go:2140-2143 | running a builder's hooks in place is the chain function on the state |
| BulkSave.AccountCreateBulk.CoreAt | backend/ent/account_create.go:2106-2139 | the innermost mutator in place: check, substitute, fill, continue, finish |
| BulkSave.AccountCreateBulk.Batch | backend/ent/account_create.go:2120-2129 | the driver gets all specs; its k-th answer becomes the id of the k-th spec, or the batch fails |
| BulkSave.AccountCreateBulk.SaveAll | backend/ent/account_create.go:2095-2152 | the whole in-place save is the save function |
| BulkCreateFacts.BatchBound | backend/ent/account_create.go:2117-2125 | the batch runs at most as often as the product of the hooks' call counts |
| BulkCreateFacts.OneBatchAtMost | backend/ent/account_create.go:2095-2152 | hooks that call on at most once cause at most one batch |
| BulkCreateFacts.SaveBatchesAreFull | backend/ent/account_create.go:2116-2122 | whatever hooks do, every batch finds all specs filled, each from the last content that its builder was filled with |
| BulkCreateFacts.CallsNest | backend/ent/account_create.go:2140-2143 | whatever hooks do, entries and exits are well nested |
| BulkCreateFacts.WorkInOrder | backend/ent/account_create.go:2106-2122 | slots are filled in builder order before a batch |
| BulkCreateFacts.SaveWorkInOrder | backend/ent/account_create.go:2095-2152 | the same for a whole save |
| BulkCreateFacts.LastHookFills | backend/ent/account_create.go:2111-2116 | for any hook, object and state: the slot is filled, from what the last hook hands over, exactly if validation accepts what the builder's own object says by then |
| BulkCreateFacts.AcceptedCallInstalls | backend/ent/account_create.go:2114-2138 | under any hooks an accepted call installs the object, spec and node it was given, whatever later builders do; when it succeeds the node has the id its spec got |
| BulkCreateFacts.SaveOwnIsChecked | backend/ent/account_create.go:2111-2116 | with hooks that hand on their own object, however they edit it, everything filled in and every batched spec comes from content that validation accepted |
| BulkCreateFacts.EditIsChecked | backend/ent/account_create.go:2111-2116 | what a hook writes into its object reaches the batch exactly if validation accepts it |
| BulkCreateFacts.SubstituteIsNotChecked | backend/ent/account_create.go:2111-2116 | a new object that validation rejects reaches the batch |
| BulkCreateFacts.DoneMeansCreated | backend/ent/account_create.go:2130-2138 | with hooks that report no success of their own, a call that succeeds has run a batch and created every builder from its own on |
| BulkCreateFacts.SuccessMeansCreated | backend/ent/account_create.go:2146-2151 | with such hooks a successful save marks every mutation done and returns a node for every builder |
| BulkCreateFacts.NilNodeIffNeverFilled | backend/ent/account_create.go:2146-2151 | under any hooks a successful save returns a nil node for a builder if and only if no call filled it |
| BulkCreateFacts.NilNodeIffClaimed | backend/ent/account_create.go:2146-2151 | for one builder behind one hook: if and only if the hook reports success after calls that validation rejected, or after none |
| BulkCreateFacts.TransparentChain | backend/ent/account_create.go:2106-2139 | the exact end state of the chain from any builder and hook on, under transparent hooks |
| BulkCreateFacts.SaveAllOrNothing | backend/ent/account_create.go:2095-2152 | a failed check means no batch; any failure means an error and no mutation done; success means all done, and the k-th node has the k-th id of the driver's answer |
| BulkCreateFacts.EmptySave | backend/ent/account_create.go:2146-2151 | saving no builders succeeds and runs no batch |
| BulkCreateFacts.TransparentTrace | backend/ent/account_create.go:2117-2143 | the exact order of hook entries, fills, batch and exits |
| BulkCreateFacts.ExitsReverseEntries | backend/ent/account_create.go:2140-2143 | exits are the entries in reverse |
| BulkCreateFacts.SaveTraceMirrors | backend/ent/account_create.go:2140-2148 | a save's trace is a descent through all hooks in builder order and its mirror image |
| EdgePlan.ManyEdge.Add | backend/ent/mutation.go:3879-3886 | adding ids to the collected changes |
| EdgePlan.ManyEdge.Remove | backend/ent/mutation.go:3899-3907 | removing takes ids out of the added ones and notes them |
| EdgePlan.Listing | backend/ent/mutation.go:3910-3923 | ranging over ids in any order lists each once |
| EdgePlan.UpdateSpec.PlanMany | backend/ent/account_update.go:949-1005 | a to-many edge adds its own Clear and Add edges to the plan |
| EdgePlan.UpdateSpec.PlanOne | backend/ent/account_update.go:1006-1034 | so does a to-one edge |
| EdgePlan.UpdateSpec.PlanEdges | backend/ent/account_update.go:949-1153 | the plan of a mutation has for every edge exactly its Clear and Add edges |
| EdgePlan.PlanMeetsWish | backend/ent/account_update.go:1064-1153 | applying a plan gives (cleared ? nothing : old minus removed) plus added, or the new key of a to-one edge |
| EdgePlan.OnlyClearedIsClearAll | backend/ent/account_update.go:967-983 | a Clear edge without ids is emitted only for a cleared edge |
| EdgePlan.SamePlan | backend/ent/account_update.go:2119-2323 | any two plans for the same collected changes emit the same edges up to the order of ids, with the same effect |
| EdgePlan.PlanAgainstCalls | backend/ent/mutation.go:3879-3930 | for any calls the plan does what they say plus the leftover additions |
| EdgePlan.CollectedMeans | backend/ent/mutation.go:3879-3930 | what a mutation has collected, id by id, from the whole history of calls |
| EdgePlan.InOrderMeans | backend/ent/mutation.go:3879-3930 | what the calls say, id by id, from the whole history of calls |
| EdgePlan.LeftoverMeans | backend/ent/mutation.go:3879-3930 | an id is left over exactly when the edge was cleared while it waited and no later call mentions it |
| EdgePlan.FaithfulIff | backend/ent/mutation.go:3879-3930 | it does exactly what they say if and only if nothing is left over |
| EdgePlan.ClearFirstIsFaithful | backend/ent/mutation.go:3889-3891 | clearing only while nothing waits to be added is enough |
| EdgePlan.AddThenClear | backend/ent/mutation.go:3879-3891 | an id added before a clear is still added |
| EdgePlan.OneFaithfulIff | backend/ent/mutation.go:3933-3957 | when a to-one plan does what the last call says, call by call |
| EdgePlan.OneCollectedMeans | backend/ent/mutation.go:2790-2836 | what a to-one edge has collected from the whole history of calls, by edge name and by field |
| EdgePlan.UpdateEdges | backend/ent/account_update.go:949-1153 | whatever calls are made on an update's builder, the emitted edges leave groups, children and usage logs each as the calls made on them say plus the leftover additions, and proxy and parent each with the id still set, which is what the last call says exactly when that call is a faithful one |
| QueryBuilder.Builder.SetWith | backend/ent/account_query.go:412-474 | requests an edge with a configured nested query, replacing an earlier request |
| QueryBuilder.Builder.Perform | backend/ent/account_query.go:44-72 | a step at any depth changes that nested query and nothing else in the tree |
| QueryTrees.StepAtPath | backend/ent/account_query.go:412-474 | a step reaches exactly the query at the end of its path; every other query of the tree keeps its settings |
| QueryTrees.WhereFilters | backend/ent/account_query.go:44-47 | more predicates keep exactly the matched rows that pass them, in order |
| QueryTrees.OrderBreaksTies | backend/ent/account_query.go:69-72 | more sort keys keep the rows and only break ties of the earlier keys |
| QueryBuilder.Builder.Clone | backend/ent/account_query.go:388-408 | a clone shares no object with the original; at every path of requested edges it has the same requests and, field by field, the same settings but no modifiers |
| QueryBuilder.CloneAndDiverge | backend/ent/account_query.go:386-408 | after a clone, any interleaving of later steps leaves the original, and the copy, each as if the other did not exist |
| QueryTrees.CopyTakesTheSame | backend/ent/account_query.go:388-408 | a copy takes the same rows from any table |
| QueryTrees.CopyShowsTheSame | backend/ent/account_query.go:388-408 | running a copy shows the same images of the same rows at every depth |
| QueryTrees.CopyHitsTheSame | backend/ent/account_query.go:388-408 | a copy reaches a failing query exactly when the original does |
| QueryBuilder.Builder.All | backend/ent/account_query.go:307-314 | running the builder is running its query, and the restrictions of its eager loads stay on the nested builders |
| QueryBuilder.Builder.First | backend/ent/account_query.go:208-217 | the first row of the query without its limit, with its edges, or not found; the limit of one and the loads' restrictions stay |
| QueryBuilder.Builder.Only | backend/ent/account_query.go:254-267 | node, not found or not singular exactly as the query without its limit has one, no or several rows; fails exactly when a reached query fails |
| QueryBuilder.Builder.IDs | backend/ent/account_query.go:326-335 | the ids of the selected rows; it fails exactly when the query does or a one-column scan meets several; the id column and the uniqueness choice stay |
| QueryBuilder.Builder.FirstID | backend/ent/account_query.go:230-240 | the id of the first row of the query without its limit |
| QueryBuilder.Builder.OnlyID | backend/ent/account_query.go:281-295 | as Only, for ids |
| QueryBuilder.Builder.Exist | backend/ent/account_query.go:365-375 | true if and only if the query without its limit has a row |
| QueryBuilder.Builder.ExistTwice | backend/ent/account_query.go:326-335 | asking again answers the same, or always fails where the scan wants one column |
| QueryBuilder.LimitTakes | backend/ent/account_query.go:888-890 | a positive limit takes the first rows of the unlimited query, whatever limit it replaces |
| QueryBuilder.SelectTakes | backend/ent/account_query.go:932-939 | the same on the select path |
| RowCodec.Account.ScanValues | backend/ent/account.go:168-189 | one slot of the right kind per column |
| RowCodec.Account.AssignValues | backend/ent/account.go:193-417 | the columns are assigned in order up to the first error |
| RowCodec.NoTypeMismatch | backend/ent/account.go:168-417 | assigning the scan slots of any column list never meets a slot of the wrong type |
| RowCodec.Creation.Defaults | backend/ent/account_create.go:527-585 | every missing default is filled in and nothing else changes, or some default is not initialised |
| RowCodec.Creation.Check | backend/ent/account_create.go:588-662 | passes exactly when every demanded field is there and every validated one valid; otherwise reports the first failure |
| RowCodec.CheckAfterDefaults | backend/ent/account_create.go:527-662 | after the defaults only name, platform, type and the validators can fail |
| RowCodec.Creation.CreateSpec | backend/ent/account_create.go:682-891 | the returned node has exactly the given fields, the insert lists them in order, and the emitted to-many edges give the account the groups, children and usage logs asked for |
| RowCodec.LinksAreMade | backend/ent/account_create.go:805-888 | the groups, children and usage logs of a new account are those the creation asked for, in whatever order ids are listed |
| RowCodec.WrittenCell | backend/ent/account_create.go:687-844 | what an insert writes into each column |
| RowCodec.ReadBack | backend/ent/account.go:193-417 | reading one written column gives back what was created and touches no other field |
| RowCodec.CreateReadRoundTrip | backend/ent/account_create.go:664-680 | the node a save returns has the fields of the node scanned from its row, for any column list |
| AuditText.SplitQuoted | tools/check_pnpm_audit_exceptions.py:12-20 | a quoted value survives splitting whatever quotes and colons it holds |
| AuditMeaning.StripMeans | tools/check_pnpm_audit_exceptions.py:12-20 | stripping takes off exactly the blanks around a trimmed middle |
| AuditMeaning.SplitPlain | tools/check_pnpm_audit_exceptions.py:12-20 | an unquoted value survives splitting too |
| AuditParser.ParseExceptions | tools/check_pnpm_audit_exceptions.py:23-48 | the parsing loop is the parse function |
| AuditParser.ParseConcatenation | tools/check_pnpm_audit_exceptions.py:28-48 | if the second file opens with an item, parsing the concatenation concatenates the records, and raises exactly when a part does |
| AuditMeaning.NoiseIsSkipped | tools/check_pnpm_audit_exceptions.py:29-33 | blank lines, comments and header lines may stand anywhere without effect |
| AuditMeaning.StrayIsSkipped | tools/check_pnpm_audit_exceptions.py:34-45 | so may lines that open no item and have no colon |
| AuditMeaning.PutGet | tools/check_pnpm_audit_exceptions.py:36-45 | setting a key again replaces its value and no other |
| AuditMeaning.GetMeans | tools/check_pnpm_audit_exceptions.py:153-166 | in a parsed record, looking up a key finds exactly its value |
| AuditMeaning.BadItemRaises | tools/check_pnpm_audit_exceptions.py:34-42 | an item with text but no colon raises, wherever it stands |
| AuditParser.ParseIsClean | tools/check_pnpm_audit_exceptions.py:34-47 | every parsed record is non-empty with distinct trimmed colon-free keys, and no later key that reads as a comment or item |
| AuditParser.CleanRoundTrip | tools/check_pnpm_audit_exceptions.py:28-48 | printing and parsing clean records drops exactly later header keys |
| AuditParser.RoundTripExact | tools/check_pnpm_audit_exceptions.py:23-48 | a list of records survives printing to lines and parsing if and only if every record is printable |
| AuditParser.ParseTextIsSingle | tools/check_pnpm_audit_exceptions.py:27-47 | no file yields a key or a value with a line break |
| AuditMeaning.LinesMean | tools/check_pnpm_audit_exceptions.py:27-28 | lines may end with LF or CR LF, and the last with nothing |
| AuditMeaning.CarriageReturn | tools/check_pnpm_audit_exceptions.py:27-28 | or with CR alone |
| AuditParser.TextRoundTripExact | tools/check_pnpm_audit_exceptions.py:23-48 | written to a file and read back, records survive if and only if every one is printable and holds no line break |
| AuditReport.ReadVia | tools/check_pnpm_audit_exceptions.py:85-111 | the loop over `via` collects exactly the identifiers and titles of its objects and strings |
| AuditReport.ReadVuln | tools/check_pnpm_audit_exceptions.py:82-111 | one tuple per usable identifier, or an exception when the titles cannot be joined |
| AuditReport.IterVulns | tools/check_pnpm_audit_exceptions.py:64-111 | the tuples of a report in order, or an exception exactly when some entry cannot be read |
| AuditMeaning.PickMeans | tools/check_pnpm_audit_exceptions.py:51-61 | an advisory's identifier is the first true one of its seven sources; exactly when none can be had from a true `cves` without entries, reading raises |
| AuditMeaning.ViaIdMeans | tools/check_pnpm_audit_exceptions.py:89-107 | the identifier of a `via` item is the first true one of its five fields |
| AuditMeaning.ReportMeans | tools/check_pnpm_audit_exceptions.py:64-111 | the tuples of a report are exactly those of its advisories and vulnerabilities, field by field; reading raises exactly when some entry is unreadable |
| AuditMeaning.ReportOrder | tools/check_pnpm_audit_exceptions.py:64-111 | one tuple for each advisory in order, then those of vulnerabilities |
| AuditReport.EntryVanishes | tools/check_pnpm_audit_exceptions.py:109-111 | a vulnerability leaves no tuple if and only if it has no usable identifier |
| AuditGate.BuildIndex | tools/check_pnpm_audit_exceptions.py:153-185 | no error if and only if all exceptions are well formed with distinct keys, and then the index lists exactly them |
| AuditGate.IndexDecides | tools/check_pnpm_audit_exceptions.py:207-219 | looking up the index answers what the exceptions say about a key |
| AuditGate.Check | tools/check_pnpm_audit_exceptions.py:187-243 | passes if and only if the declarative reading accepts, stated over the normalised keys and over the texts themselves; raises if and only if a severity is neither empty nor text |
| AuditGate.AdmitsMeansAccepts | tools/check_pnpm_audit_exceptions.py:114-133 | passing, in the words of the exception texts and the report: packages equal but for outer blanks, advisories but for outer blanks and case |
| AuditGate.Audit | tools/check_pnpm_audit_exceptions.py:142-243 | the verdict of a whole run from the file's text and the report, over the texts themselves |
| AuditMeaning.SpellingIrrelevant | tools/check_pnpm_audit_exceptions.py:127-132 | the verdict does not change with the case of advisories or the blanks around them, in the report or in the exception file |
| AuditMeaning.BlanksRespell | tools/check_pnpm_audit_exceptions.py:127-132 | blanks around a text and its case make no other spelling of it |
| AuditMeaning.UpperCaseIsExcused | tools/check_pnpm_audit_exceptions.py:127-132 | an exception in lower case excuses a finding in upper case |
| AuditGate.DedupRefines | tools/check_pnpm_audit_exceptions.py:191-219 | without conflicting severities the deduplicated loop decides as checking every tuple would |
| AuditGate.DedupHidesExactly | tools/check_pnpm_audit_exceptions.py:204-219 | checking every tuple passes if and only if the gate passes and no later tuple of a key disagrees where the first agreed |
| AuditGate.OrderIrrelevant | tools/check_pnpm_audit_exceptions.py:191-219 | and its verdict does not depend on the order of tuples |
| AuditGate.EachMeansEveryOrder | tools/check_pnpm_audit_exceptions.py:204-219 | every tuple passes if and only if the loop accepts the tuples in every order |
| AuditGate.OrderDecides | tools/check_pnpm_audit_exceptions.py:204-215 | two tuples of one key of which only one agrees with the exception: the order decides |
| AuditGate.OrderCanDecide | tools/check_pnpm_audit_exceptions.py:204-215 | a concrete report on which it does |

## Left out

- SQL text, dialects, row locks, DISTINCT, transactions and drivers: the database answers with rows in table order under a stable sort, or the query fails; `fails` stands for every error of running one query (interceptor, invalid field, driver), and constraint errors are not told apart.
- The edges of proxies, usage logs and groups other than to accounts and join entities: they are leaves, since their loaders repeat the three shapes modelled here.
- EagerReference.LoadAll: assumes no limit, offset or earlier join below the root, where the agreement does not hold in general; EagerLoad.SqlAll covers every tree, and the EagerLoadFacts window lemmas say for one load when its shares are per node.
- EagerLoadFacts.NestedWindowJoined: assumes joined rows without duplicates and an ORDER BY that tells the targets apart; ties leave the choice of rows to the database.
- EagerLoadFacts.NestedWindowToMany: assumes a batch without duplicate rows, which every table with an id, and the composite key of account_groups, guarantees.
- The panic of a many-to-many query that is joined twice is an error value, WrongSlot; the types of the scan slots behind it are not modelled.
- EagerLoadFacts.RunTwiceShows: on an unchanged database; EagerLoadFacts.RerunExact and RerunJoined allow the second run another one.
- QueryBuilder.Builder.All: what a failed run leaves on the nested builders is not stated; a builder whose own query still carries a join from an earlier load is not run as a root.
- Traversing interceptors that append predicates to a builder when its query runs (backend/ent/schema/mixins/soft_delete.go:83-93): the modelled builders run with the predicates they have, so those additions, and that they pile up over runs, are not covered; their errors are part of `fails`.
- Traversals (`QueryGroups` and the like) and their SQL: a traversal is a starting list of rows without duplicates, so `Unique(false)` on a traversal is not covered.
- QueryBuilder.Builder.IDs: whether the library scan into a list of ids rejects several columns is the parameter `oneColumn`, since that library is not part of this model.
- Negative limits and offsets, `GroupBy`, `Aggregate`, `Count`, `ForUpdate` and `ForShare`.
- Slices are values: two Go slices sharing one backing array are not captured, which is why the copies that Clone makes of them show only as equal contents.
- The error that `defaults` returns is ignored by the bulk save, as in the code; there `defaults` is a function of the mutation, and an uninitialised default shows as a failing check.
- Hooks as closures: `mutators[i]` is the pair (builder, hook index), and a hook's own side effects outside the mutation are not modelled; every hook is assumed to call on finitely often.
- The pointer `mutation.id` of a bulk save, and a hook that keeps a mutation and edits it while another has control: a hook edits only the object it was given, when it has control. A type assertion that fails on a foreign mutation is left out.
- EdgePlan.PlanMeetsWish: speaks of one relation of the updated account at a time; a parent edge and a children edge that name the same row, extra columns of the join table, and inserting a join row that already exists (a constraint error) are not modelled.
- EdgePlan.SamePlan: both update builders generate the same text for their edges, and the model has it once, as PlanEdges; that the two texts agree is read off the source and not proved.
- The field part of an update, conflict options of a create, and node identity in `AccountUpdateOne`.
- RowCodec.Creation.CreateSpec: the extra columns that a groups edge gives its join rows are not modelled, and the to-many edges are a list of their own beside the two keys.
- RowCodec.CreateReadRoundTrip: times and floats are stored exactly and columns without a value read as NULL; the JSON codec is a parameter, assumed invertible and never empty.
- RowCodec.Account.AssignValues: unmarshalling into a map that already holds keys merges in Go and replaces here; the two agree on the fresh nodes that scanning uses.
- The wording of error messages, argument parsing, decoding a file into text, and writing to standard error.
- JSON numbers with fractions and duplicate keys in one JSON object: an object is a list of fields with distinct keys.
- AuditReport.EntryVanishes: the gate as written lets such a vulnerability through; the lemma records it rather than excluding such reports.
- Setters, printers, the panicking variants, the other generated packages, the frontend and the deployment files: they would only add easy members.
