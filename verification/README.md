# Verified model of the account data layer and the audit gate

The repository keeps its accounts, API keys and account groups behind a generated data
layer: query builders that answer a whole tree of requested edges with one batched query
per edge, create builders that insert many rows through one chain of hooks, and a codec
between rows and account objects. Beside it, a script gates releases on a list of
exceptions to the dependency audit. This project models these four parts and proves what
they compute.

Check it with `dafny verify dfyconfig.toml`.

| modules | what they hold |
|---|---|
| `Store`, `RowOrder` | tables, predicates, order, limits: the row store that queries run against, and which rows come back in which order |
| `EagerLoad`, `Refinement`, `Projection` | the eager-load tree, in batches and one node at a time; the refinement proof; field selection |
| `JoinOrder`, `EdgeLoaders`, `QueryBuilder`, `BuilderRuns` | join rows in any order; the loaders and builders as imperative code over heap objects, proved against `EagerLoad` |
| `Windows`, `NestedLimit`, `NestedJoinLimit`, `NestedLimitRun` | limits and offsets on nested builders, for each kind of edge and for whole runs |
| `Rerun`, `StaleEdges` | used builders: on the same data, and for other nodes |
| `EdgeAccess`, `Requested`, `Schema` | edge accessors, the columns and edges that nodes show, the concrete entities |
| `Examples` | runs over the account entity in which windows and used builders show |
| `AccountCodec` | defaults, checks, create specifications, scanning and assigning of accounts |
| `BulkCreate`, `BulkFacts`, `BulkSave`, `BulkAccounts`, `AccountDefaults` | the chain of mutators, what every run of it does, its guarantees, accounts and account groups, the stored defaults |
| `AuditExceptions`, `AuditMarkers` | the line parser and its printer, list markers |
| `AuditVerdict`, `AuditReport`, `AuditPolicy`, `AuditOrder` | the walk over the report and the verdict, what its findings say, the policy in words, the order of findings |

Conventions. A query configuration holds predicates, order terms, limit, offset, selected
fields and row locks. A tree of builders is a `Query` value; class `Builder` is the mutable
object whose `Model()` is that value. `BatchAll` is the batched run, `RefAll` the recursive
lookup of every edge of every node, `AfterAll` the tree of builders that a run leaves behind.
A mutator of the bulk chain is a closure in the source; here it is a value of type `Mutator`.

## What the code does differently from what one might expect

Each of these is a fact about the code as it stands, proved with its exact condition.

- A limit or an offset on a nested builder bounds the whole batch, not each node's share.
  The edge is loaded as it is looked up only if the batch is fair: without an offset, it is
  within the limit or has one owner; with an offset, it is within the offset, or everything
  up to the end of the window has one owner and no other owner has more rows than are
  skipped (`NestedLimit.O2MWindowExactly`, `NestedLimit.M2OWindowExactly`,
  `NestedJoinLimit.M2MWindowExactly`; examples for every kind of edge in
  `Examples.WindowsLoseNeighbors`). With an invalid selection both ways may fail instead
  (`NestedLimit.O2MWindowOrFailure` and its two companions).
- The loaders leave their key predicates on the nested builders. Running the same builder
  again on unchanged data is harmless (`Rerun.RerunSame`); with other nodes, an edge is
  loaded correctly only if every key was asked for before or has no row
  (`StaleEdges.StaleChildrenExactly`, `StaleEdges.StaleTargetsExactly`; an example in
  `Examples.UsedBuilderLosesChildren`); an M2M edge that is loaded again panics if a neighbor
  is joined to earlier and later nodes alike, and otherwise gives empty lists
  (`Rerun.RerunJoinExactly`; an example in `Examples.ReloadedGroupsPanic`).
- `Only` and `Exist` leave their limit on the builder, so that a later `All` is truncated
  (`BuilderRuns.ExistThenAll`).
- `IDs` and `Exist` add the ID to the selected fields and scan all of them into plain
  integers, so that they succeed if and only if no field was selected before
  (`QueryBuilder.Builder.IDs`, `QueryBuilder.Builder.Exist`). The field stays, and a second
  call on the same builder always fails (`BuilderRuns.ExistTwice`).
- A NULL identifier is assigned as zero (`AccountCodec.AssignedId`), whereas a NULL in any
  other column keeps the field; a JSON column read twice is merged, not replaced
  (`AccountCodec.DocumentsAreMerged`, `AccountCodec.LastDocumentExactly`; an example in
  `AccountCodec.CredentialsMerge`).
- A hook of a later builder that drops its mutation and reports success marks the earlier
  mutations done although nothing is inserted (`BulkSave.DoneWithoutInsertExactly`).
- The audit gate stops with an exception on a `via` entry that is described by a numeric
  `source` only, without title, url or advisory, although the comparison of advisories
  provides for numbers (`AuditVerdict.ReportCrashesExactly` for all reports,
  `AuditVerdict.NumericSourceCrashes` for this one).
- A list marker on a line of its own opens no item: its fields are merged into the item
  above, or lost if there is none (`AuditMarkers.LoneMarkersMerge`,
  `AuditMarkers.ReadAsIntendedExactly`).
- The order of the findings decides the verdict exactly if every key is covered by some
  finding but not every finding is covered itself (`AuditOrder.OrderDecidesExactly`; an
  example in `AuditOrder.VulnOrderExample`).

## Model

| member | source | states |
|---|---|---|
| Store.SelectSort | backend/ent/account_query.go:954-976 | filtering an ordered result equals ordering the filtered rows, so that a share of a batch keeps the order of an own query |
| RowOrder.MatchingExactly | backend/ent/account_query.go:954-976 | a result holds the rows of the table that meet every predicate, as often as they are there, ascending in the order terms from the first to the last, and rows that tie keep the table's order |
| Store.KeysAreShown | backend/ent/accountgroup.go:87-104 | a key that was read is shown as it is; a null or unread one is zero in a plain integer field and nil in a pointer |
| RowOrder.WindowExactly | backend/ent/account_query.go:967-972 | the offset skips rows and the limit bounds the rest, where zero is the same as none |
| Store.MatchingUniqueIds | backend/ent/account_query.go:586-610 | distinct primary keys of a table are carried to every result taken from it |
| EagerLoad.ForcedColumns | backend/ent/account_query.go:933-958 | whatever is selected, the ID, all selected fields and the foreign key of every requested M2O edge are read |
| EagerLoad.ColumnsExactly | backend/ent/account_query.go:933-958 | without a selection every column of the entity is read; with one, exactly the selected fields, the ID and the foreign keys of the requested M2O edges |
| EagerLoad.InJoinExactly | backend/ent/account_query.go:700-712 | a neighbor is recorded for an owner exactly if some join row connects them |
| EagerLoad.KeyListMembers | backend/ent/account_query.go:731-746 | the ID list of an M2O batch is duplicate-free and holds exactly the foreign keys of the nodes |
| Refinement.ShareOfBatch | backend/ent/account_query.go:827-859 | what one node's own lookup gives is its share of the batch, in the same order |
| Refinement.M2OEdge | backend/ent/account_query.go:795-826 | loading an M2O edge for all nodes together gives every node what its own lookup gives, or fails exactly if one of them fails |
| Refinement.O2MEdge | backend/ent/account_query.go:827-859 | the same for an O2M edge, lists in the same order |
| Refinement.M2MEdge | backend/ent/account_query.go:670-730 | the same for an M2M edge through a join, every neighbor once |
| Refinement.BatchRefinesLookup | backend/ent/account_query.go:586-668 | for every finite tree of edges without nested limits, every selection and every database, the batched run equals the recursive one-node-at-a-time lookup: same nodes, same edges, same order, same failures |
| Projection.SelectionOnlyProjects | backend/ent/account_query.go:933-958 | for every valid selection anywhere in the tree, nodes and edges at every depth are those of the query without selections, each node showing exactly the columns read for it |
| Projection.ColumnsAreColumns | backend/ent/account_query.go:943-958 | only columns of the entity are ever read |
| Schema.ConformingIsWellTyped | backend/ent/account/account.go:155-195 | every query over accounts, API keys and account groups with their real columns and edges meets the assumptions of the general model |
| Schema.AccountKeys | backend/ent/account/account.go:155-195 | the proxy, the owner and the parent of an account are looked up by their own nullable keys in their own tables |
| Schema.EagerLoadingIsCorrect | backend/ent/accountgroup_query.go:334-377 | the refinement for every tree over these entities, however deep it recurses through parents, children and account groups |
| EdgeLoaders.GroupByKey | backend/ent/apikey_query.go:570-583 | the grouping loop lists every non-nil key once and partitions the nodes that have a key |
| EdgeLoaders.AssignOne | backend/ent/apikey_query.go:584-601 | every node gets the last neighbor with its key and is untouched otherwise; the error arises exactly on a neighbor nobody asked for |
| EdgeLoaders.IndexById | backend/ent/account_query.go:827-836 | the index holds the last node of every ID, and every node starts with an empty list |
| EdgeLoaders.LastIsIndexed | backend/ent/account_query.go:828-834 | if IDs repeat, exactly the last occurrence is in the index and receives rows |
| EdgeLoaders.AssignMany | backend/ent/account_query.go:844-858 | every node's list is the order-preserving filter of the neighbors that its ID indexes; the error is that of the first bad key |
| EdgeLoaders.KeyErrorExactly | backend/ent/account_query.go:848-856 | there is an error exactly if some neighbor's key is nil or unknown |
| EdgeLoaders.JoinHook.Assign | backend/ent/account_query.go:700-712 | a join row adds its owner to the neighbor's set, and only the first row of a neighbor is decoded |
| JoinOrder.FirstOfEachAppearances | backend/ent/account_query.go:700-712 | for all join rows, in any order and with repeats: the rows that are decoded are the first rows of the neighbors, each neighbor once, none missing, in order of first appearance |
| JoinOrder.KeepJoinedInOrder | backend/ent/account_query.go:670-729 | for all join rows and every owner: the list that the loader builds has no neighbor twice, holds a neighbor exactly if some join row connects it to the owner, and is in order of first appearance |
| EdgeLoaders.ReadJoin | backend/ent/account_query.go:690-718 | the callback over any join rows decodes exactly these first appearances and records exactly the connections |
| EdgeLoaders.AppendToAll | backend/ent/account_query.go:725-727 | ranging over the map of owners in any order appends the neighbor to exactly these nodes |
| EdgeLoaders.AssignJoined | backend/ent/account_query.go:720-729 | every node's list is the filter of the neighbors by the recorded connections, whatever the iteration order; the error arises exactly on an unrecorded neighbor |
| EdgeLoaders.LoadJoinRows | backend/ent/account_query.go:670-729 | for any join rows of loaded owners, with repeats: every node that can be found by its ID gets the duplicate-free list of exactly the neighbors joined to it in order of first appearance, and there is no error |
| EdgeAccess.NeighborsAreConserved | backend/ent/account_query.go:844-858 | the lists of an O2M batch together hold exactly as many entries as there are neighbors, even if nodes share an ID |
| EdgeAccess.AccessorsAreExact | backend/ent/account.go:126-193 | after a run of fresh builders without nested windows, the accessors of the nodes report NotLoaded for edges that were not requested, NotFound exactly for unique edges whose lookup is empty, and the looked-up rows otherwise |
| Requested.RunShowsRequested | backend/ent/account_query.go:586-668 | after every successful run, under any windows and of builders used before or not, every node at every depth displays a row that meets the predicates of its builder, in exactly the columns to be read (with the key that an O2M edge forces), and its accessors report NotLoaded exactly for edges that were not requested |
| EdgeAccess.FoundIfRowExists | backend/ent/account.go:135-166 | the lookup of a unique edge is non-empty exactly if some row that meets the nested predicates has the key |
| QueryBuilder.Builder.Configure | backend/ent/account_query.go:44-74 | a setter changes the configuration of its own builder and of no other |
| QueryBuilder.Builder.All | backend/ent/account_query.go:586-668 | the imperative run over builder and node objects returns the batched result and leaves exactly the narrowed tree behind |
| QueryBuilder.Builder.AllJoined | backend/ent/account_query.go:690-718 | the same for a builder read through a join, with the callback's records |
| QueryBuilder.LoadM2O | backend/ent/account_query.go:731-762 | the loader loop for M2O edges computes the batch step and touches the nested builder and the nodes only |
| QueryBuilder.LoadO2M | backend/ent/account_query.go:827-859 | the same for O2M edges, including the forced foreign-key column |
| QueryBuilder.LoadM2M | backend/ent/account_query.go:670-730 | the same for M2M edges |
| QueryBuilder.Builder.Clone | backend/ent/account_query.go:412-433 | the clone is made of fresh builders and fresh contexts only, over the whole tree, and equals the original except for row locks, which are not copied |
| QueryBuilder.Builder.Only | backend/ent/account_query.go:278-291 | with a limit of two, exactly one row, none or more are told apart as without a limit; the limit stays on the builder |
| QueryBuilder.Builder.IDs | backend/ent/account_query.go:350-359 | succeeds exactly if no field was selected before, and then gives the IDs of the rows of the window; otherwise says why not; the ID field stays selected |
| QueryBuilder.ScannedIsWindow | backend/ent/account_query.go:982-1015 | what a scan reads is the window of the rows, except that a limit of zero reads none and an offset without a limit brings a limit of its own |
| QueryBuilder.Builder.Exist | backend/ent/account_query.go:389-399 | succeeds exactly if no field was selected before, and then answers non-emptiness without a limit; limit and ID field stay on the builder |
| QueryBuilder.LimitedRun | backend/ent/account_query.go:52-55 | a limited run loads a prefix of the unlimited rows, and the same result if they are few |
| BuilderRuns.RunFresh | backend/ent/account_query.go:586-668 | running a fresh tree of builder objects in place gives the one-node-at-a-time lookup |
| BuilderRuns.AfterRunnable | backend/ent/account_query.go:611-667 | a run leaves a tree of builders that can be run again |
| BuilderRuns.RunTwice | backend/ent/account_query.go:586-668 | without M2M edges, two runs of one builder give the same result |
| BuilderRuns.RunClone | backend/ent/account_query.go:412-433 | running a clone gives the result of the original and leaves the original alone |
| BuilderRuns.CloneThenUse | backend/ent/account_query.go:412-433 | configuring and running the original later does not change the clone |
| BuilderRuns.ExistThenAll | backend/ent/account_query.go:389-399 | after Exist, whether it answers or not, All on the same builder returns one row at most |
| BuilderRuns.ExistTwice | backend/ent/account_query.go:547-553 | a second Exist on the same builder always fails |
| BuilderRuns.ExistOnEarlierClone | backend/ent/account_query.go:412-433 | a clone taken before still answers when the builder itself no longer does |
| BuilderRuns.ExistOnClone | backend/ent/account_query.go:389-433 | Exist on a clone succeeds and answers as on the original, which stays as it was |
| Rerun.RerunSame | backend/ent/account_query.go:808-813 | a second run on unchanged data gives the same nodes and edges although the nested builders are narrowed twice |
| Rerun.RerunJoinExactly | backend/ent/account_query.go:681-718 | once a builder has loaded an M2M edge, loading it again fails exactly if some neighbor is joined to both earlier and later nodes, and otherwise gives every node an empty list |
| StaleEdges.ServedLoadAlike | backend/ent/account_query.go:827-859 | if every node was served before or has no neighbor, a used tree of builders of any depth loads an O2M edge as a fresh one does, failures included |
| StaleEdges.FoundLoadAlike | backend/ent/account_query.go:795-826 | the same for an M2O edge, if every key was asked for before or has no row |
| StaleEdges.StaleChildrenExactly | backend/ent/account_query.go:827-859 | through a used tree of builders of any depth, with valid selections, an O2M edge is loaded as through a fresh one exactly if every node was served before or has no neighbor |
| StaleEdges.StaleTargetsExactly | backend/ent/account_query.go:795-826 | the same for an M2O edge, exactly if every key was asked for before or has no row |
| Examples.UsedBuilderLosesChildren | backend/ent/account_query.go:837-859 | a builder that has loaded the children of one account finds none for another |
| Examples.ReloadedGroupsPanic | backend/ent/account_query.go:681-718 | a builder that has loaded the groups of an account panics when it loads them again |
| Rerun.RunUnlocked | backend/ent/account_query.go:412-433 | the tree that Clone makes, without row locks, gives the same rows and edges |
| Windows.FairShares | backend/ent/account_query.go:967-972 | in a fair batch, the share of every owner in the window is the window of its own elements |
| Windows.SharesAreFair | backend/ent/account_query.go:967-972 | only a fair batch gives every owner as many elements as a window of its own |
| NestedLimit.O2MWindowExactly | backend/ent/account_query.go:827-859 | under any limit and offset on the nested builder and valid selections, an O2M edge is loaded as it is looked up exactly if the batch is fair |
| NestedLimit.M2OWindowExactly | backend/ent/account_query.go:795-826 | the same for an M2O edge |
| NestedJoinLimit.M2MWindowExactly | backend/ent/account_query.go:670-730 | the same for an M2M edge, whose window counts join rows |
| NestedLimit.O2MWindowOrFailure | backend/ent/account_query.go:827-859 | for any selections, an O2M edge is loaded as it is looked up exactly if the batch is fair or both ways fail |
| NestedLimit.M2OWindowOrFailure | backend/ent/account_query.go:795-826 | the same for an M2O edge |
| NestedJoinLimit.M2MWindowOrFailure | backend/ent/account_query.go:670-730 | the same for an M2M edge |
| NestedLimitRun.O2MRunExactly | backend/ent/account_query.go:586-668 | a whole run with one O2M edge, under any window on the nested builder, gives what the lookup gives exactly if the batch is fair |
| NestedLimitRun.M2ORunExactly | backend/ent/account_query.go:586-668 | the same with one M2O edge |
| NestedLimitRun.M2MRunExactly | backend/ent/account_query.go:586-668 | the same with one M2M edge |
| NestedLimitRun.O2MRunOrFailure | backend/ent/account_query.go:586-668 | the run with one O2M edge for any selections of the nested builder |
| Examples.WindowsLoseNeighbors | backend/ent/account_query.go:967-972 | four runs over two accounts that differ from the lookup: a limit of one on children, on parents and on groups, and an offset of one on children |
| AccountCodec.ScanValues | backend/ent/account.go:196-217 | every column is given the destination type that assignValues insists on |
| AccountCodec.AccountNode.AssignValues | backend/ent/account.go:221-490 | the loop over the columns writes the fields that the fold over the slots gives, and stops at the first error with the fields assigned so far |
| AccountCodec.ScannedNeverMismatch | backend/ent/account.go:196-490 | slots allocated by scanValues never report a type mismatch, for any list of columns with unknown and repeated names |
| AccountCodec.FieldsAreFolds | backend/ent/account.go:221-490 | every field depends on the slots of its own column only |
| AccountCodec.AssignedFields | backend/ent/account.go:221-490 | for every list of columns, every plain field ends with its last non-null value and otherwise keeps what it had |
| AccountCodec.AssignedId | backend/ent/account.go:226-233 | for every list of columns, the ID takes the last value in its column, wherever that stands, null counting as zero |
| AccountCodec.UnknownColumnsAreSelected | backend/ent/account.go:485-487 | unknown columns, and no others, reach the selected values, where the last slot of a name is kept |
| AccountCodec.DocumentsAreMerged | backend/ent/account.go:283-298 | for every list of columns, a document field is null exactly if its last document is, and otherwise the union of its documents since the last null one, later keys winning |
| AccountCodec.LastDocumentExactly | backend/ent/account.go:283-298 | the field ends with its last document exactly if that is null or has every key held just before |
| AccountCodec.CredentialsMerge | backend/ent/account.go:283-290 | credentials read twice in one row keep the keys of both documents |
| AccountCodec.SpecIsComplete | backend/ent/account_create.go:843-1056 | the create specification holds every value and foreign key of the mutation in its own column and no others, and one edge with all its IDs for every group, child and usage-log edge that was given, and the node shows what the caller asked for |
| AccountCodec.ReadBackColumns | backend/ent/account.go:221-490 | an inserted row can be read back over any list of known columns, in any order and with repetitions: a column that is listed gives what was asked for, any other keeps its zero value |
| AccountCodec.WriteThenRead | backend/ent/account_create.go:825-1093 | reading an inserted row over all columns gives an account field-equal to the node that the create returns and to what the caller asked for, foreign keys of edges included |
| AccountCodec.DefaultedKeeps | backend/ent/account_create.go:645-719 | defaults keep every value that was set and give each other listed field its own default, up to the first one that is unset and has none, where they stop |
| AccountCodec.ComplaintsExactly | backend/ent/account_create.go:722-823 | the checks pass exactly if each of them does, and report the first one that fails |
| AccountDefaults.AcceptedExactly | backend/ent/account_create.go:722-823 | a create passes exactly if every column that is not nullable is set, and the name, level, platform, type, share mode and status, status, window status and quota dimension are valid where they are set |
| AccountCodec.DroppedErrorIsCaught | backend/ent/account_create.go:2567-2575 | whenever the defaults fail with the error that the bulk save drops, the check rejects the same builder |
| AccountCodec.OnlyThreeCanBeMissing | backend/ent/account_create.go:722-823 | after the defaults, only name, platform and type can be reported missing |
| BulkCreate.Bulk.Wrap | backend/ent/account_create.go:2602-2604 | wrapping from the last hook to the first makes hook 0 the outermost |
| BulkCreate.Bulk.Mutate | backend/ent/account_create.go:2564-2611 | calling a mutator over the shared slices has the effect of the specified run; the chain terminates on builders and hooks left |
| BulkCreate.Bulk.RunCore | backend/ent/account_create.go:2568-2601 | the same for the innermost closure of a builder |
| BulkCreate.Bulk.Save | backend/ent/account_create.go:2557-2614 | a bad batch changes nothing, an empty one inserts nothing, and any other is a run of the first mutator over defaulted builders and fresh slices |
| BulkCreate.Bulk.Upsert | backend/ent/account_create.go:3441-3454 | conflict options on a builder, the first one reported, or missing options on the batch stop the upsert before anything happens |
| BulkFacts.ReachExactly | backend/ent/account_create.go:2568-2583 | the run reaches exactly the builders before the first whose hooks refuse it or whose check fails |
| BulkFacts.InsertsExactly | backend/ent/account_create.go:2568-2592 | for all hooks, from any point of the chain: exactly the specifications of the builders that get through are filled in, and the insert happens once or not at all |
| BulkFacts.DoneExactly | backend/ent/account_create.go:2593-2600 | for all hooks: a mutation is done exactly if its core was reached and was told of a success, and the answer is the one computed without any state |
| BulkFacts.NodesExactly | backend/ent/account_create.go:2580-2600 | for all hooks: a builder that got through has the node of its own mutation, with the identifier of its own specification once done, although these are written in reverse order |
| BulkFacts.EnteredInOrder | backend/ent/account_create.go:2602-2611 | hooks are entered in lexicographic order of builder and position, and all of them if every builder gets through |
| BulkFacts.TraceExactly | backend/ent/account_create.go:2564-2611 | the trace is properly bracketed around the insert |
| BulkSave.InsertOnceOrNever | backend/ent/account_create.go:2557-2614 | for all hooks that call the next mutator at most once, there is one insert with all specifications in builder order if every builder gets through, and none otherwise; a single hook that does not call on prevents it |
| BulkSave.HooksAreBracketed | backend/ent/account_create.go:2564-2611 | over a whole save, hooks are left in exactly the reverse of the order in which they are entered, with the insert innermost |
| BulkSave.DoneMeansInserted | backend/ent/account_create.go:2583-2600 | if no hook turns a failure into a success, a done mutation has been inserted, all later ones are done too, and returned nodes mean that all are |
| BulkSave.VerdictIsFirstStop | backend/ent/account_create.go:2575-2595 | with hooks that relay answers, the answer is that of the first refusal or failing check, or of the insert |
| BulkSave.DoneWithoutInsertExactly | backend/ent/account_create.go:2583-2600 | with relaying hooks, a mutation is done without an insert exactly if the hook that stops a later builder answers success |
| BulkSave.SilentRefusal | backend/ent/account_create.go:2583-2600 | a batch of two in which this happens |
| BulkSave.AllOrNothing | backend/ent/account_create.go:2557-2614 | with pass-through hooks: one insert if every check passes and none otherwise; on success all mutations are done and every node carries the ID of its own specification; on any failure none is done, and the error is that of the first failing check, or a constraint error exactly if the insert violates a constraint |
| BulkSave.SaveNew | backend/ent/account_create.go:2557-2614 | the same of the imperative save of a new batch, the empty one included: one insert or none, all done or none, every node with the identifier of its own specification, and the error of the first failing check, or a constraint error exactly if the insert violates a constraint |
| BulkAccounts.DefaultErrorsStopTheBatch | backend/ent/account_create.go:2566-2577 | if the defaults of any builder fail, nothing is inserted, nothing is done and the save reports a failing check |
| BulkAccounts.BatchReadsBack | backend/ent/account_create.go:2593-2600 | after a successful batch, reading back the row of each builder under its identifier gives the returned node of that builder |
| AccountDefaults.DefaultsAreStored | backend/ent/account_create.go:645-719 | after a successful batch, the row of each builder reads back, in every column, as the edge or the value that was given, or else the default of the column |
| AccountDefaults.PlainCreateIsStored | backend/ent/schema/account.go:51-236 | a create that gives a name, a platform and a type only is stored with the defaults of the repository, and with null in every other column |
| AccountDefaults.ZeroExactly | backend/ent/account.go:20-103 | a field that was not read is nil if it is a pointer, and otherwise the zero value of its type |
| BulkAccounts.LinksNeedBothEnds | backend/ent/accountgroup_create.go:111-143 | a batch of account groups is inserted exactly if every builder names an account and a group, and each node has the keys of its own builder, and its priority and time or the defaults |
| AuditExceptions.ParseExceptions | tools/check_pnpm_audit_exceptions.py:23-48 | the parser loop computes the specified reading, and fails exactly if some line opens an item with a text that has no colon |
| AuditExceptions.FailsOnMalformed | tools/check_pnpm_audit_exceptions.py:28-46 | the same from any state of the parser |
| AuditExceptions.StripSplits | tools/check_pnpm_audit_exceptions.py:12-20 | stripping takes white space off both ends of a text and leaves none there |
| AuditExceptions.SplitPrinted | tools/check_pnpm_audit_exceptions.py:12-20 | a key and its value are split back, for plain, single-quoted and double-quoted values and any blanks around the colon |
| AuditExceptions.LoneQuoteIsDropped | tools/check_pnpm_audit_exceptions.py:15-19 | of a value that is a lone quote nothing is left |
| AuditExceptions.LinesOfText | tools/check_pnpm_audit_exceptions.py:27-28 | a text is read line by line, for each of the three line ends, whether or not the last line has one |
| AuditExceptions.RoundTrip | tools/check_pnpm_audit_exceptions.py:12-48 | printing any list of items and parsing the text gives the list back, for every mixture of plain and quoted values, any blanks within the lines, any line end, and any header of comment, version and section lines |
| AuditMarkers.OpensExactly | tools/check_pnpm_audit_exceptions.py:35-46 | a readable line opens an item, whatever was read before, exactly if its stripped text starts with a marker and a blank, and the item then holds exactly the field behind the marker; any other line that is not ignored gives exactly its field to the current item, overwriting an equal key, and changes nothing else |
| AuditMarkers.LoneMarkersMerge | tools/check_pnpm_audit_exceptions.py:31-48 | of any list written with markers on lines of their own, the fields below such a marker are merged into the item above, or lost if there is none |
| AuditMarkers.ReadAsIntendedExactly | tools/check_pnpm_audit_exceptions.py:31-48 | the list is read as it is meant exactly if no marker stands on a line of its own |
| AuditVerdict.IterVulns | tools/check_pnpm_audit_exceptions.py:64-111 | the generator loops yield what the specification of both report formats says, crashes included |
| AuditVerdict.WalkVulnerability | tools/check_pnpm_audit_exceptions.py:82-111 | the two inner loops over the "via" list yield its truthy advisories in order |
| AuditVerdict.WalkCrashesExactly | tools/check_pnpm_audit_exceptions.py:80-111 | walking the vulnerabilities raises an exception exactly if one is no dict or has a "via" dict whose first truthy description is not a string |
| AuditVerdict.PickCrashesExactly | tools/check_pnpm_audit_exceptions.py:51-78 | walking the advisories raises an exception exactly if one is no dict, or has truthy "cves" that cannot be indexed and neither of the preferred identifiers |
| AuditVerdict.ReportCrashesExactly | tools/check_pnpm_audit_exceptions.py:64-111 | the same of a whole report, in both formats |
| AuditVerdict.NumericSourceCrashes | tools/check_pnpm_audit_exceptions.py:101-109 | a finding described by a numeric source only is such a case |
| AuditReport.AdvisoriesAreRead | tools/check_pnpm_audit_exceptions.py:51-78 | every advisory yields one finding in order, with the first truthy one of its two names, its severity, and the first truthy one of its seven identifiers |
| AuditReport.VulnerabilityIsRead | tools/check_pnpm_audit_exceptions.py:80-111 | a vulnerability yields, in order and under its own name and severity, the entries of its "via" with a truthy advisory, each the first truthy one of its five keys |
| AuditReport.UntitledExactly | tools/check_pnpm_audit_exceptions.py:101-109 | an entry stops the gate exactly if the first truthy one of its four descriptions is not a text |
| AuditReport.ReportIsRead | tools/check_pnpm_audit_exceptions.py:64-111 | the findings of a whole report are those of its advisories and then those of its vulnerabilities |
| AuditReport.GetExactly | tools/check_pnpm_audit_exceptions.py:53-60 | looking up a key finds its value, and none if the key does not stand there |
| AuditReport.FalsyExactly | tools/check_pnpm_audit_exceptions.py:53-60 | exactly null, false, zero, and the empty text, list and dict are falsy |
| AuditPolicy.PolicyInWords | tools/check_pnpm_audit_exceptions.py:114-219 | the policy that the gate decides by keys is the one in words: which exceptions are sound, which findings are serious, and what excuses one, with the package as it is and the advisory in lower case |
| AuditPolicy.GateExample | tools/check_pnpm_audit_exceptions.py:51-63 | an advisory with both identifiers is excused under the preferred one, in either case, and neither under the other one nor under a package of another case |
| AuditVerdict.IndexExceptions | tools/check_pnpm_audit_exceptions.py:153-185 | the indexing loop reports no problem exactly if all exceptions are well-formed with distinct normalized keys, and then the index holds exactly them |
| AuditVerdict.CoveredByIndex | tools/check_pnpm_audit_exceptions.py:206-219 | looking a finding up in the index decides whether any exception covers it |
| AuditVerdict.Examine | tools/check_pnpm_audit_exceptions.py:187-219 | the loop over the findings, with its set of seen keys, reports the specified problems, and crashes exactly on a severity that is no string |
| AuditVerdict.FindingsAreExact | tools/check_pnpm_audit_exceptions.py:193-219 | no problem is reported exactly if every relevant finding has an advisory and the first of each key is covered |
| AuditVerdict.Decide | tools/check_pnpm_audit_exceptions.py:153-243 | the verdict over exceptions and findings is the policy `Accepts`, in both directions |
| AuditVerdict.Gate | tools/check_pnpm_audit_exceptions.py:142-243 | the gate passes if and only if the list parses, the report can be walked and the policy accepts |
| AuditVerdict.AcceptsPermuted | tools/check_pnpm_audit_exceptions.py:156-185 | the verdict is unchanged by any permutation of the exceptions |
| AuditOrder.EveryOrderAccepted | tools/check_pnpm_audit_exceptions.py:192-219 | the findings are accepted in every order exactly if every relevant one, not only the first of its key, has an advisory and is covered |
| AuditOrder.SomeOrderAccepted | tools/check_pnpm_audit_exceptions.py:192-219 | they are accepted in some order exactly if every key of a relevant finding is covered at least once |
| AuditOrder.OrderDecidesExactly | tools/check_pnpm_audit_exceptions.py:192-219 | the order decides the verdict exactly if every key is covered but not every finding |
| AuditOrder.VulnOrderMatters | tools/check_pnpm_audit_exceptions.py:192-216 | a family of pairs of findings whose order changes the verdict |
| AuditOrder.VulnOrderExample | tools/check_pnpm_audit_exceptions.py:192-216 | one such pair, for a concrete exception |

## Left out

- Interceptors, privacy rules and the context of a query: taken as identity. Errors of the driver, transactions and constraint details: an insert succeeds or is refused, a read succeeds.
- `sqlgraph` and SQL text: a query returns the rows of a table that meet its predicates, in the requested order, ties in table order; an order term is an integer key of a row.
- `Unique`, `path` and traversal queries (`QueryGroups` and so on), `GroupBy`, `Aggregate`, `Scan`, `Count`: the model starts from a builder without a path. Modifiers are row locks (`ForUpdate`, `ForShare`), which select no rows.
- `First`, `FirstID`, `OnlyID` and the panicking wrappers: limits as in `Only` and `Exist`, no further property. That a scan into a slice of integers fails on more than one column is behaviour of the SQL library.
- Update and delete builders, the fluent setters, announcements and API key group routes as roots: the same templates or one-line forwards.
- Pointer sharing between levels: once a level is loaded its nodes become values, so that two nodes with the same neighbor hold equal neighbors, not the same object.
- The soft-delete filter that the schema adds is one more predicate of a builder.
- Refinement.BatchRefinesLookup: requires unique primary keys, builders without a JOIN left from an earlier run, and no nested limit or offset; with windows on the nested builder of an edge, see the exact conditions in `NestedLimit` and `NestedJoinLimit`, which require that the builders below that one have none.
- NestedLimit.O2MWindowExactly: for neighbors without an ID (account groups) it leaves out a window that has both a limit and an offset, because equally long lists of such rows can look alike.
- NestedJoinLimit.M2MWindowExactly: requires that the join table holds no pair twice, which is its primary key.
- StaleEdges.StaleChildrenExactly: the used tree has neither M2M edges, whose second load is the subject of `Rerun.RerunJoinExactly`, nor limits or offsets.
- StaleEdges.StaleTargetsExactly: the same; and its nodes do not hold the edge yet.
- NestedLimitRun.O2MRunExactly: whole runs with one requested edge; with several, the conditions hold edge by edge (`NestedLimit.O2MWindowExactly`).
- AccountCodec.SpecIsComplete: leaves out the default priority and creation time of the join rows that a group edge carries.
- Rerun.RerunJoinExactly: the panic on a row with one leading column too many is modelled as an error.
- Hooks that call the next mutator more than once, that pass on another mutation object than they were given, or that edit after the call: a hook here hands on its mutation, possibly edited, at most once. One builder twice in a batch is not modelled either.
- `mutation.id` points to the identifier of the node; the model records the identifier in the node only.
- Rounding of decimals and timestamps by the database, the width of integers, and JSON documents beyond string maps: the encoding of documents is a parameter with the law that it can be inverted.
- BulkAccounts.LinksNeedBothEnds: an account group has a field and an edge for each end, which the mutation stores once, so that the two checks on them are one.
- File reading, JSON decoding, argument parsing and message text of the audit gate. Lower-casing, date parsing, `str` of other values and the current date are parameters.
- AuditVerdict.Gate: a crash of the script and a list of problems are told apart in the model; both fail the gate. Which problems are listed for a finding, and in which order, is not stated beyond whether there are any.
- Scheduling, billing, leases and the gateway itself are not part of this model.
