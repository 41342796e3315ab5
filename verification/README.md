# Verified models of the account queries, the bulk create, and the audit gate

This project models three parts of the repository in Dafny and proves what they are for.

**Eager loading of accounts** (`Schema`, `RowCodec`, `Relations`, `NaiveLoad`, `NaiveTrees`, `Nodes`, `EdgeResults`,
`NodeScan`, `AttachToMany`, `AttachToOne`, `JoinOrder`, `JoinResults`, `EagerLoad`, the laws in `LoadMeaning`,
`Projection`, `EdgeAccessors`, `InverseEdges` and `ToManyLaws`, and `LoadSamples`). The generated query code loads an
edge of a whole node list with one batched query, then attaches the neighbours through maps keyed by id, and recurses
into nested `With*` queries. `EagerLoad` is that code on real objects: classes whose `edges` are appended to in loops,
maps of objects, sets of owners that are visited in any order, and joins whose rows the database returns in any order
that the ORDER BY allows. The reference loads every edge of every node with a query of its own, recursively, on values:
`NaiveLoad` in the order of the queries, `NaiveTrees` with every many-to-many list in any order that its ORDER BY
allows. The main theorem is the contract of `EagerLoad.All`: for every database, query tree and field selection, and
whatever order joins come in, the batched code fails exactly if the naive one fails, and only with an invalid field;
otherwise the finished objects form a closed heap whose trees are naive trees. Where the ORDER BY decides, or the
database keeps the order of the neighbours, these are exactly the trees of the reference (`EagerLoad.ExactLoad`). The
errors for unexpected neighbours and nil keys are unreachable. The six blocks of `sqlAll` and the loaders of five
entities are instances of one table-driven model: an edge is a value with an owner, a target, a kind and a key column.
`LoadMeaning` says what comes out edge by edge and column by column, without these tables.

**Bulk create** (`AccountFields`, `BulkChain`, `BulkTrace`, `BulkCreate`, `BulkLaws`, `BulkShared`).
`AccountCreateBulk.Save` builds one mutator per builder, each wrapped in its hooks and each calling the next, with one
batch insert at the bottom. `BulkCreate` is that code on shared arrays and mutation objects; `BulkChain.Mutate` is the
same protocol as a function from states to states, and every method is proved equal to it, also for builders that have
one mutation in common. The laws are about whole runs: which builders reach the insert, what is marked done, in which
order hooks run, what is returned. `BulkShared` has those that hold for all lists of builders, `BulkLaws` those that can
be said of each builder by itself when every builder has a mutation of its own.

**Audit exception gate** (`AuditText`, `AuditParse`, `AuditRoundTrip`, `AuditVulns`, `AuditFindings`, `AuditGate`,
`AuditVerdict`, `AuditMeaning`, `AuditAcceptance`, `AuditOrder`, `AuditReorder`, `AuditMonotone`, `AuditSamples`).
`AuditParse` reads the exceptions file line by line, `AuditVulns` flattens the two audit formats, `AuditGate` indexes
the exceptions and judges the findings. The laws say when a file cannot be parsed, that printed records are read back,
exactly when the gate passes, and how the verdict depends on order, date and contents. Exceptions of the Python code (a
list item without a colon, a title or a severity that is no string) are outcomes of the model.

Where a property is not true of the code as one might state it:

- Dropping the error of `defaults` in `Save` does not by itself keep an incomplete builder from the insert: a hook
  may set the missing fields (`BulkLaws.HooksMaySupplyDefaults`). The insert runs if and only if every builder passes
  its hooks and its check; then every required field is there; and if no hook sets the missing field, nothing is
  inserted.
- With repeated ids in the node list, a to-many load is not the naive one: only the last node of an id gets the
  neighbours. `ToManyLaws.RepeatedIds` gives the exact condition, and `LoadSamples.RepeatedAccountLosesLogs` a database
  in which it fails. Such lists come from path queries with `Unique(false)` (backend/ent/account_query.go:861-865) and
  from modifiers that join; without them a query lists no id twice, and `EagerLoad.All` has no such condition.
  Many-to-one loads are exact for repeated ids, too.
- The rows of a join come in any order, so a many-to-many list can be in another order than the rows of its owner.
  `JoinOrder.JoinOrderIff` says exactly when it is, and `EagerLoad.LinkedListIff` when it differs from the list of the
  reference. `LoadSamples.GroupsMaySwap` gives a database in which an account gets its groups in one order when it is
  loaded alone and in another when it is loaded with a second account. The contents of the list never change.
- The gate compares severities only with the first finding of a key, so its verdict can depend on the order of the
  findings. `AuditOrder.OrderIrrelevantIff` says exactly when it does not for a list of findings, and
  `AuditReorder.AuditOrderIff` for an audit, whose advisories always come before its vulnerabilities.
  Nor does every critical finding need an exception that allows for it (`AuditSamples.SecondSeverityIsNotCompared`); it
  is exempted if and only if the first finding of its key is (`AuditMeaning.PassesIff`).
  `AuditSamples.OrderCanDecide` gives a file and two audits between which only the order decides, and
  `AuditSamples.AdvisoryAlwaysFirst` an audit to which only the first condition applies.

## Model

| member | source | states |
|---|---|---|
| Schema.ColumnsAreValid | backend/ent/account/account.go:132-181 | the column list and the validity check accept the same columns |
| Schema.AccountColumns | backend/ent/account/account.go:132-165 | the 32 columns of an account, in their order |
| Schema.OtherEntityColumns | backend/ent/accountgroup/accountgroup.go:50-55 | the columns of a link row, and those modelled of groups, proxies and usage logs |
| Schema.IntColumns | backend/ent/account.go:168-190 | exactly these columns hold integers |
| Schema.TextColumns | backend/ent/account.go:168-190 | exactly these columns hold texts |
| Schema.TimeColumns | backend/ent/account.go:168-190 | exactly these columns hold times |
| Schema.OtherColumns | backend/ent/account.go:168-190 | exactly these columns hold documents, truth values and fractions |
| Schema.EdgesInOrder | backend/ent/account_query.go:584-624 | the blocks of `sqlAll` of each entity, in their order |
| Relations.StoredRows | backend/ent/accountgroup/accountgroup.go:50-55 | which tables are allowed: all columns with values of their types, ids and link keys set, no id twice, but links may repeat |
| RowCodec.ScanValues | backend/ent/account.go:168-190 | each column gets a destination of its own type, in column order, and `assignValues` accepts it |
| Nodes.Node.AssignValues | backend/ent/account.go:193-418 | fails if and only if there are too few cells or one has the wrong type; otherwise every cell is stored in its field and nothing else changes |
| RowCodec.DecodesRow | backend/ent/account.go:168-418 | scanning any well-typed row and assigning the cells never mismatches, and stores exactly the non-NULL values of the selected columns |
| Nodes.QuerySpec | backend/ent/account_query.go:858-880 | the id comes first and once; without a selection the columns are those of the entity, and otherwise exactly the selected ones, the id, and the foreign keys that the requested edges are known to need |
| Schema.KeysAreValid | backend/ent/accountgroup_query.go:448-467 | the key columns that queries and loaders add are columns of the entity that carries them |
| Nodes.NodeDecodes | backend/ent/account_query.go:563-571 | in whatever order the columns come, the object of a row holds the requested, non-NULL values |
| NaiveLoad.RequestedMeaning | backend/ent/account_query.go:866-880 | which columns count as requested, entity by entity and edge by edge |
| NaiveLoad.OwnIdIsKept | backend/ent/account_query.go:758-760 | the id that a to-many loader reads off a node is the id of its row, whatever was selected |
| NaiveLoad.ForeignKeyIsKept | backend/ent/account_query.go:875-880 | a requested to-one edge finds its foreign key on the node although it was not selected |
| NaiveLoad.ChildKeyIsKept | backend/ent/account_query.go:762-764 | a child carries the key of its parent whatever the sub-query selects |
| NaiveLoad.SubFieldsValid | backend/ent/account_query.go:762-764 | the key that a loader adds never makes a valid selection invalid, nor the other way round |
| NaiveLoad.BatchFails | backend/ent/account_query.go:524-548 | the batched query fails if and only if the own query of some node fails, at any depth |
| Relations.PickOrderBy | backend/ent/account_query.go:858-902 | picking one owner's rows out of an ordered result is ordering the picked rows |
| Relations.BatchedSlice | backend/ent/account_query.go:765-768 | the rows of one key in the result of the batched IN query are the result of the query for that key alone, in order |
| NodeScan.ScanNodes | backend/ent/account_query.go:563-583 | one new object for each row, in order, with the row's fields, the requested edges marked and no edges set |
| NodeScan.AssignJoined | backend/ent/account_query.go:661-670 | a joined row creates an object only if its id was not seen, and in any case adds its owner to the owners of that id |
| NodeScan.ScanJoined | backend/ent/account_query.go:651-671 | the objects are those of the distinct rows in first-row order, and each id has exactly the owners that the join gives it |
| NaiveLoad.FirstRowsDistinct | backend/ent/account_query.go:664-669 | no id gets two objects |
| NaiveLoad.PickFirstRows | backend/ent/account_query.go:627-687 | where the join lists neighbour after neighbour, the rows of one owner among its first rows are that owner's own neighbours, in order, however often link rows repeat |
| AttachToMany.InitEdges | backend/ent/account_query.go:752-761 | every node gets an empty list, the ids are those of the rows, and the map points to the last node of each id |
| AttachToMany.AttachMany | backend/ent/account_query.go:772-783 | fails if and only if some neighbour has no key or a key of no node; otherwise each node's list is the neighbours with its id, in order, and nothing else changed |
| AttachToMany.AppendToAll | backend/ent/account_query.go:682-684 | whatever order the owners are visited in, the neighbour is appended once to the list of each |
| AttachToMany.AttachLinked | backend/ent/account_query.go:677-686 | fails if and only if some neighbour was not linked; otherwise each node's list is the neighbours linked to it, in order |
| AttachToOne.CollectForeignKeys | backend/ent/account_query.go:688-703 | `ids` are the non-nil keys, each once, and `nodeids` groups the nodes by key, in order, repeated nodes ids included |
| AttachToOne.AttachOne | backend/ent/account_query.go:709-719 | fails if and only if some neighbour is not among `ids`; otherwise every node with a matching neighbour points to it and all others are untouched |
| EagerLoad.LoadMany | backend/ent/account_query.go:752-844 | fails if and only if some node's own query does; otherwise the last node of every id has naively loaded children, its namesakes have none, and nothing else changed |
| EagerLoad.LoadOne | backend/ent/account_query.go:688-751 | fails if and only if some node's own query does; otherwise every node has a naively loaded neighbour or none, repeated ids included |
| EagerLoad.LoadManyToMany | backend/ent/account_query.go:627-687 | whatever order the join comes in: fails if and only if some node's own query does; otherwise each node's list are the trees of the rows that the join links to it, in the order of the created objects; no other error occurs |
| EagerLoad.LinkOwners | backend/ent/account_query.go:661-686 | the owners collected for a neighbour are exactly the indexed nodes that the join links to it, in any order of rows |
| EagerLoad.LinkedIsToMany | backend/ent/account_query.go:627-687 | those lists are naively loaded lists of the node's neighbours, in an order that the sub-query allows |
| JoinResults.LinkedIsArranged | backend/ent/account_query.go:627-687 | for any order and repetition of the joined rows, an owner's rows are its own neighbours with the same multiplicity, sorted by the ORDER BY |
| JoinResults.LinkedInOrder | backend/ent/account_query.go:627-687 | if the neighbours first appear in the order of the sub-query, an owner's rows are its own neighbours in that order |
| JoinResults.LinkedOrderIff | backend/ent/account_query.go:627-687 | for a given result, an owner's rows are its own neighbours in the order of its own query if and only if no two of them come first in the result against that order |
| EagerLoad.LinkedListIff | backend/ent/account_query.go:627-687 | the same for the loaded list of trees: it is that of the reference under exactly this condition |
| JoinResults.JoinedFails | backend/ent/account_query.go:627-687 | the joined query fails if and only if the own query of some node does, in any order of rows |
| EagerLoad.ManySlice | backend/ent/account_query.go:752-784 | the neighbours of one node are a slice of the batched result |
| EagerLoad.OneSlice | backend/ent/account_query.go:705-719 | the object a node is pointed to is a naively loaded one of the row that its own query by id finds, or none |
| EagerLoad.PrepareQuery | backend/ent/account_query.go:535-539 | passes if and only if all selected fields exist, and otherwise names the first that does not |
| EagerLoad.LoadEdge | backend/ent/accountgroup_query.go:334-435 | for any entity with a table of valid rows, so distinct ids where it has them, one edge becomes a naive edge of every node |
| EagerLoad.LoadRequested | backend/ent/account_query.go:584-624 | the requested edges are loaded in the fixed order, each on top of the finished ones; a failure is that of the first that fails |
| EagerLoad.LoadEdges | backend/ent/account_query.go:581-625 | after all edges, the nodes deliver naive trees of their rows |
| EagerLoad.All | backend/ent/account_query.go:307-314 | batched nested loading equals per-node loading, in whatever order joins come: same failures, and otherwise finished objects whose trees are naive ones, for every query tree |
| EagerLoad.ExactLoad | backend/ent/account_query.go:550-625 | with the order of many-to-many lists decided by the ORDER BY or kept by the database, the loaded trees are exactly those of the reference |
| LoadMeaning.FetchIsExact | backend/ent/account_query.go:858-902 | a query returns every admitted row as often as it is stored, sorted by its ORDER BY |
| LoadMeaning.FetchIsStable | backend/ent/account_query.go:858-902 | rows that the ORDER BY does not tell apart come in table order |
| LoadMeaning.DeliversObjects | backend/ent/account_query.go:550-626 | what `All` delivers are objects for the rows of the query, one by one, to which the following laws apply at every depth |
| LoadMeaning.FieldsAreLoaded | backend/ent/account_query.go:858-880 | an object has every non-NULL column of its row if nothing was selected, otherwise the selected ones, the id and the keys of the requested edges, with the stored values, and nothing else |
| LoadMeaning.ProxyOfAccount | backend/ent/account/account.go:101-106 | an account points to the stored, admitted proxy whose id is its `proxy_id`, and to nothing if there is none |
| LoadMeaning.ParentOfAccount | backend/ent/account/account.go:107-110 | the same for the account whose id is its `parent_account_id` |
| LoadMeaning.ChildrenOfAccount | backend/ent/account/account.go:111-114 | the children are exactly the stored, admitted accounts whose `parent_account_id` is its id, sorted by the ORDER BY |
| LoadMeaning.LogsOfAccount | backend/ent/account/account.go:115-121 | the usage logs are those whose `account_id` is its id |
| LoadMeaning.LinksOfAccount | backend/ent/account/account.go:122-128 | the link rows are those whose `account_id` is its id, as often as they are stored |
| LoadMeaning.GroupsOfAccount | backend/ent/account/account.go:167-171 | the groups are those that some link row connects with it |
| LoadMeaning.AccountOfLink | backend/ent/accountgroup/accountgroup.go:32-39 | a link row points to the account that its `account_id` names |
| LoadMeaning.GroupOfLink | backend/ent/accountgroup/accountgroup.go:40-46 | a link row points to the group that its `group_id` names |
| LoadMeaning.AccountsOfGroup | backend/ent/group_query.go:688-694 | the accounts of a group are those that some link row connects with it |
| LoadMeaning.LinksOfGroup | backend/ent/group_query.go:702-708 | the link rows of a group are those whose `group_id` is its id |
| LoadMeaning.AccountsOfProxy | backend/ent/proxy_query.go:473-479 | the accounts of a proxy are those whose `proxy_id` is its id |
| LoadMeaning.AccountOfLog | backend/ent/usagelog_query.go:560-565 | a usage log points to the account that its `account_id` names |
| NaiveTrees.OneNaiveTree | backend/ent/account_query.go:550-625 | with the order decided there is only one naive tree, at every depth |
| NaiveTrees.NaiveNodeIsNaive | backend/ent/account_query.go:550-625 | the tree loaded node by node in query order is always a naive tree |
| Projection.ProjectionKeepsEdges | backend/ent/account_query.go:762-764 | what may be loaded with a field selection is exactly what may be loaded without, with unrequested fields blanked at every level: same entities, same order |
| ToManyLaws.ManyIsPartition | backend/ent/account_query.go:752-784 | with distinct ids, the lists are the slices of the batched result and their lengths add up to its length |
| ToManyLaws.RepeatedIds | backend/ent/account_query.go:755-757 | with repeated ids, the results of a to-many load are naive ones if and only if no node with a later namesake has neighbours |
| LoadSamples.RepeatedAccountLosesLogs | backend/ent/account_query.go:785-814 | a database with an account listed twice, whose first object gets no usage logs although there is one |
| JoinOrder.AnyJoinOrder | backend/ent/account_query.go:652-686 | for any order and repetition of joined rows, an owner gets exactly the rows linked to it, each once |
| JoinOrder.JoinOrderIff | backend/ent/account_query.go:652-686 | an owner's list is in the order of its own joined rows if and only if no two of its targets come first in opposite orders in the whole result and among its own rows |
| JoinOrder.GroupedJoinOrder | backend/ent/account_query.go:652-686 | so it is if the rows of each neighbour come together |
| LoadSamples.GroupsMaySwap | backend/ent/account_query.go:627-687 | two stored accounts and what the database returns for their groups: on the second account they come in another order than its own rows have, and than loading that account alone yields |
| InverseEdges.InverseEdgesAgree | backend/ent/account_query.go:720-784 | querying children of parents and parents of children finds the same pairs, with the same multiplicities, in whatever order each query sorts |
| InverseEdges.LoadedEdgesAgree | backend/ent/account_query.go:581-624 | the `Children` edges of the objects that one query delivers and the `Parent` edges of those that the other delivers hold the same (parent, child) pairs, equally often |
| EdgeAccessors.ToOneOutcome | backend/ent/account.go:118-138 | "not loaded" if and only if not requested, "not found" if and only if requested and the key is nil or names no admitted row, otherwise the object of that row |
| EdgeAccessors.ToManyOutcome | backend/ent/account.go:109-165 | "not loaded" if and only if not requested, otherwise the objects of all neighbours in an order the query allows |
| AccountFields.DefaultsMeaning | backend/ent/account_create.go:527-585 | set fields stay, values come only from the defaults, and the walk stops at the first field that is unset and has no default, with all fields in front of it set |
| AccountFields.DefaultsFieldByField | backend/ent/account_create.go:527-585 | each unset one of the eleven fields gets its own default, nothing else changes, and the error names the first of the four default functions that is needed and nil |
| AccountFields.DefaultsTwice | backend/ent/account_create.go:527-585 | a second call of `defaults` changes nothing |
| AccountFields.StoppedDefaultsFailCheck | backend/ent/account_create.go:527-662 | where `defaults` stops, `check` on the same fields fails |
| BulkCreate.AccountCreate.Defaults | backend/ent/account_create.go:527-585 | each unset field gets the default of that very field, set fields stay, all eleven are set unless one of four default functions is nil, and the error names the first of these that is needed |
| BulkCreate.AccountCreate.Check | backend/ent/account_create.go:588-662 | passes if and only if the fourteen required fields are set and the five texts and the quota dimension are valid; otherwise the error is that of the first block of the source that fails |
| AccountFields.CheckedFieldByField | backend/ent/account_create.go:588-662 | the check used in the laws about whole runs is this one |
| AccountFields.BuildSpec | backend/ent/account_create.go:682-803 | writes the set fields and keys, in order, and puts the same ones on the node |
| AccountFields.SpecMeaning | backend/ent/account_create.go:682-857 | the set keys of the proxy and the parent go into the spec as edges, all other set columns as fields |
| AccountFields.SpecInOrder | backend/ent/account_create.go:682-857 | both in the order in which the columns are declared |
| AccountFields.WritesEverything | backend/ent/account_create.go:682-857 | every column but the id is written, as a field or as a foreign key edge |
| AccountFields.NodeHasAllFields | backend/ent/account_create.go:682-857 | the node that `createSpec` returns has every set field |
| AccountFields.CreatedRowReadsBack | backend/ent/account_create.go:682-857 | reading the inserted row back in any column order yields the fields of that node, and the id |
| BulkChain.MutateEffect | backend/ent/account_create.go:2106-2138 | the effect of every run of the chain over separate mutations: which specs are inserted, whose mutations are done, what is left alone, when it succeeds |
| BulkCreate.AccountCreateBulk.BuildChain | backend/ent/account_create.go:2140-2142 | the wrapping loop puts hook 0 outermost |
| BulkCreate.AccountCreateBulk.PrepareAll | backend/ent/account_create.go:2102-2145 | every mutation has its defaults, once, and every mutator is its builder's chain, also where builders share a mutation |
| BulkCreate.BulkRun.RunInsert | backend/ent/account_create.go:2121-2130 | one call with the shared specs, which get the returned ids |
| BulkCreate.BulkRun.Invoke | backend/ent/account_create.go:2106-2142 | calling a mutator on the shared arrays and objects does what the specification function says |
| BulkCreate.AccountCreateBulk.Save | backend/ent/account_create.go:2095-2152 | the objects, the specs, the inserts and the result are those of the specification of a whole run |
| BulkTrace.InsertIsInnermost | backend/ent/account_create.go:2117-2142 | at the insert, the hooks of all builders are under way, in list order, builder 0 outermost |
| BulkTrace.RunsAreWellNested | backend/ent/account_create.go:2106-2142 | every run goes down a prefix of that path and then only returns, inner hooks first |
| BulkLaws.InsertRunsIffEveryBuilderPasses | backend/ent/account_create.go:2099-2151 | at most one insert; it runs if and only if every builder passes its hooks and its check, with one spec per builder from that builder's own checked fields |
| BulkLaws.NothingDoneWithoutInsert | backend/ent/account_create.go:2132-2137 | without a successful insert nothing is marked done, no id changes, and `Save` reports an error |
| BulkLaws.DoneIsSuffix | backend/ent/account_create.go:2116-2138 | the mutations marked done are a suffix of the builders, and all of them on success |
| BulkLaws.SaveSucceedsIff | backend/ent/account_create.go:2095-2152 | success if and only if every builder passes, the insert succeeds and no hook complains after it |
| BulkLaws.SavedNodes | backend/ent/account_create.go:2132-2151 | on success, node `k` has the fields inserted for builder `k` and the id the database returned for it |
| BulkLaws.StoppedDefaultsNeverInsert | backend/ent/account_create.go:2105-2113 | if `defaults` stopped and no hook sets that field, nothing is inserted and nothing is done |
| BulkLaws.HooksMaySupplyDefaults | backend/ent/account_create.go:2105-2113 | a run in which a hook supplies what `defaults` did not, and the insert runs |
| BulkShared.AnySave | backend/ent/account_create.go:2095-2152 | for all lists of builders: one insert if and only if all builders get through one after the other, exactly of the specs of the checked fields that each builder had at its turn; success if and only if that insert succeeds and all hooks are content with the final mutations; no marks change without a successful insert |
| BulkShared.AnySavedNodes | backend/ent/account_create.go:2132-2151 | on success, every node has the fields inserted for its builder and the returned id; every mutation is done and has the id of its first builder |
| BulkShared.InsertedSpecsAreComplete | backend/ent/account_create.go:2105-2113 | no spec reaches the insert without a value for each of the fourteen required fields |
| BulkShared.InsertedSpecsAreValid | backend/ent/account_create.go:2105-2113 | every inserted name, platform, type, status and window status was accepted by its validator, and the quota dimension is "global" or "spark" |
| BulkShared.DefaultsAreInserted | backend/ent/account_create.go:2102-2105 | without hooks, each builder's fields are inserted with every unset one of the eleven at its own default |
| BulkShared.SaveTrace | backend/ent/account_create.go:2095-2152 | the trace of a whole `Save` is well nested, and exact on success |
| BulkShared.ValuesAreCoherent | backend/ent/account_create.go:2103-2104 | the mutations read through the builders are as these laws require |
| AuditText.StripSplits | tools/check_pnpm_audit_exceptions.py:15-20 | `strip` takes spaces off both ends and nothing else |
| AuditText.SpaceCodes | tools/check_pnpm_audit_exceptions.py:15-29 | the code points that `strip` takes for spaces |
| AuditText.LineEnds | tools/check_pnpm_audit_exceptions.py:27-28 | a line may also end in a carriage return, with or without a newline, and the last one in nothing |
| AuditParse.ParseExceptions | tools/check_pnpm_audit_exceptions.py:23-48 | the parsing loop computes the specification function |
| AuditParse.HeadersDoNothing | tools/check_pnpm_audit_exceptions.py:29-33 | blank lines, comments and lines that start with one of the two headers do nothing |
| AuditParse.ParserStopsIff | tools/check_pnpm_audit_exceptions.py:35-42 | parsing stops with an exception if and only if some list item has no colon |
| AuditParse.OneRecordPerItem | tools/check_pnpm_audit_exceptions.py:35-48 | every list item becomes exactly one record, and no record is empty |
| AuditParse.SkippedLinesVanish | tools/check_pnpm_audit_exceptions.py:31-34 | blank lines, comments and headers can stand anywhere without changing the result |
| AuditParse.ValuesAreLines | tools/check_pnpm_audit_exceptions.py:12-48 | no value of a parsed record has a newline in it, whatever the file |
| AuditRoundTrip.SplitEntryText | tools/check_pnpm_audit_exceptions.py:12-20 | a plain, single-quoted or double-quoted value survives with its colons, quotes, `#` and outer spaces |
| AuditRoundTrip.SplitPaddedText | tools/check_pnpm_audit_exceptions.py:12-20 | so does it with any spaces around the key and the value |
| AuditRoundTrip.UnquoteOddTexts | tools/check_pnpm_audit_exceptions.py:15-19 | a single quote character is an empty text, and a value that is not quoted on both sides stays |
| AuditRoundTrip.EntryLineParses | tools/check_pnpm_audit_exceptions.py:31-45 | a line adds its entry if its key is plain, and otherwise starts a record or is skipped |
| AuditRoundTrip.FileRoundTrip | tools/check_pnpm_audit_exceptions.py:12-48 | a file with any list of printable records, in any mix of quoting and indentation, parses to that list |
| AuditVulns.AdvisoryPreference | tools/check_pnpm_audit_exceptions.py:51-78 | an advisory's id, name and title are the first usable ones in the order of preference, or the last one if none is |
| AuditVulns.ItemPreference | tools/check_pnpm_audit_exceptions.py:87-102 | the same for an item of `via` |
| AuditVulns.IterVulns | tools/check_pnpm_audit_exceptions.py:64-111 | the two loops yield the specified findings, or stop |
| AuditFindings.FindingsMeaning | tools/check_pnpm_audit_exceptions.py:64-111 | it stops if and only if some item has a title that is no string; otherwise it finds one finding per advisory and one per item with a usable id, and nothing else |
| AuditFindings.FindingsCount | tools/check_pnpm_audit_exceptions.py:64-111 | each finding comes as often as there are advisories and items for it |
| AuditFindings.FindingsInOrder | tools/check_pnpm_audit_exceptions.py:81-111 | the findings of vulnerabilities come vulnerability by vulnerability, and any that stops stops all |
| AuditFindings.TitlesAreJoined | tools/check_pnpm_audit_exceptions.py:109 | titles are joined with a semicolon and a space |
| AuditFindings.SameEntriesSameFindings | tools/check_pnpm_audit_exceptions.py:64-111 | audits that differ in order and number of entries and items yield the same findings, titles aside |
| AuditGate.FindMissing | tools/check_pnpm_audit_exceptions.py:157-162 | no missing fields if and only if all required fields have a value |
| AuditGate.BuildIndex | tools/check_pnpm_audit_exceptions.py:156-189 | the index loop computes the specified index and errors |
| AuditGate.JudgeFindings | tools/check_pnpm_audit_exceptions.py:190-219 | the verdict loop computes the specified tally |
| AuditGate.RunGate | tools/check_pnpm_audit_exceptions.py:142-243 | the whole tool computes the specified outcome |
| AuditVerdict.IndexKeys | tools/check_pnpm_audit_exceptions.py:156-189 | the index holds exactly the keys of well-formed exceptions |
| AuditVerdict.IndexMeaning | tools/check_pnpm_audit_exceptions.py:179-189 | each key has what its first well-formed exception grants |
| AuditVerdict.IndexErrorsIff | tools/check_pnpm_audit_exceptions.py:156-189 | no errors if and only if all exceptions are well formed with distinct keys |
| AuditVerdict.MissingMeaning | tools/check_pnpm_audit_exceptions.py:203-210 | the report lists exactly the first finding of each key that is not indexed |
| AuditVerdict.ExpiredMeaning | tools/check_pnpm_audit_exceptions.py:216-219 | the report lists exactly the first finding of each key whose exception has expired |
| AuditVerdict.ErrorsMeaning | tools/check_pnpm_audit_exceptions.py:197-215 | exactly the blocking findings without id, and the first findings whose exception names another severity, are errors |
| AuditVerdict.ValidatedIff | tools/check_pnpm_audit_exceptions.py:142-243 | the gate passes if and only if the files can be read, exceptions are well formed with distinct keys, blocking findings have ids, and the first finding of each key has an unexpired exception of no or the same severity |
| AuditMeaning.PassesIff | tools/check_pnpm_audit_exceptions.py:114-243 | the same in terms of the texts: the five fields, the date, stripped packages, lower-cased advisories and severities, and just "high" and "critical" |
| AuditMeaning.StopsIff | tools/check_pnpm_audit_exceptions.py:14-48 | the tool stops with an exception if and only if a list item has no colon, a title is no string, or a severity is no string |
| AuditMeaning.PassedIsExempted | tools/check_pnpm_audit_exceptions.py:193-219 | in an audit that passes, every finding that is high or critical in any case has an unexpired exception for its package and advisory, which names no severity or that of the first such finding |
| AuditMeaning.AdvisoryIsExempted | tools/check_pnpm_audit_exceptions.py:66-78 | so has every advisory with a usable name |
| AuditMeaning.ItemIsExempted | tools/check_pnpm_audit_exceptions.py:80-111 | so has every item of `via` with a usable identifier |
| AuditMeaning.IndexErrorsMeaning | tools/check_pnpm_audit_exceptions.py:156-181 | each exception that is not usable has the one error that fits it, in order |
| AuditSamples.SecondSeverityIsNotCompared | tools/check_pnpm_audit_exceptions.py:204-215 | an audit that passes with a critical advisory although the exception names "high", because a high advisory for the same package and identifier comes first |
| AuditVerdict.AcceptsUntitled | tools/check_pnpm_audit_exceptions.py:190-219 | titles do not matter for the verdict |
| AuditAcceptance.AcceptableIff | tools/check_pnpm_audit_exceptions.py:142-243 | some text of an exceptions file makes an audit pass if and only if titles and severities can be read, blocking findings have ids and package names, all without newlines, and a date lies ahead |
| AuditOrder.ExceptionOrderIsIrrelevant | tools/check_pnpm_audit_exceptions.py:156-189 | permuting the exceptions never changes whether the gate passes |
| AuditOrder.OrderIrrelevantIff | tools/check_pnpm_audit_exceptions.py:202-215 | the order of a list of findings is irrelevant for all exceptions files if and only if severities agree per key, or no file can make the gate accept the findings |
| AuditReorder.AuditOrderIsIrrelevant | tools/check_pnpm_audit_exceptions.py:190-219 | reordering or repeating the entries of an audit, or the items of an entry, does not change whether the gate passes, if the findings that can come first for a key agree on the severity |
| AuditReorder.AuditOrderIff | tools/check_pnpm_audit_exceptions.py:64-111 | no exceptions file tells an audit from a reordered one if and only if it cannot be read, or the advisories of each key agree on the severity and so do the vulnerabilities of each key without an advisory, or no file can make it pass; then items and repetitions do not matter, either |
| AuditSamples.OrderCanDecide | tools/check_pnpm_audit_exceptions.py:202-215 | one file and two audits with the same advisories, of which one passes and one fails |
| AuditSamples.AdvisoryAlwaysFirst | tools/check_pnpm_audit_exceptions.py:64-111 | an advisory and a vulnerability of one key and two severities: the order of the findings would matter, but no order of the audit changes it |
| AuditMonotone.PassesEarlier | tools/check_pnpm_audit_exceptions.py:216-219 | what passes today would have passed on any earlier day |
| AuditMonotone.PassesWithMoreExceptions | tools/check_pnpm_audit_exceptions.py:156-189 | what passes still passes with one more well-formed exception with a new key, anywhere |
| AuditMonotone.FindingsDropped | tools/check_pnpm_audit_exceptions.py:64-111 | taking a key out of an audit, advisories and single items alike, takes out exactly its findings, titles aside |
| AuditMonotone.PassesWithoutKey | tools/check_pnpm_audit_exceptions.py:190-219 | what passes still passes when a vulnerability key is taken out of the audit |

## Left out

Eager loading:

- SQL text, dialects, transactions and the driver: a query is "the rows of the table that match, in order". The
  database is assumed to obey its schema (types, NOT NULL, primary keys); link rows may repeat.
- Limit and offset, which apply to the batch and not to each node; path queries, `Unique`, modifiers, and selected
  values that are no columns.
- Interceptors and predicates are one pure row filter, the ORDER BY is a sort by a rank. Outside joins, rows that rank
  the same come in table order.
- A query builder is a value. That loading adds a predicate and a key column to the sub-query builder for good, so
  that running it twice would see both, is not modelled.
- Of the entities around Account only the edges among Account, AccountGroup, Group, Proxy and UsageLog are modelled,
  and only some of the columns of Group, Proxy and UsageLog.
- Integers are unbounded, times are instants, and a JSON column is an opaque text: decoding it is not modelled.

Bulk create:

- BulkLaws.InsertRunsIffEveryBuilderPasses: for builders with mutations of their own, like the other laws of `BulkLaws`
  and `BulkChain.MutateEffect`; `BulkShared.AnySave` has the condition and the batch for builders that share one.
- BulkLaws.SavedNodes: the same; where builders share a mutation, later hooks change the fields after an earlier spec
  was built, and the mutation keeps the id of its first builder (`BulkShared.AnySavedNodes`).
- BulkLaws.SaveSucceedsIff: the same; `BulkShared.AnySave` has the condition for builders that share one.
- A hook is assumed to pass on the mutation it was given, to call its successor at most once, and to pass its error
  on; it may edit fields, return an error first, or return an error after a success. Hooks that replace the mutation
  would make `check` look at another mutation than `createSpec`.
- Clock and default values, validators and the batch insert are parameters. Columns that are not written are NULL
  in the inserted row. Many-to-many and one-to-many edges of a create, conflict options, upserts, setters, and
  the single `Save` are not modelled.

Audit gate:

- Reading files, arguments and JSON: the text of the exceptions file and the audit as data are the input. A part of
  an audit that is no dictionary has no entries; advisories and vulnerabilities themselves are taken to be dictionaries.
- `str.lower`, `date.fromisoformat` and today are parameters, and the laws hold for all of them. For
  `AuditOrder.OrderIrrelevantIff`, `AuditReorder.AuditOrderIff` and `AuditAcceptance.AcceptableIff`, lower-casing is
  assumed to leave the empty string, "high" and "critical" alone and neither to make nor to remove newlines.
- Error texts: errors are values that name the exception or finding.
- When a run stops with an exception, the outcome says so and no more.
