# DatoriumDB, verified model

DatoriumDB is a sharded document store. Searches are precompiled into bucket files, writes are distributed
afterwards by a change agent, and schemas, attachments and replicas have protocols of their own. This project
models those protocols in Dafny and proves what they promise, over all inputs, all runs and all crash points.
`dafny verify dfyconfig.toml` checks everything.

The files follow the program:

- `SearchPath`, `SearchEvaluate`, `SearchQuery`: from documents and queries to bucket paths.
- `SearchSort`, `SearchStore`: the order of a bucket file and its in-place updates.
- `ShardMap`: slot ranges, lookup in any map order, who must be told of a change.
- `DocumentStore`, `SearchIndex`, `StaleListings`, `ChangeAgent`: live documents, dotfiles and markers; the index as
  a state machine over writes, drains and interrupted drains; two runs that go wrong; the agent code that refines
  the machine.
- `EndToEnd`: commands and agent work interleaved, and what a search then answers.
- `Engine`, `Replication`, `Push`: create, patch and delete under the lock; a member following a source of
  truth; pushes in any completion order and their resumption.
- `Attachments`: journalled commits and deletes with a crash between any two file operations, and recovery.
- `Schema`, `SchemaPatch`, `SchemaShape`, `SchemaCommute`, `SchemaMisfits`, `SafeUpdates`, `SchemaEffect`, `Upgrade`, `Migrate`: one update list
  read twice, on schemas and on documents; the updates that go wrong and those that are right for every document;
  the version history; migration. Fitting a schema has two readings: on kinds alone, and in full, where required
  fields must be there as well. Rows that name neither hold for both.
- `DocJson`: the canonical field order. `JsonPatch`: the JSON Patch subset. `Names`: names that carry identities.
- `Json`: decoded JSON and the few Go library functions the rest relies on.

Code that updates variables or files step by step is a method or a class here, proved against a function on
values; the theorems are about those functions. A nondeterministic choice stands for map iteration order, for
the completion order of concurrent pushes, and for a remote call that fails before or after taking effect.

## Where the code and its promises part

- Index: `tech-docs/AGENT-FOR-CHANGE-DISTRIBUTION.md` says an entry in an old or incorrect search file is
  removed. The code removes entries only from the buckets of the dotfile. A drain cut short and followed by
  another write can leave an entry that nothing removes: `SearchIndex.WriteAfterCutIff` says exactly when, for
  every kind of write, and `StaleListings` holds a run with a patch and one with a delete. The run theorems hold
  for all runs and name such documents `overwritten`; `SearchIndex.OverwrittenIsDisturbed` reads them off the
  steps. They may be listed too often, never too rarely.
- Array search: `tech-docs/SEARCHING-V1-array.md` says `contains` encodes by the item kind of the schema. The code
  infers the kind from each value, so a number can find a string and a string a number
  (`SearchQuery.ContainsAgreesIff`, `SearchQuery.NumberFindsString`, `SearchQuery.StringFindsNumber`).
- Sort: a missing sort value is compared as if after null but stored as null. The order is kept if and only if no
  known value follows a missing one (`SearchStore.OrderKeptIff`). Only the server of the agent misplaces: any other
  holder rebuilds the values from the stored form.
- Replication: the applier is called idempotent. That holds for repeated deliveries in order; a late delivery
  can bring an old version back (`Replication.RedeliveryHarmlessIff`, `Replication.LateItemBringsBack`), and a patch
  that fails can take the live document away (`Replication.FailureLosesIff`, `Replication.PatchLosesDocument`).
- Create: the field "RFC6902" of a create is left out of the schema check but stored (`Engine.CheckedIsStoredIff`,
  `Engine.UncheckedIsStored`).
- Attachments: one crash window leaves a manifest entry without its bytes (`Attachments.ConsistentIff`,
  `Attachments.CutUpdateLeavesMismatch`).
- Schema updates: `tech-docs/UPDATE-SCHEMA.md` says that an imported value that does not match the new schema is
  removed, that items are converted when an item schema is added, and that a value in the way of a move is
  discarded. The code compares top-level kinds only, keeps arrays and objects as they are, and leaves the
  destination alone when the source is absent. `SchemaCommute.OpCommutesIff` says for every update exactly when the
  document still fits, at every depth; `SafeUpdates.AlwaysCommutesIff` says which updates are right for every document; `SchemaMisfits.ImportIff`, `ConvertIff`, `AddIff` and
  `WithoutSourceIff` say it for the single updates, and `ImportKeepsMisfit`, `ImportKeepsItems`, `ConvertKeepsItems`,
  `CopyOntoUntracked` and `AddMakesHollowObject` are inputs that go wrong.
- Schema updates: the same document says conversion should not fail. A replace without a value is accepted for the
  schema and then fails for every document; nothing else in an update list fails (`SchemaCommute.ListFailsIff`,
  `Migrate.MigrationFailsIff`, `SchemaMisfits.ValuelessReplaceFails`).
- JSON Patch: a failed move loses its source (`JsonPatch.FailureChangesIff`, `JsonPatch.MoveIntoItselfLoses`).
- Names: a hyphen in an attachment name can send a work item to the wrong pending file (`Names.ReachedIff`,
  `Names.HyphenMisleadsExample`).

## Model

| member | source | states |
|---|---|---|
| `SearchPath.PointerGet` | internal/search/path.go:60-82 | The cursor loop returns the value a field path leads to, or nothing. |
| `SearchPath.FieldByParent` | internal/search/path.go:60-82 | A written path is read through its parent: the empty path is the document; below an object the last part is a field name, below an array a position, and below anything else there is nothing. |
| `Json.AtoiSigned` | internal/search/path.go:60-82 | Positions as strconv.Atoi reads them: digits after an optional sign, nothing else. |
| `Json.ItoaDigits` | internal/agents/upgrade/migrate.go:20-31 | Decimal notation of the version in a marker. |
| `SearchPath.Utf8Injective` | internal/search/path.go:88-93 | UTF-8 is a prefix code: strings with the same bytes are the same string. |
| `SearchPath.EncodeStringInjective` | internal/search/path.go:88-93 | Two strings with the same path component are the same string; in particular no string is encoded as the word used for the empty one. |
| `SearchPath.EncodeStringDecodes` | internal/search/path.go:88-93 | A component is upper-case hex of bytes that decode, by section 3 of RFC 3629, to the string; the empty string is the word "empty". |
| `SearchPath.ScalarComponents` | internal/search/path.go:120-144 | The words and texts of null, booleans and numbers; arrays and objects have no component. |
| `SearchPath.EncodeScalarInjective` | internal/search/path.go:120-144 | A component determines the scalar, unless a string is compared with a number. |
| `SearchPath.ShardInputInjective` | internal/search/path.go:199-201 | Bucket paths made of components are told apart by their joined form, the index key of the change agent. |
| `SearchEvaluate.CollectComponents` | internal/search/evaluate.go:199-224 | The loop with its seen set yields the components of the indexable array items in first-occurrence order, none twice. |
| `SearchEvaluate.ComponentsAreItems` | internal/search/evaluate.go:199-224 | A component is offered exactly when some item of the array is indexed under it. |
| `SearchEvaluate.ComponentsInOrder` | internal/search/evaluate.go:199-224 | Components stand in the order of their first items. |
| `SearchEvaluate.ExpandBuckets` | internal/search/evaluate.go:62-90 | The nested loops compute the product of the clause outcomes, early return included. |
| `SearchEvaluate.ExpandIsProduct` | internal/search/evaluate.go:62-90 | A path is a bucket exactly when it picks one option from every contributing clause, in order. |
| `SearchEvaluate.EvaluateDocument` | internal/search/evaluate.go:44-60 | The clause loop computes the buckets of a document, with its errors and its stop at the first excluding clause. |
| `SearchEvaluate.ClauseOutcome` | internal/search/evaluate.go:92-224 | For every clause and document: exactly when the clause fails, when it keeps the document, and which components it then offers, from the field value alone. |
| `SearchEvaluate.EvaluationFailsIff` | internal/search/evaluate.go:44-60 | Evaluation fails exactly when a clause fails on a document that passed all earlier ones, and takes the document in exactly when it passes all. |
| `SearchEvaluate.BucketComponents` | internal/search/evaluate.go:44-60 | Every segment of every bucket of a document is a nonempty component without a slash. |
| `SearchQuery.ResolveQueryPath` | internal/search/query.go:15-27 | The append loop computes the bucket path of a query or fails with its first failing clause. |
| `SearchQuery.ClauseResolvesIff` | internal/search/query.go:29-167 | A clause resolves to a component exactly when the request binds its variable, written with or without the dollar sign, to a value that gives it; for each of equals, in, exists and contains. |
| `SearchQuery.QueryResolvesIff` | internal/search/query.go:15-27 | A query resolves to a path exactly when the path holds the components of its clauses in order. |
| `SearchQuery.QueryFailsIff` | internal/search/query.go:15-27 | It fails exactly when the bindings leave some clause unresolved. |
| `SearchQuery.SameSegments` | internal/search/query.go:29-146 | Evaluation and query resolution agree, clause by clause, on whether a segment is contributed. |
| `SearchQuery.ClauseAgrees` | internal/search/query.go:29-146 | A clause holds of a document under a binding exactly when the document is kept and the segment the query asks for is among those offered, with the same exception. |
| `SearchQuery.BucketIsQuery` | internal/search/query.go:15-146 | The path a query resolves to is among the buckets of a document if and only if the document satisfies every clause directly, unless an array item of the other kind stands in for a bound value. |
| `SearchQuery.OfferedIff` | internal/search/evaluate.go:199-224 | For any indexable binding and any array, the array offers the component of the binding exactly when the binding is an item or an item of the other kind, string or number, has the same component. |
| `SearchQuery.ContainsAgreesIff` | internal/search/query.go:117-137 | So the index answers a contains variable rightly if and only if the value is an item or no item of the other kind shares its component. |
| `SearchQuery.ExactEverywhereIff` | internal/search/query.go:117-137 | Searching for a value is right in every array if and only if no value of the other kind shares its component. |
| `SearchQuery.NumberInStringsIff` | internal/search/query.go:117-137 | Searching arrays of strings for a number is right for all such arrays if and only if the text of the number is not the hex form of a string. |
| `SearchQuery.StringInNumbersIff` | internal/search/query.go:117-137 | Searching arrays of numbers for a string is right for all such arrays if and only if the hex form of the string is not the text of a number. |
| `SearchQuery.NumberFindsString` | internal/search/query.go:117-137 | The number 41 is offered by an array holding the string "A". |
| `SearchQuery.StringFindsNumber` | internal/search/query.go:117-137 | The string "A" is offered by an array holding the number 41. |
| `SearchSort.CompareStoredSort` | internal/search/sort.go:88-103 | The index loop computes the lexicographic comparison under the directions. |
| `SearchSort.CompareIsOrder` | internal/search/sort.go:88-151 | On keys of one kind per field the comparison is negative exactly when, at the first position that is not level, the first key holds a known value before a null, or the smaller value (larger when descending) in the natural order of strings, booleans and numbers. |
| `SearchSort.RuneOrderIsByteOrder` | internal/search/sort.go:124-151 | Comparing strings rune by rune is comparing the bytes of their UTF-8 form. |
| `SearchSort.KeyOrderIsDocumentOrder` | internal/search/sort.go:25-103 | Comparing stored keys is the order of the documents read from their fields: in the first sort field that is not level one shows a value and the other none, or the smaller one (larger when descending); "/!" shows the id. |
| `SearchSort.KeysFlip` | internal/search/sort.go:88-151 | On keys of one kind per field the comparison is antisymmetric, so any two keys are ordered one way or the other. |
| `SearchSort.KeysTrans` | internal/search/sort.go:88-151 | It is transitive, strictly so when either step is strict. |
| `SearchSort.NullsLast` | internal/search/sort.go:105-122 | A null comes after every known value in both directions. |
| `SearchSort.TiesShareStrings` | internal/search/sort.go:124-151 | Keys that tie have equal strings in every string field. |
| `SearchSort.StoredRoundTripIff` | internal/search/sort.go:53-81 | The stored form of a sort key reads back as the key if and only if nothing in it is missing. |
| `SearchSort.PlacedAsStored` | internal/search/sort.go:15-103 | A candidate without a known value after a missing one is placed exactly as its stored form would be. |
| `SearchStore.ResultFile.IndexOf` | internal/search/store.go:61-68 | Finds the first item with an id, or reports that there is none. |
| `SearchStore.ResultFile.Remove` | internal/search/store.go:71-78 | Shifts one item out in place and reports whether there was one. |
| `SearchStore.ResultFile.Upsert` | internal/search/store.go:86-109 | Finds the insertion point and shifts in place; reports no change when an equal item is already at its place. |
| `SearchStore.UpsertPlaces` | internal/search/store.go:80-109 | An upsert of an item already there changes nothing; any other drops the old item of the id and puts the new one before the first it sorts before. |
| `SearchStore.UpsertMembers` | internal/search/store.go:86-109 | An upsert replaces the entry of its id and touches no other entry; ids stay unique. |
| `SearchStore.UpsertKeeps` | internal/search/store.go:86-109 | An upsert of a key in which no known value follows a missing one keeps the items sorted. |
| `SearchStore.RemoveKeeps` | internal/search/store.go:71-78 | A removal keeps the items sorted and unique. |
| `SearchStore.RunKeeps` | internal/search/store.go:61-109 | Over every run of such mutations the file is sorted, lists each id once, and holds exactly the last key written for each id not removed since. |
| `SearchStore.Canonical` | internal/search/store.go:86-109 | A sorted, id-unique list whose keys do not tie is determined by its set of entries. |
| `SearchStore.OrderDoesNotMatter` | internal/search/store.go:86-109 | When sort keys end in the id, two runs with the same meaning leave the same list, whatever the order of their mutations. |
| `SearchStore.OrderKeptIff` | internal/search/sort.go:15-103 | For keys of the right kinds: inserting a candidate keeps every sorted file sorted if and only if no known value follows a missing one in it. |
| `SearchStore.MissingSpoilsOrder` | internal/search/sort.go:15-63 | A concrete upsert with a missing sort value before a known one leaves an unsorted list. |
| `ShardMap.RangeRoundTrip` | internal/shard/shard.go:61-101 | A range written from two slots parses back to them, a single slot to itself, and slots in the wrong order are refused. |
| `ShardMap.SlotReads` | internal/shard/shard.go:91-101 | A slot is one or two hex digits in either case, with spaces around them. |
| `ShardMap.SlotRangeReads` | internal/shard/shard.go:61-73 | A range without a hyphen is one slot. |
| `ShardMap.RangeReads` | internal/shard/shard.go:74-89 | A range with one hyphen is two slots in order. |
| `ShardMap.ValidateFullCoverage` | internal/shard/shard.go:109-125 | The marking loop accepts exactly the range lists that are disjoint and cover all 256 slots. |
| `ShardMap.ValidateShardMapBody` | internal/config/load.go:390-427 | Reading the map in any order, validation accepts exactly the maps of known servers in which every slot lies in one range. |
| `ShardMap.GoodIff` | internal/config/load.go:390-427 | An entry of an accepted map: a range, a named known source of truth, known readers and proxies. |
| `ShardMap.SlotAssignment` | internal/config/routing.go:10-24 | On an accepted map every iteration order finds the same assignment; on any map a hit covers the slot and a miss means nothing does. |
| `ShardMap.DedupOrdered` | internal/agents/change/agent_search.go:168-185 | The owner comes first, no name is repeated, and the names are exactly the nonempty ones given. |
| `ShardMap.ComputeSearchTargets` | internal/agents/change/agent_search.go:164-166 | Owner, readers and proxies of a slot, each once. |
| `ShardMap.TargetsForAssignment` | internal/replication/push.go:86-103 | Readers and proxies other than the writer itself, each once. |
| `DocumentStore.DocumentFiles.PreservePreviousIfAbsent` | internal/fsstore/documents.go:130-142 | Renames the live document to its dotfile unless one is there; fails only when there is neither. |
| `DocumentStore.DocumentFiles.SoftDeleteDocument` | internal/fsstore/documents.go:148-161 | Removes the live document, keeping the oldest version under the dotfile. |
| `DocumentStore.DocumentFiles.EnqueueChange` | internal/fsstore/documents.go:169-176 | Adds one marker to the queue and changes nothing else. |
| `DocumentStore.DocumentFiles.Claim` | internal/agents/change/agent.go:182-191 | Moves one marker from the queue to the taken ones. |
| `DocumentStore.DocumentFiles.RemovePrevious` | internal/agents/change/agent.go:196-199 | Removes the dotfile of a finished entry, if it is still there. |
| `DocumentStore.DocumentFiles.RemoveTaken` | internal/agents/change/agent.go:200-203 | Removes the taken marker of a finished entry, if it is still there. |
| `SearchIndex.WriteEffect` | internal/engine/engine.go:240-271 | A write puts its document live or takes it away, touches no other, adds one marker, and never replaces the oldest undistributed version. |
| `SearchIndex.WriteKeeps` | internal/engine/engine.go:240-271 | Every write keeps the index invariant. |
| `SearchIndex.DrainKeeps` | internal/agents/change/agent.go:207-279 | A complete drain keeps the invariant and leaves its document listed, with its current sort key, wherever its live version belongs. |
| `SearchIndex.RemoteKeepsOrder` | internal/server/http_search.go:111-117 | A holder other than the server of the agent keeps every sorted file sorted, whatever sort values are missing. |
| `SearchIndex.CutShortKeeps` | internal/agents/change/agent.go:207-279 | A drain that stops after any part of its deliveries keeps the invariant. |
| `SearchIndex.CutLateKeeps` | internal/agents/change/agent.go:192-205 | A drain that stops after removing the dotfile and before removing the marker keeps the invariant. |
| `SearchIndex.RunKeepsInv` | internal/agents/change/agent.go:182-290 | After every run of writes, drains and interrupted drains: entries are unique, a document is listed only in buckets of its oldest undistributed version (or, after an interrupted drain, of the live one) unless it was overwritten in that window, and a document without markers is up to date. |
| `SearchIndex.IndexIsBuckets` | internal/agents/change/agent.go:243-279 | A document without markers is listed in every bucket of its live version on every holder, and, unless overwritten, nowhere else. |
| `SearchIndex.RetryGivesSame` | internal/agents/change/agent.go:182-226 | A drain cut short after any part of its deliveries and retried leaves the store and the entries of every bucket file as an undisturbed drain would. |
| `SearchIndex.LateRetryGivesSame` | internal/agents/change/agent.go:182-226 | So does one cut after the dotfile was removed. |
| `SearchIndex.OverwrittenIsDisturbed` | internal/agents/change/agent.go:182-226 | A document counts as overwritten only if some write of it comes after an interrupted drain of it with no completed drain of it between. |
| `SearchIndex.UndisturbedIsClean` | internal/agents/change/agent.go:182-226 | A run without such a write leaves no document overwritten. |
| `SearchIndex.AtomicIsUndisturbed` | internal/agents/change/agent.go:182-226 | In particular a run in which no drain is cut short in its deliveries has no such write. |
| `SearchIndex.SearchIsFilter` | internal/engine/search.go:16-61 | After every run that left no marker, any server that accepts a query lists every live document that satisfies it, each once, and no other document except overwritten ones. |
| `SearchIndex.SearchIsSorted` | internal/engine/search.go:16-61 | The same answer is in sort order, read from the fields of the live documents: an earlier document precedes a later one in the first sort field in which they are not level. |
| `SearchIndex.OneSortedListing` | internal/search/sort.go:88-103 | When the sort ends in the id, a set of documents has only one sorted listing. |
| `SearchIndex.AnswerIsFilteredAndSorted` | internal/engine/search.go:16-61 | After every run in which no document was written between an interrupted drain of it and the next completed one (in particular every run of creates, patches, deletes and atomic drains), the answer is the filter-and-sort of the live documents. |
| `SearchIndex.AnswerIgnoresHistory` | internal/engine/search.go:16-61 | Two such runs that end with the same live documents give the same answer, on whichever servers, when the sort ends in the id. |
| `SearchIndex.ServerHolds` | internal/engine/search.go:69-87 | On an accepted map the servers that answer for a bucket are exactly those its mutations are delivered to. |
| `SearchIndex.SearchOutcome` | internal/engine/search.go:16-87 | A search is unknown, refused for an unresolved clause, or answered by exactly the holders of the bucket it resolves to, with the ids of that file. |
| `SearchIndex.WriteAfterCutIff` | internal/agents/change/agent.go:243-279 | Any create, patch or delete and its full drain leave the document listed exactly where it belongs if and only if, before the write, it was listed only in buckets of its dotfile (or replaced version) or of the new version. |
| `StaleListings.CutThenPatchLeavesStale` | internal/agents/change/agent.go:243-279 | A concrete run of six steps, ending with no marker, that leaves a patched document listed in a bucket it no longer belongs to. |
| `StaleListings.CutThenDeleteLeavesStale` | internal/agents/change/agent.go:243-279 | A concrete run of seven steps, ending with no marker, that leaves a deleted document listed. |
| `ChangeAgent.BucketIndex` | internal/agents/change/agent.go:281-290 | The map from joined path to bucket has exactly the given buckets; no two share a key. |
| `ChangeAgent.Agent.ApplyMutation` | internal/search/store.go:118-152 | One bucket file is changed by the mutation, every other file is unchanged. |
| `ChangeAgent.Agent.DeliverRemote` | internal/agents/change/agent_search.go:120-160 | Calls to the other holders in any order, each failing before or after it took effect; each applies the mutation with the sort values it rebuilds from the stored form. |
| `ChangeAgent.Agent.Deliver` | internal/agents/change/agent_search.go:95-149 | The mutation is applied at some of the holders of the bucket, at most once each and nowhere else; on success at all of them; the server of the agent uses the computed sort values, any other those it rebuilds. |
| `ChangeAgent.Agent.DistributeOne` | internal/agents/change/agent.go:243-279 | For one search: removals, then upserts, stopping at the first failure; what was reached so far is a prefix of the drain. |
| `ChangeAgent.Agent.DistributeSearch` | internal/agents/change/agent.go:243-279 | Over all searches in any order the files reached are part of the plan, and all of it on success. |
| `ChangeAgent.Agent.RunEntry` | internal/agents/change/agent.go:182-226 | The agent code refines the index machine: a processed entry is exactly a Drain step, one that failed or stopped in its deliveries a CutShort step, one that stopped between the two removals a CutLate step, and an entry that was not there changes nothing. |
| `Engine.Engine.Create` | internal/engine/engine.go:141-281 | The create command is the create step of the specification, with its refusals in order. |
| `Engine.Engine.Patch` | internal/engine/engine.go:329-537 | The patch command is the patch step of the specification, with its refusals in order. |
| `Engine.Engine.Delete` | internal/engine/engine.go:539-619 | The delete command is the delete step of the specification. |
| `Engine.CreateOutcome` | internal/engine/engine.go:141-271 | A create succeeds if and only if its marker is absent, empty or current, it brings no version, its id field is absent, empty or the id, its content fits and the id is free; and which check gives which refusal. |
| `Engine.PatchOutcome` | internal/engine/engine.go:350-524 | A patch succeeds if and only if the document is live, at the expected version, the marker is current, the document carries its id, there is a patch, no pointer of it is or leads below a metadata field, it applies and the result fits; and which check gives which refusal. |
| `Engine.DeleteOutcome` | internal/engine/engine.go:560-619 | A delete succeeds if and only if the document is live and at the expected version; and which check gives which refusal. |
| `Engine.Effect` | internal/engine/engine.go:240-271 | What a reply says about the store: only the named document changes, a patch was admitted at the version the reply names and no pointer of it leads into metadata, and the stored document carries id, marker, new version and every other field of its source. |
| `Engine.RestrictedIff` | internal/engine/engine.go:621-627 | A pointer is restricted exactly when its first path segment is a metadata field. |
| `Engine.CheckedIsStoredIff` | internal/engine/document_order.go:11-27 | A create stores exactly the fields that were checked against the schema if and only if its content has no field "RFC6902". |
| `Engine.UncheckedIsStored` | internal/engine/document_order.go:11-27 | A concrete create that stores a field the schema check would refuse. |
| `Engine.LiveFits` | internal/engine/engine.go:141-537 | Over every run whose creates have no such field, every live document fits the schema and carries the current marker. |
| `Engine.RunIsSound` | internal/engine/engine.go:350-524 | After every run with fresh versions, live documents carry their own id and distinct issued versions, none consumed yet. |
| `Engine.ConsumedOnce` | internal/engine/engine.go:350-524 | A version is consumed by at most one successful patch or delete of a run. |
| `Engine.LiveIsReplay` | internal/engine/engine.go:350-610 | After every run each live document is the fold of its successful patches over its last create. |
| `Engine.RefusedChangesNothing` | internal/engine/engine.go:329-524 | A refused command leaves documents, dotfiles and markers as they were. |
| `EndToEnd.CommandIsStep` | internal/engine/engine.go:240-271 | A command that succeeds is a write step of the index machine, a refused one is no step. |
| `EndToEnd.EventsAreSteps` | internal/agents/change/agent.go:96-205 | Every interleaving of commands and agent work is a run of the index machine. |
| `EndToEnd.LiveIsCommands` | internal/agents/change/agent.go:182-205 | Agent work is invisible to commands: the live documents are those of the commands alone. |
| `EndToEnd.SearchAnswersHistory` | internal/engine/search.go:16-61 | For every interleaving of commands and agent work, once no marker remains, a server that accepts a query lists each document whose fold of successful commands satisfies it, once, and no other except documents named by a command between an interrupted drain of them and the next completed one. |
| `EndToEnd.SearchAnswersInOrder` | internal/engine/search.go:16-61 | The same answer is in sort order, read from the fields of the folded documents. |
| `Replication.Apply` | internal/replication/apply.go:24-110 | The three cases on files are the specified delivery. |
| `Replication.DeliveryOutcome` | internal/replication/apply.go:24-110 | For every delivery: exactly when it reports applied, what it leaves live and under the dotfile, and that it touches nothing else. |
| `Replication.DeliverOne` | internal/replication/apply.go:24-110 | A member that has all earlier items, or this one too, reports applied and then holds the live documents of the source. |
| `Replication.DeliverAgain` | internal/replication/apply.go:24-110 | Every one of any number of consecutive deliveries of an item reports applied. |
| `Replication.MemberFollowsSource` | internal/replication/apply.go:24-110 | After every in-order history, each item repeated any number of times, the member holds exactly the live documents of the source. |
| `Replication.RedeliveryHarmlessIff` | internal/replication/apply.go:37-110 | An old item delivered later changes nothing if and only if: a create finds the document live, a patch finds it gone or still at its version, a delete finds it gone. |
| `Replication.LateItemBringsBack` | internal/replication/apply.go:57-97 | A concrete run create, patch, patch: the middle item delivered again brings its old version back. |
| `Replication.FailureLosesIff` | internal/replication/apply.go:57-97 | A delivery fails and still changes the live documents if and only if it is a patch without payload that does not apply, to a live document at another version without a dotfile; the document is then gone. |
| `Replication.PatchLosesDocument` | internal/replication/apply.go:57-97 | A concrete such delivery. |
| `Push.Coordinator.ReplicateDocumentWrite` | internal/replication/push.go:136-163 | For every completion order the two lists of the outcome are together the targets, and exactly the unacknowledged ones have the item as pending write. |
| `Push.FilterTargets` | internal/replication/resume.go:21-30 | The targets still to be pushed, in order. |
| `Push.RemainingInOrder` | internal/replication/resume.go:21-30 | They keep the order of the targets. |
| `Push.Coordinator.ReplicateOperation` | internal/replication/resume.go:15-56 | One attempt pushes to the missing targets only, adds acknowledgements only from those, and ends replicated exactly when all targets have acknowledged. |
| `Push.Partition` | internal/replication/push.go:136-163 | Over distinct targets the two lists are a partition. |
| `Push.AcknowledgedForGood` | internal/replication/resume.go:15-56 | Over every run of attempts acknowledgements only grow and an acknowledged target is never pushed again. |
| `Push.AcknowledgedWasPushed` | internal/replication/resume.go:15-56 | An acknowledgement that was not there at the start came from a push of some attempt. |
| `Push.FinishedIff` | internal/replication/resume.go:15-56 | With fixed targets a run is replicated exactly when every target had acknowledged at the start or acknowledged a push of some attempt, and stays so. |
| `Push.ReadersAreReached` | internal/replication/push.go:86-103 | A reader or proxy of a slot, other than its writer, has acknowledged every operation of the writer that is replicated, and was pushed to if it had not at the start. |
| `Attachments.AttachmentFiles.CommitStagedBinary` | internal/fsstore/files.go:469-508 | Cut after any number of file operations, the commit leaves the specified intermediate state. |
| `Attachments.AttachmentFiles.CommitFileDelete` | internal/fsstore/files.go:511-533 | The same for a delete. |
| `Attachments.AttachmentFiles.RecoverFileOps` | internal/fsstore/files.go:536-590 | Drops staged files, then finishes or rolls back each journal in directory order. |
| `Attachments.CommitRecovers` | internal/fsstore/files.go:469-590 | The recovered state of a commit for each of its crash points. |
| `Attachments.JournalWhile` | internal/fsstore/files.go:469-508 | While a commit is under way its journal names the operation, whether the file was listed, and how far it is. |
| `Attachments.DeleteRecovers` | internal/fsstore/files.go:511-590 | The recovered state of a delete for each of its crash points. |
| `Attachments.RecoverySettles` | internal/fsstore/files.go:536-590 | From any state and for any directory order no journal and no staged file remains. |
| `Attachments.RecoveredTwice` | internal/fsstore/files.go:536-590 | Recovering again, in any order, changes nothing. |
| `Attachments.RecoveryRestarts` | internal/fsstore/files.go:536-590 | A crash of recovery after any number of its operations, over any list of journals, is made good by recovering again. |
| `Attachments.AttemptOutcome` | internal/fsstore/files.go:469-590 | For every crash point the manifest is exactly the old or the new one, nothing is in flight, and other file names are untouched. |
| `Attachments.ConsistentIff` | internal/fsstore/files.go:469-590 | Every manifest entry still has a blob of its recorded hash if and only if the crash was not between the change of a listed blob and the journal write that commits it. |
| `Attachments.RunOutcome` | internal/fsstore/files.go:469-590 | Over every run of crashed and completed operations the manifest is that of the committed ones. |
| `Attachments.CutUpdateLeavesMismatch` | internal/fsstore/files.go:469-508 | A concrete update cut after the rename of its blob that leaves a manifest entry without its bytes. |
| `DocJson.ReorderBySchema` | internal/docjson/docjson.go:89-161 | The recursive loops compute the specified reordering. |
| `DocJson.Canonicalize` | internal/docjson/docjson.go:29-85 | The loops over metadata, schema fields and extras compute the canonical form. |
| `DocJson.ReorderTwice` | internal/docjson/docjson.go:89-161 | Reordering is idempotent at every depth. |
| `DocJson.NormalForm` | internal/docjson/docjson.go:89-161 | Two values have the same reordering if and only if they differ at most in the order of schema-named fields, at every depth. |
| `DocJson.ReorderKeepsContent` | internal/docjson/docjson.go:89-161 | Reordering keeps every key and value. |
| `DocJson.ReorderedInOrder` | internal/docjson/docjson.go:89-161 | The result has schema fields in schema order and then extras, at every depth. |
| `DocJson.InOrderIsFixed` | internal/docjson/docjson.go:89-161 | A value already in that order is left alone. |
| `DocJson.CanonicalKeepsContent` | internal/docjson/docjson.go:29-85 | Canonicalizing keeps every key and value of the document. |
| `DocJson.CanonicalTwice` | internal/docjson/docjson.go:29-85 | Canonicalizing is idempotent. |
| `DocJson.CanonicalIff` | internal/docjson/docjson.go:29-85 | Two documents have the same canonical form if and only if they agree on metadata and their contents differ at most in the order of schema-named fields. |
| `DocJson.CanonicalOrder` | internal/docjson/docjson.go:29-85 | Keys come as metadata, schema fields in schema order, extras in input order. |
| `DocJson.CanonicalInOrder` | internal/docjson/docjson.go:29-85 | Nested values of a canonical document are in schema order too. |
| `SchemaPatch.ApplySpec` | internal/schemapatch/apply.go:13-27 | The update loop applies the list to the schema tree and fails at the first failing update. |
| `SchemaShape.SchemaAcceptsIff` | internal/schemapatch/apply.go:48-162 | For each of the eight updates, exactly when the schema side accepts it: which nodes must be there, which must not, and which need a schema. |
| `SchemaShape.SchemaAfter` | internal/schemapatch/apply.go:48-162 | The tree an update leaves: a new node last among its siblings, a converted one in its place, a removed or moved one gone, a replace changing nothing, and every path apart from those named leading to the same node. |
| `SchemaCommute.MigrateByList` | internal/schemapatch/document.go:22-29 | The update loop applies the list to the document. |
| `SchemaCommute.OpCommutesIff` | internal/schemapatch/document.go:31-166 | For each of the eight updates the schema side accepts, on kinds and in full: the document side succeeds with a document that fits the updated schema at every depth if and only if the update is no replace without a value and what it writes or leaves at its path fits there. |
| `SchemaCommute.UpgradeCommutes` | internal/schemapatch/apply.go:13-162 | For every update list the schema side accepts, on kinds and in full: a document fits after every update of the list if and only if it meets that condition each time, and then its migration does not fail and ends in a document that fits the upgraded schema. |
| `SchemaCommute.ListFailsIff` | internal/schemapatch/document.go:118-124 | An update list fails on a document if and only if it has a replace without a value. |
| `SchemaMisfits.DestinationNode` | internal/schemapatch/apply.go:91-142 | After a move or copy the schema node is found at the destination under its new name. |
| `SchemaMisfits.WithoutSourceIff` | internal/schemapatch/document.go:126-143 | A move or copy whose source the document lacks gives a fitting document if and only if the value already at the destination fits the moved node, or there is none and, in full, the node is not required or its parent is absent too. |
| `SchemaMisfits.WithSourceFits` | internal/schemapatch/document.go:126-143 | A move or copy of a value that is there, in full to an object that is there, always gives a fitting document. |
| `SchemaMisfits.AddIff` | internal/schemapatch/document.go:55-110 | An add, in full to an object that is there, gives a fitting document if and only if the value it selects fits. |
| `SchemaMisfits.ImportIff` | internal/schemapatch/document.go:55-79 | An import that keeps the existing value gives a fitting document if and only if that value fits the new entry with its fields and items. |
| `SchemaMisfits.ConvertIff` | internal/schemapatch/document.go:145-212 | A convert of an existing value gives a fitting document if and only if the converted value fits the new entry. |
| `SchemaMisfits.CopyOntoUntracked` | internal/schemapatch/document.go:136-143 | A concrete copy onto an old untracked value after which the document does not fit. |
| `SchemaMisfits.ImportKeepsMisfit` | internal/schemapatch/document.go:314-341 | A concrete import that keeps an object with a number where a string is declared. |
| `SchemaMisfits.ImportKeepsItems` | internal/schemapatch/document.go:314-341 | A concrete import that keeps an array of numbers where an array of strings is declared. |
| `SchemaMisfits.ConvertKeepsItems` | internal/schemapatch/document.go:169-212 | A concrete convert that adds an item kind and keeps the old items. |
| `SchemaMisfits.AddMakesHollowObject` | internal/schemapatch/document.go:383-398 | A concrete add that makes its parent object without a required field: right on kinds, wrong in full. |
| `SchemaMisfits.ValuelessReplaceFails` | internal/schemapatch/apply.go:81-89 | A concrete list that the schema side accepts and that fails on every document. |
| `SafeUpdates.LooseIff` | internal/schemapatch/document.go:314-341 | An entry takes every value of its top-level kind, on kinds, if and only if nothing below it has a declared kind. |
| `SafeUpdates.ConvertsWhen` | internal/schemapatch/document.go:169-212 | Every old value converts to a fitting one when the new entry has nothing declared below it or the same as before. |
| `SafeUpdates.AlwaysCommutesIff` | internal/schemapatch/document.go:31-166 | On kinds: an update below objects is right for every fitting document (with, for a move or copy, its source there or its destination free) if and only if the values it selects or replaces with fit, an import is to an entry with nothing declared below it, and every old value converts. |
| `SafeUpdates.SensibleListCommutes` | internal/schemapatch/apply.go:13-162 | On kinds: a list of such updates, a condition on schema and list only, takes every fitting document that is free for its moves and copies to one that fits the upgraded schema, and does not fail. |
| `SafeUpdates.StationaryIsFree` | internal/schemapatch/document.go:126-143 | Without moves and copies every document is free for the list. |
| `SchemaEffect.ValueAfter` | internal/schemapatch/document.go:31-300 | The value each update leaves at its path, value by value: for a new field the supplied value, else the default, the failover, and null or the empty value of the kind if required; for a convert what each kind of value becomes under each kind; the value of the source of a move or copy. |
| `SchemaEffect.SourceAfter` | internal/schemapatch/document.go:126-143 | A move to a place apart from its source leaves nothing at the source; a copy leaves it as it was. |
| `SchemaEffect.SetElsewhere` | internal/schemapatch/document.go:383-398 | Setting a value shows at its own path only, even where objects are made on the way. |
| `SchemaEffect.RemoveElsewhere` | internal/schemapatch/document.go:400-414 | Removing a value shows at its own path only. |
| `SchemaEffect.SparedIsKept` | internal/schemapatch/document.go:31-166 | An update changes nothing at a path apart from those it names. |
| `SchemaEffect.MigrationKeepsElsewhere` | internal/agents/upgrade/migrate.go:54-78 | A migration keeps every value that lies apart from all paths its update lists name. |
| `Upgrade.CollectionConfig.EnsureCollection` | internal/adminconfig/collection.go:23-105 | An ensure call on the configuration maps is the specified one. |
| `Upgrade.CollectionConfig.UpgradeCollection` | internal/adminconfig/collection.go:107-195 | The upgrade branch: already applied, refused, or one version further. |
| `Upgrade.UpgradeOutcome` | internal/adminconfig/collection.go:107-195 | An upgrade recorded under its id changes nothing; any other is accepted if and only if it is for the next version, its paths are neither metadata nor positions, it brings the schemas it needs, it applies and the result is accepted; it then becomes the next version. |
| `Upgrade.EnsureOutcome` | internal/adminconfig/collection.go:23-105 | A new collection needs an acceptable schema and no upgrade; an existing one matches its schema or is refused. |
| `Upgrade.RunIsComplete` | internal/adminconfig/collection.go:48-195 | Over every run of ensure calls a collection at version n has schemas 0..n and update lists 1..n without gaps, each list leads from one schema to the next, and the last schema is the current one. |
| `Upgrade.HistoryGrows` | internal/adminconfig/collection.go:107-178 | Later calls never change or drop a recorded schema or update list. |
| `Upgrade.ReEnsureIsNoop` | internal/adminconfig/collection.go:180-195 | An applied upgrade ensured again at any later time changes nothing. |
| `Upgrade.DeriveSchemaVersion` | internal/config/load.go:276-288 | In any iteration order the derived version is the largest in the history, so for a complete history the current one. |
| `Migrate.MigrateDocument` | internal/agents/upgrade/migrate.go:54-78 | The version loop replays the update lists and stops at the first missing or failing one. |
| `Migrate.MarkerParsesBack` | internal/agents/upgrade/migrate.go:20-31 | The marker a migration writes parses back to its version, whatever the name of the collection. |
| `Migrate.MigrationKeepsMeta` | internal/schemapatch/spec.go:179-196 | Migration by validated lists keeps the id and the version of the document. |
| `Migrate.MigrationComposes` | internal/agents/upgrade/migrate.go:54-78 | Migrating to u and then to w is migrating to w, failures included. |
| `Migrate.MigratesOnce` | internal/agents/upgrade/migrate.go:35-78 | A migrated document is at its target version, and migrating again is a no-op. |
| `Migrate.MigrationFailsIff` | internal/agents/upgrade/migrate.go:54-78 | A migration fails if and only if the document has no readable marker, or a list between its version and the target is missing, malformed or has a replace without a value. |
| `Migrate.EnsuredMigrationFailsIff` | internal/agents/upgrade/migrate.go:54-78 | After every run of ensure calls no list is missing: a document of any version so far fails to migrate to the current one if and only if a list in between has a replace without a value. |
| `Migrate.MigrationReachesCurrent` | internal/agents/upgrade/migrate.go:54-78 | After every run of ensure calls, on kinds and in full, a document that fits the schema of its version fits after every update of its migration if and only if it meets the condition of each; then the migration does not fail and its result fits the current schema. |
| `Migrate.SensibleMigrationFits` | internal/agents/upgrade/migrate.go:54-78 | On kinds: after every run of ensure calls whose lists are sensible, every fitting document that is free for its moves and copies migrates without failing to one that fits the current schema. |
| `JsonPatch.PointerGet` | internal/rfc6902/rfc6902.go:73-98 | The cursor loop returns the value a pointer leads to, or nothing. |
| `JsonPatch.PointerByParent` | internal/rfc6902/rfc6902.go:73-98 | A pointer is read through its parent: a key of an object, a position of an array, nothing else. |
| `JsonPatch.PointerRoundTripIff` | internal/rfc6902/rfc6902.go:271-283 | Escaped tokens split back to themselves if and only if they are not the single empty token (section 4 of RFC 6901). |
| `JsonPatch.MutateIsPut` | internal/rfc6902/rfc6902.go:195-255 | Changing the parent through its owners is reading it, changing it and putting it back. |
| `JsonPatch.PutLaws` | internal/rfc6902/rfc6902.go:195-255 | What was put is read, putting back what was read changes nothing, a second put forgets the first. |
| `JsonPatch.PutElsewhere` | internal/rfc6902/rfc6902.go:195-255 | A put is invisible to every pointer that parts from its path. |
| `JsonPatch.AddLaws` | internal/rfc6902/rfc6902.go:104-158 | Section 4.1 of RFC 6902: the value is at the target; array elements before it stay and later ones move up by one. |
| `JsonPatch.RemoveUndoesAdd` | internal/rfc6902/rfc6902.go:160-187 | Removing what was added at a new key or an index gives the document back. |
| `JsonPatch.ReplaceIsRemoveThenAdd` | internal/rfc6902/rfc6902.go:28-34 | Section 4.3 of RFC 6902: a replace is a remove followed by an add, and fails exactly when there is nothing to replace. |
| `JsonPatch.OutsideIsUntouched` | internal/rfc6902/rfc6902.go:104-255 | Add, replace and remove leave everything off the path to the addressed parent as it was. |
| `JsonPatch.PatchTarget.Apply` | internal/rfc6902/rfc6902.go:19-71 | One operation on the stored document is the specified one, for each operation name. |
| `JsonPatch.AddSucceedsIff` | internal/rfc6902/rfc6902.go:104-158 | An add succeeds exactly when the parent is an object, or an array with such a position. |
| `JsonPatch.SucceedsIff` | internal/rfc6902/rfc6902.go:19-71 | For every operation, exactly when it succeeds, from the document before it; a test if and only if the value read is the given one. |
| `JsonPatch.ReadsAfter` | internal/rfc6902/rfc6902.go:19-71 | After a success an add or replace reads its value at the path, a move or copy the value its source had, a removed key is gone, and a test has changed nothing. |
| `JsonPatch.FailureChangesIff` | internal/rfc6902/rfc6902.go:44-57 | An operation fails and still changes the document if and only if it is a move whose source is there, is not the root, and leaves no place for the value once it is gone; the source is then lost. |
| `JsonPatch.MoveIntoItselfLoses` | internal/rfc6902/rfc6902.go:44-57 | Moving a value into itself removes it, for every value. |
| `Names.RefRoundTripIff` | internal/agents/cache/projection.go:20-35 | A cached reference parses back if and only if both parts are nonempty and the collection has no double and no trailing underscore. |
| `Names.QueueRoundTripIff` | internal/fsstore/documents.go:275-292 | A queue entry name parses back if and only if verb and collection have no double and no trailing underscore. |
| `Names.NamesAre` | internal/replication/file_workitem.go:87-203 | The names as they stand on disk and on the wire. |
| `Names.SafeIdIff` | internal/fsstore/documents.go:39-76 | Safe ids spelled out: length, first character, alphabet, and the word "null". |
| `Names.SafeFileNameIff` | internal/fsstore/files.go:63-90 | Safe file names spelled out. |
| `Names.ParsePendingFileWriteName` | internal/replication/file_workitem.go:171-203 | The downward loop finds the last dot that splits into a safe id and a safe file name. |
| `Names.ParseFileWorkItemID` | internal/replication/file_workitem.go:94-113 | The upward loop finds the last hyphen that splits into a safe id and a safe file name. |
| `Names.ListedSplit` | internal/replication/file_workitem.go:134-203 | Every pending file of a safe id and file name is listed, under a split of the same name with an id at least as long. |
| `Names.ReachedIff` | internal/replication/file_workitem.go:87-203 | Listing a pending file and parsing its work-item id leads back to that file if and only if no hyphen of the listed file name splits the id again. |
| `Names.HyphenFreeIsReached` | internal/replication/file_workitem.go:87-203 | It does whenever the file name has no hyphen, even when the split differs from the original. |
| `Names.HyphenMisleads` | internal/replication/file_workitem.go:94-113 | It does not for a family of file names with a hyphen. |
| `Names.HyphenMisleadsExample` | internal/replication/file_workitem.go:94-113 | For example for the file "b-c" of document "a". |

## Left out

- SearchIndex.SearchIsSorted: assumes sort fields of one kind each with no known value after a missing one, which is the exact condition for the order to be kept (see above).
- SearchIndex.SearchIsFilter: assumes that no array item of the other kind stands in for a bound value, which is the exact condition for the index to answer by value (see above).
- SearchIndex.RunKeepsInv: one drain is atomic with respect to writes to its own document; finer interleavings do not keep the invariant in the code.
- SchemaCommute.UpgradeCommutes: assumes that sibling names are distinct in the schema and in the schemas an update supplies.
- SchemaPatch.ApplySpec: the schema tree is rebuilt along the path, while the source changes nested arrays through references; aliasing is not captured.
- JsonPatch.PatchTarget.Apply: the document is rebuilt along the path for the same reason.
- ChangeAgent.Agent.ApplyMutation: the version check and retry of the read-modify-write loop, and the header fields of a bucket file.
- Attachments.AttachmentFiles.CommitStagedBinary: a blob is represented by its hash, and the manifest by a map from name to entry.
- SafeUpdates.AlwaysCommutesIff: is about kinds; in full the condition of an update depends on which objects of the document are there (`SchemaCommute.OpCommutesIff`). It assumes that only objects have declared children on the paths of the update.
- Migrate.MigrationReachesCurrent: assumes distinct sibling names, and that no schema names the marker field "$", which a migration overwrites.
- Engine.Engine.Create: collection, id and routing checks come before the critical section and are left out.
- Engine.Engine.Patch: the patch itself is a parameter with its pointers; the checks before the critical section are left out.
- Engine.Engine.Delete: the checks before the critical section and the attachment cascade are left out.
- DocumentStore.DocumentFiles.SoftDeleteDocument: the attachment cascade that follows is left out.
- ChangeAgent.Agent.RunEntry: cache distribution is left out; an error there is a drain cut short before its first delivery.
- Numbers are reals, formatted by an abstract function that is injective on floats; negative zero is not distinguished.
- SchemaEffect.ValueAfter: the JSON text of a value and the number at the start of a text are parameters.
- CRC32, SHA-256, ULID generation and schema compilation are parameters or abstract values; versions are assumed fresh.
- Validation of search definitions: the theorems about evaluation and queries need no assumption about the definition.
- One collection at a time; cache summaries across collections and convergence of catch-up are not modelled.
- Migration in the background or on read, which runs outside the engine lock.
- I/O errors, temporary files, clocks, tickers, HTTP, tokens and the command line.
