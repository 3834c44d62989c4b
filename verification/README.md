# A verified model of dcb-layer

`dcb-layer` is an event store on FoundationDB: events carry a type and tags, queries
select events by types and tags, appends can be made conditional on queries, and
subscribers follow the log with a watch and a durable cursor. All of it is reduced to
byte ranges over a powerset index of tags, and all concurrency to optimistic
transactions.

This project models that reduction in Dafny, from the bytes up, and proves that it
means what the store promises:

- **the byte layer** (`Bytes`, `Tuples`, `Encoding`, `Ranges`): tuple packing is
  injective and keeps order, 0x00 bytes included; which packed tuples are byte
  prefixes of which; `strinc`, the canonical tag list, the bitmask powerset, positions,
  event values;
- **the index** (`Kv`, `Ledger`, `Matching`, `Scanning`, `Growth`): what every commit
  leaves in the database, and that the index, the primary keys, type discovery and the
  ranges of a query item agree with the log of events, exactly;
- **reads** (`Merge`, `Reading`, `QueryMethods`, `ReadMethods`, `Vocabulary`): the three
  read paths return the filtered, ordered, cut log;
- **appends** (`Fdb`, `Probing`, `AppendMethods`, `Protocol`, `Decisions`): the
  optimistic check is an atomic check of the conditions, conflicts are complete and
  precise, a batch enters the log at most once; any number of concurrent clients
  refines a machine with an atomic append-only log; read-decide-append and pagination
  are safe under any interleaving;
- **subscriptions** (`SubscribeMethods`, `Subscription`): no lost wake-up and gap-free
  delivery in every run, through crashes and late cursor writes.

Code of the repository that works step by step is a Dafny method with loops
(`SortTags`, `GenerateSupersetPresorted`, `Strinc`, `CollectTypes`, `BuildQueryRanges`,
the merge, `ReadEvents`, `Append`, `SetCursor`, ...), proved against a specification
function or a property; the heap, the database and the transaction are classes. What
the code computes with expressions is a function with lemmas beside it.

## How to read it

The *history* of the database is the list of committed write sets, bytes only. The
*ledger* lists the operations behind them (`Ledger.Record`), and `LogOf(ledger, ns)` is
the sequence of events of a namespace with their positions. `Matches(history, ledger)`
says that the history is the bytes of the ledger at strictly increasing versions. Every
statement about reads and appends is a statement about `LogOf`.

**Type names and 0x00.** The range of a type `T` is a byte prefix range, and a packed
string is a byte prefix of another exactly when it is equal or the other one continues it
with a 0x00 byte (`Tuples.PackPrefix`). So the range of `T` also holds the keys of a type
`T`·0x00·`X`, and since 0xFF sorts above 0x33 it holds them at every position, whatever
`after` says. Two consequences are proved rather than assumed away:

- completeness does not need any hypothesis: an append never misses a matching event
  (`Probing.SelectedBlocks`, `Probing.OptimisticCheck`), type discovery is exact for
  all names (`Matching.DiscoverExact`), and a read returns events of the log only and leaves
  out no selected one unless it has returned as many as its limit (`Reading.Dependable`);
- precision does, and the exact condition is what the caller can check: an item is *apart*
  in a log when no logged event that carries its tags has a type that continues one of the
  item's types (for a tags-only item: one of the types logged with its tags) with a 0x00
  byte (`Matching.ItemApart`, `Matching.TypesApart`). A read is right when the items of its
  query are apart in the log it sees; reads over a vocabulary of logged names and one of
  queried names are right **if and only if** no logged name continues a queried one
  (`Vocabulary.VocabularyExact`, with `Vocabulary.Misread` giving the wrong read for each
  pair that does). Logged names without 0x00 are always apart (`Matching.NulFreeApart`).

Condition checks are settled the same way. Something stands against the probes **if and
only if** a condition selects an event or one of its items is not apart in the log
(`Probing.ConditionsExact`, for every log and all conditions); `Vocabulary.Misrefused` is
the append that is refused although nothing is selected, and
`Vocabulary.ConditionVocabularyExact` the if-and-only-if over vocabularies. `Blocks` is what a
probe finds (`Probing.HitExact`), and `Probing.BlocksExact` says what that is: an event that
the probe's item matches after the bound, or an item that is not apart.

**Discovery ignores `after`.** A tags-only condition records the whole discovery scan as a
conflict range, at any position. `Probing.ConflictExact` states the exact conflict rule
(`Disturbs`). Compared with matching, there is one more case: an event with the tags of a
tags-only item commits at a position that is not after the item's bound (`Overcautious`).
`Probing.ConflictIffBlocked` and `Probing.ConflictIffSelected` say, without any hypothesis on
bounds or names, that a conflict happens exactly when an event now stands against a probe or
that case applies; `Probing.FalseConflict` is an input where it applies and nothing is
selected. It never does when the bounds of tags-only items lie below what is appended later,
as logged positions do (`Probing.BelowNotOvercautious`, `Probing.LoggedBoundBelow`). The abstract
proof in `_doc/model_proof` carries the bound for this case; the code does not, and the model
follows the code.

**Who wrote what.** `Fdb.Database.own` lists the indices of the commits of this client; every
commit extends it, and the commits of other clients do not. So "at most once", "nothing was
written" and "the only writes of the call" are statements about the database: each method
that writes ensures `db.own == old(db.own) + applied`, and each method that only reads that
`own` is unchanged (`OnlyOthers`).

**Who failed.** `Fdb.Database.reports` lists what the database told this client: each failed
operation and each stamp that could not be had, with its code, and what the error handler did
about a failure (`Reset`, or `GaveUp` and why). Only the database extends it. So no operation can
blame the database for a failure that it never reported, give up early, or retry without cause:
a call with a budget ends with `CallReports` (for an append `AppendReports`), the longer ones with
`Blamed`.

**Pages and catch-up.** A page is whatever the contract of `ReadMethods.Read` allows
(`Reading.ReadPromise`): the specified events if the query's items are apart, a dependable
result otherwise. The theorems about pages and subscribers ask for apart items in the final ledger
and nothing else. Both patterns are also methods over the store's own operations:
`Decisions.ReadInPages` and `Subscription.Round`.

**`Err(Fdb)` and the log.** The commit can succeed and the future of its versionstamp fail
afterwards (`dcb-layer/src/append.rs:163-167`), so a database error from `append` means "at
most once", not "not at all". `AppendMethods.AppendOutcome` says exactly this.

Comments in `dcb-layer/src/query.rs:62` and `:70` call the index subspace "g"; the code
uses "i" (`dcb-layer/src/encoding.rs:12`), and so does the model.

Every lemma switches automatic induction off, so that each proof is what its body says.

## Assumptions about FoundationDB

They are the bodies in `Fdb.dfy` (and the watch in `SubscribeMethods.Watch`), and nothing
else is assumed:

- all reads of a transaction see one version, chosen at its first read, no older than
  what was committed when the transaction or its last reset began;
- a non-snapshot range read that ends before its limit records the whole range as a
  conflict range, otherwise the part it covered;
- a commit is applied only if no later commit wrote into a recorded range; it may also
  fail for any other reason;
- commit versions are unique, strictly increasing, and fit ten bytes;
- a failed commit may have been applied, but not with automatic idempotency on;
- an error handler gives up on the failure it is asked about, because it cannot be retried or
  because the budget is used up, or resets the transaction, options included; the retry limit
  is a budget of resets;
- between any two steps other clients may commit anything this layer can commit;
- a watch is due once the key has a value other than the one it was armed with, and may
  stay silent while it has that value.

## Model

| member | source | states |
|---|---|---|
| Tuples.UnpackPack | dcb-layer/src/encoding.rs:126-143 | unpacking a packed tuple gives the tuple back, for all byte strings, nested tuples and stamps |
| Tuples.PackInjective | dcb-layer/src/encoding.rs:70-119 | different tuples have different bytes |
| Tuples.PackOrder | dcb-layer/src/encoding.rs:70-119 | byte order of packed tuples is element-by-element tuple order, 0x00 bytes included |
| Tuples.PackPrefix | dcb-layer/src/query.rs:63-73 | when the packing of a list of strings is a byte prefix of a packed tuple: all but the last string equal, the last equal or continued by 0x00 |
| Encoding.SortTags | dcb-layer/src/encoding.rs:21-29 | sorting and dropping repetitions gives the canonical list of the set of tags |
| Encoding.Canonical | dcb-layer/src/encoding.rs:21-29 | the canonical list is strictly sorted and has exactly the given tags |
| Encoding.GenerateSupersetPresorted | dcb-layer/src/encoding.rs:32-47 | 2^n lists in mask order: tag i is in list number `mask` exactly when `(mask / 2^i) % 2 == 1` |
| Encoding.SubsetBits | dcb-layer/src/encoding.rs:40-45 | a sub-list has tag i exactly when bit i of its mask is set |
| Encoding.SubsetsArePowerset | dcb-layer/src/encoding.rs:31-47 | there are 2^n sub-lists, all different, and they are all strictly sorted lists of the tags |
| Encoding.CanonicalIndexed | dcb-layer/src/encoding.rs:21-47 | the canonical form of query tags is among the indexed subsets of an event exactly when the event carries them, whatever order or repetition |
| Encoding.PositionOrder | dcb-layer/src/types.rs:6-9 | byte order of stamps is the order of (transaction version, batch index), without wrap up to 65535 |
| Encoding.PackTagIndexKeyFdb | dcb-layer/src/encoding.rs:103-119 | the built template is that of namespace, "i", tags, "_", type and an incomplete stamp |
| Encoding.ResolvedKeys | dcb-layer/src/encoding.rs:97-119 | once the version is filled in, the write-side templates are the read-side keys of the complete position |
| Encoding.KeyLayout | dcb-layer/src/encoding.rs:69-95 | the bytes of the sentinel, cursor and event keys, subspace names spelled out |
| Encoding.IndexLayout | dcb-layer/src/encoding.rs:103-119 | the bytes of an index key: namespace, "i", the tags, "_", the type, the stamp |
| Encoding.EventValueFields | dcb-layer/src/encoding.rs:126-143 | an event value is a tuple of three: the type, a tuple of the tags, the data |
| Encoding.DecodeEncode | dcb-layer/src/encoding.rs:126-192 | decoding an encoded event gives it back, tag order and repetitions included |
| Ranges.Strinc | dcb-layer/src/query.rs:18-27 | the in-place loop computes the strinc function |
| Ranges.StrincFails | dcb-layer/src/query.rs:16-27 | it fails exactly on keys that are empty or all 0xFF |
| Ranges.StrincExact | dcb-layer/src/query.rs:16-34 | otherwise a key has the prefix exactly when it lies between the prefix and strinc of it |
| Ranges.BoundedRangeExact | dcb-layer/src/query.rs:16-43 | a bounded range exists exactly for prefixes with a byte other than 0xFF, and holds exactly the keys with the prefix whose rest lies beyond the stamp of the bound |
| Ranges.StampBeyond | dcb-layer/src/query.rs:35-43 | a stamp lies beyond the bound exactly when its position is greater |
| Ranges.TypedRangeExact | dcb-layer/src/query.rs:63-67 | an index key lies in the range of (tags, type, after) exactly when its tags are the same and its type is the same with position after the bound, or continues the type with 0x00 |
| Ranges.DiscoveryRangeExact | dcb-layer/src/query.rs:69-90 | which index keys the type discovery scans: tags equal, or extended by a tag that continues "_" with 0x00 |
| Kv.ReplayLast | dcb-layer/src/subscribe.rs:29-39 | last writer wins: the last commit that writes a key decides its value |
| Ledger.KeysDistinct | dcb-layer/src/encoding.rs:69-119 | event, index, sentinel and cursor keys of any two namespaces have the same bytes only if they are the same key |
| Ledger.WritesHave | dcb-layer/src/append.rs:20-45 | a commit writes exactly the keys that its record calls for, of all four kinds |
| Ledger.AppendedLog | dcb-layer/src/append.rs:152-156 | an append adds its events to the log in their order, numbered from 0 in the last two bytes of their positions |
| Ledger.LogSorted | dcb-layer/src/types.rs:6-9 | positions in the log are strictly increasing, across and within batches |
| Ledger.RecordIndexKey | dcb-layer/src/append.rs:21-45 | an append writes an index key exactly for its events and the subsets of their tags |
| Ledger.RecordEventKey | dcb-layer/src/append.rs:27-31 | an append writes a primary key exactly for its events, with the encoded event |
| Ledger.RecordSentinel | dcb-layer/src/append.rs:89-94 | exactly the appends of a namespace write its sentinel, with their own version |
| Ledger.RecordCursor | dcb-layer/src/subscribe.rs:29-39 | exactly the cursor writes of a namespace and name write that cursor key |
| Ledger.IndexInvariant | dcb-layer/src/append.rs:20-45 | in every store, an index key exists exactly when the log has an event of that type at that position whose tags include the subset |
| Ledger.EventInvariant | dcb-layer/src/append.rs:27-31 | in every store, a primary key exists exactly for the positions of the log and holds that event |
| Matching.DiscoverExact | dcb-layer/src/query.rs:79-119 | type discovery lists, each once, exactly the types that have an event with all the tags |
| Matching.TypedRangesExact | dcb-layer/src/query.rs:143-175 | the index keys of an event meet the ranges of a list of types exactly when it carries the tags and one of the types reaches it |
| Matching.DiscoveryTouched | dcb-layer/src/query.rs:82-90 | the index keys of an event meet the discovery scan exactly when it carries the tags |
| Matching.ItemRangesFind | dcb-layer/src/query.rs:132-176 | the ranges built at a snapshot meet every matching event of that snapshot, for all type names |
| Reading.ItemTouchedExact | dcb-layer/src/query.rs:132-176 | with the item apart in the log, index keys of an event fall into an item's ranges exactly when the item matches and the position is after the bound |
| Merge.MergeHeap.Push | dcb-layer/src/read.rs:54-59 | adds the item to the heap |
| Merge.MergeHeap.Pop | dcb-layer/src/read.rs:61-66 | takes out the first item in the direction of the merge, or nothing from an empty heap |
| Merge.NextVs | dcb-layer/src/read.rs:273-281 | takes the next key of a stream: its position, an error on a key without a stamp, nothing at the end |
| Merge.SeedHeap | dcb-layer/src/read.rs:197-203 | after seeding, the heap holds the head of every stream |
| Merge.AdvanceAndRepush | dcb-layer/src/read.rs:261-270 | after a pop the heap again holds the heads, with one stream advanced |
| Merge.MergeRound | dcb-layer/src/read.rs:209-227 | one round keeps the merge state: skip a repeated position, or emit, and stop at the limit |
| Merge.MergeStreams | dcb-layer/src/read.rs:197-227 | the merge terminates, fails only on a key without a stamp, and gives the ordered duplicate-free union of ordered streams, or its first `limit` elements; for all streams it leaves nothing out before the limit |
| Reading.CutMerge | dcb-layer/src/read.rs:182-227 | merging streams that were each cut at the limit gives the first `limit` elements of the whole union, in both directions, duplicates included |
| Reading.TypedRangeStream | dcb-layer/src/read.rs:182-195 | with the type apart in the log, a typed range yields in order exactly the positions of its events after the bound |
| Reading.ReadPositions | dcb-layer/src/read.rs:131-229 | merging the cut streams of a query's ranges gives the positions of the filtered, ordered and cut log |
| Reading.ReadSpecMeans | dcb-layer/src/read.rs:131-230 | what the specified result of a read is: only selected events of the log, in order of position, upwards or downwards, no more than the limit; a selected event is missing only if the limit is reached, and then it comes after all of them |
| Reading.FetchLogged | dcb-layer/src/read.rs:235-258 | fetching positions of the log always succeeds with the log's events; `EventNotFound` never happens |
| QueryMethods.TagSentinelElems | dcb-layer/src/query.rs:50-59 | the loop builds namespace, "i", the tags and "_" |
| QueryMethods.CollectTypes | dcb-layer/src/query.rs:97-118 | the scan loop computes the discovery function: second-to-last strings of long enough keys, each once, first failure wins |
| QueryMethods.DiscoverTypesInTagSubspace | dcb-layer/src/query.rs:82-119 | discovery inside a transaction, and that a non-snapshot one records exactly its scan range |
| QueryMethods.BuildQueryRanges | dcb-layer/src/query.rs:132-176 | the ranges of an item at the read version, and the conflict ranges recorded on the way |
| ReadMethods.BuildAllRanges | dcb-layer/src/read.rs:144-150 | the ranges of all items at one read version; the first failing item decides the error |
| ReadMethods.ReadSingleRange | dcb-layer/src/read.rs:158-178 | the fast path returns the positions of the range, in direction and cut |
| ReadMethods.ReadMergedRanges | dcb-layer/src/read.rs:180-227 | the merge path returns a merge of all ranges |
| ReadMethods.FetchEvents | dcb-layer/src/read.rs:235-258 | the events at the positions, in order; the first failure decides |
| ReadMethods.QueryRangesFail | dcb-layer/src/query.rs:139-141 | building ranges fails exactly on an item with neither type nor tag, with `InvalidQuery` |
| ReadMethods.MergedIsSpec | dcb-layer/src/read.rs:144-230 | fetching merged positions never fails, and with the items apart in the log gives the specified events |
| ReadMethods.ReadEvents | dcb-layer/src/read.rs:131-230 | one attempt, on all three paths: with the items apart in the log, exactly the events of the log that match and lie after the bound, ordered and cut; for all names only events of the log, no more than the limit, and no selected one missing below it; other failures than the database's are invalid queries |
| ReadMethods.MergedDependable | dcb-layer/src/read.rs:144-258 | for all type names: what is fetched at the positions of the query's ranges are events of the log, and below the limit all selected ones |
| ReadMethods.Read | dcb-layer/src/read.rs:87-107 | with retries: what a read promises (the specified result with the items apart, a dependable one for all names) for the log at some moment between call and return; it commits nothing; a database error is that of the last attempt and one the error handler gave up on, for lack of budget only after 10 resets; with nothing reported, a valid query is answered |
| ReadMethods.DecodeAll | dcb-layer/src/read.rs:309-317 | the scan loop decodes row by row; the first failure decides |
| ReadMethods.ScanAllEvents | dcb-layer/src/read.rs:303-320 | the scan of the primary subspace returns the whole log at the read version, or a database error |
| ReadMethods.ReadAll | dcb-layer/src/read.rs:115-124 | with retries: the whole log at some moment between call and return; errors as for a read, and none when the database reports none |
| Scanning.ScanIsLog | dcb-layer/src/read.rs:303-320 | on every store the scan decodes to the log, in order |
| Vocabulary.VocabularyExact | dcb-layer/src/query.rs:63-67 | reads over a vocabulary of logged and one of queried type names are right if and only if no logged name continues a queried one with 0x00 |
| Vocabulary.Misread | dcb-layer/src/query.rs:63-67 | for each such pair, a log and a query that are read wrongly |
| Vocabulary.Misrefused | dcb-layer/src/append.rs:201-225 | for each such pair, a log and a condition that is refused although it selects nothing |
| Vocabulary.ConditionVocabularyExact | dcb-layer/src/append.rs:108-150 | condition checks over two vocabularies are right if and only if no logged name continues a queried one with 0x00 |
| Probing.ProbesHave | dcb-layer/src/append.rs:113-122 | the probes are the items of all conditions with their bounds |
| Probing.HitExact | dcb-layer/src/append.rs:201-225 | an existence probe finds a key exactly when an event of the log stands against it |
| Probing.BlocksExact | dcb-layer/src/append.rs:201-225 | what stands against a probe: an event that its item matches after the bound, or an event of a type that continues one of the item's types with 0x00 |
| Probing.ConditionsExact | dcb-layer/src/append.rs:108-150 | for every log and all conditions: something stands against the probes exactly when some condition selects an event or some item is not apart in the log |
| Probing.SelectedBlocks | dcb-layer/src/append.rs:108-150 | an event that a condition selects is never missed, for all type names |
| Probing.ConflictExact | dcb-layer/src/append.rs:108-111 | a later commit falls into the recorded ranges exactly when one of its events disturbs a probe |
| Probing.OptimisticCheck | dcb-layer/src/append.rs:108-150 | no hit at the read version and no conflict since: nothing stands against the conditions at commit |
| Probing.ConflictIffBlocked | dcb-layer/src/append.rs:201-225 | after clear probes, a conflict happens exactly when an event now stands against a probe or a tags-only probe meets an event before its bound: other independent writers never abort each other |
| Probing.FalseConflict | dcb-layer/src/query.rs:82-90 | an input of the second kind: a conflict, and nothing stands against the probe |
| Probing.ConflictIffSelected | _doc/model_proof/DCBConflict/Matching.lean:7-15 | the same in terms of queries: conflict if and only if a condition now selects an event, unless an item is not apart or a tags-only item meets an event before its bound |
| AppendMethods.AppendSingle | dcb-layer/src/append.rs:21-45 | buffers the primary mutation and one index mutation per subset of the sorted tags |
| AppendMethods.AppliedAppend | dcb-layer/src/append.rs:152-156 | at any commit version the buffered mutations are the batch's event, index and sentinel keys |
| AppendMethods.WriteBatch | dcb-layer/src/append.rs:152-156 | buffers what means the record of the batch |
| AppendMethods.ConsumeFirstKv | dcb-layer/src/append.rs:190-199 | whether the stream has a first key; errors pass through |
| AppendMethods.QueryItemExists | dcb-layer/src/append.rs:201-225 | whether the item's ranges hold a key at the read version; when not, all of them are conflict ranges |
| AppendMethods.RunProbes | dcb-layer/src/append.rs:112-123 | one result per item of each condition, all at one read version |
| AppendMethods.Tally | dcb-layer/src/append.rs:125-137 | the first error of each kind, database and other, with no earlier one of its kind in the results, and whether anything matched |
| AppendMethods.ValidateEvents | dcb-layer/src/append.rs:56-71 | accepted if and only if there are 1 to 65535 events, each with a type, at most 10 tags and no tag "_"; a rejected batch gets the error of its first invalid part |
| AppendMethods.ValidateConditions | dcb-layer/src/append.rs:72-84 | accepted if and only if each condition has an item, and each item a type or a tag and no tag "_"; rejected ones get the error of the first invalid part |
| AppendMethods.CheckConditions | dcb-layer/src/append.rs:112-150 | a match means an event stands against a condition at the read version; no match means all probes are empty and covered |
| AppendMethods.Refusal | dcb-layer/src/append.rs:138-150 | an attempt is refused only if a probe found a key and none failed; the first database failure of a probe goes before a refusal |
| AppendMethods.CommitBatch | dcb-layer/src/append.rs:152-163 | the batch is committed at a moment when nothing stands against its conditions; with idempotency on, a failed commit did not happen |
| AppendMethods.Attempt | dcb-layer/src/append.rs:99-163 | one attempt: committed, refused, or a database error and nothing written by this client |
| AppendMethods.Reply | dcb-layer/src/append.rs:164-175 | the reply is the position of the last event, or the reported failure to get the stamp |
| AppendMethods.AppendLoop | dcb-layer/src/append.rs:99-182 | the retry loop ends within its budget, and all it commits over its attempts is the batch, at most once; an error of the database is one the error handler gave up on, or a stamp that could not be had after the commit |
| AppendMethods.Append | dcb-layer/src/append.rs:51-183 | whatever others do: this client's only commits are the batch, at most once, exactly once on `Ok`, with the conditions holding just before; a refusal had a cause during the call and committed nothing; it goes past validation if and only if events and conditions are valid (limits spelled out), and otherwise changes nothing; a database error is one given up on, for lack of budget only after 100 resets, or a lost stamp after the commit, and none is returned when none was reported |
| Protocol.StepRefines | dcb-layer/src/append.rs:99-182 | each step of a system of concurrent appending clients is a step of the atomic log or none |
| Protocol.RunRefines | dcb-layer/src/append.rs:99-182 | every run of any number of clients is a run of the atomic log, state by state |
| Protocol.CommitUnblocked | dcb-layer/src/append.rs:108-163 | a client that can commit has nothing against its conditions in the log of that moment |
| Protocol.RefuseBlocked | dcb-layer/src/append.rs:148-150 | a client that is refused has something against its conditions, still |
| Protocol.CommitEnabled | dcb-layer/src/append.rs:108-163 | a cleared client meets a conflict exactly when an event now stands against its conditions, or before the bound of one of its tags-only items |
| Growth.StoreGrowth | dcb-layer/src/append.rs:152-156 | an append adds 1 + 2^k new keys per event with k distinct tags, and a namespace's first append its sentinel |
| Growth.ReturnedIsGreatest | dcb-layer/src/append.rs:168-175 | the returned position is that of the last event of the batch and the greatest in the log |
| Growth.ReadsIsolated | dcb-layer/src/query.rs:63-90 | a write of another namespace changes no read: the ranges of any items, what each yields under any limit and direction, and the events at any positions |
| Growth.NamespacesIsolated | dcb-layer/src/encoding.rs:69-119 | a commit in another namespace changes no read, scan, cursor, sentinel or probe, and conflicts with none |
| Decisions.SplitAtBound | dcb-layer/src/read.rs:131-230 | reading on from the last position of a page gives exactly what the page left |
| Decisions.ReadStillCurrent | dcb-layer/src/append.rs:108-150 | if nothing stands against "nothing after the last event read", what was read is still all there is |
| Decisions.ReadDecideAppend | dcb-layer/src/append.rs:108-150 | through the store's own methods: the only commit is the batch, at most once and after the version read, and just before it the query selects nothing but what was read for all type names, exactly what was read with the items apart |
| Decisions.ReadMissesNothing | dcb-layer/src/append.rs:108-150 | for all type names: if nothing stands against "nothing after the last event read", an unlimited read has missed nothing that is selected by now |
| Decisions.PagesGapFree | dcb-layer/src/read.rs:72-77 | pages that keep what a read promises, chained by their last positions, are an initial part of the final log's selection when the query is apart there, whatever is appended between them |
| Decisions.LastPageReachesEnd | dcb-layer/src/read.rs:72-77 | with such pages, a last page that is not full leaves out nothing of the log it was read from |
| Decisions.ReadInPages | dcb-layer/src/read.rs:72-77 | through the store's own methods: page after page gives an initial part of the selection, and all of it as of a moment during the call when the last page is not full |
| SubscribeMethods.CursorExact | dcb-layer/src/subscribe.rs:10-27 | the cursor key holds the last position stored under the name |
| SubscribeMethods.GetCursor | dcb-layer/src/subscribe.rs:10-27 | returns the cursor as of some moment during the call, or the failure that was reported |
| SubscribeMethods.SetCursor | dcb-layer/src/subscribe.rs:29-39 | this client's only commits are writes of that position, at least one on success; an error is one the error handler gave up on, and with nothing reported it succeeds |
| SubscribeMethods.CursorRoundTrip | dcb-layer/src/subscribe.rs:10-39 | a stored cursor is read back exactly, unless another position is stored later |
| SubscribeMethods.SentinelNeverRepeats | dcb-layer/src/append.rs:89-94 | the sentinel has the same value at two versions exactly when nothing was appended between them |
| SubscribeMethods.SilentMeansQuiet | dcb-layer/src/subscribe.rs:41-60 | a watch on the sentinel is due exactly when something was appended since; a silent one means an unchanged log |
| SubscribeMethods.RegisterSentinelWatch | dcb-layer/src/subscribe.rs:52-60 | the armed watch is due exactly for appends after its read version; an error is the failure that was reported |
| Subscription.NoLostWakeUp | dcb-layer/src/subscribe.rs:41-60 | in every run over a ledger in which its query is apart, a parked subscriber whose watch is not due has been given every event it follows |
| Subscription.GapFreeDelivery | dcb-layer/src/subscribe.rs:41-60 | in every such run only wanted events are delivered, none before all earlier ones |
| Subscription.CursorSkipsNothing | dcb-layer/src/subscribe.rs:29-39 | in every such run everything up to the durable cursor was delivered, even with late or repeated cursor writes |
| Subscription.DeliversAfterCursor | dcb-layer/src/subscribe.rs:10-39 | in every such run, between one load of the cursor and the next, only events after the loaded position are delivered |
| Subscription.CatchUp | dcb-layer/src/subscribe.rs:44-47 | through the store's own methods: pages read and handed over are gap-free, and complete as of a moment during the call when the last one is empty; the only commits store positions of delivered events: for each event its own or that of one less than a page later, and the last event's last |
| Subscription.Round | dcb-layer/src/subscribe.rs:41-60 | one round through the store's own methods, watch first: it returns the watch as armed at a version during the round; gap-free from a cursor loaded since then, with those commits only; with one consumer the stored cursor ends at the last event delivered; a subscriber that parks has read to the end of the log at a version since the watch was armed, and while the watch is not due has been given exactly what its query selects after the loaded cursor |
| Subscription.GoesOn | dcb-layer/src/subscribe.rs:29-39 | with one consumer per name, the cursor after a round is where the next one goes on |

## Left out

- The FoundationDB client itself: network, futures and pipelining, streaming modes, time and size limits, back-off. Probes and range builds that the code issues together are made one after the other at the same read version.
- The 4-byte little-endian offset suffix of versionstamp operands: a template carries its offset instead (`Encoding.Template`).
- Tuple type codes other than byte string, string, nested tuple and versionstamp, and nil inside nested tuples: the store writes none of them.
- UTF-8: strings are their bytes, and every byte string is allowed as a string. An undecodable string in a key is therefore not an error case.
- Reads of a transaction's own buffered writes: every read of the store comes before its first write.
- ReadMethods.Read: the retry wrapper of the client library, whose source is not part of this model, is a loop with the database's own retry budget of ten; its commit of a transaction that wrote nothing is left out.
- SubscribeMethods.SetCursor: the code retries without a limit; the model allows any finite number of retries.
- SubscribeMethods.RegisterSentinelWatch: the future that resolves when the watch fires is the predicate `Due`; errors of the watch are the spurious wake-ups of `Subscription.StartOver`.
- Merge.MergeHeap.Pop: the library's heap is a multiset with an ordered pop, and its sort a function; their own algorithms belong to the Rust standard library.
- Several consumers on one cursor name: the code documents last-writer-wins and asks for one consumer per name. The subscriber is modelled as the only one that stores its cursor.
- `vs_to_fdb` (`dcb-layer/src/encoding.rs:58-63`): a stamp is its twelve bytes, so splitting it into version and batch index and packing it again is the identity.
- Failures of `create_trx` and `set_option`, which make no request to the database: starting a transaction and setting its options always succeed.
- Error texts, hexadecimal printing, the Elixir bindings, and the proposals of ADRs 0015 to 0020.
