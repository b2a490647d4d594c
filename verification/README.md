# What my-sqweel keeps: a Dafny model

This project models the parts of the SQL server `my-sqweel` that have to be right in every run, and
proves what they promise. `dafny verify dfyconfig.toml` checks all of it.

**Durable commits.** A commit turns two engine states into a batch of mutations (`Delta`; `DeltaOrder`
says that what is in the batch and its order determine it), the batch into key-value writes under
NUL-separated namespaces (`TableKeys`, `JsonStrings`, `RocksStore`, `RocksBackend`), and a restart pages
everything back with a cursor (`Paging`, `Durability`). `Batches` is the contract between the two sides:
metadata before rows, as the file backends carry it out. The theorem at the end,
`Durability.RunIsDurable`, goes over every run of commits: what a load returns is the last committed
state, except when one table shape loses rows, and exactly then. `Truncation` builds such states.

**The CSV backend.** `Csv` is the printer and the parser, `CsvGrammar` the files the parser accepts,
`FileNames` and `Utf8` the names of the row files, and `Generations` the commit protocol with a crash at
any step, torn files included; `GenerationsLoad` says which directories load and what a commit leaves on
disk. `CsvDurability` puts diff, contract, generations and pager together: over every run of commits,
each cut off at any file step or carried through, with restarts in between, a load returns the last
committed state.

**The change feed.** `ChangeFeed` turns a pair of states into ordered events and replays them on a
consumer's mirror, for any pointer sharing between the two states. `FeedRows` and `FeedEvents` say what
the feed tells, without its functions: the key of a row, the rows of a table, and of each kind of event
which ones are in the feed and in which order. `Delivery` takes the events through bounded queues,
worker by worker, in every interleaving of the threads involved; `Endings` is about the end of a
subscription, `DeliveryProgress` about everything that can always go on. `Replication` joins feed and
delivery: what an open subscriber has received rebuilds the last committed state.

**Shutting down.** `Endpoint` interleaves the accept thread, the session workers and `shutdown`;
`Serving` says what the accept thread does for clients meanwhile.

**Text and values.** `Levenshtein` and `Highlight` are the search text algorithms over arrays and byte
offsets, and `HighlightHits` says which bytes are highlighted, in terms of text and search terms alone;
`Digits` and `Decimals` round decimals digit by digit; `TimeValues` is the TIME codec of the wire
protocol, with the texts that write a value and the bytes that carry it; `Rewriters` and
`ExtractRewriter` are the rewriters in front of the SQL parser, `Spellings` and `ExtractGrammar` say
which words and which expressions they take, and `ExtractPasses` and `ExtractQuotes` when a second pass
and when quotes make a difference; `SqlMask` is the masker of the compatibility tools, and `SqlParts`
what becomes of each part of a text.

Code that works step by step is a method with loops, or a class whose methods state their whole new
state by a function; what the source promises is proved about that function.

## Results worth knowing

Each of these is a lemma; the code is modelled as it is.

- A row whose key is `0` and which ends a full page of 512 rows, with rows behind it, hides those rows
  from a load: the cursor `"0"` is also the sign for "no more". `Durability.ReloadRestores` says that
  a load is complete if and only if no table is in that state; 511 rows with the ids -1 to -511, and the
  rows 0 and 1, are one (`Truncation.UnluckyStateIsLost`). The pager of the file backends has no such
  sign and is always complete (`Paging.ReadAllPages`, `CsvDurability.RunIsDurable`).
- `DeleteDatabase` picks its tables from the store as it was before the batch. `RocksBackend.BatchRefines`
  says for every batch when the store nevertheless ends as the contract says: if and only if every table
  that is put and later dropped with its database was stored before, and no stored row of such a database
  is without its table. A put followed by the deletion of its database is the smallest batch that can
  fail (`RocksBackend.CreatedThenDeletedSurvives`); the batches of a diff never do.
- Applying a diff restores the new state if and only if no kept row lies under a table without a schema
  (`Delta.DiffRestores`); a well-formed state has none (`Delta.WellFormedLosesNothing`).
- The engine adds the catalog to a batch that has none, so the first commit always stores one
  (`Delta.CommitBatchPatches`).
- Replaying the change feed gives the new state if and only if no table changes from temporary to
  persistent or back within the commit, and no rows shared by the two states read differently
  (`ChangeFeed.FeedReplays`). For an evaluator that reads a schema only through its columns and their
  order, the second can happen only where a commit reorders columns, which the shortcut for shared rows
  does not look at (`ChangeFeed.PersistentFeedReplays`).
- A worker task can be dropped with its runtime while its listener is active. The registry finds out
  when it next emits an event the listener accepts, and never later (`Delivery.ClosedIsNoticed`).
- The second call of `stop` in `stop_accepting` never finds a socket to shut down
  (`Endpoint.SecondStopIsRedundant`).
- Where a session's thread cannot be started, its socket stays registered for good, with the accept thread
  at its end; in every other case a registered socket belongs to a running session or to one that is about
  to start (`Serving.SocketIsRegistered`).
- Losing its worker gives a listener no outcome; only a failed or panicking callback, a cancellation, or an
  emission that finds the queue full or closed does (`Endings.OutcomeHasCause`).
- A negative zero is printed only for zero-valued texts whose integer part has more than one digit, such as
  `-00.0` (`Decimals.NegativeZero`, `Decimals.MinusZeroIsPrinted`).
- A TIME value survives the binary protocol if and only if it is not a negative zero and has no forced
  all-zero fraction (`TimeValues.WireRoundTrip`).
- The two keyword rewriters are idempotent. The EXTRACT rewriter is not: a second pass changes nothing if
  and only if no match is nested in the expression of a replaced one (`ExtractPasses.SecondPassIsIdle`).
- The EXTRACT rewriter does not know quotes: quoted text passes through if and only if no match is
  replaced inside quotes (`ExtractQuotes.QuotesPassIff`).
- Masking twice masks more than masking once if and only if somewhere in the code two dashes stand right
  in front of something that is masked (`SqlMask.SecondPassIsIdle`).

## Model

| member | source | states |
|---|---|---|
| Durability.RunIsDurable | src/storage/delta.rs:7-172 | After any prefix of any run of commits of well-formed states, the store represents contents from which a load returns exactly the last committed catalog, schemas, auto-increments and rows, with fresh creation times and an empty row map per schema, if and only if no table closes a full page with the row key `0`. |
| Durability.RunKeepsContents | src/storage/async_store.rs:234-312 | Over every run the key-value store stays the encoding of the contents the abstract batches build, and those are the persisted form of the last committed state. |
| Durability.ReloadRestores | src/storage/delta.rs:7-70 | Loading the persisted form of a well-formed state gives that state back, up to creation times and empty row maps, if and only if the state has no table that the end sign truncates. |
| Durability.ContentsAreDetermined | src/storage/async_store.rs:314-327 | A store is the encoding of at most one contents. |
| Durability.LoadState | src/storage/delta.rs:7-70 | The loops over databases, tables and pages return the reload function of the represented contents: None without a catalog, the version error, or the rebuilt state; never the non-advancing-cursor error. |
| Durability.LoadDatabase | src/storage/delta.rs:18-63 | One database of a load: its listed tables with schema, auto-increment and paged rows. |
| Durability.LoadDatabases | src/storage/delta.rs:17-64 | All databases of the catalog, each with its own creation time. |
| Durability.LoadRows | src/storage/delta.rs:30-49 | The cursor loop ends, never meets its non-advancing error, and returns the rows of the pages up to the first cursor that reads as the end. |
| Durability.ScanRows | src/storage/async_store.rs:216-232 | One page: the next rows behind the cursor, at most `limit`, and no cursor exactly when the store's cursor is the end sign. |
| Durability.LoadTable | src/storage/async_store.rs:202-214 | The stored table, or None. |
| Durability.ListTables | src/storage/async_store.rs:186-200 | Exactly the tables of the database, through decoding the field names. |
| Durability.LoadCatalog | src/storage/async_store.rs:173-184 | The stored catalog, or None. |
| Durability.OnlyVersionOneLoads | src/storage/delta.rs:7-16 | A load of a store that holds a catalog gives a state if and only if the version of the catalog is 1, and the error with the version otherwise. |
| Delta.StorageBatchOf | src/storage/delta.rs:92-172 | The nested loops push exactly the mutations of the diff, in its order and each once: the catalog, the dropped databases with their tables, then database by database and table by table in name order. |
| Delta.DiffIsExact | src/storage/delta.rs:92-172 | That list of mutations holds a mutation if and only if the two states need it. |
| Delta.TableMetadata | src/storage/delta.rs:121-143 | The schema change of one table, pushed once: a delete without a new schema, a put when schema or auto-increment changed, nothing otherwise. |
| Delta.DeletedRows | src/storage/delta.rs:144-156 | Exactly the rows that are gone, in key order, each once. |
| Delta.WrittenRows | src/storage/delta.rs:157-168 | Exactly the rows that are new or changed, in key order, each once. |
| Delta.DroppedDatabases | src/storage/delta.rs:99-111 | Exactly the dropped databases in name order, each followed by its tables. |
| Delta.ChangedDatabase | src/storage/delta.rs:112-170 | The metadata and the rows of one database that stays or is new, table by table in name order. |
| Delta.ChangedDatabases | src/storage/delta.rs:112-170 | The same for all databases, in name order. |
| Delta.DiffRestores | src/storage/delta.rs:92-172 | Patch inverse: applying all metadata and then all rows of the diff to the persisted form of before gives the persisted form of after, if and only if no row that both states hold lies under a table without a schema. |
| Delta.PatchRestores | src/storage/delta.rs:92-172 | The same for a store that may not hold a catalog yet, when the batch puts one. |
| Delta.CommitBatchPatches | src/sql/engine/transaction/persistence.rs:208-226 | The batch the engine commits always puts the new catalog and is still a patch between the two states. |
| Delta.WellFormedLosesNothing | src/storage/delta.rs:92-172 | For a well-formed after the condition holds, so its diff restores it from every before. |
| Delta.EmptyIffUnchanged | src/storage/async_store.rs:118-122 | For well-formed states the diff is empty if and only if their persisted forms are equal. |
| Delta.RowIsNeeded | src/storage/delta.rs:144-168 | Every row mutation names a key whose stored value differs between the two states. |
| Delta.MetadataIsNeeded | src/storage/delta.rs:94-143 | The stored item that a metadata mutation names differs between the two persisted forms; for a dropped database that is the catalog. |
| DeltaOrder.DiffIsDetermined | src/storage/delta.rs:92-172 | A batch is the diff if and only if it holds exactly the needed mutations in strict order: the catalog, dropped databases with their tables, then tables by name; rows by table, deletions before puts, then by key. |
| DeltaOrder.DiffIsOrdered | src/storage/delta.rs:92-172 | Both lists of the diff are in that order, so nothing is named twice. |
| DeltaOrder.CommitIsDetermined | src/sql/engine/transaction/persistence.rs:208-226 | The batch the engine commits is the only one that is in that order and holds the new catalog, changed or not, and the other changes of the diff: the catalog comes first and once. |
| RocksBackend.BatchRefines | src/storage/async_store.rs:245-312 | For every store and every batch: decoding the store after the writes gives the contract's result if and only if every table left behind by a dropped database was stored before, and every stored row of such a database without a table is written over. |
| RocksBackend.MetadataRefines | src/storage/async_store.rs:247-288 | The same for every list of metadata mutations: if and only if what is put and then dropped with its database was listed before, and no row is stranded. |
| RocksBackend.MetadataIsExact | src/storage/async_store.rs:247-288 | What the store holds after any list of metadata mutations: their effect, with each dropped database losing only the tables listed before the batch. |
| RocksBackend.BatchIsExact | src/storage/async_store.rs:245-312 | The same with the row mutations that follow. |
| RocksBackend.OrderedBatchRefines | src/storage/async_store.rs:245-312 | A batch that deletes before it puts refines the contract on every store whose rows have tables, as every diff does. |
| RocksBackend.RowsRefine | src/storage/async_store.rs:289-310 | Row writes refine row mutations in any order. |
| RocksBackend.CreatedThenDeletedSurvives | src/storage/async_store.rs:254-268 | Put a table, then delete its database: the store ends as the contract says if and only if the table was stored before. |
| RocksBackend.PlaceKeyIsInjective | src/storage/mod.rs:248-254 | Two stored items never share a key. |
| RocksBackend.RowsNamespaceCovers | src/storage/mod.rs:236-240 | The prefix of a table's rows covers exactly that table's rows. |
| RocksBackend.RocksDbStorage.RocksWrites | src/storage/async_store.rs:245-312 | The two loops push the writes of the specification, with the tables of a dropped database read from the current store. |
| RocksBackend.RocksDbStorage.MetadataToWrites | src/storage/async_store.rs:247-288 | The writes of one metadata mutation. |
| RocksBackend.RocksDbStorage.DropDatabase | src/storage/async_store.rs:254-268 | One pair of deletions per listed table of the database. |
| RocksBackend.RocksDbStorage.Commit | src/storage/async_store.rs:234-242 | The store after a commit is the store before with the batch's writes; an empty batch changes nothing. |
| Batches.MetadataSettles | examples/json_storage.rs:125-152 | What a list of metadata mutations leaves at a place on which they agree. |
| Batches.RowsSettle | examples/json_storage.rs:153-183 | The same for row mutations. |
| Batches.FileState.Apply | examples/json_storage.rs:124-184 | The nested maps, updated in place, hold the contract's result: metadata first, then rows. |
| Batches.FileState.ApplyOneMetadata | examples/json_storage.rs:126-151 | One metadata mutation, place by place; everything else stays. |
| Batches.FileState.ApplyOneRow | examples/json_storage.rs:154-182 | One row mutation, place by place; everything else stays. |
| TableKeys.DecodeEncode | src/storage/async_store.rs:314-320 | Reading an encoded table key gives database and table back, for all strings, as JSON string escaping (section 7 of RFC 8259) promises. |
| TableKeys.EncodeIsInjective | src/storage/async_store.rs:314-316 | Different tables have different field names. |
| TableKeys.RowsKeyIsInjective | src/storage/async_store.rs:322-327 | Different tables have different row namespaces. |
| TableKeys.RowsKeyIsNulFree | src/storage/async_store.rs:322-327 | No namespace contains the NUL that ends it. |
| TableKeys.NamespacesDiffer | src/storage/async_store.rs:20-22 | The catalog, the table list and the rows never share a namespace. |
| JsonStrings.ReadIsWriting | src/storage/async_store.rs:318-320 | The reader of a JSON string reads some characters from a text if and only if the text starts with a way to write them: as they are, by short escape, by four hex digits, or by two surrogates, up to the closing quote. |
| JsonStrings.DecodedIsArray | src/storage/async_store.rs:318-320 | A field name is read as a table if and only if it is a JSON array of two such strings, with JSON white space anywhere between the parts and nothing behind it. |
| JsonStrings.EscapeIsShortest | src/storage/async_store.rs:314-316 | No way to write a character is shorter than the one that is written. |
| JsonStrings.WritingIsShortest | src/storage/async_store.rs:314-316 | The same for whole strings. |
| JsonStrings.EscapeIsSmall | src/storage/async_store.rs:314-316 | Hex digits are written small. |
| RocksStore.NamespacesAreDisjoint | src/storage/mod.rs:248-254 | For NUL-free namespaces a prefix scan of one meets a key of another only if they are the same. |
| RocksStore.RocksDbStore.ScanPrefixPage | src/storage/mod.rs:135-161 | The seek loop returns exactly the next `count` keys with the prefix behind the cursor, in order, with their values. |
| RocksStore.RocksDbStore.ScanPrefix | src/storage/mod.rs:131-133 | All keys with the prefix, in order. |
| RocksStore.RocksDbStore.HGetAll | src/storage/mod.rs:174-187 | Exactly the fields of the namespace. |
| RocksStore.RocksDbStore.HScan | src/storage/mod.rs:189-213 | The next page of fields in field order, and the cursor: the last field when there is more, the end sign otherwise. |
| RocksStore.FullKeysSortAsFields | src/storage/mod.rs:189-204 | Within a namespace full keys are ordered as their fields, so a cursor of the field behaves as a cursor of the key. |
| Ordering.LessAtDifference | src/storage/mod.rs:135-161 | The order of the keys: the first differing character decides, and a proper prefix comes first. |
| RocksStore.RocksDbStore.HSetField | src/storage/mod.rs:163-167 | The hash of that namespace gains the field; no key outside the namespace changes, and the hash of no other NUL-free namespace. |
| RocksStore.RocksDbStore.HDelField | src/storage/mod.rs:169-172 | The hash of that namespace loses the field; no key outside the namespace changes, and the hash of no other NUL-free namespace. |
| RocksStore.RocksDbStore.WriteBatch | src/storage/mod.rs:226-245 | The ordered writes, with prefix deletions taken from the store before the batch, applied at once. |
| RocksStore.RocksDbStore.DeleteAll | src/storage/mod.rs:236-240 | A prefix deletion removes exactly the keys of its namespace that are in the store. |
| RocksStore.DeletionsRemove | src/storage/mod.rs:226-245 | A list of deletions removes a key exactly when one of them names it. |
| Paging.PagesAreComplete | src/storage/delta.rs:30-49 | The pages of a table reach its last row if and only if no row but the last has the key `0` at a multiple of the page size. |
| Paging.PagesEndAtBoundary | src/storage/mod.rs:189-213 | The same from any page boundary on. |
| Truncation.SentinelLosesRows | src/storage/mod.rs:199-211 | For every page size there is a table whose row `0` ends a full page with a row behind it. |
| Truncation.LoadMissesRows | src/storage/delta.rs:30-49 | No load brings back a well-formed state that has such a table at the page size in use. |
| Truncation.UnluckyStateIsLost | src/storage/delta.rs:7-70 | Such states exist: one database, one table, 513 rows, well-formed, and not restored by a load of what it persisted. |
| Paging.FieldsBehind | src/storage/mod.rs:189-204 | Behind a cursor that is the last field of a page stand exactly the later fields. |
| Paging.PageRows | examples/json_storage.rs:101-122 | A page of a file backend: the first rows behind the cursor, and a cursor exactly when there are more. |
| Paging.ReadAllPages | src/storage/delta.rs:30-49 | Over that pager the loop always advances and collects every row. |
| ChangeFeed.FeedReplays | src/sql/engine/hooks.rs:318-451 | Replaying the events of a commit in emission order on a mirror of a well-formed before gives a mirror of after, for every sound pointer relation, if and only if no table flips its temporary flag and no rows shared under one shape read differently. |
| ChangeFeed.PersistentFeedReplays | src/sql/engine/hooks.rs:318-451 | For an evaluator that reads a schema only through its columns and their order: if and only if no table flips its temporary flag and no shared rows whose columns were reordered read differently. |
| ChangeFeed.ShortcutIsSafe | src/sql/engine/hooks.rs:391-400 | For such an evaluator, skipping a table whose rows are one allocation under the same key and columns loses a change only where the column order changed. |
| ChangeFeed.FeedAt | src/sql/engine/hooks.rs:443-450 | Of all emitted events those of one table are its delete, drop, schema and write, in this order. |
| ChangeFeed.ReplayByTable | src/sql/engine/hooks.rs:50-79 | What a mirror holds of a table depends on that table's events alone. |
| ChangeFeed.TableReplays | src/sql/engine/hooks.rs:351-440 | The replay theorem for one table: created, dropped, kept, or with a changed primary key. |
| ChangeFeed.FlipIsMissed | src/sql/engine/hooks.rs:351-366 | A commit that makes a temporary table persistent: its feed is empty, and no mirror of before becomes one of after. |
| ChangeFeed.DeletesKeep | src/sql/engine/hooks.rs:411-419 | The delete event leaves exactly the rows whose key is still there. |
| ChangeFeed.WritesRebuild | src/sql/engine/hooks.rs:420-428 | The write event then completes them to exactly the current rows. |
| ChangeFeed.RowsFromKeyed | src/sql/engine/hooks.rs:462-477 | Rows are filed under the identity of their own key. |
| ChangeFeed.FeedIsQuiet | src/sql/engine/hooks.rs:351-440 | A commit that changes no mirrored table emits nothing. |
| ChangeFeed.ListenersAreIndependent | src/sql/engine/hooks.rs:82-96 | Filtering the feed of everybody's options by one listener's options leaves exactly the feed of its own options. |
| ChangeFeed.Changes | src/sql/engine/hooks.rs:318-451 | The loops over databases and tables fill the four vectors as specified; the first row that cannot be read is the result, and nothing is emitted. |
| ChangeFeed.DatabaseChanges | src/sql/engine/hooks.rs:334-441 | One database: skipped when both sides are one allocation, otherwise table by table. |
| ChangeFeed.VisitedIsKnown | src/sql/engine/hooks.rs:334-350 | Every table with a schema on either side is visited, once. |
| FeedRows.ShownIsHookRow | src/sql/engine/hooks.rs:479-503 | A stored row is shown as a row with a key if and only if: its values are the evaluated ones, cut to the columns of the table if it has any; and its key has exactly the columns of the primary key, each with the value of the row or NULL where the row has none, or is the stored id for a table without a primary key. |
| FeedRows.HookRowsAreListed | src/sql/engine/hooks.rs:462-477 | A row is among the rows the feed compares, under the identity of its key, if and only if it is shown for some stored row and no later stored row is shown under the same identity. |
| FeedRows.EveryRowIsShown | src/sql/engine/hooks.rs:462-503 | Where the rows of a table can be read, every stored row is shown, and the identity of its key is in the feed's map. |
| FeedRows.DifferentKeysAllAppear | src/sql/engine/hooks.rs:462-503 | Where the rows shown have pairwise different identities, each of them appears under its own. |
| FeedEvents.SchemaEventsAreExact | src/sql/engine/hooks.rs:351-388 | An event of a created, dropped or updated table is in the feed if and only if it was asked for, the table is compared, and it is on one side only or on both with schemas that differ in more than their time stamp; it carries the new schema. |
| FeedEvents.WritesAreExact | src/sql/engine/hooks.rs:389-441 | A write event is in the feed if and only if writes were asked for, the rows of the table are compared, and it carries in key order exactly the listed rows of after that before does not list, if there are any. |
| FeedEvents.DeletesAreExact | src/sql/engine/hooks.rs:389-441 | A delete event is in the feed if and only if deletions were asked for, the rows of the table are compared, and it carries in order exactly the keys listed before and by no row after, if there are any. |
| FeedEvents.WrittenRowsHaveKeys | src/sql/engine/hooks.rs:479-503 | Every row of a write event has the primary key values of its own row, or the id it is stored under. |
| FeedEvents.FeedIsOrdered | src/sql/engine/hooks.rs:443-450 | The feed is in strict order: deletions, drops, schemas, writes, and within each by database and table. |
| FeedEvents.OrderedIsUnique | src/sql/engine/hooks.rs:443-450 | Feeds in this order with the same events are equal. |
| Delivery.DeliveryIsGapFree | src/sql/engine/hooks.rs:116-153 | In every reachable state of every client: delivered, in flight and queued events are a prefix of those it asked for since it subscribed, all of them while it is active and its worker is there (up to the one being emitted), and the queue is within its capacity. |
| Delivery.NextKeepsInvariant | src/sql/engine/hooks.rs:116-153 | Every atomic step of every thread keeps the invariant behind that. |
| Delivery.OutcomeIsWrittenOnce | src/sql/engine/hooks.rs:120-131 | Once written the stop outcome never changes, and what was delivered stays delivered. |
| Delivery.StepsAreLocal | src/sql/engine/hooks.rs:291-306 | A step touches at most one client: overflow, failure or cancellation of one never shows in another. |
| Delivery.OverflowMeansFull | src/sql/engine/hooks.rs:136-146 | A listener is stopped for overflow exactly when the emitter finds its queue full. |
| Delivery.ClosedIsNoticed | src/sql/engine/hooks.rs:142-145 | A listener whose worker was dropped is stopped by the next event it accepts: in every run its outcome is written when that emission ends, whatever happens in between. |
| Delivery.CommitIsReceived | src/sql/engine/hooks.rs:318-451 | The events of a commit reach an open listener as the feed of its own options, appended to what it had received. |
| Replication.SubscriberMirrors | src/sql/engine/hooks.rs:207-451 | In every run and over any number of commits: the events an open subscriber of all changes has received, replayed on a mirror of the state it subscribed in, give a mirror of the last committed state; with nothing queued it has been handed all of them. |
| Replication.MirrorFollows | src/sql/engine/hooks.rs:318-451 | A mirror that replays commit after commit is right after each of them if and only if every one of them is replayable. |
| Delivery.TurnIsSend | src/sql/engine/hooks.rs:148-152 | Taken without interruption the three steps of a listener's turn are `send`. |
| Delivery.UnionIsLeast | src/sql/engine/hooks.rs:271-289 | The registry's options are the least that have those of every active listener. |
| Delivery.Listener.Stop | src/sql/engine/hooks.rs:120-131 | Writes the outcome if there is none, and nothing else. |
| Delivery.Listener.Reserve | src/sql/engine/hooks.rs:132-147 | A slot for an active listener with room, otherwise a stop for overflow or for a closed queue. |
| Delivery.Listener.Send | src/sql/engine/hooks.rs:148-152 | The event is queued, or the listener stopped, or nothing. |
| Delivery.HookRegistry.Subscribe | src/sql/engine/hooks.rs:207-262 | A capacity of zero is refused; otherwise a fresh listener is appended. |
| Delivery.HookRegistry.Remove | src/sql/engine/hooks.rs:264-269 | Exactly that listener goes; the others stay in their order. |
| Delivery.HookRegistry.Wanted | src/sql/engine/hooks.rs:271-289 | The loop computes that union. |
| Delivery.HookRegistry.Emit | src/sql/engine/hooks.rs:291-306 | The event is sent to every active listener that accepts it; all others stay as they were. |
| Endings.OutcomeHasCause | src/sql/engine/hooks.rs:120-147 | In every run a listener has an outcome if and only if a step gave it that one while it had none: its callback failed or panicked, it was cancelled, or the emitter found its queue full or closed; the loss of its worker alone gives it none. |
| Endings.FailureEnds | src/sql/engine/hooks.rs:233-250 | Over every run: after a callback fails or panics, the outcome is its error or the panic in every later state (unless one was written before), the event counts as handed over, nothing else is, and the worker is out of its loop for good. |
| Endings.CancelEnds | src/sql/engine/hooks.rs:163-168 | Over every run: after a cancellation the outcome is done in every later state (unless one was written before), no further callback starts, and one that is running may end. |
| Endings.StoppedHearsNoMore | src/sql/engine/hooks.rs:116-131 | Over every run: whatever stopped a client, its outcome stays, and it hears of nothing but the event its callback is running with. |
| Endings.SuccessGoesOn | src/sql/engine/hooks.rs:233-241 | A callback that succeeds leaves the listener as it was, with its event handed over and ready for the next one. |
| DeliveryProgress.LeftIsUnregistered | src/sql/engine/hooks.rs:255-258 | In every run a listener whose worker has ended by itself is never registered again. |
| DeliveryProgress.QueueDrains | src/sql/engine/hooks.rs:229-253 | From any state an active listener's worker alone can deliver everything that has arrived, in order, even during an emission. |
| DeliveryProgress.EmissionCompletes | src/sql/engine/hooks.rs:291-306 | From any point of an emission the emitter alone can finish it: it never waits for a subscriber, and changes nothing but mailboxes. |
| DeliveryProgress.StoppedLeaves | src/sql/engine/hooks.rs:255-258 | A stopped worker can leave its loop, unregister and close its queue without taking another event and without its callback coming back. |
| DeliveryProgress.CancelUnregisters | src/sql/engine/hooks.rs:163-168 | A cancellation removes exactly that listener from the registry, without any step of its worker. |
| DeliveryProgress.CapacityIsPositive | src/sql/engine/hooks.rs:215-218 | In every run every listener has a positive capacity. |
| DeliveryProgress.AcceptedByKind | src/sql/engine/hooks.rs:82-93 | A listener's share of any events has each event of the kinds it asked for as often as it was emitted, and no other. |
| Endpoint.JoinSeesEveryWorker | src/server/endpoint.rs:71-94 | In every interleaving, while the workers are joined, every unfinished one is among those waited for, and its socket is shut down or already given back. |
| Endpoint.HandlesAreKept | src/server/mysql_wire.rs:437-441 | An unfinished worker's handle is in `workers`, taken by the joiner, or about to be pushed. |
| Endpoint.NothingStartsAfterJoin | src/server/endpoint.rs:59-70 | After the accept thread is joined no session starts and no socket is registered. |
| Endpoint.ShutdownLeavesNoWorker | src/server/endpoint.rs:71-75 | When `shutdown` returns every session ever started has finished. |
| Endpoint.SecondStopIsRedundant | src/server/endpoint.rs:59-70 | The second `stop` finds every registered socket shut down already. |
| Endpoint.ShutdownCompletes | src/server/endpoint.rs:59-94 | From any point of a shutdown the run can go on until it is over: no deadlock, with a rank that falls. |
| Endpoint.AcceptWindsDown | src/server/mysql_wire.rs:370-382 | Once the flag is stored every step of the accept thread brings it closer to its end. |
| Endpoint.AwaitedIsPossible | src/server/endpoint.rs:59-94 | The step a shutdown waits for can always be taken. |
| Endpoint.NextKeepsInvariant | src/server/mysql_wire.rs:383-442 | Every step of the three kinds of threads keeps the invariant behind that. |
| Endpoint.Clients.Stop | src/server/endpoint.rs:41-46 | The flag is set and every registered socket is shut down; handles stay. |
| Endpoint.Clients.Register | src/server/mysql_wire.rs:402-409 | A socket is registered exactly when the flag is not set and it can be cloned. |
| Endpoint.Clients.Push | src/server/mysql_wire.rs:437-441 | Finished handles go, the new one is appended. |
| Endpoint.Clients.JoinWorkers | src/server/endpoint.rs:84-93 | Every handle is joined, and the result is an error exactly when one of them panicked. |
| Serving.SessionGoesOn | src/server/mysql_wire.rs:410-436 | A session starts with its thread, gives its socket back, and then ends; each change is a step of its own. |
| Serving.DropStopsAccepting | src/server/endpoint.rs:95-99 | When an endpoint has been dropped without a shutdown, its accept thread has ended and every registered socket is shut down. |
| Serving.AcceptEndsFor | src/server/mysql_wire.rs:370-382 | In every run the accept thread has ended if and only if it has read the stop flag, the listener has failed, or a thread could not be started; not because nobody was there, a client was refused or a socket could not be cloned. |
| Serving.SocketIsRegistered | src/server/mysql_wire.rs:402-422 | In every run exactly these sockets are registered: those of running sessions, the one whose worker is about to start, and those whose worker could not be started. |
| Serving.NothingRegistersAfterStop | src/server/mysql_wire.rs:402-405 | In every run, once the flag is stored, no socket is registered and only a session that was registered before can still start. |
| Serving.ClientIsServed | src/server/mysql_wire.rs:370-442 | From every state in which the endpoint is not stopping and the accept thread has not ended, the next client can be taken, registered and served, with its handle kept. |
| Levenshtein.LevenshteinAtMost | src/server/debug_http.rs:4504-4531 | The two swapped rows and both early exits: true if and only if a script of at most that many insertions, deletions and substitutions leads from one string to the other. |
| Levenshtein.FillRow | src/server/debug_http.rs:4515-4523 | One row of the table and its minimum. |
| Levenshtein.DistanceIsLeast | src/server/debug_http.rs:4504-4531 | The recursive distance is the least length of an edit script. |
| Levenshtein.LengthBound | src/server/debug_http.rs:4507-4509 | The length difference is a lower bound, so the first exit is right. |
| Levenshtein.RowAboveIsFinal | src/server/debug_http.rs:4524-4526 | Once a whole row is above the bound the distance is, so the second exit is right. |
| Highlight.MatchRanges | src/server/debug_http.rs:4685-4717 | Sorted, not touching, within the text, on character boundaries, and covering exactly the occurrences of all terms that the scan meets. |
| Highlight.MergeRanges | src/server/debug_http.rs:4705-4716 | The merge covers exactly what the ranges cover. |
| Highlight.ScanTerm | src/server/debug_http.rs:4692-4703 | The scan for one term, and that each of its ranges is on boundaries. |
| Highlight.EveryOccurrenceIsMet | src/server/debug_http.rs:4693-4699 | Though the scan jumps over overlapping occurrences, each occurrence starts inside a scanned one. |
| Highlight.OccurrencesAreAligned | src/server/debug_http.rs:4696-4698 | In UTF-8 an occurrence of whole characters always starts and ends on boundaries, so that test drops none. |
| Highlight.HighlightText | src/server/debug_http.rs:4656-4676 | The output is the text in pieces, tags around exactly the covered ones. |
| Highlight.ErasingRestores | src/server/debug_http.rs:4662-4675 | Without the inserted tags it is the text again. |
| Highlight.MarksAreCovered | src/server/debug_http.rs:4662-4675 | A byte stands between tags if and only if a range covers it. |
| HighlightHits.HighlightMarksHits | src/server/debug_http.rs:4656-4717 | A byte is between tags if and only if it lies in a hit of some term: a place where each byte is the term's or an ASCII capital of it, and of overlapping places the first. |
| HighlightHits.ScanFindsHits | src/server/debug_http.rs:4692-4703 | The scan finds these hits: each stands there, none overlaps, and each place where the term stands meets one. |
| HighlightHits.HitsAreUnique | src/server/debug_http.rs:4692-4703 | There is only one such list of hits. |
| HighlightHits.CoveredIsHit | src/server/debug_http.rs:4685-4717 | A byte is covered by the ranges of all terms if and only if it lies in a hit of one of them. |
| HighlightHits.EverySpellingIsHit | src/server/debug_http.rs:4685-4717 | Wherever a term in small letters stands in any ASCII case, a merged range meets it. |
| Decimals.FormattedIsRounded | src/server/mysql_wire.rs:1361-1400 | Exactly `scale` fractional digits, whose value is the input rounded half away from zero; canonical stays canonical, and the sign is printed exactly for negative non-zero results. |
| Decimals.FormatDecimalText | src/server/mysql_wire.rs:1361-1400 | The method prints those digits, for every decimal text with blanks, signs, or a missing part. |
| Decimals.DigitsRound | src/server/mysql_wire.rs:1370-1389 | Cutting, carrying and padding digits is rounding of values. |
| Decimals.RoundingIsUnique | src/server/mysql_wire.rs:1361-1400 | Rounding half away from zero names one value only. |
| Decimals.NextIsSuccessor | src/server/mysql_wire.rs:1402-1415 | The carry adds one, and grows the integer part when it must. |
| Decimals.IncrementDigits | src/server/mysql_wire.rs:1402-1415 | The loop from the right does that in place. |
| Decimals.StaysCanonical | src/server/mysql_wire.rs:1376-1386 | No leading zero appears. |
| Decimals.NegativeZero | src/server/mysql_wire.rs:1390-1393 | A zero is printed with a minus if and only if the input is negative and its integer part is longer than one digit. |
| Decimals.MinusZeroIsPrinted | src/server/mysql_wire.rs:1390-1393 | `-00.0` is such an input: one digit after the point prints `-00.0` again. |
| TimeValues.ParseDisplayParse | src/server/mysql_wire.rs:1722-1825 | Parsing the display of any parsed value returns the value. |
| TimeValues.DisplayParses | src/server/mysql_wire.rs:1722-1740 | The same for every value in range. |
| TimeValues.ParsedIsValid | src/server/mysql_wire.rs:1774-1825 | What the parser accepts is in range. |
| TimeValues.BinaryDecodes | src/server/mysql_wire.rs:2092-2110 | Decoding the binary payload gives the display, without a forced all-zero fraction and without the sign of zero. |
| TimeValues.WireRoundTrip | src/server/mysql_wire.rs:1747-1771 | The value itself survives if and only if it is no negative zero and has no forced all-zero fraction. |
| TimeValues.MinusZeroIsLost | src/server/mysql_wire.rs:1747-1751 | `-00:00:00` parses to a value that comes back without its sign. |
| TimeValues.ZeroFractionIsLost | src/server/mysql_wire.rs:1752-1771 | `01:00:00.000000` parses to a value that comes back without its fraction. |
| TimeValues.BinaryLength | src/server/mysql_wire.rs:1747-1771 | The first byte is the number of bytes that follow. |
| TimeValues.LittleEndianRoundTrip | src/server/mysql_wire.rs:1765-1769 | Four bytes hold every 32-bit number. |
| TimeValues.ParsedIsWritten | src/server/mysql_wire.rs:1774-1825 | A text parses into some value if and only if it writes that value: perhaps a sign, hours up to 838, minutes and seconds up to 59, each perhaps with a plus, and perhaps a point with up to six digits, whose microseconds are the digits over a power of ten times a million. |
| TimeValues.DisplayIsPadded | src/server/mysql_wire.rs:1722-1740 | The display is a minus for negative values, hours in at least two digits without needless zeros, minutes and seconds in two, and a point with six digits unless there are none to show. |
| TimeValues.BinaryLayout | src/server/mysql_wire.rs:1747-1771 | The bytes of the binary form: length, sign, four bytes of days with the lowest first, hours, minutes, seconds, and four bytes of microseconds if there are any; a zero is one zero byte. |
| Csv.PrintParses | examples/csv_storage.rs:202-250 | Parsing printed records returns exactly those records, whatever their strings hold (the quoting of section 2 of RFC 4180). |
| Csv.Parse | examples/csv_storage.rs:210-250 | The character loop with its flags is the parser of that statement, the unterminated-quote error included. |
| Csv.RowsRoundTrip | examples/csv_storage.rs:173-200 | Reading a written row file returns exactly its rows. |
| Csv.WriteRows | examples/csv_storage.rs:173-183 | The loop writes the header and one record per row, in key order. |
| CsvGrammar.ParsedIsFile | examples/csv_storage.rs:210-250 | A text parses into some records if and only if it is a file of the grammar with these records: commas, line ends, ignored carriage returns, plain characters, and quoted parts that open only where a field is still empty. |
| CsvGrammar.ReadIsRowFile | examples/csv_storage.rs:185-200 | A row file loads as some rows if and only if it parses into the header and lines of a key and a readable row, and each key has the row of its last line. |
| CsvGrammar.QuotesAreDoubled | examples/csv_storage.rs:202-208 | In a quoted field every quote stands twice and every other character once. |
| FileNames.RowFilesDiffer | examples/csv_storage.rs:252-262 | Two tables never share a row file. |
| FileNames.BytesAreInjective | examples/csv_storage.rs:256-262 | UTF-8 bytes determine the string. |
| Utf8.CharBytesSpell | examples/csv_storage.rs:256-262 | The bytes of a character are the fewest that have room for its code point, and their payload bits are the code point (section 3 of RFC 3629). |
| Utf8.HexSpellsBytes | examples/csv_storage.rs:256-262 | A file name has two small hex digits for each byte, the high one first. |
| Utf8.SampleName | examples/csv_storage.rs:252-262 | The row file of table `b` in database `é` is `c3a9--62.csv`. |
| Utf8.TextIsWhole | src/server/debug_http.rs:4685-4717 | The bytes of every text are whole characters, as the highlighter needs them. |
| Utf8.BoundaryIsBetween | src/server/debug_http.rs:4696-4698 | A byte offset is a boundary if and only if it lies between two characters of the text. |
| Characters.TrimIsMiddle | examples/csv_storage.rs:107 | Trimming takes away white space on both sides, all of it, and nothing else; white space is the Unicode property. |
| Generations.CrashAtomicity | examples/csv_storage.rs:134-171 | After a crash at any step, with any junk in a half-written file, a load returns the old state in full or the new one in full, and the new one if and only if CURRENT was renamed. |
| Generations.CommittedLoads | examples/csv_storage.rs:102-171 | After all steps a load returns the committed state. |
| Generations.StepsLeaveUntouched | examples/csv_storage.rs:134-167 | Until the last rename nothing that a load reads changes. |
| Generations.PreparationBuilds | examples/csv_storage.rs:137-163 | The steps in the staging directory build the new generation. |
| Generations.NewDirectoryLoads | examples/csv_storage.rs:114-131 | That generation reads back as the state. |
| GenerationsLoad.LoadIsExact | examples/csv_storage.rs:102-132 | A backend loads as some state if and only if there is no CURRENT and the state is empty, or CURRENT names, between white space, one path component that is a generation whose manifest has the catalog and tables of the state and whose row files hold exactly its rows. |
| GenerationsLoad.LoadedIsDirectory | examples/csv_storage.rs:114-132 | The same for one generation directory. |
| GenerationsLoad.CommitIsExact | examples/csv_storage.rs:134-171 | A completed commit adds exactly one generation, with the manifest and one row file for each table, points CURRENT at it, and leaves no staging directory and no pointer file; other generations stay. |
| CsvDurability.RunIsDurable | examples/csv_storage.rs:43-171 | Over every run of commits from a new directory, each ended after any file step with any junk in a half-written file, with or without a restart: opening the root loads the last committed state in full, whatever its keys, and nothing when nothing was committed. |
| CsvDurability.AttemptKeepsInvariant | examples/csv_storage.rs:89-99 | Root, memory, engine and contents stay in step through every such commit. |
| CsvDurability.ReloadRestores | src/storage/delta.rs:7-70 | Over the pager of the file backends a reload restores every well-formed state. |
| CsvDurability.RestoredPersists | src/storage/delta.rs:7-70 | A reloaded state has the persisted form of the state it restores, so the next diff starts from the right place. |
| CsvDurability.EveryContentsIsHeld | examples/csv_storage.rs:89-99 | Whatever a batch makes of the contents, there are nested maps that hold it. |
| CsvDurability.HeldContentsAreUnique | examples/csv_storage.rs:89-99 | Nested maps hold the contents of one store only. |
| CsvDurability.ReloadsAnswerAlike | src/storage/delta.rs:7-70 | The reloads over the two kinds of pagers give the same answer, errors included, except for the rows one of them cuts off. |
| CsvDurability.LoadRows | src/storage/delta.rs:30-49 | The cursor loop over that pager returns all rows of the table. |
| Rewriters.RewriteCompoundIntervals | src/sql/mod.rs:141-214 | The byte loop equals: split into quoted segments and words, replace whole unquoted keywords, print. |
| Rewriters.RewriteDistinctRow | src/sql/mod.rs:321-407 | The same for its two keywords. |
| Rewriters.CopyQuoted | src/sql/mod.rs:151-186 | One round inside quotes: escapes, doubled quotes, the closing quote. |
| Rewriters.LexPrints | src/sql/mod.rs:141-214 | The split loses nothing. |
| Rewriters.LexSeparated | src/sql/mod.rs:141-214 | Words and segments of the split are whole. |
| Rewriters.LexIsUnique | src/sql/mod.rs:141-214 | There is only one such split of a text. |
| Rewriters.RewritingIsIdempotent | src/sql/mod.rs:321-407 | Rewriting twice is rewriting once, also where deleting a word joins two quoted segments. |
| Rewriters.KeywordsAreGone | src/sql/mod.rs:321-407 | No keyword is left outside quotes. |
| Rewriters.KeywordFreeIsUntouched | src/sql/mod.rs:141-214 | A text is left as it is if and only if it has no keyword outside quotes. |
| Rewriters.QuotesPassThrough | src/sql/mod.rs:151-186 | The quoted bytes of the output are those of the input. |
| Rewriters.RewrittenReads | src/sql/mod.rs:321-407 | The split of the output is the split of the input with keywords replaced and touching segments joined. |
| Rewriters.KeywordIsWord | src/sql/mod.rs:194-206 | The test with the two neighbouring bytes finds exactly the whole words. |
| Spellings.SameWordIsSpelling | src/sql/mod.rs:194-206 | A word is taken for a keyword if and only if it has its length and each character is the keyword's or its other ASCII case. |
| Spellings.RewrittenIsRespelled | src/sql/mod.rs:141-407 | The output of both rewriters for every text: each spelling of a keyword outside quotes becomes its fixed text, `HOUR TO MINUTE`, `DISTINCT` or nothing, and everything else stays. |
| Spellings.OneWord | src/sql/mod.rs:141-407 | A text that is one word becomes the fixed text of the keyword it spells, or stays. |
| Spellings.KeywordIsSpelled | src/sql/mod.rs:194-206 | The loops find a keyword at an offset if and only if it is spelled there with no ASCII letter, digit or underscore on either side. |
| ExtractRewriter.RewriteExtractYearMonth | src/sql/mod.rs:216-319 | The cursor loops end and put out the pieces of the specification. |
| ExtractRewriter.PiecesCover | src/sql/mod.rs:216-319 | The pieces, copied or replaced, make up the whole text. |
| ExtractRewriter.PiecesFit | src/sql/mod.rs:216-319 | Only texts of the form EXTRACT(YEAR_MONTH FROM e) with balanced e are replaced; every other byte is copied. |
| ExtractRewriter.SeenIffMatch | src/sql/mod.rs:221-311 | Where it looks, it sees a match if and only if a text of that form stands there and no word byte precedes it. |
| ExtractRewriter.FindClose | src/sql/mod.rs:268-305 | The scan for the closing bracket, through quotes, escapes and nested brackets. |
| ExtractRewriter.BalancedEndsThere | src/sql/mod.rs:268-305 | It stops behind a balanced expression, whatever follows. |
| ExtractRewriter.ExprEndIsBalanced | src/sql/mod.rs:268-305 | It stops nowhere else. |
| ExtractGrammar.FitsIsWritten | src/sql/mod.rs:216-319 | What is replaced are exactly the texts EXTRACT ( YEAR_MONTH FROM e ) in any ASCII case, with ASCII blanks between the parts, at least one before FROM, and a balanced e. |
| ExtractGrammar.BalancedIsShape | src/sql/mod.rs:268-305 | An expression is balanced for the bracket scan if and only if it is made of plain bytes, closed quotes, where a backslash protects the next byte in single and double quotes only, and bracketed such expressions. |
| ExtractGrammar.WrittenIsRenamed | src/sql/mod.rs:216-319 | Such a text, with anything behind it, becomes `EXTRACT_YEAR_MONTH(e)` and the rewritten rest. |
| ExtractGrammar.ReplacedStartsWord | src/sql/mod.rs:221-227 | Nothing is replaced right behind an ASCII letter, digit or underscore. |
| ExtractQuotes.QuotesPassIff | src/sql/mod.rs:216-319 | Quoted text passes through if and only if no match is replaced inside quotes. |
| ExtractQuotes.QuotedTextByByte | src/sql/mod.rs:151-186 | The bytes in quotes, found byte by byte, are those of the quoted segments the other rewriters keep. |
| ExtractQuotes.QuotesAreNotRespected | src/sql/mod.rs:216-319 | A match between quotes is replaced there, for every match and every kind of quote, and the quoted text changes. |
| ExtractQuotes.QuotedDate | src/sql/mod.rs:216-319 | `'EXTRACT(YEAR_MONTH FROM d)'` is such a text. |
| ExtractPasses.NestedTakesTwoPasses | src/sql/mod.rs:312-316 | Of two nested matches one pass replaces the outer one and the next the inner one; the two results differ. |
| ExtractPasses.SecondPassIsIdle | src/sql/mod.rs:216-319 | A second pass changes nothing if and only if the scan, taken up inside the expressions of the replaced matches of the input, sees no match there before it ends or runs out of the text. |
| ExtractPasses.OnePassIsEnough | src/sql/mod.rs:216-319 | In particular when no replaced expression has EXTRACT as a whole word. |
| ExtractPasses.UnchangedIffCopied | src/sql/mod.rs:216-319 | A text is left as it is if and only if nothing in it is replaced. |
| ExtractPasses.EveryMatchNests | src/sql/mod.rs:268-316 | Every match can stand inside another one, and that text takes two passes. |
| ExtractPasses.TwoPasses | src/sql/mod.rs:216-319 | `EXTRACT(YEAR_MONTH FROM EXTRACT(YEAR_MONTH FROM d))` is such a text. |
| ExtractPasses.SkippedAgain | src/sql/mod.rs:221-267 | What one pass copies, the next one copies in the same steps. |
| ExtractPasses.RewrittenReadsAlike | src/sql/mod.rs:268-305 | The scan for a closing bracket goes through a text and its rewritten form alike. |
| SqlMask.SqlCode | tools/mariadb_mtr_discover_core.py:121-187 | The loop, with its recursion into executable comments, equals the masking function and ends. |
| SqlMask.MaskComment | tools/mariadb_mtr_discover_core.py:150-167 | One comment: blanked, or its body masked as code. |
| SqlMask.MaskedMasks | tools/mariadb_mtr_discover_core.py:121-187 | The masked text has the same length and the same line ends, at each place the character or a space, and no quote or `#`. |
| SqlMask.UnchangedIffPlain | tools/mariadb_mtr_discover_core.py:121-187 | Masking changes nothing if and only if no quote, comment or line comment starts anywhere. |
| SqlMask.SecondPassIsIdle | tools/mariadb_mtr_discover_core.py:121-187 | Masking a masked text changes nothing if and only if nowhere in the code of the text, the bodies of executable comments included, two dashes stand right in front of a quote, a comment or a line comment. |
| SqlMask.SecondPassMasksMore | tools/mariadb_mtr_discover_core.py:175-182 | `--''` is such a text: a second pass masks the dashes. |
| SqlMask.Statements | tools/mariadb_mtr_scope.py:153-168 | A statement for every start, with its text and its line, though the line is counted from statement to statement. |
| SqlMask.LinesAreKept | tools/mariadb_mtr_scope.py:153-168 | A line computed from the masked text is the line in the text itself. |
| SqlParts.LiteralIsBlanked | tools/mariadb_mtr_discover_core.py:121-187 | A quoted literal of any of the three quotes, with doubled quotes and backslash escapes, is blanked up to its closing quote or the end, whatever follows. |
| SqlParts.CommentIsBlanked | tools/mariadb_mtr_discover_core.py:154-170 | A comment is blanked up to its first end, or the end of the text. |
| SqlParts.ExecutableIsCode | tools/mariadb_mtr_discover_core.py:154-170 | The body of a `/*!`, `/*M!` or `/*m!` comment is masked as code, with its version number blanked. |
| SqlParts.VersionIsBlanked | tools/mariadb_mtr_discover_core.py:161-164 | Five or six digits at the start of that body are its version. |
| SqlParts.OtherBodyIsKept | tools/mariadb_mtr_discover_core.py:161-164 | Fewer than five digits are not. |
| SqlParts.LineIsBlanked | tools/mariadb_mtr_discover_core.py:171-184 | A line comment, behind `#` or behind two dashes and white space or the end, is blanked up to the line end. |
| SqlParts.CodeIsKept | tools/mariadb_mtr_discover_core.py:121-187 | A character that opens none of these stays. |
| SqlParts.LinesAreLineEnds | tools/mariadb_mtr_scope.py:153-168 | Lines are counted by line feeds and nothing else. |

## Left out

- RocksDB is a map ordered by key whose batches are atomic; snapshots, options and the directory are not part of this model.
- serde_json of rows, schemas and catalogs is a lossless codec: the value stands for its text, and decoding errors of a damaged store do not occur. Only the escaping of table keys is modelled character by character.
- Strings are sequences of Unicode scalar values in the storage modules; UTF-8 keeps their order and prefixes, so byte order is character order. `FileNames` and `Highlight` work on bytes.
- Durability.LoadState and the methods it calls take the represented contents as a ghost argument; they compute from the store alone.
- Durability.RunIsDurable: a run starts with an empty store and a state without persistent items; the time stamps of a load are an argument.
- RocksStore.RocksDbStore.ScanPrefix asks for an unlimited page instead of one of the largest machine integer.
- The SQL evaluator behind `current_schema_row` is a function of the engine, the table and the stored data; statements that read the clock or random numbers are outside of it.
- Rows and keys inside one event follow the order of the keys' JSON text, which is a parameter; replay does not depend on it.
- Read events carry results in the source; the feed only forwards them.
- Delivery models the worker's `select` as the choice to see the stop at any point where the worker waits; the message texts, the subscriber's `wait` and the missing runtime error are left out.
- Endpoint: sockets, authentication and the session itself are left out; a session may end at any time. A poisoned lock is not modelled.
- Decimals.FormatDecimalText: takes decimal texts only; the carry of the source expects decimal digits and panics on some other bytes, and texts that are no decimals but need no carry are copied unchecked, which is not modelled.
- TimeValues models the TIME payload of a TIME column; the error for another column type and the text protocol's framing are left out.
- Generations: the trailing component rules of `Path` are reduced to one normal component; errors all read as None, and freshness of the generated names is assumed, as the source assumes of its UUIDs.
- ExtractRewriter: the bracket depth is unbounded, not 32 bits wide.
- CsvDurability.RunIsDurable: a commit that fails without a crash leaves the process with its state or restarts it; two processes on one directory are not modelled, nor is a power loss that undoes a finished rename.
- Rewriters and ExtractRewriter use a character for a byte, and the shared part of the two keyword loops is one method.
- SqlMask: Python's digit and space classes are parameters, of which only what Python guarantees about line ends, the space, the dash and the quote is used.
- `rewrite_user_variable_assignments`, `rewrite_drop_index_on_table`, HTTP handlers, facets, packet framing, the query engine, sessions and isolation, the command line, and the planning tools would only add easy members or need code with no closed specification.
