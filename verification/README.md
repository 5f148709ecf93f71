# LogDeck server: a verified model

This project models the hand-written state machines of the LogDeck server (`server/internal`) and proves what they are
for. `dafny verify dfyconfig.toml` checks it.

## The system

**Log store** (`logstore`, `models/logs.go`). A query reads rows backwards in chunks, folds continuation lines into
their parent entry, carries the unfinished oldest entry into the next round, filters, and pages with a keyset cursor.
The reference is "group the whole timeline oldest first, then filter, then cut into pages".

- `LogEntries.dfy` is the classification and folding of lines, `Timeline.dfy` grouping as a partition of row indices,
  `Cursor.dfy` the cursor codec, `History.dfy` pages and the scan as a function, `Paging.dfy` one scan against the
  reference without a filter, `Walk.dfy` whole walks over the pages, `Splits.dfy` pages and walks with any filter,
  `Retelling.dfy` what walks and pages show of the rows, and `Query.dfy` the loops that run over newest-first rows.
- `LogStore.dfy` holds the tables as finite maps and sequences with their invariants, `Commit.dfy` one writer batch as
  a transaction, `Confluence.dfy` what batches add up to, `Naming.dfy` what the rows are told about their containers,
  `Writers.dfy` the interleaving of the writer, purges, metadata upserts, evictions and prunes, and `StoreWriter.dfy`
  the store object whose statements implement the transaction. The write lock has one owner, and a new row may get any
  id that is not in the table.
- `Retention.dfy` says what the retention sweep makes of lists of lines, `Sweep.dfy` runs it on the database,
  `Shutdown.dfy` is the goroutines around the ingest queue.

**Alerts** (`alerts`). `RuleWindow.dfy` is the ring buffer of one rate window, `WindowRuns.dfy` whole runs of it with
and without pruning, `RuleEngine.dfy` rule compilation, reconciliation, generation stamps and oom pairing. `Rings.dfy`
is the slot arithmetic the two ring buffers share, `ContainerSpecs.dfy` container matching.

**Log-tail hub** (`logstream`). `TailHub.dfy` is the run loop, `DeliveryRing.dfy` a subscription's delivery buffer.

**Small loops.** `LineSplitter.dfy` splits byte streams into lines (the three log writers handle lines alike);
`RateLimiter.dfy` is the login limiter.

## What turned out not to hold

- *Stack traces across chunk boundaries.* A stack-trace line continues only a parent of problem level
  (`server/internal/models/logs.go:352`). Once the oldest row of a chunk is itself such a line, the rows behind it
  have no parent to continue, so a trace that straddles a chunk boundary comes back in pieces. The comment on
  `groupRows` promises the grouping of the live view; `Walk.PagesExactIff` and, for any filter, `Splits.WalkRightIff`
  say exactly when the pages have it, `Splits.TraceFreeHistory` that histories without stack traces always do, and
  `Query.SplitTraceShows` is a history that does not.
- *Pruning without invalidation.* `pruneEmptyGenerations` removes rows without telling the writer, whose cached id may
  later be handed to another container. `Writers.PruneSafeIff` is the exact condition, `Writers.PruningMisfiles` a run
  in which a line is misfiled.
- *Empty lines and retention.* An eviction whose chunk holds only empty lines frees nothing. A container's pass then
  stops over the cap: `Retention.TrimmedIff` is the exact condition, `Sweep.StuckContainer` a database it happens to.
  The store-wide phase writes such a container off; the group bytes stay exact exactly when no round meets such a
  chunk (`Retention.RoundsExactIff`), and unless it runs out of rounds the phase ends at or under the cap exactly when
  the bytes behind each container's first empty chunk fit under it (`Retention.StoreWide`). `Sweep.StuckPhase` is a
  database where they do not.
- *Pruned windows.* A cooldown of more than a day, or a window of more than a day that counts several matches, is cut
  short by pruning: `WindowRuns.PruningInvisibleIff`. The API accepts no such rule
  (`RuleEngine.AcceptedPruneInvisibly`).
- *Windows that outlive their rule.* The sweep of stale windows goes by id, and reads it up to the first `|` of the
  key. A window can stay without a rule that has its key and parameters when event rules share an id, since only the
  last of them is compared against (`RuleEngine.SharedIdOutlives`; ids are drawn without a look at those in use,
  `server/internal/api/alerts_handlers.go:195-201`), or when an id holds a bar (`RuleEngine.BarIdOutlives`).
  `RuleEngine.OwnershipKeptIff` is the exact condition on the rules before and after, `RuleEngine.PlainKeepsOwners`
  says that one bar-free id per rule in force meets it.
- *Overlong lines.* Early flushes cut lines more than a byte over 1 MiB at the write boundary:
  `LineSplitter.CutsAgreeIff`.

## How to read the contracts

An `Item` pairs an entry with the position of its first row, where the query keeps two parallel slices. Entries are
values: the shared `Fields` map of the source is copied here. `seen` of a generation, `origin` of a stored line,
`sent`, `batches` and `handed` with their `retired`, and `panicked` of the shutdown system, and the `ghost` fields of
the classes are not state of the program; they record its past for the statements. Instants and durations are
nanoseconds; runs of windows, oom times and the limiter assume a clock that does not go back.

## Model

| member | source | states |
|---|---|---|
| `LogEntries.BlankIsAllSpace` | server/internal/models/logs.go:338-346 | the blank checks of the grouper: a message trims to nothing exactly when every character is white space |
| `LogEntries.AppendLooksLike` | server/internal/models/logs.go:338-381 | folding a line into an entry changes nothing a later line is compared with: it would still be folded, and the entry keeps its level and stays non-blank |
| `LogEntries.GroupRelated` | server/internal/models/logs.go:323-336 | the grouped entries retell the lines: each tells a run of them, which ends only before a line that does not continue it, under its first line's time, level, stream and container; the raw text of all entries is the raw text of all lines |
| `LogEntries.TellsNext` | server/internal/models/logs.go:355-381 | folding one more line into an entry that tells some lines makes it tell that line too: its trimmed message and its raw text below the others when not empty, the last value given for each field, one more continuation |
| `LogEntries.FoldedRetells` | server/internal/models/logs.go:323-336 | grouping loses no text and no field of any list of lines, and adds none |
| `LogEntries.StructuredFieldIff` | server/internal/models/logs.go:79-79 | a trimmed message gives a field exactly when it is a key, a colon or an equals sign, and text on one line |
| `LogEntries.ContinuesExactly` | server/internal/models/logs.go:338-353 | a line continues an entry exactly when it has no level, neither is blank, and it gives a field or is a stack-trace line under a warning or worse |
| `LogEntries.FoldedPair` | server/internal/models/logs.go:323-353 | two lines become one entry exactly when the second continues the first |
| `Timeline.ItemsPartitionRows` | server/internal/logstore/query.go:531-552 | the entries are the folds of contiguous ranges that lie end to end and cover all rows, each anchored at the first row of its range |
| `Timeline.EveryRowCountedOnce` | server/internal/logstore/query.go:531-552 | the sum of 1 + continuationCount over the entries is the number of rows |
| `Timeline.ItemsTellRows` | server/internal/logstore/query.go:531-552 | each entry of stored rows tells its run of rows, text and fields, and the runs lie end to end over all rows |
| `Timeline.ItemsRaws` | server/internal/logstore/query.go:531-552 | the raw text of the entries is the raw text of the rows |
| `Timeline.ItemsSplit` | server/internal/logstore/query.go:286-291 | grouping rows cut at the start of an entry is grouping the two parts and joining them |
| `Timeline.LateStart` | server/internal/logstore/query.go:536-545 | a row grouped from inside an entry has its head of the whole timeline, or its late head continues that entry |
| `History.HeldBackEnd` | server/internal/logstore/query.go:286-291 | the row behind a held-back entry starts an entry of the whole timeline, or is a stack-trace line cut off from its parent |
| `Cursor.CursorRoundTrip` | server/internal/logstore/query.go:557-579 | decoding an encoded cursor gives back the position, for every pair of 64-bit integers (base64url without padding, section 5 of RFC 4648) |
| `Cursor.Base64RoundTrip` | server/internal/logstore/query.go:557-579 | decoding an encoded byte string gives it back, for every byte string |
| `Cursor.DigitsExactly` | server/internal/logstore/query.go:557-559 | the digits are the URL-safe alphabet in its order |
| `Query.ScanRowsNewest` | server/internal/logstore/query.go:338-424 | a chunk holds the newest rows strictly before the position, newest first, and leaves one out only when it is full |
| `Query.GroupRows` | server/internal/logstore/query.go:531-552 | over newest-first rows the loop returns the entries of the range oldest first, and the index where the rows of the oldest entry begin |
| `Query.GroupsLikeLive` | server/internal/logstore/query.go:531-552 | the pairwise folding equals the live grouper applied to each maximal run of one container in time order, joined |
| `Query.OneMoreRow` | server/internal/logstore/query.go:536-545 | one more row starts an entry exactly when it is of another container or the live grouper, given the entry before it and the row, returns two entries; otherwise it becomes part of that entry |
| `Query.ScanRound` | server/internal/logstore/query.go:248-304 | one round: what it matched is filter(group) of the rows it closed, and the carry is exactly the rows of the entry still open |
| `Query.RunQuery` | server/internal/logstore/query.go:206-305 | the loop terminates and returns the page the scan describes, the empty page, or the cursor error; a page holds at most the requested limit, 500 without one and never more than 1000, and each of its entries tells rows of the queried generations within the queried time, has a chosen level and passes the search |
| `Query.SelectedInWindow` | server/internal/logstore/query.go:402-428 | the timeline of a query holds exactly the rows of its generations within its time window |
| `Retelling.KeptExactly` | server/internal/logstore/query.go:456-484 | the filter keeps exactly the entries of a chosen severity whose message passes the search |
| `Retelling.SeverityChooses` | server/internal/models/alerts.go:7-25 | choosing levels by severity chooses exactly the entries of those levels |
| `Query.SelectedAscending` | server/internal/logstore/query.go:402-424 | the selected rows of several generations form one timeline in key order |
| `Paging.ScanExactIff` | server/internal/logstore/query.go:248-323 | without a filter one scan gives the page of the whole-timeline grouping exactly when every cut is clean or hidden behind a full page of newer entries |
| `Walk.WholePagesCoverHistory` | server/internal/logstore/query.go:206-323 | the reference pages, cut from the grouped timeline, are in time order exactly filter(group(all rows)): nothing lost, nothing repeated |
| `Walk.QueryPageLeads` | server/internal/logstore/query.go:311-323 | a page with a cursor is full, and its cursor leads strictly further back; so no page is empty and continuable |
| `Walk.PagesExactIff` | server/internal/logstore/query.go:206-323 | unfiltered history: the pages a client collects are the right ones exactly when no stack trace straddles a chunk boundary that shows on a page |
| `Retelling.WalkCovers` | server/internal/logstore/query.go:188-325 | whatever chunks and pages cut, the entries of a whole unfiltered walk are folds of runs of rows that cover the history: no row is lost and none shown twice |
| `Retelling.WalkTells` | server/internal/logstore/query.go:188-325 | the raw text of all pages of an unfiltered walk is the raw text of all rows, in time order |
| `Splits.ScanShows` | server/internal/logstore/query.go:248-323 | the scan, though it stops when the page is full, shows the whole timeline grouped apart at the ends of its rounds |
| `Splits.DiffersIff` | server/internal/logstore/query.go:286-291 | an entry comes out differently exactly when the end of a round splits it and it or one of its pieces matches the filter |
| `Splits.RightPageIff` | server/internal/logstore/query.go:206-323 | any filter: a page shows the matching entries of the grouped timeline, each at its place, exactly when the newest split entry that matches, whole or in a piece, is behind more than a page of matching entries, or behind exactly a page while entries and pieces from there on both still match |
| `Splits.WalkRightIff` | server/internal/logstore/query.go:206-323 | any filter: a walk over the pages shows every matching entry of the grouped timeline at its place exactly when that holds of every page |
| `Splits.PagesExact` | server/internal/logstore/query.go:206-323 | then the pages a client collects by following the cursor are the reference pages |
| `Splits.PagesCoverHistory` | server/internal/logstore/query.go:206-323 | and in time order they are exactly filter(group(all rows)) |
| `Splits.TraceFreeHistory` | server/internal/logstore/query.go:206-323 | a history whose only continuations are structured fields is paged exactly, whatever the filter and limit |
| `Query.SplitTraceShows` | server/internal/logstore/query.go:286-291 | an error with three stack-trace lines and pages of one entry: the pages differ from the grouped history |
| `LogStore.UpsertSound` | server/internal/logstore/ingest.go:289-302 | upserting a generation finds its row or adds one under the offered id, keeps every other row's identity and the tables sound |
| `Naming.RunTold` | server/internal/logstore/ingest.go:206-297 | after a committed batch each row has the last non-empty name and project it was upserted with, else those it had, and the last non-empty reason of its end markers; the upserting message is a generation's first one without a cached id |
| `Naming.CommitsTold` | server/internal/logstore/ingest.go:282-305 | after any batches each row has the last non-empty name and project ever sent to upsert it |
| `Naming.StepName` | server/internal/logstore/sync.go:163-187 | one event of the writers changes a row's name only to a non-empty one it is told, a listing takes its removed mark back, and only a batch changes its reason |
| `Naming.TraceName` | server/internal/logstore/sync.go:163-187 | over any stretch of any run a row's name is the last non-empty one told by batches and listings, or the one it had |
| `Naming.StaysNamed` | server/internal/logstore/ingest.go:282-305 | in every run a name, once not empty, stays so: the row is found under its host and a name for as long as it exists |
| `LogStore.InsertLineSound` | server/internal/logstore/ingest.go:234-332 | an insert keeps bytes and watermarks exact and the lines free of duplicates; a repeated line leaves the tables as they are |
| `Commit.RunSound` | server/internal/logstore/ingest.go:184-280 | a batch that commits keeps the tables sound and every earlier row, and files each message under the cached id or a row of its own key |
| `Commit.FiledHomeIff` | server/internal/logstore/ingest.go:211-268 | a committed batch files every line under its own container exactly when every cached id it uses still names that container |
| `Commit.RunAttributed` | server/internal/logstore/ingest.go:211-268 | with a valid cache a batch keeps every stored line in its own container's timeline |
| `Confluence.Confluent` | server/internal/logstore/ingest.go:211-332 | two histories that sent the same lines for a container, in whatever batches, order and multiplicity, agree on its rows, stored bytes and watermarks |
| `Confluence.StoredIsCarried` | server/internal/logstore/ingest.go:211-332 | after any sequence of batches without eviction a container's rows are exactly the set of lines sent for it |
| `Confluence.BytesOfContent` | server/internal/logstore/ingest.go:234-268 | stored_bytes is the summed length of the set of stored lines |
| `Writers.EvictSound` | server/internal/logstore/janitor.go:227-239 | eviction keeps the tables sound and lowers stored_bytes by exactly what it freed: the clamp at zero never takes effect |
| `Writers.DeleteSound` | server/internal/logstore/purge.go:60-74 | purging generations with their lines keeps the tables sound and the lines attributed |
| `Writers.DeleteLeavesOthers` | server/internal/logstore/purge.go:60-74 | a purge leaves the row and the lines of every other generation as they are, in order, and no line of a purged one |
| `Writers.AlwaysSound` | server/internal/logstore/ingest.go:184-280 | in every interleaving of batches, rollbacks, purges, metadata upserts, evictions and prunes: bytes exact, no orphaned line, no duplicate, every watermark the timestamp of a committed line |
| `Writers.StepSafe` | server/internal/logstore/purge.go:24-116 | every step but pruning keeps each cached or about-to-be-published id valid or its key invalidated |
| `Writers.PruneSafeIff` | server/internal/logstore/janitor.go:255-261 | pruning keeps the cache safe exactly when every cached id that names a row marked removed names one that still holds a line |
| `Writers.PruneExactly` | server/internal/logstore/janitor.go:255-261 | pruning deletes exactly the rows marked removed that no line refers to, and changes nothing else |
| `Writers.AlwaysAttributed` | server/internal/logstore/ingest.go:184-280 | in every interleaving whose prunes are harmless, with freed ids reused in any way, every stored line refers to a row of its own host and container id |
| `Writers.PruningMisfiles` | server/internal/logstore/janitor.go:255-261 | a run in which a pruned id is handed to another container and a late line lands in the wrong timeline |
| `StoreWriter.Store.CommitBatch` | server/internal/logstore/ingest.go:184-280 | the batch transaction on the object: its statements add up to the specified transaction, purged ids leave the cache once it began, new ids are published only after a commit, and a batch that fails rolls back and leaves exactly the gap marks of its lines |
| `StoreWriter.Store.Resolve` | server/internal/logstore/ingest.go:211-222 | the row of a message: cached, found earlier in the transaction, or upserted |
| `StoreWriter.Store.ApplyAggregates` | server/internal/logstore/ingest.go:256-268 | one UPDATE per touched row settles bytes and watermarks together |
| `StoreWriter.AddSettles` | server/internal/logstore/ingest.go:243-268 | deferring a line's bytes and watermark to the end of the batch is the same as crediting them at the insert |
| `StoreWriter.Store.DeleteContainer` | server/internal/logstore/purge.go:24-104 | a purge publishes the purged keys and forgets their gaps before the commit, deletes rows and lines exactly when it commits, and counts the deleted lines |
| `StoreWriter.Store.MarkBatchGaps` | server/internal/logstore/ingest.go:166-172 | afterwards every line of the batch has a gap at or before it, gaps only move back, and each is an old one or a line of the batch |
| `Sweep.EvictOldest` | server/internal/logstore/janitor.go:184-249 | deletes a container's oldest lines by (ts, rowid), the shortest run of them that frees the excess, at most one chunk |
| `Retention.EvictCountOnly` | server/internal/logstore/janitor.go:205-219 | no other number of lines is the shortest run that frees the excess |
| `Retention.TrimmedIff` | server/internal/logstore/janitor.go:69-79 | the survivors of a container's pass are the newest lines that fit the cap, no fewer, exactly when no chunk reached consists of empty lines; otherwise it stops over the cap |
| `Retention.EmptyChunkStopsPass` | server/internal/logstore/janitor.go:69-79 | for every cap and chunk size, a chunk of empty lines followed by one-byte lines that exceed the cap, each at an instant of its own: the pass stops over the cap |
| `Sweep.StuckContainer` | server/internal/logstore/janitor.go:69-79 | for every cap a sound and attributed database, filled by inserts, whose container holds those lines: the per-container phase leaves it over the cap |
| `Sweep.TrimContainer` | server/internal/logstore/janitor.go:69-79 | one container's pass, eviction after eviction on what is stored by then, deletes exactly its oldest lines down to what the specified pass leaves |
| `Sweep.TrimEach` | server/internal/logstore/janitor.go:68-81 | the per-container phase over the database is the specified pass on every container, total is the sum of the group bytes, and its evictions are one eviction |
| `Retention.RoundsExactIff` | server/internal/logstore/janitor.go:83-101 | the group bytes are what the groups hold at the end of the store-wide phase exactly when in every round over the cap the first chunk of the group with the oldest line holds a byte |
| `Retention.RoundsUnderIff` | server/internal/logstore/janitor.go:83-101 | the store-wide phase ends at or under the cap or out of rounds when what is stuck fits under the cap, and over the cap otherwise: stuck is what chunk-wise eviction of each container leaves before its first empty chunk, whatever the order of the rounds |
| `Retention.StoreWide` | server/internal/logstore/janitor.go:83-101 | total stays what is stored; it is the sum of the group bytes at the end exactly when every round meets a byte; unless out of rounds the store ends at or under the cap exactly when what is stuck fits; it overshoots by less than the line some container lost last |
| `Retention.EmptyRoundStopsPhase` | server/internal/logstore/janitor.go:94-98 | one container with a chunk of empty lines before the bytes over the cap is written off in the first round, and the phase ends over the cap with rounds to spare |
| `Sweep.StuckPhase` | server/internal/logstore/janitor.go:83-101 | the same in a sound database: the container fits its own larger cap, and the store-wide phase ends with every byte still stored |
| `Retention.OldestIndexOldest` | server/internal/logstore/janitor.go:141-160 | among the groups with bytes the first one whose first line is oldest, or none exactly when no group with bytes has a line |
| `Sweep.OldestGroup` | server/internal/logstore/janitor.go:141-182 | the container with bytes that holds the oldest stored line, or -1 exactly when none of those holds a line |
| `Sweep.TrimStore` | server/internal/logstore/janitor.go:83-101 | the rounds, each an eviction on what is stored by then, are the specified rounds on the lists, and together one eviction |
| `Sweep.OrderedByTime` | server/internal/logstore/janitor.go:194-197 | the order of an eviction is by time |
| `Sweep.OrderedByRow` | server/internal/logstore/janitor.go:194-197 | and lines of one instant stay in rowid order |
| `Sweep.LoadGroups` | server/internal/logstore/janitor.go:107-137 | over a sound database every generation row is in the one group of its host and name, whose bytes are those of all its stored lines |
| `Sweep.ViewsAccounted` | server/internal/logstore/janitor.go:107-160 | the bytes the sweep starts from are the stored bytes of every container |
| `Sweep.OneEviction` | server/internal/logstore/janitor.go:184-249 | evicting the n oldest lines of one container takes them from its list, keeps the tables sound and leaves every other container's list as it is |
| `Sweep.EvictTwice` | server/internal/logstore/janitor.go:184-249 | evictions one after the other are one eviction of all their lines |
| `Sweep.Sweep` | server/internal/logstore/janitor.go:58-104 | over any sound database the sweep is two evictions and a prune and keeps the database sound and attributed; every (host, name) keeps newest lines by (ts, rowid), after the per-container phase the newest that fit exactly when its pass meets no chunk of empty lines; unless out of rounds the store ends at or under the total cap exactly when what is stuck fits; when the store-wide phase evicts, it overshoots by less than the line some container lost last; without empty lines every container is at or under its cap and the store at or under the total cap or out of rounds; a row is gone at the end exactly when it was marked removed and no stored line refers to it, and any other differs in its bytes only |
| `Shutdown.AlwaysOrderly` | server/internal/logstore/store.go:216-272 | in every interleaving of sink, sync loop, backfills, healing, purges, shutdown and writer: the queue is closed only after the sink, the sync loop and every backfill are gone, no send ever meets a closed queue, every queued message is in exactly one batch, in order, or on its way, and the lines of a failed batch are marked until their mark is retired; and what the sink was handed is on the queue, past it, or marked until its mark is retired |
| `Shutdown.SinkSendsKeeps` | server/internal/logstore/store.go:276-293 | the sink queues a message while there is room, and with 8192 messages queued a line leaves a gap at or before it |
| `Shutdown.SinkLosesNothing` | server/internal/logstore/store.go:276-293 | in every run each line the sink was ever handed was queued, or has a gap at or before it, or its generation was healed or purged since |
| `Shutdown.HandedRetiredByEvent` | server/internal/logstore/store.go:365-373 | that retirement is by a healing or a purge of its generation after the line was handed over |
| `Shutdown.NotesGap` | server/internal/logstore/sync.go:90-95 | a sync notes the gap that is in effect and leaves it |
| `Shutdown.HealClears` | server/internal/logstore/sync.go:105-113 | a successful backfill takes its note and clears the noted gap, and no gap that an older dropped line has moved since |
| `Shutdown.FailedFlushMarks` | server/internal/logstore/ingest.go:99-108 | right after a batch fails each of its lines has a gap at or before it |
| `Shutdown.MarkLostIff` | server/internal/logstore/store.go:349-373 | an event takes a line's mark away exactly when it heals the gap in effect, which it does not when an older line was dropped since the gap was noted, or purges the generation |
| `Shutdown.RetiredByEvent` | server/internal/logstore/sync.go:90-113 | over whole runs a mark is retired only by a healing or a purge of its generation after the batch was flushed |
| `Shutdown.NothingAcceptedIsLost` | server/internal/logstore/ingest.go:92-172 | once the writer has stopped, every message ever queued was in a batch that was committed, or that failed with its lines marked still unless their generation was healed or purged since |
| `Shutdown.NeverStuck` | server/internal/logstore/sync.go:29-64 | a cancelled store always has a step towards the end of shutdown |
| `Shutdown.AdvanceShortens` | server/internal/logstore/store.go:257-271 | each such step shortens what is left to do |
| `RuleWindow.RingWindow.Observe` | server/internal/alerts/window.go:46-72 | the ring buffer computes the ring-free transition on the last matches, in state and result |
| `WindowRuns.WindowRefines` | server/internal/alerts/window.go:33-72 | over whole runs a match trips exactly when the threshold-th most recent match since the last fire is within the window, and fires exactly when it trips outside the cooldown |
| `WindowRuns.FiresApart` | server/internal/alerts/window.go:59-70 | two fires are at least a cooldown apart |
| `WindowRuns.FiresTimesThreshold` | server/internal/alerts/window.go:50-70 | fires times threshold never exceeds matches |
| `WindowRuns.TripsConserved` | server/internal/alerts/window.go:56-71 | trips are fires plus reported plus pending suppressed counts |
| `WindowRuns.PruningInvisibleIff` | server/internal/alerts/engine.go:625-632 | pruning day-old windows changes no firing decision of any run exactly when the cooldown, and for rules counting several matches the window, fit the idle limit |
| `WindowRuns.FireResynchronises` | server/internal/alerts/window.go:64-70 | for such a rule a fire leaves the pruned and the unpruned window equal, so that only the suppressed count of the first fire after a prune can differ |
| `RuleEngine.AcceptedPruneInvisibly` | server/internal/api/alerts_handlers.go:28-29 | every rule within the limits of the API is one of those |
| `RuleEngine.CompileRules` | server/internal/alerts/rules.go:54-107 | the compiled rules are, in order, exactly those that are enabled, of type event or log, and with a pattern that compiles; unless its seconds overflow each has the configured threshold but at least 1, the configured window or a minute, and the configured cooldown or five minutes |
| `RuleEngine.SecondsWrap` | server/internal/alerts/rules.go:72-73 | seconds that do not fit 64 bits as nanoseconds wrap around |
| `RuleEngine.AcceptedTrips` | server/internal/alerts/rules.go:72-84 | over any run of matches an accepted rule trips exactly when, since its last fire and within windowSeconds, as many matches as its threshold came, and fires when it trips cooldownSeconds or more after the last fire |
| `RuleEngine.RecordedRun` | server/internal/alerts/engine.go:592-600 | the matches recorded at one key are decided as one run of the rate window |
| `RuleEngine.EventStaleIff` | server/internal/alerts/engine.go:398-411 | for any rules, shared ids included: an event rule id is not stale exactly when no rule has it now and none had it, or exactly one has it now with the source it had |
| `RuleEngine.SourcesLast` | server/internal/alerts/engine.go:398-401 | of old event rules that share an id the last one is compared against |
| `RuleEngine.StaleIdsIff` | server/internal/alerts/engine.go:382-411 | for any rules an id is not stale exactly when its log rule in force, if any, is configured unchanged, and its event rules are none before and now or are now one, equal to the last one before |
| `RuleEngine.OwnershipKeptIff` | server/internal/alerts/engine.go:369-419 | for any rules in force and any new rules, reconciling leaves every owned window owned exactly when each rule in force whose id up to a bar is left alone has a wanted rule with its key prefix and its threshold, window and cooldown |
| `RuleEngine.PlainKeepsOwners` | server/internal/alerts/engine.go:369-419 | with one bar-free id per rule in force that condition holds, whatever the new rules are |
| `RuleEngine.SharedIdOutlives` | server/internal/alerts/engine.go:398-411 | of two event rules with one id and thresholds 1 and 5 the first is disabled: no id is stale and its window stays with a threshold no wanted rule has |
| `RuleEngine.OutlivedWindowFires` | server/internal/alerts/engine.go:560-586 | in that window the other rule fires on its first match, where a window of its own would not |
| `RuleEngine.BarIdOutlives` | server/internal/alerts/engine.go:413-419 | a removed event rule whose id holds a bar is stale and its window stays without an owner |
| `RuleEngine.UniqueOwner` | server/internal/alerts/engine.go:453-464 | with one bar-free id per rule in force the windows at a rule's keys have its threshold, window and cooldown |
| `RuleEngine.StaleIff` | server/internal/alerts/engine.go:382-411 | with one bar-free id per rule, in force and configured, a rule in force loses its windows exactly when it is no longer configured unchanged |
| `RuleEngine.SweptOwned` | server/internal/alerts/engine.go:413-419 | if every rule in force whose id up to a bar is left alone has a wanted rule with its key prefix and parameters, sweeping keeps every owned window owned |
| `RuleEngine.FiledUnderIff` | server/internal/alerts/engine.go:413-416 | a window key is filed under its rule's id exactly when the id holds no bar |
| `RuleEngine.KeysApart` | server/internal/alerts/engine.go:453-464 | with bar-free ids and container names no two rules, hosts or containers share a window |
| `RuleEngine.SurvivesSweepIff` | server/internal/alerts/engine.go:413-419 | a rule's window survives the sweep exactly when its id up to the first bar is not stale |
| `RuleEngine.Engine.Reconcile` | server/internal/alerts/engine.go:369-419 | exactly the wanted rules are in force; unchanged rules keep subscription and stamp, others get a stamp never used before; the windows filed under stale ids are gone; every window stays owned by a rule in force under the condition of OwnershipKeptIff, which one bar-free id per rule in force implies |
| `RuleEngine.Engine.SubscribeRule` | server/internal/alerts/engine.go:425-450 | a new subscription gets a stamp of its own for its rule |
| `RuleEngine.Engine.HandleMatch` | server/internal/alerts/engine.go:453-464 | a match stamped under a superseded subscription changes nothing; any other is for a rule in force and is recorded once in its window; owned windows stay owned |
| `RuleEngine.Engine.RecordEventMatch` | server/internal/alerts/engine.go:560-586 | an event goes through the event rules in order, each reading the clock anew, a die paired with an oom its rule also watches being skipped |
| `RuleEngine.EventReaches` | server/internal/alerts/engine.go:566-586 | with distinct ids an event reaches the window of each rule that takes it once, and no other window |
| `RuleEngine.TakesIff` | server/internal/alerts/engine.go:560-580 | after any ooms and dies a rule takes an event it watches on a container it is for, and passes over a die only if it watches ooms too and the container had one within the ten seconds before |
| `RuleEngine.PairedIff` | server/internal/alerts/engine.go:574-577 | a die is paired exactly when its container had an oom within the ten seconds before it, however old times are expired |
| `RuleEngine.Engine.PruneWindows` | server/internal/alerts/engine.go:625-637 | drops exactly the windows idle for more than a day and the oom times outside the pairing window |
| `RuleEngine.ExpiryInvisible` | server/internal/alerts/engine.go:574-577 | expiring oom times never changes which dies are paired |
| `TailHub.OneTail` | server/internal/logstream/logstream.go:209-219 | two uncancelled tails of one subscription and container are the same one, and the subscription holds it |
| `TailHub.ExitSupervised` | server/internal/logstream/logstream.go:419-426 | handling a late exit never removes a running tail |
| `TailHub.Hub.HandleEvent` | server/internal/logstream/logstream.go:311-342 | a start spawns a tail for each matching subscription without one, die and destroy drop the container's tails, rename drops them and asks for a listing; tails stay supervised |
| `TailHub.Hub.HandleList` | server/internal/logstream/logstream.go:346-415 | after a listing each subscription tails exactly the matching running containers of the listed hosts, other hosts are untouched, wanted tails are kept, and a queued request starts the next listing |
| `TailHub.IndexRunning` | server/internal/logstream/logstream.go:371-389 | the index holds exactly the running containers of the listed hosts, the last entry of an id winning |
| `TailHub.ConvergedChoice` | server/internal/logstream/logstream.go:63-81 | after a listing a container of a listed host is tailed exactly when its last running entry is on a host the subscription names, if any, and has a name or a compose project it names, if any |
| `TailHub.StartedChoice` | server/internal/logstream/logstream.go:311-324 | after a start event a subscription tails the container when it did before or chooses it, and its other tails stay |
| `TailHub.Hub.RequestList` | server/internal/logstream/logstream.go:288-307 | at most one listing is in flight, and every request is followed by a listing started after it or queued |
| `TailHub.Hub.HandleTailExit` | server/internal/logstream/logstream.go:419-426 | an exit removes its own handle only |
| `TailHub.Hub.Subscribe` | server/internal/logstream/logstream.go:183-205 | a new subscription has no tails yet and is followed by a listing started after it |
| `TailHub.Hub.RemoveSub` | server/internal/logstream/logstream.go:209-219 | a removed subscription leaves no uncancelled tail behind |
| `TailHub.Hub.SpawnTail` | server/internal/logstream/tail.go:24-42 | a spawned tail is held by its subscription from the start |
| `TailHub.Hub.TailEnds` | server/internal/logstream/tail.go:47-75 | a tail may stop at any time and then has its exit to report |
| `TailHub.Hub.Shutdown` | server/internal/logstream/logstream.go:431-440 | no tail is left uncancelled |
| `DeliveryRing.Ring.Push` | server/internal/logstream/subscription.go:57-80 | accepted records are delivered, buffered or dropped, the buffer is the newest suffix of what was accepted, and only a full ring drops, its oldest record |
| `DeliveryRing.Ring.Take` | server/internal/logstream/subscription.go:85-103 | the sink gets the oldest buffered record; the loop ends exactly on a close that discards or finds nothing buffered |
| `DeliveryRing.Ring.Finish` | server/internal/logstream/subscription.go:85-103 | a drain close delivers everything buffered in order, a discard close nothing |
| `DeliveryRing.Ring.Close` | server/internal/logstream/subscription.go:107-115 | the first close decides |
| `DeliveryRing.LostCount` | server/internal/logstream/subscription.go:57-103 | the accepted records neither delivered nor buffered are exactly as many as the drop count |
| `LineSplitter.LineWriter.Write` | server/internal/docker/logs_tail.go:22-45 | one write drains the finished lines and flushes an overlong rest; what stays pending holds no newline and is at most 1 MiB |
| `LineSplitter.LinesRoundTrip` | server/internal/docker/logs.go:77-113 | splitting a stream gives back the lines it was written from, ended by a newline with or without a carriage return, and the last one also without an end |
| `LineSplitter.EndedExactly` | server/internal/docker/logs.go:80-93 | a run that a newline ends is one line, possibly empty, without one carriage return, and none when the run is empty |
| `LineSplitter.FlushedExactly` | server/internal/docker/logs.go:103-113 | a flushed run is one line without one carriage return, and none when nothing is left |
| `LineSplitter.FittingCutsAgree` | server/internal/docker/logs.go:77-113 | a stream whose runs fit the cap gives the lines of the whole however it is cut |
| `LineSplitter.CutsAgreeIff` | server/internal/docker/logs.go:65-113 | every way to cut a stream into writes gives the same lines exactly when each finished line is at most one byte over the cap, and the last run too, or two bytes over and ending in a single carriage return |
| `RateLimiter.Limiter.Allow` | server/internal/api/ratelimit.go:40-54 | one call on the object is one call of the specified limiter, sweep included |
| `RateLimiter.SweepInvisible` | server/internal/api/ratelimit.go:57-67 | a limiter answers every call sequence exactly as one that never sweeps |
| `RateLimiter.AtMostTwiceLessOne` | server/internal/api/ratelimit.go:40-54 | within any half-open window length a key gets at most twice the limit less one allowed calls |
| `RateLimiter.DeniedIff` | server/internal/api/ratelimit.go:40-54 | a call is denied exactly when its key's window is still open and as many calls as the limit came since the call that opened it; denied calls do not prolong a window |
| `RateLimiter.DeniedNeedsLimit` | server/internal/api/ratelimit.go:40-54 | no call is denied whose key made fewer calls than the limit within the last window length |
| `RateLimiter.TwiceLessOneReached` | server/internal/api/ratelimit.go:40-54 | for every limit and every window of at least two nanoseconds a call sequence that reaches that bound |

## Left out

- Splits.WalkRightIff: compares entries together with the positions of their first rows. A page with a wrong entry can
  still read like the right one when two different entries have the same contents.
- Sweep.TrimStore: says nothing about an order across containers, because the store-wide phase takes the container
  with the oldest line but may evict newer lines of it before older ones of another container.
- Shutdown.NothingAcceptedIsLost: a healed gap need not have been covered by the backfill that healed it, because a
  sync may note an older gap while that backfill is in flight; that every marked line is read again is not claimed.
- Sweep.Sweep: ingestion and purges between two evictions of one sweep are not part of it.
- RuleEngine.OwnershipKeptIff: a window belongs to a rule when its key can be that rule's. With bars in ids or host
  names the key of one rule may read as another's, which the statement counts as belonging to either.
- Rate windows in the engine's map are values with the parameters they were created with; the object behind them is
  `RuleWindow.RingWindow`.
- The hub's tail goroutines, the listing goroutine and the store's backfills are modelled by what they may do next,
  not by what they read; retry delays and the attempt limit of a tail are not part of the model.
- Reopening the event stream after a hot swap of the engine clients, and the cut of an event action at ": ".
- The columns name, image, first and last seen beyond what attribution and metadata upserts need, and the WAL.
- `backfillSince`, `watermark`, the resume snapshot and the sync loop's retry bookkeeping.
- `matchesEntry` of a log rule: any message may match. Two rules that differ only in a nil and an empty list count as
  equal.
- Level detection, timestamp parsing and JSON: a row's level, time and message are given. Search and rule patterns are
  a given test of the message; the structured-field expression is modelled.
- Early ends of the streaming log writer when its pipe fails.
- Inspect lookups, the dispatch queue, notification channels and alert history.
- SQLite, the engine clients, HTTP handlers beyond the limits cited, authentication, the CLI and all TypeScript.
