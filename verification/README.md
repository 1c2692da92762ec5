# Agena: verified models of its revision clock, live delivery, content paging and source tools

This project models four parts of the Agena repository in Dafny and proves what they promise.

1. **Resource revisions** (`RevisionClock`, `ResourceKeys`, `ListInvalidation`, `ListQueries`, `Revisions`,
   `DurableRefresh`, `ConditionalRead`, `RefreshedRead`). A bounded cache of per-resource revisions backs the ETags of
   the HTTP API. The main results: a 304 is answered only when no observed event has invalidated the body
   (`Revisions.Coherence`, and `ConditionalRead.NotModifiedMeansCurrent` from the header text on), and behind a durable
   refresh only when no publication has changed it (`RefreshedRead.RefreshedNotModified`); an event invalidates exactly
   the bodies that show what happened (`Revisions.EventExact`, with one exception); a forgotten key never regains an
   old token; whatever changes the answer of a listing request invalidates the key it asked for
   (`ListQueries.RequestSound`), with the exact conditions under which a key is computed needlessly or a served
   statistic is missed; and a durable refresh that returns Ok has lost nothing, told of the call
   (`DurableRefresh.CallLosesNothing`) and of its steps while commits, resets and overflows interleave with them.
2. **Live delivery** (`LiveDelivery`). Commit feed, projection task, bounded channel and client as one state machine:
   over every run each committed entry, metadata version and deletion in scope is known to the client, on its way, or
   covered by a pending marker; once nothing more is committed everything drains, and then it is known exactly what the
   client holds.
3. **Content paging** (`Utf8`, `TextPaging`, `RecordPaging`, `ContentDelivery`). Pages cut by byte budget over UTF-8
   (section 3 of RFC 3629): lossless, always progressing, and a delivery loop that loses no wake-up, waits and closes
   exactly where it should, and ends.
4. **Source tools** (`RustLexer`, `Lexemes`, `Delimiters`, `Skeleton`, `UseTree`, `Graph`, `RustItems`, `SplitFile`,
   `AtomicWrite`). A lossless lexer with its round trip over written lexemes, bracket matching against a grammar,
   skeletons, the `use`-tree round trip, exact graph closure and levels, an item inventory that finds the items written
   except exactly the misread ones, a split that conserves the source for every accepted manifest, and a multi-file
   write that is all-or-nothing.

`Wrappers`, `Decimal` and `Sorting` hold the shared option and result types, decimal text and stable sorting.

`dafny verify dfyconfig.toml` checks everything.

## How the model takes the code's form

Objects whose methods update fields are classes (`RevisionClock.Clock`, `RevisionClock.LruCache`,
`DurableRefresh.ResourceRevisions`, `ContentDelivery.Delivery`, `AtomicWrite.FileSystem`); loops are methods with
invariants, proved against functions whose own properties are the lemmas. Protocols that interleave are state machines
over atomic steps. The wall clock, the iteration order of the cache, the answers of storage readers, the schedule of
file-system failures and the Unicode character classes are parameters: every statement holds for all of them.

Places where the code falls short of a plain promise, each with its exact condition:

- `Clock::new` reads the wall clock twice, revision first. If the second reading is later, the reset floor starts above
  the revision, and the first invalidation may leave a token unchanged (`RevisionClock.FirstInvalidation`: effective for
  all later readings if and only if the second reading was not later than the first; `Revisions.CoherentStart`: every
  run is coherent if and only if that holds or the first tick reads past the second reading).
- `tick` saturates, so an invalidation moves a token strictly if and only if it was below the top of i64
  (`RevisionClock.InvalidateStrict`, `Revisions.SaturatedTokenRepeats`).
- `atomic_write_many` restores originals through a text writer: after a failure the file system is what it was if and
  only if every path already replaced held UTF-8 (`AtomicWrite.UndoneExactly`, with `AtomicWrite.UndecodableIsLost`).
- Pausing a message queue turns an executing session ready while its executions stay queued. The statistics vote counts
  executions and the served number counts states, so the number drops and no key is computed
  (`ListInvalidation.PausedQueueIsMissed`; `ListInvalidation.StatisticsExact` has the condition for every change, and
  `ListInvalidation.StatisticsDerived` the one a caller can check).
- A bucket's count key also answers counts under a further filter, such as roots only. Such a count changes unnoticed if
  and only if the row stays in the bucket and only the filter's answer changes (`ListInvalidation.FilteredCountMissed`;
  `ListInvalidation.AdoptedRootIsMissed` is such an input).
- A temporary child hands its parent over although the parent's child count does not move, so listings are invalidated
  needlessly (`ListInvalidation.TemporaryChildIsNeedless`; `ListInvalidation.ListingExact` has the condition).
- `If-None-Match: *` never matches, where section 13.1.2 of RFC 9110 asks for a match
  (`ConditionalRead.FieldExact`: the field value is read as that section asks if and only if it is not the asterisk).
- Invalidating the feed while nobody watches it and nothing was published leaves no trace: the next refresh returns Ok
  with every token unchanged (`DurableRefresh.EarlyInvalidationIsMissed`).
- Entries committed while their session is hidden from lists are announced to no wide subscription, not even when the
  session is listed later (`LiveDelivery.ListedLaterIsMissed`). Once everything has drained, the client holds an entry's
  committed version if and only if its last commit was admitted, or the task or the client read it afterwards
  (`LiveDelivery.CurrentExact`).
- The state of a session shows the activities it owns and those of its child sessions, but the signal of an activity with
  a parent session invalidates the parent's state alone (`Revisions.DelegatedActivityIsMissed`; `Revisions.SignalExact`:
  a signal invalidates exactly the bodies that show it, except the owner's state behind a parent session).
- A character literal with a hexadecimal escape, such as `'\x41'`, comes apart in the lexer (`Lexemes.HexIsMisread`). A
  source written as lexemes is read as exactly these if and only if it holds none (`Lexemes.LexRoundTrip`).
- The inventory ends an item at the first top-level token that its leading keyword allows. So it reads
  `const fn f() { ... }` as a constant that runs to the next top-level semicolon, and ends `impl F<{ N }> for B { }` at
  the const argument. The items found are the items written if and only if none ends with a block that its keyword does
  not end at, or holds such a token before its end (`RustItems.InventoryExact`, with `RustItems.ConstFnIsMisread` and
  `RustItems.ConstArgumentIsMisread`).

## Model

| member | source | states |
|---|---|---|
| `ResourceKeys.JoinInjective` | crates/agena-api-server/src/revisions.rs:114-131 | formatted keys with the same text have the same segments |
| `ResourceKeys.JoinPrefix` | crates/agena-api-server/src/revisions.rs:243-258 | a key text starts with another and a colon exactly when its segments extend the other's |
| `ResourceKeys.TextInjective` | crates/agena-api-server/src/revisions.rs:76-128 | two resources have the same key text only if they are the same resource |
| `ListInvalidation.ListRowKeys` | crates/agena-api-server/src/revisions.rs:114-131 | inserts exactly the listings a listed row appears in, and nothing for a hidden row |
| `ListInvalidation.ListChangeKeys` | crates/agena-api-server/src/revisions.rs:148-182 | the accumulated key set is the set of resources that one row's change invalidates |
| `ListInvalidation.AddStatistics` | crates/agena-api-server/src/revisions.rs:161-174 | adds the statistics of every workspace whose contribution moved, and the directory if any did |
| `ListInvalidation.ShowsListed` | crates/agena-api-server/src/revisions.rs:114-131 | a listing's key is inserted for a row exactly when that listing shows the row |
| `ListInvalidation.InvalidatedKinds` | crates/agena-api-server/src/revisions.rs:148-182 | membership in the computed set, decided kind by kind without naming the loops |
| `ListInvalidation.MemberIsQueried` | crates/agena-application/src/service/sessions.rs:41-54 | bucket membership in the clock's code agrees with the query that serves the bucket |
| `ListInvalidation.ChildCountMoves` | crates/agena-storage-sqlite/src/kernel/schema.rs:180-183 | the displayed child count of a parent moves exactly when the changed row's own vote for it does |
| `ListInvalidation.MovedIsSupplied` | crates/agena-storage-sqlite/src/kernel.rs:2222-2241 | every parent whose child count moved is handed over with the commit |
| `ListInvalidation.ContentsChange` | crates/agena-storage-sqlite/src/kernel.rs:2222-2241 | a listing's served contents change exactly when it shows the row before or after, or a parent whose child count moves |
| `ListInvalidation.ListingSound` | crates/agena-api-server/src/revisions.rs:97-182 | a listing whose contents changed, under any further filter of its query, has its key computed |
| `ListInvalidation.ListingScoped` | crates/agena-api-server/src/revisions.rs:156-182 | a listing key is computed only for a changed listing or one that shows a parent handed over |
| `ListInvalidation.ListingExact` | crates/agena-api-server/src/revisions.rs:97-182 | for every commit as storage describes it, a listing's key is computed if and only if its rows or their child counts changed, except exactly when the listing shows a parent handed over, none whose count moves, and not the row itself |
| `ListInvalidation.TemporaryChildIsNeedless` | crates/agena-storage-sqlite/src/kernel.rs:2222-2241 | a new temporary child invalidates the listing of all sessions although its contents stay |
| `ListInvalidation.CountChange` | crates/agena-api-server/src/revisions.rs:156-160 | changing one row moves a count by exactly that row's vote before and after |
| `ListInvalidation.BucketCountExact` | crates/agena-api-server/src/revisions.rs:156-160 | a bucket's count key is computed if and only if the number its query serves changed |
| `ListInvalidation.FilteredCountMissed` | crates/agena-api-server/src/rest/sessions.rs:55-78 | a count under a further filter changes without its key exactly when the row stays in the bucket and only the filter's answer changes |
| `ListInvalidation.AdoptedRootIsMissed` | crates/agena-api-server/src/rest/sessions.rs:55-78 | a pinned root that is given a parent changes the count of pinned roots, and the count key is not computed |
| `ListInvalidation.SumsFollow` | crates/agena-storage-sqlite/src/kernel/lifecycle.rs:1117-1145 | some served number of a workspace changes exactly when the row's part in it does |
| `ListInvalidation.StatisticsExact` | crates/agena-api-server/src/revisions.rs:133-174 | for every change, the statistics key is computed if and only if a served number changed, precisely where total, roots, pinned or attention move, or the activity vote and the processing state's vote move together |
| `ListInvalidation.PausedQueueIsMissed` | crates/agena-storage-sqlite/src/kernel/lifecycle.rs:878-886 | pausing the queue of a session that only waits in it lowers the served number of running sessions by one, and neither statistics nor directory key is computed |
| `ListInvalidation.PausedQueueDisagrees` | crates/agena-storage-sqlite/src/kernel/lifecycle.rs:878-886 | on rows as storage derives them, executions and processing state disagree exactly for a paused queue with nothing running |
| `ListInvalidation.StatisticsDerived` | crates/agena-storage-sqlite/src/kernel/lifecycle.rs:878-886 | on rows as storage derives them, key and served numbers agree if and only if total, roots, pinned or attention move, or the session neither becomes nor ceases to be idle in a paused queue |
| `ListInvalidation.DirectoryExact` | crates/agena-api-server/src/revisions.rs:170-173 | the directory's key is computed if and only if a served number of some workspace changed, precisely where some vote moves if and only if some served part does |
| `ListInvalidation.DirectoryDerived` | crates/agena-api-server/src/revisions.rs:170-173 | the same condition for the directory, over the workspaces of the two rows |
| `ListQueries.KeyAsRequested` | crates/agena-api-server/src/rest/sessions.rs:55-78 | for every resource, the key text that is invalidated is the one its handler formats |
| `ListQueries.RequestSound` | crates/agena-api-server/src/rest/sessions.rs:41-90 | for every listing request but a bucket's count, and any search or page: a commit that changes its answer invalidates the key it captured |
| `ListQueries.CountRequestExact` | crates/agena-api-server/src/rest/sessions.rs:55-62 | the key of a plain bucket count is invalidated if and only if the count changed |
| `RevisionClock.SetKeeps` | crates/agena-api-server/src/revisions.rs:49-58 | storing a key keeps the clock's invariant, every covered and every outdated token, and other keys unless the cache is emptied |
| `RevisionClock.SetAllKeeps` | crates/agena-api-server/src/revisions.rs:279-281 | a batch raises each of its keys past every older token in any order, although any of its steps may empty the cache |
| `RevisionClock.ResetKeeps` | crates/agena-api-server/src/revisions.rs:59-63 | a reset outdates every token of every key at once |
| `RevisionClock.IssueKeeps` | crates/agena-api-server/src/revisions.rs:209-219 | issuing a token never lowers a key and loses nothing about the others |
| `RevisionClock.OutdatedNotIssued` | crates/agena-api-server/src/revisions.rs:209-219 | an outdated token below the top of i64 is never issued again |
| `RevisionClock.IssueStable` | crates/agena-api-server/src/revisions.rs:209-219 | reading an unchanged resource again repeats its token and changes nothing |
| `RevisionClock.InvalidateStrict` | crates/agena-api-server/src/revisions.rs:33-58 | an invalidation strictly raises a key if and only if it stood below the top of i64 |
| `RevisionClock.FirstInvalidation` | crates/agena-api-server/src/revisions.rs:25-38 | the first invalidation works for all later clock readings if and only if the constructor's second reading was not later than its first |
| `RevisionClock.LruCache.Put` | crates/agena-api-server/src/revisions.rs:49-58 | a full cache evicts one key of its own choice to admit a new one |
| `RevisionClock.Clock.constructor` | crates/agena-api-server/src/revisions.rs:25-32 | starts empty with two independent clock readings |
| `RevisionClock.Clock.Tick` | crates/agena-api-server/src/revisions.rs:33-38 | the larger of the wall clock and the saturated successor |
| `RevisionClock.Clock.Observe` | crates/agena-api-server/src/revisions.rs:39-48 | a newer or foreign position is stored and ticks; an older one changes nothing |
| `RevisionClock.Clock.Set` | crates/agena-api-server/src/revisions.rs:49-58 | refines the abstract clock, and the cache's own eviction never runs |
| `RevisionClock.Clock.SetAll` | crates/agena-api-server/src/revisions.rs:279-281 | setting keys one by one is the abstract batch |
| `RevisionClock.Clock.Reset` | crates/agena-api-server/src/revisions.rs:59-63 | refines the abstract reset |
| `RevisionClock.Clock.Issue` | crates/agena-api-server/src/revisions.rs:209-219 | the token issued is what the key now stands at |
| `Revisions.SelectedExact` | crates/agena-api-server/src/revisions.rs:242-260 | the prefix tests pick exactly the session's resources except its files, and the affected entries' resources: 1 never matches 12 |
| `Revisions.SignalExact` | crates/agena-domain/src/background_activity.rs:249-269 | a signal invalidates a resource if and only if its body shows the plan or the activity, except exactly the state of the session that owns an activity behind a parent session |
| `Revisions.DelegatedActivityIsMissed` | crates/agena-application/src/application_sessions.rs:282-330 | the activity of a child session is shown in both sessions' states, and only the parent's is invalidated |
| `Revisions.WorkspaceExact` | crates/agena-api-server/src/rest/workspaces.rs:5-24 | a workspace change invalidates exactly the two bodies that list workspaces |
| `Revisions.CommitExact` | crates/agena-api-server/src/revisions.rs:240-279 | a commit with known scope affects exactly the bodies it shows up in: the session's, the entries', its listings, and the files unless it is a title, round, text or activity |
| `Revisions.EventExact` | crates/agena-api-server/src/revisions.rs:64-282 | the same for every event, with the one exception of signals |
| `Revisions.CommitKeeps` | crates/agena-api-server/src/revisions.rs:220-282 | a commit walks only the cached keys, yet outdates every token ever given out for an affected key |
| `Revisions.StepKeeps` | crates/agena-api-server/src/revisions.rs:64-94 | every event keeps the invariant and outdates each given token whose key it invalidates |
| `Revisions.RunKeeps` | crates/agena-api-server/src/revisions.rs:190-282 | along every run the invariant holds and no key's revision decreases |
| `Revisions.ReachableInv` | crates/agena-api-server/src/revisions.rs:49-58 | in every reachable state each given token's key is cached at least as high or lies below the floor |
| `Revisions.InvalidationLasts` | crates/agena-api-server/src/revisions.rs:383-429 | an invalidation anywhere in a run outdates the token for the rest of it |
| `Revisions.Coherence` | crates/agena-api-server/src/revisions.rs:383-429 | if a later token equals the captured one, no event in between invalidated the key, whatever was read, signalled, committed, reset or forgotten |
| `Revisions.CoherentStart` | crates/agena-api-server/src/revisions.rs:25-38 | from every pair of start readings below the top of i64, all runs are coherent at every point if and only if the second reading was not later than the first or the first tick reads past the second |
| `Revisions.TokensNeverDecrease` | crates/agena-api-server/src/revisions.rs:50-58 | per-key tokens never decrease along a run, even once the key is forgotten |
| `Revisions.Undisturbed` | crates/agena-api-server/src/revisions.rs:220-282 | while nothing is forgotten, an event that does not invalidate a key leaves its token alone |
| `Revisions.FilesKept` | crates/agena-api-server/src/revisions.rs:266-277 | kinds that cannot change file evidence leave the session's files token alone |
| `Revisions.SaturatedTokenRepeats` | crates/agena-api-server/src/revisions.rs:33-38 | at the top of i64 an invalidation is not seen: the exception to coherence is real |
| `DurableRefresh.ResourceRevisions.constructor` | crates/agena-api-server/src/revisions.rs:191-208 | starts without a watch |
| `DurableRefresh.ResourceRevisions.Token` | crates/agena-api-server/src/revisions.rs:209-219 | refines the read event and returns the key's stored revision |
| `DurableRefresh.ResourceRevisions.ObserveSignal` | crates/agena-api-server/src/revisions.rs:64-94 | refines the signal event, whose keys `Revisions.SignalExact` characterises |
| `DurableRefresh.ResourceRevisions.ObserveKernelChange` | crates/agena-api-server/src/revisions.rs:220-282 | refines the commit event, with its known, foreign-epoch, scopeless and scoped cases |
| `DurableRefresh.ResourceRevisions.ObserveWorkspaceChange` | crates/agena-api-server/src/revisions.rs:340-346 | refines the workspace event |
| `DurableRefresh.ResourceRevisions.RefreshDurable` | crates/agena-api-server/src/revisions.rs:295-339 | the loop over the stored watch refines `Refresh`, which the lemmas below characterise, with every error path |
| `DurableRefresh.RefreshIdle` | crates/agena-api-server/src/revisions.rs:299-313 | with an idle feed, refreshing again changes neither clock nor watch |
| `DurableRefresh.RefreshIsRun` | crates/agena-api-server/src/revisions.rs:299-339 | a whole call is a run of the atomic steps: it leaves the clock and watch that they leave, and returns Ok exactly if the last of them does |
| `DurableRefresh.RefreshOutdates` | crates/agena-api-server/src/revisions.rs:299-339 | a call that returns Ok has outdated every given token that a queued new commit touches, and every token at all after a reset or a first opening with a head or position |
| `DurableRefresh.DrainOkExact` | crates/agena-api-server/src/revisions.rs:314-339 | the loop returns Ok exactly if it can reopen a feed that was reset, or else finds it open, and then leaves an empty queue or the replacement |
| `DurableRefresh.StepInv` | crates/agena-api-server/src/revisions.rs:295-339 | each interleaved step keeps every changed resource outdated, queued, or owed a reset |
| `DurableRefresh.RunInv` | crates/agena-api-server/src/revisions.rs:295-339 | the same over every run of interleaved steps |
| `DurableRefresh.RefreshLosesNothing` | crates/agena-api-server/src/revisions.rs:295-339 | when a refresh returns Ok, every token of a resource that any publication changed is outdated, and what came after a replacement watch stays queued in it; an invalidation of the whole feed counts unless it met no watch and no publication |
| `DurableRefresh.CallLosesNothing` | crates/agena-api-server/src/revisions.rs:299-339 | from every state that the interleaved steps reach, a call that returns Ok has outdated every changed resource's tokens |
| `DurableRefresh.EarlyInvalidationIsMissed` | crates/agena-storage/src/kernel/watch.rs:310-318 | that exception: from every such state the next refresh returns Ok and leaves clock and tokens as they were |
| `DurableRefresh.OutdatedForever` | crates/agena-api-server/src/revisions.rs:314-339 | an outdated token stays outdated whatever steps follow |
| `ConditionalRead.NotModifiedExact` | crates/agena-api-server/src/revisions.rs:419-429 | a padded, comma-separated If-None-Match list of weak and strong tags matches exactly when one of them carries the current token, weak or not: the weak comparison of section 8.8.3.2 of RFC 9110 |
| `ConditionalRead.MemberMatches` | crates/agena-api-server/src/revisions.rs:421-427 | one list member matches exactly when its tag is the token, and a tag that holds commas, which the code takes apart, never does |
| `ConditionalRead.StarNeverMatches` | crates/agena-api-server/src/revisions.rs:421-427 | the asterisk, padded or not, matches no token |
| `ConditionalRead.FieldExact` | crates/agena-api-server/src/revisions.rs:419-429 | for a current representation the field value is read as section 13.1.2 of RFC 9110 asks, exactly unless it is the asterisk |
| `ConditionalRead.TokenTextInjective` | crates/agena-api-server/src/revisions.rs:209-219 | within one epoch equal token texts mean equal revisions |
| `ConditionalRead.EqualIsUntouched` | crates/agena-api-server/src/revisions.rs:383-429 | a token equal to the one read earlier in a run means that no event since has invalidated the key |
| `ConditionalRead.NotModifiedMeansCurrent` | crates/agena-api-server/src/revisions.rs:383-429 | over every run: a 304 means that one of the tags the client was given at earlier reads is the current token, and that no event since that read invalidated the resource |
| `RefreshedRead.GivenIsIssued` | crates/agena-api-server/src/revisions.rs:410-418 | a token given by a read is among those accounted for at every later step of a run |
| `RefreshedRead.PublicationOutdates` | crates/agena-api-server/src/revisions.rs:295-339 | a token of a resource that a publication changed is outdated once a refresh has returned Ok, and to the end of the run |
| `RefreshedRead.RefreshedNotModified` | crates/agena-api-server/src/revisions.rs:410-429 | over every run: a 304 behind a refresh that returned Ok means that one of the tags given at earlier reads is the current token, that since it was given no publication before the refresh returned touched the resource, and that no other event up to the answer invalidated it |
| `LiveDelivery.StepInv` | crates/agena-api-server/src/live.rs:144-197 | every step of feed, task, channel and client keeps each relevant entry, metadata version and deletion known, in the watch, in flight, or covered by a marker, and each silent one newer than everything the client has or will get |
| `LiveDelivery.RunInv` | crates/agena-api-server/src/live.rs:144-197 | the same over every run |
| `LiveDelivery.NothingLost` | crates/agena-api-server/src/live.rs:105-197 | no committed entry, metadata version or deletion is silently lost, and once all queues are empty the client holds exactly the committed versions, because the replacement watch is installed before the lag is announced; what was committed while hidden from lists is outside until the task or the client reads it |
| `LiveDelivery.CurrentExact` | crates/agena-api-server/src/live.rs:105-197 | at the end of every run that has drained, the client holds the committed version of an entry or of metadata in scope, or knows of a deletion, if and only if it is not silent: its last commit was admitted, or the task or the client read it afterwards |
| `LiveDelivery.DeletionsAreReal` | crates/agena-api-server/src/live.rs:167-171 | the client knows of a deletion only if there was one |
| `LiveDelivery.DrainIsBounded` | crates/agena-api-server/src/live.rs:144-197 | without further commits no run of task and client is longer than what is under way |
| `LiveDelivery.Drains` | crates/agena-api-server/src/live.rs:144-197 | and from every state with a running task these steps lead to a quiet one |
| `LiveDelivery.ListedLaterIsMissed` | crates/agena-api-server/src/live.rs:165 | an input of the other side: an entry is committed while hidden, its session is listed afterwards, all queues are empty, and the client is behind |
| `Utf8.BoundarySplits` | crates/agena-application/src/application_content.rs:192-198 | whole scalars fall into whole scalars exactly at character boundaries |
| `Utf8.CheckCut` | crates/agena-application/src/application_content.rs:192-198 | checking a cut of valid text keeps all of it but a cut-off last scalar, fewer than four bytes |
| `Utf8.BoundaryNear` | crates/agena-application/src/application_content.rs:181-190 | among whole scalars no position is more than three bytes before a boundary |
| `TextPaging.DecodeExact` | crates/agena-application/src/application_content.rs:181-204 | decoding a range read at a boundary, or after a gap, yields exactly the stream from there, cut on whole scalars |
| `TextPaging.DecodeInside` | crates/agena-application/src/application_content.rs:194-198 | a cursor inside a scalar is refused |
| `TextPaging.ExactIsText` | crates/agena-application/src/application_content.rs:199-200 | every page is valid text, so the conversion to a string cannot fail |
| `TextPaging.Fetch` | crates/agena-application/src/application_content.rs:128-180 | a range comes from the last call made, at a cursor that follows from the retries, and retries suffice unless retention moves twice |
| `TextPaging.ReadText` | crates/agena-application/src/application_content.rs:123-258 | any page is exact for the stream the answering call met, within budget, and the read fails only for the stated reasons |
| `TextPaging.ReadIsTurn` | crates/agena-application/src/application_content.rs:123-258 | within one epoch a read continues from the cursor it was given, or from a later retained start with the gap declared |
| `TextPaging.Lossless` | crates/agena-application/src/application_content.rs:129-258 | without gaps, the pages of any number of reads with any budgets put together are the stream from the first cursor |
| `TextPaging.OnlyGapsLose` | crates/agena-application/src/application_content.rs:181-190 | every byte passed was shown or lost to a declared gap, which ends at the first scalar boundary from the retained start |
| `TextPaging.Progress` | crates/agena-application/src/application_content.rs:129 | while bytes remain every read advances the cursor, the budget being at least one scalar |
| `RecordPaging.ReadRecords` | crates/agena-application/src/application_content.rs:303-377 | consecutive records, at least one while any remain, more than one only within the budget, and fewer than the batch only where one more would not fit |
| `RecordPaging.FloorBoundary` | crates/agena-application/src/application_content.rs:451-456 | moves back to the nearest character boundary, at most three bytes |
| `RecordPaging.VisitRecord` | crates/agena-application/src/application_content.rs:433-486 | one record is refused inside a scalar, left for the next page, cut at a boundary, or passed |
| `RecordPaging.ShowRecords` | crates/agena-application/src/application_content.rs:418-491 | the slices shown and the position returned account for all text from the start position |
| `RecordPaging.ReadRecordText` | crates/agena-application/src/application_content.rs:382-503 | refuses exactly the offsets inside a scalar; otherwise the page is faithful: text, budget, boundaries and lexicographic progress |
| `RecordPaging.RecordsLossless` | crates/agena-application/src/application_content.rs:382-503 | pages read until none is left give exactly the text from the first position |
| `RecordPaging.RecordsFromStart` | crates/agena-application/src/application_content.rs:382-503 | reading from the start gives every record's text once, in order |
| `RecordPaging.ChainsAreBounded` | crates/agena-application/src/application_content.rs:457-485 | every page that announces more leaves strictly less to do, so the reading ends |
| `ContentDelivery.Delivery.constructor` | crates/agena-application/src/application_content.rs:104-113 | a delivery starts at the given cursor with a clamped budget |
| `ContentDelivery.Delivery.Next` | crates/agena-application/src/application_content.rs:65-100 | an error moves neither cursor nor end, Busy is retried in place, and a consumed wake-up is never waited for twice |
| `ContentDelivery.StepInv` | crates/agena-application/src/application_content.rs:65-100 | every step of delivery and source keeps the delivered text a prefix, and every waiting reader up to date or wakeable |
| `ContentDelivery.RunInv` | crates/agena-application/src/application_content.rs:65-100 | the same over every run |
| `ContentDelivery.DeliveredIsPrefix` | crates/agena-application/src/application_content.rs:65-100 | what was delivered is a prefix of what was accepted; waiting means an active source fully read or a wake-up pending; closed means a finished source fully delivered |
| `ContentDelivery.DeliverySettles` | crates/agena-application/src/application_content.rs:96-98 | after every run, a read leaves the delivery closed exactly if all is delivered and the capture is not open or the view is a snapshot, and waiting exactly if all is delivered and it is open |
| `ContentDelivery.ReadsClose` | crates/agena-application/src/application_content.rs:65-100 | from a complete source one read for each byte left and one more always close the delivery |
| `ContentDelivery.CompleteWakes` | crates/agena-application/src/application_content.rs:69-78 | whoever waits on a complete source can be woken and reads on |
| `ContentDelivery.RetriesCount` | crates/agena-application/src/application_content.rs:82-93 | the retries reported are the times the reader was busy, and failing calls move neither cursor nor text |
| `ContentDelivery.NextIsRun` | crates/agena-application/src/application_content.rs:65-100 | one call moves the delivery as its steps do, so the laws above are laws of the call |
| `RustLexer.ScanBlock` | scripts/rust-architecture-report.py:178-194 | the loop finds where the nesting of block comments returns to zero, if it does |
| `RustLexer.BlockExact` | scripts/rust-architecture-report.py:178-194 | a comment is terminated at a position exactly when the text up to there is a comment body of the nesting grammar and its closing mark |
| `RustLexer.QuotedEnd` | scripts/rust-architecture-report.py:127-139 | the escape flag tracks the parity of preceding backslashes |
| `RustLexer.QuotedFirst` | scripts/rust-architecture-report.py:127-139 | the literal ends at the first quote with an even number of backslashes before it, or at the end of the source |
| `RustLexer.RawFirst` | scripts/rust-architecture-report.py:121-123 | a raw literal ends at the first quote followed by as many hashes as opened it, or at the end of the source |
| `RustLexer.RawStringEnd` | scripts/rust-architecture-report.py:108-124 | the first prefix that opens a raw literal decides where it ends |
| `RustLexer.ScanIdent` | scripts/rust-architecture-report.py:219-229 | an identifier or raw identifier is taken as long as possible |
| `RustLexer.LexRust` | scripts/rust-architecture-report.py:161-232 | reads the source as the sequence of next pieces, and terminates on every source |
| `Lexemes.LexemeRead` | scripts/rust-architecture-report.py:161-232 | a lexeme of the language where it stands is the next piece, with its kind and end, exactly unless it is a character literal with a hexadecimal escape |
| `Lexemes.LexRoundTrip` | scripts/rust-architecture-report.py:161-232 | a source written as a list of lexemes (white space, comments, strings, raw strings, characters, names, raw names, marks) is read as exactly these if and only if none is such a literal |
| `Lexemes.TokensWritten` | scripts/rust-architecture-report.py:161-232 | the tokens, comments and warnings returned for it: each lexeme's kind, text and place, once and in order, and no warning |
| `Lexemes.HexIsMisread` | scripts/rust-architecture-report.py:142-158 | a character literal with a hexadecimal escape comes apart at its quote |
| `RustLexer.LexLossless` | scripts/rust-architecture-report.py:161-232 | the pieces put together are the source |
| `RustLexer.TokensOrdered` | scripts/rust-architecture-report.py:161-232 | tokens and comments are non-empty, in bounds, ascending and disjoint, and each token's text is its slice |
| `RustLexer.Outside` | scripts/rust-architecture-report.py:169-171 | everything outside tokens and comments is white space |
| `RustLexer.WarningsExact` | scripts/rust-architecture-report.py:191-192 | warned about are exactly the block comments that the nesting grammar cannot close |
| `Delimiters.DelimiterPairs` | scripts/rust-architecture-report.py:235-255 | the pairing is a fixed-point-free involution of matching kinds without crossings, every bracket is paired or reported, and there are no warnings exactly when the brackets are balanced |
| `Delimiters.CleanExact` | scripts/rust-architecture-report.py:235-255 | the stack machine accepts exactly the words of the bracket grammar |
| `Delimiters.FitExact` | scripts/rust-architecture-report.py:238-239 | two tokens fit exactly if they are an opening bracket of the language and its partner |
| `Skeleton.FindParameters` | scripts/rust-architecture-report.py:271-283 | the loop finds the parameter list within the window as the scan defines it |
| `Skeleton.ParametersFirst` | scripts/rust-architecture-report.py:271-283 | the list found is the first parenthesis outside every bracket pair behind the name, and no such semicolon precedes it |
| `Skeleton.ParametersExact` | scripts/rust-architecture-report.py:271-283 | the search returns a position if and only if it is that parenthesis, so it returns nothing exactly where the window holds none before a top-level semicolon |
| `Skeleton.FindBody` | scripts/rust-architecture-report.py:287-311 | finds the body's brace past generic arguments and bracket pairs, or that there is none |
| `Skeleton.BodyExact` | scripts/rust-architecture-report.py:289-311 | the search returns a brace if and only if it is the first token outside bracket pairs and angle brackets that decides, where a semicolon decides against a body |
| `Skeleton.FnBodyExact` | scripts/rust-architecture-report.py:265-311 | a function has a body at a brace exactly if `fn`, a name, the first top-level parenthesis and that brace stand so |
| `Skeleton.BodyHolds` | scripts/rust-architecture-report.py:302-307 | a body's span holds exactly the tokens from brace to brace, and a comma right before |
| `Skeleton.BodyAtTopLevel` | scripts/rust-architecture-report.py:289-311 | a body's brace is inside no parenthesis or square bracket of the signature |
| `Skeleton.BodiesLaminar` | scripts/rust-architecture-report.py:302-307 | any two body ranges are nested or disjoint |
| `Skeleton.Outermost` | scripts/rust-architecture-report.py:312-317 | of sorted nested spans, keeps disjoint ascending ones that contain all others |
| `Skeleton.FunctionItems` | scripts/rust-architecture-report.py:262-318 | finds exactly the bodies of the functions, counts the items, and keeps disjoint ascending bodies that contain every other |
| `Skeleton.Substitute` | scripts/rust-architecture-report.py:459-468 | the replacement loop weaves the replaced spans into the text and covers what all of them cover |
| `Skeleton.SkeletonKeepsTheRest` | scripts/rust-architecture-report.py:459-468 | every character outside the replaced spans survives once and in order |
| `Skeleton.CommentOrBody` | scripts/rust-architecture-report.py:453-458 | a comment is inside a body or apart from it |
| `Skeleton.LexedIsConsistent` | scripts/rust-architecture-report.py:451-458 | what lexer, pairing and body finder promise is what the replacement needs: in bounds, and each comment inside a body or apart from it |
| `Skeleton.SourceSkeleton` | scripts/rust-architecture-report.py:451-468 | exactly comments and kept bodies are replaced, and all other characters survive once and in order |
| `Skeleton.CommentsKeepApart` | scripts/rust-architecture-report.py:453-456 | what a comment kept apart stays apart: a blank stands for a block comment, and a line comment leaves its line's end |
| `Skeleton.SkeletonOf` | scripts/rust-architecture-report.py:451-468 | from source text to skeleton: comments of the lexer's reading and the outermost bodies of exactly the functions are replaced, and everything else survives once and in order |
| `UseTree.TopLevelSplits` | scripts/rust-architecture-report.py:554-569 | the non-empty pieces between commas outside every bracket |
| `UseTree.PathSegments` | scripts/rust-architecture-report.py:572-589 | the segments of a path up to an alias, raw markers removed |
| `UseTree.FindGroup` | scripts/rust-architecture-report.py:600-621 | the first top-level brace of a piece and where its inside ends |
| `UseTree.ExpandUseTree` | scripts/rust-architecture-report.py:592-631 | the recursive loop computes the expansion of the token range, and terminates |
| `UseTree.PrintedTree` | scripts/rust-architecture-report.py:592-631 | a printed tree stands where its words stand |
| `UseTree.SplitsAreTrees` | scripts/rust-architecture-report.py:554-569 | behind a tree, the pieces of a printed list are exactly its trees |
| `UseTree.HeadRead` | scripts/rust-architecture-report.py:572-589 | the segments read before a tail are exactly the printed path |
| `UseTree.GroupFound` | scripts/rust-architecture-report.py:604-617 | the group found is the printed one |
| `UseTree.RoundTrip` | scripts/rust-architecture-report.py:592-631 | tokens that print a nested use tree expand to exactly its leaf paths, in order, with full prefixes |
| `UseTree.RoundTripAll` | scripts/rust-architecture-report.py:592-631 | the same for comma-separated lists with or without a trailing comma |
| `UseTree.SelfIsPrefix` | scripts/rust-architecture-report.py:625-630 | a final `self` stands for its prefix, in a glob too, and names nothing on its own |
| `UseTree.ExpandDeclaration` | scripts/rust-architecture-report.py:592-631 | expanding the tokens of a declaration that a tree prints returns the leaves of the tree |
| `UseTree.SpelledDeclaration` | scripts/rust-architecture-report.py:592-631 | tokens that spell a printed tree, by kind and text, are such tokens |
| `Graph.TransitiveClosure` | scripts/rust-architecture-report.py:785-795 | returns precisely the nodes reachable from the start, without the start, on any finite graph |
| `Graph.DependencyLevels` | scripts/rust-architecture-report.py:798-811 | terminates; the cycle breaker acts if and only if the names are cyclic, and every dependency descends if and only if it does not; on every graph, cyclic or not, a name whose walks are bounded has the length of its longest walk as its level |
| `Graph.StuckIsCyclic` | scripts/rust-architecture-report.py:803-805 | where every remaining name waits for another there is a cycle |
| `Graph.StuckIsUngrounded` | scripts/rust-architecture-report.py:803-805 | where every name of a set waits for another of it, none of them has a longest walk |
| `Graph.DescendingIsAcyclic` | scripts/rust-architecture-report.py:806-811 | levels that descend along every dependency exist only without cycles |
| `Graph.GroupLevels` | scripts/rust-architecture-report.py:812-815 | each level in use once, ascending, with exactly its names in sorted order |
| `Graph.LevelsHaveNoHoles` | scripts/rust-architecture-report.py:812-815 | on a closed acyclic graph the i-th group is level i |
| `RustItems.Depths` | scripts/refactors/_rust_items.py:51-60 | the depth before every token, never below zero |
| `RustItems.DepthCounts` | scripts/refactors/_rust_items.py:51-60 | where all brackets pair up, the depth is the number of pairs around a position |
| `RustItems.DepthZeroIsTop` | scripts/refactors/_rust_items.py:51-60 | depth zero is exactly outside every pair |
| `RustItems.ItemEnd` | scripts/refactors/_rust_items.py:117-130 | an item ends at the first top-level semicolon, or at the partner of the first brace its kind allows; it fails only if there is none |
| `RustItems.HeadExact` | scripts/refactors/_rust_items.py:45-48 | an item is announced exactly by an item keyword, `macro_rules!`, an extern block or crate, or an invocation, and ends at a block exactly unless its keyword is `const`, `static`, `type` or `use` |
| `RustItems.NameExact` | scripts/refactors/_rust_items.py:63-69 | it is named by the first identifier behind its keyword, if no semicolon or brace comes first |
| `RustItems.InvocationExact` | scripts/refactors/_rust_items.py:133-145 | an invocation ends at its bracket's partner, or at the semicolon right behind |
| `RustItems.InvocationIsTop` | scripts/refactors/_rust_items.py:133-145 | a macro invocation found at the top level ends at the top level |
| `RustItems.ItemIsClosed` | scripts/refactors/_rust_items.py:117-145 | no bracket pair is cut by an item |
| `RustItems.ScanItems` | scripts/refactors/_rust_items.py:155-197 | finds exactly the announced items, ascending and apart, and misses none; it fails if and only if behind the items so far one is announced that never ends |
| `RustItems.NotStuck` | scripts/refactors/_rust_items.py:155-197 | a file that has an inventory never reaches such an item: the two outcomes exclude each other |
| `RustItems.ReadExactly` | scripts/refactors/_rust_items.py:117-192 | an item written up to any top-level semicolon or block is read to its last token exactly unless it is misread: it ends with a block that its keyword's kind does not end at, or what ends that kind stands at the top level before |
| `RustItems.ConstFnIsMisread` | scripts/refactors/_rust_items.py:170-177 | a `const fn` with a body is such an item |
| `RustItems.ConstArgumentIsMisread` | scripts/refactors/_rust_items.py:117-130 | the tokens of `impl F<{ N }> for B { }` are one item, the inventory ends it at the const argument, and so it is misread |
| `RustItems.InventoryExact` | scripts/refactors/_rust_items.py:148-197 | in a file written as a list of items, each up to a top-level semicolon or block, the items found are the items written if and only if none is misread |
| `RustItems.Label` | scripts/refactors/_rust_items.py:202-221 | the two counters yield each item's selector |
| `RustItems.SelectorExact` | scripts/refactors/_rust_items.py:202-221 | the n-th impl is `impl@n`, a base that is alone is its own selector, and of others the n-th is `base#n`, counted as sets of positions |
| `RustItems.SelectorsDiffer` | scripts/refactors/_rust_items.py:202-221 | selectors identify items, for names without a hash sign |
| `RustItems.TilesExactly` | scripts/refactors/_rust_items.py:199-235 | the spans tile the file behind the header if and only if the header ends no later than the first item's keyword |
| `RustItems.TileCovers` | scripts/refactors/_rust_items.py:215-235 | every position from the header to the last end is in one span and in no other |
| `RustItems.SpansAreChained` | scripts/refactors/_rust_items.py:215-235 | wherever the header ends, each span begins where the one before it ended |
| `RustItems.ChainAscends` | scripts/refactors/_rust_items.py:215-235 | such spans are ascending and pairwise apart |
| `RustItems.Inventory` | scripts/refactors/_rust_items.py:148-236 | refuses exactly files with an unterminated comment, unbalanced brackets, or an item announced outside the others that never ends; otherwise complete, labelled, chained spans that begin outside white space at their core, tile the file if and only if the header ends no later than the first item's keyword, and have pairwise different selectors where no name holds a hash sign |
| `RustItems.CoreHolds` | scripts/refactors/_rust_items.py:215-235 | an item's core holds exactly the tokens from its first to its last |
| `RustItems.MovableExact` | scripts/refactors/_rust_items.py:48 | everything can be moved but `use` and `extern` items |
| `SplitFile.RemoveSpans` | scripts/refactors/split-rust-file.py:70-74 | removing upright, separate spans in descending order deletes exactly their positions |
| `SplitFile.RebuildsSource` | scripts/refactors/split-rust-file.py:70-74 | reinserting the removed texts rebuilds the source |
| `SplitFile.DestinationContent` | scripts/refactors/split-rust-file.py:54-67 | refuses exactly the selections with a blank item, and otherwise returns the new file's content |
| `SplitFile.ContentIsSolid` | scripts/refactors/split-rust-file.py:54-67 | up to white space a new file is its header and its items' texts in source order |
| `SplitFile.PickItems` | scripts/refactors/split-rust-file.py:120-131 | accepts exactly known selectors that no destination asked for before |
| `SplitFile.AdjacentIsApart` | scripts/refactors/split-rust-file.py:143-147 | comparing neighbours is enough: upright spans that pass are pairwise apart |
| `SplitFile.AcceptedIsUpright` | scripts/refactors/split-rust-file.py:62-64 | the refusal of blank texts makes every span of an accepted manifest upright |
| `SplitFile.SplitCommand` | scripts/refactors/split-rust-file.py:89-149 | accepts a manifest if and only if every check passes, and then plans exactly the new contents and the source without the moved spans, wherever the spans lie |
| `SplitFile.PlanOverwritesNothing` | scripts/refactors/split-rust-file.py:104-120 | an accepted plan writes no existing file but the source, the source is no destination, and each destination is written once |
| `SplitFile.RemovalConserves` | scripts/refactors/split-rust-file.py:149 | what stays and what moves together hold exactly the source's non-blank characters |
| `SplitFile.SplitConserves` | scripts/refactors/split-rust-file.py:95-149 | for every accepted manifest, over all files, apart from white space and given headers, no character is lost or doubled |
| `SplitFile.OverlapNeverFires` | scripts/refactors/split-rust-file.py:143-147 | on items that are apart the overlap check never refuses |
| `SplitFile.ItemsAreNotBlank` | scripts/refactors/split-rust-file.py:63-65 | nor does the check for blank texts |
| `SplitFile.ChainedIsApart` | scripts/refactors/_rust_items.py:215-235 | an inventory's spans are pairwise apart wherever the inner header ends |
| `SplitFile.InventoryAccepts` | scripts/refactors/split-rust-file.py:89-149 | on an inventory's items a manifest that passes the other checks is accepted |
| `SplitFile.SplitSource` | scripts/refactors/split-rust-file.py:89-149 | from source text to plan: which sources are refused, which manifests are accepted on the others, and that what is then planned conserves the source |
| `AtomicWrite.FileSystem.Stage` | scripts/refactors/_common.py:98-114 | a fresh file with content and mode; after a failure it is gone unless removing it failed too |
| `AtomicWrite.FileSystem.StageAll` | scripts/refactors/_common.py:126-132 | succeeds exactly without failure and without a directory target, and changes no path |
| `AtomicWrite.FileSystem.ReplaceAll` | scripts/refactors/_common.py:134-136 | the paths replaced so far hold their new files, the others their old ones |
| `AtomicWrite.FileSystem.RemoveStaged` | scripts/refactors/_common.py:138-139 | without a further failure nothing staged remains |
| `AtomicWrite.FileSystem.RestoreAll` | scripts/refactors/_common.py:140-146 | restores last to first, and without failures stops only at an original it cannot decode |
| `AtomicWrite.FileSystem.AtomicWriteMany` | scripts/refactors/_common.py:117-147 | succeeds if and only if no step fails and no target is a directory; after any failure every path is old or new, and if the undo met no failure nothing staged is left |
| `AtomicWrite.CommittedExactly` | scripts/refactors/_common.py:134-136 | on success every path has its new content under its old mode or the private one, and nothing else changed |
| `AtomicWrite.UndoneExactly` | scripts/refactors/_common.py:137-147 | after an undo without failures the file system is what it was if and only if every replaced original was decodable |
| `AtomicWrite.UndecodableIsLost` | scripts/refactors/_common.py:145 | a replaced original that is not UTF-8 is not brought back |
| `AtomicWrite.OldOrNew` | scripts/refactors/_common.py:117-147 | whatever failed, each path is as before or as wanted |

## Left out

- Storage: the kernel, its change feed and its readers appear only through watches that queue, overflow, reset or close, and through answers given as parameters.
- Runtime: tasks, timers, back-off times, abort handles and poisoned locks; protocols are atomic steps instead.
- Transport: routing, JSON, WebSocket, IPC and SSE, and response headers beyond the tag comparison.
- Conditional reads over hashed values (`for_value`) and the token maps attached to live items, which only call `token`.
- The cache's recency order: its eviction may pick any key, and is shown never to run.
- LiveDelivery.NothingLost: a session's workspace is fixed, because no command of the repository moves a session; the second workspace filter after the summary is then the first one. Entries committed while their session was hidden from lists are not promised to a wide subscription (`LiveDelivery.CurrentExact`).
- ListInvalidation.PausedQueueIsMissed: other fields that a pause touches on the row (times, versions) move no key of the statistics either and are left as they are.
- ConditionalRead.NotModifiedExact: only the first If-None-Match line of a request, as the code reads it, and only one that is plain text.
- Signal payload projection, inline UI resolution and the fields of live metadata items, for which their version stands.
- RecordPaging.ReadRecordText: records of one epoch without a retention gap; the retries of the record branch across gaps and epochs are those of the text branch, and text streams go through `TextPaging.ReadText`.
- Saturating arithmetic on unsigned positions, which no stream reaches.
- ContentDelivery.DeliveredIsPrefix: one epoch without a gap, as the law is promised.
- RustLexer.LexRust: character classes and white space are parameters rather than Unicode tables.
- Lexemes.LexRoundTrip: of these tables only what they say of the grammar's own ASCII characters is used, numbers are written as the marks and names that the lexer makes of them, and neighbours that would run into each other need a blank between them.
- Revisions.SignalExact: an activity as the signal carries it; a state body lists it while it is active.
- Graph.DependencyLevels: the level of a name that reaches a cycle is what the cycle breaker makes of it; stated are only that it is there, that it is zero exactly without dependencies, and that not every dependency descends.
- The white-space clean-up at the end of `source_skeleton`, and all report rendering, module lookup and Cargo metadata.
- RustItems.Inventory: where the inner header ends is an input, and the display fields (header text, line) are not modelled. Punctuation is recognised by kind and text where the code looks at the text alone; the lexer gives no other token such a text.
- UseTree.ExpandDeclaration: `use` trees of the language grammar; parentheses and square brackets, which the scan also tracks, are covered by the functions but not by the printed trees.
- SplitFile.SplitCommand: manifest parsing and path resolution come before, error messages are one refusal, and the write itself is `AtomicWrite`.
- AtomicWrite.FileSystem.AtomicWriteMany: raised failures only; power loss, directories made while staging, an interruption between a replacement and its bookkeeping, and a temporary name that equals a target are outside. Contents are the encoded bytes of the text.
- Probe, packaging and CI scripts, and provider, auth, plugin and configuration code: only easy members.
