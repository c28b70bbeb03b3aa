# Verified model of wppconnect-server-go

A Dafny model of the stateful core of this WhatsApp gateway, with proofs of what that core promises.
Each part is modelled twice: as values and functions whose properties are proved over all inputs,
runs and interleavings, and, where the Go code changes state or loops, as classes and methods proved
against those functions.  What such a function computes is also said outright, in terms of its inputs alone
(`SettleMeans`, `AppendIff`, `ReadMarkMeans` and the like).  `dafny verify dfyconfig.toml` checks everything.

| part | files | main results |
|---|---|---|
| Durable event outbox (`internal/eventbus`) | `Outbox`, `OutboxLog`, `OutboxProtocol`, `OutboxSafety`, `OutboxWorker`, `OutboxStream` | exclusive leases, harmless late finishes, at-least-once delivery, no silent loss, bounded size, a drain that ends and can always finish, streams that skip nothing |
| Message archive (`internal/history`) | `History`, `HistoryRuns`, `HistoryStore`, `HistoryPaging`, `HistoryChanges`, `HistoryMarks`, `Polls` | exact quota pruning, true totals, no dangling receipts, exactly which votes can dangle, complete pagination, convergent edits, latest-vote tallies |
| Descriptor cache (`internal/media/store.go`) | `DescriptorCache` | the cache refines its call trace exactly |
| Presence commands (`internal/directory/presence.go`) | `PresenceSignal` | a delayed pause goes out only for the latest command |
| Chat index (`internal/directory/index.go`) | `ChatIndex`, `ChatEvents` | de-duplication, order-independent fields, tombstones, exact unread counts, the trim |
| MP4 and WebP (`internal/media/advanced.go`) | `Containers`, `VideoInspect`, `VideoFormat`, `StickerInspect`, `StickerFormat` | parsing is the exact inverse of writing; the inspectors accept exactly what writers of the formats produce, and report what was written |
| vCards (`internal/messages/messages.go`) | `VCard` | a reader undoes the printer; no line exceeds 75 octets |
| Object vault (`internal/vault`, `internal/history/attachments.go`) | `MediaTable`, `Vault`, `VaultStore` | exactly which objects can end up without a row; stale deletions are harmless; an archive is served until the end of its retention |
| Session lifecycle (`internal/session`) | `Sessions`, `SessionManager` | handles released exactly once, final shutdown, revoked credentials never reused |

## Reading the model

* A database transaction, or a statement outside one, is one atomic step, with its triggers and
  cascades written out.  A step function gives the new tables; a class carries the operation out
  statement by statement and is proved to have that effect.  Where an operation takes several
  transactions, what other callers commit between them is an input.
* A protocol is a `System`, a `Step`, a guard `Enabled` and an effect `Apply`; runs are lists of steps.
  An invariant holds at the start and is kept by every step, so it holds in every reachable state.
* Clocks are readings that never run back within a run; an operation that reads the clock several
  times takes several readings.  Instants are nanoseconds, rounded where the source rounds.
* Fresh UUIDs are names not used before, SHA-256 is injective, and encoders and libraries are
  parameters.  The outcome of the network, the bucket or the disk is an input of the step.
* Machine words are mathematical numbers; where the source's arithmetic could wrap, the wrap is
  written out and shown to matter or not to.

## Where the code and its intentions part

* `OutboxProtocol.BackoffMeans`: with a very large RetryBase the back-off product wraps in 64 bits; the
  lemma says exactly when the intended back-off is still computed and when the retry is due at once.
* `HistoryChanges.EditAndDeleteCommuteIff`: an edit and a deletion of one message do not commute; the
  lemma says exactly when they do, and `HistoryChanges.EditMayBeLost` gives a pair that does not.
* `ChatIndex.DeletionAndMessageAgreeIff`: a message and a deletion with the same time leave the chat
  listed or not depending on which arrived first, as `ChatIndex.SameTimeDisagrees` shows.
* `ChatIndex.FieldTimesRunBackIff`: deleting a chat can move its archive, pin and read times back;
  `ChatIndex.OldArchivingComesBack` shows an outdated archiving that takes effect afterwards.
* `Sessions.SavingSettingsKeepsRestorationIff`: saving settings of a paired session that has no record
  writes one that does not ask for restoration, so the session is not restored after a restart
  (`Sessions.SavedAndNotRestored`).
* `Vault.UncoveredIff`: an upload that lands after its one-hour reservation expired can leave an object
  that no row refers to; the lemma says exactly which objects those are, in any run, and
  `Vault.LateUploadIsUncovered` gives one.
* `HistoryRuns.VoteDanglesIff`: Vote looks its poll up in one transaction and stores the vote in another
  that does not look again.  A purge of the chat or a prune in between leaves a vote without its
  message, until the next prune or purge of the chat; `HistoryRuns.VoteOutlivesItsPoll` gives such a run.
* `Polls.LatestVoteWinsIff`: a full vote table turns new voters away, and only those.
* `ChatIndex.TakenChatForgets`: a chat trimmed from a full index loses its de-duplication window, so a
  message delivered again counts again; `ChatIndex.TrimTakesIff` says exactly when that can happen.

## Model

| member | source | states |
|---|---|---|
| `Outbox.ExpireExactly` | `internal/eventbus/store.go:89-93` | expiry takes away exactly the events older than the retention with no pending delivery, and exactly their delivery rows; the rows of an event that stays, finished ones included, stay as they are |
| `Outbox.ExpiredIff` | `internal/eventbus/store.go:89-93` | an event expires exactly when it is older than the cutoff and each of its deliveries has succeeded or failed for good |
| `Outbox.AppendAccepted` | `internal/eventbus/store.go:71-120` | an accepted Append adds exactly one event under a fresh sequence number with one pending row per target; the totals stay true and within both limits; whatever else leaves is old and has nothing pending |
| `Outbox.AppendIff` | `internal/eventbus/store.go:71-120` | an Append is accepted exactly when its name and session have 1 to 64 characters, its body encodes to at most 1 MiB, what expiry leaves has room for one more event and its bytes, its id is new and no target is named twice; otherwise it is refused as an invalid identity, unencodable, too large or full, in that order of checks |
| `Outbox.AppendKeepsRows` | `internal/eventbus/store.go:87-120` | an Append leaves the delivery rows of every event that stays exactly as they are, because event ids are distinct |
| `Outbox.GrantIffReady` | `internal/eventbus/store.go:152-169` | a claim is refused exactly when no pending, due, unleased row of the target exists |
| `Outbox.GrantPicksOldestDue` | `internal/eventbus/store.go:157-180` | of the rows of the target that are pending, due and free of a running lease, a claim takes the one with the least (next, sequence), stamps the lease on it and changes no other row |
| `Outbox.ClaimAnyServesFirst` | `internal/eventbus/store.go:150-180` | whatever other callers commit before the transaction of each target, the first target with a ready row when its turn comes is served; none only if none has one then |
| `Outbox.FinishWellFormed` | `internal/eventbus/store.go:181-184` | writing back an outcome keeps the tables well formed and the totals true |
| `Outbox.ReplayResets` | `internal/eventbus/store.go:185-211` | a successful Replay gives every named target a fresh pending row of a retained event of the session; the lease of each such row had run out at one of the clock readings; all other rows are unchanged |
| `Outbox.ReplayRefusedIff` | `internal/eventbus/store.go:185-211` | Replay is refused exactly when no retained event of the session has the id, or, in target order, a named row is under a running lease |
| `Outbox.MatchingMembers` | `internal/eventbus/store.go:126-134` | the rows a List selects are exactly the retained events of the session behind the cursor |
| `Outbox.MatchingOrder` | `internal/eventbus/store.go:126-134` | and they come in ascending sequence order |
| `OutboxLog.Log.constructor` | `internal/eventbus/store.go:42-69` | a new log is empty with true totals |
| `OutboxLog.Log.DeleteExpired` | `internal/eventbus/store.go:89-93` | the DELETE with its trigger and cascade, row by row, is the specified expiry |
| `OutboxLog.Log.InsertDeliveries` | `internal/eventbus/store.go:114-118` | one INSERT per target, stopping at the first duplicate, is the specified insertion |
| `OutboxLog.Log.Append` | `internal/eventbus/store.go:71-120` | the whole transaction: the new tables are those of the specified Append, and every refusal leaves the old ones, expiry included |
| `OutboxLog.Log.Claim` | `internal/eventbus/store.go:150-180` | the target loop, one transaction each and others committing in between, has the effect of the specified claim |
| `OutboxLog.Log.GrantOne` | `internal/eventbus/store.go:153-178` | the transaction for one target leases its row of least (next, sequence), or changes nothing |
| `OutboxLog.Log.Finish` | `internal/eventbus/store.go:181-184` | the conditional UPDATE has the specified effect: nothing at all unless the lease is still on the row |
| `OutboxLog.Log.Replay` | `internal/eventbus/store.go:185-211` | the upsert loop either has the whole specified effect or, on an error, none |
| `OutboxLog.Log.List` | `internal/eventbus/store.go:126-149` | a page is the longest prefix of the matching events within the row limit and 2 MiB, never empty while something matches |
| `OutboxLog.Log.CountPending` | `internal/eventbus/store.go:229-240` | counting row by row gives the number of pending rows of the named targets: zero exactly when nothing of theirs is left to deliver |
| `Outbox.PendingAfterAppend` | `internal/eventbus/store.go:87-120` | that number grows by one per distinct named target with an accepted Append, whose expiry never lowers it |
| `Outbox.PendingAfterFinish` | `internal/eventbus/store.go:181-184` | and an effective finish of a pending row lowers it by exactly one, unless the row is to be retried |
| `OutboxProtocol.SettleStepByStep` | `internal/eventbus/bus.go:150-166` | the code after Deliver computes the specified new state and due time in wrapping 64-bit arithmetic: delivered exactly if acknowledged; failed exactly if not and the attempt was the last or the rejection permanent; due now if acknowledged, and otherwise no earlier than the wait a rejection asked for (up to 30 s) and never later than 30 s |
| `OutboxProtocol.SettleMeans` | `internal/eventbus/bus.go:150-166` | the same of the specified outcome, with the exact due time: the back-off, or what the target asked for where that is longer, up to 30 s |
| `OutboxProtocol.ShiftMeans` | `internal/eventbus/bus.go:154-154` | the back-off doubles with each attempt, up to a factor of 128 |
| `OutboxProtocol.BackoffMeans` | `internal/eventbus/bus.go:154-161` | the back-off equals min(30 s, base times 2 to the attempt) exactly when that product fits 63 bits or wraps to at least 30 s; it makes the row due at once exactly when the product wraps to zero or below; it never exceeds 30 s |
| `OutboxProtocol.StepKeeps` | `internal/eventbus/bus.go:124-181` | appends, claims, deliveries, lost replies, finishes, replays, cancellations, crashes and clock ticks all keep the protocol invariant |
| `OutboxProtocol.RunKeeps` | `internal/eventbus/bus.go:124-181` | every reachable state satisfies the invariant, for any number of workers and any interleaving |
| `OutboxSafety.LeasesAreExclusive` | `internal/eventbus/store.go:157-176` | a running lease is still on its row, and no two workers hold running leases on one (event, target) |
| `OutboxSafety.DeliveriesNeverOverlap` | `internal/eventbus/bus.go:137-146` | two deliveries under way that began within 15 s minus 1 ms of their claim and are within their timeout are never of the same row |
| `OutboxSafety.LateFinishIsHarmless` | `internal/eventbus/store.go:181-184` | once a lease is off its row it never returns, and the late finish of its worker changes nothing, whatever happened in between |
| `OutboxSafety.AttemptsAreCounted` | `internal/eventbus/bus.go:147-166` | the attempt column counts the effective finishes since the row was enqueued; a pending row has fewer than Attempts; the claimed attempt number matches the row while the lease does |
| `OutboxSafety.DeliveredMeansAcknowledged` | `internal/eventbus/bus.go:146-176` | a row reads delivered exactly when its last finish said so, and then its target acknowledged the event under the lease that finish consumed |
| `OutboxSafety.TerminalRowsStay` | `internal/eventbus/bus.go:147-176` | a delivered or failed row stays exactly as it is, unless this step is a Replay that names it or an accepted Append that expires its event: old, with nothing pending |
| `OutboxSafety.FinishWrites` | `internal/eventbus/bus.go:150-176` | in every reachable state an effective finish counts one attempt, clears the lease and leaves the row delivered exactly if it was acknowledged, failed exactly if it was the last attempt or rejected for good, and due within 30 s otherwise |
| `OutboxSafety.TerminalIsFinal` | `internal/eventbus/bus.go:147-176` | over any run, a delivered or failed row stays as it is and no worker is granted it, until its event expires or a Replay names it |
| `OutboxSafety.RejectedForGood` | `internal/eventbus/bus.go:157-159` | so after a permanent rejection the row reads failed and is not delivered again without a replay, whatever runs follow |
| `OutboxSafety.PendingRowsComeBack` | `internal/eventbus/bus.go:167-170` | whatever became of its worker, a pending row can be claimed again after the longer of the lease and 30 s |
| `OutboxSafety.OutboxIsBounded` | `internal/eventbus/store.go:56-69` | in every reachable state the stats row equals the true count and bytes, both within the limits |
| `OutboxSafety.NoSilentLoss` | `internal/eventbus/store.go:88-93` | over any run an event and its rows disappear only together and only by expiry: old, and nothing pending |
| `OutboxSafety.BudgetBounds` | `internal/eventbus/bus.go:162-164` | the remaining delivery budget is zero exactly when nothing is pending, and at most Attempts per pending row |
| `OutboxSafety.DrainStep` | `internal/eventbus/bus.go:153-176` | every effective finish spends at least one unit of the budget, and every other step without append and replay leaves it exactly as it is |
| `OutboxSafety.DrainEnds` | `internal/eventbus/bus.go:182-197` | without appends and replays, at most Attempts times the pending count of finishes take effect, and as many as the budget leave nothing pending |
| `OutboxSafety.DrainCanGoOn` | `internal/eventbus/bus.go:182-197` | from every reachable state with something pending for a target, some draining run delivers one pending row and touches no other |
| `OutboxSafety.DrainCanFinish` | `internal/eventbus/bus.go:182-197` | from every reachable state, even right after a crash, some draining run ends with every pending row delivered, every other row untouched and nothing pending |
| `OutboxWorker.Worker.constructor` | `internal/eventbus/bus.go:124-132` | a worker starts with the targets rotated by its offset |
| `OutboxWorker.Worker.Take` | `internal/eventbus/bus.go:133-145` | a worker claims under its rotation with a lease of Timeout + 15 s, amid what others commit between the targets, or stays idle |
| `OutboxWorker.Worker.Complete` | `internal/eventbus/bus.go:146-180` | a cancelled worker writes nothing; otherwise the settled outcome is finished under the claimed lease: one more attempt, the lease gone, delivered exactly if acknowledged, failed exactly if rejected for good or on the last attempt, due within 30 s; and the rotation advances by one |
| `OutboxWorker.EveryTargetComesFirst` | `internal/eventbus/bus.go:177-179` | in as many completed turns as there are targets each is tried first exactly once, and the order returns |
| `OutboxStream.WritePage` | `internal/httpapi/events.go:131-143` | the write loop advances the cursor to the last event written and sends a prefix of the page |
| `OutboxStream.StreamSkipsNothing` | `internal/httpapi/events.go:125-143` | however the log changes between its reads, a stream sends strictly increasing sequence numbers and every retained event of its session up to its cursor |
| `OutboxStream.ReadsMakeProgress` | `internal/eventbus/store.go:126-149` | a read returns something whenever a matching event exists: a body of at most 1 MiB always fits the page |
| `History.WindowIsLongestSuffix` | `internal/history/store.go:289-296` | the window DELETE leaves a run of the newest rows within both bounds, and the longest such run |
| `History.PruneExactly` | `internal/history/store.go:280-299` | after a prune the totals are true and within both limits; survivors are the rows no older than the retention and, when a quota fires, exactly the longest newest-first run within max(1, 95% of MaxMessages) rows and 95% of MaxBytes |
| `History.PruneDropsOrphans` | `internal/history/store.go:297-298` | after a prune no vote, receipt or message label lacks its message; all others are still there with their values |
| `History.PutKeepsTheNewMessage` | `internal/history/store.go:116-163` | a new message in retention survives the prune of its own Put as the newest row, whatever else is evicted, with its own time (that of the clock if it has none or one more than a day ahead), read exactly if it is one's own, not edited or deleted, and counted with all its bytes |
| `History.PutOutcome` | `internal/history/store.go:116-143` | when a Put fails and why: an invalid identity, then a protocol message above 256 KiB, one that cannot be rendered, or a rendering above 256 KiB; with nothing to keep it succeeds without effect |
| `History.PutNeverOverwrites` | `internal/history/store.go:155-157` | a message already archived is never overwritten |
| `HistoryStore.Store.constructor` | `internal/history/store.go:64-108` | a new archive is empty |
| `HistoryStore.Store.DeleteOld` | `internal/history/store.go:280-284` | the retention DELETE with its trigger, row by row, keeps exactly the recent rows and the totals true |
| `HistoryStore.Store.DeleteOverflow` | `internal/history/store.go:285-296` | the running count and total from the newest row down compute the specified window |
| `HistoryStore.Store.PruneTables` | `internal/history/store.go:280-299` | the three statements in order are the specified prune |
| `HistoryStore.Store.Prune` | `internal/history/store.go:267-279` | Prune commits exactly the specified tables |
| `HistoryStore.Store.Put` | `internal/history/store.go:116-163` | Put commits exactly the specified tables; every rejection leaves the old ones |
| `HistoryStore.Store.Fill` | `internal/history/store.go:239-264` | the page loop and the final cut yield a specified page: longest run within the row cap and 4 MiB, cursor set exactly when something is left |
| `HistoryStore.Store.List` | `internal/history/store.go:215-266` | List answers exactly the queries with a limit of 1 to 200 (50 if 0), a cursor that is not negative and a valid chat, with a specified page of the matching rows |
| `HistoryStore.Store.ReviseEach` | `internal/history/store.go:316-344` | the conditional UPDATE with its byte trigger, row by row, has the specified effect |
| `HistoryStore.Store.ChangeAt` | `internal/history/store.go:316-344` | an edit is checked against the archive as it was, and written to what others have made of it meanwhile; a deletion is one statement; every refusal changes nothing |
| `HistoryStore.Store.Purge` | `internal/history/store.go:347-377` | the four DELETEs, row by row with the trigger on the totals, have exactly the effect HistoryRuns.PurgeExactly states, and an invalid chat changes nothing |
| `HistoryRuns.PurgeExactly` | `internal/history/store.go:347-377` | a purge takes exactly the messages, votes, receipts and message labels of the chat (of all chats without one), keeps whole-chat labels and every value that stays, and the totals stay true |
| `HistoryStore.Store.Vote` | `internal/history/metadata.go:143-187` | a vote is checked against the archive as it was, and stored in what others have made of it meanwhile, with the specified effect or error |
| `HistoryStore.Store.StoreVote` | `internal/history/metadata.go:171-172` | the upsert has the specified effect: admitted within the quota or for a voter on record, replacing only older votes, whether or not the message is still there |
| `Polls.LookUpMeans` | `internal/history/metadata.go:144-169` | what passes the checks is a vote on a poll with 2 to 12 options in the archive at that moment, in retention and not deleted: its options are the poll's, each at most once, and no more than the poll allows |
| `Polls.CheckMeans` | `internal/history/metadata.go:152-170` | when a vote fails the checks and why: first an invalid voter, too many options for the poll or its limit, or a time that is not positive or more than a day ahead; then an unknown or repeated option |
| `Polls.FindMeans` | `internal/history/store.go:186-188` | the row found is of that chat and id and in retention, and nothing is found only if there is none |
| `HistoryRuns.TotalsStayTrue` | `internal/history/store.go:84-88` | after every transaction of every run the stats row equals the real count and byte sum, and after a Put that stores or a Prune both are within the limits |
| `HistoryRuns.RunCommits` | `internal/history/metadata.go:143-173` | whatever any run of callers does to the tables is a list of transactions, so results on such lists hold of every run |
| `HistoryRuns.NoReceiptDangles` | `internal/history/store.go:387-387` | after every transaction of every run each receipt belongs to an archived message: its upsert checks for the message itself |
| `HistoryRuns.VoteDanglesIff` | `internal/history/metadata.go:143-173` | over any run of any number of callers, a vote ends up without its message exactly when it was stored, admitted by the quota, at a moment when the message was not there, and no prune and no purge of its chat came after |
| `HistoryRuns.BareMeansRace` | `internal/history/metadata.go:144-171` | a vote is stored without its message only if a prune or a purge of its chat came between its lookup and its store |
| `HistoryRuns.RaceLeavesVote` | `internal/history/metadata.go:144-171` | and with room in the vote table, a purge in between always leaves such a vote |
| `HistoryRuns.VoteOutlivesItsPoll` | `internal/history/metadata.go:144-171` | a concrete archive and run in which that happens |
| `HistoryRuns.PruningSweepsAll` | `internal/history/store.go:297-298` | right after a Put that stores or a Prune no vote and no receipt lacks its message, whatever happened before |
| `HistoryRuns.VotesStayOk` | `internal/history/metadata.go:143-173` | in every run the vote table stays within its quota and no stored selection names an option twice |
| `HistoryStore.Store.Receipt` | `internal/history/store.go:379-393` | the upserts, one message id at a time and others committing in between, have the specified effect; an oversized receipt has none |
| `HistoryMarks.ReceiveExactly` | `internal/history/store.go:383-391` | a receipt leaves exactly one row per archived message it names, with the greatest time so far, and changes nothing else |
| `HistoryMarks.ReceiptsCommute` | `internal/history/store.go:379-393` | the order of two receipts does not matter, and a repetition has no effect |
| `HistoryMarks.AssociateMeans` | `internal/history/metadata.go:50-59` | a label is refused exactly if invalid or, for a new link, with 100,000 links there; otherwise the link holds the given state and time (that of the clock if it has none), unless a later one stands |
| `HistoryMarks.NotesCommute` | `internal/history/store.go:387-387` | the same for single statements, so however two receipts interleave |
| `HistoryStore.Store.Associate` | `internal/history/metadata.go:50-59` | the conditional upsert has the specified effect or the specified error |
| `HistoryMarks.AssociateKeeps` | `internal/history/metadata.go:57-58` | links stay within their quota, none is lost, and the time of a link never runs back; the one with the latest time stands |
| `HistoryRuns.PruningKeeps` | `internal/history/store.go:156-162` | transactions that end with a prune leave the archive within both limits |
| `HistoryPaging.PageStep` | `internal/history/store.go:215-266` | the next page continues exactly behind the previous cursor |
| `HistoryPaging.WalkReturnsEverythingOnce` | `internal/history/store.go:215-266` | following NextCursor returns every matching message exactly once, newest first, in at most as many pages as rows; the cursor is zero exactly when nothing is left |
| `HistoryPaging.MatchingRows` | `internal/history/store.go:223-236` | the rows walked over are distinct, newest first, and exactly those the query selects |
| `HistoryChanges.ChangeKeepsTotals` | `internal/history/store.go:316-344` | a change never moves, adds or removes a row nor its chat, id or time, touches only the row of that message, and the totals stay true |
| `HistoryChanges.ReviseMeans` | `internal/history/store.go:320-342` | a change older than the last one, or than the message, does nothing; a deletion empties the row, marks it and leaves only its time; an edit puts in its own text and mark unless the row is deleted; the byte count follows, and nothing else of the row changes |
| `HistoryChanges.TombstoneMeans` | `internal/history/store.go:321-321` | what a deletion leaves is the JSON object of its time alone, in decimal digits |
| `HistoryChanges.LookUpMeans` | `internal/history/store.go:316-341` | when a change is refused and why: a time that is not positive or more than a day ahead, and for an edit, in this order, a message not in the archive, a replacement above 256 KiB, one that cannot be rendered |
| `HistoryChanges.ChangesAreMonotone` | `internal/history/store.go:320-342` | whatever arrives in whatever order, the update time never decreases and deletion is final |
| `HistoryChanges.TooOld` | `internal/history/store.go:342-342` | changes older than the message have no effect |
| `HistoryChanges.EditsEndAtTheLatest` | `internal/history/store.go:342-342` | edits with distinct times to an undeleted message end at the greatest one not before the message |
| `HistoryChanges.EditsCommute` | `internal/history/store.go:342-342` | hence the order of edits with distinct times does not matter |
| `HistoryChanges.EditAndDeleteCommuteIff` | `internal/history/store.go:320-342` | an edit and a deletion do not commute in general; exactly when they do |
| `HistoryChanges.EditMayBeLost` | `internal/history/store.go:320-342` | such a pair: whether the message ends marked as edited depends on the order |
| `Polls.CheckStepByStep` | `internal/history/metadata.go:152-170` | the loop over the option hashes accepts exactly lists of known, distinct hashes within the limits |
| `Polls.StoreKeepsVotesOk` | `internal/history/metadata.go:143-173` | storing a checked vote keeps stored selections duplicate-free and the vote table within its quota |
| `Polls.LatestVoteWinsIff` | `internal/history/metadata.go:171-172` | votes arriving in any order end at each voter's latest, exactly when the quota admitted it on arrival: the voter is on record or the table is not full; a voter not admitted stays out |
| `Polls.LatestVoteWins` | `internal/history/metadata.go:171-172` | so the latest vote of everybody on record is stored, and of every voter when the table has room for all of them |
| `Polls.Tally` | `internal/history/metadata.go:188-233` | the tally counts, for every option, exactly the voters who selected it, and the voters with a non-empty ballot |
| `Polls.TallyRow` | `internal/history/metadata.go:211-228` | one row of the tally loop adds exactly one voter's selections |
| `Polls.NoOptionBeatsTheVoters` | `internal/history/metadata.go:211-228` | no option is counted more often than there are voters |
| `Polls.CountsAddUp` | `internal/history/metadata.go:211-228` | the counts add up to all selections of listed options |
| `DescriptorCache.Store.constructor` | `internal/media/store.go:41-43` | a new cache is empty, map and list in agreement |
| `DescriptorCache.Store.Remember` | `internal/media/store.go:45-62` | unlinking, appending and evicting on map and list have the specified effect and keep the two in agreement |
| `DescriptorCache.Store.Get` | `internal/media/store.go:64-81` | a lookup has the specified answer and drops an expired element from map and list alike |
| `DescriptorCache.CacheFollowsTrace` | `internal/media/store.go:45-81` | after any calls on a clock that never runs back, the cache is what the trace says |
| `DescriptorCache.GetRefinesTrace` | `internal/media/store.go:45-81` | Get hits exactly when the last accepted Remember of the id is under 24 h old and at most 1023 distinct other ids followed, and returns that call's descriptor |
| `DescriptorCache.CacheIsBounded` | `internal/media/store.go:56-60` | never more than 1024 entries, one per id |
| `PresenceSignal.State.constructor` | `internal/directory/index.go:334-337` | a new board has no owners and is open |
| `PresenceSignal.State.Begin` | `internal/directory/presence.go:67-90` | the first critical section has the specified effect, evicting an arbitrary owner when full, or fails without any |
| `PresenceSignal.State.Resume` | `internal/directory/presence.go:102-114` | the second critical section pauses and gives the chat up exactly when the command still owns it |
| `PresenceSignal.State.ResetPresence` | `internal/directory/index.go:338-343` | a reset clears all owners |
| `PresenceSignal.State.Close` | `internal/directory/index.go:344-351` | a close clears all owners and refuses later commands |
| `PresenceSignal.OwnerMeansLatest` | `internal/directory/presence.go:82-90` | the owner of a chat is the latest command sent to it, with no reset, close, eviction or pause since |
| `PresenceSignal.PausesAreDue` | `internal/directory/presence.go:102-110` | in every interleaving a delayed pause belongs to the latest command sent to its chat, undisturbed since, and no command causes two |
| `PresenceSignal.WakingPausesIffLatest` | `internal/directory/presence.go:102-110` | a waking command pauses its chat exactly when it is still the latest |
| `PresenceSignal.OwnersAreBounded` | `internal/directory/presence.go:84-89` | the owner table never exceeds 10,000 |
| `Containers.BEUnique` | `internal/media/advanced.go:29-34` | a big-endian word is the only one of its width with its value, and fits the width |
| `Containers.LEUnique` | `internal/media/advanced.go:175-175` | the same for little-endian words |
| `Containers.WordBounds` | `internal/media/advanced.go:29-40` | no length read from a word of 2, 3, 4 or 8 bytes exceeds its fixed width |
| `Containers.LEValues` | `internal/media/advanced.go:167-175` | the least significant octet of a little-endian word of 2, 3 or 4 octets comes first |
| `Containers.BEValues` | `internal/media/advanced.go:29-37` | the most significant octet of a big-endian word of 2, 4 or 8 octets comes first |
| `Containers.ReadExtent` | `internal/media/advanced.go:26-40` | the size computation accepts exactly the extents of the format |
| `Containers.Boxes` | `internal/media/advanced.go:23-45` | the slicing loop computes the specified parse, in bounds, and terminates |
| `Containers.FormsOf` | `internal/media/advanced.go:29-37` | a box can be written with a 32-bit or a 64-bit size exactly when that size fits, and then in one way |
| `Containers.ReadWrittenBox` | `internal/media/advanced.go:26-42` | reading back one written box, in any of the three size forms, followed by anything, gives the box and the rest |
| `Containers.ParseInvertsWrite` | `internal/media/advanced.go:23-45` | parsing the bytes of any list of at most 4096 boxes gives the list back |
| `Containers.ParseTiles` | `internal/media/advanced.go:23-45` | every successful parse tiles its input: the boxes, written in suitable forms, are the input |
| `Containers.ParseIffWritten` | `internal/media/advanced.go:23-45` | parsing succeeds with a list exactly when the input is that list, at most 4096 boxes, written in some choice of forms |
| `Containers.FindChild` | `internal/media/advanced.go:47-65` | finds the contents of the only child of that name; nothing if it is missing, repeated, or the input malformed |
| `Containers.ChildIff` | `internal/media/advanced.go:47-65` | a child is found exactly when the boxes parse and just one of them has its name |
| `Containers.WebpChunks` | `internal/media/advanced.go:169-184` | the chunk loop computes the specified parse, in bounds, and terminates |
| `Containers.FramesOf` | `internal/media/advanced.go:175-179` | a chunk can be framed exactly when its size fits 32 bits, and the size word is then fixed |
| `Containers.ChunksInvertWrite` | `internal/media/advanced.go:169-184` | parsing the bytes of any list of at most 4096 chunks, odd ones padded with any byte, gives the list back |
| `Containers.ChunksTile` | `internal/media/advanced.go:169-184` | every successful chunk parse tiles its input |
| `Containers.ChunksIffWritten` | `internal/media/advanced.go:169-184` | chunk parsing, too, is the exact inverse of writing |
| `VideoInspect.ReadTiming` | `internal/media/advanced.go:140-155` | reads scale and duration of header versions 0 and 1, within 32 and 64 bits |
| `VideoInspect.NoWrap` | `internal/media/advanced.go:156-159` | neither scale times 3600 nor duration + scale - 1 wraps around 64 bits |
| `VideoInspect.Seconds` | `internal/media/advanced.go:156-159` | a duration is accepted exactly when positive and at most an hour, and the result is duration/scale rounded up, 1 to 3600 |
| `VideoInspect.FindSampleEntry` | `internal/media/advanced.go:103-119` | finds the single sample description of a track, through exactly one child of each name |
| `VideoInspect.InspectTrack` | `internal/media/advanced.go:88-160` | a track is audio or video exactly as the format says, with exactly the reported size and length |
| `VideoInspect.InspectTracks` | `internal/media/advanced.go:86-163` | the track loop succeeds exactly when there is at most one audio and one video track and nothing else |
| `VideoInspect.InspectVideo` | `internal/media/advanced.go:68-165` | accepts exactly the files of the format and reports exactly their one video track |
| `VideoInspect.AcceptedVideoIsBounded` | `internal/media/advanced.go:135-159` | an accepted video lasts 1 to 3600 s and measures 1 to 4096 each way |
| `VideoInspect.TracksUnique` | `internal/media/advanced.go:86-163` | what a file contains determines what is reported |
| `VideoFormat.TimingIffWritten` | `internal/media/advanced.go:140-155` | scale and duration are read exactly from the octets that write them in a media header of version 0 or 1 |
| `VideoFormat.SampleEntryIff` | `internal/media/advanced.go:103-119` | the sample description of a track is exactly the one box its tables, with a count of one, were written with |
| `VideoFormat.VideoIffWritten` | `internal/media/advanced.go:95-159` | a track is accepted as video of a size and length exactly when it was written so: an H.264 entry of that width and height with its configuration, and a media header whose duration, rounded up, is that many seconds, at most an hour |
| `VideoFormat.Names` | `internal/media/advanced.go:68-130` | the box names are the ASCII texts the format has |
| `StickerInspect.InspectFrameImage` | `internal/media/advanced.go:250-267` | the sub-chunk loop accepts exactly one image of the frame's own size beside alpha planes; StickerFormat.HoldsIffWritten says how that is written |
| `StickerInspect.InspectFrame` | `internal/media/advanced.go:240-267` | reads a frame's place and time exactly, without 32-bit wrap-around |
| `StickerInspect.SoundStep` | `internal/media/advanced.go:215-269` | the layout, stated over the image and animation chunks, can be checked one chunk at a time |
| `StickerInspect.Advance` | `internal/media/advanced.go:215-269` | each branch of the loop accepts exactly the chunks the layout allows next and keeps the counters true |
| `StickerInspect.Scan` | `internal/media/advanced.go:213-269` | the loop with its counters succeeds exactly on sound layouts |
| `StickerInspect.InspectSticker` | `internal/media/advanced.go:204-284` | accepts exactly the stickers of the format, which StickerFormat.AcceptedIffWritten gives octet by octet, and "too large" is reported exactly when only the file size is wrong |
| `StickerInspect.FramesAreGood` | `internal/media/advanced.go:238-268` | every frame of an accepted sticker lies on the canvas, lasts at least 10 ms and holds one image of its own size; a still one has none |
| `StickerInspect.StickerIsBounded` | `internal/media/advanced.go:270-283` | an accepted sticker is 512x512 with either one still image, or an animation header and 1 to 120 fitting frames of at most 10 s in all, within its file-size limit |
| `StickerFormat.DimensionsIffWritten` | `internal/media/advanced.go:186-200` | a picture header is read as a size exactly when it was written with it: VP8 with a key-frame tag, the start code and 14-bit sides below their scaling, VP8L with its signature and both sides less one in 14 bits each |
| `StickerFormat.HeaderIffWritten` | `internal/media/advanced.go:216-221` | an extended header is read as animated or not and as a canvas exactly when it was written so, with its reserved bits zero |
| `StickerFormat.HoldsIffWritten` | `internal/media/advanced.go:250-267` | a frame holds one image of a size exactly when one of its chunks was written as a picture of that size and all others are alpha planes |
| `StickerFormat.ReadFrame` | `internal/media/advanced.go:238-267` | a frame is read with the place, size and time it was written with |
| `StickerFormat.FrameOf` | `internal/media/advanced.go:238-267` | and whatever is read as a frame was written as one |
| `StickerFormat.StillIffWritten` | `internal/media/advanced.go:215-283` | the still stickers accepted are exactly those written as one 512x512 picture, with no animation chunk and with at most an extended header of that canvas in front, in at most 100 KiB |
| `StickerFormat.AnimationIffWritten` | `internal/media/advanced.go:215-283` | the animated ones are exactly those written as an extended header of a 512x512 canvas, one animation header and, behind it, 1 to 120 frames on that canvas of 10 ms or more each and 10 s in all, without a still picture, in at most 500 KiB |
| `StickerFormat.AcceptedIffWritten` | `internal/media/advanced.go:204-284` | a whole file is accepted exactly when it is RIFF, the length of what follows, WEBP and the chunks of such a still or animation; and too large exactly when nothing but its size speaks against it |
| `StickerFormat.Names` | `internal/media/advanced.go:186-240` | the chunk names are the ASCII texts the format has |
| `VCard.UnescapeEscape` | `internal/messages/messages.go:52-55` | unescaping an escaped value gives it back, every line break spelled as LF |
| `VCard.EscapeIsOneLine` | `internal/messages/messages.go:52-55` | no escaped value contains a line break |
| `VCard.MarksAreEscaped` | `internal/messages/messages.go:52-55` | in an escaped value every comma and every semicolon stands right behind a backslash |
| `VCard.RuneLenMeans` | `internal/messages/messages.go:61-63` | how many octets UTF-8 takes for each character |
| `VCard.NameHasFiveComponents` | `internal/messages/messages.go:102-102` | split at unescaped semicolons, the N value has exactly five components, the name second |
| `VCard.FoldLine` | `internal/messages/messages.go:58-71` | the folding loop computes the specified folding |
| `VCard.UnfoldFold` | `internal/messages/messages.go:58-71` | unfolding a folded line gives the line back, whatever line follows |
| `VCard.FoldIsShort` | `internal/messages/messages.go:58-71` | every physical line of a folded line is at most 75 octets and holds whole characters |
| `VCard.ReadFolded` | `internal/messages/messages.go:102-102` | writing any content lines and reading them back gives the same lines |
| `VCard.WrittenIsFolded` | `internal/messages/messages.go:102-102` | the assembled card is the folding of its six content lines |
| `VCard.CardText` | `internal/messages/messages.go:102-102` | the card as text: its fixed lines, and the name twice and the number twice in the others |
| `VCard.ReadWritten` | `internal/messages/messages.go:52-102` | a reader of the whole card recovers the name twice, up to line breaks, once as the second of five N components, and the number; no line exceeds 75 octets |
| `VCard.PhoneIff` | `internal/messages/messages.go:33-50` | a number is accepted exactly as 7 to 15 digits with at most one leading plus sign and at most one of two servers, and the digits are returned |
| `VCard.BuildCard` | `internal/messages/messages.go:91-103` | one card is built as specified or refused with the specified error |
| `VCard.BuildCards` | `internal/messages/messages.go:90-104` | all cards are built in order, or the first error is reported |
| `VCard.Contacts` | `internal/messages/messages.go:75-109` | a request is answered as specified, with the checks in the source's order |
| `VCard.EveryCardIsConveyed` | `internal/messages/messages.go:75-109` | no card is dropped, and every message built reads back as its own card |
| `VCard.OneIff` | `internal/messages/messages.go:91-100` | a card is refused for its number first, and then exactly if its name, or the number in its place, is blank, longer than 256 or holds a NUL |
| `VCard.AllIff` | `internal/messages/messages.go:90-104` | all cards are built exactly if all are good, and otherwise the first bad one decides the error |
| `VCard.RequestMeans` | `internal/messages/messages.go:75-109` | the whole request: refused for both forms, for the shared name, or for a number of cards outside 1 to 20, in this order; otherwise its cards are those given, or one for each id with that id as its number and the shared name as its name, and every message conveys its own |
| `MediaTable.ReserveAdds` | `internal/history/attachments.go:25-46` | a granted reservation adds one unready row, in a place and under a key nobody had, within 1000 rows and 512 MiB |
| `MediaTable.ReserveIff` | `internal/history/attachments.go:25-46` | when a reservation is refused and why: an invalid chat or id, a size outside 1 octet to 16 MiB or an expiry that has passed; then 1000 rows or 512 MiB reached; then a message or key that has a row |
| `MediaTable.ReserveTakes` | `internal/history/attachments.go:33-41` | a reservation takes one row and its own size of the quotas |
| `MediaTable.ForgetGivesBack` | `internal/history/attachments.go:82-85` | and deleting a row gives exactly that back |
| `MediaTable.AcknowledgeKeeps` | `internal/history/attachments.go:47-57` | acknowledging keeps keys and places unique and both quotas |
| `MediaTable.AcknowledgeMembers` | `internal/history/attachments.go:47-57` | acknowledging changes exactly the row of that chat, id and key |
| `MediaTable.ForgetMembers` | `internal/history/attachments.go:82-85` | forgetting removes exactly the row of that chat, id and key |
| `MediaTable.ForgetKeeps` | `internal/history/attachments.go:82-85` | forgetting keeps keys and places unique and both quotas |
| `MediaTable.OneRowPerKey` | `internal/history/attachments.go:22-22` | a row is known by its key and by its place |
| `MediaTable.Table.ReserveMedia` | `internal/history/attachments.go:25-46` | the transaction has the specified effect or, on each of its errors, none |
| `MediaTable.Table.FinishMedia` | `internal/history/attachments.go:47-57` | the UPDATE has the specified effect and reports whether the row was there |
| `MediaTable.Table.Media` | `internal/history/attachments.go:58-65` | finds a ready, unexpired row of the message exactly when there is one |
| `MediaTable.Table.ExpiredMedia` | `internal/history/attachments.go:66-81` | returns the hundred rows that expired first, in order, or all of them |
| `MediaTable.Table.ForgetMedia` | `internal/history/attachments.go:82-85` | the DELETE has the specified effect |
| `Vault.KeyIdentifiesItem` | `internal/vault/vault.go:64-68` | a stored key is owned by exactly the session, chat and message it was made for (the NUL between chat and id cannot be forged) |
| `Vault.LandCoversIff` | `internal/vault/vault.go:80-84` | an object that lands lacks a row exactly when its row is already gone, which it is not before its reservation expires |
| `Vault.UncoveredIff` | `internal/vault/vault.go:69-137` | in any run at all, an object of the session ends without a row exactly when it landed and was not removed since, while a deletion forgot its row; no object that landed before its reservation expired does |
| `Vault.StepKeeps` | `internal/vault/vault.go:69-137` | reserving, landing, losing, acknowledging, picking, removing, forgetting, crashing and other sessions' writes all keep the invariant |
| `Vault.RunKeeps` | `internal/vault/vault.go:69-137` | every state of every run satisfies the invariant, also when uploads land late |
| `Vault.InitOk` | `internal/vault/vault.go:69-137` | so does an empty vault beside other sessions' objects |
| `Vault.EveryObjectHasARow` | `internal/vault/vault.go:69-137` | in every run the rows stay within 1000 and 512 MiB, and every object of the session that landed before its reservation expired has a row with its key, whatever other uploads did |
| `Vault.LateUploadIsUncovered` | `internal/vault/vault.go:77-84` | a concrete run in which an object arrives after its reservation was cleaned up and nothing refers to it |
| `Vault.ArchivingIsFresh` | `internal/vault/vault.go:74-74` | a new archiving has a key no object, row, upload or deletion refers to |
| `Vault.StaleDeletionsAreHarmless` | `internal/vault/vault.go:109-117` | over whole runs, deletions and cleanups touch nothing but what they picked: an object and a row no call under way has listed stay until some call picks their key |
| `Vault.ArchivedStays` | `internal/vault/vault.go:69-137` | from a granted Archive on, in any interleaving with stale deletions and cleanups of earlier archives of the message: unless its own deletion is asked for or a cleanup finds its own row expired, the row stays, with the chat, id, type, size and digest archived, and once landed exactly the archived bytes stay in the bucket; the row expires an hour after its reservation, and once acknowledged at the end of the retention |
| `Vault.ForeignObjectsStay` | `internal/vault/vault.go:109-125` | no step of a session touches another session's objects |
| `Vault.CleanupCanFinish` | `internal/vault/vault.go:126-137` | a cleanup can always finish, in two steps a row, and leaves none of the rows it listed |
| `Vault.DownloadGivesTheArchived` | `internal/vault/vault.go:91-108` | whatever the bucket returns, a download yields only the archived bytes and only to their session; and it does yield them unless that object was deleted |
| `VaultStore.Store.constructor` | `internal/vault/vault.go:25-28` | a vault over an empty bucket |
| `VaultStore.Store.Archive` | `internal/vault/vault.go:69-90` | reserve, upload, acknowledge: the exact new rows and objects for every outcome; a success returns the archived chat, id, type, size, digest and expiry, and from then on a download of it gives exactly the archived bytes before the end of the retention and not found from then on; a failed upload keeps a reservation that serves nobody and expires in an hour |
| `VaultStore.Store.Fetch` | `internal/vault/vault.go:91-108` | every outcome is determined by the one ready, unexpired row of the message: not found without it, wrong owner, unavailable, corrupt, and the object's bytes exactly when they have the archived size and digest |
| `VaultStore.ServedUntilExpiry` | `internal/vault/vault.go:91-108` | an archive can be downloaded by its session as long as its row has not expired and the bucket answers, and by nobody from then on |
| `VaultStore.Store.Delete` | `internal/vault/vault.go:109-117` | the object first, then the row, and the row only if the bucket confirmed |
| `VaultStore.Store.DeleteAll` | `internal/vault/vault.go:131-135` | deletes in turn and stops at the first failure |
| `VaultStore.Store.Cleanup` | `internal/vault/vault.go:126-137` | deletes the rows and objects of the first hundred expired archives, up to the first failure; what has not expired keeps its row and its object; without a failure and below a hundred no expired row is left |
| `VaultStore.DeletingAll` | `internal/vault/vault.go:126-137` | deleting a list of archives takes away exactly its rows and its objects |
| `Sessions.HandlesStep` | `internal/session/manager.go:291-452` | every step keeps the map, the handles and the running operation in agreement |
| `Sessions.RunKeeps` | `internal/session/manager.go:291-657` | every state of every run satisfies the lifecycle invariant, across crashes between any two steps and restarts; a credential once revoked on record stays so marked |
| `Sessions.MapHoldsTheUnreleased` | `internal/session/manager.go:319-340` | whenever the operation lock is free the map holds exactly the handles not yet released, at most 100 |
| `Sessions.ReleasedOnce` | `internal/session/manager.go:536-561` | within a process no handle is released twice, and the released ones are exactly those some step released |
| `Sessions.OnlyTheReleasedLeave` | `internal/session/manager.go:578-586` | only a released handle leaves the map |
| `Sessions.LatePermanentIsHarmless` | `internal/session/manager.go:616-631` | a permanent stop ends the handle it was raised for or changes nothing; never a newer one |
| `Sessions.ShutdownIsFinal` | `internal/session/manager.go:634-657` | after shutdown has completed the map stays empty, nothing is opened and every handle is released |
| `Sessions.DrainCanFinish` | `internal/session/manager.go:638-650` | a shutdown that has begun can always finish, three steps a handle, and every handle is then released |
| `Sessions.OnlyStartRestores` | `internal/session/manager.go:320-326` | only a start turns automatic restoration on, in any process |
| `Sessions.RecordsWritten` | `internal/session/manager.go:320-326` | which record each step writes: a start one to restore, Close one not to, a recorded logout or permanent stop one not to restore with its revocation, saved settings nothing but the settings; no other step writes any |
| `Sessions.CredentialsNoted` | `internal/session/manager.go:222-278` | opening uses all credentials on disk, a recorded revocation taints them, and nothing else does either |
| `Sessions.NeverRestorableAndRevoked` | `internal/session/manager.go:320-326` | in no process, and in none after it, does a record ask for restoration while it is revoked |
| `Sessions.InitOk` | `internal/session/restore.go:113-168` | a first process over consistent files starts within the invariant |
| `Sessions.TaintedAreNeverUsed` | `internal/session/manager.go:232-244` | credentials on disk when a revocation was recorded are never used by a later start |
| `Sessions.SettingsSurvive` | `internal/session/manager.go:607-622` | a session's settings change by UpdateSettings alone |
| `Sessions.SavingSettingsKeepsRestorationIff` | `internal/session/settings.go:44-67` | saving settings leaves restoration alone exactly when the session has a record or is not paired |
| `Sessions.SavedAndNotRestored` | `internal/session/settings.go:44-67` | such a session: paired and not on record, it would be restored, and after its settings are saved it is not |
| `Sessions.EndedStaysDown` | `internal/session/manager.go:563-631` | a recorded Close, Logout or permanent stop makes the session not restorable, and it stays so through every later run, crashes and restarts included, that does not start it again |
| `SessionManager.Manager.constructor` | `internal/session/manager.go:156-172` | a new manager has no sessions |
| `SessionManager.Manager.OpenHandle` | `internal/session/manager.go:222-278` | opens with the recorded settings; a revoked session's devices are deleted first or it does not open |
| `SessionManager.Manager.Launch` | `internal/session/manager.go:315-335` | record, publish, connect: which error is reported, and that on each failure the handle is released once and the map is as before |
| `SessionManager.Manager.StartLocked` | `internal/session/manager.go:291-452` | the exact outcome: reuses a live session, refuses when stopping or at 100; a new name succeeds exactly if its store opens (a revoked one with all its devices deleted), its record is written and it connects, and otherwise fails with the first of these that did not; the record asks for restoration exactly if opening and recording succeeded; a success adds one session with the recorded settings, a failure leaves the map as it was and its handle released |
| `SessionManager.Manager.Close` | `internal/session/manager.go:563-588` | the exact new record, map and release for every outcome |
| `SessionManager.Manager.Logout` | `internal/session/manager.go:591-614` | a failed revocation keeps the session; a failed record does not |
| `SessionManager.Manager.Permanent` | `internal/session/manager.go:616-631` | ends the session only if it is still the current one of its name |
| `SessionManager.Manager.UpdateSettings` | `internal/session/settings.go:44-67` | an invalid name or invalid settings, a stopping manager and a failed write change nothing; otherwise the exact new record and live settings |
| `SessionManager.Manager.Shutdown` | `internal/session/manager.go:634-657` | every session is released once, records and credentials stay as they are |
| `SessionManager.Manager.Restore` | `internal/session/restore.go:113-168` | in any interleaving with other operations between its turns: a name no other operation concerned is tried exactly if it was readable, paired and restorable at the start; unless a hundred sessions may be live, it is then started exactly if it was live already or opens, is recorded and connects; unless the manager is stopped, what a turn started stays live until another operation concerns it; the count is the number of turns that ended with a live session; it ends early only when told to stop |
| `SessionManager.Manager.RestoreOne` | `internal/session/restore.go:135-162` | the lock-holding part for one name, whatever ran before: a start is tried exactly of a readable, paired name with no record or one that asks for restoration and is not revoked; with room it succeeds exactly if the store opens, the record is written and it connects; all else is left alone |
| `ChatIndex.WindowStaysBounded` | `internal/directory/index.go:137-145` | the de-duplication window never holds more than 64 ids |
| `ChatIndex.RedeliveryIsIgnored` | `internal/directory/index.go:136-145` | an accepted message delivered again has no effect, whatever happened in between, history syncs included, as long as that added fewer than 64 ids |
| `ChatIndex.LatestWriteWins` | `internal/directory/index.go:166-287` | mute, archive and pin each end at their latest write, whatever the order of the events, those of history syncs included (no deletion among them) |
| `ChatIndex.OrderDoesNotMatter` | `internal/directory/index.go:166-287` | two histories with the same writes to a field at distinct times leave it alike, whatever their order and whatever else they hold |
| `ChatIndex.FieldTimesRunBackIff` | `internal/directory/index.go:288-304` | a field time runs back exactly when an accepted deletion is older than it |
| `ChatIndex.OldArchivingComesBack` | `internal/directory/index.go:252-304` | such a deletion: after it an archiving takes effect that a later one had outdated |
| `ChatIndex.RevivedIff` | `internal/directory/index.go:149-154` | exactly which events bring a deleted chat back |
| `ChatIndex.HiddenIff` | `internal/directory/index.go:288-304` | exactly which events hide a listed chat |
| `ChatIndex.DeletionAndMessageAgreeIff` | `internal/directory/index.go:288-304` | a deletion and a message agree on whether the chat is listed, in either order, exactly when they do not carry the same time or the deletion does not apply |
| `ChatIndex.SameTimeDisagrees` | `internal/directory/index.go:288-304` | such a pair: a message and a deletion of one time leave a chat hidden or listed, as they arrive |
| `ChatIndex.UnreadCountsNewMessages` | `internal/directory/index.go:135-161` | between reads, every new message of others in a chat that is listed, or was deleted no later than it was read, is counted as unread exactly once, up to a million, amid own and repeated messages and all other events but deletions and history syncs; repeats count as such if they come within 64 ids |
| `ChatEvents.UnreadSinceRead` | `internal/directory/index.go:272-287` | after an accepted read the count is known and is the number of new messages of others since, up to a million |
| `ChatEvents.UnreadSinceDeletion` | `internal/directory/index.go:288-304` | the same after an accepted deletion, whether or not a message has brought the chat back |
| `ChatEvents.UnreadSinceSync` | `internal/directory/index.go:207-214` | after a history sync that counts, they come on top of the number it gave |
| `ChatEvents.PutMeans` | `internal/directory/index.go:59-86` | an event changes the entry of its own chat alone; a new entry starts with the address as its name, listed and empty |
| `ChatEvents.ReadMarkMeans` | `internal/directory/index.go:272-287` | a read no older than the last one leaves nothing unread, known, as of its time; an unread mark leaves at least one, and one not known if there was none; an older mark changes nothing |
| `ChatEvents.DeletionMeans` | `internal/directory/index.go:288-304` | a deletion later than the last one and not older than the activity hides the chat and clears its unread messages, archiving and pin as of its time; any other changes nothing |
| `ChatEvents.MuteMeans` | `internal/directory/index.go:166-176` | a mute overwrites the mute and its end, unless a later one stands |
| `ChatEvents.ArchiveMeans` | `internal/directory/index.go:252-261` | an archiving overwrites the archive mark, unless a later one stands |
| `ChatEvents.PinMeans` | `internal/directory/index.go:262-271` | a pin overwrites the pin, unless a later one stands |
| `ChatEvents.GroupsMean` | `internal/directory/index.go:305-318` | a group gets its name, cut to 256 characters; one joined without activity is as recent as its creation |
| `ChatEvents.MessageMeans` | `internal/directory/index.go:135-161` | a message already seen changes nothing; a new one is noted, and unless older than the chat's deletion it lists the chat, counts as its activity, and as unread if it is of others and later than the last read |
| `ChatEvents.SyncMeans` | `internal/directory/index.go:187-233` | a history sync no later than the deletion changes nothing; otherwise it lists the chat, counts as its activity, and sets the unread count exactly if it gives one and is no older than the activity and the last read |
| `ChatEvents.SyncFlagsMean` | `internal/directory/index.go:234-245` | it sets the archive mark and the pin if it gives them and none is later |
| `ChatEvents.SyncNameMeans` | `internal/directory/index.go:201-207` | its name, or else display name, replaces one that is only the address, and any if it is no older than the activity |
| `ChatEvents.SyncSeenMeans` | `internal/directory/index.go:215-231` | it notes its first 64 ids if no older than the activity, and the last 64 noted stay |
| `ChatEvents.NotedMeans` | `internal/directory/index.go:215-228` | ids are noted in order behind those seen, each once, but for empty ones and those longer than 256 |
| `ChatIndex.Hindmost` | `internal/directory/index.go:101-104` | finds the last chat in the order (newest first, then address) |
| `ChatIndex.Trim` | `internal/directory/index.go:101-104` | the trim leaves all of a small table, otherwise exactly the first ten thousand chats in order |
| `ChatIndex.ReceiveMessage` | `internal/directory/index.go:135-161` | the message closure has the specified effect, step by step |
| `ChatIndex.ReceiveSync` | `internal/directory/index.go:187-245` | the history-sync closure has the specified effect, step by step |
| `ChatIndex.NoteIds` | `internal/directory/index.go:215-228` | the id loop notes exactly the new, short ids in order |
| `ChatIndex.Index.Message` | `internal/directory/index.go:131-162` | one chat is patched, then the table trimmed; unusable messages change nothing |
| `ChatIndex.Index.HistorySync` | `internal/directory/index.go:177-251` | all conversations are patched in turn in one transaction, then the table trimmed |
| `ChatIndex.Index.Update` | `internal/directory/index.go:87-106` | one chat is patched, then the table trimmed |
| `ChatIndex.IndexFollowsEvents` | `internal/directory/index.go:87-106` | over runs of index transactions with their trims, a chat no trim takes is what its own events make of it, so the results on one chat hold of the index |
| `ChatIndex.TrimTakesIff` | `internal/directory/index.go:101-104` | a trim takes a chat exactly when at least ten thousand others come before it |
| `ChatIndex.AheadMeans` | `internal/directory/index.go:101-104` | those with later activity come before it, and of those with the same activity the ones with lesser addresses, by the first character that differs |
| `ChatIndex.TakenChatForgets` | `internal/directory/index.go:131-161` | a chat that was taken has lost its window: any message, old or new, starts it afresh |
| `ChatIndex.RedeliveryToTheIndex` | `internal/directory/index.go:131-162` | a message delivered again leaves the whole table as it is, if fewer than 64 ids of its chat and no trim of it came in between |

## Left out

- SQLite, file permissions and the text of SQL; errors of the database itself, which roll a transaction back without effect.
- HTTP handlers, the management console, configuration, webhooks, S3, NATS and RabbitMQ transports, and the WhatsApp SDK: inputs and outcomes only.
- JSON and protobuf encoding, poll encryption, UUID and SHA-256: opaque values with sizes, fresh names, injective digests; parsing of addresses is a flag.
- Lengths of identifiers are counted in characters of the model, not in UTF-8 octets, except in vCards, where octets are counted.
- Bus.Close: its 100 ms polling and its time limit; that draining ends, and how much it takes, is stated over runs instead.
- OutboxLog.Log.List: does not model errors while rows are read.
- PresenceSignal.State.Begin: does not model the wrap-around of the 64-bit generation counter, which takes 2^64 commands.
- HistoryStore.Store.List: the JSON length of a record is an arbitrary function of the record.
- HistoryStore.Store.Vote: decoding a stored poll message is an arbitrary function of its bytes; the query that tells an ignored vote from a full table is not a step of its own.
- The remaining metadata of the archive (definitions of labels, read marks, listings of labels and receipts): single upserts and queries.
- VaultStore.Store.Archive: the checks that a key is not empty and a digest has 64 characters hold by construction of keys and digests.
- Vault.EveryObjectHasARow: covers uploads that land before their reservation expires; `Vault.UncoveredIff` says what happens otherwise. An upload lands at most once.
- Sessions.RunKeeps: session names are arbitrary text (the check of their characters is left out), and what a connected session does with its events is not modelled.
- SessionManager.Manager.Restore: the end of its context is one cut-off point; unreadable records are a set of names; the error list is not modelled.
- SessionManager.Manager.UpdateSettings: the checks of the name and of the proxy address are one flag, and reading and writing the record fail as one.
- ChatIndex.Index.Update: stored entries are never unreadable; absent event bodies change nothing and are not modelled.
- StickerInspect.InspectSticker: compressed pixels are not decoded, in the source either.
- Locations, poll creation, group and newsletter operations, event normalisation and image resizing: single-branch validation or field copies.
