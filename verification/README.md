# Daily Firehose: a verified model of its stateful core

Daily Firehose refreshes feeds concurrently, delivers saved articles to Linkding, keeps
PostgreSQL backups on a receiver, and tracks what each reader has read. This project models
those parts as Dafny state machines and proves what they keep over every run. `dafny verify
dfyconfig.toml` checks all of it.

Code that changes things step by step has two forms here: methods (on a class holding the
source's fields where there is an object) that follow the source statement by statement, and
a specification function of the old state that each method is proved equal to. What the
source promises is then proved about the specification, for every input, interleaving, crash
point and run.

| file | what it models |
|---|---|
| `Common.dfy` | options, backoff arithmetic, string order, stable sorting, decimal numerals |
| `Reconciliation.dfy`, `Identity.dfy`, `ArticleStore.dfy` | planning a feed document against stored articles, and writing it row by row under two unique constraints |
| `RefreshFence.dfy`, `FeedStore.dfy` | concurrent refresh attempts fenced by a generation number |
| `Delivery.dfy`, `DeliveryOutcomes.dfy`, `DeliveryStore.dfy` | the Linkding delivery row, how answers decide it, its savers and drain workers |
| `Exclusion.dfy`, `CalmDrains.dfy` | when drain workers exclude each other, and exactly when they do not |
| `Intents.dfy` | one save intent and the remote bookmarks its attempts create |
| `Retention.dfy`, `RetentionTiers.dfy`, `RetentionSteps.dfy` | the receiver's retention policy, what it promises each backup, and its two loops |
| `Receiver.dfy`, `ReceiverSafety.dfy`, `ReceiverNumbers.dfy`, `ReceiverRuns.dfy`, `ReceiptContents.dfy`, `ReceiverStore.dfy` | the backup directory as a file map, with a crash possible between any two file operations |
| `ReceiverCodec.dfy` | a text form for receipts that meets everything asked of one, and runs that publish |
| `ReadState.dfy`, `ReadCommands.dfy`, `ReadScopes.dfy` | explicit read states, bulk markers, and the narrowed marker query |
| `JobLease.dfy`, `RefreshCycle.dfy`, `JobRecords.dfy`, `JobStore.dfy` | background-job ownership under a lease, and the refresh cycle that drives it |
| `Monitor.dfy` | the backup freshness monitor and its notification state |
| `Diversify.dfy`, `Selection.dfy` | deduplication and greedy diversified selection |
| `Opml.dfy`, `OpmlPaths.dfy`, `OpmlExport.dfy`, `OpmlImport.dfy`, `Slugs.dfy`, `Catalog.dfy`, `OpmlRoundTrip.dfy` | OPML parsing, export, import, and the round trip |

Five statements one might expect of this code are false of it. Each is shown false by a
concrete input, and proved exactly where it holds:

- Two drain workers can hold one delivery at once. Saving the article again during an attempt
  is enough (`SaveDuringAttemptBreaksExclusion`), and so is claiming while a save's own
  attempt, which is made unclaimed, is still waiting (`UnclaimedAttemptBreaksExclusion`). No
  run on time gets there while each claim finds the stored schedule past the holder's lease
  (`GuardedRunsHaveOneHolder`); short of that, `TakeoverIff` says exactly when a held delivery
  can be taken over.
- One save intent can create two bookmarks: when the process dies after posting and before the
  first outcome is stored; when that outcome is stored but a later lookup fails, since a failed
  lookup counts as nothing found (`FailedLookupDuplicates`); and when a failed delivery is
  requeued, since it then posts without looking (`RequeuedDeliveryDuplicates`).
  `AtMostOneBookmarkIff` is the exact condition, and `EveryDuplicateNeedsAMishap` bounds the
  duplicates of any run.
- A bulk mark does not always add exactly the articles fetched up to its cutoff. It can make a
  read article unread when the clock has gone back since the marker it replaces
  (`BackwardClockLosesAnArticle`). And the first mark of a feed or period can make an article read
  that was fetched after the cutoff, since a new marker row is stamped when it is inserted and not
  with the cutoff (`FirstMarkReadsALaterArticle`). `BulkMarkAddsItsWindowIff` is the exact condition.
- Administrators can keep a stale alarm when a notification went out but its state was not
  stored and the backup recovers before the next check (`UnrecordedAlarmIsNeverWithdrawn`,
  `InformedIff`).
- Applying a document again is not quite the identity: undated entries move to the new time
  (`ReplayOnlyRedates`).

Reading an exported document back gives every active feed, with nothing skipped, exactly when
every row survives being XML attributes and there are at most 1000 outlines (`ReadsBackIff`);
importing it then changes nothing (`ExportThenImportChangesNothing`).

## Model

| member | source | states |
|---|---|---|
| `Reconciliation.AnyWriteOrderIsSafe` | feeds/services.py:403-492 | after planning succeeds, the writes may be applied in any order: after every single write guids and urls are unique, every old primary key is there, and the row count has grown by the creations so far |
| `Reconciliation.WriteKeepsConstraints` | feeds/models.py:118-125 | one write keeps both unique constraints and leaves the remaining writes free of competition |
| `Reconciliation.CompatibleWritesKeepConstraints` | feeds/services.py:470-492 | every prefix of compatible writes keeps the constraints and the old keys |
| `Reconciliation.PlanIsCompatible` | feeds/services.py:408-467 | a plan exists exactly of writes whose identity is free except at their own target, no two competing |
| `Reconciliation.PlanningIgnoresEntryOrder` | feeds/services.py:408-467 | any permutation of the entries fails or succeeds alike, gives the same plan up to positions, and leaves the same table |
| `Reconciliation.PositionsDoNotMatter` | feeds/services.py:470-492 | the recorded entry positions never influence what the writes do |
| `Reconciliation.WriteLands` | feeds/services.py:470-492 | each write ends up as one row carrying its guid, url and content |
| `Reconciliation.EntryIsStored` | feeds/services.py:403-492 | after a document is applied every usable entry has its own row |
| `Reconciliation.ReplayOnlyRedates` | feeds/services.py:301-316 | applying the same document again succeeds, creates nothing, keeps every key, and changes nothing but the publication time of rows that hold undated entries |
| `Reconciliation.DatedReplayIsIdentity` | feeds/services.py:403-492 | a document whose usable entries all give dates replays to the very same table |
| `Identity.KnownEntryUpdatesItsArticle` | feeds/services.py:417-429 | an entry whose id or address (its first HTML alternate, else its link, else its id) is that of a stored article updates that article, however its id and address moved, to its own id, address, text and date, and keeps the fetch time; no other article has its id or address afterwards |
| `Identity.UnknownEntryIsAdded` | feeds/services.py:470-492 | an entry known by neither is added under a new key, fetched now |
| `Identity.OtherArticlesStay` | feeds/services.py:470-492 | an article no entry identifies stays exactly as it was |
| `Identity.NothingElseAppears` | feeds/services.py:470-492 | every new article is what some entry, unknown before, asked for |
| `Identity.RefusedIff` | feeds/services.py:423-438 | a document is refused exactly when the id and address of one entry belong to two articles, or two entries share an id, an address or an article |
| `Identity.IdentityIsGuidAndUrl` | feeds/services.py:622-637 | the address computed is the one so described, by the first alternate that counts |
| `Identity.PlanOrder` | feeds/services.py:459-467 | a plan updates by primary key before it creates by id |
| `ArticleStore.MatchEntry` | feeds/services.py:417-429 | the two index lookups disagree exactly for a split entry, and otherwise give the one stored article |
| `ArticleStore.PlanArticleReconciliation` | feeds/services.py:403-467 | the planning loop refuses a document exactly when some entry is split or two entries compete, a condition free of the loop's reserved sets and of any order |
| `ArticleStore.ReservationConflicts` | feeds/services.py:430-438 | meeting a reserved guid, url or article is a real conflict between two entries |
| `ArticleStore.NextEntryIsClean` | feeds/services.py:430-438 | meeting none means the entry competes with no earlier one |
| `ArticleStore.Articles.ApplyArticleReconciliation` | feeds/services.py:470-492 | the row-by-row loop never meets the database's integrity error, ends in the specified table, and counts creations and updates exactly |
| `ArticleStore.Articles.ReconcileDocument` | feeds/services.py:542-547 | plan and apply together: either nothing changes, or the table is the reconciled one and created is its growth |
| `RefreshFence.OnlyOwnersSettle` | feeds/services.py:355-385 | an event settles the status only as the attempt owning the current generation; any other changes nothing but, by claiming, generation and last attempt time |
| `RefreshFence.EveryInterleavingIsSerial` | feeds/services.py:507-619 | every interleaving of claims, failures, commits and crashes ends in the articles and status of a run in which only the owning attempts happen, whole, in strictly increasing generation order |
| `RefreshFence.OwnersSettleInGenerationOrder` | feeds/services.py:340-385 | owners settle with strictly increasing generations, each at most the final one |
| `RefreshFence.StatusCountsTrailingFailures` | feeds/services.py:335-385 | the failure count is the trailing run of owning failures; the retry time is null exactly when it is zero, else the last owning failure plus min(5 * 2^(n-1), 1440) minutes |
| `RefreshFence.RetryDelayInSeconds` | feeds/services.py:335-337 | the wait is 300 seconds after one failure, doubles with each, and is 86400 from the tenth on |
| `RefreshFence.FeedShowsTheLastOwners` | feeds/services.py:548-575 | after any interleaving the feed shows the last nonempty title, site url and description (subtitle before description) an owning document gave, keeps what it had where none did, is titled by its url when nothing titled it, and shows the error of the last owning outcome |
| `RefreshFence.EveryRunKeepsArticlesValid` | feeds/models.py:118-125 | both article constraints survive every interleaving |
| `RefreshFence.StepKeepsFence` | feeds/services.py:340-352 | live attempts never share a generation nor outrun the feed's, and a settled generation never settles twice |
| `RefreshFence.EndedAttemptsAreSilent` | feeds/services.py:529-619 | nothing an attempt that crashed, settled or was superseded was about to do ever reaches the feed |
| `RefreshFence.ConflictsAreReported` | feeds/services.py:318-332 | a document that conflicts is an owning failure shown as an integrity error, with every article as it was |
| `Common.BackoffIsCappedDoubling` | feeds/services.py:335-337 | clamping the exponent at 16 never shows: the delay is plain doubling up to the cap |
| `FeedStore.Feed.ClaimRefreshAttempt` | feeds/services.py:340-352 | claiming raises the generation, stamps the attempt and changes nothing else |
| `FeedStore.Feed.RecordRefreshFailure` | feeds/services.py:355-385 | a failure is recorded exactly when the attempt still owns the feed, and otherwise the row is untouched |
| `FeedStore.Feed.CommitRefresh` | feeds/services.py:529-575 | the commit is superseded exactly when the generation moved on; a conflict rolls everything back; success settles the whole row |
| `FeedStore.Feed.RefreshFeed` | feeds/services.py:507-619 | an uninterrupted refresh always owns its outcome and settles exactly it |
| `Delivery.EveryInterleavingKeepsChecks` | feeds/models.py:249-279 | every interleaving of saves, loads, claims, outcome writes, requeues and crashes keeps both CHECK constraints and the attempt budget; a transient failure has 1 <= attempts < maximum |
| `Delivery.OutcomeIsOk` | feeds/services.py:1479-1515 | an outcome satisfies both constraints on whatever row it lands, even from a stale worker |
| `DeliveryOutcomes.AnswersDecide` | feeds/services.py:1467-1526 | over any run of answers the first that decides ends the delivery: a bookmark with success, a mismatched url or an HTTP status other than 401, 403, 429 and 5xx for good; failures of any other kind keep it open while fewer than the budget; and the row records the last attempt, its error class telling the kinds apart |
| `DeliveryOutcomes.GivenUpEarlyIff` | feeds/services.py:1406-1434 | a delivery is given up before its budget is spent if and only if such an answer comes before any bookmark |
| `DeliveryOutcomes.WaitDoubles` | feeds/services.py:1437-1440 | an open delivery waits 5 minutes after its first failure, twice as long after each further one, at most 6 hours |
| `DeliveryOutcomes.RequeueStartsOver` | feeds/management/commands/deliver_saved_articles.py:36-46 | whatever answers follow, a requeued delivery goes the way of a new one |
| `Exclusion.GuardedRunsHaveOneHolder` | feeds/services.py:1542-1585 | in every run on time, with any number of savers and drain workers, no two drain workers hold the delivery as long as each claim finds a retryable row scheduled no earlier than its holder's lease ends |
| `CalmDrains.CalmRunsClaimExclusively` | feeds/services.py:1542-1585 | runs in which saves and attempts never overlap keep that guard by themselves, and in them a claim matches exactly when the row was not written since it was read |
| `CalmDrains.DrainsAloneAreCalm` | feeds/services.py:1566-1598 | runs on time of drain workers alone are of that kind |
| `Exclusion.NoHolderWhenClaimMatches` | feeds/services.py:1542-1556 | while the row is guarded, a compare-and-set that matches finds nobody holding it |
| `Exclusion.SaveDuringAttemptBreaksExclusion` | feeds/services.py:1298-1315 | a run on time in every step, with one save during a drain's attempt, in which two drains hold the delivery |
| `Exclusion.UnclaimedAttemptBreaksExclusion` | feeds/services.py:1313-1315 | another, in which the save starts while nothing is in flight and its own late outcome lets a second drain in |
| `Exclusion.TakeoverIff` | feeds/services.py:1542-1556 | drain workers alone can take a held delivery over in time if and only if its row is retryable and either some worker has already read its present schedule with a tick left, or it comes due two ticks before the lease ends |
| `Exclusion.GuardedIsNotExposed` | feeds/services.py:1542-1556 | a guarded row meets neither |
| `Intents.AtMostOneBookmarkIff` | feeds/services.py:1369-1526 | one save intent creates at most one bookmark, whatever Linkding replies, if and only if no attempt that can come about posts blindly: the first outcome is stored (or no second attempt made), no requeue comes after it, and every later lookup is answered |
| `Intents.NeverBlindCreatesAtMostOne` | feeds/services.py:1446-1464 | under that condition there is at most one bookmark after every attempt, not only at the end |
| `Intents.FailedLookupDuplicates` | feeds/services.py:1369-1403 | a created bookmark, a lost reply stored as such, and a lookup that times out end in two bookmarks |
| `Intents.RequeuedDeliveryDuplicates` | feeds/management/commands/deliver_saved_articles.py:36-46 | with every lookup answered and every outcome stored, a lost reply that spends the budget and a requeue end in two bookmarks |
| `Intents.EveryDuplicateNeedsAMishap` | feeds/services.py:1443-1464 | over every run of attempts and requeues, with no assumption, there is at most one bookmark more than there were requeues, failed lookups and outcomes not stored |
| `Intents.RecordedOutcomesExhaustTheBudget` | feeds/services.py:1479-1526 | a delivery leaves the retryable states once the outcomes stored since its last requeue use up the budget |
| `Delivery.DelayIsPositive` | feeds/services.py:1437-1440 | the delivery delay lies between 5 minutes and 6 hours for every attempt count |
| `Delivery.DoneUntilItLoadsAgain` | feeds/services.py:1583-1585 | a drain worker whose claim missed, or that crashed, is done with the row until it loads again, disturbs nobody, and may load again |
| `DeliveryStore.LinkdingDelivery.Enqueue` | feeds/services.py:1298-1311 | a save replaces the whole row by a fresh intent with a full budget |
| `DeliveryStore.LinkdingDelivery.ClaimDelivery` | feeds/services.py:1542-1556 | the claim moves the schedule one lease ahead exactly when state and schedule still match the copy |
| `DeliveryStore.LinkdingDelivery.RequeueFailed` | feeds/management/commands/deliver_saved_articles.py:36-46 | requeueing restarts exactly the permanently failed rows |
| `DeliveryStore.LinkdingDelivery.AttemptLinkdingDelivery` | feeds/services.py:1467-1526 | the attempt's in-memory row and its unconditional write to the stored row, for every reply |
| `DeliveryStore.DeliverPending` | feeds/services.py:1566-1598 | the drain loop changes each due row as claimed and attempted, leaves rows another worker moved, and tallies what it did |
| `DeliveryStore.TallyAddsUp` | feeds/services.py:1559-1598 | attempted is the sum of the outcomes, and all due rows are attempted exactly when every claim matches |
| `Retention.KeptIgnoresListOrder` | scripts/postgres_backup_receiver.py:286-319 | what is kept is a matter of sequence numbers and ages only, never of list order |
| `Retention.RetentionIsIdempotent` | scripts/postgres_backup_receiver.py:286-319 | at a fixed time what was kept is kept again, in full |
| `Retention.LaterPairsEvictNothing` | scripts/postgres_backup_receiver.py:293-319 | later backups evict no kept pair except that the former newest loses its privilege |
| `Retention.NonemptyBucketKeepsItsEarliest` | scripts/postgres_backup_receiver.py:297-319 | every nonempty bucket keeps its member with the lowest sequence number |
| `Retention.OneKeptPairPerBucket` | scripts/postgres_backup_receiver.py:315-319 | no bucket keeps two |
| `Retention.RetentionIsBounded` | scripts/postgres_backup_receiver.py:286-319 | for any number of pairs at most 24 daily, 10 weekly and 11 monthly points are kept beyond the newest and the recent ones |
| `Retention.GregorianMonthsLast28Days` | scripts/postgres_backup_receiver.py:309-310 | the Gregorian calendar, leap years included, meets all the bound asks of months |
| `RetentionTiers.ExpiredIff` | scripts/postgres_backup_receiver.py:286-319 | a backup is expired if and only if it is not the newest, is over 7 days old, and is either over 365 days old or not the first of its day (to 30 days), week (to 90) or month (to 365) within that tier |
| `RetentionTiers.SupersededByKept` | scripts/postgres_backup_receiver.py:315-319 | a backup expired within a year leaves one of its day, week or month, received before it, that is kept |
| `RetentionTiers.MonthStartIs` | scripts/postgres_backup_receiver.py:309-310 | months begin where the Gregorian calendar, counted by leap years, says |
| `RetentionTiers.MonthOfDate` | scripts/postgres_backup_receiver.py:309-310 | every date belongs to its own month |
| `RetentionTiers.WeeksBeginOnMondays` | scripts/postgres_backup_receiver.py:306-308 | weeks are ISO weeks, Monday to Sunday |
| `RetentionSteps.RetentionPartition` | scripts/postgres_backup_receiver.py:286-319 | the two loops split the input exactly, without repetition, into kept and expired |
| `RetentionSteps.KeepOnePerBucket` | scripts/postgres_backup_receiver.py:315-319 | the second loop over the bucket dictionary completes that partition in any order of buckets |
| `ReceiverRuns.ReceiptsAlwaysNameValidBackups` | scripts/postgres_backup_receiver.py:247-283 | in every directory reachable by puts and maintenance, each cut off anywhere, every receipt names a dump and metadata that are present, accepted, and byte for byte as when it was published; for every sound codec and fewer than 10^31 sessions |
| `ReceiptContents.ReceiptsDescribeTheirFiles` | scripts/postgres_backup_receiver.py:247-283 | in every reachable directory every receipt reads back and gives the exact size and checksum of the dump and of the metadata stored beside it, and what that metadata says of the dump |
| `ReceiptContents.DumpIsTakenIff` | scripts/postgres_backup_receiver.py:445-522 | when nothing fails a dump is taken if and only if its id has the backup shape, it is the first of it, and 1 byte to 1 GiB arrive with the announced size and checksum |
| `ReceiptContents.MetadataIsTakenIff` | scripts/postgres_backup_receiver.py:445-522 | when nothing fails metadata is taken if and only if the same holds up to 64 KiB and it describes the stored dump by size and checksum |
| `ReceiptContents.LostBackupsLeaveTheirPoint` | scripts/postgres_backup_receiver.py:545-599 | when maintenance takes a received backup away, it was over a week old and a later one is there; unless it was over a year old, an earlier one of its day, week or month keeps all three files |
| `ReceiptContents.LeftoversGoAfterTwoDays` | scripts/postgres_backup_receiver.py:545-599 | what never got a receipt is removed exactly when every file of it, dump included, is 48 hours old, and a temporary when it is |
| `ReceiptContents.UploadsAreBounded` | scripts/postgres_backup_receiver.py:477-485 | an upload is written in mebibyte blocks and never beyond the announced size |
| `ReceiptContents.BackupIdIsItsParts` | scripts/postgres_backup_common.py:18 | a backup id is eight digits, T, six digits, Z, a dash and eight lower-case hex digits |
| `ReceiverRuns.SequencesStrictlyIncrease` | scripts/postgres_backup_receiver.py:372-411 | over every run published sequence numbers strictly increase whatever a crash does to the counter file, never exceed the number of sessions, and the last published receipt is still there |
| `ReceiverRuns.NextSequenceIsAboveAll` | scripts/postgres_backup_receiver.py:372-411 | a number taken exceeds every number published, even from an emptied or torn counter |
| `ReceiverNumbers.NextNumberIsWithin` | scripts/postgres_backup_receiver.py:379-402 | a number taken exceeds the numbers used up before the session by at most one |
| `ReceiverNumbers.TornCounterReadsNoMore` | scripts/postgres_backup_receiver.py:379-388 | a torn counter never reads as more than the number it was part of |
| `ReceiverCodec.ASoundCodecExists` | scripts/postgres_backup_receiver.py:423-441 | some text form of receipts meets everything asked of one: it reads back, and fits the reader's limit, for every receipt that can be written |
| `ReceiverCodec.ReceiptsDoGetPublished` | scripts/postgres_backup_receiver.py:445-508 | with any such codec, uploading a dump and metadata that describes it ends in a published receipt |
| `ReceiverRuns.CounterReadsBack` | scripts/postgres_backup_receiver.py:379-405 | a stored counter reads back as its number |
| `ReceiverRuns.TornCounterStillReads` | scripts/postgres_backup_receiver.py:379-405 | every torn prefix of a counter still reads as a number, so a crash never stops the receiver |
| `ReceiverRuns.PutIsSafe` | scripts/postgres_backup_receiver.py:445-522 | a put keeps the invariant between any two of its file operations, moves the numbers on by at most one, and ends in exactly the described store when it reports success; a failed one publishes nothing and leaves every other received file as it was |
| `ReceiverRuns.LastReceiptIsNotExpired` | scripts/postgres_backup_receiver.py:293-294 | the partition never expires the receipt published last |
| `ReceiverRuns.MaintainIsSafe` | scripts/postgres_backup_receiver.py:545-599 | maintenance keeps the invariant between any two of its file operations |
| `ReceiverRuns.MaintenanceRemovesExactly` | scripts/postgres_backup_receiver.py:545-599 | a complete run removes exactly the expired triples, the stale temporaries and the stale unreceived uploads |
| `ReceiverRuns.EveryRunIsSafe` | scripts/postgres_backup_receiver.py:445-599 | the invariant holds in every reachable directory |
| `ReceiverSafety.PublishKeepsInv` | scripts/postgres_backup_receiver.py:414-442 | linking a receipt keeps the invariant and publishes its number |
| `ReceiverSafety.WithdrawRestores` | scripts/postgres_backup_receiver.py:331-369 | withdrawing a receipt whose directory sync failed restores the directory and the history |
| `ReceiverSafety.UnlinkOlderReceiptKeepsInv` | scripts/postgres_backup_receiver.py:563-567 | removing any receipt but the last one published keeps the invariant |
| `ReceiverSafety.InvFrame` | scripts/postgres_backup_receiver.py:247-283 | whatever leaves received backups and the history alone keeps the invariant |
| `ReceiverStore.Directory.StoreBytesNoReplace` | scripts/postgres_backup_receiver.py:331-369 | the linked and committed flags yield exactly the planned file operations, whether writing stops after some bytes, the link fails, or the sync after it |
| `ReceiverStore.Directory.TakeReceiptSequence` | scripts/postgres_backup_receiver.py:372-411 | counter file and scan, performed as planned, for any listing order, whether truncating fails or writing stops after some characters |
| `ReceiverStore.Directory.PublishReceiptFor` | scripts/postgres_backup_receiver.py:414-442 | numbering and storing a receipt, performed as planned |
| `ReceiverStore.Directory.PutBackup` | scripts/postgres_backup_receiver.py:445-522 | the put, with its early exits and its rollback, performs exactly the planned file operations |
| `ReceiverStore.Directory.MaintenanceRetention` | scripts/postgres_backup_receiver.py:545-599 | maintenance lists, validates, partitions and unlinks exactly as planned |
| `ReadState.NarrowingAgrees` | feeds/queries.py:72-112 | for every article set and marker history the narrowed markers decide each article as all markers do, given only that local dates are monotone |
| `ReadState.IrrelevantMarkersCoverNothing` | feeds/queries.py:72-94 | a marker the filter leaves out covers none of the articles |
| `ReadState.CoveringMarkers` | feeds/queries.py:72-94 | the narrowing returns exactly the relevant markers, and none for an empty set |
| `ReadState.BulkReadArticles` | feeds/queries.py:97-112 | the accumulated disjunction selects exactly the articles the plain definition covers |
| `ReadCommands.BulkMarkAddsItsWindowIff` | feeds/commands.py:103-163 | a bulk mark turns the read set R into exactly R plus its window if and only if no article fetched after the cutoff was held by the marker being replaced alone, and no article is caught by a new marker alone, unread and fetched between the cutoff and the insertion of its row |
| `ReadCommands.ReadAfterBulkMark` | feeds/commands.py:103-163 | the status of every single article after a bulk mark, whether it replaces a marker or inserts one |
| `ReadCommands.ForwardClockHoldsNothing` | feeds/commands.py:119-134 | a clock that has not gone back is enough for a mark that replaces one; a first mark also needs that nothing stored was fetched between its cutoff and its insertion |
| `ReadCommands.BackwardClockLosesAnArticle` | feeds/commands.py:140-163 | a feed marked again by a clock that went back loses an article from the read set |
| `ReadCommands.FirstMarkReadsALaterArticle` | feeds/models.py:320 | on a forward clock, a feed marked for the first time reads an article fetched after the cutoff, stored just before or just after the marker row |
| `ReadCommands.MarkersRepresentAPlainSetIff` | feeds/queries.py:115-135 | over any history states and markers stand at every moment for nothing but a plain set of read articles, if and only if no article turns up under an earlier marker as stored and every mark is exact |
| `ReadCommands.OrderedHistoriesAreSeen` | feeds/commands.py:103-163 | a clock that never goes back, articles fetched later than the times the markers before them hold, and first marks whose cutoff is past everything stored, meet that condition |
| `ReadScopes.MarkReachesWhatItNames` | feeds/queries.py:59-69 | after an accepted mark every stored article of the feed, or of a date from the first to the last day inclusive, fetched by the cutoff is read, and the status of all others is what it was |
| `ReadScopes.PeriodIsItsDays` | feeds/commands.py:103-137 | marking a day, week or month reads exactly what marking each of its days would |
| `ReadScopes.KeysTellMarkersApart` | feeds/models.py:344-360 | two markers are stored in one row only if they are the same |
| `ReadScopes.CoveredIff` | feeds/queries.py:97-112 | an article is covered exactly when a marker set no earlier than its fetch names its feed or its date |
| `ReadScopes.LeftOutIff` | feeds/queries.py:72-94 | the narrowed query leaves out exactly the markers older than every article, of feeds none is from, or of days all before or all after |
| `ReadCommands.Clean` | feeds/models.py:363-387 | the step-by-step validation reports no error exactly for the shapes the constraint allows |
| `ReadCommands.Reader.MarkArticlesRead` | feeds/queries.py:160-178 | the upsert loop marks exactly the given articles and leaves other states alone |
| `ReadCommands.Reader.UpsertMarker` | feeds/commands.py:124-131 | a marker row that exists takes the cutoff, a new one the time of its insertion |
| `ReadCommands.Reader.MarkBulkRead` | feeds/commands.py:103-163 | the command refuses malformed markers unchanged and otherwise performs the bulk mark, with the marker time the upsert really stores |
| `JobLease.OneOwnerAndNoReturn` | feeds/jobs.py:73-157 | in every interleaving of scans, inserts, rollbacks, heartbeats and finishes at most one run per name is running, no row disappears, and a run that left running never returns |
| `JobLease.SpacedHeartbeatsKeepTheRun` | feeds/jobs.py:83-116 | a run whose heartbeats are closer together than the lease is never reclaimed, in any interleaving: at every moment nobody has locked its row, and it is what its own worker made of it |
| `JobLease.EveryReclaimIsJustified` | feeds/jobs.py:83-99 | every row reclaimed as expired shows a heartbeat at least a lease older than its end |
| `JobLease.InsertKeepsInv` | feeds/models.py:48-54 | an insert keeps the partial unique constraint or is refused and rolls its reclaims back |
| `JobLease.StepNeverResumes` | feeds/jobs.py:112-157 | no step, not even a late finish by a reclaimed worker, makes a run running again or changes its identity |
| `JobStore.JobTable.ReclaimExpired` | feeds/jobs.py:83-99 | the loop over locked rows gives up all of them, or none when one owner is live |
| `JobStore.JobTable.AcquireJob` | feeds/jobs.py:73-109 | acquiring is the scan and insert back to back: refused exactly when a live owner exists, and then nothing changed |
| `JobStore.JobTable.FinishJob` | feeds/jobs.py:119-157 | finishing writes the outcome whatever the row's state |
| `JobStore.JobTable.Watch` | feeds/management/commands/run_refresh_worker.py:126-138 | the counting loop stops at the first stop request, counts exactly what it evaluated, and changes nothing but its own row's heartbeat; its effect is that of the heartbeats due, as events of the lease |
| `RefreshCycle.HeartbeatsAreCloseTogether` | feeds/management/commands/run_refresh_worker.py:125-135 | the heartbeats the worker sends are closer together than the lease whenever its interval and its slowest feed fit into it |
| `RefreshCycle.CycleIsNeverReclaimed` | feeds/management/commands/run_refresh_worker.py:107-172 | such a cycle is never reclaimed, however its heartbeats and its finish interleave with any number of other workers |
| `JobStore.JobTable.Cycle` | feeds/management/commands/run_refresh_worker.py:107-172 | a cycle leaves the table with expired runs reclaimed and its own row finished with those counts: interrupted exactly when a stop was seen, else failed exactly when the iteration raised |
| `RefreshCycle.CountsAddUp` | feeds/management/commands/run_refresh_worker.py:129-132 | checked is the sum of the four outcomes and attempted is checked minus skipped |
| `JobRecords.EveryRowIsAccounted` | feeds/jobs.py:73-157 | in every interleaving from an empty table each row names the scan that began it; running, it shows its last heartbeat and no outcome; afterwards either that its lease expired or just what its worker reported |
| `JobRecords.InsertIsAllOrNothing` | feeds/jobs.py:81-109 | an acquiring transaction is refused with all its reclaims exactly when a rival is running, and otherwise interrupts the rows it held and starts one new run |
| `JobRecords.DeadWorkersLetGo` | feeds/jobs.py:81-109 | a worker that dies in its transaction changes no row and holds no lock |
| `JobRecords.CycleLeaves` | feeds/management/commands/run_refresh_worker.py:107-172 | a cycle leaves its row interrupted if a stop was seen, else failed if the iteration raised, else succeeded, with the feeds it looked at counted by how they ended |
| `JobRecords.CountersTellOutcomesApart` | feeds/management/commands/run_refresh_worker.py:129-132 | each counter is the number of feeds that ended that way |
| `JobRecords.WatchedUntilStop` | feeds/management/commands/run_refresh_worker.py:136-138 | a cycle looks at the feeds up to the first after which a stop is seen |
| `JobStore.ConsecutiveFailures` | feeds/jobs.py:160-177 | the count is the newest unbroken run of failures, at most fifty |
| `Monitor.AdministratorsStayInformed` | scripts/postgres_backup_monitor.py:297-334 | over every run without an unrecorded send the stored severity is the last one delivered, repeats are unresolved and a day apart, every message tells the truth, and after each completed check administrators know its severity |
| `Monitor.FailedChecksLoseNothing` | scripts/postgres_backup_monitor.py:307-330 | a run is the run of its effective checks: a check whose notifier failed leaves no mark, so no change is lost |
| `Monitor.UnrecordedAlarmIsNeverWithdrawn` | scripts/postgres_backup_monitor.py:318-330 | a run in which a sent but unrecorded alarm is never withdrawn |
| `Monitor.InformedIff` | scripts/postgres_backup_monitor.py:221-231 | after any run that ends in a completed check, administrators know its severity if and only if the last notification sent was recorded, or said what the stored state believed anyway |
| `Monitor.SilenceOnlyEscalates` | scripts/postgres_backup_monitor.py:57-67 | with no further receipt the severity can only rise as time passes |
| `Monitor.OkIffFreshReceipt` | scripts/postgres_backup_monitor.py:57-87 | all is well exactly when some valid receipt not from the future is under 14 hours old |
| `Monitor.SeverityIff` | scripts/postgres_backup_monitor.py:57-87 | all is well with a receipt under 14 hours old, missed when the best is under 20, critical under 24, and otherwise containment |
| `Monitor.ProblemsAreRepeatedDaily` | scripts/postgres_backup_monitor.py:221-231 | after any run, a completed check that finds a problem leaves administrators told of that severity within the last 24 hours |
| `Monitor.InspectReceipts` | scripts/postgres_backup_monitor.py:70-87 | the loop classifies the newest valid receipt, and counts the valid ones that are not from the future |
| `Monitor.FreshnessMonitor.Check` | scripts/postgres_backup_monitor.py:297-334 | the check in place is the step of the machine, for every way it can end |
| `Diversify.RankedIsStrict` | feeds/recommendations.py:179-182 | the ranking is the candidates themselves, strictly best first |
| `Diversify.RankOrder` | feeds/recommendations.py:163-182 | better scores first; equal ones by title, url and id |
| `Common.StringLessIff` | feeds/recommendations.py:163-168 | text is ordered by its first difference, a proper prefix first |
| `Diversify.PoolHoldsEachArticleOnce` | feeds/recommendations.py:184-200 | the pool is a subsequence of the ranking, starts with its best, has at most 500 members, and no two share a url or a title of 20 characters or more |
| `Diversify.PoolLimits` | feeds/recommendations.py:184-200 | no two pool members share a url or a title of 20 characters, and there are at most 500 |
| `Diversify.DistinctCandidatesAllFit` | feeds/recommendations.py:184-200 | up to 500 candidates of which none repeats another all make it |
| `Diversify.DropsAreDuplicates` | feeds/recommendations.py:184-200 | until the pool is full a candidate is dropped only when a better-ranked member is the same article |
| `Diversify.SeenSetsDecideRepeats` | feeds/recommendations.py:187-198 | the two seen-sets decide exactly whether a candidate repeats a pool member |
| `Diversify.BuildPool` | feeds/recommendations.py:184-200 | the deduplication loop with its early break builds that pool |
| `Selection.DiversifiedIndices` | feeds/recommendations.py:171-244 | the result has min(limit, pool) distinct articles, begins with the candidate ranked above all others, repeats no article, and every pick is the best next one |
| `Selection.SelectFromPool` | feeds/recommendations.py:204-244 | the incremental loop (running maxima, counters, argmax) picks greedily as defined from scratch at every step |
| `Selection.GreedyIsUnique` | feeds/recommendations.py:231-235 | the rule leaves no choice: one greedy selection of each size |
| `Selection.LongerSelectionsExtend` | feeds/recommendations.py:219-244 | asking for more only adds to the end |
| `Selection.LargeLeadsAreKept` | feeds/recommendations.py:219-229 | diversity never overturns a weighted relevance lead of more than 0.5, the largest penalty |
| `Selection.RelevanceKeepsProportions` | feeds/recommendations.py:204-211 | relevance stretches the scores to reach from 0 to 1 in proportion; equal scores get 1 |
| `Selection.PenaltyScale` | feeds/recommendations.py:219-229 | each earlier pick of a feed costs 0.06 up to five, of a category 0.015 up to a total of 0.08 |
| `Selection.RankingIgnoresListOrder` | feeds/recommendations.py:163-182 | the order in which candidates are listed never shows |
| `Selection.ArgMax` | feeds/recommendations.py:231-233 | the first of the largest entries |
| `Opml.ParseIff` | feeds/services.py:1069-1140 | the recursive visit accepts a document exactly when every element is well formed within 32 levels, there are at most 1000, and repeated feeds agree; then it finds every feed once and counts the repeats |
| `OpmlPaths.DocumentIsReadIff` | feeds/services.py:1069-1140 | outline by outline, along paths: a body is accepted exactly when each is an outline no deeper than 32 that is a valid childless feed or a named, nonempty category, there are at most 1000, and feeds of one url agree; then exactly what the feed outlines ask for is found, by title, else text, else url, under the innermost category |
| `OpmlPaths.StripTrims` | feeds/services.py:1028-1035 | stripping takes white space, all of it and nothing else, off both ends |
| `OpmlImport.OpmlParser.VisitParent` | feeds/services.py:1093-1137 | the visit's closure variables, updated in place, are the specified progress |
| `OpmlImport.ParseOpml` | feeds/services.py:1069-1140 | parsing needs an OPML root with exactly one body |
| `OpmlImport.OneBodyIff` | feeds/services.py:1082-1086 | the body read is the one child of the root of that name |
| `OpmlExport.DraftedMeasures` | feeds/services.py:1236-1269 | the exported body holds exactly the rows, one outline per feed and per category, well formed exactly when every row is |
| `OpmlPaths.ExportMirrorsRows` | feeds/services.py:1247-1268 | every exported outline is a feed's or a category's, named in both attributes, and every feed has its own, under its category's if it has one |
| `OpmlExport.ReadsBackIff` | feeds/services.py:1236-1269 | reading an exported document back gives the same title, url, site url and category name for every active feed, nothing skipped, exactly when every row is portable and feeds plus categories are at most 1000 |
| `OpmlExport.ExportBody` | feeds/services.py:1241-1268 | the grouping loop with its category table writes that body |
| `OpmlImport.ImportOfWhatIsShown` | feeds/services.py:1214-1233 | importing what a catalog already shows changes nothing |
| `OpmlImport.ImportingTwiceIsImportingOnce` | feeds/services.py:1197-1233 | importing the same feeds again creates none and changes nothing |
| `OpmlImport.UpsertExtends` | feeds/services.py:1220-1232 | one update-or-create extends what the import has done by exactly one feed |
| `OpmlRoundTrip.ExportThenImportChangesNothing` | feeds/services.py:1197-1269 | export followed by import reads every active feed back, creates none, skips none, and leaves every category and feed as it was |
| `OpmlRoundTrip.ParsedUrlsDiffer` | feeds/services.py:1111-1122 | an accepted document never yields two feeds with one url |
| `OpmlRoundTrip.ImportDocument` | feeds/services.py:1197-1233 | a whole upload: a refused document changes nothing; an accepted one is imported and counted exactly |
| `OpmlRoundTrip.ExportDocument` | feeds/services.py:1236-1269 | the exported document has one body holding the grouped active feeds |
| `Catalog.Feeds.ImportOpml` | feeds/services.py:1197-1233 | every planned feed ends up as planned, every other feed and untouched column stays, created counts the new urls |
| `Catalog.Feeds.CategoryFromName` | feeds/services.py:1164-1194 | the existing category of that name, or one new one under a free slug |
| `Catalog.Feeds.UpdateOrCreate` | feeds/services.py:1222-1232 | update or create by url keeps the unique columns |
| `Slugs.FreeSlug` | feeds/services.py:1174-1187 | the suffix search ends, at the first number whose slug is free |
| `Slugs.SlugsKeepTheBase` | feeds/services.py:1174-1178 | a numbered slug is as much of the base as fits in 140 characters, a dash and the number |
| `Slugs.NumberedSlugsDiffer` | feeds/services.py:1177-1178 | however the base is truncated no two numbered suffixes collide, which is why the search ends |

## Left out

- GuardedRunsHaveOneHolder: assumes each claim finds the row guarded, because without that exclusivity is false (`SaveDuringAttemptBreaksExclusion`, `UnclaimedAttemptBreaksExclusion`); `TakeoverIff` gives the exact condition.
- CalmRunsClaimExclusively: assumes that a save starts only while nothing is in flight and that nothing is claimed while a save's own attempt is; that a stale claim never matches is stated for such runs only.
- AtMostOneBookmarkIff: takes the article's url as unchanged, so that every lookup asks for what was posted, and one actor at a time; requeues come between attempts.
- AdministratorsStayInformed: assumes no notification is sent without being recorded, because without that it is false (`UnrecordedAlarmIsNeverWithdrawn`); `InformedIff` gives the exact condition.
- LargeLeadsAreKept: takes similarities between 0 and 1; the selection itself is proved for any reals.
- ReceiptsAlwaysNameValidBackups: speaks of fewer than 10^31 sessions, the numbers a counter file can hold; the reader refuses a longer one.
- SequencesStrictlyIncrease: a number whose receipt was withdrawn by a failed directory sync counts as not published and may be issued again.
- ImportOpml: the advisory locks and the retry after a concurrent insert of the same category are not modelled; one import runs at a time. The order of new primary keys, and which of several new categories whose names slug alike gets the lower number, are not stated.
- BackupId: takes digits to be ASCII digits, where the pattern's `\d` admits any decimal digit.
- ParseCounter: the counter text is digits with an optional newline; other spellings Python's `int` accepts (signs, blanks, underscores) count as invalid.
- Cycle: runs without other workers in between, and `CycleIsNeverReclaimed` covers the interleavings.
- CategoryFromName: runs without a concurrent insert of the same category, as under the advisory lock the import takes first.
- Watch: the cycle's heartbeats run without other workers in between; `CycleIsNeverReclaimed` covers the interleavings. A heartbeat that raises ends the cycle like an iteration that raises after that feed.
- CycleIsNeverReclaimed: takes the wall clock to move with the monotonic one during a cycle.
- HTTP, sockets, feed parsing, HTML cleaning, JSON and XML text: a fetched document is a sequence of entries, OPML a tree of elements with lower-case local names and its four attributes, metadata and receipts are records behind an abstract codec.
- SHA-256 is an abstract function, metadata validation an abstract reader of size and hash, Django field validators abstract predicates.
- Date parsing of entries: an entry's date is given, or absent when it is missing or unreadable. Column lengths and database errors other than the two unique constraints are not modelled.
- Deletion of feeds, articles and saved articles during a run; primary keys of articles are numbered per feed.
- A whole document is written under one clock reading.
- Eligibility for refresh and the `RefreshResult` built from a read-back after the failure transaction; the model is about the stored row.
- `article_card_page`, `visible_articles`, `RefreshTally`, `job_health` and the monitor's message texts: direct readings of what is modelled.
- File permissions, mounts, symlinks, locks across hosts, and the durability of data after `fsync`: a crash keeps every completed file operation.
- The ISO week year: weeks are numbered consecutively, so two weeks share a bucket exactly when they are the same week.
- The monitor's unreadable state file: such a check fails before anything is sent, which is one of the modelled endings.
- TF-IDF, logistic regression, reason texts and floating-point rounding: scores and similarities are given reals; canonical urls and titles are given strings.
- Capacity reports, restore verification, settings, views, forms, templates and authentication.
