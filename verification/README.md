# RenderingGen, verified

RenderingGen is a render queue, a content-addressed object store and a GPU worker. This project
models the parts of it whose correctness is hard to see from the code, and proves what they
promise, for every input, every run and every interleaving:

- **SQL script splitter** (`GoStrings`, `SqlTokens`, `SqlStatements`, `SqlSplitter`, `SqlGrammar`,
  `SqlFirstTokens`, `SqlConservation`). The loops of the migration runner's splitter are proved against a token
  grammar with nested block comments, plain and escape literals, and tagged dollar quotes. Printing
  and lexing are inverse, splitting is a fixed point of joining, and nothing but separators, line
  comments and outer white space is lost, for scripts that end inside a construct as well.
- **Lane scheduler** (`LaneScheduler`, `LaneRenderer`, `LaneProgress`). Any number of concurrent renders, each
  atomic operation one step: what the counters count, when a claim can fail, that lanes stay
  balanced until a render finishes, that the nested limits never make an admitted render wait, that
  a free slot admits, and that the outer limit is reached.
- **Wake-up protocol** (`WakeQueue`, `WakeOrder`, `LongPoll`, `LongPollLaws`). The notifier over every sequence of calls, and
  `WaitAndClaim` over every interleaving of waiters, submits, wake-ups, timers and cancellations.
- **Object store** (`ContentAddress`, `ObjectStore`, `StoreLaws`, `StoreHistory`, `StoreAdapters`,
  `StoreScan`).
  The disk adapter, with its files and renames, refines the memory adapter over every sequence of
  calls; each reply is told by the calls before it; reads are truthful and stable; the integrity scan
  is exact. SHA-256 is a parameter.
- **Ledger migration** (`LedgerMigration`). For any ledger file at all, crashes and restarts
  between any two steps do not change what the migration arrives at.
- **Frame grid, segments, batch identity, wire frames** (`Timeline`, `Segments`, `BatchIdentity`,
  `BatchCollisions`, `BatchExpand`, `BatchAssetLines`, `BatchLanguages`, `IpcFrame`).

Where the code does not keep a promise in general, the exact condition is proved:

- A lane sweep computes its index in uint64. It reads every lane exactly when it does not wrap
  around 2^64 or the lane count divides 2^64 (`LaneScheduler.ReadsAllIff`).
- Two frames can share a millisecond exactly above 1000 frames per second (`Timeline.GridIff`), and
  a row can shrink to nothing exactly when a one-millisecond row is given less than a millisecond of
  frames (`Timeline.NeverCollapsesIff`).
- A batch id is documented to keep batches apart (`renderinggen/internal/batch/batch.go:36-38`).
  Two batches can produce the same queue id exactly when one id, with its colon, starts the other
  (`BatchIdentity.BatchesCollideIff`), and the same idempotency key exactly when one id, with the
  mark "\njob:" that follows it in the hashed bytes, starts the other
  (`BatchCollisions.KeysCollideIff`).
- The hashed bytes do not tell all accepted assets apart: a colon in a URL can be taken for the
  separator before it (`BatchAssetLines.ColonsCollide`). An asset is told by its line exactly when
  its URL has no colon, only blanks precede one in its hash, and only blanks surround one in its path
  (`BatchAssetLines.LineIdentifiesIff`). Among jobs without line breaks a job whose own assets are of
  that kind shares its bytes with no other (`BatchAssetLines.JobIsIdentified`), and two jobs are told apart if
  in both of them hashes and paths have no colon and ids and URLs no line break
  (`BatchIdentity.ContentIdentifiesJob`). Line breaks have to be excluded of both jobs: every accepted
  job with two assets or more shares its bytes with one that has a line break in a URL
  (`BatchAssetLines.TwoAssetsMerge`). Under the same ids, whatever
  they are, an edited plan gives other bytes with any assets (`BatchIdentity.PlanIsIdentified`).
- A ledger file is opened exactly when it is `Openable`, and then has every column exactly when its
  version was honest (`LedgerMigration.OpensIff`, `LedgerMigration.OpenIsComplete`).
- A frame is read back exactly when its payload is within 64 MiB (`IpcFrame.RoundTripIff`).

The comments in `queue/internal/service/notify.go` speak of a wake-up for every state change;
`Complete` sends none, and the model follows the code. Verify with `dafny verify dfyconfig.toml`.

## Model

| member | source | states |
|---|---|---|
| `SqlSplitter.SplitStatements` | queue/internal/migrate/migrate.go:162-202 | The loop returns the statements of the token grammar; none is blank or untrimmed, there are at most as many as semicolons plus one, and joined with ";" and split again they are the same list |
| `SqlSplitter.CopyBlockComment` | queue/internal/migrate/migrate.go:212-234 | Copies verbatim exactly the characters of one nesting block comment, the rest of the script if it is not closed |
| `SqlSplitter.CopyStringLiteral` | queue/internal/migrate/migrate.go:239-265 | Copies verbatim exactly one literal, with doubled quotes and, after a lone E, backslash escapes |
| `SqlSplitter.IsEscapeLiteral` | queue/internal/migrate/migrate.go:269-279 | Decides by the two characters before the quote what the look-behind over the whole text before it says |
| `SqlSplitter.DollarQuoteTag` | queue/internal/migrate/migrate.go:284-293 | Finds the opening tag when there is one, and none for a positional parameter |
| `SqlSplitter.CopyDollarQuoted` | queue/internal/migrate/migrate.go:297-309 | Copies verbatim through the first occurrence of the opening tag |
| `SqlTokens.TagScanIsFirst` | queue/internal/migrate/migrate.go:297-309 | A closed scan ends at the first occurrence of the tag; an open one means there is none |
| `SqlTokens.WellFormedIffLexed` | queue/internal/migrate/migrate.go:137-202 | A token list is well formed exactly when it is what its own text lexes to: printing and lexing are inverse |
| `SqlTokens.NextTokenIsValid` | queue/internal/migrate/migrate.go:162-202 | The token found at a position is the one the grammar allows there, and no other is |
| `SqlStatements.SplitFixedPoint` | queue/internal/migrate/migrate.go:162-202 | For every script, splitting the joined statements gives the same statements, unterminated constructs included |
| `SqlStatements.SurvivesJoinIffCanonical` | queue/internal/migrate/migrate.go:162-202 | The lists of strings that survive a join and a split are exactly those whose members each lex to one trimmed statement, all but the last leaving nothing open |
| `SqlStatements.StatementsAreCanonical` | queue/internal/migrate/migrate.go:162-202 | Whatever the script, its statements are such a list |
| `SqlStatements.KeptWellFormed` | queue/internal/migrate/migrate.go:142-154 | Dropping line comments, whose newline stays, never makes two tokens merge |
| `SqlConservation.NothingElseIsLost` | queue/internal/migrate/migrate.go:137-202 | White space apart, the statements one after another are the script without its separators and line comments, in order |
| `SqlGrammar.ClosedBlockIffComment` | queue/internal/migrate/migrate.go:204-234 | The block comments recognised as closed are exactly the printed trees of nested comments |
| `SqlGrammar.ClosedLiteralIffPieces` | queue/internal/migrate/migrate.go:236-265 | The literals recognised as closed are exactly the quoted lists of characters, doubled quotes and escapes |
| `SqlGrammar.ClosedDollarIffTagged` | queue/internal/migrate/migrate.go:284-309 | The dollar quotes recognised as closed are exactly a tag, a body without it, and the tag |
| `SqlFirstTokens.LiteralOpens` | queue/internal/migrate/migrate.go:239-279 | After any text, a quote opens an escape literal exactly when the text ends in an E of either case that no word runs into, a plain one otherwise, and the token is the whole printed list of pieces |
| `SqlFirstTokens.CommentOpens` | queue/internal/migrate/migrate.go:212-234 | After any text and before any other, a tree of comments is one token |
| `SqlFirstTokens.LineOpens` | queue/internal/migrate/migrate.go:174-179 | A line comment is one token up to its newline |
| `SqlFirstTokens.DollarOpens` | queue/internal/migrate/migrate.go:284-309 | A tag of letters, digits and underscores, a body without it and the tag again are one token |
| `SqlFirstTokens.DollarIsText` | queue/internal/migrate/migrate.go:183-191 | A dollar that no second dollar answers after a name, as in $1, is text |
| `SqlFirstTokens.UnclosedTakesTheRest` | queue/internal/migrate/migrate.go:212-265 | A literal or comment that nothing closes is one token to the end of the script |
| `SqlFirstTokens.UnclosedDollarTakesTheRest` | queue/internal/migrate/migrate.go:297-309 | A dollar quote whose tag does not come again is one token to the end of the script |
| `SqlFirstTokens.LiteralStaysWhole` | queue/internal/migrate/migrate.go:162-202 | A literal with any semicolons and escaped quotes in it, in the midst of simple text, is split as one statement, and a separator after it is seen |
| `SqlFirstTokens.CommentStaysWhole` | queue/internal/migrate/migrate.go:162-202 | The same for a nested block comment |
| `SqlFirstTokens.DollarStaysWhole` | queue/internal/migrate/migrate.go:162-202 | The same for a dollar quote |
| `LaneScheduler.LanesPerSocket` | renderinggen/internal/chronon/socket_spread.go:42-50 | The least share per socket that holds all lanes, and never zero |
| `LaneScheduler.RunConserves` | renderinggen/internal/chronon/socket_spread.go:130-157 | In every state of every run each lane counter is the number of calls holding that lane, and every semaphore's fill the number of calls holding a slot |
| `LaneScheduler.CapsHold` | renderinggen/internal/chronon/serialized.go:21-57 | At most the outer limit of renders run; a lane's active count is within its filled slots and they within its capacity; all is zero when all calls returned |
| `LaneScheduler.GivingBackNeverBlocks` | renderinggen/internal/chronon/serialized.go:31-57 | A call that holds a slot or counter can always give it back, and no count drops below zero |
| `LaneScheduler.SweepEndsWithALane` | renderinggen/internal/chronon/socket_spread.go:138-154 | In every run, completions included, a call that has read every counter has a lane to claim: the lanes are never indexed with "no lane" |
| `LaneScheduler.ClaimLostOnlyToAChange` | renderinggen/internal/chronon/socket_spread.go:138-156 | A failed compare-and-swap was beaten by a change of that counter after the sweep read it, and no call sweeps again more often than counters changed |
| `LaneScheduler.LanesStayBalanced` | renderinggen/internal/chronon/daemon_pool.go:228-253 | Until some render gives its counter back, in every interleaving lane loads differ by at most one, although each sweep reads them one by one |
| `LaneScheduler.NoWaitInsideALane` | renderinggen/cmd/renderinggen/main.go:134-170 | With each lane capped at its share of the outer limit, an assigned call can enter its lane at once, until some render gives its counter back |
| `LaneScheduler.ReadsAllIff` | renderinggen/internal/chronon/socket_spread.go:145-146 | A sweep reads every lane exactly when its index does not wrap around 2^64 or the lane count divides 2^64 |
| `LaneProgress.AdmittedIffFree` | renderinggen/internal/chronon/serialized.go:31-37 | In every state of every run a waiting call can enter exactly when fewer calls than the limit are inside, and an assigned call its lane exactly when the lane has a free slot |
| `LaneProgress.LeftAloneItRenders` | renderinggen/internal/chronon/socket_spread.go:130-157 | From any state of any run, a waiting call with a free slot and left alone settles on a least loaded lane, unless its index wraps, and renders there if the lane has a free slot |
| `LaneProgress.LimitIsReached` | renderinggen/internal/chronon/serialized.go:21-57 | When the lanes hold as many, some run has exactly the outer limit of renders under way at once |
| `LaneProgress.CancelledCallLeaves` | renderinggen/internal/chronon/serialized.go:31-37 | From any state of any run a cancelled call comes out, and what it held is given back |
| `LaneProgress.FinishedCallLeaves` | renderinggen/internal/chronon/serialized.go:38-57 | From any state of any run a render that ends gives back its activity, its two slots and its counter, and nothing else changes |
| `LaneProgress.SweepsRotate` | renderinggen/internal/chronon/socket_spread.go:134-145 | In every run the n-th call to sweep first reads lane n, modulo the number of lanes, up to 2^64 calls |
| `LaneRenderer.Renderer.ClaimLane` | renderinggen/internal/chronon/socket_spread.go:130-154 | Without contention the loop claims the first least loaded lane in rotation order, raises that counter only, and advances the cursor |
| `LaneRenderer.Renderer.ReleaseLane` | renderinggen/internal/chronon/socket_spread.go:155-156 | Lowers that counter only |
| `LaneRenderer.SweepFindsFirstLeast` | renderinggen/internal/chronon/daemon_pool.go:235-243 | After any number of reads a sweep holds the first least loaded lane read |
| `LaneRenderer.RulesAgree` | renderinggen/internal/chronon/daemon_pool.go:228-253 | The socket spread and the daemon pool settle on the same lane from the same counters |
| `WakeQueue.Notifier.Notify` | queue/internal/service/notify.go:51-64 | Has the effect of a single wake on the queue, the set and the closed channels |
| `WakeQueue.Notifier.Broadcast` | queue/internal/service/notify.go:70-81 | Has the effect of a wake of all |
| `WakeQueue.Notifier.Done` | queue/internal/service/notify.go:87-97 | Parks a channel never used before |
| `WakeQueue.Notifier.Forget` | queue/internal/service/notify.go:101-119 | Unparks the channel, and changes nothing if it was woken |
| `WakeQueue.WakeOneWakesOldest` | queue/internal/service/notify.go:51-64 | A single wake closes exactly the longest-parked channel; the skip of stale entries is never taken |
| `WakeQueue.WakeAllWakesAll` | queue/internal/service/notify.go:70-81 | A broadcast closes every parked channel once, oldest first, and leaves none parked |
| `WakeQueue.DropUnparks` | queue/internal/service/notify.go:101-119 | Forgetting unparks that channel and no other |
| `WakeQueue.EverySequenceKeepsInv` | queue/internal/service/notify.go:51-119 | After every sequence of calls the queue has no duplicates and equals the set, no channel was closed twice, and the channels created split into parked, woken and forgotten |
| `WakeOrder.ParkedLast` | queue/internal/service/notify.go:87-97 | After any sequence of calls, a call that parks puts a new channel last in the queue and in the set |
| `WakeOrder.WokenInTurn` | queue/internal/service/notify.go:51-119 | A channel that is not forgotten is closed by a broadcast, or by one single wake more than channels are parked before it; with fewer wakes, and nobody forgotten, it stays parked |
| `LongPoll.ReturnedLeavesNothingParked` | queue/internal/service/service.go:184-253 | In every interleaving a call that has returned has no channel parked |
| `LongPoll.EveryJobAccounted` | queue/internal/service/service.go:184-253 | In every interleaving each submitted job is still claimable or was handed to exactly one call, which asked for its state |
| `LongPoll.RepollIsBounded` | queue/internal/service/service.go:198-251 | Whatever wake-ups arrive or are lost, and however long the store takes, a call asks again at most ten seconds after the last answer, and waits past its deadline for nothing but a claim under way |
| `LongPoll.NoStall` | queue/internal/service/service.go:179-183 | While a job that a call would take stays claimable, the call cannot go on waiting for more than ten seconds, whatever signals are lost |
| `LongPollLaws.WaitsAsAsked` | queue/internal/service/service.go:184-198 | In every run a call waits no longer than it asked for, 25 seconds when it named no wait, counted from its first answer, times out no earlier, and fails at once without a worker or with a negative wait |
| `LongPollLaws.PollsBackOff` | queue/internal/service/service.go:200-251 | In every run, from when it parks and as long as it finds nothing, a call polls exactly 1, 2, 4, 8 seconds after the last answer and every 10 seconds from then on |
| `LongPollLaws.SubmitReachesOldest` | queue/internal/service/service.go:102-124 | From any state of any run, a submitted job and its notification let the longest-parked call that would take it return with it before the clock moves on |
| `LongPollLaws.BroadcastReachesAll` | queue/internal/service/service.go:218 | After a broadcast every waiting call can take its wake-up |
| `LongPollLaws.CallParks` | queue/internal/service/service.go:194-208 | A call that finds nothing at first parks a new channel, to wait as long as it asked for |
| `LongPollLaws.WokenInVainReparks` | queue/internal/service/service.go:218-231 | A call woken in vain parks a new channel, keeps its deadline and starts its back-off again |
| `LongPollLaws.FirstClaimTakes` | queue/internal/service/service.go:194-197 | A job already claimable is returned by the first claim, without waiting |
| `LongPollLaws.PollTakes` | queue/internal/service/service.go:232-243 | A poll that is due returns a job no one was woken for, its channel forgotten |
| `LongPollLaws.ClaimedAsAsked` | queue/internal/service/service.go:164-177 | In every run a job handed out is of the state its call asked for, and claimable no more |
| `LongPollLaws.ErrorEndsCall` | queue/internal/service/service.go:215-242 | An error of the store ends the call |
| `LongPollLaws.WaitingCanEnd` | queue/internal/service/service.go:211-217 | A waiting call can be cancelled at any time and times out at its deadline, its channel unparked |
| `LongPollLaws.AloneTimesOut` | queue/internal/service/service.go:208-251 | A call with nothing to claim and nobody to wake it can go on to its deadline, and times out at that moment |
| `ContentAddress.CanonicalContentAddress` | objectstore/internal/store/store.go:118-129 | Accepts exactly the strings of 64 lowercase hex characters |
| `ContentAddress.PathsAreDistinct` | objectstore/internal/store/staging.go:80-88 | Object, pending and digest file names never clash, and none is shared by two keys or sessions |
| `ContentAddress.NormaliseRecorded` | objectstore/internal/store/staging.go:124-153 | The digest written with a newline reads back as itself |
| `ObjectStore.StepRefines` | objectstore/internal/store/staging.go:94-198 | One call on both adapters gives the same reply, error kinds included, and they still agree |
| `ObjectStore.DiskRefinesMemory` | objectstore/internal/store/memory_staging.go:25-81 | Over every sequence of Put, Get and staging calls the disk adapter gives the memory adapter's replies, and every visible key is canonical and the hash of its bytes |
| `StoreLaws.OnlyInstallsAreVisible` | objectstore/internal/store/memory_staging.go:47-70 | Only a Put or finalize that succeeds changes what is readable, and only by installing bytes under their own hash; a refused call changes nothing readable |
| `StoreLaws.PendingIsInvisible` | objectstore/internal/store/staging.go:94-130 | Staging or aborting bytes changes the answer to no Get |
| `StoreLaws.ReadsAreTruthful` | objectstore/internal/store/store.go:152-270 | Whatever is read at any point of any run on disk hashes to the key it was read under |
| `StoreLaws.ReadsAreStable` | objectstore/internal/store/store.go:152-270 | If the bytes offered do not collide, a key once read always gives the same bytes again |
| `StoreHistory.NormaliseIff` | objectstore/internal/store/staging.go:140 | A digest is read as a key exactly when it is the key in any letter case with blanks around it |
| `StoreHistory.PutReplies` | objectstore/internal/store/store.go:152-206 | At any point of any run on disk a Put succeeds exactly with bytes under their own address and no wrong size, and otherwise says which |
| `StoreHistory.GetReplies` | objectstore/internal/store/store.go:234-270 | At any point of any run on disk a read finds exactly what was last installed under the key, and nothing exactly when nothing ever was |
| `StoreHistory.WriteReplies` | objectstore/internal/store/staging.go:94-130 | A write to a valid session is answered with the digest and size of its bytes |
| `StoreHistory.FinalizeReplies` | objectstore/internal/store/staging.go:136-182 | At any point of any run on disk a finalize succeeds exactly when its digest spells the hash of the bytes staged, and otherwise says what is wrong |
| `StoreHistory.AbortReplies` | objectstore/internal/store/staging.go:185-198 | An abort of a valid session succeeds, whether anything is staged or not |
| `StoreHistory.UploadIsReadable` | objectstore/internal/store/staging.go:94-182 | After any calls, bytes written and finalized under their digest in any spelling are read back |
| `StoreHistory.EndedHoldsNothing` | objectstore/internal/store/staging.go:136-198 | After an abort or a finalize, matched or not, a finalize of that session finds nothing |
| `StoreAdapters.MemoryStore.PutReader` | objectstore/internal/store/memory.go:60-82 | Matches the specification of Put on the two maps |
| `StoreAdapters.MemoryStore.GetObject` | objectstore/internal/store/memory.go:86-98 | Matches the specification of Get |
| `StoreAdapters.MemoryStore.Write` | objectstore/internal/store/memory_staging.go:25-43 | Matches the specification of StagingWrite |
| `StoreAdapters.MemoryStore.Finalize` | objectstore/internal/store/memory_staging.go:47-70 | Matches the specification of StagingFinalize |
| `StoreAdapters.MemoryStore.Abort` | objectstore/internal/store/memory_staging.go:73-81 | Matches the specification of StagingAbort |
| `StoreAdapters.DiskStore.PutReader` | objectstore/internal/store/store.go:152-206 | Through a temporary file and a rename, has the effect of one atomic Put; a refused upload leaves no file behind |
| `StoreAdapters.DiskStore.GetObject` | objectstore/internal/store/store.go:234-270 | Matches the specification of Get |
| `StoreAdapters.DiskStore.Write` | objectstore/internal/store/staging.go:94-130 | Through a temporary file, a rename and the digest file, has the effect of one StagingWrite |
| `StoreAdapters.DiskStore.Finalize` | objectstore/internal/store/staging.go:136-182 | Has the effect of one StagingFinalize, the mismatch path that discards the session included |
| `StoreAdapters.DiskStore.Abort` | objectstore/internal/store/staging.go:185-198 | Removes both files of the session and no other |
| `StoreScan.Verify` | objectstore/internal/store/integrity.go:93-120 | Tells a malformed key, an absent object, a match and a mismatch apart, exactly |
| `StoreScan.Scan` | objectstore/internal/store/integrity.go:137-185 | When the walk visits every file of a two-level tree once, the failures are exactly the files with a bad name, wrong shard or wrong digest, each with its reason; all files are counted; and the report is clean exactly when every file of the tree can be trusted |
| `StoreScan.WalkIsExact` | objectstore/internal/store/integrity.go:81-83 | No failure and no leftover means that every file of the tree is addressable, in its shard and hashes to its name, and conversely |
| `StoreScan.ReasonIs` | objectstore/internal/store/integrity.go:152-176 | A reported failure says bad name, wrong shard, or the digest found, in this order of precedence |
| `StoreScan.WriteApiScansClean` | objectstore/internal/store/integrity.go:137-185 | Any tree built by calls of the write API is sound, and a scan of any of its files is clean |
| `LedgerMigration.Database.Migrate` | renderinggen/internal/artifactdb/sqlite.go:82-126 | The loop leaves the ledger, and reports the outcome, that the specification of the migration gives for the file found |
| `LedgerMigration.Database.HasColumn` | renderinggen/internal/artifactdb/sqlite.go:157-182 | Finds a column exactly when it is there |
| `LedgerMigration.Database.Commit` | renderinggen/internal/artifactdb/sqlite.go:109-123 | A step and its stamp take effect together, or neither does |
| `LedgerMigration.OpensIff` | renderinggen/internal/artifactdb/sqlite.go:82-126 | For any file: exactly when the migration succeeds, and then the version is the last and the columns are the old ones followed by the missing ones in order |
| `LedgerMigration.CrashesChangeNothing` | renderinggen/internal/artifactdb/sqlite.go:78-126 | Wherever the worker crashes and restarts, it is on its way to the outcome of an uninterrupted run, and has reached it when it opens the ledger |
| `LedgerMigration.VersionNeverDecreases` | renderinggen/internal/artifactdb/sqlite.go:95-126 | Over every run with crashes the stored version never decreases |
| `LedgerMigration.NoColumnAddedTwice` | renderinggen/internal/artifactdb/sqlite.go:97-123 | Over every run the columns are those found first, then the ones added, which were missing and are all different |
| `LedgerMigration.VersionStaysHonest` | renderinggen/internal/artifactdb/sqlite.go:47-63 | From any unversioned file, or any with an honest version, every version reached means its columns exist |
| `LedgerMigration.OpenIsComplete` | renderinggen/internal/artifactdb/sqlite.go:82-126 | An opened ledger is at the last version, and has all columns exactly when the version found first was honest |
| `LedgerMigration.RestartFinishes` | renderinggen/internal/artifactdb/sqlite.go:78-126 | After any crashes, a worker started afresh and left alone opens the ledger exactly when the file first found was openable |
| `LedgerMigration.UnversionedOpens` | renderinggen/internal/artifactdb/sqlite.go:47-63 | An unversioned table with any of the added columns is opened, unless one is there in another letter case |
| `LedgerMigration.AnotherSpellingIsRefused` | renderinggen/internal/artifactdb/sqlite.go:95-123 | A column still to add that is there in another letter case makes the migration fail |
| `LedgerMigration.NewerIsUntouched` | renderinggen/internal/artifactdb/sqlite.go:87-92 | Exactly a ledger with a version above the last is refused as newer, and left as it is |
| `Timeline.BuildTimeline` | renderinggen/cmd/overlay-timeline/main.go:154-227 | Accepts exactly the valid files, at 30/1 when no rate is given and at the file's own otherwise, names the first fault otherwise, and lays the windows end to end, exactly the quantised gap apart |
| `Timeline.AcceptableIffNoFault` | renderinggen/cmd/overlay-timeline/main.go:154-189 | A file is accepted exactly when none of the faults fits it |
| `Timeline.FramesAreNearest` | renderinggen/cmd/overlay-timeline/main.go:190-193 | A row's frames are the whole number nearest to its duration, half a frame going up, and one when that is none |
| `Timeline.MsIsNearest` | renderinggen/cmd/overlay-timeline/main.go:196-197 | A reported bound is within half a millisecond of where its frame is |
| `Timeline.GridIff` | renderinggen/cmd/overlay-timeline/main.go:175-197 | Every frame is recovered from its millisecond, and no two frames share one, exactly up to 1000 frames per second |
| `Timeline.WindowsInOrder` | renderinggen/cmd/overlay-timeline/main.go:151-153 | Windows come in order, at least a frame long and at least the gap apart, and do not overlap in milliseconds |
| `Timeline.WindowsRoundTrip` | renderinggen/cmd/overlay-timeline/main.go:184-198 | Up to 1000 frames per second every row of every timeline spans a millisecond or more and its bounds give back its frames |
| `Timeline.NeverCollapsesIff` | renderinggen/cmd/overlay-timeline/main.go:191-198 | In every timeline at a rate every row spans at least a millisecond exactly when a one-millisecond row does |
| `Timeline.FastRateCollapses` | renderinggen/cmd/overlay-timeline/main.go:191-198 | At 10000/9 frames per second a sixth one-millisecond row starts and ends at the same millisecond |
| `Segments.ValidateOutputSegments` | renderinggen/internal/chronon/render_args.go:138-185 | Accepts exactly the requests without segments, or whose segments tile the timeline with paths of their own, without audio or range, on the native lane; otherwise names the first fault |
| `Segments.TiledIffPartitions` | renderinggen/internal/chronon/render_args.go:128-160 | The window lists accepted are exactly the ordered partitions: each frame of [0, last end) in exactly one window |
| `Segments.ValidateRenderRequest` | renderinggen/internal/chronon/render_args.go:111-126 | Accepts exactly the requests with good segments, or without segments and with a range that is not inverted or negative |
| `Segments.NativeLaneIff` | renderinggen/internal/chronon/render_args.go:42-101 | Which requests resolve to the native encoder lane |
| `Segments.StrictStaysOnGpu` | renderinggen/internal/chronon/render_args.go:58-82 | A request that needs a GPU and forbids the CPU asks for the native hot path unless it composites in software; its encoder is nvenc exactly when nvenc or nothing is configured, and "none" exactly when "none" is |
| `Segments.OtherSelections` | renderinggen/internal/chronon/render_args.go:42-101 | Which encoder, encoder backend and hot-path mode come out for every other request, and exactly which requests resolve to none |
| `BatchIdentity.KeyContent` | renderinggen/internal/batch/batch.go:116-134 | The bytes hashed are the header, the plan and the lines of some sorted arrangement of the assets |
| `BatchIdentity.SortedIsUnique` | renderinggen/internal/batch/batch.go:122-129 | Assets that are equal whenever they compare equal have only one sorted arrangement, so the unstable sort does not matter |
| `BatchIdentity.SortedByHashThenPath` | renderinggen/internal/batch/batch.go:124-129 | In the sorted list hashes do not decrease, and paths of one hash do not |
| `BatchIdentity.ContentIgnoresOrder` | renderinggen/internal/batch/batch.go:120-132 | Reordering the asset list never changes the bytes hashed |
| `BatchIdentity.PlanIsIdentified` | renderinggen/internal/batch/batch.go:112-119 | Under the same ids, whatever they are, an edited plan gives other bytes with any assets |
| `BatchIdentity.ContentIdentifiesJob` | renderinggen/internal/batch/batch.go:112-134 | Two jobs, both without colons in hashes and paths and without line breaks in ids and URLs, have the same bytes exactly when they have the same batch, id, plan and assets up to order |
| `BatchAssetLines.LineIdentifiesIff` | renderinggen/internal/batch/batch.go:130-132 | An accepted asset is told from every other accepted asset by its line exactly when its URL has no colon, only blanks precede one in its hash and only blanks surround one in its path |
| `BatchAssetLines.ColonsCollide` | renderinggen/internal/batch/batch.go:130-132 | Two accepted assets with one line: a colon in a URL |
| `BatchAssetLines.JobIsIdentified` | renderinggen/internal/batch/batch.go:112-134 | Among jobs without line breaks, a job whose own assets are each told by their line shares its bytes with no job but itself |
| `BatchAssetLines.TwoAssetsMerge` | renderinggen/internal/batch/batch.go:130-132 | Every accepted job with two assets or more shares its bytes with an accepted one of one asset less that has a line break in a field |
| `BatchCollisions.KeysCollideIff` | renderinggen/internal/batch/batch.go:116-134 | Accepted entries of two batches can have the same bytes hashed exactly when one batch id, with the mark "\njob:" that follows it, starts the other |
| `BatchCollisions.LineBreaksCollide` | renderinggen/internal/batch/batch.go:116-119 | Two different jobs with the same bytes, when ids contain line breaks |
| `BatchIdentity.BatchesCollideIff` | renderinggen/internal/batch/batch.go:108-110 | Two batches can produce the same queue id exactly when one batch id, with its colon, starts the other |
| `BatchExpand.ValidateAssets` | renderinggen/internal/batch/batch.go:153-165 | Accepts exactly the lists of assets with a hash and a path, no path twice; otherwise names the first fault |
| `BatchExpand.Expand` | renderinggen/internal/batch/batch.go:168-204 | Accepts exactly the good manifests and gives each entry, in order, its job with an id of its own; otherwise names the first fault |
| `BatchExpand.GoodHasNoFault` | renderinggen/internal/batch/batch.go:168-204 | No fault fits a manifest that is accepted |
| `BatchExpand.ReplayKeepsKey` | renderinggen/internal/batch/batch.go:112-134 | An entry submitted again with its assets in any order gets the same id and key |
| `BatchExpand.EditedPlanChangesKey` | renderinggen/internal/batch/batch.go:112-115 | Under the same ids, whatever they are, an edited plan gets a new key with any assets, unless the hash clashes on these very jobs |
| `BatchExpand.EditChangesKey` | renderinggen/internal/batch/batch.go:112-134 | Two entries without separators in their fields that differ in any respect get different keys, unless the hash clashes on these very jobs |
| `BatchLanguages.ExpandMultilingual` | renderinggen/internal/batch/batch.go:213-273 | Accepts exactly the good manifests; the base job comes first, then one overlay job per language naming it as parent, all ids different; otherwise names the first fault |
| `BatchLanguages.LanguageAssets` | renderinggen/internal/batch/batch.go:280-307 | Fails exactly on bad assets or a voiceover that contradicts one at its path, and says which |
| `BatchLanguages.NoAudioIsLost` | renderinggen/internal/batch/batch.go:275-307 | Every declared asset stays, in order, except that the voiceover stands at its own path, and the list is valid |
| `BatchLanguages.LanguageIdsAreDistinct` | renderinggen/internal/batch/batch.go:229-270 | The ids of the base job and all overlay jobs are different |
| `BatchLanguages.LanguageJobsAre` | renderinggen/internal/batch/batch.go:229-270 | The ids, parents and kinds of the base job and the overlay jobs |
| `IpcFrame.EncodeRequest` | renderinggen/internal/chronon/ipc.go:440-447 | Fills a new buffer with the frame: magic, command and length in big-endian order, then the payload |
| `IpcFrame.Connection.ReadReply` | renderinggen/internal/chronon/ipc.go:450-468 | Reads one reply, or fails as specified, and consumes exactly the specified bytes |
| `IpcFrame.RoundTripIff` | renderinggen/internal/chronon/ipc.go:440-468 | A frame followed by anything is read back with nothing more consumed, exactly when its payload is within 64 MiB |
| `IpcFrame.WireLayout` | renderinggen/internal/chronon/ipc.go:440-447 | The bytes on the wire: "CHN3", the command and the length with the first byte highest, then the payload |
| `IpcFrame.FailuresAre` | renderinggen/internal/chronon/ipc.go:450-468 | Which streams fail and how: a short header, other magic bytes, more than 64 MiB announced, or a short payload |
| `IpcFrame.OnlyFramesAreRead` | renderinggen/internal/chronon/ipc.go:450-468 | Whatever reads as a message is the frame of that message |
| `IpcFrame.CutFrameIsShort` | renderinggen/internal/chronon/ipc.go:450-468 | A frame cut short anywhere reads as a short read, never as another message |
| `IpcFrame.StreamRoundTrip` | renderinggen/internal/chronon/ipc.go:440-468 | A sequence of frames reads as exactly the messages sent |
| `IpcFrame.StreamIsItsFrames` | renderinggen/internal/chronon/ipc.go:450-468 | A stream that reads without damage is exactly the frames of the messages read |
| `IpcFrame.StreamsAreUnique` | renderinggen/internal/chronon/ipc.go:440-468 | Two different lists of messages never make the same stream |

## Left out

- Job storage: claim, lease, retry, requeue and cancel in the repositories; only the atomic claim is used, as one step, so a job handed out never becomes claimable again here.
- `WaitState`: it never forgets its channel, so the no-leak law does not hold of it; in `LongPoll` it appears only as another party that parks.
- LongPoll.RepollIsBounded: time passes only while every call is blocked in its select or waiting for the store, so the delay of the Go scheduler is not counted; so it is for `LongPoll.NoStall`.
- LaneScheduler.LanesStayBalanced: claims nothing once a render has given its counter back, since a lane that drains during a sweep leaves that sweep stale; assumes fewer than 2^63 - 1 calls.
- LaneScheduler.NoWaitInsideALane: the same two conditions; `LaneScheduler.SweepEndsWithALane` needs only the number of calls.
- LaneRenderer.Renderer.ClaimLane: one call without contention; contended claims are the steps of `LaneScheduler`.
- `SerializedRenderer`'s idle timing and the active count of the outermost limit.
- SpreadAcrossSockets: validation of socket paths.
- The splitter on malformed UTF-8: a script is a sequence of code points, and white space is exactly Go's `unicode.IsSpace`.
- Agreement of the splitter with PostgreSQL itself: double-quoted identifiers and the server's own tag grammar.
- Disk faults, crashes and syncing in the object store, operations interleaved on one disk session, object trees deeper than two levels, modification times, and the memory adapter's own verify and scan.
- StoreAdapters.DiskStore.PutReader: that the temporary name is fresh is an assumption about `os.CreateTemp`; so it is for `StoreAdapters.DiskStore.Write`.
- StoreScan.Scan: the list of files the walk visits is a parameter, whose completeness is the condition for what is said of the tree; no file disappears during the scan.
- LedgerMigration: two workers that open one ledger file at the same time, row contents, and failures of SQLite other than a missing table or a duplicate column.
- Timeline.BuildTimeline: exact arithmetic instead of float64, unbounded integers instead of int64, and only the fields that decide windows; item ids, assets and canvas size are copied through in the code.
- BatchExpand.Expand: JSON validity of a plan is a parameter; so it is for `BatchLanguages.ExpandMultilingual`.
- BatchIdentity.ContentIdentifiesJob: that one JSON object continues into another only by white space is an assumption; so it is for `BatchIdentity.PlanIsIdentified` and `BatchAssetLines.JobIsIdentified`.
- IpcFrame.Connection.ReadReply: a connection is the bytes that will arrive before it closes; deadlines and partial writes are not modelled.
- The command-line arguments built from a valid render request, lease renewal, worker liveness, progress tracking, overlay geometry and date animation.
- HTTP handlers, clients, authentication, metrics, configuration, publication to Drive, and starting and reaping of processes.
