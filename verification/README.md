# Mortar, modelled and proved

A Dafny model of the parts of Mortar whose comments state a guarantee, and proofs of those
guarantees: over every run of a protocol, every input of an algorithm, or every archive a
writer accepts. Where a guarantee holds only within a bound, the bound is stated and a
lemma shows what happens outside it.

`dafny verify dfyconfig.toml` checks everything.

## What is here

- **Idempotency** (`Idempotency`, `IdempotencyProtocol`, `StableJson`): the row and its
  statements, the claim that joins each commit, every interleaving of requests carrying
  one key, and the text a payload is fingerprinted by.
- **Transactions** (`Transactions`): savepoints, callbacks per level, participants in the
  commit, over any tree of nested work, against the leaves whose savepoints were released.
- **Archives** (`Crc32`, `ZipFormat`, `ZipPaths`, `Zip`, `ZipReader`): writer, reader,
  checksum and the round trip between them, over bytes with real offsets.
- **Time** (`Intervals`, `Zones`, `Months`): sets of instants as lists of spans, wall
  clocks to instants, and three ways of adding a month.
- **Realtime** (`RealtimeGaps`, `RealtimeClient`, `RealtimeServer`): what a client has
  seen, what its product is told, and what a server that keeps a bounded past sends.
- **Redis and jobs** (`RedisLock`, `SchedulerProtocol`, `Scheduler`, `Scanner`,
  `RateLimit`): locks, one run per interval across replicas, scans that miss nothing and
  dispatch once, and a sliding window.
- **Money and quantities** (`Allocation`, `Rounding`, `Rates`, `UnitTables`, `Plans`).
- **Sign-in** (`Totp`, `SecondFactor`), **printing** (`Wrapping`), **metrics**
  (`Histograms`) and **suppressions** (`Suppressions`).

A class stands for an object whose methods change its fields, and a method with a loop for
a loop; each is proved against a function, or against the property itself, and the
guarantees are lemmas about that. A protocol is a state, its steps and what every step
keeps; a Lua script or a locked transaction is one step. The library's sort is an insertion
into a sorted list.

## What is assumed

- One clock that does not go back. A key set for so many milliseconds lives exactly so
  long; Redis lets one live to the end of its last millisecond.
- Numbers are exact: quotas, factors and unit prices are reals, money and instants are
  integers; the doubles of allocation and the 34 digits of `decimal.js` are not modelled.
- Strings are Unicode scalar values, so lengths count those and not UTF-16 units, and no
  name is unencodable.
- Hashes are injective; UTF-8 and DEFLATE are pairs of functions that undo each other.
- A handler's transactions end before the handler does.
- The idempotency guarantee asks that each claim's first writing commit falls within the
  lock timeout and before the claim expires.
- A zone is a whole number of minutes ahead at each instant, at most half a day, and
  changes at most once in the day probed.
- The rate limiter's bound asks that the script draws different numbers for any two
  requests of one millisecond, unless none come in one or the limit takes two of no cost.

## Where the code differs from its words

- A content of exactly 0xffffffff bytes that deflates is written and then refused as ZIP64
  (`packages/files/src/zip.ts:158`, `packages/files/src/zip.ts:233`).
- A script's generator starts alike at every call, so requests of one millisecond are told
  apart by nothing: those the limit takes two of are admitted without end
  (`packages/redis/src/rate-limit.ts:44`). Where it takes two of no cost, nothing is lost.
- A refusal with nothing in the window, which is one of more than the limit, answers the
  window's milliseconds as seconds (`packages/redis/src/rate-limit.ts:36`).
- Waiting as told is enough for one unit more than what was left, and for more than that
  only if the window is no longer than a second (`packages/redis/src/rate-limit.ts:38`).
- A writing commit after a request's first is not kept from falling after its key expired,
  while another's lasts (`packages/idempotency/src/claim-in-flight.ts:32`).
- A channel that has begun again answers a client further along with a restart backwards;
  numbers heard before it come again (`packages/realtime/src/server/resume.ts:52-57`).
- A lock's time counts from its taking: a run that began late under it may be joined by
  another though it is shorter (`packages/jobs/src/scheduler.ts:99-112`).
- Inverting a rate twice loses digits of rates above 1 that the check of
  `InvertTwiceIff` finds, 4.9772 among them (`packages/money/src/rates.ts:121-133`).
- Bands whose ceilings do not rise from what is included charge too many units
  (`packages/billing/src/plans.ts:78-83`); which ceilings do is stated exactly.
- A dedupe memory shorter than the window is accepted, and dispatches twice
  (`packages/jobs/src/scanner.ts:105-110`); one as long is enough only for scans that claim
  at once.
- Names that run into one another share a key: a scanner `a:b` and a scanner `a` whose
  item's key begins with `b:` (`packages/jobs/src/scanner.ts:198-200`), a task named as
  another's interval claim (`packages/jobs/src/scheduler.ts:101-106`).
- A base unit said to be one of another unit is accepted whatever that unit is worth
  (`packages/quantity/src/table.ts:95-105`).
- Wrapping text to less than a character, as a heading on paper one character wide asks,
  calls itself until the stack is full (`packages/printing/src/escpos.ts:81`).

## Model

| member | source | states |
|---|---|---|
| IdempotencyRows.IdempotencyService.Begin | packages/idempotency/src/service.ts:102-177 | A key is claimed exactly when it has no row, an expired one or one abandoned past the lock timeout; otherwise nothing changes, and another payload is refused, a completed row answers its stored status and body, and one in progress is refused. |
| IdempotencyRows.IdempotencyService.MarkDone | packages/idempotency/src/service.ts:186-196 | Only the row of that id still in progress is completed, with no body; how many rows that was is not looked at. |
| IdempotencyRows.IdempotencyService.Complete | packages/idempotency/src/service.ts:204-221 | The row of that id, whatever its status, carries the response. |
| IdempotencyRows.IdempotencyService.Release | packages/idempotency/src/service.ts:230-238 | Exactly the row of that id still in progress goes. |
| IdempotencyRows.IdempotencyService.PurgeExpired | packages/idempotency/src/service.ts:241-249 | Exactly the rows that expired before the moment go, and their number is answered. |
| IdempotencyRows.ClaimInFlight.Participant | packages/idempotency/src/claim-in-flight.ts:31-43 | A joining transaction marks the key unless the claim is settled or done or nothing was written. |
| IdempotencyRows.ClaimInFlight.Succeeded | packages/idempotency/src/claim-in-flight.ts:50-57 | A response that cannot be stored fails the request only if no commit stands for the work. |
| IdempotencyRows.ClaimInFlight.Failed | packages/idempotency/src/claim-in-flight.ts:65-69 | A failed handler releases the key only if nothing was committed, and never fails on the release itself. |
| IdempotencyProtocol.StepKeeps | packages/idempotency/src/claim-in-flight.ts:31-69 | Every step of every interleaving (claims, transactions, commits whose acknowledgement is lost, failures, crashes, purges), each claim's first writing commit in time, keeps: who owns the row, who holds its lock, and when a claim may have been lost. |
| IdempotencyProtocol.AtMostOneRequestCommits | packages/idempotency/src/service.ts:102-238 | In every run whose requests' first writing commits are in time, a request first commits after another only once that one's key has expired, whatever commits come after the first. |
| IdempotencyProtocol.NoCommitBeforeAnothersExpiry | packages/idempotency/src/service.ts:102-238 | If every writing commit is in time, not only each request's first, none at all falls before another committed request's key has expired. |
| IdempotencyProtocol.RepeatFallsBeforeAnothersExpiry | packages/idempotency/src/claim-in-flight.ts:31-43 | For every timing, a run with all first commits in time in which a request commits again after its key expired, while the key of the request that took over lasts. |
| IdempotencyProtocol.CommittedWorkIsReplayed | packages/idempotency/src/service.ts:143-177 | After a commit and until the key expires, an identical request replays and a different one is refused; none proceeds. |
| IdempotencyProtocol.StoredResponseIsReplayed | packages/idempotency/src/service.ts:143-221 | After the response of the request whose row stands was stored, through any timely steps and until the key expires, every identical request is answered that very status and body. |
| IdempotencyProtocol.MarkIsReplayed | packages/idempotency/src/service.ts:143-196 | Where only the mark of a commit came, it is answered the mark's status and no body. |
| IdempotencyProtocol.FailureFreesTheKey | packages/idempotency/src/claim-in-flight.ts:65-69 | A handler that failed with nothing committed leaves the key to whoever asks next. |
| IdempotencyProtocol.FailureAfterCommitKeepsTheKey | packages/idempotency/src/claim-in-flight.ts:65-69 | A handler that failed after a commit, acknowledged or not, leaves the key spent. |
| IdempotencyProtocol.TimelyCommitStands | packages/idempotency/src/claim-in-flight.ts:31-43 | A writing commit before its claim expires, and within the lock timeout if it is the first, finds the row its own claim's and leaves it completed. |
| IdempotencyProtocol.KeyStandsForTheWorkIff | packages/idempotency/src/service.ts:186-196 | Committing joined work leaves the key standing for it if and only if the row was still the claimant's; the work commits either way. |
| IdempotencyProtocol.SlowClaimantRepeatsTheWork | packages/idempotency/src/service.ts:170-195 | For every timing, a run in which a claimant slower than the lock timeout, or than the expiry if that comes no later, and the request that took over both commit while that one's key lasts, and the claimant's own too if there is room between timeout and expiry: neither half of the bound can be dropped. |
| StableJson.SameTextIffSame | packages/idempotency/src/service.ts:47-65 | Two payloads have the same text to fingerprint if and only if they are the same but for the order of keys. |
| StableJson.TextsEnd | packages/idempotency/src/service.ts:47-65 | Texts of values are told apart even when something follows them: same text and rest means same value and same rest. |
| StableJson.NormalSame | packages/idempotency/src/service.ts:61-64 | Sorting every object's keys makes two values equal exactly when they differed in key order alone. |
| Transactions.LeftAreSurvivors | packages/database/src/transaction.ts:178-207 | What a level hands on is exactly the reached writes and registrations all of whose savepoints were released; under a rolled-back one, nothing. |
| Transactions.RunInSavepoint | packages/database/src/transaction.ts:178-207 | An inner body keeps its writes and hands its callbacks up if it ends well, and leaves neither if it throws, even when savepoint names coincide. |
| Transactions.RunBody | packages/database/src/transaction.ts:122-207 | Work stops at the first error; what it leaves is what its actions leave, over any tree of nested transactions caught or not. |
| Transactions.RunParticipants | packages/database/src/transaction.ts:149-155 | Participants run in order inside the transaction as its last work; one that throws stops the rest. |
| Transactions.RunCallbacks | packages/database/src/transaction.ts:157-165 | Callbacks run one after another up to the first that throws. |
| Transactions.RunInTransaction | packages/database/src/transaction.ts:122-176 | Committed rows and callbacks run are exactly those of leaves whose every savepoint was released: rows if nothing threw and the commit took effect, callbacks only if it was acknowledged, once each, in order, after the participants'. |
| Transactions.RunStopsAtThrow | packages/database/src/transaction.ts:157-165 | The callbacks run are a prefix of those registered, ended only by one that throws. |
| Transactions.ThrowsIff | packages/database/src/transaction.ts:122-207 | A body throws if and only if some error in it is caught by nothing between the two. |
| Transactions.KeptIsWhatStands | packages/database/src/transaction.ts:122-207 | By place in the tree: the rows committed, and the callbacks left to run, are those of exactly the writes and registrations no error undoes, in the order of the tree; an error undoes all that is in the body it is thrown in and in every body it gets out into before it is caught. |
| Transactions.ThensInOrder | packages/database/src/transaction.ts:149-165 | What runs for the participants is each one's own callback, if it gave one, in their order. |
| Transactions.ParticipantsGoOn | packages/database/src/transaction.ts:149-155 | The participants' bodies go on from the work, the first one first. |
| Crc32.BuildTable | packages/files/src/zip.ts:351-363 | Each table entry is its index shifted eight times through the polynomial register. |
| Crc32.TableStep | packages/files/src/zip.ts:365-369 | One table look-up does what feeding the byte's eight bits one by one does. |
| Crc32.Compute | packages/files/src/zip.ts:365-369 | The table-driven loop computes the bit-by-bit CRC-32 of section 4.4.7 of PKWARE's APPNOTE, for every input. |
| Crc32.ChecksumFits | packages/files/src/zip.ts:365-369 | The checksum fits its 32-bit field. |
| Crc32.PolynomialIs | packages/files/src/zip.ts:351-369 | The constant is the standard's generator polynomial, highest term in the lowest bit, and the preset is 32 ones. |
| ZipPaths.NormalisedIsSafe | packages/files/src/zip.ts:311-326 | A normalised path is made of segments that are not empty, `.`, `..`, padded or holding a separator, and normalising it again changes nothing. |
| ZipPaths.NormalisedFromText | packages/files/src/zip.ts:311-326 | From the text alone: cut at every slash of either kind and trimmed, the pieces that are segments are kept, all of them and in their order, a slash between; a path with none is refused. |
| ZipPaths.JoinInPlaces | packages/files/src/zip.ts:311-326 | Joining puts the pieces one after another with one slash between. |
| Zip.DosTimestamp | packages/files/src/zip.ts:335-343 | The time always fits its field and the date does exactly before 2108. |
| Zip.TimestampReadsBack | packages/files/src/zip.ts:335-343 | Every field of a moment is read back from the two numbers, the seconds to the even one below; before 1980 it is that year's first day. |
| Zip.PlannedAsAsked | packages/files/src/zip.ts:65-108 | An entry keeps its content, deflated only where that is shorter and not asked otherwise, under its normalised path, with its own moment before the archive's. |
| Zip.LocalRecord | packages/files/src/zip.ts:110-126 | The local header holds each field of section 4.3.7 at its offset, then name and body. |
| Zip.CentralRecord | packages/files/src/zip.ts:128-155 | The central header holds each field of section 4.3.12 at its offset, then the name. |
| Zip.CreateZip | packages/files/src/zip.ts:53-185 | An archive is made if and only if there is an entry, every path is usable and none repeated, and every number fits its field; its bytes are then laid out as the format says. Otherwise the refusal is the one the first failing entry, or the directory, calls for. |
| ZipFormat.RecordsLie | packages/files/src/zip.ts:110-184 | Every recorded offset lands on its header, and every central header lies where the directory has it. |
| ZipFormat.EndLies | packages/files/src/zip.ts:172-184 | The archive ends with its end record and is as long as its parts. |
| ZipReader.FindEndOfCentralDirectory | packages/files/src/zip.ts:285-298 | The last end signature within the longest comment is found, and a split archive refused. |
| ZipReader.ReadEntry | packages/files/src/zip.ts:213-273 | An entry is read or refused as its headers, content and checksum say. |
| ZipReader.ReadZip | packages/files/src/zip.ts:203-275 | Any bytes at all are read to a map or refused, entry by entry in directory order. |
| ZipReader.WhatIsReadIsVouched | packages/files/src/zip.ts:203-298 | Of any bytes that are read: from the last end signature, so many headers as it says, from where it says, each vouch for one file by path, size and checksum, and there are no others. |
| ZipReader.EntryReads | packages/files/src/zip.ts:213-273 | An entry written reads back as its path and content, or is taken for ZIP64 exactly when the content is 0xffffffff bytes. |
| ZipReader.DirectoryReads | packages/files/src/zip.ts:212-275 | Reading the directory from any entry on yields the map of all paths to contents. |
| ZipReader.RoundTrip | packages/files/src/zip.ts:53-275 | For every list the writer accepts the reader returns exactly the map from normalised path to content, if and only if no content is 0xffffffff bytes long. |
| ZipReader.MarkerSizeIsRefused | packages/files/src/zip.ts:154-233 | A content of 0xffffffff bytes is accepted wherever it deflates to what fits, and reading the archive back is refused as ZIP64. |
| Intervals.CanonicalIsUnique | packages/clock/src/interval.ts:54-80 | There is one sorted, non-touching list for each set of instants. |
| Intervals.Normalise | packages/clock/src/interval.ts:63-80 | The result is in that form and covers exactly the instants covered. |
| Intervals.IntersectAll | packages/clock/src/interval.ts:83-99 | The result is in that form and covers exactly the instants both cover. |
| Intervals.Meet | packages/clock/src/interval.ts:88-98 | The two-pointer pass over canonical lists yields their intersection, canonical again. |
| Intervals.Subtract | packages/clock/src/interval.ts:107-127 | The result is in that form and covers exactly the instants the first covers and the second does not. |
| Intervals.PushFree | packages/clock/src/interval.ts:111-124 | The inner pass adds exactly the free instants of one span, in order and non-touching. |
| Intervals.Clamp | packages/clock/src/interval.ts:130-131 | Exactly the instants inside the bounds remain. |
| Intervals.TotalMinutes | packages/clock/src/interval.ts:134-135 | A minute for every 60 000 instants covered, overlaps once. |
| Intervals.TotalIsMeasure | packages/clock/src/interval.ts:134-135 | Span lengths add up to the number of instants covered. |
| Intervals.TimeIsConserved | packages/clock/src/interval.ts:83-135 | The time of a list is the time it shares with another plus the time left without it. |
| RealtimeGaps.ChannelCursor.Offer | packages/realtime/src/gaps.ts:58-87 | By number: from nowhere or 0 an event is next; past a positive position the number after it is next, a lower one was seen, and a higher one is a jump that leaves the cursor where it is. |
| RealtimeGaps.OfferedByNumber | packages/realtime/src/client.ts:193-198 | Past a positive position the next number is delivered, an earlier one changes nothing, and a later one leaves the client where it stands and tells the product to fetch the channel afresh. |
| RealtimeGaps.NoJumpIsSilent | packages/realtime/src/client.ts:177-367 | Over a whole run: if an event came that is numbered beyond where the client ends up, the product was told to fetch the channel afresh, or that the client was moved back on it. |
| RealtimeGaps.Missing | packages/realtime/src/gaps.ts:97-109 | Exactly the numbers after `from`, below the highest, that no event has, in order. |
| RealtimeGaps.InputStaysIff | packages/realtime/src/client.ts:177-213 | Every frame and poll keeps the record of a channel unbroken if and only if it does not move the client backwards on it. |
| RealtimeGaps.RunStaysIff | packages/realtime/src/client.ts:177-367 | A whole run leaves the record unbroken if and only if nothing in it moves the client backwards. |
| RealtimeGaps.DeliveryIsComplete | packages/realtime/src/client.ts:177-367 | Under any network and server, in any stretch of what the product is told that begins at a positive position and holds no announced restart backwards: numbers delivered strictly increase, and every number up to the position was delivered exactly once or stepped over by an announced restart. |
| RealtimeGaps.DeliveredAreLogged | packages/realtime/src/client.ts:193-198 | What is delivered under a number is the event logged under it. |
| RealtimeGaps.StaleGapRepeats | packages/realtime/src/client.ts:200-208 | A gap frame naming an earlier position makes an event be taken twice. |
| RealtimeGaps.FromNothingUnbrokenIff | packages/realtime/src/gaps.ts:68-71 | From 0 the record is unbroken if and only if the first event to arrive is the run's first; no jump is told otherwise. |
| RealtimeClient.RealtimeClient.Receive | packages/realtime/src/client.ts:177-225 | Each frame moves cursor and record as specified, and an event numbered beyond the next is asked for again over the socket from where the client stands; no other event is. |
| RealtimeClient.RealtimeClient.Answered | packages/realtime/src/client.ts:313-367 | A poll's events, then gaps, then positions move cursor and record as specified. |
| RealtimeClient.RealtimeClient.Opened | packages/realtime/src/client.ts:141-155 | An opened socket ends polling, shows live and subscribes from where the client stands. |
| RealtimeClient.RealtimeClient.Closed | packages/realtime/src/client.ts:168-174 | A started client whose socket closes is at once polling, or offline with nowhere to poll, with a next attempt set. |
| RealtimeClient.RealtimeClient.Retry | packages/realtime/src/client.ts:284-286 | A retry opens a socket only when there is none, and a page that polls goes on showing that it does. |
| RealtimeClient.RealtimeClient.FallBack | packages/realtime/src/client.ts:274-318 | Polling starts at once and one retry is set, a wait away. |
| RealtimeClient.WaitsGrowToTheLongest | packages/realtime/src/client.ts:274-287 | Waits start at a second, never shrink while attempts fail, are thirty seconds from the sixth, and never longer. |
| RealtimeClient.WaitsDouble | packages/realtime/src/client.ts:274-287 | The first wait is a second and each is twice the one before until that is more than thirty, which is also what a superseded client waits. |
| RealtimeServer.MemoryBacklog.Append | packages/realtime/src/server/backlog.ts:59-72 | The event takes the channel's next number and is stored, the oldest beyond the bound dropped, other channels untouched. |
| RealtimeServer.MemoryBacklog.Since | packages/realtime/src/server/backlog.ts:74-76 | The held events after a number, oldest first. |
| RealtimeServer.MemoryBacklog.HoldsARun | packages/realtime/src/server/backlog.ts:59-83 | What is held always runs without a hole from the oldest to the latest. |
| RealtimeServer.PollCatchesUp | packages/realtime/src/server/resume.ts:31-61 | After one poll the client stands where the channel does, with every missed event delivered in order, or a restart announced exactly when its position is beyond the channel or before what is held. |
| RealtimeServer.SubscribeCatchesUp | packages/realtime/src/nestjs/socket/index.ts:349-382 | The replay before the welcome over a socket does the same. |
| RealtimeServer.SendsBackIff | packages/realtime/src/server/resume.ts:26-57 | What the server sends moves the client backwards if and only if the client stands further along than the channel. |
| RedisLock.Redis.SetIfAbsent | packages/redis/src/lock.ts:72-73 | The key is taken exactly when nobody's is alive. |
| RedisLock.Redis.ReleaseScript | packages/redis/src/lock.ts:29-34 | The key goes exactly when it is alive and still this token's. |
| RedisLock.Redis.ExtendScript | packages/redis/src/lock.ts:37-42 | The key lives on exactly when it is alive and still this token's. |
| RedisLock.RedisLocks.Acquire | packages/redis/src/lock.ts:65-77 | Acquired, the key is this token's for its time from then; refused, the wait has passed and somebody's key was alive; the answer comes no later past the deadline than one timer is late; without a wait it is tried once. |
| SchedulerProtocol.StepKeeps | packages/jobs/src/scheduler.ts:96-122 | Every step of any number of replicas (ticks, lost replies, crashes, late releases) keeps holds apart, the lock its last taker's, and intervals claimed. |
| SchedulerProtocol.SameIntervalRunsAreFarApart | packages/jobs/src/scheduler.ts:104-108 | Unconditionally, two runs of one interval start at least two intervals apart. |
| SchedulerProtocol.OncePerInterval | packages/jobs/src/scheduler.ts:96-111 | An interval runs once if each of its claims reaches Redis less than an interval after it ended. |
| SchedulerProtocol.LateClaimRunsAgain | packages/jobs/src/scheduler.ts:104-108 | The bound is tight: for every task and interval, a claim one interval after it ended runs it again. |
| SchedulerProtocol.RunsDoNotOverlap | packages/redis/src/lock.ts:29-113 | Of two runs, if the one that locked first ends before its lock would expire, it ended before the other started, however late locks are released. |
| SchedulerProtocol.JoinableIff | packages/redis/src/lock.ts:67-77 | While the last tick to take the lock is at work, another may take it if and only if the lock's time since its taking has passed. |
| SchedulerProtocol.TickRunsIff | packages/jobs/src/scheduler.ts:96-122 | After anything that can happen, a tick that nothing stops runs its interval if and only if whoever took the lock last gave it back, or its time is up, and nobody claimed the interval less than two intervals ago. |
| SchedulerProtocol.LockFreeIff | packages/redis/src/lock.ts:67-113 | The lock is free exactly when its last taker gave it back or took it long enough ago. |
| SchedulerProtocol.ClaimFreeIff | packages/jobs/src/scheduler.ts:104-108 | An interval can be claimed exactly when no step of the run claimed it less than two intervals ago. |
| SchedulerProtocol.SlowClaimOverlaps | packages/jobs/src/scheduler.ts:99-112 | The time counts from the taking of the lock: for every task with time to its lock, a run shorter than the lock is joined by another when its claim was slow. |
| SchedulerProtocol.TicksIntervalByInterval | packages/jobs/src/scheduler.ts:139-148 | The timer is set after now, at most an interval ahead and for a whole number of intervals from the epoch; its tick falls in the very next interval if and only if it is less than an interval late; one that is early is set for the same start again. |
| Scheduler.TaskScheduler.Register | packages/jobs/src/scheduler.ts:69-153 | Refused, changing nothing, for a name registered or an interval below 1; otherwise armed for the next start, with the default lock time of three intervals, and run at once only if asked. |
| Scheduler.TaskScheduler.Fire | packages/jobs/src/scheduler.ts:139-146 | A firing timer is set for the next start before its run begins, and the run is kept. |
| Scheduler.TaskScheduler.Stop | packages/jobs/src/scheduler.ts:188-195 | The timers of the task, or of all, go, and exactly the runs under way are waited for. |
| Scheduler.KeysTellTasks | packages/jobs/src/scheduler.ts:101-108 | Tasks have locks of their own and each of their intervals a claim of its own; a task's lock is another's claim exactly if it is named so. |
| Scanner.NothingIsMissedIff | packages/jobs/src/scanner.ts:105-110 | From the first scan to the end of the last window every moment is seen, if and only if no two successive scans are further apart than a window. |
| Scanner.ScanItem | packages/jobs/src/scanner.ts:151-176 | An item is skipped, and nothing changes, if and only if a claim of that same item is alive; otherwise it is claimed and dispatched; after a success the keys are as the dispatch left them, and after a failure the claim goes if it is still this one's. No other item's claim is taken or freed. |
| Scanner.ClaimsTellItems | packages/jobs/src/scanner.ts:153-200 | Two items of one scanner have one claim if and only if they are the same. |
| Scanner.ClaimsTellScanners | packages/jobs/src/scanner.ts:198-200 | Items of two scanners share a claim if and only if both are the same, or one scanner's name goes on, past a colon, with what the other item's key begins with. |
| Scanner.OtherItemsKept | packages/jobs/src/scanner.ts:151-176 | What is done for one item leaves every other item claimed or not, as it was. |
| Scanner.PerformScan | packages/jobs/src/scanner.ts:135-196 | Items are handled in order, each skipped only if its own claim is alive as its turn comes, claimed before it is dispatched, and gone as its dispatch does; the counters count the outcomes, and found is dispatched plus skipped plus failed; a release that throws ends the pass. |
| Scanner.DispatchedOnce | packages/jobs/src/scanner.ts:151-176 | Over every run, of two claims of one key the earlier one failed, if the later came no later after its scan's `now` than the memory outlasts the window. |
| Scanner.SlowClaimDispatchesAgain | packages/jobs/src/scanner.ts:92-156 | That bound is tight for every window and memory, including a memory shorter than the window, which the constructor lets pass. |
| Zones.RealAreAll | packages/clock/src/zone.ts:112-120 | With offsets within half a day and one change in the probed day, the candidates that read back are all the instants that do. |
| Zones.ResolutionCounts | packages/clock/src/zone.ts:122-133 | Gap, exact and ambiguous mean that none, one and more instants read the wall clock, and the first or last of them is answered as preferred. |
| Zones.GapShiftsForward | packages/clock/src/zone.ts:122-124 | In a gap the answer reads the wall clock shifted forward by exactly the time lost. |
| Zones.AllFoundIff | packages/clock/src/zone.ts:103-120 | For a zone that changes once, all instants are found if and only if neither offset reads the wall clock on its own side of a change its probes do not reach. |
| Zones.ThirteenHoursIsTooFar | packages/clock/src/zone.ts:112-128 | Auckland's repeated hour, thirteen hours ahead, is reported exact although two instants read it. |
| Zones.TransitionIsMeasured | packages/clock/src/zone.ts:169-174 | A day is found to gain or lose what the clocks moved by if and only if the change is over, on both clocks, within it; otherwise zero. |
| Months.AddMonthsIsMonthsLaterIff | packages/clock/src/zone.ts:203-240 | Clamping by arithmetic gives the day meant, so many months on, the same day or the month's last, if and only if that is not 29 February of year 0, which `Date.UTC` takes for 1900. |
| Months.NextPeriodEndIsMonthsLater | packages/billing/src/subscriptions.ts:82-100 | Clamping by day zero of the month after gives the same day, the time of day kept. |
| Months.ExpiryIsMonthsLater | packages/vouchers/src/ledger.ts:170-189 | Rolling over and pulling back gives the same day, the time of day kept, for any positive number of months. |
| Months.RollsOverOnce | packages/vouchers/src/ledger.ts:176-186 | A day past a month's end rolls into the next month and no further. |
| Months.AgreeIffYearIsFull | packages/billing/src/subscriptions.ts:82-100 | The two adders of instants agree if and only if the year they land in is 100 or later, which `Date.UTC` does not mistake. |
| Allocation.Allocate | packages/money/src/allocate.ts:20-52 | Refused exactly for no ratios, a negative one or a total of zero; otherwise the shares are the largest-remainder allocation. |
| Allocation.TopUp | packages/money/src/allocate.ts:42-49 | The remainder loop gives one unit to each of the first slots, never once round and no slot twice. |
| Allocation.SortSlots | packages/money/src/allocate.ts:38-40 | Slots come by descending fraction, equal ones by position, and lose none of the fractions' sum. |
| Allocation.SharesAddUp | packages/money/src/allocate.ts:20-52 | Shares add up to the amount. |
| Allocation.WithinOneOfQuota | packages/money/src/allocate.ts:32-49 | Each share is less than a unit from its exact quota, and a zero weight gets nothing. |
| Allocation.MoreWeightGetsNoLess | packages/money/src/allocate.ts:32-49 | A larger weight never gets less, nor the earlier of equal ones, and equal ones differ by at most a unit. |
| Allocation.SizesAreUnique | packages/money/src/allocate.ts:37-49 | There is one such allocation. |
| Allocation.NegationNegates | packages/money/src/allocate.ts:29-51 | Negating the amount negates every share. |
| Allocation.Split | packages/money/src/allocate.ts:58-63 | Equal parts add up to the amount, never grow along the list and differ by at most a unit. |
| Rounding.RoundToInteger | packages/money/src/rounding.ts:38-69 | The floor-based rounder does what each mode means. |
| Rounding.DivideRoundedRounds | packages/money/src/rates.ts:304-356 | The quotient-and-remainder rounder does what each mode means, for every sign of numerator and denominator. |
| Rounding.RoundersAgree | packages/money/src/rates.ts:304-356 | The two rounders agree on every fraction in all seven modes. |
| Rounding.RoundingIsMonotone | packages/money/src/rounding.ts:38-69 | What the modes mean keeps order, so a number rounds to one integer. |
| Rates.RateReadsBack | packages/money/src/rates.ts:101-107 | What a rate is written as is parsed back to the same scaled rate. |
| Rates.ParsedIs | packages/money/src/rates.ts:245-266 | What any text is read as: its digits before the point whole, those after it in tenths and so on, at most ten of them; or which refusal. |
| Rates.InvertibleIff | packages/money/src/rates.ts:121-133 | A rate has an inverse that can be held if and only if it is above 0.0000011102. |
| Rates.InvertTwice | packages/money/src/rates.ts:121-133 | Inverting twice lands within r/(2i) + 1/2 of the rate, and on it exactly whenever the inverse is larger, as it is for every rate below 1. |
| Rates.InvertTwiceIff | packages/money/src/rates.ts:121-133 | Of a rate that has an inverse: inverting that gives the rate, not another or none, if and only if a check of the rate alone holds: what dividing one by it leaves, twice over, is less than the quotient, or twice what it lacks no more than the quotient and one. |
| Rates.InvertingLoses | packages/money/src/rates.ts:109-120 | The published rate 4.9772 does not come back. |
| Rates.ConvertIsClose | packages/money/src/rates.ts:151-167 | Against the exact amount in major units of both currencies a conversion is within a minor unit, half a one in the nearest modes. |
| Rates.ConvertIsExactlyRounded | packages/money/src/rates.ts:151-167 | A conversion is the amount in major units times the rate, in minor units of the other currency, rounded as the mode means; refused for another currency or out of range. |
| Rates.ConvertIsMonotone | packages/money/src/rates.ts:151-167 | More never converts to less. |
| Rates.RateOn | packages/money/src/rates.ts:215-235 | The latest rate on or before the day for the pair, the first listed of a day's, or none if none applies. |
| UnitTables.Resolver.Resolve | packages/quantity/src/table.ts:109-163 | Resolution ends; a unit resolved is worth what its chain says; a refusal means it has no worth, and a cycle is reported only of a unit on one. |
| UnitTables.BuildUnitTable | packages/quantity/src/table.ts:78-178 | A table is built if and only if no code repeats, the base is not said to be other than 1, and every chain reaches the base or a positive absolute worth by positive steps. |
| UnitTables.CycleHasNone | packages/quantity/src/table.ts:113-119 | Nothing on a cycle has a worth. |
| UnitTables.EquationsHold | packages/quantity/src/table.ts:132-163 | Every factor is positive, and that of a unit defined by another is so many times that one's. |
| UnitTables.BaseEquationIff | packages/quantity/src/table.ts:95-105 | The base's own relative definition, accepted unread, holds if and only if the unit it names is worth 1. |
| UnitTables.BaseEquationFails | packages/quantity/src/table.ts:95-105 | For every positive worth but 1, a list saying the base is one of a unit of that worth is accepted, and the base's equation fails of its table. |
| UnitTables.OrderDoesNotMatter | packages/quantity/src/table.ts:165-177 | The order of the definitions changes no factor. |
| UnitTables.ConvertByAnyPath | packages/quantity/src/convert.ts:75-85 | Converting through any unit gives what converting straight gives, and converting back gives the quantity itself. |
| UnitTables.ConvertIsThroughBase | packages/quantity/src/convert.ts:34-85 | Converting is going to the base and from it. |
| UnitTables.ConvertKeepsWorth | packages/quantity/src/convert.ts:75-85 | Amount times factor is the same before and after converting; a unit not in the table is refused. |
| UnitTables.BaseKeepsWorth | packages/quantity/src/convert.ts:34-67 | In the base a quantity is its amount times its factor, and from the base what times the factor is the amount. |
| UnitTables.OneConvertsAsDefined | packages/quantity/src/convert.ts:34-85 | One of a unit defined as so many of another converts to that many of it, and one with an absolute worth to that in the base. |
| SecondFactor.SecondFactorService.Begin | packages/auth/src/services/second-factor.service.ts:128-149 | An unconfirmed enrolment, or none, gets the new secret with nothing counted or held; a confirmed one is refused and kept. |
| SecondFactor.SecondFactorService.Confirm | packages/auth/src/services/second-factor.service.ts:156-176 | An app code is accepted if and only if some step in the window has it and the first that does is later than the last accepted; that confirms the enrolment, leaves that step as the last, clears count and lock, and issues recovery codes. |
| SecondFactor.SecondFactorService.Verify | packages/auth/src/services/second-factor.service.ts:183-208 | With the lock over, an app code passes if and only if the first step in the window that has it is later than the last accepted, and a recovery code if and only if its hash is held; what passes is spent and clears count and lock, and anything else is counted. |
| SecondFactor.SecondFactorService.RenewRecoveryCodes | packages/auth/src/services/second-factor.service.ts:215-234 | An app code right as for signing in, and nothing else, replaces the recovery codes. |
| SecondFactor.SecondFactorService.Checked | packages/auth/src/services/second-factor.service.ts:286-320 | Nothing is checked while the lock lasts; a wrong code is counted and at the limit starts the lock and clears the count. |
| SecondFactor.AcceptedStepsIncrease | packages/auth/src/services/second-factor.service.ts:274-279 | Over every run without removal, accepted app codes are of strictly later time steps: each is good once (section 5.2 of RFC 6238). |
| SecondFactor.RecoveryCodesAreUsedUp | packages/auth/src/services/second-factor.service.ts:187-197 | Between two acceptances of one recovery code it was issued again. |
| SecondFactor.SoManyGuesses | packages/auth/src/services/second-factor.service.ts:298-313 | In less time than a lock lasts, with no right code among them, at most `maxFailures` wrong codes (one, if that is below one) are looked at. |
| SecondFactor.AskedSettles | packages/auth/src/services/second-factor.service.ts:156-320 | Every request with a code comes to what the codes themselves say: the windows' first matching step against the last accepted, the hashes held, the lock and the count. |
| SecondFactor.LaterStepsAreAccepted | packages/auth/src/services/second-factor.service.ts:274-279 | After any run, a code looked at whose first matching step is later than every step accepted is accepted. |
| Totp.Base32Encode | packages/auth/src/totp.ts:32-46 | The masked accumulator writes the encoding of section 6 of RFC 4648, unpadded. |
| Totp.Base32Decode | packages/auth/src/totp.ts:52-68 | The masked accumulator reads whole bytes of the characters' bits, and refuses exactly what upper-cased has a character outside the alphabet. |
| Totp.ShiftIn | packages/auth/src/totp.ts:36-61 | The 16-bit mask never loses a bit still to be written, in either loop. |
| Totp.DecodeEncode | packages/auth/src/totp.ts:32-68 | Decoding an encoding gives the bytes back, for every byte string. |
| Totp.AlphabetIs | packages/auth/src/totp.ts:15-46 | Each five bits are written as the character of section 6 of RFC 4648. |
| Totp.SeparatorsAndCaseAreForgiven | packages/auth/src/totp.ts:52-53 | White space, a dash or padding put in anywhere, and the case of any character, change nothing. |
| Totp.MatchTotpStep | packages/auth/src/totp.ts:95-112 | The first step within the window, from 0 on, whose code the text is but for its white space, or none; a text that is not so many digits matches nothing. |
| RateLimit.RedisRateLimiter.Consume | packages/redis/src/rate-limit.ts:24-48 | The script trims, counts, and refuses or admits as specified, with the wait until the oldest goes. |
| RateLimit.AnsweredByGrants | packages/redis/src/rate-limit.ts:24-48 | After any run of requests told apart: allowed if and only if what was granted in the window ending now leaves room for the whole cost; told what is left; and, refused, the whole seconds until the first grant in the window has left it, or with none the window's length. |
| RateLimit.NeverMoreThanTheLimit | packages/redis/src/rate-limit.ts:24-48 | In every span as long as the window no more is admitted than the limit, if any two requests are a millisecond apart or drew different numbers. |
| RateLimit.OneAMillisecondIsBounded | packages/redis/src/rate-limit.ts:24-48 | The same whatever is drawn, if no two requests come in one millisecond. |
| RateLimit.BoundedWhateverIsDrawnIff | packages/redis/src/rate-limit.ts:43-45 | For requests of any set of costs, mixed as they come, the bound holds at whatever times and whatever is drawn if and only if the limit takes two of none of the positive ones (or the window is empty). |
| RateLimit.ExpiryIsIrrelevant | packages/redis/src/rate-limit.ts:46-46 | The key expiring takes nothing trimming would not. |
| RateLimit.AlikeDrawsSpend | packages/redis/src/rate-limit.ts:43-45 | So many requests of one cost in one millisecond, drawing the same, are all admitted if the limit takes two of them, and otherwise the first alone, if any. |
| RateLimit.PeekChangesNothing | packages/redis/src/rate-limit.ts:96-98 | After any run, looking changes no later answer. |
| RateLimit.WaitingSufficesIff | packages/redis/src/rate-limit.ts:34-41 | A caller refused one unit who waits as told with no other traffic is admitted if and only if the limit is above zero. |
| RateLimit.WaitingIsEnoughIff | packages/redis/src/rate-limit.ts:34-41 | For every cost: with something in the window, a refused caller who waits as told with no other traffic is admitted, after any run, if and only if the cost is at most one more than what was left, or the window is no longer than a second and the limit takes the cost. |
| RateLimit.TooLongWhenNothingIsLive | packages/redis/src/rate-limit.ts:34-41 | After any run, a refusal asks for a longer wait than the window if and only if nothing is live and the window is over a millisecond. |
| RateLimit.WaitsTooLongIff | packages/redis/src/rate-limit.ts:35-40 | That can happen to a request if and only if it asks for more than the limit; then it is told the window's milliseconds as seconds. |
| Wrapping.WrapText | packages/printing/src/escpos.ts:228-280 | The loops compute the wrapping specified, paragraph by paragraph and word by word. |
| Wrapping.EndsIff | packages/printing/src/escpos.ts:228-254 | Wrapping ends if and only if the paper is at least a character wide or there is nothing to print. |
| Wrapping.EveryLineFits | packages/printing/src/escpos.ts:228-280 | No line is longer than the paper is wide. |
| Wrapping.NothingIsLost | packages/printing/src/escpos.ts:228-280 | The printed characters are those of the text, in order. |
| Wrapping.WhatFitsIsLeftAlone | packages/printing/src/escpos.ts:228-280 | Paragraphs that fit, with room beside their indents, are printed as they are. |
| Wrapping.BreaksOnlyWhereItMust | packages/printing/src/escpos.ts:228-280 | The lines come paragraph by paragraph; a paragraph's print what it prints, each keeps its indent unless that fills the paper, and none had room for the word the next begins with. |
| Plans.PriceFor | packages/billing/src/plans.ts:67-99 | The loop charges band by band, and what is past the last at the last's price. |
| Plans.BillableCovers | packages/billing/src/plans.ts:67-72 | What is billed is the fewest whole units that with what is included cover the quantity. |
| Plans.ChargeIsNearest | packages/billing/src/plans.ts:74-96 | A band's charge is within half a minor unit of the exact one, halves up. |
| Plans.ChargedUnitByUnit | packages/billing/src/plans.ts:67-99 | With whole unit prices and ceilings rising from the included quantity, the price is the base plus each further unit at its own price. |
| Plans.ChargesUnitByUnitIff | packages/billing/src/plans.ts:74-96 | Whole prices and any quantity are charged unit by unit if and only if every band but the first and last, among those no unbounded one comes before, is empty or begins at a ceiling no lower than what is included and every earlier ceiling. |
| Plans.LowCeilingMischarges | packages/billing/src/plans.ts:78-83 | Ceilings 5 and 12, then none, with ten included, charge sixteen units 12 where unit by unit they come to 16. |
| Histograms.HistogramState.Observe | packages/observability/src/metrics.ts:122-137 | An observation keeps the counts cumulative, the extremes and sum true, and the ring the latest observations. |
| Histograms.HistogramState.Observations | packages/observability/src/metrics.ts:140-144 | The last observations kept, oldest first. |
| Histograms.HistogramState.Buckets | packages/observability/src/metrics.ts:146-149 | For each bound, how many observations ever made are at or below it. |
| Histograms.RingObserved | packages/observability/src/metrics.ts:130-137 | Writing at the turning position keeps the unrolled ring the latest observations. |
| Suppressions.CommsService.RecordRefusal | packages/comms/src/comms.service.ts:619-671 | A refusal is counted, holds from the third on until ninety days of the calendar later, and never touches an unsubscribe or another address. |
| Suppressions.CommsService.Unsubscribe | packages/comms/src/comms.service.ts:680-716 | The address is held for ever, whatever was there. |
| Suppressions.CommsService.AllowAgain | packages/comms/src/comms.service.ts:719-728 | The hold goes, and no other. |
| Suppressions.UnsubscribedIsNeverWrittenTo | packages/comms/src/comms.service.ts:242-286 | After an unsubscribe, through any later refusals and until allowed again, nothing is handed to a provider for that channel, asked for there or diverted there. |
| Suppressions.HandedOverIff | packages/comms/src/comms.service.ts:242-286 | A message is handed over if and only if it is not too large, there is a provider, and nothing holds the tenant's address on the channel or the one it would be diverted to. |
| Suppressions.RefusalsHoldIff | packages/comms/src/suppression.ts:10-29 | After refusals alone an address is held if and only if there were three or more and the last was less than ninety days of the calendar ago. |

## Left out

- NestJS modules, guards, entities, migrations, transports, queues and providers: wiring, kept only as answers that may come.
- Cryptography and randomness: sealing, hashing, tokens and the HOTP codes are opaque functions or values passed in.
- Independent transactions, `onBegin` and transactions bound with `bindTransactionManager`, and savepoints taken concurrently inside one transaction.
- The interceptor's HTTP side: headers, scopes and declared statuses come as values.
- A payload field that is `undefined`, and a lone surrogate in a text, when a fingerprint is taken.
- Several sockets of one realtime client at once, as after stopping and starting before the old socket's close is heard; the heartbeat's own timing.
- The Redis backlog's script, the order of several channels' events in one poll, and the authorisation of channels.
- The error a broken zone, date or rate text raises beyond its kind; a rate given as a number rather than a text.
- Currency registration, formatting, tax, and `Money`'s own arithmetic.
- The rest of the vouchers, billing, comms, printing and metrics packages, which would add only easy members: balances, dunning stages, history and erasure, ticket encoding, registries.
- The second factor's removal, resealing under a new key, and its status.
- Hour, minute and second of a `Date` in a local zone: a DOS timestamp takes its fields as given, and ninety days on is whatever the calendar says.
- RedisLock.RedisLocks.Acquire: other clients may do anything between attempts, so what holds then is said only of the moment of the answer; a `SET` takes no time.
- RealtimeClient.RealtimeClient.Receive: frames that do not parse are dropped before it.
- Scanner.PerformScan: the metrics and durations of a scan are not modelled, nor a claim whose `SET` throws.
