# Verification of the agent runtime's stateful algorithms

This project models the parts of the runtime whose behaviour spans many calls or many
interleavings, and proves what they keep: a rate-limited send queue, a loop detector over
sliding windows, canonical configuration hashing, three least-recently-used stores, text
splitting and message rendering, and the protocols that share promises, slots, workers and
counters across suspension points.

Strings are sequences of UTF-16 code units (`JsText`; the ASCII state names in `Polling` are plain
strings), 32-bit arithmetic is written out with
its signed and unsigned conversions, and code that updates an object is a class whose methods
update its fields. The language runs one piece of code at a time, so the code between two
suspension points is one atomic step. A protocol is given twice: as a pure transition function
over whole runs, on which the theorems are stated for every order of events, and as a class
whose methods perform the steps imperatively and are proved to realize that function.

How the modules fit together:

| modules | what they cover |
|---|---|
| `JsText`, `Numerals`, `Selections`, `Wrappers` | strings, white space, `slice`, 32-bit conversions; numerals and small arithmetic; positions of selected items; optional and fallible values |
| `FnvHash`, `Djb2`, `JsonText`, `ConfigHash`, `JsonReading` | both hashes, string literals, the canonical serializer, a separate grammar of its texts |
| `Words`, `LoopDetection` | powers of words, the loop detector |
| `Recency`, `AgentCardCache`, `ArtifactStore`, `ThreadCache` | the abstract recency list and the three stores refining it, mail threading |
| `TokenBucket`, `SendQueue` | the limiter's arithmetic, the single-consumer queue |
| `Promises`, `WebhookManager`, `ChannelRegistry`, `LlmBridge` | promise coalescing, the one-slot bridge |
| `SpawnGuard`, `WorkerPool`, `DoctorAudit`, `Polling` | spawn limits, the worker pool and the audit on it, deadline polling |
| `Blocks`, `ActionIds`, `TelegramHtml`, `TelegramFormat`, `TelegramPlan`, `SlackPlan`, `DiscordPlan` | coalescing, splitting, button identifiers, HTML rendering and the formatting a reader sees, the three render plans |

Some properties one would expect fail for a definite set of inputs. The code is modelled as it
is, the failure is exhibited, and the lemma named proves exactly when it occurs:

- `ConfigHash`: a NaN or an infinity prints like null, so two different configurations can
  share a printed form. They print alike exactly when they are equal up to key order and up to
  reading non-finite numbers as null (`ConfigsPrintAlikeIffSameNulled`, `NonFiniteReadsAsNull`).
- `AgentCardCache`: a lookup deletes an expired card, which can cost an entry its place all the same: the
  room it leaves lets a later lookup find a card, and that find makes another entry the oldest
  (`FindThanksToDeletionEvicts`). Without such a find no entry's life is ever shortened
  (`ExpiredLookupSparesOthers`).
- `ChannelRegistry`: the type does not always keep cache keys apart. Two types can share a key
  exactly when they are equal or one of them, followed by a colon, begins the other
  (`TypesShareKeyIff`, `ColonInTypeCollides`). Calls without an instance key never do
  (`HashedKeysTellTypesApart`).
- `TelegramHtml`: the comment in the source says nested entities are handled, but a nested or
  overlapping entity moves the cursor back and its text is sent twice. The rendering reads back
  exactly when no entity begins before the end of the one before it (`ReadsBackIffNoOverlap`,
  `NestedEntityRepeatsText`). The language of a code block is not escaped. A code block reads back,
  whatever its text, exactly when its language, read inside the quotes of its attribute, ends there
  and shows nothing (`HarmlessExactly`, `HarmlessIffQuoteKept`). So does every language without
  quotes (`QuoteFreeIsHarmless`) and even two quotes (`TwoQuotesAreHarmless`), but a single quote
  swallows the text (`QuoteInLanguageSwallowsText`).
- `TelegramPlan`: a keyboard held back for the next content is replaced when another block of
  buttons follows directly. The keyboard of a block is lost exactly when more buttons follow it
  and it ends a stretch of alternating buttons and contents that begins with buttons at the start
  of the message or directly after other buttons (`LostExactlyWhere`, `OthersAreSent`).
- `DiscordPlan`: button identifiers repeat within one message exactly when two of its blocks have
  the same action at the same index (`IdsDistinctIff`), for instance when both offer the same button
  (`SameButtonTwice`).
- `WebhookManager`: clearing while a creation is in flight lets a second one start: a call, a clear
  and a call leave two in flight (`ClearDuplicates`). Clearing can lead to two creations of a channel
  in flight exactly when it has one already (`ClearIsSafeIffIdle`), and runs that clear only
  otherwise keep every guarantee.
- `LlmBridge`: a turn can start before the previous call ended, and then the old turn's timer can
  reject the new turn's response (`OldTimerHitsNextTurn`) and its failing handler can take the
  slot away, so that the new call never ends (`OldHandlerStrandsNextTurn`, `StrandedForever`). A
  start is safe from older turns exactly when none of their timers is armed and none of their
  handlers is running (`StartIsSafeIff`). In all runs whose starts are safe no call is stranded and
  every call can still end (`NoneStranded`, `EveryCallCanEnd`).
- `WorkerPool`, `DoctorAudit`: a concurrency below one starts no worker. The audit then reports
  no active check, and its exit code is zero whatever the checks would have found
  (`EveryCheckReported`, `ExitCodeIsWorstFinding`).
- `SpawnGuard`: a session start resets the counts but ends no child, and a completion names only the
  parent. When a first child of a parent outlives a reset, a second one begins and the first one
  completes, the count is zero while a child runs (`OutlivingChildUncounts`). At every moment the
  counts are the children that run exactly when no reset finds a child running (`CountsExactIff`);
  they are never more than that (`NeverOvercounts`).
- `SpawnGuard`: with `k` callers between check and record the limit is exceeded by up to `k - 1`
  spawns, never more, and the bound is reached under all limits that allow a spawn. An enforced
  limit can be exceeded exactly when it allows a spawn and `k` is at least two
  (`ExceededIffGapHoldsTwo`). With warnings only there is no bound.
- `TokenBucket`: a message delay of zero turns the limiter off, because the token count is no
  number after two sends at one instant. A number of sends fits a span of time exactly when there is
  no delay or they are at most the burst and one more for each full delay (`SendsWithinIff`).
- `Polling`: a poll interval below one never fetches at all; the call times out, or is aborted
  (`FetchesPossibleIff`, `ZeroIntervalNeverFetches`). A maximum below one allows one fetch
  (`FetchCountPossibleIff`). The client accepts such settings; the configuration schema
  (packages/a2a/src/validation.ts:17-24) refuses them where it is applied.
- `Blocks`: with a limit of zero the cutting loop only trims. It ends exactly on blank texts
  (`ZeroLimitEndsIffBlank`).

## Model

| member | source | states |
|---|---|---|
| `FnvHash.Fnv1a32` | packages/engine/src/fnv-hash.ts:6-13 | the loop of signed exclusive-ors and 32-bit multiplications computes the fingerprint fold on every string |
| `FnvHash.FingerprintByUnits` | packages/engine/src/fnv-hash.ts:6-13 | one more code unit is combined by exclusive-or and then multiplied by the prime 16777619, modulo 2^32 |
| `FnvHash.StepResidue` | packages/engine/src/fnv-hash.ts:9-10 | the signed step agrees with the step on unsigned residues |
| `FnvHash.StepInjectiveInState` | packages/engine/src/fnv-hash.ts:9-10 | one step is injective on the 2^32 states, because the prime is odd |
| `FnvHash.StepInjectiveInUnit` | packages/engine/src/fnv-hash.ts:9-10 | one step is injective in the code unit |
| `FnvHash.OneChangedUnitNeverCollides` | packages/engine/src/fnv-hash.ts:6-13 | two strings of one length that differ in exactly one code unit have different fingerprints |
| `Djb2.Djb2Hash` | packages/channel-base/src/config-hash.ts:35-43 | the loop of signed shifts prints, in hexadecimal, 5381*33^n plus the sum of c_i*33^(n-1-i), modulo 2^32 |
| `Djb2.ShiftAddStep` | packages/channel-base/src/config-hash.ts:39 | shift, add and signed truncation amount to multiplication by 33 on residues |
| `Djb2.PowerCancels` | packages/channel-base/src/config-hash.ts:39 | powers of 33 are invertible modulo 2^32 |
| `Djb2.HexInjective` | packages/channel-base/src/config-hash.ts:42 | different numbers have different hexadecimal numerals |
| `Djb2.ReadsHex` | packages/channel-base/src/config-hash.ts:42 | read as a hexadecimal number, the numeral gives the number back |
| `Djb2.KnownHashes` | packages/channel-base/src/config-hash.ts:35-43 | the hashes of the empty string and of "a" |
| `Djb2.OneChangedUnitNeverCollides` | packages/channel-base/src/config-hash.ts:35-43 | two strings of one length that differ in exactly one code unit have different hash strings |
| `JsonText.QuoteCancel` | packages/channel-base/src/config-hash.ts:17 | a string literal (section 7 of RFC 8259, lone surrogates escaped) can be read back whatever follows it |
| `JsonText.SortKeysIncreasing` | packages/channel-base/src/config-hash.ts:25 | sorting distinct keys yields them in increasing code-unit order |
| `JsonText.IncreasingUnique` | packages/channel-base/src/config-hash.ts:25 | a set of keys has one increasing list, so the order of insertion is forgotten |
| `ConfigHash.HashConfig` | packages/channel-base/src/config-hash.ts:49-51 | the cache key is the hash of the canonical text |
| `ConfigHash.StringifyIsPrintCanon` | packages/channel-base/src/config-hash.ts:11-28 | serializing is printing the value with keys sorted at every level |
| `ConfigHash.PrintCancel` | packages/channel-base/src/config-hash.ts:11-28 | a printed finite value can be read back, uniquely, from any context that may follow it |
| `ConfigHash.PrintedFormIsExact` | packages/channel-base/src/config-hash.ts:11-28 | on all values: equal texts exactly when equal canonical values |
| `ConfigHash.SameHasOneCanon` | packages/channel-base/src/config-hash.ts:24-27 | values equal up to key order have one canonical value |
| `ConfigHash.OneCanonIsSame` | packages/channel-base/src/config-hash.ts:24-27 | finite values with one canonical value are equal up to key order |
| `ConfigHash.FiniteConfigsPrintAlikeIffSame` | packages/channel-base/src/config-hash.ts:11-28 | configurations with finite numbers print alike exactly when they are equal up to key order at every level |
| `ConfigHash.ConfigsPrintAlikeIffSameNulled` | packages/channel-base/src/config-hash.ts:11-28 | any configurations print alike exactly when they are equal up to key order and to reading non-finite numbers as null |
| `ConfigHash.HashIgnoresKeyOrder` | packages/channel-base/src/config-hash.ts:45-51 | the same content has the same hash whatever the order of its keys |
| `ConfigHash.NonFiniteReadsAsNull` | packages/channel-base/src/config-hash.ts:16-18 | for every key, a field holding NaN and one holding null print alike though they differ |
| `JsonReading.ReadEscaped` | packages/channel-base/src/config-hash.ts:17 | a separate reader of string literals recovers the string |
| `JsonReading.StringifyReads` | packages/channel-base/src/config-hash.ts:11-28 | in a grammar written apart from the serializer, the canonical text denotes the configuration (with null for non-finite numbers), its keys in order at every level |
| `JsonReading.CanonSame` | packages/channel-base/src/config-hash.ts:24-27 | the canonical value of a finite configuration is that configuration, up to the order of keys |
| `Words.EndsInRoot` | packages/engine/src/loop-detector.ts:88-97 | a history that ends in a repeated power ends in its root repeated as often |
| `LoopDetection.LoopDetector.Create` | packages/engine/src/loop-detector.ts:31-40 | a threshold below 2, then a window below 1, is an error; otherwise a fresh detector |
| `LoopDetection.LoopDetector.RecordAndCheck` | packages/engine/src/loop-detector.ts:46-80 | the verdict is the one on the entire history since the last reset, although only windows are kept |
| `LoopDetection.LoopDetector.RecordOutput` | packages/engine/src/loop-detector.ts:51-55 | the kept hashes are those of the last `windowSize` outputs |
| `LoopDetection.LoopDetector.RecordTools` | packages/engine/src/loop-detector.ts:57-66 | the kept calls are the last ones of the whole history, up to the bound; none for a bound of zero or less |
| `LoopDetection.LoopDetector.CheckToolCycle` | packages/engine/src/loop-detector.ts:83-109 | reports the shortest block whose repetition the whole history ends with, and nothing when there is none |
| `LoopDetection.RepeatsFirstBlock` | packages/engine/src/loop-detector.ts:88-97 | the block-by-block comparison decides whether the tail is a power of its first block |
| `LoopDetection.LoopDetector.CheckOutputRepeat` | packages/engine/src/loop-detector.ts:112-125 | decides whether the last `repeatThreshold` outputs of the whole history share a fingerprint; never when the window is smaller than the threshold |
| `LoopDetection.EveryEqualsFirst` | packages/engine/src/loop-detector.ts:115-117 | comparing with the first decides whether all are equal |
| `LoopDetection.LoopDetector.Reset` | packages/engine/src/loop-detector.ts:128-132 | forgets the history |
| `LoopDetection.TrimmingIsInvisible` | packages/engine/src/loop-detector.ts:61-66 | trimmed and whole history have the same cycle verdict |
| `LoopDetection.ReportedCycleIsPrimitive` | packages/engine/src/loop-detector.ts:83-109 | a reported pattern is never a shorter word repeated |
| `LoopDetection.VerdictUnique` | packages/engine/src/loop-detector.ts:46-80 | a history has at most one verdict |
| `LoopDetection.FiresExactlyOnLoops` | packages/engine/src/loop-detector.ts:46-80 | fires exactly when enabled, with enough outputs, and the whole history ends in a cycle or in repeated outputs |
| `LoopDetection.OneUnitApartIsNoRepeat` | packages/engine/src/loop-detector.ts:112-125 | two recent outputs that differ in one code unit are never reported as a repetition |
| `Recency.RunFits` | packages/a2a/src/agent-card-cache.ts:38-76 | every run of operations keeps distinct keys and the capacity |
| `Recency.ApplyOther` | packages/a2a/src/agent-card-cache.ts:60-76 | an operation on another key keeps an entry exactly when the keys now newer than it leave it room |
| `Recency.UntouchedSurvives` | packages/a2a/src/agent-card-cache.ts:38-76 | an entry no operation names keeps its value while newer and touched keys are fewer than the capacity |
| `Recency.SurvivesExactly` | packages/a2a/src/agent-card-cache.ts:38-76 | without deletions, an entry is present exactly when newer and touched keys are fewer than the capacity |
| `Recency.LastTouchDecides` | packages/artifact-client/src/in-memory-store.ts:264-280 | since its own last touch an entry keeps its value while fewer than capacity distinct other keys are touched, and is gone once that many are and nothing was deleted |
| `Recency.UseShape` | packages/a2a/src/agent-card-cache.ts:49-51 | a touch moves the entry to the end, keeps all others in order, and changes nothing for an absent key |
| `Recency.DropShape` | packages/a2a/src/agent-card-cache.ts:82 | a removal takes out exactly the entry and keeps the order |
| `Recency.StoreShape` | packages/a2a/src/agent-card-cache.ts:60-76 | a store puts the entry last, keeps the others in order, and drops the first exactly when the list was full |
| `AgentCardCache.Cache.Get` | packages/a2a/src/agent-card-cache.ts:38-54 | returns an unexpired card and moves it to the end; takes an expired one out and keeps all others in their order; else changes nothing |
| `AgentCardCache.Cache.Set` | packages/a2a/src/agent-card-cache.ts:60-76 | the card stands last with its expiry, all others keep their order, and only the first of a full cache is gone |
| `AgentCardCache.Cache.Delete` | packages/a2a/src/agent-card-cache.ts:81-83 | takes the entry out, keeps all others in their order, and tells whether there was one |
| `AgentCardCache.Cache.Clear` | packages/a2a/src/agent-card-cache.ts:88-90 | removes everything |
| `AgentCardCache.Cache.Has` | packages/a2a/src/agent-card-cache.ts:95-97 | tells whether an unexpired card is there, moving it to the end; takes an expired one out |
| `AgentCardCache.NextGetReturns` | packages/a2a/src/agent-card-cache.ts:38-97 | after a store or a refreshing lookup and any calls that do not name the url: nothing once the cache was cleared; else the card until its expiry while fewer than `maxEntries` others were stored or found unexpired, and nothing once that many were and nothing was removed |
| `AgentCardCache.LookupShape` | packages/a2a/src/agent-card-cache.ts:38-54 | a lookup moves a live entry to the end, takes an expired one out, and changes nothing else |
| `AgentCardCache.ExpiredLookupSparesOthers` | packages/a2a/src/agent-card-cache.ts:44-47 | in every run after it, a lookup of an expired url leaves every other card found that would be found without it, unless an earlier lookup found a card only thanks to it |
| `AgentCardCache.FindThanksToDeletionEvicts` | packages/a2a/src/agent-card-cache.ts:38-76 | such a find can cost another entry its place: a concrete run of three calls |
| `ArtifactStore.OldestKey` | packages/artifact-client/src/in-memory-store.ts:267-275 | the scan finds an entry with the smallest stamp, in any order of iteration |
| `ArtifactStore.TouchRefines` | packages/artifact-client/src/in-memory-store.ts:70 | giving an entry the next counter value makes it the most recent of the abstract list |
| `ArtifactStore.StampsDistinct` | packages/artifact-client/src/in-memory-store.ts:118-122 | no two entries ever share a stamp |
| `ArtifactStore.EvictRefines` | packages/artifact-client/src/in-memory-store.ts:264-280 | the entry with the smallest stamp is the least recent one |
| `ArtifactStore.Store.EvictIfNeeded` | packages/artifact-client/src/in-memory-store.ts:264-280 | a full store loses its least recent entry, another one nothing |
| `ArtifactStore.Store.Load` | packages/artifact-client/src/in-memory-store.ts:65-72 | returns the artifact held and makes it most recent |
| `ArtifactStore.Store.Create` | packages/artifact-client/src/in-memory-store.ts:80-125 | an invalid request changes nothing; a valid one stores an artifact of version 1 with the fields of the request under an id never used before, evicting the least recent of a full store |
| `ArtifactStore.Store.Update` | packages/artifact-client/src/in-memory-store.ts:134-190 | an invalid, missing or conflicting update changes nothing; any other takes over exactly the fields given, adds one to the version and makes the artifact most recent |
| `ArtifactStore.Store.Delete` | packages/artifact-client/src/in-memory-store.ts:195-197 | removes the artifact and tells whether there was one |
| `ArtifactStore.Store.Discover` | packages/artifact-client/src/in-memory-store.ts:56-59 | lists all metadata, most recently used first |
| `ArtifactStore.DescendingIsReversed` | packages/artifact-client/src/in-memory-store.ts:57 | sorting by descending stamp is reading the recency list backwards |
| `ArtifactStore.NextIdIsNew` | packages/artifact-client/src/in-memory-store.ts:84 | the next identifier differs from all issued before |
| `ArtifactStore.MetadataDescribes` | packages/artifact-client/src/in-memory-store.ts:105-116 | the metadata of an artifact are its fields |
| `ArtifactStore.VersionCountsUpdates` | packages/artifact-client/src/in-memory-store.ts:134-190 | after any updates the version is the first plus the number of accepted ones |
| `ArtifactStore.OneUpdatePerVersion` | packages/artifact-client/src/in-memory-store.ts:139-141 | of any updates that expect one version at most one is accepted |
| `ThreadCache.Cache.Set` | packages/channel-email/src/thread-cache.ts:20-35 | stores a mapping as most recent, evicting the least recent of a full cache |
| `ThreadCache.Cache.GetThreadId` | packages/channel-email/src/thread-cache.ts:41-49 | returns the thread held and makes it most recent |
| `ThreadCache.Cache.Resolve` | packages/channel-email/src/thread-cache.ts:57-74 | the parent's thread if known, else the latest known reference's; only the message found becomes more recent |
| `ThreadCache.Cache.ResolveThread` | packages/channel-email/src/normalizer.ts:56-69 | the resolved thread, or the message's own id, is remembered for the message as the most recent entry, in a cache of any size |
| `ThreadCache.ResolutionContents` | packages/channel-email/src/normalizer.ts:56-69 | resolving reorders the cache without changing what is known, and remembering forgets nothing while all ids fit |
| `ThreadCache.StoreWithRoom` | packages/channel-email/src/thread-cache.ts:20-35 | while all distinct ids fit, storing one evicts none |
| `ThreadCache.DeliverAll` | packages/channel-email/src/normalizer.ts:56-69 | every message of a delivery gets the thread that a cache of this size decides; while all ids fit, the one that an unbounded memory of the earlier messages gives |
| `ThreadCache.EnoughRoom` | packages/channel-email/src/thread-cache.ts:20-74 | while all distinct ids fit, the bounded cache knows all that was ever known |
| `ThreadCache.HeldIffFewOthers` | packages/channel-email/src/thread-cache.ts:20-74 | in a delivery of any length a message's thread is held exactly while fewer ids than the limit were stored or found since its own was last |
| `ThreadCache.ReplyFindsRecentParent` | packages/channel-email/src/normalizer.ts:56-69 | a reply gets its parent's thread while fewer ids than the limit were stored or found since the parent was last |
| `ThreadCache.ThreadsAt` | packages/channel-email/src/normalizer.ts:56-69 | the thread a delivery gives to a message is the one that the earlier messages decide |
| `ThreadCache.HitIsAnswered` | packages/channel-email/src/thread-cache.ts:57-74 | the message whose thread is taken over is the one replied to if it was delivered before, else the last reference that was |
| `ThreadCache.ReplyGetsParentThread` | packages/channel-email/src/normalizer.ts:56-69 | a message gets the thread of the message it answers, by reply or by reference (section 3.6.4 of RFC 5322) |
| `ThreadCache.ChainCarriesRoot` | packages/channel-email/src/normalizer.ts:56-69 | every message of a chain of answers carries the root's message id as its thread |
| `ThreadCache.SameThreadIffSameRoot` | packages/channel-email/src/normalizer.ts:56-69 | two messages of a delivery share a thread exactly when chains of answers from one root lead to both |
| `TokenBucket.FloorSum` | packages/channel-whatsapp/src/adapter.ts:383 | rounding down separately never refills more than rounding down once |
| `TokenBucket.OneSendCosts` | packages/channel-whatsapp/src/adapter.ts:381-396 | one send uses up one token more than its elapsed time lets in, whether it waited or not |
| `TokenBucket.BucketBounds` | packages/channel-whatsapp/src/adapter.ts:384-395 | in every run the bucket stays between zero and the burst limit |
| `TokenBucket.TokensTelescope` | packages/channel-whatsapp/src/adapter.ts:381-396 | between two sends of a run the tokens account for every send and every full delay |
| `TokenBucket.RateBound` | packages/channel-whatsapp/src/adapter.ts:376-396 | in every run, sends i..j number at most the burst limit plus the full delays between them |
| `TokenBucket.SendsWithinIff` | packages/channel-whatsapp/src/adapter.ts:381-396 | some run makes n sends within a span exactly when the delay is zero or n is at most the burst limit plus the full delays in the span, so the rate bound is exact |
| `TokenBucket.RoomIsExact` | packages/channel-whatsapp/src/adapter.ts:380-396 | after every run and at every later time t, n more sends can all be made at t exactly when the delay is zero or n is at most min(burst limit, tokens left plus the full delays since the last send) |
| `TokenBucket.WaitsIffNoRoom` | packages/channel-whatsapp/src/adapter.ts:384-392 | a refill leaves no token exactly when no send can be added to the run at that time |
| `SendQueue.Queue.DoSend` | packages/channel-whatsapp/src/adapter.ts:166-172 | a message is queued last and a consumer runs; the invariant of order, single consumer, one token per message and no stranded message is kept, and no promise is settled but by refusal without a connection |
| `SendQueue.Queue.ProcessQueue` | packages/channel-whatsapp/src/adapter.ts:371-420 | the consumer runs until the queue is empty and the flag cleared, or suspends with the flag set |
| `SendQueue.Queue.ProcessItem` | packages/channel-whatsapp/src/adapter.ts:377-393 | a round takes the oldest message and suspends with it, asleep exactly when the limiter has no room for a send at that moment, or rejects it alone for lack of a connection |
| `SendQueue.Queue.Spend` | packages/channel-whatsapp/src/adapter.ts:395-396 | the recorded sends remain a run of the limiter |
| `SendQueue.Queue.Take` | packages/channel-whatsapp/src/adapter.ts:395-404 | the message goes to the transport, or its promise alone is rejected when there is no connection |
| `SendQueue.Queue.TimerFires` | packages/channel-whatsapp/src/adapter.ts:391-396 | a sleeping consumer sends the message it held, not before its time |
| `SendQueue.Queue.RenderSettles` | packages/channel-whatsapp/src/adapter.ts:403-415 | the next promise settled is that of the message in flight, with its outcome |
| `SendQueue.Queue.SettledInOrder` | packages/channel-whatsapp/src/adapter.ts:371-420 | the k-th accepted message is settled as the k-th, or is still in flight or queued |
| `SendQueue.Queue.RateBoundHolds` | packages/channel-whatsapp/src/adapter.ts:371-420 | the rate bound holds between any two sends the queue has made, under any clock that does not go back |
| `SendQueue.Queue.BucketHolds` | packages/channel-whatsapp/src/adapter.ts:384-395 | between any two steps the token field lies between zero and the burst limit |
| `WebhookManager.Manager.GetOrCreate` | packages/channel-discord/src/webhook-manager.ts:109-120 | answered from the cached or pending creation, else from a new one; other channels are not affected |
| `WebhookManager.Manager.CreatorResumes` | packages/channel-discord/src/webhook-manager.ts:122-128 | a fulfilled creation answers its channel from now on, a rejected one is not cached, the channel has no pending entry, and other channels are not affected |
| `WebhookManager.Manager.InvalidateChannel` | packages/channel-discord/src/webhook-manager.ts:135-137 | forgets the cached webhook of this channel only |
| `WebhookManager.Manager.Clear` | packages/channel-discord/src/webhook-manager.ts:142-145 | no channel is answered from an earlier creation any more |
| `WebhookManager.OneCreationInFlight` | packages/channel-discord/src/webhook-manager.ts:109-145 | in every run that clears only while the channel has no creation in flight, it has at most one in flight |
| `WebhookManager.StartsBounded` | packages/channel-discord/src/webhook-manager.ts:109-145 | in every such run the creations of a channel number at most one plus its failures, invalidations and clears |
| `WebhookManager.CallersShare` | packages/channel-discord/src/webhook-manager.ts:109-129 | callers between two such events are answered from one creation |
| `WebhookManager.ClearThenGet` | packages/channel-discord/src/webhook-manager.ts:109-145 | from any state reached with a creation in flight, clearing and one call leave two of the channel in flight |
| `WebhookManager.ClearIsSafeIffIdle` | packages/channel-discord/src/webhook-manager.ts:142-145 | some run after clearing has two creations of the channel in flight exactly when there was one in flight |
| `WebhookManager.ClearDuplicates` | packages/channel-discord/src/webhook-manager.ts:109-145 | from an empty manager a call, a clear and a call leave two creations of the channel in flight |
| `ChannelRegistry.Registry.Register` | packages/channel-base/src/channel-registry.ts:54-60 | a type can be registered once |
| `ChannelRegistry.Registry.LoadAdapter` | packages/channel-base/src/channel-registry.ts:78-96 | answered from the cached load of the key of type and configuration or instance, else an error for an unknown type, else a load that is cached before it settles; other keys are not affected |
| `ChannelRegistry.Registry.LoaderResumes` | packages/channel-base/src/channel-registry.ts:98-103 | only a failed load leaves the cache, and no other key is affected |
| `ChannelRegistry.LoadsCoalesce` | packages/channel-base/src/channel-registry.ts:78-104 | in every run a key has one load in flight at most, its loads number at most one plus its failures, and without a failure all callers share one adapter |
| `ChannelRegistry.TypesShareKeyIff` | packages/channel-base/src/channel-registry.ts:178-187 | two types can share a cache key exactly when they are equal or one of them, followed by a colon, begins the other |
| `ChannelRegistry.KeysTellTypesApart` | packages/channel-base/src/channel-registry.ts:178-187 | cache keys of types without a colon are equal only for the same type and suffix |
| `ChannelRegistry.HashedKeysTellTypesApart` | packages/channel-base/src/channel-registry.ts:178-187 | without instance keys no two types share a cache key, whatever their configurations |
| `ChannelRegistry.ColonInTypeCollides` | packages/channel-base/src/channel-registry.ts:178-187 | a type with a colon shares a key with its part before the colon, for any configuration |
| `ChannelRegistry.KeyIgnoresOrder` | packages/channel-base/src/channel-registry.ts:186 | one configuration in any key order leads to one cache key |
| `ChannelRegistry.ConfigsShareKeyIff` | packages/channel-base/src/channel-registry.ts:178-187 | calls for one type without instance keys share a key exactly when their configurations have one hash |
| `ChannelRegistry.OneUnitKeepsConfigsApart` | packages/channel-base/src/channel-registry.ts:178-187 | so never when their canonical texts differ in one code unit |
| `ChannelRegistry.InstancesShareKeyIff` | packages/channel-base/src/channel-registry.ts:178-187 | calls for one type with instance keys share a key exactly when these are equal |
| `ChannelRegistry.DifferentKeysDifferentLoads` | packages/channel-base/src/channel-registry.ts:78-96 | in every run, calls with different keys are answered from different loads |
| `LlmBridge.Bridge.ProcessTranscription` | packages/channel-voice/src/llm-bridge.ts:68-117 | refused without handler or while the slot is taken, else it takes the slot and arms its timer; other turns are left alone |
| `LlmBridge.Bridge.ProvideResponse` | packages/channel-voice/src/llm-bridge.ts:141-153 | resolves the pending response, frees the slot and changes nothing else; ignored when there is none |
| `LlmBridge.Bridge.Reject` | packages/channel-voice/src/llm-bridge.ts:158-163 | rejects the pending response, frees the slot and changes nothing else |
| `LlmBridge.Bridge.OnTimeout` | packages/channel-voice/src/llm-bridge.ts:101-112 | rejects whatever response is pending, whichever turn it belongs to; the slot is free afterwards |
| `LlmBridge.Bridge.OnHandlerDone` | packages/channel-voice/src/llm-bridge.ts:114-128 | a failing handler ends the call and frees the slot, unless the slot was freed before |
| `LlmBridge.Bridge.OnPromiseSettled` | packages/channel-voice/src/llm-bridge.ts:130-134 | the call ends as its promise did and its timer is cleared |
| `LlmBridge.PromiseIsFirstText` | packages/channel-voice/src/llm-bridge.ts:63-163 | in every run with safe starts a turn's promise is resolved exactly with the first text provided while its slot was open |
| `LlmBridge.CallReturnsFirstText` | packages/channel-voice/src/llm-bridge.ts:63-163 | in such a run an ended call returned that text, or threw if there was none; its slot is free and its timer can no longer act |
| `LlmBridge.SlotEmptyBetweenCalls` | packages/channel-voice/src/llm-bridge.ts:72-74 | when all calls have ended the slot is empty, so the next call is not refused as concurrent |
| `LlmBridge.NoneStranded` | packages/channel-voice/src/llm-bridge.ts:63-163 | in every run with safe starts no call waits without its slot, and one without a settled promise has its timer armed |
| `LlmBridge.EveryCallCanEnd` | packages/channel-voice/src/llm-bridge.ts:63-163 | from every moment of such a run each call can still end, by its own timer if by nothing else |
| `LlmBridge.StartIsSafeIff` | packages/channel-voice/src/llm-bridge.ts:68-134 | no event of an older turn can take the slot from a new one exactly when no older timer is armed and no older handler is running |
| `LlmBridge.SequentialStartIsSafe` | packages/channel-voice/src/llm-bridge.ts:68-134 | a start after all calls have ended is safe in every run |
| `LlmBridge.OldTimerHitsNextTurn` | packages/channel-voice/src/llm-bridge.ts:100-112 | after an unsafe start the timer of an answered turn rejects the next turn's response |
| `LlmBridge.StrandedForever` | packages/channel-voice/src/llm-bridge.ts:99-134 | a call whose slot was taken while it waits never ends, whatever follows |
| `LlmBridge.OldHandlerStrandsNextTurn` | packages/channel-voice/src/llm-bridge.ts:118-128 | after an unsafe start a failing older handler leaves the next call waiting for ever |
| `SpawnGuard.Guard.Create` | packages/engine/src/spawn-guard.ts:56-73 | a guard exists exactly for limits that are not negative |
| `SpawnGuard.Guard.CheckSpawn` | packages/engine/src/spawn-guard.ts:84-100 | allowed exactly when depth, children and concurrency are all within their limits; an error names a limit that is violated, with its numbers, and no earlier one is |
| `SpawnGuard.Guard.CheckAndRecord` | packages/engine/src/spawn-guard.ts:108-111 | a refused spawn changes nothing, an allowed one is counted at once for its parent and in both totals |
| `SpawnGuard.Guard.RecordSpawn` | packages/engine/src/spawn-guard.ts:118-128 | one more for this parent, one more active and one more ever spawned; other parents' counts stay |
| `SpawnGuard.Guard.RecordCompletion` | packages/engine/src/spawn-guard.ts:137-158 | one less for a tracked parent and one less active, with no count of zero kept; an untracked parent changes nothing, spawns made stay counted, and the clamp at zero never takes effect |
| `SpawnGuard.Guard.Reset` | packages/engine/src/spawn-guard.ts:163-169 | all counts are zero again |
| `SpawnGuard.SpawnedConserved` | packages/engine/src/spawn-guard.ts:118-128 | a recorded spawn keeps the total equal to the sum over parents and all stored counts at least one |
| `SpawnGuard.CompletedConserved` | packages/engine/src/spawn-guard.ts:137-158 | so does a completion |
| `SpawnGuard.RunConserved` | packages/engine/src/spawn-guard.ts:118-169 | in every run the total is the sum of the counts by parent, and every stored count is at least one |
| `SpawnGuard.NeverOvercounts` | packages/engine/src/spawn-guard.ts:118-169 | in every run in which each child begins and ends once at most, the count of a parent never exceeds its children that run, whatever resets come between |
| `SpawnGuard.CountsExactIff` | packages/engine/src/spawn-governance-middleware.ts:104-106 | the counts equal the running children of every parent at every moment exactly when no reset finds a child running |
| `SpawnGuard.OutlivingChildUncounts` | packages/engine/src/spawn-governance-middleware.ts:104-106 | a child that outlives a reset and completes leaves a count of zero while another child runs |
| `SpawnGuard.LimitsHoldOfRunning` | packages/engine/src/spawn-guard.ts:84-128 | with a check right before each begin and resets only while none runs, both limits hold of the children that really run |
| `SpawnGuard.AtomicKeepsLimits` | packages/engine/src/spawn-guard.ts:108-111 | in every run of atomic check-and-record calls neither limit is exceeded |
| `SpawnGuard.OvershootIsBounded` | packages/engine/src/spawn-governance-middleware.ts:119-173 | with at most k callers between check and record, active and pending never exceed the limit by more than k - 1, in total and for each parent |
| `SpawnGuard.OvershootIsReached` | packages/engine/src/spawn-governance-middleware.ts:119-173 | under all limits that allow a spawn, some run reaches the bound on all spawns |
| `SpawnGuard.ParentOvershootIsReached` | packages/engine/src/spawn-governance-middleware.ts:119-173 | so does the bound of every parent: the lower of the two limits plus k - 1 |
| `SpawnGuard.ExceededIffGapHoldsTwo` | packages/engine/src/spawn-governance-middleware.ts:119-173 | an enforced limit can be exceeded exactly when it allows a spawn and k is at least two |
| `SpawnGuard.WarningIsUnbounded` | packages/engine/src/spawn-governance-middleware.ts:282-286 | when exceeding only warns, any number of spawns goes through |
| `WorkerPool.Launch` | packages/doctor/src/engine.ts:41-44 | min(concurrency, tasks) workers start, each with its own task |
| `WorkerPool.RunWithConcurrency` | packages/doctor/src/engine.ts:23-48 | under any schedule the pool ends; without rejections every result is stored at its task's place, and below one worker nothing is |
| `WorkerPool.SettleAccounted` | packages/doctor/src/engine.ts:30-39 | whichever task settles, every started task stays in flight, stored or rejected, and a worker ends only by a rejection while tasks are left |
| `WorkerPool.InFlightBounded` | packages/doctor/src/engine.ts:30-44 | in every schedule at most as many tasks are in flight as there are workers |
| `WorkerPool.SettlesOnce` | packages/doctor/src/engine.ts:30-39 | in every schedule a task settles once if it has started and is no longer in flight, and otherwise not |
| `WorkerPool.FinishedRun` | packages/doctor/src/engine.ts:45-47 | a finished run holds the value of each started task that did not reject; tasks stay unstarted only when as many rejected as there are workers |
| `WorkerPool.NothingRejected` | packages/doctor/src/engine.ts:23-48 | without rejections every task is started and has its value at its place |
| `DoctorAudit.ComputeSummary` | packages/doctor/src/engine.ts:54-101 | every finding is counted once under its severity, every result once as run or skipped, and the total is the number of findings |
| `DoctorAudit.RunAudit` | packages/doctor/src/engine.ts:147-202 | the results are those of the enabled checks in order, if a worker starts, then a skipped one for each disabled check in order, each with its check's name, status and findings; their summary and exit code |
| `DoctorAudit.ChecksPartition` | packages/doctor/src/engine.ts:159-177 | every check is either active or disabled, and none is lost or doubled |
| `DoctorAudit.EveryCheckReported` | packages/doctor/src/engine.ts:147-202 | run and skipped checks add up to all checks exactly when the concurrency is at least one or no check is active |
| `DoctorAudit.SeverityReported` | packages/doctor/src/engine.ts:117-134 | a severity is counted exactly when some enabled check that could run reports it and a worker started |
| `DoctorAudit.SkippedAndFailedCounted` | packages/doctor/src/engine.ts:54-134 | the summary counts exactly the checks that are disabled or lack what they need, and those that threw |
| `DoctorAudit.ExitCodeIsWorstFinding` | packages/doctor/src/engine.ts:107-111 | the exit code tells the worst severity among such findings |
| `Polling.StateReadFromName` | packages/a2a/src/a2a-client.ts:85-92 | a state is read off exactly the spellings of its name, letter by letter in either case, everything else as working |
| `Polling.AddJitter` | packages/a2a/src/a2a-client.ts:45-47 | the floor of a random quarter of the interval is at least zero and less than a quarter of it, for negative intervals likewise |
| `Polling.JitterReached` | packages/a2a/src/a2a-client.ts:45-47 | every jitter within these bounds comes from some random number |
| `Polling.PollUntilComplete` | packages/a2a/src/a2a-client.ts:579-613 | the loop ends whatever clock and agent do; its rounds form a run, its outcome is that of the last reply, and it times out only at the deadline or for an interval without delay, and no fetch follows a loop head that saw the abort signal |
| `Polling.ReturnedStates` | packages/a2a/src/a2a-client.ts:545-559 | only completed, canceled, input_required and auth_required are returned |
| `Polling.IntervalsDouble` | packages/a2a/src/a2a-client.ts:609 | the k-th interval is the first times 2^k capped by the maximum, which does not cap the first |
| `Polling.SleepsAsked` | packages/a2a/src/a2a-client.ts:594-596 | the k-th sleep is asked for at least a millisecond and never past the deadline, and short of it for the interval and less than a quarter more |
| `Polling.IntervalsFitTimeout` | packages/a2a/src/a2a-client.ts:588-610 | the intervals of all fetches but the last add up to less than the timeout |
| `Polling.FetchesBounded` | packages/a2a/src/a2a-client.ts:585-610 | at most ceil(timeout / min(interval, maximum)) fetches, whatever time they take |
| `Polling.FetchCountPossibleIff` | packages/a2a/src/a2a-client.ts:585-610 | for all settings: some run has n fetches exactly when the first interval is at least one, so is the maximum unless n is one, and the first n - 1 intervals sum to less than the timeout |
| `Polling.FetchBoundIsReached` | packages/a2a/src/a2a-client.ts:585-610 | the bound is reached when the interval does not grow |
| `Polling.ZeroIntervalNeverFetches` | packages/a2a/src/a2a-client.ts:585-612 | an interval of zero or less never fetches, and the call ends by timing out or being aborted |
| `Polling.FetchesPossibleIff` | packages/a2a/src/a2a-client.ts:585-598 | a fetch is possible exactly when interval and timeout are at least one |
| `Blocks.CoalesceBlocks` | packages/channel-base/src/block-utils.ts:7-29 | the buffer loop merges adjacent texts, block by block from the right |
| `Blocks.CoalescePiecewise` | packages/channel-base/src/block-utils.ts:7-29 | coalescing two parts and then their concatenation gives what coalescing at once gives |
| `Blocks.CoalescedHasNoAdjacentTexts` | packages/channel-base/src/block-utils.ts:7-29 | no two adjacent blocks of the result are texts |
| `Blocks.CoalescedFixed` | packages/channel-base/src/block-utils.ts:7-29 | blocks without adjacent texts are left as they are |
| `Blocks.CoalescedCoalesces` | packages/channel-base/src/block-utils.ts:7-29 | cut into consecutive groups, the blocks are each block that is no text by itself, and each maximal run of texts as one, joined by newlines |
| `Blocks.SplitText` | packages/channel-base/src/block-utils.ts:35-63 | the cutting loop ends for every limit of at least one and yields the chunks (what these are: `SplitIsFirstPieces`) |
| `Blocks.ChunksKeepText` | packages/channel-base/src/block-utils.ts:41-60 | chunks and gaps, interleaved, are the text |
| `Blocks.GapsAreBlank` | packages/channel-base/src/block-utils.ts:59 | the gaps between chunks are white space only |
| `Blocks.ChunksFit` | packages/channel-base/src/block-utils.ts:41-60 | each chunk has between one and the limit's characters, and every chunk but the first starts with a visible one |
| `Blocks.SplitKeepsText` | packages/channel-base/src/block-utils.ts:35-63 | for texts of any length: at least one chunk, all within the limit, only white space lost |
| `Blocks.HardCutOnlyWithoutBreaks` | packages/channel-base/src/block-utils.ts:48-56 | the cut is at the last newline, else the last space, of the allowed stretch: none of the kind comes later; inside a word only when it has neither |
| `Blocks.SplitIsFirstPieces` | packages/channel-base/src/block-utils.ts:35-63 | chunks and white space make up the text, and every chunk is all of what is left if that fits, else ends at its last newline within the limit, without one at its last space, without either at the limit |
| `Blocks.SplitIsUnique` | packages/channel-base/src/block-utils.ts:35-63 | only one list of chunks is like that |
| `Blocks.ZeroLimitOnlyTrims` | packages/channel-base/src/block-utils.ts:48-60 | with a limit of zero a cut takes an empty piece and drops the leading white space |
| `Blocks.ZeroLimitEndsIffBlank` | packages/channel-base/src/block-utils.ts:41-60 | so the loop ends exactly when the text is blank |
| `TelegramHtml.EntitiesToHtml` | packages/channel-telegram/src/normalizer.ts:30-56 | the loop renders gaps and entities in sorted order, the cursor following the entity last rendered |
| `TelegramHtml.EscapeIsOnePass` | packages/channel-telegram/src/normalizer.ts:58-60 | the three successive replacements are one pass over the characters |
| `TelegramHtml.UnescapeEscaped` | packages/channel-telegram/src/normalizer.ts:58-60 | unescaping undoes escaping |
| `TelegramHtml.EscapeInjective` | packages/channel-telegram/src/normalizer.ts:58-60 | different texts have different escaped forms |
| `TelegramHtml.ShowsEntity` | packages/channel-telegram/src/normalizer.ts:62-90 | a quote-aware reader sees of a wrapped piece exactly its escaped text |
| `TelegramHtml.ShowsCovered` | packages/channel-telegram/src/normalizer.ts:30-56 | it sees of the whole rendering exactly the pieces rendered |
| `TelegramHtml.ReadsBackIffNoOverlap` | packages/channel-telegram/src/normalizer.ts:30-56 | for entities within the text, the rendering reads back as the text exactly when none begins before the end of the one before it |
| `TelegramHtml.DisjointEntitiesReadBack` | packages/channel-telegram/src/normalizer.ts:30-56 | non-empty, pairwise disjoint entities always read back |
| `TelegramHtml.NestedEntityRepeatsText` | packages/channel-telegram/src/normalizer.ts:47 | a nested entity makes the rendering read as something else |
| `TelegramHtml.HarmlessExactly` | packages/channel-telegram/src/normalizer.ts:75-78 | a code block reads back as its text, for all texts, exactly when a reader sees nothing of the tag that holds its language |
| `TelegramHtml.HarmlessIffQuoteKept` | packages/channel-telegram/src/normalizer.ts:75-78 | that is, when the language, read inside the quotes of its attribute, ends there and shows nothing |
| `TelegramHtml.QuoteFreeIsHarmless` | packages/channel-telegram/src/normalizer.ts:75-78 | a language without quotes is of this kind |
| `TelegramHtml.QuoteInLanguageSwallowsText` | packages/channel-telegram/src/normalizer.ts:75-78 | a single quote as language makes every text without quotes disappear |
| `TelegramFormat.EntityShown` | packages/channel-telegram/src/normalizer.ts:62-90 | a reader that keeps the open tags sees every character of a wrapped piece with exactly the tags of its entity, if its link or language has no quotes |
| `TelegramFormat.LinkKeepsTarget` | packages/channel-telegram/src/normalizer.ts:80-81 | a target without quotes stands in its link's tag as it is |
| `TelegramFormat.FormattingKept` | packages/channel-telegram/src/normalizer.ts:30-90 | for non-empty, pairwise disjoint entities without quotes, the reader sees every character of the text in order, each with exactly its entity's formatting and link |
| `ActionIds.ActionIdInjective` | packages/channel-slack/src/renderer.ts:96 | two button identifiers are equal exactly when action and index are |
| `TelegramPlan.BuildRenderPlan` | packages/channel-telegram/src/renderer.ts:75-172 | nothing for no blocks; else a typing notice, the pieces of each text and each image and file in order, and, exactly at its place, the keyboard of every block of buttons that is not lost, with a placeholder if the last one has no content (`Delivers`) |
| `TelegramPlan.PushText` | packages/channel-telegram/src/renderer.ts:110-126 | only the last piece of a text carries the held-back keyboard |
| `TelegramPlan.Attach` | packages/channel-telegram/src/renderer.ts:91-108 | a keyboard joins the last call if that is a content without keyboard, otherwise it is held back |
| `TelegramPlan.KeyboardsAccounted` | packages/channel-telegram/src/renderer.ts:91-108 | sent and lost keyboards are all there are |
| `TelegramPlan.AllShownIffNoneLost` | packages/channel-telegram/src/renderer.ts:91-108 | every keyboard is sent, in order, exactly when none is lost |
| `TelegramPlan.NoFreeContentIffUnplaced` | packages/channel-telegram/src/renderer.ts:91-108 | buttons find no content without keyboard before them exactly when they end a stretch of alternating buttons and contents that begins with buttons at the start or directly after buttons |
| `TelegramPlan.LostExactlyWhere` | packages/channel-telegram/src/renderer.ts:103-106 | as many keyboards are lost as there are such blocks directly followed by more buttons |
| `TelegramPlan.OthersAreSent` | packages/channel-telegram/src/renderer.ts:91-108 | the keyboards sent are those of all other blocks of buttons, in order |
| `TelegramPlan.CrowdedLoses` | packages/channel-telegram/src/renderer.ts:103-106 | three blocks of buttons in a row, or two at the start, lose a keyboard |
| `TelegramPlan.EveryKeyboardSent` | packages/channel-telegram/src/renderer.ts:75-172 | every keyboard of the blocks as given is sent once and in order exactly when no block loses its own, so always when no two blocks of buttons are adjacent |
| `TelegramPlan.ContentsFit` | packages/channel-telegram/src/renderer.ts:111 | no text exceeds 4096 characters |
| `TelegramPlan.PlacesAreHomes` | packages/channel-telegram/src/renderer.ts:91-172 | each surviving keyboard goes with the last content before it, else with the last piece of the next block, else with the placeholder |
| `TelegramPlan.KeyboardsFindHome` | packages/channel-telegram/src/renderer.ts:75-172 | the call at that place has one row for each button, with its caption and action, and no other call has a keyboard |
| `TelegramPlan.ContentsShowBlocks` | packages/channel-telegram/src/renderer.ts:110-159 | cut at increasing positions, the contents are the pieces of each text, the one photo of each image and the one document of each file, and nothing for buttons |
| `SlackPlan.ElementIdsDistinct` | packages/channel-slack/src/renderer.ts:83-99 | the buttons of a block have distinct identifiers |
| `SlackPlan.FlushBlockKit` | packages/channel-slack/src/renderer.ts:113-133 | waiting blocks become one post with their fallback texts, none if there are none |
| `SlackPlan.BuildRenderPlan` | packages/channel-slack/src/renderer.ts:153-217 | the loop with its flushes yields the calls of the items batched from the front; cut into consecutive groups, the blocks are each shown by one call to the message's channel and thread (`ShowsAll`) |
| `SlackPlan.BatchesBatched` | packages/channel-slack/src/renderer.ts:174-214 | the batches hold the items in order, each is one upload or 1 to 50 blocks, and a post is followed by another only when full |
| `SlackPlan.BatchingIsUnique` | packages/channel-slack/src/renderer.ts:174-214 | there is only one such batching, so sizes and order determine the plan |
| `SlackPlan.FewestCalls` | packages/channel-slack/src/renderer.ts:174-214 | no other grouping of the same items in order into posts and uploads needs fewer calls |
| `SlackPlan.PlanLosesNothing` | packages/channel-slack/src/renderer.ts:153-217 | the calls read in order show every block and file once, each post with 1 to 50 blocks and some text |
| `SlackPlan.PlanShowsAll` | packages/channel-slack/src/renderer.ts:83-217 | every call uploads the one file of its group or posts its blocks as sections, images and buttons with their captions and styles, with the texts and image descriptions as fallback |
| `SlackPlan.PostsAreFull` | packages/channel-slack/src/renderer.ts:175-178 | a post directly followed by another has exactly 50 blocks |
| `DiscordPlan.MakeRows` | packages/channel-discord/src/renderer.ts:127-133 | the slicing loop makes rows of five and a last row with the rest |
| `DiscordPlan.RowsKeepButtons` | packages/channel-discord/src/renderer.ts:127-133 | rows keep the buttons in order, each has 1 to 5, and all but the last are full |
| `DiscordPlan.RowsOfKeepButtons` | packages/channel-discord/src/renderer.ts:118-134 | the rows of all blocks hold all buttons in order |
| `DiscordPlan.RowsOfFit` | packages/channel-discord/src/renderer.ts:127-133 | no row of the message is empty or longer than five |
| `DiscordPlan.IdsDistinctIff` | packages/channel-discord/src/renderer.ts:118-134 | the button identifiers of a message are distinct exactly when no two of its blocks have the same action at the same index |
| `DiscordPlan.SameButtonTwice` | packages/channel-discord/src/renderer.ts:118-134 | two blocks that offer the same button repeat its identifier |
| `DiscordPlan.BuildRenderPlan` | packages/channel-discord/src/renderer.ts:84-173 | nothing for no blocks; else, said of the message's own blocks (`Sends`): the contents are the first pieces within 2000 characters of all texts joined by newlines, the k-th file is that of the k-th image or file block, all buttons are sent in order in rows of five for each block, and attachments are on the last call only |
| `DiscordPlan.PlanKeepsText` | packages/channel-discord/src/renderer.ts:143-173 | the contents are the joined texts but for white space between pieces, each within 2000 characters |
| `DiscordPlan.PlanKeepsAttachments` | packages/channel-discord/src/renderer.ts:157-170 | over the whole plan every file and every row is sent once, in order |
| `DiscordPlan.FilesOfSends` | packages/channel-discord/src/renderer.ts:106-120 | the k-th file is that of the k-th image or file block, with its url and name, and there are no others |
| `DiscordPlan.CombinedIsJoined` | packages/channel-discord/src/renderer.ts:98-104 | the combined text is all texts joined by newlines, but for newlines after empty texts at the start |
| `DiscordPlan.ButtonsOfShown` | packages/channel-discord/src/renderer.ts:122-127 | the k-th button is the k-th one of the button blocks, with its caption, style and identifier |
| `DiscordPlan.RowsByBlocks` | packages/channel-discord/src/renderer.ts:127-135 | the rows of each block are full but for its last one |
| `DiscordPlan.PlanSends` | packages/channel-discord/src/renderer.ts:84-173 | the plan sends all texts, files and buttons of the message's own blocks |

## Left out

- ConfigHash.Stringify: does not model functions, symbols, big integers, sparse arrays or objects other than plain ones, which configurations do not hold; a finite number is the numeral the language prints, so minus zero is zero.
- SendQueue.Queue.ProcessItem: allows any jitter up to the message delay, whatever the configured factor between 0 and 1.
- SendQueue.Queue.DoSend: the test of the `processing` flag at the entry of the consumer is made by the caller, so that the consumer is modelled only while it runs.
- SendQueue.Queue.TimerFires: assumes that a timer never fires before its time; so does `Polling.World.Sleep`.
- ThreadCache.HeldIffFewOthers: for a limit of at least one; a cache with a lower limit holds one entry.
- WorkerPool.RunWithConcurrency: a worker is known by the task it awaits, and workers that reject are kept as a set; which worker took which task is not modelled.
- DoctorAudit.RunAudit: takes the outcome of every check as given; clocks, time limit and abort signal of an audit are not part of this model.
- Polling.AddJitter: the random number is any fraction from 0 up to 1 and its product with the interval is exact; rounding of floating-point numbers is not modelled.
- Polling.PollUntilComplete: errors of a fetch are one outcome, not told apart; the texts of thrown errors are left out throughout.
- LoopDetection.LoopDetector.Create: parameters are integers, as in all modules; fractional, infinite or missing ones are not modelled.
- ArtifactStore.OldestKey: iterates in any order; the map's own order plays no part in the result because stamps are distinct.
- ArtifactStore.Store.Create: all validation errors are one, and the constant author field is omitted; `list`, `search` and `clear` are not modelled.
- WebhookManager.Manager.GetOrCreate: a webhook is named by the creation that delivered it; finding an existing webhook on the platform is part of the creation.
- ChannelRegistry.Registry.LoadAdapter: clearing the registry and finding types by capability are not modelled.
- LlmBridge.Bridge.ProvideResponse: latency measurement is not modelled.
- SpawnGuard.Guard.CheckSpawn: tool policies and artifact resolution of the middleware are not modelled.
- SlackPlan.ItemOf: the conversion to the platform's markup is a parameter, because it is a chain of regular expressions; the icon address is given.
- DiscordPlan.BuildRenderPlan: the platform's limit on the number of rows of one message is not enforced by the code and not modelled; sending the calls is not modelled, here as for the other plans.
- Reconnection with backoff, authentication state, event wiring, sockets and the platforms' clients.
- Normalizing incoming messages apart from entities and threads.
- The error catalogue, wire schemas, configuration schemas, command line and prompts.
- Splitting replies into sentences for speech.
