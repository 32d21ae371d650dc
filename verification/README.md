# Flash-sale backend: a verified model

The repository is a C++ service for flash sales: orders against a database, a read cache with two
levels and a delayed second delete, a Bloom filter before it, an in-flight guard, tokens, text
message codes and an asynchronous log. This project models the parts of it that carry state,
interleaving or word arithmetic, and proves what they keep.

| file | what it models |
|---|---|
| `OrderProtocol`, `OrderInvariants`, `OrderTheorems`, `OrderProgress`, `OrderAnswers`, `OrderSilence`, `OrderService` | an order as a chain of callbacks around a transaction: the machine, its invariant, safety, liveness, what each answer says, the one silent ending, and the object that steps it in place |
| `GuardErasure`, `InflightGuard`, `OrderGuard`, `OrderGate` | the guard as an optimisation of that machine; its four back ends with shared tokens; both together; what the gate adds |
| `CacheAside` | reads, write-backs, commits and deletes on one clock: stale implies a delete to come |
| `DelayDeleter`, `SkuCache`, `TwoLevel`, `StoreTraces`, `LruSpec`, `LocalLru`, `LruTraces`, `LruRecency`, `CacheKeys`, `CStrings` | the cache object, its delayed-delete thread, its two levels, the local list with its map |
| `SkuReads` | the read and warm paths over cache, gate and table |
| `BloomFilter`, `SplitMix`, `Words` | the packed bit array, its hashes, 64-bit words |
| `Base64Url`, `Decimal`, `Password`, `Jwt` | token encoding, signing and verification |
| `SmsScripts`, `SmsTheorems`, `SmsExact`, `SmsLockout`, `SmsService` | the two Redis scripts as atomic steps over expiring keys |
| `RingBuffer`, `LoggerProtocol`, `AsyncLogger` | the bounded log queue and its worker and shutdown protocol |

How the source's notions are put:

- A section under a lock, an atomic operation, a Lua script and a database statement with its
  callback are one step each; every interleaving of steps is a run.
- Copies of captured handles are explicit. A request owns a set of closures; the last one that
  holds the transaction commits it, the last one that holds the token releases it. A copy may go
  at any time after the callback that carries it can no longer run.
- `std::string` is a sequence of bytes where its bytes matter (cache values, tokens) and Dafny's
  `string` elsewhere. 64-bit words are integers below 2^64 with the wrap-around written out.
- Clocks, random draws, the success of each Redis or database call, generated codes and the size
  of the Bloom filter are parameters. JSON and HMAC are function parameters; what is assumed of
  them is stated in `Jwt.Sound` and `SkuReads.Sound`.

## What was found

Properties that the code does not have, each with its exact condition:

- A failed commit: the comment at `src/service/SeckillService.cc:111` says that the commit callback
  only runs after success, while the callback handles failure. Both readings are a setting. If the
  client stays silent, exactly the requests whose commit failed are never answered
  (`OrderTheorems.AnsweredOnce`), and for every user and sku there is such a run
  (`OrderSilence.UnansweredRun`).
- The double delete protects only write-backs that take less than the delay. The bound is exact for
  every key that the mode deletes (`CacheAside.GapBoundExact`).
- Keys and values reach Redis as C strings, the local level keeps them whole. The local level is
  invisible to a write exactly if, with a positive lifetime, its text is not empty and has no zero
  byte (`TwoLevel.TextExact`), and to a set of keys exactly if no two of them are one key up to
  their first zero byte (`TwoLevel.KeysExact`).
- A warmed list differs from the one readers build exactly when the limit is below 100 and below
  the number of rows (`SkuReads.WarmedListExact`).
- Sending a new code does not reset the counter of wrong guesses, so a code can be void before it
  is read. Some run gets there exactly if messages go out at all and either no guess is allowed or
  the cooldown is shorter than the life of a code, which the defaults are
  (`SmsLockout.LockoutExact`, with the run in `SmsLockout.ExhaustedLocksOut`).
- In a bitmap, keys that agree modulo its size share a bit exactly when the size is a multiple of
  64 (`InflightGuard.SameResidueSharesExact`), and keys that share a bit agree modulo the size
  exactly when the size is a multiple of 64 or divides 64
  (`InflightGuard.SharedBitSameResidueExact`). Marks and live tokens are one to one in any case.
- A shutdown of a running logger writes everything that the log ring accepted, whatever happens
  meanwhile, exactly if no caller is past the check of `running` when the shutdown clears it and a
  worker that has already left has left the ring empty (`LoggerProtocol.ShutdownExact`). Once the
  worker has left, all is written exactly if the ring was empty and nobody pushes any more
  (`LoggerProtocol.NothingAfterExit`).
- The stop of the ring is for good. A running logger can lose its worker without being shut down
  exactly if the ring was stopped by an earlier shutdown (`LoggerProtocol.LoseWorkerExact`,
  `LoggerProtocol.StoppedExact`). `LoggerProtocol.RestartLosesWorker` and
  `LoggerProtocol.RestartLosesMessage` are the run that then loses a message.
- An accepted verification consumes a message that was sent, in all runs, exactly if the settings do
  not let the script store a code and then fail: with a cooldown that is not positive it does
  (`SmsTheorems.AcceptedUsesSendExact`).
  with the same key (`SplitMix.KeysMeetExact`).
- The decoder of base64url ignores leftover bits: encoding what it yields gives the text back exactly
  if the text is canonical (`Base64Url.ReencodeExact`).
- The header says that jitter excludes its bound (`src/service/SkuCache.h:138`). The code reaches it,
  by the largest draw and no other (`SkuCache.JitterReachesBound`); the model follows the code.

## Model

| member | source | states |
|---|---|---|
| OrderTheorems.Conservation | src/service/SeckillService.cc:98-208 | in every interleaving with failures anywhere: committed stock plus committed orders is constant per sku, neither stock nor committed stock is negative, and the new orders number the OK answers plus the acknowledged commits not yet reported |
| OrderTheorems.OneOrderPerUser | sql/schema.sql:26-34 | no reachable state, committed or not, holds two orders of one user for one sku |
| OrderTheorems.AnsweredOnce | src/service/SeckillService.cc:98-208 | never two answers; a finished request has exactly one unless its commit failed unreported, and then none; the token is released at most once, by the end, and after the answer if there is one, and its mark stands until then |
| OrderTheorems.OkMeansOrder | src/service/SeckillService.cc:111-126 | after OK a committed order of this user for this sku exists from then on |
| OrderTheorems.RefusalsMean | src/service/SeckillService.cc:133-170 | a duplicate met by the INSERT is a committed order, and a sold-out answer means no committed unit is left: the row lock keeps uncommitted work of others out of sight |
| OrderAnswers.AnswersExact | src/service/SeckillService.cc:62-208 | in every run a request has been given a reply if and only if there was its cause: no stock found for SOLD_OUT, a live mark or an order met for DUPLICATE_ORDER, a failed transaction, statement or reported commit for DB_ERROR, a commit for OK |
| OrderAnswers.StepAnswers | src/service/SeckillService.cc:62-208 | a step answers exactly when there is a cause, with the reply of that cause |
| OrderAnswers.UpdateExact | src/service/SeckillService.cc:130-141 | with stock left the UPDATE takes one unit, locks the row and goes on without an answer; sold out it locks the row, answers SOLD_OUT and rolls back |
| OrderAnswers.InsertExact | src/service/SeckillService.cc:153-181 | without an order of the pair the INSERT adds one row and waits for the commit; with one it answers DUPLICATE_ORDER and rolls back |
| OrderAnswers.GateExact | src/service/SeckillService.cc:62-83 | the gate refuses exactly if the guard is on and a live request has the mark, and otherwise lets in and marks |
| OrderTheorems.CommitView | src/service/SeckillService.cc:84-97 | a commit takes one unit from the committed stock of its sku and makes one order visible, and touches no other sku |
| OrderTheorems.OtherView | src/service/SeckillService.cc:130-208 | no other step, rollback and failed commit included, changes what outside readers see |
| OrderTheorems.BuyersSplit | src/service/SeckillService.cc:111-126 | requests with a committed order are those told OK and those whose callback is due, and no request is both |
| OrderInvariants.StepInv | src/service/SeckillService.cc:58-208 | every step keeps the invariant: what each request holds, lock ownership, row ownership, one mark per live token |
| OrderInvariants.RowOwner | src/service/SeckillService.cc:153-181 | two open transactions never own one uncommitted order |
| OrderProgress.RunsEnd | src/service/SeckillService.cc:98-208 | m orders take at most 63 m steps in any interleaving: no run goes on for ever |
| OrderProgress.NoDeadlock | src/service/SeckillService.cc:128-138 | an unfinished request can move without a failure, or waits for the holder of its sku row, who can |
| OrderProgress.RunsCanFinish | src/service/SeckillService.cc:98-208 | every reachable state can run to an end where all requests are finished and no lock and no mark is left |
| OrderProgress.NothingLeft | src/service/SeckillService.cc:84-97 | once all is finished, no row lock, no mark and no uncommitted change remains |
| OrderProgress.StepShrinks | src/service/SeckillService.cc:98-208 | every step but an arrival strictly lowers the rank of the state |
| OrderService.Service.DoSeckill | src/service/SeckillService.cc:58-78 | the gate in place: refuses as DUPLICATE_ORDER on a live mark, otherwise marks and lets in; keeps the invariant |
| OrderService.Service.OnTransaction | src/service/SeckillService.cc:98-127 | a null transaction is answered DB_ERROR, a real one gets its commit callback and its UPDATE |
| OrderService.Service.OnUpdate | src/service/SeckillService.cc:130-141 | the conditional deduction and its callback in place: the state of the machine's step, whose outcome and answer are those of `OrderAnswers.UpdateExact` |
| OrderService.Service.OnInsert | src/service/SeckillService.cc:153-181 | the idempotent insert and its callback in place: the state of the machine's step, whose outcome and answer are those of `OrderAnswers.InsertExact` |
| OrderService.Service.OnError | src/service/SeckillService.cc:181-206 | both error callbacks roll back and answer DB_ERROR |
| OrderService.Service.DropCopy | src/service/SeckillService.cc:84-97 | the last copy of the transaction commits, the last copy of the token releases, any other copy does neither |
| OrderService.Service.OnCommit | src/service/SeckillService.cc:111-126 | after a commit the keys of the mode go from both cache levels and are queued for the second delete, then the callback answers, once; without a commit the cache is not touched |
| OrderSilence.UnansweredRun | src/service/SeckillService.cc:111-126 | with a client that is silent about failed commits, every user and sku has a run whose request ends unanswered |
| OrderSilence.TokenMayGoFirst | src/service/SeckillService.cc:136-206 | after a rollback was asked for, the token can be released and its mark be free while the database still holds the lock and has to undo |
| GuardErasure.GuardIsSafe | src/service/SeckillService.cc:62-78 | striking the refused requests from any guarded run gives an unguarded run with the same stock, rows and locks and the same answers for the rest |
| GuardErasure.StepErased | src/service/SeckillService.cc:62-78 | each guarded step is the same unguarded step, or vanishes |
| InflightGuard.Guard.TryAcquire | src/service/InflightGuard.h:104-144 | granted exactly when no live token has the place of the key; a refusal changes only its counter; marks and live tokens stay one to one |
| InflightGuard.Guard.DropToken | src/service/InflightGuard.h:139-175 | only the last copy releases, and it clears its own mark and no other |
| InflightGuard.Guard.CopyToken | src/service/InflightGuard.h:52-66 | a copy adds a holder and moves no mark |
| InflightGuard.LiveKeys | src/service/InflightGuard.h:110-121 | no two live tokens share a key; with sets a place is held exactly for the keys of live tokens |
| InflightGuard.BitPlaceInside | src/service/InflightGuard.h:83-87 | word and bit of every key lie inside the bitmap, for every size |
| InflightGuard.SameResidueSharesExact | src/service/InflightGuard.h:122-129 | keys that agree modulo the size share a bit, for all keys, if and only if the size is a multiple of 64 |
| InflightGuard.SharedBitSameResidueExact | src/service/InflightGuard.h:122-129 | keys that share a bit agree modulo the size, for all keys, if and only if the size is a multiple of 64 or divides 64 |
| InflightGuard.Granted | src/service/InflightGuard.h:132-144 | a granted token adds exactly its own place and keeps all places apart |
| OrderGuard.TurnedAwayExact | src/service/SeckillService.cc:69-78 | with the guard's own places as marks, the place of an order is taken exactly if a live token holds it |
| OrderGuard.OwnOrdersDoNotBlock | src/service/InflightGuard.h:94-121 | with sets no order is turned away because of the same user's order for another sku |
| OrderGate.OneAtATime | src/service/SeckillService.cc:62-83 | with the guard on, no two requests of one user and sku are between the gate and their release at once |
| OrderGate.DuplicateIsOlder | src/service/SeckillService.cc:158-170 | an order that the INSERT of a guarded request meets was committed before that request arrived |
| SplitMix.KeysOfOneUserDiffer | src/service/InflightGuard.h:94-101 | keys of one user for different skus always differ |
| SplitMix.KeysMeetExact | src/service/InflightGuard.h:94-101 | for every user and sku, every user has exactly one sku word with the same key |
| CacheAside.StaleMeansPending | src/service/SkuCache.cc:157-200 | with timely write-backs, an entry older than a committed order on its key implies that order's callback has yet to run, or a delayed delete of the key is queued or under way, or Redis has refused one |
| CacheAside.WrongMeansPending | src/service/SeckillService.cc:334-352 | the same for values: a cached value other than the database's present answer to its query is about to be deleted, or a delete of it was refused |
| CacheAside.GapBoundExact | src/service/SkuCache.h:175-209 | for every key that the mode deletes, every delay and every gap not below it there is a run that leaves a stale entry with nothing to come and nothing refused |
| CacheAside.BoundedStaleness | src/service/SkuCache.cc:137-155 | in every mode, a served value is what the database answered to its query, a warm-up's shorter list included, less than base lifetime, jitter and its own write-back delay ago |
| CacheAside.OrderKeysAreTexts | src/service/SkuCache.cc:188-200 | the abstract keys of an order are the texts that the cache object deletes |
| DelayDeleter.QueueProtocol | src/service/SkuCache.h:157-218 | the queue is sorted by fire time, scheduled is fired then queued in order, nothing fires early or twice, what is left after the stop is abandoned |
| DelayDeleter.PollExact | src/service/SkuCache.h:191-209 | one look at the queue, case by case: a stopped thread leaves, an idle one sleeps until the first task is due and then takes that task and no other |
| DelayDeleter.FiredAsAsked | src/service/SkuCache.h:175-206 | the i-th batch fired is the i-th asked for, no sooner than the delay after it |
| DelayDeleter.AllIsFired | src/service/SkuCache.h:175-209 | as long as the thread is not stopped, as many rounds as tasks are waiting, once all are due, fire all that was ever asked for |
| DelayDeleter.StepInv | src/service/SkuCache.h:191-209 | every locked section keeps that, and a thread that has left fires nothing |
| DelayDeleter.Deleter.Round | src/service/SkuCache.h:191-209 | the first task goes from the queue and its keys are returned exactly if it is due and the thread is not stopped; otherwise nothing is returned and the queue stays |
| DelayDeleter.Deleter.Enqueue | src/service/SkuCache.h:175-183 | appends a task one delay from now, ignores an empty one |
| SkuCache.SkuCache.Get | src/service/SkuCache.cc:55-98 | both levels in order, failure as miss, each lookup counted once as hit, miss or failure; what it finds is said by `StoreTraces.LookupThroughBoth` |
| SkuCache.SkuCache.Setex | src/service/SkuCache.cc:100-114 | the new contents of both levels, Redis with key and text up to their first zero byte, the local one whole and also when Redis fails |
| SkuCache.WithoutMeans | src/service/SkuCache.cc:163-170 | a DEL removes what Redis receives of its keys and nothing else |
| SkuCache.SkuCache.Invalidate | src/service/SkuCache.cc:157-179 | detail and list go from both levels together and are queued for the second delete |
| SkuCache.SkuCache.OnOrder | src/service/SkuCache.cc:188-200 | exactly the keys of the configured mode go, and the same keys are queued |
| SkuCache.SkuCache.FireBatch | src/service/SkuCache.cc:28-33 | a fired task deletes in Redis exactly those of its keys whose DEL is taken, each on its own, and all of them locally |
| SkuCache.WithoutTakenMeans | src/service/SkuCache.cc:116-127 | exactly what Redis receives of the keys it takes goes |
| SkuCache.TtlWithJitter | src/service/SkuCache.cc:45-53 | lifetimes lie between the base and the base plus the jitter bound, both included |
| SkuCache.JitterReachesBound | src/service/SkuCache.cc:51-52 | the bound is reached, by the largest draw and no other |
| CacheKeys.KeysDistinct | src/service/CacheKeys.h:40-45 | detail keys are injective in the id and never the list key |
| CacheKeys.KeysPlain | src/service/CacheKeys.h:40-60 | with a prefix and a version without zero bytes every key reaches Redis whole |
| CacheKeys.VersionsApart | src/service/CacheKeys.h:17-26 | keys of two versions without a colon never meet |
| TwoLevel.Transparency | src/service/SkuCache.cc:55-127 | in every run without Redis failures over keys that Redis tells apart, that writes no empty text and none with a zero byte, lookups through both levels answer as Redis alone |
| TwoLevel.KeysExact | src/service/SkuCache.cc:97-124 | for a set of keys that holds in all such runs if and only if no two of them are one C string |
| TwoLevel.TextExact | src/service/SkuCache.cc:83-113 | a write is seen alike with and without the local level if and only if, with a positive lifetime, its text is not empty and has no zero byte |
| StoreTraces.LookupExact | src/service/SkuCache.cc:72-124 | after any operations on any Redis contents a lookup finds a text if and only if it is what the last SETEX of that Redis key wrote, not deleted since and not past its lifetime |
| StoreTraces.LookupThroughBoth | src/service/SkuCache.cc:55-127 | the same through the local level and Redis together |
| CStrings.CutExact | src/service/SkuCache.cc:111 | a text arrives whole exactly if it has no zero, and what arrives has none |
| LocalLru.LocalLruCache.Get | src/service/LocalLruCache.h:46-58 | list and map refine the association list: a hit moves to the front, an expired entry goes |
| LocalLru.LocalLruCache.Put | src/service/LocalLruCache.h:62-76 | refreshes in place or inserts in front, and only an insertion over capacity evicts the tail |
| LocalLru.LocalLruCache.Del | src/service/LocalLruCache.h:79-85 | removes exactly the key |
| LocalLru.LocalLruCache.EvictTail | src/service/LocalLruCache.h:100-105 | drops exactly the last entry from list and map |
| LocalLru.TableAgrees | src/service/LocalLruCache.h:107-110 | the map finds a key exactly when the list has it, and finds its entry |
| LruSpec.PutKeeps | src/service/LocalLruCache.h:62-76 | keys stay unique, the size within capacity, and the key just put is never its own victim |
| LruTraces.LruInclusion | src/service/LocalLruCache.h:46-105 | on every trace the smaller cache is a subsequence of the larger and each of its hits is the same hit there |
| LruTraces.RecentSurvives | src/service/LocalLruCache.h:46-105 | an entry survives while fewer distinct other keys than the capacity are put or hit |
| LruRecency.RecencyOrder | src/service/LocalLruCache.h:46-105 | after every trace the entries stand in the order of their last put or hit |
| LruRecency.VictimIsOldest | src/service/LocalLruCache.h:75-105 | what a put pushes out was put or hit longest ago of all |
| LruRecency.PutExact | src/service/LocalLruCache.h:62-76 | a put keeps every other entry, except that a new key in a full cache pushes out the last one |
| LruRecency.GetExact | src/service/LocalLruCache.h:46-58 | a get keeps every other entry, and its own unless that has expired; a hit goes to the front |
| SkuReads.Reads.DetailSku | src/service/SeckillService.cc:283-324 | over a cache that holds no wrong answers, junk allowed: every answer is the table's, and the cache stays truthful; turned away, and counted, is exactly what the switched-on filter excludes; a cached text that answers is the answer, whether the database is up or not, and nothing is written |
| SkuReads.Reads.ReadThrough | src/service/SeckillService.cc:300-320 | a cached row or sentinel is the answer and nothing is written; otherwise the database answers and one write follows; junk goes from Redis with the list and is queued for the second delete |
| SkuReads.Reads.Look | src/service/SeckillService.cc:300-302 | finds what the levels hold while Redis answers, what the local level holds while it does not, and leaves Redis alone |
| SkuReads.Reads.QueryDetail | src/service/SeckillService.cc:326-363 | answers the row or its absence, and caches the row's text or the sentinel, each with its own lifetime, so that the next lookup finds it |
| SkuReads.Reads.ListSkus | src/service/SeckillService.cc:211-242 | a cached list is the answer and nothing is written; otherwise the first 100 rows, one write, and an unreadable list is dropped and queued; unless a warm-up cut the list short every answer is the table's |
| SkuReads.Reads.WarmCache | src/service/SeckillService.cc:365-415 | every row whose write Redis took is then there under its key until its own lifetime ends, the cached list is the first 100 of them, details stay truthful, and the list does exactly under the condition below; a failed query is reported and changes nothing |
| SkuReads.WarmedListExact | src/service/SeckillService.cc:371-400 | the warmed list is the readers' list exactly if the limit reaches 100 or the number of rows |
| SkuReads.SetexFine | src/service/SkuCache.cc:100-114 | writing what the table says keeps both levels free of wrong answers, eviction included |
| BloomFilter.Filter.AddId | src/service/BloomFilter.h:69-79 | the packed words gain exactly the probes of the id |
| BloomFilter.Filter.MaybeContains | src/service/BloomFilter.h:83-94 | true exactly if every probe of the id is a probe of some added id, or there are no bits |
| BloomFilter.Filter.SetBit | src/service/BloomFilter.h:103-105 | sets one position and no other, inside the array |
| BloomFilter.SlotIsWalk | src/service/BloomFilter.h:74-77 | the probes walk the circle of 64-bit words from the first hash in steps of the second, each reduced to the array |
| BloomFilter.WalkDistinct | src/service/BloomFilter.h:73-77 | with a second hash that has an inverse no two words of the walk are the same |
| BloomFilter.BuildFilter | src/service/SeckillService.cc:431-435 | the rebuild loop adds exactly the ids of the table |
| BloomFilter.BloomGate.RebuildBloom | src/service/SeckillService.cc:417-453 | the whole filter is replaced at once and knows every id that was read; a failed query is reported and changes nothing |
| BloomFilter.BloomGate.PreCheck | src/service/SeckillService.cc:295-299 | turns away, and counts, exactly what the published filter excludes when switched on: no id that the last published rebuild read, and none at all before one |
| SplitMix.SplitMixBijective | src/service/BloomFilter.h:118-123 | the mixer is a bijection on 64-bit words, with its inverse |
| SplitMix.FirstHashInjective | src/service/BloomFilter.h:71 | different ids have different first hashes |
| SplitMix.RepairTriggersOnce | src/service/BloomFilter.h:72-73 | exactly one id makes the raw second hash vanish |
| Words.XorShiftInverse | src/service/BloomFilter.h:120-122 | the xor-shift step is undone by its inverse on every word |
| Words.ShrExact | src/service/BloomFilter.h:120-122 | a right shift divides by the power of two |
| Words.ShlExact | src/service/InflightGuard.h:96 | a left shift multiplies by the power of two modulo 2^64 |
| Base64Url.RoundTrip | src/service/Jwt.cc:52-106 | decoding an encoding gives the bytes back for every length, although the accumulator wraps |
| Base64Url.ReencodeExact | src/service/Jwt.cc:80-106 | encoding what was decoded gives the text back if and only if the text is canonical: a possible length and no leftover bits |
| Base64Url.DecodeExact | src/service/Jwt.cc:95-105 | the decoder accepts exactly the texts over the alphabet and yields a byte for every full eight bits |
| Base64Url.Rfc4648Examples | src/service/Jwt.cc:52-78 | examples of section 10 of RFC 4648 |
| Base64Url.EncodeShape | src/service/Jwt.cc:52-78 | the encoded length is the ceiling of 4n/3 and every symbol is in the alphabet |
| Base64Url.Base64UrlDecode | src/service/Jwt.cc:80-106 | the loop with its lazily built table computes the decoder, refusing any other symbol |
| Base64Url.Base64UrlEncode | src/service/Jwt.cc:52-78 | the loop with its two remainders computes the encoder |
| Password.ConstantTimeEquals | src/service/password.cc:52-63 | the accumulated difference decides plain equality |
| Decimal.TextRoundTrip | src/service/Jwt.cc:126 | reading the decimal text of any 64-bit integer gives it back |
| Decimal.TextShape | src/service/Jwt.cc:126 | the text is the shortest decimal form |
| Decimal.StollExact | src/service/Jwt.cc:185 | blanks, a sign or none, digits and anything after them read as that number if it fits, and as nothing without digits |
| Jwt.SignVerify | src/service/Jwt.cc:117-190 | a signed token verifies exactly before its expiry and gives exactly its claims |
| Jwt.AcceptedIsSigned | src/service/Jwt.cc:136-190 | an accepted token is three dotless parts whose third decodes to the digest of the first two, of this issuer, not expired |
| Jwt.AcceptedExact | src/service/Jwt.cc:136-190 | accepted with these claims if and only if three parts around two dots, a header that names HS256, the digest of the first two parts as third, and an unexpired payload of this issuer that carries the claims |
| Jwt.RaisedExact | src/service/Jwt.cc:152-190 | an exception leaves the verification exactly for documents of the wrong kind behind checks that passed |
| Jwt.SplitJoined | src/service/Jwt.cc:138-146 | the three parts are recovered from their join |
| Jwt.Signer.Verify | src/service/Jwt.cc:136-190 | the checks in their order, exceptions included, and the claims filled in on success |
| SmsTheorems.AcceptedUsesLastCode | src/service/SmsService.cc:40-55 | an accepted verification uses the last stored code of the number, in time, neither used up nor void |
| SmsTheorems.AcceptedUsesSendExact | src/service/SmsService.cc:20-55 | in all runs every accepted verification consumes a successful send if and only if the settings do not let the script store a code and then fail |
| SmsTheorems.FailedSendAccepted | src/service/SmsService.cc:26-27 | under the other settings a failed send and its code are enough |
| SmsTheorems.AcceptedCodesDiffer | src/service/SmsService.cc:48-52 | two accepted verifications use different stored codes |
| SmsTheorems.GuessesPerCode | src/service/SmsService.cc:40-55 | from one stored code to the next "wrong" is said at most maxAttempts times |
| SmsTheorems.FreshCodeAccepted | src/service/SmsService.cc:43-51 | a code just sent is accepted exactly if the left-over counter is below the limit, and void otherwise |
| SmsLockout.LockoutExact | src/service/SmsService.cc:20-55 | some run sends a code that is void at once if and only if messages go out and no guess is allowed or the cooldown is shorter than a code's life |
| SmsLockout.ExhaustedLocksOut | src/service/SmsService.cc:43-55 | such a run: one message, all guesses wrong, the cooldown waited out, the next message |
| SmsLockout.RunBounds | src/service/SmsService.cc:53-54 | the counter of wrong guesses never outlives a code sent with the last message |
| SmsTheorems.SendsApart | src/service/SmsService.cc:20-30 | any two messages to one number are at least the cooldown apart |
| SmsExact.SendExact | src/service/SmsService.cc:20-30 | the reply from the history, the time and the settings: refused with the rest of the cooldown exactly if a message went out less than a cooldown ago, for the quota exactly if not that and dailyLimit went out on the live key, otherwise sent |
| SmsExact.BurstGoesOut | src/service/SmsService.cc:24-30 | asked for a cooldown apart within one quota key, dailyLimit messages go out |
| SmsExact.VerifyExact | src/service/SmsService.cc:40-55 | the reply from the history, the time and the settings: missing, void, accepted or wrong exactly under its own condition |
| SmsTheorems.QuotaHolds | src/service/SmsService.cc:24-30 | while one quota key lives at most dailyLimit messages go out on it |
| SmsTheorems.QuotaRestarts | src/service/SmsService.cc:28-29 | a quota key opens anew only after the one before ran out |
| SmsScripts.RunInv | src/service/SmsService.cc:20-55 | in every run the expiring keys say what the history says |
| SmsService.KeysDiffer | src/service/SmsService.h:74-77 | within each family keys are injective for valid numbers, and in the day |
| SmsService.KeysApart | src/service/SmsService.h:74-77 | the four families of keys never meet |
| SmsService.IsValidPhone | src/service/SmsService.cc:103-109 | eleven digits that begin with 1, and nothing else |
| SmsService.Service.EvalSend | src/service/SmsService.cc:20-30 | the first script command by command; a refused SETEX keeps what was written before it; its reply is said by `SmsExact.SendExact` |
| SmsService.Service.EvalVerify | src/service/SmsService.cc:40-55 | the second script command by command |
| SmsService.Service.SendCode | src/service/SmsService.cc:120-182 | each reply of the script as its result, which `SmsExact.SendExact` determines; a message that is not delivered keeps its quota |
| SmsService.Service.VerifyCode | src/service/SmsService.cc:184-222 | each reply of the script as its result; the guess is compared up to its first zero |
| RingBuffer.Ring.Push | src/logging/ring_buffer.h:27-37 | appends, or drops the new item when full, and says which |
| RingBuffer.Ring.WaitAndPopBatch | src/logging/ring_buffer.h:40-51 | takes out the whole queue in order, nothing only when stopped and empty |
| LoggerProtocol.NothingLost | src/logging/AsyncLogger.cc:57-80 | accepted is written, then in hand, then queued; admitted is accepted, dropped or about to be pushed |
| LoggerProtocol.ExitWritesAll | src/logging/AsyncLogger.cc:65-80 | the worker leaves only after the stop and with everything accepted so far written |
| LoggerProtocol.NothingAfterExit | src/logging/AsyncLogger.cc:44-63 | after that nothing is written without a new start, and all that was accepted is written if and only if the ring was empty and nobody pushes |
| LoggerProtocol.WorkerFinishes | src/logging/AsyncLogger.cc:44-55 | after the stop the worker never waits: alone it writes all and leaves in a known number of steps |
| LoggerProtocol.ShutdownExact | src/logging/AsyncLogger.cc:44-63 | for a running logger, all shutdowns write everything accepted if and only if no caller is past the check of `running` and a worker that has left has left nothing in the ring |
| LoggerProtocol.LatePush | src/logging/AsyncLogger.cc:57-63 | from every state with such a caller, a shutdown that accepts its message, does not count it as dropped and does not write it |
| LoggerProtocol.LatePushReached | src/logging/AsyncLogger.cc:15-63 | a start and one call of `log` reach such a state |
| LoggerProtocol.StopIsForGood | src/logging/ring_buffer.h:53-59 | the stop survives every run, so a restarted worker leaves at the first empty ring |
| LoggerProtocol.LoseWorkerExact | src/logging/AsyncLogger.cc:15-80 | a running logger with a worker can come to run without one, without being shut down, if and only if the ring is stopped |
| LoggerProtocol.StoppedExact | src/logging/ring_buffer.h:53-59 | the ring is stopped exactly from the first shutdown on |
| LoggerProtocol.RestartLosesWorker | src/logging/AsyncLogger.cc:15-55 | a run after which the logger counts as running, its worker has left and nobody is at the ring |
| LoggerProtocol.RestartLosesMessage | src/logging/AsyncLogger.cc:44-63 | from there one logged message is accepted and not written by every shutdown, though no caller overlaps one |
| AsyncLogger.Logger.Start | src/logging/AsyncLogger.cc:15-42 | creates a worker whose first rounds may run before the start returns; it has left if they find a stopped ring empty; a second start does nothing |
| AsyncLogger.Logger.WorkerLoop | src/logging/AsyncLogger.cc:65-80 | the rounds of a working worker, with pushes and a stop by others between them, end where the round-by-round function says: ring, file, rest of the schedule, and whether it left |
| AsyncLogger.WorkInOrder | src/logging/AsyncLogger.cc:65-80 | while no visit overfills the ring, the file gets what was queued and then all that was offered, in order and once |
| AsyncLogger.WorkEnds | src/logging/AsyncLogger.cc:66-71 | a stopped worker leaves an empty ring by its second quiet round |
| AsyncLogger.Logger.Shutdown | src/logging/AsyncLogger.cc:44-55 | joins the worker while late callers push: a working one writes all that is in the ring until it leaves, one that has left writes nothing and the ring keeps its items; a second call does nothing |
| AsyncLogger.Logger.SecondLife | src/logging/AsyncLogger.cc:15-63 | start, log and shutdown again: the message stays in the ring and the file is as it was |

## Left out

- Drogon, MySQL, Redis and hiredis internals: only the step semantics that the comments state; C++ memory orders and condition-variable wake-ups are not modelled.
- Multi-row transactions, isolation levels and gap locks: the model has one row lock per sku and the unique key of the order table.
- JSON texts, HMAC, PBKDF2 and random sources are opaque; of the JSON library only that reading undoes writing, and which conversions raise, is used.
- Bloom filter sizing in floating point and its false-positive rate: size and number of hashes are parameters.
- In-place object lists: `LocalLruCache` keeps its nodes in a map from node numbers and its list as a sequence of them; splicing is modelled on those, pointers and shared values are not.
- CacheAside.StaleMeansPending: the abandonment of queued tasks at process shutdown is not part of that machine; `DelayDeleter.QueueProtocol` covers it.
- TwoLevel.Transparency: assumes that Redis refuses a lifetime that is not positive, and that both levels read one clock.
- SkuReads.Reads.DetailSku: describes the time between two changes of the table, for a configured prefix and version without zero bytes and a JSON library that writes none; concurrent changes are the subject of `CacheAside`.
- SmsScripts.RunInv: times to live are exact in whole ticks, so the rounding of Redis' TTL command is not modelled; the counters are unbounded.
- The day string, the time until midnight and the code generator: parameters of the SMS model.
- Rotation, flushing and the level filter of the log file: `written` is what the worker hands to it. A start that overlaps a shutdown races on the thread object and is not a step.
- AsyncLogger.Logger.WorkerLoop: others act between its rounds as a schedule says; all interleavings are in `LoggerProtocol`.
- Password hashing, salts, hex text, `LoginGuard`, `RegisterGuard`, `SessionStore`, `UserService`: small call chains with easier invariants.
- Controllers, configuration, wiring, scripts: plumbing.
- Timing behaviour of the constant-time comparison: only what it decides.
