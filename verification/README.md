# MuxMail verification

A Dafny model of the core of MuxMail, a single-process mail gateway, with proofs of the
properties its parts promise. `dafny verify dfyconfig.toml` checks the whole project.

- **Canonical request form** (`Decimal`, `JsonNumber`, `CanonicalNumber`, `NumberTexts`,
  `NumberGrammar`, `TextOrder`, `JsonString`, `RequestForm`): the number parser and printer
  with exponents of any size, and the text that a request's fingerprint hashes. The hash is
  opaque; claims are about its preimage.
- **Lite structures** (`Idempotency`, `DelayQueue`, `QueueOrder`, `RateLimiter`,
  `RateLimits`): classes for the cache, the queue with its binary heap, and the limiter,
  each proved against value-level effects, and the properties of those effects over whole
  runs. Go map iteration is an arbitrary choice; time is an integer number of nanoseconds.
- **Send admission** (`Admission`, `AdmissionSafety`, `AdmissionEffects`, `Expiry`,
  `FirstAttempts`, `SendRequests`): the mutex-protected calls of a request are atomic
  actions, and any number of requests, workers, clock ticks and a close interleave.
  `SendRequests` is the handler itself over the three classes, tied to the actions.
- **Delivery** (`Domain`, `WorkerTask`, `Delivery`, `DeliverySafety`, `Draining`,
  `DeliveryTiming`, `WorkerLoop`): one attempt of the worker as a class, and any number of
  workers as a state machine, tied together by one turn of the worker's loop; provider
  replies are nondeterministic.
- **Routing and configuration** (`Routing`, `ConfigValidation`, `ProviderResolver`): what a
  configuration without errors guarantees to every message.
- **Audit log and webhooks** (`Jsonl`, `MessageLog`, `Suppression`, `ProviderEvents`,
  `EventConvergence`): rotating files as sequences of records with every operation able to
  fail, the queries over them, and the convergence of provider events.

The documented promise that equal numbers get equal fingerprints holds for number sources
of at most 8192 bytes. The byte limit of template variables is configurable
(internal/config/validation.go:193-195), and above 8192 it fails for long integers:
`CanonicalNumber.LongIntegersHaveTwoTexts` gives the inputs and `CanonicalNumber.SameTextIff`
the exact condition.

## Model

| member | source | states |
|---|---|---|
| CanonicalNumber.CanonicalJsonNumber | internal/domain/helpers.go:207-331 | The imperative parser and printer accepts a text or rejects it, and prints it, exactly as the canonical layout of the number the grammar reads from it; all other number lemmas are about that layout |
| CanonicalNumber.AcceptsExactlyTheGrammar | internal/domain/helpers.go:207-274 | A text is accepted if and only if it is a number of section 6 of RFC 8259 |
| CanonicalNumber.CanonicalTextIsFaithful | internal/domain/helpers.go:207-331 | For inputs of any length and exponent the output is again a JSON number, denotes the same rational, and is its own canonical text |
| CanonicalNumber.SameTextIff | internal/domain/helpers.go:207-350 | Exact condition: two numbers get one text if and only if they are equal as rationals and, when their magnitude exceeds 8192, both or neither are spelled without a positive net exponent |
| CanonicalNumber.BoundedNumbersCompareByValue | internal/domain/helpers.go:207-350 | For sources of at most 8192 bytes equal text means equal value and conversely, across integer, fractional, padded and scientific output |
| CanonicalNumber.LongIntegersHaveTwoTexts | internal/domain/helpers.go:291-306 | Counterexample beyond the bound: 1 followed by k > 8192 zeros and 1ek are equal and print differently |
| CanonicalNumber.BoundedLongIntegerIsScientific | internal/domain/helpers.go:291-306 | Within 8192 source bytes a number of magnitude above 8192 always has a positive net exponent, so the two spellings never meet |
| CanonicalNumber.CanonicalKeepsValue | internal/domain/helpers.go:276-331 | Laying a number out canonically keeps its rational value |
| CanonicalNumber.CanonicalIsIdempotent | internal/domain/helpers.go:276-331 | The canonical layout of a canonical layout is itself |
| CanonicalNumber.SameCanonicalIff | internal/domain/helpers.go:276-331 | Canonical layouts agree exactly on equal values spelled on the same side of the 8192 limit |
| CanonicalNumber.ParseJsonNumber | internal/domain/helpers.go:207-274 | The index-driven parser finds sign, digits, fraction length and exponent of the grammar's reading, or rejects exactly when there is none |
| CanonicalNumber.ParseInteger | internal/domain/helpers.go:208-233 | Reads the sign and the longest digit run and rejects an empty run or a leading zero |
| CanonicalNumber.ParseFraction | internal/domain/helpers.go:235-246 | Reads a fraction as the grammar does and stops right behind it |
| CanonicalNumber.ParseExponent | internal/domain/helpers.go:248-274 | The accumulated unbounded exponent equals the value of the grammar's exponent part; trailing text is rejected |
| CanonicalNumber.CancelZeros | internal/domain/helpers.go:276-289 | Cancelling trailing zeros against a negative exponent keeps the significant digits and the magnitude and never crosses the sign of the exponent |
| CanonicalNumber.PrintInteger | internal/domain/helpers.go:291-303 | Prints the digits and exponent of an integer as the canonical layout of its value, scientific beyond 8192 zeros |
| CanonicalNumber.PrintFraction | internal/domain/helpers.go:306-331 | Prints fractional and zero-padded forms as the canonical layout |
| CanonicalNumber.CanonicalScientificParts | internal/domain/helpers.go:342-350 | Trailing zeros move from the digits into the exponent, no more and no fewer |
| CanonicalNumber.CanonicalScientificNumber | internal/domain/helpers.go:333-340 | Scientific text of the trimmed digits, without an exponent part when it is zero |
| NumberTexts.TextByValue | internal/domain/helpers.go:276-331 | The text of every nonzero number, spelled out from its significant digits and power of ten: point and zeros up to 8192, an exponent part beyond, and written-out zeros beyond 8192 only from sources longer than 8192 bytes |
| NumberTexts.ExponentIff | internal/domain/helpers.go:291-331 | Of sources within 8192 bytes exactly the numbers that need more than 8192 padding zeros print with an exponent part |
| NumberTexts.DenotesOne | internal/domain/helpers.go:207-289 | Every accepted nonzero number is, as a rational, one digit string without zeros at its ends times a power of ten |
| NumberTexts.DenotesIsUnique | internal/domain/helpers.go:207-289 | That reading of a number is unique |
| NumberTexts.FractionAndExponent | internal/domain/helpers.go:207-274 | -12.5e2 is read as minus 1250 |
| NumberTexts.LeadingZeros | internal/domain/helpers.go:207-274 | 0.05 is read as one twentieth |
| NumberTexts.NegativeExponent | internal/domain/helpers.go:207-274 | 3E-2 is read as three hundredths |
| NumberTexts.PositiveExponent | internal/domain/helpers.go:207-274 | 70e+1 is read as 700 |
| NumberGrammar.MachineAcceptsTheGrammar | internal/domain/helpers.go:207-274 | A text is accepted if and only if the nine-state machine of section 6 of RFC 8259 ends in a complete number on it |
| JsonNumber.ScanAcceptsTheGrammar | internal/domain/helpers.go:207-274 | The grammar of section 6 of RFC 8259 is unambiguous and the reader accepts exactly its texts |
| JsonNumber.ScanInvertsText | internal/domain/helpers.go:207-274 | Reading the text of a well-formed number gives that number back |
| Decimal.NormalFormIsUnique | internal/domain/helpers.go:276-350 | Equal rationals have the same significant digits and magnitude |
| RequestForm.CanonicalRequestJson | internal/domain/helpers.go:120-134 | The builder writes the fingerprint preimage: locale, recipient, then the variables |
| RequestForm.WriteCanonicalVars | internal/domain/helpers.go:136-162 | Variables come in ascending key order, so the text does not depend on map iteration order; the first bad number fails the whole text |
| RequestForm.WriteCanonicalValue | internal/domain/helpers.go:164-205 | A string, boolean or number is written as its canonical text, and a bad number is an error |
| RequestForm.PreimageIsTheMeaning | internal/domain/helpers.go:120-205 | For numbers within 8192 bytes two requests have one preimage if and only if locale, recipient and variables agree, numbers compared by value |
| RequestForm.RequestTextIsInjective | internal/domain/helpers.go:120-205 | Equal preimages mean equal locale, recipient and variables up to numeric value, with no bound on number length |
| RequestForm.SameRequestTextIff | internal/domain/helpers.go:120-205 | Exact condition for equal preimages with numbers of any length |
| RequestForm.RejectsExactlyBadNumbers | internal/domain/helpers.go:164-205 | A preimage exists if and only if every number variable is a JSON number |
| RequestForm.PreimageOfOneVariable | internal/domain/helpers.go:120-162 | The preimage of a request with one boolean variable, character by character |
| JsonString.NamedEscapes | internal/domain/helpers.go:368-371 | The two-character escapes of encoding/json |
| JsonString.HexEscapes | internal/domain/helpers.go:368-371 | Less-than, greater-than and ampersand are escaped as encoding/json does by default |
| JsonString.ControlEscapes | internal/domain/helpers.go:368-371 | Line separators and control characters without a short escape are written in four hex digits |
| JsonString.ReadStringInvertsQuote | internal/domain/helpers.go:368-371 | Reading a written JSON string of section 7 of RFC 8259 gives the string back and leaves what follows it |
| JsonString.QuoteIsSelfDelimiting | internal/domain/helpers.go:368-371 | Two texts that begin with written strings and are equal have equal strings and equal remainders |
| TextOrder.SortedKeys | internal/domain/helpers.go:142-146 | The keys of a map, collected in any order, are put in the one ascending order |
| TextOrder.LessAtFirstDifference | internal/domain/helpers.go:142-146 | One string is below another if and only if it is a proper prefix or lower at their first difference |
| TextOrder.AscendingIsUnique | internal/domain/helpers.go:142-146 | A set of strings has one ascending listing |
| Idempotency.IdempotencyCache.New | internal/lite/idempotency_cache.go:72-89 | A cache exists if and only if capacity and lifetime are positive; it starts empty and valid |
| Idempotency.IdempotencyCache.DeleteExpired | internal/lite/idempotency_cache.go:272-282 | Visiting the map in any order drops an entry if and only if it is queued and its creation time plus the lifetime has come |
| Idempotency.IdempotencyCache.FindOldestQueued | internal/lite/idempotency_cache.go:300-322 | Finds the minimum non-pending entry under creation time and key, whatever the order of the visit |
| Idempotency.IdempotencyCache.EvictOverflowExceptPending | internal/lite/idempotency_cache.go:300-322 | Evicts oldest queued entries until the map fits; fails only when pending entries alone exceed the limit |
| Idempotency.IdempotencyCache.Check | internal/lite/idempotency_cache.go:92-115 | Expires entries and answers new, conflict or replay; new exactly when no pending entry and no queued one with lifetime left stands under the key; validity is kept |
| Idempotency.IdempotencyCache.Reserve | internal/lite/idempotency_cache.go:118-158 | New map and outcome equal the specified effect, and the outcome is read off the entry under the key: pending conflicts, a queued one replays or conflicts until creation time plus lifetime, otherwise the key is reserved unless pending entries fill the cache; unused reservations and pending entries stay in bijection |
| Idempotency.IdempotencyCache.MarkQueued | internal/lite/idempotency_cache.go:161-208 | New map and outcome equal the specified effect and validity is kept |
| Idempotency.IdempotencyReservation.CompleteQueued | internal/lite/idempotency_cache.go:211-238 | On an unused reservation of a valid cache and a nonempty id completion cannot fail; other uses leave the map alone |
| Idempotency.IdempotencyReservation.Release | internal/lite/idempotency_cache.go:241-257 | Drops the reservation's pending entry once and keeps the bijection |
| Idempotency.ReserveIsAllOrNothing | internal/lite/idempotency_cache.go:118-158 | Every refusal leaves exactly the post-expiry map; a success inserts one pending entry and evicts at most the non-pending minimum; full means only pending entries at the limit; the evicted-itself error cannot arise |
| Idempotency.ReserveAnswers | internal/lite/idempotency_cache.go:118-158 | The outcome of a reservation, in arithmetic on the entry under its key |
| Idempotency.ReserveLeaves | internal/lite/idempotency_cache.go:118-158 | A reservation removes only queued entries; one with lifetime left goes only if none like it is older, and only for a reservation that succeeds |
| Idempotency.MarkAnswers | internal/lite/idempotency_cache.go:161-208 | Why MarkQueued refuses, in arithmetic on the entry under its key, and the entry it stores |
| Idempotency.OldestIsLeast | internal/lite/idempotency_cache.go:300-337 | The victim was created no later than any queued entry, and is least by application, scene and hash among those created with it |
| Idempotency.MarkQueuedIsAllOrNothing | internal/lite/idempotency_cache.go:161-208 | The same for MarkQueued; its full error cannot arise within the limit |
| Idempotency.ReserveKeepsTheRest | internal/lite/idempotency_cache.go:118-158 | Nothing pending expires or is evicted and at most one live entry is lost |
| Idempotency.PendingAfterReserve | internal/lite/idempotency_cache.go:118-158 | Reserve adds exactly its own pending entry |
| Idempotency.PendingAfterMarkQueued | internal/lite/idempotency_cache.go:161-208 | MarkQueued changes no pending entry |
| Idempotency.ShrinkByOne | internal/lite/idempotency_cache.go:300-322 | One entry too many costs exactly the oldest queued entry |
| Idempotency.ShrinkKeepsPending | internal/lite/idempotency_cache.go:300-322 | Eviction keeps every pending entry and changes no entry it keeps |
| Idempotency.OldestIsUnique | internal/lite/idempotency_cache.go:300-337 | The eviction victim is unique, so map order cannot matter |
| Idempotency.OlderIsStrictOrder | internal/lite/idempotency_cache.go:328-337 | Creation time and key form a strict total order |
| Idempotency.CacheAgreesWithUnboundedMap | internal/lite/idempotency_cache.go:92-257 | Over any run the cache agrees, on every key it still holds, with a map that takes the same writes and releases and never expires or evicts |
| DelayQueue.Up | internal/lite/memory_queue.go:255-283 | Sifting up restores the heap and keeps the multiset |
| DelayQueue.Down | internal/lite/memory_queue.go:255-283 | Sifting down restores the heap and keeps the multiset |
| DelayQueue.HeapPush | internal/lite/memory_queue.go:255-283 | Push keeps the heap and adds exactly one item |
| DelayQueue.HeapPop | internal/lite/memory_queue.go:255-283 | Pop returns the root, keeps the heap and removes exactly that item |
| DelayQueue.RootIsLeast | internal/lite/memory_queue.go:261-267 | No item of a heap precedes its root |
| DelayQueue.RootIsFirst | internal/lite/memory_queue.go:261-267 | With distinct sequence numbers the root is the unique first item by ready time and sequence |
| DelayQueue.MoveFirst | internal/lite/memory_queue.go:285-294 | Moving the first due item and then the rest equals moving all due items in order |
| DelayQueue.MemoryQueue.New | internal/lite/memory_queue.go:60-73 | A queue exists if and only if its capacity is positive; it starts open, empty and valid |
| DelayQueue.MemoryQueue.Reserve | internal/lite/memory_queue.go:90-103 | Claims a slot exactly when open and below capacity; validity, which counts pending as ready plus delayed plus unused reservations, is kept |
| DelayQueue.MemoryQueue.MoveReadyLocked | internal/lite/memory_queue.go:285-294 | The heap loop computes the set-based move of due items in order |
| DelayQueue.MemoryQueue.TakeLocked | internal/lite/memory_queue.go:176-198 | The locked section of Dequeue takes the first ready task after moving the due ones; it finds none only when the queue is closed, or nothing is ready and every delayed task is due later |
| DelayQueue.MemoryQueue.InsertLocked | internal/lite/memory_queue.go:125-152 | Numbers a task and puts it at the end of the ready list or into the heap by its delay |
| DelayQueue.MemoryQueue.EnqueueDelayed | internal/lite/memory_queue.go:81-87 | Reserve and commit in one call, with the refusals of both |
| DelayQueue.MemoryQueue.Close | internal/lite/memory_queue.go:231-246 | Discards all waiting tasks and sets pending to zero |
| DelayQueue.QueueReservation.CommitDelayed | internal/lite/memory_queue.go:111-153 | Spends the slot; a closed queue takes it back and pending stays zero |
| DelayQueue.QueueReservation.Release | internal/lite/memory_queue.go:156-173 | Gives an unused slot back once |
| DelayQueue.ReserveKeepsAccount | internal/lite/memory_queue.go:90-103 | Slot accounting under Reserve, and full means exactly that tasks and reservations fill the capacity |
| DelayQueue.CommitKeepsAccount | internal/lite/memory_queue.go:111-153 | Slot accounting under Commit, open or closed |
| DelayQueue.ReturnKeepsAccount | internal/lite/memory_queue.go:156-173 | Slot accounting under Release, open or closed |
| DelayQueue.TakeKeepsAccount | internal/lite/memory_queue.go:176-198 | Slot accounting under Dequeue |
| QueueOrder.TasksLeaveInOrder | internal/lite/memory_queue.go:111-220 | With a nondecreasing clock tasks leave the queue over the whole run in the order of ready time and sequence among delayed tasks and of commits among immediate ones, and none before its available time or its commit plus delay |
| QueueOrder.RunIsOrdered | internal/lite/memory_queue.go:111-220 | The order invariant of every reachable queue state |
| RateLimiter.FixedWindowRateLimiter.DeleteExpired | internal/lite/rate_limiter.go:170-176 | Drops exactly the expired counters in any order |
| RateLimiter.FixedWindowRateLimiter.BuildChecks | internal/lite/rate_limiter.go:178-233 | Builds the minute, day and hour checks in order, the user IP one only when an IP is given |
| RateLimiter.FixedWindowRateLimiter.ValidChecks | internal/lite/rate_limiter.go:178-223 | Finds the first rule with a non-positive limit |
| RateLimiter.FixedWindowRateLimiter.Allow | internal/lite/rate_limiter.go:79-124 | Counters and decision equal the specified effect: all four windows are consumed or none |
| RateLimiter.FixedWindowRateLimiter.Rollback | internal/lite/rate_limiter.go:127-147 | Uncounts exactly the keys of an allowed decision, dropping counters that reach zero |
| RateLimiter.RunIsExactAndLimited | internal/lite/rate_limiter.go:79-147 | Over every run with a nondecreasing clock and one policy per scene each live counter equals the granted and not rolled-back decisions that used it, and no aligned window exceeds its limit |
| RateLimiter.AllowKeepsExact | internal/lite/rate_limiter.go:79-124 | Counting stays exact under Allow |
| RateLimiter.RollbackKeepsExact | internal/lite/rate_limiter.go:127-147 | Counting stays exact under Rollback, also after windows expired |
| RateLimiter.AllowKeepsLimits | internal/lite/rate_limiter.go:79-124 | No admission takes an aligned window over its limit |
| RateLimiter.AtMostTwiceTheLimit | internal/lite/rate_limiter.go:79-124 | At most twice the limit is admitted in any interval of the window length |
| RateLimiter.RetryAfterIsLeast | internal/lite/rate_limiter.go:99-116 | A denial changes no live counter and its retry-after is the least whole number of seconds after which that rule admits without other traffic |
| RateLimits.EmailBounds | internal/lite/rate_limiter.go:79-233 | Over every run, in any aligned 60 seconds at most sameEmailPerMinute and on any day at most sameEmailPerDay mails to one address of one scene are admitted and not rolled back |
| RateLimits.AddressBounds | internal/lite/rate_limiter.go:79-233 | Over every run, in any hour at most sameCallerIpPerHour mails from one caller address and at most sameUserIpPerHour from one nonempty user address |
| RateLimits.AllowDecides | internal/lite/rate_limiter.go:79-124 | In every run a request with positive bounds is admitted exactly when its four counts are below its four policy fields; otherwise the first exhausted one is named with its bound, its count and the whole seconds to the end of its window |
| RateLimits.BadPolicyIsNamed | internal/lite/rate_limiter.go:178-223 | A bound that is not positive refuses the request and the first such bound is named |
| AdmissionSafety.CommittedAtMostOnce | internal/api/send.go:103-229 | In every interleaving two commits for one key have its cache entry expired or evicted between them |
| AdmissionSafety.ReplaysAreFaithful | internal/api/send.go:103-115 | Every replay answers with the message id of the latest commit for its key, with no expiry, eviction or other commit in between |
| Expiry.ResendIsReplayed | internal/api/send.go:103-115 | Over every interleaving: a request with the key and fingerprint of one completed less than the lifetime ago, whose entry was not evicted since, is answered with that message's id, and with another fingerprint it fails; queue, quota and log stay as they are |
| Expiry.DropsAreDue | internal/lite/idempotency_cache.go:118-322 | Every drop in the history of a run was made by one reservation: it expired exactly the queued entries whose creation time plus lifetime had come, and evicted at most one more, the oldest queued one, from a full cache |
| Expiry.CompletedEntryStands | internal/api/send.go:216-219 | Over every interleaving a completed request's entry stays in the cache, under its message id, until its lifetime ends or it is evicted |
| FirstAttempts.CommitQueuesFirstAttempt | internal/api/send.go:231-244 | In every run the commit of a logged request appends to the ready tasks exactly the message of its queued log record, as attempt 1 and due at once; on a closed queue it queues nothing |
| FirstAttempts.CommitsQueueFirstAttempts | internal/api/send.go:208-244 | Every commit in the history of a run is such a step |
| AdmissionSafety.CompletionCannotFail | internal/api/send.go:213-219 | In every interleaving a committed request finds its pending entry, so completion succeeds |
| AdmissionSafety.EndedWithoutCommitOwnsNothing | internal/api/send.go:116-219 | A request that failed at any step under any interleaving can be erased from the state: no entry, slot or quota is attributable to it |
| AdmissionSafety.NothingLeaks | internal/api/send.go:116-219 | When all requests have ended no pending entry is left, all slots are accounted for, and quota is charged to completed requests only |
| AdmissionSafety.RefusedCommitIsLogged | internal/api/send.go:231-244 | Over every run: once a refused request has logged its failure, the log holds its queued record and, behind it, its failed one |
| AdmissionSafety.RunLogsBeforeCommit | internal/api/send.go:208-213 | In every interleaving a request's queued record is in the log before its commit |
| AdmissionSafety.RunKeepsInv | internal/api/send.go:103-229 | The joint invariant of cache, queue, limiter and requests in every reachable state |
| AdmissionSafety.ReserveThenRelease | internal/api/send.go:103-122 | Reserving a key and releasing it back to back costs the cache its expired entries and at most the oldest queued one |
| AdmissionSafety.AllowThenRollback | internal/api/send.go:161-180 | Granting quota and rolling it back at once restores every live count |
| Admission.SoundMeansAtMostOnce | internal/api/send.go:103-229 | A sound history separates two commits for one key by a drop of that key |
| AdmissionEffects.RequestTakesAtMostOne | internal/api/send.go:103-229 | Over every interleaved run all steps of one request together remove at most one unexpired entry of another key, and none while it has not begun |
| AdmissionEffects.ReserveTakesAtMostTheOldest | internal/api/send.go:103-106 | In every reachable state reserving a key removes at most one live entry of another key, the oldest queued one, changes none, and expires only what is due |
| AdmissionEffects.OnlyReserveTouchesOthers | internal/api/send.go:116-219 | Every other step of a request leaves the entries of all other keys as they are |
| AdmissionEffects.ReleaseTakesOnlyItsOwn | internal/api/send.go:116-122 | In every reachable state the deferred release removes the pending entry of its own request and nothing else |
| AdmissionSafety.LogOnlyGrows | internal/api/send.go:208-244 | What a run has logged stays in the log, at its place |
| SendRequests.Gateway.ProcessSend | internal/api/send.go:97-229 | The handler over the real cache, queue and limiter: its answer is determined by the first refusal it meets, and on every exit the structures hold what its own actions of the protocol lead to, with the request done, replayed, or failed and everything given back; an accepted one has logged its queued record, put its first attempt behind the ready tasks and left its queued entry, and an id is replayed exactly for a matching entry with lifetime left |
| SendRequests.AcceptedIff | internal/api/send.go:97-229 | In every reachable state an uninterrupted request is accepted if and only if no entry stands under its key, pending entries do not fill the cache, the recipient is good, the queue is open and has room, the quota allows it, and id and log work |
| SendRequests.Gateway.Admit | internal/api/send.go:124-213 | From the key to the commit; on rejection the flags name exactly what is still held |
| SendRequests.Gateway.LogAndCommit | internal/api/send.go:208-213 | Logs the queued message and then commits it; only a queue closed in between refuses |
| SendRequests.Gateway.Undo | internal/api/send.go:116-180 | The deferred releases give back quota, slot and key in that order and end in the failed stage |
| SendRequests.Gateway.Complete | internal/api/send.go:216-219 | Completing the key of a committed request cannot fail |
| SendRequests.Gateway.CommitInitialQueueTask | internal/api/send.go:231-244 | Appends the logged message as attempt 1, due at once, to the ready tasks, or logs it as failed with the internal error when the queue is closed |
| WorkerTask.Worker.ProcessTask | internal/worker/worker.go:165-231 | What one attempt writes and queues, read off the message and the adapter's reply: accepted and permanently failed messages end, any other failure retries on the next channel if there is one, as exactly the next attempt after backoff or retry-after of at most 300 seconds, and the adapter is called once for a complete, enabled channel only |
| WorkerTask.AttemptLeaves | internal/worker/worker.go:165-231 | The decision function of an attempt against the table of replies: records, attempt records and queue for every reply, channel and queue state |
| WorkerTask.AnswerIsJudged | internal/worker/worker.go:249-272 | Which replies are accepted, which failure ends the message, and which code and wait every other failure carries |
| WorkerTask.Worker.AttemptChannel | internal/worker/worker.go:180-231 | The attempt through a channel: sending record, provider answer, sent or failed records |
| WorkerTask.Worker.SettleFailure | internal/worker/worker.go:207-230 | A failed attempt ends the message or enqueues the next channel after its delay |
| WorkerTask.Worker.SendThroughProvider | internal/worker/worker.go:249-272 | Only a complete and enabled runtime is called; every other case is a channel failure |
| WorkerTask.RetryDelay | internal/worker/worker.go:274-293 | The delay is the larger of backoff and retry-after, at most 300 seconds |
| WorkerTask.OneEndOrOneSuccessor | internal/worker/worker.go:165-231 | Every attempt writes one terminal record, as its last, or enqueues one successor, never both and never neither |
| WorkerTask.AcceptedMeansCalled | internal/worker/worker.go:180-206 | A message is recorded sent only after a complete, enabled channel's adapter accepted it |
| DeliverySafety.EveryMessageInOnePlace | internal/worker/worker.go:165-247 | While the queue is open every accepted message is terminal or in exactly one of ready list, heap and worker's hands, for any number of workers and any replies |
| DeliverySafety.AttemptsAreSequential | internal/worker/worker.go:165-231 | Over every run a message's attempts are numbered without gaps up to the limits, attempt n uses the n-th channel, another each time, and none follows an accepted one |
| DeliverySafety.SentMeansAccepted | internal/worker/worker.go:180-231 | A message ends as sent if and only if a called provider accepted it |
| DeliverySafety.WorkIsBounded | internal/worker/worker.go:165-231 | A message takes at most four steps per allowed attempt |
| Draining.Drains | internal/worker/worker.go:165-247 | From every reachable open state with a worker, against any provider answers, time and worker steps alone end every accepted message, in at most twice as many actions as the measure |
| Draining.StepsAreBounded | internal/worker/worker.go:165-247 | Under any schedule, any answers, other users of the queue and a close, the delivery steps taken without new submissions are exactly what the measure loses |
| Draining.ActionCosts | internal/worker/worker.go:165-247 | The measure, the steps all accepted messages may still take, never rises without a submission and falls by one with every step, which is a worker's |
| Draining.NeverStuck | internal/worker/worker.go:165-247 | While the queue is open and an accepted message has not ended, a worker step that lowers the measure is possible, at once or after a wait |
| DeliveryTiming.RetriesWait | internal/worker/worker.go:207-230 | Over every run an attempt is taken no earlier than the end of the one before it plus the larger of backoff and retry-after, at most 300 seconds |
| DeliveryTiming.RunIsTimely | internal/worker/worker.go:207-230 | In every reachable state every queued, running and scheduled retry keeps that wait |
| WorkerLoop.RunOne | internal/worker/worker.go:233-247 | One turn of the loop over the real queue is a run of Take, Finish, ReserveRetry and CommitRetry; the records tell how the message ended, and the provider is called exactly for the try the run adds |
| WorkerLoop.HandleTask | internal/worker/worker.go:165-231 | ProcessTask leads the real queue, the records and the calls to where the delivery steps lead |
| WorkerLoop.RetriedQueue | internal/worker/worker.go:220-230 | Enqueueing a retry in one call has the effect of its reservation and its commit |
| WorkerLoop.EndedQueue | internal/worker/worker.go:165-218 | An attempt that ends its message leaves the queue alone and nothing to schedule |
| DeliverySafety.RunKeepsInv | internal/worker/worker.go:165-247 | The invariant of every reachable delivery state |
| Routing.UniqueAndTruncateChannels | internal/domain/route.go:51-73 | The loop returns the first uses of nonblank channels, cut at the attempt limit |
| Routing.FirstUsesAreDistinct | internal/domain/route.go:51-73 | First uses are duplicate-free and hold exactly the nonblank channels |
| Routing.FirstUsesKeepOrder | internal/domain/route.go:51-73 | First uses keep the policy's order |
| Routing.SelectionIsSound | internal/domain/route.go:21-73 | A selection is a nonempty, duplicate-free prefix of the first uses of the domain's entry or else the wildcard's, within the limit; a channel is in it if and only if fewer than the limit distinct channels are used before it |
| Routing.CandidatesComeInTime | internal/domain/route.go:51-73 | A channel is kept exactly when fewer than limit distinct nonblank channels come before its first use, so the number kept is the smaller of the limit and their count |
| Routing.SelectionFailsIff | internal/domain/route.go:21-73 | Selection fails if and only if the recipient is invalid, the limit is not positive, no entry applies, or the entry has no nonblank channel |
| ConfigValidation.ConfigValidator.Validate | internal/config/validation.go:109-124 | The checks report no error if and only if the configuration is sound |
| ConfigValidation.ConfigValidator.ValidateDefaults | internal/config/validation.go:158-199 | No error is added if and only if limits are positive, attempts are 1 to 3 and the backoff list fits |
| ConfigValidation.ConfigValidator.ValidateRetryBackoff | internal/config/validation.go:168-177 | No error is added if and only if every backoff is 0 to 300 seconds and the first is 0 |
| ConfigValidation.ConfigValidator.ValidateProviderAccounts | internal/config/validation.go:213-230 | No error is added if and only if codes are valid and unique and providers known; the first account of a code is recorded |
| ConfigValidation.ConfigValidator.ValidateProviderChannels | internal/config/validation.go:243-289 | No error is added if and only if codes are valid and unique and each channel's account exists, supports its transport and is enabled when the channel is; the serving codes are recorded |
| ConfigValidation.ConfigValidator.ValidateRouteEntry | internal/config/validation.go:542-570 | No error is added if and only if the key is valid and the list is nonempty, duplicate-free and made of serving channels |
| ConfigValidation.ConfigValidator.ValidateRoutePolicy | internal/config/validation.go:537-572 | In any map order no error is added if and only if there is a wildcard and every entry is sound |
| ConfigValidation.DefaultsInNumbers | internal/config/validation.go:158-199 | Sound defaults have one to three attempts, the first at once and the others after at most 300 seconds, and positive sizes |
| ConfigValidation.RouteKeyIsDomain | internal/config/validation.go:787-812 | A route key is the wildcard or dot-joined lower-case labels of 1 to 63 characters, at most 253 in all |
| ConfigValidation.SplitInvertsJoin | internal/config/validation.go:792 | Splitting a text at a separator and joining the parts gives the text back, and no part holds a separator |
| ProviderResolver.NewProviderResolverFromConfig | internal/worker/provider_resolver.go:55-100 | Building fails if and only if a channel names a missing account or an unwired transport; otherwise each code is bound to its last channel and account |
| ProviderResolver.StaticProviderResolver | internal/worker/worker.go:48-55 | The bindings under their channel codes, last one winning |
| ProviderResolver.SameAccounts | internal/config/validation.go:213-230 | First-wins validation and last-wins binding see the same accounts in a validated configuration |
| ProviderResolver.SameChannels | internal/config/validation.go:243-289 | In a validated list the channel recorded under a code is the one bound to it |
| ProviderResolver.BindingsAreConfigured | internal/worker/provider_resolver.go:55-100 | A binding is the last channel of its code with the last account of that account code, each enabled unless its flag says false |
| ProviderResolver.RoutesAreServed | internal/config/validation.go:537-572 | In a validated configuration every route entry lists channels that are there and not switched off, of accounts that are there and not switched off, over a transport their provider has |
| ProviderResolver.WiredIsSupported | internal/worker/provider_resolver.go:102-116 | Adapters exist for exactly the pairs that validation lets through |
| ProviderResolver.ValidatedRoutesAreUsable | internal/domain/route.go:21-73 | In a validated configuration the resolver builds and every scene and recipient domain gets a nonempty, duplicate-free route within the limit over complete, enabled channels |
| ProviderResolver.UnavailableChannelNeverArises | internal/worker/worker.go:249-256 | For messages so routed there is one channel for each attempt up to their number and the worker judges the adapter's own reply |
| Jsonl.JsonlWriter.New | internal/lite/jsonl.go:27-48 | A writer exists if and only if the limits are valid and the file opens; it starts empty |
| Jsonl.JsonlWriter.AppendLine | internal/lite/jsonl.go:58-82 | Whatever file operation fails, what the files hold is a suffix of the append history and each file is within the limit or one record; an append that rotates loses exactly the oldest backup |
| Jsonl.JsonlWriter.RotateLocked | internal/lite/jsonl.go:132-155 | A full rotation loses exactly the oldest backup; a failed one closes the writer and loses at most that |
| Jsonl.JsonlWriter.ShiftBackups | internal/lite/jsonl.go:142-148 | Renaming backups upward keeps all records in order, also when it stops half-way |
| Jsonl.JsonlWriter.RemoveOldest | internal/lite/jsonl.go:137-140 | Removing the highest backup loses exactly the oldest records |
| Jsonl.JsonlWriter.CurrentToFirst | internal/lite/jsonl.go:150-152 | Renaming the current file to backup 1 keeps all records in order |
| Jsonl.JsonlWriter.Open | internal/lite/jsonl.go:110-130 | Opening, also on files left by an earlier process, keeps the records and takes over the current size |
| Jsonl.JsonlWriter.CloseLocked | internal/lite/jsonl.go:91-108 | The writer is closed even when closing reports an error |
| Jsonl.KeptRemovesOldest | internal/lite/jsonl.go:137-140 | The highest backup holds the oldest records |
| Jsonl.KeptSurvivesRename | internal/lite/jsonl.go:142-148 | Moving a backup to the next free number keeps the order of all records |
| Jsonl.SizeIsTotal | internal/lite/jsonl.go:58-82 | A file is as long as its lines with a newline each |
| Jsonl.JsonlWriter.FitsMeans | internal/lite/jsonl.go:58-72 | A record goes in without a rotation exactly when the file is empty or stays within its limit, and then nothing is dropped |
| MessageLog.MessageLog.FindLatestMessage | internal/lite/message_log.go:336-430 | Reading backups from the oldest on yields the last matching record of all retained ones |
| MessageLog.MessageLog.ListLatestMessages | internal/lite/message_log.go:279-316 | The list is the filtered, limited listing of exactly the current records, newest first and by descending id within an instant, cut only when the limit is reached, whatever the map order |
| MessageLog.MessageLog.CollectLatest | internal/lite/message_log.go:287-292 | The collected map holds the latest record of each message of the application |
| MessageLog.MessageLog.ListAttempts | internal/lite/message_log.go:258-276 | All retained attempts of one message in log order |
| MessageLog.MessageLog.AppendMessage | internal/lite/message_log.go:137-139 | Appends one record behind a suffix of the retained ones, or fails and keeps a suffix |
| MessageLog.MessageLog.AppendProviderEventOnce | internal/lite/message_log.go:156-178 | Appends if and only if no retained record has the same identity, and says which |
| MessageLog.MessageLog.HasEvent | internal/lite/message_log.go:181-200 | Finds an identity if and only if it is retained in any file |
| MessageLog.CollectLatestInPath | internal/lite/message_log.go:371-398 | One file updates the map to the latest records so far |
| MessageLog.FindLatestInPath | internal/lite/message_log.go:400-430 | The last matching record of one file |
| MessageLog.EventExistsInPath | internal/lite/message_log.go:516-542 | Whether one file holds the identity |
| MessageLog.LatestIsLast | internal/lite/message_log.go:336-359 | The latest record is the matching record after which none matches |
| MessageLog.LatestOfSuffix | internal/lite/message_log.go:336-359 | Rotation never changes a latest record that is still retained |
| MessageLog.ListingIsUnique | internal/lite/message_log.go:303-313 | Records, filter and limit determine the list; neither map order nor sorting method matters |
| MessageLog.ListingLists | internal/lite/message_log.go:293-313 | Such a listing in plain terms: order, membership, filter and cut |
| MessageLog.AttemptsOfAreItsOwn | internal/lite/message_log.go:544-572 | A message's attempts are all and only the records of its application and id, in log order |
| MessageLog.SelectedIsCollected | internal/lite/message_log.go:293-302 | The map entries that pass the filter are the latest records that pass it |
| Suppression.SuppressionStore.Add | internal/lite/suppression.go:109-170 | New memory, file and result equal the specified effect; a failed write leaves both as they were |
| Suppression.SuppressionStore.Load | internal/lite/suppression.go:41-94 | Loading fails if and only if some entry is invalid or repeated; otherwise memory and file agree |
| Suppression.SuppressionStore.PersistLocked | internal/lite/suppression.go:255-289 | Writes all entries in key order, or nothing |
| Suppression.SuppressionStore.List | internal/lite/suppression.go:173-214 | The matching entries in the one ascending order of their keys, cut at the limit |
| Suppression.AddKeepsAgreement | internal/lite/suppression.go:109-170 | Loading the file rebuilds the memory after every Add, whether or not its write succeeds |
| Suppression.RunAgreesAndRises | internal/lite/suppression.go:109-170 | Over any run of Adds memory and file agree, and an entry only appears or turns from hard bounce to complaint |
| Suppression.LoadInvertsPersist | internal/lite/suppression.go:41-94 | Loading any duplicate-free listing of valid entries rebuilds exactly those entries |
| Suppression.KeyIsInjective | internal/lite/suppression.go:247-249 | Application and address are determined by the key |
| Suppression.ListingIsOrdered | internal/lite/suppression.go:173-214 | A listing is strictly ascending by address |
| Suppression.ListingIsWanted | internal/lite/suppression.go:173-214 | A listing holds the entries of the application with the filter's reason and address and no others, all of them unless the limit is reached |
| Suppression.LoadsIff | internal/lite/suppression.go:41-94 | A file loads if and only if every entry is valid and no two are about one recipient; then each has its entry |
| Suppression.TrimTakesSpaces | internal/lite/suppression.go:109-120 | Trimming takes white space from both ends and nothing else |
| Suppression.KeysSortAsEmails | internal/lite/suppression.go:247-249 | Within an application keys sort as addresses do |
| ProviderEvents.Runtime.ApplyProviderEvent | internal/api/provider_event.go:83-137 | One delivery changes logs, counters and suppression exactly as specified, for every failure point: a delivered event suppresses nobody, a bounce lists an absent recipient, a complaint an absent or bounced one, and the status settles by event type; a fault arises only when its operation can fail and a rotation only when a record does not fit |
| ProviderEvents.DeliverHasEffect | internal/api/provider_event.go:83-137 | Acceptance, suppression and status of one delivery by the event's type, without the tables: the event passes exactly if its message is logged, the last attempt of some number was sent as the event says, and a bounce or complaint names the recipient |
| ProviderEvents.Runtime.Check | internal/api/provider_event.go:87-101 | The refusals: message unknown, no sent attempt fits, recipient does not match, or a query failed |
| ProviderEvents.HasSentAttempt | internal/api/provider_event.go:168-195 | In any map order an event fits if and only if the latest attempt under some number was sent over its route |
| ProviderEvents.LatestAttemptsByNumber | internal/api/provider_event.go:197-204 | The map holds the last attempt logged under each number |
| EventConvergence.RunEndsAsCleanPass | internal/api/provider_event.go:83-137 | Main result: for any run of decoded events, in any order, repeated, failing half-way and redelivered, there is a failure-free pass that delivers each completed event once and ends with the same status for every message the run left in the log and the same reason for every suppression |
| EventConvergence.CompletedWereAcceptable | internal/api/provider_event.go:83-137 | Every event a run completed was acceptable when the run began |
| EventConvergence.CleanPassKeepsLogged | internal/api/provider_event.go:83-137 | A failure-free pass keeps every logged message logged |
| EventConvergence.RunsConverge | internal/api/provider_event.go:83-137 | Any two runs that complete the same events end alike |
| EventConvergence.StatusIsTheHighest | internal/api/provider_event.go:211-229 | Over any run a retained message's status is the maximum, under sent or earlier < delivered < bounced < complained with failed absorbing, of its old status and its completed events |
| EventConvergence.StatusByType | internal/api/provider_event.go:211-229 | Over any run the status in terms of the completed event types: failed stays, else complained, bounced or delivered if any such event or the old status says so |
| EventConvergence.ReasonByType | internal/api/provider_event.go:356-379 | Over any run a recipient is listed as complaint or hard bounce exactly by the types of the events applied to it; delivered events list nobody |
| EventConvergence.NextIsHighest | internal/api/provider_event.go:211-229 | The transition of one event is that maximum |
| EventConvergence.ReasonIsTheGravest | internal/api/provider_event.go:356-379 | Over any run a suppression reason is the maximum, under absent < hard bounce < complaint with manual kept, of the old reason and the applied events |
| EventConvergence.CleanPassCompletes | internal/api/provider_event.go:83-137 | A failure-free pass over acceptable events completes all of them |
| EventConvergence.RunKeepsOnce | internal/api/provider_event.go:102-118 | Over any run the retained events are distinct and are the latest of those counted |
| EventConvergence.CountedAgainOnlyAfterRotation | internal/api/provider_event.go:102-118 | An event is counted twice only after its first record was rotated out |
| EventConvergence.CompletionCounts | internal/api/provider_event.go:102-118 | A completed event has been counted |

## Left out

- HTTP handling, authentication, request decoding, templates, hashing, random ids, statistics sinks, message rendering and the admin interface.
- Provider adapters and their timeouts: a provider call is an arbitrary reply.
- Timers, channel signalling, contexts and the blocking part of Dequeue: its locked section is a step that is enabled or not.
- Fresh message ids: generation is assumed never to repeat an id that is already logged.
- Nil receivers and nil reservations, and the unused `evictOverflow` (internal/lite/idempotency_cache.go:284-298).
- Non-JSON numeric kinds in `writeCanonicalValue`, which decoded requests never contain.
- Unicode: strings are sequences of code points, so invalid UTF-8 in a variable is not modelled.
- Record encoding and decoding in the log files: records are decoded values with a byte length, and a query fails only when a file cannot be opened.
- Partial writes: each file operation succeeds fully or fails without effect.
- YAML decoding and read errors when the suppression file is loaded; the address rules of the mail library are a parameter that maps an address to its normal form.
- Message status under worker steps: the maximum is claimed for webhook deliveries only, since the worker may log a sent status after a webhook has landed.
- The worker ignores errors of log appends (internal/worker/worker.go:301-311); its log here receives every record.
- Configuration checks of secrets, sender addresses, SMTP settings, templates, rate limits, applications and webhooks: they only add errors, so soundness from an error-free report does not depend on them.
- The codes and paths of validation errors: only whether a check adds an error is specified.
- DelayQueue.HeapPush: the heap's slice is a sequence value that is returned, so swaps in place and aliasing of the slice are not captured.
- DelayQueue.HeapPop: as for push.
- MessageLog.MessageLog.ListLatestMessages: sorting is by insertion instead of the library sort; the listing is unique, so the result is the same.
- SendRequests.Gateway.ProcessSend: nothing but a close of the queue comes between its calls; full interleavings are the subject of AdmissionSafety.
- ConfigValidation.ConfigValidator.ValidateProviderAccounts: leaves out the credential references.
- ConfigValidation.ConfigValidator.ValidateProviderChannels: leaves out credentials, sender addresses and SMTP settings.
- AdmissionSafety.ReserveThenRelease: two adjacent calls; AdmissionEffects.RequestTakesAtMostOne is the statement under interleaving.
- AdmissionSafety.AllowThenRollback: two adjacent calls; AdmissionSafety.NothingLeaks and RateLimiter.RollbackKeepsExact are the statements under interleaving.
- DelayQueue.MemoryQueue.EnqueueDelayed: nothing comes between its reservation and its commit; the delivery state machine takes them as two steps.
- Jsonl.JsonlWriter.New: starts without files; a process that finds files left by another starts with JsonlWriter.Open.
- ConfigValidation.ConfigValidator.Validate: covers defaults, provider accounts, provider channels and route policies only.
