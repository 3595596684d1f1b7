/**
 One worker attempt: which channel an attempt uses, how a provider answer is judged,
 when a retry is due, and `ProcessTask`, which carries a task from the queue to one
 terminal record or one successor task.
 */
module WorkerTask {
  import opened Wrappers
  import opened Domain
  import opened DelayQueue

  const MAX_RETRY_AFTER_SECONDS := 300
  const SECOND := 1_000_000_000

  datatype RetryPolicy = RetryPolicy(maxAttempts: int, backoffSeconds: seq<int>)

  function ChannelForAttempt(message: Message, attemptNo: int, maxAttempts: int): Option<string> {
    if attemptNo <= 0 || attemptNo > maxAttempts || attemptNo > |message.providerChannels| then None
    else if message.providerChannels[attemptNo - 1] == "" then None
    else Some(message.providerChannels[attemptNo - 1])
  }

  predicate KnownProvider(p: Provider) {
    !p.UnknownProvider?
  }

  predicate KnownTransport(t: Transport) {
    !t.UnknownTransport?
  }

  /** The runtime found for a channel is complete and belongs to that channel. */
  predicate HasMetadata(channelCode: string, runtime: Option<ChannelRuntime>) {
    && runtime.Some?
    && channelCode != ""
    && runtime.value.account.code != ""
    && runtime.value.channel.code == channelCode
    && runtime.value.channel.account == runtime.value.account.code
    && KnownProvider(runtime.value.account.provider)
    && KnownTransport(runtime.value.channel.transport)
  }

  /** A provider is called only through a complete and enabled runtime. */
  predicate Usable(channelCode: string, runtime: Option<ChannelRuntime>) {
    HasMetadata(channelCode, runtime) && runtime.value.hasAdapter && runtime.value.channel.enabled
        && runtime.value.account.enabled
  }

  predicate IsAccepted(result: SendResult) {
    result.accepted.Some? && result.failed.None?
  }

  /**
   The answer the worker judges: the adapter's, or a failure when there is no adapter to call or it
   returned an error.
   */
  function Answer(channelCode: string, runtime: Option<ChannelRuntime>, reply: Option<SendResult>): SendResult {
    if !Usable(channelCode, runtime) then SendResult(None, Some(Failure(ClassChannel, ProviderUnavailable)), 0)
    else if reply.None? then SendResult(None, Some(Failure(ClassTemporary, ProviderUnavailable)), 0)
    else reply.value
  }

  function NormalizedFailure(result: SendResult): Failure {
    if result.failed.None? || result.failed.value.failureClass == ClassInvalid
        || result.failed.value.failureClass == ClassNone
    then Failure(ClassTemporary, ProviderUnavailable)
    else Failure(result.failed.value.failureClass,
                 if result.failed.value.errorCode == NoError then ProviderUnavailable
                     else result.failed.value.errorCode)
  }

  function Max(a: int, b: int): int {
    if a < b then b else a
  }

  function Min(a: int, b: int): int {
    if a < b then a else b
  }

  /** The configured backoff before an attempt, zero where none is configured. */
  function Backoff(policy: RetryPolicy, attemptNo: int): int {
    if 0 <= attemptNo - 1 < |policy.backoffSeconds| then policy.backoffSeconds[attemptNo - 1] else 0
  }

  method RetryDelay(policy: RetryPolicy, nextAttempt: int, retryAfterSeconds: int) returns (delay: int)
    ensures delay == Min(MAX_RETRY_AFTER_SECONDS, Max(Backoff(policy, nextAttempt), retryAfterSeconds)) * SECOND
  {
    var backoff := 0;
    var backoffIndex := nextAttempt - 1;
    if backoffIndex >= 0 && backoffIndex < |policy.backoffSeconds| {
      backoff := policy.backoffSeconds[backoffIndex];
    }
    var retryAfter := retryAfterSeconds;
    if retryAfter > MAX_RETRY_AFTER_SECONDS {
      retryAfter := MAX_RETRY_AFTER_SECONDS;
    }
    var delaySeconds := backoff;
    if retryAfter > delaySeconds {
      delaySeconds := retryAfter;
    }
    if delaySeconds > MAX_RETRY_AFTER_SECONDS {
      delaySeconds := MAX_RETRY_AFTER_SECONDS;
    }
    delay := delaySeconds * SECOND;
  }

  // ---------- the decision of one attempt ----------

  datatype Verdict =
    | Unroutable
    | Sent(channel: string)
    | Rejected(channel: string, errorCode: ErrorCode)
    | Exhausted(channel: string, errorCode: ErrorCode)
    | Retry(channel: string, errorCode: ErrorCode, delay: int)

  function WithAttemptNo(task: QueueTask): QueueTask {
    if task.attemptNo <= 0 then task.(attemptNo := 1) else task
  }

  /** What a failed attempt leads to: a permanent failure ends the message, any other moves to the next channel. */
  function FailureVerdict(policy: RetryPolicy, task: QueueTask, channel: string, failed: Failure,
                          retryAfterSeconds: int): (v: Verdict)
    ensures !v.Unroutable? && !v.Sent? && v.channel == channel
  {
    var next := task.attemptNo + 1;
    if failed.failureClass == ClassPermanent then Rejected(channel, failed.errorCode)
    else if ChannelForAttempt(task.message, next, policy.maxAttempts).None? then Exhausted(channel, failed.errorCode)
    else Retry(channel, failed.errorCode,
               Min(MAX_RETRY_AFTER_SECONDS, Max(Backoff(policy, next), retryAfterSeconds)) * SECOND)
  }

  /** What an attempt through a channel leads to. */
  function RoutedVerdict(policy: RetryPolicy, task: QueueTask, channel: string, runtime: Option<ChannelRuntime>,
                         reply: Option<SendResult>)
    : (v: Verdict)
    ensures !v.Unroutable? && v.channel == channel
  {
    var result := Answer(channel, runtime, reply);
    if IsAccepted(result) then Sent(channel)
    else FailureVerdict(policy, task, channel, NormalizedFailure(result), result.retryAfterSeconds)
  }

  /** What one attempt leads to. */
  function Decide(policy: RetryPolicy, task: QueueTask, runtime: Option<ChannelRuntime>,
                  reply: Option<SendResult>): Verdict {
    var numbered := WithAttemptNo(task);
    var channel := ChannelForAttempt(task.message, numbered.attemptNo, policy.maxAttempts);
    if channel.None? then Unroutable else RoutedVerdict(policy, numbered, channel.value, runtime, reply)
  }

  /** The successor that a retry enqueues. */
  function Successor(task: QueueTask): QueueTask {
    WithAttemptNo(task).(attemptNo := WithAttemptNo(task).attemptNo + 1)
  }

  function WithStatus(message: Message, status: MessageStatus, errorCode: ErrorCode): Message {
    message.(status := status, errorCode := errorCode)
  }

  /** Why a retry could not be scheduled. */
  function ScheduleFailureCode(outcome: EnqueueOutcome): ErrorCode {
    if outcome == EnqueueFull then QueueFull else InternalError
  }

  /** The message records of one attempt, given how the enqueue of a retry went. */
  function MessageRecords(message: Message, verdict: Verdict, enqueued: EnqueueOutcome): seq<Message> {
    match verdict
    case Unroutable => [WithStatus(message, StatusFailed, ProviderUnavailable)]
    case Sent(_) => [WithStatus(message, StatusSending, NoError), WithStatus(message, StatusSent, NoError)]
    case Rejected(_, code) => [WithStatus(message, StatusSending, NoError), WithStatus(message, StatusFailed, code)]
    case Exhausted(_, _) => [WithStatus(message, StatusSending, NoError),
                             WithStatus(message, StatusFailed, ProviderUnavailable)]
    case Retry(_, code, _) =>
      [WithStatus(message, StatusSending, NoError), WithStatus(message, StatusRetrying, code)] +
      (if enqueued == Enqueued then [] else [WithStatus(message, StatusFailed, ScheduleFailureCode(enqueued))])
  }

  /** A routed attempt first records that the message is being sent. */
  lemma SendingFirst(message: Message, verdict: Verdict, enqueued: EnqueueOutcome)
    requires !verdict.Unroutable?
    ensures var records := MessageRecords(message, verdict, enqueued);
            records == [WithStatus(message, StatusSending, NoError)] + records[1..]
  {
  }

  predicate IsTerminal(status: MessageStatus) {
    status == StatusSent || status == StatusFailed
  }

  function TerminalCount(records: seq<Message>): nat {
    if records == [] then 0 else (if IsTerminal(records[0].status) then 1 else 0) + TerminalCount(records[1..])
  }

  /** One attempt writes exactly one terminal record, or hands the message to exactly one successor. */
  lemma OneEndOrOneSuccessor(policy: RetryPolicy, task: QueueTask, runtime: Option<ChannelRuntime>,
                             reply: Option<SendResult>,
                             q: QueueState, capacity: nat, now: int)
    ensures var verdict := Decide(policy, task, runtime, reply);
            var (after, outcome) := EnqueueEffect(q, capacity, Successor(task), if verdict.Retry? then verdict.delay
                                                  else 0, now);
            var records := MessageRecords(task.message, verdict, outcome);
            && TerminalCount(records) == (if verdict.Retry? && outcome == Enqueued then 0 else 1)
            && (TerminalCount(records) == 1 ==> IsTerminal(records[|records| - 1].status))
            && (outcome == Enqueued ==> after.nextSeq == q.nextSeq + 1)
            && (outcome != Enqueued ==> after == q)
  {
    var verdict := Decide(policy, task, runtime, reply);
    var (after, outcome) := EnqueueEffect(q, capacity, Successor(task), if verdict.Retry? then verdict.delay else 0,
                                          now);
    hide Decide, EnqueueEffect;
    EnqueueCounts(q, capacity, Successor(task), if verdict.Retry? then verdict.delay else 0, now);
    var records := MessageRecords(task.message, verdict, outcome);
    TerminalCountOfFirst(records);
    if |records| > 1 {
      TerminalCountOfFirst(records[1..]);
    }
    if |records| > 2 {
      TerminalCountOfFirst(records[1..][1..]);
    }
  }

  lemma TerminalCountOfFirst(records: seq<Message>)
    requires records != []
    ensures TerminalCount(records) == (if IsTerminal(records[0].status) then 1 else 0) + TerminalCount(records[1..])
    ensures |records| == 1 ==> TerminalCount(records[1..]) == 0
  {
  }

  lemma EnqueueCounts(q: QueueState, capacity: nat, task: QueueTask, delay: int, now: int)
    ensures var (after, outcome) := EnqueueEffect(q, capacity, task, delay, now);
            (outcome == Enqueued ==> after.nextSeq == q.nextSeq + 1) && (outcome != Enqueued ==> after == q)
  {
  }

  /** What an attempt record says of the route: the provider, account and transport together, or nothing. */
  function BaseAttempt(task: QueueTask, channel: string, runtime: Option<ChannelRuntime>): Attempt {
    Attempt(task.message.messageId, task.attemptNo, channel, if HasMetadata(channel, runtime) then runtime else None,
            AttemptSending, ClassNone, NoError, "")
  }

  function FailedAttempt(base: Attempt, failed: Failure): Attempt {
    base.(status := AttemptFailed, failureClass := failed.failureClass, errorCode := failed.errorCode)
  }

  /** The attempt records of one numbered attempt: sending and sent only with a complete route, failed always. */
  function AttemptRecords(task: QueueTask, verdict: Verdict, runtime: Option<ChannelRuntime>,
                          reply: Option<SendResult>): seq<Attempt> {
    if verdict.Unroutable? then [] else
      var known := HasMetadata(verdict.channel, runtime);
      var base := BaseAttempt(task, verdict.channel, runtime);
      var result := Answer(verdict.channel, runtime, reply);
      (if known then [base] else []) +
      (if !verdict.Sent? then [FailedAttempt(base, NormalizedFailure(result))]
       else if known then [base.(status := AttemptSent, providerMessageId := result.accepted.GetOr(""))] else [])
  }

  /** The records of an accepted and of a failed attempt, spelled out. */
  lemma RecordsOfAttempt(policy: RetryPolicy, task: QueueTask, channel: string, runtime: Option<ChannelRuntime>,
                         reply: Option<SendResult>)
    ensures var verdict := RoutedVerdict(policy, task, channel, runtime, reply);
            var known, base := HasMetadata(channel, runtime), BaseAttempt(task, channel, runtime);
            var result := Answer(channel, runtime, reply);
            var first := if known then [base] else [];
            if IsAccepted(result) then
              && verdict == Sent(channel)
              && AttemptRecords(task, verdict, runtime, reply) ==
                 first + if known then [base.(status := AttemptSent, providerMessageId := result.accepted.GetOr(""))]
                     else []
            else
              && verdict == FailureVerdict(policy, task, channel, NormalizedFailure(result), result.retryAfterSeconds)
              && AttemptRecords(task, verdict, runtime, reply)
                  == first + [FailedAttempt(base, NormalizedFailure(result))]
  {
    hide HasMetadata, BaseAttempt, Answer, IsAccepted, NormalizedFailure, FailedAttempt, FailureVerdict;
  }

  /** A channel is called, and can accept, only when its runtime is usable. */
  lemma AcceptedMeansCalled(policy: RetryPolicy, task: QueueTask, runtime: Option<ChannelRuntime>,
                            reply: Option<SendResult>)
    requires Decide(policy, task, runtime, reply).Sent?
    ensures var channel := Decide(policy, task, runtime, reply).channel;
            Usable(channel, runtime) && HasMetadata(channel, runtime) && reply.Some? && IsAccepted(reply.value)
  {
  }

  // ---------- an attempt told from the message and the adapter's reply ----------

  /** The message still has an attempt of this number to make, and a channel for it. */
  predicate MayTry(message: Message, n: int, maxAttempts: int) {
    1 <= n <= maxAttempts && n <= |message.providerChannels| && message.providerChannels[n - 1] != ""
  }

  /** The channel was found whole: coded, of its own account, with a provider and a transport that exist. */
  predicate IsWhole(code: string, runtime: Option<ChannelRuntime>) {
    match runtime
    case None => false
    case Some(ChannelRuntime(account, channel, _)) =>
      && code != "" && account.code != "" && channel.code == code && channel.account == account.code
      && (account.provider == Mock || account.provider == Provider.Resend || account.provider == Brevo)
      && (channel.transport == Api || channel.transport == Smtp)
  }

  /** What the adapter's reply amounts to; a permanent failure is the only one that ends the message. */
  datatype Judgement =
    | Accepting(providerMessageId: string)
    | Permanent(errorCode: ErrorCode)
    | Passing(failureClass: FailureClass, errorCode: ErrorCode, retryAfterSeconds: int)

  function Judge(code: string, runtime: Option<ChannelRuntime>, reply: Option<SendResult>): Judgement {
    if !(IsWhole(code, runtime) && runtime.value.hasAdapter && runtime.value.channel.enabled
         && runtime.value.account.enabled)
    then Passing(ClassChannel, ProviderUnavailable, 0)
    else
      match reply
      case None => Passing(ClassTemporary, ProviderUnavailable, 0)
      case Some(SendResult(Some(id), None, _)) => Accepting(id)
      case Some(SendResult(None, None, wait)) => Passing(ClassTemporary, ProviderUnavailable, wait)
      case Some(SendResult(_, Some(Failure(failureClass, given)), wait)) =>
        var errorCode := if given == NoError then ProviderUnavailable else given;
        match failureClass
        case ClassPermanent => Permanent(errorCode)
        case ClassTemporary => Passing(ClassTemporary, errorCode, wait)
        case ClassChannel => Passing(ClassChannel, errorCode, wait)
        case ClassNone => Passing(ClassTemporary, ProviderUnavailable, wait)
        case ClassInvalid => Passing(ClassTemporary, ProviderUnavailable, wait)
  }

  /** The seconds to wait: the larger of the configured backoff and the provider's wish, at most 300. */
  function WaitSeconds(policy: RetryPolicy, n: int, retryAfterSeconds: int): int {
    var backoff := if 1 <= n <= |policy.backoffSeconds| then policy.backoffSeconds[n - 1] else 0;
    if backoff > 300 || retryAfterSeconds > 300 then 300
    else if retryAfterSeconds > backoff then retryAfterSeconds
    else backoff
  }

  /**
   After a passing failure: without a next channel the message fails, with one it is recorded as retrying and
   exactly the next attempt is queued, unless the queue is closed or full.
   */
  predicate MovesOn(policy: RetryPolicy, message: Message, n: int, errorCode: ErrorCode, retryAfterSeconds: int,
                    q: QueueState, capacity: nat, now: int, records: seq<Message>, after: QueueState)
  {
    var retrying := message.(status := StatusRetrying, errorCode := errorCode);
    if !MayTry(message, n + 1, policy.maxAttempts) then
      records == [message.(status := StatusFailed, errorCode := ProviderUnavailable)] && after == q
    else if q.closed then
      records == [retrying, message.(status := StatusFailed, errorCode := InternalError)] && after == q
    else if q.pending >= capacity then
      records == [retrying, message.(status := StatusFailed, errorCode := QueueFull)] && after == q
    else
      var seconds := WaitSeconds(policy, n + 1, retryAfterSeconds);
      var readyAt := if seconds > 0 then now + seconds * 1_000_000_000 else now;
      var item := Item(QueueTask(message, n + 1, readyAt), readyAt, q.nextSeq + 1);
      && records == [retrying]
      && after == q.(pending := q.pending + 1, nextSeq := q.nextSeq + 1,
                     ready := if seconds > 0 then q.ready else q.ready + [item],
                     delayed := if seconds > 0 then q.delayed + {item} else q.delayed)
  }

  /** The message records and the queue that attempt number n leaves. */
  predicate Leaves(policy: RetryPolicy, message: Message, n: int, runtime: Option<ChannelRuntime>,
                   reply: Option<SendResult>, q: QueueState, capacity: nat, now: int,
                   records: seq<Message>, after: QueueState)
  {
    if !MayTry(message, n, policy.maxAttempts) then
      records == [message.(status := StatusFailed, errorCode := ProviderUnavailable)] && after == q
    else
      && records != [] && records[0] == message.(status := StatusSending, errorCode := NoError)
      && match Judge(message.providerChannels[n - 1], runtime, reply)
         case Accepting(_) => records[1..] == [message.(status := StatusSent, errorCode := NoError)] && after == q
         case Permanent(code) => records[1..] == [message.(status := StatusFailed, errorCode := code)] && after == q
         case Passing(_, code, wait) => MovesOn(policy, message, n, code, wait, q, capacity, now, records[1..], after)
  }

  /** The attempt records that attempt number n leaves: sending and sent of a whole channel, and any failure. */
  predicate Records(policy: RetryPolicy, message: Message, n: int, runtime: Option<ChannelRuntime>,
                    reply: Option<SendResult>, attempts: seq<Attempt>)
  {
    if !MayTry(message, n, policy.maxAttempts) then attempts == [] else
      var code := message.providerChannels[n - 1];
      var whole := IsWhole(code, runtime);
      var sending := Attempt(message.messageId, n, code, if whole then runtime else None, AttemptSending, ClassNone,
                             NoError, "");
      match Judge(code, runtime, reply)
      case Accepting(id) => attempts == [sending, sending.(status := AttemptSent, providerMessageId := id)]
      case Permanent(errorCode) =>
        attempts == [sending, sending.(status := AttemptFailed, failureClass := ClassPermanent, errorCode := errorCode)]
      case Passing(failureClass, errorCode, _) =>
        var failed := sending.(status := AttemptFailed, failureClass := failureClass, errorCode := errorCode);
        attempts == if whole then [sending, failed] else [failed]
  }

  /** The adapter is called once for an attempt that has a whole and enabled channel, and otherwise not at all. */
  predicate Calls(policy: RetryPolicy, message: Message, n: int, runtime: Option<ChannelRuntime>,
                  calls: seq<(string, int)>)
  {
    calls == if && MayTry(message, n, policy.maxAttempts) && IsWhole(message.providerChannels[n - 1], runtime)
                && runtime.value.hasAdapter && runtime.value.channel.enabled && runtime.value.account.enabled
             then [(message.messageId, n)] else []
  }

  lemma CallsOfAttempt(policy: RetryPolicy, task: QueueTask, runtime: Option<ChannelRuntime>, reply: Option<SendResult>)
    ensures var n := if task.attemptNo <= 0 then 1 else task.attemptNo;
            var verdict := Decide(policy, task, runtime, reply);
            Calls(policy, task.message, n, runtime,
                  if !verdict.Unroutable? && Usable(verdict.channel, runtime)
                  then [(task.message.messageId, WithAttemptNo(task).attemptNo)] else [])
  {
    var numbered := WithAttemptNo(task);
    ChannelOfAttempt(task.message, numbered.attemptNo, policy.maxAttempts);
    if MayTry(task.message, numbered.attemptNo, policy.maxAttempts) {
      WholeIsKnown(task.message.providerChannels[numbered.attemptNo - 1], runtime);
    }
    hide ChannelForAttempt, MayTry, RoutedVerdict, HasMetadata, IsWhole;
  }

  lemma WholeIsKnown(code: string, runtime: Option<ChannelRuntime>)
    ensures HasMetadata(code, runtime) <==> IsWhole(code, runtime)
  {
  }

  lemma ChannelOfAttempt(message: Message, n: int, maxAttempts: int)
    ensures ChannelForAttempt(message, n, maxAttempts) ==
            if MayTry(message, n, maxAttempts) then Some(message.providerChannels[n - 1]) else None
  {
  }

  /** The answer as the worker judges it, against the table of replies. */
  lemma AnswerIsJudged(code: string, runtime: Option<ChannelRuntime>, reply: Option<SendResult>)
    ensures var result := Answer(code, runtime, reply);
            match Judge(code, runtime, reply)
            case Accepting(id) => IsAccepted(result) && result.accepted == Some(id) && IsWhole(code, runtime)
            case Permanent(errorCode) =>
              !IsAccepted(result) && NormalizedFailure(result) == Failure(ClassPermanent, errorCode)
              && IsWhole(code, runtime)
            case Passing(failureClass, errorCode, wait) =>
              !IsAccepted(result) && NormalizedFailure(result) == Failure(failureClass, errorCode)
              && failureClass != ClassPermanent && result.retryAfterSeconds == wait
  {
    WholeIsKnown(code, runtime);
    hide HasMetadata, IsWhole;
  }

  lemma DelayInSeconds(policy: RetryPolicy, n: int, retryAfterSeconds: int)
    ensures Min(MAX_RETRY_AFTER_SECONDS, Max(Backoff(policy, n), retryAfterSeconds)) * SECOND ==
            WaitSeconds(policy, n, retryAfterSeconds) * 1_000_000_000
  {
  }

  lemma RetryMovesOn(policy: RetryPolicy, task: QueueTask, channel: string, failed: Failure, retryAfterSeconds: int,
                     q: QueueState, capacity: nat, now: int)
    requires failed.failureClass != ClassPermanent
    ensures var verdict := FailureVerdict(policy, task, channel, failed, retryAfterSeconds);
            var (after, outcome) := EnqueueEffect(q, capacity, task.(attemptNo := task.attemptNo + 1),
                                                  if verdict.Retry? then verdict.delay else 0, now);
            MovesOn(policy, task.message, task.attemptNo, failed.errorCode, retryAfterSeconds, q, capacity, now,
                    MessageRecords(task.message, verdict, outcome)[1..], if verdict.Retry? then after else q)
  {
    ChannelOfAttempt(task.message, task.attemptNo + 1, policy.maxAttempts);
    DelayInSeconds(policy, task.attemptNo + 1, retryAfterSeconds);
    hide ChannelForAttempt, MayTry, Min, Max, Backoff, WaitSeconds;
  }

  lemma DecisionOf(policy: RetryPolicy, task: QueueTask, runtime: Option<ChannelRuntime>, reply: Option<SendResult>)
    ensures var numbered := WithAttemptNo(task);
            var channel := ChannelForAttempt(task.message, numbered.attemptNo, policy.maxAttempts);
            && numbered.message == task.message && Successor(task) == numbered.(attemptNo := numbered.attemptNo + 1)
            && Decide(policy, task, runtime, reply) ==
            if channel.None? then Unroutable else RoutedVerdict(policy, numbered, channel.value, runtime, reply)
  {
  }

  lemma UnroutableRecords(task: QueueTask, enqueued: EnqueueOutcome, runtime: Option<ChannelRuntime>,
                          reply: Option<SendResult>)
    ensures MessageRecords(task.message, Unroutable, enqueued) ==
            [WithStatus(task.message, StatusFailed, ProviderUnavailable)]
    ensures AttemptRecords(task, Unroutable, runtime, reply) == []
  {
  }

  lemma RoutedAttemptLeaves(policy: RetryPolicy, task: QueueTask, code: string, runtime: Option<ChannelRuntime>,
                            reply: Option<SendResult>, q: QueueState, capacity: nat, now: int)
    requires MayTry(task.message, task.attemptNo, policy.maxAttempts)
             && code == task.message.providerChannels[task.attemptNo - 1]
    ensures var verdict := RoutedVerdict(policy, task, code, runtime, reply);
            var (after, outcome) := EnqueueEffect(q, capacity, task.(attemptNo := task.attemptNo + 1),
                                                  if verdict.Retry? then verdict.delay else 0, now);
            Leaves(policy, task.message, task.attemptNo, runtime, reply, q, capacity, now,
                   MessageRecords(task.message, verdict, outcome), if verdict.Retry? then after else q)
  {
    hide EnqueueEffect, IsWhole, HasMetadata, MovesOn, Answer, Judge, NormalizedFailure, IsAccepted;
    var result := Answer(code, runtime, reply);
    AnswerIsJudged(code, runtime, reply);
    var failed := NormalizedFailure(result);
    if !IsAccepted(result) && failed.failureClass != ClassPermanent {
      RetryMovesOn(policy, task, code, failed, result.retryAfterSeconds, q, capacity, now);
    }
  }

  lemma RoutedAttemptRecords(policy: RetryPolicy, task: QueueTask, code: string, runtime: Option<ChannelRuntime>,
                             reply: Option<SendResult>)
    requires MayTry(task.message, task.attemptNo, policy.maxAttempts)
             && code == task.message.providerChannels[task.attemptNo - 1]
    ensures var verdict := RoutedVerdict(policy, task, code, runtime, reply);
            Records(policy, task.message, task.attemptNo, runtime, reply, AttemptRecords(task, verdict, runtime, reply))
  {
    AnswerIsJudged(code, runtime, reply);
    WholeIsKnown(code, runtime);
    RecordsOfAttempt(policy, task, code, runtime, reply);
    hide RoutedVerdict, AttemptRecords, IsWhole, HasMetadata, Answer, Judge, NormalizedFailure, IsAccepted;
  }

  /** What the attempt decides, read from the message, the channel and the adapter's reply. */
  lemma AttemptLeaves(policy: RetryPolicy, task: QueueTask, runtime: Option<ChannelRuntime>,
                      reply: Option<SendResult>, q: QueueState, capacity: nat, now: int)
    ensures var n := if task.attemptNo <= 0 then 1 else task.attemptNo;
            var verdict := Decide(policy, task, runtime, reply);
            var (after, outcome) := EnqueueEffect(q, capacity, Successor(task), if verdict.Retry? then verdict.delay
                                                  else 0, now);
            && Leaves(policy, task.message, n, runtime, reply, q, capacity, now,
                      MessageRecords(task.message, verdict, outcome), if verdict.Retry? then after else q)
            && Records(policy, task.message, n, runtime, reply,
                       AttemptRecords(WithAttemptNo(task), verdict, runtime, reply))
  {
    var numbered := WithAttemptNo(task);
    ChannelOfAttempt(task.message, numbered.attemptNo, policy.maxAttempts);
    if MayTry(task.message, numbered.attemptNo, policy.maxAttempts) {
      var code := task.message.providerChannels[numbered.attemptNo - 1];
      hide Leaves, Records, MessageRecords, AttemptRecords, EnqueueEffect, RoutedVerdict, ChannelForAttempt;
      RoutedAttemptLeaves(policy, numbered, code, runtime, reply, q, capacity, now);
      RoutedAttemptRecords(policy, numbered, code, runtime, reply);
    }
  }

  class Worker {
    const queue: MemoryQueue
    const policy: RetryPolicy
    /** The records handed to the message log; an append error is reported and otherwise ignored. */
    var messages: seq<Message>
    var attempts: seq<Attempt>
    /** Messages handed to a provider adapter, with the attempt number. */
    var calls: seq<(string, int)>

    constructor (queue: MemoryQueue, policy: RetryPolicy)
      requires policy.maxAttempts > 0
      ensures this.queue == queue && this.policy == policy && messages == [] && attempts == [] && calls == []
    {
      this.queue := queue;
      this.policy := policy;
      messages, attempts, calls := [], [], [];
    }

    method AppendMessage(message: Message)
      modifies this`messages
      ensures messages == old(messages) + [message]
    {
      messages := messages + [message];
    }

    method AppendAttempt(attempt: Attempt)
      modifies this`attempts
      ensures attempts == old(attempts) + [attempt]
    {
      attempts := attempts + [attempt];
    }

    /** Attempts whose route is incomplete are recorded only when they fail. */
    method AppendKnownAttempt(known: bool, attempt: Attempt)
      modifies this`attempts
      ensures attempts == old(attempts) + if known then [attempt] else []
    {
      if known {
        AppendAttempt(attempt);
      }
    }

    method SendThroughProvider(task: QueueTask, channelCode: string, runtime: Option<ChannelRuntime>,
                               reply: Option<SendResult>)
      returns (result: SendResult)
      modifies this`calls
      ensures result == Answer(channelCode, runtime, reply)
      ensures calls == old(calls) + if Usable(channelCode, runtime) then [(task.message.messageId, task.attemptNo)]
              else []
    {
      if runtime.None?
         || !runtime.value.hasAdapter
         || !HasMetadata(channelCode, runtime)
         || !runtime.value.channel.enabled
         || !runtime.value.account.enabled {
        return SendResult(None, Some(Failure(ClassChannel, ProviderUnavailable)), 0);
      }
      calls := calls + [(task.message.messageId, task.attemptNo)];
      if reply.None? {
        return SendResult(None, Some(Failure(ClassTemporary, ProviderUnavailable)), 0);
      }
      result := reply.value;
    }

    /** Performs one queued attempt and schedules any retry; false when the retry could not be scheduled. */
    method ProcessTask(queued: QueueTask, runtime: Option<ChannelRuntime>, reply: Option<SendResult>, now: int)
      returns (ok: bool)
      requires queue.Valid()
      modifies this, queue
      ensures queue.Valid()
      ensures var verdict := Decide(policy, queued, runtime, reply);
              var (after, outcome) := EnqueueEffect(old(queue.State()), queue.capacity, Successor(queued),
                                                    if verdict.Retry? then verdict.delay else 0, now);
              && messages == old(messages) + MessageRecords(queued.message, verdict, outcome)
              && attempts == old(attempts) + AttemptRecords(WithAttemptNo(queued), verdict, runtime, reply)
              && queue.State() == (if verdict.Retry? then after else old(queue.State()))
              && ok == !(verdict.Retry? && outcome != Enqueued)
      ensures var verdict := Decide(policy, queued, runtime, reply);
              calls == old(calls) + if !verdict.Unroutable? && Usable(verdict.channel, runtime)
                                    then [(queued.message.messageId, WithAttemptNo(queued).attemptNo)] else []
      ensures var n := if queued.attemptNo <= 0 then 1 else queued.attemptNo;
              && old(messages) <= messages && old(attempts) <= attempts && old(calls) <= calls
              && Leaves(policy, queued.message, n, runtime, reply, old(queue.State()), queue.capacity, now,
                        messages[|old(messages)|..], queue.State())
              && Records(policy, queued.message, n, runtime, reply, attempts[|old(attempts)|..])
              && Calls(policy, queued.message, n, runtime, calls[|old(calls)|..])
    {
      AttemptLeaves(policy, queued, runtime, reply, queue.State(), queue.capacity, now);
      CallsOfAttempt(policy, queued, runtime, reply);
      DecisionOf(policy, queued, runtime, reply);
      hide Leaves, Records, Calls, Decide, EnqueueEffect, Usable, ChannelForAttempt, RoutedVerdict, WithStatus, Items,
           MessageRecords, AttemptRecords, Successor;
      var task := WithAttemptNo(queued);
      hide WithAttemptNo;
      var channel := ChannelForAttempt(task.message, task.attemptNo, policy.maxAttempts);
      if channel.None? {
        AppendMessage(WithStatus(task.message, StatusFailed, ProviderUnavailable));
        UnroutableRecords(task, EnqueueEffect(queue.State(), queue.capacity, Successor(queued), 0, now).1, runtime,
                          reply);
        return true;
      }
      ok := AttemptChannel(task, channel.value, runtime, reply, now);
    }

    method AttemptChannel(task: QueueTask, channelCode: string, runtime: Option<ChannelRuntime>,
                          reply: Option<SendResult>, now: int)
      returns (ok: bool)
      requires queue.Valid()
      modifies this, queue
      ensures queue.Valid()
      ensures var verdict := RoutedVerdict(policy, task, channelCode, runtime, reply);
              var (after, outcome) := EnqueueEffect(old(queue.State()), queue.capacity,
                                                    task.(attemptNo := task.attemptNo + 1),
                                                    if verdict.Retry? then verdict.delay else 0, now);
              && messages == old(messages) + MessageRecords(task.message, verdict, outcome)
              && attempts == old(attempts) + AttemptRecords(task, verdict, runtime, reply)
              && queue.State() == (if verdict.Retry? then after else old(queue.State()))
              && ok == !(verdict.Retry? && outcome != Enqueued)
      ensures calls == old(calls) + if Usable(channelCode, runtime) then [(task.message.messageId, task.attemptNo)]
              else []
    {
      RecordsOfAttempt(policy, task, channelCode, runtime, reply);
      hide EnqueueEffect, HasMetadata, Usable, NormalizedFailure, Answer, FailureVerdict, WithStatus, BaseAttempt,
           FailedAttempt, IsAccepted,
           RoutedVerdict, AttemptRecords;
      var known := HasMetadata(channelCode, runtime);
      var attempt := BaseAttempt(task, channelCode, runtime);
      AppendMessage(WithStatus(task.message, StatusSending, NoError));
      AppendKnownAttempt(known, attempt);

      var result := SendThroughProvider(task, channelCode, runtime, reply);
      if IsAccepted(result) {
        AppendKnownAttempt(known, attempt.(status := AttemptSent, providerMessageId := result.accepted.GetOr("")));
        AppendMessage(WithStatus(task.message, StatusSent, NoError));
        return true;
      }

      var failed := NormalizedFailure(result);
      AppendAttempt(FailedAttempt(attempt, failed));
      ghost var verdict := FailureVerdict(policy, task, channelCode, failed, result.retryAfterSeconds);
      SendingFirst(task.message, verdict,
                   EnqueueEffect(queue.State(), queue.capacity, task.(attemptNo := task.attemptNo + 1),
                                                        if verdict.Retry? then verdict.delay else 0, now).1);
      hide MessageRecords;
      ok := SettleFailure(task, channelCode, failed, result.retryAfterSeconds, now);
    }

    /** Fails the message for good, or schedules its next attempt. */
    method SettleFailure(task: QueueTask, ghost channelCode: string, failed: Failure, retryAfterSeconds: int, now: int)
      returns (ok: bool)
      requires queue.Valid()
      modifies this`messages, queue
      ensures queue.Valid()
      ensures var verdict := FailureVerdict(policy, task, channelCode, failed, retryAfterSeconds);
              var (after, outcome) := EnqueueEffect(old(queue.State()), queue.capacity,
                                                    task.(attemptNo := task.attemptNo + 1),
                                                    if verdict.Retry? then verdict.delay else 0, now);
              && messages == old(messages) + MessageRecords(task.message, verdict, outcome)[1..]
              && queue.State() == (if verdict.Retry? then after else old(queue.State()))
              && ok == !(verdict.Retry? && outcome != Enqueued)
    {
      hide EnqueueEffect, ChannelForAttempt, WithStatus, Backoff, Max, Min;
      if failed.failureClass == ClassPermanent {
        AppendMessage(WithStatus(task.message, StatusFailed, failed.errorCode));
        return true;
      }
      var nextAttempt := task.attemptNo + 1;
      if ChannelForAttempt(task.message, nextAttempt, policy.maxAttempts).None? {
        AppendMessage(WithStatus(task.message, StatusFailed, ProviderUnavailable));
        return true;
      }
      AppendMessage(WithStatus(task.message, StatusRetrying, failed.errorCode));
      var delay := RetryDelay(policy, nextAttempt, retryAfterSeconds);
      var enqueued := queue.EnqueueDelayed(task.(attemptNo := nextAttempt), delay, now);
      if enqueued != Enqueued {
        AppendMessage(WithStatus(task.message, StatusFailed, ScheduleFailureCode(enqueued)));
        return false;
      }
      ok := true;
    }
  }
}
