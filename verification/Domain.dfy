/** The records that the queue, the worker, the configuration and the log pass around. */
module Domain {
  import opened Wrappers

  datatype MessageStatus =
    | StatusQueued | StatusSending | StatusRetrying | StatusSent | StatusFailed
    | StatusDelivered | StatusBounced | StatusComplained

  datatype ErrorCode = NoError | ProviderUnavailable | QueueFull | InternalError | OtherError(code: string)

  /** The fields of a message that the modelled code reads or writes. */
  datatype Message = Message(
    messageId: string,
    appCode: string,
    sceneCode: string,
    providerChannels: seq<string>,
    status: MessageStatus,
    errorCode: ErrorCode)

  /** One delivery task; the queue fills in availableAt. */
  datatype QueueTask = QueueTask(message: Message, attemptNo: int, availableAt: int)

  /** A provider or transport outside the supported names is kept as an unknown. */
  datatype Provider = Mock | Resend | Brevo | UnknownProvider(name: string)

  datatype Transport = Api | Smtp | UnknownTransport(name: string)

  datatype ProviderAccount = ProviderAccount(code: string, provider: Provider, enabled: bool)

  datatype ProviderChannel = ProviderChannel(code: string, account: string, transport: Transport, enabled: bool)

  /** One provider channel bound to its account; the adapter may be missing. */
  datatype ChannelRuntime = ChannelRuntime(account: ProviderAccount, channel: ProviderChannel, hasAdapter: bool)

  datatype FailureClass = ClassNone | ClassTemporary | ClassChannel | ClassPermanent | ClassInvalid

  datatype Failure = Failure(failureClass: FailureClass, errorCode: ErrorCode)

  /** A provider adapter's answer, as the adapter built it: either part may be missing or both present. */
  datatype SendResult = SendResult(accepted: Option<string>, failed: Option<Failure>, retryAfterSeconds: int)

  datatype AttemptStatus = AttemptSending | AttemptSent | AttemptFailed

  /** The provider, account and transport of an attempt are recorded together or not at all. */
  datatype Attempt = Attempt(
    messageId: string,
    attemptNo: int,
    channelCode: string,
    route: Option<ChannelRuntime>,
    status: AttemptStatus,
    failureClass: FailureClass,
    errorCode: ErrorCode,
    providerMessageId: string)

  predicate LowerAlnum(c: char) {
    'a' <= c <= 'z' || '0' <= c <= '9'
  }

  /** 1 to 64 lowercase letters, digits, underscores and hyphens, alphanumeric at both ends. */
  predicate IsIdentifier(value: string) {
    && 1 <= |value| <= 64
    && LowerAlnum(value[0]) && LowerAlnum(value[|value| - 1])
    && forall i :: 0 <= i < |value| ==> LowerAlnum(value[i]) || value[i] == '_' || value[i] == '-'
  }
}
