/**
 The configuration checks that routing and delivery rest on. A validator walks the
 configuration and collects errors; each check is proved to add none exactly when its
 part of the configuration is sound.
 */
module ConfigValidation {
  import opened Wrappers
  import opened Domain
  import opened Routing

  const MAX_ATTEMPTS_PER_MESSAGE := 3
  const MAX_RETRY_BACKOFF_SECONDS := 300

  /** A missing enabled flag means enabled. */
  datatype AccountConfig = AccountConfig(code: string, provider: Provider, enabled: Option<bool>)

  datatype ChannelConfig = ChannelConfig(code: string, account: string, transport: Transport, enabled: Option<bool>)

  datatype Defaults = Defaults(
    providerTimeoutSeconds: int,
    maxAttemptsPerMessage: int,
    retryBackoffSeconds: seq<int>,
    memoryQueueSize: int,
    workerConcurrency: int,
    idempotencyCacheSize: int,
    idempotencyTtlHours: int,
    maxRequestBodyBytes: int,
    maxTemplateVarBytes: int,
    maxContextBytes: int)

  datatype SceneConfig = SceneConfig(code: string, routePolicy: RoutePolicy)

  datatype AppConfig = AppConfig(code: string, scenes: seq<SceneConfig>)

  datatype Config = Config(defaults: Defaults, accounts: seq<AccountConfig>, channels: seq<ChannelConfig>,
                           apps: seq<AppConfig>)

  datatype ConfigError =
    | DefaultInvalid | RetryBackoffInvalid | IdentifierInvalid
    | AccountDuplicate | ProviderInvalid
    | ChannelDuplicate | AccountRequired | AccountNotFound | AccountDisabled | TransportInvalid
    | PolicyMissingWildcard | RouteDomainInvalid | PolicyEmpty | RouteChannelDuplicate
    | RouteChannelNotFound | RouteChannelDisabled | RouteChannelUnavailable

  predicate EnabledValue(enabled: Option<bool>) {
    enabled.GetOr(true)
  }

  predicate SupportsTransport(provider: Provider, transport: Transport) {
    match provider
    case Mock => transport == Api
    case Resend => transport == Api || transport == Smtp
    case Brevo => transport == Api || transport == Smtp
    case UnknownProvider(_) => false
  }

  function Split(value: string, separator: char): seq<string> {
    if value == "" then [""] else
      var rest := Split(value[1..], separator);
      if value[0] == separator then [""] + rest
      else if rest == [] then [[value[0]]]
      else [[value[0]] + rest[0]] + rest[1..]
  }

  predicate IsDomainLabel(part: string) {
    && 1 <= |part| <= 63
    && LowerAlnum(part[0]) && LowerAlnum(part[|part| - 1])
    && forall i :: 0 <= i < |part| ==> LowerAlnum(part[i]) || part[i] == '-'
  }

  predicate IsRouteKey(key: string) {
    key == WILDCARD || (1 <= |key| <= 253 && forall part :: part in Split(key, '.') ==> IsDomainLabel(part))
  }

  // ---------- what a sound configuration is ----------

  predicate BackoffOk(backoffs: seq<int>) {
    && (forall i :: 0 <= i < |backoffs| ==> 0 <= backoffs[i] <= MAX_RETRY_BACKOFF_SECONDS)
    && (backoffs != [] ==> backoffs[0] == 0)
  }

  predicate LimitsOk(d: Defaults) {
    && d.memoryQueueSize > 0 && d.workerConcurrency > 0
    && d.idempotencyCacheSize > 0 && d.idempotencyTtlHours > 0
    && d.maxRequestBodyBytes > 0 && d.maxTemplateVarBytes > 0 && d.maxContextBytes > 0
  }

  predicate DefaultsOk(d: Defaults) {
    && d.providerTimeoutSeconds > 0
    && 1 <= d.maxAttemptsPerMessage <= MAX_ATTEMPTS_PER_MESSAGE
    && |d.retryBackoffSeconds| == d.maxAttemptsPerMessage
    && BackoffOk(d.retryBackoffSeconds)
    && LimitsOk(d)
  }

  // ---------- the tables in plain values ----------

  /** One to three attempts; the first is made at once and the others after at most 300 seconds. */
  lemma DefaultsInNumbers(d: Defaults)
    ensures DefaultsOk(d) <==>
            && d.providerTimeoutSeconds > 0
            && d.maxAttemptsPerMessage == |d.retryBackoffSeconds|
            && (var b := d.retryBackoffSeconds;
                || b == [0]
                || (|b| == 2 && b[0] == 0 && 0 <= b[1] <= 300)
                || (|b| == 3 && b[0] == 0 && 0 <= b[1] <= 300 && 0 <= b[2] <= 300))
            && d.memoryQueueSize > 0 && d.workerConcurrency > 0
            && d.idempotencyCacheSize > 0 && d.idempotencyTtlHours > 0
            && d.maxRequestBodyBytes > 0 && d.maxTemplateVarBytes > 0 && d.maxContextBytes > 0
  {
    var b := d.retryBackoffSeconds;
    if b == [0] || |b| == 2 || |b| == 3 {
      assert BackoffOk(b) <==> b[0] == 0 && forall i :: 1 <= i < |b| ==> 0 <= b[i] <= 300;
    }
    assert |b| == 1 && b[0] == 0 ==> b == [0];
  }

  lemma SupportedPairs(provider: Provider, transport: Transport)
    ensures SupportsTransport(provider, transport) <==>
            (provider, transport) in {(Mock, Api), (Provider.Resend, Api), (Provider.Resend, Smtp), (Brevo, Api),
                                      (Brevo, Smtp)}
  {
  }

  function Join(parts: seq<string>, separator: char): string {
    if parts == [] then "" else if |parts| == 1 then parts[0] else parts[0] + [separator] + Join(parts[1..], separator)
  }

  /** Splitting cuts at every separator and nowhere else. */
  lemma {:induction false} SplitInvertsJoin(value: string, separator: char)
    ensures var parts := Split(value, separator);
            && parts != [] && Join(parts, separator) == value
            && forall part :: part in parts ==> separator !in part
  {
    if value != "" {
      SplitInvertsJoin(value[1..], separator);
      var rest := Split(value[1..], separator);
      assert value == [value[0]] + value[1..];
      if value[0] == separator {
        assert ([""] + rest)[1..] == rest;
      } else {
        assert ([[value[0]] + rest[0]] + rest[1..])[1..] == rest[1..];
      }
    }
  }

  /** The text of a route key: a wildcard, or a lower-case domain of at most 253 characters. */
  lemma RouteKeyIsDomain(key: string)
    ensures IsRouteKey(key) <==>
            key == "*" || (|key| <= 253 && exists labels :: key == Join(labels, '.') && AreLabels(labels))
  {
    hide Split, Join, IsDomainLabel;
    SplitInvertsJoin(key, '.');
    if key != "*" && IsRouteKey(key) {
      assert AreLabels(Split(key, '.'));
    }
    if labels :| key == Join(labels, '.') && AreLabels(labels) {
      LabelsHaveNoDot(labels);
      JoinInvertsSplit(labels, '.');
      LabelsAreNonempty(labels);
    }
  }

  /** At least one label of 1 to 63 letters, digits and inner hyphens. */
  predicate AreLabels(labels: seq<string>) {
    labels != [] && forall part :: part in labels ==> IsDomainLabel(part)
  }

  lemma LabelsHaveNoDot(labels: seq<string>)
    requires AreLabels(labels)
    ensures forall part :: part in labels ==> '.' !in part
  {
  }

  lemma LabelsAreNonempty(labels: seq<string>)
    requires AreLabels(labels)
    ensures Join(labels, '.') != ""
  {
    assert labels[0] in labels;
  }

  lemma {:induction false} JoinInvertsSplit(parts: seq<string>, separator: char)
    requires parts != [] && forall part :: part in parts ==> separator !in part
    ensures Split(Join(parts, separator), separator) == parts
  {
    if |parts| == 1 {
      SplitWhole(parts[0], "", separator);
      assert parts[0] + "" == parts[0] && [parts[0]] == parts;
    } else {
      var rest := Join(parts[1..], separator);
      assert forall part :: part in parts[1..] ==> part in parts;
      JoinInvertsSplit(parts[1..], separator);
      SplitWhole(parts[0], [separator] + rest, separator);
      assert parts[0] + ([separator] + rest) == Join(parts, separator);
      assert ([separator] + rest)[1..] == rest;
      assert [parts[0]] + parts[1..] == parts;
    }
  }

  /** A piece without separators in front of a text that is empty or begins with one is the first part. */
  lemma {:induction false} SplitWhole(part: string, rest: string, separator: char)
    requires separator !in part && (rest == "" || rest[0] == separator)
    ensures Split(part + rest, separator) == [part] + if rest == "" then [] else Split(rest[1..], separator)
  {
    if part == "" {
      assert part + rest == rest;
    } else {
      assert (part + rest)[1..] == part[1..] + rest && (part + rest)[0] == part[0];
      SplitWhole(part[1..], rest, separator);
      assert part == [part[0]] + part[1..];
    }
  }

  /** The text of an identifier, letter by letter. */
  lemma IdentifierLetters(value: string)
    ensures IsIdentifier(value) <==>
            && value != "" && |value| <= 64
            && IsAlnum(value[0]) && IsAlnum(value[|value| - 1])
            && forall i :: 0 <= i < |value| ==> IsAlnum(value[i]) || value[i] == '_' || value[i] == '-'
  {
    forall c
      ensures LowerAlnum(c) <==> IsAlnum(c)
    {
      LettersAre(c);
      MoreLettersAre(c);
      DigitsAre(c);
    }
    hide LowerAlnum, IsAlnum;
  }

  predicate IsAlnum(c: char) {
    c in "abcdefghijklm" || c in "nopqrstuvwxyz" || c in "0123456789"
  }

  lemma LettersAre(c: char)
    ensures c in "abcdefghijklm" <==> 'a' <= c <= 'm'
  {
    if 'a' <= c <= 'm' {
      assert "abcdefghijklm"[c as int - 'a' as int] == c;
    }
  }

  lemma MoreLettersAre(c: char)
    ensures c in "nopqrstuvwxyz" <==> 'n' <= c <= 'z'
  {
    if 'n' <= c <= 'z' {
      assert "nopqrstuvwxyz"[c as int - 'n' as int] == c;
    }
  }

  lemma DigitsAre(c: char)
    ensures c in "0123456789" <==> '0' <= c <= '9'
  {
    if '0' <= c <= '9' {
      assert "0123456789"[c as int - '0' as int] == c;
    }
  }

  /** The accounts under their codes; a repeated code keeps its first account. */
  function AccountsByCode(accounts: seq<AccountConfig>): map<string, AccountConfig> {
    if accounts == [] then map[] else
      var known, last := AccountsByCode(accounts[..|accounts| - 1]), accounts[|accounts| - 1];
      if last.code == "" || last.code in known then known else known[last.code := last]
  }

  function ChannelsByCode(channels: seq<ChannelConfig>): map<string, ChannelConfig> {
    if channels == [] then map[] else
      var known, last := ChannelsByCode(channels[..|channels| - 1]), channels[|channels| - 1];
      if last.code == "" || last.code in known then known else known[last.code := last]
  }

  predicate AccountOk(accounts: seq<AccountConfig>, i: nat)
    requires i < |accounts|
  {
    && IsIdentifier(accounts[i].code)
    && !accounts[i].provider.UnknownProvider?
    && forall j :: 0 <= j < i ==> accounts[j].code != accounts[i].code
  }

  predicate AccountsOk(accounts: seq<AccountConfig>) {
    forall i :: 0 <= i < |accounts| ==> AccountOk(accounts, i)
  }

  predicate ChannelCodeOk(channels: seq<ChannelConfig>, i: nat)
    requires i < |channels|
  {
    IsIdentifier(channels[i].code) && forall j :: 0 <= j < i ==> channels[j].code != channels[i].code
  }

  predicate ChannelAccountOk(channel: ChannelConfig, accounts: map<string, AccountConfig>) {
    && channel.account in accounts
    && SupportsTransport(accounts[channel.account].provider, channel.transport)
    && (EnabledValue(channel.enabled) ==> EnabledValue(accounts[channel.account].enabled))
  }

  predicate ChannelOk(channels: seq<ChannelConfig>, accounts: map<string, AccountConfig>, i: nat)
    requires i < |channels|
  {
    ChannelCodeOk(channels, i) && ChannelAccountOk(channels[i], accounts)
  }

  predicate ChannelsOk(channels: seq<ChannelConfig>, accounts: map<string, AccountConfig>) {
    forall i :: 0 <= i < |channels| ==> ChannelOk(channels, accounts, i)
  }

  predicate Serves(channel: ChannelConfig, accounts: map<string, AccountConfig>) {
    && channel.code != "" && EnabledValue(channel.enabled)
    && channel.account in accounts && EnabledValue(accounts[channel.account].enabled)
  }

  function ServingCodes(channels: seq<ChannelConfig>, accounts: map<string, AccountConfig>): set<string> {
    set channel | channel in channels && Serves(channel, accounts) :: channel.code
  }

  predicate RouteChannelOk(code: string, channels: map<string, ChannelConfig>, serving: set<string>) {
    code in channels && EnabledValue(channels[code].enabled) && code in serving
  }

  predicate RouteEntryOk(key: string, codes: seq<string>, channels: map<string, ChannelConfig>, serving: set<string>) {
    && IsRouteKey(key)
    && codes != []
    && (forall i, j :: 0 <= i < j < |codes| ==> codes[i] != codes[j])
    && forall i :: 0 <= i < |codes| ==> RouteChannelOk(codes[i], channels, serving)
  }

  predicate PolicyOk(policy: RoutePolicy, channels: map<string, ChannelConfig>, serving: set<string>) {
    WILDCARD in policy && forall key :: key in policy ==> RouteEntryOk(key, policy[key], channels, serving)
  }

  predicate ScenesOk(app: AppConfig, channels: map<string, ChannelConfig>, serving: set<string>) {
    forall j :: 0 <= j < |app.scenes| ==> PolicyOk(app.scenes[j].routePolicy, channels, serving)
  }

  predicate ConfigOk(cfg: Config) {
    var accounts := AccountsByCode(cfg.accounts);
    && DefaultsOk(cfg.defaults)
    && AccountsOk(cfg.accounts)
    && ChannelsOk(cfg.channels, accounts)
    && forall i :: 0 <= i < |cfg.apps| ==>
        ScenesOk(cfg.apps[i], ChannelsByCode(cfg.channels), ServingCodes(cfg.channels, accounts))
  }

  lemma {:induction false} AccountsByCodeHolds(accounts: seq<AccountConfig>, code: string)
    ensures code in AccountsByCode(accounts) <==>
            code != "" && exists i :: 0 <= i < |accounts| && accounts[i].code == code
  {
    if accounts != [] {
      var n := |accounts| - 1;
      AccountsByCodeHolds(accounts[..n], code);
      assert forall i :: 0 <= i < n ==> accounts[..n][i] == accounts[i];
    }
  }

  lemma {:induction false} ChannelsByCodeHolds(channels: seq<ChannelConfig>, code: string)
    ensures code in ChannelsByCode(channels) <==>
            code != "" && exists i :: 0 <= i < |channels| && channels[i].code == code
  {
    if channels != [] {
      var n := |channels| - 1;
      ChannelsByCodeHolds(channels[..n], code);
      assert forall i :: 0 <= i < n ==> channels[..n][i] == channels[i];
    }
  }

  /** A list with one more account is sound when the list was and the new account is. */
  lemma AccountsOkGrow(accounts: seq<AccountConfig>, i: nat)
    requires i < |accounts|
    ensures AccountsOk(accounts[..i + 1]) <==> AccountsOk(accounts[..i]) && AccountOk(accounts, i)
  {
    forall k | 0 <= k < i
      ensures AccountOk(accounts[..i], k) == AccountOk(accounts[..i + 1], k)
    {
      assert accounts[..i][k] == accounts[..i + 1][k];
      assert forall j :: 0 <= j < k ==> accounts[..i][j] == accounts[..i + 1][j];
    }
    assert accounts[..i + 1][i] == accounts[i];
    assert forall j :: 0 <= j < i ==> accounts[..i + 1][j] == accounts[j];
    assert AccountOk(accounts[..i + 1], i) == AccountOk(accounts, i);
    if AccountsOk(accounts[..i + 1]) {
      assert AccountOk(accounts[..i + 1], i);
      forall k | 0 <= k < i
        ensures AccountOk(accounts[..i], k)
      {
        assert AccountOk(accounts[..i + 1], k);
      }
    } else {
      var k :| 0 <= k < i + 1 && !AccountOk(accounts[..i + 1], k);
      assert k == i || !AccountOk(accounts[..i], k);
    }
  }

  lemma ChannelsOkGrow(channels: seq<ChannelConfig>, accounts: map<string, AccountConfig>, i: nat)
    requires i < |channels|
    ensures ChannelsOk(channels[..i + 1], accounts) <==>
            ChannelsOk(channels[..i], accounts) && ChannelOk(channels, accounts, i)
  {
    hide IsIdentifier, ChannelAccountOk;
    forall k | 0 <= k < i
      ensures ChannelOk(channels[..i], accounts, k) == ChannelOk(channels[..i + 1], accounts, k)
    {
      assert channels[..i][k] == channels[..i + 1][k];
      assert forall j :: 0 <= j < k ==> channels[..i][j] == channels[..i + 1][j];
    }
    assert channels[..i + 1][i] == channels[i];
    assert forall j :: 0 <= j < i ==> channels[..i + 1][j] == channels[j];
    assert ChannelOk(channels[..i + 1], accounts, i) == ChannelOk(channels, accounts, i);
    if ChannelsOk(channels[..i + 1], accounts) {
      assert ChannelOk(channels[..i + 1], accounts, i);
      forall k | 0 <= k < i
        ensures ChannelOk(channels[..i], accounts, k)
      {
        assert ChannelOk(channels[..i + 1], accounts, k);
      }
    } else {
      var k :| 0 <= k < i + 1 && !ChannelOk(channels[..i + 1], accounts, k);
      assert k == i || !ChannelOk(channels[..i], accounts, k);
    }
  }

  /** A new list entry is a repeat exactly when its code is already on record. */
  lemma RepeatIsKnown(accounts: seq<AccountConfig>, i: nat)
    requires i < |accounts| && accounts[i].code != ""
    ensures accounts[i].code in AccountsByCode(accounts[..i]) <==>
            !(forall j :: 0 <= j < i ==> accounts[j].code != accounts[i].code)
  {
    AccountsByCodeHolds(accounts[..i], accounts[i].code);
    assert forall j :: 0 <= j < i ==> accounts[..i][j] == accounts[j];
  }

  lemma ChannelRepeatIsKnown(channels: seq<ChannelConfig>, i: nat)
    requires i < |channels| && channels[i].code != ""
    ensures channels[i].code in ChannelsByCode(channels[..i]) <==>
            !(forall j :: 0 <= j < i ==> channels[j].code != channels[i].code)
  {
    ChannelsByCodeHolds(channels[..i], channels[i].code);
    assert forall j :: 0 <= j < i ==> channels[..i][j] == channels[j];
  }

  class ConfigValidator {
    const cfg: Config
    var errors: seq<ConfigError>
    var accountsByCode: map<string, AccountConfig>
    var channelsByCode: map<string, ChannelConfig>
    var enabledChannelCodes: set<string>

    constructor (cfg: Config)
      ensures this.cfg == cfg && errors == []
    {
      this.cfg := cfg;
      errors := [];
      accountsByCode, channelsByCode, enabledChannelCodes := map[], map[], {};
    }

    method AddErrorIf(fault: bool, error: ConfigError)
      modifies this`errors
      ensures errors == if fault then old(errors) + [error] else old(errors)
      ensures |errors| == |old(errors)| + if fault then 1 else 0
    {
      if fault {
        errors := errors + [error];
      }
    }

    method ValidateRetryBackoff()
      modifies this`errors
      ensures old(errors) <= errors
      ensures |errors| == |old(errors)| <==> BackoffOk(cfg.defaults.retryBackoffSeconds)
    {
      var backoffs := cfg.defaults.retryBackoffSeconds;
      var i := 0;
      while i < |backoffs|
        invariant 0 <= i <= |backoffs|
        invariant old(errors) <= errors
        invariant |errors| == |old(errors)| <==> BackoffOk(backoffs[..i])
      {
        assert backoffs[..i + 1] == backoffs[..i] + [backoffs[i]];
        if backoffs[i] < 0 || backoffs[i] > MAX_RETRY_BACKOFF_SECONDS {
          errors := errors + [RetryBackoffInvalid];
        } else if i == 0 && backoffs[i] != 0 {
          errors := errors + [RetryBackoffInvalid];
        }
        i := i + 1;
      }
      assert backoffs[..i] == backoffs;
    }

    method ValidateLimits()
      modifies this`errors
      ensures old(errors) <= errors
      ensures |errors| == |old(errors)| <==> LimitsOk(cfg.defaults)
    {
      var d := cfg.defaults;
      AddErrorIf(d.memoryQueueSize <= 0, DefaultInvalid);
      AddErrorIf(d.workerConcurrency <= 0, DefaultInvalid);
      AddErrorIf(d.idempotencyCacheSize <= 0, DefaultInvalid);
      AddErrorIf(d.idempotencyTtlHours <= 0, DefaultInvalid);
      AddErrorIf(d.maxRequestBodyBytes <= 0, DefaultInvalid);
      AddErrorIf(d.maxTemplateVarBytes <= 0, DefaultInvalid);
      AddErrorIf(d.maxContextBytes <= 0, DefaultInvalid);
    }

    method ValidateDefaults()
      modifies this`errors
      ensures old(errors) <= errors
      ensures |errors| == |old(errors)| <==> DefaultsOk(cfg.defaults)
    {
      hide BackoffOk, LimitsOk;
      var d := cfg.defaults;
      AddErrorIf(d.providerTimeoutSeconds <= 0, DefaultInvalid);
      AddErrorIf(d.maxAttemptsPerMessage <= 0 || d.maxAttemptsPerMessage > MAX_ATTEMPTS_PER_MESSAGE, DefaultInvalid);
      AddErrorIf(|d.retryBackoffSeconds| != d.maxAttemptsPerMessage, RetryBackoffInvalid);
      ValidateRetryBackoff();
      ValidateLimits();
    }

    /** One account: its code is recorded unless it is blank or a repeat. */
    method ValidateAccount(i: nat)
      requires i < |cfg.accounts| && accountsByCode == AccountsByCode(cfg.accounts[..i])
      modifies this`errors, this`accountsByCode
      ensures old(errors) <= errors
      ensures |errors| == |old(errors)| <==> AccountOk(cfg.accounts, i)
      ensures accountsByCode == AccountsByCode(cfg.accounts[..i + 1])
    {
      hide IsIdentifier;
      var account := cfg.accounts[i];
      assert cfg.accounts[..i + 1][..i] == cfg.accounts[..i];
      EmptyIsNoIdentifier();
      AddErrorIf(!IsIdentifier(account.code), IdentifierInvalid);
      if account.code != "" {
        RepeatIsKnown(cfg.accounts, i);
        if account.code in accountsByCode {
          AddErrorIf(true, AccountDuplicate);
        } else {
          accountsByCode := accountsByCode[account.code := account];
        }
      }
      AddErrorIf(account.provider.UnknownProvider?, ProviderInvalid);
    }

    method ValidateProviderAccounts()
      modifies this`errors, this`accountsByCode
      ensures old(errors) <= errors
      ensures |errors| == |old(errors)| <==> AccountsOk(cfg.accounts)
      ensures accountsByCode == AccountsByCode(cfg.accounts)
    {
      hide AccountOk;
      accountsByCode := map[];
      var i := 0;
      while i < |cfg.accounts|
        invariant 0 <= i <= |cfg.accounts|
        invariant old(errors) <= errors
        invariant |errors| == |old(errors)| <==> AccountsOk(cfg.accounts[..i])
        invariant accountsByCode == AccountsByCode(cfg.accounts[..i])
      {
        AccountsOkGrow(cfg.accounts, i);
        ValidateAccount(i);
        i := i + 1;
      }
      assert cfg.accounts[..i] == cfg.accounts;
    }

    method ValidateChannelCode(i: nat)
      requires i < |cfg.channels| && channelsByCode == ChannelsByCode(cfg.channels[..i])
      modifies this`errors, this`channelsByCode
      ensures old(errors) <= errors
      ensures |errors| == |old(errors)| <==> ChannelCodeOk(cfg.channels, i)
      ensures channelsByCode == ChannelsByCode(cfg.channels[..i + 1])
    {
      hide IsIdentifier;
      var channel := cfg.channels[i];
      assert cfg.channels[..i + 1][..i] == cfg.channels[..i];
      EmptyIsNoIdentifier();
      AddErrorIf(!IsIdentifier(channel.code), IdentifierInvalid);
      if channel.code != "" {
        ChannelRepeatIsKnown(cfg.channels, i);
        if channel.code in channelsByCode {
          AddErrorIf(true, ChannelDuplicate);
        } else {
          channelsByCode := channelsByCode[channel.code := channel];
        }
      }
    }

    method ValidateChannelAccount(channel: ChannelConfig)
      modifies this`errors
      ensures old(errors) <= errors
      ensures "" !in accountsByCode ==> (|errors| == |old(errors)| <==> ChannelAccountOk(channel, accountsByCode))
    {
      if channel.account == "" {
        AddErrorIf(true, AccountRequired);
      } else if channel.account !in accountsByCode {
        AddErrorIf(true, AccountNotFound);
      } else {
        var account := accountsByCode[channel.account];
        AddErrorIf(!SupportsTransport(account.provider, channel.transport), TransportInvalid);
        AddErrorIf(EnabledValue(channel.enabled) && !EnabledValue(account.enabled), AccountDisabled);
      }
      AddErrorIf(channel.transport.UnknownTransport?, TransportInvalid);
    }

    method ValidateProviderChannels()
      modifies this`errors, this`channelsByCode, this`enabledChannelCodes
      ensures old(errors) <= errors
      ensures "" !in accountsByCode ==> (|errors| == |old(errors)| <==> ChannelsOk(cfg.channels, accountsByCode))
      ensures channelsByCode == ChannelsByCode(cfg.channels)
      ensures enabledChannelCodes == ServingCodes(cfg.channels, accountsByCode)
    {
      hide ChannelCodeOk, ChannelAccountOk, EnabledValue, ChannelsOk;
      channelsByCode, enabledChannelCodes := map[], {};
      var i := 0;
      NoChannelsAreOk(accountsByCode);
      while i < |cfg.channels|
        invariant 0 <= i <= |cfg.channels|
        invariant old(errors) <= errors
        invariant "" !in accountsByCode ==>
                  (|errors| == |old(errors)| <==> ChannelsOk(cfg.channels[..i], accountsByCode))
        invariant channelsByCode == ChannelsByCode(cfg.channels[..i])
        invariant enabledChannelCodes == ServingCodes(cfg.channels[..i], accountsByCode)
      {
        var channel := cfg.channels[i];
        ChannelsOkGrow(cfg.channels, accountsByCode, i);
        assert cfg.channels[..i + 1] == cfg.channels[..i] + [channel];
        ValidateChannelCode(i);
        ValidateChannelAccount(channel);
        if channel.code != "" && EnabledValue(channel.enabled) && channel.account in accountsByCode
          && EnabledValue(accountsByCode[channel.account].enabled)
        {
          enabledChannelCodes := enabledChannelCodes + {channel.code};
        }
        i := i + 1;
      }
      assert cfg.channels[..i] == cfg.channels;
    }

    method ValidateRouteEntry(key: string, codes: seq<string>)
      modifies this`errors
      ensures old(errors) <= errors
      ensures |errors| == |old(errors)| <==> RouteEntryOk(key, codes, channelsByCode, enabledChannelCodes)
    {
      hide IsRouteKey;
      AddErrorIf(!IsRouteKey(key), RouteDomainInvalid);
      AddErrorIf(|codes| == 0, PolicyEmpty);
      ghost var before := errors;
      var seen: set<string> := {};
      var i := 0;
      while i < |codes|
        invariant 0 <= i <= |codes|
        invariant before <= errors
        invariant forall code :: code in seen <==> code in codes[..i]
        invariant |errors| == |before| <==>
                  && (forall k, j :: 0 <= k < j < i ==> codes[k] != codes[j])
                  && (forall k :: 0 <= k < i ==> RouteChannelOk(codes[k], channelsByCode, enabledChannelCodes))
      {
        var code := codes[i];
        assert forall k :: 0 <= k < i ==> codes[..i][k] == codes[k];
        if code in seen {
          errors := errors + [RouteChannelDuplicate];
        } else {
          seen := seen + {code};
          if code !in channelsByCode {
            errors := errors + [RouteChannelNotFound];
          } else if !EnabledValue(channelsByCode[code].enabled) {
            errors := errors + [RouteChannelDisabled];
          } else if code !in enabledChannelCodes {
            errors := errors + [RouteChannelUnavailable];
          }
        }
        assert codes[..i + 1] == codes[..i] + [code];
        i := i + 1;
      }
    }

    /** The route entries are visited in an arbitrary order. */
    method ValidateRoutePolicy(policy: RoutePolicy)
      modifies this`errors
      ensures old(errors) <= errors
      ensures |errors| == |old(errors)| <==> PolicyOk(policy, channelsByCode, enabledChannelCodes)
    {
      hide RouteEntryOk;
      AddErrorIf(WILDCARD !in policy, PolicyMissingWildcard);
      var keys := policy.Keys;
      while keys != {}
        invariant keys <= policy.Keys
        invariant old(errors) <= errors
        invariant |errors| == |old(errors)| <==>
                  && WILDCARD in policy
                  && forall key :: key in policy && key !in keys ==>
                      RouteEntryOk(key, policy[key], channelsByCode, enabledChannelCodes)
        decreases |keys|
      {
        var key :| key in keys;
        ValidateRouteEntry(key, policy[key]);
        keys := keys - {key};
      }
    }

    method ValidateScenes(app: AppConfig)
      modifies this`errors
      ensures old(errors) <= errors
      ensures |errors| == |old(errors)| <==> ScenesOk(app, channelsByCode, enabledChannelCodes)
    {
      hide PolicyOk;
      var i := 0;
      while i < |app.scenes|
        invariant 0 <= i <= |app.scenes|
        invariant old(errors) <= errors
        invariant |errors| == |old(errors)| <==>
                  forall j :: 0 <= j < i ==> PolicyOk(app.scenes[j].routePolicy, channelsByCode, enabledChannelCodes)
      {
        ValidateRoutePolicy(app.scenes[i].routePolicy);
        i := i + 1;
      }
    }

    /** No error is reported exactly when the configuration is sound. */
    method Validate()
      requires errors == []
      modifies this
      ensures errors == [] <==> ConfigOk(cfg)
    {
      hide DefaultsOk, AccountsOk, ChannelsOk, ScenesOk, AccountsByCode, ChannelsByCode, ServingCodes;
      ValidateDefaults();
      ValidateProviderAccounts();
      AccountsByCodeHolds(cfg.accounts, "");
      ValidateProviderChannels();
      ghost var before := errors;
      var i := 0;
      while i < |cfg.apps|
        invariant 0 <= i <= |cfg.apps|
        invariant before <= errors
        invariant channelsByCode == ChannelsByCode(cfg.channels)
        invariant enabledChannelCodes == ServingCodes(cfg.channels, AccountsByCode(cfg.accounts))
        invariant |errors| == |before| <==>
                  forall j :: 0 <= j < i ==> ScenesOk(cfg.apps[j], channelsByCode, enabledChannelCodes)
      {
        ValidateScenes(cfg.apps[i]);
        i := i + 1;
      }
    }
  }

  lemma NoChannelsAreOk(accounts: map<string, AccountConfig>)
    ensures ChannelsOk([], accounts)
  {
  }

  lemma EmptyIsNoIdentifier()
    ensures !IsIdentifier("")
  {
  }
}
