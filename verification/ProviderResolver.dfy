/**
 Binding configured channels to their accounts and adapters, and what a validated
 configuration guarantees to every message that is routed through it.
 */
module ProviderResolver {
  import opened Wrappers
  import opened Domain
  import opened Routing
  import opened ConfigValidation
  import Worker = WorkerTask
  import Delivery

  type Resolver = map<string, ChannelRuntime>

  predicate Wired(provider: Provider, transport: Transport) {
    || (provider == Mock && transport == Api)
    || (provider == Resend && transport == Api)
    || (provider == Brevo && transport == Api)
    || ((provider == Resend || provider == Brevo) && transport == Smtp)
  }

  /** Adapters exist for exactly the pairs that validation lets through. */
  lemma WiredIsSupported(provider: Provider, transport: Transport)
    ensures Wired(provider, transport) <==> SupportsTransport(provider, transport)
  {
  }

  function AccountOf(config: AccountConfig): ProviderAccount {
    ProviderAccount(config.code, config.provider, EnabledValue(config.enabled))
  }

  /** The accounts under their codes; here a repeated code keeps its last account. */
  function LastAccounts(accounts: seq<AccountConfig>): map<string, ProviderAccount> {
    if accounts == [] then map[] else
      LastAccounts(accounts[..|accounts| - 1])[accounts[|accounts| - 1].code := AccountOf(accounts[|accounts| - 1])]
  }

  predicate Bindable(config: ChannelConfig, accounts: map<string, ProviderAccount>) {
    config.account in accounts && Wired(accounts[config.account].provider, config.transport)
  }

  function Bind(config: ChannelConfig, accounts: map<string, ProviderAccount>): ChannelRuntime
    requires Bindable(config, accounts)
  {
    ChannelRuntime(accounts[config.account],
                   ProviderChannel(config.code, config.account, config.transport, EnabledValue(config.enabled)),
                   true)
  }

  /** The bindings under their channel codes; a repeated code keeps its last binding. */
  function LastBindings(channels: seq<ChannelConfig>, accounts: map<string, ProviderAccount>): Resolver
    requires forall c :: c in channels ==> Bindable(c, accounts)
  {
    if channels == [] then map[] else
      var last := channels[|channels| - 1];
      LastBindings(channels[..|channels| - 1], accounts)[last.code := Bind(last, accounts)]
  }

  function Resolve(resolver: Resolver, channelCode: string): Option<ChannelRuntime> {
    if channelCode in resolver then Some(resolver[channelCode]) else None
  }

  method StaticProviderResolver(runtimes: seq<ChannelRuntime>, ghost channels: seq<ChannelConfig>,
                                ghost accounts: map<string, ProviderAccount>)
    returns (resolver: Resolver)
    requires |runtimes| == |channels| && forall c :: c in channels ==> Bindable(c, accounts)
    requires forall i :: 0 <= i < |channels| ==> runtimes[i] == Bind(channels[i], accounts)
    ensures resolver == LastBindings(channels, accounts)
  {
    resolver := map[];
    var i := 0;
    while i < |runtimes|
      invariant 0 <= i <= |runtimes|
      invariant forall c :: c in channels[..i] ==> c in channels
      invariant resolver == LastBindings(channels[..i], accounts)
    {
      assert channels[..i + 1][..i] == channels[..i];
      resolver := resolver[runtimes[i].channel.code := runtimes[i]];
      i := i + 1;
    }
    assert channels[..i] == channels;
  }

  /** Building fails exactly when some channel names a missing account or an unwired transport. */
  method NewProviderResolverFromConfig(cfg: Config) returns (resolver: Option<Resolver>)
    ensures resolver.Some? <==> forall c :: c in cfg.channels ==> Bindable(c, LastAccounts(cfg.accounts))
    ensures resolver.Some? ==> resolver.value == LastBindings(cfg.channels, LastAccounts(cfg.accounts))
  {
    var accounts: map<string, ProviderAccount> := map[];
    var i := 0;
    while i < |cfg.accounts|
      invariant 0 <= i <= |cfg.accounts|
      invariant accounts == LastAccounts(cfg.accounts[..i])
    {
      assert cfg.accounts[..i + 1][..i] == cfg.accounts[..i];
      accounts := accounts[cfg.accounts[i].code := AccountOf(cfg.accounts[i])];
      i := i + 1;
    }
    assert cfg.accounts[..i] == cfg.accounts;
    var runtimes: seq<ChannelRuntime> := [];
    i := 0;
    while i < |cfg.channels|
      invariant 0 <= i <= |cfg.channels| && |runtimes| == i
      invariant forall k :: 0 <= k < i ==>
                Bindable(cfg.channels[k], accounts) && runtimes[k] == Bind(cfg.channels[k], accounts)
    {
      var config := cfg.channels[i];
      assert config in cfg.channels;
      if config.account !in accounts {
        assert !Bindable(config, accounts);
        return None;
      }
      var account := accounts[config.account];
      if !Wired(account.provider, config.transport) {
        return None;
      }
      var channel := ProviderChannel(config.code, config.account, config.transport, EnabledValue(config.enabled));
      runtimes := runtimes + [ChannelRuntime(account, channel, true)];
      i := i + 1;
    }
    var built := StaticProviderResolver(runtimes, cfg.channels, accounts);
    resolver := Some(built);
  }

  ghost predicate LastWithCode(channels: seq<ChannelConfig>, i: nat, code: string) {
    i < |channels| && channels[i].code == code && forall k :: i < k < |channels| ==> channels[k].code != code
  }

  ghost predicate LastAccountWithCode(accounts: seq<AccountConfig>, i: nat, code: string) {
    i < |accounts| && accounts[i].code == code && forall k :: i < k < |accounts| ==> accounts[k].code != code
  }

  /** A binding is what the configuration says of the channel and its account; a missing flag means enabled. */
  lemma BindingsAreConfigured(cfg: Config, code: string) returns (i: nat, j: nat)
    requires forall c :: c in cfg.channels ==> Bindable(c, LastAccounts(cfg.accounts))
    requires code in LastBindings(cfg.channels, LastAccounts(cfg.accounts))
    ensures LastWithCode(cfg.channels, i, code) && LastAccountWithCode(cfg.accounts, j, cfg.channels[i].account)
    ensures var channel, account := cfg.channels[i], cfg.accounts[j];
            LastBindings(cfg.channels, LastAccounts(cfg.accounts))[code] ==
            ChannelRuntime(ProviderAccount(account.code, account.provider, account.enabled != Some(false)),
                           ProviderChannel(code, account.code, channel.transport, channel.enabled != Some(false)), true)
  {
    i := BoundChannel(cfg.channels, LastAccounts(cfg.accounts), code);
    assert Bindable(cfg.channels[i], LastAccounts(cfg.accounts));
    j := BoundAccount(cfg.accounts, cfg.channels[i].account);
    hide LastBindings, LastAccounts;
  }

  lemma {:induction false} BoundChannel(channels: seq<ChannelConfig>, accounts: map<string, ProviderAccount>,
                                        code: string)
    returns (i: nat)
    requires forall c :: c in channels ==> Bindable(c, accounts)
    requires code in LastBindings(channels, accounts)
    ensures LastWithCode(channels, i, code) && LastBindings(channels, accounts)[code] == Bind(channels[i], accounts)
  {
    hide Bindable;
    var n := |channels| - 1;
    i := n;
    assert channels == channels[..n] + [channels[n]];
    if channels[n].code != code {
      i := BoundChannel(channels[..n], accounts, code);
    }
  }

  lemma {:induction false} BoundAccount(accounts: seq<AccountConfig>, code: string) returns (j: nat)
    requires code in LastAccounts(accounts)
    ensures LastAccountWithCode(accounts, j, code) && LastAccounts(accounts)[code] == AccountOf(accounts[j])
  {
    var n := |accounts| - 1;
    j := n;
    assert accounts == accounts[..n] + [accounts[n]];
    if accounts[n].code != code {
      j := BoundAccount(accounts[..n], code);
    }
  }

  // ---------- what validation buys ----------

  /** First-wins validation and last-wins binding agree on a validated account list. */
  lemma {:induction false} SameAccounts(accounts: seq<AccountConfig>, code: string)
    requires AccountsOk(accounts)
    ensures code in LastAccounts(accounts) <==> code in AccountsByCode(accounts)
    ensures code in AccountsByCode(accounts) ==>
              && LastAccounts(accounts)[code] == AccountOf(AccountsByCode(accounts)[code])
              && AccountsByCode(accounts)[code].code == code && code != ""
  {
    if accounts != [] {
      var n := |accounts| - 1;
      assert accounts[..n + 1] == accounts;
      AccountsOkGrow(accounts, n);
      assert AccountOk(accounts, n);
      EmptyIsNoIdentifier();
      RepeatIsKnown(accounts, n);
      SameAccounts(accounts[..n], code);
    }
  }

  /** In a validated channel list the channel found under a code is the one bound to it. */
  lemma {:induction false} SameChannels(channels: seq<ChannelConfig>, accounts: map<string, AccountConfig>,
                                        bound: map<string, ProviderAccount>, code: string)
    requires ChannelsOk(channels, accounts) && code in ChannelsByCode(channels)
    requires forall c :: c in channels ==> Bindable(c, bound)
    ensures var c := ChannelsByCode(channels)[code];
            && c in channels && c.code == code && code != ""
            && code in LastBindings(channels, bound) && LastBindings(channels, bound)[code] == Bind(c, bound)
  {
    hide Bindable, ChannelAccountOk, IsIdentifier;
    var n := |channels| - 1;
    assert channels[..n + 1] == channels;
    ChannelsOkGrow(channels, accounts, n);
    EmptyIsNoIdentifier();
    ChannelRepeatIsKnown(channels, n);
    if code != channels[n].code {
      SameChannels(channels[..n], accounts, bound, code);
    }
  }

  lemma ValidChannelsBind(cfg: Config)
    requires ConfigOk(cfg)
    ensures forall c :: c in cfg.channels ==> Bindable(c, LastAccounts(cfg.accounts))
  {
    hide AccountsOk, LastAccounts, AccountsByCode, DefaultsOk, ScenesOk, ChannelCodeOk;
    forall c | c in cfg.channels
      ensures Bindable(c, LastAccounts(cfg.accounts))
    {
      var i :| 0 <= i < |cfg.channels| && cfg.channels[i] == c;
      assert ChannelOk(cfg.channels, AccountsByCode(cfg.accounts), i);
      SameAccounts(cfg.accounts, c.account);
    }
  }

  /** A channel that may stand in a route is bound, complete and enabled in the resolver. */
  lemma RouteChannelIsUsable(cfg: Config, code: string)
    requires ConfigOk(cfg)
    requires RouteChannelOk(code, ChannelsByCode(cfg.channels),
                            ServingCodes(cfg.channels, AccountsByCode(cfg.accounts)))
    ensures forall c :: c in cfg.channels ==> Bindable(c, LastAccounts(cfg.accounts))
    ensures code != "" && Worker.Usable(code, Resolve(LastBindings(cfg.channels, LastAccounts(cfg.accounts)), code))
  {
    hide AccountsOk, LastAccounts, AccountsByCode, ChannelsByCode, LastBindings, DefaultsOk, ScenesOk, ChannelCodeOk;
    ValidChannelsBind(cfg);
    var accounts := AccountsByCode(cfg.accounts);
    SameChannels(cfg.channels, accounts, LastAccounts(cfg.accounts), code);
    var c := ChannelsByCode(cfg.channels)[code];
    var i :| 0 <= i < |cfg.channels| && cfg.channels[i] == c;
    assert ChannelOk(cfg.channels, accounts, i);
    SameAccounts(cfg.accounts, c.account);
  }

  /** A code leads to its own account. */
  lemma {:induction false} FoundAccount(accounts: seq<AccountConfig>, code: string)
    requires code in AccountsByCode(accounts)
    ensures AccountsByCode(accounts)[code] in accounts && AccountsByCode(accounts)[code].code == code
  {
    if accounts != [] {
      var n := |accounts| - 1;
      assert accounts == accounts[..n] + [accounts[n]];
      if code in AccountsByCode(accounts[..n]) {
        FoundAccount(accounts[..n], code);
      }
    }
  }

  /**
   In a validated configuration every route entry lists channels that are there and not switched off, each
   of an account that is there and not switched off, over a transport its provider has.
   */
  lemma RoutesAreServed(cfg: Config, app: nat, scene: nat, key: string, code: string)
    returns (channel: ChannelConfig, account: AccountConfig)
    requires ConfigOk(cfg) && app < |cfg.apps| && scene < |cfg.apps[app].scenes|
    requires key in cfg.apps[app].scenes[scene].routePolicy
    requires code in cfg.apps[app].scenes[scene].routePolicy[key]
    ensures "*" in cfg.apps[app].scenes[scene].routePolicy
    ensures channel in cfg.channels && channel.code == code && channel.enabled != Some(false)
    ensures account in cfg.accounts && account.code == channel.account && account.enabled != Some(false)
    ensures (account.provider, channel.transport) in
            {(Mock, Api), (Provider.Resend, Api), (Provider.Resend, Smtp), (Brevo, Api), (Brevo, Smtp)}
  {
    hide AccountsByCode, ChannelsByCode, AccountsOk, DefaultsOk, ChannelCodeOk, IsRouteKey, SupportsTransport;
    var policy := cfg.apps[app].scenes[scene].routePolicy;
    var channels, accounts := ChannelsByCode(cfg.channels), AccountsByCode(cfg.accounts);
    assert ScenesOk(cfg.apps[app], channels, ServingCodes(cfg.channels, accounts));
    assert PolicyOk(policy, channels, ServingCodes(cfg.channels, accounts));
    assert RouteEntryOk(key, policy[key], channels, ServingCodes(cfg.channels, accounts));
    var i :| 0 <= i < |policy[key]| && policy[key][i] == code;
    assert RouteChannelOk(policy[key][i], channels, ServingCodes(cfg.channels, accounts));
    channel :| channel in cfg.channels && Serves(channel, accounts) && channel.code == code;
    FoundAccount(cfg.accounts, channel.account);
    account := accounts[channel.account];
    var k :| 0 <= k < |cfg.channels| && cfg.channels[k] == channel;
    assert ChannelOk(cfg.channels, accounts, k);
    SupportedPairs(account.provider, channel.transport);
  }

  /** Every message of a validated configuration is routed, and only over usable channels. */
  lemma ValidatedRoutesAreUsable(cfg: Config, app: nat, scene: nat, recipientDomain: string)
    requires ConfigOk(cfg) && app < |cfg.apps| && scene < |cfg.apps[app].scenes|
    ensures forall c :: c in cfg.channels ==> Bindable(c, LastAccounts(cfg.accounts))
    ensures var resolver := LastBindings(cfg.channels, LastAccounts(cfg.accounts));
            var max := cfg.defaults.maxAttemptsPerMessage;
            var selection := SelectRoute(cfg.apps[app].scenes[scene].routePolicy, Some(recipientDomain), max);
            && selection.Some? && 0 < |selection.value.channels| <= max
            && Distinct(selection.value.channels)
            && forall c :: c in selection.value.channels ==> c != "" && Worker.Usable(c, Resolve(resolver, c))
  {
    hide AccountsOk, LastAccounts, AccountsByCode, ChannelsByCode, LastBindings, BackoffOk, LimitsOk, ChannelsOk,
         IsRouteKey, RouteChannelOk,
         Worker.Usable, SelectRoute;
    ValidChannelsBind(cfg);
    var policy := cfg.apps[app].scenes[scene].routePolicy;
    var max := cfg.defaults.maxAttemptsPerMessage;
    var channels, serving := ChannelsByCode(cfg.channels), ServingCodes(cfg.channels, AccountsByCode(cfg.accounts));
    assert ScenesOk(cfg.apps[app], channels, serving) && PolicyOk(policy, channels, serving);
    var key := if recipientDomain in policy then recipientDomain else WILDCARD;
    assert RouteEntryOk(key, policy[key], channels, serving);
    assert RouteChannelOk(policy[key][0], channels, serving);
    RouteChannelIsUsable(cfg, policy[key][0]);
    SelectionFailsIff(policy, Some(recipientDomain), max);
    SelectionIsSound(policy, Some(recipientDomain), max);
    var selected := SelectRoute(policy, Some(recipientDomain), max).value.channels;
    forall c | c in selected
      ensures c != "" && Worker.Usable(c, Resolve(LastBindings(cfg.channels, LastAccounts(cfg.accounts)), c))
    {
      var i :| 0 <= i < |policy[key]| && policy[key][i] == c;
      assert RouteChannelOk(policy[key][i], channels, serving);
      RouteChannelIsUsable(cfg, c);
    }
  }

  /**
   For a message routed by a validated configuration the worker has exactly one channel for each
   attempt up to the number of channels, and judges what the adapter itself replied: the answer
   reserved for an unavailable channel never arises.
   */
  lemma UnavailableChannelNeverArises(cfg: Config, app: nat, scene: nat, recipientDomain: string, message: Message,
                                      attemptNo: int, reply: SendResult)
    requires ConfigOk(cfg) && app < |cfg.apps| && scene < |cfg.apps[app].scenes|
    requires SelectRoute(cfg.apps[app].scenes[scene].routePolicy, Some(recipientDomain),
                         cfg.defaults.maxAttemptsPerMessage).Some?
    requires message.providerChannels
             == SelectRoute(cfg.apps[app].scenes[scene].routePolicy, Some(recipientDomain),
                            cfg.defaults.maxAttemptsPerMessage).value.channels
    ensures Delivery.Routed(message)
    ensures forall c :: c in cfg.channels ==> Bindable(c, LastAccounts(cfg.accounts))
    ensures var channel := Worker.ChannelForAttempt(message, attemptNo, cfg.defaults.maxAttemptsPerMessage);
            && (channel.Some? <==> 1 <= attemptNo <= |message.providerChannels|)
            && (channel.Some? ==>
                  Worker.Answer(channel.value,
                                Resolve(LastBindings(cfg.channels, LastAccounts(cfg.accounts)), channel.value),
                                    Some(reply)) == reply)
  {
    hide AccountsOk, LastAccounts, LastBindings, ConfigOk, SelectRoute, Worker.Usable;
    ValidatedRoutesAreUsable(cfg, app, scene, recipientDomain);
    var channels := message.providerChannels;
    forall i | 0 <= i < |channels|
      ensures channels[i] != ""
    {
      assert channels[i] in channels;
    }
    if 1 <= attemptNo <= |channels| {
      assert channels[attemptNo - 1] in channels;
    }
  }
}
