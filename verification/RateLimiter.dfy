/**
 The fixed-window rate limiter: up to four windows consumed together, all or nothing,
 and rollback of what an allowed decision consumed.

 Time is in nanoseconds since a UTC midnight, so windows are aligned to multiples of
 their length.
 */
module RateLimiter {
  import opened Wrappers

  const SECOND := 1_000_000_000

  datatype Rule = EmailMinute | EmailDay | CallerIpHour | UserIpHour

  datatype Policy = Policy(sameEmailPerMinute: int, sameEmailPerDay: int, sameUserIpPerHour: int,
                           sameCallerIpPerHour: int)

  datatype Request = Request(app: string, scene: string, email: string, userIp: string, callerIp: string,
                             policy: Policy)

  datatype CounterKey = CounterKey(rule: Rule, app: string, scene: string, subject: string, windowStart: int)

  datatype Counter = Counter(count: int, expiresAt: int)

  type Counters = map<CounterKey, Counter>

  datatype Check = Check(key: CounterKey, limit: int, expiresAt: int)

  datatype Decision =
    | Allowed(consumed: seq<CounterKey>)
    | Denied(rule: Rule, limit: int, currentCount: int, retryAfterSeconds: int)
    | BadPolicy(rule: Rule)

  function WindowLength(rule: Rule): (w: nat)
    ensures w > 0
  {
    match rule
    case EmailMinute => 60 * SECOND
    case EmailDay => 86400 * SECOND
    case CallerIpHour => 3600 * SECOND
    case UserIpHour => 3600 * SECOND
  }

  function WindowStart(rule: Rule, now: int): int {
    now - now % WindowLength(rule)
  }

  function LimitOf(policy: Policy, rule: Rule): int {
    match rule
    case EmailMinute => policy.sameEmailPerMinute
    case EmailDay => policy.sameEmailPerDay
    case CallerIpHour => policy.sameCallerIpPerHour
    case UserIpHour => policy.sameUserIpPerHour
  }

  function SubjectOf(request: Request, rule: Rule): string {
    match rule
    case EmailMinute => request.email
    case EmailDay => request.email
    case CallerIpHour => request.callerIp
    case UserIpHour => request.userIp
  }

  /** The rules that apply to a request, in the order they are checked. */
  function Rules(request: Request): seq<Rule> {
    if request.userIp != "" then [EmailMinute, EmailDay, CallerIpHour, UserIpHour]
        else [EmailMinute, EmailDay, CallerIpHour]
  }

  function KeyOf(request: Request, rule: Rule, now: int): CounterKey {
    CounterKey(rule, request.app, request.scene, SubjectOf(request, rule), WindowStart(rule, now))
  }

  function CheckOf(request: Request, rule: Rule, now: int): Check {
    Check(KeyOf(request, rule, now), LimitOf(request.policy, rule), WindowStart(rule, now) + WindowLength(rule))
  }

  function Live(counters: Counters, now: int): Counters {
    map k | k in counters && now < counters[k].expiresAt :: counters[k]
  }

  function CountOf(counters: Counters, key: CounterKey): int {
    if key in counters then counters[key].count else 0
  }

  function RetryAfterSeconds(now: int, expiresAt: int): int {
    if expiresAt - now <= 0 then 0 else (expiresAt - now + SECOND - 1) / SECOND
  }

  function FirstBadRule(request: Request, rules: seq<Rule>): Option<Rule> {
    if rules == [] then None
    else if LimitOf(request.policy, rules[0]) <= 0 then Some(rules[0])
    else FirstBadRule(request, rules[1..])
  }

  function FirstExceeded(counters: Counters, request: Request, rules: seq<Rule>, now: int): Option<Rule> {
    if rules == [] then None
    else if CountOf(counters, KeyOf(request, rules[0], now)) >= LimitOf(request.policy, rules[0]) then Some(rules[0])
    else FirstExceeded(counters, request, rules[1..], now)
  }

  function Consume(counters: Counters, request: Request, rules: seq<Rule>, now: int): Counters
    decreases |rules|
  {
    if rules == [] then counters else
      var c := CheckOf(request, rules[0], now);
      Consume(counters[c.key := Counter(CountOf(counters, c.key) + 1, c.expiresAt)], request, rules[1..], now)
  }

  function Keys(request: Request, rules: seq<Rule>, now: int): (keys: seq<CounterKey>)
    ensures |keys| == |rules| && forall i :: 0 <= i < |rules| ==> keys[i] == KeyOf(request, rules[i], now)
  {
    if rules == [] then [] else [KeyOf(request, rules[0], now)] + Keys(request, rules[1..], now)
  }

  function AllowEffect(counters: Counters, request: Request, now: int): (Counters, Decision) {
    var live := Live(counters, now);
    var rules := Rules(request);
    var bad := FirstBadRule(request, rules);
    if bad.Some? then (live, BadPolicy(bad.value)) else
      var exceeded := FirstExceeded(live, request, rules, now);
      if exceeded.Some? then
        var c := CheckOf(request, exceeded.value, now);
        (live, Denied(exceeded.value, c.limit, CountOf(live, c.key), RetryAfterSeconds(now, c.expiresAt)))
      else (Consume(live, request, rules, now), Allowed(Keys(request, rules, now)))
  }

  function Uncount(counters: Counters, key: CounterKey): Counters {
    if key !in counters then counters
    else if counters[key].count <= 1 then counters - {key}
    else counters[key := Counter(counters[key].count - 1, counters[key].expiresAt)]
  }

  function UncountAll(counters: Counters, keys: seq<CounterKey>): Counters
    decreases |keys|
  {
    if keys == [] then counters else UncountAll(Uncount(counters, keys[0]), keys[1..])
  }

  function RollbackEffect(counters: Counters, decision: Decision): Counters {
    if decision.Allowed? then UncountAll(counters, decision.consumed) else counters
  }

  // ---------- windows ----------

  lemma WindowContains(rule: Rule, now: int)
    ensures WindowStart(rule, now) <= now < WindowStart(rule, now) + WindowLength(rule)
  {
  }

  lemma StartIsMultiple(rule: Rule, now: int) returns (q: int)
    ensures WindowStart(rule, now) == q * WindowLength(rule)
  {
    q := now / WindowLength(rule);
  }

  lemma Multiples(i: int, j: int, w: nat)
    ensures i < j ==> i * w + w <= j * w
  {
    if i < j {
      assert (i + 1) * w == i * w + w;
      MultiplesAreOrdered(i + 1, j, w);
    }
  }

  lemma MultiplesAreOrdered(i: int, j: int, w: nat)
    requires i <= j
    ensures i * w <= j * w
  {
    assert j * w - i * w == (j - i) * w;
  }

  /** Inside a window the start does not move, and window starts never move back. */
  lemma SameWindow(rule: Rule, now: int, later: int)
    requires WindowStart(rule, now) <= later
    ensures later < WindowStart(rule, now) + WindowLength(rule) <==> WindowStart(rule, later) == WindowStart(rule, now)
    ensures WindowStart(rule, now) <= WindowStart(rule, later)
  {
    var w := WindowLength(rule);
    var a := StartIsMultiple(rule, now);
    var b := StartIsMultiple(rule, later);
    WindowContains(rule, later);
    hide WindowStart, WindowLength;
    Multiples(a, b, w);
    Multiples(b, a, w);
  }

  /** An interval of window length meets at most two windows. */
  lemma TwoWindows(rule: Rule, from: int, at: int)
    requires from <= at < from + WindowLength(rule)
    ensures WindowStart(rule, at) == WindowStart(rule, from) ||
            WindowStart(rule, at) == WindowStart(rule, from) + WindowLength(rule)
  {
    var w := WindowLength(rule);
    var a := StartIsMultiple(rule, from);
    var b := StartIsMultiple(rule, at);
    WindowContains(rule, from);
    WindowContains(rule, at);
    hide WindowStart, WindowLength;
    Multiples(b, a, w);
    Multiples(a + 1, b, w);
    assert (a + 1) * w == a * w + w;
  }

  // ---------- the effect of the operations on one counter ----------

  /** A request made at a time counts against this key. */
  predicate Uses(request: Request, at: int, key: CounterKey) {
    key.rule in Rules(request) && key == KeyOf(request, key.rule, at)
  }

  predicate Distinct(rules: seq<Rule>) {
    forall i, j :: 0 <= i < j < |rules| ==> rules[i] != rules[j]
  }

  /** Stored counters are positive, expire with their window, and belong to windows already begun. */
  ghost predicate WellKept(counters: Counters, clock: int) {
    forall k :: k in counters ==>
                  counters[k].count >= 1 && counters[k].expiresAt == k.windowStart + WindowLength(k.rule)
                      && k.windowStart <= clock
  }

  lemma {:induction false} ConsumeCounts(counters: Counters, request: Request, rules: seq<Rule>, now: int,
                                         key: CounterKey)
    requires Distinct(rules) && WellKept(counters, now)
    ensures CountOf(Consume(counters, request, rules, now), key) ==
            CountOf(counters, key) + if key.rule in rules && key == KeyOf(request, key.rule, now) then 1 else 0
    ensures WellKept(Consume(counters, request, rules, now), now)
    decreases |rules|
  {
    hide WindowStart;
    if rules != [] {
      var c := CheckOf(request, rules[0], now);
      var next := counters[c.key := Counter(CountOf(counters, c.key) + 1, c.expiresAt)];
      WindowContains(rules[0], now);
      ConsumeCounts(next, request, rules[1..], now, key);
      assert rules == [rules[0]] + rules[1..];
      assert rules[0] !in rules[1..];
    }
  }

  lemma {:induction false} UncountAllCounts(counters: Counters, request: Request, rules: seq<Rule>, at: int, clock: int,
                                            key: CounterKey)
    requires Distinct(rules) && WellKept(counters, clock)
    ensures var after := UncountAll(counters, Keys(request, rules, at));
            && WellKept(after, clock)
            && CountOf(after, key) == if key.rule in rules && key == KeyOf(request, key.rule, at)
                && CountOf(counters, key) > 0
                                      then CountOf(counters, key) - 1 else CountOf(counters, key)
    decreases |rules|
  {
    hide WindowStart, WindowLength, SubjectOf;
    if rules != [] {
      var keys := Keys(request, rules, at);
      assert keys[1..] == Keys(request, rules[1..], at);
      UncountAllCounts(Uncount(counters, keys[0]), request, rules[1..], at, clock, key);
      assert rules == [rules[0]] + rules[1..];
      assert rules[0] !in rules[1..];
    }
  }

  lemma {:induction false} FirstExceededIsFirst(counters: Counters, request: Request, rules: seq<Rule>, now: int)
    ensures var r := FirstExceeded(counters, request, rules, now);
            && (r.None? ==> forall rule :: rule in rules ==>
                CountOf(counters, KeyOf(request, rule, now)) < LimitOf(request.policy, rule))
            && (r.Some? ==>
                r.value in rules && CountOf(counters, KeyOf(request, r.value, now)) >= LimitOf(request.policy, r.value))
  {
    if rules != [] {
      FirstExceededIsFirst(counters, request, rules[1..], now);
      assert rules == [rules[0]] + rules[1..];
    }
  }

  // ---------- counters equal outstanding admissions ----------

  /** An allowed request that has not been rolled back. */
  datatype Grant = Grant(request: Request, at: int)

  type Ledger = map<nat, Grant>

  function Holders(ledger: Ledger, key: CounterKey): set<nat> {
    set id | id in ledger && Uses(ledger[id].request, ledger[id].at, key)
  }

  predicate WindowOpen(key: CounterKey, clock: int) {
    clock < key.windowStart + WindowLength(key.rule)
  }

  /** Every counter of a window that has not ended equals the outstanding admissions that consumed it. */
  ghost predicate Exact(counters: Counters, ledger: Ledger, clock: int) {
    && WellKept(counters, clock)
    && (forall key :: WindowOpen(key, clock) ==> CountOf(counters, key) == |Holders(ledger, key)|)
  }

  lemma HoldersAfterGrant(ledger: Ledger, id: nat, g: Grant, key: CounterKey)
    requires id !in ledger
    ensures Holders(ledger[id := g], key) == Holders(ledger, key) + (if Uses(g.request, g.at, key) then {id} else {})
    ensures |Holders(ledger[id := g], key)| == |Holders(ledger, key)| + (if Uses(g.request, g.at, key) then 1 else 0)
  {
    hide Uses;
    assert Holders(ledger[id := g], key) == Holders(ledger, key) + (if Uses(g.request, g.at, key) then {id} else {});
  }

  lemma HoldersAfterRollback(ledger: Ledger, id: nat, key: CounterKey)
    requires id in ledger
    ensures Holders(ledger - {id}, key) == Holders(ledger, key) - {id}
    ensures |Holders(ledger - {id}, key)| == |Holders(ledger, key)| - (if Uses(ledger[id].request, ledger[id].at, key)
            then 1 else 0)
  {
    hide Uses;
    assert Holders(ledger - {id}, key) == Holders(ledger, key) - {id};
  }

  /** Purging what has expired by a later time changes no count of a window still open then. */
  lemma LiveKeepsExact(counters: Counters, ledger: Ledger, clock: int, now: int)
    requires Exact(counters, ledger, clock) && clock <= now
    ensures Exact(Live(counters, now), ledger, now)
  {
    hide Holders;
    forall key | WindowOpen(key, now)
      ensures CountOf(Live(counters, now), key) == |Holders(ledger, key)|
    {
      assert WindowOpen(key, clock);
    }
  }

  lemma AllowKeepsExact(counters: Counters, ledger: Ledger, clock: int, now: int, request: Request, id: nat)
    requires Exact(counters, ledger, clock) && clock <= now && id !in ledger
    ensures var (after, decision) := AllowEffect(counters, request, now);
            Exact(after, if decision.Allowed? then ledger[id := Grant(request, now)] else ledger, now)
  {
    hide Holders, Rules, Live, FirstExceeded, KeyOf;
    LiveKeepsExact(counters, ledger, clock, now);
    var live := Live(counters, now);
    var (after, decision) := AllowEffect(counters, request, now);
    if decision.Allowed? {
      RulesAreDistinct(request);
      var g := Grant(request, now);
      ConsumeCounts(live, request, Rules(request), now, KeyOf(request, EmailDay, now));
      forall key | WindowOpen(key, now)
        ensures CountOf(after, key) == |Holders(ledger[id := g], key)|
      {
        ConsumeCounts(live, request, Rules(request), now, key);
        HoldersAfterGrant(ledger, id, g, key);
      }
    }
  }

  lemma RulesAreDistinct(request: Request)
    ensures Distinct(Rules(request)) && Rules(request) != []
  {
  }

  lemma RollbackKeepsExact(counters: Counters, ledger: Ledger, clock: int, id: nat)
    requires Exact(counters, ledger, clock) && id in ledger
    ensures var Grant(request, at) := ledger[id];
            Exact(RollbackEffect(counters, Allowed(Keys(request, Rules(request), at))), ledger - {id}, clock)
  {
    hide Holders, Rules, KeyOf;
    var Grant(request, at) := ledger[id];
    var after := RollbackEffect(counters, Allowed(Keys(request, Rules(request), at)));
    RulesAreDistinct(request);
    UncountAllCounts(counters, request, Rules(request), at, clock, KeyOf(request, EmailDay, at));
    forall key | WindowOpen(key, clock)
      ensures CountOf(after, key) == |Holders(ledger - {id}, key)|
    {
      UncountAllCounts(counters, request, Rules(request), at, clock, key);
      HoldersAfterRollback(ledger, id, key);
    }
  }

  lemma TickKeepsExact(counters: Counters, ledger: Ledger, clock: int, now: int)
    requires Exact(counters, ledger, clock) && clock <= now
    ensures Exact(counters, ledger, now)
  {
    hide Holders;
    assert forall key :: WindowOpen(key, now) ==> WindowOpen(key, clock);
  }

  // ---------- limits ----------

  /** No window of any subject holds more outstanding admissions than its limit. */
  ghost predicate WithinLimits(ledger: Ledger, policyOf: (string, string) -> Policy) {
    forall key :: Holders(ledger, key) != {} ==>
        |Holders(ledger, key)| <= LimitOf(policyOf(key.app, key.scene), key.rule)
  }

  lemma AllowKeepsLimits(counters: Counters, ledger: Ledger, clock: int, now: int, request: Request, id: nat,
                         policyOf: (string, string) -> Policy)
    requires Exact(counters, ledger, clock) && clock <= now && id !in ledger
    requires request.policy == policyOf(request.app, request.scene)
    requires WithinLimits(ledger, policyOf)
    requires AllowEffect(counters, request, now).1.Allowed?
    ensures WithinLimits(ledger[id := Grant(request, now)], policyOf)
  {
    hide Holders, Rules, Live, KeyOf;
    LiveKeepsExact(counters, ledger, clock, now);
    var live := Live(counters, now);
    FirstExceededIsFirst(live, request, Rules(request), now);
    var g := Grant(request, now);
    forall key | Holders(ledger[id := g], key) != {}
      ensures |Holders(ledger[id := g], key)| <= LimitOf(policyOf(key.app, key.scene), key.rule)
    {
      HoldersAfterGrant(ledger, id, g, key);
      if Uses(request, now, key) {
        KeyIsOpen(request, key.rule, now);
        assert WindowOpen(key, now);
      }
    }
  }

  lemma KeyIsOpen(request: Request, rule: Rule, now: int)
    ensures var key := KeyOf(request, rule, now);
            WindowOpen(key, now) && key.app == request.app && key.scene == request.scene && key.rule == rule
  {
    WindowContains(rule, now);
  }

  lemma RollbackKeepsLimits(ledger: Ledger, id: nat, policyOf: (string, string) -> Policy)
    requires WithinLimits(ledger, policyOf) && id in ledger
    ensures WithinLimits(ledger - {id}, policyOf)
  {
    hide Holders;
    forall key | Holders(ledger - {id}, key) != {}
      ensures |Holders(ledger - {id}, key)| <= LimitOf(policyOf(key.app, key.scene), key.rule)
    {
      HoldersAfterRollback(ledger, id, key);
    }
  }

  /** The outstanding admissions of one subject under one rule in an interval of the window's length. */
  function AdmittedWithin(ledger: Ledger, rule: Rule, app: string, scene: string, subject: string,
                          from: int): set<nat> {
    set id | id in ledger && from <= ledger[id].at < from + WindowLength(rule)
             && Uses(ledger[id].request, ledger[id].at,
                     CounterKey(rule, app, scene, subject, WindowStart(rule, ledger[id].at)))
  }

  /** An interval of window length, however placed, holds at most twice the limit. */
  lemma AtMostTwiceTheLimit(ledger: Ledger, policyOf: (string, string) -> Policy,
                            rule: Rule, app: string, scene: string, subject: string, from: int)
    requires WithinLimits(ledger, policyOf)
    ensures var admitted := AdmittedWithin(ledger, rule, app, scene, subject, from);
            admitted != {} ==> |admitted| <= 2 * LimitOf(policyOf(app, scene), rule)
  {
    hide Uses, WindowLength, LimitOf;
    var start := WindowStart(rule, from);
    var k1 := CounterKey(rule, app, scene, subject, start);
    var k2 := CounterKey(rule, app, scene, subject, start + WindowLength(rule));
    var admitted := AdmittedWithin(ledger, rule, app, scene, subject, from);
    forall id | id in admitted
      ensures id in Holders(ledger, k1) + Holders(ledger, k2)
    {
      TwoWindows(rule, from, ledger[id].at);
    }
    UnionSize(admitted, Holders(ledger, k1), Holders(ledger, k2));
  }

  lemma UnionSize(s: set<nat>, a: set<nat>, b: set<nat>)
    requires s <= a + b
    ensures |s| <= |a| + |b| && (s != {} ==> a != {} || b != {})
    ensures a == {} ==> |s| <= |b|
    ensures b == {} ==> |s| <= |a|
  {
    SubsetSize(s, a + b);
    SubsetSize(b - a, b);
    assert a + b == a + (b - a);
    assert a + {} == a && {} + b == b;
  }

  lemma {:induction false} SubsetSize<T>(a: set<T>, b: set<T>)
    requires a <= b
    ensures |a| <= |b|
  {
    if a != {} {
      var x :| x in a;
      SubsetSize(a - {x}, b - {x});
    }
  }

  // ---------- denial ----------

  /** Whether one rule, taken alone, admits the request at a time. */
  predicate RuleAdmits(counters: Counters, request: Request, rule: Rule, now: int) {
    CountOf(Live(counters, now), KeyOf(request, rule, now)) < LimitOf(request.policy, rule)
  }

  /** A denial changes no counter, and its wait is the least number of whole seconds after which its rule admits. */
  lemma RetryAfterIsLeast(counters: Counters, request: Request, now: int, wait: nat)
    requires WellKept(counters, now) && AllowEffect(counters, request, now).1.Denied?
    ensures var (after, decision) := AllowEffect(counters, request, now);
            && after == Live(counters, now)
            && decision.limit == LimitOf(request.policy, decision.rule) > 0
            && decision.currentCount == CountOf(after, KeyOf(request, decision.rule, now)) >= decision.limit
            && (RuleAdmits(after, request, decision.rule, now + wait * SECOND) <==> wait >= decision.retryAfterSeconds)
  {
    LiveIsWellKept(counters, now);
    hide Rules, FirstExceeded, FirstBadRule, Live, WindowStart, WindowLength, RetryAfterSeconds, RuleAdmits, LimitOf,
         CountOf, WellKept;
    var (after, decision) := AllowEffect(counters, request, now);
    var rule := decision.rule;
    WindowContains(rule, now);
    FirstExceededIsFirst(after, request, Rules(request), now);
    NoBadRule(request, Rules(request));
    RuleAdmitsAfter(after, request, rule, now, now + wait * SECOND);
    LeastWait(now, WindowStart(rule, now) + WindowLength(rule), wait);
  }

  lemma LiveIsWellKept(counters: Counters, now: int)
    requires WellKept(counters, now)
    ensures WellKept(Live(counters, now), now)
  {
  }

  lemma {:induction false} NoBadRule(request: Request, rules: seq<Rule>)
    requires FirstBadRule(request, rules).None?
    ensures forall rule :: rule in rules ==> LimitOf(request.policy, rule) > 0
  {
    if rules != [] {
      NoBadRule(request, rules[1..]);
      assert rules == [rules[0]] + rules[1..];
    }
  }

  /** An exhausted rule admits again exactly when its window has ended. */
  lemma RuleAdmitsAfter(counters: Counters, request: Request, rule: Rule, now: int, later: int)
    requires WellKept(counters, now) && now <= later && LimitOf(request.policy, rule) > 0
    requires CountOf(counters, KeyOf(request, rule, now)) >= LimitOf(request.policy, rule)
    ensures RuleAdmits(counters, request, rule, later) <==> later >= WindowStart(rule, now) + WindowLength(rule)
  {
    WindowContains(rule, now);
    SameWindow(rule, now, later);
    hide WindowStart, WindowLength;
    var key := KeyOf(request, rule, later);
    if later >= WindowStart(rule, now) + WindowLength(rule) {
      NextWindow(rule, now, later);
      assert key !in counters;
    }
  }

  lemma NextWindow(rule: Rule, now: int, later: int)
    requires later >= WindowStart(rule, now) + WindowLength(rule)
    ensures WindowStart(rule, later) > now
  {
    var end := WindowStart(rule, now) + WindowLength(rule);
    var a := StartIsMultiple(rule, now);
    var b := StartIsMultiple(rule, later);
    WindowContains(rule, now);
    WindowContains(rule, later);
    hide WindowStart, WindowLength;
    var w := WindowLength(rule);
    assert (a + 1) * w == a * w + w;
    Multiples(b, a + 1, w);
  }

  lemma LeastWait(now: int, expiresAt: int, wait: nat)
    requires now < expiresAt
    ensures now + wait * SECOND >= expiresAt <==> wait >= RetryAfterSeconds(now, expiresAt)
  {
  }

  // ---------- the object ----------

  class FixedWindowRateLimiter {
    var counters: Counters

    constructor ()
      ensures counters == map[]
    {
      counters := map[];
    }

    method DeleteExpired(now: int)
      modifies this
      ensures counters == Live(old(counters), now)
    {
      var rest := counters.Keys;
      while rest != {}
        invariant rest <= old(counters).Keys
        invariant counters == map k | k in old(counters) && (k in rest || now < old(counters)[k].expiresAt) ::
                  old(counters)[k]
        decreases rest
      {
        var key :| key in rest;
        rest := rest - {key};
        if now >= counters[key].expiresAt {
          counters := counters - {key};
        }
      }
    }

    method BuildChecks(request: Request, now: int) returns (checks: seq<Check>)
      ensures |checks| == |Rules(request)| && forall i :: 0 <= i < |checks| ==>
              checks[i] == CheckOf(request, Rules(request)[i], now)
    {
      var minuteStart, hourStart, dayStart := now - now % (60 * SECOND), now - now % (3600 * SECOND),
          now - now % (86400 * SECOND);
      checks := [
        Check(CounterKey(EmailMinute, request.app, request.scene, request.email, minuteStart),
              request.policy.sameEmailPerMinute, minuteStart + 60 * SECOND),
        Check(CounterKey(EmailDay, request.app, request.scene, request.email, dayStart),
              request.policy.sameEmailPerDay, dayStart + 86400 * SECOND),
        Check(CounterKey(CallerIpHour, request.app, request.scene, request.callerIp, hourStart),
              request.policy.sameCallerIpPerHour, hourStart + 3600 * SECOND)];
      if request.userIp != "" {
        checks := checks + [
          Check(CounterKey(UserIpHour, request.app, request.scene, request.userIp, hourStart),
                request.policy.sameUserIpPerHour, hourStart + 3600 * SECOND)];
      }
    }

    /** The checks of a request, or the first rule whose limit is not positive. */
    method ValidChecks(request: Request, now: int) returns (checks: seq<Check>, bad: Option<Rule>)
      ensures bad == FirstBadRule(request, Rules(request))
      ensures |checks| == |Rules(request)| && forall i :: 0 <= i < |checks| ==>
              checks[i] == CheckOf(request, Rules(request)[i], now)
    {
      hide Rules, WindowStart, LimitOf;
      checks := BuildChecks(request, now);
      ghost var rules := Rules(request);
      var i := 0;
      while i < |checks|
        invariant 0 <= i <= |checks| == |rules|
        invariant FirstBadRule(request, rules) == FirstBadRule(request, rules[i..])
      {
        assert rules[i..][1..] == rules[i + 1..];
        if checks[i].limit <= 0 {
          return checks, Some(checks[i].key.rule);
        }
        i := i + 1;
      }
      bad := None;
    }

    ghost predicate ChecksOf(checks: seq<Check>, request: Request, now: int) {
      |checks| == |Rules(request)| && forall i :: 0 <= i < |checks| ==>
          checks[i] == CheckOf(request, Rules(request)[i], now)
    }

    /** The first check whose counter has reached its limit. */
    method FirstFullCheck(checks: seq<Check>, request: Request, now: int) returns (index: nat)
      requires ChecksOf(checks, request, now)
      ensures index <= |checks|
      ensures FirstExceeded(counters, request, Rules(request), now) ==
              if index < |checks| then Some(Rules(request)[index]) else None
    {
      hide Rules, CountOf, KeyOf, LimitOf;
      ghost var rules := Rules(request);
      index := 0;
      while index < |checks|
        invariant 0 <= index <= |checks|
        invariant FirstExceeded(counters, request, rules, now) == FirstExceeded(counters, request, rules[index..], now)
      {
        assert rules[index..][1..] == rules[index + 1..];
        if CountOf(counters, checks[index].key) >= checks[index].limit {
          return;
        }
        index := index + 1;
      }
      assert rules[index..] == [];
    }

    method ConsumeAll(checks: seq<Check>, ghost request: Request, ghost now: int) returns (consumed: seq<CounterKey>)
      requires ChecksOf(checks, request, now)
      modifies this
      ensures counters == Consume(old(counters), request, Rules(request), now)
      ensures consumed == Keys(request, Rules(request), now)
    {
      hide Rules, CountOf, KeyOf, LimitOf, WindowStart;
      ghost var rules := Rules(request);
      consumed := [];
      var i := 0;
      assert rules[0..] == rules;
      while i < |checks|
        invariant 0 <= i <= |checks|
        invariant Consume(counters, request, rules[i..], now) == Consume(old(counters), request, rules, now)
        invariant consumed == Keys(request, rules, now)[..i]
      {
        var check := checks[i];
        assert rules[i..][1..] == rules[i + 1..];
        counters := counters[check.key := Counter(CountOf(counters, check.key) + 1, check.expiresAt)];
        consumed := consumed + [check.key];
        i := i + 1;
      }
      assert rules[i..] == [];
      assert Keys(request, rules, now)[..i] == Keys(request, rules, now);
    }

    /** Consumes quota only when every rule passes. */
    method Allow(request: Request, now: int) returns (decision: Decision)
      modifies this
      ensures (counters, decision) == AllowEffect(old(counters), request, now)
    {
      hide Live, Rules, WindowStart, FirstBadRule, Consume, FirstExceeded, CountOf;
      DeleteExpired(now);
      var checks, bad := ValidChecks(request, now);
      if bad.Some? {
        return BadPolicy(bad.value);
      }
      var index := FirstFullCheck(checks, request, now);
      if index < |checks| {
        var check := checks[index];
        return Denied(check.key.rule, check.limit, CountOf(counters, check.key),
                      RetryAfterSeconds(now, check.expiresAt));
      }
      var consumed := ConsumeAll(checks, request, now);
      decision := Allowed(consumed);
    }

    method Rollback(decision: Decision)
      modifies this
      ensures counters == RollbackEffect(old(counters), decision)
    {
      if !decision.Allowed? || |decision.consumed| == 0 {
        return;
      }
      var keys := decision.consumed;
      var i := 0;
      while i < |keys|
        invariant 0 <= i <= |keys|
        invariant UncountAll(counters, keys[i..]) == UncountAll(old(counters), keys)
      {
        var key := keys[i];
        assert keys[i..][1..] == keys[i + 1..];
        i := i + 1;
        if key !in counters {
          continue;
        }
        var counter := counters[key];
        if counter.count <= 1 {
          counters := counters - {key};
          continue;
        }
        counters := counters[key := Counter(counter.count - 1, counter.expiresAt)];
      }
    }
  }

  // ---------- whole runs ----------

  datatype Event = AllowEvent(request: Request) | RollbackEvent(id: nat) | TickEvent(now: int)

  /** The limiter with its ledger; the n-th allowed request is granted under number n. */
  datatype Record = Record(counters: Counters, ledger: Ledger, granted: nat, clock: int)

  function Step(r: Record, e: Event): Record {
    match e
    case TickEvent(now) => if now < r.clock then r else r.(clock := now)
    case AllowEvent(request) =>
      var (counters, decision) := AllowEffect(r.counters, request, r.clock);
      if decision.Allowed?
      then r.(counters := counters, ledger := r.ledger[r.granted := Grant(request, r.clock)], granted := r.granted + 1)
      else r.(counters := counters)
    case RollbackEvent(id) =>
      if id !in r.ledger then r else
        var Grant(request, at) := r.ledger[id];
        r.(counters := RollbackEffect(r.counters, Allowed(Keys(request, Rules(request), at))),
           ledger := r.ledger - {id})
  }

  function Run(clock: int, events: seq<Event>): Record {
    if events == [] then Record(map[], map[], 0, clock)
    else Step(Run(clock, events[..|events| - 1]), events[|events| - 1])
  }

  ghost predicate FixedPolicy(events: seq<Event>, policyOf: (string, string) -> Policy) {
    forall i :: 0 <= i < |events| && events[i].AllowEvent? ==>
                  events[i].request.policy == policyOf(events[i].request.app, events[i].request.scene)
  }

  /** In every run, whatever the policies, counters equal outstanding admissions. */
  lemma {:induction false} RunIsExact(clock: int, events: seq<Event>)
    ensures var r := Run(clock, events);
            && Exact(r.counters, r.ledger, r.clock)
            && (forall id :: id in r.ledger ==> id < r.granted)
  {
    hide Exact, AllowEffect, RollbackEffect;
    if events == [] {
      NothingGranted(clock, (app, scene) => Policy(1, 1, 1, 1));
    } else {
      var n := |events| - 1;
      RunIsExact(clock, events[..n]);
      var r := Run(clock, events[..n]);
      match events[n] {
        case TickEvent(now) =>
          if now >= r.clock {
            TickKeepsExact(r.counters, r.ledger, r.clock, now);
          }
        case AllowEvent(request) =>
          AllowKeepsExact(r.counters, r.ledger, r.clock, r.clock, request, r.granted);
        case RollbackEvent(id) =>
          if id in r.ledger {
            RollbackKeepsExact(r.counters, r.ledger, r.clock, id);
          }
      }
    }
  }

  /** In every run, counters equal outstanding admissions and no window exceeds its limit. */
  lemma {:induction false} RunIsExactAndLimited(clock: int, events: seq<Event>, policyOf: (string, string) -> Policy)
    requires FixedPolicy(events, policyOf)
    ensures var r := Run(clock, events);
            && Exact(r.counters, r.ledger, r.clock)
            && WithinLimits(r.ledger, policyOf)
            && (forall id :: id in r.ledger ==> id < r.granted)
  {
    hide Exact, WithinLimits, AllowEffect, RollbackEffect;
    RunIsExact(clock, events);
    if events == [] {
      NothingGranted(clock, policyOf);
    } else {
      var n := |events| - 1;
      RunIsExactAndLimited(clock, events[..n], policyOf);
      var r := Run(clock, events[..n]);
      match events[n] {
        case TickEvent(now) =>
        case AllowEvent(request) =>
          if AllowEffect(r.counters, request, r.clock).1.Allowed? {
            AllowKeepsLimits(r.counters, r.ledger, r.clock, r.clock, request, r.granted, policyOf);
          }
        case RollbackEvent(id) =>
          if id in r.ledger {
            RollbackKeepsLimits(r.ledger, id, policyOf);
          }
      }
    }
  }

  lemma NothingGranted(clock: int, policyOf: (string, string) -> Policy)
    ensures Exact(map[], map[], clock) && WithinLimits(map[], policyOf)
  {
    assert forall key :: Holders(map[], key) == {};
  }
}
