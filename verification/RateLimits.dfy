/**
 What the limiter promises in the policy's own fields: per-minute and per-day bounds on
 one e-mail address and per-hour bounds on one caller address and one user address,
 counted over the admissions outstanding in any run. Times are in nanoseconds.
 */
module RateLimits {
  import opened Wrappers
  import opened RateLimiter

  // ---------- the admissions a bound counts ----------

  function EmailGrants(ledger: Ledger, app: string, scene: string, email: string, from: int, to: int): set<nat> {
    set id | id in ledger && ledger[id].request.app == app && ledger[id].request.scene == scene
             && ledger[id].request.email == email && from <= ledger[id].at < to
  }

  function CallerGrants(ledger: Ledger, app: string, scene: string, ip: string, from: int, to: int): set<nat> {
    set id | id in ledger && ledger[id].request.app == app && ledger[id].request.scene == scene
             && ledger[id].request.callerIp == ip && from <= ledger[id].at < to
  }

  function UserGrants(ledger: Ledger, app: string, scene: string, ip: string, from: int, to: int): set<nat> {
    set id | id in ledger && ledger[id].request.app == app && ledger[id].request.scene == scene
             && ledger[id].request.userIp == ip && from <= ledger[id].at < to
  }

  /** In an aligned window, being counted by a rule's counter is being admitted inside the window. */
  lemma InWindow(rule: Rule, start: int, at: int)
    requires start % WindowLength(rule) == 0
    ensures WindowStart(rule, at) == start <==> start <= at < start + WindowLength(rule)
  {
    assert WindowStart(rule, start) == start;
    WindowContains(rule, at);
    if start <= at {
      SameWindow(rule, start, at);
    }
  }

  lemma HoldersByMinute(ledger: Ledger, app: string, scene: string, email: string, start: int)
    requires start % 60_000_000_000 == 0
    ensures Holders(ledger, CounterKey(EmailMinute, app, scene, email, start)) ==
            EmailGrants(ledger, app, scene, email, start, start + 60_000_000_000)
  {
    assert WindowLength(EmailMinute) == 60_000_000_000;
    hide WindowStart, WindowLength;
    forall id | id in ledger
      ensures WindowStart(EmailMinute, ledger[id].at) == start <==>
              start <= ledger[id].at < start + 60_000_000_000
    {
      InWindow(EmailMinute, start, ledger[id].at);
    }
  }

  lemma HoldersByDay(ledger: Ledger, app: string, scene: string, email: string, start: int)
    requires start % 86_400_000_000_000 == 0
    ensures Holders(ledger, CounterKey(EmailDay, app, scene, email, start)) ==
            EmailGrants(ledger, app, scene, email, start, start + 86_400_000_000_000)
  {
    assert WindowLength(EmailDay) == 86_400_000_000_000;
    hide WindowStart, WindowLength;
    forall id | id in ledger
      ensures WindowStart(EmailDay, ledger[id].at) == start <==>
              start <= ledger[id].at < start + 86_400_000_000_000
    {
      InWindow(EmailDay, start, ledger[id].at);
    }
  }

  lemma HoldersByCaller(ledger: Ledger, app: string, scene: string, ip: string, start: int)
    requires start % 3_600_000_000_000 == 0
    ensures Holders(ledger, CounterKey(CallerIpHour, app, scene, ip, start)) ==
            CallerGrants(ledger, app, scene, ip, start, start + 3_600_000_000_000)
  {
    assert WindowLength(CallerIpHour) == 3_600_000_000_000;
    hide WindowStart, WindowLength;
    forall id | id in ledger
      ensures WindowStart(CallerIpHour, ledger[id].at) == start <==>
              start <= ledger[id].at < start + 3_600_000_000_000
    {
      InWindow(CallerIpHour, start, ledger[id].at);
    }
  }

  lemma HoldersByUser(ledger: Ledger, app: string, scene: string, ip: string, start: int)
    requires start % 3_600_000_000_000 == 0 && ip != ""
    ensures Holders(ledger, CounterKey(UserIpHour, app, scene, ip, start)) ==
            UserGrants(ledger, app, scene, ip, start, start + 3_600_000_000_000)
  {
    assert WindowLength(UserIpHour) == 3_600_000_000_000;
    hide WindowStart, WindowLength;
    forall id | id in ledger
      ensures WindowStart(UserIpHour, ledger[id].at) == start <==>
              start <= ledger[id].at < start + 3_600_000_000_000
    {
      InWindow(UserIpHour, start, ledger[id].at);
    }
  }

  // ---------- no window exceeds its bound ----------

  /** An empty set is within any bound, even a negative one that admits nothing. */
  predicate Within(admitted: set<nat>, bound: int) {
    admitted != {} ==> |admitted| <= bound
  }

  /** In every run, no clock minute and no day holds more mails to one address than the policy says. */
  lemma EmailBounds(clock: int, events: seq<Event>, policyOf: (string, string) -> Policy,
                    app: string, scene: string, email: string, start: int)
    requires FixedPolicy(events, policyOf)
    ensures var ledger := Run(clock, events).ledger;
            && (start % 60_000_000_000 == 0 ==>
                  Within(EmailGrants(ledger, app, scene, email, start, start + 60_000_000_000),
                         policyOf(app, scene).sameEmailPerMinute))
            && (start % 86_400_000_000_000 == 0 ==>
                  Within(EmailGrants(ledger, app, scene, email, start, start + 86_400_000_000_000),
                         policyOf(app, scene).sameEmailPerDay))
  {
    hide Run, Holders, EmailGrants;
    RunIsExactAndLimited(clock, events, policyOf);
    var ledger := Run(clock, events).ledger;
    if start % 60_000_000_000 == 0 {
      HoldersByMinute(ledger, app, scene, email, start);
      assert LimitOf(policyOf(app, scene), EmailMinute) == policyOf(app, scene).sameEmailPerMinute;
    }
    if start % 86_400_000_000_000 == 0 {
      HoldersByDay(ledger, app, scene, email, start);
    }
  }

  /** In every run, no hour holds more mails from one caller or one user address than the policy says. */
  lemma AddressBounds(clock: int, events: seq<Event>, policyOf: (string, string) -> Policy,
                      app: string, scene: string, ip: string, start: int)
    requires FixedPolicy(events, policyOf) && start % 3_600_000_000_000 == 0
    ensures var ledger := Run(clock, events).ledger;
            && Within(CallerGrants(ledger, app, scene, ip, start, start + 3_600_000_000_000),
                      policyOf(app, scene).sameCallerIpPerHour)
            && (ip != "" ==>
                  Within(UserGrants(ledger, app, scene, ip, start, start + 3_600_000_000_000),
                         policyOf(app, scene).sameUserIpPerHour))
  {
    hide Run, Holders, CallerGrants, UserGrants;
    RunIsExactAndLimited(clock, events, policyOf);
    var ledger := Run(clock, events).ledger;
    HoldersByCaller(ledger, app, scene, ip, start);
    if ip != "" {
      HoldersByUser(ledger, app, scene, ip, start);
    }
  }

  // ---------- the decision ----------

  /** A denial that names its rule, the bound and the count, and the whole seconds left until its window ends. */
  predicate DeniedBy(d: Decision, rule: Rule, bound: int, count: int, left: int) {
    && d.Denied? && d.rule == rule && d.limit == bound && d.currentCount == count
    && (d.retryAfterSeconds - 1) * 1_000_000_000 < left <= d.retryAfterSeconds * 1_000_000_000
  }

  /** The admissions that count against a request now, under its four rules. */
  datatype Usage = Usage(minute: int, day: int, caller: int, user: int)

  function UsageOf(ledger: Ledger, request: Request, now: int): Usage {
    var minute, hour, day := now - now % 60_000_000_000, now - now % 3_600_000_000_000, now - now % 86_400_000_000_000;
    var (app, scene) := (request.app, request.scene);
    Usage(|EmailGrants(ledger, app, scene, request.email, minute, minute + 60_000_000_000)|,
          |EmailGrants(ledger, app, scene, request.email, day, day + 86_400_000_000_000)|,
          |CallerGrants(ledger, app, scene, request.callerIp, hour, hour + 3_600_000_000_000)|,
          |UserGrants(ledger, app, scene, request.userIp, hour, hour + 3_600_000_000_000)|)
  }

  lemma MinuteCount(counters: Counters, ledger: Ledger, request: Request, now: int)
    requires Exact(counters, ledger, now)
    ensures CountOf(counters, KeyOf(request, EmailMinute, now)) == UsageOf(ledger, request, now).minute
  {
    KeyIsOpen(request, EmailMinute, now);
    var start := now - now % 60_000_000_000;
    assert WindowStart(EmailMinute, now) == start;
    hide Holders, EmailGrants, CallerGrants, UserGrants, WindowStart;
    HoldersByMinute(ledger, request.app, request.scene, request.email, start);
  }

  lemma DayCount(counters: Counters, ledger: Ledger, request: Request, now: int)
    requires Exact(counters, ledger, now)
    ensures CountOf(counters, KeyOf(request, EmailDay, now)) == UsageOf(ledger, request, now).day
  {
    KeyIsOpen(request, EmailDay, now);
    var start := now - now % 86_400_000_000_000;
    assert WindowStart(EmailDay, now) == start;
    hide Holders, EmailGrants, CallerGrants, UserGrants, WindowStart;
    HoldersByDay(ledger, request.app, request.scene, request.email, start);
  }

  lemma CallerCount(counters: Counters, ledger: Ledger, request: Request, now: int)
    requires Exact(counters, ledger, now)
    ensures CountOf(counters, KeyOf(request, CallerIpHour, now)) == UsageOf(ledger, request, now).caller
  {
    KeyIsOpen(request, CallerIpHour, now);
    var start := now - now % 3_600_000_000_000;
    assert WindowStart(CallerIpHour, now) == start;
    hide Holders, EmailGrants, CallerGrants, UserGrants, WindowStart;
    HoldersByCaller(ledger, request.app, request.scene, request.callerIp, start);
  }

  lemma UserCount(counters: Counters, ledger: Ledger, request: Request, now: int)
    requires Exact(counters, ledger, now) && request.userIp != ""
    ensures CountOf(counters, KeyOf(request, UserIpHour, now)) == UsageOf(ledger, request, now).user
  {
    KeyIsOpen(request, UserIpHour, now);
    var start := now - now % 3_600_000_000_000;
    assert WindowStart(UserIpHour, now) == start;
    hide Holders, EmailGrants, CallerGrants, UserGrants, WindowStart;
    HoldersByUser(ledger, request.app, request.scene, request.userIp, start);
  }

  /** A policy with a bound that is not positive answers no request; the first such bound is named. */
  lemma BadPolicyIsNamed(counters: Counters, request: Request, now: int)
    ensures var d := AllowEffect(counters, request, now).1;
            var policy := request.policy;
            if policy.sameEmailPerMinute <= 0 then d == BadPolicy(EmailMinute)
            else if policy.sameEmailPerDay <= 0 then d == BadPolicy(EmailDay)
            else if policy.sameCallerIpPerHour <= 0 then d == BadPolicy(CallerIpHour)
            else if request.userIp != "" && policy.sameUserIpPerHour <= 0 then d == BadPolicy(UserIpHour)
            else !d.BadPolicy?
  {
    hide Live, FirstExceeded, Consume, Keys, CheckOf, RetryAfterSeconds;
    var last := if request.userIp != "" then [UserIpHour] else [];
    var ips, others := [CallerIpHour] + last, [EmailDay, CallerIpHour] + last;
    assert Rules(request) == [EmailMinute] + others && Rules(request)[1..] == others;
    assert others[1..] == ips && ips[1..] == last && (last != [] ==> last[1..] == []);
    assert FirstBadRule(request, last) == if last != [] && request.policy.sameUserIpPerHour <= 0 then Some(UserIpHour)
                                          else None;
    assert FirstBadRule(request, ips) == if request.policy.sameCallerIpPerHour <= 0 then Some(CallerIpHour)
                                         else FirstBadRule(request, last);
    assert FirstBadRule(request, others) == if request.policy.sameEmailPerDay <= 0 then Some(EmailDay)
                                            else FirstBadRule(request, ips);
  }

  /** The first rule of a request whose counter has reached its bound. */
  lemma FirstFullRule(counters: Counters, request: Request, now: int)
    ensures var c := (rule: Rule) => CountOf(counters, KeyOf(request, rule, now));
            FirstExceeded(counters, request, Rules(request), now) ==
            if c(EmailMinute) >= request.policy.sameEmailPerMinute then Some(EmailMinute)
            else if c(EmailDay) >= request.policy.sameEmailPerDay then Some(EmailDay)
            else if c(CallerIpHour) >= request.policy.sameCallerIpPerHour then Some(CallerIpHour)
            else if request.userIp != "" && c(UserIpHour) >= request.policy.sameUserIpPerHour then Some(UserIpHour)
            else None
  {
    hide CountOf, KeyOf;
    var last := if request.userIp != "" then [UserIpHour] else [];
    var ips, others := [CallerIpHour] + last, [EmailDay, CallerIpHour] + last;
    assert Rules(request) == [EmailMinute] + others && Rules(request)[1..] == others;
    assert others[1..] == ips && ips[1..] == last && (last != [] ==> last[1..] == []);
    var c := (rule: Rule) => CountOf(counters, KeyOf(request, rule, now));
    var policy := request.policy;
    assert FirstExceeded(counters, request, last, now) ==
           if last != [] && c(UserIpHour) >= policy.sameUserIpPerHour then Some(UserIpHour) else None;
    assert FirstExceeded(counters, request, ips, now) ==
           if c(CallerIpHour) >= policy.sameCallerIpPerHour then Some(CallerIpHour)
           else FirstExceeded(counters, request, last, now);
    assert FirstExceeded(counters, request, others, now) ==
           if c(EmailDay) >= policy.sameEmailPerDay then Some(EmailDay)
           else FirstExceeded(counters, request, ips, now);
  }

  /**
   In every run a request with positive bounds is admitted exactly when its four counts are below them; a
   refusal names the first bound that is reached and the whole seconds until its window ends.
   */
  lemma AllowDecides(clock: int, events: seq<Event>, request: Request)
    requires request.policy.sameEmailPerMinute > 0 && request.policy.sameEmailPerDay > 0
             && request.policy.sameCallerIpPerHour > 0
             && (request.userIp != "" ==> request.policy.sameUserIpPerHour > 0)
    ensures var r := Run(clock, events);
            var u := UsageOf(r.ledger, request, r.clock);
            var d := AllowEffect(r.counters, request, r.clock).1;
            var policy, now := request.policy, r.clock;
            if u.minute >= policy.sameEmailPerMinute then
              DeniedBy(d, EmailMinute, policy.sameEmailPerMinute, u.minute, 60_000_000_000 - now % 60_000_000_000)
            else if u.day >= policy.sameEmailPerDay then
              DeniedBy(d, EmailDay, policy.sameEmailPerDay, u.day, 86_400_000_000_000 - now % 86_400_000_000_000)
            else if u.caller >= policy.sameCallerIpPerHour then
              DeniedBy(d, CallerIpHour, policy.sameCallerIpPerHour, u.caller,
                       3_600_000_000_000 - now % 3_600_000_000_000)
            else if request.userIp != "" && u.user >= policy.sameUserIpPerHour then
              DeniedBy(d, UserIpHour, policy.sameUserIpPerHour, u.user, 3_600_000_000_000 - now % 3_600_000_000_000)
            else d.Allowed?
  {
    hide Run, UsageOf, Holders, Exact;
    RunIsExact(clock, events);
    var r := Run(clock, events);
    var live := Live(r.counters, r.clock);
    LiveKeepsExact(r.counters, r.ledger, r.clock, r.clock);
    hide Live, Rules, FirstExceeded, FirstBadRule, Consume, Keys, CountOf;
    MinuteCount(live, r.ledger, request, r.clock);
    DayCount(live, r.ledger, request, r.clock);
    CallerCount(live, r.ledger, request, r.clock);
    if request.userIp != "" {
      UserCount(live, r.ledger, request, r.clock);
    }
    BadPolicyIsNamed(r.counters, request, r.clock);
    FirstFullRule(live, request, r.clock);
    hide SubjectOf;
  }
}
