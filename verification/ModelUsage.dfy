/** The usage page: routing requests to accounts, quotas with resetting windows, and a bounded request history.
 */
module ModelUsage {
  import opened Wrappers

  type Id = string
  type Time = int

  datatype Provider = Codex | Claude
  datatype Routing = RoundRobin | FillFirst

  // A quota: what is left in the current window, in percent, and when the window ends.
  datatype Quota = Quota(remaining: int, resetAt: Time)

  datatype Account = Account(id: Id, provider: Provider, enabled: bool, session: Quota, weekly: Quota,
                             lastUsedAt: Option<Time>, requests: nat, tokens: nat)

  datatype Event = Event(sequence: nat, provider: Provider, account: Option<Id>, createdAt: Time, tokens: nat,
                         latency: nat)

  datatype Usage = Usage(accounts: seq<Account>, events: seq<Event>, sequence: nat, updatedAt: Time, routing: Routing,
                         lastRouted: map<Provider, Id>)

  datatype Action =
    | Refresh(now: Time)
    | Request(provider: Provider, now: Time)
    | Toggle(id: Id)
    | Route(routing: Routing)
    | Reset(now: Time)

  const HOUR := 60 * 60 * 1000
  const SESSION_WINDOW := 5 * HOUR
  const WEEKLY_WINDOW := 7 * 24 * HOUR
  const HISTORY_LIMIT := 24

  // ---------------------------------------------------------------------------------------------------------------
  // The demo data
  // ---------------------------------------------------------------------------------------------------------------

  datatype Example = Example(id: Id, provider: Provider, session: int, weekly: int)

  const EXAMPLES := [
    Example("codex-studio", Codex, 72, 84), Example("codex-personal", Codex, 44, 18), Example("codex-backup", Codex, 0, 67),
    Example("claude-studio", Claude, 61, 79), Example("claude-personal", Claude, 28, 9),
    Example("claude-backup", Claude, 92, 35)]

  function LastUsed(i: nat, now: Time): Time
    requires i < |EXAMPLES|
  {
    now - (i % 3 + 1) * 60_000 - (if EXAMPLES[i].provider.Codex? then 15_000 else 0)
  }

  function ExampleAccount(i: nat, now: Time): Account
    requires i < |EXAMPLES|
  {
    var e := EXAMPLES[i];
    Account(e.id, e.provider, true, Quota(e.session, now + (15 + i * 4) * HOUR / 10),
            Quota(e.weekly, now + (24 + i * 9) * HOUR), Some(LastUsed(i, now)), 1, 1800 + i * 460)
  }

  function ExampleEvent(i: nat, now: Time): Event
    requires i < |EXAMPLES|
  {
    Event(i + 1, EXAMPLES[i].provider, Some(EXAMPLES[i].id), LastUsed(i, now), 1800 + i * 460, 640 + i * 115)
  }

  // The events are in the order of their times, newest first.
  function CreateUsage(now: Time): Usage {
    Usage(seq(6, i requires 0 <= i < 6 => ExampleAccount(i, now)),
          [ExampleEvent(3, now), ExampleEvent(0, now), ExampleEvent(4, now), ExampleEvent(1, now), ExampleEvent(5, now),
           ExampleEvent(2, now)],
          6, now, RoundRobin, map[Codex := "codex-studio", Claude := "claude-studio"])
  }

  /** The demo data satisfy the invariant, and their events are in order. */
  lemma CreatedIsSound(now: Time)
    ensures Inv(CreateUsage(now))
    ensures var events := CreateUsage(now).events;
      forall i, j :: 0 <= i < j < |events| ==> events[i].createdAt > events[j].createdAt
  {
    var u := CreateUsage(now);
    assert EXAMPLES[0].id[6] != EXAMPLES[1].id[6] && EXAMPLES[0].id[6] != EXAMPLES[2].id[6]
      && EXAMPLES[1].id[6] != EXAMPLES[2].id[6];
    assert EXAMPLES[3].id[7] != EXAMPLES[4].id[7] && EXAMPLES[3].id[7] != EXAMPLES[5].id[7]
      && EXAMPLES[4].id[7] != EXAMPLES[5].id[7];
    forall i | 0 <= i < 6
      ensures EXAMPLES[i].id[1] == if i < 3 then 'o' else 'l'
    {
    }
    forall i, j | 0 <= i < j < 6
      ensures u.accounts[i].id != u.accounts[j].id
    {
    }
  }

  // ---------------------------------------------------------------------------------------------------------------
  // Quotas
  // ---------------------------------------------------------------------------------------------------------------

  function AdvanceReset(resetAt: Time, now: Time, window: int): Time
    requires window > 0
  {
    resetAt + ((now - resetAt) / window + 1) * window
  }

  function RefreshQuota(q: Quota, now: Time, window: int): Quota
    requires window > 0
  {
    if now >= q.resetAt then Quota(100, AdvanceReset(q.resetAt, now, window)) else q
  }

  function RefreshAccount(a: Account, now: Time): Account {
    a.(session := RefreshQuota(a.session, now, SESSION_WINDOW), weekly := RefreshQuota(a.weekly, now, WEEKLY_WINDOW))
  }

  function Refreshed(u: Usage, now: Time): Usage {
    u.(updatedAt := now, accounts := seq(|u.accounts|, i requires 0 <= i < |u.accounts| => RefreshAccount(u.accounts[i], now)))
  }

  function WindowEnd(resetAt: Time, window: int, k: int): Time {
    resetAt + k * window
  }

  /** An elapsed window ends next at the only time that is a whole number of windows away, after now and at most one
      window later. */
  lemma AdvanceResetIsNext(resetAt: Time, now: Time, window: int)
    requires window > 0
    ensures now < AdvanceReset(resetAt, now, window) <= now + window
    ensures exists k :: AdvanceReset(resetAt, now, window) == WindowEnd(resetAt, window, k)
    ensures forall k :: now < WindowEnd(resetAt, window, k) <= now + window ==>
      WindowEnd(resetAt, window, k) == AdvanceReset(resetAt, now, window)
  {
    var q := (now - resetAt) / window;
    assert now - resetAt == q * window + (now - resetAt) % window;
    assert AdvanceReset(resetAt, now, window) == WindowEnd(resetAt, window, q + 1);
    Next(q, window);
    Next(q + 1, window);
    forall k | now < WindowEnd(resetAt, window, k) <= now + window
      ensures k == q + 1
    {
      Keeps(k, q, window);
      Keeps(q + 2, k, window);
    }
  }

  lemma Next(q: int, window: int)
    ensures (q + 1) * window == q * window + window
  {
  }

  lemma Keeps(a: int, b: int, window: int)
    requires window > 0
    ensures a <= b ==> a * window <= b * window
  {
    if a <= b {
      assert (b - a) * window >= 0;
    }
  }

  // ---------------------------------------------------------------------------------------------------------------
  // Routing
  // ---------------------------------------------------------------------------------------------------------------

  predicate Eligible(a: Account) {
    a.enabled && a.session.remaining > 0 && a.weekly.remaining > 0
  }

  // The accounts of a provider, in order, as positions.
  function PoolFrom(accounts: seq<Account>, p: Provider, from: nat): seq<nat>
    requires from <= |accounts|
    ensures var pool := PoolFrom(accounts, p, from);
      forall k :: 0 <= k < |pool| ==> from <= pool[k] < |accounts| && accounts[pool[k]].provider == p
    decreases |accounts| - from
  {
    if from == |accounts| then []
    else (if accounts[from].provider == p then [from] else []) + PoolFrom(accounts, p, from + 1)
  }

  function Pool(u: Usage, p: Provider): seq<nat> {
    PoolFrom(u.accounts, p, 0)
  }

  function Member(u: Usage, p: Provider, k: nat): Account
    requires k < |Pool(u, p)|
  {
    u.accounts[Pool(u, p)[k]]
  }

  // The place of the account that was routed to last, or -1.
  function FindFrom(u: Usage, p: Provider, k: nat): int
    requires k <= |Pool(u, p)|
    ensures -1 <= FindFrom(u, p, k) < |Pool(u, p)|
    decreases |Pool(u, p)| - k
  {
    if k == |Pool(u, p)| then -1
    else if p in u.lastRouted && Member(u, p, k).id == u.lastRouted[p] then k
    else FindFrom(u, p, k + 1)
  }

  function Previous(u: Usage, p: Provider): int {
    FindFrom(u, p, 0)
  }

  function FirstEligible(u: Usage, p: Provider, k: nat): Option<nat>
    requires k <= |Pool(u, p)|
    ensures FirstEligible(u, p, k).Some? ==> FirstEligible(u, p, k).value < |Pool(u, p)|
    decreases |Pool(u, p)| - k
  {
    if k == |Pool(u, p)| then None
    else if Eligible(Member(u, p, k)) then Some(k)
    else FirstEligible(u, p, k + 1)
  }

  function Around(u: Usage, p: Provider, offset: nat): nat
    requires offset > 0 && Pool(u, p) != []
    ensures Around(u, p, offset) < |Pool(u, p)|
  {
    (Previous(u, p) + offset) % |Pool(u, p)|
  }

  function NextEligible(u: Usage, p: Provider, offset: nat): Option<nat>
    requires offset > 0
    ensures NextEligible(u, p, offset).Some? ==> NextEligible(u, p, offset).value < |Pool(u, p)|
    decreases |Pool(u, p)| + 1 - offset
  {
    if offset > |Pool(u, p)| then None
    else if Eligible(Member(u, p, Around(u, p, offset))) then Some(Around(u, p, offset))
    else NextEligible(u, p, offset + 1)
  }

  function RouteAccount(u: Usage, p: Provider): Option<nat>
    ensures RouteAccount(u, p).Some? ==> RouteAccount(u, p).value < |Pool(u, p)|
  {
    if u.routing.FillFirst? then FirstEligible(u, p, 0) else NextEligible(u, p, 1)
  }

  // ---------------------------------------------------------------------------------------------------------------
  // Actions
  // ---------------------------------------------------------------------------------------------------------------

  function Used(a: Account, sequence: nat, tokens: nat, now: Time): Account {
    var session, weekly := a.session.remaining - (4 + sequence % 3), a.weekly.remaining - (1 + sequence % 2);
    a.(session := a.session.(remaining := if session > 0 then session else 0),
       weekly := a.weekly.(remaining := if weekly > 0 then weekly else 0),
       requests := a.requests + 1, tokens := a.tokens + tokens, lastUsedAt := Some(now))
  }

  function Newest(events: seq<Event>): seq<Event> {
    if |events| <= HISTORY_LIMIT then events else events[..HISTORY_LIMIT]
  }

  function EventOf(u: Usage, p: Provider, now: Time): Event {
    var sequence, chosen := u.sequence + 1, RouteAccount(u, p);
    Event(sequence, p, if chosen.Some? then Some(Member(u, p, chosen.value).id) else None, now,
          if chosen.Some? then 1200 + sequence * 977 % 3600 else 0, if chosen.Some? then 420 + sequence * 137 % 1100 else 0)
  }

  function Requested(u: Usage, p: Provider, now: Time): Usage {
    var event := EventOf(u, p, now);
    var v := u.(sequence := u.sequence + 1, events := Newest([event] + u.events));
    match RouteAccount(u, p)
    case None => v
    case Some(k) =>
      var i := Pool(u, p)[k];
      v.(accounts := u.accounts[i := Used(u.accounts[i], v.sequence, event.tokens, now)],
         lastRouted := u.lastRouted[p := u.accounts[i].id])
  }

  function Toggled(a: Account, id: Id): Account {
    if a.id == id then a.(enabled := !a.enabled) else a
  }

  function Step(u: Usage, a: Action): Usage {
    match a
    case Refresh(now) => Refreshed(u, now)
    case Request(p, now) => Requested(Refreshed(u, now), p, now)
    case Toggle(id) => u.(accounts := seq(|u.accounts|, i requires 0 <= i < |u.accounts| => Toggled(u.accounts[i], id)))
    case Route(routing) => u.(routing := routing)
    case Reset(now) => CreateUsage(now)
  }

  function Run(u: Usage, actions: seq<Action>): Usage
    decreases |actions|
  {
    if actions == [] then u else Run(Step(u, actions[0]), actions[1..])
  }

  // ---------------------------------------------------------------------------------------------------------------
  // Invariants
  // ---------------------------------------------------------------------------------------------------------------

  predicate Percent(n: int) {
    0 <= n <= 100
  }

  ghost predicate Inv(u: Usage) {
    && (forall i, j :: 0 <= i < j < |u.accounts| ==> u.accounts[i].id != u.accounts[j].id)
    && (forall a :: a in u.accounts ==> Percent(a.session.remaining) && Percent(a.weekly.remaining))
    && |u.events| <= HISTORY_LIMIT
  }

  // Accounts are neither added, removed nor moved.
  ghost predicate SameAccounts(u: Usage, v: Usage) {
    && |u.accounts| == |v.accounts|
    && forall i :: 0 <= i < |u.accounts| ==>
         u.accounts[i].id == v.accounts[i].id && u.accounts[i].provider == v.accounts[i].provider
  }

  /** Every action keeps quotas between 0 and 100 percent, and the accounts in place. */
  lemma StepKeepsInv(u: Usage, a: Action)
    requires Inv(u)
    ensures Inv(Step(u, a)) && (!a.Reset? ==> SameAccounts(u, Step(u, a)))
  {
    match a
    case Reset(now) => CreatedIsSound(now);
    case Request(p, now) =>
      RefreshKeepsInv(u, now);
      RequestKeepsInv(Refreshed(u, now), p, now);
    case Refresh(now) => RefreshKeepsInv(u, now);
    case _ =>
      forall i | 0 <= i < |u.accounts|
        ensures Percent(Step(u, a).accounts[i].session.remaining) && Percent(Step(u, a).accounts[i].weekly.remaining)
      {
        assert u.accounts[i] in u.accounts;
      }
  }

  lemma RefreshKeepsInv(u: Usage, now: Time)
    requires Inv(u)
    ensures Inv(Refreshed(u, now)) && SameAccounts(u, Refreshed(u, now))
  {
    forall i | 0 <= i < |u.accounts|
      ensures Percent(Refreshed(u, now).accounts[i].session.remaining)
      ensures Percent(Refreshed(u, now).accounts[i].weekly.remaining)
    {
      assert u.accounts[i] in u.accounts;
    }
  }

  lemma RequestKeepsInv(u: Usage, p: Provider, now: Time)
    requires Inv(u)
    ensures Inv(Requested(u, p, now)) && SameAccounts(u, Requested(u, p, now))
  {
    var v := Requested(u, p, now);
    forall i | 0 <= i < |v.accounts|
      ensures Percent(v.accounts[i].session.remaining) && Percent(v.accounts[i].weekly.remaining)
    {
      assert u.accounts[i] in u.accounts;
    }
  }

  /** So does every run. */
  lemma {:induction false} RunKeepsInv(u: Usage, actions: seq<Action>)
    requires Inv(u)
    ensures Inv(Run(u, actions))
    decreases |actions|
  {
    if actions != [] {
      StepKeepsInv(u, actions[0]);
      RunKeepsInv(Step(u, actions[0]), actions[1..]);
    }
  }

  lemma ReachableIsSound(now: Time, actions: seq<Action>)
    ensures Inv(Run(CreateUsage(now), actions))
  {
    CreatedIsSound(now);
    RunKeepsInv(CreateUsage(now), actions);
  }

  // ---------------------------------------------------------------------------------------------------------------
  // What each action does
  // ---------------------------------------------------------------------------------------------------------------

  // A window of this length that has ended is full again and ends next after now, a whole number of windows later;
  // another one stays.
  ghost predicate Renewed(before: Quota, after: Quota, now: Time, window: int)
    requires window > 0
  {
    if now < before.resetAt then after == before
    else
      && after.remaining == 100 && now < after.resetAt <= now + window
      && exists k :: after.resetAt == WindowEnd(before.resetAt, window, k)
  }

  /** Refreshing renews the windows of five hours and of seven days that have ended, and nothing else. */
  lemma RefreshRenews(u: Usage, now: Time, i: nat)
    requires i < |u.accounts|
    ensures var v := Step(u, Refresh(now));
      && v == u.(updatedAt := now, accounts := v.accounts) && |v.accounts| == |u.accounts|
      && v.accounts[i] == u.accounts[i].(session := v.accounts[i].session, weekly := v.accounts[i].weekly)
      && Renewed(u.accounts[i].session, v.accounts[i].session, now, 18_000_000)
      && Renewed(u.accounts[i].weekly, v.accounts[i].weekly, now, 604_800_000)
  {
    AdvanceResetIsNext(u.accounts[i].session.resetAt, now, 18_000_000);
    AdvanceResetIsNext(u.accounts[i].weekly.resetAt, now, 604_800_000);
  }

  /** The pool of a provider holds exactly its accounts, in their order. */
  lemma {:induction false} PoolIs(accounts: seq<Account>, p: Provider, from: nat, i: nat)
    requires from <= |accounts|
    ensures i in PoolFrom(accounts, p, from) <==> from <= i < |accounts| && accounts[i].provider == p
    ensures Ascends(PoolFrom(accounts, p, from))
    decreases |accounts| - from
  {
    PoolAscends(accounts, p, from);
    if from < |accounts| {
      PoolIs(accounts, p, from + 1, i);
      var rest := PoolFrom(accounts, p, from + 1);
      if accounts[from].provider == p {
        assert i in [from] + rest <==> i == from || i in rest;
      } else {
        assert [] + rest == rest;
      }
    }
  }

  lemma PlaceInPool(u: Usage, p: Provider, i: nat) returns (k: nat)
    requires i < |u.accounts| && u.accounts[i].provider == p
    ensures k < |Pool(u, p)| && Pool(u, p)[k] == i
  {
    PoolIs(u.accounts, p, 0, i);
    k :| 0 <= k < |Pool(u, p)| && Pool(u, p)[k] == i;
  }

  // The account may serve a request to the provider.
  predicate MayServe(a: Account, p: Provider) {
    a.provider == p && a.enabled && a.session.remaining > 0 && a.weekly.remaining > 0
  }

  lemma {:induction false} FirstEligibleIs(u: Usage, p: Provider, k: nat)
    requires k <= |Pool(u, p)|
    ensures var first := FirstEligible(u, p, k);
      && (first.Some? ==> k <= first.value && Eligible(Member(u, p, first.value)))
      && forall j :: k <= j < (if first.Some? then first.value else |Pool(u, p)|) ==> !Eligible(Member(u, p, j))
    decreases |Pool(u, p)| - k
  {
    if k < |Pool(u, p)| && !Eligible(Member(u, p, k)) {
      FirstEligibleIs(u, p, k + 1);
    }
  }

  lemma {:induction false} NextEligibleIs(u: Usage, p: Provider, offset: nat)
    requires offset > 0
    ensures NextEligible(u, p, offset).Some? ==>
      && Eligible(Member(u, p, NextEligible(u, p, offset).value))
      && forall o :: offset <= o <= |Pool(u, p)| && o < Distance(u, p, NextEligible(u, p, offset).value) ==>
           !Eligible(Member(u, p, Around(u, p, o)))
    ensures NextEligible(u, p, offset).None? ==>
      forall o :: offset <= o <= |Pool(u, p)| ==> !Eligible(Member(u, p, Around(u, p, o)))
    decreases |Pool(u, p)| + 1 - offset
  {
    if offset <= |Pool(u, p)| {
      var k := Around(u, p, offset);
      if Eligible(Member(u, p, k)) {
        AroundAt(u, p, k, offset);
      } else {
        NextEligibleIs(u, p, offset + 1);
      }
    }
  }

  lemma AroundDistance(u: Usage, p: Provider, k: nat)
    requires k < |Pool(u, p)|
    ensures Around(u, p, Distance(u, p, k)) == k
  {
    AroundAt(u, p, k, Distance(u, p, k));
  }

  lemma EligibleIsRouted(u: Usage, p: Provider, k: nat)
    requires k < |Pool(u, p)| && Eligible(Member(u, p, k))
    ensures RouteAccount(u, p).Some?
  {
    if u.routing.FillFirst? {
      FirstEligibleIs(u, p, 0);
    } else {
      NextEligibleIs(u, p, 1);
      AroundDistance(u, p, k);
    }
  }

  lemma RoutedIsEligible(u: Usage, p: Provider)
    requires RouteAccount(u, p).Some?
    ensures Eligible(Member(u, p, RouteAccount(u, p).value))
  {
    if u.routing.FillFirst? {
      FirstEligibleIs(u, p, 0);
    } else {
      NextEligibleIs(u, p, 1);
    }
  }

  /** A request is served exactly if some enabled account of the provider has both quotas left, and by such a one. */
  lemma ServedIffEligible(u: Usage, p: Provider)
    ensures RouteAccount(u, p).Some? <==> exists a :: a in u.accounts && MayServe(a, p)
    ensures RouteAccount(u, p).Some? ==> MayServe(Member(u, p, RouteAccount(u, p).value), p)
  {
    if RouteAccount(u, p).Some? {
      RoutedIsEligible(u, p);
      assert Member(u, p, RouteAccount(u, p).value) in u.accounts;
    }
    if i: nat :| i < |u.accounts| && MayServe(u.accounts[i], p) {
      var k := PlaceInPool(u, p, i);
      EligibleIsRouted(u, p, k);
    }
  }

  /** Filling first takes the first account that may serve. */
  lemma FillFirstTakesFirst(u: Usage, p: Provider, i: nat)
    requires u.routing.FillFirst? && i < |u.accounts| && MayServe(u.accounts[i], p)
    ensures RouteAccount(u, p).Some? && Pool(u, p)[RouteAccount(u, p).value] <= i
  {
    FirstEligibleIs(u, p, 0);
    PoolAscends(u.accounts, p, 0);
    var k := PlaceInPool(u, p, i);
    assert Eligible(Member(u, p, k));
    var first := RouteAccount(u, p).value;
    assert first < k ==> Pool(u, p)[first] < Pool(u, p)[k];
  }

  // The place in the pool of the account that was routed to last, or -1 if there is none.
  ghost predicate LastRouted(u: Usage, p: Provider, last: int) {
    && -1 <= last < |Pool(u, p)|
    && (last >= 0 ==> p in u.lastRouted && Member(u, p, last).id == u.lastRouted[p])
    && forall k :: 0 <= k < (if last >= 0 then last else |Pool(u, p)|) ==>
         !(p in u.lastRouted && Member(u, p, k).id == u.lastRouted[p])
  }

  lemma {:induction false} PreviousIs(u: Usage, p: Provider, last: int, k: nat)
    requires LastRouted(u, p, last) && k <= |Pool(u, p)| && (last >= 0 ==> k <= last)
    ensures FindFrom(u, p, k) == last
    decreases |Pool(u, p)| - k
  {
    if k < |Pool(u, p)| && k != last {
      PreviousIs(u, p, last, k + 1);
    }
  }

  /** The rotation takes the account that may serve and comes first after the one used last, going around. */
  lemma RotationTakesNext(u: Usage, p: Provider, last: int, j: nat)
    requires u.routing.RoundRobin? && LastRouted(u, p, last)
    requires j < |Pool(u, p)| && MayServe(Member(u, p, j), p)
    ensures RouteAccount(u, p).Some?
    ensures var k := RouteAccount(u, p).value;
      (if k > last then k - last else k - last + |Pool(u, p)|) <= (if j > last then j - last else j - last + |Pool(u, p)|)
  {
    PreviousIs(u, p, last, 0);
    NextEligibleIs(u, p, 1);
    AroundDistance(u, p, j);
  }

  lemma NewestIs(e: Event, events: seq<Event>)
    ensures var newest := Newest([e] + events);
      && newest != [] && newest[0] == e && newest[1..] == events[..|newest| - 1]
      && |newest| == if |events| < 24 then |events| + 1 else 24
  {
    var newest := Newest([e] + events);
    assert newest == [e] + events[..|newest| - 1];
  }

  /** A request enters the newest event, numbered one higher, and at most 24 are kept. */
  lemma RequestEntersEvent(u: Usage, p: Provider, now: Time)
    ensures var v := Step(u, Request(p, now));
      && v.sequence == u.sequence + 1 && v.updatedAt == now && v.routing == u.routing
      && v.events != [] && |v.events| == (if |u.events| < 24 then |u.events| + 1 else 24)
      && v.events[1..] == u.events[..|v.events| - 1]
    ensures var r := Step(u, Refresh(now));
      Step(u, Request(p, now)).events[0] == match RouteAccount(r, p)
        case None => Event(u.sequence + 1, p, None, now, 0, 0)
        case Some(k) =>
          Event(u.sequence + 1, p, Some(r.accounts[Pool(r, p)[k]].id), now,
                1200 + ((u.sequence + 1) * 977) % 3600, 420 + ((u.sequence + 1) * 137) % 1100)
  {
    NewestIs(EventOf(Refreshed(u, now), p, now), u.events);
  }

  /** One that no account may serve costs nothing; another one counts for the account, takes 4 to 6 percent of its session
      and 1 or 2 of its week, and makes it the last one used. */
  lemma RequestConsumes(u: Usage, p: Provider, now: Time)
    ensures var r, v := Step(u, Refresh(now)), Step(u, Request(p, now));
      match RouteAccount(r, p)
      case None => v.accounts == r.accounts && v.lastRouted == u.lastRouted
      case Some(k) =>
        var i := Pool(r, p)[k];
        && |v.accounts| == |r.accounts|
        && v.accounts == r.accounts[i := v.accounts[i]] && v.lastRouted == u.lastRouted[p := r.accounts[i].id]
        && Serves(r.accounts[i], v.accounts[i], v.sequence, now)
  {
  }

  predicate Serves(a: Account, b: Account, sequence: nat, now: Time) {
    && b.id == a.id && b.provider == a.provider && b.enabled == a.enabled
    && b.session.resetAt == a.session.resetAt && b.weekly.resetAt == a.weekly.resetAt
    && b.lastUsedAt == Some(now) && b.requests == a.requests + 1 && b.tokens == a.tokens + 1200 + (sequence * 977) % 3600
    && Consumed(a.session.remaining, b.session.remaining, 4 + sequence % 3)
    && Consumed(a.weekly.remaining, b.weekly.remaining, 1 + sequence % 2)
  }

  predicate Consumed(before: int, after: int, cost: int) {
    after == if before >= cost then before - cost else 0
  }

  /** Switching an account off or on changes the accounts of that identity only, and choosing a routing nothing else. */
  lemma SettingsKeepQuotas(u: Usage, id: Id, routing: Routing, i: nat)
    requires i < |u.accounts|
    ensures Step(u, Route(routing)) == u.(routing := routing)
    ensures var v := Step(u, Toggle(id));
      && v == u.(accounts := v.accounts) && |v.accounts| == |u.accounts|
      && v.accounts[i] == u.accounts[i].(enabled := if u.accounts[i].id == id then !u.accounts[i].enabled
                                                   else u.accounts[i].enabled)
  {
  }

  // ---------------------------------------------------------------------------------------------------------------
  // Fairness
  // ---------------------------------------------------------------------------------------------------------------

  lemma {:induction false} SamePool(a: seq<Account>, b: seq<Account>, p: Provider, from: nat)
    requires |a| == |b| && from <= |a| && forall i :: 0 <= i < |a| ==> a[i].provider == b[i].provider
    ensures PoolFrom(a, p, from) == PoolFrom(b, p, from)
    decreases |a| - from
  {
    if from < |a| {
      SamePool(a, b, p, from + 1);
    }
  }

  ghost predicate Ascends(pool: seq<nat>) {
    forall i, j :: 0 <= i < j < |pool| ==> pool[i] < pool[j]
  }

  lemma {:induction false} PoolAscends(accounts: seq<Account>, p: Provider, from: nat)
    requires from <= |accounts|
    ensures Ascends(PoolFrom(accounts, p, from))
    decreases |accounts| - from
  {
    if from < |accounts| {
      PoolAscends(accounts, p, from + 1);
      if accounts[from].provider == p {
        AscendsCons(from, PoolFrom(accounts, p, from + 1));
      } else {
        assert PoolFrom(accounts, p, from) == PoolFrom(accounts, p, from + 1);
      }
    }
  }

  lemma AscendsCons(first: nat, rest: seq<nat>)
    requires Ascends(rest) && forall k :: 0 <= k < |rest| ==> first < rest[k]
    ensures Ascends([first] + rest)
  {
  }

  lemma {:induction false} FoundIs(u: Usage, p: Provider, k: nat, from: nat)
    requires Inv(u) && from <= k < |Pool(u, p)| && p in u.lastRouted && u.lastRouted[p] == Member(u, p, k).id
    ensures FindFrom(u, p, from) == k
    decreases k - from
  {
    if from < k {
      PoolAscends(u.accounts, p, 0);
      assert Pool(u, p)[from] < Pool(u, p)[k];
      FoundIs(u, p, k, from + 1);
    }
  }

  lemma {:induction false} SamePrevious(u: Usage, v: Usage, p: Provider, k: nat)
    requires SameAccounts(u, v) && (p in u.lastRouted <==> p in v.lastRouted)
    requires p in u.lastRouted ==> u.lastRouted[p] == v.lastRouted[p]
    requires k <= |Pool(u, p)|
    ensures Pool(u, p) == Pool(v, p) && FindFrom(u, p, k) == FindFrom(v, p, k)
    decreases |Pool(u, p)| - k
  {
    SamePool(u.accounts, v.accounts, p, 0);
    if k < |Pool(u, p)| {
      SamePrevious(u, v, p, k + 1);
    }
  }

  // How many accounts the rotation is away from the k-th: one for the next account, and all for the last one used.
  function Distance(u: Usage, p: Provider, k: nat): nat
    requires k < |Pool(u, p)|
    ensures 1 <= Distance(u, p, k) <= |Pool(u, p)|
  {
    var d := k - Previous(u, p);
    if d > 0 then d else d + |Pool(u, p)|
  }

  lemma AroundAt(u: Usage, p: Provider, k: nat, offset: nat)
    requires k < |Pool(u, p)| && 0 < offset <= |Pool(u, p)|
    ensures Around(u, p, offset) == k <==> offset == Distance(u, p, k)
    ensures var s := Around(u, p, offset);
      offset < Distance(u, p, k) ==> Distance(u, p, k) - offset == if s < k then k - s else k - s + |Pool(u, p)|
  {
    Wraps(Previous(u, p) + offset, |Pool(u, p)|);
  }

  lemma Wraps(sum: int, n: int)
    requires 0 <= sum < 2 * n
    ensures sum % n == if sum < n then sum else sum - n
  {
    if sum >= n {
      assert (sum - n) % n == sum - n;
    }
  }

  // The scan stops at the k-th account at the latest when that is eligible.
  lemma {:induction false} ScanStops(u: Usage, p: Provider, k: nat, offset: nat)
    requires k < |Pool(u, p)| && Eligible(Member(u, p, k)) && 0 < offset <= Distance(u, p, k)
    ensures NextEligible(u, p, offset).Some?
    ensures exists o: nat :: offset <= o <= Distance(u, p, k) && NextEligible(u, p, offset).value == Around(u, p, o)
    decreases Distance(u, p, k) - offset
  {
    AroundAt(u, p, k, offset);
    if !Eligible(Member(u, p, Around(u, p, offset))) {
      ScanStops(u, p, k, offset + 1);
    }
  }

  /** A request serves an eligible account or brings the rotation closer to it. */
  lemma RequestComesCloser(u: Usage, p: Provider, now: Time, k: nat)
    requires Inv(u) && u.routing.RoundRobin? && k < |Pool(u, p)| && Eligible(Member(u, p, k))
    ensures RouteAccount(u, p).Some?
    ensures Pool(Requested(u, p, now), p) == Pool(u, p)
    ensures RouteAccount(u, p) == Some(k) || Distance(Requested(u, p, now), p, k) < Distance(u, p, k)
  {
    var v := Requested(u, p, now);
    RequestKeepsInv(u, p, now);
    SamePool(u.accounts, v.accounts, p, 0);
    ScanStops(u, p, k, 1);
    var chosen := RouteAccount(u, p).value;
    var o: nat :| 1 <= o <= Distance(u, p, k) && chosen == Around(u, p, o);
    AroundAt(u, p, k, o);
    FoundIs(v, p, chosen, 0);
  }

  predicate IsRequest(a: Action, p: Provider) {
    a.Request? && a.provider == p
  }

  function Requests(actions: seq<Action>, p: Provider): nat {
    if actions == [] then 0 else (if IsRequest(actions[0], p) then 1 else 0) + Requests(actions[1..], p)
  }

  // The k-th account of the provider is eligible at each of its requests, and no action changes the routing or resets.
  ghost predicate StaysEligible(u: Usage, actions: seq<Action>, p: Provider, k: nat)
    decreases |actions|
  {
    actions != [] ==>
      && !(actions[0].Route? && actions[0].routing.FillFirst?) && !actions[0].Reset?
      && (IsRequest(actions[0], p) ==>
            var v := Refreshed(u, actions[0].now); k < |Pool(v, p)| && Eligible(Member(v, p, k)))
      && StaysEligible(Step(u, actions[0]), actions[1..], p, k)
  }

  ghost predicate IsServed(u: Usage, actions: seq<Action>, p: Provider, k: nat)
    decreases |actions|
  {
    && actions != []
    && (|| (IsRequest(actions[0], p) && RouteAccount(Refreshed(u, actions[0].now), p) == Some(k))
        || IsServed(Step(u, actions[0]), actions[1..], p, k))
  }

  lemma OtherStepsKeepDistance(u: Usage, a: Action, p: Provider, k: nat)
    requires Inv(u) && k < |Pool(u, p)| && !IsRequest(a, p) && !a.Reset?
    ensures k < |Pool(Step(u, a), p)| && Distance(Step(u, a), p, k) == Distance(u, p, k)
  {
    StepKeepsInv(u, a);
    SamePrevious(u, Step(u, a), p, 0);
  }

  lemma RequestStepComesCloser(u: Usage, a: Action, p: Provider, k: nat)
    requires Inv(u) && u.routing.RoundRobin? && k < |Pool(u, p)| && IsRequest(a, p)
    requires k < |Pool(Refreshed(u, a.now), p)| && Eligible(Member(Refreshed(u, a.now), p, k))
    ensures k < |Pool(Step(u, a), p)| && Step(u, a).routing.RoundRobin?
    ensures RouteAccount(Refreshed(u, a.now), p) == Some(k) || Distance(Step(u, a), p, k) < Distance(u, p, k)
  {
    var v := Refreshed(u, a.now);
    RefreshKeepsInv(u, a.now);
    SamePrevious(u, v, p, 0);
    RequestComesCloser(v, p, a.now, k);
  }

  /** In rotation an account that stays eligible is served within as many requests as its provider has accounts, whatever
      happens to the others in between. */
  lemma {:induction false} RotationIsFair(u: Usage, actions: seq<Action>, p: Provider, k: nat)
    requires Inv(u) && u.routing.RoundRobin? && k < |Pool(u, p)| && StaysEligible(u, actions, p, k)
    requires Requests(actions, p) >= Distance(u, p, k)
    ensures IsServed(u, actions, p, k)
    decreases |actions|
  {
    var a := actions[0];
    StepKeepsInv(u, a);
    if IsRequest(a, p) {
      RequestStepComesCloser(u, a, p, k);
      if RouteAccount(Refreshed(u, a.now), p) != Some(k) {
        RotationIsFair(Step(u, a), actions[1..], p, k);
      }
    } else {
      OtherStepsKeepDistance(u, a, p, k);
      RotationIsFair(Step(u, a), actions[1..], p, k);
    }
  }

  lemma RotationIsFairWithinAll(u: Usage, actions: seq<Action>, p: Provider, k: nat)
    requires Inv(u) && u.routing.RoundRobin? && k < |Pool(u, p)| && StaysEligible(u, actions, p, k)
    requires Requests(actions, p) >= |Pool(u, p)|
    ensures IsServed(u, actions, p, k)
  {
    RotationIsFair(u, actions, p, k);
  }

  // ---------------------------------------------------------------------------------------------------------------
  // History
  // ---------------------------------------------------------------------------------------------------------------

  // All events of a run since the last reset, newest first, before those of `past`.
  function History(u: Usage, actions: seq<Action>, past: seq<Event>): seq<Event>
    decreases |actions|
  {
    if actions == [] then past
    else
      var a := actions[0];
      History(Step(u, a), actions[1..],
              if a.Request? then [EventOf(Refreshed(u, a.now), a.provider, a.now)] + past
              else if a.Reset? then CreateUsage(a.now).events
              else past)
  }

  /** The list of events is the newest part of the whole history. */
  lemma {:induction false} EventsAreNewest(u: Usage, actions: seq<Action>, past: seq<Event>)
    requires u.events == Newest(past)
    ensures Run(u, actions).events == Newest(History(u, actions, past))
    decreases |actions|
  {
    if actions != [] {
      var a := actions[0];
      if a.Request? {
        EventsAreNewest(Step(u, a), actions[1..], [EventOf(Refreshed(u, a.now), a.provider, a.now)] + past);
      } else if a.Reset? {
        EventsAreNewest(Step(u, a), actions[1..], CreateUsage(a.now).events);
      } else {
        EventsAreNewest(Step(u, a), actions[1..], past);
      }
    }
  }
}
