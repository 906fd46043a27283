/** DataFetcherV2: polling timers, tab visibility, the fetch slots, and results that arrive late. */
module DataFetcher {
  import opened Store = BridgeBus

  datatype Timer = Timer(name: Topic, id: nat)

  /** The timers recorded per group, and those the browser runs. */
  datatype Timers = Timers(publicIds: seq<Timer>, authIds: seq<Timer>, live: set<nat>, nextId: nat)

  /** A fetch under way; `settling` once its result has been handled but its slot is still held. */
  datatype Pipeline = Pipeline(src: Topic, settling: bool)

  datatype Slots = Slots(active: int, pipelines: seq<Pipeline>)

  datatype Flags = Flags(publicStarted: bool, authStarted: bool, demoStarted: bool, hiddenPaused: bool, listening: bool)

  datatype Fetcher = Fetcher(
    flags: Flags, timers: Timers, slots: Slots, fetchingReadiness: bool, followUps: nat, bus: Bus)

  /** Polling interval of each source in milliseconds; 0 means no timer. */
  type Intervals = Topic -> int

  const MAX_CONCURRENT := 3

  function Idle(bus: Bus): Fetcher {
    Fetcher(Flags(false, false, false, false, true), Timers([], [], {}, 0), Slots(0, []), false, 0, bus)
  }

  // ----- fetches -----

  function Take(s: Slots, src: Topic): Slots {
    if s.active >= MAX_CONCURRENT then s
    else Slots(s.active + 1, s.pipelines + [Pipeline(src, false)])
  }

  function TakeAll(s: Slots, srcs: seq<Topic>): Slots {
    if srcs == [] then s else Take(TakeAll(s, srcs[..|srcs| - 1]), srcs[|srcs| - 1])
  }

  /** Fetches in order; all are dropped in demo mode, and each one when every slot is taken. */
  function Fetch(f: Fetcher, srcs: seq<Topic>): Fetcher {
    if f.flags.demoStarted then f else f.(slots := TakeAll(f.slots, srcs))
  }

  function FetchReadiness(f: Fetcher): Fetcher {
    if f.fetchingReadiness then f else Fetch(f.(fetchingReadiness := true), [Readiness])
  }

  // ----- timers -----

  datatype Group = PublicGroup | AuthedGroup

  function TimerIds(timers: seq<Timer>): set<nat> {
    set t | t in timers :: t.id
  }

  function AddTimer(t: Timers, group: Group, src: Topic, ms: int): Timers {
    if ms <= 0 then t
    else if group.PublicGroup? then
      Timers(t.publicIds + [Timer(src, t.nextId)], t.authIds, t.live + {t.nextId}, t.nextId + 1)
    else
      Timers(t.publicIds, t.authIds + [Timer(src, t.nextId)], t.live + {t.nextId}, t.nextId + 1)
  }

  function AddTimers(t: Timers, group: Group, srcs: seq<Topic>, ms: Intervals): Timers {
    if srcs == [] then t
    else AddTimer(AddTimers(t, group, srcs[..|srcs| - 1], ms), group, srcs[|srcs| - 1], ms(srcs[|srcs| - 1]))
  }

  function ClearTimers(t: Timers, group: Group): Timers {
    if group.PublicGroup? then t.(live := t.live - TimerIds(t.publicIds), publicIds := [])
    else t.(live := t.live - TimerIds(t.authIds), authIds := [])
  }

  const PUBLIC_POLLS: seq<Topic> := [Ticker, Markets]
  const AUTH_POLLS: seq<Topic> := [Activities, Positions, WalletBalance]
  /** Fetched once when authenticated polling starts. */
  const ONE_SHOTS: seq<Topic> := [Strategies, Proposals, Community, Templates, NodeTypes]

  /** For each source an immediate fetch, then a recorded timer. */
  function StartPolls(f: Fetcher, group: Group, srcs: seq<Topic>, ms: Intervals): Fetcher {
    Fetch(f, srcs).(timers := AddTimers(f.timers, group, srcs, ms))
  }

  function ClearGroup(f: Fetcher, group: Group): Fetcher {
    f.(timers := ClearTimers(f.timers, group))
  }

  // ----- the public operations -----

  function StartPublic(f: Fetcher, ms: Intervals): Fetcher {
    if f.flags.publicStarted then f
    else
      var g := f.(flags := f.flags.(publicStarted := true));
      if g.flags.demoStarted then g
      else Fetch(StartPolls(FetchReadiness(g), PublicGroup, PUBLIC_POLLS, ms), [Proposals])
  }

  function StartAuth(f: Fetcher, ms: Intervals): Fetcher {
    if f.flags.authStarted then f
    else
      var g := f.(flags := f.flags.(authStarted := true));
      var h := Fetch(StartPolls(g, AuthedGroup, AUTH_POLLS, ms), ONE_SHOTS);
      h.(bus := AfterEnable(h.bus))
  }

  function StopAuth(f: Fetcher): Fetcher {
    ClearGroup(f.(flags := f.flags.(authStarted := false), bus := AfterDisable(f.bus)), AuthedGroup)
  }

  function StopPublic(f: Fetcher): Fetcher {
    ClearGroup(f.(flags := f.flags.(publicStarted := false)), PublicGroup)
  }

  function StopAll(f: Fetcher): Fetcher {
    var g := StopAuth(StopPublic(f));
    g.(flags := g.flags.(listening := false, hiddenPaused := false))
  }

  function StartDemo(f: Fetcher, demo: seq<Update>): Fetcher {
    if f.flags.demoStarted then f
    else
      var g := f.(flags := f.flags.(demoStarted := true), bus := FoldSet(AfterEnable(f.bus), demo));
      if g.flags.publicStarted then ClearGroup(g, PublicGroup) else g
  }

  function Pause(f: Fetcher): Fetcher {
    if f.flags.publicStarted || f.flags.authStarted then
      ClearGroup(ClearGroup(f.(flags := f.flags.(hiddenPaused := true)), PublicGroup), AuthedGroup)
    else f
  }

  function Resume(f: Fetcher, ms: Intervals): Fetcher {
    if !f.flags.hiddenPaused then f
    else
      var g := f.(flags := f.flags.(hiddenPaused := false));
      var h := if g.flags.publicStarted then StartPolls(g, PublicGroup, PUBLIC_POLLS, ms) else g;
      if g.flags.authStarted then StartPolls(h, AuthedGroup, AUTH_POLLS, ms) else h
  }

  /** The visibility handler: hiding the tab pauses polling, showing it resumes. */
  function Visibility(f: Fetcher, hidden: bool, ms: Intervals): Fetcher {
    if !f.flags.listening then f else if hidden then Pause(f) else Resume(f, ms)
  }

  function Navigate(f: Fetcher, src: Topic): Fetcher {
    if f.flags.authStarted then Fetch(f, [src]) else f
  }

  function AfterTransaction(f: Fetcher): Fetcher {
    var g := Fetch(f, PUBLIC_POLLS);
    if g.flags.authStarted then Fetch(g, [Positions, WalletBalance, Activities]) else g
  }

  // ----- results -----

  function MarkSettling(s: Slots, k: nat): Slots
    requires k < |s.pipelines|
  {
    s.(pipelines := s.pipelines[k := s.pipelines[k].(settling := true)])
  }

  function Free(s: Slots, k: nat): Slots
    requires k < |s.pipelines|
  {
    Slots(s.active - 1, s.pipelines[..k] + s.pipelines[k + 1..])
  }

  function Deliver(f: Fetcher, k: nat, data: Value): Fetcher
    requires k < |f.slots.pipelines|
  {
    f.(slots := MarkSettling(f.slots, k), bus := AfterSet(f.bus, Data(f.slots.pipelines[k].src), data))
  }

  /** An error is recorded on the bus and, while polling publicly, checks readiness. */
  function Fail(f: Fetcher, k: nat, error: Value): Fetcher
    requires k < |f.slots.pipelines|
  {
    var g := f.(slots := MarkSettling(f.slots, k), bus := AfterSet(f.bus, Failure("fetch"), error));
    if g.flags.publicStarted && f.slots.pipelines[k].src != Readiness then FetchReadiness(g) else g
  }

  /** The slot is given back; positions may still write a derived wallet balance. */
  function Release(f: Fetcher, k: nat, followUp: bool): Fetcher
    requires k < |f.slots.pipelines|
  {
    f.(slots := Free(f.slots, k),
       followUps := f.followUps + if followUp && f.slots.pipelines[k].src == Positions then 1 else 0)
  }

  // ----- runs -----

  datatype Event =
    | StartPublicPolling | StartAuthenticatedPolling | StopPublicPolling | StopAuthenticatedPolling
    | StopEverything | StartDemoMode(demo: seq<Update>)
    | VisibilityChange(hidden: bool)
    | Tick(src: Topic) | Visit(src: Topic) | Transaction
    | Result(k: nat, data: Value) | Error(k: nat, error: Value) | Settled(k: nat, followUp: bool)
    | FollowUp(data: Value) | ReadinessDone

  ghost predicate HasTimer(t: Timers, src: Topic) {
    exists e :: (e in t.publicIds || e in t.authIds) && e.name == src
  }

  ghost predicate Enabled(f: Fetcher, ev: Event) {
    match ev
    case Tick(src) => HasTimer(f.timers, src)
    case Result(k, _) => k < |f.slots.pipelines| && !f.slots.pipelines[k].settling
    case Error(k, _) => k < |f.slots.pipelines| && !f.slots.pipelines[k].settling
    case Settled(k, _) => k < |f.slots.pipelines| && f.slots.pipelines[k].settling
    case FollowUp(_) => f.followUps > 0
    case ReadinessDone => f.fetchingReadiness && forall p :: p in f.slots.pipelines ==> p.src != Readiness
    case StartDemoMode(demo) => forall u :: u in demo ==> u.event.Data?
    case _ => true
  }

  function Apply(f: Fetcher, ev: Event, ms: Intervals): Fetcher
    requires Enabled(f, ev)
  {
    match ev
    case StartPublicPolling => StartPublic(f, ms)
    case StartAuthenticatedPolling => StartAuth(f, ms)
    case StopPublicPolling => StopPublic(f)
    case StopAuthenticatedPolling => StopAuth(f)
    case StopEverything => StopAll(f)
    case StartDemoMode(demo) => StartDemo(f, demo)
    case VisibilityChange(hidden) => Visibility(f, hidden, ms)
    case Tick(src) => Fetch(f, [src])
    case Visit(src) => Navigate(f, src)
    case Transaction => AfterTransaction(f)
    case Result(k, data) => Deliver(f, k, data)
    case Error(k, error) => Fail(f, k, error)
    case Settled(k, followUp) => Release(f, k, followUp)
    case FollowUp(data) => f.(followUps := f.followUps - 1, bus := AfterSet(f.bus, Data(WalletBalance), data))
    case ReadinessDone => f.(fetchingReadiness := false)
  }

  // ----- slots -----

  /** The counter is the number of fetches under way, three at most. */
  ghost predicate SlotsMatch(s: Slots) {
    s.active == |s.pipelines| <= MAX_CONCURRENT
  }

  function Min(a: int, b: int): int {
    if a < b then a else b
  }

  function AsPipelines(srcs: seq<Topic>): seq<Pipeline> {
    seq(|srcs|, i requires 0 <= i < |srcs| => Pipeline(srcs[i], false))
  }

  lemma PipelinesAppend(srcs: seq<Topic>, src: Topic)
    ensures AsPipelines(srcs + [src]) == AsPipelines(srcs) + [Pipeline(src, false)]
  {}

  /** A burst of fetches is admitted in order until the slots run out; the rest is dropped. */
  lemma {:induction false} BurstAdmitsFirst(s: Slots, srcs: seq<Topic>)
    requires SlotsMatch(s)
    ensures var n := Min(|srcs|, MAX_CONCURRENT - s.active);
            TakeAll(s, srcs) == Slots(s.active + n, s.pipelines + AsPipelines(srcs[..n]))
  {
    if srcs == [] {
      assert s.pipelines + AsPipelines(srcs[..0]) == s.pipelines;
    } else {
      var rest, src := srcs[..|srcs| - 1], srcs[|srcs| - 1];
      var n := Min(|rest|, MAX_CONCURRENT - s.active);
      BurstAdmitsFirst(s, rest);
      assert rest[..n] == srcs[..n];
      if s.active + n < MAX_CONCURRENT {
        assert srcs[..n + 1] == rest[..n] + [src];
        PipelinesAppend(rest[..n], src);
        assert s.pipelines + AsPipelines(rest[..n]) + [Pipeline(src, false)]
            == s.pipelines + (AsPipelines(rest[..n]) + [Pipeline(src, false)]);
      }
    }
  }

  lemma {:induction false} FullAdmitsNone(s: Slots, srcs: seq<Topic>)
    requires s.active >= MAX_CONCURRENT
    ensures TakeAll(s, srcs) == s
  {
    if srcs != [] {
      FullAdmitsNone(s, srcs[..|srcs| - 1]);
    }
  }

  /** Starting authenticated polling takes every free slot for its three timers, so its five
      one-time fetches never start, from any state. */
  lemma OneShotsAreAlwaysDropped(f: Fetcher, ms: Intervals)
    requires SlotsMatch(f.slots) && !f.flags.authStarted && !f.flags.demoStarted
    ensures var free := MAX_CONCURRENT - f.slots.active;
            StartAuth(f, ms).slots == Slots(MAX_CONCURRENT, f.slots.pipelines + AsPipelines(AUTH_POLLS[..free]))
  {
    BurstAdmitsFirst(f.slots, AUTH_POLLS);
    FullAdmitsNone(TakeAll(f.slots, AUTH_POLLS), ONE_SHOTS);
  }

  lemma {:induction false} TakeAllConcat(s: Slots, a: seq<Topic>, b: seq<Topic>)
    ensures TakeAll(s, a + b) == TakeAll(TakeAll(s, a), b)
  {
    if b == [] {
      assert a + b == a;
    } else {
      assert (a + b)[..|a + b| - 1] == a + b[..|b| - 1];
      TakeAllConcat(s, a, b[..|b| - 1]);
    }
  }

  /** What starting public polling asks for, in order. */
  function PublicAsks(f: Fetcher): seq<Topic> {
    (if f.fetchingReadiness then [] else [Readiness]) + PUBLIC_POLLS + [Proposals]
  }

  /** Starting public polling admits the first of its three or four fetches that find a slot;
      proposals come last, and are fetched exactly when every slot is free and readiness is
      being checked already. */
  lemma PublicStartAdmits(f: Fetcher, ms: Intervals)
    requires SlotsMatch(f.slots) && !f.flags.publicStarted && !f.flags.demoStarted
    ensures var asked := PublicAsks(f);
            var n := Min(|asked|, MAX_CONCURRENT - f.slots.active);
            && StartPublic(f, ms).slots == Slots(f.slots.active + n, f.slots.pipelines + AsPipelines(asked[..n]))
            && (Proposals in asked[..n] <==> f.fetchingReadiness && f.slots.active == 0)
  {
    var first := if f.fetchingReadiness then [] else [Readiness];
    TakeAllConcat(f.slots, first, PUBLIC_POLLS);
    TakeAllConcat(f.slots, first + PUBLIC_POLLS, [Proposals]);
    BurstAdmitsFirst(f.slots, PublicAsks(f));
    assert TakeAll(f.slots, []) == f.slots;
    assert TakeAll(f.slots, [Readiness]) == Take(TakeAll(f.slots, []), Readiness);
    ProposalsComeLast(f, Min(|PublicAsks(f)|, MAX_CONCURRENT - f.slots.active));
  }

  lemma ProposalsComeLast(f: Fetcher, n: nat)
    requires n <= |PublicAsks(f)|
    ensures Proposals in PublicAsks(f)[..n] <==> n == |PublicAsks(f)|
  {
    var asked := PublicAsks(f);
    if n == |asked| {
      assert asked[..n][n - 1] == Proposals;
    }
  }

  /** From an idle fetcher, public polling fetches readiness, ticker and markets, and drops
      the proposals it also asks for. */
  lemma FirstPublicStartDropsProposals(bus: Bus, ms: Intervals)
    ensures StartPublic(Idle(bus), ms).slots == Slots(3, AsPipelines([Readiness, Ticker, Markets]))
  {
    PublicStartAdmits(Idle(bus), ms);
    assert PublicAsks(Idle(bus))[..3] == [Readiness, Ticker, Markets];
    assert [] + AsPipelines([Readiness, Ticker, Markets]) == AsPipelines([Readiness, Ticker, Markets]);
  }

  lemma {:induction false} TakeAllMatches(s: Slots, srcs: seq<Topic>)
    requires SlotsMatch(s)
    ensures SlotsMatch(TakeAll(s, srcs))
  {
    if srcs != [] {
      TakeAllMatches(s, srcs[..|srcs| - 1]);
    }
  }

  lemma FetchMatches(f: Fetcher, srcs: seq<Topic>)
    requires SlotsMatch(f.slots)
    ensures SlotsMatch(Fetch(f, srcs).slots)
  {
    TakeAllMatches(f.slots, srcs);
  }

  lemma StepKeepsSlots(f: Fetcher, ev: Event, ms: Intervals)
    requires SlotsMatch(f.slots) && Enabled(f, ev)
    ensures SlotsMatch(Apply(f, ev, ms).slots)
  {
    forall g: Fetcher, srcs | SlotsMatch(g.slots)
      ensures SlotsMatch(Fetch(g, srcs).slots)
    {
      FetchMatches(g, srcs);
    }
  }

  // ----- timers -----

  ghost predicate DistinctTimers(timers: seq<Timer>) {
    forall i, j :: 0 <= i < j < |timers| ==> timers[i].id != timers[j].id
  }

  /** The recorded timers are exactly the running ones, each recorded once. */
  ghost predicate TimersMatch(t: Timers) {
    && t.live == TimerIds(t.publicIds) + TimerIds(t.authIds)
    && TimerIds(t.publicIds) !! TimerIds(t.authIds)
    && DistinctTimers(t.publicIds) && DistinctTimers(t.authIds)
    && (forall id :: id in t.live ==> id < t.nextId)
  }

  lemma TimerIdsAppend(timers: seq<Timer>, e: Timer)
    ensures TimerIds(timers + [e]) == TimerIds(timers) + {e.id}
  {
    assert e in timers + [e];
    assert forall t :: t in timers ==> t in timers + [e];
  }

  lemma AddTimerMatches(t: Timers, group: Group, src: Topic, ms: int)
    requires TimersMatch(t)
    ensures TimersMatch(AddTimer(t, group, src, ms))
  {
    var e := Timer(src, t.nextId);
    TimerIdsAppend(t.publicIds, e);
    TimerIdsAppend(t.authIds, e);
    var timers := if group.PublicGroup? then t.publicIds else t.authIds;
    assert forall i :: 0 <= i < |timers| ==> timers[i] in timers && timers[i].id in TimerIds(timers);
  }

  lemma {:induction false} AddTimersMatches(t: Timers, group: Group, srcs: seq<Topic>, ms: Intervals)
    requires TimersMatch(t)
    ensures TimersMatch(AddTimers(t, group, srcs, ms))
  {
    if srcs != [] {
      AddTimersMatches(t, group, srcs[..|srcs| - 1], ms);
      AddTimerMatches(AddTimers(t, group, srcs[..|srcs| - 1], ms), group, srcs[|srcs| - 1], ms(srcs[|srcs| - 1]));
    }
  }

  lemma ClearMatches(t: Timers, group: Group)
    requires TimersMatch(t)
    ensures TimersMatch(ClearTimers(t, group))
  {
    assert TimerIds([]) == {};
  }

  lemma StepKeepsTimers(f: Fetcher, ev: Event, ms: Intervals)
    requires TimersMatch(f.timers) && Enabled(f, ev)
    ensures TimersMatch(Apply(f, ev, ms).timers)
  {
    forall t: Timers, group, srcs | TimersMatch(t)
      ensures TimersMatch(AddTimers(t, group, srcs, ms))
    {
      AddTimersMatches(t, group, srcs, ms);
    }
    forall t: Timers, group | TimersMatch(t)
      ensures TimersMatch(ClearTimers(t, group))
    {
      ClearMatches(t, group);
    }
  }

  /** Stopping everything leaves no timer running. */
  lemma StopAllLeavesNoTimer(f: Fetcher)
    requires TimersMatch(f.timers)
    ensures StopAll(f).timers.live == {}
  {
    ClearMatches(f.timers, PublicGroup);
    ClearMatches(ClearTimers(f.timers, PublicGroup), AuthedGroup);
    assert TimerIds([]) == {};
  }

  // ----- one timer per source -----

  function Names(timers: seq<Timer>): (r: seq<Topic>)
    ensures |r| == |timers| && forall i :: 0 <= i < |r| ==> r[i] == timers[i].name
  {
    seq(|timers|, i requires 0 <= i < |timers| => timers[i].name)
  }

  /** The sources that get a timer at all. */
  function Polled(srcs: seq<Topic>, ms: Intervals): seq<Topic> {
    if srcs == [] then []
    else Polled(srcs[..|srcs| - 1], ms) + if ms(srcs[|srcs| - 1]) > 0 then [srcs[|srcs| - 1]] else []
  }

  ghost predicate OneEach(names: seq<Topic>) {
    forall i, j :: 0 <= i < j < |names| ==> names[i] != names[j]
  }

  ghost predicate AtMostOneTimer(t: Timers) {
    OneEach(Names(t.publicIds) + Names(t.authIds))
  }

  lemma {:induction false} AddTimersNames(t: Timers, group: Group, srcs: seq<Topic>, ms: Intervals)
    ensures var u := AddTimers(t, group, srcs, ms);
            if group.PublicGroup? then
              Names(u.publicIds) == Names(t.publicIds) + Polled(srcs, ms) && u.authIds == t.authIds
            else
              Names(u.authIds) == Names(t.authIds) + Polled(srcs, ms) && u.publicIds == t.publicIds
  {
    if srcs != [] {
      AddTimersNames(t, group, srcs[..|srcs| - 1], ms);
    }
  }

  lemma {:induction false} PolledMembers(srcs: seq<Topic>, ms: Intervals)
    requires OneEach(srcs)
    ensures OneEach(Polled(srcs, ms))
    ensures forall x :: x in Polled(srcs, ms) <==> x in srcs && ms(x) > 0
  {
    if srcs != [] {
      var rest := srcs[..|srcs| - 1];
      PolledMembers(rest, ms);
      assert srcs == rest + [srcs[|srcs| - 1]];
      var r := Polled(rest, ms);
      assert forall i :: 0 <= i < |r| ==> r[i] in r;
    }
  }

  lemma OneEachConcat(a: seq<Topic>, b: seq<Topic>)
    requires OneEach(a) && OneEach(b)
    requires forall x :: x in a ==> x !in b
    ensures OneEach(a + b)
  {
    assert forall i :: 0 <= i < |a| ==> a[i] in a;
    assert forall i :: 0 <= i < |b| ==> b[i] in b;
  }

  lemma TwiceIsNotOnce(before: seq<Topic>, a: seq<Topic>, after: seq<Topic>)
    requires a != []
    ensures !OneEach(before + (a + a) + after)
  {
    var s := before + (a + a) + after;
    assert s[|before|] == s[|before| + |a|];
  }

  lemma PollsAreDisjoint(ms: Intervals)
    ensures OneEach(Polled(PUBLIC_POLLS, ms)) && OneEach(Polled(AUTH_POLLS, ms))
    ensures OneEach(Polled(PUBLIC_POLLS, ms) + Polled(AUTH_POLLS, ms))
  {
    PolledMembers(PUBLIC_POLLS, ms);
    PolledMembers(AUTH_POLLS, ms);
    OneEachConcat(Polled(PUBLIC_POLLS, ms), Polled(AUTH_POLLS, ms));
  }

  /** Each group is unpolled or polled once, and what is stopped or paused is unpolled. */
  ghost predicate PolledOnce(f: Fetcher, ms: Intervals) {
    var t := f.timers;
    && (t.publicIds == [] || Names(t.publicIds) == Polled(PUBLIC_POLLS, ms))
    && (t.authIds == [] || Names(t.authIds) == Polled(AUTH_POLLS, ms))
    && (!f.flags.publicStarted || f.flags.hiddenPaused ==> t.publicIds == [])
    && (!f.flags.authStarted || f.flags.hiddenPaused ==> t.authIds == [])
  }

  /** A start that takes effect while the tab is hidden and polling is paused. */
  predicate StartsWhilePaused(f: Fetcher, ev: Event) {
    && f.flags.hiddenPaused
    && (|| (ev.StartPublicPolling? && !f.flags.publicStarted && !f.flags.demoStarted)
        || (ev.StartAuthenticatedPolling? && !f.flags.authStarted))
  }

  lemma PolledOnceIsAtMostOne(f: Fetcher, ms: Intervals)
    requires PolledOnce(f, ms)
    ensures AtMostOneTimer(f.timers)
  {
    OnceIsAtMostOne(f.timers, ms);
  }

  lemma OnceIsAtMostOne(t: Timers, ms: Intervals)
    requires t.publicIds == [] || Names(t.publicIds) == Polled(PUBLIC_POLLS, ms)
    requires t.authIds == [] || Names(t.authIds) == Polled(AUTH_POLLS, ms)
    ensures AtMostOneTimer(t)
  {
    PollsAreDisjoint(ms);
    var a, b := Names(t.publicIds), Names(t.authIds);
    if t.publicIds == [] {
      assert a + b == b;
    } else if t.authIds == [] {
      assert a + b == a;
    }
  }

  lemma StepKeepsPolledOnce(f: Fetcher, ev: Event, ms: Intervals)
    requires PolledOnce(f, ms) && Enabled(f, ev) && !StartsWhilePaused(f, ev)
    ensures PolledOnce(Apply(f, ev, ms), ms)
  {
    AddTimersNames(f.timers, PublicGroup, PUBLIC_POLLS, ms);
    AddTimersNames(f.timers, AuthedGroup, AUTH_POLLS, ms);
    AddTimersNames(AddTimers(f.timers, PublicGroup, PUBLIC_POLLS, ms), AuthedGroup, AUTH_POLLS, ms);
  }

  /** Adding `p` to `a` and `q` to `b`, as asked, repeats a name exactly if one was there already. */
  lemma DuplicatesIff(a: seq<Topic>, b: seq<Topic>, p: seq<Topic>, q: seq<Topic>, addP: bool, addQ: bool)
    requires (a == [] || a == p) && (b == [] || b == q)
    requires OneEach(p) && OneEach(q) && OneEach(p + q)
    ensures OneEach((a + if addP then p else []) + (b + if addQ then q else []))
            <==> (addP ==> a == []) && (addQ ==> b == [])
  {
    var c, d := a + (if addP then p else []), b + if addQ then q else [];
    if addP && a != [] {
      TwiceIsNotOnce([], p, d);
      assert [] + (p + p) + d == c + d;
    } else if addQ && b != [] {
      TwiceIsNotOnce(c, q, []);
      assert c + (q + q) + [] == c + d;
    } else {
      assert (c == [] || c == p) && (d == [] || d == q);
      if c == [] {
        assert c + d == d;
      } else if d == [] {
        assert c + d == c;
      }
    }
  }

  lemma ResumedNames(f: Fetcher, ms: Intervals)
    requires f.flags.hiddenPaused && f.flags.listening
    ensures var t, u := f.timers, Visibility(f, false, ms).timers;
            && Names(u.publicIds)
               == Names(t.publicIds) + (if f.flags.publicStarted then Polled(PUBLIC_POLLS, ms) else [])
            && Names(u.authIds)
               == Names(t.authIds) + (if f.flags.authStarted then Polled(AUTH_POLLS, ms) else [])
  {
    var t := f.timers;
    var t1 := if f.flags.publicStarted then AddTimers(t, PublicGroup, PUBLIC_POLLS, ms) else t;
    AddTimersNames(t, PublicGroup, PUBLIC_POLLS, ms);
    AddTimersNames(t1, AuthedGroup, AUTH_POLLS, ms);
  }

  /** Showing the tab again repeats a timer exactly when a started group has recorded timers
      while paused. */
  lemma ResumeRepeatsIff(f: Fetcher, ms: Intervals)
    requires f.flags.hiddenPaused && Tidy(f, ms)
    ensures AtMostOneTimer(Visibility(f, false, ms).timers)
            <==> && (f.flags.publicStarted ==> f.timers.publicIds == [])
                 && (f.flags.authStarted ==> f.timers.authIds == [])
  {
    ResumedNames(f, ms);
    PollsAreDisjoint(ms);
    DuplicatesIff(Names(f.timers.publicIds), Names(f.timers.authIds), Polled(PUBLIC_POLLS, ms), Polled(AUTH_POLLS, ms),
                  f.flags.publicStarted, f.flags.authStarted);
  }

  /** A stopped group has no timer, and a paused one at most the timers of one start. */
  ghost predicate Tidy(f: Fetcher, ms: Intervals) {
    var t := f.timers;
    && (!f.flags.publicStarted ==> t.publicIds == [])
    && (!f.flags.authStarted ==> t.authIds == [])
    && (f.flags.hiddenPaused ==>
          && f.flags.listening
          && (t.publicIds == [] || Names(t.publicIds) == Polled(PUBLIC_POLLS, ms))
          && (t.authIds == [] || Names(t.authIds) == Polled(AUTH_POLLS, ms)))
  }

  lemma StartKeepsTidy(f: Fetcher, ms: Intervals)
    requires Tidy(f, ms)
    ensures Tidy(StartPublic(f, ms), ms) && Tidy(StartAuth(f, ms), ms)
  {
    AddTimersNames(f.timers, PublicGroup, PUBLIC_POLLS, ms);
    AddTimersNames(f.timers, AuthedGroup, AUTH_POLLS, ms);
  }

  lemma VisibilityKeepsTidy(f: Fetcher, hidden: bool, ms: Intervals)
    requires Tidy(f, ms)
    ensures Tidy(Visibility(f, hidden, ms), ms)
  {
    var polled := AddTimers(f.timers, PublicGroup, PUBLIC_POLLS, ms);
    AddTimersNames(f.timers, PublicGroup, PUBLIC_POLLS, ms);
    AddTimersNames(if f.flags.publicStarted then polled else f.timers, AuthedGroup, AUTH_POLLS, ms);
  }

  lemma StopKeepsTidy(f: Fetcher, demo: seq<Update>, ms: Intervals)
    requires Tidy(f, ms)
    ensures Tidy(StopPublic(f), ms) && Tidy(StopAuth(f), ms) && Tidy(StopAll(f), ms)
    ensures Tidy(StartDemo(f, demo), ms)
  {}

  /** Every operation keeps this, starts while paused included. */
  lemma StepKeepsTidy(f: Fetcher, ev: Event, ms: Intervals)
    requires Tidy(f, ms) && Enabled(f, ev)
    ensures Tidy(Apply(f, ev, ms), ms)
  {
    match ev
    case StartPublicPolling => StartKeepsTidy(f, ms);
    case StartAuthenticatedPolling => StartKeepsTidy(f, ms);
    case VisibilityChange(hidden) => VisibilityKeepsTidy(f, hidden, ms);
    case StopPublicPolling => StopKeepsTidy(f, [], ms);
    case StopAuthenticatedPolling => StopKeepsTidy(f, [], ms);
    case StopEverything => StopKeepsTidy(f, [], ms);
    case StartDemoMode(demo) => StopKeepsTidy(f, demo, ms);
    case _ => assert Apply(f, ev, ms).timers == f.timers && Apply(f, ev, ms).flags == f.flags;
  }

  // ----- whole runs -----

  ghost predicate IsRun(bus: Bus, ms: Intervals, evs: seq<Event>, f: Fetcher) {
    if evs == [] then f == Idle(bus)
    else
      var ev := evs[|evs| - 1];
      exists g :: IsRun(bus, ms, evs[..|evs| - 1], g) && Enabled(g, ev) && f == Apply(g, ev, ms)
  }

  lemma {:induction false} FoldKeepsGateShut(b: Bus, updates: seq<Update>)
    requires GateShut(b)
    ensures GateShut(FoldSet(b, updates))
  {
    if updates != [] {
      FoldKeepsGateShut(b, updates[..|updates| - 1]);
      var u := updates[|updates| - 1];
      StepKeepsGateShut(FoldSet(b, updates[..|updates| - 1]), SetOp(u.event, u.data));
    }
  }

  /** Late results, derived writes, starts, stops and demo mode all respect the gate. */
  lemma StepKeepsGate(f: Fetcher, ev: Event, ms: Intervals)
    requires GateShut(f.bus) && Enabled(f, ev)
    ensures GateShut(Apply(f, ev, ms).bus)
  {
    match ev
    case StartDemoMode(demo) => FoldKeepsGateShut(AfterEnable(f.bus), demo);
    case Result(k, data) => StepKeepsGateShut(f.bus, SetOp(Data(f.slots.pipelines[k].src), data));
    case Error(k, error) => StepKeepsGateShut(f.bus, SetOp(Failure("fetch"), error));
    case FollowUp(data) => StepKeepsGateShut(f.bus, SetOp(Data(WalletBalance), data));
    case _ =>
  }

  ghost predicate Sound(f: Fetcher) {
    SlotsMatch(f.slots) && TimersMatch(f.timers) && GateShut(f.bus)
  }

  lemma StepKeepsSound(f: Fetcher, ev: Event, ms: Intervals)
    requires Sound(f) && Enabled(f, ev)
    ensures Sound(Apply(f, ev, ms))
  {
    StepKeepsSlots(f, ev, ms);
    StepKeepsTimers(f, ev, ms);
    StepKeepsGate(f, ev, ms);
  }

  lemma LastEvent(bus: Bus, ms: Intervals, evs: seq<Event>, f: Fetcher) returns (g: Fetcher)
    requires evs != [] && IsRun(bus, ms, evs, f)
    ensures IsRun(bus, ms, evs[..|evs| - 1], g) && Enabled(g, evs[|evs| - 1])
    ensures f == Apply(g, evs[|evs| - 1], ms)
  {
    g :| IsRun(bus, ms, evs[..|evs| - 1], g) && Enabled(g, evs[|evs| - 1]) && f == Apply(g, evs[|evs| - 1], ms);
  }

  /** On every run over a started bus: the slot counter is right and at most three, the
      recorded timers are the running ones, and the authenticated domain is at its default
      whenever authentication is off, however late results arrive. */
  lemma {:induction false} RunsAreSound(bus: Bus, ms: Intervals, evs: seq<Event>, f: Fetcher)
    requires GateShut(bus) && IsRun(bus, ms, evs, f)
    ensures Sound(f)
    ensures !f.bus.authEnabled ==> AuthedOf(f.bus) == DEFAULT_AUTHED
  {
    if evs == [] {
      assert TimerIds([]) == {};
    } else {
      var g := LastEvent(bus, ms, evs, f);
      RunsAreSound(bus, ms, evs[..|evs| - 1], g);
      StepKeepsSound(g, evs[|evs| - 1], ms);
    }
  }

  /** A run in which no start takes effect while polling is paused. */
  ghost predicate IsCalmRun(bus: Bus, ms: Intervals, evs: seq<Event>, f: Fetcher) {
    if evs == [] then f == Idle(bus)
    else
      var ev := evs[|evs| - 1];
      exists g :: IsCalmRun(bus, ms, evs[..|evs| - 1], g) && Enabled(g, ev)
                  && !StartsWhilePaused(g, ev) && f == Apply(g, ev, ms)
  }

  lemma {:induction false} CalmRunsPollOnce(bus: Bus, ms: Intervals, evs: seq<Event>, f: Fetcher)
    requires IsCalmRun(bus, ms, evs, f)
    ensures PolledOnce(f, ms) && AtMostOneTimer(f.timers)
  {
    if evs != [] {
      var g :| IsCalmRun(bus, ms, evs[..|evs| - 1], g) && Enabled(g, evs[|evs| - 1])
               && !StartsWhilePaused(g, evs[|evs| - 1]) && f == Apply(g, evs[|evs| - 1], ms);
      CalmRunsPollOnce(bus, ms, evs[..|evs| - 1], g);
      StepKeepsPolledOnce(g, evs[|evs| - 1], ms);
    }
    PolledOnceIsAtMostOne(f, ms);
  }

  // ----- duplicate timers on runs -----

  lemma {:induction false} RunsAreTidy(bus: Bus, ms: Intervals, evs: seq<Event>, f: Fetcher)
    requires IsRun(bus, ms, evs, f)
    ensures Tidy(f, ms)
  {
    if evs != [] {
      var g := LastEvent(bus, ms, evs, f);
      RunsAreTidy(bus, ms, evs[..|evs| - 1], g);
      StepKeepsTidy(g, evs[|evs| - 1], ms);
    }
  }

  /** On every run that ends paused: showing the tab duplicates timers exactly when a started
      group has recorded timers since polling was paused. */
  lemma ResumeDuplicatesIff(bus: Bus, ms: Intervals, evs: seq<Event>, f: Fetcher)
    requires IsRun(bus, ms, evs, f) && f.flags.hiddenPaused
    ensures AtMostOneTimer(Apply(f, VisibilityChange(false), ms).timers)
            <==> && (f.flags.publicStarted ==> f.timers.publicIds == [])
                 && (f.flags.authStarted ==> f.timers.authIds == [])
  {
    RunsAreTidy(bus, ms, evs, f);
    ResumeRepeatsIff(f, ms);
  }

  lemma RunGoesOn(bus: Bus, ms: Intervals, evs: seq<Event>, f: Fetcher, ev: Event)
    requires IsRun(bus, ms, evs, f) && Enabled(f, ev)
    ensures IsRun(bus, ms, evs + [ev], Apply(f, ev, ms))
  {
    var all := evs + [ev];
    assert all[..|all| - 1] == evs && all[|all| - 1] == ev;
  }

  const HIDDEN: seq<Event> := [StartPublicPolling] + [VisibilityChange(true)]

  /** Signing in behind a hidden tab: after it is shown, every authenticated source has two timers. */
  lemma HiddenStartDuplicates(bus: Bus, ms: Intervals) returns (f: Fetcher)
    ensures IsRun(bus, ms, HIDDEN + [StartAuthenticatedPolling] + [VisibilityChange(false)], f)
    ensures Names(f.timers.authIds) == Polled(AUTH_POLLS, ms) + Polled(AUTH_POLLS, ms)
    ensures Polled(AUTH_POLLS, ms) != [] ==> !AtMostOneTimer(f.timers)
  {
    var g := HiddenRun(bus, ms);
    var h := SignedIn(g, ms);
    f := Visibility(h, false, ms);
    RunGoesOn(bus, ms, HIDDEN, g, StartAuthenticatedPolling);
    RunGoesOn(bus, ms, HIDDEN + [StartAuthenticatedPolling], h, VisibilityChange(false));
    ResumedNames(h, ms);
    if Polled(AUTH_POLLS, ms) != [] {
      SecondTimers(f, Polled(AUTH_POLLS, ms));
    }
  }

  lemma SignedIn(g: Fetcher, ms: Intervals) returns (h: Fetcher)
    requires g.flags == Flags(true, false, false, true, true) && g.timers.authIds == []
    ensures h == StartAuth(g, ms) && h.flags == Flags(true, true, false, true, true)
    ensures Names(h.timers.authIds) == Polled(AUTH_POLLS, ms)
  {
    h := StartAuth(g, ms);
    AddTimersNames(g.timers, AuthedGroup, AUTH_POLLS, ms);
  }

  lemma HiddenRun(bus: Bus, ms: Intervals) returns (g: Fetcher)
    ensures IsRun(bus, ms, HIDDEN, g)
    ensures g.flags == Flags(true, false, false, true, true) && g.timers.authIds == []
  {
    var f := StartPublic(Idle(bus), ms);
    g := Visibility(f, true, ms);
    RunGoesOn(bus, ms, [], Idle(bus), StartPublicPolling);
    assert [] + [StartPublicPolling] == [StartPublicPolling];
    RunGoesOn(bus, ms, [StartPublicPolling], f, VisibilityChange(true));
  }

  lemma SecondTimers(f: Fetcher, p: seq<Topic>)
    requires Names(f.timers.authIds) == p + p && p != []
    ensures !AtMostOneTimer(f.timers)
  {
    TwiceIsNotOnce(Names(f.timers.publicIds), p, []);
    assert Names(f.timers.publicIds) + (p + p) + [] == Names(f.timers.publicIds) + Names(f.timers.authIds);
  }

  // ----- exactly which runs poll a source twice -----

  /** Showing the tab while a started group has recorded timers since the pause. */
  predicate Repeats(f: Fetcher, ev: Event) {
    && ev == VisibilityChange(false) && f.flags.hiddenPaused && f.flags.listening
    && ((f.flags.publicStarted && f.timers.publicIds != []) || (f.flags.authStarted && f.timers.authIds != []))
  }

  /** Every group has the timers of one start, or none. */
  ghost predicate StartedOnce(f: Fetcher, ms: Intervals) {
    && Tidy(f, ms)
    && (f.timers.publicIds == [] || Names(f.timers.publicIds) == Polled(PUBLIC_POLLS, ms))
    && (f.timers.authIds == [] || Names(f.timers.authIds) == Polled(AUTH_POLLS, ms))
  }

  lemma ResumeStartsOnceIff(f: Fetcher, ms: Intervals)
    requires StartedOnce(f, ms) && f.flags.hiddenPaused
    ensures var ev := VisibilityChange(false);
            && (AtMostOneTimer(Apply(f, ev, ms).timers) <==> !Repeats(f, ev))
            && (!Repeats(f, ev) ==> StartedOnce(Apply(f, ev, ms), ms))
  {
    ResumeRepeatsIff(f, ms);
    ResumedNames(f, ms);
    VisibilityKeepsTidy(f, false, ms);
  }

  /** A start finds its group without timers, so it records those of one start. */
  lemma StartsOnce(f: Fetcher, ms: Intervals)
    requires StartedOnce(f, ms)
    ensures StartedOnce(StartPublic(f, ms), ms) && StartedOnce(StartAuth(f, ms), ms)
  {
    StartKeepsTidy(f, ms);
    AddTimersNames(f.timers, PublicGroup, PUBLIC_POLLS, ms);
    AddTimersNames(f.timers, AuthedGroup, AUTH_POLLS, ms);
  }

  lemma OtherEventsStartNothing(f: Fetcher, ev: Event, ms: Intervals)
    requires Enabled(f, ev) && !ev.StartPublicPolling? && !ev.StartAuthenticatedPolling?
    requires !(ev == VisibilityChange(false) && f.flags.hiddenPaused)
    ensures var t, u := f.timers, Apply(f, ev, ms).timers;
            (u.publicIds == t.publicIds || u.publicIds == []) && (u.authIds == t.authIds || u.authIds == [])
  {}

  /** From one timer for each source at most, a step leaves that exactly if it is no repeat. */
  lemma StepStartsOnceIff(f: Fetcher, ev: Event, ms: Intervals)
    requires StartedOnce(f, ms) && Enabled(f, ev)
    ensures AtMostOneTimer(Apply(f, ev, ms).timers) <==> !Repeats(f, ev)
    ensures !Repeats(f, ev) ==> StartedOnce(Apply(f, ev, ms), ms)
  {
    if ev == VisibilityChange(false) && f.flags.hiddenPaused {
      ResumeStartsOnceIff(f, ms);
    } else {
      if ev.StartPublicPolling? || ev.StartAuthenticatedPolling? {
        StartsOnce(f, ms);
      } else {
        OtherEventsStartNothing(f, ev, ms);
        StepKeepsTidy(f, ev, ms);
      }
      OnceIsAtMostOne(Apply(f, ev, ms).timers, ms);
    }
  }

  /** The states a run passes. */
  ghost predicate IsTrace(bus: Bus, ms: Intervals, evs: seq<Event>, fs: seq<Fetcher>) {
    && |fs| == |evs| + 1 && fs[0] == Idle(bus)
    && forall i :: 0 <= i < |evs| ==> Enabled(fs[i], evs[i]) && fs[i + 1] == Apply(fs[i], evs[i], ms)
  }

  lemma {:induction false} NoRepeatSoFar(bus: Bus, ms: Intervals, evs: seq<Event>, fs: seq<Fetcher>, k: nat)
    requires IsTrace(bus, ms, evs, fs) && k < |fs|
    requires forall i: nat :: i < k ==> AtMostOneTimer(fs[i + 1].timers) || !Repeats(fs[i], evs[i])
    ensures StartedOnce(fs[k], ms)
  {
    if k > 0 {
      NoRepeatSoFar(bus, ms, evs, fs, k - 1);
      assert AtMostOneTimer(fs[k - 1 + 1].timers) || !Repeats(fs[k - 1], evs[k - 1]);
      StepStartsOnceIff(fs[k - 1], evs[k - 1], ms);
    }
  }

  /** On every run, each source has at most one timer at every moment exactly when the tab is
      never shown while a started group has recorded timers since the pause. */
  lemma PollOnceIff(bus: Bus, ms: Intervals, evs: seq<Event>, fs: seq<Fetcher>)
    requires IsTrace(bus, ms, evs, fs)
    ensures (forall i: nat :: i < |fs| ==> AtMostOneTimer(fs[i].timers))
            <==> forall i: nat :: i < |evs| ==> !Repeats(fs[i], evs[i])
  {
    if forall i: nat :: i < |fs| ==> AtMostOneTimer(fs[i].timers) {
      forall i: nat | i < |evs|
        ensures !Repeats(fs[i], evs[i])
      {
        NoRepeatSoFar(bus, ms, evs, fs, i);
        StepStartsOnceIff(fs[i], evs[i], ms);
        assert AtMostOneTimer(fs[i + 1].timers);
      }
    }
    if forall i: nat :: i < |evs| ==> !Repeats(fs[i], evs[i]) {
      forall i: nat | i < |fs|
        ensures AtMostOneTimer(fs[i].timers)
      {
        NoRepeatSoFar(bus, ms, evs, fs, i);
        OnceIsAtMostOne(fs[i].timers, ms);
      }
    }
  }
}
