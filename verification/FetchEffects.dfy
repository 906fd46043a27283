/** What the polling client does for its callers: what each event fetches, where results go, and
    what stopping, pausing and demo mode leave running. */
module FetchEffects {
  import opened Wrappers
  import opened Bridge = BridgeBus
  import opened BusEffects
  import opened DataFetcher

  // ----- what is fetched -----

  /** The sources an event asks for, in order, outside demo mode. */
  function Asks(f: Fetcher, ev: DataFetcher.Event): seq<Topic>
    requires ev.Error? ==> ev.k < |f.slots.pipelines|
  {
    match ev
    case StartPublicPolling => if f.flags.publicStarted then [] else PublicAsks(f)
    case StartAuthenticatedPolling => if f.flags.authStarted then [] else AUTH_POLLS + ONE_SHOTS
    case VisibilityChange(hidden) =>
      if hidden || !f.flags.listening || !f.flags.hiddenPaused then []
      else (if f.flags.publicStarted then PUBLIC_POLLS else []) + if f.flags.authStarted then AUTH_POLLS else []
    case Tick(src) => [src]
    case Visit(src) => if f.flags.authStarted then [src] else []
    case Transaction => PUBLIC_POLLS + if f.flags.authStarted then [Positions, WalletBalance, Activities] else []
    case Error(k, _) =>
      if f.flags.publicStarted && !f.fetchingReadiness && f.slots.pipelines[k].src != Readiness then [Readiness] else []
    case _ => []
  }

  /** The slots once the event's own pipeline is dealt with. */
  function Handled(s: Slots, ev: DataFetcher.Event): Slots
    requires (ev.Result? || ev.Error? || ev.Settled?) ==> ev.k < |s.pipelines|
  {
    match ev
    case Result(k, _) => MarkSettling(s, k)
    case Error(k, _) => MarkSettling(s, k)
    case Settled(k, _) => Free(s, k)
    case _ => s
  }

  lemma FetchTakes(f: Fetcher, srcs: seq<Topic>)
    ensures Fetch(f, srcs).slots == if f.flags.demoStarted then f.slots else TakeAll(f.slots, srcs)
    ensures Fetch(f, srcs) == f.(slots := Fetch(f, srcs).slots)
  {}

  lemma NothingTaken(s: Slots)
    ensures TakeAll(s, []) == s
  {}

  lemma StartsTake(f: Fetcher, ms: Intervals)
    requires !f.flags.demoStarted
    ensures StartPublic(f, ms).slots == TakeAll(f.slots, Asks(f, StartPublicPolling))
    ensures StartAuth(f, ms).slots == TakeAll(f.slots, Asks(f, StartAuthenticatedPolling))
  {
    var first := if f.fetchingReadiness then [] else [Readiness];
    TakeAllConcat(f.slots, first, PUBLIC_POLLS);
    TakeAllConcat(f.slots, first + PUBLIC_POLLS, [Proposals]);
    TakeAllConcat(f.slots, AUTH_POLLS, ONE_SHOTS);
    NothingTaken(f.slots);
  }

  lemma ResumeTakes(f: Fetcher, hidden: bool, ms: Intervals)
    requires !f.flags.demoStarted
    ensures Visibility(f, hidden, ms).slots == TakeAll(f.slots, Asks(f, VisibilityChange(hidden)))
  {
    var a := if f.flags.publicStarted then PUBLIC_POLLS else [];
    var b := if f.flags.authStarted then AUTH_POLLS else [];
    TakeAllConcat(f.slots, a, b);
    NothingTaken(f.slots);
    NothingTaken(TakeAll(f.slots, a));
  }

  lemma ErrorTakes(f: Fetcher, k: nat, error: Value, ms: Intervals)
    requires !f.flags.demoStarted && k < |f.slots.pipelines|
    ensures Fail(f, k, error).slots == TakeAll(MarkSettling(f.slots, k), Asks(f, Error(k, error)))
  {
    NothingTaken(MarkSettling(f.slots, k));
  }

  lemma TransactionTakes(f: Fetcher)
    requires !f.flags.demoStarted
    ensures AfterTransaction(f).slots == TakeAll(f.slots, Asks(f, Transaction))
  {
    TakeAllConcat(f.slots, PUBLIC_POLLS, [Positions, WalletBalance, Activities]);
    assert PUBLIC_POLLS + [] == PUBLIC_POLLS;
  }

  lemma StepTakes(f: Fetcher, ev: DataFetcher.Event, ms: Intervals)
    requires Enabled(f, ev) && !f.flags.demoStarted
    ensures Apply(f, ev, ms).slots == TakeAll(Handled(f.slots, ev), Asks(f, ev))
  {
    NothingTaken(Handled(f.slots, ev));
    match ev
    case StartPublicPolling => StartsTake(f, ms);
    case StartAuthenticatedPolling => StartsTake(f, ms);
    case VisibilityChange(hidden) => ResumeTakes(f, hidden, ms);
    case Error(k, error) => ErrorTakes(f, k, error, ms);
    case Transaction => TransactionTakes(f);
    case _ =>
  }

  lemma HandledMatches(f: Fetcher, ev: DataFetcher.Event)
    requires SlotsMatch(f.slots) && Enabled(f, ev)
    ensures SlotsMatch(Handled(f.slots, ev))
  {}

  /** Outside demo mode, every event admits the first of what it asks for that find a slot, and
      touches no other fetch under way. */
  lemma StepAdmits(f: Fetcher, ev: DataFetcher.Event, ms: Intervals)
    requires SlotsMatch(f.slots) && Enabled(f, ev) && !f.flags.demoStarted
    ensures var s, asked := Handled(f.slots, ev), Asks(f, ev);
            var n := Min(|asked|, MAX_CONCURRENT - s.active);
            Apply(f, ev, ms).slots == Slots(s.active + n, s.pipelines + AsPipelines(asked[..n]))
  {
    StepTakes(f, ev, ms);
    HandledMatches(f, ev);
    BurstAdmitsFirst(Handled(f.slots, ev), Asks(f, ev));
  }

  /** Demo mode is for good, and from then on no fetch starts. */
  lemma DemoFetchesNothing(f: Fetcher, ev: DataFetcher.Event, ms: Intervals)
    requires Enabled(f, ev) && f.flags.demoStarted
    ensures Apply(f, ev, ms).flags.demoStarted && Apply(f, ev, ms).slots == Handled(f.slots, ev)
  {}

  /** While readiness is being checked, asking again changes nothing; once the check is done, the
      next request fetches it. */
  lemma ReadinessOnce(f: Fetcher, ms: Intervals)
    ensures FetchReadiness(FetchReadiness(f)) == FetchReadiness(f)
    ensures Enabled(f, ReadinessDone) && !f.flags.demoStarted ==>
              var g := Apply(f, ReadinessDone, ms);
              FetchReadiness(g).slots == Take(g.slots, Readiness) && FetchReadiness(g).fetchingReadiness
  {
    NothingTaken(f.slots);
  }

  // ----- where results go -----

  /** What public polling polls, and the readiness it checks, is stored without signing in; the
      proposals that it also fetches are not. */
  lemma PublicSourcesNeedNoSignIn(b: Bus, t: Topic, data: Value)
    requires t in [Readiness] + PUBLIC_POLLS && b.started && !b.authEnabled
    ensures var c := AfterSet(b, Data(t), data);
            TargetOf(t).key.Some? && Field(InDomain(c, Public), TargetOf(t).key.value) == Some(data)
    ensures AfterSet(b, Data(Proposals), data) == b
  {
    assert ([Readiness] + PUBLIC_POLLS)[0] == Readiness;
    SetStoresKey(b, t, data);
  }

  /** The result of a keyed source is readable under its key at once, unless it is authenticated
      data on a started bus that is signed out; its slot stays taken until it settles. */
  lemma ResultIsReadable(f: Fetcher, k: nat, data: Value, ms: Intervals)
    requires Enabled(f, Result(k, data)) && TargetOf(f.slots.pipelines[k].src).key.Some?
    ensures var g, t := Apply(f, Result(k, data), ms), TargetOf(f.slots.pipelines[k].src);
            && g.slots.active == f.slots.active
            && (if t.domain == Authed && f.bus.started && !f.bus.authEnabled then g.bus == f.bus
                else forall key ::
                  Field(InDomain(g.bus, t.domain), key)
                  == if key == t.key.value then Some(data) else Field(InDomain(f.bus, t.domain), key))
  {
    var src := f.slots.pipelines[k].src;
    if TargetOf(src).domain != Authed || !f.bus.started || f.bus.authEnabled {
      SetStoresKey(f.bus, src, data);
    }
  }

  /** An error becomes the newest in the log and leaves all data as it was. */
  lemma ErrorIsLogged(f: Fetcher, k: nat, error: Value, ms: Intervals)
    requires Enabled(f, Error(k, error))
    ensures var b := Apply(f, Error(k, error), ms).bus;
            && b.store.domains == f.bus.store.domains
            && b.store.errors != [] && b.store.errors[|b.store.errors| - 1] == error
  {
    ErrorIsRecorded(f.bus, "fetch", error);
  }

  /** A wallet balance derived from positions is written like a fetched one. */
  lemma FollowUpIsReadable(f: Fetcher, data: Value, ms: Intervals)
    requires Enabled(f, FollowUp(data)) && (!f.bus.started || f.bus.authEnabled)
    ensures Field(AuthedOf(Apply(f, FollowUp(data), ms).bus), "walletBalance") == Some(data)
  {
    SetStoresKey(f.bus, WalletBalance, data);
  }

  /** Settling gives back the slot of that fetch and of no other; only positions can owe a
      derived balance. */
  lemma SettlingFrees(f: Fetcher, k: nat, followUp: bool, ms: Intervals)
    requires Enabled(f, Settled(k, followUp))
    ensures var g := Apply(f, Settled(k, followUp), ms);
            && g.slots.active == f.slots.active - 1
            && multiset(g.slots.pipelines) + multiset{f.slots.pipelines[k]} == multiset(f.slots.pipelines)
            && (g.followUps == f.followUps + 1 <==> followUp && f.slots.pipelines[k].src == Positions)
  {
    var p := f.slots.pipelines;
    assert p == p[..k] + [p[k]] + p[k + 1..];
  }

  // ----- starting, stopping, pausing -----

  /** A start records a timer for every polled source of its group, and signing in opens the bus. */
  lemma StartRecordsTimers(f: Fetcher, ms: Intervals)
    ensures !f.flags.publicStarted && !f.flags.demoStarted ==>
              Names(StartPublic(f, ms).timers.publicIds) == Names(f.timers.publicIds) + Polled(PUBLIC_POLLS, ms)
    ensures !f.flags.authStarted ==>
              && Names(StartAuth(f, ms).timers.authIds) == Names(f.timers.authIds) + Polled(AUTH_POLLS, ms)
              && StartAuth(f, ms).bus.authEnabled
    ensures StartPublic(f, ms).flags.publicStarted && StartAuth(f, ms).flags.authStarted
  {
    AddTimersNames(f.timers, PublicGroup, PUBLIC_POLLS, ms);
    AddTimersNames(f.timers, AuthedGroup, AUTH_POLLS, ms);
  }

  /** What was stopped can be started again, with the timers of one start. */
  lemma StopThenStart(f: Fetcher, ms: Intervals)
    ensures !f.flags.demoStarted ==>
              Names(StartPublic(StopPublic(f), ms).timers.publicIds) == Polled(PUBLIC_POLLS, ms)
    ensures Names(StartAuth(StopAuth(f), ms).timers.authIds) == Polled(AUTH_POLLS, ms)
    ensures !StopAuth(f).bus.authEnabled && StartAuth(StopAuth(f), ms).bus.authEnabled
  {
    StartRecordsTimers(StopPublic(f), ms);
    StartRecordsTimers(StopAuth(f), ms);
    assert [] + Polled(PUBLIC_POLLS, ms) == Polled(PUBLIC_POLLS, ms);
    assert [] + Polled(AUTH_POLLS, ms) == Polled(AUTH_POLLS, ms);
  }

  /** Hiding the tab stops every timer of both groups; showing it brings back those of the started
      groups and restores the flags. */
  lemma HideThenShow(f: Fetcher, ms: Intervals)
    requires f.flags.listening && !f.flags.hiddenPaused && (f.flags.publicStarted || f.flags.authStarted)
    ensures var g := Visibility(f, true, ms);
            var h := Visibility(g, false, ms);
            && g.timers.publicIds == [] && g.timers.authIds == [] && h.flags == f.flags
            && Names(h.timers.publicIds) == (if f.flags.publicStarted then Polled(PUBLIC_POLLS, ms) else [])
            && Names(h.timers.authIds) == (if f.flags.authStarted then Polled(AUTH_POLLS, ms) else [])
  {
    var g := Visibility(f, true, ms);
    ResumedNames(g, ms);
    assert forall p: seq<Topic> :: [] + p == p;
  }

  /** After stopping everything, nothing is started, the bus is signed out, and the tab no longer
      matters. */
  lemma StopAllDetaches(f: Fetcher, hidden: bool, ms: Intervals)
    ensures var g := StopAll(f);
            && !g.flags.publicStarted && !g.flags.authStarted && !g.bus.authEnabled
            && Visibility(g, hidden, ms) == g
  {}

  /** Beginning demo mode signs in, keeps no public timer, and leaves each keyed datum it writes
      last readable. */
  lemma DemoShowsData(f: Fetcher, demo: seq<Update>, t: Topic, data: Value)
    requires !f.flags.demoStarted && TargetOf(t).key.Some?
    ensures var g := StartDemo(f, demo + [Update(Data(t), data)]);
            && g.flags.demoStarted && g.bus.authEnabled && (f.flags.publicStarted ==> g.timers.publicIds == [])
            && Field(InDomain(g.bus, TargetOf(t).domain), TargetOf(t).key.value) == Some(data)
  {
    var all := demo + [Update(Data(t), data)];
    var b := FoldSet(AfterEnable(f.bus), demo);
    assert all[..|all| - 1] == demo;
    FoldKeepsGate(AfterEnable(f.bus), demo);
    SetStoresKey(b, t, data);
  }
}
