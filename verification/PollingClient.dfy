/** DataFetcherV2 as the source runs it: an object whose methods update its fields and write
    to the bus. Each method is one operation of the model in `DataFetcher`. */
module PollingClient {
  import opened Store = BridgeBus
  import opened DataFetcher

  lemma TakeOne(s: Slots, x: Topic)
    ensures TakeAll(s, [x]) == Take(s, x)
  {
    assert [x][..|[x]| - 1] == [];
  }

  lemma AddOne(t: Timers, group: Group, x: Topic, ms: Intervals)
    ensures AddTimers(t, group, [x], ms) == AddTimer(t, group, x, ms(x))
  {
    assert [x][..|[x]| - 1] == [];
  }

  lemma FetchAppend(f: Fetcher, srcs: seq<Topic>, x: Topic)
    ensures Fetch(f, srcs + [x]) == Fetch(Fetch(f, srcs), [x])
  {
    assert (srcs + [x])[..|srcs + [x]| - 1] == srcs;
    TakeOne(TakeAll(f.slots, srcs), x);
  }

  lemma PollsAppend(f: Fetcher, group: Group, srcs: seq<Topic>, x: Topic, ms: Intervals)
    ensures StartPolls(f, group, srcs + [x], ms) == StartPolls(StartPolls(f, group, srcs, ms), group, [x], ms)
  {
    FetchAppend(f, srcs, x);
    assert (srcs + [x])[..|srcs + [x]| - 1] == srcs;
    AddOne(AddTimers(f.timers, group, srcs, ms), group, x, ms);
  }

  class DataFetcherV2 {
    const bus: BridgeBus
    const ms: Intervals
    var publicStarted: bool
    var authStarted: bool
    var demoStarted: bool
    var hiddenPaused: bool
    /** Whether the visibility handler is attached. */
    var listening: bool
    var publicIds: seq<Timer>
    var authIds: seq<Timer>
    /** The browser's running timers, and the id it hands out next. */
    var live: set<nat>
    var nextId: nat
    var activeFetches: int
    var pipelines: seq<Pipeline>
    var fetchingReadiness: bool
    var followUps: nat

    ghost function Abs(): Fetcher
      reads this, bus
    {
      Fetcher(Flags(publicStarted, authStarted, demoStarted, hiddenPaused, listening),
              Timers(publicIds, authIds, live, nextId),
              Slots(activeFetches, pipelines),
              fetchingReadiness, followUps, bus.Abs())
    }

    constructor (bus: BridgeBus, ms: Intervals)
      ensures this.bus == bus && this.ms == ms
      ensures Abs() == Idle(bus.Abs())
    {
      this.bus, this.ms := bus, ms;
      publicStarted, authStarted, demoStarted, hiddenPaused, listening := false, false, false, false, true;
      publicIds, authIds, live, nextId := [], [], {}, 0;
      activeFetches, pipelines, fetchingReadiness, followUps := 0, [], false, 0;
    }

    method FetchAndTransform(src: Topic)
      modifies this`activeFetches, this`pipelines
      ensures Abs() == Fetch(old(Abs()), [src])
    {
      TakeOne(Abs().slots, src);
      if demoStarted {
        return;
      }
      if activeFetches >= MAX_CONCURRENT {
        return;
      }
      activeFetches := activeFetches + 1;
      pipelines := pipelines + [Pipeline(src, false)];
    }

    method RequestReadiness()
      modifies this`activeFetches, this`pipelines, this`fetchingReadiness
      ensures Abs() == FetchReadiness(old(Abs()))
    {
      if fetchingReadiness {
        return;
      }
      fetchingReadiness := true;
      FetchAndTransform(Readiness);
    }

    method StartInterval(group: Group, name: Topic)
      modifies this`activeFetches, this`pipelines, this`publicIds, this`authIds, this`live, this`nextId
      ensures Abs() == StartPolls(old(Abs()), group, [name], ms)
    {
      AddOne(Abs().timers, group, name, ms);
      FetchAndTransform(name);
      if ms(name) > 0 {
        var entry := Timer(name, nextId);
        live, nextId := live + {nextId}, nextId + 1;
        if group.PublicGroup? {
          publicIds := publicIds + [entry];
        } else {
          authIds := authIds + [entry];
        }
      }
    }

    method StartPublicTimers()
      modifies this`activeFetches, this`pipelines, this`publicIds, this`authIds, this`live, this`nextId
      ensures Abs() == StartPolls(old(Abs()), PublicGroup, PUBLIC_POLLS, ms)
    {
      assert PUBLIC_POLLS == [Ticker] + [Markets];
      PollsAppend(Abs(), PublicGroup, [Ticker], Markets, ms);
      StartInterval(PublicGroup, Ticker);
      StartInterval(PublicGroup, Markets);
    }

    method StartAuthTimers()
      modifies this`activeFetches, this`pipelines, this`publicIds, this`authIds, this`live, this`nextId
      ensures Abs() == StartPolls(old(Abs()), AuthedGroup, AUTH_POLLS, ms)
    {
      assert AUTH_POLLS == [Activities] + [Positions] + [WalletBalance];
      PollsAppend(Abs(), AuthedGroup, [Activities], Positions, ms);
      PollsAppend(Abs(), AuthedGroup, [Activities] + [Positions], WalletBalance, ms);
      StartInterval(AuthedGroup, Activities);
      StartInterval(AuthedGroup, Positions);
      StartInterval(AuthedGroup, WalletBalance);
    }

    method ClearIntervalGroup(group: Group)
      modifies this`publicIds, this`authIds, this`live
      ensures Abs() == ClearGroup(old(Abs()), group)
    {
      var entries;
      if group.PublicGroup? {
        entries := publicIds;
        publicIds := [];
      } else {
        entries := authIds;
        authIds := [];
      }
      for i := 0 to |entries|
        invariant live == old(live) - TimerIds(entries[..i])
        modifies this`live
      {
        assert entries[..i + 1] == entries[..i] + [entries[i]];
        TimerIdsAppend(entries[..i], entries[i]);
        live := live - {entries[i].id};
      }
      assert entries[..|entries|] == entries;
    }

    method StartPublicPolling()
      modifies this
      ensures Abs() == StartPublic(old(Abs()), ms)
    {
      if publicStarted {
        return;
      }
      publicStarted := true;
      if demoStarted {
        return;
      }
      RequestReadiness();
      StartPublicTimers();
      FetchAndTransform(Proposals);
    }

    method FetchOneShots()
      modifies this`activeFetches, this`pipelines
      ensures Abs() == Fetch(old(Abs()), ONE_SHOTS)
    {
      ghost var f := Abs();
      assert ONE_SHOTS == [Strategies] + [Proposals] + [Community] + [Templates] + [NodeTypes];
      FetchAppend(f, [Strategies], Proposals);
      FetchAppend(f, [Strategies] + [Proposals], Community);
      FetchAppend(f, [Strategies] + [Proposals] + [Community], Templates);
      FetchAppend(f, [Strategies] + [Proposals] + [Community] + [Templates], NodeTypes);
      FetchAndTransform(Strategies);
      FetchAndTransform(Proposals);
      FetchAndTransform(Community);
      FetchAndTransform(Templates);
      FetchAndTransform(NodeTypes);
    }

    method StartAuthenticatedPolling()
      modifies this, bus
      ensures Abs() == StartAuth(old(Abs()), ms)
    {
      if authStarted {
        return;
      }
      authStarted := true;
      StartAuthTimers();
      FetchOneShots();
      bus.EnableAuthenticated();
    }

    method StopAuthenticatedPolling()
      modifies this, bus
      ensures Abs() == StopAuth(old(Abs()))
    {
      authStarted := false;
      ClearIntervalGroup(AuthedGroup);
      bus.DisableAuthenticated();
    }

    method StopPublicPolling()
      modifies this
      ensures Abs() == StopPublic(old(Abs()))
    {
      publicStarted := false;
      ClearIntervalGroup(PublicGroup);
    }

    method StopEverything()
      modifies this, bus
      ensures Abs() == StopAll(old(Abs()))
    {
      StopPublicPolling();
      StopAuthenticatedPolling();
      listening := false;
      hiddenPaused := false;
    }

    method OnVisibilityChange(hidden: bool)
      modifies this
      ensures Abs() == Visibility(old(Abs()), hidden, ms)
    {
      if !listening {
        return;
      }
      if hidden {
        if publicStarted || authStarted {
          hiddenPaused := true;
          ClearIntervalGroup(PublicGroup);
          ClearIntervalGroup(AuthedGroup);
        }
      } else if hiddenPaused {
        hiddenPaused := false;
        if publicStarted {
          StartPublicTimers();
        }
        if authStarted {
          StartAuthTimers();
        }
      }
    }

    method BeginDemo(demo: seq<Update>)
      modifies this, bus
      ensures Abs() == StartDemo(old(Abs()), demo)
    {
      if demoStarted {
        return;
      }
      demoStarted := true;
      if publicStarted {
        ClearIntervalGroup(PublicGroup);
      }
      bus.EnableAuthenticated();
      ghost var before := Abs();
      for i := 0 to |demo|
        invariant Abs() == before.(bus := FoldSet(before.bus, demo[..i]))
      {
        assert demo[..i + 1][..i] == demo[..i];
        bus.Set(demo[i].event, demo[i].data);
      }
      assert demo[..|demo|] == demo;
    }

    method OnResult(k: nat, data: Value)
      requires k < |pipelines|
      modifies this`pipelines, bus
      ensures Abs() == Deliver(old(Abs()), k, data)
    {
      bus.Set(Data(pipelines[k].src), data);
      pipelines := pipelines[k := pipelines[k].(settling := true)];
    }

    method OnError(k: nat, error: Value)
      requires k < |pipelines|
      modifies this, bus
      ensures Abs() == Fail(old(Abs()), k, error)
    {
      var src := pipelines[k].src;
      bus.Set(Failure("fetch"), error);
      pipelines := pipelines[k := pipelines[k].(settling := true)];
      if publicStarted && src != Readiness {
        RequestReadiness();
      }
    }

    method OnSettled(k: nat, followUp: bool)
      requires k < |pipelines|
      modifies this
      ensures Abs() == Release(old(Abs()), k, followUp)
    {
      if followUp && pipelines[k].src == Positions {
        followUps := followUps + 1;
      }
      activeFetches := activeFetches - 1;
      pipelines := pipelines[..k] + pipelines[k + 1..];
    }
  }
}
