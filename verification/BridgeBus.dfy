/** BridgeBus: the reactive store behind the interface, with its authentication gate, its
    bounded error log and its batch update. */
module BridgeBus {
  import opened Wrappers

  /** Plain data; `Obj` is what a whole-domain update merges in. */
  datatype Value = Null | Atom(text: string) | Obj(fields: map<string, Value>)

  datatype Domain = Public | Authed | Wallet | Permit

  datatype Topic =
    | Ticker | Markets | Activities | Positions | Strategies | Proposals | Community | Templates
    | NodeTypes | WalletBalance | Readiness
    | WalletConnected | WalletDisconnected | WalletNetworkChanged
    | PermitGranted | PermitExpired | PermitTick

  datatype Event = Data(topic: Topic) | Failure(source: string) | ResetData | Unmapped(name: string)

  /** The domain an event updates and the key it sets; no key merges the whole domain. */
  datatype Target = Target(domain: Domain, key: Option<string>)

  function TargetOf(t: Topic): Target {
    match t
    case Ticker => Target(Public, Some("ticker"))
    case Markets => Target(Public, Some("markets"))
    case Activities => Target(Public, Some("activities"))
    case Positions => Target(Authed, Some("positions"))
    case Strategies => Target(Authed, Some("strategies"))
    case Proposals => Target(Authed, Some("proposals"))
    case Community => Target(Authed, Some("community"))
    case Templates => Target(Authed, Some("templates"))
    case NodeTypes => Target(Authed, Some("nodeTypes"))
    case WalletBalance => Target(Authed, Some("walletBalance"))
    case Readiness => Target(Public, Some("readiness"))
    case WalletConnected => Target(Wallet, None)
    case WalletDisconnected => Target(Wallet, None)
    case WalletNetworkChanged => Target(Wallet, None)
    case PermitGranted => Target(Permit, None)
    case PermitExpired => Target(Permit, None)
    case PermitTick => Target(Permit, None)
  }

  type Fields = map<string, Value>

  datatype Store = Store(domains: map<Domain, Fields>, dataVersion: nat, errors: seq<Value>)

  const DEFAULT_AUTHED: Fields :=
    map["positions" := Null, "strategies" := Null, "proposals" := Null, "nodeTypes" := Null, "walletBalance" := Null]

  const DEFAULT_STORE := Store(
    map[
      Public := map["ticker" := Null, "markets" := Null, "activities" := Null],
      Authed := DEFAULT_AUTHED,
      Wallet := map["connected" := Atom("false"), "address" := Null, "chainId" := Null],
      Permit := map["unlocked" := Atom("false"), "secondsLeft" := Atom("0")]
    ], 0, [])

  const MAX_ERRORS := 100

  datatype Bus = Bus(store: Store, started: bool, authEnabled: bool)

  // ----- single updates -----

  function RecordError(errors: seq<Value>, data: Value): seq<Value> {
    var result := errors + [data];
    if |result| > MAX_ERRORS then result[|result| - MAX_ERRORS..] else result
  }

  predicate Accepts(b: Bus, t: Topic) {
    !(TargetOf(t).domain == Authed && !b.authEnabled && b.started)
  }

  function Merge(fields: Fields, data: Value): Fields {
    if data.Obj? then fields + data.fields else fields
  }

  /** A copy of the domains with one update applied. */
  function Updated(domains: map<Domain, Fields>, t: Topic, data: Value): map<Domain, Fields> {
    var Target(domain, key) := TargetOf(t);
    var fields := if domain in domains then domains[domain] else map[];
    domains[domain := if key.Some? then fields[key.value := data] else Merge(fields, data)]
  }

  function AfterSet(b: Bus, ev: Event, data: Value): Bus {
    match ev
    case Failure(_) => b.(store := b.store.(errors := RecordError(b.store.errors, data)))
    case ResetData => b.(store := DEFAULT_STORE)
    case Unmapped(_) => b
    case Data(t) =>
      if Accepts(b, t) then
        b.(store := Store(Updated(b.store.domains, t, data), b.store.dataVersion + 1, b.store.errors))
      else b
  }

  datatype Update = Update(event: Event, data: Value)

  function FoldSet(b: Bus, updates: seq<Update>): Bus {
    if updates == [] then b
    else
      var u := updates[|updates| - 1];
      AfterSet(FoldSet(b, updates[..|updates| - 1]), u.event, u.data)
  }

  // ----- the batch -----

  predicate Applies(b: Bus, u: Update) {
    u.event.Data? && Accepts(b, u.event.topic)
  }

  /** How many of the updates write to the store. */
  function Applied(b: Bus, updates: seq<Update>): nat {
    if updates == [] then 0
    else Applied(b, updates[..|updates| - 1]) + if Applies(b, updates[|updates| - 1]) then 1 else 0
  }

  function BatchDomains(b: Bus, updates: seq<Update>): map<Domain, Fields> {
    if updates == [] then b.store.domains
    else
      var u, before := updates[|updates| - 1], BatchDomains(b, updates[..|updates| - 1]);
      if Applies(b, u) then Updated(before, u.event.topic, u.data) else before
  }

  function BatchErrors(b: Bus, updates: seq<Update>): seq<Value> {
    if updates == [] then b.store.errors
    else
      var u, before := updates[|updates| - 1], BatchErrors(b, updates[..|updates| - 1]);
      if u.event.Failure? then RecordError(before, u.data) else before
  }

  function AfterBatch(b: Bus, updates: seq<Update>): Bus {
    b.(store := Store(BatchDomains(b, updates),
                      b.store.dataVersion + if Applied(b, updates) > 0 then 1 else 0,
                      BatchErrors(b, updates)))
  }

  lemma {:induction false} FoldKeepsGate(b: Bus, updates: seq<Update>)
    ensures FoldSet(b, updates).started == b.started && FoldSet(b, updates).authEnabled == b.authEnabled
  {
    if updates != [] {
      FoldKeepsGate(b, updates[..|updates| - 1]);
    }
  }

  ghost predicate NoReset(updates: seq<Update>) {
    forall u :: u in updates ==> !u.event.ResetData?
  }

  /** A batch without reset leaves the store that the single updates would leave, except that
      the version moves once instead of once per applied update. */
  lemma {:induction false} BatchRefinesFold(b: Bus, updates: seq<Update>)
    requires NoReset(updates)
    ensures AfterBatch(b, updates).store.domains == FoldSet(b, updates).store.domains
    ensures AfterBatch(b, updates).store.errors == FoldSet(b, updates).store.errors
    ensures FoldSet(b, updates).store.dataVersion == b.store.dataVersion + Applied(b, updates)
    ensures AfterBatch(b, updates).store.dataVersion
         == b.store.dataVersion + if Applied(b, updates) > 0 then 1 else 0
  {
    if updates != [] {
      var rest, u := updates[..|updates| - 1], updates[|updates| - 1];
      assert updates == rest + [u];
      BatchRefinesFold(b, rest);
      FoldKeepsGate(b, rest);
    }
  }

  // ----- the error log -----

  /** The last `n` elements. */
  function LastOf(s: seq<Value>, n: nat): seq<Value> {
    if |s| > n then s[|s| - n..] else s
  }

  function Reported(updates: seq<Update>): seq<Value> {
    if updates == [] then []
    else
      var u := updates[|updates| - 1];
      Reported(updates[..|updates| - 1]) + if u.event.Failure? then [u.data] else []
  }

  /** From an empty log, the log holds the last 100 errors reported. */
  lemma {:induction false} ErrorLogKeepsLast(b: Bus, updates: seq<Update>)
    requires b.store.errors == [] && NoReset(updates)
    ensures FoldSet(b, updates).store.errors == LastOf(Reported(updates), MAX_ERRORS)
    ensures AfterBatch(b, updates).store.errors == LastOf(Reported(updates), MAX_ERRORS)
  {
    BatchRefinesFold(b, updates);
    if updates != [] {
      var rest, u := updates[..|updates| - 1], updates[|updates| - 1];
      assert updates == rest + [u];
      ErrorLogKeepsLast(b, rest);
      var all := Reported(rest);
      if u.event.Failure? {
        assert RecordError(LastOf(all, MAX_ERRORS), u.data) == LastOf(all + [u.data], MAX_ERRORS);
      }
    }
  }

  // ----- notifications -----

  datatype Payload = One(value: Value) | Whole(fields: Fields) | Snapshot(store: Store) | Nothing

  datatype Channel = On(event: Event) | AnyError | Changed | StartSignal | AuthSignal(enabled: bool)

  datatype Emission = Emission(channel: Channel, payload: Payload)

  function DomainData(s: Store, t: Topic): Payload {
    var Target(domain, key) := TargetOf(t);
    var fields := if domain in s.domains then s.domains[domain] else map[];
    if key.None? then Whole(fields)
    else One(if key.value in fields then fields[key.value] else Null)
  }

  /** What one `set` announces, given the store it leaves. A rejected update is announced
      with its data all the same. */
  function SetEmits(b: Bus, ev: Event, data: Value): seq<Emission> {
    var after := AfterSet(b, ev, data).store;
    match ev
    case Failure(_) =>
      [Emission(On(ev), One(data)), Emission(AnyError, One(data)), Emission(Changed, Snapshot(after))]
    case ResetData =>
      [Emission(On(ev), Snapshot(after)), Emission(Changed, Snapshot(after))]
    case Unmapped(_) =>
      [Emission(On(ev), One(data)), Emission(Changed, Snapshot(after))]
    case Data(t) =>
      [Emission(On(ev), if Accepts(b, t) then DomainData(after, t) else One(data)), Emission(Changed, Snapshot(after))]
  }

  function AddNew(events: seq<Event>, ev: Event): seq<Event> {
    if ev in events then events else events + [ev]
  }

  /** The error events of a batch, each once, by first occurrence. */
  function ErrorEvents(updates: seq<Update>): seq<Event> {
    if updates == [] then []
    else
      var u, before := updates[|updates| - 1], ErrorEvents(updates[..|updates| - 1]);
      if u.event.Failure? then AddNew(before, u.event) else before
  }

  /** The data events of a batch that were applied, each once, by first occurrence. */
  function DataEvents(b: Bus, updates: seq<Update>): seq<Event> {
    if updates == [] then []
    else
      var u, before := updates[|updates| - 1], DataEvents(b, updates[..|updates| - 1]);
      if Applies(b, u) then AddNew(before, u.event) else before
  }

  function AnnounceErrors(events: seq<Event>): seq<Emission> {
    if events == [] then []
    else AnnounceErrors(events[..|events| - 1])
         + [Emission(On(events[|events| - 1]), One(Null)), Emission(AnyError, One(Null))]
  }

  function AnnounceData(events: seq<Event>, after: Store): seq<Emission>
    requires forall ev :: ev in events ==> ev.Data?
  {
    if events == [] then []
    else
      var rest, ev := events[..|events| - 1], events[|events| - 1];
      AnnounceData(rest, after) + [Emission(On(ev), DomainData(after, ev.topic))]
  }

  ghost predicate NoneTwice(events: seq<Event>) {
    forall i, j :: 0 <= i < j < |events| ==> events[i] != events[j]
  }

  lemma {:induction false} EachEventOnce(b: Bus, updates: seq<Update>)
    ensures forall ev :: ev in DataEvents(b, updates)
                         <==> ev.Data? && exists u :: u in updates && u.event == ev && Applies(b, u)
    ensures forall ev :: ev in ErrorEvents(updates)
                         <==> ev.Failure? && exists u :: u in updates && u.event == ev
    ensures NoneTwice(DataEvents(b, updates)) && NoneTwice(ErrorEvents(updates))
  {
    if updates != [] {
      var rest, u := updates[..|updates| - 1], updates[|updates| - 1];
      assert updates == rest + [u];
      EachEventOnce(b, rest);
    }
  }

  /** Errors first, then the applied events with the data left behind, then one change. */
  function BatchEmits(b: Bus, updates: seq<Update>): seq<Emission> {
    var after := AfterBatch(b, updates).store;
    var errors, events := ErrorEvents(updates), DataEvents(b, updates);
    EachEventOnce(b, updates);
    AnnounceErrors(errors) + AnnounceData(events, after)
    + if errors != [] || events != [] then [Emission(Changed, Snapshot(after))] else []
  }

  /** With authentication off, a single `set` of authenticated data is not stored but its
      data is still announced; the same update in a batch is neither. */
  lemma RejectedUpdateAnnounced(b: Bus, t: Topic, data: Value)
    requires !Accepts(b, t)
    ensures AfterSet(b, Data(t), data) == b
    ensures Emission(On(Data(t)), One(data)) in SetEmits(b, Data(t), data)
    ensures AfterBatch(b, [Update(Data(t), data)]) == b
    ensures BatchEmits(b, [Update(Data(t), data)]) == []
  {
    var updates := [Update(Data(t), data)];
    assert updates[..|updates| - 1] == [];
    assert SetEmits(b, Data(t), data)[0] == Emission(On(Data(t)), One(data));
    assert BatchErrors(b, updates) == BatchErrors(b, []) && BatchDomains(b, updates) == BatchDomains(b, []);
    assert Applied(b, updates) == Applied(b, []);
    assert DataEvents(b, updates) == DataEvents(b, []) && ErrorEvents(updates) == ErrorEvents([]);
  }

  // ----- start, authentication, reset -----

  const FRESH := Bus(DEFAULT_STORE, false, false)

  function AuthedOf(b: Bus): Fields {
    if Authed in b.store.domains then b.store.domains[Authed] else map[]
  }

  function AfterStart(b: Bus): Bus {
    if b.started then b else Bus(b.store, true, false)
  }

  function AfterEnable(b: Bus): Bus {
    b.(authEnabled := true)
  }

  function AfterDisable(b: Bus): Bus {
    Bus(b.store.(domains := b.store.domains[Authed := DEFAULT_AUTHED]), b.started, false)
  }

  /** The authenticated topics in the order of the event table. */
  const AUTHED_TOPICS: seq<Topic> :=
    [Positions, Strategies, Proposals, Community, Templates, NodeTypes, WalletBalance]

  /** Enabling authentication replays what the authenticated domain already holds. */
  function Replay(b: Bus, topics: seq<Topic>): seq<Emission> {
    if topics == [] then []
    else
      var rest, t := topics[..|topics| - 1], topics[|topics| - 1];
      Replay(b, rest)
      + if DomainData(b.store, t) == One(Null) then [] else [Emission(On(Data(t)), DomainData(b.store, t))]
  }

  class BridgeBus {
    var domains: map<Domain, Fields>
    var dataVersion: nat
    var errors: seq<Value>
    var started: bool
    var authEnabled: bool
    /** Everything announced to listeners so far. */
    var log: seq<Emission>

    ghost function Abs(): Bus
      reads this
    {
      Bus(Store(domains, dataVersion, errors), started, authEnabled)
    }

    constructor ()
      ensures Abs() == FRESH && log == []
    {
      domains, dataVersion, errors := DEFAULT_STORE.domains, 0, [];
      started, authEnabled := false, false;
      log := [];
    }

    /** Announces on the channel, on the error wildcard, and as a change, as asked. */
    method EmitEvent(channel: Channel, payload: Payload, withWildcard: bool, skipChange: bool)
      modifies this`log
      ensures log == old(log) + [Emission(channel, payload)]
                     + (if withWildcard then [Emission(AnyError, payload)] else [])
                     + (if skipChange then [] else [Emission(Changed, Snapshot(Abs().store))])
    {
      log := log + [Emission(channel, payload)];
      if withWildcard {
        log := log + [Emission(AnyError, payload)];
      }
      if !skipChange {
        log := log + [Emission(Changed, Snapshot(Store(domains, dataVersion, errors)))];
      }
    }

    method Set(ev: Event, data: Value)
      modifies this
      ensures Abs() == AfterSet(old(Abs()), ev, data)
      ensures log == old(log) + SetEmits(old(Abs()), ev, data)
    {
      match ev
      case Failure(_) =>
        errors := RecordError(errors, data);
        EmitEvent(On(ev), One(data), true, false);
      case ResetData =>
        domains, dataVersion, errors := DEFAULT_STORE.domains, 0, [];
        EmitEvent(On(ev), Snapshot(Store(domains, dataVersion, errors)), false, false);
      case Unmapped(_) =>
        EmitEvent(On(ev), One(data), false, false);
      case Data(t) =>
        if TargetOf(t).domain == Authed && !authEnabled && started {
          EmitEvent(On(ev), One(data), false, false);
        } else {
          domains := Updated(domains, t, data);
          dataVersion := dataVersion + 1;
          EmitEvent(On(ev), DomainData(Store(domains, dataVersion, errors), t), false, false);
        }
    }

    /** The announcements that close a batch. */
    method EmitBatch(errorEvents: seq<Event>, events: seq<Event>)
      requires forall ev :: ev in events ==> ev.Data?
      modifies this`log
      ensures log == old(log) + AnnounceErrors(errorEvents) + AnnounceData(events, Abs().store)
                     + if errorEvents != [] || events != [] then [Emission(Changed, Snapshot(Abs().store))] else []
    {
      for i := 0 to |errorEvents|
        invariant log == old(log) + AnnounceErrors(errorEvents[..i])
      {
        assert errorEvents[..i + 1][..i] == errorEvents[..i];
        EmitEvent(On(errorEvents[i]), One(Null), true, true);
      }
      assert errorEvents[..|errorEvents|] == errorEvents;
      for i := 0 to |events|
        invariant log == old(log) + AnnounceErrors(errorEvents) + AnnounceData(events[..i], Abs().store)
      {
        assert events[..i + 1][..i] == events[..i] && events[i] in events;
        EmitEvent(On(events[i]), DomainData(Store(domains, dataVersion, errors), events[i].topic), false, true);
      }
      assert events[..|events|] == events;
      if errorEvents != [] || events != [] {
        log := log + [Emission(Changed, Snapshot(Store(domains, dataVersion, errors)))];
      }
    }

    /** The loop of a batch: `next` starts as a copy of the domains, and nothing is stored yet. */
    method ApplyUpdates(updates: seq<Update>)
      returns (next: map<Domain, Fields>, nextErrors: seq<Value>, hasDataUpdates: bool,
               eventsToEmit: seq<Event>, errorEventsToEmit: seq<Event>)
      ensures next == BatchDomains(Abs(), updates) && nextErrors == BatchErrors(Abs(), updates)
      ensures eventsToEmit == DataEvents(Abs(), updates) && errorEventsToEmit == ErrorEvents(updates)
      ensures forall ev :: ev in eventsToEmit ==> ev.Data?
      ensures hasDataUpdates <==> Applied(Abs(), updates) > 0
      ensures !hasDataUpdates ==> next == domains
    {
      ghost var b := Abs();
      next, nextErrors, hasDataUpdates := domains, errors, false;
      eventsToEmit, errorEventsToEmit := [], [];
      for i := 0 to |updates|
        invariant next == BatchDomains(b, updates[..i]) && nextErrors == BatchErrors(b, updates[..i])
        invariant eventsToEmit == DataEvents(b, updates[..i]) && errorEventsToEmit == ErrorEvents(updates[..i])
        invariant forall ev :: ev in eventsToEmit ==> ev.Data?
        invariant hasDataUpdates <==> Applied(b, updates[..i]) > 0
        invariant !hasDataUpdates ==> next == domains
      {
        var u := updates[i];
        assert updates[..i + 1][..i] == updates[..i];
        match u.event
        case Failure(_) =>
          nextErrors := RecordError(nextErrors, u.data);
          errorEventsToEmit := AddNew(errorEventsToEmit, u.event);
        case Data(t) =>
          if !(TargetOf(t).domain == Authed && !authEnabled && started) {
            next := Updated(next, t, u.data);
            hasDataUpdates := true;
            eventsToEmit := AddNew(eventsToEmit, u.event);
          }
        case _ =>
      }
      assert updates[..|updates|] == updates;
    }

    method DispatchBatch(updates: seq<Update>)
      modifies this
      ensures Abs() == AfterBatch(old(Abs()), updates)
      ensures log == old(log) + BatchEmits(old(Abs()), updates)
    {
      if |updates| == 0 {
        return;
      }
      var next, nextErrors, hasDataUpdates, eventsToEmit, errorEventsToEmit := ApplyUpdates(updates);
      errors := nextErrors;
      if hasDataUpdates {
        domains := next;
        dataVersion := dataVersion + 1;
      }
      EmitBatch(errorEventsToEmit, eventsToEmit);
    }

    method Start()
      modifies this
      ensures Abs() == AfterStart(old(Abs()))
      ensures log == old(log) + if old(started) then []
                                else [Emission(StartSignal, Nothing), Emission(Changed, Snapshot(Abs().store))]
    {
      if started {
        return;
      }
      started, authEnabled := true, false;
      EmitEvent(StartSignal, Nothing, false, false);
    }

    method EnableAuthenticated()
      modifies this
      ensures Abs() == AfterEnable(old(Abs()))
      ensures log == old(log) + Replay(old(Abs()), AUTHED_TOPICS)
                     + [Emission(AuthSignal(true), Nothing), Emission(Changed, Snapshot(Abs().store))]
    {
      authEnabled := true;
      var topics := AUTHED_TOPICS;
      for i := 0 to |topics|
        invariant Abs() == AfterEnable(old(Abs()))
        invariant log == old(log) + Replay(old(Abs()), topics[..i])
      {
        assert topics[..i + 1][..i] == topics[..i];
        var held := DomainData(Store(domains, dataVersion, errors), topics[i]);
        if held != One(Null) {
          log := log + [Emission(On(Data(topics[i])), held)];
        }
      }
      assert topics[..|topics|] == topics;
      EmitEvent(AuthSignal(true), Nothing, false, false);
    }

    method DisableAuthenticated()
      modifies this
      ensures Abs() == AfterDisable(old(Abs()))
      ensures log == old(log) + [Emission(AuthSignal(false), Nothing), Emission(Changed, Snapshot(Abs().store))]
    {
      authEnabled := false;
      domains := domains[Authed := DEFAULT_AUTHED];
      EmitEvent(AuthSignal(false), Nothing, false, false);
    }

    method Reset()
      modifies this
      ensures Abs() == FRESH
      ensures log == old(log) + [Emission(On(ResetData), Snapshot(DEFAULT_STORE)),
                                 Emission(Changed, Snapshot(DEFAULT_STORE))]
    {
      domains, dataVersion, errors := DEFAULT_STORE.domains, 0, [];
      started, authEnabled := false, false;
      EmitEvent(On(ResetData), Snapshot(Store(domains, dataVersion, errors)), false, false);
    }
  }

  // ----- the gate -----

  datatype Op = SetOp(event: Event, data: Value) | BatchOp(updates: seq<Update>)
              | StartOp | EnableOp | DisableOp | ResetOp

  function Perform(b: Bus, op: Op): Bus {
    match op
    case SetOp(ev, data) => AfterSet(b, ev, data)
    case BatchOp(us) => AfterBatch(b, us)
    case StartOp => AfterStart(b)
    case EnableOp => AfterEnable(b)
    case DisableOp => AfterDisable(b)
    case ResetOp => FRESH
  }

  function PerformAll(b: Bus, ops: seq<Op>): Bus {
    if ops == [] then b else Perform(PerformAll(b, ops[..|ops| - 1]), ops[|ops| - 1])
  }

  /** Nothing authenticated is stored while authentication is off. */
  ghost predicate Clean(b: Bus) {
    !b.authEnabled ==> AuthedOf(b) == DEFAULT_AUTHED
  }

  ghost predicate GateShut(b: Bus) {
    b.started && Clean(b)
  }

  lemma {:induction false} BatchKeepsAuthed(b: Bus, updates: seq<Update>)
    requires b.started && !b.authEnabled
    ensures AuthedOf(AfterBatch(b, updates)) == AuthedOf(b)
  {
    if updates != [] {
      BatchKeepsAuthed(b, updates[..|updates| - 1]);
    }
  }

  lemma StepKeepsGateShut(b: Bus, op: Op)
    requires GateShut(b) && !op.ResetOp?
    ensures GateShut(Perform(b, op))
  {
    if op.BatchOp? && !b.authEnabled {
      BatchKeepsAuthed(b, op.updates);
    }
  }

  /** On a started bus without `reset()`, in every run of operations, the authenticated
      domain is at its default whenever authentication is off. */
  lemma {:induction false} GateStaysShut(ops: seq<Op>)
    requires forall op :: op in ops ==> !op.ResetOp?
    ensures GateShut(PerformAll(AfterStart(FRESH), ops))
  {
    if ops != [] {
      var rest, op := ops[..|ops| - 1], ops[|ops| - 1];
      assert ops == rest + [op];
      GateStaysShut(rest);
      StepKeepsGateShut(PerformAll(AfterStart(FRESH), rest), op);
    }
  }

  /** `reset()` reopens the gate: what is written before the next start stays stored. */
  lemma ResetReopensGate(b: Bus, data: Value)
    requires data != Null
    ensures !GateShut(PerformAll(b, [ResetOp, SetOp(Data(Positions), data), StartOp]))
  {
    var ops := [ResetOp, SetOp(Data(Positions), data), StartOp];
    assert ops[..2] == [ResetOp, SetOp(Data(Positions), data)];
    assert ops[..2][..1] == [ResetOp] && ops[..2][..1][..0] == [];
    var written := AfterSet(FRESH, Data(Positions), data);
    assert PerformAll(b, ops[..2][..1]) == FRESH;
    assert PerformAll(b, ops[..2]) == written;
    assert PerformAll(b, ops) == AfterStart(written);
    assert AuthedOf(written)["positions"] == data;
  }

  /** Signing in before the first start: the start signs out and leaves the data stored. */
  lemma LateStartStrandsData(data: Value)
    requires data != Null
    ensures !Clean(PerformAll(FRESH, [EnableOp, SetOp(Data(Positions), data), StartOp]))
  {
    var ops := [EnableOp, SetOp(Data(Positions), data), StartOp];
    PerformNext(FRESH, ops, 0);
    PerformNext(FRESH, ops, 1);
    PerformNext(FRESH, ops, 2);
    assert ops[..0] == [] && ops[..3] == ops;
    assert AuthedOf(PerformAll(FRESH, ops))["positions"] == data;
  }

  // ----- exactly which operations break the gate -----

  /** What the last update of the authenticated key `k` writes. */
  function LastWrite(updates: seq<Update>, k: string): Option<Value> {
    if updates == [] then None
    else
      var u := updates[|updates| - 1];
      if u.event.Data? && TargetOf(u.event.topic) == Target(Authed, Some(k)) then Some(u.data)
      else LastWrite(updates[..|updates| - 1], k)
  }

  /** Every authenticated key written ends with its default, which is null; a key without a
      default must not be written at all. */
  ghost predicate LeavesDefaults(updates: seq<Update>) {
    forall k :: LastWrite(updates, k).Some? ==> k in DEFAULT_AUTHED && LastWrite(updates, k) == Some(Null)
  }

  function Field(fields: Fields, k: string): Option<Value> {
    if k in fields then Some(fields[k]) else None
  }

  lemma {:induction false} AuthedAfterBatch(b: Bus, updates: seq<Update>, k: string)
    requires !b.started || b.authEnabled
    ensures Field(AuthedOf(AfterBatch(b, updates)), k)
         == if LastWrite(updates, k).Some? then LastWrite(updates, k) else Field(AuthedOf(b), k)
  {
    if updates != [] {
      AuthedAfterBatch(b, updates[..|updates| - 1], k);
    }
  }

  lemma SameFields(a: Fields, b: Fields)
    requires forall k :: Field(a, k) == Field(b, k)
    ensures a == b
  {
    assert forall k :: k in a ==> Field(a, k) == Some(a[k]);
    assert forall k :: k in b ==> Field(b, k) == Some(b[k]);
  }

  /** From the defaults, an open gate lets a batch through that leaves them exactly when every
      authenticated key ends as it began. */
  lemma BatchLeavesDefaultsIff(b: Bus, updates: seq<Update>)
    requires !b.started || b.authEnabled
    requires AuthedOf(b) == DEFAULT_AUTHED
    ensures AuthedOf(AfterBatch(b, updates)) == DEFAULT_AUTHED <==> LeavesDefaults(updates)
  {
    var after := AuthedOf(AfterBatch(b, updates));
    forall k
      ensures Field(after, k)
           == if LastWrite(updates, k).Some? then LastWrite(updates, k) else Field(DEFAULT_AUTHED, k)
    {
      AuthedAfterBatch(b, updates, k);
    }
    if LeavesDefaults(updates) {
      SameFields(after, DEFAULT_AUTHED);
    }
  }

  lemma SetIsBatchOfOne(b: Bus, ev: Event, data: Value)
    requires !ev.ResetData?
    ensures AuthedOf(AfterSet(b, ev, data)) == AuthedOf(AfterBatch(b, [Update(ev, data)]))
  {
    var us := [Update(ev, data)];
    BatchRefinesFold(b, us);
    assert FoldSet(b, us) == AfterSet(FoldSet(b, us[..|us| - 1]), ev, data);
  }

  /** Writes are harmless once started or signed in, and otherwise if they leave the defaults;
      a start that signs out must find the defaults. */
  ghost predicate Harmless(b: Bus, op: Op) {
    match op
    case SetOp(ev, data) => b.started || b.authEnabled || LeavesDefaults([Update(ev, data)])
    case BatchOp(us) => b.started || b.authEnabled || LeavesDefaults(us)
    case StartOp => b.started || !b.authEnabled || AuthedOf(b) == DEFAULT_AUTHED
    case _ => true
  }

  /** One operation keeps the authenticated domain at its default while authentication is off
      exactly when it is harmless. */
  lemma StepKeepsCleanIff(b: Bus, op: Op)
    requires Clean(b)
    ensures Clean(Perform(b, op)) <==> Harmless(b, op)
  {
    if !b.authEnabled {
      match op
      case SetOp(ev, data) =>
        if b.started {
          StepKeepsGateShut(b, op);
        } else if ev.ResetData? {
          assert [Update(ev, data)][..0] == [];
          assert forall k :: LastWrite([Update(ev, data)], k) == LastWrite([], k);
        } else {
          SetIsBatchOfOne(b, ev, data);
          BatchLeavesDefaultsIff(b, [Update(ev, data)]);
        }
      case BatchOp(us) =>
        if b.started {
          BatchKeepsAuthed(b, us);
        } else {
          BatchLeavesDefaultsIff(b, us);
        }
      case _ =>
    }
  }

  ghost predicate CleanAfter(b: Bus, ops: seq<Op>, k: nat)
    requires k <= |ops|
  {
    Clean(PerformAll(b, ops[..k]))
  }

  ghost predicate HarmlessAt(b: Bus, ops: seq<Op>, k: nat)
    requires k < |ops|
  {
    Harmless(PerformAll(b, ops[..k]), ops[k])
  }

  lemma PerformNext(b: Bus, ops: seq<Op>, k: nat)
    requires k < |ops|
    ensures PerformAll(b, ops[..k + 1]) == Perform(PerformAll(b, ops[..k]), ops[k])
  {
    assert ops[..k + 1][..k] == ops[..k];
  }

  lemma {:induction false} HarmlessKeepsClean(b: Bus, ops: seq<Op>, k: nat)
    requires Clean(b) && k <= |ops|
    requires forall i: nat :: i < k ==> HarmlessAt(b, ops, i)
    ensures CleanAfter(b, ops, k)
  {
    if k > 0 {
      HarmlessKeepsClean(b, ops, k - 1);
      PerformNext(b, ops, k - 1);
      assert HarmlessAt(b, ops, k - 1);
      StepKeepsCleanIff(PerformAll(b, ops[..k - 1]), ops[k - 1]);
    }
  }

  /** On every run, resets included: the authenticated domain is at its default at every moment
      of being signed out exactly when each operation is harmless where it happens. */
  lemma GateHoldsIff(b: Bus, ops: seq<Op>)
    requires Clean(b)
    ensures (forall k: nat :: k <= |ops| ==> CleanAfter(b, ops, k))
            <==> forall k: nat :: k < |ops| ==> HarmlessAt(b, ops, k)
  {
    if forall k: nat :: k <= |ops| ==> CleanAfter(b, ops, k) {
      forall k: nat | k < |ops|
        ensures HarmlessAt(b, ops, k)
      {
        assert CleanAfter(b, ops, k) && CleanAfter(b, ops, k + 1);
        PerformNext(b, ops, k);
        StepKeepsCleanIff(PerformAll(b, ops[..k]), ops[k]);
      }
    }
    if forall k: nat :: k < |ops| ==> HarmlessAt(b, ops, k) {
      forall k: nat | k <= |ops|
        ensures CleanAfter(b, ops, k)
      {
        HarmlessKeepsClean(b, ops, k);
      }
    }
  }

  /** The last start or reset among `ops` is a start. */
  predicate StartedSince(ops: seq<Op>) {
    ops != [] && (ops[|ops| - 1].StartOp? || (!ops[|ops| - 1].ResetOp? && StartedSince(ops[..|ops| - 1])))
  }

  /** Between a reset and the next start nothing is written and nobody signs in. */
  ghost predicate StartsFirst(ops: seq<Op>) {
    forall k :: 0 <= k < |ops| && (ops[k].SetOp? || ops[k].BatchOp? || ops[k].EnableOp?) ==> StartedSince(ops[..k])
  }

  /** So a reset is safe when the next start comes before any write or sign-in. */
  lemma {:induction false} StartingFirstHoldsGate(ops: seq<Op>)
    requires StartsFirst(ops)
    ensures var b := PerformAll(FRESH, ops);
            (b.started <==> StartedSince(ops)) && (b.started || !b.authEnabled) && Clean(b)
  {
    if ops != [] {
      var rest, op := ops[..|ops| - 1], ops[|ops| - 1];
      forall k | 0 <= k < |rest| && (rest[k].SetOp? || rest[k].BatchOp? || rest[k].EnableOp?)
        ensures StartedSince(rest[..k])
      {
        assert rest[k] == ops[k] && rest[..k] == ops[..k];
      }
      StartingFirstHoldsGate(rest);
      StepKeepsCleanIff(PerformAll(FRESH, rest), op);
    }
  }
}
