/** What the operations of the bus do for its callers: who is signed in after a run, what a
    write leaves readable, and what is announced. */
module BusEffects {
  import opened Wrappers
  import opened Bridge = BridgeBus

  function InDomain(b: Bus, d: Domain): Fields {
    if d in b.store.domains then b.store.domains[d] else map[]
  }

  // ----- who is signed in -----

  /** The `k`-th operation settles whether authentication is on: an enable, a disable, a reset,
      or a start that takes effect. */
  predicate Decides(ops: seq<Op>, k: nat)
    requires k < |ops|
  {
    ops[k].EnableOp? || ops[k].DisableOp? || ops[k].ResetOp? || (ops[k].StartOp? && !StartedSince(ops[..k]))
  }

  /** The last deciding operation is an enable. */
  ghost predicate SignedIn(ops: seq<Op>) {
    exists k :: 0 <= k < |ops| && ops[k].EnableOp? && forall j :: k < j < |ops| ==> !Decides(ops, j)
  }

  lemma {:induction false} StartedIff(ops: seq<Op>)
    ensures PerformAll(FRESH, ops).started <==> StartedSince(ops)
  {
    if ops != [] {
      StartedIff(ops[..|ops| - 1]);
    }
  }

  lemma SignedInNext(ops: seq<Op>, op: Op)
    ensures SignedIn(ops + [op])
            <==> op.EnableOp? || (SignedIn(ops) && !Decides(ops + [op], |ops|))
  {
    var all := ops + [op];
    forall j | 0 <= j < |ops|
      ensures all[j] == ops[j] && (Decides(all, j) <==> Decides(ops, j))
    {
      assert all[..j] == ops[..j];
    }
    if op.EnableOp? {
      assert all[|ops|].EnableOp?;
    } else if SignedIn(ops) && !Decides(all, |ops|) {
      var k :| 0 <= k < |ops| && ops[k].EnableOp? && forall j :: k < j < |ops| ==> !Decides(ops, j);
      forall j | k < j < |all|
        ensures !Decides(all, j)
      {
        assert j < |ops| ==> !Decides(ops, j);
      }
      assert all[k].EnableOp?;
    }
  }

  /** After any run, authentication is on exactly when the last operation that decides it is an
      enable. */
  lemma {:induction false} SignedInIff(ops: seq<Op>)
    ensures PerformAll(FRESH, ops).authEnabled <==> SignedIn(ops)
  {
    if ops != [] {
      var rest, op := ops[..|ops| - 1], ops[|ops| - 1];
      assert ops == rest + [op];
      SignedInIff(rest);
      StartedIff(rest);
      SignedInNext(rest, op);
    }
  }

  // ----- what a write leaves readable -----

  /** An accepted write of a keyed topic is readable under its key, and touches nothing else. */
  lemma SetStoresKey(b: Bus, t: Topic, data: Value)
    requires TargetOf(t).key.Some?
    requires TargetOf(t).domain != Authed || !b.started || b.authEnabled
    ensures var c, Target(d, key) := AfterSet(b, Data(t), data), TargetOf(t);
            && (forall k :: Field(InDomain(c, d), k) == if k == key.value then Some(data) else Field(InDomain(b, d), k))
            && (forall e :: e != d ==> InDomain(c, e) == InDomain(b, e))
            && c.store.errors == b.store.errors && c.started == b.started && c.authEnabled == b.authEnabled
  {}

  /** A write to a whole domain merges its record in, field by field. */
  lemma SetMergesRecord(b: Bus, t: Topic, fields: Fields)
    requires TargetOf(t).key.None?
    ensures var c, d := AfterSet(b, Data(t), Obj(fields)), TargetOf(t).domain;
            && (forall k ::
                  Field(InDomain(c, d), k) == if k in fields then Some(fields[k]) else Field(InDomain(b, d), k))
            && (forall e :: e != d ==> InDomain(c, e) == InDomain(b, e))
            && c.store.errors == b.store.errors && c.started == b.started && c.authEnabled == b.authEnabled
  {}

  /** After any run, a write of a keyed topic is readable under its key and changes no other
      key, unless it is authenticated data on a started bus that is signed out: then nothing
      changes at all. */
  lemma WriteIsReadableIff(ops: seq<Op>, t: Topic, data: Value)
    requires TargetOf(t).key.Some?
    ensures var b, c := PerformAll(FRESH, ops), PerformAll(FRESH, ops + [SetOp(Data(t), data)]);
            var d := TargetOf(t).domain;
            if d == Authed && StartedSince(ops) && !SignedIn(ops) then c == b
            else forall k ::
              Field(InDomain(c, d), k) == if k == TargetOf(t).key.value then Some(data) else Field(InDomain(b, d), k)
  {
    var all := ops + [SetOp(Data(t), data)];
    var b := PerformAll(FRESH, ops);
    assert all[..|all| - 1] == ops;
    StartedIff(ops);
    SignedInIff(ops);
    if !(TargetOf(t).domain == Authed && b.started && !b.authEnabled) {
      SetStoresKey(b, t, data);
    }
  }

  /** From an enable until the next operation that decides otherwise, authenticated writes are
      stored. */
  lemma SignInOpensGate(ops: seq<Op>, later: seq<Op>, t: Topic, data: Value)
    requires TargetOf(t).key.Some?
    requires var all := ops + [EnableOp] + later; forall j :: |ops| < j < |all| ==> !Decides(all, j)
    ensures var c := PerformAll(FRESH, ops + [EnableOp] + later + [SetOp(Data(t), data)]);
            Field(InDomain(c, TargetOf(t).domain), TargetOf(t).key.value) == Some(data)
  {
    var all := ops + [EnableOp] + later;
    assert all[|ops|] == EnableOp;
    WriteIsReadableIff(all, t, data);
  }

  /** Signing out clears the authenticated domain and nothing else; starting and signing in
      leave everything stored as it was. */
  lemma SwitchesKeepData(b: Bus)
    ensures AfterStart(b).store == b.store && AfterEnable(b).store == b.store
    ensures AuthedOf(AfterDisable(b)) == DEFAULT_AUTHED
    ensures forall d :: d != Authed ==> InDomain(AfterDisable(b), d) == InDomain(b, d)
    ensures AfterDisable(b).store.errors == b.store.errors
  {}

  /** The reset event puts every default back but keeps the bus started and signed in as it was;
      an event that is not mapped changes nothing. */
  lemma OtherEventsStore(b: Bus, name: string, data: Value)
    ensures AfterSet(b, ResetData, data) == Bus(DEFAULT_STORE, b.started, b.authEnabled)
    ensures AfterSet(b, Unmapped(name), data) == b
  {}

  /** No two keyed topics share a place. */
  lemma PlacesApart(t: Topic, u: Topic)
    requires TargetOf(t).key.Some? && TargetOf(t) == TargetOf(u)
    ensures t == u
  {}

  // ----- what is announced -----

  lemma AuthedTopics(t: Topic)
    ensures TargetOf(t).domain == Authed <==> t in AUTHED_TOPICS
    ensures TargetOf(t).domain == Authed ==> TargetOf(t).key.Some?
  {
    var a := AUTHED_TOPICS;
    assert a[0] == Positions && a[1] == Strategies && a[2] == Proposals && a[3] == Community;
    assert a[4] == Templates && a[5] == NodeTypes && a[6] == WalletBalance;
  }

  lemma {:induction false} ReplayMembers(b: Bus, topics: seq<Topic>, t: Topic, v: Value)
    requires forall u :: u in topics ==> u in AUTHED_TOPICS
    ensures Emission(On(Data(t)), One(v)) in Replay(b, topics)
            <==> t in topics && v != Null && DomainData(b.store, t) == One(v)
  {
    if topics != [] {
      var rest, u := topics[..|topics| - 1], topics[|topics| - 1];
      assert topics == rest + [u] && u in topics;
      ReplayMembers(b, rest, t, v);
      AuthedTopics(u);
    }
  }

  /** Signing in replays exactly the authenticated data held, each topic with what it holds. */
  lemma EnableReplaysHeld(b: Bus, t: Topic, v: Value)
    ensures Emission(On(Data(t)), One(v)) in Replay(b, AUTHED_TOPICS)
            <==> TargetOf(t).domain == Authed && v != Null && Field(AuthedOf(b), TargetOf(t).key.value) == Some(v)
  {
    AuthedTopics(t);
    ReplayMembers(b, AUTHED_TOPICS, t, v);
  }

  /** A write of a keyed topic announces its data and then the store it leaves, stored or not. */
  lemma SetAnnouncesData(b: Bus, t: Topic, data: Value)
    requires TargetOf(t).key.Some?
    ensures SetEmits(b, Data(t), data)
         == [Emission(On(Data(t)), One(data)), Emission(Changed, Snapshot(AfterSet(b, Data(t), data).store))]
  {}

  /** An error goes to its own channel, to the error wildcard, and to the end of the log. */
  lemma ErrorIsRecorded(b: Bus, source: string, data: Value)
    ensures var c := AfterSet(b, Failure(source), data);
            && c.store.errors != [] && c.store.errors[|c.store.errors| - 1] == data
            && c.store.domains == b.store.domains && c.store.dataVersion == b.store.dataVersion
            && SetEmits(b, Failure(source), data)
               == [Emission(On(Failure(source)), One(data)), Emission(AnyError, One(data)),
                   Emission(Changed, Snapshot(c.store))]
  {}

  lemma {:induction false} NoChangeInErrors(events: seq<Event>)
    ensures forall e :: e in AnnounceErrors(events) ==> e.channel != Changed
    ensures AnnounceErrors(events) == [] <==> events == []
  {
    if events != [] {
      NoChangeInErrors(events[..|events| - 1]);
    }
  }

  lemma {:induction false} NoChangeInData(events: seq<Event>, after: Store)
    requires forall ev :: ev in events ==> ev.Data?
    ensures forall e :: e in AnnounceData(events, after) ==> e.channel != Changed
    ensures AnnounceData(events, after) == [] <==> events == []
  {
    if events != [] {
      NoChangeInData(events[..|events| - 1], after);
    }
  }

  /** A batch that announces anything ends with one change, which shows the store it leaves; a
      batch that applies nothing and reports no error announces nothing. */
  lemma BatchChangesOnce(b: Bus, updates: seq<Update>)
    ensures var emits := BatchEmits(b, updates);
            && (emits == [] <==> forall u :: u in updates ==> !u.event.Failure? && !Applies(b, u))
            && (emits != [] ==> emits[|emits| - 1] == Emission(Changed, Snapshot(AfterBatch(b, updates).store)))
            && (forall i :: 0 <= i < |emits| - 1 ==> emits[i].channel != Changed)
  {
    var after := AfterBatch(b, updates).store;
    var errors, events := ErrorEvents(updates), DataEvents(b, updates);
    EachEventOnce(b, updates);
    NoChangeInErrors(errors);
    NoChangeInData(events, after);
    var body := AnnounceErrors(errors) + AnnounceData(events, after);
    assert forall i :: 0 <= i < |body| ==> body[i] in body;
    if errors == [] && events == [] {
      forall u | u in updates
        ensures !u.event.Failure? && !Applies(b, u)
      {
        assert u.event !in errors && u.event !in events;
      }
    } else if errors != [] {
      assert errors[0] in errors;
    } else {
      assert events[0] in events;
    }
  }
}
