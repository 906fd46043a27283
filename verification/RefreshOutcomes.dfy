/** How each request ends: the answer it is settled with, read off the events of the run. */
module RefreshOutcomes {
  import opened TokenRefresh

  /** The event turns request `i` down: another error, a 401 that no refresh can help, or the
      failure of a refresh that it led or waited for. */
  predicate TurnsDown(s: State, ev: Event, can: bool, i: nat)
    requires i < |s.reqs|
  {
    || ev == Respond(i, OtherError)
    || (ev == Respond(i, Unauthorized) && (s.reqs[i].retried || !can))
    || (ev.FinishRefresh? && !ev.ok && (ev.i == i || s.reqs[i].phase.Waiting?))
  }

  /** A step settles an unsettled request with success exactly on a success response, and
      without exactly when it turns the request down. */
  lemma StepSettlesIff(s: State, ev: Event, can: bool, i: nat)
    requires QueueMatches(s) && Enabled(s, ev) && i < |s.reqs| && !s.reqs[i].phase.Settled?
    ensures Apply(s, ev, can).reqs[i].phase == Settled(true) <==> ev == Respond(i, Success)
    ensures Apply(s, ev, can).reqs[i].phase == Settled(false) <==> TurnsDown(s, ev, can, i)
  {}

  /** After the run `before`, the event turns request `i` down. */
  ghost predicate TurnedDownBy(n: nat, can: bool, before: seq<Event>, ev: Event, i: nat) {
    exists t :: IsRun(n, can, before, t) && i < |t.reqs| && Enabled(t, ev) && TurnsDown(t, ev, can, i)
  }

  /** Some event of the run turns request `i` down, in the state it met. */
  ghost predicate TurnedDown(n: nat, can: bool, evs: seq<Event>, i: nat) {
    exists k :: 0 <= k < |evs| && TurnedDownBy(n, can, evs[..k], evs[k], i)
  }

  lemma {:induction false} RunsAreDeterministic(n: nat, can: bool, evs: seq<Event>, s: State, t: State)
    requires IsRun(n, can, evs, s) && IsRun(n, can, evs, t)
    ensures s == t
  {
    if evs != [] {
      var s' := LastStep(n, can, evs, s);
      var t' := LastStep(n, can, evs, t);
      RunsAreDeterministic(n, can, evs[..|evs| - 1], s', t');
    }
  }

  lemma TurnedDownNext(n: nat, can: bool, before: seq<Event>, ev: Event, i: nat)
    ensures TurnedDown(n, can, before + [ev], i)
            <==> TurnedDown(n, can, before, i) || TurnedDownBy(n, can, before, ev, i)
  {
    var evs := before + [ev];
    assert forall k :: 0 <= k < |before| ==> evs[..k] == before[..k] && evs[k] == before[k];
    assert evs[..|before|] == before && evs[|before|] == ev;
    if TurnedDown(n, can, before, i) {
      var k :| 0 <= k < |before| && TurnedDownBy(n, can, before[..k], before[k], i);
      assert TurnedDownBy(n, can, evs[..k], evs[k], i);
    }
    if TurnedDownBy(n, can, before, ev, i) {
      assert TurnedDownBy(n, can, evs[..|before|], evs[|before|], i);
    }
  }

  lemma TurnedDownIff(n: nat, can: bool, before: seq<Event>, s: State, ev: Event, i: nat)
    requires IsRun(n, can, before, s) && i < |s.reqs| && Enabled(s, ev)
    ensures TurnedDownBy(n, can, before, ev, i) <==> TurnsDown(s, ev, can, i)
  {
    if TurnedDownBy(n, can, before, ev, i) {
      var t :| IsRun(n, can, before, t) && i < |t.reqs| && Enabled(t, ev) && TurnsDown(t, ev, can, i);
      RunsAreDeterministic(n, can, before, s, t);
    }
  }

  /** What a settled request was settled with does not change, and nothing more happens to it. */
  lemma SettledIsLeftAlone(s: State, ev: Event, can: bool, i: nat)
    requires QueueMatches(s) && Enabled(s, ev) && i < |s.reqs| && s.reqs[i].phase.Settled?
    ensures Apply(s, ev, can).reqs[i] == s.reqs[i]
    ensures ev != Respond(i, Success) && !TurnsDown(s, ev, can, i)
  {
    SettledForever(s, ev, can, i);
  }

  /** Before and after a step, request `i` is answered as the events so far say. */
  lemma OutcomeStep(s: State, ev: Event, can: bool, i: nat, succeeded: bool, turnedDown: bool)
    requires QueueMatches(s) && Enabled(s, ev) && i < |s.reqs|
    requires s.reqs[i].phase == Settled(true) <==> succeeded
    requires s.reqs[i].phase == Settled(false) <==> turnedDown
    ensures Apply(s, ev, can).reqs[i].phase == Settled(true) <==> succeeded || ev == Respond(i, Success)
    ensures Apply(s, ev, can).reqs[i].phase == Settled(false) <==> turnedDown || TurnsDown(s, ev, can, i)
  {
    if s.reqs[i].phase.Settled? {
      SettledIsLeftAlone(s, ev, can, i);
    } else {
      StepSettlesIff(s, ev, can, i);
    }
  }

  /** On every run, a request has succeeded exactly if a success response came for it, and has
      failed exactly if some event turned it down. */
  lemma {:induction false} OutcomeIff(n: nat, can: bool, evs: seq<Event>, s: State, i: nat)
    requires IsRun(n, can, evs, s) && i < n
    ensures |s.reqs| == n
    ensures s.reqs[i].phase == Settled(true) <==> Respond(i, Success) in evs
    ensures s.reqs[i].phase == Settled(false) <==> TurnedDown(n, can, evs, i)
    decreases |evs|
  {
    RunsAreSafe(n, can, evs, s);
    if evs != [] {
      var before, ev, t := BeforeLast(n, can, evs, s);
      RunsAreSafe(n, can, before, t);
      OutcomeIff(n, can, before, t, i);
      TurnedDownNext(n, can, before, ev, i);
      TurnedDownIff(n, can, before, t, ev, i);
      OutcomeStep(t, ev, can, i, Respond(i, Success) in before, TurnedDown(n, can, before, i));
    }
  }

  lemma BeforeLast(n: nat, can: bool, evs: seq<Event>, s: State)
    returns (before: seq<Event>, ev: Event, t: State)
    requires evs != [] && IsRun(n, can, evs, s)
    ensures evs == before + [ev] && IsRun(n, can, before, t)
    ensures Enabled(t, ev) && s == Apply(t, ev, can)
  {
    t := LastStep(n, can, evs, s);
    before, ev := evs[..|evs| - 1], evs[|evs| - 1];
  }
}
