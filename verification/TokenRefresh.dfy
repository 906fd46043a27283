/** The 401 response interceptor: one token refresh at a time, with a queue for the requests
    that fail meanwhile. Responses and refresh outcomes arrive in any order. */
module TokenRefresh {
  /** `Waiting`: in the failed queue. `Released`: its promise is resolved but the request has
      not been sent again yet. */
  datatype Phase = Idle | InFlight | Waiting | Refreshing | Released | Settled(ok: bool)

  datatype Request = Request(phase: Phase, retried: bool, sends: nat)

  datatype State = State(reqs: seq<Request>, isRefreshing: bool, failedQueue: seq<nat>)

  datatype Status = Success | Unauthorized | OtherError

  datatype Event =
    | Issue(i: nat)
    | Respond(i: nat, status: Status)
    | FinishRefresh(i: nat, ok: bool)
    | Resend(i: nat)

  function Init(n: nat): State {
    State(seq(n, i => Request(Idle, false, 0)), false, [])
  }

  predicate Enabled(s: State, ev: Event) {
    && ev.i < |s.reqs|
    && match ev
       case Issue(i) => s.reqs[i].phase.Idle?
       case Respond(i, _) => s.reqs[i].phase.InFlight?
       case FinishRefresh(i, _) => s.reqs[i].phase.Refreshing?
       case Resend(i) => s.reqs[i].phase.Released?
  }

  function Send(r: Request): Request {
    r.(phase := InFlight, sends := r.sends + 1)
  }

  function Settle(r: Request, ok: bool): Request {
    r.(phase := Settled(ok))
  }

  /** A failed response: lead a refresh, wait for the one under way, or give up. */
  function OnUnauthorized(s: State, i: nat, canRefresh: bool): State
    requires i < |s.reqs|
  {
    var r := s.reqs[i];
    if r.retried || !canRefresh then s.(reqs := s.reqs[i := Settle(r, false)])
    else if s.isRefreshing then
      s.(reqs := s.reqs[i := r.(phase := Waiting)], failedQueue := s.failedQueue + [i])
    else
      State(s.reqs[i := r.(phase := Refreshing, retried := true)], true, s.failedQueue)
  }

  function OnResponse(s: State, i: nat, status: Status, canRefresh: bool): State
    requires i < |s.reqs|
  {
    match status
    case Success => s.(reqs := s.reqs[i := Settle(s.reqs[i], true)])
    case OtherError => s.(reqs := s.reqs[i := Settle(s.reqs[i], false)])
    case Unauthorized => OnUnauthorized(s, i, canRefresh)
  }

  /** Draining the queue resolves or rejects every request in it. */
  function Drain(reqs: seq<Request>, queue: seq<nat>, ok: bool): (r: seq<Request>)
    ensures |r| == |reqs|
    ensures forall i :: 0 <= i < |reqs| ==>
              r[i] == if i !in queue then reqs[i]
                      else if ok then reqs[i].(phase := Released) else Settle(reqs[i], false)
  {
    seq(|reqs|, i requires 0 <= i < |reqs| =>
      if i !in queue then reqs[i]
      else if ok then reqs[i].(phase := Released) else Settle(reqs[i], false))
  }

  /** The refresh of leader `i` ends: drain the queue, resend or reject the leader. */
  function OnRefreshed(s: State, i: nat, ok: bool): State
    requires i < |s.reqs|
  {
    var drained := Drain(s.reqs, s.failedQueue, ok);
    State(drained[i := if ok then Send(drained[i]) else Settle(drained[i], false)], false, [])
  }

  function Apply(s: State, ev: Event, canRefresh: bool): State
    requires Enabled(s, ev)
  {
    match ev
    case Issue(i) => s.(reqs := s.reqs[i := Send(s.reqs[i])])
    case Respond(i, status) => OnResponse(s, i, status, canRefresh)
    case FinishRefresh(i, ok) => OnRefreshed(s, i, ok)
    case Resend(i) => s.(reqs := s.reqs[i := Send(s.reqs[i])])
  }

  // ----- what every step keeps -----

  ghost predicate SingleFlight(s: State) {
    && (forall i :: 0 <= i < |s.reqs| && s.reqs[i].phase.Refreshing? ==> s.isRefreshing && s.reqs[i].retried)
    && (forall i, j :: 0 <= i < j < |s.reqs| ==> !(s.reqs[i].phase.Refreshing? && s.reqs[j].phase.Refreshing?))
    && (s.isRefreshing ==> exists i :: 0 <= i < |s.reqs| && s.reqs[i].phase.Refreshing?)
  }

  ghost predicate QueueMatches(s: State) {
    && (forall i :: i in s.failedQueue ==> i < |s.reqs|)
    && (forall i :: 0 <= i < |s.reqs| ==> (s.reqs[i].phase.Waiting? <==> i in s.failedQueue))
    && (forall i, j :: 0 <= i < j < |s.failedQueue| ==> s.failedQueue[i] != s.failedQueue[j])
    && (!s.isRefreshing ==> s.failedQueue == [])
  }

  lemma InitSafe(n: nat)
    ensures SingleFlight(Init(n)) && QueueMatches(Init(n))
  {}

  /** Who refreshes after a step: whoever did before, unless that refresh ended, or a request
      that starts one while none was under way. */
  lemma RefresherAfter(s: State, ev: Event, can: bool, i: nat)
    requires QueueMatches(s) && Enabled(s, ev) && i < |s.reqs|
    ensures Apply(s, ev, can).reqs[i].phase.Refreshing? <==>
            || (s.reqs[i].phase.Refreshing? && !(ev.FinishRefresh? && i == ev.i))
            || (i == ev.i && !s.isRefreshing && Apply(s, ev, can).isRefreshing)
    ensures Apply(s, ev, can).reqs[i].phase.Refreshing? && !s.reqs[i].phase.Refreshing? ==>
              Apply(s, ev, can).reqs[i].retried
    ensures s.reqs[i].retried ==> Apply(s, ev, can).reqs[i].retried
  {}

  /** One refresh at a time, in every step. */
  lemma StepKeepsSingleFlight(s: State, ev: Event, can: bool)
    requires SingleFlight(s) && QueueMatches(s) && Enabled(s, ev)
    ensures SingleFlight(Apply(s, ev, can))
  {
    var t := Apply(s, ev, can);
    forall i: nat | i < |s.reqs|
      ensures t.reqs[i].phase.Refreshing? <==>
              || (s.reqs[i].phase.Refreshing? && !(ev.FinishRefresh? && i == ev.i))
              || (i == ev.i && !s.isRefreshing && t.isRefreshing)
      ensures t.reqs[i].phase.Refreshing? ==> t.reqs[i].retried
    {
      RefresherAfter(s, ev, can, i);
    }
    if t.isRefreshing && s.isRefreshing {
      var i :| 0 <= i < |s.reqs| && s.reqs[i].phase.Refreshing?;
      assert t.reqs[i].phase.Refreshing?;
    }
    if t.isRefreshing && !s.isRefreshing {
      assert t.reqs[ev.i].phase.Refreshing?;
    }
  }

  /** The queue holds exactly the waiting requests, each once, and is empty while no refresh
      is under way. */
  lemma StepKeepsQueue(s: State, ev: Event, can: bool)
    requires SingleFlight(s) && QueueMatches(s) && Enabled(s, ev)
    ensures QueueMatches(Apply(s, ev, can))
  {}

  /** A settled request is never touched again. */
  lemma SettledForever(s: State, ev: Event, can: bool, i: nat)
    requires QueueMatches(s) && Enabled(s, ev)
    requires i < |s.reqs| && s.reqs[i].phase.Settled?
    ensures Apply(s, ev, can).reqs[i] == s.reqs[i]
  {}

  /** While a request is unsettled, something can happen: nothing waits forever. */
  lemma NoDeadlock(s: State)
    requires SingleFlight(s) && QueueMatches(s)
    requires exists i :: 0 <= i < |s.reqs| && !s.reqs[i].phase.Settled?
    ensures exists ev :: Enabled(s, ev)
  {
    var i :| 0 <= i < |s.reqs| && !s.reqs[i].phase.Settled?;
    match s.reqs[i].phase
    case Idle => assert Enabled(s, Issue(i));
    case InFlight => assert Enabled(s, Respond(i, Success));
    case Refreshing => assert Enabled(s, FinishRefresh(i, true));
    case Released => assert Enabled(s, Resend(i));
    case Waiting =>
      assert s.isRefreshing;
      var j :| 0 <= j < |s.reqs| && s.reqs[j].phase.Refreshing?;
      assert Enabled(s, FinishRefresh(j, true));
  }

  // ----- counting sends and refreshes -----

  function Sum(s: seq<nat>): nat {
    if s == [] then 0 else Sum(s[..|s| - 1]) + s[|s| - 1]
  }

  lemma {:induction false} SumMonotone(a: seq<nat>, b: seq<nat>)
    requires |a| == |b| && forall i :: 0 <= i < |a| ==> a[i] <= b[i]
    ensures Sum(a) <= Sum(b)
    ensures Sum(a) == Sum(b) <==> a == b
  {
    if a != [] {
      var n := |a| - 1;
      SumMonotone(a[..n], b[..n]);
      assert a == a[..n] + [a[n]] && b == b[..n] + [b[n]];
    }
  }

  lemma {:induction false} SumUpdate(a: seq<nat>, i: nat, x: nat)
    requires i < |a|
    ensures Sum(a[i := x]) == Sum(a) - a[i] + x
  {
    var n := |a| - 1;
    if i == n {
      assert a[i := x][..n] == a[..n];
    } else {
      assert a[i := x][..n] == a[..n][i := x];
      SumUpdate(a[..n], i, x);
    }
  }

  lemma {:induction false} SumBound(a: seq<nat>, n: nat, k: nat)
    requires |a| == n && forall i :: 0 <= i < |a| ==> a[i] <= k
    ensures Sum(a) <= n * k
  {
    if n > 0 {
      SumBound(a[..n - 1], n - 1, k);
      assert n * k == (n - 1) * k + k;
    }
  }

  /** Each refresh is led by a request that never leads again. */
  function Led(reqs: seq<Request>): (r: seq<nat>)
    ensures |r| == |reqs| && forall i :: 0 <= i < |r| ==> r[i] == if reqs[i].retried then 1 else 0
  {
    seq(|reqs|, i requires 0 <= i < |reqs| => if reqs[i].retried then 1 else 0)
  }

  function Sent(reqs: seq<Request>): (r: seq<nat>)
    ensures |r| == |reqs| && forall i :: 0 <= i < |r| ==> r[i] == reqs[i].sends
  {
    seq(|reqs|, i requires 0 <= i < |reqs| => reqs[i].sends)
  }

  function Refreshes(s: State): nat {
    Sum(Led(s.reqs))
  }

  function Completed(s: State): int {
    Refreshes(s) - if s.isRefreshing then 1 else 0
  }

  /** A request is sent once, and once more per completed refresh at most. */
  ghost predicate SendsBounded(s: State) {
    && (forall i :: 0 <= i < |s.reqs| ==>
          s.reqs[i].sends + (if s.reqs[i].phase.Released? then 1 else 0) <= 1 + Completed(s))
    && (forall i :: 0 <= i < |s.reqs| && s.reqs[i].phase.Idle? ==> s.reqs[i].sends == 0)
  }

  lemma {:induction false} NothingLed(n: nat)
    ensures Sum(seq(n, i => 0)) == 0
  {
    if n > 0 {
      assert seq(n, i => 0)[..n - 1] == seq(n - 1, i => 0);
      NothingLed(n - 1);
    }
  }

  lemma InitBounded(n: nat)
    ensures SendsBounded(Init(n)) && Refreshes(Init(n)) == 0
  {
    assert Led(Init(n).reqs) == seq(n, i => 0);
    NothingLed(n);
  }

  /** How many refreshes a step completes. */
  lemma StepCompletes(s: State, ev: Event, can: bool)
    requires SingleFlight(s) && QueueMatches(s) && Enabled(s, ev)
    ensures Completed(Apply(s, ev, can)) == Completed(s) + if ev.FinishRefresh? then 1 else 0
  {
    var t := Apply(s, ev, can);
    if t.isRefreshing && !s.isRefreshing {
      assert Led(t.reqs) == Led(s.reqs)[ev.i := 1];
      SumUpdate(Led(s.reqs), ev.i, 1);
    } else {
      assert Led(t.reqs) == Led(s.reqs);
    }
  }

  lemma RequestKeepsBound(s: State, ev: Event, can: bool, i: nat)
    requires QueueMatches(s) && Enabled(s, ev) && i < |s.reqs|
    ensures var r, t := s.reqs[i], Apply(s, ev, can).reqs[i];
            && t.sends + (if t.phase.Released? then 1 else 0)
               <= r.sends + (if r.phase.Released? then 1 else 0)
                  + (if ev.FinishRefresh? || r.phase.Idle? then 1 else 0)
            && (t.phase.Idle? ==> r.phase.Idle? && t.sends == r.sends)
  {}

  lemma StepKeepsBound(s: State, ev: Event, can: bool)
    requires SingleFlight(s) && QueueMatches(s) && SendsBounded(s) && Enabled(s, ev)
    ensures SendsBounded(Apply(s, ev, can))
  {
    StepCompletes(s, ev, can);
    CompletedNonNegative(s);
    var t := Apply(s, ev, can);
    forall i | 0 <= i < |t.reqs|
      ensures t.reqs[i].sends + (if t.reqs[i].phase.Released? then 1 else 0) <= 1 + Completed(t)
      ensures t.reqs[i].phase.Idle? ==> t.reqs[i].sends == 0
    {
      RequestKeepsBound(s, ev, can, i);
    }
  }

  lemma CompletedNonNegative(s: State)
    requires SingleFlight(s)
    ensures Completed(s) >= 0
  {
    if s.isRefreshing {
      var i :| 0 <= i < |s.reqs| && s.reqs[i].phase.Refreshing?;
      SumUpdate(Led(s.reqs), i, 0);
    }
  }

  // ----- progress -----

  /** A request's progress: three per send, plus how far it got since. */
  function Progress(r: Request): nat {
    3 * r.sends + match r.phase
                  case Idle => 0
                  case InFlight => 0
                  case Waiting => 1
                  case Refreshing => 1
                  case Released => 2
                  case Settled(_) => 2
  }

  function AllProgress(reqs: seq<Request>): (r: seq<nat>)
    ensures |r| == |reqs| && forall i :: 0 <= i < |r| ==> r[i] == Progress(reqs[i])
  {
    seq(|reqs|, i requires 0 <= i < |reqs| => Progress(reqs[i]))
  }

  lemma RequestProgresses(s: State, ev: Event, can: bool, i: nat)
    requires QueueMatches(s) && Enabled(s, ev) && i < |s.reqs|
    ensures Progress(s.reqs[i]) <= Progress(Apply(s, ev, can).reqs[i])
    ensures i == ev.i ==> Progress(s.reqs[i]) < Progress(Apply(s, ev, can).reqs[i])
  {}

  lemma StepProgresses(s: State, ev: Event, can: bool)
    requires QueueMatches(s) && Enabled(s, ev)
    ensures Sum(AllProgress(s.reqs)) < Sum(AllProgress(Apply(s, ev, can).reqs))
  {
    var a, b := AllProgress(s.reqs), AllProgress(Apply(s, ev, can).reqs);
    forall i | 0 <= i < |a|
      ensures a[i] <= b[i] && (i == ev.i ==> a[i] < b[i])
    {
      RequestProgresses(s, ev, can, i);
    }
    SumMonotone(a, b);
  }

  // ----- whole runs -----

  ghost predicate IsRun(n: nat, can: bool, evs: seq<Event>, s: State) {
    if evs == [] then s == Init(n)
    else
      var ev := evs[|evs| - 1];
      exists t :: IsRun(n, can, evs[..|evs| - 1], t) && Enabled(t, ev) && s == Apply(t, ev, can)
  }

  ghost predicate Safe(s: State) {
    SingleFlight(s) && QueueMatches(s) && SendsBounded(s)
  }

  lemma StepKeepsSafe(s: State, ev: Event, can: bool)
    requires Safe(s) && Enabled(s, ev)
    ensures Safe(Apply(s, ev, can))
  {
    StepKeepsSingleFlight(s, ev, can);
    StepKeepsQueue(s, ev, can);
    StepKeepsBound(s, ev, can);
  }

  lemma StepFacts(t: State, ev: Event, can: bool, s: State)
    requires Safe(t) && Enabled(t, ev) && s == Apply(t, ev, can)
    ensures Safe(s) && |s.reqs| == |t.reqs|
    ensures Sum(AllProgress(t.reqs)) < Sum(AllProgress(s.reqs))
  {
    StepKeepsSafe(t, ev, can);
    StepProgresses(t, ev, can);
  }

  lemma LastStep(n: nat, can: bool, evs: seq<Event>, s: State) returns (t: State)
    requires evs != [] && IsRun(n, can, evs, s)
    ensures IsRun(n, can, evs[..|evs| - 1], t)
    ensures Enabled(t, evs[|evs| - 1]) && s == Apply(t, evs[|evs| - 1], can)
  {
    t :| IsRun(n, can, evs[..|evs| - 1], t) && Enabled(t, evs[|evs| - 1]) && s == Apply(t, evs[|evs| - 1], can);
  }

  lemma {:induction false} RunsAreSafe(n: nat, can: bool, evs: seq<Event>, s: State)
    requires IsRun(n, can, evs, s)
    ensures |s.reqs| == n && Safe(s)
    ensures |evs| <= Sum(AllProgress(s.reqs))
  {
    if evs == [] {
      InitSafe(n);
      InitBounded(n);
    } else {
      var t := LastStep(n, can, evs, s);
      RunsAreSafe(n, can, evs[..|evs| - 1], t);
      StepFacts(t, evs[|evs| - 1], can, s);
    }
  }

  /** A run that cannot go on has settled every request. */
  lemma FinalRunsSettleAll(n: nat, can: bool, evs: seq<Event>, s: State)
    requires IsRun(n, can, evs, s)
    requires forall ev :: !Enabled(s, ev)
    ensures |s.reqs| == n && forall i :: 0 <= i < n ==> s.reqs[i].phase.Settled?
    ensures !s.isRefreshing && s.failedQueue == []
  {
    RunsAreSafe(n, can, evs, s);
    if exists i :: 0 <= i < |s.reqs| && !s.reqs[i].phase.Settled? {
      NoDeadlock(s);
    }
  }

  // ----- the interceptor as the source runs it -----

  class Interceptor {
    const canRefresh: bool
    var isRefreshing: bool
    var failedQueue: seq<nat>
    var reqs: seq<Request>

    ghost function Abs(): State
      reads this
    {
      State(reqs, isRefreshing, failedQueue)
    }

    constructor (n: nat, canRefresh: bool)
      ensures Abs() == Init(n) && this.canRefresh == canRefresh
    {
      this.canRefresh := canRefresh;
      isRefreshing, failedQueue := false, [];
      reqs := seq(n, i => Request(Idle, false, 0));
    }

    /** Hands a request to the HTTP client, the first time or again. */
    method Transmit(i: nat)
      requires i < |reqs|
      modifies this`reqs
      ensures reqs == old(reqs)[i := Send(old(reqs)[i])]
    {
      reqs := reqs[i := Send(reqs[i])];
    }

    /** Resolves or rejects every queued promise, then empties the queue. */
    method ProcessQueue(ok: bool)
      requires forall i :: i in failedQueue ==> i < |reqs|
      requires forall i, j :: 0 <= i < j < |failedQueue| ==> failedQueue[i] != failedQueue[j]
      modifies this`reqs, this`failedQueue
      ensures reqs == Drain(old(reqs), old(failedQueue), ok)
      ensures failedQueue == []
    {
      for k := 0 to |failedQueue|
        invariant failedQueue == old(failedQueue)
        invariant reqs == Drain(old(reqs), failedQueue[..k], ok)
      {
        var i := failedQueue[k];
        assert i in failedQueue && i !in failedQueue[..k];
        assert failedQueue[..k + 1] == failedQueue[..k] + [i];
        reqs := reqs[i := if ok then reqs[i].(phase := Released) else Settle(reqs[i], false)];
      }
      assert failedQueue[..|failedQueue|] == failedQueue;
      failedQueue := [];
    }

    /** The interceptor on a response, up to the point where it waits for something. */
    method OnReply(i: nat, status: Status)
      requires Enabled(Abs(), Respond(i, status))
      modifies this`reqs, this`isRefreshing, this`failedQueue
      ensures Abs() == Apply(old(Abs()), Respond(i, status), canRefresh)
    {
      if status == Success {
        reqs := reqs[i := Settle(reqs[i], true)];
      } else if status == Unauthorized && !reqs[i].retried && canRefresh {
        if isRefreshing {
          failedQueue := failedQueue + [i];
          reqs := reqs[i := reqs[i].(phase := Waiting)];
          return;
        }
        reqs := reqs[i := reqs[i].(retried := true, phase := Refreshing)];
        isRefreshing := true;
      } else {
        reqs := reqs[i := Settle(reqs[i], false)];
      }
    }

    /** The rest of the leader's handler, once the refresh has settled. */
    method OnRefreshSettled(i: nat, ok: bool)
      requires Safe(Abs()) && Enabled(Abs(), FinishRefresh(i, ok))
      modifies this`reqs, this`isRefreshing, this`failedQueue
      ensures Abs() == Apply(old(Abs()), FinishRefresh(i, ok), canRefresh)
    {
      ProcessQueue(ok);
      if ok {
        Transmit(i);
      } else {
        reqs := reqs[i := Settle(reqs[i], false)];
      }
      isRefreshing := false;
    }
  }
}
