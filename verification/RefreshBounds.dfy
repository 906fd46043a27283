/** How many refreshes, sends and steps any interleaving of requests can take, and a run that
    takes them all. */
module RefreshBounds {
  import opened TokenRefresh

  // ----- sums -----

  lemma {:induction false} SumSplit(a: seq<nat>, b: seq<nat>, c: seq<nat>)
    requires |a| == |b| == |c| && forall i :: 0 <= i < |a| ==> a[i] <= b[i] + c[i]
    ensures Sum(a) <= Sum(b) + Sum(c)
  {
    if a != [] {
      var n := |a| - 1;
      SumSplit(a[..n], b[..n], c[..n]);
    }
  }

  /** Trading term by term, with a gain of one at `k`, gains one in the sums. */
  lemma {:induction false} SumTrade(a: seq<nat>, b: seq<nat>, c: seq<nat>, d: seq<nat>, k: nat)
    requires |a| == |b| == |c| == |d|
    requires forall i :: 0 <= i < |a| ==> a[i] + b[i] + (if i == k then 1 else 0) <= c[i] + d[i]
    ensures Sum(a) + Sum(b) + (if k < |a| then 1 else 0) <= Sum(c) + Sum(d)
  {
    if a != [] {
      var n := |a| - 1;
      SumTrade(a[..n], b[..n], c[..n], d[..n], k);
    }
  }

  // ----- leaders -----

  function LeadSent(r: Request): nat {
    if r.retried then r.sends + if r.phase.Refreshing? then 1 else 0 else 0
  }

  function LeadSents(reqs: seq<Request>): (r: seq<nat>)
    ensures |r| == |reqs| && forall i :: 0 <= i < |r| ==> r[i] == LeadSent(reqs[i])
  {
    seq(|reqs|, i requires 0 <= i < |reqs| => LeadSent(reqs[i]))
  }

  /** Steps that a leader has still to take. */
  function Due(r: Request): nat {
    if !r.retried then 0 else if r.phase.Refreshing? then 2 else if r.phase.InFlight? then 1 else 0
  }

  function Dues(reqs: seq<Request>): (r: seq<nat>)
    ensures |r| == |reqs| && forall i :: 0 <= i < |r| ==> r[i] == Due(reqs[i])
  {
    seq(|reqs|, i requires 0 <= i < |reqs| => Due(reqs[i]))
  }

  /** Steps that a request which never led has taken: one per send, one per response. */
  function Taken(r: Request): nat {
    if r.retried || r.sends == 0 then 0 else if r.phase.InFlight? then 2 * r.sends - 1 else 2 * r.sends
  }

  function Takens(reqs: seq<Request>): (r: seq<nat>)
    ensures |r| == |reqs| && forall i :: 0 <= i < |r| ==> r[i] == Taken(reqs[i])
  {
    seq(|reqs|, i requires 0 <= i < |reqs| => Taken(reqs[i]))
  }

  /** A request that led a refresh never queues again, and what is under way has been sent. */
  ghost predicate LeadsOnce(s: State) {
    forall i :: 0 <= i < |s.reqs| ==>
      && (s.reqs[i].retried ==> s.reqs[i].phase.Refreshing? || s.reqs[i].phase.InFlight? || s.reqs[i].phase.Settled?)
      && (!s.reqs[i].phase.Idle? ==> s.reqs[i].sends > 0)
  }

  /** The leader of the k-th refresh accounts for k + 1 sends, and for twice as many steps. */
  function Quota(l: nat): nat {
    if l == 0 then 0 else Quota(l - 1) + 2 * (l + 1)
  }

  lemma {:induction false} QuotaIs(l: nat)
    ensures Quota(l) == l * (l + 3)
  {
    if l > 0 {
      QuotaIs(l - 1);
      assert l * (l + 3) == (l - 1) * (l + 2) + 2 * (l + 1);
    }
  }

  ghost predicate Ledger(s: State, steps: nat) {
    && LeadsOnce(s)
    && 2 * Sum(LeadSents(s.reqs)) <= Quota(Refreshes(s))
    && steps + Sum(Dues(s.reqs)) <= Sum(Takens(s.reqs)) + Quota(Refreshes(s))
  }

  lemma StepLeadsOnce(s: State, ev: Event, can: bool)
    requires QueueMatches(s) && LeadsOnce(s) && Enabled(s, ev)
    ensures LeadsOnce(Apply(s, ev, can))
  {}

  predicate StartsRefresh(s: State, ev: Event, can: bool)
    requires Enabled(s, ev)
  {
    !s.isRefreshing && Apply(s, ev, can).isRefreshing
  }

  lemma DrainedKeepsLedger(r: Request, ok: bool)
    requires r.phase.Waiting? && !r.retried && r.sends > 0
    ensures var t := if ok then r.(phase := Released) else Settle(r, false);
            LeadSent(t) == LeadSent(r) && Taken(t) == Taken(r) && Due(t) == Due(r)
  {}

  lemma LeaderKeepsLedger(r: Request, ok: bool)
    requires r.phase.Refreshing? && r.retried
    ensures var t := if ok then Send(r) else Settle(r, false);
            LeadSent(t) <= LeadSent(r) && Taken(t) == Taken(r) && Due(t) + 1 <= Due(r)
  {}

  /** Apart from the request that starts a refresh, nobody sends more than was accounted for. */
  lemma RequestKeepsLedger(s: State, ev: Event, can: bool, i: nat)
    requires SingleFlight(s) && QueueMatches(s) && LeadsOnce(s) && SendsBounded(s)
    requires Enabled(s, ev) && i < |s.reqs| && !StartsRefresh(s, ev, can)
    ensures var r, t := s.reqs[i], Apply(s, ev, can).reqs[i];
            && r.retried == t.retried && LeadSent(t) <= LeadSent(r)
            && Taken(r) + Due(t) + (if i == ev.i then 1 else 0) <= Taken(t) + Due(r)
  {
    if ev.FinishRefresh? {
      if i == ev.i {
        LeaderKeepsLedger(s.reqs[i], ev.ok);
      } else if s.reqs[i].phase.Waiting? {
        DrainedKeepsLedger(s.reqs[i], ev.ok);
      }
    }
  }

  lemma StepKeepsLedger(s: State, ev: Event, can: bool, steps: nat)
    requires Safe(s) && Ledger(s, steps) && Enabled(s, ev)
    ensures Ledger(Apply(s, ev, can), steps + 1)
  {
    StepLeadsOnce(s, ev, can);
    if StartsRefresh(s, ev, can) {
      StartKeepsLedger(s, ev, can, steps);
    } else {
      OtherKeepsLedger(s, ev, can, steps);
    }
  }

  lemma OtherKeepsLedger(s: State, ev: Event, can: bool, steps: nat)
    requires Safe(s) && Ledger(s, steps) && Enabled(s, ev) && !StartsRefresh(s, ev, can)
    requires LeadsOnce(Apply(s, ev, can))
    ensures Ledger(Apply(s, ev, can), steps + 1)
  {
    var t := Apply(s, ev, can);
    forall i: nat | i < |s.reqs|
      ensures Traded(s.reqs[i], t.reqs[i], i == ev.i)
    {
      RequestKeepsLedger(s, ev, can, i);
    }
    TradedSums(s.reqs, t.reqs, ev.i);
  }

  /** `t` sends and owes no more than `r` does, and took a step more if it is the one to move. */
  predicate Traded(r: Request, t: Request, moved: bool) {
    && r.retried == t.retried && LeadSent(t) <= LeadSent(r)
    && Taken(r) + Due(t) + (if moved then 1 else 0) <= Taken(t) + Due(r)
  }

  lemma TradedSums(before: seq<Request>, after: seq<Request>, k: nat)
    requires |before| == |after| && k < |before|
    requires forall i: nat :: i < |before| ==> Traded(before[i], after[i], i == k)
    ensures Sum(Led(after)) == Sum(Led(before)) && Sum(LeadSents(after)) <= Sum(LeadSents(before))
    ensures Sum(Takens(before)) + Sum(Dues(after)) + 1 <= Sum(Takens(after)) + Sum(Dues(before))
  {
    assert Led(after) == Led(before);
    SumMonotone(LeadSents(after), LeadSents(before));
    SumTrade(Takens(before), Dues(after), Takens(after), Dues(before), k);
  }

  /** The leader of refresh number l + 1 was sent l + 1 times at most. */
  lemma StartKeepsLedger(s: State, ev: Event, can: bool, steps: nat)
    requires Safe(s) && Ledger(s, steps) && Enabled(s, ev) && StartsRefresh(s, ev, can)
    requires LeadsOnce(Apply(s, ev, can))
    ensures Ledger(Apply(s, ev, can), steps + 1)
  {
    var i := ev.i;
    assert Apply(s, ev, can).reqs == s.reqs[i := s.reqs[i].(phase := Refreshing, retried := true)];
    assert s.reqs[i].sends <= Refreshes(s) + 1;
    StartSums(s.reqs, i);
  }

  lemma StartSums(reqs: seq<Request>, i: nat)
    requires i < |reqs| && reqs[i].phase.InFlight? && !reqs[i].retried && reqs[i].sends > 0
    ensures var after := reqs[i := reqs[i].(phase := Refreshing, retried := true)];
            && Sum(Led(after)) == Sum(Led(reqs)) + 1
            && Sum(LeadSents(after)) == Sum(LeadSents(reqs)) + reqs[i].sends + 1
            && Sum(Dues(after)) == Sum(Dues(reqs)) + 2
            && Sum(Takens(after)) == Sum(Takens(reqs)) - (2 * reqs[i].sends - 1)
  {
    var n := reqs[i].sends;
    var after := reqs[i := reqs[i].(phase := Refreshing, retried := true)];
    assert Led(after) == Led(reqs)[i := 1];
    assert LeadSents(after) == LeadSents(reqs)[i := n + 1];
    assert Dues(after) == Dues(reqs)[i := 2];
    assert Takens(after) == Takens(reqs)[i := 0];
    SumUpdate(Led(reqs), i, 1);
    SumUpdate(LeadSents(reqs), i, n + 1);
    SumUpdate(Dues(reqs), i, 2);
    SumUpdate(Takens(reqs), i, 0);
  }

  lemma InitLedger(n: nat)
    ensures Ledger(Init(n), 0)
  {
    InitBounded(n);
    var reqs := Init(n).reqs;
    assert LeadSents(reqs) == seq(n, i => 0) && Dues(reqs) == seq(n, i => 0);
    NothingLed(n);
  }

  lemma {:induction false} RunsKeepLedger(n: nat, can: bool, evs: seq<Event>, s: State)
    requires IsRun(n, can, evs, s)
    ensures Ledger(s, |evs|)
  {
    if evs == [] {
      InitLedger(n);
    } else {
      var t := LastStep(n, can, evs, s);
      RunsAreSafe(n, can, evs[..|evs| - 1], t);
      RunsKeepLedger(n, can, evs[..|evs| - 1], t);
      StepKeepsLedger(t, evs[|evs| - 1], can, |evs| - 1);
    }
  }

  // ----- the bounds -----

  function OtherSents(reqs: seq<Request>): (r: seq<nat>)
    ensures |r| == |reqs| && forall i :: 0 <= i < |r| ==> r[i] == if reqs[i].retried then 0 else reqs[i].sends
  {
    seq(|reqs|, i requires 0 <= i < |reqs| => if reqs[i].retried then 0 else reqs[i].sends)
  }

  /** Where leaders count nothing and the others `k` at most, the sum is `k` for each other. */
  lemma {:induction false} SumOthers(a: seq<nat>, reqs: seq<Request>, k: nat)
    requires |a| == |reqs|
    requires forall i :: 0 <= i < |a| ==> a[i] <= if reqs[i].retried then 0 else k
    ensures Sum(Led(reqs)) <= |reqs| && Sum(a) <= (|reqs| - Sum(Led(reqs))) * k
  {
    if a != [] {
      var n := |a| - 1;
      SumOthers(a[..n], reqs[..n], k);
      assert Led(reqs)[..n] == Led(reqs[..n]);
      var others := n - Sum(Led(reqs[..n]));
      assert (others + 1) * k == others * k + k;
    }
  }

  /** With `l` leaders and `m` others. */
  lemma Arithmetic(l: nat, m: nat)
    ensures l * (l + 3) + 2 * (m * (l + 1)) <= (l + m) * (l + m + 3)
  {
    calc {
      (l + m) * (l + m + 3);
      l * (l + m + 3) + m * (l + m + 3);
      { assert l * (l + m + 3) == l * (l + 3) + l * m; assert m * (l + m + 3) == m * l + m * (m + 3); }
      l * (l + 3) + l * m + m * l + m * (m + 3);
      { assert m * (m + 3) == m * (m + 1) + 2 * m; assert l * m == m * l; assert m * (l + 1) == m * l + m; }
      l * (l + 3) + 2 * (m * (l + 1)) + m * (m + 1);
    }
    assert m * (m + 1) >= 0;
  }

  /** A request that never led was sent once, and once more per refresh at most. */
  lemma OtherBounded(s: State, i: nat)
    requires Safe(s) && i < |s.reqs| && !s.reqs[i].retried
    ensures s.reqs[i].sends <= Refreshes(s) + 1
  {}

  lemma OthersBounded(s: State)
    requires Safe(s)
    ensures var l, n := Refreshes(s), |s.reqs|;
            && l <= n
            && Sum(OtherSents(s.reqs)) <= (n - l) * (l + 1)
            && Sum(Takens(s.reqs)) <= (n - l) * (2 * (l + 1))
  {
    var l := Refreshes(s);
    var most, steps := l + 1, 2 * (l + 1);
    forall i | 0 <= i < |s.reqs|
      ensures OtherSents(s.reqs)[i] <= if s.reqs[i].retried then 0 else most
      ensures Takens(s.reqs)[i] <= if s.reqs[i].retried then 0 else steps
    {
      if !s.reqs[i].retried {
        OtherBounded(s, i);
      }
    }
    SumOthers(OtherSents(s.reqs), s.reqs, most);
    SumOthers(Takens(s.reqs), s.reqs, steps);
  }

  /** What `m` requests that never lead may be sent, doubled, fits the quota of `m` more leaders. */
  lemma QuotaGrows(l: nat, m: nat, others: nat)
    requires others <= m * (l + 1)
    ensures Quota(l) + 2 * others <= Quota(l + m)
  {
    QuotaIs(l);
    QuotaIs(l + m);
    Arithmetic(l, m);
  }

  lemma StepsPerOther(m: nat, l: nat, taken: nat)
    requires taken <= m * (2 * (l + 1))
    ensures taken <= 2 * (m * (l + 1))
  {
    assert m * (2 * (l + 1)) == 2 * (m * (l + 1));
  }

  lemma BoundsAddUp(n: nat, l: nat, lead: nat, others: nat, taken: nat)
    requires l <= n && 2 * lead <= Quota(l)
    requires others <= (n - l) * (l + 1) && taken <= (n - l) * (2 * (l + 1))
    ensures 2 * (lead + others) <= Quota(n) && taken + Quota(l) <= Quota(n)
  {
    QuotaGrows(l, n - l, others);
    StepsPerOther(n - l, l, taken);
    QuotaGrows(l, n - l, (n - l) * (l + 1));
  }

  lemma LedgerIsBounded(s: State, steps: nat)
    requires Safe(s) && Ledger(s, steps)
    ensures Refreshes(s) <= |s.reqs|
    ensures 2 * Sum(Sent(s.reqs)) <= Quota(|s.reqs|) && steps <= Quota(|s.reqs|)
  {
    OthersBounded(s);
    BoundsAddUp(|s.reqs|, Refreshes(s), Sum(LeadSents(s.reqs)), Sum(OtherSents(s.reqs)), Sum(Takens(s.reqs)));
    SumSplit(Sent(s.reqs), LeadSents(s.reqs), OtherSents(s.reqs));
  }

  /** In every interleaving of `n` requests: at most `n` refreshes, `n(n+3)/2` sends and
      `n(n+3)` steps, and each request is sent at most `n + 1` times. */
  lemma RunsAreBounded(n: nat, can: bool, evs: seq<Event>, s: State)
    requires IsRun(n, can, evs, s)
    ensures Refreshes(s) <= n
    ensures |s.reqs| == n && forall i :: 0 <= i < n ==> s.reqs[i].sends <= n + 1
    ensures 2 * Sum(Sent(s.reqs)) <= n * (n + 3)
    ensures |evs| <= n * (n + 3)
  {
    RunsAreSafe(n, can, evs, s);
    RunsKeepLedger(n, can, evs, s);
    LedgerIsBounded(s, |evs|);
    QuotaIs(n);
  }

  // ----- a run that attains them -----

  /** Requests before `k` have led and failed again; the others are under way once more. */
  function Round(n: nat, k: nat): State {
    State(seq(n, i requires 0 <= i < n => if i < k then Request(Settled(false), true, i + 2)
                                          else Request(InFlight, false, k + 1)),
          false, [])
  }

  function Issued(n: nat, m: nat): State {
    State(seq(n, i requires 0 <= i < n => if i < m then Request(InFlight, false, 1) else Request(Idle, false, 0)),
          false, [])
  }

  /** Request `k` leads, and those up to `m` wait for it. */
  function Queued(n: nat, k: nat, m: nat): State
    requires k < m
  {
    State(seq(n, i requires 0 <= i < n => if i < k then Request(Settled(false), true, i + 2)
                      else if i == k then Request(Refreshing, true, k + 1)
                      else if i < m then Request(Waiting, false, k + 1)
                      else Request(InFlight, false, k + 1)),
          true, seq(m - k - 1, j => k + 1 + j))
  }

  /** The refresh led by `k` has ended well. */
  function Refreshed(n: nat, k: nat): State {
    State(seq(n, i requires 0 <= i < n => if i < k then Request(Settled(false), true, i + 2)
                      else if i == k then Request(InFlight, true, k + 2)
                      else Request(Released, false, k + 1)),
          false, [])
  }

  /** Request `k` has failed for good, and the released ones up to `m` are sent again. */
  function Resent(n: nat, k: nat, m: nat): State {
    State(seq(n, i requires 0 <= i < n => if i <= k then Request(Settled(false), true, i + 2)
                      else if i < m then Request(InFlight, false, k + 2)
                      else Request(Released, false, k + 1)),
          false, [])
  }

  /** Events and the states they pass. */
  datatype Play = Play(evs: seq<Event>, states: seq<State>)

  ghost predicate MovesAt(p: Play, i: nat)
    requires i < |p.evs| && i + 1 < |p.states|
  {
    Enabled(p.states[i], p.evs[i]) && p.states[i + 1] == Apply(p.states[i], p.evs[i], true)
  }

  ghost predicate IsPlay(n: nat, p: Play, t: State) {
    && |p.states| == |p.evs| + 1
    && p.states[0] == Init(n) && p.states[|p.evs|] == t
    && forall i: nat {:trigger MovesAt(p, i)} :: i < |p.evs| ==> MovesAt(p, i)
  }

  lemma PlayOn(n: nat, p: Play, s: State, ev: Event, t: State) returns (q: Play)
    requires IsPlay(n, p, s) && Enabled(s, ev) && t == Apply(s, ev, true)
    ensures IsPlay(n, q, t) && |q.evs| == |p.evs| + 1
  {
    q := Play(p.evs + [ev], p.states + [t]);
    forall i: nat | i < |q.evs|
      ensures MovesAt(q, i)
    {
      if i < |p.evs| {
        assert MovesAt(p, i);
      }
    }
  }

  lemma {:induction false} PlayIsRun(n: nat, p: Play, t: State, k: nat)
    requires IsPlay(n, p, t) && k <= |p.evs|
    ensures IsRun(n, true, p.evs[..k], p.states[k])
  {
    if k > 0 {
      PlayIsRun(n, p, t, k - 1);
      assert MovesAt(p, k - 1);
      assert p.evs[..k][..k - 1] == p.evs[..k - 1];
    }
  }

  lemma IssueStep(n: nat, m: nat)
    requires m < n
    ensures Enabled(Issued(n, m), Issue(m)) && Apply(Issued(n, m), Issue(m), true) == Issued(n, m + 1)
  {
    assert Apply(Issued(n, m), Issue(m), true).reqs == Issued(n, m + 1).reqs;
  }

  lemma {:induction false} IssueAll(n: nat, m: nat) returns (p: Play)
    requires m <= n
    ensures IsPlay(n, p, Issued(n, m)) && |p.evs| == m
  {
    if m == 0 {
      p := Play([], [Init(n)]);
      assert Issued(n, 0) == Init(n);
    } else {
      p := IssueAll(n, m - 1);
      p := OneIssued(n, m - 1, p);
    }
  }

  lemma OneIssued(n: nat, m: nat, p: Play) returns (q: Play)
    requires m < n && IsPlay(n, p, Issued(n, m))
    ensures IsPlay(n, q, Issued(n, m + 1)) && |q.evs| == |p.evs| + 1
  {
    IssueStep(n, m);
    q := PlayOn(n, p, Issued(n, m), Issue(m), Issued(n, m + 1));
  }

  lemma QueueStep(n: nat, k: nat, m: nat)
    requires k < m < n
    ensures var s, ev := Queued(n, k, m), Respond(m, Unauthorized);
            Enabled(s, ev) && Apply(s, ev, true) == Queued(n, k, m + 1)
  {
    var t := Apply(Queued(n, k, m), Respond(m, Unauthorized), true);
    assert t.reqs == Queued(n, k, m + 1).reqs;
    assert t.failedQueue == Queued(n, k, m + 1).failedQueue;
  }

  lemma OneQueued(n: nat, k: nat, m: nat, p: Play) returns (q: Play)
    requires k < m < n && IsPlay(n, p, Queued(n, k, m))
    ensures IsPlay(n, q, Queued(n, k, m + 1)) && |q.evs| == |p.evs| + 1
  {
    QueueStep(n, k, m);
    q := PlayOn(n, p, Queued(n, k, m), Respond(m, Unauthorized), Queued(n, k, m + 1));
  }

  lemma {:induction false} QueueAll(n: nat, k: nat, m: nat, p0: Play) returns (p: Play)
    requires k < m <= n && IsPlay(n, p0, Queued(n, k, k + 1))
    ensures IsPlay(n, p, Queued(n, k, m)) && |p.evs| == |p0.evs| + m - k - 1
    decreases m
  {
    p := p0;
    if m > k + 1 {
      p := QueueAll(n, k, m - 1, p0);
      p := OneQueued(n, k, m - 1, p);
    }
  }

  lemma ResendStep(n: nat, k: nat, m: nat)
    requires k < m < n
    ensures Enabled(Resent(n, k, m), Resend(m)) && Apply(Resent(n, k, m), Resend(m), true) == Resent(n, k, m + 1)
  {
    assert Apply(Resent(n, k, m), Resend(m), true).reqs == Resent(n, k, m + 1).reqs;
  }

  lemma OneResent(n: nat, k: nat, m: nat, p: Play) returns (q: Play)
    requires k < m < n && IsPlay(n, p, Resent(n, k, m))
    ensures IsPlay(n, q, Resent(n, k, m + 1)) && |q.evs| == |p.evs| + 1
  {
    ResendStep(n, k, m);
    q := PlayOn(n, p, Resent(n, k, m), Resend(m), Resent(n, k, m + 1));
  }

  lemma {:induction false} ResendAll(n: nat, k: nat, m: nat, p0: Play) returns (p: Play)
    requires k < m <= n && IsPlay(n, p0, Resent(n, k, k + 1))
    ensures IsPlay(n, p, Resent(n, k, m)) && |p.evs| == |p0.evs| + m - k - 1
    decreases m
  {
    p := p0;
    if m > k + 1 {
      p := ResendAll(n, k, m - 1, p0);
      p := OneResent(n, k, m - 1, p);
    }
  }

  lemma LeadStep(n: nat, k: nat)
    requires k < n
    ensures var s, ev := Round(n, k), Respond(k, Unauthorized);
            Enabled(s, ev) && Apply(s, ev, true) == Queued(n, k, k + 1)
  {
    var t := Apply(Round(n, k), Respond(k, Unauthorized), true);
    assert t.reqs == Queued(n, k, k + 1).reqs;
    assert t.failedQueue == Queued(n, k, k + 1).failedQueue;
  }

  lemma LeadTurn(n: nat, k: nat, p: Play) returns (q: Play)
    requires k < n && IsPlay(n, p, Round(n, k))
    ensures IsPlay(n, q, Queued(n, k, k + 1)) && |q.evs| == |p.evs| + 1
  {
    LeadStep(n, k);
    q := PlayOn(n, p, Round(n, k), Respond(k, Unauthorized), Queued(n, k, k + 1));
  }

  lemma QueueHolds(n: nat, k: nat, i: nat)
    requires k < n && i < n
    ensures i in Queued(n, k, n).failedQueue <==> k < i
  {
    if k < i {
      assert Queued(n, k, n).failedQueue[i - k - 1] == i;
    }
  }

  lemma RefreshStep(n: nat, k: nat)
    requires k < n
    ensures var s, ev := Queued(n, k, n), FinishRefresh(k, true);
            Enabled(s, ev) && Apply(s, ev, true) == Refreshed(n, k)
  {
    var s := Queued(n, k, n);
    var drained := Drain(s.reqs, s.failedQueue, true);
    forall i: nat | i < n
      ensures drained[i] == if i <= k then s.reqs[i] else Request(Released, false, k + 1)
    {
      QueueHolds(n, k, i);
    }
    assert drained[k := Send(drained[k])] == Refreshed(n, k).reqs;
  }

  lemma RefreshTurn(n: nat, k: nat, p: Play) returns (q: Play)
    requires k < n && IsPlay(n, p, Queued(n, k, n))
    ensures IsPlay(n, q, Refreshed(n, k)) && |q.evs| == |p.evs| + 1
  {
    RefreshStep(n, k);
    q := PlayOn(n, p, Queued(n, k, n), FinishRefresh(k, true), Refreshed(n, k));
  }

  lemma FailStep(n: nat, k: nat)
    requires k < n
    ensures var s, ev := Refreshed(n, k), Respond(k, Unauthorized);
            Enabled(s, ev) && Apply(s, ev, true) == Resent(n, k, k + 1)
  {
    assert Apply(Refreshed(n, k), Respond(k, Unauthorized), true).reqs == Resent(n, k, k + 1).reqs;
  }

  lemma FailTurn(n: nat, k: nat, p: Play) returns (q: Play)
    requires k < n && IsPlay(n, p, Refreshed(n, k))
    ensures IsPlay(n, q, Resent(n, k, k + 1)) && |q.evs| == |p.evs| + 1
  {
    FailStep(n, k);
    q := PlayOn(n, p, Refreshed(n, k), Respond(k, Unauthorized), Resent(n, k, k + 1));
  }

  lemma NextRound(n: nat, k: nat)
    requires k < n
    ensures Resent(n, k, n) == Round(n, k + 1)
  {
    assert Resent(n, k, n).reqs == Round(n, k + 1).reqs;
  }

  lemma FirstRound(n: nat)
    ensures Issued(n, n) == Round(n, 0)
  {
    assert Issued(n, n).reqs == Round(n, 0).reqs;
  }

  /** Request `k` leads, the rest queue, all are sent again, and request `k` fails for good. */
  lemma PlayRound(n: nat, k: nat, p: Play) returns (q: Play)
    requires k < n && IsPlay(n, p, Round(n, k))
    ensures IsPlay(n, q, Round(n, k + 1)) && |q.evs| == |p.evs| + 2 * (n - k) + 1
  {
    q := LeadTurn(n, k, p);
    q := QueueAll(n, k, n, q);
    q := RefreshTurn(n, k, q);
    q := FailTurn(n, k, q);
    q := ResendAll(n, k, n, q);
    NextRound(n, k);
  }

  function StepsAfter(n: nat, k: nat): nat
    requires k <= n
  {
    if k == 0 then n else StepsAfter(n, k - 1) + 2 * (n - k + 1) + 1
  }

  lemma {:induction false} StepsAfterIs(n: nat, k: nat)
    requires k <= n
    ensures StepsAfter(n, k) == n + k * (2 * n - k + 2)
  {
    if k > 0 {
      StepsAfterIs(n, k - 1);
      assert k * (2 * n - k + 2) == (k - 1) * (2 * n - k + 3) + 2 * (n - k + 1) + 1;
    }
  }

  lemma {:induction false} PlayRounds(n: nat, k: nat) returns (p: Play)
    requires k <= n
    ensures IsPlay(n, p, Round(n, k)) && |p.evs| == StepsAfter(n, k)
    decreases k
  {
    if k == 0 {
      p := IssueAll(n, n);
      FirstRound(n);
    } else {
      p := PlayRounds(n, k - 1);
      p := PlayRound(n, k - 1, p);
    }
  }

  lemma {:induction false} SentInRounds(n: nat)
    ensures 2 * Sum(seq(n, i requires 0 <= i < n => i + 2)) == n * (n + 3)
  {
    if n > 0 {
      assert seq(n, i requires 0 <= i < n => i + 2)[..n - 1] == seq(n - 1, i requires 0 <= i < n - 1 => i + 2);
      assert n * (n + 3) == (n - 1) * (n + 2) + 2 * (n + 1);
      SentInRounds(n - 1);
    }
  }

  lemma {:induction false} AllLed(n: nat)
    ensures Sum(seq(n, i => 1)) == n
  {
    if n > 0 {
      assert seq(n, i => 1)[..n - 1] == seq(n - 1, i => 1);
      AllLed(n - 1);
    }
  }

  lemma LastRound(n: nat)
    ensures Refreshes(Round(n, n)) == n && 2 * Sum(Sent(Round(n, n).reqs)) == n * (n + 3)
  {
    var reqs := Round(n, n).reqs;
    assert Sent(reqs) == seq(n, i requires 0 <= i < n => i + 2);
    assert Led(reqs) == seq(n, i => 1);
    SentInRounds(n);
    AllLed(n);
  }

  lemma AllSteps(n: nat)
    ensures StepsAfter(n, n) == n * (n + 3)
  {
    StepsAfterIs(n, n);
    assert n + n * (2 * n - n + 2) == n * (n + 3);
  }

  /** The bounds are sharp: when every request fails, queues and leads in turn, there are `n`
      refreshes, `n(n+3)/2` sends and `n(n+3)` steps. */
  lemma BoundsAreAttained(n: nat) returns (evs: seq<Event>, s: State)
    ensures IsRun(n, true, evs, s)
    ensures Refreshes(s) == n && 2 * Sum(Sent(s.reqs)) == n * (n + 3) && |evs| == n * (n + 3)
  {
    s := Round(n, n);
    var p := PlayRounds(n, n);
    evs := p.evs;
    PlayIsRun(n, p, s, |evs|);
    assert evs[..|evs|] == evs;
    LastRound(n);
    AllSteps(n);
  }
}
