/** The two undo stacks as one line of snapshots with a place on it. */
module Timeline {
  import opened Wrappers
  import opened History

  /** `at` snapshots lie up to the one shown; the others can be redone. */
  datatype Line = Line(snapshots: seq<Snapshot>, at: nat)

  function Reversed(s: seq<Snapshot>): (r: seq<Snapshot>)
    ensures |r| == |s| && forall i :: 0 <= i < |s| ==> r[i] == s[|s| - 1 - i]
  {
    seq(|s|, i requires 0 <= i < |s| => s[|s| - 1 - i])
  }

  function LineOf(h: Stacks): Line {
    Line(h.past + Reversed(h.future), |h.past|)
  }

  function Newest(s: seq<Snapshot>, n: nat): seq<Snapshot> {
    if |s| > n then s[|s| - n..] else s
  }

  // ----- the line that users see -----

  datatype Step = Record(snapshot: Snapshot) | Back | Forward

  /** Recording cuts off what could be redone and keeps the newest fifty; undo and redo move
      along the line and never past its ends. */
  function Move(l: Line, step: Step): Line
    requires l.at <= |l.snapshots|
  {
    match step
    case Record(s) =>
      if l.at > 0 && l.snapshots[l.at - 1] == s then l
      else
        var kept := Newest(l.snapshots[..l.at] + [s], MAX_PAST);
        Line(kept, |kept|)
    case Back => if l.at >= 2 then l.(at := l.at - 1) else l
    case Forward => if l.at < |l.snapshots| then l.(at := l.at + 1) else l
  }

  function LineAfter(steps: seq<Step>): (l: Line)
    ensures l.at <= |l.snapshots| <= MAX_PAST
  {
    if steps == [] then Line([], 0) else Move(LineAfter(steps[..|steps| - 1]), steps[|steps| - 1])
  }

  // ----- the stacks follow the line -----

  function Take(h: Stacks, step: Step): Stacks {
    match step
    case Record(s) => Push(h, s)
    case Back => Undo(h)
    case Forward => Redo(h)
  }

  function StacksAfter(steps: seq<Step>): Stacks {
    if steps == [] then Stacks([], [], None) else Take(StacksAfter(steps[..|steps| - 1]), steps[|steps| - 1])
  }

  ghost predicate Sound(h: Stacks) {
    h == Stacks([], [], None) || Consistent(h)
  }

  lemma PushMoves(h: Stacks, s: Snapshot)
    requires Sound(h)
    ensures Sound(Push(h, s)) && LineOf(Push(h, s)) == Move(LineOf(h), Record(s))
  {
    var l := LineOf(h);
    assert l.snapshots[..l.at] == h.past;
    assert h.past != [] ==> l.snapshots[l.at - 1] == h.past[|h.past| - 1];
    if h.last != Some(s) {
      var past := Push(h, s).past;
      assert past == Newest(h.past + [s], MAX_PAST);
      assert past + Reversed([]) == past;
    }
  }

  lemma UndoMoves(h: Stacks)
    requires Sound(h)
    ensures Sound(Undo(h)) && LineOf(Undo(h)) == Move(LineOf(h), Back)
  {
    if CanUndo(h) {
      var n := |h.past|;
      var u := Undo(h);
      assert Reversed(u.future) == [h.past[n - 1]] + Reversed(h.future);
      assert h.past == h.past[..n - 1] + [h.past[n - 1]];
      assert LineOf(u).snapshots == LineOf(h).snapshots;
    }
  }

  lemma RedoMoves(h: Stacks)
    requires Sound(h)
    ensures Sound(Redo(h)) && LineOf(Redo(h)) == Move(LineOf(h), Forward)
  {
    if h.future != [] {
      var next := h.future[|h.future| - 1];
      var u := Redo(h);
      assert Reversed(h.future) == [next] + Reversed(u.future);
      assert LineOf(u).snapshots == LineOf(h).snapshots;
    }
  }

  /** After any run, past and future are the line and the place on it. */
  lemma {:induction false} StacksFollowLine(steps: seq<Step>)
    ensures Sound(StacksAfter(steps)) && LineOf(StacksAfter(steps)) == LineAfter(steps)
  {
    if steps != [] {
      var h, step := StacksAfter(steps[..|steps| - 1]), steps[|steps| - 1];
      StacksFollowLine(steps[..|steps| - 1]);
      match step
      case Record(s) => PushMoves(h, s);
      case Back => UndoMoves(h);
      case Forward => RedoMoves(h);
    }
  }

  // ----- recording alone -----

  /** Consecutive equal snapshots count once. */
  function Changes(snapshots: seq<Snapshot>): seq<Snapshot> {
    if snapshots == [] then []
    else
      var n := |snapshots| - 1;
      Changes(snapshots[..n]) + if n > 0 && snapshots[n - 1] == snapshots[n] then [] else [snapshots[n]]
  }

  function Recorded(snapshots: seq<Snapshot>): Stacks {
    if snapshots == [] then Stacks([], [], None)
    else Push(Recorded(snapshots[..|snapshots| - 1]), snapshots[|snapshots| - 1])
  }

  lemma NewestNext(all: seq<Snapshot>, s: Snapshot)
    ensures Newest(Newest(all, MAX_PAST) + [s], MAX_PAST) == Newest(all + [s], MAX_PAST)
  {}

  /** Without undo, the past is the newest fifty of the snapshots recorded. */
  lemma {:induction false} PastKeepsNewest(snapshots: seq<Snapshot>)
    ensures Recorded(snapshots).past == Newest(Changes(snapshots), MAX_PAST) && Recorded(snapshots).future == []
    ensures Recorded(snapshots).last == if snapshots == [] then None else Some(snapshots[|snapshots| - 1])
  {
    if snapshots != [] {
      var front, s := snapshots[..|snapshots| - 1], snapshots[|snapshots| - 1];
      PastKeepsNewest(front);
      var h := Recorded(front);
      if h.last != Some(s) {
        assert Push(h, s).past == Newest(h.past + [s], MAX_PAST);
        NewestNext(Changes(front), s);
      }
    }
  }
}
