/** Undo and redo of the builder: two bounded stacks of snapshots. */
module History {
  import opened Wrappers
  import opened Graph

  datatype Snapshot = Snapshot(nodes: seq<Node>, edges: seq<Edge>)

  /** `last` is the snapshot the next push is compared with. */
  datatype Stacks = Stacks(past: seq<Snapshot>, future: seq<Snapshot>, last: Option<Snapshot>)

  const MAX_PAST := 50

  function Push(h: Stacks, s: Snapshot): Stacks {
    if h.last == Some(s) then h
    else
      var past := h.past + [s];
      Stacks(if |past| > MAX_PAST then past[1..] else past, [], Some(s))
  }

  predicate CanUndo(h: Stacks) {
    |h.past| >= 2
  }

  function Undo(h: Stacks): Stacks {
    if !CanUndo(h) then h
    else
      var n := |h.past|;
      Stacks(h.past[..n - 1], h.future + [h.past[n - 1]], Some(h.past[n - 2]))
  }

  function Redo(h: Stacks): Stacks {
    if h.future == [] then h
    else
      var next := h.future[|h.future| - 1];
      Stacks(h.past + [next], h.future[..|h.future| - 1], Some(next))
  }

  /** The top of the past is what the canvas shows, and the stacks share 50 places. */
  ghost predicate Consistent(h: Stacks) {
    && h.past != []
    && h.last == Some(h.past[|h.past| - 1])
    && |h.past| + |h.future| <= MAX_PAST
  }

  function UndoTimes(h: Stacks, k: nat): Stacks
    decreases k
  {
    if k == 0 then h else UndoTimes(Undo(h), k - 1)
  }

  function RedoTimes(h: Stacks, k: nat): Stacks {
    if k == 0 then h else Redo(RedoTimes(h, k - 1))
  }

  lemma UndoRedo(h: Stacks)
    requires Consistent(h) && CanUndo(h)
    ensures Consistent(Undo(h)) && Redo(Undo(h)) == h
  {
    var n := |h.past|;
    assert h.past[..n - 1] + [h.past[n - 1]] == h.past;
    assert (h.future + [h.past[n - 1]])[..|h.future|] == h.future;
  }

  lemma {:induction false} FewUndosThenRedos(h: Stacks, k: nat)
    requires Consistent(h) && k < |h.past|
    ensures RedoTimes(UndoTimes(h, k), k) == h
    ensures Consistent(UndoTimes(h, k))
    decreases k
  {
    if k > 0 {
      UndoRedo(h);
      FewUndosThenRedos(Undo(h), k - 1);
    }
  }

  lemma {:induction false} UndoStops(h: Stacks, k: nat)
    requires Consistent(h) && k >= |h.past| - 1
    ensures UndoTimes(h, k) == UndoTimes(h, |h.past| - 1)
    decreases k
  {
    if CanUndo(h) {
      UndoRedo(h);
      UndoStops(Undo(h), k - 1);
    } else if k > 0 {
      UndoStops(h, k - 1);
    }
  }

  lemma {:induction false} NothingToRedo(h: Stacks, n: nat)
    requires h.future == []
    ensures RedoTimes(h, n) == h
  {
    if n > 0 {
      NothingToRedo(h, n - 1);
    }
  }

  lemma {:induction false} RedoSplits(h: Stacks, m: nat, n: nat)
    ensures RedoTimes(h, m + n) == RedoTimes(RedoTimes(h, m), n)
    decreases n
  {
    if n > 0 {
      RedoSplits(h, m, n - 1);
    }
  }

  lemma {:induction false} RedoLengthens(h: Stacks, n: nat)
    requires n > 0 && h.future != []
    ensures |RedoTimes(h, n).past| > |h.past|
  {
    if n > 1 {
      RedoLengthens(h, n - 1);
    } else {
      assert RedoTimes(h, 0) == h;
    }
  }

  /** Undoing beyond the past wastes undos, and the redos left over go on into the future. */
  lemma ManyUndosThenRedos(h: Stacks, k: nat)
    requires Consistent(h) && k >= |h.past|
    ensures RedoTimes(UndoTimes(h, k), k) == RedoTimes(h, k - (|h.past| - 1))
  {
    var u := |h.past| - 1;
    FewUndosThenRedos(h, u);
    UndoStops(h, k);
    RedoSplits(UndoTimes(h, u), u, k - u);
  }

  /** `k` undos followed by `k` redos restore the stacks exactly when there is enough past to
      undo or nothing had been undone before. */
  lemma UndosThenRedosIff(h: Stacks, k: nat)
    requires Consistent(h)
    ensures RedoTimes(UndoTimes(h, k), k) == h <==> k < |h.past| || h.future == []
  {
    if k < |h.past| {
      FewUndosThenRedos(h, k);
    } else {
      var n := k - (|h.past| - 1);
      ManyUndosThenRedos(h, k);
      if h.future == [] {
        NothingToRedo(h, n);
      } else {
        RedoLengthens(h, n);
      }
    }
  }

  // ----- the stacks as the source keeps them -----

  class HistoryRef {
    var past: seq<Snapshot>
    var future: seq<Snapshot>
    var last: Option<Snapshot>

    ghost function Abs(): Stacks
      reads this
    {
      Stacks(past, future, last)
    }

    constructor ()
      ensures Abs() == Stacks([], [], None)
    {
      past, future, last := [], [], None;
    }

    method PushHistory(snapshot: Snapshot)
      modifies this
      ensures Abs() == Push(old(Abs()), snapshot)
    {
      if last == Some(snapshot) {
        return;
      }
      past := past + [snapshot];
      if |past| > MAX_PAST {
        past := past[1..];
      }
      future := [];
      last := Some(snapshot);
    }

    /** Returns the snapshot to show, if there is one to go back to. */
    method StepBack() returns (shown: Option<Snapshot>)
      modifies this
      ensures Abs() == Undo(old(Abs()))
      ensures shown == if CanUndo(old(Abs())) then last else None
    {
      if |past| < 2 {
        return None;
      }
      var current := past[|past| - 1];
      past := past[..|past| - 1];
      future := future + [current];
      var prev := past[|past| - 1];
      last := Some(prev);
      shown := last;
    }

    method StepForward() returns (shown: Option<Snapshot>)
      modifies this
      ensures Abs() == Redo(old(Abs()))
      ensures shown == if old(future) != [] then last else None
    {
      if future == [] {
        return None;
      }
      var next := future[|future| - 1];
      future := future[..|future| - 1];
      past := past + [next];
      last := Some(next);
      shown := last;
    }
  }
}
