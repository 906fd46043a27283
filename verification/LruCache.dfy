/** The response cache of the API adapter, over an insertion-ordered map. */
module LruCache {
  type Key = string

  type Data = string

  datatype Entry = Entry(value: Data, expiry: int)

  /** An insertion-ordered map: `order` lists the keys, oldest first. */
  datatype Cache = Cache(order: seq<Key>, entries: map<Key, Entry>)

  datatype Lookup = Miss | Hit(value: Data, expired: bool)

  const EMPTY := Cache([], map[])

  function Remove(s: seq<Key>, k: Key): seq<Key> {
    if s == [] then []
    else Remove(s[..|s| - 1], k) + if s[|s| - 1] == k then [] else [s[|s| - 1]]
  }

  /** Deleting and setting again moves the key to the end. */
  function AfterGet(c: Cache, key: Key): Cache {
    if key in c.entries then c.(order := Remove(c.order, key) + [key]) else c
  }

  function GetResult(c: Cache, key: Key, now: int): Lookup {
    if key in c.entries then Hit(c.entries[key].value, now >= c.entries[key].expiry) else Miss
  }

  function Evict(c: Cache): Cache {
    if c.order == [] then c else Cache(c.order[1..], c.entries - {c.order[0]})
  }

  /** Overwriting a present key keeps its place in the order. */
  function Put(c: Cache, key: Key, e: Entry): Cache {
    Cache(if key in c.entries then c.order else c.order + [key], c.entries[key := e])
  }

  function AfterSet(c: Cache, key: Key, e: Entry, max: int): Cache {
    Put(if |c.order| >= max && key !in c.entries then Evict(c) else c, key, e)
  }

  // ----- the cache as an object -----

  ghost predicate WellFormed(c: Cache) {
    && (forall k :: k in c.order <==> k in c.entries)
    && (forall i, j :: 0 <= i < j < |c.order| ==> c.order[i] != c.order[j])
  }

  class LRUCache {
    var order: seq<Key>
    var entries: map<Key, Entry>
    const max: int

    ghost function State(): Cache
      reads this
    {
      Cache(order, entries)
    }

    constructor (maxSize: int)
      ensures State() == EMPTY && max == maxSize
    {
      order, entries := [], map[];
      max := maxSize;
    }

    method Get(key: Key, now: int) returns (r: Lookup)
      modifies this
      ensures r == GetResult(old(State()), key, now)
      ensures State() == AfterGet(old(State()), key)
    {
      if key !in entries {
        return Miss;
      }
      var entry := entries[key];
      order := Remove(order, key);
      order := order + [key];
      r := Hit(entry.value, now >= entry.expiry);
    }

    method Set(key: Key, value: Data, ttlMs: int, now: int)
      modifies this
      ensures State() == AfterSet(old(State()), key, Entry(value, now + ttlMs), max)
    {
      if |order| >= max && key !in entries {
        if order != [] {
          entries := entries - {order[0]};
          order := order[1..];
        }
      }
      if key !in entries {
        order := order + [key];
      }
      entries := entries[key := Entry(value, now + ttlMs)];
    }

    method Has(key: Key) returns (r: bool)
      ensures r <==> key in State().entries
    {
      r := key in entries;
    }

    method Delete(key: Key)
      modifies this
      ensures State() == Cache(Remove(old(order), key), old(entries) - {key})
    {
      order := Remove(order, key);
      entries := entries - {key};
    }

    method Clear()
      modifies this
      ensures State() == EMPTY
    {
      order, entries := [], map[];
    }
  }

  // ----- runs of gets and sets -----

  datatype Op = Get(key: Key, now: int) | Set(key: Key, value: Data, ttlMs: int, now: int)

  function Apply(c: Cache, op: Op, max: int): Cache {
    match op
    case Get(k, _) => AfterGet(c, k)
    case Set(k, v, ttl, now) => AfterSet(c, k, Entry(v, now + ttl), max)
  }

  function Run(ops: seq<Op>, max: int): Cache {
    if ops == [] then EMPTY else Apply(Run(ops[..|ops| - 1], max), ops[|ops| - 1], max)
  }

  /** A get that hits and a set of an absent key touch the key; overwriting does not. */
  predicate Touches(c: Cache, op: Op) {
    op.Get? <==> op.key in c.entries
  }

  /** The keys touched by the run, each at its last touch. */
  function Recent(ops: seq<Op>, max: int): seq<Key> {
    if ops == [] then []
    else
      var op, before := ops[|ops| - 1], Recent(ops[..|ops| - 1], max);
      if Touches(Run(ops[..|ops| - 1], max), op) then Remove(before, op.key) + [op.key] else before
  }

  /** The entry of the last set of `k`. */
  function LastSet(ops: seq<Op>, k: Key): (e: Entry)
    requires EverSet(ops, k)
  {
    var op := ops[|ops| - 1];
    if op.Set? && op.key == k then Entry(op.value, op.now + op.ttlMs)
    else
      assert ops == ops[..|ops| - 1] + [op];
      LastSet(ops[..|ops| - 1], k)
  }

  /** A limit below one behaves as a limit of one. */
  function Limit(max: int): nat {
    if max < 1 then 1 else max
  }

  ghost predicate DistinctKeys(s: seq<Key>) {
    forall i, j :: 0 <= i < j < |s| ==> s[i] != s[j]
  }

  /** `order` is the last `limit` keys of `recent`, or all of them. */
  ghost predicate IsTail(order: seq<Key>, recent: seq<Key>, limit: nat) {
    && |order| == (if |recent| < limit then |recent| else limit)
    && order == recent[|recent| - |order|..]
  }

  lemma {:induction false} RemoveConcat(a: seq<Key>, b: seq<Key>, k: Key)
    ensures Remove(a + b, k) == Remove(a, k) + Remove(b, k)
  {
    if b == [] {
      assert a + b == a;
    } else {
      assert (a + b)[..|a + b| - 1] == a + b[..|b| - 1];
      RemoveConcat(a, b[..|b| - 1], k);
    }
  }

  lemma {:induction false} RemoveAbsent(s: seq<Key>, k: Key)
    requires k !in s
    ensures Remove(s, k) == s
  {
    if s != [] {
      assert s == s[..|s| - 1] + [s[|s| - 1]];
      RemoveAbsent(s[..|s| - 1], k);
    }
  }

  lemma RemoveMiddle(a: seq<Key>, k: Key, b: seq<Key>)
    requires k !in a && k !in b
    ensures Remove(a + [k] + b, k) == a + b
  {
    RemoveConcat(a + [k], b, k);
    RemoveAbsent(b, k);
    RemoveLast(a, k);
  }

  lemma RemoveLast(a: seq<Key>, k: Key)
    requires k !in a
    ensures Remove(a + [k], k) == a
  {
    assert (a + [k])[..|a + [k]| - 1] == a;
    RemoveAbsent(a, k);
  }

  /** Touching a key keeps the rest in order and puts the key last. */
  lemma Touch(s: seq<Key>, k: Key) returns (rest: seq<Key>)
    requires DistinctKeys(s)
    ensures rest == Remove(s, k) && k !in rest && DistinctKeys(rest + [k])
    ensures forall x :: x in rest <==> x in s && x != k
    ensures |rest| == if k in s then |s| - 1 else |s|
  {
    if k in s {
      var i :| 0 <= i < |s| && s[i] == k;
      var a, b := s[..i], s[i + 1..];
      assert s == a + [k] + b;
      DistinctMiddle(a, k, b);
      RemoveMiddle(a, k, b);
      rest := a + b;
    } else {
      RemoveAbsent(s, k);
      rest := s;
    }
  }

  lemma DistinctMiddle(a: seq<Key>, k: Key, b: seq<Key>)
    requires DistinctKeys(a + [k] + b)
    ensures k !in a && k !in b
    ensures DistinctKeys(a + b + [k])
  {
    var s, t := a + [k] + b, a + b + [k];
    assert s[|a|] == k;
    assert forall i :: 0 <= i < |a| ==> a[i] == s[i];
    assert forall i :: 0 <= i < |b| ==> b[i] == s[|a| + 1 + i];
    forall i, j | 0 <= i < j < |t|
      ensures t[i] != t[j]
    {
      var i', j' := if i < |a| then i else i + 1, if j == |t| - 1 then |a| else if j < |a| then j else j + 1;
      assert t[i] == s[i'] && t[j] == s[j'];
    }
  }

  lemma Split(order: seq<Key>, recent: seq<Key>, limit: nat) returns (older: seq<Key>)
    requires DistinctKeys(recent) && IsTail(order, recent, limit)
    ensures recent == older + order && DistinctKeys(order) && |order| <= limit
    ensures older != [] ==> |order| == limit
    ensures forall k :: k in order ==> k !in older
  {
    older := recent[..|recent| - |order|];
    assert recent == older + order;
  }

  lemma Unsplit(older: seq<Key>, order: seq<Key>, limit: nat)
    requires |order| <= limit && (older != [] ==> |order| == limit)
    ensures IsTail(order, older + order, limit)
  {}

  lemma RemoveOlder(older: seq<Key>, order: seq<Key>, k: Key)
    requires k !in older
    ensures Remove(older + order, k) == older + Remove(order, k)
  {
    RemoveConcat(older, order, k);
    RemoveAbsent(older, k);
  }

  lemma MoveToEnd(older: seq<Key>, rest: seq<Key>, k: Key, limit: nat)
    requires |rest| < limit && (older != [] ==> |rest| + 1 == limit)
    ensures IsTail(rest + [k], older + rest + [k], limit)
  {
    Unsplit(older, rest + [k], limit);
    assert older + (rest + [k]) == older + rest + [k];
  }

  lemma TakeOut(order: seq<Key>, recent: seq<Key>, limit: nat, k: Key) returns (older: seq<Key>, rest: seq<Key>)
    requires DistinctKeys(recent) && IsTail(order, recent, limit) && k in order
    ensures Remove(order, k) == rest && Remove(recent, k) == older + rest
    ensures |rest| < limit && (older != [] ==> |rest| + 1 == limit)
  {
    older := Split(order, recent, limit);
    rest := Touch(order, k);
    RemoveOlder(older, order, k);
  }

  /** A touched key that is present moves to the end of both lists. */
  lemma TouchPresent(order: seq<Key>, recent: seq<Key>, limit: nat, k: Key)
    requires DistinctKeys(recent) && IsTail(order, recent, limit) && k in order
    ensures IsTail(Remove(order, k) + [k], Remove(recent, k) + [k], limit)
  {
    var older, rest := TakeOut(order, recent, limit, k);
    MoveToEnd(older, rest, k, limit);
  }

  /** A new key pushes the oldest one out of a full cache. */
  lemma TouchAbsentFull(order: seq<Key>, recent: seq<Key>, limit: nat, k: Key)
    requires DistinctKeys(recent) && IsTail(order, recent, limit) && k !in order
    requires |order| == limit > 0
    ensures IsTail(order[1..] + [k], Remove(recent, k) + [k], limit)
  {
    var older := Split(order, recent, limit);
    RemoveConcat(older, order, k);
    RemoveAbsent(order, k);
    TailShifts(Remove(older, k), order, k);
  }

  lemma TailShifts(front: seq<Key>, order: seq<Key>, k: Key)
    requires order != []
    ensures IsTail(order[1..] + [k], front + order + [k], |order|)
  {
    Unsplit(front + [order[0]], order[1..] + [k], |order|);
    assert front + [order[0]] + (order[1..] + [k]) == (front + order) + [k];
  }

  lemma TouchAbsentRoom(order: seq<Key>, recent: seq<Key>, limit: nat, k: Key)
    requires DistinctKeys(recent) && IsTail(order, recent, limit) && k !in order
    requires |order| < limit
    ensures IsTail(order + [k], Remove(recent, k) + [k], limit)
  {
    assert recent == order;
    RemoveAbsent(order, k);
  }

  lemma GetKeepsWellFormed(c: Cache, k: Key)
    requires WellFormed(c)
    ensures WellFormed(AfterGet(c, k))
  {
    if k in c.entries {
      var rest := Touch(c.order, k);
    }
  }

  lemma SetKeepsWellFormed(c: Cache, k: Key, e: Entry, max: int)
    requires WellFormed(c)
    ensures WellFormed(AfterSet(c, k, e, max))
    ensures AfterSet(c, k, e, max).order ==
            if k in c.entries then c.order
            else (if |c.order| >= max && c.order != [] then c.order[1..] else c.order) + [k]
  {
    if k !in c.entries && |c.order| >= max && c.order != [] {
      assert c.order == [c.order[0]] + c.order[1..];
      assert WellFormed(Evict(c));
    }
  }

  lemma GetKeepsTail(c: Cache, recent: seq<Key>, k: Key, limit: nat)
    requires WellFormed(c) && DistinctKeys(recent) && IsTail(c.order, recent, limit)
    requires k in c.entries
    ensures DistinctKeys(Remove(recent, k) + [k])
    ensures IsTail(AfterGet(c, k).order, Remove(recent, k) + [k], limit)
  {
    TouchPresent(c.order, recent, limit, k);
    var front := Touch(recent, k);
  }

  lemma SetKeepsTail(c: Cache, recent: seq<Key>, k: Key, e: Entry, max: int)
    requires WellFormed(c) && DistinctKeys(recent) && IsTail(c.order, recent, Limit(max))
    requires k !in c.entries
    ensures DistinctKeys(Remove(recent, k) + [k])
    ensures IsTail(AfterSet(c, k, e, max).order, Remove(recent, k) + [k], Limit(max))
  {
    SetKeepsWellFormed(c, k, e, max);
    var front := Touch(recent, k);
    if |c.order| >= max && c.order != [] {
      TouchAbsentFull(c.order, recent, Limit(max), k);
    } else {
      TouchAbsentRoom(c.order, recent, Limit(max), k);
    }
  }

  /** After any run of gets and sets: at most `max` keys, at least one allowed; the map order
      is the order of last touch; the keys are the most recently touched ones. */
  lemma {:induction false} LruKeepsMostRecent(ops: seq<Op>, max: int)
    ensures WellFormed(Run(ops, max))
    ensures DistinctKeys(Recent(ops, max))
    ensures IsTail(Run(ops, max).order, Recent(ops, max), Limit(max))
  {
    if ops != [] {
      var rest, op := ops[..|ops| - 1], ops[|ops| - 1];
      LruKeepsMostRecent(rest, max);
      var c, recent := Run(rest, max), Recent(rest, max);
      match op
      case Get(k, _) =>
        GetKeepsWellFormed(c, k);
        if k in c.entries {
          GetKeepsTail(c, recent, k, Limit(max));
        }
      case Set(k, v, ttl, now) =>
        SetKeepsWellFormed(c, k, Entry(v, now + ttl), max);
        if k !in c.entries {
          SetKeepsTail(c, recent, k, Entry(v, now + ttl), max);
        }
    }
  }

  /** Only a set of `k` changes what is stored under `k`; evictions only remove. */
  lemma EntryAfter(c: Cache, op: Op, max: int, k: Key)
    requires k in Apply(c, op, max).entries
    ensures if op.Set? && op.key == k then Apply(c, op, max).entries[k] == Entry(op.value, op.now + op.ttlMs)
            else k in c.entries && Apply(c, op, max).entries[k] == c.entries[k]
  {}

  ghost predicate EverSet(ops: seq<Op>, k: Key) {
    exists i :: 0 <= i < |ops| && ops[i].Set? && ops[i].key == k
  }

  lemma EverSetAppend(ops: seq<Op>, op: Op, k: Key)
    requires (op.Set? && op.key == k) || EverSet(ops, k)
    ensures EverSet(ops + [op], k)
  {
    var all := ops + [op];
    if op.Set? && op.key == k {
      assert all[|ops|] == op;
    } else {
      var i :| 0 <= i < |ops| && ops[i].Set? && ops[i].key == k;
      assert all[i] == ops[i];
    }
  }

  /** What a hit returns is the value last set under the key, expired once its time is up. */
  lemma {:induction false} HitReturnsLastSet(ops: seq<Op>, max: int, k: Key, now: int)
    requires k in Run(ops, max).entries
    ensures EverSet(ops, k)
    ensures Run(ops, max).entries[k] == LastSet(ops, k)
    ensures GetResult(Run(ops, max), k, now) == Hit(LastSet(ops, k).value, now >= LastSet(ops, k).expiry)
  {
    var rest, op := ops[..|ops| - 1], ops[|ops| - 1];
    assert ops == rest + [op];
    EntryAfter(Run(rest, max), op, max, k);
    if !(op.Set? && op.key == k) {
      HitReturnsLastSet(rest, max, k, now);
    }
    EverSetAppend(rest, op, k);
  }

  /** Overwriting does not protect a key: in a cache of two, a is evicted by c although it
      was written after b. */
  lemma OverwriteIsNotATouch(a: Key, b: Key, c: Key, v: Data)
    requires a != b && a != c && b != c
    ensures Run([Set(a, v, 0, 0)] + [Set(b, v, 0, 0)] + [Set(a, v, 0, 1)] + [Set(c, v, 0, 2)], 2).order == [b, c]
  {
    var o1, o2 := [Set(a, v, 0, 0)], [Set(a, v, 0, 0)] + [Set(b, v, 0, 0)];
    var o3 := o2 + [Set(a, v, 0, 1)];
    assert o1[..0] == [] && o2[..1] == o1 && o3[..2] == o2;
    assert (o3 + [Set(c, v, 0, 2)])[..3] == o3;
    assert Run(o1, 2).order == [a];
    assert Run(o2, 2).order == [a, b];
    assert Run(o3, 2).order == [a, b];
  }

  // ----- when overwriting could pass for a touch -----

  /** A cache in which every set moves its key to the end. */
  function TouchingSet(c: Cache, key: Key, e: Entry, max: int): Cache {
    AfterSet(AfterGet(c, key), key, e, max)
  }

  function ApplyTouching(c: Cache, op: Op, max: int): Cache {
    match op
    case Get(k, _) => AfterGet(c, k)
    case Set(k, v, ttl, now) => TouchingSet(c, k, Entry(v, now + ttl), max)
  }

  function TouchingRun(ops: seq<Op>, max: int): Cache {
    if ops == [] then EMPTY else ApplyTouching(TouchingRun(ops[..|ops| - 1], max), ops[|ops| - 1], max)
  }

  /** The operation overwrites no key, or the one that is last already. */
  predicate OverwritesLast(c: Cache, op: Op) {
    op.Set? && op.key in c.order ==> c.order[|c.order| - 1] == op.key
  }

  lemma MoveLast(s: seq<Key>, k: Key)
    requires DistinctKeys(s) && s != [] && s[|s| - 1] == k
    ensures Remove(s, k) + [k] == s
  {
    var front := s[..|s| - 1];
    assert s == front + [k];
    assert k !in front by {
      assert forall i :: 0 <= i < |front| ==> front[i] == s[i];
    }
    RemoveLast(front, k);
  }

  lemma MoveLastIff(s: seq<Key>, k: Key)
    requires DistinctKeys(s) && k in s
    ensures Remove(s, k) + [k] == s <==> s[|s| - 1] == k
  {
    var moved := Remove(s, k) + [k];
    assert moved[|moved| - 1] == k;
    if s[|s| - 1] == k {
      MoveLast(s, k);
    }
  }

  /** On one cache the two kinds of set leave the same order exactly if no key but the last is
      overwritten. */
  lemma OverwriteStepIff(c: Cache, op: Op, max: int)
    requires WellFormed(c)
    ensures ApplyTouching(c, op, max).order == Apply(c, op, max).order <==> OverwritesLast(c, op)
    ensures OverwritesLast(c, op) ==> ApplyTouching(c, op, max) == Apply(c, op, max)
  {
    if op.Set? && op.key in c.order {
      MoveLastIff(c.order, op.key);
    }
  }

  ghost predicate SameOrderAfter(ops: seq<Op>, max: int, k: nat)
    requires k <= |ops|
  {
    Run(ops[..k], max).order == TouchingRun(ops[..k], max).order
  }

  lemma RunNext(ops: seq<Op>, max: int, k: nat)
    requires k < |ops|
    ensures Run(ops[..k + 1], max) == Apply(Run(ops[..k], max), ops[k], max)
    ensures TouchingRun(ops[..k + 1], max) == ApplyTouching(TouchingRun(ops[..k], max), ops[k], max)
    ensures WellFormed(Run(ops[..k], max))
  {
    assert ops[..k + 1][..k] == ops[..k];
    LruKeepsMostRecent(ops[..k], max);
  }

  /** Both caches stay equal as long as they kept the same order, or overwrote only last keys. */
  lemma {:induction false} SameRun(ops: seq<Op>, max: int, k: nat)
    requires k <= |ops|
    requires forall i: nat :: i < k ==> SameOrderAfter(ops, max, i + 1) || OverwritesLast(Run(ops[..i], max), ops[i])
    ensures Run(ops[..k], max) == TouchingRun(ops[..k], max)
  {
    if k > 0 {
      SameRun(ops, max, k - 1);
      RunNext(ops, max, k - 1);
      assert SameOrderAfter(ops, max, k - 1 + 1) || OverwritesLast(Run(ops[..k - 1], max), ops[k - 1]);
      OverwriteStepIff(Run(ops[..k - 1], max), ops[k - 1], max);
    }
  }

  /** Overwriting passes for a touch all along a run exactly when it only ever hits the key
      that is last already. */
  lemma OverwriteTouchesIff(ops: seq<Op>, max: int)
    ensures (forall k: nat :: k <= |ops| ==> SameOrderAfter(ops, max, k))
            <==> forall k: nat :: k < |ops| ==> OverwritesLast(Run(ops[..k], max), ops[k])
  {
    if forall k: nat :: k <= |ops| ==> SameOrderAfter(ops, max, k) {
      forall k: nat | k < |ops|
        ensures OverwritesLast(Run(ops[..k], max), ops[k])
      {
        assert SameOrderAfter(ops, max, k + 1);
        SameRun(ops, max, k);
        RunNext(ops, max, k);
        OverwriteStepIff(Run(ops[..k], max), ops[k], max);
      }
    }
    if forall k: nat :: k < |ops| ==> OverwritesLast(Run(ops[..k], max), ops[k]) {
      forall k: nat | k <= |ops|
        ensures SameOrderAfter(ops, max, k)
      {
        SameRun(ops, max, k);
      }
    }
  }
}
