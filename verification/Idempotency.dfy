/**
The per-session idempotency store: an ordered dictionary that moves an entry to the end when it
is touched and drops the first one when it grows past its cap.

The reference is the history of touches: the store must hold the last `max` distinct touched keys,
in the order they were last touched, each with the entry most recently recorded for it.
*/
module Idempotency {
  import opened OrderedDicts

  const MAX_ENTRIES := 256
  const MAX_KEY_LENGTH := 256

  datatype Entry<R> = Entry(key: string, messageId: string, response: R, createdAtMs: int)
  type Store<R> = OrderedDict<string, Entry<R>>

  function LookupStep<R>(d: Store<R>, key: string): (d': Store<R>)
    ensures d.Valid() ==> d'.Valid()
  {
    if key in d.items then d.MoveToEnd(key) else d
  }

  function RecordStep<R>(max: int, d: Store<R>, e: Entry<R>): (d': Store<R>)
    ensures d.Valid() ==> d'.Valid()
  {
    if e.key in d.items then d.MoveToEnd(e.key).Put(e.key, e)
    else
      var d1 := d.Put(e.key, e);
      if |d1.order| > max then d1.PopFirst() else d1
  }

  class IdempotencyStore<R(0)> {
    const max: int
    var entries: Store<R>

    constructor (max: int := MAX_ENTRIES)
      ensures this.max == max && entries == EmptyDict()
    {
      this.max := max;
      entries := EmptyDict();
    }

    method Lookup(key: string) returns (hit: Option<Entry<R>>)
      requires entries.Valid()
      modifies this`entries
      ensures entries.Valid() && entries == LookupStep(old(entries), key)
      ensures hit == if key in old(entries).items then Some(old(entries).items[key]) else None
    {
      if key !in entries.items {
        return None;
      }
      var entry := entries.items[key];
      entries := entries.MoveToEnd(key);
      return Some(entry);
    }

    method Record(key: string, messageId: string, response: R, createdAtMs: int) returns (entry: Entry<R>)
      requires entries.Valid()
      modifies this`entries
      ensures entry == Entry(key, messageId, response, createdAtMs)
      ensures entries.Valid() && entries == RecordStep(max, old(entries), entry)
    {
      entry := Entry(key, messageId, response, createdAtMs);
      if key in entries.items {
        entries := entries.MoveToEnd(key);
        entries := entries.Put(key, entry);
        return;
      }
      entries := entries.Put(key, entry);
      if |entries.order| > max {
        entries := entries.PopFirst();
      }
    }

    method Clear()
      modifies this`entries
      ensures entries == EmptyDict()
    {
      entries := EmptyDict();
    }
  }

  // Histories

  datatype Op<R> = Lookup(key: string) | Record(entry: Entry<R>) | Clear

  function Step<R>(max: int, d: Store<R>, op: Op<R>): (d': Store<R>)
    ensures d.Valid() ==> d'.Valid()
  {
    match op
    case Lookup(key) => LookupStep(d, key)
    case Record(e) => RecordStep(max, d, e)
    case Clear => EmptyDict()
  }

  function Run<R>(max: int, ops: seq<Op<R>>): (d: Store<R>)
    ensures d.Valid()
  {
    if ops == [] then EmptyDict() else Step(max, Run(max, ops[..|ops| - 1]), ops[|ops| - 1])
  }

  /** The distinct keys of a list of touches, ordered by last touch. */
  function Recent<K(==, !new)>(touches: seq<K>): seq<K>
    decreases |touches|
  {
    if touches == [] then []
    else
      var k := touches[|touches| - 1];
      WithoutShrinks(touches[..|touches| - 1], k);
      Recent(Without(touches[..|touches| - 1], k)) + [k]
  }

  function LastN<T>(s: seq<T>, n: int): seq<T> {
    if n <= 0 then [] else if |s| <= n then s else s[|s| - n..]
  }

  /** The touches since the last clear: every record, and every lookup of a key among the last `max` distinct ones. */
  function Touches<R>(max: int, ops: seq<Op<R>>): seq<string> {
    if ops == [] then []
    else
      var before := Touches(max, ops[..|ops| - 1]);
      match ops[|ops| - 1]
      case Clear => []
      case Record(e) => before + [e.key]
      case Lookup(k) => if k in LastN(Recent(before), max) then before + [k] else before
  }

  function LatestRecorded<R>(ops: seq<Op<R>>, k: string): Option<Entry<R>> {
    if ops == [] then None
    else
      match ops[|ops| - 1]
      case Clear => None
      case Record(e) => if e.key == k then Some(e) else LatestRecorded(ops[..|ops| - 1], k)
      case Lookup(_) => LatestRecorded(ops[..|ops| - 1], k)
  }

  lemma {:induction false} WithoutShrinks<K(!new)>(s: seq<K>, k: K)
    ensures |Without(s, k)| <= |s|
  {
    if s != [] {
      WithoutShrinks(s[..|s| - 1], k);
    }
  }

  lemma {:induction false} WithoutConcat<K(!new)>(s: seq<K>, t: seq<K>, k: K)
    ensures Without(s + t, k) == Without(s, k) + Without(t, k)
  {
    if t == [] {
      assert s + t == s;
    } else {
      assert (s + t)[..|s + t| - 1] == s + t[..|t| - 1];
      WithoutConcat(s, t[..|t| - 1], k);
    }
  }

  lemma {:induction false} WithoutLast<K(!new)>(s: seq<K>, last: K, k: K)
    ensures Without(s + [last], k) == Without(s, k) + (if last == k then [] else [last])
  {
    assert (s + [last])[..|s|] == s;
  }

  lemma {:induction false} WithoutCommutes<K(!new)>(s: seq<K>, j: K, k: K)
    ensures Without(Without(s, j), k) == Without(Without(s, k), j)
  {
    if s != [] {
      var front, last := s[..|s| - 1], s[|s| - 1];
      WithoutCommutes(front, j, k);
      assert Without(front, j) + [] == Without(front, j) && Without(front, k) + [] == Without(front, k);
      if last != j {
        WithoutLast(Without(front, j), last, k);
      }
      if last != k {
        WithoutLast(Without(front, k), last, j);
      }
    }
  }

  lemma {:induction false} RecentDistinct<K(!new)>(ts: seq<K>)
    ensures Distinct(Recent(ts))
    ensures forall x :: x in Recent(ts) <==> x in ts
    decreases |ts|
  {
    if ts != [] {
      var front, k := ts[..|ts| - 1], ts[|ts| - 1];
      assert ts == front + [k];
      WithoutShrinks(front, k);
      RecentDistinct(Without(front, k));
      var r := Recent(Without(front, k));
      assert forall i :: 0 <= i < |r| ==> r[i] in r;
    }
  }

  lemma {:induction false} RecentWithout<K(!new)>(ts: seq<K>, k: K)
    ensures Recent(Without(ts, k)) == Without(Recent(ts), k)
    decreases |ts|
  {
    if ts != [] {
      var front, j := ts[..|ts| - 1], ts[|ts| - 1];
      WithoutShrinks(front, j);
      WithoutLast(Recent(Without(front, j)), j, k);
      if j == k {
        RecentDistinct(Without(front, k));
        WithoutAbsent(Recent(Without(front, k)), k);
        assert Without(ts, k) == Without(front, k);
      } else {
        RecentWithout(Without(front, j), k);
        WithoutCommutes(front, j, k);
        assert (Without(front, k) + [j])[..|Without(front, k)|] == Without(front, k);
      }
    }
  }

  /** One more touch moves its key to the end of the recency order. */
  lemma {:induction false} RecentTouch<K(!new)>(ts: seq<K>, k: K)
    ensures Recent(ts + [k]) == Without(Recent(ts), k) + [k]
  {
    assert (ts + [k])[..|ts|] == ts;
    RecentWithout(ts, k);
  }

  lemma {:induction false} LastNSuffix<K>(x: seq<K>, y: seq<K>)
    ensures LastN(x + y, |y|) == y
  {
  }

  /** Bounding the recency order to its last `n` keys, before and after a touch. */
  lemma {:induction false} LastNTouch<K(!new)>(s: seq<K>, n: int, k: K)
    requires Distinct(s)
    ensures LastN(Without(s, k) + [k], n) == BoundedTouch(LastN(s, n), n, k)
  {
    var b := LastN(s, n);
    if n > 0 {
      var dropped := s[..|s| - |b|];
      assert s == dropped + b;
      WithoutDistinct(b, k);
      if k in b {
        TouchMember(dropped, b, n, k);
      } else {
        TouchNewcomer(dropped, b, n, k);
      }
    }
  }

  lemma {:induction false} TouchMember<K(!new)>(dropped: seq<K>, b: seq<K>, n: int, k: K)
    requires n > 0 && k in b && |Without(b, k)| == |b| - 1
    requires |b| == n || (|b| < n && dropped == [])
    ensures LastN(Without(dropped + b, k) + [k], n) == Without(b, k) + [k]
  {
    WithoutConcat(dropped, b, k);
    var x, y := Without(dropped, k), Without(b, k) + [k];
    assert Without(dropped + b, k) + [k] == x + y;
    LastNSuffix(x, y);
  }

  lemma {:induction false} NewcomerPushesOut<K(!new)>(x: seq<K>, b: seq<K>, k: K)
    requires b != []
    ensures LastN((x + b) + [k], |b|) == (b + [k])[1..]
  {
    assert (x + b) + [k] == (x + [b[0]]) + (b[1..] + [k]);
    LastNSuffix(x + [b[0]], b[1..] + [k]);
    assert (b + [k])[1..] == b[1..] + [k];
  }

  lemma {:induction false} TouchNewcomer<K(!new)>(dropped: seq<K>, b: seq<K>, n: int, k: K)
    requires n > 0 && k !in b
    requires |b| == n || (|b| < n && dropped == [])
    ensures LastN(Without(dropped + b, k) + [k], n) == BoundedTouch(b, n, k)
  {
    WithoutConcat(dropped, b, k);
    WithoutAbsent(b, k);
    if |b| == n {
      NewcomerPushesOut(Without(dropped, k), b, k);
    } else {
      assert Without(dropped, k) + b == b;
    }
  }

  function BoundedTouch<K(==, !new)>(b: seq<K>, n: int, k: K): seq<K> {
    if k in b then Without(b, k) + [k] else if |b| + 1 > n then (b + [k])[1..] else b + [k]
  }

  /** What one touch does to the store's keys. */
  lemma {:induction false} StepKeys<R>(max: int, d: Store<R>, op: Op<R>)
    requires d.Valid() && !op.Clear?
    ensures op.Lookup? && op.key !in d.items ==> Step(max, d, op) == d
    ensures op.Lookup? && op.key in d.items ==> Step(max, d, op).order == BoundedTouch(d.order, max, op.key)
    ensures op.Record? ==> Step(max, d, op).order == BoundedTouch(d.order, max, op.entry.key)
  {
  }

  lemma {:induction false} KeysAreLastDistinctTouched<R>(max: int, ops: seq<Op<R>>)
    ensures Run(max, ops).order == LastN(Recent(Touches(max, ops)), max)
  {
    if ops != [] {
      var front, op := ops[..|ops| - 1], ops[|ops| - 1];
      KeysAreLastDistinctTouched(max, front);
      if !op.Clear? {
        var k, ts := if op.Lookup? then op.key else op.entry.key, Touches(max, front);
        StepKeys(max, Run(max, front), op);
        RecentDistinct(ts);
        RecentTouch(ts, k);
        LastNTouch(Recent(ts), max, k);
      }
    }
  }

  lemma {:induction false} ValuesAreLatestRecorded<R>(max: int, ops: seq<Op<R>>)
    ensures forall k :: k in Run(max, ops).items ==> LatestRecorded(ops, k) == Some(Run(max, ops).items[k])
  {
    if ops != [] {
      ValuesAreLatestRecorded(max, ops[..|ops| - 1]);
    }
  }

  /** The store after any history: the last `max` distinct touched keys, in last-touch order, with the latest entries. */
  lemma {:induction false} StoreIsLastDistinctTouched<R>(max: int, ops: seq<Op<R>>)
    ensures Run(max, ops).order == LastN(Recent(Touches(max, ops)), max)
    ensures forall k :: k in Run(max, ops).items ==> LatestRecorded(ops, k) == Some(Run(max, ops).items[k])
  {
    KeysAreLastDistinctTouched(max, ops);
    ValuesAreLatestRecorded(max, ops);
  }

  // When a key is still there

  /** The touches after the last touch of `k`. */
  function Since<K(==)>(ts: seq<K>, k: K): seq<K> {
    if ts == [] || ts[|ts| - 1] == k then [] else Since(ts[..|ts| - 1], k) + [ts[|ts| - 1]]
  }

  lemma {:induction false} RecentCount<K(!new)>(ts: seq<K>)
    ensures |Recent(ts)| == |Elements(ts)|
  {
    RecentDistinct(ts);
    ElementsCount(Recent(ts));
    assert Elements(Recent(ts)) == Elements(ts);
  }

  /** In the recency order a key is followed by exactly the distinct keys touched after it. */
  lemma {:induction false} RecentSplit<K(!new)>(ts: seq<K>, k: K) returns (older: seq<K>)
    requires k in ts
    ensures Recent(ts) == older + [k] + Recent(Since(ts, k))
  {
    var front, j := ts[..|ts| - 1], ts[|ts| - 1];
    assert ts == front + [j];
    RecentTouch(front, j);
    if j == k {
      older := Without(Recent(front), k);
    } else {
      var p := RecentSplit(front, k);
      var newer := Recent(Since(front, k));
      older := Without(p, j);
      WithoutConcat(p + [k], newer, j);
      WithoutLast(p, k, j);
      RecentTouch(Since(front, k), j);
    }
  }

  lemma {:induction false} InLastN<K>(older: seq<K>, k: K, newer: seq<K>, n: int)
    requires k !in older && k !in newer
    ensures k in LastN(older + [k] + newer, n) <==> |newer| < n
  {
    var s := older + [k] + newer;
    assert s[|older|] == k;
    if 0 < n <= |newer| {
      assert LastN(s, n) == newer[|newer| - n..];
    } else if |newer| < n < |s| {
      assert LastN(s, n)[n - |newer| - 1] == k;
    }
  }

  /** A key is held exactly while fewer than `max` distinct other keys were touched after it. */
  lemma {:induction false} HeldIff<R>(max: int, ops: seq<Op<R>>, k: string)
    ensures k in Run(max, ops).items <==> Held(max, Touches(max, ops), k)
  {
    var ts := Touches(max, ops);
    KeysAreLastDistinctTouched(max, ops);
    RecentDistinct(ts);
    if k in ts {
      var older := RecentSplit(ts, k);
      HeldPosition(older, k, Since(ts, k), max);
    }
  }

  lemma {:induction false} HeldPosition<K(!new)>(older: seq<K>, k: K, since: seq<K>, n: int)
    requires Distinct(older + [k] + Recent(since))
    ensures k in LastN(older + [k] + Recent(since), n) <==> |Elements(since)| < n
  {
    var s := older + [k] + Recent(since);
    assert s[|older|] == k;
    assert forall i :: 0 <= i < |older| ==> older[i] == s[i];
    assert forall i :: 0 <= i < |Recent(since)| ==> Recent(since)[i] == s[|older| + 1 + i];
    InLastN(older, k, Recent(since), n);
    RecentCount(since);
  }

  ghost predicate Held(max: int, touches: seq<string>, k: string) {
    k in touches && |Elements(Since(touches, k))| < max
  }
}
