/** Python's insertion-ordered dictionaries, and the small sequence vocabulary the other modules share. */
module OrderedDicts {
  datatype Option<+T> = None | Some(value: T)

  ghost predicate Distinct<T>(s: seq<T>) {
    forall i, j :: 0 <= i < j < |s| ==> s[i] != s[j]
  }

  /** The sequence with every occurrence of `k` dropped. */
  function Without<K(==, !new)>(s: seq<K>, k: K): (r: seq<K>)
    ensures forall x :: x in r <==> x in s && x != k
  {
    if s == [] then []
    else
      var front, last := s[..|s| - 1], s[|s| - 1];
      assert s == front + [last];
      Without(front, k) + (if last == k then [] else [last])
  }

  lemma {:induction false} WithoutAbsent<K(!new)>(s: seq<K>, k: K)
    requires k !in s
    ensures Without(s, k) == s
  {
    if s != [] {
      assert s == s[..|s| - 1] + [s[|s| - 1]];
      WithoutAbsent(s[..|s| - 1], k);
    }
  }

  lemma {:induction false} WithoutDistinct<K(!new)>(s: seq<K>, k: K)
    requires Distinct(s)
    ensures Distinct(Without(s, k)) && |Without(s, k)| == |s| - (if k in s then 1 else 0)
  {
    if s != [] {
      var front, last := s[..|s| - 1], s[|s| - 1];
      assert s == front + [last] && last !in front;
      WithoutDistinct(front, k);
      var rest := Without(front, k);
      assert forall i :: 0 <= i < |rest| ==> rest[i] in rest;
    }
  }

  /** A `dict` or `OrderedDict`: a map together with the order its keys were inserted in. */
  datatype OrderedDict<K(==, !new), V> = OrderedDict(order: seq<K>, items: map<K, V>) {

    ghost predicate Valid() {
      Distinct(order) && forall k :: k in order <==> k in items
    }

    /** `d[k] = v`: an existing key keeps its place, a new key goes last. */
    function Put(k: K, v: V): (d: OrderedDict<K, V>)
      ensures Valid() ==> d.Valid()
    {
      OrderedDict(if k in items then order else order + [k], items[k := v])
    }

    /** `del d[k]`. */
    function Delete(k: K): (d: OrderedDict<K, V>)
      ensures Valid() ==> d.Valid()
    {
      assert Valid() ==> Distinct(Without(order, k)) by { if Valid() { WithoutDistinct(order, k); } }
      OrderedDict(Without(order, k), items - {k})
    }

    /** `d.move_to_end(k, last=True)`. */
    function MoveToEnd(k: K): (d: OrderedDict<K, V>)
      requires k in items
      ensures Valid() ==> d.Valid()
    {
      assert Valid() ==> Distinct(Without(order, k) + [k]) by { if Valid() { WithoutDistinct(order, k); } }
      OrderedDict(Without(order, k) + [k], items)
    }

    /** `d.popitem(last=False)`. */
    function PopFirst(): (d: OrderedDict<K, V>)
      requires |order| > 0
      ensures Valid() ==> d.Valid()
    {
      OrderedDict(order[1..], items - {order[0]})
    }
  }

  function EmptyDict<K(==, !new), V>(): (d: OrderedDict<K, V>)
    ensures d.Valid()
  {
    OrderedDict([], map[])
  }

  ghost function Elements<K>(s: seq<K>): set<K> {
    set x | x in s
  }

  /** As many elements as positions, exactly when nothing repeats. */
  lemma {:induction false} ElementsCount<T>(s: seq<T>)
    ensures |Elements(s)| <= |s|
    ensures |Elements(s)| == |s| <==> Distinct(s)
  {
    if s != [] {
      var front, last := s[..|s| - 1], s[|s| - 1];
      assert s == front + [last];
      ElementsCount(front);
      assert Elements(s) == Elements(front) + {last};
      if last in front {
        assert Elements(s) == Elements(front);
        assert !Distinct(s);
      } else {
        assert Distinct(s) <==> Distinct(front);
      }
    }
  }
}
