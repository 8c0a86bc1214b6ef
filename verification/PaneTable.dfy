/** Applying a scan's write set to the pane table, and what that does over one scan and the next. */
module PaneTable {
  import opened OrderedDicts
  import opened Panes
  import opened PaneReconcile

  datatype PaneRow = PaneRow(details: Details, active: bool, firstSeen: string, scannedAt: string)

  type Rows = map<PaneKey, PaneRow>

  // Writing

  function PutRow(rows: Rows, u: Upsert): Rows {
    rows[u.key := PaneRow(u.details, true, if u.key in rows then rows[u.key].firstSeen else u.scannedAt, u.scannedAt)]
  }

  function PutAll(rows: Rows, us: seq<Upsert>): Rows {
    if us == [] then rows else PutRow(PutAll(rows, us[..|us| - 1]), us[|us| - 1])
  }

  function Touched(rows: Rows, keys: seq<PaneKey>, now: string): Rows {
    map k | k in rows :: if k in keys then rows[k].(scannedAt := now) else rows[k]
  }

  function Inactivated(rows: Rows, keys: seq<PaneKey>, now: string): Rows {
    map k | k in rows :: if k in keys then rows[k].(active := false, scannedAt := now) else rows[k]
  }

  function Applied(rows: Rows, ws: WriteSet, now: string): Rows {
    Inactivated(Touched(PutAll(rows, ws.upserts), ws.touch, now), ws.inactivate, now)
  }

  class PaneStore {
    var rows: Rows

    constructor (rows: Rows)
      ensures this.rows == rows
    {
      this.rows := rows;
    }

    /** The three kinds of write, in the order the transaction makes them. */
    method ApplyWriteSet(ws: WriteSet, now: string)
      modifies this
      ensures rows == Applied(old(rows), ws, now)
    {
      for i := 0 to |ws.upserts|
        invariant rows == PutAll(old(rows), ws.upserts[..i])
      {
        assert ws.upserts[..i + 1][..i] == ws.upserts[..i];
        rows := PutRow(rows, ws.upserts[i]);
      }
      assert ws.upserts[..|ws.upserts|] == ws.upserts;
      rows := Touched(rows, ws.touch, now);
      rows := Inactivated(rows, ws.inactivate, now);
    }
  }

  /** What `reconcile` reads of the table. */
  function PriorOf(rows: Rows): map<PaneKey, PriorRow> {
    map k | k in rows :: PriorRow(rows[k].active, rows[k].firstSeen)
  }

  predicate IsActive(rows: Rows, k: PaneKey) {
    k in rows && rows[k].active
  }

  predicate HasKey(us: seq<Upsert>, k: PaneKey) {
    exists u :: u in us && u.key == k
  }

  lemma {:induction false} PutAllAt(rows: Rows, us: seq<Upsert>, k: PaneKey)
    ensures k in PutAll(rows, us) <==> k in rows || HasKey(us, k)
    ensures !HasKey(us, k) && k in rows ==> PutAll(rows, us)[k] == rows[k]
    ensures HasKey(us, k) ==> PutAll(rows, us)[k].active
    ensures k in rows ==> PutAll(rows, us)[k].firstSeen == rows[k].firstSeen
  {
    if us != [] {
      var front, last := us[..|us| - 1], us[|us| - 1];
      PutAllAt(rows, front, k);
      assert us == front + [last];
      assert HasKey(us, k) <==> HasKey(front, k) || last.key == k;
    }
  }

  ghost predicate Scan(rows: Rows, o: Observed, ws: WriteSet) {
    o.Valid() && Decides(PriorOf(rows), o, ws)
  }

  lemma {:induction false} HasKeyIff(o: Observed, k: PaneKey)
    requires o.Valid()
    ensures HasKey(UpsertsUpTo(o, |o.results.order|), k) <==> Listed(o, k)
  {
    UpsertedIff(o, |o.results.order|, k);
    assert o.results.order[..|o.results.order|] == o.results.order;
  }

  /** A row is listed for inactivation exactly when it was active and one of the three reasons holds. */
  lemma {:induction false} InactivatedIff(rows: Rows, o: Observed, ws: WriteSet, k: PaneKey)
    requires Scan(rows, o, ws)
    ensures k in ws.inactivate <==>
            IsActive(rows, k) && ((ScannedOk(o, ScopeOf(k)) && !Listed(o, k)) || k.container in o.cascade || SocketGone(o, k))
  {
    assert k in ws.inactivate <==> multiset(ws.inactivate)[k] > 0;
  }

  /** The table after the scan, key by key; a first sighting is never forgotten. */
  lemma {:induction false} AppliedAt(rows: Rows, o: Observed, ws: WriteSet, now: string, k: PaneKey)
    requires Scan(rows, o, ws)
    ensures k in Applied(rows, ws, now) <==> k in rows || Listed(o, k)
    ensures IsActive(Applied(rows, ws, now), k) <==> (IsActive(rows, k) || Listed(o, k)) && k !in ws.inactivate
    ensures k in rows ==> Applied(rows, ws, now)[k].firstSeen == rows[k].firstSeen
    ensures k in rows && !Listed(o, k) ==> Applied(rows, ws, now)[k].details == rows[k].details
    ensures k in rows && !Listed(o, k) && k !in ws.touch && k !in ws.inactivate ==> Applied(rows, ws, now)[k] == rows[k]
  {
    PutAllAt(rows, ws.upserts, k);
    HasKeyIff(o, k);
  }

  // What a scan may do to one row

  /** What the scan loops promise: no outcome for a cascade container, no success for an unreachable one. */
  ghost predicate Guarantee(o: Observed) {
    forall scope :: scope in o.results.items ==>
      scope.container !in o.cascade && (scope.container in o.unavailable ==> o.results.items[scope].NotSeen?)
  }

  /**
  A key gets at most two actions, its upserts counted as one.  It gets two exactly when its row is active or listed and
  its socket was scanned in a container that counts as unreachable, which the loops promise not to do.
  */
  lemma {:induction false} OneActionEach(rows: Rows, o: Observed, ws: WriteSet, k: PaneKey)
    requires Scan(rows, o, ws)
    ensures var actions := Bit(HasKey(ws.upserts, k)) + multiset(ws.inactivate)[k] + multiset(ws.touch)[k];
            && actions <= 2
            && (actions == 2 <==>
                k in rows && (IsActive(rows, k) || Listed(o, k)) && ScannedOk(o, ScopeOf(k)) && !Reachable(o, k.container))
            && (Guarantee(o) ==> actions <= 1)
  {
    HasKeyIff(o, k);
  }

  /** A failed scan of its socket never changes whether a row is active, nor what it shows. */
  lemma {:induction false} FailedScanKeeps(rows: Rows, o: Observed, ws: WriteSet, now: string, k: PaneKey)
    requires Scan(rows, o, ws) && k in rows && FailedAt(o, k) && k.container !in o.cascade
    ensures k in Applied(rows, ws, now) && Applied(rows, ws, now)[k].(scannedAt := rows[k].scannedAt) == rows[k]
  {
    AppliedAt(rows, o, ws, now, k);
    InactivatedIff(rows, o, ws, k);
  }

  /** Nor does a scan that never got to its container; and if the container was reachable, the row is not written at all. */
  lemma {:induction false} OtherContainersKept(rows: Rows, o: Observed, ws: WriteSet, now: string, k: PaneKey)
    requires Scan(rows, o, ws) && k in rows && !Scanned(o, k.container) && k.container !in o.cascade
    ensures k in Applied(rows, ws, now) && Applied(rows, ws, now)[k].(scannedAt := rows[k].scannedAt) == rows[k]
    ensures k.container !in o.unavailable ==> Applied(rows, ws, now)[k] == rows[k]
  {
    AppliedAt(rows, o, ws, now, k);
    InactivatedIff(rows, o, ws, k);
    assert ScopeOf(k) !in o.results.items;
    assert k.container !in o.unavailable ==> multiset(ws.touch)[k] == 0;
  }

  // Scanning again

  /** No pane of a container in the cascade was listed. */
  ghost predicate CascadeUnlisted(o: Observed) {
    forall k :: Listed(o, k) ==> k.container !in o.cascade
  }

  lemma {:induction false} FreshIff(rows: Rows, o: Observed, ws: WriteSet, k: PaneKey)
    requires Scan(rows, o, ws)
    ensures k in FreshKeys(PriorOf(rows), ws.upserts) <==> Listed(o, k) && !IsActive(rows, k)
  {
    FreshKeysAre(PriorOf(rows), ws.upserts, k);
    HasKeyIff(o, k);
    assert HasKey(ws.upserts, k) <==> exists i :: 0 <= i < |ws.upserts| && ws.upserts[i].key == k;
  }

  lemma {:induction false} SettledKey(rows: Rows, o: Observed, ws: WriteSet, now: string, ws': WriteSet, k: PaneKey)
    requires Scan(rows, o, ws) && Scan(Applied(rows, ws, now), o, ws') && (Listed(o, k) ==> k.container !in o.cascade)
    ensures k !in FreshKeys(PriorOf(Applied(rows, ws, now)), ws'.upserts) && k !in ws'.inactivate
  {
    AppliedAt(rows, o, ws, now, k);
    InactivatedIff(rows, o, ws, k);
    InactivatedIff(Applied(rows, ws, now), o, ws', k);
    FreshIff(Applied(rows, ws, now), o, ws', k);
  }

  lemma {:induction false} UnsettledKey(rows: Rows, o: Observed, ws: WriteSet, now: string, ws': WriteSet, k: PaneKey)
    requires Scan(rows, o, ws) && Scan(Applied(rows, ws, now), o, ws') && Listed(o, k) && k.container in o.cascade
    ensures k in FreshKeys(PriorOf(Applied(rows, ws, now)), ws'.upserts) || k in ws'.inactivate
  {
    AppliedAt(rows, o, ws, now, k);
    InactivatedIff(rows, o, ws, k);
    InactivatedIff(Applied(rows, ws, now), o, ws', k);
    FreshIff(Applied(rows, ws, now), o, ws', k);
  }

  /**
  Applying a scan and reconciling again with what it saw finds nothing newly active and nothing to inactivate,
  exactly when no pane of a cascade container was listed.
  */
  lemma {:induction false} FixpointIff(rows: Rows, o: Observed, ws: WriteSet, now: string, ws': WriteSet)
    requires Scan(rows, o, ws) && Scan(Applied(rows, ws, now), o, ws')
    ensures ws'.newlyActive == 0 && ws'.reconciledInactive == 0 <==> CascadeUnlisted(o)
  {
    var keys := FreshKeys(PriorOf(Applied(rows, ws, now)), ws'.upserts);
    if CascadeUnlisted(o) {
      if keys != [] {
        SettledKey(rows, o, ws, now, ws', keys[0]);
      }
      if ws'.inactivate != [] {
        SettledKey(rows, o, ws, now, ws', ws'.inactivate[0]);
      }
    } else {
      var k :| Listed(o, k) && k.container in o.cascade;
      UnsettledKey(rows, o, ws, now, ws', k);
    }
  }

  // Counting

  ghost function ActiveKeys(rows: Rows): set<PaneKey> {
    set k | k in rows && rows[k].active
  }

  /** An active row is listed for inactivation twice when its socket was scanned without it and its container is in the cascade. */
  ghost predicate InactivatedTwice(rows: Rows, o: Observed, k: PaneKey) {
    IsActive(rows, k) && ScannedOk(o, ScopeOf(k)) && !Listed(o, k) && k.container in o.cascade
  }

  ghost function TwiceKeys(rows: Rows, o: Observed): set<PaneKey> {
    set k | k in rows && InactivatedTwice(rows, o, k)
  }

  lemma {:induction false} TwiceIff(rows: Rows, o: Observed, ws: WriteSet, k: PaneKey)
    requires Scan(rows, o, ws)
    ensures multiset(ws.inactivate)[k] <= 2
    ensures multiset(ws.inactivate)[k] == 2 <==> InactivatedTwice(rows, o, k)
  {
  }

  ghost function Repeated<T>(s: seq<T>): set<T> {
    set x | x in s && multiset(s)[x] == 2
  }

  lemma {:induction false} OneMoreCount<T>(s: seq<T>, last: T, x: T)
    ensures multiset(s + [last])[x] == multiset(s)[x] + if x == last then 1 else 0
    ensures x in s <==> multiset(s)[x] > 0
  {
    assert multiset(s + [last]) == multiset(s) + multiset{last};
  }

  /** One more element of a list in which nothing occurs more than twice. */
  lemma {:induction false} OneMoreRepeated<T>(s: seq<T>, last: T)
    requires multiset(s)[last] <= 1
    ensures Elements(s + [last]) == Elements(s) + {last}
    ensures Repeated(s + [last]) == Repeated(s) + (if last in s then {last} else {})
    ensures last !in Repeated(s)
  {
    forall x
      ensures x in Repeated(s + [last]) <==> x in Repeated(s) || (last in s && x == last)
    {
      OneMoreCount(s, last, x);
    }
  }

  /** A list in which nothing occurs more than twice. */
  lemma {:induction false} TwiceAtMost<T(!new)>(s: seq<T>)
    requires forall x :: multiset(s)[x] <= 2
    ensures |s| == |Elements(s)| + |Repeated(s)|
  {
    if s != [] {
      var front, last := s[..|s| - 1], s[|s| - 1];
      assert s == front + [last];
      forall x
        ensures multiset(front)[x] <= 2 && (x == last ==> multiset(front)[x] <= 1)
      {
        OneMoreCount(front, last, x);
      }
      TwiceAtMost(front);
      OneMoreRepeated(front, last);
      assert last in front <==> last in Elements(front);
      if last in front {
        assert Elements(s) == Elements(front) && |Repeated(s)| == |Repeated(front)| + 1;
      } else {
        assert Repeated(s) == Repeated(front) && |Elements(s)| == |Elements(front)| + 1;
      }
    } else {
      assert Elements(s) == {} && Repeated(s) == {};
    }
  }

  lemma {:induction false} InactivatedCount(rows: Rows, o: Observed, ws: WriteSet)
    requires Scan(rows, o, ws)
    ensures |ws.inactivate| == |Elements(ws.inactivate)| + |TwiceKeys(rows, o)|
  {
    forall k
      ensures multiset(ws.inactivate)[k] <= 2 && (k in Repeated(ws.inactivate) <==> k in TwiceKeys(rows, o))
    {
      TwiceIff(rows, o, ws, k);
      assert k in ws.inactivate <==> k in multiset(ws.inactivate);
    }
    TwiceAtMost(ws.inactivate);
    assert Repeated(ws.inactivate) == TwiceKeys(rows, o);
  }

  /** The active rows after a scan: the ones before, less those inactivated, and the ones that were not active before. */
  lemma {:induction false} ActiveAfter(rows: Rows, o: Observed, ws: WriteSet, now: string)
    requires Scan(rows, o, ws)
    ensures ActiveKeys(Applied(rows, ws, now)) ==
            (ActiveKeys(rows) - Elements(ws.inactivate)) + Elements(FreshKeys(PriorOf(rows), ws.upserts))
    ensures Elements(ws.inactivate) <= ActiveKeys(rows)
    ensures ActiveKeys(rows) !! Elements(FreshKeys(PriorOf(rows), ws.upserts))
  {
    forall k
      ensures IsActive(Applied(rows, ws, now), k) <==>
              (IsActive(rows, k) && k !in ws.inactivate) || k in FreshKeys(PriorOf(rows), ws.upserts)
      ensures k in ws.inactivate ==> IsActive(rows, k)
      ensures k in FreshKeys(PriorOf(rows), ws.upserts) ==> !IsActive(rows, k)
    {
      AppliedAt(rows, o, ws, now, k);
      InactivatedIff(rows, o, ws, k);
      FreshIff(rows, o, ws, k);
    }
  }

  lemma {:induction false} CardUnion<T>(a: set<T>, gone: set<T>, more: set<T>)
    requires gone <= a && a !! more
    ensures |(a - gone) + more| == |a| - |gone| + |more|
  {
    assert (a - gone) !! more;
    assert a == (a - gone) + gone;
  }

  /** How many upserts count as newly active a key that an earlier upsert of the scan already counted. */
  ghost function Recounted(rows: Rows, ws: WriteSet): int {
    |FreshKeys(PriorOf(rows), ws.upserts)| - |Elements(FreshKeys(PriorOf(rows), ws.upserts))|
  }

  /** The change in active rows against the two counters, for every scan. */
  lemma {:induction false} CountersOff(rows: Rows, o: Observed, ws: WriteSet, now: string)
    requires Scan(rows, o, ws)
    ensures |ActiveKeys(Applied(rows, ws, now))| ==
            |ActiveKeys(rows)| + ws.newlyActive - ws.reconciledInactive - Recounted(rows, ws) + |TwiceKeys(rows, o)|
  {
    var more := FreshKeys(PriorOf(rows), ws.upserts);
    ActiveAfter(rows, o, ws, now);
    InactivatedCount(rows, o, ws);
    CardUnion(ActiveKeys(rows), Elements(ws.inactivate), Elements(more));
  }

  /**
  The two counters account for the change in active rows exactly when as many upserts count a key again as rows
  are inactivated twice.
  */
  lemma {:induction false} CountersBalanceIff(rows: Rows, o: Observed, ws: WriteSet, now: string)
    requires Scan(rows, o, ws)
    ensures |ActiveKeys(Applied(rows, ws, now))| == |ActiveKeys(rows)| + ws.newlyActive - ws.reconciledInactive
            <==> Recounted(rows, ws) == |TwiceKeys(rows, o)|
    ensures Recounted(rows, ws) == 0 <==> Distinct(FreshKeys(PriorOf(rows), ws.upserts))
    ensures Guarantee(o) ==> TwiceKeys(rows, o) == {}
  {
    CountersOff(rows, o, ws, now);
    ElementsCount(FreshKeys(PriorOf(rows), ws.upserts));
  }

  /** When the panes listed have distinct keys, exactly when no row is inactivated twice. */
  lemma {:induction false} DistinctKeysBalance(rows: Rows, o: Observed, ws: WriteSet, now: string)
    requires Scan(rows, o, ws)
    requires forall i, j :: 0 <= i < j < |ws.upserts| ==> ws.upserts[i].key != ws.upserts[j].key
    ensures |ActiveKeys(Applied(rows, ws, now))| == |ActiveKeys(rows)| + ws.newlyActive - ws.reconciledInactive
            <==> TwiceKeys(rows, o) == {}
  {
    FreshDistinct(PriorOf(rows), ws.upserts);
    CountersBalanceIff(rows, o, ws, now);
  }

  lemma {:induction false} FreshDistinct(prior: map<PaneKey, PriorRow>, us: seq<Upsert>)
    requires forall i, j :: 0 <= i < j < |us| ==> us[i].key != us[j].key
    ensures Distinct(FreshKeys(prior, us))
  {
    if us != [] {
      FreshDistinct(prior, us[..|us| - 1]);
      FreshKeysAre(prior, us[..|us| - 1], us[|us| - 1].key);
    }
  }
}
