/** What a page of events is, said of the columns of its rows. */
module EventColumns {
  import opened OrderedDicts
  import opened Text
  import Cursor
  import opened EventQuery

  /** Code points are compared up to the first that differs; a proper prefix comes first. */
  lemma {:induction false} TextLessIff(a: Str, b: Str)
    ensures TextLess(a, b) <==> exists k :: 0 <= k <= |a| && k < |b| && a[..k] == b[..k] && (k == |a| || a[k] < b[k])
  {
    if TextLess(a, b) {
      var k := FirstDifference(a, b);
    } else if k :| 0 <= k <= |a| && k < |b| && a[..k] == b[..k] && (k == |a| || a[k] < b[k]) {
      DifferenceDecides(a, b, k);
    }
  }

  lemma {:induction false} FirstDifference(a: Str, b: Str) returns (k: nat)
    requires TextLess(a, b)
    ensures k <= |a| && k < |b| && a[..k] == b[..k] && (k == |a| || a[k] < b[k])
  {
    k := 0;
    if a != [] && !(a[0] < b[0]) {
      k := FirstDifference(a[1..], b[1..]);
      assert a[..k + 1] == [a[0]] + a[1..][..k] && b[..k + 1] == [b[0]] + b[1..][..k];
      k := k + 1;
    }
  }

  lemma {:induction false} DifferenceDecides(a: Str, b: Str, k: nat)
    requires k <= |a| && k < |b| && a[..k] == b[..k] && (k == |a| || a[k] < b[k])
    ensures TextLess(a, b)
  {
    if k > 0 {
      assert a[0] == a[..k][0] == b[..k][0];
      assert a[1..][..k - 1] == a[..k][1..] && b[1..][..k - 1] == b[..k][1..];
      DifferenceDecides(a[1..], b[1..], k - 1);
    }
  }

  /** The byte start, with a missing one first of all. */
  function StartColumn(r: Row): int {
    match r.byteStart
    case None => -1
    case Some(n) => n
  }

  /** Earlier by timestamp; at the same timestamp by byte start; at the same byte start by id. */
  predicate EarlierThan(r: Row, at: Str, start: int, id: int) {
    if r.observedAt != at then TextLess(r.observedAt, at)
    else if StartColumn(r) != start then StartColumn(r) < start
    else r.eventId < id
  }

  predicate LaterThan(r: Row, at: Str, start: int, id: int) {
    if r.observedAt != at then TextLess(at, r.observedAt)
    else if StartColumn(r) != start then start < StartColumn(r)
    else id < r.eventId
  }

  /** `reverse` looks for earlier rows, and forward for later ones. */
  predicate Beyond(r: Row, at: Str, start: int, id: int, reverse: bool) {
    if reverse then EarlierThan(r, at, start, id) else LaterThan(r, at, start, id)
  }

  lemma {:induction false} BeyondIsBefore(r: Row, at: Str, start: int, id: int, reverse: bool)
    ensures Before(Key(at, start, id), KeyOf(r), reverse) <==> Beyond(r, at, start, id, reverse)
  {
    TextOrder(at, r.observedAt);
  }

  /** The target, one of the types, from `since` on and before `until`, as far as each is given. */
  predicate Asked(f: Filter, r: Row) {
    && (f.target.None? || f.target.value == r.agentId)
    && (f.types == [] || exists i :: 0 <= i < |f.types| && f.types[i] == r.eventType)
    && (f.since.None? || f.since.value == r.observedAt || TextLess(f.since.value, r.observedAt))
    && (f.until.None? || (f.until.value != r.observedAt && !TextLess(f.until.value, r.observedAt)))
  }

  lemma {:induction false} AskedIsMatches(f: Filter, r: Row)
    ensures Matches(f, r) <==> Asked(f, r)
  {
    if f.since.Some? {
      TextOrder(r.observedAt, f.since.value);
    }
    if f.until.Some? {
      TextOrder(r.observedAt, f.until.value);
    }
  }

  /** Where a cursor resumes: past its three values, or past its id when it has no others. */
  predicate PastCursor(r: Row, d: Cursor.Details) {
    if d.observedAt.Some? && d.byteStart.Some? then Beyond(r, d.observedAt.value, d.byteStart.value, d.eventId, d.reverse)
    else if d.reverse then r.eventId < d.eventId else d.eventId < r.eventId
  }

  lemma {:induction false} PastCursorHolds(r: Row, d: Cursor.Details)
    ensures Holds(PastCondition(d), r) <==> PastCursor(r, d)
  {
    if d.observedAt.Some? && d.byteStart.Some? {
      BeyondIsBefore(r, d.observedAt.value, d.byteStart.value, d.eventId, d.reverse);
    }
  }

  /** Each row of the list comes after the one before it, by the three columns. */
  ghost predicate InColumnOrder(rows: Table, reverse: bool) {
    forall i, j :: 0 <= i < j < |rows| ==> Beyond(rows[j], rows[i].observedAt, StartColumn(rows[i]), rows[i].eventId, reverse)
  }

  lemma {:induction false} OrderedOnColumns(rows: Table, reverse: bool)
    requires Ordered(rows, reverse)
    ensures InColumnOrder(rows, reverse)
  {
    forall i, j | 0 <= i < j < |rows|
      ensures Beyond(rows[j], rows[i].observedAt, StartColumn(rows[i]), rows[i].eventId, reverse)
    {
      BeyondIsBefore(rows[j], rows[i].observedAt, StartColumn(rows[i]), rows[i].eventId, reverse);
    }
  }

  /** The listing holds exactly the rows asked for, in the order of the three columns. */
  lemma {:induction false} ListingOnColumns(t: Table, f: Filter, reverse: bool)
    requires ValidTable(t)
    ensures InColumnOrder(Listing(t, f, reverse), reverse)
    ensures forall r :: r in Listing(t, f, reverse) <==> r in t && Asked(f, r)
  {
    RowsPastAre(t, f, None, reverse);
    OrderedOnColumns(Listing(t, f, reverse), reverse);
    forall r
      ensures r in Listing(t, f, reverse) <==> r in t && Asked(f, r)
    {
      AskedIsMatches(f, r);
    }
  }

  /** The two directions list the same rows the other way round. */
  lemma {:induction false} ReverseMirrors(t: Table, f: Filter, i: nat)
    requires ValidTable(t) && i < |Listing(t, f, false)|
    ensures |Listing(t, f, true)| == |Listing(t, f, false)|
    ensures Listing(t, f, true)[i] == Listing(t, f, false)[|Listing(t, f, false)| - 1 - i]
  {
    var l := Listing(t, f, false);
    RowsPastAre(t, f, None, false);
    RowsPastAre(t, f, None, true);
    var m := Mirror(l);
    MirrorOrdered(l, m);
    OrderedUnique(Listing(t, f, true), m, true);
  }

  function Mirror(l: Table): (m: Table)
    ensures |m| == |l| && forall i :: 0 <= i < |l| ==> m[i] == l[|l| - 1 - i]
  {
    seq(|l|, i requires 0 <= i < |l| => l[|l| - 1 - i])
  }

  lemma {:induction false} MirrorOrdered(l: Table, m: Table)
    requires Ordered(l, false) && m == Mirror(l)
    ensures Ordered(m, true) && forall r :: r in m <==> r in l
  {
    forall r
      ensures r in m <==> r in l
    {
      if r in l {
        var i :| 0 <= i < |l| && l[i] == r;
        assert m[|l| - 1 - i] == r;
      }
    }
  }

  // Pages

  ghost predicate Sought(t: Table, f: Filter, d: Option<Cursor.Details>, r: Row) {
    r in t && Asked(f, r) && (d.Some? ==> PastCursor(r, d.value))
  }

  /** The rows of a page, of those sought: in order, as many as fit, none left out before its end, and a cursor if more are left. */
  ghost predicate PageOf(t: Table, f: Filter, d: Option<Cursor.Details>, limit: int, reverse: bool, page: Result) {
    page.Page? ==>
      && InColumnOrder(page.rows, reverse) && |page.rows| <= limit
      && (forall r :: r in page.rows ==> Sought(t, f, d, r))
      && (forall r :: Sought(t, f, d, r) && r !in page.rows ==>
            page.next.Some? && forall i :: 0 <= i < |page.rows| ==>
                                Beyond(r, page.rows[i].observedAt, StartColumn(page.rows[i]), page.rows[i].eventId, reverse))
      && (page.next.Some? ==> |page.rows| == limit && exists r :: Sought(t, f, d, r) && r !in page.rows)
  }

  /** Every row after a cut is beyond every row before it. */
  lemma {:induction false} RestBeyond(rows: Table, limit: nat, reverse: bool, r: Row)
    requires limit < |rows| && InColumnOrder(rows, reverse) && r in rows && r !in rows[..limit]
    ensures forall i :: 0 <= i < limit ==>
              Beyond(r, rows[..limit][i].observedAt, StartColumn(rows[..limit][i]), rows[..limit][i].eventId, reverse)
  {
    assert forall i :: 0 <= i < limit ==> rows[i] == rows[..limit][i] && rows[i] in rows[..limit];
    var j :| 0 <= j < |rows| && rows[j] == r;
  }

  lemma {:induction false} FirstOfRest(rows: Table, limit: nat, reverse: bool)
    requires limit < |rows| && Ordered(rows, reverse)
    ensures rows[limit] in rows && rows[limit] !in rows[..limit]
  {
    OrderedDistinct(rows, reverse);
  }

  lemma {:induction false} CutIsPageOf(rows: Table, t: Table, f: Filter, d: Option<Cursor.Details>, limit: nat, reverse: bool)
    requires limit > 0 && Ordered(rows, reverse) && forall r :: r in rows <==> Sought(t, f, d, r)
    ensures PageOf(t, f, d, limit, reverse, CutPage(rows, limit, reverse))
  {
    OrderedOnColumns(rows, reverse);
    if |rows| > limit {
      var first := rows[..limit];
      assert InColumnOrder(first, reverse);
      forall r | r in rows && r !in first
        ensures forall i :: 0 <= i < |first| ==> Beyond(r, first[i].observedAt, StartColumn(first[i]), first[i].eventId, reverse)
      {
        RestBeyond(rows, limit, reverse, r);
      }
      FirstOfRest(rows, limit, reverse);
    }
  }

  lemma {:induction false} SoughtRows(t: Table, f: Filter, d: Option<Cursor.Details>, reverse: bool) returns (rows: Table)
    requires ValidTable(t)
    ensures var past := if d.Some? then Some(PastCondition(d.value)) else None; rows == OrderBy(Selection(t, f, past), reverse)
    ensures Ordered(rows, reverse) && forall r :: r in rows <==> Sought(t, f, d, r)
  {
    var past := if d.Some? then Some(PastCondition(d.value)) else None;
    rows := OrderBy(Selection(t, f, past), reverse);
    SelectionUnique(t, f, past);
    OrderByOrdered(Selection(t, f, past), reverse);
    forall r
      ensures r in rows <==> Sought(t, f, d, r)
    {
      AskedIsMatches(f, r);
      if d.Some? {
        PastCursorHolds(r, d.value);
      }
    }
  }

  /** Without a cursor, a page is one of all the rows asked for. */
  lemma {:induction false} FirstPageOnColumns(t: Table, f: Filter, limit: int, reverse: bool)
    requires ValidTable(t)
    ensures limit <= 0 ==> SelectPage(t, f, None, limit, reverse) == LimitNotPositive
    ensures limit > 0 ==> PageOf(t, f, None, limit, reverse, SelectPage(t, f, None, limit, reverse))
  {
    if limit > 0 {
      var rows := SoughtRows(t, f, None, reverse);
      CutIsPageOf(rows, t, f, None, limit, reverse);
    }
  }

  /** With a cursor, it is rejected unless it decodes to one of the query's own direction, and else one of the rows past it. */
  lemma {:induction false} NextPageOnColumns(t: Table, f: Filter, token: Str, limit: int, reverse: bool)
    requires ValidTable(t)
    ensures limit <= 0 ==> SelectPage(t, f, Some(token), limit, reverse) == LimitNotPositive
    ensures var d := Cursor.DecodeCursor(token);
            && (limit > 0 && d.CursorError? ==> SelectPage(t, f, Some(token), limit, reverse) == CursorRejected)
            && (limit > 0 && d.Ok? && d.value.reverse != reverse ==> SelectPage(t, f, Some(token), limit, reverse) == CursorRejected)
            && (limit > 0 && d.Ok? && d.value.reverse == reverse ==>
                  PageOf(t, f, Some(d.value), limit, reverse, SelectPage(t, f, Some(token), limit, reverse)))
  {
    var d := Cursor.DecodeCursor(token);
    if limit > 0 && d.Ok? && d.value.reverse == reverse {
      var rows := SoughtRows(t, f, Some(d.value), reverse);
      CutIsPageOf(rows, t, f, Some(d.value), limit, reverse);
    }
  }

  /** A cursor made for one direction is rejected in the other. */
  lemma {:induction false} OtherDirectionRejected(t: Table, f: Filter, d: Cursor.Details, limit: int)
    requires Cursor.Accepted(d) && limit > 0
    ensures SelectPage(t, f, Some(Cursor.EncodeCursor(d).value), limit, !d.reverse) == CursorRejected
  {
    Cursor.DecodeEncoded(d);
  }
}
