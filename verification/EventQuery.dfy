/**
Keyset pagination over the events table: `select_events`, and walks that follow its cursors while rows
keep being inserted.  A row carries the columns the query reads.
*/
module EventQuery {
  import opened OrderedDicts
  import opened Text
  import Json
  import Cursor

  datatype Row = Row(eventId: int, eventType: Str, agentId: Str, observedAt: Str, byteStart: Option<int>, excerpt: Str)
  datatype Filter = Filter(target: Option<Str>, types: seq<Str>, since: Option<Str>, until: Option<Str>)
  type Table = seq<Row>

  // The sort key

  datatype Key = Key(observedAt: Str, byteStart: int, eventId: int)

  /** The key of `ORDER BY observed_at, COALESCE(byte_range_start, -1), event_id`. */
  function KeyOf(r: Row): Key {
    Key(r.observedAt, if r.byteStart.Some? then r.byteStart.value else Cursor.NULL_BYTE_START, r.eventId)
  }

  /** SQLite's binary collation, which on UTF-8 text is code-point order. */
  predicate TextLess(a: Str, b: Str) {
    b != [] && (a == [] || a[0] < b[0] || (a[0] == b[0] && TextLess(a[1..], b[1..])))
  }

  predicate KeyLess(a: Key, b: Key) {
    || TextLess(a.observedAt, b.observedAt)
    || (a.observedAt == b.observedAt && a.byteStart < b.byteStart)
    || (a.observedAt == b.observedAt && a.byteStart == b.byteStart && a.eventId < b.eventId)
  }

  /** `a` comes before `b` in the direction of the query. */
  predicate Before(a: Key, b: Key, reverse: bool) {
    if reverse then KeyLess(b, a) else KeyLess(a, b)
  }

  lemma {:induction false} TextOrder(a: Str, b: Str)
    ensures !(TextLess(a, b) && TextLess(b, a))
    ensures a == b ==> !TextLess(a, b)
    ensures a != b ==> TextLess(a, b) || TextLess(b, a)
  {
    if a != [] && b != [] && a[0] == b[0] {
      TextOrder(a[1..], b[1..]);
      assert a == [a[0]] + a[1..] && b == [b[0]] + b[1..];
    }
  }

  lemma {:induction false} TextTransitive(a: Str, b: Str, c: Str)
    requires TextLess(a, b) && TextLess(b, c)
    ensures TextLess(a, c)
  {
    if a != [] && a[0] == b[0] && b[0] == c[0] {
      TextTransitive(a[1..], b[1..], c[1..]);
    }
  }

  lemma {:induction false} KeyOrder(a: Key, b: Key, reverse: bool)
    ensures !(Before(a, b, reverse) && Before(b, a, reverse))
    ensures !Before(a, a, reverse)
    ensures a != b ==> Before(a, b, reverse) || Before(b, a, reverse)
  {
    TextOrder(a.observedAt, b.observedAt);
    TextOrder(a.observedAt, a.observedAt);
  }

  lemma {:induction false} KeyTransitive(a: Key, b: Key, c: Key, reverse: bool)
    requires Before(a, b, reverse) && Before(b, c, reverse)
    ensures Before(a, c, reverse)
  {
    if TextLess(a.observedAt, b.observedAt) && TextLess(b.observedAt, c.observedAt) {
      TextTransitive(a.observedAt, b.observedAt, c.observedAt);
    }
    if TextLess(c.observedAt, b.observedAt) && TextLess(b.observedAt, a.observedAt) {
      TextTransitive(c.observedAt, b.observedAt, a.observedAt);
    }
  }

  // The query

  datatype Condition =
    | AgentIs(agent: Str)
    | TypeIn(types: seq<Str>)
    | Since(from: Str)
    | Until(to: Str)
    | PastKey(key: Key, reverse: bool)
    | PastId(id: int, reverse: bool)

  predicate Holds(c: Condition, r: Row) {
    match c
    case AgentIs(agent) => r.agentId == agent
    case TypeIn(types) => r.eventType in types
    case Since(from) => !TextLess(r.observedAt, from)
    case Until(to) => TextLess(r.observedAt, to)
    case PastKey(key, reverse) => Before(key, KeyOf(r), reverse)
    case PastId(id, reverse) => if reverse then r.eventId < id else r.eventId > id
  }

  /** The SQL of the query: the rows that satisfy every condition of the WHERE clause. */
  function SelectWhere(t: Table, where: seq<Condition>): Table {
    if t == [] then []
    else SelectWhere(t[..|t| - 1], where) + (if AllHold(where, t[|t| - 1]) then [t[|t| - 1]] else [])
  }

  predicate AllHold(where: seq<Condition>, r: Row) {
    forall c :: c in where ==> Holds(c, r)
  }

  function Insert(s: Table, r: Row, reverse: bool): (s': Table)
    ensures forall x :: x in s' <==> x in s || x == r
  {
    if s == [] then [r]
    else if Before(KeyOf(r), KeyOf(s[0]), reverse) then [r] + s
    else [s[0]] + Insert(s[1..], r, reverse)
  }

  /** `ORDER BY` the key, in the direction of the query. */
  function OrderBy(t: Table, reverse: bool): (s: Table)
    ensures forall x :: x in s <==> x in t
  {
    if t == [] then []
    else
      assert t == t[..|t| - 1] + [t[|t| - 1]];
      Insert(OrderBy(t[..|t| - 1], reverse), t[|t| - 1], reverse)
  }

  // What a request asks for

  predicate Matches(f: Filter, r: Row) {
    && (f.target.Some? ==> r.agentId == f.target.value)
    && (f.types != [] ==> r.eventType in f.types)
    && (f.since.Some? ==> !TextLess(r.observedAt, f.since.value))
    && (f.until.Some? ==> TextLess(r.observedAt, f.until.value))
  }

  /** A row that matches the filter and lies past the resume point, if there is one. */
  predicate Wanted(f: Filter, past: Option<Condition>, r: Row) {
    Matches(f, r) && (past.Some? ==> Holds(past.value, r))
  }

  function Selection(t: Table, f: Filter, past: Option<Condition>): (s: Table)
    ensures forall r :: r in s <==> r in t && Wanted(f, past, r)
  {
    if t == [] then []
    else
      var front, last := t[..|t| - 1], t[|t| - 1];
      assert t == front + [last];
      Selection(front, f, past) + (if Wanted(f, past, last) then [last] else [])
  }

  datatype Result = Page(rows: Table, next: Option<Str>) | LimitNotPositive | CursorRejected

  function CursorAfter(r: Row, reverse: bool): Cursor.Result<Str> {
    Cursor.EncodeCursor(Cursor.Details(r.eventId, reverse, Some(r.observedAt), Some(KeyOf(r).byteStart)))
  }

  function PastCondition(d: Cursor.Details): Condition {
    if d.observedAt.Some? && d.byteStart.Some?
    then PastKey(Key(d.observedAt.value, d.byteStart.value, d.eventId), d.reverse)
    else PastId(d.eventId, d.reverse)
  }

  /** The first `limit` of the rows, with a cursor after the last of them when there are more. */
  function CutPage(rows: Table, limit: nat, reverse: bool): Result
    requires limit > 0
  {
    if |rows| <= limit then Page(rows, None)
    else
      var next := CursorAfter(rows[limit - 1], reverse);
      if next.Ok? then Page(rows[..limit], Some(next.value)) else CursorRejected
  }

  function SelectPage(t: Table, f: Filter, cursor: Option<Str>, limit: int, reverse: bool): Result {
    if limit <= 0 then LimitNotPositive
    else if cursor.None? then CutPage(OrderBy(Selection(t, f, None), reverse), limit, reverse)
    else
      var d := Cursor.DecodeCursor(cursor.value);
      if !d.Ok? || d.value.reverse != reverse then CursorRejected
      else CutPage(OrderBy(Selection(t, f, Some(PastCondition(d.value))), reverse), limit, reverse)
  }

  // The query as it is built

  lemma {:induction false} OneMoreCondition(where: seq<Condition>, c: Condition, r: Row)
    ensures AllHold(where + [c], r) <==> AllHold(where, r) && Holds(c, r)
  {
    assert c in where + [c] && forall x :: x in where ==> x in where + [c];
  }

  /** A row satisfies the conditions the filter contributes if and only if it matches the filter. */
  method FilterClause(f: Filter) returns (where: seq<Condition>)
    ensures forall r :: AllHold(where, r) <==> Matches(f, r)
  {
    where := [];
    if f.target.Some? {
      forall r { OneMoreCondition(where, AgentIs(f.target.value), r); }
      where := where + [AgentIs(f.target.value)];
    }
    if f.types != [] {
      forall r { OneMoreCondition(where, TypeIn(f.types), r); }
      where := where + [TypeIn(f.types)];
    }
    if f.since.Some? {
      forall r { OneMoreCondition(where, Since(f.since.value), r); }
      where := where + [Since(f.since.value)];
    }
    if f.until.Some? {
      forall r { OneMoreCondition(where, Until(f.until.value), r); }
      where := where + [Until(f.until.value)];
    }
  }

  lemma {:induction false} SelectsWanted(t: Table, where: seq<Condition>, f: Filter, past: Option<Condition>)
    requires forall r :: AllHold(where, r) <==> Wanted(f, past, r)
    ensures SelectWhere(t, where) == Selection(t, f, past)
  {
    if t != [] {
      SelectsWanted(t[..|t| - 1], where, f, past);
    }
  }

  /** One row more than the page holds tells the same page and cursor as all of them. */
  lemma {:induction false} FetchedIsEnough(sorted: Table, limit: nat, reverse: bool)
    requires 0 < limit < |sorted|
    ensures CutPage(sorted[..limit + 1], limit, reverse) == CutPage(sorted, limit, reverse)
  {
    assert sorted[..limit + 1][..limit] == sorted[..limit];
  }

  /** Running the query for one row more than the page holds, and cutting the page. */
  method FetchPage(t: Table, where: seq<Condition>, limit: nat, reverse: bool) returns (page: Result)
    requires limit > 0
    ensures page == CutPage(OrderBy(SelectWhere(t, where), reverse), limit, reverse)
  {
    var sorted := OrderBy(SelectWhere(t, where), reverse);
    var rows := if |sorted| <= limit then sorted else sorted[..limit + 1];
    if |rows| <= limit {
      return Page(rows, None);
    }
    FetchedIsEnough(sorted, limit, reverse);
    var next := CursorAfter(rows[limit - 1], reverse);
    page := if next.Ok? then Page(rows[..limit], Some(next.value)) else CursorRejected;
  }

  /** `select_events`. */
  method SelectEvents(t: Table, f: Filter, cursor: Option<Str>, limit: int, reverse: bool) returns (page: Result)
    ensures page == SelectPage(t, f, cursor, limit, reverse)
    ensures page.LimitNotPositive? <==> limit <= 0
    ensures limit > 0 && cursor.Some? && (Cursor.DecodeCursor(cursor.value).CursorError? || Cursor.DecodeCursor(cursor.value).value.reverse != reverse) ==>
              page.CursorRejected?
    ensures page.Page? ==> |page.rows| <= limit && (page.next.Some? ==> |page.rows| == limit)
  {
    if limit <= 0 {
      return LimitNotPositive;
    }
    var where := FilterClause(f);
    if cursor.Some? {
      var d := Cursor.DecodeCursor(cursor.value);
      if !d.Ok? || d.value.reverse != reverse {
        return CursorRejected;
      }
      var past := PastCondition(d.value);
      forall r { OneMoreCondition(where, past, r); }
      where := where + [past];
      SelectsWanted(t, where, f, Some(past));
    } else {
      SelectsWanted(t, where, f, None);
    }
    page := FetchPage(t, where, limit, reverse);
  }

  // Rows and their order

  /** What the schema guarantees of a stored row. */
  predicate Stored(r: Row) {
    Encodable(r.observedAt) && (r.byteStart.Some? ==> r.byteStart.value >= 0)
  }

  /** A row `encode_cursor` accepts: an id within the safe range, and a timestamp that is not empty. */
  predicate Resumable(r: Row) {
    0 < r.eventId <= Cursor.MAX_EVENT_ID && r.observedAt != []
  }

  ghost predicate UniqueIds(t: Table) {
    forall i, j :: 0 <= i < j < |t| ==> t[i].eventId != t[j].eventId
  }

  ghost predicate ValidTable(t: Table) {
    (forall i :: 0 <= i < |t| ==> Stored(t[i])) && UniqueIds(t)
  }

  ghost predicate Ordered(s: Table, reverse: bool) {
    forall i, j :: 0 <= i < j < |s| ==> Before(KeyOf(s[i]), KeyOf(s[j]), reverse)
  }

  lemma {:induction false} SelectionUnique(t: Table, f: Filter, past: Option<Condition>)
    requires UniqueIds(t)
    ensures UniqueIds(Selection(t, f, past))
  {
    if t != [] {
      var front, last := t[..|t| - 1], t[|t| - 1];
      SelectionUnique(front, f, past);
      var s := Selection(front, f, past);
      forall i | 0 <= i < |s|
        ensures s[i].eventId != last.eventId
      {
        assert s[i] in front;
      }
    }
  }

  lemma {:induction false} InsertOrdered(s: Table, r: Row, reverse: bool)
    requires Ordered(s, reverse) && forall x :: x in s ==> x.eventId != r.eventId
    ensures Ordered(Insert(s, r, reverse), reverse)
  {
    if s != [] {
      if Before(KeyOf(r), KeyOf(s[0]), reverse) {
        forall j | 1 <= j < |s|
          ensures Before(KeyOf(r), KeyOf(s[j]), reverse)
        {
          KeyTransitive(KeyOf(r), KeyOf(s[0]), KeyOf(s[j]), reverse);
        }
      } else {
        KeyOrder(KeyOf(r), KeyOf(s[0]), reverse);
        InsertOrdered(s[1..], r, reverse);
        var rest := Insert(s[1..], r, reverse);
        forall j | 0 <= j < |rest|
          ensures Before(KeyOf(s[0]), KeyOf(rest[j]), reverse)
        {
          assert rest[j] in s[1..] || rest[j] == r;
        }
      }
    }
  }

  lemma {:induction false} OrderByOrdered(t: Table, reverse: bool)
    requires UniqueIds(t)
    ensures Ordered(OrderBy(t, reverse), reverse)
  {
    if t != [] {
      var front := t[..|t| - 1];
      OrderByOrdered(front, reverse);
      InsertOrdered(OrderBy(front, reverse), t[|t| - 1], reverse);
    }
  }

  /** Ordered lists with the same rows are equal. */
  lemma {:induction false} OrderedUnique(s: Table, s': Table, reverse: bool)
    requires Ordered(s, reverse) && Ordered(s', reverse) && forall r :: r in s <==> r in s'
    ensures s == s'
  {
    HeadIsMember(s);
    HeadIsMember(s');
    if s != [] {
      SameHead(s, s', reverse);
      forall r
        ensures r in s[1..] <==> r in s'[1..]
      {
        InTail(s, r, reverse);
        InTail(s', r, reverse);
      }
      OrderedUnique(s[1..], s'[1..], reverse);
      assert s == [s[0]] + s[1..] && s' == [s'[0]] + s'[1..];
    }
  }

  lemma {:induction false} HeadIsMember(s: Table)
    ensures s != [] ==> s[0] in s
  {
  }

  lemma {:induction false} SameHead(s: Table, s': Table, reverse: bool)
    requires Ordered(s, reverse) && Ordered(s', reverse) && s != [] && s' != [] && s[0] in s' && s'[0] in s
    ensures s[0] == s'[0]
  {
    if s[0] != s'[0] {
      var i :| 0 <= i < |s'| && s'[i] == s[0];
      var j :| 0 <= j < |s| && s[j] == s'[0];
      assert Before(KeyOf(s'[0]), KeyOf(s[0]), reverse) && Before(KeyOf(s[0]), KeyOf(s'[0]), reverse);
      KeyOrder(KeyOf(s[0]), KeyOf(s'[0]), reverse);
    }
  }

  lemma {:induction false} InTail(s: Table, r: Row, reverse: bool)
    requires Ordered(s, reverse) && s != []
    ensures r in s[1..] <==> r in s && r != s[0]
  {
    assert s == [s[0]] + s[1..];
    if s[0] in s[1..] {
      var i :| 0 <= i < |s| - 1 && s[1..][i] == s[0];
      assert Before(KeyOf(s[0]), KeyOf(s[i + 1]), reverse);
      KeyOrder(KeyOf(s[0]), KeyOf(s[0]), reverse);
    }
  }

  lemma {:induction false} OrderedDistinct(s: Table, reverse: bool)
    requires Ordered(s, reverse)
    ensures Distinct(s)
  {
    forall i, j | 0 <= i < j < |s|
      ensures s[i] != s[j]
    {
      KeyOrder(KeyOf(s[i]), KeyOf(s[j]), reverse);
    }
  }

  // Resuming

  predicate Past(from: Option<Row>, r: Row, reverse: bool) {
    from.Some? ==> Before(KeyOf(from.value), KeyOf(r), reverse)
  }

  /** The matching rows past a row, or all of them, in key order. */
  function RowsPast(t: Table, f: Filter, from: Option<Row>, reverse: bool): Table {
    OrderBy(Selection(t, f, if from.Some? then Some(PastKey(KeyOf(from.value), reverse)) else None), reverse)
  }

  /** The whole filtered list in key order. */
  function Listing(t: Table, f: Filter, reverse: bool): Table {
    RowsPast(t, f, None, reverse)
  }

  lemma {:induction false} RowsPastAre(t: Table, f: Filter, from: Option<Row>, reverse: bool)
    requires ValidTable(t)
    ensures Ordered(RowsPast(t, f, from, reverse), reverse)
    ensures forall r :: r in RowsPast(t, f, from, reverse) <==> r in t && Matches(f, r) && Past(from, r, reverse)
  {
    var past := if from.Some? then Some(PastKey(KeyOf(from.value), reverse)) else None;
    SelectionUnique(t, f, past);
    OrderByOrdered(Selection(t, f, past), reverse);
  }

  lemma {:induction false} NoSurrogates(s: Str)
    requires Encodable(s)
    ensures !Json.HasSplitPair(s)
  {
  }

  /** `encode_cursor` accepts exactly the resumable rows, and its cursor selects exactly the rows past the row. */
  lemma {:induction false} CursorLeadsPast(r: Row, reverse: bool)
    requires Stored(r)
    ensures CursorAfter(r, reverse).Ok? <==> Resumable(r)
    ensures Resumable(r) ==>
              var d := Cursor.DecodeCursor(CursorAfter(r, reverse).value);
              d.Ok? && d.value.reverse == reverse && PastCondition(d.value) == PastKey(KeyOf(r), reverse)
  {
    if Resumable(r) {
      NoSurrogates(r.observedAt);
      Cursor.RoundTripIff(Cursor.Details(r.eventId, reverse, Some(r.observedAt), Some(KeyOf(r).byteStart)));
    }
  }

  /** Where a walk resumes: from the start, or past the key of a row. */
  ghost predicate ResumesAt(cursor: Option<Str>, from: Option<Row>, reverse: bool) {
    if from.None? then cursor.None?
    else Stored(from.value) && Resumable(from.value) && cursor == Some(CursorAfter(from.value, reverse).value)
  }

  lemma {:induction false} PageIsCut(t: Table, f: Filter, cursor: Option<Str>, from: Option<Row>, limit: nat, reverse: bool)
    requires limit > 0 && ResumesAt(cursor, from, reverse)
    ensures SelectPage(t, f, cursor, limit, reverse) == CutPage(RowsPast(t, f, from, reverse), limit, reverse)
  {
    if from.Some? {
      CursorLeadsPast(from.value, reverse);
    }
  }

  // Walks

  /** One page request: the table as it stands when it is made, and the page size asked for. */
  datatype Request = Request(table: Table, limit: nat)

  datatype Walked = Rejected | Walked(rows: Table, finished: bool)

  function Joined(rows: Table, more: Walked): Walked {
    if more.Rejected? then Rejected else Walked(rows + more.rows, more.finished)
  }

  /** Following the cursors from page to page, one request after another, until there is no next page. */
  function Walk(reqs: seq<Request>, f: Filter, reverse: bool, cursor: Option<Str>): Walked {
    if reqs == [] then Walked([], false)
    else
      var page := SelectPage(reqs[0].table, f, cursor, reqs[0].limit, reverse);
      AfterPage(page, if HasNext(page) then Walk(reqs[1..], f, reverse, page.next) else Rejected)
  }

  predicate HasNext(page: Result) {
    page.Page? && page.next.Some?
  }

  function AfterPage(page: Result, more: Walked): Walked {
    if !page.Page? then Rejected
    else if page.next.None? then Walked(page.rows, true)
    else Joined(page.rows, more)
  }

  /** Tables along a walk: valid, and rows are only ever added. */
  ghost predicate Growing(reqs: seq<Request>) {
    reqs != [] ==>
      && ValidTable(reqs[0].table) && reqs[0].limit > 0 && Growing(reqs[1..])
      && (|reqs| > 1 ==> forall r :: r in reqs[0].table ==> r in reqs[1].table)
  }

  /** A walk from `rows` on, when the first page holds `n` rows and `more` is the walk after it. */
  function FirstPage(rows: Table, n: nat, more: Walked): Walked
    requires n > 0
  {
    if |rows| <= n then Walked(rows, true)
    else if !Resumable(rows[n - 1]) then Rejected
    else Joined(rows[..n], more)
  }

  /** The walk after a page cut from `rows`. */
  function Rest(reqs: seq<Request>, f: Filter, reverse: bool, page: Result): Walked
    requires reqs != []
  {
    if HasNext(page) then Walk(reqs[1..], f, reverse, page.next) else Rejected
  }

  lemma {:induction false} CutIsFirstPage(rows: Table, n: nat, reverse: bool, more: Walked)
    requires n > 0 && (|rows| > n ==> (CursorAfter(rows[n - 1], reverse).Ok? <==> Resumable(rows[n - 1])))
    ensures AfterPage(CutPage(rows, n, reverse), more) == FirstPage(rows, n, more)
    ensures HasNext(CutPage(rows, n, reverse)) <==> |rows| > n && Resumable(rows[n - 1])
    ensures HasNext(CutPage(rows, n, reverse)) ==> CutPage(rows, n, reverse).next == Some(CursorAfter(rows[n - 1], reverse).value)
  {
  }

  /** A walk whose first page is cut from `rows`. */
  lemma {:induction false} WalkCut(reqs: seq<Request>, f: Filter, reverse: bool, cursor: Option<Str>, page: Result)
    requires reqs != [] && page == SelectPage(reqs[0].table, f, cursor, reqs[0].limit, reverse)
    ensures Walk(reqs, f, reverse, cursor) == AfterPage(page, Rest(reqs, f, reverse, page))
  {
  }

  lemma {:induction false} WalkUnfolds(reqs: seq<Request>, f: Filter, reverse: bool, cursor: Option<Str>, from: Option<Row>)
    requires reqs != [] && ValidTable(reqs[0].table) && reqs[0].limit > 0 && ResumesAt(cursor, from, reverse)
    ensures var rows, n := RowsPast(reqs[0].table, f, from, reverse), reqs[0].limit;
            Walk(reqs, f, reverse, cursor) == FirstPage(rows, n, Rest(reqs, f, reverse, CutPage(rows, n, reverse)))
  {
    var rows, n := RowsPast(reqs[0].table, f, from, reverse), reqs[0].limit;
    var page := CutPage(rows, n, reverse);
    PageIsCut(reqs[0].table, f, cursor, from, n, reverse);
    WalkCut(reqs, f, reverse, cursor, page);
    PageEnds(reqs[0].table, f, from, reverse, n);
    CutIsFirstPage(rows, n, reverse, Rest(reqs, f, reverse, page));
  }

  /** The cursor of a first page that ends at a resumable row, with more rows after it. */
  lemma {:induction false} NextRequest(reqs: seq<Request>, f: Filter, reverse: bool, from: Option<Row>) returns (next: Option<Str>)
    requires reqs != [] && ValidTable(reqs[0].table) && reqs[0].limit > 0
    requires var rows, n := RowsPast(reqs[0].table, f, from, reverse), reqs[0].limit; |rows| > n && Resumable(rows[n - 1])
    ensures var rows, n := RowsPast(reqs[0].table, f, from, reverse), reqs[0].limit;
            && ResumesAt(next, Some(rows[n - 1]), reverse)
            && Rest(reqs, f, reverse, CutPage(rows, n, reverse)) == Walk(reqs[1..], f, reverse, next)
  {
    var rows, n := RowsPast(reqs[0].table, f, from, reverse), reqs[0].limit;
    PageEnds(reqs[0].table, f, from, reverse, n);
    CutIsFirstPage(rows, n, reverse, Rejected);
    next := CutPage(rows, n, reverse).next;
  }

  /** The row a page ends at is a stored one, which tells when a cursor can be made after it. */
  lemma {:induction false} PageEnds(t: Table, f: Filter, from: Option<Row>, reverse: bool, n: nat)
    requires ValidTable(t) && n > 0
    ensures var rows := RowsPast(t, f, from, reverse);
            |rows| > n ==> rows[n - 1] in t && Stored(rows[n - 1]) && (CursorAfter(rows[n - 1], reverse).Ok? <==> Resumable(rows[n - 1]))
  {
    var rows := RowsPast(t, f, from, reverse);
    RowsPastAre(t, f, from, reverse);
    if |rows| > n {
      assert rows[n - 1] in rows;
      CursorLeadsPast(rows[n - 1], reverse);
    }
  }

  // What a walk returns

  /** Ordered, past the resume point, matching, and taken from the table of some request. */
  ghost predicate Sound(w: Walked, reqs: seq<Request>, f: Filter, from: Option<Row>, reverse: bool) {
    w.Walked? ==> Ordered(w.rows, reverse) && forall r :: r in w.rows ==> Found(reqs, f, from, reverse, r)
  }

  ghost predicate Found(reqs: seq<Request>, f: Filter, from: Option<Row>, reverse: bool, r: Row) {
    Matches(f, r) && Past(from, r, reverse) && exists i :: 0 <= i < |reqs| && r in reqs[i].table
  }

  /** A finished walk has every matching row its first table held past the resume point. */
  ghost predicate Complete(w: Walked, reqs: seq<Request>, f: Filter, from: Option<Row>, reverse: bool)
    requires reqs != []
  {
    w.Walked? && w.finished ==> forall r :: r in reqs[0].table && Matches(f, r) && Past(from, r, reverse) ==> r in w.rows
  }

  /** A walk is rejected only at a row that no cursor can be made after. */
  ghost predicate RejectedAt(w: Walked, reqs: seq<Request>, f: Filter, from: Option<Row>, reverse: bool) {
    w.Rejected? ==> exists r :: Found(reqs, f, from, reverse, r) && !Resumable(r)
  }

  lemma {:induction false} FoundEarlier(reqs: seq<Request>, f: Filter, from: Option<Row>, reverse: bool, last: Row, r: Row)
    requires reqs != [] && Past(from, last, reverse) && Found(reqs[1..], f, Some(last), reverse, r)
    ensures Found(reqs, f, from, reverse, r)
  {
    var i :| 0 <= i < |reqs[1..]| && r in reqs[1..][i].table;
    assert r in reqs[i + 1].table;
    if from.Some? {
      KeyTransitive(KeyOf(from.value), KeyOf(last), KeyOf(r), reverse);
    }
  }

  lemma {:induction false} PageFound(reqs: seq<Request>, f: Filter, from: Option<Row>, reverse: bool, r: Row)
    requires reqs != [] && ValidTable(reqs[0].table) && r in RowsPast(reqs[0].table, f, from, reverse)
    ensures Found(reqs, f, from, reverse, r)
  {
    RowsPastAre(reqs[0].table, f, from, reverse);
  }

  lemma {:induction false} JoinedOrdered(rows: Table, n: nat, more: Table, reverse: bool)
    requires 0 < n < |rows| && Ordered(rows, reverse) && Ordered(more, reverse)
    requires forall r :: r in more ==> Before(KeyOf(rows[n - 1]), KeyOf(r), reverse)
    ensures Ordered(rows[..n] + more, reverse)
  {
    var w, last := rows[..n] + more, rows[n - 1];
    forall i, j | 0 <= i < j < |w|
      ensures Before(KeyOf(w[i]), KeyOf(w[j]), reverse)
    {
      if i < n <= j {
        assert w[j] in more;
        if i < n - 1 {
          KeyTransitive(KeyOf(w[i]), KeyOf(last), KeyOf(w[j]), reverse);
        }
      }
    }
  }

  /** A page and the walk that resumes past its last row. */
  lemma {:induction false} JoinedSound(reqs: seq<Request>, f: Filter, reverse: bool, from: Option<Row>, n: nat, more: Walked)
    requires Growing(reqs) && reqs != [] && 0 < n < |RowsPast(reqs[0].table, f, from, reverse)|
    requires Sound(more, reqs[1..], f, Some(RowsPast(reqs[0].table, f, from, reverse)[n - 1]), reverse)
    ensures Sound(Joined(RowsPast(reqs[0].table, f, from, reverse)[..n], more), reqs, f, from, reverse)
  {
    var rows := RowsPast(reqs[0].table, f, from, reverse);
    RowsPastAre(reqs[0].table, f, from, reverse);
    assert rows[n - 1] in rows;
    if more.Walked? {
      forall r | r in more.rows
        ensures Before(KeyOf(rows[n - 1]), KeyOf(r), reverse)
      {
        assert Found(reqs[1..], f, Some(rows[n - 1]), reverse, r);
      }
      JoinedOrdered(rows, n, more.rows, reverse);
      forall r | r in rows[..n] + more.rows
        ensures Found(reqs, f, from, reverse, r)
      {
        if r in rows[..n] {
          PageFound(reqs, f, from, reverse, r);
        } else {
          FoundEarlier(reqs, f, from, reverse, rows[n - 1], r);
        }
      }
    }
  }

  lemma {:induction false} JoinedComplete(reqs: seq<Request>, f: Filter, reverse: bool, from: Option<Row>, n: nat, more: Walked)
    requires Growing(reqs) && |reqs| > 1 && 0 < n < |RowsPast(reqs[0].table, f, from, reverse)|
    requires Complete(more, reqs[1..], f, Some(RowsPast(reqs[0].table, f, from, reverse)[n - 1]), reverse)
    ensures Complete(Joined(RowsPast(reqs[0].table, f, from, reverse)[..n], more), reqs, f, from, reverse)
  {
    var rows := RowsPast(reqs[0].table, f, from, reverse);
    RowsPastAre(reqs[0].table, f, from, reverse);
    if more.Walked? && more.finished {
      forall r | r in reqs[0].table && Matches(f, r) && Past(from, r, reverse)
        ensures r in rows[..n] + more.rows
      {
        assert r in rows;
        var i :| 0 <= i < |rows| && rows[i] == r;
        if i < n {
          assert rows[..n][i] == r;
        } else {
          assert Before(KeyOf(rows[n - 1]), KeyOf(r), reverse);
          assert r in reqs[1].table && reqs[1..][0] == reqs[1];
        }
      }
    }
  }

  lemma {:induction false} JoinedRejected(reqs: seq<Request>, f: Filter, reverse: bool, from: Option<Row>, n: nat, more: Walked)
    requires Growing(reqs) && reqs != [] && 0 < n < |RowsPast(reqs[0].table, f, from, reverse)|
    requires RejectedAt(more, reqs[1..], f, Some(RowsPast(reqs[0].table, f, from, reverse)[n - 1]), reverse)
    ensures RejectedAt(Joined(RowsPast(reqs[0].table, f, from, reverse)[..n], more), reqs, f, from, reverse)
  {
    var rows := RowsPast(reqs[0].table, f, from, reverse);
    RowsPastAre(reqs[0].table, f, from, reverse);
    assert rows[n - 1] in rows;
    if more.Rejected? {
      var r :| Found(reqs[1..], f, Some(rows[n - 1]), reverse, r) && !Resumable(r);
      FoundEarlier(reqs, f, from, reverse, rows[n - 1], r);
    }
  }

  ghost predicate Exact(w: Walked, reqs: seq<Request>, f: Filter, from: Option<Row>, reverse: bool) {
    Sound(w, reqs, f, from, reverse) && RejectedAt(w, reqs, f, from, reverse) && (reqs != [] ==> Complete(w, reqs, f, from, reverse))
  }

  /** A walk that ends with its first page, or at it. */
  lemma {:induction false} OnePageExact(reqs: seq<Request>, f: Filter, reverse: bool, from: Option<Row>, w: Walked)
    requires Growing(reqs) && reqs != []
    requires var rows, n := RowsPast(reqs[0].table, f, from, reverse), reqs[0].limit;
             if |rows| <= n then w == Walked(rows, true) else w == Rejected && !Resumable(rows[n - 1])
    ensures Exact(w, reqs, f, from, reverse)
  {
    var rows := RowsPast(reqs[0].table, f, from, reverse);
    RowsPastAre(reqs[0].table, f, from, reverse);
    forall r | r in rows
      ensures Found(reqs, f, from, reverse, r)
    {
      PageFound(reqs, f, from, reverse, r);
    }
    if |rows| > reqs[0].limit {
      assert rows[reqs[0].limit - 1] in rows;
    }
  }

  lemma {:induction false} MorePagesExact(reqs: seq<Request>, f: Filter, reverse: bool, from: Option<Row>, n: nat, more: Walked)
    requires Growing(reqs) && reqs != [] && 0 < n < |RowsPast(reqs[0].table, f, from, reverse)|
    requires Exact(more, reqs[1..], f, Some(RowsPast(reqs[0].table, f, from, reverse)[n - 1]), reverse)
    requires |reqs| == 1 ==> more == Walked([], false)
    ensures Exact(Joined(RowsPast(reqs[0].table, f, from, reverse)[..n], more), reqs, f, from, reverse)
  {
    JoinedSound(reqs, f, reverse, from, n, more);
    JoinedRejected(reqs, f, reverse, from, n, more);
    if |reqs| > 1 {
      JoinedComplete(reqs, f, reverse, from, n, more);
    }
  }

  /** One request of a walk, and where the next one resumes. */
  lemma {:induction false} WalkStep(reqs: seq<Request>, f: Filter, reverse: bool, cursor: Option<Str>, from: Option<Row>)
    returns (next: Option<Str>, more: Walked)
    requires reqs != [] && ValidTable(reqs[0].table) && reqs[0].limit > 0 && ResumesAt(cursor, from, reverse)
    ensures Walk(reqs, f, reverse, cursor) == FirstPage(RowsPast(reqs[0].table, f, from, reverse), reqs[0].limit, more)
    ensures var rows, n := RowsPast(reqs[0].table, f, from, reverse), reqs[0].limit;
            |rows| > n && Resumable(rows[n - 1]) ==>
              ResumesAt(next, Some(rows[n - 1]), reverse) && more == Walk(reqs[1..], f, reverse, next)
  {
    var rows, n := RowsPast(reqs[0].table, f, from, reverse), reqs[0].limit;
    WalkUnfolds(reqs, f, reverse, cursor, from);
    more := Rest(reqs, f, reverse, CutPage(rows, n, reverse));
    next := None;
    if |rows| > n && Resumable(rows[n - 1]) {
      next := NextRequest(reqs, f, reverse, from);
    }
  }

  /** A walk that remembers the row it resumes past instead of a cursor. */
  function KeyWalk(reqs: seq<Request>, f: Filter, reverse: bool, from: Option<Row>): Walked {
    if reqs == [] then Walked([], false)
    else if reqs[0].limit == 0 then Rejected
    else
      var rows, n := RowsPast(reqs[0].table, f, from, reverse), reqs[0].limit;
      FirstPage(rows, n, if n < |rows| then KeyWalk(reqs[1..], f, reverse, Some(rows[n - 1])) else Rejected)
  }

  lemma {:induction false} FirstPageSame(rows: Table, n: nat, more: Walked, more': Walked)
    requires n > 0 && (|rows| > n && Resumable(rows[n - 1]) ==> more == more')
    ensures FirstPage(rows, n, more) == FirstPage(rows, n, more')
  {
  }

  ghost predicate ValidTables(reqs: seq<Request>) {
    reqs != [] ==> ValidTable(reqs[0].table) && reqs[0].limit > 0 && ValidTables(reqs[1..])
  }

  /** A walk is the same with cursors as with the rows they are made after. */
  lemma {:induction false} CursorsRemember(reqs: seq<Request>, f: Filter, reverse: bool, cursor: Option<Str>, from: Option<Row>)
    requires ValidTables(reqs) && ResumesAt(cursor, from, reverse)
    ensures Walk(reqs, f, reverse, cursor) == KeyWalk(reqs, f, reverse, from)
    decreases |reqs|
  {
    if reqs != [] {
      var rows, n := RowsPast(reqs[0].table, f, from, reverse), reqs[0].limit;
      var next, more := WalkStep(reqs, f, reverse, cursor, from);
      if |rows| > n && Resumable(rows[n - 1]) {
        CursorsRemember(reqs[1..], f, reverse, next, Some(rows[n - 1]));
        FirstPageSame(rows, n, more, KeyWalk(reqs[1..], f, reverse, Some(rows[n - 1])));
      }
    }
  }

  lemma {:induction false} GrowingValid(reqs: seq<Request>)
    requires Growing(reqs)
    ensures ValidTables(reqs)
  {
    if reqs != [] {
      GrowingValid(reqs[1..]);
    }
  }

  lemma {:induction false} KeyWalkExact(reqs: seq<Request>, f: Filter, reverse: bool, from: Option<Row>)
    requires Growing(reqs)
    ensures Exact(KeyWalk(reqs, f, reverse, from), reqs, f, from, reverse)
    decreases |reqs|
  {
    if reqs != [] {
      var rows, n := RowsPast(reqs[0].table, f, from, reverse), reqs[0].limit;
      if |rows| > n && Resumable(rows[n - 1]) {
        KeyWalkExact(reqs[1..], f, reverse, Some(rows[n - 1]));
        MorePagesExact(reqs, f, reverse, from, n, KeyWalk(reqs[1..], f, reverse, Some(rows[n - 1])));
      } else {
        OnePageExact(reqs, f, reverse, from, KeyWalk(reqs, f, reverse, from));
      }
    }
  }

  /**
  A walk over growing tables: what it returns is ordered and past the resume point, it is complete once it
  finishes, and it is rejected only at a row that no cursor can be made after.
  */
  lemma {:induction false} WalkIsExact(reqs: seq<Request>, f: Filter, reverse: bool, cursor: Option<Str>, from: Option<Row>)
    requires Growing(reqs) && ResumesAt(cursor, from, reverse)
    ensures Exact(Walk(reqs, f, reverse, cursor), reqs, f, from, reverse)
  {
    GrowingValid(reqs);
    CursorsRemember(reqs, f, reverse, cursor, from);
    KeyWalkExact(reqs, f, reverse, from);
  }

  /**
  A walk from the start while rows are inserted: keys strictly advance, no row comes twice, once it finishes
  every matching row that was there at the start came exactly once, and while every row is resumable it is
  never rejected.
  */
  lemma {:induction false} WalkUnderInserts(reqs: seq<Request>, f: Filter, reverse: bool)
    requires Growing(reqs) && reqs != []
    ensures var w := Walk(reqs, f, reverse, None);
            && (w.Walked? ==> Ordered(w.rows, reverse) && Distinct(w.rows) && forall r :: r in w.rows ==> Matches(f, r))
            && (w.Walked? && w.finished ==> forall r :: r in reqs[0].table && Matches(f, r) ==> r in w.rows)
            && (w.Rejected? ==> exists i, r :: 0 <= i < |reqs| && r in reqs[i].table && Matches(f, r) && !Resumable(r))
  {
    WalkIsExact(reqs, f, reverse, None, None);
    var w := Walk(reqs, f, reverse, None);
    if w.Walked? {
      assert forall r :: r in w.rows ==> Found(reqs, f, None, reverse, r);
      OrderedDistinct(w.rows, reverse);
    } else {
      var r :| Found(reqs, f, None, reverse, r) && !Resumable(r);
      var i :| 0 <= i < |reqs| && r in reqs[i].table;
      assert Matches(f, r);
    }
  }

  // Walks over a table that does not change

  ghost predicate Fixed(reqs: seq<Request>, t: Table) {
    reqs == [] || (reqs[0].table == t && reqs[0].limit > 0 && Fixed(reqs[1..], t))
  }

  lemma {:induction false} FixedAt(reqs: seq<Request>, t: Table)
    requires Fixed(reqs, t)
    ensures forall i :: 0 <= i < |reqs| ==> reqs[i].table == t && reqs[i].limit > 0
  {
    if reqs != [] {
      FixedAt(reqs[1..], t);
      assert forall i :: 0 < i < |reqs| ==> reqs[i] == reqs[1..][i - 1];
    }
  }

  /** Rows cut into pages of the sizes asked for, as far as cursors can be made. */
  function WalkRows(rows: Table, reqs: seq<Request>): Walked {
    if reqs == [] then Walked([], false)
    else if reqs[0].limit == 0 then Rejected
    else FirstPage(rows, reqs[0].limit, if reqs[0].limit < |rows| then WalkRows(rows[reqs[0].limit..], reqs[1..]) else Rejected)
  }

  lemma {:induction false} RowsAfter(t: Table, f: Filter, from: Option<Row>, reverse: bool, n: nat)
    requires ValidTable(t) && 0 < n <= |RowsPast(t, f, from, reverse)|
    ensures RowsPast(t, f, Some(RowsPast(t, f, from, reverse)[n - 1]), reverse) == RowsPast(t, f, from, reverse)[n..]
  {
    var rows := RowsPast(t, f, from, reverse);
    var last := rows[n - 1];
    RowsPastAre(t, f, from, reverse);
    RowsPastAre(t, f, Some(last), reverse);
    assert last in rows;
    forall r
      ensures r in rows[n..] <==> r in t && Matches(f, r) && Past(Some(last), r, reverse)
    {
      InSuffix(rows, n, r, reverse);
      if from.Some? && Past(Some(last), r, reverse) {
        KeyTransitive(KeyOf(from.value), KeyOf(last), KeyOf(r), reverse);
      }
    }
    OrderedUnique(RowsPast(t, f, Some(last), reverse), rows[n..], reverse);
  }

  lemma {:induction false} InSuffix(rows: Table, n: nat, r: Row, reverse: bool)
    requires Ordered(rows, reverse) && 0 < n <= |rows|
    ensures r in rows[n..] <==> r in rows && Before(KeyOf(rows[n - 1]), KeyOf(r), reverse)
  {
    if r in rows[n..] {
      var i :| 0 <= i < |rows[n..]| && rows[n..][i] == r;
      assert rows[n + i] == r;
    }
    if r in rows && Before(KeyOf(rows[n - 1]), KeyOf(r), reverse) {
      var i :| 0 <= i < |rows| && rows[i] == r;
      KeyOrder(KeyOf(r), KeyOf(rows[n - 1]), reverse);
      assert rows[n..][i - n] == r;
    }
  }

  lemma {:induction false} FixedValid(reqs: seq<Request>, t: Table)
    requires ValidTable(t) && Fixed(reqs, t)
    ensures ValidTables(reqs)
  {
    if reqs != [] {
      FixedValid(reqs[1..], t);
    }
  }

  lemma {:induction false} KeyWalkFirst(reqs: seq<Request>, f: Filter, reverse: bool, from: Option<Row>, rows: Table)
    requires reqs != [] && reqs[0].limit > 0 && rows == RowsPast(reqs[0].table, f, from, reverse)
    ensures var n := reqs[0].limit;
            KeyWalk(reqs, f, reverse, from) ==
            FirstPage(rows, n, if n < |rows| then KeyWalk(reqs[1..], f, reverse, Some(rows[n - 1])) else Rejected)
  {
  }

  lemma {:induction false} WalkRowsFirst(rows: Table, reqs: seq<Request>, more: Walked)
    requires reqs != [] && reqs[0].limit > 0 && (reqs[0].limit < |rows| ==> more == WalkRows(rows[reqs[0].limit..], reqs[1..]))
    ensures FirstPage(rows, reqs[0].limit, more) == WalkRows(rows, reqs)
  {
  }

  lemma {:induction false} FixedKeyWalk(reqs: seq<Request>, t: Table, f: Filter, reverse: bool, from: Option<Row>)
    requires ValidTable(t) && Fixed(reqs, t)
    ensures KeyWalk(reqs, f, reverse, from) == WalkRows(RowsPast(t, f, from, reverse), reqs)
    decreases |reqs|
  {
    if reqs != [] {
      var rows, n, more := RowsPast(t, f, from, reverse), reqs[0].limit, Rejected;
      KeyWalkFirst(reqs, f, reverse, from, rows);
      if n < |rows| {
        more := KeyWalk(reqs[1..], f, reverse, Some(rows[n - 1]));
        FixedKeyWalk(reqs[1..], t, f, reverse, Some(rows[n - 1]));
        RowsAfter(t, f, from, reverse, n);
      }
      WalkRowsFirst(rows, reqs, more);
    }
  }

  /** Over a fixed table a walk only cuts the rows past its resume point into pages. */
  lemma {:induction false} FixedWalk(reqs: seq<Request>, t: Table, f: Filter, reverse: bool, cursor: Option<Str>, from: Option<Row>)
    requires ValidTable(t) && Fixed(reqs, t) && ResumesAt(cursor, from, reverse)
    ensures Walk(reqs, f, reverse, cursor) == WalkRows(RowsPast(t, f, from, reverse), reqs)
  {
    FixedValid(reqs, t);
    CursorsRemember(reqs, f, reverse, cursor, from);
    FixedKeyWalk(reqs, t, f, reverse, from);
  }

  /** How many rows the requests ask for. */
  function Total(reqs: seq<Request>): nat {
    if reqs == [] then 0 else reqs[0].limit + Total(reqs[1..])
  }

  /** The `k`th page has rows after it, and no cursor can be made at its end. */
  predicate StuckAt(rows: Table, reqs: seq<Request>, k: nat)
    requires k < |reqs|
  {
    0 < Total(reqs[..k + 1]) < |rows| && !Resumable(rows[Total(reqs[..k + 1]) - 1])
  }

  ghost predicate Stuck(rows: Table, reqs: seq<Request>) {
    exists k :: 0 <= k < |reqs| && StuckAt(rows, reqs, k)
  }

  lemma {:induction false} StuckFirst(rows: Table, reqs: seq<Request>)
    requires reqs != []
    ensures StuckAt(rows, reqs, 0) <==> 0 < reqs[0].limit < |rows| && !Resumable(rows[reqs[0].limit - 1])
  {
    assert reqs[..1] == [reqs[0]] && reqs[..1][1..] == [];
    assert Total(reqs[..1]) == reqs[0].limit + Total([]);
  }

  lemma {:induction false} StuckLater(rows: Table, reqs: seq<Request>, k: nat)
    requires 0 < k < |reqs| && 0 < reqs[0].limit < |rows| && reqs[1].limit > 0
    ensures StuckAt(rows, reqs, k) <==> StuckAt(rows[reqs[0].limit..], reqs[1..], k - 1)
  {
    var n := reqs[0].limit;
    assert reqs[..k + 1][1..] == reqs[1..][..k] && reqs[..k + 1][0] == reqs[0];
    assert Total(reqs[..k + 1]) == n + Total(reqs[1..][..k]);
    assert reqs[1..][..k][0] == reqs[1] && Total(reqs[1..][..k]) > 0;
  }

  lemma {:induction false} StuckUnfolds(rows: Table, reqs: seq<Request>)
    requires reqs != [] && (forall i :: 0 <= i < |reqs| ==> reqs[i].limit > 0) && reqs[0].limit < |rows|
    ensures Stuck(rows, reqs) <==> StuckAt(rows, reqs, 0) || Stuck(rows[reqs[0].limit..], reqs[1..])
  {
    var n := reqs[0].limit;
    if Stuck(rows, reqs) && !StuckAt(rows, reqs, 0) {
      var k :| 0 <= k < |reqs| && StuckAt(rows, reqs, k);
      StuckLater(rows, reqs, k);
      assert StuckAt(rows[n..], reqs[1..], k - 1);
    }
    if Stuck(rows[n..], reqs[1..]) {
      var k :| 0 <= k < |reqs[1..]| && StuckAt(rows[n..], reqs[1..], k);
      StuckLater(rows, reqs, k + 1);
      assert StuckAt(rows, reqs, k + 1);
    }
  }

  lemma {:induction false} ShortIsNotStuck(rows: Table, reqs: seq<Request>)
    requires reqs != [] && |rows| <= reqs[0].limit
    ensures !Stuck(rows, reqs)
  {
    forall k | 0 <= k < |reqs|
      ensures !StuckAt(rows, reqs, k)
    {
      assert reqs[..k + 1][0] == reqs[0];
    }
  }

  /** Pages cut from a list: a prefix of it as long as was asked for, unless a page ends where no cursor can be made. */
  lemma {:induction false} WalkRowsIs(rows: Table, reqs: seq<Request>)
    requires forall i :: 0 <= i < |reqs| ==> reqs[i].limit > 0
    ensures WalkRows(rows, reqs) ==
            if Stuck(rows, reqs) then Rejected
            else if Total(reqs) < |rows| then Walked(rows[..Total(reqs)], false)
            else Walked(rows, reqs != [])
    decreases |reqs|
  {
    if reqs == [] {
      assert rows[..0] == [];
    } else if |rows| <= reqs[0].limit {
      ShortIsNotStuck(rows, reqs);
    } else {
      var n := reqs[0].limit;
      StuckUnfolds(rows, reqs);
      StuckFirst(rows, reqs);
      WalkRowsIs(rows[n..], reqs[1..]);
      if Total(reqs[1..]) < |rows| - n {
        assert rows[..n] + rows[n..][..Total(reqs[1..])] == rows[..Total(reqs)];
      } else {
        assert rows[..n] + rows[n..] == rows;
      }
    }
  }

  /**
  Over a fixed table the pages concatenate to the filtered list in key order, as far as the requests reach, and
  the walk is rejected if and only if one of its pages, not the last, ends at a row that is not resumable.
  */
  lemma {:induction false} WalkOverFixedTable(reqs: seq<Request>, t: Table, f: Filter, reverse: bool)
    requires ValidTable(t) && Fixed(reqs, t)
    ensures var w, all := Walk(reqs, f, reverse, None), Listing(t, f, reverse);
            && (w.Rejected? <==> Stuck(all, reqs))
            && (w.Walked? && Total(reqs) < |all| ==> w == Walked(all[..Total(reqs)], false))
            && (w.Walked? && Total(reqs) >= |all| ==> w == Walked(all, reqs != []))
  {
    FixedWalk(reqs, t, f, reverse, None, None);
    FixedAt(reqs, t);
    WalkRowsIs(Listing(t, f, reverse), reqs);
  }

  const NO_FILTER := Filter(None, [], None, None)
  const NO_TIMESTAMP := Row(1, [], [], [], None, [])
  const WITH_TIMESTAMP := Row(2, [], [], [97], None, [])

  /** A stored row with an empty timestamp sorts first, and a page of one row that ends at it cannot be followed. */
  lemma {:induction false} EmptyTimestampRejects()
    ensures var t := [NO_TIMESTAMP, WITH_TIMESTAMP];
            ValidTable(t) && Walk([Request(t, 1)], NO_FILTER, false, None) == Rejected
  {
    var t := [NO_TIMESTAMP, WITH_TIMESTAMP];
    var reqs := [Request(t, 1)];
    assert t[0] == NO_TIMESTAMP && t[1] == WITH_TIMESTAMP;
    assert TextLess([], [97]);
    RowsPastAre(t, NO_FILTER, None, false);
    OrderedUnique(Listing(t, NO_FILTER, false), t, false);
    StuckFirst(t, reqs);
    WalkOverFixedTable(reqs, t, NO_FILTER, false);
  }

  // The older cursor that carries an id only

  function IdCursor(id: int, reverse: bool): Cursor.Result<Str> {
    Cursor.EncodeCursor(Cursor.Details(id, reverse, None, None))
  }

  /** The matching rows with later ids, in key order. */
  function RowsPastId(t: Table, f: Filter, id: int, reverse: bool): Table {
    OrderBy(Selection(t, f, Some(PastId(id, reverse))), reverse)
  }

  lemma {:induction false} RowsPastIdAre(t: Table, f: Filter, id: int, reverse: bool)
    requires ValidTable(t)
    ensures Ordered(RowsPastId(t, f, id, reverse), reverse)
    ensures forall r :: r in RowsPastId(t, f, id, reverse) <==> r in t && Matches(f, r) && Holds(PastId(id, reverse), r)
  {
    SelectionUnique(t, f, Some(PastId(id, reverse)));
    OrderByOrdered(Selection(t, f, Some(PastId(id, reverse))), reverse);
  }

  /** The page that starts the walk obeys the id; its own cursor carries a key, and the id is not looked at again. */
  function IdWalk(t: Table, f: Filter, id: int, reverse: bool, reqs: seq<Request>): Walked
    requires reqs != [] && reqs[0].limit > 0
  {
    var byId, n := RowsPastId(t, f, id, reverse), reqs[0].limit;
    FirstPage(byId, n, if n < |byId| then WalkRows(RowsPast(t, f, Some(byId[n - 1]), reverse), reqs[1..]) else Rejected)
  }

  lemma {:induction false} IdPageIsCut(t: Table, f: Filter, id: int, reverse: bool, n: nat)
    requires n > 0 && IdCursor(id, reverse).Ok?
    ensures SelectPage(t, f, Some(IdCursor(id, reverse).value), n, reverse) == CutPage(RowsPastId(t, f, id, reverse), n, reverse)
  {
    Cursor.RoundTripIff(Cursor.Details(id, reverse, None, None));
  }

  lemma {:induction false} IdPageEnds(t: Table, f: Filter, id: int, reverse: bool, n: nat)
    requires ValidTable(t) && 0 < n < |RowsPastId(t, f, id, reverse)|
    ensures var last := RowsPastId(t, f, id, reverse)[n - 1];
            Stored(last) && (CursorAfter(last, reverse).Ok? <==> Resumable(last))
  {
    RowsPastIdAre(t, f, id, reverse);
    var last := RowsPastId(t, f, id, reverse)[n - 1];
    assert last in t;
    CursorLeadsPast(last, reverse);
  }

  lemma {:induction false} IdPageNext(t: Table, f: Filter, id: int, reverse: bool, n: nat)
    requires ValidTable(t) && 0 < n < |RowsPastId(t, f, id, reverse)| && Resumable(RowsPastId(t, f, id, reverse)[n - 1])
    ensures var byId := RowsPastId(t, f, id, reverse);
            var page := CutPage(byId, n, reverse);
            HasNext(page) && ResumesAt(page.next, Some(byId[n - 1]), reverse)
  {
    IdPageEnds(t, f, id, reverse, n);
    CutIsFirstPage(RowsPastId(t, f, id, reverse), n, reverse, Rejected);
  }

  lemma {:induction false} RestIsCut(reqs: seq<Request>, t: Table, f: Filter, reverse: bool, page: Result, last: Row)
    requires ValidTable(t) && Fixed(reqs, t) && reqs != [] && HasNext(page) && ResumesAt(page.next, Some(last), reverse)
    ensures Rest(reqs, f, reverse, page) == WalkRows(RowsPast(t, f, Some(last), reverse), reqs[1..])
  {
    FixedWalk(reqs[1..], t, f, reverse, page.next, Some(last));
  }

  lemma {:induction false} RestFromId(reqs: seq<Request>, t: Table, f: Filter, id: int, reverse: bool)
    requires ValidTable(t) && Fixed(reqs, t) && reqs != []
    requires var byId, n := RowsPastId(t, f, id, reverse), reqs[0].limit; n < |byId| && Resumable(byId[n - 1])
    ensures var byId, n := RowsPastId(t, f, id, reverse), reqs[0].limit;
            Rest(reqs, f, reverse, CutPage(byId, n, reverse)) == WalkRows(RowsPast(t, f, Some(byId[n - 1]), reverse), reqs[1..])
  {
    var byId, n := RowsPastId(t, f, id, reverse), reqs[0].limit;
    var page := CutPage(byId, n, reverse);
    IdPageNext(t, f, id, reverse, n);
    RestIsCut(reqs, t, f, reverse, page, byId[n - 1]);
  }

  lemma {:induction false} IdWalkFirst(reqs: seq<Request>, f: Filter, id: int, reverse: bool)
    requires reqs != [] && ValidTable(reqs[0].table) && reqs[0].limit > 0 && IdCursor(id, reverse).Ok?
    ensures var byId, n := RowsPastId(reqs[0].table, f, id, reverse), reqs[0].limit;
            Walk(reqs, f, reverse, Some(IdCursor(id, reverse).value)) ==
            FirstPage(byId, n, Rest(reqs, f, reverse, CutPage(byId, n, reverse)))
  {
    var byId, n := RowsPastId(reqs[0].table, f, id, reverse), reqs[0].limit;
    var page := CutPage(byId, n, reverse);
    IdPageIsCut(reqs[0].table, f, id, reverse, n);
    WalkCut(reqs, f, reverse, Some(IdCursor(id, reverse).value), page);
    if n < |byId| {
      IdPageEnds(reqs[0].table, f, id, reverse, n);
    }
    CutIsFirstPage(byId, n, reverse, Rest(reqs, f, reverse, page));
  }

  lemma {:induction false} WalkFromId(reqs: seq<Request>, t: Table, f: Filter, id: int, reverse: bool)
    requires ValidTable(t) && Fixed(reqs, t) && reqs != [] && IdCursor(id, reverse).Ok?
    ensures Walk(reqs, f, reverse, Some(IdCursor(id, reverse).value)) == IdWalk(t, f, id, reverse, reqs)
  {
    IdWalkFirst(reqs, f, id, reverse);
    var byId, n := RowsPastId(t, f, id, reverse), reqs[0].limit;
    if n < |byId| && Resumable(byId[n - 1]) {
      RestFromId(reqs, t, f, id, reverse);
      FirstPageSame(byId, n, Rest(reqs, f, reverse, CutPage(byId, n, reverse)),
                    WalkRows(RowsPast(t, f, Some(byId[n - 1]), reverse), reqs[1..]));
    }
  }

  /** The rows with later ids and the rows with later keys are the same, as far as the first page shows. */
  predicate SameFirstPage(byId: Table, byKey: Table, n: nat) {
    if |byId| <= n then byId == byKey else n <= |byKey| && byId[..n] == byKey[..n]
  }

  lemma {:induction false} WalkRowsFinished(rows: Table, reqs: seq<Request>)
    requires forall i :: 0 <= i < |reqs| ==> reqs[i].limit > 0
    ensures WalkRows(rows, reqs).Walked? && WalkRows(rows, reqs).finished ==> WalkRows(rows, reqs).rows == rows
  {
    WalkRowsIs(rows, reqs);
  }

  /** After a first page that agrees, the rest are the rows past its last key. */
  lemma {:induction false} SamePageThenRest(t: Table, f: Filter, r: Row, reverse: bool, page: Table)
    requires ValidTable(t) && page != [] && |page| <= |RowsPast(t, f, Some(r), reverse)|
    requires page == RowsPast(t, f, Some(r), reverse)[..|page|]
    ensures page + RowsPast(t, f, Some(page[|page| - 1]), reverse) == RowsPast(t, f, Some(r), reverse)
  {
    var byKey, n := RowsPast(t, f, Some(r), reverse), |page|;
    assert page[n - 1] == byKey[n - 1];
    RowsAfter(t, f, Some(r), reverse, n);
  }

  /** What the walk returns once it finishes: the page by id, and then everything past its last key. */
  function IdRows(t: Table, f: Filter, id: int, reverse: bool, n: nat): Table
    requires n > 0
  {
    var byId := RowsPastId(t, f, id, reverse);
    if |byId| <= n then byId else byId[..n] + RowsPast(t, f, Some(byId[n - 1]), reverse)
  }

  lemma {:induction false} IdWalkRows(reqs: seq<Request>, t: Table, f: Filter, id: int, reverse: bool)
    requires Fixed(reqs, t) && reqs != []
    ensures var w := IdWalk(t, f, id, reverse, reqs);
            w.Walked? && w.finished ==> w.rows == IdRows(t, f, id, reverse, reqs[0].limit)
  {
    var byId, n := RowsPastId(t, f, id, reverse), reqs[0].limit;
    if |byId| > n {
      FixedAt(reqs[1..], t);
      WalkRowsFinished(RowsPast(t, f, Some(byId[n - 1]), reverse), reqs[1..]);
    }
  }

  lemma {:induction false} PrefixDiffers(a: Table, n: nat, rest: Table, b: Table)
    requires n <= |a| && !(n <= |b| && a[..n] == b[..n])
    ensures a[..n] + rest != b
  {
    assert (a[..n] + rest)[..n] == a[..n];
  }

  lemma {:induction false} LongIdRowsIff(t: Table, f: Filter, r: Row, reverse: bool, byId: Table, n: nat)
    requires ValidTable(t) && 0 < n < |byId|
    ensures byId[..n] + RowsPast(t, f, Some(byId[n - 1]), reverse) == RowsPast(t, f, Some(r), reverse) <==>
            SameFirstPage(byId, RowsPast(t, f, Some(r), reverse), n)
  {
    var byKey := RowsPast(t, f, Some(r), reverse);
    if n <= |byKey| && byId[..n] == byKey[..n] {
      SamePageThenRest(t, f, r, reverse, byId[..n]);
    } else {
      PrefixDiffers(byId, n, RowsPast(t, f, Some(byId[n - 1]), reverse), byKey);
    }
  }

  lemma {:induction false} IdRowsExactIff(t: Table, f: Filter, r: Row, reverse: bool, n: nat)
    requires ValidTable(t) && n > 0
    ensures IdRows(t, f, r.eventId, reverse, n) == RowsPast(t, f, Some(r), reverse) <==>
            SameFirstPage(RowsPastId(t, f, r.eventId, reverse), RowsPast(t, f, Some(r), reverse), n)
  {
    var byId := RowsPastId(t, f, r.eventId, reverse);
    if |byId| > n {
      LongIdRowsIff(t, f, r, reverse, byId, n);
    }
  }

  /** The row comes after the last one of a first page that leaves rows over. */
  predicate PastFullPage(rows: Table, n: nat, x: Row, reverse: bool)
    requires n > 0
  {
    n < |rows| && Before(KeyOf(rows[n - 1]), KeyOf(x), reverse)
  }

  predicate LaterId(f: Filter, r: Row, x: Row, reverse: bool) {
    Matches(f, x) && Holds(PastId(r.eventId, reverse), x)
  }

  predicate LaterKey(f: Filter, r: Row, x: Row, reverse: bool) {
    Matches(f, x) && Past(Some(r), x, reverse)
  }

  /** Every matching row with a later id has a later key; one with a later key only comes after a full first page. */
  ghost predicate IdsAgree(t: Table, f: Filter, r: Row, reverse: bool, n: nat)
    requires n > 0
  {
    && (forall x :: x in t && LaterId(f, r, x, reverse) ==> LaterKey(f, r, x, reverse))
    && (forall x :: x in t && LaterKey(f, r, x, reverse) && !LaterId(f, r, x, reverse) ==>
                      PastFullPage(RowsPastId(t, f, r.eventId, reverse), n, x, reverse))
  }

  lemma {:induction false} NextAgrees(a: Table, b: Table, k: nat, reverse: bool)
    requires Ordered(a, reverse) && Ordered(b, reverse) && k < |a| && k <= |b| && a[..k] == b[..k] && a[k] in b
    requires forall x :: x in b && x !in a ==> Before(KeyOf(a[k]), KeyOf(x), reverse)
    ensures k < |b| && a[k] == b[k]
  {
    var j :| 0 <= j < |b| && b[j] == a[k];
    if j < k {
      assert a[j] == a[..k][j] == b[..k][j];
      KeyOrder(KeyOf(a[j]), KeyOf(a[k]), reverse);
    } else if j > k {
      var y := b[k];
      KeyOrder(KeyOf(a[k]), KeyOf(y), reverse);
      if y in a {
        var m :| 0 <= m < |a| && a[m] == y;
        if m < k {
          assert b[m] == b[..k][m] == a[..k][m];
          KeyOrder(KeyOf(b[m]), KeyOf(b[k]), reverse);
        }
      }
    }
  }

  /** An ordered list agrees with a longer one up to the first row that only the longer one has. */
  lemma {:induction false} PrefixAgrees(a: Table, b: Table, n: nat, reverse: bool)
    requires Ordered(a, reverse) && Ordered(b, reverse) && n <= |a| && forall x :: x in a ==> x in b
    requires n > 0 ==> forall x :: x in b && x !in a ==> Before(KeyOf(a[n - 1]), KeyOf(x), reverse)
    ensures n <= |b| && a[..n] == b[..n]
  {
    if n > 0 {
      forall x | n > 1 && x in b && x !in a
        ensures Before(KeyOf(a[n - 2]), KeyOf(x), reverse)
      {
        KeyTransitive(KeyOf(a[n - 2]), KeyOf(a[n - 1]), KeyOf(x), reverse);
      }
      PrefixAgrees(a, b, n - 1, reverse);
      NextAgrees(a, b, n - 1, reverse);
      assert a[..n] == a[..n - 1] + [a[n - 1]] && b[..n] == b[..n - 1] + [b[n - 1]];
    }
  }

  lemma {:induction false} AgreeingPages(t: Table, f: Filter, r: Row, reverse: bool, n: nat)
    requires ValidTable(t) && n > 0 && IdsAgree(t, f, r, reverse, n)
    ensures SameFirstPage(RowsPastId(t, f, r.eventId, reverse), RowsPast(t, f, Some(r), reverse), n)
  {
    var byId, byKey := RowsPastId(t, f, r.eventId, reverse), RowsPast(t, f, Some(r), reverse);
    RowsPastIdAre(t, f, r.eventId, reverse);
    RowsPastAre(t, f, Some(r), reverse);
    assert forall x :: x in byId <==> x in t && LaterId(f, r, x, reverse);
    assert forall x :: x in byKey <==> x in t && LaterKey(f, r, x, reverse);
    if |byId| <= n {
      OrderedUnique(byId, byKey, reverse);
    } else {
      PrefixAgrees(byId, byKey, n, reverse);
    }
  }

  lemma {:induction false} PagesAgree(t: Table, f: Filter, r: Row, reverse: bool, n: nat, x: Row)
    requires ValidTable(t) && n > 0 && x in t
    requires SameFirstPage(RowsPastId(t, f, r.eventId, reverse), RowsPast(t, f, Some(r), reverse), n)
    ensures LaterId(f, r, x, reverse) ==> LaterKey(f, r, x, reverse)
    ensures LaterKey(f, r, x, reverse) && !LaterId(f, r, x, reverse) ==>
              PastFullPage(RowsPastId(t, f, r.eventId, reverse), n, x, reverse)
  {
    var byId, byKey := RowsPastId(t, f, r.eventId, reverse), RowsPast(t, f, Some(r), reverse);
    RowsPastIdAre(t, f, r.eventId, reverse);
    RowsPastAre(t, f, Some(r), reverse);
    assert x in byId <==> LaterId(f, r, x, reverse);
    assert x in byKey <==> LaterKey(f, r, x, reverse);
    if |byId| > n {
      var last := byId[n - 1];
      assert last == byId[..n][n - 1] == byKey[..n][n - 1] == byKey[n - 1] && last in byKey;
      InPrefix(byId, byKey, n, x, last, reverse);
      if x in byId && Before(KeyOf(last), KeyOf(x), reverse) {
        KeyTransitive(KeyOf(r), KeyOf(last), KeyOf(x), reverse);
      }
    }
  }

  /** Of two ordered lists with the same first rows, a row of the one but not the other comes after those. */
  lemma {:induction false} InPrefix(a: Table, b: Table, n: nat, x: Row, last: Row, reverse: bool)
    requires Ordered(a, reverse) && Ordered(b, reverse) && 0 < n <= |a| && n <= |b| && a[..n] == b[..n] && last == a[n - 1] == b[n - 1]
    ensures (x in a) != (x in b) ==> Before(KeyOf(last), KeyOf(x), reverse)
  {
    if x in a && x !in b {
      BeyondPrefix(a, b, n, x, reverse);
    }
    if x in b && x !in a {
      BeyondPrefix(b, a, n, x, reverse);
    }
  }

  lemma {:induction false} BeyondPrefix(a: Table, b: Table, n: nat, x: Row, reverse: bool)
    requires Ordered(a, reverse) && 0 < n <= |a| && n <= |b| && a[..n] == b[..n] && x in a && x !in b
    ensures Before(KeyOf(a[n - 1]), KeyOf(x), reverse)
  {
    var i :| 0 <= i < |a| && a[i] == x;
    assert forall j :: 0 <= j < n ==> a[j] == a[..n][j] == b[..n][j] == b[j];
  }

  lemma {:induction false} SameFirstPageIff(t: Table, f: Filter, r: Row, reverse: bool, n: nat)
    requires ValidTable(t) && n > 0
    ensures SameFirstPage(RowsPastId(t, f, r.eventId, reverse), RowsPast(t, f, Some(r), reverse), n) <==> IdsAgree(t, f, r, reverse, n)
  {
    if IdsAgree(t, f, r, reverse, n) {
      AgreeingPages(t, f, r, reverse, n);
    } else if SameFirstPage(RowsPastId(t, f, r.eventId, reverse), RowsPast(t, f, Some(r), reverse), n) {
      forall x | x in t
        ensures LaterId(f, r, x, reverse) ==> LaterKey(f, r, x, reverse)
        ensures LaterKey(f, r, x, reverse) && !LaterId(f, r, x, reverse) ==>
                  PastFullPage(RowsPastId(t, f, r.eventId, reverse), n, x, reverse)
      {
        PagesAgree(t, f, r, reverse, n, x);
      }
    }
  }

  /**
  A finished walk that starts from a row's id alone returns the rows past that row if and only if every matching row
  with a later id has a later key, and matching rows with a later key but no later id come only after a full first page.
  */
  lemma {:induction false} IdCursorExactIff(reqs: seq<Request>, t: Table, f: Filter, r: Row, reverse: bool)
    requires ValidTable(t) && Fixed(reqs, t) && reqs != [] && IdCursor(r.eventId, reverse).Ok?
    requires var w := Walk(reqs, f, reverse, Some(IdCursor(r.eventId, reverse).value)); w.Walked? && w.finished
    ensures Walk(reqs, f, reverse, Some(IdCursor(r.eventId, reverse).value)).rows == RowsPast(t, f, Some(r), reverse) <==>
            IdsAgree(t, f, r, reverse, reqs[0].limit)
  {
    WalkFromId(reqs, t, f, r.eventId, reverse);
    IdWalkRows(reqs, t, f, r.eventId, reverse);
    IdRowsExactIff(t, f, r, reverse, reqs[0].limit);
    SameFirstPageIff(t, f, r, reverse, reqs[0].limit);
  }

  const EARLY_ID := Row(1, [], [], [98], None, [])
  const EARLY_KEY := Row(2, [], [], [97], None, [])
  const CROSSED := [EARLY_ID, EARLY_KEY]

  lemma {:induction false} CrossedRows()
    ensures ValidTable(CROSSED) && forall r :: r in CROSSED <==> r == EARLY_ID || r == EARLY_KEY
    ensures KeyLess(KeyOf(EARLY_KEY), KeyOf(EARLY_ID))
  {
    assert CROSSED[0] == EARLY_ID && CROSSED[1] == EARLY_KEY;
    assert TextLess([97], [98]);
  }

  lemma {:induction false} CrossedListing()
    ensures Listing(CROSSED, NO_FILTER, false) == [EARLY_KEY, EARLY_ID]
  {
    CrossedRows();
    RowsPastAre(CROSSED, NO_FILTER, None, false);
    var l := [EARLY_KEY, EARLY_ID];
    assert l[0] == EARLY_KEY && l[1] == EARLY_ID;
    OrderedUnique(Listing(CROSSED, NO_FILTER, false), l, false);
  }

  lemma {:induction false} CrossedById()
    ensures RowsPastId(CROSSED, NO_FILTER, 2, false) == [] && RowsPastId(CROSSED, NO_FILTER, 1, false) == [EARLY_KEY]
  {
    CrossedRows();
    RowsPastIdAre(CROSSED, NO_FILTER, 2, false);
    OrderedUnique(RowsPastId(CROSSED, NO_FILTER, 2, false), [], false);
    RowsPastIdAre(CROSSED, NO_FILTER, 1, false);
    OrderedUnique(RowsPastId(CROSSED, NO_FILTER, 1, false), [EARLY_KEY], false);
  }

  lemma {:induction false} ShortIdWalk(t: Table, id: int, n: nat)
    requires ValidTable(t) && 0 < id <= Cursor.MAX_EVENT_ID && |RowsPastId(t, NO_FILTER, id, false)| <= n && n > 0
    ensures IdCursor(id, false).Ok?
    ensures Walk([Request(t, n)], NO_FILTER, false, Some(IdCursor(id, false).value)) == Walked(RowsPastId(t, NO_FILTER, id, false), true)
  {
    WalkFromId([Request(t, n)], t, NO_FILTER, id, false);
  }

  /** Two rows whose ids and timestamps disagree: resuming after one by its id skips the other, or comes back to it. */
  lemma {:induction false} IdCursorSkipsAndRepeats(n: nat)
    requires n > 0
    ensures ValidTable(CROSSED) && Listing(CROSSED, NO_FILTER, false) == [EARLY_KEY, EARLY_ID]
    ensures IdCursor(2, false).Ok? && IdCursor(1, false).Ok?
    ensures Walk([Request(CROSSED, n)], NO_FILTER, false, Some(IdCursor(2, false).value)) == Walked([], true)
    ensures Walk([Request(CROSSED, n)], NO_FILTER, false, Some(IdCursor(1, false).value)) == Walked([EARLY_KEY], true)
  {
    CrossedRows();
    CrossedListing();
    CrossedById();
    ShortIdWalk(CROSSED, 2, n);
    ShortIdWalk(CROSSED, 1, n);
  }
}
