/** Runs in which the one container goes inactive between a pane scan's first two queries. */
module FlipRun {
  import opened OrderedDicts
  import opened Panes
  import opened PaneReconcile
  import opened PaneTable
  import PaneScan
  import opened Registry
  import opened Transactions
  import opened ScanWindow
  import ParentDepth

  /** The one socket of the one container, and what its scan answers. */
  function Socket(panes: seq<ParsedPane>): PaneScan.SocketReply {
    PaneScan.SocketReply("default", PaneScan.Got(panes))
  }

  function Container(panes: seq<ParsedPane>): PaneScan.ActiveContainer {
    PaneScan.ActiveContainer("c", "", Some("bench"), PaneScan.Got("0"), PaneScan.Got([Socket(panes)]))
  }

  const SCOPE := PaneScan.ScopeAt("c", "0", Socket([]))
  const PANE_KEY := PaneKey(SCOPE.container, SCOPE.socket, "", 0, 0, "")
  const META := ContainerMeta("", "bench")
  const PARSED := ParsedPane("", 0, 0, "", 0, "", "", "", "", false)

  function OnePane(): Db {
    Db(map["c" := true], map[PANE_KEY := ParentDepth.LIVE_ROW], map[])
  }

  function Flipping(): seq<Step> {
    [QueryActive(None), Containers(map["c" := false]), QueryCascade, QueryPrior]
  }

  lemma {:induction false} FlipIds(db: Db, db': Db)
    requires db == OnePane() && db' == db.(containers := map["c" := false])
    ensures ActiveIds(db) == {"c"} && ActiveIds(db') == {} && CascadeIds(db') == {"c"}
  {
    assert PANE_KEY in db'.panes;
  }

  lemma {:induction false} FlippingReads()
    ensures Run(OnePane(), Flipping()).phase == ReadPrior({"c"}, {"c"}, {"c"}, OnePane().panes)
    ensures Run(OnePane(), Flipping()).db == OnePane().(containers := map["c" := false])
  {
    var db := OnePane();
    var a := [] + [QueryActive(None)];
    var b := a + [Containers(map["c" := false])];
    var c := b + [QueryCascade];
    RunSnoc(db, [], QueryActive(None));
    RunSnoc(db, a, Containers(map["c" := false]));
    RunSnoc(db, b, QueryCascade);
    RunSnoc(db, c, QueryPrior);
    assert Flipping() == c + [QueryPrior];
    FlipIds(db, db.(containers := map["c" := false]));
  }

  /** What the scan sees of the container: the rows of its one socket. */
  function Seeing(rows: seq<Upsert>): Observed {
    Observed(OrderedDict([SCOPE], map[SCOPE := Seen(rows, [])]), {}, {"c"})
  }

  lemma {:induction false} OneSocket(panes: seq<ParsedPane>)
    ensures PaneScan.OutcomesAmong("c", "0", [Socket(panes)]).items == map[SCOPE := OkScan(panes)]
  {
    var ss := [Socket(panes)];
    assert ss[..|ss| - 1] == [] && PaneScan.ScopeAt("c", "0", Socket(panes)) == SCOPE;
    assert PaneScan.OutcomesAmong("c", "0", []).items == map[];
    assert PaneScan.OutcomesAmong("c", "0", ss) == PaneScan.OutcomesAmong("c", "0", []).Put(SCOPE, OkScan(panes));
  }

  lemma {:induction false} OneContainer(panes: seq<ParsedPane>)
    ensures PaneScan.ResultsOf([Container(panes)]) == map[SCOPE := OkScan(panes)]
    ensures PaneScan.UnavailableOf([Container(panes)]) == {}
  {
    var c := Container(panes);
    OneSocket(panes);
    assert PaneScan.OutcomesOf(c).items == map[SCOPE := OkScan(panes)];
    assert [c][..|[c]| - 1] == [];
    assert Socket(panes) in PaneScan.SocketsOf(c);
  }

  lemma {:induction false} OneMeta(panes: seq<ParsedPane>)
    ensures MetaOf(PaneScan.MetadataOf([Container(panes)]), "c") == META
  {
    assert [Container(panes)][..0] == [];
  }

  /** The rows are those of the panes the socket listed, none of which has a text to cut. */
  predicate Shows(panes: seq<ParsedPane>, now: string, rows: seq<Upsert>) {
    rows == RowsFor(SCOPE, META, now, panes) && AllNotes(SCOPE, META, panes) == []
  }

  /** The scan loops do gather this from the container, and it breaks their promise. */
  lemma {:induction false} SeeingGathered(panes: seq<ParsedPane>, now: string, rows: seq<Upsert>)
    requires Shows(panes, now, rows)
    ensures PaneScan.Gathered([Container(panes)], now, Seeing(rows)) && !Guarantee(Seeing(rows))
  {
    OneContainer(panes);
    OneMeta(panes);
    assert SCOPE in Seeing(rows).results.items;
  }

  lemma {:induction false} SeeingReconciled(panes: seq<ParsedPane>, now: string, rows: seq<Upsert>, ws: WriteSet)
    requires Shows(panes, now, rows) && Seeing(rows).Valid() && Decides(PriorOf(OnePane().panes), Seeing(rows), ws)
    ensures Reconciled(ReadPrior({"c"}, {"c"}, {"c"}, OnePane().panes), Seeing(rows), ws)
  {
    var p, o := ReadPrior({"c"}, {"c"}, {"c"}, OnePane().panes), Seeing(rows);
    SeeingGathered(panes, now, rows);
    GatheredReconciled(panes, now, p, o, ws);
  }

  lemma {:induction false} GatheredReconciled(panes: seq<ParsedPane>, now: string, p: Phase, o: Observed, ws: WriteSet)
    requires p.ReadPrior? && p.active == {"c"} && o.cascade == p.cascade
    requires PaneScan.Gathered([Container(panes)], now, o) && o.Valid() && Decides(PriorOf(p.prior), o, ws)
    ensures Reconciled(p, o, ws)
  {
    LoopsReconcile([Container(panes)], now, p, o, ws);
  }

  lemma {:induction false} OneScope(o: Observed, scope: Scope)
    requires o.results.order == [scope]
    ensures UpsertsUpTo(o, 1) == RowsAt(o, scope) && NotesUpTo(o, 1) == NotesAt(o, scope)
  {
    assert UpsertsUpTo(o, 0) == [] && NotesUpTo(o, 0) == [];
    assert UpsertsUpTo(o, 1) == [] + RowsAt(o, scope) && NotesUpTo(o, 1) == [] + NotesAt(o, scope);
  }

  const TWICE := WriteSet([], [], [PANE_KEY, PANE_KEY], [], 0, 0, 2, 1, 0)

  lemma {:induction false} TwiceDecides()
    ensures Seeing([]).Valid() && Decides(PriorOf(OnePane().panes), Seeing([]), TWICE)
  {
    var o, prior := Seeing([]), PriorOf(OnePane().panes);
    OneScope(o, SCOPE);
    assert RowsAt(o, SCOPE) == [] && NotesAt(o, SCOPE) == [];
    assert ScopeOf(PANE_KEY) == SCOPE && !Listed(o, PANE_KEY);
    assert multiset(TWICE.inactivate)[PANE_KEY] == 2;
    assert Skipped(prior.Keys, o) == {"c"} by { assert PANE_KEY in prior.Keys; }
    assert o.unavailable - o.cascade == {};
  }

  /** Its socket answers without the pane: the row is inactivated twice, and the counters do not balance. */
  lemma {:induction false} FlipUnbalancesCounters(now: string)
    ensures Reconciled(Run(OnePane(), Flipping()).phase, Seeing([]), TWICE)
    ensures var before := Run(OnePane(), Flipping());
            var after := Apply(before, CommitScan(Seeing([]), TWICE, now));
            |ActiveKeys(after.db.panes)| != |ActiveKeys(before.db.panes)| + TWICE.newlyActive - TWICE.reconciledInactive
  {
    TwiceDecides();
    SeeingReconciled([], now, [], TWICE);
    FlippingReads();
    var rows := OnePane().panes;
    CountersDescribeCommit(OnePane(), Flipping(), Seeing([]), TWICE, now);
    assert Recounted(rows, TWICE) == 0;
    assert ScopeOf(PANE_KEY) == SCOPE && !Listed(Seeing([]), PANE_KEY);
    assert TwiceKeys(rows, Seeing([])) == {PANE_KEY};
  }

  function Row(now: string): Upsert {
    UpsertFor(SCOPE, META, PARSED, now)
  }

  function Both(now: string): WriteSet {
    WriteSet([Row(now)], [], [PANE_KEY], [], 1, 0, 1, 1, 0)
  }

  lemma {:induction false} ParsedKey(now: string)
    ensures Row(now).key == PANE_KEY
  {
    assert Cleaned("") == "";
  }

  lemma {:induction false} CleanedNoLonger(s: string)
    ensures |Cleaned(s)| <= |s|
  {
    if s != "" {
      CleanedNoLonger(s[..|s| - 1]);
    }
  }

  lemma {:induction false} ParsedShows(now: string)
    ensures Shows([PARSED], now, [Row(now)])
  {
    var panes := [PARSED];
    assert panes[..0] == [];
    assert RowsFor(SCOPE, META, now, panes) == RowsFor(SCOPE, META, now, []) + [Row(now)];
    assert AllNotes(SCOPE, META, panes) == AllNotes(SCOPE, META, []) + NotesFor(SCOPE, META, PARSED);
    CleanedNoLonger("");
    CleanedNoLonger("bench");
  }

  /** Both observations below are what the scan loops gather: of a socket that lists no pane, and of one that lists the pane. */
  lemma {:induction false} FlipGathered(now: string)
    ensures PaneScan.Gathered([Container([])], now, Seeing([])) && !Guarantee(Seeing([]))
    ensures PaneScan.Gathered([Container([PARSED])], now, Seeing([Row(now)])) && !Guarantee(Seeing([Row(now)]))
  {
    SeeingGathered([], now, []);
    ParsedShows(now);
    SeeingGathered([PARSED], now, [Row(now)]);
  }

  lemma {:induction false} SeeingOne(u: Upsert)
    requires u.key == PANE_KEY
    ensures var o := Seeing([u]); o.Valid() && UpsertsUpTo(o, 1) == [u] && NotesUpTo(o, 1) == [] && Listed(o, PANE_KEY)
  {
    var o := Seeing([u]);
    OneScope(o, SCOPE);
    assert RowsAt(o, SCOPE) == [u] && NotesAt(o, SCOPE) == [] && ScopeOf(PANE_KEY) == SCOPE;
    assert u in RowsAt(o, SCOPE);
  }

  lemma {:induction false} OneNotFresh(u: Upsert)
    requires u.key == PANE_KEY
    ensures FreshKeys(PriorOf(OnePane().panes), [u]) == []
  {
    assert [u][..0] == [];
  }

  lemma {:induction false} SeeingRow(now: string)
    ensures var o := Seeing([Row(now)]);
            && o.Valid() && UpsertsUpTo(o, 1) == [Row(now)] && NotesUpTo(o, 1) == [] && Listed(o, PANE_KEY)
            && FreshKeys(PriorOf(OnePane().panes), [Row(now)]) == []
  {
    ParsedKey(now);
    SeeingOne(Row(now));
    OneNotFresh(Row(now));
  }

  lemma {:induction false} BothDecides(now: string)
    ensures Decides(PriorOf(OnePane().panes), Seeing([Row(now)]), Both(now))
  {
    var o, prior := Seeing([Row(now)]), PriorOf(OnePane().panes);
    SeeingRow(now);
    assert multiset([PANE_KEY])[PANE_KEY] == 1;
    assert Skipped(prior.Keys, o) == {"c"} by { assert PANE_KEY in prior.Keys; }
    assert o.unavailable - o.cascade == {};
  }

  /** Its socket lists the pane: the row is upserted, inactivated all the same, and ends inactive. */
  lemma {:induction false} FlipHidesListedPane(now: string)
    ensures var s, o := Run(OnePane(), Flipping()), Seeing([Row(now)]);
            && Reconciled(s.phase, o, Both(now)) && Listed(o, PANE_KEY) && IsActive(s.db.panes, PANE_KEY)
            && !IsActive(Apply(s, CommitScan(o, Both(now), now)).db.panes, PANE_KEY)
  {
    SeeingRow(now);
    BothDecides(now);
    ParsedShows(now);
    SeeingReconciled([PARSED], now, [Row(now)], Both(now));
    FlippingReads();
    PaneScan.ListedButCascaded(OnePane().panes, Seeing([Row(now)]), Both(now), now, PANE_KEY);
  }
}
