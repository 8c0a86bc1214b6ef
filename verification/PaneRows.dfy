/** From what tmux lists to what a row shows: the texts, the keys, the fields, and who wins when keys collide. */
module PaneRows {
  import opened OrderedDicts
  import opened Panes
  import opened PaneReconcile
  import opened PaneTable
  import opened PaneScan

  // Texts

  lemma {:induction false} CleanedConcat(s: string, t: string)
    ensures Cleaned(s + t) == Cleaned(s) + Cleaned(t)
  {
    if t == "" {
      assert s + t == s;
    } else {
      assert (s + t)[..|s + t| - 1] == s + t[..|t| - 1];
      CleanedConcat(s, t[..|t| - 1]);
    }
  }

  /** Character by character: a tab or a newline becomes a space, other control characters go, the rest stays. */
  lemma {:induction false} CleanedByCharacter(s: string, c: char, t: string)
    ensures Cleaned(s + [c] + t) == Cleaned(s) + Cleaned([c]) + Cleaned(t)
    ensures c == '\t' || c == '\n' ==> Cleaned([c]) == " "
    ensures (c < ' ' && c != '\t' && c != '\n') || c == '\U{7F}' ==> Cleaned([c]) == ""
    ensures ' ' <= c && c != '\U{7F}' ==> Cleaned([c]) == [c]
    ensures Cleaned("") == ""
  {
    CleanedConcat(s + [c], t);
    CleanedConcat(s, [c]);
    assert [c][..0] == "";
  }

  /** What is stored is the beginning of the cleaned text, and as much of it as the limit allows. */
  lemma {:induction false} FitIsLongest(s: string, max: nat)
    ensures Fit(s, max) <= Cleaned(s) && |Fit(s, max)| == if |Cleaned(s)| <= max then |Cleaned(s)| else max
  {
  }

  // Fields

  /** The key of a row is where its pane is. */
  predicate KeyOfPane(k: PaneKey, scope: Scope, p: ParsedPane) {
    && k.container == scope.container && k.socket == scope.socket && k.window == p.window && k.pane == p.pane
    && k.session == Fit(p.session, 2048) && k.id == Fit(p.id, 2048)
  }

  /** The details of a row are its container's name and user, and what tmux says of its pane. */
  predicate DetailsOfPane(d: Details, name: string, user: string, p: ParsedPane) {
    && d.name == Fit(name, 2048) && d.user == Fit(user, 2048) && d.pid == p.pid && d.focused == p.focused
    && d.tty == Fit(p.tty, 2048) && d.command == Fit(p.command, 2048) && d.path == Fit(p.path, 4096) && d.title == Fit(p.title, 2048)
  }

  lemma {:induction false} UpsertOfPane(scope: Scope, meta: ContainerMeta, p: ParsedPane, now: string)
    ensures var u := UpsertFor(scope, meta, p, now);
            KeyOfPane(u.key, scope, p) && DetailsOfPane(u.details, meta.name, meta.user, p) && u.scannedAt == now
    ensures forall k :: KeyOfPane(k, scope, p) ==> k == UpsertFor(scope, meta, p, now).key
  {
  }

  // The last upsert of a key wins

  function LastWith(us: seq<Upsert>, k: PaneKey): Option<Upsert> {
    if us == [] then None else if us[|us| - 1].key == k then Some(us[|us| - 1]) else LastWith(us[..|us| - 1], k)
  }

  lemma {:induction false} LastWithConcat(us: seq<Upsert>, vs: seq<Upsert>, k: PaneKey)
    ensures LastWith(us + vs, k) == if LastWith(vs, k).Some? then LastWith(vs, k) else LastWith(us, k)
  {
    if vs == [] {
      assert us + vs == us;
    } else {
      assert (us + vs)[..|us + vs| - 1] == us + vs[..|vs| - 1];
      LastWithConcat(us, vs[..|vs| - 1], k);
    }
  }

  lemma {:induction false} LastWithNone(us: seq<Upsert>, k: PaneKey)
    requires forall u :: u in us ==> u.key != k
    ensures LastWith(us, k).None?
  {
    if us != [] {
      LastWithNone(us[..|us| - 1], k);
    }
  }

  /** The row of an upserted key shows the last upsert; it was first seen when it was, or now. */
  lemma {:induction false} PutAllShows(rows: Rows, us: seq<Upsert>, now: string, k: PaneKey)
    requires (forall u :: u in us ==> u.scannedAt == now) && LastWith(us, k).Some?
    ensures k in PutAll(rows, us)
    ensures PutAll(rows, us)[k] == PaneRow(LastWith(us, k).value.details, true, if k in rows then rows[k].firstSeen else now, now)
  {
    var front, last := us[..|us| - 1], us[|us| - 1];
    assert us == front + [last] && last in us;
    if LastWith(front, k).Some? {
      PutAllShows(rows, front, now, k);
    } else {
      LastWithNoneMeans(front, k);
      PutAllAt(rows, front, k);
    }
  }

  lemma {:induction false} LastWithNoneMeans(us: seq<Upsert>, k: PaneKey)
    requires LastWith(us, k).None?
    ensures !HasKey(us, k)
  {
    if us != [] {
      LastWithNoneMeans(us[..|us| - 1], k);
      assert us == us[..|us| - 1] + [us[|us| - 1]];
    }
  }

  /** Each socket lists its own keys, so the last upsert of a key is the last of its socket's. */
  lemma {:induction false} LastUpTo(o: Observed, n: nat, k: PaneKey)
    requires o.Valid() && n <= |o.results.order|
    ensures LastWith(UpsertsUpTo(o, n), k) == if ScopeOf(k) in o.results.order[..n] then LastWith(RowsAt(o, ScopeOf(k)), k) else None
  {
    if n > 0 {
      var scope := o.results.order[n - 1];
      LastUpTo(o, n - 1, k);
      LastWithConcat(UpsertsUpTo(o, n - 1), RowsAt(o, scope), k);
      assert o.results.order[..n] == o.results.order[..n - 1] + [scope];
      assert scope !in o.results.order[..n - 1];
      if scope != ScopeOf(k) {
        assert forall u :: u in RowsAt(o, scope) ==> ScopeOf(u.key) == scope;
        LastWithNone(RowsAt(o, scope), k);
      }
    }
  }

  /** The last pane listed with the key. */
  ghost predicate LastPane(scope: Scope, panes: seq<ParsedPane>, k: PaneKey, i: nat) {
    i < |panes| && KeyOfPane(k, scope, panes[i]) && forall j :: i < j < |panes| ==> !KeyOfPane(k, scope, panes[j])
  }

  lemma {:induction false} LastOfPanes(scope: Scope, meta: ContainerMeta, now: string, panes: seq<ParsedPane>, k: PaneKey, i: nat)
    requires LastPane(scope, panes, k, i)
    ensures LastWith(RowsFor(scope, meta, now, panes), k) == Some(UpsertFor(scope, meta, panes[i], now))
  {
    var front, last := panes[..|panes| - 1], panes[|panes| - 1];
    UpsertOfPane(scope, meta, last, now);
    var rows := RowsFor(scope, meta, now, front);
    LastWithConcat(rows, [UpsertFor(scope, meta, last, now)], k);
    assert [UpsertFor(scope, meta, last, now)][..0] == [];
    if i < |panes| - 1 {
      LastOfPanes(scope, meta, now, front, k, i);
    }
  }

  lemma {:induction false} RowsScannedNow(scope: Scope, meta: ContainerMeta, now: string, panes: seq<ParsedPane>, u: Upsert)
    requires u in RowsFor(scope, meta, now, panes)
    ensures u.scannedAt == now
  {
    if u in RowsFor(scope, meta, now, panes[..|panes| - 1]) {
      RowsScannedNow(scope, meta, now, panes[..|panes| - 1], u);
    }
  }

  lemma {:induction false} UpsertFrom(o: Observed, n: nat, u: Upsert) returns (scope: Scope)
    requires n <= |o.results.order| && u in UpsertsUpTo(o, n)
    ensures scope in o.results.order && u in RowsAt(o, scope)
  {
    scope := o.results.order[n - 1];
    if u !in RowsAt(o, scope) {
      scope := UpsertFrom(o, n - 1, u);
    }
  }

  lemma {:induction false} UpsertsScannedNow(cs: seq<ActiveContainer>, now: string, o: Observed, u: Upsert)
    requires o.Valid() && Gathered(cs, now, o) && u in UpsertsUpTo(o, |o.results.order|)
    ensures u.scannedAt == now
  {
    var scope := UpsertFrom(o, |o.results.order|, u);
    RowsScannedNow(scope, MetaOf(MetadataOf(cs), scope.container), now, ResultsOf(cs)[scope].panes, u);
  }

  /** The row a scan leaves: it shows the pane, was first seen when it was or now, and was scanned now. */
  ghost predicate RowShows(rows: Rows, row: PaneRow, k: PaneKey, name: string, user: string, p: ParsedPane, now: string) {
    && DetailsOfPane(row.details, name, user, p) && row.scannedAt == now
    && row.firstSeen == if k in rows then rows[k].firstSeen else now
  }

  lemma {:induction false} AppliedShows(rows: Rows, ws: WriteSet, now: string, k: PaneKey, row: PaneRow)
    requires k in PutAll(rows, ws.upserts) && PutAll(rows, ws.upserts)[k] == row && row.scannedAt == now
    ensures k in Applied(rows, ws, now)
    ensures Applied(rows, ws, now)[k] == row.(active := row.active && k !in ws.inactivate)
  {
  }

  /** After a scan the row of a listed key shows the last pane that tmux listed with that key. */
  lemma {:induction false} ListedRowShows(rows: Rows, cs: seq<ActiveContainer>, now: string, o: Observed, ws: WriteSet, k: PaneKey, i: nat)
    requires o.Valid() && Gathered(cs, now, o) && Decides(PriorOf(rows), o, ws)
    requires ScopeOf(k) in o.results.items && ResultsOf(cs)[ScopeOf(k)].OkScan?
    requires LastPane(ScopeOf(k), ResultsOf(cs)[ScopeOf(k)].panes, k, i)
    ensures k in Applied(rows, ws, now)
    ensures var meta := MetaOf(MetadataOf(cs), k.container);
            RowShows(rows, Applied(rows, ws, now)[k], k, meta.name, meta.user, ResultsOf(cs)[ScopeOf(k)].panes[i], now)
  {
    var scope, meta, panes := ScopeOf(k), MetaOf(MetadataOf(cs), k.container), ResultsOf(cs)[ScopeOf(k)].panes;
    LastOfPanes(scope, meta, now, panes, k, i);
    LastUpTo(o, |o.results.order|, k);
    assert o.results.order[..|o.results.order|] == o.results.order;
    forall u | u in ws.upserts
      ensures u.scannedAt == now
    {
      UpsertsScannedNow(cs, now, o, u);
    }
    PutAllShows(rows, ws.upserts, now, k);
    AppliedShows(rows, ws, now, k, PutAll(rows, ws.upserts)[k]);
    UpsertOfPane(scope, meta, panes[i], now);
  }

  // What is known of a container

  /** A scanned container's rows get its name and its bench user. */
  lemma {:induction false} MetadataAt(cs: seq<ActiveContainer>, c: ActiveContainer)
    requires c in cs && DistinctIds(cs)
    ensures c.id in MetadataOf(cs) && MetadataOf(cs)[c.id].name == c.name
    ensures c.benchUser.Some? ==> MetadataOf(cs)[c.id].user == c.benchUser.value
    ensures c.benchUser.None? ==> MetadataOf(cs)[c.id].user == ""
  {
    var front, last := cs[..|cs| - 1], cs[|cs| - 1];
    assert cs == front + [last] && last in cs;
    if last.id != c.id {
      assert forall x :: x in front ==> x in cs;
      MetadataAt(front, c);
    }
  }

  /** The outcome of a socket is what its last query answered: its panes, those of malformed output that gave some, or a failure. */
  predicate AnsweredWith(outcome: Outcome, reply: Reply<seq<ParsedPane>>) {
    match reply
    case Got(panes) => outcome == OkScan(panes)
    case Raised(code, partial, _, _) =>
      if code == ScanErrors.OutputMalformed && |partial| > 0 then outcome == OkScan(partial) else outcome.FailedScan?
  }

  lemma {:induction false} OutcomeOfLast(id: string, uid: string, ss: seq<SocketReply>, j: nat)
    requires j < |ss| && forall i :: j < i < |ss| ==> ss[i].name != ss[j].name
    ensures var scope := Scope(id, "/tmp/tmux-" + uid + "/" + ss[j].name);
            scope in OutcomesAmong(id, uid, ss).items && AnsweredWith(OutcomesAmong(id, uid, ss).items[scope], ss[j].panes)
  {
    if j < |ss| - 1 {
      OutcomeOfLast(id, uid, ss[..|ss| - 1], j);
      PathsDiffer("/tmp/tmux-" + uid + "/", ss[j].name, ss[|ss| - 1].name);
    }
  }

  lemma {:induction false} PathsDiffer(prefix: string, a: string, b: string)
    requires a != b
    ensures prefix + a != prefix + b
  {
    assert (prefix + a)[|prefix|..] == a && (prefix + b)[|prefix|..] == b;
  }

  // Scan times, touches and skipped containers

  /** A row is touched exactly when its socket failed in a reachable container, or its container could not be asked and is not in
      the cascade, or it was inactive already and its container is in the cascade or its socket gone. */
  lemma {:induction false} TouchedIff(rows: Rows, o: Observed, ws: WriteSet, k: PaneKey)
    requires Scan(rows, o, ws)
    ensures k in ws.touch <==>
            k in rows && (|| (FailedAt(o, k) && k.container !in o.unavailable && k.container !in o.cascade)
                          || (k.container in o.unavailable && k.container !in o.cascade)
                          || (!rows[k].active && (k.container in o.cascade || SocketGone(o, k))))
  {
    assert k in ws.touch <==> multiset(ws.touch)[k] > 0;
  }

  /** A row that was there is stamped by a scan exactly when the scan lists, touches or inactivates it. */
  lemma {:induction false} StampedIff(rows: Rows, cs: seq<ActiveContainer>, now: string, o: Observed, ws: WriteSet, k: PaneKey)
    requires o.Valid() && Gathered(cs, now, o) && Decides(PriorOf(rows), o, ws) && k in rows
    ensures k in Applied(rows, ws, now)
    ensures if HasKey(ws.upserts, k) || k in ws.touch || k in ws.inactivate
            then Applied(rows, ws, now)[k].scannedAt == now else Applied(rows, ws, now)[k] == rows[k]
  {
    PutAllAt(rows, ws.upserts, k);
    if HasKey(ws.upserts, k) {
      forall u | u in ws.upserts
        ensures u.scannedAt == now
      {
        UpsertsScannedNow(cs, now, o, u);
      }
      if LastWith(ws.upserts, k).None? {
        LastWithNoneMeans(ws.upserts, k);
      }
      PutAllShows(rows, ws.upserts, now, k);
    }
  }

  lemma {:induction false} SkippedAre(keys: set<PaneKey>, o: Observed, c: string)
    ensures c in Skipped(keys, o) <==> c in o.cascade && exists k :: k in keys && k.container == c
  {
  }
}
