/** Deciding, for every prior pane row, what a scan does to it. */
module PaneReconcile {
  import opened OrderedDicts
  import opened Panes

  datatype PriorRow = PriorRow(active: bool, firstSeen: string)

  /** Everything one scan has to go by, apart from the prior rows. */
  datatype Observed = Observed(results: OrderedDict<Scope, Sighting>, unavailable: set<string>, cascade: set<string>) {
    ghost predicate Valid() {
      && results.Valid()
      && forall scope, u :: scope in results.items && u in RowsAt(this, scope) ==> ScopeOf(u.key) == scope
    }
  }

  datatype WriteSet = WriteSet(
    upserts: seq<Upsert>, touch: seq<PaneKey>, inactivate: seq<PaneKey>, notes: seq<Note>,
    seen: nat, newlyActive: nat, reconciledInactive: nat, skippedInactive: nat, tmuxUnavailable: nat)

  type Prior = OrderedDict<PaneKey, PriorRow>

  // What happens to one row

  predicate ScannedOk(o: Observed, scope: Scope) {
    scope in o.results.items && o.results.items[scope].Seen?
  }

  /** The rows a successful scan of a socket saw. */
  function RowsAt(o: Observed, scope: Scope): seq<Upsert> {
    if ScannedOk(o, scope) then o.results.items[scope].rows else []
  }

  function NotesAt(o: Observed, scope: Scope): seq<Note> {
    if ScannedOk(o, scope) then o.results.items[scope].notes else []
  }

  /** The pane was listed by a successful scan of its socket. */
  predicate Listed(o: Observed, k: PaneKey) {
    exists u :: u in RowsAt(o, ScopeOf(k)) && u.key == k
  }

  predicate FailedAt(o: Observed, k: PaneKey) {
    ScopeOf(k) in o.results.items && o.results.items[ScopeOf(k)].NotSeen?
  }

  predicate Reachable(o: Observed, c: string) {
    c !in o.unavailable && c !in o.cascade
  }

  ghost predicate Scanned(o: Observed, c: string) {
    exists socket :: Scope(c, socket) in o.results.items
  }

  /** A reachable, scanned container no longer has the row's socket. */
  ghost predicate SocketGone(o: Observed, k: PaneKey) {
    Scanned(o, k.container) && Reachable(o, k.container) && ScopeOf(k) !in o.results.items
  }

  function Bit(b: bool): nat {
    if b then 1 else 0
  }

  ghost function InactivateCount(o: Observed, active: bool, k: PaneKey): nat {
    if !active then 0
    else Bit(ScannedOk(o, ScopeOf(k)) && !Listed(o, k)) + Bit(k.container in o.cascade) + Bit(SocketGone(o, k))
  }

  ghost function TouchCount(o: Observed, active: bool, k: PaneKey): nat {
    Bit(FailedAt(o, k) && Reachable(o, k.container))
    + Bit(k.container in o.unavailable && k.container !in o.cascade)
    + Bit(!active && k.container in o.cascade)
    + Bit(!active && SocketGone(o, k))
  }

  // The upserts

  /** The upserts of the first `n` sockets, in the order they were scanned. */
  function UpsertsUpTo(o: Observed, n: nat): seq<Upsert>
    requires n <= |o.results.order|
  {
    if n == 0 then [] else UpsertsUpTo(o, n - 1) + RowsAt(o, o.results.order[n - 1])
  }

  function NotesUpTo(o: Observed, n: nat): seq<Note>
    requires n <= |o.results.order|
  {
    if n == 0 then []
    else NotesUpTo(o, n - 1) + NotesAt(o, o.results.order[n - 1])
  }

  /** Every note is of a socket that was scanned. */
  lemma {:induction false} NoteFrom(o: Observed, n: nat, note: Note) returns (scope: Scope)
    requires n <= |o.results.order| && note in NotesUpTo(o, n)
    ensures scope in o.results.order && note in NotesAt(o, scope)
  {
    scope := o.results.order[n - 1];
    if note !in NotesAt(o, scope) {
      scope := NoteFrom(o, n - 1, note);
    }
  }

  /** The keys of upserts that find no active row, one for each upsert. */
  function FreshKeys(prior: map<PaneKey, PriorRow>, us: seq<Upsert>): seq<PaneKey> {
    if us == [] then []
    else
      var k := us[|us| - 1].key;
      FreshKeys(prior, us[..|us| - 1]) + (if k in prior && prior[k].active then [] else [k])
  }

  lemma {:induction false} FreshKeysConcat(prior: map<PaneKey, PriorRow>, us: seq<Upsert>, vs: seq<Upsert>)
    ensures FreshKeys(prior, us + vs) == FreshKeys(prior, us) + FreshKeys(prior, vs)
  {
    if vs == [] {
      assert us + vs == us;
    } else {
      FreshKeysConcat(prior, us, vs[..|vs| - 1]);
      assert (us + vs)[..|us + vs| - 1] == us + vs[..|vs| - 1];
    }
  }

  lemma {:induction false} FreshKeysAre(prior: map<PaneKey, PriorRow>, us: seq<Upsert>, k: PaneKey)
    ensures k in FreshKeys(prior, us) <==> (exists i :: 0 <= i < |us| && us[i].key == k) && !(k in prior && prior[k].active)
  {
    if us != [] {
      var front, last := us[..|us| - 1], us[|us| - 1];
      FreshKeysAre(prior, front, k);
      assert us == front + [last];
      if exists i :: 0 <= i < |us| && us[i].key == k {
        var i :| 0 <= i < |us| && us[i].key == k;
        assert i < |front| ==> front[i].key == k;
      }
      assert forall i :: 0 <= i < |front| ==> front[i] == us[i];
    }
  }

  /** A key is upserted exactly when its pane was listed. */
  lemma {:induction false} UpsertedIff(o: Observed, n: nat, k: PaneKey)
    requires o.Valid() && n <= |o.results.order|
    ensures (exists u :: u in UpsertsUpTo(o, n) && u.key == k) <==> ScopeOf(k) in o.results.order[..n] && Listed(o, k)
  {
    if n > 0 {
      UpsertedIff(o, n - 1, k);
      var scope := o.results.order[n - 1];
      assert o.results.order[..n] == o.results.order[..n - 1] + [scope];
    }
  }

  // The five passes

  /** One occurrence of each prior key that is active, on `scope` and not in `parsed`. */
  method MissingFrom(prior: Prior, scope: Scope, parsed: set<PaneKey>) returns (gone: seq<PaneKey>)
    requires prior.Valid()
    ensures forall k :: multiset(gone)[k] ==
              Bit(k in prior.items && prior.items[k].active && ScopeOf(k) == scope && k !in parsed)
  {
    gone := [];
    for i := 0 to |prior.order|
      invariant forall k :: multiset(gone)[k] ==
                  Bit(k in prior.order[..i] && prior.items[k].active && ScopeOf(k) == scope && k !in parsed)
    {
      var key := prior.order[i];
      assert prior.order[..i + 1] == prior.order[..i] + [key];
      if key.container != scope.container || key.socket != scope.socket {
        continue;
      }
      if !prior.items[key].active {
        continue;
      }
      if key in parsed {
        continue;
      }
      gone := gone + [key];
    }
    assert prior.order[..|prior.order|] == prior.order;
  }

  method ReadRows(prior: Prior, rows: seq<Upsert>) returns (parsed: set<PaneKey>, newly: nat)
    ensures newly == |FreshKeys(prior.items, rows)|
    ensures forall k :: k in parsed <==> exists u :: u in rows && u.key == k
  {
    parsed, newly := {}, 0;
    for i := 0 to |rows|
      invariant newly == |FreshKeys(prior.items, rows[..i])|
      invariant forall k :: k in parsed <==> exists u :: u in rows[..i] && u.key == k
    {
      assert rows[..i + 1] == rows[..i] + [rows[i]];
      assert rows[..i + 1][..i] == rows[..i];
      var key := rows[i].key;
      parsed := parsed + {key};
      if key !in prior.items || !prior.items[key].active {
        newly := newly + 1;
      }
    }
    assert rows[..|rows|] == rows;
  }

  /** An active row whose socket was scanned without it. */
  predicate Vanished(prior: map<PaneKey, PriorRow>, o: Observed, k: PaneKey) {
    k in prior && prior[k].active && ScannedOk(o, ScopeOf(k)) && !Listed(o, k)
  }

  method SuccessfulAt(prior: Prior, o: Observed, scope: Scope)
    returns (rows: seq<Upsert>, notes: seq<Note>, gone: seq<PaneKey>, newly: nat)
    requires prior.Valid() && scope in o.results.items
    ensures rows == RowsAt(o, scope) && notes == NotesAt(o, scope) && newly == |FreshKeys(prior.items, rows)|
    ensures forall k :: multiset(gone)[k] == Bit(ScopeOf(k) == scope && Vanished(prior.items, o, k))
  {
    if o.results.items[scope].NotSeen? {
      return [], [], [], 0;
    }
    rows, notes := o.results.items[scope].rows, o.results.items[scope].notes;
    var parsed;
    parsed, newly := ReadRows(prior, rows);
    gone := MissingFrom(prior, scope, parsed);
    forall k
      ensures multiset(gone)[k] == Bit(ScopeOf(k) == scope && Vanished(prior.items, o, k))
    {
      assert ScopeOf(k) == scope ==> (k in parsed <==> Listed(o, k));
    }
  }

  /** The count of the rows that vanished from the first `i` sockets, and one socket more. */
  ghost predicate CountsVanished(prior: map<PaneKey, PriorRow>, o: Observed, i: nat, gone: seq<PaneKey>)
    requires i <= |o.results.order|
  {
    forall k :: multiset(gone)[k] == Bit(ScopeOf(k) in o.results.order[..i] && Vanished(prior, o, k))
  }

  lemma {:induction false} OneMoreSocket(prior: map<PaneKey, PriorRow>, o: Observed, i: nat, gone: seq<PaneKey>, missing: seq<PaneKey>)
    requires o.results.Valid() && i < |o.results.order| && CountsVanished(prior, o, i, gone)
    requires forall k :: multiset(missing)[k] == Bit(ScopeOf(k) == o.results.order[i] && Vanished(prior, o, k))
    ensures CountsVanished(prior, o, i + 1, gone + missing)
  {
    var order := o.results.order;
    assert order[..i + 1] == order[..i] + [order[i]] && order[i] !in order[..i];
    forall k
      ensures multiset(gone + missing)[k] == Bit(ScopeOf(k) in order[..i + 1] && Vanished(prior, o, k))
    {
    }
  }

  lemma {:induction false} AllSockets(prior: map<PaneKey, PriorRow>, o: Observed, gone: seq<PaneKey>)
    requires o.results.Valid() && CountsVanished(prior, o, |o.results.order|, gone)
    ensures forall k :: multiset(gone)[k] == Bit(Vanished(prior, o, k))
  {
    assert o.results.order[..|o.results.order|] == o.results.order;
  }

  /** Pass 1: successful scans. */
  method Successful(prior: Prior, o: Observed)
    returns (upserts: seq<Upsert>, notes: seq<Note>, gone: seq<PaneKey>, newly: nat)
    requires prior.Valid() && o.Valid()
    ensures upserts == UpsertsUpTo(o, |o.results.order|) && notes == NotesUpTo(o, |o.results.order|)
    ensures newly == |FreshKeys(prior.items, upserts)|
    ensures forall k :: multiset(gone)[k] == Bit(Vanished(prior.items, o, k))
  {
    upserts, notes, gone, newly := [], [], [], 0;
    for i := 0 to |o.results.order|
      invariant upserts == UpsertsUpTo(o, i) && notes == NotesUpTo(o, i)
      invariant newly == |FreshKeys(prior.items, upserts)|
      invariant CountsVanished(prior.items, o, i, gone)
    {
      var rows, more, missing, n := SuccessfulAt(prior, o, o.results.order[i]);
      FreshKeysConcat(prior.items, upserts, rows);
      OneMoreSocket(prior.items, o, i, gone, missing);
      upserts, notes, gone, newly := upserts + rows, notes + more, gone + missing, newly + n;
    }
    AllSockets(prior.items, o, gone);
  }

  method KeysAt(prior: Prior, scope: Scope) returns (keys: seq<PaneKey>)
    requires prior.Valid()
    ensures forall k :: multiset(keys)[k] == Bit(k in prior.items && ScopeOf(k) == scope)
  {
    keys := [];
    for i := 0 to |prior.order|
      invariant forall k :: multiset(keys)[k] == Bit(k in prior.order[..i] && ScopeOf(k) == scope)
    {
      var key := prior.order[i];
      assert prior.order[..i + 1] == prior.order[..i] + [key];
      if key.container == scope.container && key.socket == scope.socket {
        keys := keys + [key];
      }
    }
    assert prior.order[..|prior.order|] == prior.order;
  }

  /** Pass 2: failed scans of containers that are otherwise reachable. */
  method Failed(prior: Prior, o: Observed) returns (touch: seq<PaneKey>)
    requires prior.Valid() && o.Valid()
    ensures forall k :: multiset(touch)[k] == Bit(k in prior.items && FailedAt(o, k) && Reachable(o, k.container))
  {
    touch := [];
    var order := o.results.order;
    for i := 0 to |order|
      invariant forall k :: multiset(touch)[k] ==
                  Bit(k in prior.items && ScopeOf(k) in order[..i] && FailedAt(o, k) && Reachable(o, k.container))
    {
      var scope := order[i];
      assert order[..i + 1] == order[..i] + [scope];
      if o.results.items[scope].NotSeen? && scope.container !in o.unavailable && scope.container !in o.cascade {
        var keys := KeysAt(prior, scope);
        touch := touch + keys;
      }
    }
    assert order[..|order|] == order;
  }

  /** The prior keys of a container outside `sockets`, split into active and inactive. */
  method RowsOf(prior: Prior, c: string, sockets: set<string>) returns (active: seq<PaneKey>, inactive: seq<PaneKey>)
    requires prior.Valid()
    ensures forall k :: multiset(active)[k] ==
              Bit(k in prior.items && k.container == c && k.socket !in sockets && prior.items[k].active)
    ensures forall k :: multiset(inactive)[k] ==
              Bit(k in prior.items && k.container == c && k.socket !in sockets && !prior.items[k].active)
  {
    active, inactive := [], [];
    for i := 0 to |prior.order|
      invariant forall k :: multiset(active)[k] ==
                  Bit(k in prior.order[..i] && k.container == c && k.socket !in sockets && prior.items[k].active)
      invariant forall k :: multiset(inactive)[k] ==
                  Bit(k in prior.order[..i] && k.container == c && k.socket !in sockets && !prior.items[k].active)
    {
      var key := prior.order[i];
      assert prior.order[..i + 1] == prior.order[..i] + [key];
      if key.container != c {
        continue;
      }
      if key.socket in sockets {
        continue;
      }
      if prior.items[key].active {
        active := active + [key];
      } else {
        inactive := inactive + [key];
      }
    }
    assert prior.order[..|prior.order|] == prior.order;
  }

  /** Pass 3: containers whose tmux could not be reached keep every row. */
  method Unavailable(prior: Prior, o: Observed) returns (touch: seq<PaneKey>)
    requires prior.Valid()
    ensures forall k :: multiset(touch)[k] ==
              Bit(k in prior.items && k.container in o.unavailable && k.container !in o.cascade)
  {
    touch := [];
    var todo := o.unavailable;
    while todo != {}
      invariant todo <= o.unavailable
      invariant forall k :: multiset(touch)[k] ==
                  Bit(k in prior.items && k.container in o.unavailable - todo && k.container !in o.cascade)
    {
      var c :| c in todo;
      todo := todo - {c};
      if c !in o.cascade {
        var active, inactive := RowsOf(prior, c, {});
        touch := touch + active + inactive;
      }
    }
  }

  /** Pass 4: inactive containers take their panes with them. */
  method Cascade(prior: Prior, o: Observed) returns (gone: seq<PaneKey>, touch: seq<PaneKey>)
    requires prior.Valid()
    ensures forall k :: multiset(gone)[k] == Bit(k in prior.items && prior.items[k].active && k.container in o.cascade)
    ensures forall k :: multiset(touch)[k] == Bit(k in prior.items && !prior.items[k].active && k.container in o.cascade)
  {
    gone, touch := [], [];
    var todo := o.cascade;
    while todo != {}
      invariant todo <= o.cascade
      invariant forall k :: multiset(gone)[k] ==
                  Bit(k in prior.items && prior.items[k].active && k.container in o.cascade - todo)
      invariant forall k :: multiset(touch)[k] ==
                  Bit(k in prior.items && !prior.items[k].active && k.container in o.cascade - todo)
    {
      var c :| c in todo;
      todo := todo - {c};
      var active, inactive := RowsOf(prior, c, {});
      gone, touch := gone + active, touch + inactive;
    }
  }

  method SocketsByContainer(o: Observed) returns (sockets: map<string, set<string>>)
    requires o.results.Valid()
    ensures forall c :: c in sockets <==> Scanned(o, c)
    ensures forall c, s :: c in sockets ==> (s in sockets[c] <==> Scope(c, s) in o.results.items)
  {
    sockets := map[];
    var order := o.results.order;
    for i := 0 to |order|
      invariant forall c :: c in sockets <==> exists s :: Scope(c, s) in order[..i]
      invariant forall c, s :: c in sockets ==> (s in sockets[c] <==> Scope(c, s) in order[..i])
    {
      var scope := order[i];
      assert order[..i + 1] == order[..i] + [scope];
      var known := if scope.container in sockets then sockets[scope.container] else {};
      assert scope == Scope(scope.container, scope.socket);
      sockets := sockets[scope.container := known + {scope.socket}];
    }
    assert order[..|order|] == order;
  }

  /** Each row of a container no longer to be looked at, whose socket is gone, is in `keys` once. */
  ghost predicate GoneAmong(prior: Prior, o: Observed, active: bool, todo: set<string>, keys: seq<PaneKey>) {
    forall k :: multiset(keys)[k] ==
                Bit(k in prior.items && prior.items[k].active == active && k.container !in todo && SocketGone(o, k))
  }

  lemma {:induction false} GoneNext(prior: Prior, o: Observed, active: bool, todo: set<string>, c: string,
                                    keys: seq<PaneKey>, more: seq<PaneKey>)
    requires GoneAmong(prior, o, active, todo, keys) && c in todo
    requires forall k :: multiset(more)[k] ==
               Bit(k in prior.items && prior.items[k].active == active && k.container == c && SocketGone(o, k))
    ensures GoneAmong(prior, o, active, todo - {c}, keys + more)
  {
  }

  /** The rows of one scanned container whose sockets it no longer has. */
  method GoneOf(prior: Prior, o: Observed, c: string, sockets: set<string>) returns (active: seq<PaneKey>, inactive: seq<PaneKey>)
    requires prior.Valid() && Scanned(o, c) && forall s :: s in sockets <==> Scope(c, s) in o.results.items
    ensures forall k :: multiset(active)[k] ==
              Bit(k in prior.items && prior.items[k].active == true && k.container == c && SocketGone(o, k))
    ensures forall k :: multiset(inactive)[k] ==
              Bit(k in prior.items && prior.items[k].active == false && k.container == c && SocketGone(o, k))
  {
    active, inactive := [], [];
    if c !in o.unavailable && c !in o.cascade {
      active, inactive := RowsOf(prior, c, sockets);
    }
  }

  /** Pass 5: sockets that a scanned, reachable container no longer has. */
  method Disappeared(prior: Prior, o: Observed) returns (gone: seq<PaneKey>, touch: seq<PaneKey>)
    requires prior.Valid() && o.Valid()
    ensures forall k :: multiset(gone)[k] == Bit(k in prior.items && prior.items[k].active && SocketGone(o, k))
    ensures forall k :: multiset(touch)[k] == Bit(k in prior.items && !prior.items[k].active && SocketGone(o, k))
  {
    gone, touch := [], [];
    var sockets := SocketsByContainer(o);
    var todo := sockets.Keys;
    while todo != {}
      invariant todo <= sockets.Keys
      invariant GoneAmong(prior, o, true, todo, gone) && GoneAmong(prior, o, false, todo, touch)
    {
      var c :| c in todo;
      var active, inactive := GoneOf(prior, o, c, sockets[c]);
      GoneNext(prior, o, true, todo, c, gone, active);
      GoneNext(prior, o, false, todo, c, touch, inactive);
      todo := todo - {c};
      gone, touch := gone + active, touch + inactive;
    }
  }

  /** The inactive containers that have any row at all. */
  function Skipped(keys: set<PaneKey>, o: Observed): set<string> {
    set k | k in keys && k.container in o.cascade :: k.container
  }

  /** The write set is what the scan saw: each row's actions are counted, the upserts are the panes listed, in order. */
  ghost predicate Decides(prior: map<PaneKey, PriorRow>, o: Observed, ws: WriteSet) {
    && ws.upserts == UpsertsUpTo(o, |o.results.order|)
    && ws.notes == NotesUpTo(o, |o.results.order|)
    && (forall k :: multiset(ws.inactivate)[k] == if k in prior then InactivateCount(o, prior[k].active, k) else 0)
    && (forall k :: multiset(ws.touch)[k] == if k in prior then TouchCount(o, prior[k].active, k) else 0)
    && ws.seen == |ws.upserts|
    && ws.newlyActive == |FreshKeys(prior, ws.upserts)|
    && ws.reconciledInactive == |ws.inactivate|
    && ws.skippedInactive == |Skipped(prior.Keys, o)|
    && ws.tmuxUnavailable == |o.unavailable - o.cascade|
  }

  method Reconcile(prior: Prior, o: Observed) returns (ws: WriteSet)
    requires prior.Valid() && o.Valid()
    ensures Decides(prior.items, o, ws)
  {
    var upserts, notes, gone1, newly := Successful(prior, o);
    var touch2 := Failed(prior, o);
    var touch3 := Unavailable(prior, o);
    var gone4, touch4 := Cascade(prior, o);
    var gone5, touch5 := Disappeared(prior, o);
    var inactivate, touch := gone1 + gone4 + gone5, touch2 + touch3 + touch4 + touch5;
    var skipped := Skipped(prior.items.Keys, o);
    forall k
      ensures multiset(inactivate)[k] == if k in prior.items then InactivateCount(o, prior.items[k].active, k) else 0
      ensures multiset(touch)[k] == if k in prior.items then TouchCount(o, prior.items[k].active, k) else 0
    {
    }
    ws := WriteSet(upserts, touch, inactivate, notes,
                   |upserts|, newly, |inactivate|, |skipped|, |o.unavailable - o.cascade|);
  }
}
