/**
The loops of one pane scan: what is asked of each active container, what is collected from the answers, and
when the collection keeps the promise that reconciliation relies on.  The adapter's answers are inputs.
*/
module PaneScan {
  import opened OrderedDicts
  import opened Panes
  import opened PaneReconcile
  import opened PaneTable
  import opened ScanErrors

  /** A query's answer, or what its exception carries. */
  datatype Reply<+T> = Got(value: T) | Raised(code: Code, partial: seq<ParsedPane>, container: string, socket: Option<string>)

  /** A socket of the listing, with the answer its panes' query gets. */
  datatype SocketReply = SocketReply(name: string, panes: Reply<seq<ParsedPane>>)

  datatype ActiveContainer = ActiveContainer(
    id: string, name: string, benchUser: Option<string>, uid: Reply<string>, listing: Reply<seq<SocketReply>>)

  datatype ContainerScan = ContainerScan(
    outcomes: OrderedDict<Scope, Outcome>, unavailable: bool, socketsScanned: nat, failures: seq<Failure>)

  predicate DockerGone<T>(r: Reply<T>) {
    r.Raised? && r.code == DockerUnavailable
  }

  predicate Resolved(c: ActiveContainer) {
    c.benchUser.Some? && c.benchUser.value != ""
  }

  /** The sockets that get queried. */
  function SocketsOf(c: ActiveContainer): seq<SocketReply> {
    if Resolved(c) && c.uid.Got? && c.listing.Got? then c.listing.value else []
  }

  function ScopeAt(id: string, uid: string, socket: SocketReply): Scope {
    Scope(id, "/tmp/tmux-" + uid + "/" + socket.name)
  }

  /** Malformed output that still gave some panes counts as a success. */
  function OutcomeOf(r: Reply<seq<ParsedPane>>): Outcome {
    match r
    case Got(panes) => OkScan(panes)
    case Raised(code, partial, _, _) => if code == OutputMalformed && partial != [] then OkScan(partial) else FailedScan("", "")
  }

  predicate AnyGone(ss: seq<SocketReply>) {
    exists s :: s in ss && DockerGone(s.panes)
  }

  predicate NoSuccess(ss: seq<SocketReply>) {
    forall s :: s in ss ==> OutcomeOf(s.panes).FailedScan?
  }

  /** Docker itself was found missing somewhere along the way, which ends the whole scan. */
  predicate Aborts(c: ActiveContainer) {
    Resolved(c) && (DockerGone(c.uid) || (c.uid.Got? && DockerGone(c.listing)) || AnyGone(SocketsOf(c)))
  }

  /** No way to ask, or every socket failed. */
  predicate TmuxUnavailable(c: ActiveContainer) {
    !Resolved(c) || c.uid.Raised? || c.listing.Raised? || (SocketsOf(c) != [] && NoSuccess(SocketsOf(c)))
  }

  /** A socket listed twice keeps its first place and its last outcome. */
  function OutcomesAmong(id: string, uid: string, ss: seq<SocketReply>): (d: OrderedDict<Scope, Outcome>)
    ensures d.Valid()
  {
    if ss == [] then EmptyDict()
    else
      var last := ss[|ss| - 1];
      OutcomesAmong(id, uid, ss[..|ss| - 1]).Put(ScopeAt(id, uid, last), OutcomeOf(last.panes))
  }

  function OutcomesOf(c: ActiveContainer): (d: OrderedDict<Scope, Outcome>)
    ensures d.Valid()
  {
    OutcomesAmong(c.id, if c.uid.Got? then c.uid.value else "", SocketsOf(c))
  }

  /** One failure for each query that raised, whether or not it still gave panes. */
  function FailuresAmong(id: string, uid: string, ss: seq<SocketReply>): seq<Failure> {
    if ss == [] then []
    else
      var last := ss[|ss| - 1];
      FailuresAmong(id, uid, ss[..|ss| - 1]) + FailureAt(ScopeAt(id, uid, last), last.panes)
  }

  function FailureAt(scope: Scope, r: Reply<seq<ParsedPane>>): seq<Failure> {
    if r.Raised? then [Failure(r.container, Some(scope.socket), r.code)] else []
  }

  function FailuresOf(c: ActiveContainer): seq<Failure> {
    if !Resolved(c) then [Failure(c.id, None, BenchUserUnresolved)]
    else if c.uid.Raised? then [Failure(c.uid.container, c.uid.socket, c.uid.code)]
    else if c.listing.Raised? then [Failure(c.listing.container, c.listing.socket, c.listing.code)]
    else FailuresAmong(c.id, c.uid.value, c.listing.value)
  }

  /** The container could be asked, and no query of it raised. */
  predicate Answers(c: ActiveContainer) {
    Resolved(c) && c.uid.Got? && c.listing.Got? && forall s :: s in c.listing.value ==> s.panes.Got?
  }

  lemma {:induction false} NoFailureIff(c: ActiveContainer)
    ensures FailuresOf(c) == [] <==> Answers(c)
  {
    if Resolved(c) && c.uid.Got? && c.listing.Got? {
      NoFailureAmong(c.id, c.uid.value, c.listing.value);
    }
  }

  lemma {:induction false} NoFailureAmong(id: string, uid: string, ss: seq<SocketReply>)
    ensures FailuresAmong(id, uid, ss) == [] <==> forall s :: s in ss ==> s.panes.Got?
  {
    if ss != [] {
      var front, last := ss[..|ss| - 1], ss[|ss| - 1];
      NoFailureAmong(id, uid, front);
      assert ss == front + [last];
    }
  }

  /** One query of a socket's panes; `None` when Docker is gone. */
  method QuerySocket(reply: Reply<seq<ParsedPane>>) returns (outcome: Option<Outcome>)
    ensures outcome == if DockerGone(reply) then None else Some(OutcomeOf(reply))
  {
    match reply {
      case Raised(code, partial, _, _) =>
        if code == DockerUnavailable {
          return None;
        }
        if code == OutputMalformed && partial != [] {
          return Some(OkScan(partial));
        }
        return Some(FailedScan("", ""));
      case Got(panes) =>
        return Some(OkScan(panes));
    }
  }

  lemma {:induction false} OneMoreReply(ss: seq<SocketReply>, s: SocketReply)
    ensures AnyGone(ss + [s]) <==> AnyGone(ss) || DockerGone(s.panes)
    ensures NoSuccess(ss + [s]) <==> NoSuccess(ss) && OutcomeOf(s.panes).FailedScan?
  {
    assert s in ss + [s] && forall x :: x in ss ==> x in ss + [s];
  }

  lemma {:induction false} GoneAmong(ss: seq<SocketReply>, i: nat)
    requires i < |ss| && DockerGone(ss[i].panes)
    ensures AnyGone(ss)
  {
    assert ss[i] in ss;
  }

  method ScanSockets(id: string, uid: string, sockets: seq<SocketReply>)
    returns (r: Option<(OrderedDict<Scope, Outcome>, bool, seq<Failure>)>)
    ensures r.None? <==> AnyGone(sockets)
    ensures r.Some? ==> r.value == (OutcomesAmong(id, uid, sockets), !NoSuccess(sockets), FailuresAmong(id, uid, sockets))
  {
    var outcomes: OrderedDict<Scope, Outcome> := EmptyDict();
    var anySuccess, failures := false, [];
    for i := 0 to |sockets|
      invariant outcomes == OutcomesAmong(id, uid, sockets[..i]) && failures == FailuresAmong(id, uid, sockets[..i])
      invariant anySuccess == !NoSuccess(sockets[..i]) && !AnyGone(sockets[..i])
    {
      OneMoreReply(sockets[..i], sockets[i]);
      assert sockets[..i + 1] == sockets[..i] + [sockets[i]];
      var outcome := QuerySocket(sockets[i].panes);
      if outcome.None? {
        GoneAmong(sockets, i);
        return None;
      }
      assert sockets[..i + 1][..i] == sockets[..i];
      anySuccess := anySuccess || outcome.value.OkScan?;
      var scope := ScopeAt(id, uid, sockets[i]);
      outcomes, failures := outcomes.Put(scope, outcome.value), failures + FailureAt(scope, sockets[i].panes);
    }
    assert sockets[..|sockets|] == sockets;
    r := Some((outcomes, anySuccess, failures));
  }

  method ScanOneContainer(c: ActiveContainer) returns (r: Option<ContainerScan>)
    requires Resolved(c)
    ensures r.None? <==> Aborts(c)
    ensures r.Some? ==> r.value == ContainerScan(OutcomesOf(c), TmuxUnavailable(c), |SocketsOf(c)|, FailuresOf(c))
  {
    if c.uid.Raised? {
      if c.uid.code == DockerUnavailable {
        return None;
      }
      return Some(ContainerScan(EmptyDict(), true, 0, [Failure(c.uid.container, c.uid.socket, c.uid.code)]));
    }
    if c.listing.Raised? {
      if c.listing.code == DockerUnavailable {
        return None;
      }
      return Some(ContainerScan(EmptyDict(), true, 0, [Failure(c.listing.container, c.listing.socket, c.listing.code)]));
    }
    if c.listing.value == [] {
      return Some(ContainerScan(EmptyDict(), false, 0, []));
    }
    var scanned := ScanSockets(c.id, c.uid.value, c.listing.value);
    if scanned.None? {
      return None;
    }
    r := Some(ContainerScan(scanned.value.0, !scanned.value.1, |c.listing.value|, scanned.value.2));
  }

  /** Every outcome of a container is at one of its own sockets and is that of some query of it. */
  lemma {:induction false} OutcomesAt(id: string, uid: string, ss: seq<SocketReply>, scope: Scope)
    ensures scope in OutcomesAmong(id, uid, ss).items ==>
              scope.container == id && ss != []
              && (NoSuccess(ss) ==> OutcomesAmong(id, uid, ss).items[scope].FailedScan?)
    ensures ss != [] ==> ScopeAt(id, uid, ss[0]) in OutcomesAmong(id, uid, ss).items
  {
    if ss != [] {
      var front, last := ss[..|ss| - 1], ss[|ss| - 1];
      OutcomesAt(id, uid, front, scope);
      assert ss == front + [last];
      OneMoreReply(front, last);
      var d, d' := OutcomesAmong(id, uid, front).items, OutcomesAmong(id, uid, ss).items;
      assert d' == d[ScopeAt(id, uid, last) := OutcomeOf(last.panes)];
    }
  }

  lemma {:induction false} SocketNamed(id: string, uid: string, ss: seq<SocketReply>, scope: Scope)
    requires scope in OutcomesAmong(id, uid, ss).items
    ensures scope.socket != ""
  {
    var front, last := ss[..|ss| - 1], ss[|ss| - 1];
    if scope in OutcomesAmong(id, uid, front).items {
      SocketNamed(id, uid, front, scope);
    } else {
      assert scope == ScopeAt(id, uid, last);
    }
  }

  // All containers

  /** The entries of `d` with those of `e` at `keys` over them. */
  ghost predicate PutOver(d: map<Scope, Outcome>, e: map<Scope, Outcome>, keys: seq<Scope>, r: map<Scope, Outcome>) {
    && (forall scope :: scope in keys ==> scope in e)
    && (forall scope :: scope in r <==> scope in d || scope in keys)
    && (forall scope :: scope in r ==> r[scope] == if scope in keys then e[scope] else d[scope])
  }

  lemma {:induction false} PutNext(d: map<Scope, Outcome>, e: map<Scope, Outcome>, keys: seq<Scope>, r: map<Scope, Outcome>, k: Scope)
    requires PutOver(d, e, keys, r) && k in e
    ensures PutOver(d, e, keys + [k], r[k := e[k]])
  {
  }

  /** `d.update(e)`. */
  method Update(d: OrderedDict<Scope, Outcome>, e: OrderedDict<Scope, Outcome>) returns (r: OrderedDict<Scope, Outcome>)
    requires d.Valid() && e.Valid()
    ensures r.Valid() && r.items == d.items + e.items
  {
    r := d;
    for i := 0 to |e.order|
      invariant r.Valid()
      invariant PutOver(d.items, e.items, e.order[..i], r.items)
    {
      PutNext(d.items, e.items, e.order[..i], r.items, e.order[i]);
      assert e.order[..i + 1] == e.order[..i] + [e.order[i]];
      r := r.Put(e.order[i], e.items[e.order[i]]);
    }
    assert e.order[..|e.order|] == e.order;
  }

  function ResultsOf(cs: seq<ActiveContainer>): map<Scope, Outcome> {
    if cs == [] then map[] else ResultsOf(cs[..|cs| - 1]) + OutcomesOf(cs[|cs| - 1]).items
  }

  function UnavailableOf(cs: seq<ActiveContainer>): set<string> {
    set c | c in cs && TmuxUnavailable(c) :: c.id
  }

  /** Every outcome collected is that of one of the containers, and none is lost. */
  lemma {:induction false} ResultsAt(cs: seq<ActiveContainer>, scope: Scope)
    ensures scope in ResultsOf(cs) ==>
              exists c :: c in cs && scope in OutcomesOf(c).items && ResultsOf(cs)[scope] == OutcomesOf(c).items[scope]
    ensures forall c :: c in cs && scope in OutcomesOf(c).items ==> scope in ResultsOf(cs)
  {
    if cs != [] {
      var front, last := cs[..|cs| - 1], cs[|cs| - 1];
      ResultsAt(front, scope);
      assert cs == front + [last];
      if scope in ResultsOf(cs) && scope !in OutcomesOf(last).items {
        var c :| c in front && scope in OutcomesOf(c).items && ResultsOf(front)[scope] == OutcomesOf(c).items[scope];
        assert c in cs;
      }
    }
  }

  function Selected(cs: seq<ActiveContainer>, filter: Option<string>): seq<ActiveContainer> {
    if cs == [] then []
    else
      var last := cs[|cs| - 1];
      Selected(cs[..|cs| - 1], filter) + (if filter.None? || last.id == filter.value then [last] else [])
  }

  function SelectedIds(ids: set<string>, filter: Option<string>): set<string> {
    if filter.None? then ids else ids * {filter.value}
  }

  datatype Collection = Collection(
    results: OrderedDict<Scope, Outcome>, unavailable: set<string>, metadata: map<string, ContainerMeta>, counts: Counts)

  datatype Counts = Counts(containers: nat, sockets: nat, failures: seq<Failure>)

  /** The name and the user a container's rows get. */
  function MetaFor(c: ActiveContainer): ContainerMeta {
    ContainerMeta(c.name, if Resolved(c) then c.benchUser.value else "")
  }

  function MetadataOf(cs: seq<ActiveContainer>): map<string, ContainerMeta> {
    if cs == [] then map[] else MetadataOf(cs[..|cs| - 1])[cs[|cs| - 1].id := MetaFor(cs[|cs| - 1])]
  }

  /** The counts of the containers asked, the sockets queried, and everything that failed, in order. */
  function CountsOf(cs: seq<ActiveContainer>): Counts {
    if cs == [] then Counts(0, 0, []) else WithCounts(CountsOf(cs[..|cs| - 1]), cs[|cs| - 1])
  }

  function WithCounts(n: Counts, c: ActiveContainer): Counts {
    Counts(n.containers + (if Resolved(c) then 1 else 0), n.sockets + |SocketsOf(c)|, n.failures + FailuresOf(c))
  }

  predicate AnyAborts(cs: seq<ActiveContainer>) {
    exists c :: c in cs && Aborts(c)
  }

  method CollectOne(c: ActiveContainer, found: Collection) returns (r: Option<Collection>)
    requires found.results.Valid()
    ensures r.None? <==> Aborts(c)
    ensures r.Some? ==> r.value.results.Valid() && r.value.results.items == found.results.items + OutcomesOf(c).items
    ensures r.Some? ==> r.value.unavailable == found.unavailable + if TmuxUnavailable(c) then {c.id} else {}
    ensures r.Some? ==> r.value.metadata == found.metadata[c.id := MetaFor(c)] && r.value.counts == WithCounts(found.counts, c)
  {
    var n := found.counts;
    if !Resolved(c) {
      r := Some(Collection(found.results, found.unavailable + {c.id}, found.metadata[c.id := ContainerMeta(c.name, "")],
                           n.(failures := n.failures + [Failure(c.id, None, BenchUserUnresolved)])));
      assert OutcomesOf(c).items == map[] && found.results.items + map[] == found.results.items;
      return;
    }
    var state := ScanOneContainer(c);
    if state.None? {
      return None;
    }
    var results := Update(found.results, state.value.outcomes);
    var unavailable := found.unavailable + if state.value.unavailable then {c.id} else {};
    var counts := Counts(n.containers + 1, n.sockets + state.value.socketsScanned, n.failures + state.value.failures);
    r := Some(Collection(results, unavailable, found.metadata[c.id := ContainerMeta(c.name, c.benchUser.value)], counts));
  }

  lemma {:induction false} OneMoreContainer(cs: seq<ActiveContainer>, i: nat)
    requires i < |cs|
    ensures ResultsOf(cs[..i + 1]) == ResultsOf(cs[..i]) + OutcomesOf(cs[i]).items
    ensures UnavailableOf(cs[..i + 1]) == UnavailableOf(cs[..i]) + if TmuxUnavailable(cs[i]) then {cs[i].id} else {}
    ensures AnyAborts(cs[..i + 1]) <==> AnyAborts(cs[..i]) || Aborts(cs[i])
    ensures MetadataOf(cs[..i + 1]) == MetadataOf(cs[..i])[cs[i].id := MetaFor(cs[i])]
    ensures CountsOf(cs[..i + 1]) == WithCounts(CountsOf(cs[..i]), cs[i])
  {
    assert cs[..i + 1] == cs[..i] + [cs[i]];
    assert cs[..i + 1][..i] == cs[..i];
  }

  /** The loop over the active containers; `None` when Docker is gone. */
  method Collect(cs: seq<ActiveContainer>) returns (r: Option<Collection>)
    ensures r.None? <==> AnyAborts(cs)
    ensures r.Some? ==> r.value.results.Valid() && r.value.results.items == ResultsOf(cs)
    ensures r.Some? ==> r.value.unavailable == UnavailableOf(cs)
    ensures r.Some? ==> r.value.metadata == MetadataOf(cs) && r.value.counts == CountsOf(cs)
  {
    var found := Collection(EmptyDict(), {}, map[], Counts(0, 0, []));
    for i := 0 to |cs|
      invariant found.results.Valid() && found.results.items == ResultsOf(cs[..i])
      invariant found.unavailable == UnavailableOf(cs[..i]) && !AnyAborts(cs[..i])
      invariant found.metadata == MetadataOf(cs[..i]) && found.counts == CountsOf(cs[..i])
    {
      var next := CollectOne(cs[i], found);
      OneMoreContainer(cs, i);
      if next.None? {
        assert cs[i] in cs;
        return None;
      }
      found := next.value;
    }
    assert cs[..|cs|] == cs;
    r := Some(found);
  }

  // A whole scan, and its promise

  /** What reconciliation gets to see of the containers scanned: the rows of the panes each socket listed. */
  ghost predicate Gathered(cs: seq<ActiveContainer>, now: string, o: Observed) {
    && o.results.items.Keys == ResultsOf(cs).Keys
    && (forall scope :: scope in o.results.items ==>
          o.results.items[scope] == SightingOf(scope, MetadataOf(cs), now, ResultsOf(cs)[scope]))
    && o.unavailable == UnavailableOf(cs)
  }

  lemma {:induction false} SightedRowsInPlace(results: map<Scope, Outcome>, metadata: map<string, ContainerMeta>, now: string, o: Observed)
    requires o.results.Valid() && o.results.items.Keys == results.Keys
    requires forall scope :: scope in results ==> o.results.items[scope] == SightingOf(scope, metadata, now, results[scope])
    ensures o.Valid()
  {
    forall scope, u | scope in o.results.items && u in RowsAt(o, scope)
      ensures ScopeOf(u.key) == scope
    {
      RowsForKeys(scope, MetaOf(metadata, scope.container), now, results[scope].panes, u.key);
    }
  }

  /** Every truncation of a scan is noted at a socket it queried, whose path is never empty. */
  lemma {:induction false} NotedAtSocket(cs: seq<ActiveContainer>, now: string, o: Observed, note: Note)
    requires o.results.Valid() && Gathered(cs, now, o) && note in NotesUpTo(o, |o.results.order|)
    ensures note.scope.socket != ""
  {
    var scope := NoteFrom(o, |o.results.order|, note);
    NotesCarryScope(scope, MetaOf(MetadataOf(cs), scope.container), ResultsOf(cs)[scope].panes, note);
    ResultsAt(cs, scope);
    var c :| c in cs && scope in OutcomesOf(c).items;
    SocketNamed(c.id, if c.uid.Got? then c.uid.value else "", SocketsOf(c), scope);
  }

  /** Whatever failed, the error details of a scan hold exactly the truncations it made. */
  lemma {:induction false} EveryTruncationReported(cs: seq<ActiveContainer>, now: string, prior: map<PaneKey, PriorRow>, o: Observed,
                                                   ws: WriteSet, failures: seq<Failure>, note: Note)
    requires o.results.Valid() && Gathered(cs, now, o) && Decides(prior, o, ws)
    ensures Reported(Merged(failures, ws.notes), note) <==> note in ws.notes
  {
    if note in ws.notes {
      NotedAtSocket(cs, now, o, note);
    }
    NamedSocketReported(failures, ws.notes, note);
  }

  /** What a scan ends with: what it saw, what it writes, and what its row says of it. */
  datatype Report = Report(o: Observed, ws: WriteSet, counts: Counts, degraded: bool, details: seq<Detail>)

  /** One scan up to its commit; `None` when Docker is gone, and then nothing is written to the panes. */
  method ScanLocked(active: seq<ActiveContainer>, cascadeIds: set<string>, filter: Option<string>, prior: Prior, now: string)
    returns (r: Option<Report>)
    requires prior.Valid()
    ensures r.None? <==> AnyAborts(Selected(active, filter))
    ensures r.Some? ==> r.value.o.Valid() && r.value.o.cascade == SelectedIds(cascadeIds, filter)
    ensures r.Some? ==> Gathered(Selected(active, filter), now, r.value.o) && Decides(prior.items, r.value.o, r.value.ws)
    ensures r.Some? ==> r.value.counts == CountsOf(Selected(active, filter))
    ensures r.Some? ==> r.value.details == Merged(r.value.counts.failures, r.value.ws.notes)
    ensures r.Some? ==> (r.value.degraded <==> r.value.details != [])
    ensures r.Some? ==> forall note :: Reported(r.value.details, note) <==> note in r.value.ws.notes
  {
    var cs := Selected(active, filter);
    var found := Collect(cs);
    if found.None? {
      return None;
    }
    var sightings := SightAll(found.value.results, found.value.metadata, now);
    var o := Observed(sightings, found.value.unavailable, SelectedIds(cascadeIds, filter));
    assert o.results.items.Keys == found.value.results.items.Keys;
    SightedRowsInPlace(found.value.results.items, found.value.metadata, now, o);
    var ws := Reconcile(prior, o);
    var failures := found.value.counts.failures;
    var details := MergeErrorDetails(failures, ws.notes);
    FirstCode(failures, ws.notes);
    forall note
      ensures Reported(details, note) <==> note in ws.notes
    {
      EveryTruncationReported(cs, now, prior.items, o, ws, failures, note);
    }
    r := Some(Report(o, ws, found.value.counts, failures != [] || ws.notes != [], details));
  }

  lemma {:induction false} NothingAdded(n: Counts, c: ActiveContainer)
    ensures WithCounts(n, c).failures == [] <==> n.failures == [] && Answers(c)
  {
    NoFailureIff(c);
  }

  /** A scan has no failure to report exactly when every container could be asked and no query raised. */
  lemma {:induction false} NoFailuresIff(cs: seq<ActiveContainer>)
    ensures CountsOf(cs).failures == [] <==> forall c :: c in cs ==> Answers(c)
  {
    if cs != [] {
      var front, last := cs[..|cs| - 1], cs[|cs| - 1];
      NoFailuresIff(front);
      NothingAdded(CountsOf(front), last);
      assert cs == front + [last];
    }
  }

  ghost predicate DistinctIds(cs: seq<ActiveContainer>) {
    forall c, d :: c in cs && d in cs && c.id == d.id ==> c == d
  }

  /** No container that listed a socket is also in the cascade. */
  ghost predicate CascadeUnscanned(cs: seq<ActiveContainer>, o: Observed) {
    forall c :: c in cs && c.id in o.cascade ==> SocketsOf(c) == []
  }

  lemma {:induction false} UnavailableMeansFailed(c: ActiveContainer, scope: Scope)
    requires scope in OutcomesOf(c).items
    ensures scope.container == c.id && SocketsOf(c) != []
    ensures TmuxUnavailable(c) ==> OutcomesOf(c).items[scope].FailedScan?
  {
    OutcomesAt(c.id, if c.uid.Got? then c.uid.value else "", SocketsOf(c), scope);
  }

  lemma {:induction false} GuaranteeAt(cs: seq<ActiveContainer>, now: string, o: Observed, scope: Scope)
    requires Gathered(cs, now, o) && DistinctIds(cs) && CascadeUnscanned(cs, o) && scope in o.results.items
    ensures scope.container !in o.cascade && (scope.container in o.unavailable ==> o.results.items[scope].NotSeen?)
  {
    ResultsAt(cs, scope);
    var c :| c in cs && scope in OutcomesOf(c).items && ResultsOf(cs)[scope] == OutcomesOf(c).items[scope];
    UnavailableMeansFailed(c, scope);
  }

  /**
  The promise to reconciliation holds exactly when no container read as active, and found to have a socket, is
  read as inactive by the query for the cascade that follows.
  */
  lemma {:induction false} GuaranteeIff(cs: seq<ActiveContainer>, now: string, o: Observed)
    requires Gathered(cs, now, o) && DistinctIds(cs)
    ensures Guarantee(o) <==> CascadeUnscanned(cs, o)
  {
    if CascadeUnscanned(cs, o) {
      forall scope | scope in o.results.items
        ensures scope.container !in o.cascade && (scope.container in o.unavailable ==> o.results.items[scope].NotSeen?)
      {
        GuaranteeAt(cs, now, o, scope);
      }
    } else {
      var c :| c in cs && c.id in o.cascade && SocketsOf(c) != [];
      var scope := ScopeAt(c.id, c.uid.value, SocketsOf(c)[0]);
      OutcomesAt(c.id, c.uid.value, SocketsOf(c), scope);
      ResultsAt(cs, scope);
      assert scope in o.results.items && scope.container in o.cascade;
    }
  }

  /** An active row of such a container that tmux does list is both upserted and inactivated, and ends inactive. */
  lemma {:induction false} ListedButCascaded(rows: Rows, o: Observed, ws: WriteSet, now: string, k: PaneKey)
    requires Scan(rows, o, ws) && Listed(o, k) && k.container in o.cascade && IsActive(rows, k)
    ensures HasKey(ws.upserts, k) && k in ws.inactivate && !IsActive(Applied(rows, ws, now), k)
  {
    HasKeyIff(o, k);
    InactivatedIff(rows, o, ws, k);
    AppliedAt(rows, o, ws, now, k);
  }
}
