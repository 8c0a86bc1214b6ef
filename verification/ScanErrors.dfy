/** The error details a scan reports: its failures, and the texts it had to cut, by socket. */
module ScanErrors {
  import opened OrderedDicts
  import opened Panes

  datatype Code = DockerUnavailable | OutputMalformed | BenchUserUnresolved | OtherError(name: string)

  datatype Failure = Failure(container: string, socket: Option<string>, code: Code)

  datatype Detail = Detail(container: string, socket: Option<string>, code: Code, truncations: seq<Note>)

  type Truncations = OrderedDict<Scope, seq<Note>>

  // Notes by scope

  function NotesOn(notes: seq<Note>, scope: Scope): seq<Note> {
    if notes == [] then []
    else
      var last := notes[|notes| - 1];
      NotesOn(notes[..|notes| - 1], scope) + if last.scope == scope then [last] else []
  }

  function Add(d: Truncations, note: Note): Truncations {
    d.Put(note.scope, (if note.scope in d.items then d.items[note.scope] else []) + [note])
  }

  function Index(notes: seq<Note>): (d: Truncations)
    ensures d.Valid()
  {
    if notes == [] then EmptyDict() else Add(Index(notes[..|notes| - 1]), notes[|notes| - 1])
  }

  lemma {:induction false} NotesOnAre(notes: seq<Note>, scope: Scope, note: Note)
    ensures note in NotesOn(notes, scope) <==> note in notes && note.scope == scope
  {
    if notes != [] {
      NotesOnAre(notes[..|notes| - 1], scope, note);
      assert notes == notes[..|notes| - 1] + [notes[|notes| - 1]];
    }
  }

  lemma {:induction false} IndexHolds(notes: seq<Note>, scope: Scope)
    ensures NotesOn(notes, scope) == if scope in Index(notes).items then Index(notes).items[scope] else []
    ensures scope in Index(notes).items <==> NotesOn(notes, scope) != []
  {
    if notes != [] {
      IndexHolds(notes[..|notes| - 1], scope);
    }
  }

  lemma {:induction false} IndexAt(notes: seq<Note>, scope: Scope, note: Note)
    ensures note in notes && note.scope == scope <==> scope in Index(notes).items && note in Index(notes).items[scope]
  {
    NotesOnAre(notes, scope, note);
    IndexHolds(notes, scope);
  }

  method IndexTruncations(notes: seq<Note>) returns (d: Truncations)
    ensures d == Index(notes)
  {
    d := EmptyDict();
    for i := 0 to |notes|
      invariant d == Index(notes[..i])
    {
      assert notes[..i + 1][..i] == notes[..i];
      d := Add(d, notes[i]);
    }
    assert notes[..|notes|] == notes;
  }

  // Details

  /** The scope a failure is filed under; one that names no socket is filed under the empty path. */
  function ScopeOfFailure(f: Failure): Scope {
    Scope(f.container, if f.socket.Some? then f.socket.value else "")
  }

  function WithNotes(f: Failure, d: Truncations): Detail {
    Detail(f.container, f.socket, f.code,
           if f.socket.Some? && ScopeOfFailure(f) in d.items then d.items[ScopeOfFailure(f)] else [])
  }

  function FailureDetails(failures: seq<Failure>, d: Truncations): (ds: seq<Detail>)
    ensures |ds| == |failures| && forall i :: 0 <= i < |ds| ==> ds[i] == WithNotes(failures[i], d)
  {
    if failures == [] then []
    else FailureDetails(failures[..|failures| - 1], d) + [WithNotes(failures[|failures| - 1], d)]
  }

  predicate Filed(failures: seq<Failure>, scope: Scope) {
    exists f :: f in failures && ScopeOfFailure(f) == scope
  }

  /** A detail of its own for a scope that no failure is filed under. */
  function OwnDetail(scope: Scope, failures: seq<Failure>, d: Truncations): seq<Detail>
    requires scope in d.items
  {
    if Filed(failures, scope) then [] else [Detail(scope.container, Some(scope.socket), OutputMalformed, d.items[scope])]
  }

  function OwnDetails(order: seq<Scope>, failures: seq<Failure>, d: Truncations): seq<Detail>
    requires forall scope :: scope in order ==> scope in d.items
  {
    if order == [] then []
    else OwnDetails(order[..|order| - 1], failures, d) + OwnDetail(order[|order| - 1], failures, d)
  }

  function Merged(failures: seq<Failure>, notes: seq<Note>): seq<Detail> {
    FailureDetails(failures, Index(notes)) + OwnDetails(Index(notes).order, failures, Index(notes))
  }

  lemma {:induction false} OneMoreFailure(failures: seq<Failure>, i: nat, d: Truncations)
    requires i < |failures|
    ensures FailureDetails(failures[..i + 1], d) == FailureDetails(failures[..i], d) + [WithNotes(failures[i], d)]
    ensures forall scope :: Filed(failures[..i + 1], scope) <==> Filed(failures[..i], scope) || scope == ScopeOfFailure(failures[i])
  {
    var front, longer := failures[..i], failures[..i + 1];
    assert longer == front + [failures[i]] && longer[..i] == front;
    assert failures[i] in longer;
    forall scope
      ensures Filed(longer, scope) <==> Filed(front, scope) || scope == ScopeOfFailure(failures[i])
    {
      if f :| f in front && ScopeOfFailure(f) == scope {
        assert f in longer;
      }
    }
  }

  method FileFailures(failures: seq<Failure>, d: Truncations) returns (details: seq<Detail>, filed: set<Scope>)
    ensures details == FailureDetails(failures, d)
    ensures forall scope :: scope in filed <==> Filed(failures, scope)
  {
    details, filed := [], {};
    for i := 0 to |failures|
      invariant details == FailureDetails(failures[..i], d)
      invariant forall scope :: scope in filed <==> Filed(failures[..i], scope)
    {
      OneMoreFailure(failures, i, d);
      details, filed := details + [WithNotes(failures[i], d)], filed + {ScopeOfFailure(failures[i])};
    }
    assert failures[..|failures|] == failures;
  }

  lemma {:induction false} OneMoreScope(failures: seq<Failure>, i: nat, d: Truncations)
    requires d.Valid() && i < |d.order|
    ensures OwnDetails(d.order[..i + 1], failures, d) ==
            OwnDetails(d.order[..i], failures, d) + OwnDetail(d.order[i], failures, d)
  {
    assert d.order[..i + 1][..i] == d.order[..i];
  }

  method FileTruncations(failures: seq<Failure>, filed: set<Scope>, d: Truncations) returns (own: seq<Detail>)
    requires d.Valid() && forall scope :: scope in filed <==> Filed(failures, scope)
    ensures own == OwnDetails(d.order, failures, d)
  {
    own := [];
    for i := 0 to |d.order|
      invariant own == OwnDetails(d.order[..i], failures, d)
    {
      OneMoreScope(failures, i, d);
      var scope := d.order[i];
      if scope !in filed {
        own := own + [Detail(scope.container, Some(scope.socket), OutputMalformed, d.items[scope])];
      }
    }
    assert d.order[..|d.order|] == d.order;
  }

  method MergeErrorDetails(failures: seq<Failure>, notes: seq<Note>) returns (details: seq<Detail>)
    ensures details == Merged(failures, notes)
  {
    var d := IndexTruncations(notes);
    var first, filed := FileFailures(failures, d);
    var own := FileTruncations(failures, filed, d);
    details := first + own;
  }

  // What becomes of a note

  /** The note can be read in some detail. */
  ghost predicate Reported(details: seq<Detail>, note: Note) {
    exists e :: e in details && note in e.truncations
  }

  lemma {:induction false} OwnDetailKeeps(scope: Scope, failures: seq<Failure>, notes: seq<Note>, note: Note)
    requires scope in Index(notes).items
    ensures Reported(OwnDetail(scope, failures, Index(notes)), note) <==>
            note in notes && note.scope == scope && !Filed(failures, scope)
  {
    IndexAt(notes, scope, note);
    var own := Detail(scope.container, Some(scope.socket), OutputMalformed, Index(notes).items[scope]);
    assert own in [own];
  }

  lemma {:induction false} OwnDetailsKeep(order: seq<Scope>, failures: seq<Failure>, notes: seq<Note>, note: Note)
    requires forall scope :: scope in order ==> scope in Index(notes).items
    ensures Reported(OwnDetails(order, failures, Index(notes)), note) <==>
            note in notes && note.scope in order && !Filed(failures, note.scope)
  {
    if order != [] {
      var front, last, d := order[..|order| - 1], order[|order| - 1], Index(notes);
      OwnDetailsKeep(front, failures, notes, note);
      OwnDetailKeeps(last, failures, notes, note);
      assert order == front + [last];
      ReportedConcat(OwnDetails(front, failures, d), OwnDetail(last, failures, d), note);
    }
  }

  lemma {:induction false} ReportedConcat(ds: seq<Detail>, es: seq<Detail>, note: Note)
    ensures Reported(ds + es, note) <==> Reported(ds, note) || Reported(es, note)
  {
    if e :| e in ds && note in e.truncations {
      assert e in ds + es;
    }
    if e :| e in es && note in e.truncations {
      assert e in ds + es;
    }
  }

  predicate NamesSocket(failures: seq<Failure>, scope: Scope) {
    exists f :: f in failures && f.socket == Some(scope.socket) && f.container == scope.container
  }

  lemma {:induction false} FailureDetailsKeep(failures: seq<Failure>, notes: seq<Note>, note: Note)
    ensures Reported(FailureDetails(failures, Index(notes)), note) <==> note in notes && NamesSocket(failures, note.scope)
  {
    if failures != [] {
      var front, last := failures[..|failures| - 1], failures[|failures| - 1];
      FailureDetailsKeep(front, notes, note);
      IndexAt(notes, ScopeOfFailure(last), note);
      assert failures == front + [last];
      var d := Index(notes);
      ReportedConcat(FailureDetails(front, d), [WithNotes(last, d)], note);
      assert Reported([WithNotes(last, d)], note) <==> note in WithNotes(last, d).truncations by {
        assert WithNotes(last, d) in [WithNotes(last, d)];
      }
    }
  }

  /**
  Of any failures and truncations: the details hold a truncation if and only if it is one of them, and no failure is filed
  under its scope or one that names its socket is.
  */
  lemma {:induction false} NoteReportedIff(failures: seq<Failure>, notes: seq<Note>, note: Note)
    ensures Reported(Merged(failures, notes), note) <==>
            note in notes && (Filed(failures, note.scope) ==> NamesSocket(failures, note.scope))
  {
    var d := Index(notes);
    IndexAt(notes, note.scope, note);
    FailureDetailsKeep(failures, notes, note);
    OwnDetailsKeep(d.order, failures, notes, note);
    ReportedConcat(FailureDetails(failures, d), OwnDetails(d.order, failures, d), note);
  }

  /** With a socket path that is not empty, the details hold exactly the truncations there are. */
  lemma {:induction false} NamedSocketReported(failures: seq<Failure>, notes: seq<Note>, note: Note)
    requires note in notes ==> note.scope.socket != ""
    ensures Reported(Merged(failures, notes), note) <==> note in notes
  {
    NoteReportedIff(failures, notes, note);
    if note in notes && Filed(failures, note.scope) {
      var f :| f in failures && ScopeOfFailure(f) == note.scope;
      assert f.socket == Some(note.scope.socket) && f.container == note.scope.container;
    }
  }

  /** There is something to report exactly when something failed or was cut, and the first code is that of the first failure. */
  lemma {:induction false} FirstCode(failures: seq<Failure>, notes: seq<Note>)
    ensures Merged(failures, notes) == [] <==> failures == [] && notes == []
    ensures Merged(failures, notes) != [] ==>
              Merged(failures, notes)[0].code == if failures != [] then failures[0].code else OutputMalformed
  {
    var d := Index(notes);
    if failures == [] && notes != [] {
      IndexAt(notes, notes[0].scope, notes[0]);
      assert d.order != [];
      OwnDetailsCode(d.order, d);
    }
  }

  lemma {:induction false} OwnDetailsCode(order: seq<Scope>, d: Truncations)
    requires forall scope :: scope in order ==> scope in d.items
    ensures |OwnDetails(order, [], d)| == |order|
    ensures forall i :: 0 <= i < |order| ==> OwnDetails(order, [], d)[i].code == OutputMalformed
  {
    if order != [] {
      OwnDetailsCode(order[..|order| - 1], d);
    }
  }

  // The details one by one

  /** The first details are the failures, in order, each with the texts cut at the socket it names. */
  lemma {:induction false} DetailOfFailure(failures: seq<Failure>, notes: seq<Note>, i: nat, note: Note)
    requires i < |failures|
    ensures i < |Merged(failures, notes)|
    ensures var d, f := Merged(failures, notes)[i], failures[i];
            && d.container == f.container && d.socket == f.socket && d.code == f.code
            && (note in d.truncations <==> note in notes && note.scope.container == f.container && f.socket == Some(note.scope.socket))
  {
    IndexAt(notes, ScopeOfFailure(failures[i]), note);
  }

  lemma {:induction false} OwnDetailsAre(order: seq<Scope>, failures: seq<Failure>, d: Truncations, i: nat) returns (scope: Scope)
    requires (forall x :: x in order ==> x in d.items) && i < |OwnDetails(order, failures, d)|
    ensures scope in order && !Filed(failures, scope)
    ensures OwnDetails(order, failures, d)[i] == Detail(scope.container, Some(scope.socket), OutputMalformed, d.items[scope])
  {
    var front, last := order[..|order| - 1], order[|order| - 1];
    if i < |OwnDetails(front, failures, d)| {
      scope := OwnDetailsAre(front, failures, d, i);
    } else {
      scope := last;
    }
  }

  /** The detail is that of a scope with texts cut and no failure filed there. */
  ghost predicate OwnAt(d: Truncations, failures: seq<Failure>, detail: Detail, scope: Scope) {
    && scope in d.items && !Filed(failures, scope)
    && detail == Detail(scope.container, Some(scope.socket), OutputMalformed, d.items[scope])
  }

  lemma {:induction false} OwnDetailAt(d: Truncations, failures: seq<Failure>, first: seq<Detail>, own: seq<Detail>, i: nat) returns (scope: Scope)
    requires d.Valid() && |first| <= i < |first + own| && own == OwnDetails(d.order, failures, d)
    ensures OwnAt(d, failures, (first + own)[i], scope)
  {
    scope := OwnDetailsAre(d.order, failures, d, i - |first|);
    assert (first + own)[i] == own[i - |first|];
  }

  lemma {:induction false} OwnDetailMeans(failures: seq<Failure>, detail: Detail, scope: Scope, notes: seq<Note>, note: Note)
    requires OwnAt(Index(notes), failures, detail, scope)
    ensures detail.code == OutputMalformed && detail.socket.Some? && !Filed(failures, Scope(detail.container, detail.socket.value))
    ensures note in detail.truncations <==> note in notes && note.scope == Scope(detail.container, detail.socket.value)
  {
    IndexAt(notes, scope, note);
    assert Scope(detail.container, detail.socket.value) == scope;
  }

  /** The others are of sockets with texts cut and no failure filed there, one that holds them all. */
  lemma {:induction false} DetailOfTruncations(failures: seq<Failure>, notes: seq<Note>, i: nat, note: Note)
    requires |failures| <= i < |Merged(failures, notes)|
    ensures var d := Merged(failures, notes)[i];
            && d.code == OutputMalformed && d.socket.Some? && !Filed(failures, Scope(d.container, d.socket.value))
            && (note in d.truncations <==> note in notes && note.scope == Scope(d.container, d.socket.value))
  {
    var d := Index(notes);
    var scope := OwnDetailAt(d, failures, FailureDetails(failures, d), OwnDetails(d.order, failures, d), i);
    OwnDetailMeans(failures, Merged(failures, notes)[i], scope, notes, note);
  }
}
