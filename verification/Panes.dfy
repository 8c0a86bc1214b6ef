/** What a pane scan reads and writes, and how tmux's text is made fit for a row. */
module Panes {
  import opened OrderedDicts

  const MAX_TITLE := 2048
  const MAX_COMMAND := 2048
  const MAX_PATH := 4096
  const MAX_DEFAULT := 2048

  /** The composite primary key of a pane row. */
  datatype PaneKey = PaneKey(container: string, socket: string, session: string, window: int, pane: int, id: string)

  datatype Scope = Scope(container: string, socket: string)

  datatype ParsedPane = ParsedPane(
    session: string, window: int, pane: int, id: string, pid: int,
    tty: string, command: string, path: string, title: string, focused: bool)

  datatype Outcome = OkScan(panes: seq<ParsedPane>) | FailedScan(code: string, message: string)

  datatype ContainerMeta = ContainerMeta(name: string, user: string)

  datatype Details = Details(
    name: string, user: string, pid: int, tty: string, command: string, path: string, title: string, focused: bool)

  datatype Upsert = Upsert(key: PaneKey, details: Details, scannedAt: string)

  datatype Field = SessionField | IdField | NameField | UserField | TtyField | CommandField | PathField | TitleField

  datatype Note = Note(scope: Scope, id: string, field: Field, originalLength: nat)

  function ScopeOf(k: PaneKey): Scope {
    Scope(k.container, k.socket)
  }

  // Text

  predicate Control(c: char) {
    c < ' ' || c == '\U{7F}'
  }

  /** Tabs and newlines become spaces, other control characters go. */
  function Cleaned(s: string): string {
    if s == "" then ""
    else
      var last := s[|s| - 1];
      Cleaned(s[..|s| - 1]) + (if last == '\t' || last == '\n' then " " else if Control(last) then "" else [last])
  }

  function Fit(s: string, max: nat): string {
    if |Cleaned(s)| > max then Cleaned(s)[..max] else Cleaned(s)
  }

  lemma {:induction false} NoControls(s: string)
    ensures forall c :: c in Cleaned(s) ==> !Control(c)
  {
    if s != "" {
      NoControls(s[..|s| - 1]);
    }
  }

  lemma {:induction false} CleanedIsClean(s: string)
    requires forall c :: c in s ==> !Control(c)
    ensures Cleaned(s) == s
  {
    if s != "" {
      assert s == s[..|s| - 1] + [s[|s| - 1]];
      CleanedIsClean(s[..|s| - 1]);
    }
  }

  /** What is stored is within its limit, has no control character, and is stored again as it is. */
  lemma {:induction false} FitTwice(s: string, max: nat)
    ensures |Fit(s, max)| <= max && (forall c :: c in Fit(s, max) ==> !Control(c)) && Fit(Fit(s, max), max) == Fit(s, max)
  {
    NoControls(s);
    CleanedIsClean(Fit(s, max));
  }

  method SanitizeText(value: Option<string>, max: nat) returns (cleaned: string, truncated: bool)
    ensures cleaned == if value.None? then "" else Fit(value.value, max)
    ensures truncated <==> value.Some? && |Cleaned(value.value)| > max
  {
    if value.None? {
      return "", false;
    }
    var chars := "";
    for i := 0 to |value.value|
      invariant chars == Cleaned(value.value[..i])
    {
      var ch := value.value[i];
      assert value.value[..i + 1][..i] == value.value[..i];
      if ch == '\U{0}' {
        continue;
      }
      if ch == '\t' || ch == '\n' {
        chars := chars + " ";
        continue;
      }
      if ch < ' ' || ch == '\U{7F}' {
        continue;
      }
      chars := chars + [ch];
    }
    assert value.value[..|value.value|] == value.value;
    truncated := |chars| > max;
    cleaned := if truncated then chars[..max] else chars;
  }

  // Rows from panes

  function KeyFor(scope: Scope, p: ParsedPane): (k: PaneKey)
    ensures ScopeOf(k) == scope
  {
    PaneKey(scope.container, scope.socket, Fit(p.session, MAX_DEFAULT), p.window, p.pane, Fit(p.id, MAX_DEFAULT))
  }

  /** Panes whose ids differ only in a control character share a key. */
  lemma {:induction false} KeysCollide(scope: Scope, p: ParsedPane, c: char)
    requires Control(c) && c != '\t' && c != '\n'
    ensures KeyFor(scope, p.(id := p.id + [c])) == KeyFor(scope, p)
  {
    assert (p.id + [c])[..|p.id|] == p.id;
    assert Cleaned(p.id + [c]) == Cleaned(p.id) + "";
  }

  function UpsertFor(scope: Scope, meta: ContainerMeta, p: ParsedPane, now: string): Upsert {
    Upsert(KeyFor(scope, p),
           Details(Fit(meta.name, MAX_DEFAULT), Fit(meta.user, MAX_DEFAULT), p.pid, Fit(p.tty, MAX_DEFAULT),
                   Fit(p.command, MAX_COMMAND), Fit(p.path, MAX_PATH), Fit(p.title, MAX_TITLE), p.focused),
           now)
  }

  function Limit(f: Field): nat {
    match f
    case CommandField => MAX_COMMAND
    case PathField => MAX_PATH
    case TitleField => MAX_TITLE
    case _ => MAX_DEFAULT
  }

  function Raw(meta: ContainerMeta, p: ParsedPane, f: Field): string {
    match f
    case SessionField => p.session
    case IdField => p.id
    case NameField => meta.name
    case UserField => meta.user
    case TtyField => p.tty
    case CommandField => p.command
    case PathField => p.path
    case TitleField => p.title
  }

  function Stored(u: Upsert, f: Field): string {
    match f
    case SessionField => u.key.session
    case IdField => u.key.id
    case NameField => u.details.name
    case UserField => u.details.user
    case TtyField => u.details.tty
    case CommandField => u.details.command
    case PathField => u.details.path
    case TitleField => u.details.title
  }

  function NoteFor(scope: Scope, id: string, f: Field, value: string, max: nat): seq<Note> {
    if |Cleaned(value)| > max then [Note(scope, id, f, |Cleaned(value)|)] else []
  }

  function NotesFor(scope: Scope, meta: ContainerMeta, p: ParsedPane): seq<Note> {
    NoteFor(scope, p.id, SessionField, p.session, MAX_DEFAULT)
    + NoteFor(scope, p.id, IdField, p.id, MAX_DEFAULT)
    + NoteFor(scope, p.id, NameField, meta.name, MAX_DEFAULT)
    + NoteFor(scope, p.id, UserField, meta.user, MAX_DEFAULT)
    + NoteFor(scope, p.id, TtyField, p.tty, MAX_DEFAULT)
    + NoteFor(scope, p.id, CommandField, p.command, MAX_COMMAND)
    + NoteFor(scope, p.id, PathField, p.path, MAX_PATH)
    + NoteFor(scope, p.id, TitleField, p.title, MAX_TITLE)
  }

  method Clean(scope: Scope, id: string, field: Field, value: string, max: nat)
    returns (cleaned: string, notes: seq<Note>)
    ensures cleaned == Fit(value, max) && notes == NoteFor(scope, id, field, value, max)
  {
    var truncated;
    cleaned, truncated := SanitizeText(Some(value), max);
    notes := if truncated then [Note(scope, id, field, |Cleaned(value)|)] else [];
  }

  method BuildUpsert(scope: Scope, meta: ContainerMeta, p: ParsedPane, now: string)
    returns (upsert: Upsert, notes: seq<Note>)
    ensures upsert == UpsertFor(scope, meta, p, now)
    ensures notes == NotesFor(scope, meta, p)
  {
    var session, notes1 := Clean(scope, p.id, SessionField, p.session, MAX_DEFAULT);
    var id, notes2 := Clean(scope, p.id, IdField, p.id, MAX_DEFAULT);
    var name, notes3 := Clean(scope, p.id, NameField, meta.name, MAX_DEFAULT);
    var user, notes4 := Clean(scope, p.id, UserField, meta.user, MAX_DEFAULT);
    var tty, notes5 := Clean(scope, p.id, TtyField, p.tty, MAX_DEFAULT);
    var command, notes6 := Clean(scope, p.id, CommandField, p.command, MAX_COMMAND);
    var path, notes7 := Clean(scope, p.id, PathField, p.path, MAX_PATH);
    var title, notes8 := Clean(scope, p.id, TitleField, p.title, MAX_TITLE);
    upsert := Upsert(PaneKey(scope.container, scope.socket, session, p.window, p.pane, id),
                     Details(name, user, p.pid, tty, command, path, title, p.focused), now);
    notes := notes1 + notes2 + notes3 + notes4 + notes5 + notes6 + notes7 + notes8;
  }

  /** Every stored field is the cleaned text or, exactly when a note says so, its prefix of the length allowed. */
  lemma {:induction false} NotedIff(scope: Scope, meta: ContainerMeta, p: ParsedPane, now: string, f: Field)
    ensures Stored(UpsertFor(scope, meta, p, now), f) <= Cleaned(Raw(meta, p, f))
    ensures (exists n :: n in NotesFor(scope, meta, p) && n.field == f)
            <==> Stored(UpsertFor(scope, meta, p, now), f) != Cleaned(Raw(meta, p, f))
    ensures forall n :: n in NotesFor(scope, meta, p) && n.field == f ==>
              && n.originalLength > Limit(f) == |Stored(UpsertFor(scope, meta, p, now), f)|
              && n == Note(scope, p.id, f, |Cleaned(Raw(meta, p, f))|)
  {
    var text, note := Cleaned(Raw(meta, p, f)), Note(scope, p.id, f, |Cleaned(Raw(meta, p, f))|);
    forall n | n in NotesFor(scope, meta, p) && n.field == f
      ensures |text| > Limit(f) && n == note
    {
      NotesOfField(scope, meta, p, f, n);
    }
    NotesOfField(scope, meta, p, f, note);
  }

  lemma {:induction false} NotesOfField(scope: Scope, meta: ContainerMeta, p: ParsedPane, f: Field, n: Note)
    requires n.field == f
    ensures n in NotesFor(scope, meta, p) <==> n in NoteFor(scope, p.id, f, Raw(meta, p, f), Limit(f))
  {
    match f
    case SessionField =>
    case IdField =>
    case NameField =>
    case UserField =>
    case TtyField =>
    case CommandField =>
    case PathField =>
    case TitleField =>
  }

  // A whole scan's worth

  /** What the scan of one socket says about its rows. */
  datatype Sighting = Seen(rows: seq<Upsert>, notes: seq<Note>) | NotSeen

  function MetaOf(metadata: map<string, ContainerMeta>, c: string): ContainerMeta {
    if c in metadata then metadata[c] else ContainerMeta("", "")
  }

  function RowsFor(scope: Scope, meta: ContainerMeta, now: string, panes: seq<ParsedPane>): seq<Upsert> {
    if panes == [] then []
    else RowsFor(scope, meta, now, panes[..|panes| - 1]) + [UpsertFor(scope, meta, panes[|panes| - 1], now)]
  }

  function AllNotes(scope: Scope, meta: ContainerMeta, panes: seq<ParsedPane>): seq<Note> {
    if panes == [] then [] else AllNotes(scope, meta, panes[..|panes| - 1]) + NotesFor(scope, meta, panes[|panes| - 1])
  }

  function SightingOf(scope: Scope, metadata: map<string, ContainerMeta>, now: string, outcome: Outcome): Sighting {
    var meta := MetaOf(metadata, scope.container);
    match outcome
    case OkScan(panes) => Seen(RowsFor(scope, meta, now, panes), AllNotes(scope, meta, panes))
    case FailedScan(_, _) => NotSeen
  }

  lemma {:induction false} NotesCarryScope(scope: Scope, meta: ContainerMeta, panes: seq<ParsedPane>, note: Note)
    requires note in AllNotes(scope, meta, panes)
    ensures note.scope == scope
  {
    if note in AllNotes(scope, meta, panes[..|panes| - 1]) {
      NotesCarryScope(scope, meta, panes[..|panes| - 1], note);
    }
  }

  /** The rows of a socket are on that socket, and a key is among them exactly when a pane sanitizes to it. */
  lemma {:induction false} RowsForKeys(scope: Scope, meta: ContainerMeta, now: string, panes: seq<ParsedPane>, k: PaneKey)
    ensures forall u :: u in RowsFor(scope, meta, now, panes) ==> ScopeOf(u.key) == scope
    ensures (exists u :: u in RowsFor(scope, meta, now, panes) && u.key == k) <==>
            (exists p :: p in panes && KeyFor(scope, p) == k)
  {
    if panes != [] {
      var front, last := panes[..|panes| - 1], panes[|panes| - 1];
      RowsForKeys(scope, meta, now, front, k);
      assert panes == front + [last];
      assert UpsertFor(scope, meta, last, now).key == KeyFor(scope, last);
    }
  }

  method SightSocket(scope: Scope, meta: ContainerMeta, now: string, panes: seq<ParsedPane>)
    returns (rows: seq<Upsert>, notes: seq<Note>)
    ensures rows == RowsFor(scope, meta, now, panes) && notes == AllNotes(scope, meta, panes)
  {
    rows, notes := [], [];
    for i := 0 to |panes|
      invariant rows == RowsFor(scope, meta, now, panes[..i]) && notes == AllNotes(scope, meta, panes[..i])
    {
      assert panes[..i + 1][..i] == panes[..i];
      var row, more := BuildUpsert(scope, meta, panes[i], now);
      rows, notes := rows + [row], notes + more;
    }
    assert panes[..|panes|] == panes;
  }

  /** The rows of every scan that succeeded, as `reconcile` builds them. */
  method SightAll(results: OrderedDict<Scope, Outcome>, metadata: map<string, ContainerMeta>, now: string)
    returns (sightings: OrderedDict<Scope, Sighting>)
    requires results.Valid()
    ensures sightings.Valid() && sightings.order == results.order
    ensures forall scope :: scope in results.items ==>
              sightings.items[scope] == SightingOf(scope, metadata, now, results.items[scope])
  {
    var items: map<Scope, Sighting> := map[];
    for i := 0 to |results.order|
      invariant forall scope :: scope in items <==> scope in results.order[..i]
      invariant forall scope :: scope in items ==> items[scope] == SightingOf(scope, metadata, now, results.items[scope])
    {
      var scope := results.order[i];
      assert results.order[..i + 1] == results.order[..i] + [scope];
      var s := NotSeen;
      match results.items[scope] {
        case OkScan(panes) =>
          var rows, notes := SightSocket(scope, MetaOf(metadata, scope.container), now, panes);
          s := Seen(rows, notes);
        case FailedScan(_, _) =>
      }
      items := items[scope := s];
    }
    assert results.order[..|results.order|] == results.order;
    sightings := OrderedDict(results.order, items);
  }
}
