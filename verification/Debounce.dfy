/**
The debounce manager of the event reader: `activity` records of one attachment are collapsed
into windows, every other class passes through one to one.

`Run` gives the manager's whole behaviour over any interleaving of `submit` and
`flush_expired`; `Groups` is the grouping of the record stream it is meant to compute.
*/
module Debounce {
  import opened OrderedDicts

  const ACTIVITY := "activity"
  const ACTIVITY_WINDOW_SECONDS := 5.0
  const EVENT_TYPES := [
    "activity", "waiting_for_input", "completed", "error", "test_failed", "test_passed",
    "manual_review_needed", "long_running", "pane_exited", "swarm_member_reported"]

  /** One classified record, with the clock readings and positions `submit` receives beside it. */
  datatype Record = Record(
    eventType: string, ruleId: string, excerpt: string, observedAt: string, time: real,
    byteStart: int, byteEnd: int, lineStart: int, lineEnd: int)

  datatype PendingEvent = PendingEvent(
    eventType: string, ruleId: string, excerpt: string, observedAt: string,
    byteStart: int, byteEnd: int, lineStart: int, lineEnd: int,
    windowId: Option<string>, collapsedCount: int,
    windowStartedAt: Option<string>, windowEndedAt: Option<string>)

  datatype Window = Window(
    id: string, startedAt: string, startTime: real, firstByteStart: int, firstLineStart: int,
    collapsedCount: int, latestExcerpt: string, latestRuleId: string, latestObservedAt: string,
    latestByteEnd: int, latestLineEnd: int)

  type Key = (string, string)
  type Windows = OrderedDict<Key, Window>

  /** An emitted event with the (attachment, class) it belongs to. */
  datatype Tagged = Tagged(key: Key, event: PendingEvent)
  datatype Outcome = Outcome(windows: Windows, emitted: seq<Tagged>)

  function OneToOne(r: Record): PendingEvent {
    PendingEvent(r.eventType, r.ruleId, r.excerpt, r.observedAt, r.byteStart, r.byteEnd,
                 r.lineStart, r.lineEnd, None, 1, None, None)
  }

  function Opened(r: Record, id: string): Window {
    Window(id, r.observedAt, r.time, r.byteStart, r.lineStart, 1, r.excerpt, r.ruleId,
           r.observedAt, r.byteEnd, r.lineEnd)
  }

  function Collapsed(win: Window, r: Record): Window {
    win.(collapsedCount := win.collapsedCount + 1, latestExcerpt := r.excerpt,
    latestRuleId := r.ruleId, latestObservedAt := r.observedAt,
    latestByteEnd := r.byteEnd, latestLineEnd := r.lineEnd)
  }

  function Closed(key: Key, win: Window, endedAt: string): PendingEvent {
    PendingEvent(key.1, win.latestRuleId, win.latestExcerpt, win.latestObservedAt,
                 win.firstByteStart, win.latestByteEnd, win.firstLineStart, win.latestLineEnd,
                 Some(win.id), win.collapsedCount, Some(win.startedAt), Some(endedAt))
  }

  predicate Expired(span: real, win: Window, now: real) {
    now - win.startTime >= span
  }

  function SubmitStep(span: real, ws: Windows, attachment: string, r: Record, newId: string): (o: Outcome)
    ensures ws.Valid() ==> o.windows.Valid()
  {
    var key := (attachment, r.eventType);
    if r.eventType != ACTIVITY then Outcome(ws, [Tagged(key, OneToOne(r))])
    else if key !in ws.items then Outcome(ws.Put(key, Opened(r, newId)), [])
    else if Expired(span, ws.items[key], r.time) then
      Outcome(ws.Delete(key).Put(key, Opened(r, newId)),
              [Tagged(key, Closed(key, ws.items[key], r.observedAt))])
    else Outcome(ws.Put(key, Collapsed(ws.items[key], r)), [])
  }

  predicate InScope(key: Key, scope: Option<string>) {
    scope == None || scope == Some(key.0)
  }

  /** Closing the due windows among `keys`, a prefix of the dictionary's key list. */
  function FlushStep(span: real, ws: Windows, keys: seq<Key>, now: real, endedAt: string, scope: Option<string>): (o: Outcome)
    requires forall k :: k in keys ==> k in ws.items
    ensures ws.Valid() ==> o.windows.Valid()
    ensures forall k :: k in o.windows.items <==>
                        k in ws.items && !(k in keys && InScope(k, scope) && Expired(span, ws.items[k], now))
    ensures forall k :: k in o.windows.items ==> o.windows.items[k] == ws.items[k]
  {
    if keys == [] then Outcome(ws, [])
    else
      var front, k := keys[..|keys| - 1], keys[|keys| - 1];
      assert keys == front + [k];
      var o := FlushStep(span, ws, front, now, endedAt, scope);
      if InScope(k, scope) && Expired(span, ws.items[k], now) then
        Outcome(o.windows.Delete(k), o.emitted + [Tagged(k, Closed(k, ws.items[k], endedAt))])
      else o
  }

  function Events(ts: seq<Tagged>): seq<PendingEvent> {
    if ts == [] then [] else Events(ts[..|ts| - 1]) + [ts[|ts| - 1].event]
  }

  /** One more key: its window is still the one the flush started with, and is closed when due. */
  lemma {:induction false} FlushNext(span: real, ws: Windows, i: nat, now: real, endedAt: string, scope: Option<string>)
    requires ws.Valid() && i < |ws.order|
    ensures var k, before := ws.order[i], FlushStep(span, ws, ws.order[..i], now, endedAt, scope);
            && OpenFor(before.windows, k) == Some(ws.items[k])
            && FlushStep(span, ws, ws.order[..i + 1], now, endedAt, scope) ==
               if InScope(k, scope) && Expired(span, ws.items[k], now)
               then Outcome(before.windows.Delete(k), before.emitted + [Tagged(k, Closed(k, ws.items[k], endedAt))])
               else before
  {
    assert ws.order[..i + 1][..i] == ws.order[..i];
    assert ws.order[i] !in ws.order[..i];
  }

  class DebounceManager {
    const windowSeconds: real
    var windows: Windows

    constructor (seconds: real := ACTIVITY_WINDOW_SECONDS)
      ensures windowSeconds == seconds && windows == EmptyDict()
    {
      windowSeconds := seconds;
      windows := EmptyDict();
    }

    method Submit(attachment: string, r: Record, newId: string) returns (emitted: seq<PendingEvent>)
      requires windows.Valid()
      modifies this`windows
      ensures windows.Valid()
      ensures windows == SubmitStep(windowSeconds, old(windows), attachment, r, newId).windows
      ensures emitted == Events(SubmitStep(windowSeconds, old(windows), attachment, r, newId).emitted)
    {
      if r.eventType != ACTIVITY {
        return [OneToOne(r)];
      }
      var key := (attachment, r.eventType);
      emitted := [];
      var known := key in windows.items;
      if known {
        var window := windows.items[key];
        if r.time - window.startTime >= windowSeconds {
          var event := CloseWindow(key, window, r.observedAt);
          emitted := emitted + [event];
        }
      }
      if !known || emitted != [] {
        windows := windows.Put(key, Opened(r, newId));
        return;
      }
      windows := windows.Put(key, Collapsed(windows.items[key], r));
    }

    method FlushExpired(now: real, observedAt: string, scope: Option<string>) returns (emitted: seq<PendingEvent>)
      requires windows.Valid()
      modifies this`windows
      ensures windows.Valid()
      ensures windows == FlushStep(windowSeconds, old(windows), old(windows).order, now, observedAt, scope).windows
      ensures emitted == Events(FlushStep(windowSeconds, old(windows), old(windows).order, now, observedAt, scope).emitted)
    {
      emitted := [];
      var keys := windows.order;
      for i := 0 to |keys|
        invariant keys == old(windows).order
        invariant windows == FlushStep(windowSeconds, old(windows), keys[..i], now, observedAt, scope).windows
        invariant emitted == Events(FlushStep(windowSeconds, old(windows), keys[..i], now, observedAt, scope).emitted)
      {
        var key := keys[i];
        FlushNext(windowSeconds, old(windows), i, now, observedAt, scope);
        if scope != None && key.0 != scope.value {
          continue;
        }
        var window := windows.items[key];
        if now - window.startTime >= windowSeconds {
          var event := CloseWindow(key, window, observedAt);
          emitted := emitted + [event];
          ghost var done := FlushStep(windowSeconds, old(windows), keys[..i], now, observedAt, scope).emitted;
          assert (done + [Tagged(key, event)])[..|done|] == done;
        }
      }
      assert keys[..|keys|] == keys;
    }

    method Reset()
      modifies this`windows
      ensures windows == EmptyDict()
    {
      windows := EmptyDict();
    }

    method CloseWindow(key: Key, window: Window, endedAt: string) returns (event: PendingEvent)
      requires key in windows.items
      modifies this`windows
      ensures windows == old(windows).Delete(key) && event == Closed(key, window, endedAt)
      ensures event.eventType == key.1 && event.windowEndedAt == Some(endedAt)
      ensures event.ruleId == window.latestRuleId && event.excerpt == window.latestExcerpt && event.observedAt == window.latestObservedAt
      ensures event.byteStart == window.firstByteStart && event.byteEnd == window.latestByteEnd
      ensures event.lineStart == window.firstLineStart && event.lineEnd == window.latestLineEnd
      ensures event.windowId == Some(window.id) && event.windowStartedAt == Some(window.startedAt) && event.collapsedCount == window.collapsedCount
    {
      event := Closed(key, window, endedAt);
      windows := windows.Delete(key);
    }
  }

  // Whole runs

  datatype Op =
    | Submit(attachment: string, record: Record, newId: string)
    | Flush(now: real, observedAt: string, scope: Option<string>)
  {
    function Time(): real {
      if Submit? then record.time else now
    }
  }

  function Step(span: real, ws: Windows, op: Op): (o: Outcome)
    requires ws.Valid()
    ensures o.windows.Valid()
  {
    match op
    case Submit(a, r, id) => SubmitStep(span, ws, a, r, id)
    case Flush(now, observedAt, scope) => FlushStep(span, ws, ws.order, now, observedAt, scope)
  }

  /** Windows left open and events emitted by a run that starts from an empty manager. */
  function Run(span: real, ops: seq<Op>): (o: Outcome)
    ensures o.windows.Valid()
  {
    if ops == [] then Outcome(EmptyDict(), [])
    else
      var before := Run(span, ops[..|ops| - 1]);
      var now := Step(span, before.windows, ops[|ops| - 1]);
      Outcome(now.windows, before.emitted + now.emitted)
  }

  function EventsFor(ts: seq<Tagged>, key: Key): seq<PendingEvent> {
    if ts == [] then []
    else
      EventsFor(ts[..|ts| - 1], key) + (if ts[|ts| - 1].key == key then [ts[|ts| - 1].event] else [])
  }

  function OpenFor(ws: Windows, key: Key): Option<Window> {
    if key in ws.items then Some(ws.items[key]) else None
  }

  // What a run means: the greedy grouping of one attachment's activity records

  /** How many leading records fall less than `span` after `start`. */
  function Within(span: real, start: real, rs: seq<Record>): (n: nat)
    ensures n <= |rs|
  {
    if rs == [] || rs[0].time - start >= span then 0 else 1 + Within(span, start, rs[1..])
  }

  predicate NonEmpty(gs: seq<seq<Record>>) {
    forall i :: 0 <= i < |gs| ==> gs[i] != []
  }

  function Groups(span: real, rs: seq<Record>): (gs: seq<seq<Record>>)
    ensures NonEmpty(gs) && (rs != [] ==> gs != [])
  {
    if rs == [] then []
    else
      var n := 1 + Within(span, rs[0].time, rs[1..]);
      [rs[..n]] + Groups(span, rs[n..])
  }

  /** The part of an activity event that is decided by its records alone. */
  datatype Summary = Summary(
    ruleId: string, excerpt: string, observedAt: string, byteStart: int, byteEnd: int,
    lineStart: int, lineEnd: int, collapsedCount: int, startedAt: string)

  function GroupSummary(g: seq<Record>): Summary
    requires g != []
  {
    var first, last := g[0], g[|g| - 1];
    Summary(last.ruleId, last.excerpt, last.observedAt, first.byteStart, last.byteEnd,
            first.lineStart, last.lineEnd, |g|, first.observedAt)
  }

  function WindowSummary(win: Window): Summary {
    Summary(win.latestRuleId, win.latestExcerpt, win.latestObservedAt, win.firstByteStart,
            win.latestByteEnd, win.firstLineStart, win.latestLineEnd, win.collapsedCount, win.startedAt)
  }

  function EventSummary(e: PendingEvent): Summary {
    Summary(e.ruleId, e.excerpt, e.observedAt, e.byteStart, e.byteEnd, e.lineStart, e.lineEnd,
            e.collapsedCount, if e.windowStartedAt.Some? then e.windowStartedAt.value else "")
  }

  /** Group by group: the closed groups are the emitted events, an open window is the last group. */
  ghost predicate Realises(emitted: seq<PendingEvent>, open: Option<Window>, gs: seq<seq<Record>>)
    requires NonEmpty(gs)
  {
    && |gs| == |emitted| + (if open.Some? then 1 else 0)
    && (forall i :: 0 <= i < |emitted| ==> EventSummary(emitted[i]) == GroupSummary(gs[i]))
    && (open.Some? ==> WindowSummary(open.value) == GroupSummary(gs[|emitted|]))
  }

  /** The activity records of one attachment, in the order they were submitted. */
  function ActivityOf(ops: seq<Op>, a: string): seq<Record> {
    if ops == [] then []
    else
      ActivityOf(ops[..|ops| - 1], a) + OwnRecord(ops[|ops| - 1], a)
  }

  function OwnRecord(op: Op, a: string): seq<Record> {
    if op.Submit? && op.attachment == a && op.record.eventType == ACTIVITY then [op.record] else []
  }

  ghost predicate ClockNonDecreasing(ops: seq<Op>) {
    forall i, j :: 0 <= i <= j < |ops| ==> ops[i].Time() <= ops[j].Time()
  }

  // One attachment on its own

  datatype View = View(open: Option<Window>, emitted: seq<PendingEvent>)

  /** What one operation does to the activity window of attachment `a`. */
  function ViewStep(span: real, open: Option<Window>, op: Op, a: string): View {
    match op
    case Submit(b, r, id) =>
      if b != a || r.eventType != ACTIVITY then View(open, [])
      else if open.None? then View(Some(Opened(r, id)), [])
      else if Expired(span, open.value, r.time) then
        View(Some(Opened(r, id)), [Closed((a, ACTIVITY), open.value, r.observedAt)])
      else View(Some(Collapsed(open.value, r)), [])
    case Flush(now, observedAt, scope) =>
      if open.Some? && InScope((a, ACTIVITY), scope) && Expired(span, open.value, now)
      then View(None, [Closed((a, ACTIVITY), open.value, observedAt)])
      else View(open, [])
  }

  function ViewRun(span: real, ops: seq<Op>, a: string): View {
    if ops == [] then View(None, [])
    else
      var before := ViewRun(span, ops[..|ops| - 1], a);
      var now := ViewStep(span, before.open, ops[|ops| - 1], a);
      View(now.open, before.emitted + now.emitted)
  }

  lemma {:induction false} EventsForConcat(s: seq<Tagged>, t: seq<Tagged>, key: Key)
    ensures EventsFor(s + t, key) == EventsFor(s, key) + EventsFor(t, key)
  {
    if t == [] {
      assert s + t == s;
    } else {
      assert (s + t)[..|s + t| - 1] == s + t[..|t| - 1];
      EventsForConcat(s, t[..|t| - 1], key);
    }
  }

  lemma {:induction false} FlushAt(span: real, ws: Windows, keys: seq<Key>, now: real, endedAt: string, scope: Option<string>, key: Key)
    requires Distinct(keys) && forall k :: k in keys ==> k in ws.items
    ensures EventsFor(FlushStep(span, ws, keys, now, endedAt, scope).emitted, key) ==
            if key in keys && InScope(key, scope) && Expired(span, ws.items[key], now)
            then [Closed(key, ws.items[key], endedAt)] else []
  {
    if keys != [] {
      var front, k := keys[..|keys| - 1], keys[|keys| - 1];
      assert keys == front + [k];
      FlushAt(span, ws, front, now, endedAt, scope, key);
      EventsForConcat(FlushStep(span, ws, front, now, endedAt, scope).emitted,
                      [Tagged(k, Closed(k, ws.items[k], endedAt))], key);
    }
  }

  lemma {:induction false} StepAt(span: real, ws: Windows, op: Op, a: string)
    requires ws.Valid()
    ensures var key := (a, ACTIVITY);
            var v := ViewStep(span, OpenFor(ws, key), op, a);
            OpenFor(Step(span, ws, op).windows, key) == v.open && EventsFor(Step(span, ws, op).emitted, key) == v.emitted
  {
    if op.Flush? {
      FlushAt(span, ws, ws.order, op.now, op.observedAt, op.scope, (a, ACTIVITY));
    }
  }

  lemma {:induction false} RunAt(span: real, ops: seq<Op>, a: string)
    ensures OpenFor(Run(span, ops).windows, (a, ACTIVITY)) == ViewRun(span, ops, a).open
    ensures EventsFor(Run(span, ops).emitted, (a, ACTIVITY)) == ViewRun(span, ops, a).emitted
  {
    if ops != [] {
      var front := ops[..|ops| - 1];
      RunAt(span, front, a);
      StepAt(span, Run(span, front).windows, ops[|ops| - 1], a);
      EventsForConcat(Run(span, front).emitted, Step(span, Run(span, front).windows, ops[|ops| - 1]).emitted, (a, ACTIVITY));
    }
  }

  /** The operations an attachment takes part in: its own submits and the flushes that cover it. */
  function OnlyFor(ops: seq<Op>, a: string): seq<Op> {
    if ops == [] then []
    else
      var op := ops[|ops| - 1];
      OnlyFor(ops[..|ops| - 1], a) + (if TakesPart(op, a) then [op] else [])
  }

  predicate TakesPart(op: Op, a: string) {
    if op.Submit? then op.attachment == a else op.scope == None || op.scope == Some(a)
  }

  lemma {:induction false} ViewOfOwnOps(span: real, ops: seq<Op>, a: string)
    ensures ViewRun(span, ops, a) == ViewRun(span, OnlyFor(ops, a), a)
  {
    if ops != [] {
      var own := OnlyFor(ops[..|ops| - 1], a);
      ViewOfOwnOps(span, ops[..|ops| - 1], a);
      var op := ops[|ops| - 1];
      assert (own + [op])[..|own|] == own;
      assert own + [] == own;
    }
  }

  // The grouping theorem

  lemma {:induction false} WithinSnoc(span: real, start: real, rs: seq<Record>, r: Record)
    ensures Within(span, start, rs + [r]) ==
            if Within(span, start, rs) < |rs| then Within(span, start, rs)
            else if r.time - start >= span then |rs| else |rs| + 1
  {
    if rs == [] {
      assert rs + [r] == [r];
      assert [r][1..] == [];
    } else {
      assert (rs + [r])[1..] == rs[1..] + [r];
      WithinSnoc(span, start, rs[1..], r);
    }
  }

  /** The length of the first group. */
  function FirstGroup(span: real, rs: seq<Record>): (n: nat)
    requires rs != []
    ensures 1 <= n <= |rs|
  {
    1 + Within(span, rs[0].time, rs[1..])
  }

  lemma {:induction false} FirstGroupSnoc(span: real, rs: seq<Record>, r: Record)
    requires rs != []
    ensures FirstGroup(span, rs + [r]) ==
            if FirstGroup(span, rs) < |rs| then FirstGroup(span, rs)
            else if r.time - rs[0].time >= span then |rs| else |rs| + 1
  {
    assert (rs + [r])[1..] == rs[1..] + [r];
    WithinSnoc(span, rs[0].time, rs[1..], r);
  }

  lemma {:induction false} GroupsFrom(span: real, rs: seq<Record>, n: nat)
    requires rs != [] && n == FirstGroup(span, rs)
    ensures Groups(span, rs) == [rs[..n]] + Groups(span, rs[n..])
  {
  }

  lemma {:induction false} OneGroup(span: real, rs: seq<Record>)
    requires rs != [] && FirstGroup(span, rs) == |rs|
    ensures Groups(span, rs) == [rs]
  {
    GroupsFrom(span, rs, |rs|);
    assert rs[..|rs|] == rs && rs[|rs|..] == [] && Groups(span, []) == [];
  }

  /** One more record either joins the last group or starts its own. */
  lemma {:induction false} GroupsSnoc(span: real, rs: seq<Record>, r: Record)
    ensures Groups(span, rs + [r]) == AddRecord(span, Groups(span, rs), r)
    decreases |rs|
  {
    if rs == [] {
      assert rs + [r] == [r];
      OneGroup(span, [r]);
    } else if FirstGroup(span, rs) < |rs| {
      GroupsSnoc(span, rs[FirstGroup(span, rs)..], r);
      LaterGroupSnoc(span, rs, r, FirstGroup(span, rs));
    } else {
      OneGroupSnoc(span, rs, r);
    }
  }

  lemma {:induction false} LaterGroupSnoc(span: real, rs: seq<Record>, r: Record, n: nat)
    requires rs != [] && n == FirstGroup(span, rs) < |rs|
    requires Groups(span, rs[n..] + [r]) == AddRecord(span, Groups(span, rs[n..]), r)
    ensures Groups(span, rs + [r]) == AddRecord(span, Groups(span, rs), r)
  {
    FirstGroupSnoc(span, rs, r);
    GroupsFrom(span, rs, n);
    GroupsFrom(span, rs + [r], n);
    assert (rs + [r])[..n] == rs[..n] && (rs + [r])[n..] == rs[n..] + [r];
    AddRecordToTail(span, rs[..n], Groups(span, rs[n..]), r);
  }

  function AddRecord(span: real, gs: seq<seq<Record>>, r: Record): (gs': seq<seq<Record>>)
    requires NonEmpty(gs)
    ensures NonEmpty(gs')
  {
    if gs == [] || r.time - gs[|gs| - 1][0].time >= span then gs + [[r]]
    else gs[..|gs| - 1] + [gs[|gs| - 1] + [r]]
  }

  lemma {:induction false} AddRecordToTail(span: real, g: seq<Record>, gs: seq<seq<Record>>, r: Record)
    requires NonEmpty([g] + gs) && gs != []
    ensures NonEmpty(gs) && AddRecord(span, [g] + gs, r) == [g] + AddRecord(span, gs, r)
  {
    assert forall i :: 0 <= i < |gs| ==> gs[i] == ([g] + gs)[i + 1];
  }

  lemma {:induction false} OneGroupSnoc(span: real, rs: seq<Record>, r: Record)
    requires rs != [] && FirstGroup(span, rs) == |rs|
    ensures Groups(span, rs + [r]) == AddRecord(span, Groups(span, rs), r)
  {
    FirstGroupSnoc(span, rs, r);
    OneGroup(span, rs);
    if r.time - rs[0].time >= span {
      GroupsFrom(span, rs + [r], |rs|);
      assert (rs + [r])[..|rs|] == rs && (rs + [r])[|rs|..] == [r];
      OneGroup(span, [r]);
    } else {
      OneGroup(span, rs + [r]);
    }
  }

  /** `Realises`, with what is known of the clock when no window is open. */
  ghost predicate Tracks(span: real, v: View, gs: seq<seq<Record>>, clock: Option<real>)
    requires NonEmpty(gs)
  {
    && Realises(v.emitted, v.open, gs)
    && (v.open.Some? ==> v.open.value.startTime == gs[|gs| - 1][0].time)
    && (v.open.None? && gs != [] ==> clock.Some? && clock.value - gs[|gs| - 1][0].time >= span)
  }

  function Clock(ops: seq<Op>): Option<real> {
    if ops == [] then None else Some(ops[|ops| - 1].Time())
  }

  lemma {:induction false} RunTracks(span: real, ops: seq<Op>, a: string)
    requires ClockNonDecreasing(ops)
    ensures Tracks(span, ViewRun(span, ops, a), Groups(span, ActivityOf(ops, a)), Clock(ops))
  {
    if ops != [] {
      var front, op := ops[..|ops| - 1], ops[|ops| - 1];
      RunTracks(span, front, a);
      var v, rs := ViewRun(span, front, a), ActivityOf(front, a);
      if OwnRecord(op, a) == [] {
        assert ActivityOf(ops, a) == rs;
        FlushTracks(span, v, Groups(span, rs), Clock(front), op, a);
      } else {
        GroupsSnoc(span, rs, op.record);
        SubmitTracks(span, v, Groups(span, rs), Clock(front), op, a);
      }
    }
  }

  lemma {:induction false} FlushTracks(span: real, v: View, gs: seq<seq<Record>>, clock: Option<real>, op: Op, a: string)
    requires NonEmpty(gs) && Tracks(span, v, gs, clock) && (clock.Some? ==> clock.value <= op.Time())
    requires OwnRecord(op, a) == []
    ensures var now := ViewStep(span, v.open, op, a);
            Tracks(span, View(now.open, v.emitted + now.emitted), gs, Some(op.Time()))
  {
  }

  lemma {:induction false} SubmitTracks(span: real, v: View, gs: seq<seq<Record>>, clock: Option<real>, op: Op, a: string)
    requires NonEmpty(gs) && Tracks(span, v, gs, clock) && (clock.Some? ==> clock.value <= op.Time())
    requires OwnRecord(op, a) != []
    ensures var now := ViewStep(span, v.open, op, a);
            Tracks(span, View(now.open, v.emitted + now.emitted), AddRecord(span, gs, op.record), Some(op.Time()))
  {
    var r := op.record;
    if v.open.Some? && !Expired(span, v.open.value, r.time) {
      var g := gs[|gs| - 1];
      assert AddRecord(span, gs, r) == gs[..|gs| - 1] + [g + [r]];
      assert GroupSummary(g + [r]) == WindowSummary(Collapsed(v.open.value, r));
    } else {
      assert AddRecord(span, gs, r) == gs + [[r]];
      assert GroupSummary([r]) == WindowSummary(Opened(r, op.newId));
    }
  }

  /** For a non-decreasing clock the events of an attachment, with its open window, are its record stream grouped greedily. */
  lemma {:induction false} RunIsGreedyGrouping(span: real, ops: seq<Op>, a: string)
    requires ClockNonDecreasing(ops)
    ensures var o, key := Run(span, ops), (a, ACTIVITY);
            Realises(EventsFor(o.emitted, key), OpenFor(o.windows, key), Groups(span, ActivityOf(ops, a)))
  {
    RunAt(span, ops, a);
    RunTracks(span, ops, a);
  }

  /** Two runs with the same submits, however their flushes differ, realise the same groups. */
  lemma {:induction false} FlushesDoNotRegroup(span: real, ops: seq<Op>, ops': seq<Op>, a: string)
    requires ClockNonDecreasing(ops) && ClockNonDecreasing(ops')
    requires Submits(ops) == Submits(ops')
    ensures var o, o', key, gs := Run(span, ops), Run(span, ops'), (a, ACTIVITY), Groups(span, ActivityOf(ops, a));
            && Realises(EventsFor(o.emitted, key), OpenFor(o.windows, key), gs)
            && Realises(EventsFor(o'.emitted, key), OpenFor(o'.windows, key), gs)
  {
    RunIsGreedyGrouping(span, ops, a);
    RunIsGreedyGrouping(span, ops', a);
    ActivityOfSubmits(ops, a);
    ActivityOfSubmits(ops', a);
  }

  function Submits(ops: seq<Op>): seq<Op> {
    if ops == [] then []
    else Submits(ops[..|ops| - 1]) + (if ops[|ops| - 1].Submit? then [ops[|ops| - 1]] else [])
  }

  lemma {:induction false} ActivityOfSubmits(ops: seq<Op>, a: string)
    ensures ActivityOf(ops, a) == ActivityOf(Submits(ops), a)
  {
    if ops != [] {
      var s := Submits(ops[..|ops| - 1]);
      ActivityOfSubmits(ops[..|ops| - 1], a);
      assert (s + [ops[|ops| - 1]])[..|s|] == s;
      assert s + [] == s;
    }
  }

  // Conservation: no record is lost or counted twice

  function CountSum(ts: seq<Tagged>): int {
    if ts == [] then 0 else CountSum(ts[..|ts| - 1]) + ts[|ts| - 1].event.collapsedCount
  }

  function OpenSum(order: seq<Key>, items: map<Key, Window>): int
    requires forall k :: k in order ==> k in items
  {
    if order == [] then 0
    else OpenSum(order[..|order| - 1], items) + items[order[|order| - 1]].collapsedCount
  }

  function SubmitCount(ops: seq<Op>): int {
    if ops == [] then 0 else SubmitCount(ops[..|ops| - 1]) + (if ops[|ops| - 1].Submit? then 1 else 0)
  }

  lemma {:induction false} CountSumConcat(s: seq<Tagged>, t: seq<Tagged>)
    ensures CountSum(s + t) == CountSum(s) + CountSum(t)
  {
    if t == [] {
      assert s + t == s;
    } else {
      assert (s + t)[..|s + t| - 1] == s + t[..|t| - 1];
      CountSumConcat(s, t[..|t| - 1]);
    }
  }

  lemma {:induction false} OpenSumFrame(order: seq<Key>, items: map<Key, Window>, items': map<Key, Window>)
    requires forall k :: k in order ==> k in items && k in items' && items[k] == items'[k]
    ensures OpenSum(order, items) == OpenSum(order, items')
  {
    if order != [] {
      OpenSumFrame(order[..|order| - 1], items, items');
    }
  }

  /** Replacing one key's window changes the sum by the difference of the counts. */
  lemma {:induction false} OpenSumUpdate(order: seq<Key>, items: map<Key, Window>, k: Key, win: Window)
    requires Distinct(order) && k in order && forall x :: x in order ==> x in items
    ensures OpenSum(order, items[k := win]) == OpenSum(order, items) - items[k].collapsedCount + win.collapsedCount
  {
    var front, last := order[..|order| - 1], order[|order| - 1];
    assert order == front + [last];
    if last == k {
      OpenSumFrame(front, items, items[k := win]);
    } else {
      OpenSumUpdate(front, items, k, win);
    }
  }

  lemma {:induction false} OpenSumWithout(order: seq<Key>, items: map<Key, Window>, k: Key)
    requires Distinct(order) && k in order && forall x :: x in order ==> x in items
    ensures OpenSum(Without(order, k), items - {k}) == OpenSum(order, items) - items[k].collapsedCount
  {
    var front, last := order[..|order| - 1], order[|order| - 1];
    assert order == front + [last];
    if last == k {
      WithoutAbsent(front, k);
      assert Without(order, k) == front;
      OpenSumFrame(front, items, items - {k});
    } else {
      OpenSumWithout(front, items, k);
      assert (Without(front, k) + [last])[..|Without(front, k)|] == Without(front, k);
    }
  }

  lemma {:induction false} OpenSumPutNew(order: seq<Key>, items: map<Key, Window>, k: Key, win: Window)
    requires k !in order && forall x :: x in order ==> x in items
    ensures OpenSum(order + [k], items[k := win]) == OpenSum(order, items) + win.collapsedCount
  {
    var order' := order + [k];
    assert order'[..|order'| - 1] == order && order'[|order'| - 1] == k;
    OpenSumFrame(order, items, items[k := win]);
  }

  function OpenTotal(ws: Windows): int
    requires ws.Valid()
  {
    OpenSum(ws.order, ws.items)
  }

  function Total(o: Outcome): int
    requires o.windows.Valid()
  {
    CountSum(o.emitted) + OpenTotal(o.windows)
  }

  lemma {:induction false} PutNewTotal(ws: Windows, k: Key, win: Window)
    requires ws.Valid() && k !in ws.items
    ensures OpenTotal(ws.Put(k, win)) == OpenTotal(ws) + win.collapsedCount
  {
    OpenSumPutNew(ws.order, ws.items, k, win);
  }

  lemma {:induction false} PutOldTotal(ws: Windows, k: Key, win: Window)
    requires ws.Valid() && k in ws.items
    ensures OpenTotal(ws.Put(k, win)) == OpenTotal(ws) - ws.items[k].collapsedCount + win.collapsedCount
  {
    OpenSumUpdate(ws.order, ws.items, k, win);
  }

  lemma {:induction false} DeleteTotal(ws: Windows, k: Key)
    requires ws.Valid() && k in ws.items
    ensures OpenTotal(ws.Delete(k)) == OpenTotal(ws) - ws.items[k].collapsedCount
  {
    OpenSumWithout(ws.order, ws.items, k);
  }

  lemma {:induction false} CountOne(t: Tagged)
    ensures CountSum([t]) == t.event.collapsedCount
  {
    assert [t][..0] == [];
  }

  lemma {:induction false} FlushConserves(span: real, ws: Windows, i: nat, now: real, endedAt: string, scope: Option<string>)
    requires ws.Valid() && i <= |ws.order|
    ensures Total(FlushStep(span, ws, ws.order[..i], now, endedAt, scope)) == OpenTotal(ws)
  {
    if i > 0 {
      assert ws.order[..i] == ws.order[..(i - 1) + 1];
      FlushConserves(span, ws, i - 1, now, endedAt, scope);
      FlushOneConserves(span, ws, i - 1, now, endedAt, scope);
    } else {
      assert ws.order[..i] == [];
    }
  }

  /** Closing a window moves its count from the open windows to the events. */
  lemma {:induction false} FlushOneConserves(span: real, ws: Windows, i: nat, now: real, endedAt: string, scope: Option<string>)
    requires ws.Valid() && i < |ws.order|
    ensures Total(FlushStep(span, ws, ws.order[..i + 1], now, endedAt, scope)) == Total(FlushStep(span, ws, ws.order[..i], now, endedAt, scope))
  {
    FlushNext(span, ws, i, now, endedAt, scope);
    var k, o := ws.order[i], FlushStep(span, ws, ws.order[..i], now, endedAt, scope);
    var t := Tagged(k, Closed(k, ws.items[k], endedAt));
    DeleteTotal(o.windows, k);
    CountSumConcat(o.emitted, [t]);
    CountOne(t);
  }

  lemma {:induction false} SubmitConserves(span: real, ws: Windows, a: string, r: Record, id: string)
    requires ws.Valid()
    ensures Total(SubmitStep(span, ws, a, r, id)) == OpenTotal(ws) + 1
  {
    var key := (a, r.eventType);
    if r.eventType != ACTIVITY {
      CountOne(Tagged(key, OneToOne(r)));
    } else if key !in ws.items {
      PutNewTotal(ws, key, Opened(r, id));
    } else if Expired(span, ws.items[key], r.time) {
      DeleteTotal(ws, key);
      PutNewTotal(ws.Delete(key), key, Opened(r, id));
      CountOne(Tagged(key, Closed(key, ws.items[key], r.observedAt)));
    } else {
      PutOldTotal(ws, key, Collapsed(ws.items[key], r));
    }
  }

  lemma {:induction false} StepConserves(span: real, ws: Windows, op: Op)
    requires ws.Valid()
    ensures Total(Step(span, ws, op)) == OpenTotal(ws) + (if op.Submit? then 1 else 0)
  {
    if op.Flush? {
      assert ws.order[..|ws.order|] == ws.order;
      FlushConserves(span, ws, |ws.order|, op.now, op.observedAt, op.scope);
    } else {
      SubmitConserves(span, ws, op.attachment, op.record, op.newId);
    }
  }

  /** Records submitted = records counted in emitted events + records counted in open windows. */
  lemma {:induction false} RecordsConserved(span: real, ops: seq<Op>)
    ensures var o := Run(span, ops);
            SubmitCount(ops) == CountSum(o.emitted) + OpenSum(o.windows.order, o.windows.items)
  {
    if ops != [] {
      var before := Run(span, ops[..|ops| - 1]);
      RecordsConserved(span, ops[..|ops| - 1]);
      StepConserves(span, before.windows, ops[|ops| - 1]);
      CountSumConcat(before.emitted, Step(span, before.windows, ops[|ops| - 1]).emitted);
    }
  }

  // The nine other classes

  function PassThrough(ops: seq<Op>, key: Key): seq<PendingEvent> {
    if ops == [] then []
    else
      var op := ops[|ops| - 1];
      PassThrough(ops[..|ops| - 1], key) +
      (if op.Submit? && (op.attachment, op.record.eventType) == key then [OneToOne(op.record)] else [])
  }

  ghost predicate OnlyActivity(ws: Windows) {
    forall k :: k in ws.items ==> k.1 == ACTIVITY
  }

  lemma {:induction false} StepPassesThrough(span: real, ws: Windows, op: Op, key: Key)
    requires ws.Valid() && OnlyActivity(ws) && key.1 != ACTIVITY
    ensures OnlyActivity(Step(span, ws, op).windows)
    ensures EventsFor(Step(span, ws, op).emitted, key) ==
            if op.Submit? && (op.attachment, op.record.eventType) == key then [OneToOne(op.record)] else []
  {
    if op.Flush? {
      FlushAt(span, ws, ws.order, op.now, op.observedAt, op.scope, key);
    }
  }

  /** The records submitted for an attachment in a class. */
  function RecordsFor(ops: seq<Op>, key: Key): seq<Record> {
    if ops == [] then []
    else
      var op := ops[|ops| - 1];
      RecordsFor(ops[..|ops| - 1], key) + (if op.Submit? && op.attachment == key.0 && op.record.eventType == key.1 then [op.record] else [])
  }

  /** An event that reports one record as it is. */
  predicate Reports(e: PendingEvent, r: Record) {
    && e.eventType == r.eventType && e.ruleId == r.ruleId && e.excerpt == r.excerpt && e.observedAt == r.observedAt
    && e.byteStart == r.byteStart && e.byteEnd == r.byteEnd && e.lineStart == r.lineStart && e.lineEnd == r.lineEnd
    && e.collapsedCount == 1 && e.windowId.None? && e.windowStartedAt.None? && e.windowEndedAt.None?
  }

  /** A class other than activity is emitted record for record, in order, with the record's own fields, and never opens a window. */
  lemma {:induction false} OtherClassesPassThrough(span: real, ops: seq<Op>, key: Key)
    requires key.1 != ACTIVITY
    ensures OnlyActivity(Run(span, ops).windows)
    ensures EventsFor(Run(span, ops).emitted, key) == PassThrough(ops, key)
    ensures var es, rs := EventsFor(Run(span, ops).emitted, key), RecordsFor(ops, key);
            |es| == |rs| && forall i :: 0 <= i < |rs| ==> Reports(es[i], rs[i])
  {
    if ops != [] {
      var before := Run(span, ops[..|ops| - 1]);
      OtherClassesPassThrough(span, ops[..|ops| - 1], key);
      StepPassesThrough(span, before.windows, ops[|ops| - 1], key);
      EventsForConcat(before.emitted, Step(span, before.windows, ops[|ops| - 1]).emitted, key);
    }
  }

  // Attachments on their own

  /** Everything emitted for an attachment, whatever the class, in the order it was emitted. */
  function Output(ts: seq<Tagged>, a: string): seq<Tagged> {
    if ts == [] then [] else Output(ts[..|ts| - 1], a) + (if ts[|ts| - 1].key.0 == a then [ts[|ts| - 1]] else [])
  }

  lemma {:induction false} OutputConcat(s: seq<Tagged>, t: seq<Tagged>, a: string)
    ensures Output(s + t, a) == Output(s, a) + Output(t, a)
  {
    if t == [] {
      assert s + t == s;
    } else {
      assert (s + t)[..|s + t| - 1] == s + t[..|t| - 1];
      OutputConcat(s, t[..|t| - 1], a);
    }
  }

  lemma {:induction false} OutputOne(t: Tagged, a: string)
    ensures Output([t], a) == if t.key.0 == a then [t] else []
  {
    assert [t][..0] == [];
  }

  function TagActivity(es: seq<PendingEvent>, a: string): seq<Tagged> {
    if es == [] then [] else TagActivity(es[..|es| - 1], a) + [Tagged((a, ACTIVITY), es[|es| - 1])]
  }

  /** What one operation emits for an attachment, as a function of that attachment's window alone. */
  function OwnOutput(span: real, open: Option<Window>, op: Op, a: string): seq<Tagged> {
    if op.Submit? && op.attachment == a && op.record.eventType != ACTIVITY
    then [Tagged((a, op.record.eventType), OneToOne(op.record))]
    else TagActivity(ViewStep(span, open, op, a).emitted, a)
  }

  lemma {:induction false} TagOne(e: PendingEvent, a: string)
    ensures TagActivity([e], a) == [Tagged((a, ACTIVITY), e)] && TagActivity([], a) == []
  {
    assert [e][..0] == [];
  }

  lemma {:induction false} FlushOutput(span: real, ws: Windows, keys: seq<Key>, now: real, endedAt: string, scope: Option<string>, a: string)
    requires Distinct(keys) && forall k :: k in keys ==> k in ws.items && k.1 == ACTIVITY
    ensures var key := (a, ACTIVITY);
            Output(FlushStep(span, ws, keys, now, endedAt, scope).emitted, a) ==
            if key in keys && InScope(key, scope) && Expired(span, ws.items[key], now)
            then [Tagged(key, Closed(key, ws.items[key], endedAt))] else []
  {
    if keys != [] {
      var front, k := keys[..|keys| - 1], keys[|keys| - 1];
      assert keys == front + [k];
      FlushOutput(span, ws, front, now, endedAt, scope, a);
      var t := Tagged(k, Closed(k, ws.items[k], endedAt));
      OutputConcat(FlushStep(span, ws, front, now, endedAt, scope).emitted, [t], a);
      OutputOne(t, a);
    }
  }

  lemma {:induction false} SubmitOutput(span: real, ws: Windows, b: string, r: Record, id: string, a: string)
    requires ws.Valid()
    ensures Output(SubmitStep(span, ws, b, r, id).emitted, a) ==
            OwnOutput(span, OpenFor(ws, (a, ACTIVITY)), Submit(b, r, id), a)
  {
    var emitted := SubmitStep(span, ws, b, r, id).emitted;
    if emitted != [] {
      OutputOne(emitted[0], a);
      TagOne(emitted[0].event, a);
      assert emitted == [emitted[0]];
    }
  }

  lemma {:induction false} StepOutput(span: real, ws: Windows, op: Op, a: string)
    requires ws.Valid() && OnlyActivity(ws)
    ensures Output(Step(span, ws, op).emitted, a) == OwnOutput(span, OpenFor(ws, (a, ACTIVITY)), op, a)
  {
    match op
    case Submit(b, r, id) => SubmitOutput(span, ws, b, r, id, a);
    case Flush(now, observedAt, scope) =>
      FlushOutput(span, ws, ws.order, now, observedAt, scope, a);
      var open := OpenFor(ws, (a, ACTIVITY));
      if open.Some? {
        TagOne(Closed((a, ACTIVITY), open.value, observedAt), a);
      }
  }

  function OwnRun(span: real, ops: seq<Op>, a: string): seq<Tagged> {
    if ops == [] then []
    else OwnRun(span, ops[..|ops| - 1], a) + OwnOutput(span, ViewRun(span, ops[..|ops| - 1], a).open, ops[|ops| - 1], a)
  }

  lemma {:induction false} StepOnlyActivity(span: real, ws: Windows, op: Op)
    requires ws.Valid() && OnlyActivity(ws)
    ensures OnlyActivity(Step(span, ws, op).windows)
  {
  }

  lemma {:induction false} RunOutput(span: real, ops: seq<Op>, a: string)
    ensures Output(Run(span, ops).emitted, a) == OwnRun(span, ops, a) && OnlyActivity(Run(span, ops).windows)
  {
    if ops != [] {
      var front, op := ops[..|ops| - 1], ops[|ops| - 1];
      var before := Run(span, front);
      RunOutput(span, front, a);
      StepOnlyActivity(span, before.windows, op);
      RunAt(span, front, a);
      StepOutput(span, before.windows, op, a);
      OutputConcat(before.emitted, Step(span, before.windows, op).emitted, a);
    }
  }

  lemma {:induction false} OwnRunOfOwnOps(span: real, ops: seq<Op>, a: string)
    ensures OwnRun(span, ops, a) == OwnRun(span, OnlyFor(ops, a), a)
  {
    if ops != [] {
      var front, op := ops[..|ops| - 1], ops[|ops| - 1];
      var own := OnlyFor(front, a);
      OwnRunOfOwnOps(span, front, a);
      ViewOfOwnOps(span, front, a);
      assert (own + [op])[..|own|] == own && own + [] == own;
      if !TakesPart(op, a) {
        assert OwnOutput(span, ViewRun(span, front, a).open, op, a) == [];
      }
    }
  }

  /** Attachments do not interfere: all that one emits, class by class in order, and its open window are those of running it alone. */
  lemma {:induction false} AttachmentsIndependent(span: real, ops: seq<Op>, a: string)
    ensures Output(Run(span, ops).emitted, a) == Output(Run(span, OnlyFor(ops, a)).emitted, a)
    ensures OpenFor(Run(span, ops).windows, (a, ACTIVITY)) == OpenFor(Run(span, OnlyFor(ops, a)).windows, (a, ACTIVITY))
    ensures EventsFor(Run(span, ops).emitted, (a, ACTIVITY)) == EventsFor(Run(span, OnlyFor(ops, a)).emitted, (a, ACTIVITY))
  {
    RunOutput(span, ops, a);
    RunOutput(span, OnlyFor(ops, a), a);
    OwnRunOfOwnOps(span, ops, a);
    RunAt(span, ops, a);
    RunAt(span, OnlyFor(ops, a), a);
    ViewOfOwnOps(span, ops, a);
  }

  // Ranges, and the checks of `insert_event`

  /** The checks `insert_event` makes on the columns a pending event fills. */
  predicate InsertChecks(e: PendingEvent) {
    && e.eventType in EVENT_TYPES
    && 0 <= e.byteStart <= e.byteEnd
    && 0 <= e.lineStart <= e.lineEnd
    && e.collapsedCount >= 1
  }

  predicate WellPlaced(r: Record) {
    r.eventType in EVENT_TYPES && 0 <= r.byteStart <= r.byteEnd && 0 <= r.lineStart <= r.lineEnd
  }

  ghost predicate RecordsAdvance(rs: seq<Record>) {
    && (forall i :: 0 <= i < |rs| ==> WellPlaced(rs[i]))
    && (forall i, j :: 0 <= i < j < |rs| ==> rs[i].byteEnd <= rs[j].byteStart && rs[i].lineEnd <= rs[j].lineStart)
  }

  ghost predicate EventsAdvance(es: seq<PendingEvent>) {
    && (forall i :: 0 <= i < |es| ==> InsertChecks(es[i]))
    && (forall i, j :: 0 <= i < j < |es| ==> es[i].byteEnd <= es[j].byteStart && es[i].lineEnd <= es[j].lineStart)
  }

  /** Everything emitted ends before the open window, which ends where the records end. */
  ghost predicate Placed(v: View, rs: seq<Record>) {
    && EventsAdvance(v.emitted)
    && (rs == [] ==> v.emitted == [] && v.open.None?)
    && (rs != [] ==>
          var r := rs[|rs| - 1];
          && (forall i :: 0 <= i < |v.emitted| ==> v.emitted[i].byteEnd <= r.byteEnd && v.emitted[i].lineEnd <= r.lineEnd)
          && (v.open.Some? ==> OpenPlaced(v, r)))
  }

  ghost predicate OpenPlaced(v: View, r: Record)
    requires v.open.Some?
  {
    var w := v.open.value;
    && w.latestByteEnd == r.byteEnd && w.latestLineEnd == r.lineEnd && w.collapsedCount >= 1
    && 0 <= w.firstByteStart <= w.latestByteEnd && 0 <= w.firstLineStart <= w.latestLineEnd
    && (forall i :: 0 <= i < |v.emitted| ==> v.emitted[i].byteEnd <= w.firstByteStart && v.emitted[i].lineEnd <= w.firstLineStart)
  }

  /** Emitting the open window's event. */
  lemma {:induction false} ClosePlaced(v: View, rs: seq<Record>, endedAt: string, a: string)
    requires Placed(v, rs) && v.open.Some?
    ensures Placed(View(None, v.emitted + [Closed((a, ACTIVITY), v.open.value, endedAt)]), rs)
  {
  }

  /** A record after the window has gone, or before there was one. */
  lemma {:induction false} OpenPlacedNext(v: View, rs: seq<Record>, r: Record, id: string)
    requires Placed(v, rs) && v.open.None? && RecordsAdvance(rs + [r])
    ensures Placed(View(Some(Opened(r, id)), v.emitted), rs + [r])
  {
    AdvancesPast(rs, r);
  }

  lemma {:induction false} CollapsePlaced(v: View, rs: seq<Record>, r: Record)
    requires Placed(v, rs) && v.open.Some? && RecordsAdvance(rs + [r])
    ensures Placed(View(Some(Collapsed(v.open.value, r)), v.emitted), rs + [r])
  {
    AdvancesPast(rs, r);
  }

  lemma {:induction false} AdvancesPast(rs: seq<Record>, r: Record)
    requires RecordsAdvance(rs + [r])
    ensures WellPlaced(r) && (rs + [r])[|rs + [r]| - 1] == r
    ensures rs != [] ==> rs[|rs| - 1].byteEnd <= r.byteStart && rs[|rs| - 1].lineEnd <= r.lineStart
  {
    var all := rs + [r];
    assert WellPlaced(all[|rs|]);
    if rs != [] {
      assert all[|rs| - 1] == rs[|rs| - 1] && all[|rs| - 1].byteEnd <= all[|rs|].byteStart;
    }
  }

  /** The view of `a` after an operation, with everything it has emitted. */
  function Extended(span: real, v: View, op: Op, a: string): View {
    var now := ViewStep(span, v.open, op, a);
    View(now.open, v.emitted + now.emitted)
  }

  lemma {:induction false} SubmitPlaced(span: real, v: View, rs: seq<Record>, op: Op, a: string)
    requires op.Submit? && OwnRecord(op, a) == [op.record] && RecordsAdvance(rs + [op.record]) && Placed(v, rs)
    ensures Placed(Extended(span, v, op, a), rs + [op.record])
  {
    var r := op.record;
    if v.open.None? {
      OpenPlacedNext(v, rs, r, op.newId);
      assert v.emitted + [] == v.emitted;
    } else if Expired(span, v.open.value, r.time) {
      ClosePlaced(v, rs, r.observedAt, a);
      OpenPlacedNext(View(None, v.emitted + [Closed((a, ACTIVITY), v.open.value, r.observedAt)]), rs, r, op.newId);
    } else {
      CollapsePlaced(v, rs, r);
      assert v.emitted + [] == v.emitted;
    }
  }

  lemma {:induction false} OtherPlaced(span: real, v: View, rs: seq<Record>, op: Op, a: string)
    requires OwnRecord(op, a) == [] && Placed(v, rs)
    ensures Placed(Extended(span, v, op, a), rs)
  {
    if op.Flush? && v.open.Some? && InScope((a, ACTIVITY), op.scope) && Expired(span, v.open.value, op.now) {
      ClosePlaced(v, rs, op.observedAt, a);
    } else {
      assert v.emitted + [] == v.emitted;
    }
  }

  lemma {:induction false} StepPlaced(span: real, v: View, rs: seq<Record>, op: Op, a: string)
    requires RecordsAdvance(rs + OwnRecord(op, a)) && Placed(v, rs)
    ensures Placed(Extended(span, v, op, a), rs + OwnRecord(op, a))
  {
    if OwnRecord(op, a) == [] {
      assert rs + [] == rs;
      OtherPlaced(span, v, rs, op, a);
    } else {
      SubmitPlaced(span, v, rs, op, a);
    }
  }

  lemma {:induction false} RunPlaced(span: real, ops: seq<Op>, a: string)
    requires RecordsAdvance(ActivityOf(ops, a))
    ensures Placed(ViewRun(span, ops, a), ActivityOf(ops, a))
  {
    if ops != [] {
      var front, rs := ops[..|ops| - 1], ActivityOf(ops[..|ops| - 1], a);
      assert forall i :: 0 <= i < |rs| ==> rs[i] == ActivityOf(ops, a)[i];
      RunPlaced(span, front, a);
      StepPlaced(span, ViewRun(span, front, a), rs, ops[|ops| - 1], a);
    }
  }

  /** Advancing records give advancing activity events, each of which `insert_event` accepts. */
  lemma {:induction false} ActivityEventsAdvance(span: real, ops: seq<Op>, a: string)
    requires RecordsAdvance(ActivityOf(ops, a))
    ensures EventsAdvance(EventsFor(Run(span, ops).emitted, (a, ACTIVITY)))
  {
    RunAt(span, ops, a);
    RunPlaced(span, ops, a);
  }

  lemma {:induction false} InEventsFor(ts: seq<Tagged>, t: Tagged)
    requires t in ts
    ensures t.event in EventsFor(ts, t.key)
  {
    var front := ts[..|ts| - 1];
    assert ts == front + [ts[|ts| - 1]];
    if t in front {
      InEventsFor(front, t);
    }
  }

  lemma {:induction false} PassThroughChecked(ops: seq<Op>, key: Key)
    requires forall op :: op in ops && op.Submit? ==> WellPlaced(op.record)
    ensures forall e :: e in PassThrough(ops, key) ==> InsertChecks(e)
  {
    if ops != [] {
      PassThroughChecked(ops[..|ops| - 1], key);
      assert ops[|ops| - 1] in ops;
    }
  }

  /** Every event of a run of well-placed, per-attachment advancing records passes `insert_event`'s checks. */
  lemma {:induction false} EveryEventInsertable(span: real, ops: seq<Op>)
    requires forall op :: op in ops && op.Submit? ==> WellPlaced(op.record)
    requires forall a :: RecordsAdvance(ActivityOf(ops, a))
    ensures forall t :: t in Run(span, ops).emitted ==> InsertChecks(t.event)
  {
    forall t | t in Run(span, ops).emitted
      ensures InsertChecks(t.event)
    {
      InEventsFor(Run(span, ops).emitted, t);
      if t.key.1 == ACTIVITY {
        ActivityEventsAdvance(span, ops, t.key.0);
      } else {
        OtherClassesPassThrough(span, ops, t.key);
        PassThroughChecked(ops, t.key);
      }
    }
  }
}
