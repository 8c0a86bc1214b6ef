/** What each emitted event carries, field by field, and which operation it comes from. */
module DebounceEvents {
  import opened OrderedDicts
  import opened Debounce

  /** The timestamp an operation is given. */
  function Stamp(op: Op): string {
    match op
    case Submit(_, r, _) => r.observedAt
    case Flush(_, observedAt, _) => observedAt
  }

  // Classes and end stamps

  lemma {:induction false} FlushStamps(span: real, ws: Windows, keys: seq<Key>, now: real, endedAt: string, scope: Option<string>, t: Tagged)
    requires forall k :: k in keys ==> k in ws.items
    requires t in FlushStep(span, ws, keys, now, endedAt, scope).emitted
    ensures t.event.eventType == t.key.1 && t.event.windowEndedAt == Some(endedAt)
  {
    var front, k := keys[..|keys| - 1], keys[|keys| - 1];
    assert keys == front + [k];
    if t in FlushStep(span, ws, front, now, endedAt, scope).emitted {
      FlushStamps(span, ws, front, now, endedAt, scope, t);
    }
  }

  /** An emitted event has the class it is tagged with; an activity event ends at the stamp of the operation that emits it. */
  ghost predicate Stamped(t: Tagged, op: Op) {
    t.event.eventType == t.key.1 && (t.key.1 == ACTIVITY ==> t.event.windowEndedAt == Some(Stamp(op)))
  }

  lemma {:induction false} StepStamps(span: real, ws: Windows, op: Op, t: Tagged)
    requires ws.Valid() && t in Step(span, ws, op).emitted
    ensures Stamped(t, op)
  {
    if op.Flush? {
      FlushStamps(span, ws, ws.order, op.now, op.observedAt, op.scope, t);
    }
  }

  lemma {:induction false} RunSnoc(span: real, ops: seq<Op>, k: nat)
    requires k < |ops|
    ensures var before, now := Run(span, ops[..k]), Step(span, Run(span, ops[..k]).windows, ops[k]);
            Run(span, ops[..k + 1]) == Outcome(now.windows, before.emitted + now.emitted)
  {
    assert ops[..k + 1][..k] == ops[..k];
  }

  lemma {:induction false} EmittedGrows(span: real, ops: seq<Op>, k: nat)
    requires k <= |ops|
    ensures Run(span, ops[..k]).emitted <= Run(span, ops).emitted
    decreases |ops| - k
  {
    if k < |ops| {
      RunSnoc(span, ops, k);
      EmittedGrows(span, ops, k + 1);
    } else {
      assert ops[..k] == ops;
    }
  }

  /** Event `j` of a run is emitted by operation `k`. */
  ghost predicate EmittedBy(span: real, ops: seq<Op>, j: nat, k: nat) {
    k < |ops| && |Run(span, ops[..k]).emitted| <= j < |Run(span, ops[..k + 1]).emitted|
  }

  /** Over every run: each event is of its class, and an activity event carries the end stamp of the operation that closed it. */
  lemma {:induction false} StampedByItsOperation(span: real, ops: seq<Op>, j: nat, k: nat)
    requires EmittedBy(span, ops, j, k)
    ensures j < |Run(span, ops).emitted| && Stamped(Run(span, ops).emitted[j], ops[k])
  {
    RunSnoc(span, ops, k);
    EmittedGrows(span, ops, k + 1);
    var before, now := Run(span, ops[..k]), Step(span, Run(span, ops[..k]).windows, ops[k]);
    var t := now.emitted[j - |before.emitted|];
    assert Run(span, ops[..k + 1]).emitted[j] == t && t in now.emitted;
    StepStamps(span, before.windows, ops[k], t);
  }

  /** And every event is emitted by some operation. */
  lemma {:induction false} SomeOperationEmits(span: real, ops: seq<Op>, j: nat) returns (k: nat)
    requires j < |Run(span, ops).emitted|
    ensures EmittedBy(span, ops, j, k)
  {
    var front := ops[..|ops| - 1];
    assert ops[..|ops|] == ops;
    if j < |Run(span, front).emitted| {
      k := SomeOperationEmits(span, front, j);
      assert front[..k] == ops[..k] && front[..k + 1] == ops[..k + 1];
    } else {
      k := |ops| - 1;
    }
  }

  // Window ids

  /** The ids drawn for an attachment's activity records, in the order the records were submitted. */
  function IdsOf(ops: seq<Op>, a: string): seq<string> {
    if ops == [] then []
    else IdsOf(ops[..|ops| - 1], a) + (if OwnRecord(ops[|ops| - 1], a) != [] then [ops[|ops| - 1].newId] else [])
  }

  /** How many records come before group `i`. */
  function StartOf(gs: seq<seq<Record>>, i: nat): nat
    requires i <= |gs|
  {
    if i == 0 then 0 else StartOf(gs, i - 1) + |gs[i - 1]|
  }

  lemma {:induction false} StartFrame(gs: seq<seq<Record>>, gs': seq<seq<Record>>, i: nat)
    requires i <= |gs| && i <= |gs'| && forall j :: 0 <= j < i ==> |gs[j]| == |gs'[j]|
    ensures StartOf(gs, i) == StartOf(gs', i)
  {
    if i > 0 {
      StartFrame(gs, gs', i - 1);
    }
  }

  lemma {:induction false} StartGrows(gs: seq<seq<Record>>, i: nat, j: nat)
    requires NonEmpty(gs) && i <= j <= |gs|
    ensures StartOf(gs, i) + (j - i) <= StartOf(gs, j)
  {
    if i < j {
      StartGrows(gs, i, j - 1);
    }
  }

  /** Every event is an activity event and, like the open window, has the id drawn with the first record of its group. */
  ghost predicate IdsFollow(v: View, gs: seq<seq<Record>>, ids: seq<string>)
    requires NonEmpty(gs) && |gs| == |v.emitted| + (if v.open.Some? then 1 else 0)
  {
    && StartOf(gs, |gs|) == |ids|
    && (forall i :: 0 <= i < |v.emitted| ==> StartOf(gs, i) < |ids| && v.emitted[i].windowId == Some(ids[StartOf(gs, i)]))
    && (forall i :: 0 <= i < |v.emitted| ==> v.emitted[i].eventType == ACTIVITY && v.emitted[i].windowStartedAt.Some?)
    && (v.open.Some? ==> StartOf(gs, |v.emitted|) < |ids| && v.open.value.id == ids[StartOf(gs, |v.emitted|)])
  }

  lemma {:induction false} CloseIds(v: View, gs: seq<seq<Record>>, ids: seq<string>, at: string, a: string)
    requires NonEmpty(gs) && v.open.Some? && |gs| == |v.emitted| + 1 && IdsFollow(v, gs, ids)
    ensures IdsFollow(View(None, v.emitted + [Closed((a, ACTIVITY), v.open.value, at)]), gs, ids)
  {
  }

  lemma {:induction false} FlushIds(span: real, v: View, gs: seq<seq<Record>>, ids: seq<string>, op: Op, a: string)
    requires NonEmpty(gs) && |gs| == |v.emitted| + (if v.open.Some? then 1 else 0) && IdsFollow(v, gs, ids)
    requires OwnRecord(op, a) == []
    ensures var now := ViewStep(span, v.open, op, a);
            var v' := View(now.open, v.emitted + now.emitted);
            |gs| == |v'.emitted| + (if v'.open.Some? then 1 else 0) && IdsFollow(v', gs, ids)
  {
    var now := ViewStep(span, v.open, op, a);
    if now.emitted == [] {
      assert View(now.open, v.emitted + now.emitted) == v;
    } else {
      CloseIds(v, gs, ids, op.observedAt, a);
    }
  }

  lemma {:induction false} NewGroupIds(v: View, gs: seq<seq<Record>>, ids: seq<string>, r: Record, id: string, at: string, a: string)
    requires NonEmpty(gs) && |gs| == |v.emitted| + (if v.open.Some? then 1 else 0) && IdsFollow(v, gs, ids)
    ensures var v' := View(Some(Opened(r, id)), v.emitted + (if v.open.Some? then [Closed((a, ACTIVITY), v.open.value, at)] else []));
            NonEmpty(gs + [[r]]) && |gs + [[r]]| == |v'.emitted| + 1 && IdsFollow(v', gs + [[r]], ids + [id])
  {
    var gs' := gs + [[r]];
    forall i | 0 <= i <= |gs|
      ensures StartOf(gs', i) == StartOf(gs, i)
    {
      StartFrame(gs, gs', i);
    }
  }

  lemma {:induction false} SameGroupIds(v: View, gs: seq<seq<Record>>, ids: seq<string>, r: Record, id: string)
    requires NonEmpty(gs) && |gs| == |v.emitted| + 1 && v.open.Some? && IdsFollow(v, gs, ids)
    ensures var v', gs' := View(Some(Collapsed(v.open.value, r)), v.emitted), gs[..|gs| - 1] + [gs[|gs| - 1] + [r]];
            NonEmpty(gs') && |gs'| == |v'.emitted| + 1 && IdsFollow(v', gs', ids + [id])
  {
    var gs' := gs[..|gs| - 1] + [gs[|gs| - 1] + [r]];
    forall i | 0 <= i < |gs|
      ensures StartOf(gs', i) == StartOf(gs, i)
    {
      StartFrame(gs, gs', i);
    }
  }

  lemma {:induction false} RunIds(span: real, ops: seq<Op>, a: string)
    requires ClockNonDecreasing(ops)
    ensures Tracks(span, ViewRun(span, ops, a), Groups(span, ActivityOf(ops, a)), Clock(ops))
    ensures IdsFollow(ViewRun(span, ops, a), Groups(span, ActivityOf(ops, a)), IdsOf(ops, a))
  {
    RunTracks(span, ops, a);
    if ops != [] {
      var front, op := ops[..|ops| - 1], ops[|ops| - 1];
      RunIds(span, front, a);
      var v, rs, ids := ViewRun(span, front, a), ActivityOf(front, a), IdsOf(front, a);
      if OwnRecord(op, a) == [] {
        assert ActivityOf(ops, a) == rs && IdsOf(ops, a) == ids;
        FlushIds(span, v, Groups(span, rs), ids, op, a);
      } else {
        GroupsSnoc(span, rs, op.record);
        SubmitIds(span, v, Groups(span, rs), Clock(front), ids, op, a);
      }
    }
  }

  lemma {:induction false} SubmitIds(span: real, v: View, gs: seq<seq<Record>>, clock: Option<real>, ids: seq<string>, op: Op, a: string)
    requires NonEmpty(gs) && Tracks(span, v, gs, clock) && (clock.Some? ==> clock.value <= op.Time()) && IdsFollow(v, gs, ids)
    requires OwnRecord(op, a) != []
    ensures var now, gs' := ViewStep(span, v.open, op, a), AddRecord(span, gs, op.record);
            var v' := View(now.open, v.emitted + now.emitted);
            |gs'| == |v'.emitted| + (if v'.open.Some? then 1 else 0) && IdsFollow(v', gs', ids + [op.newId])
  {
    if v.open.Some? && !Expired(span, v.open.value, op.record.time) {
      SameGroupIds(v, gs, ids, op.record, op.newId);
      assert v.emitted + [] == v.emitted;
    } else {
      NewGroupIds(v, gs, ids, op.record, op.newId, op.record.observedAt, a);
    }
  }

  /** An event that stands for a group: the last record's rule, text and stamp, from the first record's start to the last one's end. */
  predicate StandsFor(e: PendingEvent, g: seq<Record>, id: string)
    requires g != []
  {
    var first, last := g[0], g[|g| - 1];
    && e.eventType == ACTIVITY && e.ruleId == last.ruleId && e.excerpt == last.excerpt && e.observedAt == last.observedAt
    && e.byteStart == first.byteStart && e.byteEnd == last.byteEnd && e.lineStart == first.lineStart && e.lineEnd == last.lineEnd
    && e.collapsedCount == |g| && e.windowId == Some(id) && e.windowStartedAt == Some(first.observedAt)
  }

  /** Over every run with a non-decreasing clock, the activity events stand for the groups, with the ids drawn when those opened. */
  lemma {:induction false} EventsStandForGroups(span: real, ops: seq<Op>, a: string, i: nat)
    requires ClockNonDecreasing(ops) && i < |EventsFor(Run(span, ops).emitted, (a, ACTIVITY))|
    ensures var gs, ids := Groups(span, ActivityOf(ops, a)), IdsOf(ops, a);
            && i < |gs| && StartOf(gs, i) < |ids|
            && StandsFor(EventsFor(Run(span, ops).emitted, (a, ACTIVITY))[i], gs[i], ids[StartOf(gs, i)])
  {
    RunAt(span, ops, a);
    RunIds(span, ops, a);
    var e, g := ViewRun(span, ops, a).emitted[i], Groups(span, ActivityOf(ops, a))[i];
    assert EventSummary(e) == GroupSummary(g);
  }

  // The grouping

  function Flat(gs: seq<seq<Record>>): seq<Record> {
    if gs == [] then [] else gs[0] + Flat(gs[1..])
  }

  lemma {:induction false} WithinSpan(span: real, start: real, rs: seq<Record>)
    ensures forall i :: 0 <= i < Within(span, start, rs) ==> rs[i].time - start < span
    ensures Within(span, start, rs) < |rs| ==> rs[Within(span, start, rs)].time - start >= span
  {
    if rs != [] && rs[0].time - start < span {
      WithinSpan(span, start, rs[1..]);
      assert forall i :: 0 < i < |rs| ==> rs[i] == rs[1..][i - 1];
    }
  }

  /** Groups are cut from the records in order; a group ends before the first record that comes a whole span after its first. */
  ghost predicate Greedy(span: real, gs: seq<seq<Record>>) {
    && (forall i, j :: 0 <= i < |gs| && 0 < j < |gs[i]| ==> gs[i][j].time - gs[i][0].time < span)
    && (forall i :: 0 < i < |gs| && gs[i] != [] && gs[i - 1] != [] ==> gs[i][0].time - gs[i - 1][0].time >= span)
  }

  lemma {:induction false} GroupsAreGreedy(span: real, rs: seq<Record>)
    ensures Flat(Groups(span, rs)) == rs && NonEmpty(Groups(span, rs)) && Greedy(span, Groups(span, rs))
    decreases |rs|
  {
    if rs != [] {
      var n := CutFirst(span, rs);
      var g, rest := rs[..n], Groups(span, rs[n..]);
      GroupsAreGreedy(span, rs[n..]);
      assert ([g] + rest)[1..] == rest && rs == g + rs[n..];
      GreedyCons(span, g, rest);
    }
  }

  lemma {:induction false} CutFirst(span: real, rs: seq<Record>) returns (n: nat)
    requires rs != []
    ensures 0 < n <= |rs| && Groups(span, rs) == [rs[..n]] + Groups(span, rs[n..])
    ensures forall j :: 0 < j < n ==> rs[j].time - rs[0].time < span
    ensures n < |rs| ==> rs[n].time - rs[0].time >= span
  {
    n := 1 + Within(span, rs[0].time, rs[1..]);
    WithinSpan(span, rs[0].time, rs[1..]);
    assert forall j :: 0 < j < |rs| ==> rs[j] == rs[1..][j - 1];
  }

  lemma {:induction false} GreedyCons(span: real, g: seq<Record>, rest: seq<seq<Record>>)
    requires g != [] && NonEmpty(rest) && Greedy(span, rest)
    requires forall j :: 0 < j < |g| ==> g[j].time - g[0].time < span
    requires rest != [] ==> Flat(rest)[0].time - g[0].time >= span
    ensures Greedy(span, [g] + rest)
  {
    var gs := [g] + rest;
    forall i | 0 < i < |gs|
      ensures gs[i] == rest[i - 1] && gs[i][0].time - gs[i - 1][0].time >= span
    {
      if i == 1 {
        assert Flat(rest)[0] == rest[0][0];
      }
    }
  }

  // Flushes

  /** A flush closes an attachment's window if and only if it covers the attachment and the window is a whole span old. */
  lemma {:induction false} FlushClosesIff(span: real, ops: seq<Op>, now: real, at: string, scope: Option<string>, a: string)
    requires (a, ACTIVITY) in Run(span, ops).windows.items
    ensures var window, key := Run(span, ops).windows.items[(a, ACTIVITY)], (a, ACTIVITY);
            var after := Run(span, ops + [Flush(now, at, scope)]);
            && (key !in after.windows.items <==> (scope.None? || scope.value == a) && now >= window.startTime + span)
            && (key in after.windows.items ==> after.windows.items[key] == window)
  {
    var op := Flush(now, at, scope);
    assert (ops + [op])[..|ops|] == ops;
  }
}
