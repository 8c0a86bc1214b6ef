/** Where a finished record's outcome comes from, and what the answers of the handlers mean. */
module ScanOutcomes {
  import opened OrderedDicts
  import opened Scans
  import opened ScanThreads

  // Outcomes

  predicate HasOutcome(g: Registry, id: Id, ok: bool, payload: Payload, at: int) {
    && id in g.heap && (ok ==> g.heap[id].state == Completed) && (!ok ==> g.heap[id].state == Failed)
    && g.heap[id].result == Some(payload) && g.heap[id].completedAtMs == Some(at)
  }

  /** The step ends the scan of a listed record: its worker returned, or raised, at that time. */
  predicate Ends(s: System, step: Step, id: Id, ok: bool, payload: Payload, at: int) {
    && step.FinishScan? && step.ok == ok && step.payload == payload && step.nowMs == at
    && step.w < |s.workers| && s.workers[step.w] == Worker(id, Scanning) && id in s.g.order
  }

  lemma {:induction false} EndStores(c: Config, s: System, step: Step, id: Id, ok: bool, payload: Payload, at: int)
    requires Inv(c, s) && Ends(s, step, id, ok, payload, at)
    ensures HasOutcome(Apply(c, s, step).g, id, ok, payload, at)
  {
    assert WorkerOk(s.g, s.workers[step.w]);
  }

  lemma {:induction false} StartStoresNone(c: Config, s: System, step: Step, id: Id, ok: bool, payload: Payload, at: int)
    requires Inv(c, s) && step.Start? && !HasOutcome(s.g, id, ok, payload, at)
    ensures !HasOutcome(Apply(c, s, step).g, id, ok, payload, at)
  {
    if Apply(c, s, step).g != s.g {
      StartGrows(c, s, step.t, step.newId, step.nowMs);
      var h := s.handlers[step.t];
      StartRegistry(s.g, c, h.kind, h.session, step.newId, step.nowMs);
      if id in s.g.heap {
        assert SignalledOnly(s.g.heap[id], Apply(c, s, step).g.heap[id]);
      }
    }
  }

  /** Nothing but its end gives a record an outcome. */
  lemma {:induction false} OnlyEndStores(c: Config, s: System, step: Step, id: Id, ok: bool, payload: Payload, at: int)
    requires Inv(c, s) && !HasOutcome(s.g, id, ok, payload, at) && HasOutcome(Apply(c, s, step).g, id, ok, payload, at)
    ensures Ends(s, step, id, ok, payload, at)
  {
    if step.Start? {
      StartStoresNone(c, s, step, id, ok, payload, at);
    } else if step.FinishScan? && step.w < |s.workers| {
      assert WorkerOk(s.g, s.workers[step.w]);
    }
  }

  ghost predicate EndsAt(c: Config, s: System, steps: seq<Step>, k: nat, id: Id, ok: bool, payload: Payload, at: int) {
    k < |steps| && Ends(Run(c, s, steps[..k]), steps[k], id, ok, payload, at)
  }

  lemma {:induction false} OutcomeHasEnd(c: Config, s: System, steps: seq<Step>, id: Id, ok: bool, payload: Payload, at: int) returns (k: nat)
    requires Initial(s) && HasOutcome(Run(c, s, steps).g, id, ok, payload, at)
    ensures EndsAt(c, s, steps, k, id, ok, payload, at)
  {
    var front := steps[..|steps| - 1];
    k := |steps| - 1;
    if HasOutcome(Run(c, s, front).g, id, ok, payload, at) {
      k := OutcomeHasEnd(c, s, front, id, ok, payload, at);
      assert front[..k] == steps[..k];
    } else {
      RunInv(c, s, front);
      OnlyEndStores(c, Run(c, s, front), steps[k], id, ok, payload, at);
    }
  }

  lemma {:induction false} EndStoresInRun(c: Config, s: System, steps: seq<Step>, k: nat, id: Id, ok: bool, payload: Payload, at: int)
    requires Initial(s) && EndsAt(c, s, steps, k, id, ok, payload, at)
    ensures HasOutcome(Run(c, s, steps[..k + 1]).g, id, ok, payload, at)
  {
    RunInv(c, s, steps[..k]);
    EndStores(c, Run(c, s, steps[..k]), steps[k], id, ok, payload, at);
    RunSnoc(c, s, steps[..k], steps[k]);
    assert steps[..k] + [steps[k]] == steps[..k + 1];
  }

  lemma {:induction false} OutcomeStays(c: Config, s: System, steps: seq<Step>, more: seq<Step>, id: Id, ok: bool, payload: Payload, at: int)
    requires Initial(s) && HasOutcome(Run(c, s, steps).g, id, ok, payload, at)
    ensures HasOutcome(Run(c, s, steps + more).g, id, ok, payload, at)
  {
    FinishedForGood(c, s, steps, more, id);
  }

  lemma {:induction false} EndHasOutcome(c: Config, s: System, steps: seq<Step>, k: nat, id: Id, ok: bool, payload: Payload, at: int)
    requires Initial(s) && EndsAt(c, s, steps, k, id, ok, payload, at)
    ensures HasOutcome(Run(c, s, steps).g, id, ok, payload, at)
  {
    EndStoresInRun(c, s, steps, k, id, ok, payload, at);
    assert steps[..k + 1] + steps[k + 1..] == steps;
    OutcomeStays(c, s, steps[..k + 1], steps[k + 1..], id, ok, payload, at);
  }

  /**
  In every run a record is completed with a payload, or failed with one, at a time, if and only if its worker returned it,
  or raised and it was recorded, at that time, while the registry listed the record.
  */
  lemma {:induction false} OutcomeIff(c: Config, s: System, steps: seq<Step>, id: Id, ok: bool, payload: Payload, at: int)
    requires Initial(s)
    ensures HasOutcome(Run(c, s, steps).g, id, ok, payload, at) <==> exists k :: EndsAt(c, s, steps, k, id, ok, payload, at)
  {
    if HasOutcome(Run(c, s, steps).g, id, ok, payload, at) {
      var k := OutcomeHasEnd(c, s, steps, id, ok, payload, at);
    }
    if k :| EndsAt(c, s, steps, k, id, ok, payload, at) {
      EndHasOutcome(c, s, steps, k, id, ok, payload, at);
    }
  }

  // Answers

  /** A final answer repeats what its record holds for good. */
  ghost predicate Truthful(g: Registry, h: Handler) {
    h.Replied? && h.reply.Final? ==>
      h.reply.id in g.heap && g.heap[h.reply.id].state == h.reply.state && g.heap[h.reply.id].result == h.reply.result
  }

  ghost predicate AllTruthful(s: System) {
    forall t :: t in s.handlers ==> Truthful(s.g, s.handlers[t])
  }

  lemma {:induction false} FinishedTruthful(c: Config, s: System, step: Step, h: Handler)
    requires Inv(c, s) && Truthful(s.g, h) && HandlerOk(s, h)
    ensures Truthful(Apply(c, s, step).g, h)
  {
    if h.Replied? && h.reply.Final? {
      FinishedStays(c, s, step, h.reply.id);
    }
  }

  lemma {:induction false} OneHandlerMoves(c: Config, s: System, step: Step, t: int)
    requires t in Apply(c, s, step).handlers
    ensures t in s.handlers
    ensures var h := Apply(c, s, step).handlers[t];
            h == s.handlers[t] || (Apply(c, s, step).g == s.g && Truthful(s.g, h)) || !(h.Replied? && h.reply.Final?)
  {
  }

  lemma {:induction false} StepTruthful(c: Config, s: System, step: Step)
    requires Inv(c, s) && AllTruthful(s)
    ensures AllTruthful(Apply(c, s, step))
  {
    var s' := Apply(c, s, step);
    forall t | t in s'.handlers
      ensures Truthful(s'.g, s'.handlers[t])
    {
      OneHandlerMoves(c, s, step, t);
      assert HandlerOk(s, s.handlers[t]);
      FinishedTruthful(c, s, step, s.handlers[t]);
    }
  }

  lemma {:induction false} RunTruthful(c: Config, s: System, steps: seq<Step>)
    requires Initial(s)
    ensures AllTruthful(Run(c, s, steps))
  {
    if steps != [] {
      RunTruthful(c, s, steps[..|steps| - 1]);
      RunInv(c, s, steps[..|steps| - 1]);
      StepTruthful(c, Run(c, s, steps[..|steps| - 1]), steps[|steps| - 1]);
    }
  }

  /** In every run a final answer names the outcome and the payload with which the scan of its own record ended. */
  lemma {:induction false} FinalAnswerIsOutcome(c: Config, s: System, steps: seq<Step>, t: int) returns (k: nat, payload: Payload, at: int)
    requires Initial(s) && t in Run(c, s, steps).handlers
    requires Run(c, s, steps).handlers[t].Replied? && Run(c, s, steps).handlers[t].reply.Final?
    ensures var reply := Run(c, s, steps).handlers[t].reply;
            && reply.result == Some(payload) && (reply.state == Completed || reply.state == Failed)
            && EndsAt(c, s, steps, k, reply.id, reply.state == Completed, payload, at)
  {
    var r := Run(c, s, steps);
    var reply := r.handlers[t].reply;
    WokenWaiterNeverSeesRunning(c, s, steps, t);
    RunTruthful(c, s, steps);
    assert Truthful(r.g, r.handlers[t]);
    RunTimed(c, s, steps);
    payload := reply.result.value;
    at := r.g.heap[reply.id].completedAtMs.value;
    k := OutcomeHasEnd(c, s, steps, reply.id, reply.state == Completed, payload, at);
  }

  /** A finished record has a completion time. */
  ghost predicate Timed(g: Registry) {
    forall id :: id in g.heap && g.heap[id].state != Running ==> g.heap[id].completedAtMs.Some?
  }

  lemma {:induction false} StepTimed(c: Config, s: System, step: Step)
    requires Inv(c, s) && Timed(s.g)
    ensures Timed(Apply(c, s, step).g)
  {
    if step.Start? && Apply(c, s, step).g != s.g {
      StartGrows(c, s, step.t, step.newId, step.nowMs);
      var h := s.handlers[step.t];
      StartRegistry(s.g, c, h.kind, h.session, step.newId, step.nowMs);
      GrewTimed(s.g, Apply(c, s, step).g, h.kind, step.newId);
    }
  }

  lemma {:induction false} GrewTimed(g: Registry, g': Registry, kind: Kind, newId: Id)
    requires Timed(g) && Grew(g, g', kind, newId) && g'.IsRunning(newId)
    ensures Timed(g')
  {
    assert forall id :: id in g.heap ==> SignalledOnly(g.heap[id], g'.heap[id]);
  }

  lemma {:induction false} RunTimed(c: Config, s: System, steps: seq<Step>)
    requires Initial(s)
    ensures Timed(Run(c, s, steps).g)
  {
    if steps != [] {
      RunTimed(c, s, steps[..|steps| - 1]);
      RunInv(c, s, steps[..|steps| - 1]);
      StepTimed(c, Run(c, s, steps[..|steps| - 1]), steps[|steps| - 1]);
    }
  }

  // Which record a handler answers for

  /** The record a handler is dealing with, once it has one. */
  function RecordOf(h: Handler): Option<Id> {
    match h
    case Begin(_, _, _) => None
    case Replied(CapRefused) => None
    case Replied(reply) => Some(reply.id)
    case _ => Some(h.id)
  }

  /** A handler that waits gets no snapshot, and one that does not wait gets nothing else. */
  predicate InMode(h: Handler, wait: bool) {
    match h
    case Begin(_, w, _) => w == wait
    case Owner(_, w) => w == wait
    case Reading(_) => !wait
    case Waiting(_) => wait
    case Woken(_) => wait
    case Replied(reply) => !reply.CapRefused? ==> (reply.Snapshot? <==> !wait)
  }

  /** A handler deals with a record of the kind it was asked for, in the mode it was asked for. */
  ghost predicate Serves(g: Registry, asked: Handler, h: Handler) {
    && asked.Begin? && InMode(h, asked.wait) && (h.Begin? ==> h == asked)
    && (RecordOf(h).Some? ==> RecordOf(h).value in g.heap && g.heap[RecordOf(h).value].kind == asked.kind)
  }

  ghost predicate AllServe(s: System, s': System) {
    s'.handlers.Keys == s.handlers.Keys && forall t :: t in s.handlers ==> Serves(s'.g, s.handlers[t], s'.handlers[t])
  }

  lemma {:induction false} KindsKept(c: Config, s: System, step: Step, id: Id)
    requires Inv(c, s) && id in s.g.heap
    ensures id in Apply(c, s, step).g.heap && Apply(c, s, step).g.heap[id].kind == s.g.heap[id].kind
  {
    if step.Start? && Apply(c, s, step).g != s.g {
      StartGrows(c, s, step.t, step.newId, step.nowMs);
      assert SignalledOnly(s.g.heap[id], Apply(c, s, step).g.heap[id]);
    }
  }

  lemma {:induction false} ServesStays(c: Config, s: System, step: Step, asked: Handler, h: Handler)
    requires Inv(c, s) && Serves(s.g, asked, h)
    ensures Serves(Apply(c, s, step).g, asked, h)
  {
    if RecordOf(h).Some? {
      KindsKept(c, s, step, RecordOf(h).value);
    }
  }

  /** What a handler moves on to: a record of its kind when it starts, and the same record from then on. */
  lemma {:induction false} StartServes(c: Config, s: System, t: int, newId: Id, nowMs: int)
    requires Inv(c, s) && t in s.handlers && s.handlers[t].Begin? && newId !in s.g.heap
    ensures Serves(Apply(c, s, Start(t, newId, nowMs)).g, s.handlers[t], Apply(c, s, Start(t, newId, nowMs)).handlers[t])
  {
    var h := s.handlers[t];
    if StartOutcome(s.g, h.kind, newId, c.maxInFlight).Fresh? {
      StartRegistry(s.g, c, h.kind, h.session, newId, nowMs);
    }
  }

  lemma {:induction false} MoveServes(c: Config, s: System, step: Step, asked: Handler, t: int)
    requires Inv(c, s) && t in s.handlers && !step.Start? && Serves(s.g, asked, s.handlers[t])
    ensures t in Apply(c, s, step).handlers && InMode(Apply(c, s, step).handlers[t], asked.wait)
    ensures RecordOf(Apply(c, s, step).handlers[t]) == RecordOf(s.handlers[t])
    ensures Apply(c, s, step).handlers[t].Begin? ==> Apply(c, s, step).handlers[t] == s.handlers[t]
  {
  }

  lemma {:induction false} StepServes(c: Config, s0: System, s: System, step: Step)
    requires Inv(c, s) && AllServe(s0, s)
    ensures AllServe(s0, Apply(c, s, step))
  {
    var s' := Apply(c, s, step);
    forall t | t in s0.handlers
      ensures t in s'.handlers && Serves(s'.g, s0.handlers[t], s'.handlers[t])
    {
      assert Serves(s.g, s0.handlers[t], s.handlers[t]);
      ServesStays(c, s, step, s0.handlers[t], s.handlers[t]);
      if !step.Start? {
        MoveServes(c, s, step, s0.handlers[t], t);
      } else if step.t == t && s.handlers[t].Begin? && step.newId !in s.g.heap {
        StartServes(c, s, t, step.newId, step.nowMs);
      }
    }
  }

  /** In every run each handler answers for a record of the kind it was asked for, in the mode it was asked for. */
  lemma {:induction false} HandlersServe(c: Config, s: System, steps: seq<Step>)
    requires Initial(s)
    ensures AllServe(s, Run(c, s, steps))
  {
    if steps != [] {
      HandlersServe(c, s, steps[..|steps| - 1]);
      RunInv(c, s, steps[..|steps| - 1]);
      StepServes(c, s, Run(c, s, steps[..|steps| - 1]), steps[|steps| - 1]);
    }
  }

  /** What each answer says of the state it is given in: a refusal, a glance, a timeout, a record gone, or a finished one. */
  lemma {:induction false} AnswersMean(c: Config, s: System, step: Step, t: int)
    requires t in s.handlers && !s.handlers[t].Replied?
    requires t in Apply(c, s, step).handlers && Apply(c, s, step).handlers[t].Replied?
    ensures match Apply(c, s, step).handlers[t].reply
            case CapRefused =>
              && s.handlers[t].Begin? && CountRunning(s.g, |s.g.order|) >= c.maxInFlight
              && forall id :: id in s.g.order && s.g.IsRunning(id) ==> s.g.heap[id].kind != s.handlers[t].kind
            case Snapshot(id, state) => s.handlers[t] == Reading(id) && id in s.g.heap && state == s.g.heap[id].state
            case TimedOut(id) => s.handlers[t] == Waiting(id)
            case Gone(id) => s.handlers[t] == Woken(id) && !s.g.Listed(id)
            case Final(id, state, result) =>
              s.handlers[t] == Woken(id) && s.g.Listed(id) && state == s.g.heap[id].state && result == s.g.heap[id].result
  {
    if step.Start? {
      var i := FirstRunning(s.g, s.handlers[t].kind, 0);
    }
  }

  // Starting and evicting

  /** A call joins the scan of its kind that is listed and running, is refused at the cap, or starts one of its own. */
  lemma {:induction false} StartMeans(c: Config, s: System, t: int, newId: Id, nowMs: int)
    requires Inv(c, s) && t in s.handlers && s.handlers[t].Begin? && newId !in s.g.heap
    ensures var h, s' := s.handlers[t], Apply(c, s, Start(t, newId, nowMs));
            && (forall id :: id in s.g.order && s.g.IsRunning(id) && s.g.heap[id].kind == h.kind ==>
                  s'.g == s.g && s'.handlers[t] == if h.wait then Waiting(id) else Reading(id))
            && ((forall id :: id in s.g.order && s.g.IsRunning(id) ==> s.g.heap[id].kind != h.kind) ==>
                  if CountRunning(s.g, |s.g.order|) >= c.maxInFlight then s'.g == s.g && s'.handlers[t] == Replied(CapRefused)
                  else s'.handlers[t] == Owner(newId, h.wait) && Grew(s.g, s'.g, h.kind, newId) && s'.g.IsRunning(newId)
                       && s'.g.heap[newId].session == h.session && s'.g.heap[newId].startedAtMs == nowMs)
  {
    var h := s.handlers[t];
    var i := FirstRunning(s.g, h.kind, 0);
    if i < |s.g.order| {
      assert forall id :: id in s.g.order && s.g.IsRunning(id) && s.g.heap[id].kind == h.kind ==> id == s.g.order[i];
    } else {
      NoneRunning(s.g, h.kind);
      if CountRunning(s.g, |s.g.order|) < c.maxInFlight {
        StartGrowsFresh(c, s, t, newId, nowMs);
      }
    }
  }

  lemma {:induction false} StartGrowsFresh(c: Config, s: System, t: int, newId: Id, nowMs: int)
    requires Inv(c, s) && t in s.handlers && s.handlers[t].Begin? && newId !in s.g.heap
    requires StartOutcome(s.g, s.handlers[t].kind, newId, c.maxInFlight).Fresh?
    ensures var h, s' := s.handlers[t], Apply(c, s, Start(t, newId, nowMs));
            && Grew(s.g, s'.g, h.kind, newId) && s'.g.IsRunning(newId)
            && s'.g.heap[newId].session == h.session && s'.g.heap[newId].startedAtMs == nowMs
  {
    var h := s.handlers[t];
    var r := NewRecord(h.kind, h.session, nowMs);
    var g1 := Insert(s.g, newId, r);
    StartRegistry(s.g, c, h.kind, h.session, newId, nowMs);
    NoneRunning(s.g, h.kind);
    InsertInv(s.g, c.maxRecords, h.kind, newId, h.session, nowMs);
    EvictKeeps(g1, c.maxRecords);
    assert SignalledOnly(r, Evict(g1, c.maxRecords).heap[newId]);
    assert Apply(c, s, Start(t, newId, nowMs)).g == Evict(g1, c.maxRecords);
    StartGrows(c, s, t, newId, nowMs);
  }

  /** Over the cap the oldest finished record goes; when all run, the oldest goes and its waiters are woken. */
  lemma {:induction false} OldestEvicted(g: Registry, max: nat) returns (i: nat)
    requires |g.order| == max + 1
    ensures i < |g.order| && Evict(g, max).order == g.order[..i] + g.order[i + 1..]
    ensures if forall j :: 0 <= j < |g.order| ==> g.IsRunning(g.order[j])
            then i == 0 && (g.order[0] in g.heap ==> Evict(g, max).heap == g.heap[g.order[0] := g.heap[g.order[0]].(done := true)])
            else !g.IsRunning(g.order[i]) && (forall j :: 0 <= j < i ==> g.IsRunning(g.order[j])) && Evict(g, max).heap == g.heap
  {
    var first := FirstFinished(g, 0);
    i := if first < |g.order| then first else 0;
    assert Evict(g, max) == EvictOne(g);
    if first == |g.order| {
      assert g.order[..0] + g.order[1..] == g.order[1..];
    }
  }
}
