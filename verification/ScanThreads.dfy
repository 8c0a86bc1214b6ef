/**
The scan handlers and their workers as steps of any number of threads.  Each step is one access to shared
state: a registry call under its lock, spawning a worker, setting a done event, or reading a record.
*/
module ScanThreads {
  import opened OrderedDicts
  import opened Scans

  datatype Config = Config(maxRecords: nat, maxInFlight: int)

  datatype Reply =
    | CapRefused
    | Snapshot(id: Id, state: ScanState)
    | TimedOut(id: Id)
    | Gone(id: Id)
    | Final(id: Id, state: ScanState, result: Option<Payload>)

  /** Where a handler thread stands in `_scan_dispatch`. */
  datatype Handler =
    | Begin(kind: Kind, wait: bool, session: int)
    | Owner(id: Id, wait: bool)
    | Reading(id: Id)
    | Waiting(id: Id)
    | Woken(id: Id)
    | Replied(reply: Reply)

  /**
  Where a worker thread stands: scanning, state stored but done event not yet set, finished, or dead of an
  exception in turning the result into a dictionary, which nothing catches.
  */
  datatype WorkerPc = Scanning | Marked | Ended | Dead
  datatype Worker = Worker(id: Id, pc: WorkerPc)

  datatype System = System(g: Registry, handlers: map<int, Handler>, workers: seq<Worker>)

  datatype Step =
    | Start(t: int, newId: Id, nowMs: int)
    | KickOff(t: int)
    | ReadState(t: int)
    | Wake(t: int)
    | TimeOut(t: int)
    | LookUp(t: int)
    | FinishScan(w: nat, ok: bool, payload: Payload, nowMs: int)
    | SignalDone(w: nat)
    | Die(w: nat)

  function AfterRecord(id: Id, wait: bool): Handler {
    if wait then Waiting(id) else Reading(id)
  }

  /** A step that cannot be taken leaves the system as it is. */
  function Apply(c: Config, s: System, step: Step): System {
    match step
    case Start(t, id, nowMs) =>
      if t in s.handlers && s.handlers[t].Begin? && id !in s.g.heap then
        var h := s.handlers[t];
        var g' := StartStep(s.g, h.kind, h.session, id, nowMs, c.maxRecords, c.maxInFlight);
        match StartOutcome(s.g, h.kind, id, c.maxInFlight)
        case Coalesced(r) => System(g', s.handlers[t := AfterRecord(r, h.wait)], s.workers)
        case CapExceeded => System(g', s.handlers[t := Replied(CapRefused)], s.workers)
        case Fresh(r) => System(g', s.handlers[t := Owner(r, h.wait)], s.workers)
      else s
    case KickOff(t) =>
      if t in s.handlers && s.handlers[t].Owner? then
        var h := s.handlers[t];
        System(s.g, s.handlers[t := AfterRecord(h.id, h.wait)], s.workers + [Worker(h.id, Scanning)])
      else s
    case ReadState(t) =>
      if t in s.handlers && s.handlers[t].Reading? && s.handlers[t].id in s.g.heap
      then s.(handlers := s.handlers[t := Replied(Snapshot(s.handlers[t].id, s.g.heap[s.handlers[t].id].state))])
      else s
    case Wake(t) =>
      if t in s.handlers && s.handlers[t].Waiting? && s.handlers[t].id in s.g.heap && s.g.heap[s.handlers[t].id].done
      then s.(handlers := s.handlers[t := Woken(s.handlers[t].id)])
      else s
    case TimeOut(t) =>
      if t in s.handlers && s.handlers[t].Waiting?
      then s.(handlers := s.handlers[t := Replied(TimedOut(s.handlers[t].id))])
      else s
    case LookUp(t) =>
      if t in s.handlers && s.handlers[t].Woken? then
        var id := s.handlers[t].id;
        var reply := if s.g.Listed(id) then Final(id, s.g.heap[id].state, s.g.heap[id].result) else Gone(id);
        s.(handlers := s.handlers[t := Replied(reply)])
      else s
    case FinishScan(w, ok, payload, nowMs) =>
      if w < |s.workers| && s.workers[w].pc == Scanning then
        var id := s.workers[w].id;
        s.(g := FinishStep(s.g, id, if ok then Completed else Failed, payload, nowMs),
        workers := s.workers[w := Worker(id, if s.g.Listed(id) then Marked else Ended)])
      else s
    case SignalDone(w) =>
      if w < |s.workers| && s.workers[w].pc == Marked then
        var id := s.workers[w].id;
        s.(g := SetDone(s.g, id), workers := s.workers[w := Worker(id, Ended)])
      else s
    case Die(w) =>
      if w < |s.workers| && s.workers[w].pc == Scanning
      then s.(workers := s.workers[w := Worker(s.workers[w].id, Dead)])
      else s
  }

  /** Any number of handler threads, each about to call, and an empty registry. */
  ghost predicate Initial(s: System) {
    s.g == EMPTY_REGISTRY && s.workers == [] && forall t :: t in s.handlers ==> s.handlers[t].Begin?
  }

  function Run(c: Config, s: System, steps: seq<Step>): System {
    if steps == [] then s else Apply(c, Run(c, s, steps[..|steps| - 1]), steps[|steps| - 1])
  }

  // The invariant

  ghost predicate OnePerKind(g: Registry) {
    forall a, b :: a in g.order && b in g.order && a != b && g.IsRunning(a) && g.IsRunning(b) ==> g.heap[a].kind != g.heap[b].kind
  }

  /** A set done event means a finished record or one no longer listed; a running record that is not listed has its event set. */
  ghost predicate DoneMeans(g: Registry) {
    forall id :: id in g.heap ==>
                   var r := g.heap[id];
                   && (r.state == Running <==> r.result.None?)
                   && (r.done ==> r.state != Running || id !in g.order)
                   && (r.state == Running && id !in g.order ==> r.done)
  }

  ghost predicate RegistryInv(g: Registry, maxRecords: nat) {
    g.Valid() && |g.order| <= maxRecords && OnePerKind(g) && DoneMeans(g)
  }

  ghost predicate HasWorker(s: System, id: Id) {
    exists w :: 0 <= w < |s.workers| && s.workers[w].id == id
  }

  ghost predicate HasOwner(s: System, id: Id) {
    exists t :: t in s.handlers && s.handlers[t].Owner? && s.handlers[t].id == id
  }

  ghost predicate WorkersInv(s: System) {
    && (forall w :: 0 <= w < |s.workers| ==> WorkerOk(s.g, s.workers[w]))
    && (forall v, w :: 0 <= v < w < |s.workers| ==> s.workers[v].id != s.workers[w].id)
  }

  ghost predicate WorkerOk(g: Registry, w: Worker) {
    && w.id in g.heap
    && (w.pc == Scanning || w.pc == Dead ==> g.heap[w.id].state == Running)
    && (w.pc == Marked ==> g.heap[w.id].state != Running)
    && (w.pc == Ended ==> g.heap[w.id].done)
  }

  ghost predicate HandlerOk(s: System, h: Handler) {
    match h
    case Begin(_, _, _) => true
    case Owner(id, _) => s.g.IsRunning(id) && !HasWorker(s, id)
    case Reading(id) => id in s.g.heap
    case Waiting(id) => id in s.g.heap
    case Woken(id) => id in s.g.heap && s.g.heap[id].done
    case Replied(reply) => reply.Final? ==> reply.state != Running && reply.result.Some?
  }

  ghost predicate OwnersInv(s: System) {
    && (forall t :: t in s.handlers ==> HandlerOk(s, s.handlers[t]))
    && (forall t, u :: t in s.handlers && u in s.handlers && t != u && s.handlers[t].Owner? && s.handlers[u].Owner? ==>
                         s.handlers[t].id != s.handlers[u].id)
    && (forall id :: id in s.g.heap ==> HasWorker(s, id) || HasOwner(s, id))
  }

  ghost predicate Inv(c: Config, s: System) {
    RegistryInv(s.g, c.maxRecords) && WorkersInv(s) && OwnersInv(s)
  }

  // What the registry calls keep

  lemma {:induction false} EvictOneDrops(g: Registry) returns (victim: Id)
    requires g.Valid() && g.order != []
    ensures var g' := EvictOne(g);
            && victim in g.order && g'.Valid()
            && (forall id :: id in g'.order <==> id in g.order && id != victim)
            && g'.heap == (if g.IsRunning(victim) then SetDone(g, victim) else g).heap
            && (g.IsRunning(victim) ==> forall id :: id in g.order ==> g.IsRunning(id))
  {
    var i := FirstFinished(g, 0);
    victim := g.order[if i < |g.order| then i else 0];
    DropAt(g.order, if i < |g.order| then i else 0);
    if i == |g.order| {
      assert g.order[..0] + g.order[1..] == g.order[1..];
      assert g.IsRunning(g.order[0]);
    }
  }

  lemma {:induction false} DropAt(s: seq<Id>, i: nat)
    requires Distinct(s) && i < |s|
    ensures Distinct(s[..i] + s[i + 1..])
    ensures forall x :: x in s[..i] + s[i + 1..] <==> x in s && x != s[i]
  {
    var t := s[..i] + s[i + 1..];
    forall x
      ensures x in t <==> x in s && x != s[i]
    {
      if x in s && x != s[i] {
        var j :| 0 <= j < |s| && s[j] == x;
        assert t[if j < i then j else j - 1] == x;
      }
    }
  }

  lemma {:induction false} InsertInv(g: Registry, maxRecords: nat, kind: Kind, id: Id, session: int, nowMs: int)
    requires RegistryInv(g, maxRecords) && id !in g.heap
    requires forall a :: a in g.order && g.IsRunning(a) ==> g.heap[a].kind != kind
    ensures var g' := Insert(g, id, NewRecord(kind, session, nowMs));
            g'.Valid() && |g'.order| <= maxRecords + 1 && OnePerKind(g') && DoneMeans(g')
  {
  }

  lemma {:induction false} EvictInv(g: Registry, max: nat) returns (victim: Option<Id>)
    requires g.Valid() && |g.order| <= max + 1 && OnePerKind(g) && DoneMeans(g)
    ensures RegistryInv(Evict(g, max), max)
    ensures victim.Some? <==> |g.order| == max + 1
    ensures victim.None? ==> Evict(g, max) == g
    ensures victim.Some? ==> Evict(g, max) == EvictOne(g) && victim.value in g.order && victim.value !in EvictOne(g).order
    ensures victim.Some? && g.IsRunning(victim.value) ==> forall id :: id in g.order ==> g.IsRunning(id)
    ensures Evict(g, max).heap == (if victim.Some? && g.IsRunning(victim.value) then SetDone(g, victim.value) else g).heap
  {
    if |g.order| <= max {
      victim := None;
    } else {
      var v := EvictOneDrops(g);
      victim := Some(v);
      assert Evict(g, max) == EvictOne(g);
    }
  }

  // At most two run at once

  function CountKind(g: Registry, n: nat, kind: Kind): nat
    requires n <= |g.order|
  {
    if n == 0 then 0
    else CountKind(g, n - 1, kind) + (if g.IsRunning(g.order[n - 1]) && g.heap[g.order[n - 1]].kind == kind then 1 else 0)
  }

  lemma {:induction false} CountSplits(g: Registry, n: nat)
    requires n <= |g.order|
    ensures CountRunning(g, n) == CountKind(g, n, Containers) + CountKind(g, n, Panes)
  {
    if n > 0 {
      CountSplits(g, n - 1);
    }
  }

  lemma {:induction false} CountKindBound(g: Registry, n: nat, kind: Kind)
    requires g.Valid() && OnePerKind(g) && n <= |g.order|
    ensures CountKind(g, n, kind) <= 1
    ensures CountKind(g, n, kind) == 0 <==> forall i :: 0 <= i < n ==> !(g.IsRunning(g.order[i]) && g.heap[g.order[i]].kind == kind)
  {
    if n > 0 {
      CountKindBound(g, n - 1, kind);
      if g.IsRunning(g.order[n - 1]) && g.heap[g.order[n - 1]].kind == kind {
        forall i | 0 <= i < n - 1
          ensures !(g.IsRunning(g.order[i]) && g.heap[g.order[i]].kind == kind)
        {
          assert g.order[i] in g.order && g.order[n - 1] in g.order && g.order[i] != g.order[n - 1];
        }
      }
    }
  }

  lemma {:induction false} CountAll(g: Registry, n: nat)
    requires n <= |g.order| && forall i :: 0 <= i < n ==> g.IsRunning(g.order[i])
    ensures CountRunning(g, n) == n
  {
    if n > 0 {
      CountAll(g, n - 1);
    }
  }

  /** At most one scan of each kind runs, so at most two; at most one when none of `kind` runs. */
  lemma {:induction false} RunningBound(g: Registry, kind: Kind)
    requires g.Valid() && OnePerKind(g)
    ensures CountRunning(g, |g.order|) <= 2
    ensures (forall a :: a in g.order && g.IsRunning(a) ==> g.heap[a].kind != kind) ==> CountRunning(g, |g.order|) <= 1
  {
    CountSplits(g, |g.order|);
    CountKindBound(g, |g.order|, Containers);
    CountKindBound(g, |g.order|, Panes);
    if forall a :: a in g.order && g.IsRunning(a) ==> g.heap[a].kind != kind {
      assert forall i :: 0 <= i < |g.order| ==> g.order[i] in g.order;
    }
  }

  // Every step keeps the invariant

  /** A later heap: no record lost, none changed but for its done event being set. */
  ghost predicate OnlySignals(g: Registry, g': Registry) {
    forall id :: id in g.heap ==> id in g'.heap && SignalledOnly(g.heap[id], g'.heap[id])
  }

  predicate SignalledOnly(r: Record, r': Record) {
    r' == r || r' == r.(done := true)
  }

  lemma {:induction false} HandlersFollow(s: System, s': System)
    requires OwnersInv(s) && OnlySignals(s.g, s'.g) && s'.workers == s.workers
    ensures forall t :: t in s.handlers ==> HandlerOk(s', s.handlers[t])
  {
    forall t | t in s.handlers
      ensures HandlerOk(s', s.handlers[t])
    {
      var h := s.handlers[t];
      assert HandlerOk(s, h);
      if h.Owner? {
        assert HasWorker(s', h.id) ==> HasWorker(s, h.id);
      }
    }
  }

  lemma {:induction false} StartFreshInv(c: Config, s: System, t: int, id: Id, nowMs: int)
    requires Inv(c, s) && t in s.handlers && s.handlers[t].Begin? && id !in s.g.heap
    requires StartOutcome(s.g, s.handlers[t].kind, id, c.maxInFlight).Fresh?
    ensures Inv(c, Apply(c, s, Start(t, id, nowMs)))
  {
    var h := s.handlers[t];
    StartRegistry(s.g, c, h.kind, h.session, id, nowMs);
    var s' := Apply(c, s, Start(t, id, nowMs));
    HandlersFollow(s, s');
    forall w | 0 <= w < |s.workers|
      ensures WorkerOk(s'.g, s.workers[w]) && s.workers[w].id != id
    {
      assert WorkerOk(s.g, s.workers[w]);
    }
    assert !HasWorker(s', id);
    OwnersAfterStart(s, s', t, id);
  }

  lemma {:induction false} InsertSignals(g: Registry, id: Id, r: Record)
    requires id !in g.heap
    ensures OnlySignals(g, Insert(g, id, r)) && Insert(g, id, r).heap.Keys == g.heap.Keys + {id} && Insert(g, id, r).heap[id] == r
  {
  }

  lemma {:induction false} StartRegistry(g: Registry, c: Config, kind: Kind, session: int, id: Id, nowMs: int)
    requires RegistryInv(g, c.maxRecords) && id !in g.heap && StartOutcome(g, kind, id, c.maxInFlight).Fresh?
    ensures var g' := StartStep(g, kind, session, id, nowMs, c.maxRecords, c.maxInFlight);
            RegistryInv(g', c.maxRecords) && OnlySignals(g, g') && g'.heap.Keys == g.heap.Keys + {id} && g'.IsRunning(id) && g'.heap[id].kind == kind
  {
    NoneRunning(g, kind);
    InsertInv(g, c.maxRecords, kind, id, session, nowMs);
    var g1 := Insert(g, id, NewRecord(kind, session, nowMs));
    InsertSignals(g, id, NewRecord(kind, session, nowMs));
    EvictKeeps(g1, c.maxRecords);
    assert SignalledOnly(g1.heap[id], Evict(g1, c.maxRecords).heap[id]);
    SignalsTransitive(g, g1, Evict(g1, c.maxRecords));
  }

  lemma {:induction false} EvictKeeps(g: Registry, max: nat)
    requires g.Valid() && |g.order| <= max + 1 && OnePerKind(g) && DoneMeans(g)
    ensures RegistryInv(Evict(g, max), max) && OnlySignals(g, Evict(g, max)) && Evict(g, max).heap.Keys == g.heap.Keys
  {
    var victim := EvictInv(g, max);
    SignalsSetDone(g, victim, Evict(g, max));
  }

  lemma {:induction false} SignalsSetDone(g: Registry, victim: Option<Id>, g': Registry)
    requires g'.heap == (if victim.Some? && g.IsRunning(victim.value) then SetDone(g, victim.value) else g).heap
    ensures OnlySignals(g, g') && g'.heap.Keys == g.heap.Keys
  {
  }

  lemma {:induction false} SignalsTransitive(g: Registry, g1: Registry, g2: Registry)
    requires OnlySignals(g, g1) && OnlySignals(g1, g2)
    ensures OnlySignals(g, g2)
  {
  }

  lemma {:induction false} NoneRunning(g: Registry, kind: Kind)
    requires g.Valid() && FirstRunning(g, kind, 0) == |g.order|
    ensures forall a :: a in g.order && g.IsRunning(a) ==> g.heap[a].kind != kind
  {
  }

  lemma {:induction false} OwnersAfterStart(s: System, s': System, t: int, id: Id)
    requires OwnersInv(s) && t in s.handlers && s.handlers[t].Begin? && id !in s.g.heap
    requires t in s'.handlers && s'.workers == s.workers && s'.handlers == s.handlers[t := s'.handlers[t]] && s'.g.heap.Keys == s.g.heap.Keys + {id}
    requires s'.handlers[t].Owner? && s'.handlers[t].id == id && HandlerOk(s', s'.handlers[t])
    requires forall u :: u in s.handlers ==> HandlerOk(s', s.handlers[u])
    ensures OwnersInv(s')
  {
    forall u | u in s.handlers && s.handlers[u].Owner?
      ensures s.handlers[u].id != id
    {
      assert HandlerOk(s, s.handlers[u]);
    }
    forall x | x in s'.g.heap
      ensures HasWorker(s', x) || HasOwner(s', x)
    {
      if x == id {
        assert t in s'.handlers && s'.handlers[t].Owner?;
      } else if HasOwner(s, x) {
        var u :| u in s.handlers && s.handlers[u].Owner? && s.handlers[u].id == x;
        assert u in s'.handlers && s'.handlers[u] == s.handlers[u];
      }
    }
  }

  /** A handler that is not, and does not become, an owner moves on while registry and workers stay. */
  lemma {:induction false} HandlerMoves(c: Config, s: System, t: int, h: Handler)
    requires Inv(c, s) && t in s.handlers && !s.handlers[t].Owner? && !h.Owner? && HandlerOk(s, h)
    ensures Inv(c, s.(handlers := s.handlers[t := h]))
  {
    var s' := s.(handlers := s.handlers[t := h]);
    HandlersFollow(s, s');
    assert HandlerOk(s', h) by {
      assert HandlerOk(s, h);
    }
    forall x | x in s'.g.heap
      ensures HasWorker(s', x) || HasOwner(s', x)
    {
      assert HasWorker(s, x) || HasOwner(s, x);
      if HasOwner(s, x) {
        var u :| u in s.handlers && s.handlers[u].Owner? && s.handlers[u].id == x;
        assert u in s'.handlers && s'.handlers[u] == s.handlers[u];
      } else {
        assert HasWorker(s', x);
      }
    }
  }

  lemma {:induction false} OneMoreWorker(s: System, s': System, id: Id, x: Id)
    requires s'.workers == s.workers + [Worker(id, Scanning)]
    ensures HasWorker(s', x) <==> HasWorker(s, x) || x == id
  {
    if w :| 0 <= w < |s.workers| && s.workers[w].id == x {
      assert s'.workers[w].id == x;
    }
    assert s'.workers[|s.workers|].id == id;
  }

  lemma {:induction false} KickOffOwners(s: System, s': System, t: int)
    requires OwnersInv(s) && t in s.handlers && s.handlers[t].Owner?
    requires var h := s.handlers[t];
             s' == System(s.g, s.handlers[t := AfterRecord(h.id, h.wait)], s.workers + [Worker(h.id, Scanning)])
    ensures OwnersInv(s')
  {
    var h := s.handlers[t];
    assert HandlerOk(s, h);
    forall u | u in s'.handlers
      ensures HandlerOk(s', s'.handlers[u])
    {
      assert HandlerOk(s, s.handlers[u]);
      if s'.handlers[u].Owner? {
        OneMoreWorker(s, s', h.id, s'.handlers[u].id);
      }
    }
    forall x | x in s'.g.heap
      ensures HasWorker(s', x) || HasOwner(s', x)
    {
      OneMoreWorker(s, s', h.id, x);
      if x != h.id && HasOwner(s, x) {
        var u :| u in s.handlers && s.handlers[u].Owner? && s.handlers[u].id == x;
        assert u in s'.handlers && s'.handlers[u] == s.handlers[u];
      }
    }
  }

  lemma {:induction false} KickOffInv(c: Config, s: System, t: int)
    requires Inv(c, s) && t in s.handlers && s.handlers[t].Owner?
    ensures Inv(c, Apply(c, s, KickOff(t)))
  {
    var h := s.handlers[t];
    var s' := Apply(c, s, KickOff(t));
    KickOffOwners(s, s', t);
    assert HandlerOk(s, h);
    forall w | 0 <= w < |s.workers|
      ensures s.workers[w].id != h.id && WorkerOk(s'.g, s.workers[w])
    {
      assert !HasWorker(s, h.id);
    }
  }

  ghost predicate SameWorkers(s: System, s': System) {
    |s'.workers| == |s.workers| && forall w :: 0 <= w < |s.workers| ==> s'.workers[w].id == s.workers[w].id
  }

  lemma {:induction false} SameWorkersHave(s: System, s': System, id: Id)
    requires SameWorkers(s, s')
    ensures HasWorker(s', id) <==> HasWorker(s, id)
  {
    if w :| 0 <= w < |s.workers| && s.workers[w].id == id {
      assert s'.workers[w].id == id;
    }
  }

  /** The heap changes in one worker's record only, which no handler owns. */
  lemma {:induction false} OwnersStay(s: System, s': System, w: nat)
    requires OwnersInv(s) && w < |s.workers| && SameWorkers(s, s') && s'.handlers == s.handlers && s'.g.heap.Keys == s.g.heap.Keys
    requires s.workers[w].id in s.g.heap
    requires forall id :: id in s.g.heap && id != s.workers[w].id ==> s'.g.heap[id] == s.g.heap[id]
    requires s.g.heap[s.workers[w].id].done ==> s'.g.heap[s.workers[w].id].done
    ensures OwnersInv(s')
  {
    assert HasWorker(s, s.workers[w].id);
    forall t | t in s.handlers
      ensures HandlerOk(s', s.handlers[t])
    {
      assert HandlerOk(s, s.handlers[t]);
      if s.handlers[t].Owner? {
        SameWorkersHave(s, s', s.handlers[t].id);
      }
    }
    forall x | x in s'.g.heap
      ensures HasWorker(s', x) || HasOwner(s', x)
    {
      assert HasWorker(s, x) || HasOwner(s, x);
      SameWorkersHave(s, s', x);
    }
  }

  /** A worker moves on with its own record. */
  lemma {:induction false} WorkerMoves(c: Config, s: System, w: nat, pc: WorkerPc, g': Registry)
    requires Inv(c, s) && w < |s.workers| && RegistryInv(g', c.maxRecords) && g'.heap.Keys == s.g.heap.Keys
    requires forall id :: id in s.g.heap && id != s.workers[w].id ==> g'.heap[id] == s.g.heap[id]
    requires WorkerOk(g', Worker(s.workers[w].id, pc))
    requires s.g.heap[s.workers[w].id].done ==> g'.heap[s.workers[w].id].done
    ensures Inv(c, s.(g := g', workers := s.workers[w := Worker(s.workers[w].id, pc)]))
  {
    var s' := s.(g := g', workers := s.workers[w := Worker(s.workers[w].id, pc)]);
    OwnersStay(s, s', w);
    forall v | 0 <= v < |s'.workers|
      ensures WorkerOk(g', s'.workers[v])
    {
      assert WorkerOk(s.g, s.workers[v]);
    }
  }

  lemma {:induction false} StartInv(c: Config, s: System, t: int, id: Id, nowMs: int)
    requires Inv(c, s)
    ensures Inv(c, Apply(c, s, Start(t, id, nowMs)))
  {
    if t in s.handlers && s.handlers[t].Begin? && id !in s.g.heap {
      var h, o := s.handlers[t], StartOutcome(s.g, s.handlers[t].kind, id, c.maxInFlight);
      if o.Fresh? {
        StartFreshInv(c, s, t, id, nowMs);
      } else {
        HandlerMoves(c, s, t, if o.CapExceeded? then Replied(CapRefused) else AfterRecord(o.id, h.wait));
      }
    }
  }

  lemma {:induction false} FinishScanInv(c: Config, s: System, w: nat, ok: bool, payload: Payload, nowMs: int)
    requires Inv(c, s)
    ensures Inv(c, Apply(c, s, FinishScan(w, ok, payload, nowMs)))
  {
    if w < |s.workers| && s.workers[w].pc == Scanning {
      var id := s.workers[w].id;
      assert WorkerOk(s.g, s.workers[w]);
      var g' := FinishStep(s.g, id, if ok then Completed else Failed, payload, nowMs);
      WorkerMoves(c, s, w, if s.g.Listed(id) then Marked else Ended, g');
    }
  }

  lemma {:induction false} SignalDoneInv(c: Config, s: System, w: nat)
    requires Inv(c, s)
    ensures Inv(c, Apply(c, s, SignalDone(w)))
  {
    if w < |s.workers| && s.workers[w].pc == Marked {
      assert WorkerOk(s.g, s.workers[w]);
      WorkerMoves(c, s, w, Ended, SetDone(s.g, s.workers[w].id));
    }
  }

  lemma {:induction false} DieInv(c: Config, s: System, w: nat)
    requires Inv(c, s)
    ensures Inv(c, Apply(c, s, Die(w)))
  {
    if w < |s.workers| && s.workers[w].pc == Scanning {
      assert WorkerOk(s.g, s.workers[w]);
      WorkerMoves(c, s, w, Dead, s.g);
    }
  }

  lemma {:induction false} HandlerStepInv(c: Config, s: System, step: Step)
    requires Inv(c, s) && (step.ReadState? || step.Wake? || step.TimeOut? || step.LookUp?)
    ensures Inv(c, Apply(c, s, step))
  {
    if step.t in s.handlers && Apply(c, s, step) != s {
      assert HandlerOk(s, s.handlers[step.t]);
      HandlerMoves(c, s, step.t, Apply(c, s, step).handlers[step.t]);
    }
  }

  lemma {:induction false} StepInv(c: Config, s: System, step: Step)
    requires Inv(c, s)
    ensures Inv(c, Apply(c, s, step))
  {
    match step
    case Start(t, id, nowMs) => StartInv(c, s, t, id, nowMs);
    case KickOff(t) =>
      if t in s.handlers && s.handlers[t].Owner? {
        KickOffInv(c, s, t);
      }
    case FinishScan(w, ok, payload, nowMs) => FinishScanInv(c, s, w, ok, payload, nowMs);
    case SignalDone(w) => SignalDoneInv(c, s, w);
    case Die(w) => DieInv(c, s, w);
    case _ => HandlerStepInv(c, s, step);
  }

  /** Every reachable state of every run satisfies the invariant. */
  lemma {:induction false} RunInv(c: Config, s: System, steps: seq<Step>)
    requires Initial(s)
    ensures Inv(c, Run(c, s, steps))
  {
    if steps != [] {
      RunInv(c, s, steps[..|steps| - 1]);
      StepInv(c, Run(c, s, steps[..|steps| - 1]), steps[|steps| - 1]);
    }
  }

  // Consequences for every run

  /** Each record has exactly one worker, or exactly one handler about to start it; a worker that ended has signalled. */
  lemma {:induction false} OneWorkerPerRecord(c: Config, s: System, steps: seq<Step>, id: Id)
    requires Initial(s) && id in Run(c, s, steps).g.heap
    ensures var r := Run(c, s, steps);
            && HasWorker(r, id) != HasOwner(r, id)
            && (forall v, w :: 0 <= v < |r.workers| && 0 <= w < |r.workers| && r.workers[v].id == id && r.workers[w].id == id ==> v == w)
            && (forall w :: 0 <= w < |r.workers| && r.workers[w] == Worker(id, Ended) ==> r.g.heap[id].done)
  {
    RunInv(c, s, steps);
    var r := Run(c, s, steps);
    if HasOwner(r, id) {
      var t :| t in r.handlers && r.handlers[t].Owner? && r.handlers[t].id == id;
      assert HandlerOk(r, r.handlers[t]);
    }
    forall w | 0 <= w < |r.workers| && r.workers[w] == Worker(id, Ended)
      ensures r.g.heap[id].done
    {
      assert WorkerOk(r.g, r.workers[w]);
    }
  }

  /** A waiter that is woken and finds its record gets a finished state and a result, whatever the caps. */
  lemma {:induction false} WokenWaiterNeverSeesRunning(c: Config, s: System, steps: seq<Step>, t: int)
    requires Initial(s) && t in Run(c, s, steps).handlers
    requires Run(c, s, steps).handlers[t].Replied? && Run(c, s, steps).handlers[t].reply.Final?
    ensures var reply := Run(c, s, steps).handlers[t].reply; reply.state != Running && reply.result.Some?
  {
    RunInv(c, s, steps);
    assert HandlerOk(Run(c, s, steps), Run(c, s, steps).handlers[t]);
  }

  /** The registry stays within its cap and runs at most one scan of each kind. */
  lemma {:induction false} RegistryBounds(c: Config, s: System, steps: seq<Step>)
    requires Initial(s)
    ensures var g := Run(c, s, steps).g; |g.order| <= c.maxRecords && OnePerKind(g) && CountRunning(g, |g.order|) <= 2
  {
    RunInv(c, s, steps);
    RunningBound(Run(c, s, steps).g, Panes);
  }

  ghost predicate Unchanged(g: Registry, g': Registry, id: Id)
    requires id in g.heap
  {
    && id in g'.heap && g'.heap[id].state == g.heap[id].state
    && g'.heap[id].result == g.heap[id].result && g'.heap[id].completedAtMs == g.heap[id].completedAtMs
  }

  lemma {:induction false} EvictListsFewer(g: Registry, max: nat)
    ensures forall id :: id in Evict(g, max).order ==> id in g.order
    decreases |g.order|
  {
    if |g.order| > max {
      EvictListsFewer(EvictOne(g), max);
    }
  }

  /** A registry and its successor: one more record, and nothing done to the others but setting events and evicting. */
  ghost predicate Grew(g: Registry, g': Registry, kind: Kind, newId: Id) {
    && newId !in g.heap && g'.heap.Keys == g.heap.Keys + {newId} && g'.heap[newId].kind == kind
    && OnlySignals(g, g') && forall id :: id in g'.order ==> id in g.order || id == newId
  }

  lemma {:induction false} StartGrows(c: Config, s: System, t: int, newId: Id, nowMs: int)
    requires Inv(c, s) && Apply(c, s, Start(t, newId, nowMs)).g != s.g
    ensures t in s.handlers && s.handlers[t].Begin? && StartOutcome(s.g, s.handlers[t].kind, newId, c.maxInFlight).Fresh?
    ensures Grew(s.g, Apply(c, s, Start(t, newId, nowMs)).g, s.handlers[t].kind, newId)
  {
    var h := s.handlers[t];
    StartRegistry(s.g, c, h.kind, h.session, newId, nowMs);
    EvictListsFewer(Insert(s.g, newId, NewRecord(h.kind, h.session, nowMs)), c.maxRecords);
  }

  lemma {:induction false} FinishedStays(c: Config, s: System, step: Step, id: Id)
    requires Inv(c, s) && id in s.g.heap && !s.g.IsRunning(id)
    ensures Unchanged(s.g, Apply(c, s, step).g, id)
  {
    if step.Start? {
      if Apply(c, s, step).g != s.g {
        StartGrows(c, s, step.t, step.newId, step.nowMs);
        assert SignalledOnly(s.g.heap[id], Apply(c, s, step).g.heap[id]);
      }
    } else if step.FinishScan? && step.w < |s.workers| {
      assert WorkerOk(s.g, s.workers[step.w]);
    }
  }

  lemma {:induction false} RunSnoc(c: Config, s: System, steps: seq<Step>, step: Step)
    ensures Run(c, s, steps + [step]) == Apply(c, Run(c, s, steps), step)
  {
    assert (steps + [step])[..|steps + [step]| - 1] == steps;
  }

  lemma {:induction false} FinishedNext(c: Config, s: System, steps: seq<Step>, step: Step, id: Id)
    requires Initial(s) && id in Run(c, s, steps).g.heap && !Run(c, s, steps).g.IsRunning(id)
    ensures Unchanged(Run(c, s, steps).g, Run(c, s, steps + [step]).g, id)
  {
    RunInv(c, s, steps);
    FinishedStays(c, Run(c, s, steps), step, id);
    RunSnoc(c, s, steps, step);
  }

  /** A record finishes once: from then on its state, result and completion time never change. */
  lemma {:induction false} FinishedForGood(c: Config, s: System, steps: seq<Step>, more: seq<Step>, id: Id)
    requires Initial(s) && id in Run(c, s, steps).g.heap && !Run(c, s, steps).g.IsRunning(id)
    ensures Unchanged(Run(c, s, steps).g, Run(c, s, steps + more).g, id)
    decreases |more|
  {
    if more == [] {
      assert steps + more == steps;
    } else {
      FinishedNext(c, s, steps, more[0], id);
      FinishedForGood(c, s, steps + [more[0]], more[1..], id);
      assert steps + [more[0]] + more[1..] == steps + more;
    }
  }

  lemma {:induction false} DeadStays(c: Config, s: System, step: Step, w: nat)
    requires w < |s.workers| && s.workers[w].pc == Dead
    ensures w < |Apply(c, s, step).workers| && Apply(c, s, step).workers[w] == s.workers[w]
  {
  }

  ghost predicate DeadAt(s: System, w: nat, id: Id) {
    w < |s.workers| && s.workers[w] == Worker(id, Dead)
  }

  lemma {:induction false} DeadNext(c: Config, s: System, steps: seq<Step>, step: Step, w: nat, id: Id)
    requires DeadAt(Run(c, s, steps), w, id)
    ensures DeadAt(Run(c, s, steps + [step]), w, id)
  {
    DeadStays(c, Run(c, s, steps), step, w);
    RunSnoc(c, s, steps, step);
  }

  lemma {:induction false} DeadLater(c: Config, s: System, steps: seq<Step>, more: seq<Step>, w: nat, id: Id)
    requires DeadAt(Run(c, s, steps), w, id)
    ensures DeadAt(Run(c, s, steps + more), w, id)
    decreases |more|
  {
    if more == [] {
      assert steps + more == steps;
    } else {
      DeadNext(c, s, steps, more[0], w, id);
      DeadLater(c, s, steps + [more[0]], more[1..], w, id);
      assert steps + [more[0]] + more[1..] == steps + more;
    }
  }

  lemma {:induction false} DeadRuns(c: Config, s: System, w: nat)
    requires Inv(c, s) && w < |s.workers| && s.workers[w].pc == Dead
    ensures s.g.IsRunning(s.workers[w].id)
  {
    assert WorkerOk(s.g, s.workers[w]);
  }

  /** A worker that died leaves its record running: no continuation ever finishes it. */
  lemma {:induction false} DeadForGood(c: Config, s: System, steps: seq<Step>, more: seq<Step>, w: nat)
    requires Initial(s) && w < |Run(c, s, steps).workers| && Run(c, s, steps).workers[w].pc == Dead
    ensures w < |Run(c, s, steps + more).workers| && Run(c, s, steps + more).workers[w] == Run(c, s, steps).workers[w]
    ensures Run(c, s, steps + more).g.IsRunning(Run(c, s, steps).workers[w].id)
  {
    DeadLater(c, s, steps, more, w, Run(c, s, steps).workers[w].id);
    RunInv(c, s, steps + more);
    DeadRuns(c, Run(c, s, steps + more), w);
  }

  // Which running records can still finish

  /** A running record that the registry no longer lists. */
  ghost predicate Forgotten(s: System, id: Id) {
    s.g.IsRunning(id) && id !in s.g.order
  }

  lemma {:induction false} GrewForgets(g: Registry, g': Registry, kind: Kind, newId: Id, id: Id)
    requires Grew(g, g', kind, newId) && g.IsRunning(id) && id !in g.order
    ensures g'.IsRunning(id) && id !in g'.order
  {
    assert SignalledOnly(g.heap[id], g'.heap[id]);
  }

  lemma {:induction false} ForgottenStays(c: Config, s: System, step: Step, id: Id)
    requires Inv(c, s) && Forgotten(s, id)
    ensures Forgotten(Apply(c, s, step), id)
  {
    if step.Start? && Apply(c, s, step).g != s.g {
      StartGrows(c, s, step.t, step.newId, step.nowMs);
      GrewForgets(s.g, Apply(c, s, step).g, s.handlers[step.t].kind, step.newId, id);
    }
  }

  lemma {:induction false} ForgottenNext(c: Config, s: System, steps: seq<Step>, step: Step, id: Id)
    requires Initial(s) && Forgotten(Run(c, s, steps), id)
    ensures Forgotten(Run(c, s, steps + [step]), id)
  {
    RunInv(c, s, steps);
    ForgottenStays(c, Run(c, s, steps), step, id);
    RunSnoc(c, s, steps, step);
  }

  /** The worker of a record that was evicted while it ran has nowhere to put the outcome. */
  lemma {:induction false} ForgottenForGood(c: Config, s: System, steps: seq<Step>, more: seq<Step>, id: Id)
    requires Initial(s) && Forgotten(Run(c, s, steps), id)
    ensures Forgotten(Run(c, s, steps + more), id)
    decreases |more|
  {
    if more == [] {
      assert steps + more == steps;
    } else {
      ForgottenNext(c, s, steps, more[0], id);
      ForgottenForGood(c, s, steps + [more[0]], more[1..], id);
      assert steps + [more[0]] + more[1..] == steps + more;
    }
  }

  ghost predicate Died(s: System, id: Id) {
    Worker(id, Dead) in s.workers
  }

  /** The worker of a listed running record that has not died is still scanning. */
  lemma {:induction false} StillScanning(c: Config, s: System, id: Id, w: nat)
    requires Inv(c, s) && s.g.IsRunning(id) && id in s.g.order && !Died(s, id) && w < |s.workers| && s.workers[w].id == id
    ensures s.workers[w] == Worker(id, Scanning)
  {
    assert WorkerOk(s.g, s.workers[w]) && s.workers[w] in s.workers;
  }

  const DONE_SCAN := Summary("")

  lemma {:induction false} ScanEnds(c: Config, s: System, id: Id, w: nat)
    requires s.g.IsRunning(id) && id in s.g.order && w < |s.workers| && s.workers[w] == Worker(id, Scanning)
    ensures !Apply(c, s, FinishScan(w, true, DONE_SCAN, 0)).g.IsRunning(id)
  {
  }

  lemma {:induction false} OwnerStarts(c: Config, s: System, id: Id, t: int)
    requires s.g.IsRunning(id) && id in s.g.order && t in s.handlers && s.handlers[t].Owner? && s.handlers[t].id == id
    ensures var s' := Apply(c, s, KickOff(t)); s'.g == s.g && |s'.workers| == |s.workers| + 1 && s'.workers[|s.workers|] == Worker(id, Scanning)
  {
  }

  /** What is left of a scan that runs, is listed, and has not died: starting its worker if need be, and storing its outcome. */
  lemma {:induction false} CanFinish(c: Config, s: System, steps: seq<Step>, id: Id) returns (more: seq<Step>)
    requires Initial(s) && Run(c, s, steps).g.IsRunning(id) && id in Run(c, s, steps).g.order && !Died(Run(c, s, steps), id)
    ensures !Run(c, s, steps + more).g.IsRunning(id)
  {
    var r := Run(c, s, steps);
    RunInv(c, s, steps);
    assert HasWorker(r, id) || HasOwner(r, id);
    if HasWorker(r, id) {
      var w :| 0 <= w < |r.workers| && r.workers[w].id == id;
      StillScanning(c, r, id, w);
      more := [FinishScan(w, true, DONE_SCAN, 0)];
      ScanEnds(c, r, id, w);
      RunSnoc(c, s, steps, more[0]);
    } else {
      var t :| t in r.handlers && r.handlers[t].Owner? && r.handlers[t].id == id;
      OwnerStarts(c, r, id, t);
      ScanEnds(c, Apply(c, r, KickOff(t)), id, |r.workers|);
      RunSnoc(c, s, steps, KickOff(t));
      RunSnoc(c, s, steps + [KickOff(t)], FinishScan(|r.workers|, true, DONE_SCAN, 0));
      more := [KickOff(t), FinishScan(|r.workers|, true, DONE_SCAN, 0)];
      assert steps + more == steps + [KickOff(t)] + [more[1]];
    }
  }

  ghost predicate SomeFinish(c: Config, s: System, steps: seq<Step>, id: Id) {
    exists more :: !Run(c, s, steps + more).g.IsRunning(id)
  }

  /**
  In every run, a running record can still finish if and only if the registry lists it and its worker has not died:
  an outcome for an evicted record is dropped, and nobody stores one for a worker that died.
  */
  lemma {:induction false} FinishableIff(c: Config, s: System, steps: seq<Step>, id: Id)
    requires Initial(s) && Run(c, s, steps).g.IsRunning(id)
    ensures SomeFinish(c, s, steps, id) <==> id in Run(c, s, steps).g.order && !Died(Run(c, s, steps), id)
  {
    var r := Run(c, s, steps);
    if id in r.g.order && !Died(r, id) {
      var more := CanFinish(c, s, steps, id);
    } else {
      forall more: seq<Step>
        ensures Run(c, s, steps + more).g.IsRunning(id)
      {
        if id !in r.g.order {
          ForgottenForGood(c, s, steps, more, id);
        } else {
          var w :| 0 <= w < |r.workers| && r.workers[w] == Worker(id, Dead);
          DeadForGood(c, s, steps, more, w);
        }
      }
    }
  }

  // When the in-flight cap is felt

  predicate CapFelt(c: Config) {
    c.maxInFlight <= (if c.maxRecords == 0 then 0 else 1)
  }

  ghost predicate NobodyRefused(s: System) {
    forall t :: t in s.handlers ==> s.handlers[t] != Replied(CapRefused)
  }

  lemma {:induction false} StartNotRefused(c: Config, g: Registry, kind: Kind, id: Id)
    requires RegistryInv(g, c.maxRecords) && !CapFelt(c)
    ensures StartOutcome(g, kind, id, c.maxInFlight) != CapExceeded
  {
    if FirstRunning(g, kind, 0) == |g.order| {
      NoneRunning(g, kind);
      RunningBound(g, kind);
    }
  }

  lemma {:induction false} NeverRefused(c: Config, s: System, steps: seq<Step>)
    requires Initial(s) && !CapFelt(c)
    ensures NobodyRefused(Run(c, s, steps))
  {
    if steps != [] {
      var front, step := steps[..|steps| - 1], steps[|steps| - 1];
      NeverRefused(c, s, front);
      RunInv(c, s, front);
      var r := Run(c, s, front);
      if step.Start? && step.t in r.handlers && r.handlers[step.t].Begin? {
        StartNotRefused(c, r.g, r.handlers[step.t].kind, step.newId);
      }
    }
  }

  const TWO_CALLERS := System(EMPTY_REGISTRY, map[0 := Begin(Containers, true, 0), 1 := Begin(Panes, true, 0)], [])
  const FIRST_START := Start(0, ['a'], 0)
  const SECOND_START := Start(1, ['b'], 0)

  /** The two callers start one after the other. */
  lemma {:induction false} OneStart(c: Config)
    requires c.maxInFlight >= 1
    ensures Run(c, TWO_CALLERS, [FIRST_START]) ==
            System(Evict(Insert(EMPTY_REGISTRY, ['a'], NewRecord(Containers, 0, 0)), c.maxRecords),
                   TWO_CALLERS.handlers[0 := Owner(['a'], true)], [])
  {
    assert [FIRST_START][..0] == [];
  }

  lemma {:induction false} TwoStarts(c: Config)
    ensures Run(c, TWO_CALLERS, [FIRST_START, SECOND_START]) == Apply(c, Run(c, TWO_CALLERS, [FIRST_START]), SECOND_START)
  {
    assert [FIRST_START, SECOND_START][..1] == [FIRST_START];
  }

  lemma {:induction false} OneListed(c: Config)
    requires c.maxRecords >= 1
    ensures Evict(Insert(EMPTY_REGISTRY, ['a'], NewRecord(Containers, 0, 0)), c.maxRecords) == Insert(EMPTY_REGISTRY, ['a'], NewRecord(Containers, 0, 0))
    ensures var g := Insert(EMPTY_REGISTRY, ['a'], NewRecord(Containers, 0, 0));
            g.order == [['a']] && CountRunning(g, 1) == 1 && FirstRunning(g, Panes, 0) == 1
  {
    var g := Insert(EMPTY_REGISTRY, ['a'], NewRecord(Containers, 0, 0));
    assert g.order == [['a']];
  }

  lemma {:induction false} OneRefused(c: Config)
    requires c.maxInFlight <= 0
    ensures Run(c, TWO_CALLERS, [FIRST_START]) == TWO_CALLERS.(handlers := TWO_CALLERS.handlers[0 := Replied(CapRefused)])
  {
    assert [FIRST_START][..0] == [];
    assert Run(c, TWO_CALLERS, []) == TWO_CALLERS;
  }

  lemma {:induction false} SomeoneRefused(c: Config) returns (steps: seq<Step>)
    requires CapFelt(c)
    ensures !NobodyRefused(Run(c, TWO_CALLERS, steps))
  {
    if c.maxInFlight <= 0 {
      steps := [FIRST_START];
      OneRefused(c);
      assert Run(c, TWO_CALLERS, steps).handlers[0] == Replied(CapRefused);
    } else {
      steps := [FIRST_START, SECOND_START];
      OneStart(c);
      TwoStarts(c);
      OneListed(c);
      assert Run(c, TWO_CALLERS, steps).handlers[1] == Replied(CapRefused);
    }
  }

  /** `ScanCapExceeded` is out of reach exactly when the in-flight cap is above what the two kinds, and the table, can hold besides the caller. */
  lemma {:induction false} CapUnreachableIff(c: Config)
    ensures (forall s: System, steps: seq<Step> :: Initial(s) ==> NobodyRefused(Run(c, s, steps))) <==> !CapFelt(c)
  {
    if CapFelt(c) {
      var steps := SomeoneRefused(c);
      assert Initial(TWO_CALLERS);
    } else {
      forall s: System, steps: seq<Step> | Initial(s)
        ensures NobodyRefused(Run(c, s, steps))
      {
        NeverRefused(c, s, steps);
      }
    }
  }

  // When a running record can be evicted

  predicate RoomForAll(c: Config) {
    c.maxRecords >= 2 || c.maxRecords >= c.maxInFlight
  }

  ghost predicate RunningListed(g: Registry) {
    forall id :: id in g.heap && g.IsRunning(id) ==> id in g.order
  }

  lemma {:induction false} CountFrame(g: Registry, g': Registry, n: nat)
    requires n <= |g.order| && n <= |g'.order| && forall i :: 0 <= i < n ==> g.order[i] == g'.order[i]
    requires forall i :: 0 <= i < n ==> g.IsRunning(g.order[i]) == g'.IsRunning(g.order[i])
    ensures CountRunning(g, n) == CountRunning(g', n)
  {
    if n > 0 {
      CountFrame(g, g', n - 1);
    }
  }

  /** A running record is only evicted when all are running, which takes no more than two and no more than the in-flight cap. */
  lemma {:induction false} StartKeepsRunning(c: Config, g: Registry, kind: Kind, session: int, id: Id, nowMs: int)
    requires RegistryInv(g, c.maxRecords) && RunningListed(g) && RoomForAll(c) && id !in g.heap
    requires StartOutcome(g, kind, id, c.maxInFlight).Fresh?
    ensures RunningListed(StartStep(g, kind, session, id, nowMs, c.maxRecords, c.maxInFlight))
  {
    NoneRunning(g, kind);
    InsertInv(g, c.maxRecords, kind, id, session, nowMs);
    var g1 := Insert(g, id, NewRecord(kind, session, nowMs));
    RunningBound(g1, kind);
    CountFrame(g, g1, |g.order|);
    assert CountRunning(g1, |g1.order|) <= CountRunning(g, |g.order|) + 1;
    if CountRunning(g1, |g1.order|) < |g1.order| {
      SomeFinished(g1);
    }
    EvictFinishedOnly(g1, c.maxRecords);
  }

  lemma {:induction false} SomeFinished(g: Registry)
    requires CountRunning(g, |g.order|) < |g.order|
    ensures exists x :: x in g.order && !g.IsRunning(x)
  {
    if forall i :: 0 <= i < |g.order| ==> g.IsRunning(g.order[i]) {
      CountAll(g, |g.order|);
    }
  }

  lemma {:induction false} EvictFinishedOnly(g: Registry, max: nat)
    requires g.Valid() && |g.order| <= max + 1 && OnePerKind(g) && DoneMeans(g) && RunningListed(g)
    requires |g.order| == max + 1 ==> exists x :: x in g.order && !g.IsRunning(x)
    ensures RunningListed(Evict(g, max))
  {
    if |g.order| == max + 1 {
      var v := EvictOneDrops(g);
      assert !g.IsRunning(v);
      assert Evict(g, max) == EvictOne(g);
    }
  }

  lemma {:induction false} NoRunningEvicted(c: Config, s: System, steps: seq<Step>)
    requires Initial(s) && RoomForAll(c)
    ensures RunningListed(Run(c, s, steps).g)
  {
    if steps != [] {
      var front, step := steps[..|steps| - 1], steps[|steps| - 1];
      NoRunningEvicted(c, s, front);
      RunInv(c, s, front);
      var r := Run(c, s, front);
      if step.Start? && step.t in r.handlers && r.handlers[step.t].Begin? && step.newId !in r.g.heap {
        var h := r.handlers[step.t];
        if StartOutcome(r.g, h.kind, step.newId, c.maxInFlight).Fresh? {
          StartKeepsRunning(c, r.g, h.kind, h.session, step.newId, step.nowMs);
        }
      }
    }
  }

  lemma {:induction false} FirstEvicted(g: Registry)
    requires g == Insert(EMPTY_REGISTRY, ['a'], NewRecord(Containers, 0, 0))
    ensures var g' := Evict(g, 0); g'.order == [] && g'.IsRunning(['a'])
  {
    assert g.order == [['a']];
    assert FirstFinished(g, 0) == 1;
    assert EvictOne(g).order == [];
    assert Evict(g, 0) == EvictOne(g);
  }

  lemma {:induction false} SecondEvictsFirst(g: Registry)
    requires g == Insert(EMPTY_REGISTRY, ['a'], NewRecord(Containers, 0, 0))
    ensures var g' := Evict(Insert(g, ['b'], NewRecord(Panes, 0, 0)), 1); g'.order == [['b']] && g'.IsRunning(['a'])
  {
    var g2 := Insert(g, ['b'], NewRecord(Panes, 0, 0));
    assert g2.order == [['a'], ['b']];
    assert FirstFinished(g2, 0) == 2;
    assert EvictOne(g2).order == [['b']];
    assert Evict(g2, 1) == EvictOne(g2);
  }

  lemma {:induction false} SomeRunningEvicted(c: Config) returns (steps: seq<Step>)
    requires !RoomForAll(c)
    ensures ['a'] in Run(c, TWO_CALLERS, steps).g.heap && !RunningListed(Run(c, TWO_CALLERS, steps).g)
  {
    var g := Insert(EMPTY_REGISTRY, ['a'], NewRecord(Containers, 0, 0));
    OneStart(c);
    if c.maxRecords == 0 {
      steps := [FIRST_START];
      FirstEvicted(g);
    } else {
      steps := [FIRST_START, SECOND_START];
      TwoStarts(c);
      OneListed(c);
      SecondEvictsFirst(g);
    }
    assert Run(c, TWO_CALLERS, steps).g.IsRunning(['a']);
  }

  ghost predicate DoneIsFinished(g: Registry) {
    forall id :: id in g.heap && g.heap[id].done ==> !g.IsRunning(id)
  }

  lemma {:induction false} SameThing(g: Registry, maxRecords: nat)
    requires RegistryInv(g, maxRecords)
    ensures RunningListed(g) <==> DoneIsFinished(g)
  {
  }

  /** A set done event means a finished scan in every run exactly when the table has room for every scan that can run at once. */
  lemma {:induction false} DoneIsFinishedIff(c: Config)
    ensures (forall s: System, steps: seq<Step> :: Initial(s) ==> DoneIsFinished(Run(c, s, steps).g)) <==> RoomForAll(c)
  {
    if RoomForAll(c) {
      forall s: System, steps: seq<Step> | Initial(s)
        ensures DoneIsFinished(Run(c, s, steps).g)
      {
        NoRunningEvicted(c, s, steps);
        RunInv(c, s, steps);
        SameThing(Run(c, s, steps).g, c.maxRecords);
      }
    } else {
      var steps := SomeRunningEvicted(c);
      assert Initial(TWO_CALLERS);
      RunInv(c, TWO_CALLERS, steps);
      SameThing(Run(c, TWO_CALLERS, steps).g, c.maxRecords);
    }
  }

  // What a dead worker blocks

  /** Every call for a scan of the kind is answered with the one record. */
  ghost predicate Answered(c: Config, g: Registry, kind: Kind, id: Id) {
    forall newId :: StartOutcome(g, kind, newId, c.maxInFlight) == Coalesced(id)
  }

  lemma {:induction false} OnlyRunning(g: Registry, c: Config, id: Id)
    requires g.Valid() && OnePerKind(g) && id in g.order && g.IsRunning(id)
    ensures Answered(c, g, g.heap[id].kind, id)
  {
    var kind := g.heap[id].kind;
    var i := FirstRunning(g, kind, 0);
    if i == |g.order| {
      NoneRunning(g, kind);
    }
    assert g.order[i] == id;
  }

  function OfKind(g: Registry, kind: Kind): set<Id> {
    set id | id in g.heap && g.heap[id].kind == kind
  }

  lemma {:induction false} KindsStay(c: Config, s: System, step: Step, kind: Kind)
    requires !step.Start?
    ensures OfKind(Apply(c, s, step).g, kind) == OfKind(s.g, kind)
  {
  }

  /** While every call for the kind is answered so, no record of the kind is made. */
  lemma {:induction false} NoneMade(c: Config, s: System, step: Step, kind: Kind, id: Id)
    requires Inv(c, s) && Answered(c, s.g, kind, id)
    ensures OfKind(Apply(c, s, step).g, kind) == OfKind(s.g, kind)
  {
    if !step.Start? {
      KindsStay(c, s, step, kind);
    } else if Apply(c, s, step).g != s.g {
      StartGrows(c, s, step.t, step.newId, step.nowMs);
      OthersOfKind(s.g, Apply(c, s, step).g, kind, s.handlers[step.t].kind, step.newId);
    }
  }

  lemma {:induction false} OthersOfKind(g: Registry, g': Registry, kind: Kind, other: Kind, newId: Id)
    requires Grew(g, g', other, newId) && other != kind
    ensures OfKind(g', kind) == OfKind(g, kind)
  {
    assert forall id :: id in g.heap ==> SignalledOnly(g.heap[id], g'.heap[id]);
  }

  lemma {:induction false} DeadAnswers(c: Config, s: System, steps: seq<Step>, w: nat, id: Id)
    requires Initial(s) && RoomForAll(c) && DeadAt(Run(c, s, steps), w, id)
    ensures id in Run(c, s, steps).g.heap && Answered(c, Run(c, s, steps).g, Run(c, s, steps).g.heap[id].kind, id)
    ensures !Run(c, s, steps).g.heap[id].done
  {
    var r := Run(c, s, steps);
    RunInv(c, s, steps);
    DeadRuns(c, r, w);
    NoRunningEvicted(c, s, steps);
    OnlyRunning(r.g, c, id);
  }

  lemma {:induction false} NoneMadeNext(c: Config, s: System, steps: seq<Step>, step: Step, kind: Kind, id: Id)
    requires Initial(s) && Answered(c, Run(c, s, steps).g, kind, id)
    ensures OfKind(Run(c, s, steps + [step]).g, kind) == OfKind(Run(c, s, steps).g, kind)
  {
    RunInv(c, s, steps);
    NoneMade(c, Run(c, s, steps), step, kind, id);
    RunSnoc(c, s, steps, step);
  }

  /** A worker died over a record of the kind, of which there are just these. */
  ghost predicate DeadAmong(s: System, w: nat, id: Id, kind: Kind, ids: set<Id>) {
    DeadAt(s, w, id) && OfKind(s.g, kind) == ids && id in ids
  }

  lemma {:induction false} AmongNext(c: Config, s: System, steps: seq<Step>, step: Step, w: nat, id: Id, kind: Kind, ids: set<Id>)
    requires Initial(s) && RoomForAll(c) && DeadAmong(Run(c, s, steps), w, id, kind, ids)
    ensures DeadAmong(Run(c, s, steps + [step]), w, id, kind, ids)
  {
    DeadAnswers(c, s, steps, w, id);
    DeadNext(c, s, steps, step, w, id);
    NoneMadeNext(c, s, steps, step, kind, id);
  }

  lemma {:induction false} AmongLater(c: Config, s: System, steps: seq<Step>, more: seq<Step>, w: nat, id: Id, kind: Kind, ids: set<Id>)
    requires Initial(s) && RoomForAll(c) && DeadAmong(Run(c, s, steps), w, id, kind, ids)
    ensures DeadAmong(Run(c, s, steps + more), w, id, kind, ids)
    decreases |more|
  {
    if more == [] {
      assert steps + more == steps;
    } else {
      AmongNext(c, s, steps, more[0], w, id, kind, ids);
      AmongLater(c, s, steps + [more[0]], more[1..], w, id, kind, ids);
      assert steps + [more[0]] + more[1..] == steps + more;
    }
  }

  /**
  With room for every scan, a dead worker blocks its kind.  Whatever happens next, every call for the kind is answered
  with the dead record, no other record of the kind is made, and no waiter is woken.
  */
  lemma {:induction false} DeadBlocksKind(c: Config, s: System, steps: seq<Step>, more: seq<Step>, w: nat, id: Id)
    requires Initial(s) && RoomForAll(c) && DeadAt(Run(c, s, steps), w, id)
    ensures id in Run(c, s, steps).g.heap && id in Run(c, s, steps + more).g.heap
    ensures var g, g', kind := Run(c, s, steps).g, Run(c, s, steps + more).g, Run(c, s, steps).g.heap[id].kind;
            Answered(c, g', kind, id) && OfKind(g', kind) == OfKind(g, kind) && !g'.heap[id].done
  {
    DeadAnswers(c, s, steps, w, id);
    var kind := Run(c, s, steps).g.heap[id].kind;
    AmongLater(c, s, steps, more, w, id, kind, OfKind(Run(c, s, steps).g, kind));
    DeadAnswers(c, s, steps + more, w, id);
  }

  /** A run that gets there, under any caps that admit a scan at all: a caller starts a scan, and its worker dies. */
  lemma {:induction false} WorkerDies(c: Config) returns (steps: seq<Step>)
    requires c.maxInFlight >= 1
    ensures Initial(TWO_CALLERS) && DeadAt(Run(c, TWO_CALLERS, steps), 0, ['a'])
  {
    OneStart(c);
    RunSnoc(c, TWO_CALLERS, [FIRST_START], KickOff(0));
    RunSnoc(c, TWO_CALLERS, [FIRST_START] + [KickOff(0)], Die(0));
    steps := [FIRST_START] + [KickOff(0)] + [Die(0)];
  }

  /** The shipped caps. */
  lemma {:induction false} DefaultCaps()
    ensures var c := Config(MAX_RECORDS, MAX_IN_FLIGHT); !CapFelt(c) && RoomForAll(c)
  {
  }
}
