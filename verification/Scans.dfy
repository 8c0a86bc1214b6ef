/**
The scan registry: at most one running scan per kind, an in-flight cap, and a bounded table that evicts the
oldest finished record.  A record outlives its eviction while a thread still refers to it, so `heap` holds
every record ever made and `order` the ones the registry still lists, oldest first.
*/
module Scans {
  import opened OrderedDicts

  const MAX_RECORDS := 100
  const MAX_IN_FLIGHT := 4

  datatype Kind = Containers | Panes
  datatype ScanState = Running | Completed | Failed
  datatype Payload = Summary(text: string) | ErrorClass(name: string)

  datatype Record = Record(
    kind: Kind, state: ScanState, startedAtMs: int, session: int,
    completedAtMs: Option<int>, result: Option<Payload>, done: bool)

  type Id = string

  datatype Registry = Registry(order: seq<Id>, heap: map<Id, Record>) {
    ghost predicate Valid() {
      Distinct(order) && forall id :: id in order ==> id in heap
    }

    predicate Listed(id: Id) {
      id in order && id in heap
    }

    predicate IsRunning(id: Id) {
      id in heap && heap[id].state == Running
    }
  }

  const EMPTY_REGISTRY := Registry([], map[])

  /** The position of the oldest listed record of `kind` that is running, or the length. */
  function FirstRunning(g: Registry, kind: Kind, from: nat): (i: nat)
    requires from <= |g.order|
    ensures from <= i <= |g.order|
    ensures i < |g.order| ==> g.IsRunning(g.order[i]) && g.heap[g.order[i]].kind == kind
    ensures forall j :: from <= j < i ==> !(g.IsRunning(g.order[j]) && g.heap[g.order[j]].kind == kind)
    decreases |g.order| - from
  {
    if from == |g.order| || (g.IsRunning(g.order[from]) && g.heap[g.order[from]].kind == kind) then from
    else FirstRunning(g, kind, from + 1)
  }

  function FirstFinished(g: Registry, from: nat): (i: nat)
    requires from <= |g.order|
    ensures from <= i <= |g.order|
    ensures i < |g.order| ==> !g.IsRunning(g.order[i])
    ensures forall j :: from <= j < i ==> g.IsRunning(g.order[j])
    decreases |g.order| - from
  {
    if from == |g.order| || !g.IsRunning(g.order[from]) then from else FirstFinished(g, from + 1)
  }

  function CountRunning(g: Registry, n: nat): (c: nat)
    requires n <= |g.order|
    ensures c <= n
  {
    if n == 0 then 0 else CountRunning(g, n - 1) + (if g.IsRunning(g.order[n - 1]) then 1 else 0)
  }

  function SetDone(g: Registry, id: Id): Registry {
    if id in g.heap then g.(heap := g.heap[id := g.heap[id].(done := true)]) else g
  }

  /** Dropping the oldest finished record, or else the oldest one, whose waiters are woken. */
  function EvictOne(g: Registry): (g': Registry)
    requires g.order != []
    ensures |g'.order| == |g.order| - 1
  {
    var i := FirstFinished(g, 0);
    if i < |g.order| then g.(order := g.order[..i] + g.order[i + 1..])
    else SetDone(g, g.order[0]).(order := g.order[1..])
  }

  function Evict(g: Registry, max: nat): (g': Registry)
    ensures |g'.order| <= max
    decreases |g.order|
  {
    if |g.order| <= max then g else Evict(EvictOne(g), max)
  }

  datatype Started = Coalesced(id: Id) | CapExceeded | Fresh(id: Id)

  function NewRecord(kind: Kind, session: int, nowMs: int): Record {
    Record(kind, Running, nowMs, session, None, None, false)
  }

  function Insert(g: Registry, id: Id, r: Record): Registry {
    Registry(g.order + [id], g.heap[id := r])
  }

  function StartOutcome(g: Registry, kind: Kind, id: Id, maxInFlight: int): Started {
    var i := FirstRunning(g, kind, 0);
    if i < |g.order| then Coalesced(g.order[i])
    else if CountRunning(g, |g.order|) >= maxInFlight then CapExceeded
    else Fresh(id)
  }

  function StartStep(g: Registry, kind: Kind, session: int, id: Id, nowMs: int, maxRecords: nat, maxInFlight: int): Registry {
    if StartOutcome(g, kind, id, maxInFlight).Fresh? then Evict(Insert(g, id, NewRecord(kind, session, nowMs)), maxRecords) else g
  }

  /** The part of `complete` and `fail` that runs under the lock. */
  function FinishStep(g: Registry, id: Id, state: ScanState, result: Payload, nowMs: int): Registry {
    if g.Listed(id) then g.(heap := g.heap[id := g.heap[id].(state := state, completedAtMs := Some(nowMs), result := Some(result))]) else g
  }

  class ScanRegistry {
    const maxRecords: nat
    const maxInFlight: int
    var g: Registry

    constructor (maxRecords: nat := MAX_RECORDS, maxInFlight: int := MAX_IN_FLIGHT)
      ensures g == EMPTY_REGISTRY && this.maxRecords == maxRecords && this.maxInFlight == maxInFlight
    {
      this.maxRecords := maxRecords;
      this.maxInFlight := maxInFlight;
      g := EMPTY_REGISTRY;
    }

    method Start(kind: Kind, session: int, id: Id, nowMs: int) returns (r: Started)
      requires g.Valid() && id !in g.heap
      modifies this`g
      ensures r == StartOutcome(old(g), kind, id, maxInFlight)
      ensures g == StartStep(old(g), kind, session, id, nowMs, maxRecords, maxInFlight)
    {
      var i := 0;
      while i < |g.order|
        invariant 0 <= i <= |g.order| && FirstRunning(g, kind, 0) == FirstRunning(g, kind, i)
      {
        var existing := g.heap[g.order[i]];
        if existing.kind == kind && existing.state == Running {
          return Coalesced(g.order[i]);
        }
        i := i + 1;
      }
      var inFlight := 0;
      for j := 0 to |g.order|
        invariant inFlight == CountRunning(g, j)
      {
        if g.heap[g.order[j]].state == Running {
          inFlight := inFlight + 1;
        }
      }
      if inFlight >= maxInFlight {
        return CapExceeded;
      }
      g := Insert(g, id, NewRecord(kind, session, nowMs));
      EvictIfOverCap();
      return Fresh(id);
    }

    method EvictIfOverCap()
      requires forall id :: id in g.order ==> id in g.heap
      modifies this`g
      ensures g == Evict(old(g), maxRecords)
    {
      while |g.order| > maxRecords
        invariant forall id :: id in g.order ==> id in g.heap
        invariant Evict(g, maxRecords) == Evict(old(g), maxRecords)
        decreases |g.order|
      {
        var i := 0;
        while i < |g.order| && g.heap[g.order[i]].state == Running
          invariant 0 <= i <= |g.order| && FirstFinished(g, 0) == FirstFinished(g, i)
        {
          i := i + 1;
        }
        if i < |g.order| {
          g := g.(order := g.order[..i] + g.order[i + 1..]);
        } else {
          g := SetDone(g, g.order[0]).(order := g.order[1..]);
        }
      }
    }

    /** `complete` and `fail`: the record is marked under the lock, its waiters are woken after. */
    method Finish(id: Id, state: ScanState, result: Payload, nowMs: int) returns (known: bool)
      requires g.Valid()
      modifies this`g
      ensures known == old(g).Listed(id)
      ensures var marked := FinishStep(old(g), id, state, result, nowMs); g == if known then SetDone(marked, id) else marked
    {
      if id !in g.order {
        return false;
      }
      g := g.(heap := g.heap[id := g.heap[id].(state := state, completedAtMs := Some(nowMs), result := Some(result))]);
      g := SetDone(g, id);
      return true;
    }

    method Lookup(id: Id) returns (r: Option<Record>)
      requires g.Valid()
      ensures r == if g.Listed(id) then Some(g.heap[id]) else None
    {
      r := if id in g.order then Some(g.heap[id]) else None;
    }
  }
}
