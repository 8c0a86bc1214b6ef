/**
Per-key mutexes, `acquire_in_order`, and the order in which the daemon's operations take their locks,
the database's write lock (`BEGIN IMMEDIATE`) among them.
*/
module Locks {
  import opened OrderedDicts

  // The per-key lock maps

  class Mutex {
    constructor () {}
  }

  class PerKeyLockMap<K(==, !new)> {
    var locks: map<K, Mutex>

    ghost predicate Valid()
      reads this
    {
      forall k, k' :: k in locks && k' in locks && k != k' ==> locks[k] != locks[k']
    }

    constructor ()
      ensures Valid() && locks == map[]
    {
      locks := map[];
    }

    /** Equal keys always get the same lock, distinct keys distinct ones, and a lock once handed out is never replaced. */
    method ForKey(key: K) returns (lock: Mutex)
      requires Valid()
      modifies this
      ensures Valid() && key in locks && locks[key] == lock
      ensures locks.Keys == old(locks).Keys + {key}
      ensures forall k :: k in old(locks) ==> locks[k] == old(locks)[k]
      ensures key !in old(locks) ==> fresh(lock)
    {
      if key in locks {
        lock := locks[key];
      } else {
        lock := new Mutex();
        locks := locks[key := lock];
      }
    }
  }

  // acquire_in_order

  datatype Lock = AgentLock(agent: string) | PathLock(path: string) | RegisterLock(pane: string) | ScanMutex | Database

  datatype Exit = Left | OrderViolation | BodyRaised

  /** The locks one thread holds, the last acquired last. */
  class Holder {
    var held: seq<Lock>

    constructor ()
      ensures held == []
    {
      held := [];
    }

    method Acquire(l: Lock)
      requires l !in held
      modifies this
      ensures held == old(held) + [l]
    {
      held := held + [l];
    }

    method Release(l: Lock)
      requires held != [] && held[|held| - 1] == l
      modifies this
      ensures held == old(held)[..|old(held)| - 1]
    {
      held := held[..|held| - 1];
    }

    /**
    `acquire_in_order` around a body.  Whether each acquire comes in time and whether the body raises are inputs.
    The thread leaves with what it came with, on every path; the body runs only if both locks came in time, and
    then with exactly these two on top, the agent's first.
    */
    method AcquireInOrder(agent: string, path: Option<string>, agentInTime: bool, pathInTime: bool, bodyRaises: bool)
      returns (exit: Exit, heldInBody: Option<seq<Lock>>)
      requires AgentLock(agent) !in held && (path.Some? ==> PathLock(path.value) !in held)
      modifies this
      ensures held == old(held)
      ensures exit == OrderViolation <==> !agentInTime || (path.Some? && !pathInTime)
      ensures exit == BodyRaised <==> exit != OrderViolation && bodyRaises
      ensures heldInBody == if exit == OrderViolation then None
                            else Some(old(held) + [AgentLock(agent)] + (if path.Some? then [PathLock(path.value)] else []))
    {
      if !agentInTime {
        return OrderViolation, None;
      }
      Acquire(AgentLock(agent));
      if path.Some? {
        if !pathInTime {
          Release(AgentLock(agent));
          return OrderViolation, None;
        }
        Acquire(PathLock(path.value));
        heldInBody := Some(held);
        exit := if bodyRaises then BodyRaised else Left;
        Release(PathLock(path.value));
      } else {
        heldInBody := Some(held);
        exit := if bodyRaises then BodyRaised else Left;
        assert held == old(held) + [AgentLock(agent)] + [];
      }
      Release(AgentLock(agent));
    }
  }

  // Any number of threads

  /** The operations by the locks they take. */
  datatype Program =
    | SetField(agent: string)
    | Attach(agent: string, path: Option<string>)
    | Register(pane: string, attach: Option<(string, Option<string>)>)
    | PaneScan

  function PathLocks(path: Option<string>): seq<Lock> {
    if path.Some? then [PathLock(path.value)] else []
  }

  /** The order in which an operation acquires its locks; it releases them in the opposite order. */
  function Plan(p: Program): (plan: seq<Lock>)
    ensures Distinct(plan)
  {
    match p
    case SetField(a) => [AgentLock(a), Database]
    case Attach(a, path) => [AgentLock(a)] + PathLocks(path) + [Database]
    case Register(pane, None) => [RegisterLock(pane), Database]
    case Register(pane, Some((a, path))) => [RegisterLock(pane), Database, AgentLock(a)] + PathLocks(path)
    case PaneScan => [ScanMutex, Database]
  }

  /** A thread holds the first `n` locks of its plan, going forward or unwinding. */
  datatype Phase = Acquiring(n: nat) | Releasing(n: nat)

  type Tid = int
  type Plans = map<Tid, seq<Lock>>
  datatype State = State(owner: map<Lock, Tid>, phase: map<Tid, Phase>)

  datatype Step =
    | Take(t: Tid)    // acquire the next lock, if it is free
    | Finish(t: Tid)  // leave the innermost block
    | Raise(t: Tid)   // an acquire times out, or the operation fails
    | Drop(t: Tid)    // release the last lock held

  predicate Knows(ps: Plans, s: State, t: Tid) {
    t in ps && t in s.phase && s.phase[t].n <= |ps[t]|
  }

  predicate Enabled(ps: Plans, s: State, step: Step) {
    && Knows(ps, s, step.t)
    && var plan, phase := ps[step.t], s.phase[step.t];
       match step
       case Take(_) => phase.Acquiring? && phase.n < |plan| && plan[phase.n] !in s.owner
       case Finish(_) => phase.Acquiring? && phase.n == |plan|
       case Raise(_) => phase.Acquiring?
       case Drop(_) => phase.Releasing? && phase.n > 0
  }

  /** A step that is not enabled changes nothing. */
  function Apply(ps: Plans, s: State, step: Step): State {
    if !Enabled(ps, s, step) then s
    else
      var t, plan, n := step.t, ps[step.t], s.phase[step.t].n;
      match step
      case Take(_) => State(s.owner[plan[n] := t], s.phase[t := Acquiring(n + 1)])
      case Finish(_) => State(s.owner, s.phase[t := Releasing(n)])
      case Raise(_) => State(s.owner, s.phase[t := Releasing(n)])
      case Drop(_) => State(s.owner - {plan[n - 1]}, s.phase[t := Releasing(n - 1)])
  }

  ghost function Begin(ps: Plans): State {
    State(map[], map t | t in ps :: Acquiring(0))
  }

  ghost function Run(ps: Plans, steps: seq<Step>): State {
    if steps == [] then Begin(ps) else Apply(ps, Run(ps, steps[..|steps| - 1]), steps[|steps| - 1])
  }

  // Who holds what

  predicate Holds(ps: Plans, s: State, t: Tid, l: Lock) {
    Knows(ps, s, t) && l in ps[t][..s.phase[t].n]
  }

  ghost predicate Inv(ps: Plans, s: State) {
    && s.phase.Keys == ps.Keys
    && (forall t :: t in ps ==> Distinct(ps[t]))
    && (forall t :: t in ps ==> Knows(ps, s, t))
    && (forall l :: l in s.owner ==> Holds(ps, s, s.owner[l], l))
    && (forall t, l :: t in ps && Holds(ps, s, t, l) ==> l in s.owner && s.owner[l] == t)
  }

  lemma {:induction false} TakeInv(ps: Plans, s: State, t: Tid)
    requires Inv(ps, s) && Enabled(ps, s, Take(t))
    ensures Inv(ps, Apply(ps, s, Take(t)))
  {
    var s', plan, n := Apply(ps, s, Take(t)), ps[t], s.phase[t].n;
    PrefixGrows(plan, n);
    forall u, l
      ensures Holds(ps, s', u, l) <==> Holds(ps, s, u, l) || (u == t && l == plan[n])
    {
    }
    forall u | u in ps
      ensures Knows(ps, s', u)
    {
      assert Knows(ps, s, u);
    }
  }

  lemma {:induction false} PrefixGrows(plan: seq<Lock>, n: nat)
    requires n < |plan|
    ensures forall l :: l in plan[..n + 1] <==> l in plan[..n] || l == plan[n]
  {
    assert plan[..n + 1] == plan[..n] + [plan[n]];
  }

  lemma {:induction false} DropInv(ps: Plans, s: State, t: Tid)
    requires Inv(ps, s) && Enabled(ps, s, Drop(t))
    ensures Inv(ps, Apply(ps, s, Drop(t)))
  {
    var s', plan, n := Apply(ps, s, Drop(t)), ps[t], s.phase[t].n;
    assert Holds(ps, s, t, plan[n - 1]) by { assert plan[..n][n - 1] == plan[n - 1]; }
    forall u, l
      ensures Holds(ps, s', u, l) <==> Holds(ps, s, u, l) && l != plan[n - 1]
    {
      assert plan[..n] == plan[..n - 1] + [plan[n - 1]] && plan[n - 1] !in plan[..n - 1];
    }
  }

  lemma {:induction false} TurnInv(ps: Plans, s: State, t: Tid)
    requires Inv(ps, s) && t in ps
    ensures Inv(ps, State(s.owner, s.phase[t := Releasing(s.phase[t].n)]))
  {
    var s' := State(s.owner, s.phase[t := Releasing(s.phase[t].n)]);
    assert forall u, l :: Holds(ps, s', u, l) <==> Holds(ps, s, u, l);
  }

  lemma {:induction false} StepInv(ps: Plans, s: State, step: Step)
    requires Inv(ps, s)
    ensures Inv(ps, Apply(ps, s, step))
  {
    if Enabled(ps, s, step) {
      match step
      case Take(t) => TakeInv(ps, s, t);
      case Drop(t) => DropInv(ps, s, t);
      case _ => TurnInv(ps, s, step.t);
    }
  }

  /** In every run a lock has at most one holder, and a thread's locks are always the first of its plan. */
  lemma {:induction false} RunInv(ps: Plans, steps: seq<Step>)
    requires forall t :: t in ps ==> Distinct(ps[t])
    ensures Inv(ps, Run(ps, steps))
  {
    if steps != [] {
      RunInv(ps, steps[..|steps| - 1]);
      StepInv(ps, Run(ps, steps[..|steps| - 1]), steps[|steps| - 1]);
    }
  }

  /** A thread that has unwound holds nothing, however it left. */
  lemma {:induction false} LeavesNothingBehind(ps: Plans, steps: seq<Step>, t: Tid)
    requires forall u :: u in ps ==> Distinct(ps[u])
    requires t in ps && t in Run(ps, steps).phase && Run(ps, steps).phase[t] == Releasing(0)
    ensures forall l :: l in Run(ps, steps).owner ==> Run(ps, steps).owner[l] != t
  {
    RunInv(ps, steps);
  }

  // Waiting

  predicate Blocked(ps: Plans, s: State, t: Tid) {
    && Knows(ps, s, t) && s.phase[t].Acquiring? && s.phase[t].n < |ps[t]|
    && ps[t][s.phase[t].n] in s.owner
  }

  function Awaited(ps: Plans, s: State, t: Tid): Lock
    requires Blocked(ps, s, t)
  {
    ps[t][s.phase[t].n]
  }

  predicate WaitsFor(ps: Plans, s: State, t: Tid, u: Tid) {
    Blocked(ps, s, t) && s.owner[Awaited(ps, s, t)] == u
  }

  /** Threads that wait for each other in a ring. */
  ghost predicate WaitCycle(ps: Plans, s: State, ring: seq<Tid>) {
    && ring != []
    && (forall i :: 0 <= i < |ring| - 1 ==> WaitsFor(ps, s, ring[i], ring[i + 1]))
    && WaitsFor(ps, s, ring[|ring| - 1], ring[0])
  }

  // When waiting is safe

  type Programs = map<Tid, Program>

  function PlansOf(ps: Programs): (plans: Plans)
    ensures forall t :: t in plans ==> Distinct(plans[t])
  {
    map t | t in ps :: Plan(ps[t])
  }

  /** The agent and path locks an operation takes before the database. */
  function EarlyLocks(p: Program): seq<Lock> {
    match p
    case SetField(a) => [AgentLock(a)]
    case Attach(a, path) => [AgentLock(a)] + PathLocks(path)
    case _ => []
  }

  /** The agent and path locks an operation takes while it holds the database. */
  function LateLocks(p: Program): seq<Lock> {
    match p
    case Register(_, Some((a, path))) => [AgentLock(a)] + PathLocks(path)
    case _ => []
  }

  /** One operation takes under the database a lock that another takes before it. */
  predicate Conflict(ps: Programs, t: Tid, u: Tid) {
    t in ps && u in ps && exists l :: l in LateLocks(ps[t]) && l in EarlyLocks(ps[u])
  }

  ghost predicate NoConflict(ps: Programs) {
    forall t, u :: !Conflict(ps, t, u)
  }

  function Level(l: Lock): nat {
    match l
    case RegisterLock(_) => 0
    case ScanMutex => 0
    case AgentLock(_) => 1
    case PathLock(_) => 2
    case Database => 3
  }

  /** How far along the lock order a thread is stuck; threads that are not stuck come last. */
  function StuckAt(ps: Plans, s: State, t: Tid): nat {
    if Blocked(ps, s, t) then Level(Awaited(ps, s, t)) else 4
  }

  /** What a thread can be waiting for when it already holds something, by operation. */
  lemma {:induction false} HeldBeforeAwaited(p: Program, n: nat, l: Lock)
    requires n < |Plan(p)| && l in Plan(p)[..n]
    ensures Level(l) < Level(Plan(p)[n]) || (Plan(p)[n] in LateLocks(p))
    ensures l == Database ==> Plan(p)[n] in LateLocks(p)
  {
  }

  /** Agent and path locks are taken early or late. */
  lemma {:induction false} EarlyOrLate(p: Program, l: Lock)
    requires l in Plan(p) && (l.AgentLock? || l.PathLock?)
    ensures l in EarlyLocks(p) || l in LateLocks(p)
    ensures l in LateLocks(p) ==> p.Register?
  {
  }

  lemma {:induction false} LateUnderDatabase(p: Program, n: nat, l: Lock)
    requires n <= |Plan(p)| && l in Plan(p)[..n] && l in LateLocks(p)
    ensures Database in Plan(p)[..n]
  {
    assert p.Register? && p.attach.Some?;
    var i :| 0 <= i < n && Plan(p)[..n][i] == l;
    assert Plan(p)[0].RegisterLock? && Plan(p)[1] == Database;
    assert Plan(p)[..n][1] == Database;
  }

  lemma {:induction false} AwaitedLate(p: Program, n: nat)
    requires n < |Plan(p)| && Plan(p)[n] in LateLocks(p)
    ensures Database in Plan(p)[..n] && (Plan(p)[n].AgentLock? || Plan(p)[n].PathLock?)
  {
    assert p.Register? && p.attach.Some?;
    assert Plan(p)[0].RegisterLock? && Plan(p)[1] == Database;
    assert Plan(p)[..n][1] == Database;
  }

  /** Without conflicts nobody who holds the database waits for an agent or a path lock. */
  lemma {:induction false} LateLocksAreFree(ps: Programs, s: State, t: Tid)
    requires Inv(PlansOf(ps), s) && NoConflict(ps) && Blocked(PlansOf(ps), s, t)
    ensures Awaited(PlansOf(ps), s, t) !in LateLocks(ps[t])
  {
    var l := Awaited(PlansOf(ps), s, t);
    if l in LateLocks(ps[t]) {
      var u := s.owner[l];
      assert Holds(PlansOf(ps), s, u, l);
      AwaitedLate(ps[t], s.phase[t].n);
      assert Holds(PlansOf(ps), s, t, Database);
      EarlyOrLate(ps[u], l);
      ConflictAt(ps, t, u, l);
      LateUnderDatabase(ps[u], s.phase[u].n, l);
      assert Holds(PlansOf(ps), s, u, Database);
      AwaitedNotHeld(PlansOf(ps), s, t);
      assert false;
    }
  }

  lemma {:induction false} ConflictAt(ps: Programs, t: Tid, u: Tid, l: Lock)
    requires t in ps && u in ps && l in LateLocks(ps[t])
    ensures l in EarlyLocks(ps[u]) ==> Conflict(ps, t, u)
  {
  }

  lemma {:induction false} AwaitedNotHeld(ps: Plans, s: State, t: Tid)
    requires Blocked(ps, s, t) && Distinct(ps[t])
    ensures !Holds(ps, s, t, Awaited(ps, s, t))
  {
  }

  /** Whoever is waited for is stuck further along the order, or not stuck. */
  lemma {:induction false} LevelRises(ps: Programs, s: State, t: Tid, u: Tid)
    requires Inv(PlansOf(ps), s) && NoConflict(ps) && WaitsFor(PlansOf(ps), s, t, u)
    ensures StuckAt(PlansOf(ps), s, t) < StuckAt(PlansOf(ps), s, u)
  {
    if Blocked(PlansOf(ps), s, u) {
      LateLocksAreFree(ps, s, u);
      HeldBeforeAwaited(ps[u], s.phase[u].n, Awaited(PlansOf(ps), s, t));
    }
  }

  lemma {:induction false} LevelsAlong(ps: Programs, s: State, ring: seq<Tid>, i: nat)
    requires Inv(PlansOf(ps), s) && NoConflict(ps) && i < |ring|
    requires forall j :: 0 <= j < |ring| - 1 ==> WaitsFor(PlansOf(ps), s, ring[j], ring[j + 1])
    ensures StuckAt(PlansOf(ps), s, ring[0]) <= StuckAt(PlansOf(ps), s, ring[i])
  {
    if i > 0 {
      LevelsAlong(ps, s, ring, i - 1);
      assert WaitsFor(PlansOf(ps), s, ring[i - 1], ring[i - 1 + 1]);
      LevelRises(ps, s, ring[i - 1], ring[i]);
    }
  }

  lemma {:induction false} NoCycle(ps: Programs, steps: seq<Step>, ring: seq<Tid>)
    requires NoConflict(ps)
    ensures !WaitCycle(PlansOf(ps), Run(PlansOf(ps), steps), ring)
  {
    RunInv(PlansOf(ps), steps);
    var s := Run(PlansOf(ps), steps);
    if WaitCycle(PlansOf(ps), s, ring) {
      LevelsAlong(ps, s, ring, |ring| - 1);
      LevelRises(ps, s, ring[|ring| - 1], ring[0]);
      assert false;
    }
  }

  /** A thread that can go on without anyone timing out. */
  predicate CanStep(ps: Plans, s: State, t: Tid) {
    Enabled(ps, s, Take(t)) || Enabled(ps, s, Finish(t)) || Enabled(ps, s, Drop(t))
  }

  lemma {:induction false} UnblockedCanStep(ps: Plans, s: State, t: Tid)
    requires Knows(ps, s, t) && !Blocked(ps, s, t) && s.phase[t] != Releasing(0)
    ensures CanStep(ps, s, t)
  {
  }

  lemma {:induction false} HolderIsUnfinished(ps: Plans, s: State, t: Tid, l: Lock)
    requires Holds(ps, s, t, l)
    ensures s.phase[t] != Releasing(0)
  {
  }

  lemma {:induction false} SomeoneAheadCanStep(ps: Programs, s: State, t: Tid) returns (u: Tid)
    requires Inv(PlansOf(ps), s) && NoConflict(ps) && t in ps && s.phase[t] != Releasing(0)
    ensures CanStep(PlansOf(ps), s, u)
    decreases 4 - StuckAt(PlansOf(ps), s, t)
  {
    if Blocked(PlansOf(ps), s, t) {
      var l := Awaited(PlansOf(ps), s, t);
      var holder := s.owner[l];
      HolderIsUnfinished(PlansOf(ps), s, holder, l);
      LevelRises(ps, s, t, holder);
      u := SomeoneAheadCanStep(ps, s, holder);
    } else {
      UnblockedCanStep(PlansOf(ps), s, t);
      u := t;
    }
  }

  /** While any thread is unfinished, some thread can take a step that is not a timeout. */
  lemma {:induction false} AlwaysProgress(ps: Programs, steps: seq<Step>, t: Tid)
    requires NoConflict(ps) && t in ps && t in Run(PlansOf(ps), steps).phase && Run(PlansOf(ps), steps).phase[t] != Releasing(0)
    ensures exists u :: CanStep(PlansOf(ps), Run(PlansOf(ps), steps), u)
  {
    RunInv(PlansOf(ps), steps);
    var u := SomeoneAheadCanStep(ps, Run(PlansOf(ps), steps), t);
  }

  /** Operations that only set fields, attach, scan, or register without attaching are safe together. */
  lemma {:induction false} AgentFirstIsSafe(ps: Programs)
    requires forall t :: t in ps && ps[t].Register? ==> ps[t].attach.None?
    ensures NoConflict(ps)
  {
    forall t, u
      ensures !Conflict(ps, t, u)
    {
      assert t in ps ==> LateLocks(ps[t]) == [];
    }
  }

  // Why the condition is exact

  /** `steps`, and then `k` acquires by `t`. */
  function Taking(steps: seq<Step>, t: Tid, k: nat): seq<Step> {
    if k == 0 then steps else Taking(steps, t, k - 1) + [Take(t)]
  }

  function AfterTakes(ps: Plans, s: State, t: Tid, k: nat): State {
    if k == 0 then s else Apply(ps, AfterTakes(ps, s, t, k - 1), Take(t))
  }

  lemma {:induction false} TakingRun(ps: Plans, steps: seq<Step>, t: Tid, k: nat)
    ensures Run(ps, Taking(steps, t, k)) == AfterTakes(ps, Run(ps, steps), t, k)
  {
    if k > 0 {
      TakingRun(ps, steps, t, k - 1);
      RunSnoc(ps, Taking(steps, t, k - 1), Take(t));
    }
  }

  /** `s'` is `s` with the first `k` locks of `t` taken. */
  ghost predicate TookFirst(ps: Plans, s: State, s': State, t: Tid, k: nat)
    requires t in ps && k <= |ps[t]|
  {
    var mine := ps[t][..k];
    && s'.phase == s.phase[t := Acquiring(k)]
    && (forall l :: l in mine ==> l in s'.owner && s'.owner[l] == t)
    && (forall l :: l !in mine ==> (l in s'.owner <==> l in s.owner))
    && (forall l :: l !in mine && l in s.owner ==> s'.owner[l] == s.owner[l])
  }

  lemma {:induction false} TookNext(ps: Plans, s: State, s': State, t: Tid, k: nat)
    requires t in ps && Distinct(ps[t]) && k < |ps[t]| && TookFirst(ps, s, s', t, k) && ps[t][k] !in s.owner
    ensures TookFirst(ps, s, Apply(ps, s', Take(t)), t, k + 1)
  {
    PrefixGrows(ps[t], k);
    assert ps[t][k] !in ps[t][..k];
    assert Enabled(ps, s', Take(t));
  }

  lemma {:induction false} RunSnoc(ps: Plans, steps: seq<Step>, step: Step)
    ensures Run(ps, steps + [step]) == Apply(ps, Run(ps, steps), step)
  {
    assert (steps + [step])[..|steps|] == steps;
  }

  lemma {:induction false} TookNone(ps: Plans, s: State, t: Tid)
    requires t in ps && t in s.phase && s.phase[t] == Acquiring(0)
    ensures TookFirst(ps, s, s, t, 0)
  {
    assert s.phase[t := Acquiring(0)] == s.phase;
  }

  /** A thread that starts on free locks takes the first `k` of them. */
  lemma {:induction false} TakesFree(ps: Plans, s: State, t: Tid, k: nat)
    requires t in ps && Distinct(ps[t]) && k <= |ps[t]| && t in s.phase && s.phase[t] == Acquiring(0)
    requires forall i :: 0 <= i < k ==> ps[t][i] !in s.owner
    ensures TookFirst(ps, s, AfterTakes(ps, s, t, k), t, k)
  {
    if k > 0 {
      TakesFree(ps, s, t, k - 1);
      TookNext(ps, s, AfterTakes(ps, s, t, k - 1), t, k - 1);
    } else {
      TookNone(ps, s, t);
    }
  }

  /** Where the two plans of a conflict meet: the early locks of `u`, and the late lock `t` stops at. */
  lemma {:induction false} Meeting(p: Program, q: Program, l: Lock) returns (m: nat, k: nat)
    requires l in LateLocks(p) && l in EarlyLocks(q)
    ensures 2 <= m < |Plan(p)| && Plan(p)[1] == Database && Plan(p)[m] in EarlyLocks(q)
    ensures forall i :: 0 <= i < m ==> Plan(p)[i] !in EarlyLocks(q)
    ensures k < |Plan(q)| && Plan(q)[..k] == EarlyLocks(q) && Plan(q)[k] == Database
  {
    k := |EarlyLocks(q)|;
    assert Plan(q)[..k] == EarlyLocks(q);
    assert p.Register? && p.attach.Some?;
    assert Plan(p)[0].RegisterLock? && Plan(p)[1] == Database && Plan(p)[2] == AgentLock(p.attach.value.0);
    m := if Plan(p)[2] in EarlyLocks(q) then 2 else 3;
  }

  lemma {:induction false} OwnsEarly(ps: Plans, s: State, s': State, u: Tid, k: nat)
    requires u in ps && k <= |ps[u]| && s.owner == map[] && TookFirst(ps, s, s', u, k)
    ensures forall l :: l in s'.owner <==> l in ps[u][..k]
    ensures forall l :: l in s'.owner ==> s'.owner[l] == u
  {
  }

  lemma {:induction false} CycleOfTwo(ps: Plans, s: State, s': State, t: Tid, u: Tid, m: nat, k: nat)
    requires t in ps && u in ps && Distinct(ps[t]) && t != u && 1 < m < |ps[t]| && k < |ps[u]|
    requires TookFirst(ps, s, s', t, m) && u in s.phase && s.phase[u] == Acquiring(k)
    requires forall l :: l in ps[u][..k] ==> l in s.owner && s.owner[l] == u
    requires ps[t][m] in ps[u][..k] && ps[t][1] == Database == ps[u][k]
    ensures WaitCycle(ps, s', [t, u])
  {
    assert ps[t][..m][1] == Database;
    assert ps[t][m] !in ps[t][..m];
    assert WaitsFor(ps, s', t, u) && WaitsFor(ps, s', u, t);
  }

  /** `t` holds the database and stops at a lock of `u`; `u` holds that lock and stops at the database. */
  lemma {:induction false} MeetingReachesCycle(ps: Plans, t: Tid, u: Tid, m: nat, k: nat) returns (steps: seq<Step>)
    requires t in ps && u in ps && t != u && Distinct(ps[t]) && Distinct(ps[u]) && 1 < m < |ps[t]| && k < |ps[u]|
    requires ps[t][1] == Database == ps[u][k] && ps[t][m] in ps[u][..k]
    requires forall i :: 0 <= i < m ==> ps[t][i] !in ps[u][..k]
    ensures WaitCycle(ps, Run(ps, steps), [t, u])
  {
    var s0 := Begin(ps);
    TakesFree(ps, s0, u, k);
    var s1 := AfterTakes(ps, s0, u, k);
    OwnsEarly(ps, s0, s1, u, k);
    TakesFree(ps, s1, t, m);
    CycleOfTwo(ps, s1, AfterTakes(ps, s1, t, m), t, u, m, k);
    steps := Taking(Taking([], u, k), t, m);
    assert Run(ps, steps) == AfterTakes(ps, s1, t, m) by {
      TakingRun(ps, [], u, k);
      TakingRun(ps, Taking([], u, k), t, m);
    }
  }

  lemma {:induction false} ConflictReachesCycle(ps: Programs, t: Tid, u: Tid) returns (steps: seq<Step>)
    requires Conflict(ps, t, u)
    ensures WaitCycle(PlansOf(ps), Run(PlansOf(ps), steps), [t, u])
  {
    var l :| l in LateLocks(ps[t]) && l in EarlyLocks(ps[u]);
    var m, k := Meeting(ps[t], ps[u], l);
    assert ps[t] != ps[u];
    steps := MeetingReachesCycle(PlansOf(ps), t, u, m, k);
  }

  ghost predicate CycleAfter(ps: Programs, steps: seq<Step>, ring: seq<Tid>) {
    WaitCycle(PlansOf(ps), Run(PlansOf(ps), steps), ring)
  }

  /**
  No run forms a wait cycle if and only if no registration attaches a log, under its database transaction, with an
  agent or path lock that another operation takes before the database.
  */
  lemma {:induction false} CycleFreeIff(ps: Programs)
    ensures (forall steps: seq<Step>, ring: seq<Tid> :: !CycleAfter(ps, steps, ring)) <==> NoConflict(ps)
  {
    if NoConflict(ps) {
      forall steps: seq<Step>, ring: seq<Tid>
        ensures !CycleAfter(ps, steps, ring)
      {
        NoCycle(ps, steps, ring);
      }
    } else {
      var t, u :| Conflict(ps, t, u);
      var steps := ConflictReachesCycle(ps, t, u);
      assert CycleAfter(ps, steps, [t, u]);
    }
  }
}
