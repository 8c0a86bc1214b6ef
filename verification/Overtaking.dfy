/** Which audit rows can overtake which: the two locks under which rows are appended. */
module Overtaking {
  import opened OrderedDicts
  import opened Panes
  import opened Registry
  import opened RegistryLaws
  import opened Transactions
  import opened AuditLog

  // Calls that run one at a time

  /** No transaction starts while an audit row is pending, and every append works. */
  ghost predicate Serial(db: Db, steps: seq<Step>) {
    steps == [] || (Serial(db, steps[..|steps| - 1]) && SerialStep(Run(db, steps[..|steps| - 1]), steps[|steps| - 1]))
  }

  predicate SerialStep(s: State, step: Step) {
    if step.Append? then step.works else s.pending == []
  }

  lemma {:induction false} SerialPending(s: State, step: Step)
    requires |s.pending| <= 1 && SerialStep(s, step)
    ensures |Apply(s, step).pending| <= 1
  {
    if !Appends(s, step) {
      StepLogs(s, step);
    }
  }

  lemma {:induction false} SerialInTurn(db: Db, steps: seq<Step>, id: AgentId)
    requires Serial(db, steps)
    ensures AllWork(db, steps) && AllInTurn(db, steps, id) && |Run(db, steps).pending| <= 1
  {
    if steps != [] {
      SerialInTurn(db, steps[..|steps| - 1], id);
      SerialPending(Run(db, steps[..|steps| - 1]), steps[|steps| - 1]);
    }
  }

  /** After a serial run with working appends the log itself chains and replays to every agent's role. */
  lemma {:induction false} SerialLog(db: Db, steps: seq<Step>, id: AgentId)
    requires Serial(db, steps) && Run(db, steps).pending == []
    ensures Chained(RowsOf(Run(db, steps).log, id))
    ensures Replayed(RowsOf(Run(db, steps).log, id)) == RoleOf(Run(db, steps).db.agents, id)
  {
    SerialInTurn(db, steps, id);
    LogReplays(db, steps, id);
  }

  // Calls that overlap

  /** The lock a row is pending under is that of its agent, or of its agent's pane. */
  predicate HoldFits(agents: Agents, p: Pending) {
    match p.hold
    case AgentOf(id) => p.row.id == id
    case RegisterOn(key) => p.row.id in agents && agents[p.row.id].key == key
  }

  ghost predicate Locked(s: State) {
    && (forall i, j :: 0 <= i < j < |s.pending| ==> s.pending[i].hold != s.pending[j].hold)
    && (forall p :: p in s.pending ==> HoldFits(s.db.agents, p))
  }

  lemma {:induction false} TxHolds(s: State, step: Step, tx: Tx, hold: Hold)
    requires Locked(s) && Apply(s, step) == if Free(s, hold) then AfterTx(s, tx, hold) else s
    requires tx.Committed? ==> RoleStep(s.db.agents, tx.agents, tx.row)
    requires tx.Committed? && tx.row.Some? ==> HoldFits(tx.agents, Pending(tx.row.value, hold))
    ensures Locked(Apply(s, step))
  {
    if Free(s, hold) && tx.Committed? {
      forall p | p in s.pending
        ensures HoldFits(tx.agents, p)
      {
        assert HoldFits(s.db.agents, p);
      }
    }
  }

  lemma {:induction false} RegisterHolds(s: State, req: Request)
    requires Locked(s)
    ensures Locked(Apply(s, Register(req)))
  {
    var tx := RegisterTx(s.db, req);
    if tx.Committed? {
      RegisterRoleStep(s.db, req);
    }
    TxHolds(s, Register(req), tx, RegisterOn(req.key));
  }

  lemma {:induction false} SetRoleHolds(s: State, id: AgentId, role: Role, confirm: bool)
    requires Locked(s)
    ensures Locked(Apply(s, SetRole(id, role, confirm)))
  {
    var tx := SetRoleTx(s.db, id, role, confirm);
    if tx.Committed? {
      SetRoleRoleStep(s.db, id, role, confirm);
    }
    TxHolds(s, SetRole(id, role, confirm), tx, AgentOf(id));
  }

  lemma {:induction false} SetLabelHolds(s: State, id: AgentId, tag: string)
    requires Locked(s)
    ensures Locked(Apply(s, SetLabel(id, tag)))
  {
    var tx := SetLabelTx(s.db, id, tag);
    if tx.Committed? {
      SetLabelRoleStep(s.db, id, tag);
    }
    TxHolds(s, SetLabel(id, tag), tx, AgentOf(id));
  }

  lemma {:induction false} SetCapabilityHolds(s: State, id: AgentId, capability: Capability)
    requires Locked(s)
    ensures Locked(Apply(s, SetCapability(id, capability)))
  {
    var tx := SetCapabilityTx(s.db, id, capability);
    if tx.Committed? {
      SetCapabilityRoleStep(s.db, id, capability);
    }
    TxHolds(s, SetCapability(id, capability), tx, AgentOf(id));
  }

  lemma {:induction false} SilentHolds(s: State, s': State)
    requires Locked(s) && s'.pending == s.pending && RoleStep(s.db.agents, s'.db.agents, None)
    ensures Locked(s')
  {
    forall p | p in s'.pending
      ensures HoldFits(s'.db.agents, p)
    {
      assert HoldFits(s.db.agents, p);
    }
  }

  lemma {:induction false} StepLocked(s: State, step: Step)
    requires Locked(s)
    ensures Locked(Apply(s, step))
  {
    match step
    case Register(req) => RegisterHolds(s, req);
    case SetRole(id, role, confirm) => SetRoleHolds(s, id, role, confirm);
    case SetLabel(id, tag) => SetLabelHolds(s, id, tag);
    case SetCapability(id, capability) => SetCapabilityHolds(s, id, capability);
    case Append(i, works) =>
    case CommitScan(o, ws, now) =>
      CommitMoves(s, o, ws, now);
      SilentHolds(s, Apply(s, step));
    case _ =>
      QuietMoves(s, step);
      SilentHolds(s, Apply(s, step));
  }

  lemma {:induction false} RunLocked(db: Db, steps: seq<Step>)
    ensures Locked(Run(db, steps))
  {
    if steps != [] {
      RunLocked(db, steps[..|steps| - 1]);
      StepLocked(Run(db, steps[..|steps| - 1]), steps[|steps| - 1]);
    }
  }

  /** Two rows of one agent can only be pending together when one is a registration's and the other a setter's. */
  lemma {:induction false} OnlyRegisterOvertakes(db: Db, steps: seq<Step>, i: nat, j: nat)
    requires i < j < |Run(db, steps).pending| && Run(db, steps).pending[i].row.id == Run(db, steps).pending[j].row.id
    ensures Run(db, steps).pending[i].hold.RegisterOn? <==> Run(db, steps).pending[j].hold.AgentOf?
  {
    RunLocked(db, steps);
    var s := Run(db, steps);
    assert s.pending[i] in s.pending && s.pending[j] in s.pending;
  }

  // Exactly when the log chains

  lemma {:induction false} AtMostOneRow(ps: seq<Pending>, id: AgentId)
    requires forall i, j :: 0 <= i < j < |ps| ==> ps[i].row.id != id || ps[j].row.id != id
    ensures |RowsOf(PendingRows(ps), id)| <= 1
    ensures RowsOf(PendingRows(ps), id) != [] ==> exists i :: 0 <= i < |ps| && ps[i].row.id == id
  {
    if ps != [] {
      var front, last := ps[..|ps| - 1], ps[|ps| - 1];
      AtMostOneRow(front, id);
      assert PendingRows(ps)[..|ps| - 1] == PendingRows(front);
      if RowsOf(PendingRows(front), id) != [] {
        var i :| 0 <= i < |front| && front[i].row.id == id;
        assert ps[i].row.id == id && ps[|ps| - 1] == last;
      }
    }
  }

  /** At most one row of an agent can be overtaken: with two there would be three locks, and an agent has two. */
  lemma {:induction false} OneOvertaken(s: State, i: nat)
    requires Locked(s) && i < |s.pending|
    ensures |RowsOf(PendingRows(s.pending[..i]), s.pending[i].row.id)| <= 1
  {
    var ps, id := s.pending, s.pending[i].row.id;
    forall j, k | 0 <= j < k < i
      ensures ps[..i][j].row.id != id || ps[..i][k].row.id != id
    {
      assert ps[j] in ps && ps[k] in ps && ps[i] in ps;
    }
    AtMostOneRow(ps[..i], id);
  }

  /** A row appended before the one row it follows does not continue the chain. */
  lemma {:induction false} OutOfTurn(log: seq<AuditRow>, first: AuditRow, row: AuditRow, after: seq<AuditRow>)
    requires Chained(log + ([first] + [row] + after)) && RealChanges(log + ([first] + [row] + after))
    ensures !Chained(log + [row])
  {
    var n, all := |log|, log + ([first] + [row] + after);
    assert all[n] == first && all[n + 1] == row && all[..n] == log && all[..n + 1][n] == first;
    ChainAt(all, n);
    ChainAt(all, n + 1);
    assert (log + [row])[..n] == log;
  }

  lemma {:induction false} AppendOutOfTurn(s: State, i: nat, id: AgentId)
    requires i < |s.pending| && s.pending[i].row.id == id && InOrder(s, id)
    requires |RowsOf(PendingRows(s.pending[..i]), id)| == 1
    requires Chained(RowsOf(s.committed, id)) && RealChanges(RowsOf(s.committed, id))
    ensures !Chained(RowsOf(Appended(s, i, true).log, id))
  {
    PendingRowsOf(s, i, id);
    var before, after := RowsOf(PendingRows(s.pending[..i]), id), RowsOf(PendingRows(s.pending[i + 1..]), id);
    assert before == [before[0]];
    OutOfTurn(RowsOf(s.log, id), before[0], s.pending[i].row, after);
  }

  lemma {:induction false} OutOfTurnBreaks(db: Db, steps: seq<Step>, i: nat)
    requires var s := Run(db, steps); i < |s.pending| && InOrder(s, s.pending[i].row.id) && !Earliest(s, i)
    ensures var s := Run(db, steps); !Chained(RowsOf(Appended(s, i, true).log, s.pending[i].row.id))
  {
    var s := Run(db, steps);
    var id := s.pending[i].row.id;
    RunLocked(db, steps);
    OneOvertaken(s, i);
    AuditTrail(db, steps, id);
    RealChangesOnly(db, steps);
    RealChangesOf(s.committed, id);
    AppendOutOfTurn(s, i, id);
  }

  lemma {:induction false} AppendedLog(s: State, i: nat, id: AgentId) returns (more: seq<AuditRow>)
    requires i < |s.pending|
    ensures RowsOf(Appended(s, i, true).log, id) == RowsOf(s.log, id) + more
  {
    var row := s.pending[i].row;
    RowsOfSnoc(s.log, row, id);
    more := if row.id == id then [row] else [];
  }

  /** The log of an agent only grows. */
  lemma {:induction false} LogGrows(s: State, step: Step, id: AgentId) returns (more: seq<AuditRow>)
    ensures RowsOf(Apply(s, step).log, id) == RowsOf(s.log, id) + more
  {
    if Appends(s, step) && step.works {
      more := AppendedLog(s, step.i, id);
    } else {
      LogKept(s, step);
      more := [];
      assert RowsOf(s.log, id) + [] == RowsOf(s.log, id);
    }
  }

  lemma {:induction false} LogKept(s: State, step: Step)
    requires !(Appends(s, step) && step.works)
    ensures Apply(s, step).log == s.log
  {
    if !Appends(s, step) {
      StepLogs(s, step);
    }
  }

  lemma {:induction false} NotInTurnNotChained(db: Db, steps: seq<Step>, id: AgentId)
    requires AllWork(db, steps) && !AllInTurn(db, steps, id)
    ensures !Chained(RowsOf(Run(db, steps).log, id))
  {
    var front, step := steps[..|steps| - 1], steps[|steps| - 1];
    var s := Run(db, front);
    if AllInTurn(db, front, id) {
      InTurnInOrder(db, front, id);
      OutOfTurnBreaks(db, front, step.i);
    } else {
      NotInTurnNotChained(db, front, id);
      var more := LogGrows(s, step, id);
      if Chained(RowsOf(Run(db, steps).log, id)) {
        ChainedPrefix(RowsOf(s.log, id), more);
      }
    }
  }

  /** In every run whose appends work, an agent's rows in the log chain if and only if each was appended before any later one of its. */
  lemma {:induction false} LogChainsIff(db: Db, steps: seq<Step>, id: AgentId)
    requires AllWork(db, steps)
    ensures Chained(RowsOf(Run(db, steps).log, id)) <==> AllInTurn(db, steps, id)
  {
    if AllInTurn(db, steps, id) {
      LogReplays(db, steps, id);
    } else {
      NotInTurnNotChained(db, steps, id);
    }
  }

  /** The id the daemon draws, which an existing agent has no use for. */
  const DRAWN := "agt_0123456789ab"

  /** A registration that asks an existing agent only for a new role. */
  function AskRole(key: PaneKey, role: Role, now: string): Request {
    Request(key.container, key, Some(role), None, None, None, None, NotAsked, [DRAWN, DRAWN, DRAWN, DRAWN, DRAWN], now)
  }

  ghost predicate CanChange(s: State, id: AgentId, first: Role, second: Role) {
    && Inv(s.db) && s.pending == [] && id in s.db.agents
    && s.db.agents[id].active && s.db.agents[id].parent.None?
    && PaneLive(s.db, s.db.agents[id].key) && s.db.agents[id].key.container != ""
    && first != Swarm && first != Master && first != s.db.agents[id].role
    && second != Swarm && second != Master && second != first
  }

  lemma {:induction false} FirstPending(s: State, id: AgentId, first: Role, second: Role) returns (s1: State)
    requires CanChange(s, id, first, second)
    ensures s1 == Apply(s, SetRole(id, first, false))
    ensures s1.pending == [Pending(AuditRow(id, Some(s.db.agents[id].role), first, false), AgentOf(id))] && s1.log == s.log
    ensures Inv(s1.db) && s1.db == s.db.(agents := s.db.agents[id := s.db.agents[id].(role := first, permissions := Derived(first))])
  {
    s1 := Apply(s, SetRole(id, first, false));
    SetRoleKeeps(s.db, id, first, false);
  }

  lemma {:induction false} Reregisters(db: Db, id: AgentId, second: Role, now: string)
    requires Inv(db) && id in db.agents && db.agents[id].parent.None? && db.agents[id].role != second
    requires second != Swarm && second != Master && PaneLive(db, db.agents[id].key) && db.agents[id].key.container != ""
    ensures var tx := RegisterTx(db, AskRole(db.agents[id].key, second, now));
            tx.Committed? && tx.row == Some(AuditRow(id, Some(db.agents[id].role), second, false))
  {
    var key := db.agents[id].key;
    assert Bound(db.agents, key) && BoundId(db.agents, key) == id;
    assert StaticRefusal(AskRole(key, second, now)).None?;
  }

  /** The two locks do not exclude each other: after both calls both rows are pending. */
  lemma {:induction false} BothPending(s: State, id: AgentId, first: Role, second: Role, now: string) returns (s2: State)
    requires CanChange(s, id, first, second)
    ensures s2 == Apply(Apply(s, SetRole(id, first, false)), Register(AskRole(s.db.agents[id].key, second, now)))
    ensures s2.pending == [Pending(AuditRow(id, Some(s.db.agents[id].role), first, false), AgentOf(id)),
                           Pending(AuditRow(id, Some(first), second, false), RegisterOn(s.db.agents[id].key))]
    ensures s2.log == s.log
  {
    var s1 := FirstPending(s, id, first, second);
    Reregisters(s1.db, id, second, now);
    s2 := Apply(s1, Register(AskRole(s.db.agents[id].key, second, now)));
  }

  lemma {:induction false} AppendBreaks(s: State, i: nat, id: AgentId)
    requires i < |s.pending| && s.pending[i].row.id == id
    requires Chained(RowsOf(s.log, id)) && s.pending[i].row.prior != Replayed(RowsOf(s.log, id))
    ensures !Chained(RowsOf(Apply(s, Append(i, true)).log, id))
  {
    assert Apply(s, Append(i, true)) == Appended(s, i, true);
    RowsOfSnoc(s.log, s.pending[i].row, id);
    ChainGrows(RowsOf(s.log, id), s.pending[i].row);
  }

  /** And appending the later one first leaves a log that does not chain. */
  lemma {:induction false} LogCanDisagree(s: State, id: AgentId, first: Role, second: Role, now: string) returns (s2: State)
    requires CanChange(s, id, first, second)
    requires Chained(RowsOf(s.log, id)) && Replayed(RowsOf(s.log, id)) == RoleOf(s.db.agents, id)
    ensures s2 == Apply(Apply(s, SetRole(id, first, false)), Register(AskRole(s.db.agents[id].key, second, now)))
    ensures |s2.pending| == 2 && !Chained(RowsOf(Apply(s2, Append(1, true)).log, id))
  {
    s2 := BothPending(s, id, first, second, now);
    AppendBreaks(s2, 1, id);
  }
}
