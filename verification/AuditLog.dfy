/** The audit log that is appended to after each commit, against the order of the commits themselves. */
module AuditLog {
  import opened OrderedDicts
  import opened Registry
  import opened RegistryLaws
  import opened Transactions

  function PendingRows(ps: seq<Pending>): (rows: seq<AuditRow>)
    ensures |rows| == |ps|
  {
    if ps == [] then [] else PendingRows(ps[..|ps| - 1]) + [ps[|ps| - 1].row]
  }

  lemma {:induction false} PendingConcat(ps: seq<Pending>, qs: seq<Pending>)
    ensures PendingRows(ps + qs) == PendingRows(ps) + PendingRows(qs)
  {
    if qs == [] {
      assert ps + qs == ps;
    } else {
      assert (ps + qs)[..|ps + qs| - 1] == ps + qs[..|qs| - 1];
      PendingConcat(ps, qs[..|qs| - 1]);
    }
  }

  /** The pending rows around the one at `i`. */
  lemma {:induction false} PendingSplit(ps: seq<Pending>, i: nat)
    requires i < |ps|
    ensures PendingRows(ps) == PendingRows(ps[..i]) + [ps[i].row] + PendingRows(ps[i + 1..])
    ensures PendingRows(ps[..i] + ps[i + 1..]) == PendingRows(ps[..i]) + PendingRows(ps[i + 1..])
  {
    assert ps == (ps[..i] + [ps[i]]) + ps[i + 1..];
    PendingConcat(ps[..i] + [ps[i]], ps[i + 1..]);
    PendingConcat(ps[..i], [ps[i]]);
    assert PendingRows([ps[i]]) == [ps[i].row];
    PendingConcat(ps[..i], ps[i + 1..]);
  }

  // What one step does to the trail

  predicate Silent(s: State, s': State) {
    s'.pending == s.pending && s'.log == s.log && s'.lost == s.lost && s'.committed == s.committed
  }

  predicate Notes(s: State, s': State, p: Pending) {
    s'.pending == s.pending + [p] && s'.log == s.log && s'.lost == s.lost && s'.committed == s.committed + [p.row]
  }

  predicate Appends(s: State, step: Step) {
    step.Append? && step.i < |s.pending|
  }

  lemma {:induction false} TxLogs(s: State, tx: Tx, hold: Hold)
    ensures Silent(s, AfterTx(s, tx, hold)) || (tx.Committed? && tx.row.Some? && Notes(s, AfterTx(s, tx, hold), Pending(tx.row.value, hold)))
  {
    if tx.Committed? && tx.row.None? {
      assert s.pending + [] == s.pending && s.committed + [] == s.committed;
    }
  }

  lemma {:induction false} StepLogs(s: State, step: Step)
    requires !Appends(s, step)
    ensures Silent(s, Apply(s, step)) || exists p :: Notes(s, Apply(s, step), p)
  {
    match step
    case Register(req) => TxLogs(s, RegisterTx(s.db, req), RegisterOn(req.key));
    case SetRole(id, role, confirm) => TxLogs(s, SetRoleTx(s.db, id, role, confirm), AgentOf(id));
    case SetLabel(id, tag) => TxLogs(s, SetLabelTx(s.db, id, tag), AgentOf(id));
    case SetCapability(id, capability) => TxLogs(s, SetCapabilityTx(s.db, id, capability), AgentOf(id));
    case _ =>
  }

  // Nothing is made up and nothing vanishes

  ghost predicate Accounted(s: State) {
    multiset(s.log) + multiset(PendingRows(s.pending)) + multiset(s.lost) == multiset(s.committed)
  }

  lemma {:induction false} NotesAccounted(s: State, s': State, p: Pending)
    requires Accounted(s) && Notes(s, s', p)
    ensures Accounted(s')
  {
    PendingConcat(s.pending, [p]);
    assert PendingRows([p]) == [p.row];
  }

  lemma {:induction false} AppendAccounted(s: State, i: nat, works: bool)
    requires Accounted(s) && i < |s.pending|
    ensures Accounted(Appended(s, i, works))
  {
    PendingSplit(s.pending, i);
  }

  lemma {:induction false} QuietAccounted(s: State, s': State)
    requires Accounted(s) && (Silent(s, s') || exists p :: Notes(s, s', p))
    ensures Accounted(s')
  {
    if !Silent(s, s') {
      var p :| Notes(s, s', p);
      NotesAccounted(s, s', p);
    }
  }

  lemma {:induction false} AppendsIsAppended(s: State, step: Step)
    requires Appends(s, step)
    ensures Apply(s, step) == Appended(s, step.i, step.works)
  {
  }

  lemma {:induction false} StepAccounted(s: State, step: Step)
    requires Accounted(s)
    ensures Accounted(Apply(s, step))
  {
    if Appends(s, step) {
      AppendsIsAppended(s, step);
      AppendAccounted(s, step.i, step.works);
    } else {
      StepLogs(s, step);
      QuietAccounted(s, Apply(s, step));
    }
  }

  /** In every interleaving each committed row is in the log, still to be appended, or lost to a failed append. */
  lemma {:induction false} EveryRowAccounted(db: Db, steps: seq<Step>)
    ensures Accounted(Run(db, steps))
  {
    if steps != [] {
      EveryRowAccounted(db, steps[..|steps| - 1]);
      StepAccounted(Run(db, steps[..|steps| - 1]), steps[|steps| - 1]);
    }
  }

  // Order

  /** The log and what is still pending tell an agent's story in commit order. */
  predicate InOrder(s: State, id: AgentId) {
    RowsOf(s.log, id) + RowsOf(PendingRows(s.pending), id) == RowsOf(s.committed, id)
  }

  /** No earlier row of the same agent is still pending. */
  predicate Earliest(s: State, i: nat)
    requires i < |s.pending|
  {
    RowsOf(PendingRows(s.pending[..i]), s.pending[i].row.id) == []
  }

  lemma {:induction false} NotesInOrder(s: State, s': State, p: Pending, id: AgentId)
    requires InOrder(s, id) && Notes(s, s', p)
    ensures InOrder(s', id)
  {
    PendingConcat(s.pending, [p]);
    assert PendingRows([p]) == [p.row];
    RowsOfSnoc(PendingRows(s.pending), p.row, id);
    RowsOfSnoc(s.committed, p.row, id);
  }

  /** An agent's pending rows before and after the one at `i` is taken out. */
  lemma {:induction false} PendingRowsOf(s: State, i: nat, id: AgentId)
    requires i < |s.pending|
    ensures var before, after, row := RowsOf(PendingRows(s.pending[..i]), id), RowsOf(PendingRows(s.pending[i + 1..]), id), s.pending[i].row;
            && RowsOf(PendingRows(s.pending), id) == before + (if row.id == id then [row] else []) + after
            && RowsOf(PendingRows(Appended(s, i, true).pending), id) == before + after
            && RowsOf(Appended(s, i, true).log, id) == RowsOf(s.log, id) + (if row.id == id then [row] else [])
  {
    PendingSplit(s.pending, i);
    var before, after := PendingRows(s.pending[..i]), PendingRows(s.pending[i + 1..]);
    RowsOfConcat(before + [s.pending[i].row], after, id);
    RowsOfSnoc(before, s.pending[i].row, id);
    RowsOfConcat(before, after, id);
    RowsOfSnoc(s.log, s.pending[i].row, id);
  }

  lemma {:induction false} OtherAgentsInOrder(s: State, i: nat, id: AgentId)
    requires InOrder(s, id) && i < |s.pending| && (s.pending[i].row.id != id || Earliest(s, i))
    ensures InOrder(Appended(s, i, true), id)
  {
    PendingRowsOf(s, i, id);
    var row := s.pending[i].row;
    MoveFirst(RowsOf(s.log, id), RowsOf(PendingRows(s.pending[..i]), id), if row.id == id then [row] else [],
              RowsOf(PendingRows(s.pending[i + 1..]), id));
  }

  lemma {:induction false} MoveFirst(log: seq<AuditRow>, before: seq<AuditRow>, mid: seq<AuditRow>, after: seq<AuditRow>)
    requires before == [] || mid == []
    ensures (log + mid) + (before + after) == log + (before + mid + after)
  {
  }

  /** Two neighbouring rows of a chain differ. */
  lemma {:induction false} ChainAt(rows: seq<AuditRow>, i: nat)
    requires Chained(rows) && i < |rows|
    ensures rows[i].prior == Replayed(rows[..i])
  {
    if i < |rows| - 1 {
      assert rows[..|rows| - 1][..i] == rows[..i];
      ChainAt(rows[..|rows| - 1], i);
    }
  }

  /** No audit row records a role that did not change. */
  predicate RealChanges(rows: seq<AuditRow>) {
    forall i :: 0 <= i < |rows| ==> rows[i].prior != Some(rows[i].next)
  }

  lemma {:induction false} OutOfOrder(log: seq<AuditRow>, before: seq<AuditRow>, row: AuditRow, after: seq<AuditRow>)
    requires before != [] && Chained(log + (before + [row] + after)) && RealChanges(log + (before + [row] + after))
    ensures (log + [row]) + (before + after) != log + (before + [row] + after)
  {
    var n, all, moved := |log|, log + (before + [row] + after), (log + [row]) + (before + after);
    ChainAt(all, n + 1);
    assert all[..n + 1][n] == all[n] == before[0] && moved[n + 1] == before[0];
    assert all[n + 1].prior == Some(all[n].next);
  }

  lemma {:induction false} RealChangesOnly(db: Db, steps: seq<Step>)
    ensures RealChanges(Run(db, steps).committed)
  {
    if steps != [] {
      RealChangesOnly(db, steps[..|steps| - 1]);
      var row := StepMoves(Run(db, steps[..|steps| - 1]), steps[|steps| - 1]);
    }
  }

  lemma {:induction false} RealChangesOf(rows: seq<AuditRow>, id: AgentId)
    requires RealChanges(rows)
    ensures RealChanges(RowsOf(rows, id))
  {
    if rows != [] {
      RealChangesOf(rows[..|rows| - 1], id);
    }
  }

  /** In every interleaving an append keeps an agent's rows in commit order exactly when it appends the earliest pending one. */
  lemma {:induction false} OrderKeptIff(db: Db, steps: seq<Step>, i: nat)
    requires i < |Run(db, steps).pending| && InOrder(Run(db, steps), Run(db, steps).pending[i].row.id)
    ensures InOrder(Appended(Run(db, steps), i, true), Run(db, steps).pending[i].row.id) <==> Earliest(Run(db, steps), i)
  {
    var s := Run(db, steps);
    var id := s.pending[i].row.id;
    if Earliest(s, i) {
      OtherAgentsInOrder(s, i, id);
    } else {
      AuditTrail(db, steps, id);
      RealChangesOnly(db, steps);
      RealChangesOf(s.committed, id);
      PendingRowsOf(s, i, id);
      var before, after := RowsOf(PendingRows(s.pending[..i]), id), RowsOf(PendingRows(s.pending[i + 1..]), id);
      OutOfOrder(RowsOf(s.log, id), before, s.pending[i].row, after);
    }
  }

  predicate WorksAt(s: State, step: Step) {
    Appends(s, step) ==> step.works
  }

  /** If the step appends a row of the agent, it is the earliest one pending. */
  predicate InTurnAt(s: State, step: Step, id: AgentId) {
    Appends(s, step) && s.pending[step.i].row.id == id ==> Earliest(s, step.i)
  }

  ghost predicate AllWork(db: Db, steps: seq<Step>) {
    steps == [] || (AllWork(db, steps[..|steps| - 1]) && WorksAt(Run(db, steps[..|steps| - 1]), steps[|steps| - 1]))
  }

  ghost predicate AllInTurn(db: Db, steps: seq<Step>, id: AgentId) {
    steps == [] || (AllInTurn(db, steps[..|steps| - 1], id) && InTurnAt(Run(db, steps[..|steps| - 1]), steps[|steps| - 1], id))
  }

  lemma {:induction false} StepInOrder(s: State, step: Step, id: AgentId)
    requires InOrder(s, id) && WorksAt(s, step) && InTurnAt(s, step, id)
    ensures InOrder(Apply(s, step), id)
  {
    if Appends(s, step) {
      OtherAgentsInOrder(s, step.i, id);
    } else {
      NoAppendInOrder(s, step, id);
    }
  }

  lemma {:induction false} NoAppendInOrder(s: State, step: Step, id: AgentId)
    requires InOrder(s, id) && !Appends(s, step)
    ensures InOrder(Apply(s, step), id)
  {
    var s' := Apply(s, step);
    StepLogs(s, step);
    if !Silent(s, s') {
      var p :| Notes(s, s', p);
      NotesInOrder(s, s', p, id);
    }
  }

  lemma {:induction false} InTurnInOrder(db: Db, steps: seq<Step>, id: AgentId)
    requires AllWork(db, steps) && AllInTurn(db, steps, id)
    ensures InOrder(Run(db, steps), id)
  {
    if steps != [] {
      InTurnInOrder(db, steps[..|steps| - 1], id);
      StepInOrder(Run(db, steps[..|steps| - 1]), steps[|steps| - 1], id);
    }
  }

  lemma {:induction false} ChainedPrefix(rows: seq<AuditRow>, more: seq<AuditRow>)
    requires Chained(rows + more)
    ensures Chained(rows)
  {
    if more == [] {
      assert rows + more == rows;
    } else {
      assert (rows + more)[..|rows + more| - 1] == rows + more[..|more| - 1];
      ChainedPrefix(rows, more[..|more| - 1]);
    }
  }

  /** If an agent's rows are appended in turn, its rows in the log chain, and once none is pending they replay to its role. */
  lemma {:induction false} LogReplays(db: Db, steps: seq<Step>, id: AgentId)
    requires AllWork(db, steps) && AllInTurn(db, steps, id)
    ensures Chained(RowsOf(Run(db, steps).log, id))
    ensures RowsOf(PendingRows(Run(db, steps).pending), id) == [] ==>
              Replayed(RowsOf(Run(db, steps).log, id)) == RoleOf(Run(db, steps).db.agents, id)
  {
    var s := Run(db, steps);
    InTurnInOrder(db, steps, id);
    AuditTrail(db, steps, id);
    ChainedPrefix(RowsOf(s.log, id), RowsOf(PendingRows(s.pending), id));
    assert RowsOf(s.log, id) + [] == RowsOf(s.log, id);
  }
}
