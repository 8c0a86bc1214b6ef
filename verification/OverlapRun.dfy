/** A run in which a registration overlaps a `set_role` of the same agent and the audit log ends up out of order. */
module OverlapRun {
  import opened OrderedDicts
  import opened Panes
  import opened PaneTable
  import opened Registry
  import opened RegistryLaws
  import opened Transactions
  import opened AuditLog
  import opened Overtaking
  import opened ParentDepth

  lemma {:induction false} AllWorkSnoc(db: Db, steps: seq<Step>, step: Step)
    requires AllWork(db, steps) && (step.Append? ==> step.works)
    ensures AllWork(db, steps + [step])
  {
    assert (steps + [step])[..|steps|] == steps;
  }

  /** One agent, registered as a slave with its row appended. */
  function OneAgent(id: AgentId): seq<Step> {
    WithCall([], Register(Enrol([id], 0)))
  }

  lemma {:induction false} OneAgentState(id: AgentId)
    ensures var s := Run(World(1), OneAgent(id));
            && s.pending == [] && s.log == [AuditRow(id, None, Slave, false)]
            && s.db == World(1).(agents := map[id := NewAgent(Enrol([id], 0))])
    ensures AllWork(World(1), OneAgent(id))
  {
    var db := World(1);
    RunWithCall(db, [], Register(Enrol([id], 0)));
    CallEnrol(Begin(db), [id], 0);
    AllWorkSnoc(db, [], Register(Enrol([id], 0)));
    AllWorkSnoc(db, [] + [Register(Enrol([id], 0))], Append(0, true));
  }

  lemma {:induction false} OneAgentCanChange(s: State, id: AgentId)
    requires Inv(s.db) && s.pending == [] && s.log == [AuditRow(id, None, Slave, false)]
    requires s.db == World(1).(agents := map[id := NewAgent(Enrol([id], 0))])
    ensures CanChange(s, id, Shell, TestRunner)
    ensures Chained(RowsOf(s.log, id)) && Replayed(RowsOf(s.log, id)) == RoleOf(s.db.agents, id)
  {
    assert IsActive(s.db.panes, KeyAt(0));
    var row := AuditRow(id, None, Slave, false);
    assert [] + [row] == s.log;
    RowsOfSnoc([], row, id);
    ChainGrows([], row);
    assert RowsOf(s.log, id) == [] + [row];
  }

  /** A `set_role` commits, a registration commits after it, and the registration's row is appended first. */
  function Overlapping(steps: seq<Step>, id: AgentId, key: PaneKey): seq<Step> {
    ((steps + [SetRole(id, Shell, false)]) + [Register(AskRole(key, TestRunner, ""))]) + [Append(1, true)]
  }

  lemma {:induction false} OverlappingRun(db: Db, steps: seq<Step>, id: AgentId, key: PaneKey)
    ensures Run(db, Overlapping(steps, id, key)) ==
            Apply(Apply(Apply(Run(db, steps), SetRole(id, Shell, false)), Register(AskRole(key, TestRunner, ""))), Append(1, true))
    ensures AllWork(db, steps) ==> AllWork(db, Overlapping(steps, id, key))
  {
    var a := steps + [SetRole(id, Shell, false)];
    var b := a + [Register(AskRole(key, TestRunner, ""))];
    RunSnoc(db, steps, SetRole(id, Shell, false));
    RunSnoc(db, a, Register(AskRole(key, TestRunner, "")));
    RunSnoc(db, b, Append(1, true));
    if AllWork(db, steps) {
      AllWorkSnoc(db, steps, SetRole(id, Shell, false));
      AllWorkSnoc(db, a, Register(AskRole(key, TestRunner, "")));
      AllWorkSnoc(db, b, Append(1, true));
    }
  }

  function Overlap(id: AgentId): seq<Step> {
    Overlapping(OneAgent(id), id, KeyAt(0))
  }

  /** Whatever the agent's id, every append of this run works, and its log does not chain. */
  lemma {:induction false} OverlapBreaksLog(id: AgentId)
    ensures AllWork(World(1), Overlap(id)) && !Chained(RowsOf(Run(World(1), Overlap(id)).log, id))
  {
    var s := Run(World(1), OneAgent(id));
    OneAgentState(id);
    RegistrySound(World(1), OneAgent(id));
    OneAgentCanChange(s, id);
    var s2 := LogCanDisagree(s, id, Shell, TestRunner, "");
    OverlappingRun(World(1), OneAgent(id), id, KeyAt(0));
  }
}
