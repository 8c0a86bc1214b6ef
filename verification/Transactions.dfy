/**
The daemon's committed transactions in any order: container scans, pane scans in their four steps, registrations
and setters, and the audit appends that follow them outside the transaction.
*/
module Transactions {
  import opened OrderedDicts
  import opened Panes
  import opened PaneReconcile
  import PaneScan
  import opened PaneTable
  import opened Registry
  import opened RegistryLaws

  /** How far the pane scan that holds the scan mutex has got, and which active containers went inactive meanwhile. */
  datatype Phase =
    | Idle
    | ReadActive(active: set<string>, filter: Option<string>, flipped: set<string>)
    | ReadCascade(active: set<string>, cascade: set<string>, flipped: set<string>)
    | ReadPrior(active: set<string>, cascade: set<string>, flipped: set<string>, prior: Rows)

  /** The lock under which an audit row is still to be appended. */
  datatype Hold = RegisterOn(key: PaneKey) | AgentOf(id: AgentId)

  datatype Pending = Pending(row: AuditRow, hold: Hold)

  /** `committed` and `created` are history: the audit rows and the new agents in commit order. */
  datatype State = State(
    db: Db, phase: Phase, pending: seq<Pending>, log: seq<AuditRow>, lost: seq<AuditRow>,
    committed: seq<AuditRow>, created: seq<AgentId>)

  datatype Step =
    | Containers(containers: map<string, bool>)
    | QueryActive(filter: Option<string>)
    | QueryCascade
    | QueryPrior
    | CommitScan(o: Observed, ws: WriteSet, now: string)
    | AbandonScan
    | Register(req: Request)
    | SetRole(id: AgentId, role: Role, confirm: bool)
    | SetLabel(id: AgentId, tag: string)
    | SetCapability(id: AgentId, capability: Capability)
    | Append(i: nat, works: bool)

  function ActiveIds(db: Db): set<string> {
    set c | c in db.containers && db.containers[c]
  }

  /** Inactive containers with at least one pane row. */
  function CascadeIds(db: Db): set<string> {
    set k | k in db.panes && k.container in db.containers && !db.containers[k.container] :: k.container
  }

  ghost predicate Free(s: State, hold: Hold) {
    forall p :: p in s.pending ==> p.hold != hold
  }

  function RowSeq(row: Option<AuditRow>): seq<AuditRow> {
    if row.Some? then [row.value] else []
  }

  function AfterTx(s: State, tx: Tx, hold: Hold): State {
    match tx
    case Refused(_) => s
    case Committed(agents, row, id, _) =>
      s.(db := s.db.(agents := agents),
         pending := s.pending + (if row.Some? then [Pending(row.value, hold)] else []),
         committed := s.committed + RowSeq(row),
         created := s.created + (if id in s.db.agents then [] else [id]))
  }

  /** The observation is one a scan of these containers could have made, and the write set is its reconciliation. */
  ghost predicate Reconciled(p: Phase, o: Observed, ws: WriteSet) {
    && p.ReadPrior? && o.cascade == p.cascade && o.unavailable <= p.active
    && (forall scope :: scope in o.results.items ==> scope.container in p.active)
    && Scan(p.prior, o, ws)
  }

  function Flip(p: Phase, was: Db, now: Db): Phase {
    match p
    case ReadActive(active, filter, flipped) => ReadActive(active, filter, flipped + (ActiveIds(was) - ActiveIds(now)))
    case _ => p
  }

  /** A step that cannot be taken changes nothing. */
  ghost function Apply(s: State, step: Step): State {
    match step
    case Containers(containers) =>
      var db' := s.db.(containers := containers);
      s.(db := db', phase := Flip(s.phase, s.db, db'))
    case QueryActive(filter) =>
      if s.phase.Idle? then s.(phase := ReadActive(PaneScan.SelectedIds(ActiveIds(s.db), filter), filter, {})) else s
    case QueryCascade =>
      if s.phase.ReadActive?
      then s.(phase := ReadCascade(s.phase.active, PaneScan.SelectedIds(CascadeIds(s.db), s.phase.filter), s.phase.flipped)) else s
    case QueryPrior =>
      if s.phase.ReadCascade?
      then s.(phase := ReadPrior(s.phase.active, s.phase.cascade, s.phase.flipped, s.db.panes)) else s
    case CommitScan(o, ws, now) =>
      if Reconciled(s.phase, o, ws) then s.(db := ScanTx(s.db, ws, now), phase := Idle) else s
    case AbandonScan => s.(phase := Idle)
    case Register(req) =>
      if Free(s, RegisterOn(req.key)) then AfterTx(s, RegisterTx(s.db, req), RegisterOn(req.key)) else s
    case SetRole(id, role, confirm) =>
      if Free(s, AgentOf(id)) then AfterTx(s, SetRoleTx(s.db, id, role, confirm), AgentOf(id)) else s
    case SetLabel(id, tag) =>
      if Free(s, AgentOf(id)) then AfterTx(s, SetLabelTx(s.db, id, tag), AgentOf(id)) else s
    case SetCapability(id, capability) =>
      if Free(s, AgentOf(id)) then AfterTx(s, SetCapabilityTx(s.db, id, capability), AgentOf(id)) else s
    case Append(i, works) =>
      if i < |s.pending| then Appended(s, i, works) else s
  }

  function Appended(s: State, i: nat, works: bool): State
    requires i < |s.pending|
  {
    var row, rest := s.pending[i].row, s.pending[..i] + s.pending[i + 1..];
    if works then s.(pending := rest, log := s.log + [row]) else s.(pending := rest, lost := s.lost + [row])
  }

  /** An empty registry over whatever the container and pane scans have found so far. */
  function Begin(db: Db): State {
    State(db.(agents := map[]), Idle, [], [], [], [], [])
  }

  ghost function Run(db: Db, steps: seq<Step>): State {
    if steps == [] then Begin(db) else Apply(Run(db, steps[..|steps| - 1]), steps[|steps| - 1])
  }

  lemma {:induction false} RunSnoc(db: Db, steps: seq<Step>, step: Step)
    ensures Run(db, steps + [step]) == Apply(Run(db, steps), step)
  {
    assert (steps + [step])[..|steps|] == steps;
  }

  // The tables

  lemma {:induction false} TxDb(s: State, tx: Tx, hold: Hold)
    ensures AfterTx(s, tx, hold).db == if tx.Committed? then s.db.(agents := tx.agents) else s.db
  {
  }

  lemma {:induction false} ContainersKeep(db: Db, containers: map<string, bool>)
    requires Inv(db)
    ensures Inv(db.(containers := containers))
  {
    var db' := db.(containers := containers);
    assert forall id :: id in db'.agents ==> Sound(db, id) && Sound(db', id);
  }

  lemma {:induction false} RegisterStepKeeps(s: State, req: Request)
    requires Inv(s.db)
    ensures Inv(Apply(s, Register(req)).db)
  {
    TxDb(s, RegisterTx(s.db, req), RegisterOn(req.key));
    if RegisterTx(s.db, req).Committed? {
      RegisterKeeps(s.db, req);
    }
  }

  lemma {:induction false} SetRoleStepKeeps(s: State, id: AgentId, role: Role, confirm: bool)
    requires Inv(s.db)
    ensures Inv(Apply(s, SetRole(id, role, confirm)).db)
  {
    TxDb(s, SetRoleTx(s.db, id, role, confirm), AgentOf(id));
    if SetRoleTx(s.db, id, role, confirm).Committed? {
      SetRoleKeeps(s.db, id, role, confirm);
    }
  }

  lemma {:induction false} SetLabelStepKeeps(s: State, id: AgentId, tag: string)
    requires Inv(s.db)
    ensures Inv(Apply(s, SetLabel(id, tag)).db)
  {
    TxDb(s, SetLabelTx(s.db, id, tag), AgentOf(id));
    if SetLabelTx(s.db, id, tag).Committed? {
      SetLabelKeeps(s.db, id, tag);
    }
  }

  lemma {:induction false} SetCapabilityStepKeeps(s: State, id: AgentId, capability: Capability)
    requires Inv(s.db)
    ensures Inv(Apply(s, SetCapability(id, capability)).db)
  {
    TxDb(s, SetCapabilityTx(s.db, id, capability), AgentOf(id));
    if SetCapabilityTx(s.db, id, capability).Committed? {
      SetCapabilityKeeps(s.db, id, capability);
    }
  }

  lemma {:induction false} StepKeeps(s: State, step: Step)
    requires Inv(s.db)
    ensures Inv(Apply(s, step).db)
  {
    match step
    case Containers(containers) => ContainersKeep(s.db, containers);
    case CommitScan(_, ws, now) => ScanKeeps(s.db, ws, now);
    case Register(req) => RegisterStepKeeps(s, req);
    case SetRole(id, role, confirm) => SetRoleStepKeeps(s, id, role, confirm);
    case SetLabel(id, tag) => SetLabelStepKeeps(s, id, tag);
    case SetCapability(id, capability) => SetCapabilityStepKeeps(s, id, capability);
    case _ =>
  }

  /**
  In every interleaving: an active agent's pane row exists and is active, a pane has at most one agent, permissions
  are those of the role, and a swarm member has a parent.
  */
  lemma {:induction false} RegistrySound(db: Db, steps: seq<Step>)
    ensures Inv(Run(db, steps).db)
  {
    if steps != [] {
      RegistrySound(db, steps[..|steps| - 1]);
      StepKeeps(Run(db, steps[..|steps| - 1]), steps[|steps| - 1]);
    }
  }

  // Agents over time

  /** What one step may do to the agents: the row it commits, if any, is its one change of role. */
  ghost predicate Moves(s: State, s': State, row: Option<AuditRow>) {
    && RoleStep(s.db.agents, s'.db.agents, row)
    && s'.committed == s.committed + RowSeq(row)
    && (NoBirth(s, s') || exists id :: OneBirth(s, s', id))
  }

  predicate NoBirth(s: State, s': State) {
    s'.db.agents.Keys == s.db.agents.Keys && s'.created == s.created
  }

  predicate OneBirth(s: State, s': State, id: AgentId) {
    id !in s.db.agents && s'.db.agents.Keys == s.db.agents.Keys + {id} && s'.created == s.created + [id]
  }

  lemma {:induction false} TxMoves(s: State, tx: Tx, hold: Hold)
    requires tx.Committed? ==> RoleStep(s.db.agents, tx.agents, tx.row) && tx.agents.Keys == s.db.agents.Keys + {tx.id}
    ensures Moves(s, AfterTx(s, tx, hold), if tx.Committed? then tx.row else None)
  {
    if tx.Refused? {
      StillMoves(s, s);
    } else if tx.id in s.db.agents {
      assert s.created + [] == s.created;
      assert NoBirth(s, AfterTx(s, tx, hold));
    } else {
      assert OneBirth(s, AfterTx(s, tx, hold), tx.id);
    }
  }

  lemma {:induction false} StillMoves(s: State, s': State)
    requires RoleStep(s.db.agents, s'.db.agents, None) && s'.db.agents.Keys == s.db.agents.Keys
    requires s'.committed == s.committed && s'.created == s.created
    ensures Moves(s, s', None)
  {
    assert s.committed + [] == s.committed && NoBirth(s, s');
  }

  lemma {:induction false} RegisterIds(db: Db, req: Request)
    requires RegisterTx(db, req).Committed?
    ensures RegisterTx(db, req).agents.Keys == db.agents.Keys + {RegisterTx(db, req).id}
  {
  }

  lemma {:induction false} RegisterMoves(s: State, req: Request) returns (row: Option<AuditRow>)
    ensures Moves(s, Apply(s, Register(req)), row)
  {
    var tx := RegisterTx(s.db, req);
    if tx.Committed? {
      RegisterRoleStep(s.db, req);
      RegisterIds(s.db, req);
    }
    row := TxRow(s, Register(req), tx, RegisterOn(req.key));
  }

  lemma {:induction false} SetRoleMoves(s: State, id: AgentId, role: Role, confirm: bool) returns (row: Option<AuditRow>)
    ensures Moves(s, Apply(s, SetRole(id, role, confirm)), row)
  {
    var tx := SetRoleTx(s.db, id, role, confirm);
    if tx.Committed? {
      SetRoleRoleStep(s.db, id, role, confirm);
    }
    row := TxRow(s, SetRole(id, role, confirm), tx, AgentOf(id));
  }

  lemma {:induction false} SetLabelMoves(s: State, id: AgentId, tag: string) returns (row: Option<AuditRow>)
    ensures Moves(s, Apply(s, SetLabel(id, tag)), row)
  {
    var tx := SetLabelTx(s.db, id, tag);
    if tx.Committed? {
      SetLabelRoleStep(s.db, id, tag);
    }
    row := TxRow(s, SetLabel(id, tag), tx, AgentOf(id));
  }

  lemma {:induction false} SetCapabilityMoves(s: State, id: AgentId, capability: Capability) returns (row: Option<AuditRow>)
    ensures Moves(s, Apply(s, SetCapability(id, capability)), row)
  {
    var tx := SetCapabilityTx(s.db, id, capability);
    if tx.Committed? {
      SetCapabilityRoleStep(s.db, id, capability);
    }
    row := TxRow(s, SetCapability(id, capability), tx, AgentOf(id));
  }

  lemma {:induction false} CommitMoves(s: State, o: Observed, ws: WriteSet, now: string)
    ensures Moves(s, Apply(s, CommitScan(o, ws, now)), None)
  {
    ScanRoleStep(s.db, ws, now);
    StillMoves(s, Apply(s, CommitScan(o, ws, now)));
  }

  predicate Quiet(step: Step) {
    step.Containers? || step.QueryActive? || step.QueryCascade? || step.QueryPrior? || step.AbandonScan? || step.Append?
  }

  lemma {:induction false} QuietMoves(s: State, step: Step)
    requires Quiet(step)
    ensures Apply(s, step).db.agents == s.db.agents && Moves(s, Apply(s, step), None)
  {
    assert Apply(s, step).db.agents == s.db.agents;
    StillMoves(s, Apply(s, step));
  }

  lemma {:induction false} StepMoves(s: State, step: Step) returns (row: Option<AuditRow>)
    ensures Moves(s, Apply(s, step), row)
  {
    match step
    case CommitScan(o, ws, now) => row := None; CommitMoves(s, o, ws, now);
    case Register(req) => row := RegisterMoves(s, req);
    case SetRole(id, role, confirm) => row := SetRoleMoves(s, id, role, confirm);
    case SetLabel(id, tag) => row := SetLabelMoves(s, id, tag);
    case SetCapability(id, capability) => row := SetCapabilityMoves(s, id, capability);
    case _ => row := None; QuietMoves(s, step);
  }

  lemma {:induction false} TxRow(s: State, step: Step, tx: Tx, hold: Hold) returns (row: Option<AuditRow>)
    requires Apply(s, step) == if Free(s, hold) then AfterTx(s, tx, hold) else s
    requires tx.Committed? ==> RoleStep(s.db.agents, tx.agents, tx.row) && tx.agents.Keys == s.db.agents.Keys + {tx.id}
    ensures Moves(s, Apply(s, step), row)
  {
    if Free(s, hold) {
      TxMoves(s, tx, hold);
      row := if tx.Committed? then tx.row else None;
    } else {
      StillMoves(s, s);
      row := None;
    }
  }

  // The audit trail in commit order

  function RowsOf(rows: seq<AuditRow>, id: AgentId): seq<AuditRow> {
    if rows == [] then []
    else RowsOf(rows[..|rows| - 1], id) + (if rows[|rows| - 1].id == id then [rows[|rows| - 1]] else [])
  }

  lemma {:induction false} RowsOfConcat(rows: seq<AuditRow>, more: seq<AuditRow>, id: AgentId)
    ensures RowsOf(rows + more, id) == RowsOf(rows, id) + RowsOf(more, id)
  {
    if more == [] {
      assert rows + more == rows;
    } else {
      assert (rows + more)[..|rows + more| - 1] == rows + more[..|more| - 1];
      RowsOfConcat(rows, more[..|more| - 1], id);
    }
  }

  lemma {:induction false} RowsOfSnoc(rows: seq<AuditRow>, row: AuditRow, id: AgentId)
    ensures RowsOf(rows + [row], id) == RowsOf(rows, id) + (if row.id == id then [row] else [])
  {
    assert (rows + [row])[..|rows|] == rows;
  }

  /** The role that replaying the rows ends in. */
  function Replayed(rows: seq<AuditRow>): Option<Role> {
    if rows == [] then None else Some(rows[|rows| - 1].next)
  }

  /** Every row's prior role is what the rows before it end in, which for the first row is none. */
  predicate Chained(rows: seq<AuditRow>) {
    rows == [] || (Chained(rows[..|rows| - 1]) && rows[|rows| - 1].prior == Replayed(rows[..|rows| - 1]))
  }

  predicate Trail(s: State, id: AgentId) {
    Chained(RowsOf(s.committed, id)) && Replayed(RowsOf(s.committed, id)) == RoleOf(s.db.agents, id)
  }

  lemma {:induction false} TrailMoves(s: State, s': State, row: Option<AuditRow>, id: AgentId)
    requires Trail(s, id) && Moves(s, s', row)
    ensures Trail(s', id)
  {
    if row.Some? {
      RowsOfSnoc(s.committed, row.value, id);
      ChainGrows(RowsOf(s.committed, id), row.value);
      if row.value.id != id {
        assert RowsOf(s.committed, id) + [] == RowsOf(s.committed, id);
      }
    } else {
      assert s.committed + [] == s.committed;
    }
  }

  lemma {:induction false} ChainGrows(rows: seq<AuditRow>, row: AuditRow)
    requires Chained(rows)
    ensures Chained(rows + [row]) <==> row.prior == Replayed(rows)
    ensures Replayed(rows + [row]) == Some(row.next)
  {
    assert (rows + [row])[..|rows|] == rows;
  }

  /** In every interleaving each agent's audit rows chain in commit order, and replaying them gives its current role. */
  lemma {:induction false} AuditTrail(db: Db, steps: seq<Step>, id: AgentId)
    ensures Trail(Run(db, steps), id)
  {
    if steps != [] {
      AuditTrail(db, steps[..|steps| - 1], id);
      var row := StepMoves(Run(db, steps[..|steps| - 1]), steps[|steps| - 1]);
      TrailMoves(Run(db, steps[..|steps| - 1]), Run(db, steps), row, id);
    }
  }

  // Parents

  ghost predicate Birth(s: State) {
    && (forall id :: id in s.created <==> id in s.db.agents)
    && Distinct(s.created)
    && forall i :: 0 <= i < |s.created| ==> ParentBefore(s, i)
  }

  predicate ParentBefore(s: State, i: nat)
    requires i < |s.created|
  {
    s.created[i] in s.db.agents
    && (s.db.agents[s.created[i]].parent.Some? ==> s.db.agents[s.created[i]].parent.value in s.created[..i])
  }

  lemma {:induction false} BirthMoves(s: State, s': State, row: Option<AuditRow>)
    requires Birth(s) && Moves(s, s', row)
    ensures Birth(s')
  {
    assert s.created <= s'.created;
    forall i | 0 <= i < |s'.created|
      ensures ParentBefore(s', i)
    {
      if i < |s.created| {
        assert s'.created[i] == s.created[i] && s'.created[..i] == s.created[..i];
        assert ParentBefore(s, i);
      } else {
        assert s'.created[..i] == s.created;
      }
    }
  }

  lemma {:induction false} Births(db: Db, steps: seq<Step>)
    ensures Birth(Run(db, steps))
  {
    if steps != [] {
      Births(db, steps[..|steps| - 1]);
      var row := StepMoves(Run(db, steps[..|steps| - 1]), steps[|steps| - 1]);
      BirthMoves(Run(db, steps[..|steps| - 1]), Run(db, steps), row);
    }
  }

  /** Each agent of the sequence is the child of the next. */
  predicate Ancestry(agents: Agents, path: seq<AgentId>) {
    forall i :: 0 <= i < |path| - 1 ==> path[i] in agents && agents[path[i]].parent == Some(path[i + 1])
  }

  lemma {:induction false} AncestryTail(agents: Agents, path: seq<AgentId>)
    requires Ancestry(agents, path) && |path| >= 1
    ensures Ancestry(agents, path[1..])
  {
    forall i | 0 <= i < |path[1..]| - 1
      ensures path[1..][i] in agents && agents[path[1..][i]].parent == Some(path[1..][i + 1])
    {
      assert path[1..][i] == path[i + 1] && path[1..][i + 1] == path[i + 1 + 1];
    }
  }

  lemma {:induction false} AncestorsBefore(s: State, path: seq<AgentId>, i: nat)
    requires Birth(s) && Ancestry(s.db.agents, path) && |path| >= 2 && i < |s.created| && path[0] == s.created[i]
    ensures path[|path| - 1] in s.created[..i]
  {
    assert ParentBefore(s, i);
    assert s.db.agents[path[0]].parent == Some(path[0 + 1]);
    var j :| 0 <= j < i && s.created[..i][j] == path[1];
    if |path| > 2 {
      AncestryTail(s.db.agents, path);
      AncestorsBefore(s, path[1..], j);
      var k :| 0 <= k < j && s.created[..j][k] == path[|path| - 1];
      assert s.created[..i][k] == path[|path| - 1];
    }
  }

  /** In every interleaving the parent links have no cycle. */
  lemma {:induction false} NoParentCycle(db: Db, steps: seq<Step>, path: seq<AgentId>)
    requires |path| >= 2 && Ancestry(Run(db, steps).db.agents, path)
    ensures path[0] != path[|path| - 1]
  {
    var s := Run(db, steps);
    Births(db, steps);
    assert path[0] in s.db.agents && s.db.agents[path[0]].parent == Some(path[0 + 1]);
    var i :| 0 <= i < |s.created| && s.created[i] == path[0];
    AncestorsBefore(s, path, i);
  }

  predicate SameSeat(agents: Agents, agents': Agents, id: AgentId)
    requires id in agents
  {
    id in agents' && agents'[id].parent == agents[id].parent && agents'[id].key == agents[id].key
  }

  lemma {:induction false} NextSeat(db: Db, steps: seq<Step>, step: Step, id: AgentId)
    requires id in Run(db, steps).db.agents
    ensures SameSeat(Run(db, steps).db.agents, Run(db, steps + [step]).db.agents, id)
  {
    RunSnoc(db, steps, step);
    var row := StepMoves(Run(db, steps), step);
  }

  /** An agent once created stays, on its pane and with its parent. */
  lemma {:induction false} ParentNeverChanges(db: Db, steps: seq<Step>, more: seq<Step>, id: AgentId)
    requires id in Run(db, steps).db.agents
    ensures SameSeat(Run(db, steps).db.agents, Run(db, steps + more).db.agents, id)
    decreases |more|
  {
    if more == [] {
      assert steps + more == steps;
    } else {
      NextSeat(db, steps, more[0], id);
      ParentNeverChanges(db, steps + [more[0]], more[1..], id);
      assert steps + [more[0]] + more[1..] == steps + more;
    }
  }

  // Masters

  predicate BecomesMaster(s: State, s': State, id: AgentId) {
    RoleOf(s'.db.agents, id) == Some(Master) && RoleOf(s.db.agents, id) != Some(Master)
  }

  lemma {:induction false} SetRoleMaster(s: State, x: AgentId, role: Role, confirm: bool, id: AgentId)
    requires BecomesMaster(s, Apply(s, SetRole(x, role, confirm)), id)
    ensures x == id && role == Master && confirm && id in s.db.agents && s.db.agents[id].active
    ensures ContainerActive(s.db, s.db.agents[id].key.container)
    ensures Apply(s, SetRole(x, role, confirm)).committed == s.committed + [AuditRow(id, Some(s.db.agents[id].role), Master, true)]
  {
  }

  lemma {:induction false} OthersMakeNoMaster(s: State, step: Step, id: AgentId)
    requires !step.SetRole?
    ensures !BecomesMaster(s, Apply(s, step), id)
  {
    match step
    case Register(req) =>
      if BecomesMaster(s, Apply(s, step), id) {
        RegisterMakesNoMaster(s.db, req, id);
      }
    case _ =>
  }

  /** An agent becomes master only by a confirmed `set_role`, while it is active and its container is too. */
  lemma {:induction false} MasterOnlyBySetRole(s: State, step: Step, id: AgentId)
    requires BecomesMaster(s, Apply(s, step), id)
    ensures step == SetRole(id, Master, true) && id in s.db.agents && s.db.agents[id].active
    ensures ContainerActive(s.db, s.db.agents[id].key.container)
    ensures Apply(s, step).committed == s.committed + [AuditRow(id, Some(s.db.agents[id].role), Master, true)]
  {
    if step.SetRole? {
      SetRoleMaster(s, step.id, step.role, step.confirm, id);
    } else {
      OthersMakeNoMaster(s, step, id);
    }
  }
}
