/** What every transaction on the registry keeps, whoever else has run before it. */
module RegistryLaws {
  import opened OrderedDicts
  import opened Panes
  import opened PaneReconcile
  import opened PaneTable
  import opened Registry

  // Structure

  /** One agent: its permissions are its role's, a swarm member has a parent, and while active its pane is too. */
  ghost predicate Sound(db: Db, id: AgentId)
    requires id in db.agents
  {
    var a := db.agents[id];
    && a.permissions == Derived(a.role)
    && (a.role == Swarm ==> a.parent.Some?)
    && (a.parent.Some? ==> a.parent.value in db.agents)
    && (a.active ==> IsActive(db.panes, a.key))
  }

  ghost predicate Inv(db: Db) {
    KeysUnique(db.agents) && forall id :: id in db.agents ==> Sound(db, id)
  }

  lemma {:induction false} CreateKeeps(db: Db, req: Request)
    requires Inv(db) && StaticRefusal(req).None? && PaneLive(db, req.key) && !Bound(db.agents, req.key)
    requires CreateTx(db.agents, req).Committed?
    ensures Inv(db.(agents := CreateTx(db.agents, req).agents))
  {
  }

  lemma {:induction false} UpdateKeeps(db: Db, id: AgentId, req: Request)
    requires Inv(db) && StaticRefusal(req).None? && PaneLive(db, req.key) && id in db.agents && db.agents[id].key == req.key
    requires UpdateTx(db.agents, id, req).Committed?
    ensures Inv(db.(agents := UpdateTx(db.agents, id, req).agents))
  {
  }

  lemma {:induction false} RegisterKeeps(db: Db, req: Request)
    requires Inv(db) && RegisterTx(db, req).Committed?
    ensures Inv(db.(agents := RegisterTx(db, req).agents))
  {
    if Bound(db.agents, req.key) {
      UpdateKeeps(db, BoundId(db.agents, req.key), req);
    } else {
      CreateKeeps(db, req);
    }
  }

  lemma {:induction false} SetRoleKeeps(db: Db, id: AgentId, role: Role, confirm: bool)
    requires Inv(db) && SetRoleTx(db, id, role, confirm).Committed?
    ensures Inv(db.(agents := SetRoleTx(db, id, role, confirm).agents))
  {
  }

  lemma {:induction false} SetLabelKeeps(db: Db, id: AgentId, tag: string)
    requires Inv(db) && SetLabelTx(db, id, tag).Committed?
    ensures Inv(db.(agents := SetLabelTx(db, id, tag).agents))
  {
  }

  lemma {:induction false} SetCapabilityKeeps(db: Db, id: AgentId, capability: Capability)
    requires Inv(db) && SetCapabilityTx(db, id, capability).Committed?
    ensures Inv(db.(agents := SetCapabilityTx(db, id, capability).agents))
  {
  }

  /** A pane that is active and not inactivated stays active, whatever else is written. */
  lemma {:induction false} StaysActive(rows: Rows, ws: WriteSet, now: string, k: PaneKey)
    requires IsActive(rows, k) && k !in ws.inactivate
    ensures IsActive(Applied(rows, ws, now), k)
  {
    PutAllAt(rows, ws.upserts, k);
  }

  /** Whatever write set is committed, on whatever reading it was based, no agent outlives its pane. */
  lemma {:induction false} ScanKeeps(db: Db, ws: WriteSet, now: string)
    requires Inv(db)
    ensures Inv(ScanTx(db, ws, now))
  {
    var db' := ScanTx(db, ws, now);
    forall id | id in db'.agents
      ensures Sound(db', id)
    {
      assert Sound(db, id);
      if db'.agents[id].active {
        StaysActive(db.panes, ws, now, db.agents[id].key);
      }
    }
  }

  /** An attachment that goes stale with its pane is audited once, and a second time exactly when its row is inactivated twice. */
  lemma {:induction false} StaleAudits(rows: Rows, o: Observed, ws: WriteSet, atts: Attachments, id: string)
    requires Scan(rows, o, ws) && Affected(atts, id, ws.inactivate)
    ensures TimesAffected(atts, id, ws.inactivate) == 1 + Bit(InactivatedTwice(rows, o, atts[id].key))
  {
    TwiceIff(rows, o, ws, atts[id].key);
    assert multiset(ws.inactivate)[atts[id].key] > 0;
  }

  // Roles

  function RoleOf(agents: Agents, id: AgentId): Option<Role> {
    if id in agents then Some(agents[id].role) else None
  }

  /** An agent table and its successor: the audit row, if any, is the one change of role there is. */
  ghost predicate RoleStep(agents: Agents, agents': Agents, row: Option<AuditRow>) {
    && (forall id :: id in agents ==> id in agents' && agents'[id].parent == agents[id].parent && agents'[id].key == agents[id].key)
    && (forall id :: (row.None? || row.value.id != id) ==> RoleOf(agents', id) == RoleOf(agents, id))
    && (row.Some? ==>
          && RoleOf(agents, row.value.id) == row.value.prior
          && RoleOf(agents', row.value.id) == Some(row.value.next)
          && row.value.prior != Some(row.value.next))
    && (forall id :: id in agents' && id !in agents && agents'[id].parent.Some? ==> agents'[id].parent.value in agents)
  }

  lemma {:induction false} OneRowStep(agents: Agents, id: AgentId, a: Agent, row: Option<AuditRow>)
    requires id in agents && a.parent == agents[id].parent && a.key == agents[id].key
    requires if row.None? then a.role == agents[id].role
             else row.value.id == id && row.value.prior == Some(agents[id].role) && row.value.next == a.role != agents[id].role
    ensures RoleStep(agents, agents[id := a], row)
  {
  }

  lemma {:induction false} RegisterRoleStep(db: Db, req: Request)
    requires RegisterTx(db, req).Committed?
    ensures RoleStep(db.agents, RegisterTx(db, req).agents, RegisterTx(db, req).row)
  {
  }

  lemma {:induction false} SetRoleRoleStep(db: Db, id: AgentId, role: Role, confirm: bool)
    requires SetRoleTx(db, id, role, confirm).Committed?
    ensures RoleStep(db.agents, SetRoleTx(db, id, role, confirm).agents, SetRoleTx(db, id, role, confirm).row)
  {
    var a, tx := db.agents[id], SetRoleTx(db, id, role, confirm);
    OneRowStep(db.agents, id, if tx.row.None? then a else a.(role := role, permissions := Derived(role)), tx.row);
    assert db.agents[id := a] == db.agents;
  }

  lemma {:induction false} SetLabelRoleStep(db: Db, id: AgentId, tag: string)
    requires SetLabelTx(db, id, tag).Committed?
    ensures RoleStep(db.agents, SetLabelTx(db, id, tag).agents, SetLabelTx(db, id, tag).row)
  {
  }

  lemma {:induction false} SetCapabilityRoleStep(db: Db, id: AgentId, capability: Capability)
    requires SetCapabilityTx(db, id, capability).Committed?
    ensures RoleStep(db.agents, SetCapabilityTx(db, id, capability).agents, SetCapabilityTx(db, id, capability).row)
  {
  }

  lemma {:induction false} ScanRoleStep(db: Db, ws: WriteSet, now: string)
    ensures RoleStep(db.agents, ScanTx(db, ws, now).agents, None)
  {
  }

  /** Registering makes nobody a master. */
  lemma {:induction false} RegisterMakesNoMaster(db: Db, req: Request, id: AgentId)
    requires RegisterTx(db, req).Committed? && RoleOf(RegisterTx(db, req).agents, id) == Some(Master)
    ensures RoleOf(db.agents, id) == Some(Master)
  {
  }

  // Sending a registration again

  lemma {:induction false} UpdateAgain(agents: Agents, id: AgentId, a: Agent, req: Request)
    requires id in agents && agents[id] == a && StaticRefusal(req).None?
    requires req.parent.Some? ==> req.parent.value == a.parent
    requires a.parent.Some? ==> a.role == Swarm
    requires Reregistered(a, req) == a && a.active
    ensures UpdateTx(agents, id, req) == Committed(agents, None, id, Updated)
  {
    assert agents[id := a] == agents;
  }

  lemma {:induction false} StillBound(db: Db, req: Request)
    requires Inv(db) && RegisterTx(db, req).Committed?
    ensures var tx := RegisterTx(db, req); Bound(tx.agents, req.key) && BoundId(tx.agents, req.key) == tx.id
  {
    RegisterKeeps(db, req);
    var tx := RegisterTx(db, req);
    assert tx.id in tx.agents && tx.agents[tx.id].key == req.key;
  }

  /** The same registration sent again finds the agent it made or updated, changes nothing and leaves no audit row. */
  lemma {:induction false} RegisterTwice(db: Db, req: Request)
    requires Inv(db) && RegisterTx(db, req).Committed?
    ensures var tx := RegisterTx(db, req);
            RegisterTx(db.(agents := tx.agents), req) == Committed(tx.agents, None, tx.id, Updated)
  {
    var tx := RegisterTx(db, req);
    StillBound(db, req);
    UpdateAgain(tx.agents, tx.id, tx.agents[tx.id], req);
  }
}
