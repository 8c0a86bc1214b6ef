/** Which step may change which field of an agent, and what that makes of an agent over a whole run. */
module AgentHistory {
  import opened OrderedDicts
  import opened Panes
  import opened PaneTable
  import opened Registry
  import opened RegistryLaws
  import opened AgentRules
  import opened Transactions

  /** A registration for the agent's pane. */
  predicate RegistersOn(step: Step, key: PaneKey) {
    step.Register? && step.req.key == key
  }

  /** A scan commit that goes through. */
  ghost predicate Scans(s: State, step: Step) {
    step.CommitScan? && Reconciled(s.phase, step.o, step.ws)
  }

  /** Each field of an agent has its own writers: a registration for its pane, the setter of the field, a scan's commit. */
  ghost predicate OwnWriters(s: State, step: Step, id: AgentId, a: Agent, a': Agent) {
    && a'.key == a.key && a'.parent == a.parent && a'.createdAt == a.createdAt
    && (a'.role != a.role ==> RegistersOn(step, a.key) || (step.SetRole? && step.id == id && step.role == a'.role))
    && (a'.tag != a.tag ==> RegistersOn(step, a.key) || step == SetLabel(id, a'.tag))
    && (a'.capability != a.capability ==> RegistersOn(step, a.key) || step == SetCapability(id, a'.capability))
    && (a'.project != a.project || a'.registeredAt != a.registeredAt ==> RegistersOn(step, a.key))
    && (a'.seenAt != a.seenAt ==> Scans(s, step) && a'.seenAt == Some(step.now) && exists u :: u in step.ws.upserts && u.key == a.key)
    && (a.active && !a'.active ==> Scans(s, step) && a.key in step.ws.inactivate)
    && (!a.active && a'.active ==> RegistersOn(step, a.key))
  }

  lemma {:induction false} ScanWriters(s: State, step: Step, id: AgentId)
    requires Scans(s, step) && id in s.db.agents
    ensures id in Apply(s, step).db.agents && OwnWriters(s, step, id, s.db.agents[id], Apply(s, step).db.agents[id])
    ensures AgentAfterScan(s.db.agents[id], Apply(s, step).db.agents[id], step.ws, step.now)
  {
    ScanAgents(s.db, step.ws, step.now);
    assert AgentAfterScan(s.db.agents[id], ScanTx(s.db, step.ws, step.now).agents[id], step.ws, step.now);
  }

  lemma {:induction false} TxAgents(s: State, tx: Tx, hold: Hold)
    ensures AfterTx(s, tx, hold).db.agents == if tx.Committed? then tx.agents else s.db.agents
  {
  }

  lemma {:induction false} OwnRegistration(s: State, req: Request, id: AgentId, a: Agent, a': Agent)
    requires a' == a || (a.key == req.key && ReturningFields(a, req, a'))
    ensures OwnWriters(s, Register(req), id, a, a')
  {
  }

  lemma {:induction false} RegisterWriters(s: State, req: Request, id: AgentId)
    requires id in s.db.agents && KeysUnique(s.db.agents)
    ensures id in Apply(s, Register(req)).db.agents
    ensures OwnWriters(s, Register(req), id, s.db.agents[id], Apply(s, Register(req)).db.agents[id])
  {
    var tx := RegisterTx(s.db, req);
    TxAgents(s, tx, RegisterOn(req.key));
    if tx.Committed? {
      RegisterWritten(s.db, req);
    }
    OwnRegistration(s, req, id, s.db.agents[id], Apply(s, Register(req)).db.agents[id]);
  }

  lemma {:induction false} SetRoleWriters(s: State, x: AgentId, role: Role, confirm: bool, id: AgentId)
    requires id in s.db.agents
    ensures id in Apply(s, SetRole(x, role, confirm)).db.agents
    ensures OwnWriters(s, SetRole(x, role, confirm), id, s.db.agents[id], Apply(s, SetRole(x, role, confirm)).db.agents[id])
  {
    TxAgents(s, SetRoleTx(s.db, x, role, confirm), AgentOf(x));
  }

  lemma {:induction false} SetLabelWriters(s: State, x: AgentId, tag: string, id: AgentId)
    requires id in s.db.agents
    ensures id in Apply(s, SetLabel(x, tag)).db.agents
    ensures OwnWriters(s, SetLabel(x, tag), id, s.db.agents[id], Apply(s, SetLabel(x, tag)).db.agents[id])
  {
    TxAgents(s, SetLabelTx(s.db, x, tag), AgentOf(x));
  }

  lemma {:induction false} SetCapabilityWriters(s: State, x: AgentId, capability: Capability, id: AgentId)
    requires id in s.db.agents
    ensures id in Apply(s, SetCapability(x, capability)).db.agents
    ensures OwnWriters(s, SetCapability(x, capability), id, s.db.agents[id], Apply(s, SetCapability(x, capability)).db.agents[id])
  {
    TxAgents(s, SetCapabilityTx(s.db, x, capability), AgentOf(x));
  }

  predicate OtherStep(step: Step) {
    !step.Register? && !step.SetRole? && !step.SetLabel? && !step.SetCapability?
  }

  lemma {:induction false} OtherStepsKeepAgents(s: State, step: Step)
    requires OtherStep(step) && !Scans(s, step)
    ensures Apply(s, step).db.agents == s.db.agents
  {
  }

  /** In every state of every run, whatever step is taken, each field of each agent changes only by one of its writers. */
  lemma {:induction false} EveryFieldHasItsWriters(db: Db, steps: seq<Step>, step: Step, id: AgentId)
    requires id in Run(db, steps).db.agents
    ensures var s := Run(db, steps);
            id in Apply(s, step).db.agents && OwnWriters(s, step, id, s.db.agents[id], Apply(s, step).db.agents[id])
  {
    RegistrySound(db, steps);
    StepWriters(Run(db, steps), step, id);
  }

  lemma {:induction false} StepWriters(s: State, step: Step, id: AgentId)
    requires Inv(s.db) && id in s.db.agents
    ensures id in Apply(s, step).db.agents && OwnWriters(s, step, id, s.db.agents[id], Apply(s, step).db.agents[id])
  {
    if Scans(s, step) {
      ScanWriters(s, step, id);
    } else {
      match step
      case Register(req) => RegisterWriters(s, req, id);
      case SetRole(x, role, confirm) => SetRoleWriters(s, x, role, confirm, id);
      case SetLabel(x, tag) => SetLabelWriters(s, x, tag, id);
      case SetCapability(x, capability) => SetCapabilityWriters(s, x, capability, id);
      case _ => OtherStepsKeepAgents(s, step);
    }
  }

  // Active and inactive

  /** The scan's commit lists the agent's pane for inactivation. */
  ghost predicate Inactivates(s: State, step: Step, id: AgentId) {
    Scans(s, step) && id in s.db.agents && s.db.agents[id].key in step.ws.inactivate
  }

  /** The registration commits, for the agent. */
  ghost predicate Registers(s: State, step: Step, id: AgentId) {
    step.Register? && Free(s, RegisterOn(step.req.key)) && RegisterTx(s.db, step.req).Committed? && RegisterTx(s.db, step.req).id == id
  }

  /** Of the steps that inactivate or register the agent, the last inactivates it. */
  ghost predicate LastInactivated(db: Db, steps: seq<Step>, id: AgentId) {
    steps != [] &&
    var front, step := steps[..|steps| - 1], steps[|steps| - 1];
    Inactivates(Run(db, front), step, id) || (!Registers(Run(db, front), step, id) && LastInactivated(db, front, id))
  }

  lemma {:induction false} RegisteredActive(s: State, step: Step, id: AgentId)
    requires Inv(s.db) && Registers(s, step, id)
    ensures id in Apply(s, step).db.agents && Apply(s, step).db.agents[id].active
  {
    TxAgents(s, RegisterTx(s.db, step.req), RegisterOn(step.req.key));
    RegisterWritten(s.db, step.req);
  }

  lemma {:induction false} OthersRegistered(s: State, step: Step, id: AgentId)
    requires Inv(s.db) && step.Register? && id in Apply(s, step).db.agents && !Registers(s, step, id)
    ensures id in s.db.agents && Apply(s, step).db.agents[id] == s.db.agents[id]
  {
    TxAgents(s, RegisterTx(s.db, step.req), RegisterOn(step.req.key));
    if RegisterTx(s.db, step.req).Committed? {
      RegisterWritten(s.db, step.req);
    }
  }

  lemma {:induction false} SettersKeepActive(s: State, step: Step, id: AgentId)
    requires step.SetRole? || step.SetLabel? || step.SetCapability?
    requires id in Apply(s, step).db.agents
    ensures id in s.db.agents && Apply(s, step).db.agents[id].active == s.db.agents[id].active
  {
  }

  lemma {:induction false} UnregisteredKept(s: State, step: Step, id: AgentId)
    requires Inv(s.db) && id in Apply(s, step).db.agents && !Registers(s, step, id)
    ensures id in s.db.agents
    ensures Apply(s, step).db.agents[id].active <==> s.db.agents[id].active && !Inactivates(s, step, id)
  {
    if step.Register? {
      OthersRegistered(s, step, id);
    } else if Scans(s, step) {
      ScanAgents(s.db, step.ws, step.now);
      ScanWriters(s, step, id);
    } else if step.SetRole? || step.SetLabel? || step.SetCapability? {
      SettersKeepActive(s, step, id);
    } else {
      OtherStepsKeepAgents(s, step);
    }
  }

  /** In every interleaving an agent is inactive if and only if a scan's commit listed its pane after its last registration. */
  lemma {:induction false} ActiveIff(db: Db, steps: seq<Step>, id: AgentId)
    requires id in Run(db, steps).db.agents
    ensures Run(db, steps).db.agents[id].active <==> !LastInactivated(db, steps, id)
  {
    if steps != [] {
      var front, step := steps[..|steps| - 1], steps[|steps| - 1];
      var s := Run(db, front);
      RegistrySound(db, front);
      if Registers(s, step, id) {
        RegisteredActive(s, step, id);
      } else {
        UnregisteredKept(s, step, id);
        ActiveIff(db, front, id);
      }
    }
  }

  // Parents and permissions

  /** A new agent's parent was, in the state before, an active slave. */
  lemma {:induction false} ParentWasActiveSlave(db: Db, steps: seq<Step>, step: Step, id: AgentId)
    requires id !in Run(db, steps).db.agents && id in Apply(Run(db, steps), step).db.agents
    requires Apply(Run(db, steps), step).db.agents[id].parent.Some?
    ensures var s, parent := Run(db, steps), Apply(Run(db, steps), step).db.agents[id].parent.value;
            step.Register? && parent in s.db.agents && s.db.agents[parent].active && s.db.agents[parent].role == Slave
  {
    RegistrySound(db, steps);
    NewParent(Run(db, steps), step, id);
  }

  lemma {:induction false} OnlyRegisterCreates(s: State, step: Step, id: AgentId)
    requires id !in s.db.agents && id in Apply(s, step).db.agents
    ensures step.Register? && RegisterTx(s.db, step.req).Committed? && Apply(s, step).db.agents == RegisterTx(s.db, step.req).agents
  {
    if OtherStep(step) {
      if Scans(s, step) {
        ScanAgents(s.db, step.ws, step.now);
      } else {
        OtherStepsKeepAgents(s, step);
      }
    } else if !step.Register? {
      SettersKeepActive(s, step, id);
    }
  }

  lemma {:induction false} NewParent(s: State, step: Step, id: AgentId)
    requires Inv(s.db) && id !in s.db.agents && id in Apply(s, step).db.agents && Apply(s, step).db.agents[id].parent.Some?
    ensures var parent := Apply(s, step).db.agents[id].parent.value;
            step.Register? && parent in s.db.agents && s.db.agents[parent].active && s.db.agents[parent].role == Slave
  {
    OnlyRegisterCreates(s, step, id);
    RegisterWritten(s.db, step.req);
    NewcomerParent(s.db, step.req);
  }

  /** In every interleaving only masters may send, to slaves and swarm members, and only those two may receive. */
  lemma {:induction false} PermissionsInRuns(db: Db, steps: seq<Step>, id: AgentId)
    requires id in Run(db, steps).db.agents
    ensures var a := Run(db, steps).db.agents[id];
            && (a.permissions.canSend <==> a.role == Master)
            && (a.permissions.canReceive <==> a.role == Slave || a.role == Swarm)
            && a.permissions.canSendTo == if a.role == Master then [Slave, Swarm] else []
  {
    RegistrySound(db, steps);
    assert Sound(Run(db, steps).db, id);
    PermissionsByRole(Run(db, steps).db.agents[id].role);
  }
}
