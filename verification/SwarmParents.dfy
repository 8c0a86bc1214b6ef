/** When an agent with a parent is a swarm member, and when it is not. */
module SwarmParents {
  import opened OrderedDicts
  import opened Registry
  import opened RegistryLaws
  import opened Transactions
  import ParentDepth

  predicate HasParent(agents: Agents, id: AgentId) {
    id in agents && agents[id].parent.Some?
  }

  ghost predicate ParentedSwarm(agents: Agents) {
    forall id :: HasParent(agents, id) ==> agents[id].role == Swarm
  }

  // One step

  /** A `set_role` on an active agent with a parent, to a role that may be set: not swarm, and master only with confirmation and in an active container. */
  ghost predicate Demotes(s: State, step: Step) {
    && step.SetRole? && Free(s, AgentOf(step.id)) && HasParent(s.db.agents, step.id) && s.db.agents[step.id].active
    && step.role != Swarm
    && (step.role == Master ==> step.confirm && ContainerActive(s.db, s.db.agents[step.id].key.container))
  }

  lemma {:induction false} RegisterParented(db: Db, req: Request)
    requires var tx := RegisterTx(db, req); tx.Committed? && tx.row.Some? && HasParent(tx.agents, tx.row.value.id)
    ensures var tx := RegisterTx(db, req); tx.agents[tx.row.value.id].role == Swarm
  {
  }

  lemma {:induction false} DemotedRole(s: State, step: Step)
    requires Demotes(s, step)
    ensures HasParent(Apply(s, step).db.agents, step.id) && Apply(s, step).db.agents[step.id].role == step.role != Swarm
  {
  }

  /** The step committed a change of the agent's role. */
  predicate Changes(s: State, s': State, id: AgentId) {
    |s'.committed| > |s.committed| && s'.committed[|s'.committed| - 1].id == id
  }

  lemma {:induction false} OnlyRolesCommit(s: State, step: Step)
    requires |Apply(s, step).committed| > |s.committed|
    ensures step.Register? || step.SetRole?
  {
  }

  lemma {:induction false} ChangedByRegister(s: State, req: Request, id: AgentId)
    requires HasParent(Apply(s, Register(req)).db.agents, id) && Changes(s, Apply(s, Register(req)), id)
    ensures Apply(s, Register(req)).db.agents[id].role == Swarm
  {
    var tx := RegisterTx(s.db, req);
    assert tx.Committed? && tx.row.Some? && tx.row.value.id == id;
    RegisterParented(s.db, req);
  }

  lemma {:induction false} ChangedBySetRole(s: State, step: Step, id: AgentId)
    requires step.SetRole? && HasParent(Apply(s, step).db.agents, id) && Changes(s, Apply(s, step), id)
    ensures step.id == id && Demotes(s, step)
  {
  }

  lemma {:induction false} UnchangedRole(s: State, step: Step, id: AgentId)
    requires HasParent(Apply(s, step).db.agents, id) && !Changes(s, Apply(s, step), id)
    ensures HasParent(s.db.agents, id) && Apply(s, step).db.agents[id].role == s.db.agents[id].role
  {
    var row := StepMoves(s, step);
    assert RoleOf(s.db.agents, id) == RoleOf(Apply(s, step).db.agents, id);
  }

  lemma {:induction false} ChangedRole(s: State, step: Step, id: AgentId)
    requires HasParent(Apply(s, step).db.agents, id) && Changes(s, Apply(s, step), id)
    ensures if step.SetRole? then Demotes(s, step) && Apply(s, step).db.agents[id].role != Swarm
            else Apply(s, step).db.agents[id].role == Swarm
  {
    if step.SetRole? {
      ChangedBySetRole(s, step, id);
      DemotedRole(s, step);
    } else {
      OnlyRolesCommit(s, step);
      ChangedByRegister(s, step.req, id);
    }
  }

  /** Every agent with a parent stays a swarm member through a step if and only if the step is not a `set_role` on one of them. */
  lemma {:induction false} SwarmKeptIff(s: State, step: Step)
    requires ParentedSwarm(s.db.agents)
    ensures ParentedSwarm(Apply(s, step).db.agents) <==> !Demotes(s, step)
  {
    if Demotes(s, step) {
      DemotedRole(s, step);
    } else {
      forall id | HasParent(Apply(s, step).db.agents, id)
        ensures Apply(s, step).db.agents[id].role == Swarm
      {
        if Changes(s, Apply(s, step), id) {
          ChangedRole(s, step, id);
        } else {
          UnchangedRole(s, step, id);
        }
      }
    }
  }

  // Every run

  /** The last change of the agent's role was made by `set_role`. */
  ghost predicate LastBySetRole(db: Db, steps: seq<Step>, id: AgentId) {
    steps != [] &&
    var front, step := steps[..|steps| - 1], steps[|steps| - 1];
    if Changes(Run(db, front), Run(db, steps), id) then step.SetRole? else LastBySetRole(db, front, id)
  }

  /** In every interleaving an agent with a parent is a swarm member if and only if no `set_role` made the last change of its role. */
  lemma {:induction false} ParentedSwarmIff(db: Db, steps: seq<Step>, id: AgentId)
    requires HasParent(Run(db, steps).db.agents, id)
    ensures Run(db, steps).db.agents[id].role == Swarm <==> !LastBySetRole(db, steps, id)
  {
    if steps != [] {
      var front, step := steps[..|steps| - 1], steps[|steps| - 1];
      if Changes(Run(db, front), Run(db, steps), id) {
        ChangedRole(Run(db, front), step, id);
      } else {
        UnchangedRole(Run(db, front), step, id);
        ParentedSwarmIff(db, front, id);
      }
    }
  }

  /** For any two ids, a run that ends with the one a slave under the other. */
  lemma {:induction false} ParentedSlave(parent: AgentId, child: AgentId) returns (db: Db, steps: seq<Step>)
    requires parent != child
    ensures var agents := Run(db, steps).db.agents;
            child in agents && agents[child].parent == Some(parent) && agents[child].role == Slave
  {
    var ids := [parent, child];
    db := ParentDepth.World(|ids|);
    steps := ParentDepth.AnyLine(ids);
    var path := ParentDepth.Upward(ids);
    assert path[0] == child && path[0 + 1] == parent;
  }
}
