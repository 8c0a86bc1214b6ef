/** What a registration or a setter does to each field of each agent, and what each refusal means. */
module AgentRules {
  import opened OrderedDicts
  import opened Panes
  import opened PaneTable
  import opened Registry

  // Permissions

  /** Only a master sends, to slaves and swarm members; only those two receive. */
  lemma {:induction false} PermissionsByRole(role: Role)
    ensures Derived(role).canSend <==> role == Master
    ensures Derived(role).canReceive <==> role == Slave || role == Swarm
    ensures Derived(role).canSendTo == if role == Master then [Slave, Swarm] else []
  {
  }

  // Refusals

  /** What stands in the way of a call, in the order in which it is looked for. */
  datatype Cause = Cause(code: Code, holds: bool)

  function FirstCause(causes: seq<Cause>): Option<Code> {
    if causes == [] then None else if causes[0].holds then Some(causes[0].code) else FirstCause(causes[1..])
  }

  function RefusalOf(tx: Tx): Option<Code> {
    if tx.Refused? then Some(tx.code) else None
  }

  predicate AsksParent(req: Request) {
    req.parent.Some? && req.parent.value.Some?
  }

  function RequestCauses(db: Db, req: Request): seq<Cause> {
    [Cause(ValueOutOfSet, req.container == "" || req.key.container != req.container),
     Cause(MasterViaRegister, req.role == Some(Master)),
     Cause(SwarmParentRequired, req.role == Some(Swarm) && !AsksParent(req)),
     Cause(ParentRoleMismatch, AsksParent(req) && req.role.Some? && req.role != Some(Swarm)),
     Cause(PaneUnknown, !(req.key in db.panes && db.panes[req.key].active
                          && req.key.container in db.containers && db.containers[req.key.container]))]
  }

  /** A new agent with a parent must be a swarm member, under an active slave, and some drawn id must be free. */
  ghost function NewcomerCauses(agents: Agents, req: Request): seq<Cause> {
    var parent := if AsksParent(req) then req.parent.value.value else "";
    [Cause(ParentRoleMismatch, AsksParent(req) && req.role != Some(Swarm)),
     Cause(ParentNotFound, AsksParent(req) && parent !in agents),
     Cause(ParentInactive, AsksParent(req) && parent in agents && !agents[parent].active),
     Cause(ParentRoleInvalid, AsksParent(req) && parent in agents && agents[parent].role != Slave),
     Cause(InternalError, forall i :: 0 <= i < |req.ids| ==> req.ids[i] in agents),
     Cause(AttachFailed, req.attach.AttachRaises?)]
  }

  /** An agent keeps its parent, and with a parent its role stays swarm. */
  function ReturningCauses(a: Agent, req: Request): seq<Cause> {
    [Cause(ParentImmutable, req.parent.Some? && req.parent.value != a.parent),
     Cause(ParentRoleMismatch, a.parent.Some? && (if req.role.Some? then req.role.value else a.role) != Swarm),
     Cause(AttachFailed, req.attach.AttachRaises?)]
  }

  ghost predicate OnPane(agents: Agents, id: AgentId, key: PaneKey) {
    id in agents && agents[id].key == key
  }

  ghost predicate Vacant(agents: Agents, key: PaneKey) {
    forall id :: id in agents ==> agents[id].key != key
  }

  lemma {:induction false} NextCause(c: Cause, causes: seq<Cause>)
    ensures FirstCause([c] + causes) == if c.holds then Some(c.code) else FirstCause(causes)
  {
    assert ([c] + causes)[1..] == causes;
  }

  lemma {:induction false} ThreeCauses(a: Cause, b: Cause, c: Cause)
    ensures FirstCause([a, b, c]) ==
            if a.holds then Some(a.code) else if b.holds then Some(b.code) else if c.holds then Some(c.code) else None
  {
    NextCause(c, []);
    NextCause(b, [c]);
    NextCause(a, [b, c]);
    assert [c] + [] == [c] && [b] + [c] == [b, c] && [a] + [b, c] == [a, b, c];
  }

  lemma {:induction false} FiveCauses(a: Cause, b: Cause, c: Cause, d: Cause, e: Cause)
    ensures FirstCause([a, b, c, d, e]) ==
            if a.holds then Some(a.code) else if b.holds then Some(b.code) else FirstCause([c, d, e])
  {
    NextCause(b, [c, d, e]);
    NextCause(a, [b, c, d, e]);
    assert [b] + [c, d, e] == [b, c, d, e] && [a] + [b, c, d, e] == [a, b, c, d, e];
    ThreeCauses(c, d, e);
  }

  lemma {:induction false} SixCauses(a: Cause, b: Cause, c: Cause, d: Cause, e: Cause, f: Cause)
    ensures FirstCause([a, b, c, d, e, f]) == if a.holds then Some(a.code) else FirstCause([b, c, d, e, f])
  {
    NextCause(a, [b, c, d, e, f]);
    assert [a] + [b, c, d, e, f] == [a, b, c, d, e, f];
  }

  /** A registration the request and the pane table already rule out. */
  lemma {:induction false} RequestRefused(db: Db, req: Request)
    requires FirstCause(RequestCauses(db, req)).Some?
    ensures RefusalOf(RegisterTx(db, req)) == FirstCause(RequestCauses(db, req))
  {
    var cs := RequestCauses(db, req);
    FiveCauses(cs[0], cs[1], cs[2], cs[3], cs[4]);
    ThreeCauses(cs[2], cs[3], cs[4]);
  }

  lemma {:induction false} RequestAdmitted(db: Db, req: Request)
    requires FirstCause(RequestCauses(db, req)).None?
    ensures StaticRefusal(req).None? && PaneLive(db, req.key)
  {
    var cs := RequestCauses(db, req);
    FiveCauses(cs[0], cs[1], cs[2], cs[3], cs[4]);
    ThreeCauses(cs[2], cs[3], cs[4]);
  }

  /** On a pane without an agent, the registration is refused for the first of the newcomer's causes, if any holds. */
  lemma {:induction false} NewcomerRefused(db: Db, req: Request)
    requires FirstCause(RequestCauses(db, req)).None? && Vacant(db.agents, req.key)
    ensures RefusalOf(RegisterTx(db, req)) == FirstCause(NewcomerCauses(db.agents, req))
  {
    RequestAdmitted(db, req);
    var cs := NewcomerCauses(db.agents, req);
    SixCauses(cs[0], cs[1], cs[2], cs[3], cs[4], cs[5]);
    FiveCauses(cs[1], cs[2], cs[3], cs[4], cs[5]);
    ThreeCauses(cs[3], cs[4], cs[5]);
    assert !Bound(db.agents, req.key);
  }

  /** On an agent's own pane, for the first of the returning agent's causes. */
  lemma {:induction false} ReturningRefused(db: Db, req: Request, id: AgentId)
    requires FirstCause(RequestCauses(db, req)).None? && KeysUnique(db.agents) && OnPane(db.agents, id, req.key)
    ensures RefusalOf(RegisterTx(db, req)) == FirstCause(ReturningCauses(db.agents[id], req))
  {
    RequestAdmitted(db, req);
    var cs := ReturningCauses(db.agents[id], req);
    ThreeCauses(cs[0], cs[1], cs[2]);
    assert BoundId(db.agents, req.key) == id;
  }

  function SetRoleCauses(db: Db, id: AgentId, role: Role, confirm: bool): seq<Cause> {
    [Cause(SwarmViaSetRole, role == Swarm),
     Cause(MasterConfirmRequired, role == Master && !confirm),
     Cause(AgentNotFound, id !in db.agents),
     Cause(AgentInactive, id in db.agents && !db.agents[id].active),
     Cause(AgentInactive, role == Master && id in db.agents &&
                          !(db.agents[id].key.container in db.containers && db.containers[db.agents[id].key.container]))]
  }

  lemma {:induction false} SetRoleRefused(db: Db, id: AgentId, role: Role, confirm: bool)
    ensures RefusalOf(SetRoleTx(db, id, role, confirm)) == FirstCause(SetRoleCauses(db, id, role, confirm))
  {
    var cs := SetRoleCauses(db, id, role, confirm);
    FiveCauses(cs[0], cs[1], cs[2], cs[3], cs[4]);
    ThreeCauses(cs[2], cs[3], cs[4]);
  }

  /** A label or a capability is refused for an unknown agent or an inactive one, and for nothing else. */
  lemma {:induction false} SettersRefused(db: Db, id: AgentId, tag: string, capability: Capability)
    ensures RefusalOf(SetLabelTx(db, id, tag)) ==
            if id !in db.agents then Some(AgentNotFound) else if !db.agents[id].active then Some(AgentInactive) else None
    ensures RefusalOf(SetCapabilityTx(db, id, capability)) == RefusalOf(SetLabelTx(db, id, tag))
  {
  }

  // What is written

  /** No agent but one is touched. */
  ghost predicate OthersKept(agents: Agents, agents': Agents, id: AgentId) {
    agents'.Keys == agents.Keys + {id} && forall x :: x in agents && x != id ==> agents'[x] == agents[x]
  }

  /** Every field but the role, what follows from it, and the fields a registration may give. */
  predicate SameIdentity(a: Agent, a': Agent) {
    a'.key == a.key && a'.parent == a.parent && a'.createdAt == a.createdAt && a'.seenAt == a.seenAt
  }

  predicate Given<T(==)>(asked: Option<T>, otherwise: T, value: T) {
    (asked.Some? ==> value == asked.value) && (asked.None? ==> value == otherwise)
  }

  /** A new agent: what the request gives, the defaults for the rest, on the pane, active, created now and never seen. */
  predicate NewcomerFields(req: Request, a: Agent) {
    && a.key == req.key && a.active && a.createdAt == req.now && a.registeredAt == req.now && a.seenAt.None?
    && Given(req.role, UnknownRole, a.role) && Given(req.capability, UnknownTool, a.capability)
    && Given(req.tag, "", a.tag) && Given(req.project, "", a.project) && Given(req.parent, None, a.parent)
    && a.permissions == Derived(a.role)
  }

  /** A returning agent: what the request gives, its own values for the rest, active again and registered now. */
  predicate ReturningFields(a: Agent, req: Request, a': Agent) {
    && SameIdentity(a, a') && a'.active && a'.registeredAt == req.now
    && Given(req.role, a.role, a'.role) && Given(req.capability, a.capability, a'.capability)
    && Given(req.tag, a.tag, a'.tag) && Given(req.project, a.project, a'.project)
    && a'.permissions == Derived(a'.role)
  }

  lemma {:induction false} FirstFreeIs(agents: Agents, ids: seq<AgentId>) returns (i: nat)
    requires FirstFree(agents, ids).Some?
    ensures i < |ids| && FirstFree(agents, ids) == Some(ids[i]) && ids[i] !in agents
    ensures forall j :: 0 <= j < i ==> ids[j] in agents
  {
    i := 0;
    if ids[0] in agents {
      i := FirstFreeIs(agents, ids[1..]);
      i := i + 1;
      assert forall j :: 0 < j < i ==> ids[j] == ids[1..][j - 1];
    }
  }

  /** A registration on a pane without an agent creates one, under the first drawn id that is free, and audits its role. */
  lemma {:induction false} NewcomerWritten(db: Db, req: Request) returns (i: nat)
    requires RegisterTx(db, req).Committed? && Vacant(db.agents, req.key)
    ensures var tx := RegisterTx(db, req);
            && i < |req.ids| && tx.id == req.ids[i] && tx.id !in db.agents && (forall j :: 0 <= j < i ==> req.ids[j] in db.agents)
            && OthersKept(db.agents, tx.agents, tx.id) && NewcomerFields(req, tx.agents[tx.id])
            && tx.how == Created && tx.row == Some(AuditRow(tx.id, None, tx.agents[tx.id].role, false))
  {
    assert !Bound(db.agents, req.key);
    i := FirstFreeIs(db.agents, req.ids);
  }

  /** A registration on an agent's own pane updates that agent, and audits its role only if it changes. */
  lemma {:induction false} ReturningWritten(db: Db, req: Request, id: AgentId)
    requires RegisterTx(db, req).Committed? && KeysUnique(db.agents) && OnPane(db.agents, id, req.key)
    ensures var tx, a := RegisterTx(db, req), db.agents[id];
            && tx.id == id && OthersKept(db.agents, tx.agents, id) && ReturningFields(a, req, tx.agents[id])
            && (tx.how == Updated <==> a.active) && (tx.how == Reactivated <==> !a.active)
            && (tx.row.Some? <==> tx.agents[id].role != a.role)
            && (tx.row.Some? ==> tx.row.value == AuditRow(id, Some(a.role), tx.agents[id].role, false))
  {
    assert BoundId(db.agents, req.key) == id;
  }

  /** Whichever it is: one agent, on the pane, is active with the fields the request gives it, and no other is touched. */
  lemma {:induction false} RegisterWritten(db: Db, req: Request)
    requires RegisterTx(db, req).Committed? && KeysUnique(db.agents)
    ensures var tx := RegisterTx(db, req);
            && OthersKept(db.agents, tx.agents, tx.id) && tx.agents[tx.id].key == req.key && tx.agents[tx.id].active
            && (tx.id in db.agents ==> db.agents[tx.id].key == req.key && ReturningFields(db.agents[tx.id], req, tx.agents[tx.id]))
            && (tx.id !in db.agents ==> Vacant(db.agents, req.key) && NewcomerFields(req, tx.agents[tx.id]))
  {
    if Vacant(db.agents, req.key) {
      var i := NewcomerWritten(db, req);
    } else {
      var id :| id in db.agents && db.agents[id].key == req.key;
      ReturningWritten(db, req, id);
    }
  }

  /** A newcomer's parent is an active slave. */
  lemma {:induction false} NewcomerParent(db: Db, req: Request)
    requires RegisterTx(db, req).Committed? && AsksParent(req) && Vacant(db.agents, req.key)
    ensures var parent := req.parent.value.value; parent in db.agents && db.agents[parent].active && db.agents[parent].role == Slave
  {
    if FirstCause(RequestCauses(db, req)).Some? {
      RequestRefused(db, req);
    } else {
      NewcomerRefused(db, req);
      var cs := NewcomerCauses(db.agents, req);
      SixCauses(cs[0], cs[1], cs[2], cs[3], cs[4], cs[5]);
      FiveCauses(cs[1], cs[2], cs[3], cs[4], cs[5]);
      ThreeCauses(cs[3], cs[4], cs[5]);
    }
  }

  /** An accepted `set_role` writes the role and its permissions; it audits and reports a change only if there is one. */
  lemma {:induction false} SetRoleWritten(db: Db, id: AgentId, role: Role, confirm: bool)
    requires SetRoleTx(db, id, role, confirm).Committed? && id in db.agents && db.agents[id].permissions == Derived(db.agents[id].role)
    ensures var tx, a := SetRoleTx(db, id, role, confirm), db.agents[id];
            && tx.id == id && OthersKept(db.agents, tx.agents, id)
            && tx.agents[id].role == role && tx.agents[id].permissions == Derived(role)
            && tx.agents[id].(role := a.role, permissions := a.permissions) == a
            && tx.how == (if a.role == role then NoChange else Changed)
            && tx.row == if a.role == role then None else Some(AuditRow(id, Some(a.role), role, confirm))
  {
  }

  /** An accepted `set_label` writes the label and no other field, an accepted `set_capability` the capability and no other. */
  lemma {:induction false} SettersWritten(db: Db, id: AgentId, tag: string, capability: Capability)
    requires id in db.agents && db.agents[id].active
    ensures var tx, a := SetLabelTx(db, id, tag), db.agents[id];
            && tx.Committed? && tx.id == id && tx.row.None? && OthersKept(db.agents, tx.agents, id)
            && tx.agents[id].tag == tag && tx.agents[id].(tag := a.tag) == a
            && tx.how == if a.tag == tag then NoChange else Changed
    ensures var tx, a := SetCapabilityTx(db, id, capability), db.agents[id];
            && tx.Committed? && tx.id == id && tx.row.None? && OthersKept(db.agents, tx.agents, id)
            && tx.agents[id].capability == capability && tx.agents[id].(capability := a.capability) == a
            && tx.how == if a.capability == capability then NoChange else Changed
  {
  }
}
