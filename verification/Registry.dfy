/**
The agent registry: one transaction per call over the container, pane and agent tables, and an audit row for
each change of role.  Requests arrive here with their fields already of the right type and shape.
*/
module Registry {
  import opened OrderedDicts
  import opened Panes
  import opened PaneReconcile
  import opened PaneTable
  import ScanErrors

  const ID_ATTEMPTS := 5
  const KEY_BATCH := 100

  type AgentId = string

  datatype Role = Master | Slave | Swarm | TestRunner | Shell | UnknownRole
  datatype Capability = Claude | Codex | Gemini | Opencode | ShellTool | TestTool | UnknownTool

  datatype Permissions = Permissions(canSend: bool, canReceive: bool, canSendTo: seq<Role>)

  function Derived(role: Role): Permissions {
    match role
    case Master => Permissions(true, false, [Slave, Swarm])
    case Slave => Permissions(false, true, [])
    case Swarm => Permissions(false, true, [])
    case _ => Permissions(false, false, [])
  }

  datatype Agent = Agent(
    key: PaneKey, role: Role, capability: Capability, tag: string, project: string, parent: Option<AgentId>,
    permissions: Permissions, createdAt: string, registeredAt: string, seenAt: Option<string>, active: bool)

  type Agents = map<AgentId, Agent>

  datatype Db = Db(containers: map<string, bool>, panes: Rows, agents: Agents)

  datatype AuditRow = AuditRow(id: AgentId, prior: Option<Role>, next: Role, confirmed: bool)

  datatype Code =
    | ValueOutOfSet | MasterViaRegister | SwarmParentRequired | ParentRoleMismatch | PaneUnknown
    | ParentNotFound | ParentInactive | ParentRoleInvalid | ParentImmutable | InternalError | AttachFailed
    | AgentNotFound | AgentInactive | SwarmViaSetRole | MasterConfirmRequired

  /** The log attachment of a registration: not asked for, done with an audit row of its own or none, or raising. */
  datatype Attach = NotAsked | Attaches(audit: Option<string>) | AttachRaises

  /** A line of the audit file. */
  datatype LogRow = RoleChange(row: AuditRow) | AttachmentChange(text: string)

  /** A registration.  An absent field is `None`; `Some(None)` is an explicit null parent. */
  datatype Request = Request(
    container: string, key: PaneKey, role: Option<Role>, capability: Option<Capability>, tag: Option<string>,
    project: Option<string>, parent: Option<Option<AgentId>>, attach: Attach, ids: seq<AgentId>, now: string)

  datatype How = Created | Reactivated | Updated | Changed | NoChange

  /** What a transaction comes to. */
  datatype Tx = Refused(code: Code) | Committed(agents: Agents, row: Option<AuditRow>, id: AgentId, how: How)

  function Or<T>(o: Option<T>, default: T): T {
    if o.Some? then o.value else default
  }

  // Registration

  /** Refusals that need no look at the tables. */
  function StaticRefusal(req: Request): Option<Code> {
    if req.container == "" then Some(ValueOutOfSet)
    else if req.key.container != req.container then Some(ValueOutOfSet)
    else if req.role == Some(Master) then Some(MasterViaRegister)
    else if req.role == Some(Swarm) && Or(req.parent, None).None? then Some(SwarmParentRequired)
    else if Or(req.parent, None).Some? && req.role.Some? && req.role.value != Swarm then Some(ParentRoleMismatch)
    else None
  }

  predicate ContainerActive(db: Db, c: string) {
    c in db.containers && db.containers[c]
  }

  predicate PaneLive(db: Db, key: PaneKey) {
    IsActive(db.panes, key) && ContainerActive(db, key.container)
  }

  predicate Bound(agents: Agents, key: PaneKey) {
    exists id :: id in agents && agents[id].key == key
  }

  /** The agent registered on a pane. */
  ghost function BoundId(agents: Agents, key: PaneKey): (id: AgentId)
    requires Bound(agents, key)
    ensures id in agents && agents[id].key == key
  {
    var id :| id in agents && agents[id].key == key;
    id
  }

  /** The table's unique constraint. */
  ghost predicate KeysUnique(agents: Agents) {
    forall a, b :: a in agents && b in agents && agents[a].key == agents[b].key ==> a == b
  }

  function ParentRefusal(agents: Agents, parent: AgentId): Option<Code> {
    if parent !in agents then Some(ParentNotFound)
    else if !agents[parent].active then Some(ParentInactive)
    else if agents[parent].role != Slave then Some(ParentRoleInvalid)
    else None
  }

  function NewAgent(req: Request): Agent {
    var role := Or(req.role, UnknownRole);
    Agent(req.key, role, Or(req.capability, UnknownTool), Or(req.tag, ""), Or(req.project, ""), Or(req.parent, None),
          Derived(role), req.now, req.now, None, true)
  }

  /** The first of the drawn ids that is free. */
  function FirstFree(agents: Agents, ids: seq<AgentId>): (id: Option<AgentId>)
    ensures id.None? <==> forall i :: 0 <= i < |ids| ==> ids[i] in agents
    ensures id.Some? ==> id.value !in agents
  {
    if ids == [] then None
    else if ids[0] !in agents then Some(ids[0])
    else FirstFree(agents, ids[1..])
  }

  function CreateTx(agents: Agents, req: Request): Tx {
    var fresh', parent := NewAgent(req), Or(req.parent, None);
    if parent.Some? && fresh'.role != Swarm then Refused(ParentRoleMismatch)
    else if parent.Some? && ParentRefusal(agents, parent.value).Some? then Refused(ParentRefusal(agents, parent.value).value)
    else match FirstFree(agents, req.ids)
      case None => Refused(InternalError)
      case Some(id) => Committed(agents[id := fresh'], Some(AuditRow(id, None, fresh'.role, false)), id, Created)
  }

  function Reregistered(a: Agent, req: Request): Agent {
    var role := Or(req.role, a.role);
    a.(role := role, capability := Or(req.capability, a.capability), tag := Or(req.tag, a.tag),
       project := Or(req.project, a.project), permissions := Derived(role), registeredAt := req.now, active := true)
  }

  function UpdateTx(agents: Agents, id: AgentId, req: Request): Tx
    requires id in agents
  {
    var a, a' := agents[id], Reregistered(agents[id], req);
    if req.parent.Some? && req.parent.value != a.parent then Refused(ParentImmutable)
    else if a.parent.Some? && a'.role != Swarm then Refused(ParentRoleMismatch)
    else Committed(agents[id := a'], if a'.role != a.role then Some(AuditRow(id, Some(a.role), a'.role, false)) else None,
                   id, if a.active then Updated else Reactivated)
  }

  ghost function RegisterTx(db: Db, req: Request): Tx {
    if StaticRefusal(req).Some? then Refused(StaticRefusal(req).value)
    else if !PaneLive(db, req.key) then Refused(PaneUnknown)
    else
      var tx := if Bound(db.agents, req.key) then UpdateTx(db.agents, BoundId(db.agents, req.key), req)
                else CreateTx(db.agents, req);
      if tx.Committed? && req.attach == AttachRaises then Refused(AttachFailed) else tx
  }

  // The setters

  function SetRoleTx(db: Db, id: AgentId, role: Role, confirm: bool): Tx {
    if role == Swarm then Refused(SwarmViaSetRole)
    else if role == Master && !confirm then Refused(MasterConfirmRequired)
    else if id !in db.agents then Refused(AgentNotFound)
    else
      var a := db.agents[id];
      if !a.active then Refused(AgentInactive)
      else if role == Master && !ContainerActive(db, a.key.container) then Refused(AgentInactive)
      else if a.role == role then Committed(db.agents, None, id, NoChange)
      else Committed(db.agents[id := a.(role := role, permissions := Derived(role))],
                     Some(AuditRow(id, Some(a.role), role, confirm)), id, Changed)
  }

  function SetLabelTx(db: Db, id: AgentId, tag: string): Tx {
    if id !in db.agents then Refused(AgentNotFound)
    else if !db.agents[id].active then Refused(AgentInactive)
    else if db.agents[id].tag == tag then Committed(db.agents, None, id, NoChange)
    else Committed(db.agents[id := db.agents[id].(tag := tag)], None, id, Changed)
  }

  function SetCapabilityTx(db: Db, id: AgentId, capability: Capability): Tx {
    if id !in db.agents then Refused(AgentNotFound)
    else if !db.agents[id].active then Refused(AgentInactive)
    else if db.agents[id].capability == capability then Committed(db.agents, None, id, NoChange)
    else Committed(db.agents[id := db.agents[id].(capability := capability)], None, id, Changed)
  }

  // A scan's part

  function SeenAgents(agents: Agents, keys: seq<PaneKey>, now: string): Agents {
    map id | id in agents :: if agents[id].key in keys then agents[id].(seenAt := Some(now)) else agents[id]
  }

  function CascadedAgents(agents: Agents, keys: seq<PaneKey>): Agents {
    map id | id in agents :: if agents[id].key in keys then agents[id].(active := false) else agents[id]
  }

  function KeysOf(us: seq<Upsert>): (keys: seq<PaneKey>)
    ensures |keys| == |us| && forall i :: 0 <= i < |us| ==> keys[i] == us[i].key
  {
    seq(|us|, i requires 0 <= i < |us| => us[i].key)
  }

  function ScanTx(db: Db, ws: WriteSet, now: string): Db {
    Db(db.containers, Applied(db.panes, ws, now),
       CascadedAgents(SeenAgents(db.agents, KeysOf(ws.upserts), now), ws.inactivate))
  }

  /** What a scan does to one agent: it goes inactive with its pane, is stamped when its pane is upserted, and keeps the rest. */
  ghost predicate AgentAfterScan(a: Agent, a': Agent, ws: WriteSet, now: string) {
    && (a'.active <==> a.active && a.key !in ws.inactivate)
    && ((exists u :: u in ws.upserts && u.key == a.key) ==> a'.seenAt == Some(now))
    && ((forall u :: u in ws.upserts ==> u.key != a.key) ==> a'.seenAt == a.seenAt)
    && a' == a.(active := a'.active, seenAt := a'.seenAt)
  }

  ghost predicate AgentsAfterScan(agents: Agents, agents': Agents, ws: WriteSet, now: string) {
    agents'.Keys == agents.Keys && forall id :: id in agents ==> AgentAfterScan(agents[id], agents'[id], ws, now)
  }

  lemma {:induction false} ScanAgents(db: Db, ws: WriteSet, now: string)
    ensures AgentsAfterScan(db.agents, ScanTx(db, ws, now).agents, ws, now)
    ensures ScanTx(db, ws, now).containers == db.containers
  {
    forall k
      ensures k in KeysOf(ws.upserts) <==> exists u :: u in ws.upserts && u.key == k
    {
      KeysOfAre(ws.upserts, k);
    }
  }

  lemma {:induction false} KeysOfAre(us: seq<Upsert>, k: PaneKey)
    ensures k in KeysOf(us) <==> exists u :: u in us && u.key == k
  {
    if k in KeysOf(us) {
      var i :| 0 <= i < |us| && KeysOf(us)[i] == k;
      assert us[i] in us && us[i].key == k;
    }
    if u :| u in us && u.key == k {
      var i :| 0 <= i < |us| && us[i] == u;
      assert KeysOf(us)[i] == k;
    }
  }

  // The service

  datatype CallResult = Raised(code: Code) | Returned(id: AgentId, how: How)

  class AgentService {
    var db: Db
    var log: seq<LogRow>

    /** The tables after a transaction, and the log after the appends that follow it: the role's row, then the attachment's. */
    twostate predicate Ran(tx: Tx, attach: Attach, appendWorks: bool, attachAppendWorks: bool, r: CallResult)
      reads this
    {
      match tx
      case Refused(code) => r == Raised(code) && db == old(db) && log == old(log)
      case Committed(agents, row, id, how) =>
        && r == Returned(id, how) && db == old(db).(agents := agents)
        && log == old(log) + (if row.Some? && appendWorks then [RoleChange(row.value)] else [])
                  + (if attach.Attaches? && attach.audit.Some? && attachAppendWorks then [AttachmentChange(attach.audit.value)] else [])
    }

    /** Appending an audit row after the commit; a failing append is swallowed. */
    method SafeAppend(row: LogRow, works: bool)
      modifies this`log
      ensures log == old(log) + (if works then [row] else [])
    {
      if works {
        log := log + [row];
      } else {
        assert log == log + [];
      }
    }

    /** At most five ids are drawn; the row goes in under the first that is free, or nothing changes. */
    method InsertWithSavepointRetry(agents: Agents, a: Agent, ids: seq<AgentId>) returns (id: Option<AgentId>, agents': Agents)
      requires |ids| == ID_ATTEMPTS && !Bound(agents, a.key)
      ensures id == FirstFree(agents, ids)
      ensures agents' == if id.Some? then agents[id.value := a] else agents
    {
      for attempt := 0 to ID_ATTEMPTS
        invariant FirstFree(agents, ids) == FirstFree(agents, ids[attempt..])
      {
        var drawn := ids[attempt];
        assert ids[attempt..][1..] == ids[attempt + 1..];
        if drawn !in agents {
          return Some(drawn), agents[drawn := a];
        }
      }
      return None, agents;
    }

    method Create(agents: Agents, req: Request) returns (tx: Tx)
      requires |req.ids| == ID_ATTEMPTS && !Bound(agents, req.key)
      ensures tx == CreateTx(agents, req)
      ensures req.parent.Some? && req.parent.value.Some? ==>
                var parent := req.parent.value.value;
                if req.role != Some(Swarm) then tx == Refused(ParentRoleMismatch)
                else if parent !in agents then tx == Refused(ParentNotFound)
                else if !agents[parent].active then tx == Refused(ParentInactive)
                else if agents[parent].role != Slave then tx == Refused(ParentRoleInvalid)
                else tx.Committed? || tx == Refused(InternalError)
    {
      var a := NewAgent(req);
      if a.parent.Some? && a.role != Swarm {
        return Refused(ParentRoleMismatch);
      }
      if a.parent.Some? {
        var refusal := ParentRefusal(agents, a.parent.value);
        if refusal.Some? {
          return Refused(refusal.value);
        }
      }
      var id, agents' := InsertWithSavepointRetry(agents, a, req.ids);
      if id.None? {
        return Refused(InternalError);
      }
      tx := Committed(agents', Some(AuditRow(id.value, None, a.role, false)), id.value, Created);
    }

    method Reregister(agents: Agents, id: AgentId, req: Request) returns (tx: Tx)
      requires id in agents && StaticRefusal(req).None?
      ensures tx == UpdateTx(agents, id, req)
    {
      var a := agents[id];
      if req.parent.Some? && req.parent.value != a.parent {
        return Refused(ParentImmutable);
      }
      var role, parent := Or(req.role, a.role), Or(req.parent, a.parent);
      if req.role.Some? && role == Master {
        return Refused(MasterViaRegister);
      }
      if parent.Some? && role != Swarm {
        return Refused(ParentRoleMismatch);
      }
      var a' := a.(role := role, capability := Or(req.capability, a.capability), tag := Or(req.tag, a.tag),
                   project := Or(req.project, a.project), permissions := Derived(role), registeredAt := req.now,
                   active := true);
      var row := if role != a.role then Some(AuditRow(id, Some(a.role), role, false)) else None;
      tx := Committed(agents[id := a'], row, id, if a.active then Updated else Reactivated);
    }

    method RegisterAgent(req: Request, appendWorks: bool, attachAppendWorks: bool) returns (r: CallResult)
      requires |req.ids| == ID_ATTEMPTS && KeysUnique(db.agents)
      modifies this
      ensures Ran(RegisterTx(old(db), req), req.attach, appendWorks, attachAppendWorks, r)
    {
      var refusal := StaticRefusal(req);
      if refusal.Some? {
        return Raised(refusal.value);
      }
      if !PaneLive(db, req.key) {
        return Raised(PaneUnknown);
      }
      var tx;
      if Bound(db.agents, req.key) {
        var id :| id in db.agents && db.agents[id].key == req.key;
        assert id == BoundId(db.agents, req.key);
        tx := Reregister(db.agents, id, req);
      } else {
        tx := Create(db.agents, req);
      }
      if tx.Refused? {
        return Raised(tx.code);
      }
      if req.attach == AttachRaises {
        return Raised(AttachFailed);
      }
      db := db.(agents := tx.agents);
      assert log == log + [];
      if tx.row.Some? {
        SafeAppend(RoleChange(tx.row.value), appendWorks);
      }
      assert log == log + [];
      if req.attach.Attaches? && req.attach.audit.Some? {
        SafeAppend(AttachmentChange(req.attach.audit.value), attachAppendWorks);
      }
      r := Returned(tx.id, tx.how);
    }

    method SetRole(id: AgentId, role: Role, confirm: bool, appendWorks: bool) returns (r: CallResult)
      modifies this
      ensures Ran(SetRoleTx(old(db), id, role, confirm), NotAsked, appendWorks, true, r)
    {
      assert log == log + [] + [];
      if role == Swarm {
        return Raised(SwarmViaSetRole);
      }
      if role == Master && !confirm {
        return Raised(MasterConfirmRequired);
      }
      if id !in db.agents {
        return Raised(AgentNotFound);
      }
      var a := db.agents[id];
      if !a.active {
        return Raised(AgentInactive);
      }
      if role == Master && !ContainerActive(db, a.key.container) {
        return Raised(AgentInactive);
      }
      if a.role == role {
        return Returned(id, NoChange);
      }
      db := db.(agents := db.agents[id := a.(role := role, permissions := Derived(role))]);
      SafeAppend(RoleChange(AuditRow(id, Some(a.role), role, confirm)), appendWorks);
      assert log == log + [];
      r := Returned(id, Changed);
    }

    method SetLabel(id: AgentId, tag: string) returns (r: CallResult)
      modifies this
      ensures Ran(SetLabelTx(old(db), id, tag), NotAsked, true, true, r)
    {
      assert log == log + [] + [];
      if id !in db.agents {
        return Raised(AgentNotFound);
      }
      if !db.agents[id].active {
        return Raised(AgentInactive);
      }
      if db.agents[id].tag == tag {
        return Returned(id, NoChange);
      }
      db := db.(agents := db.agents[id := db.agents[id].(tag := tag)]);
      r := Returned(id, Changed);
    }

    method SetCapability(id: AgentId, capability: Capability) returns (r: CallResult)
      modifies this
      ensures Ran(SetCapabilityTx(old(db), id, capability), NotAsked, true, true, r)
    {
      assert log == log + [] + [];
      if id !in db.agents {
        return Raised(AgentNotFound);
      }
      if !db.agents[id].active {
        return Raised(AgentInactive);
      }
      if db.agents[id].capability == capability {
        return Returned(id, NoChange);
      }
      db := db.(agents := db.agents[id := db.agents[id].(capability := capability)]);
      r := Returned(id, Changed);
    }
  }

  // The commit of a scan, in batches

  /** Batches of a hundred keys reach every agent on the keys, and no other. */
  method CascadeInBatches(agents: Agents, keys: seq<PaneKey>) returns (agents': Agents)
    ensures agents' == CascadedAgents(agents, keys) && agents'.Keys == agents.Keys
    ensures forall id :: id in agents ==> agents'[id] == agents[id].(active := agents[id].active && agents[id].key !in keys)
  {
    agents' := agents;
    var offset := 0;
    while offset < |keys|
      invariant offset <= |keys|
      invariant agents' == CascadedAgents(agents, keys[..offset])
    {
      var end := if offset + KEY_BATCH < |keys| then offset + KEY_BATCH else |keys|;
      CascadeTwice(agents, keys[..offset], keys[offset..end]);
      assert keys[..end] == keys[..offset] + keys[offset..end];
      agents' := CascadedAgents(agents', keys[offset..end]);
      offset := end;
    }
    assert keys[..|keys|] == keys;
  }

  lemma {:induction false} CascadeTwice(agents: Agents, ks: seq<PaneKey>, ls: seq<PaneKey>)
    ensures CascadedAgents(CascadedAgents(agents, ks), ls) == CascadedAgents(agents, ks + ls)
  {
  }

  method SeeInBatches(agents: Agents, keys: seq<PaneKey>, now: string) returns (agents': Agents)
    ensures agents' == SeenAgents(agents, keys, now) && agents'.Keys == agents.Keys
    ensures forall id :: id in agents ==>
              agents'[id] == if agents[id].key in keys then agents[id].(seenAt := Some(now)) else agents[id]
  {
    agents' := agents;
    var offset := 0;
    while offset < |keys|
      invariant offset <= |keys|
      invariant agents' == SeenAgents(agents, keys[..offset], now)
    {
      var end := if offset + KEY_BATCH < |keys| then offset + KEY_BATCH else |keys|;
      SeeTwice(agents, keys[..offset], keys[offset..end], now);
      assert keys[..end] == keys[..offset] + keys[offset..end];
      agents' := SeenAgents(agents', keys[offset..end], now);
      offset := end;
    }
    assert keys[..|keys|] == keys;
  }

  lemma {:induction false} SeeTwice(agents: Agents, ks: seq<PaneKey>, ls: seq<PaneKey>, now: string)
    ensures SeenAgents(SeenAgents(agents, ks, now), ls, now) == SeenAgents(agents, ks + ls, now)
  {
  }

  // The attachments that go stale

  datatype Status = ActiveLog | StaleLog | OtherStatus(name: string)

  datatype Attachment = Attachment(key: PaneKey, status: Status, statusAt: string)

  type Attachments = map<string, Attachment>

  function StaleAttachments(atts: Attachments, keys: seq<PaneKey>, now: string): Attachments {
    map id | id in atts :: if Affected(atts, id, keys) then atts[id].(status := StaleLog, statusAt := now) else atts[id]
  }

  predicate Affected(atts: Attachments, id: string, keys: seq<PaneKey>) {
    id in atts && atts[id].status == ActiveLog && atts[id].key in keys
  }

  function TimesAffected(atts: Attachments, id: string, keys: seq<PaneKey>): nat {
    if Affected(atts, id, keys) then multiset(keys)[atts[id].key] else 0
  }

  /** What a scan does to one attachment: an active one goes stale with its pane, now, and nothing else happens to any. */
  ghost predicate AttachmentAfterScan(a: Attachment, a': Attachment, ws: WriteSet, now: string) {
    && a'.key == a.key
    && (a.status == ActiveLog && a.key in ws.inactivate ==> a'.status == StaleLog && a'.statusAt == now)
    && (a.status != ActiveLog || a.key !in ws.inactivate ==> a' == a)
  }

  ghost predicate AttachmentsAfterScan(atts: Attachments, atts': Attachments, ws: WriteSet, now: string) {
    atts'.Keys == atts.Keys && forall id :: id in atts ==> AttachmentAfterScan(atts[id], atts'[id], ws, now)
  }

  /** The active attachments on a pane, each once. */
  method SelectActive(atts: Attachments, key: PaneKey) returns (found: seq<string>)
    ensures forall id :: multiset(found)[id] == Bit(id in atts && atts[id].status == ActiveLog && atts[id].key == key)
  {
    found := [];
    var todo := atts.Keys;
    while todo != {}
      invariant todo <= atts.Keys
      invariant forall id :: multiset(found)[id] ==
                  Bit(id in atts.Keys - todo && atts[id].status == ActiveLog && atts[id].key == key)
    {
      var id :| id in todo;
      todo := todo - {id};
      if atts[id].status == ActiveLog && atts[id].key == key {
        found := found + [id];
      }
    }
  }

  /**
  Every active attachment on one of the keys goes stale.  It is returned, and audited, as many times as its key is
  listed, because the rows are selected before any is updated.
  */
  method CascadeToStale(atts: Attachments, keys: seq<PaneKey>, now: string) returns (atts': Attachments, affected: seq<string>)
    ensures atts' == StaleAttachments(atts, keys, now)
    ensures forall id :: multiset(affected)[id] == TimesAffected(atts, id, keys)
  {
    affected := [];
    for i := 0 to |keys|
      invariant forall id :: multiset(affected)[id] ==
                  if id in atts && atts[id].status == ActiveLog then multiset(keys[..i])[atts[id].key] else 0
    {
      assert keys[..i + 1] == keys[..i] + [keys[i]];
      var found := SelectActive(atts, keys[i]);
      affected := affected + found;
    }
    assert keys[..|keys|] == keys;
    atts' := MarkStale(atts, keys, affected, now);
  }

  method MarkStale(atts: Attachments, keys: seq<PaneKey>, affected: seq<string>, now: string) returns (atts': Attachments)
    requires forall id :: multiset(affected)[id] == if id in atts && atts[id].status == ActiveLog then multiset(keys)[atts[id].key] else 0
    ensures atts' == StaleAttachments(atts, keys, now)
  {
    atts' := atts;
    for i := 0 to |affected|
      invariant atts'.Keys == atts.Keys
      invariant forall id :: id in atts ==>
                  atts'[id] == if id in affected[..i] then atts[id].(status := StaleLog, statusAt := now) else atts[id]
    {
      assert affected[..i + 1] == affected[..i] + [affected[i]];
      assert multiset(affected)[affected[i]] > 0;
      atts' := atts'[affected[i] := atts'[affected[i]].(status := StaleLog, statusAt := now)];
    }
    assert affected[..|affected|] == affected;
    forall id | id in atts
      ensures id in affected <==> Affected(atts, id, keys)
    {
      assert id in affected <==> multiset(affected)[id] > 0;
      assert atts[id].key in keys <==> multiset(keys)[atts[id].key] > 0;
    }
  }

  /** What a scan knows of itself before it commits. */
  datatype ScanHeader = ScanHeader(
    id: string, startedAt: string, completedAt: string, degraded: bool, containers: nat, sockets: nat, details: seq<ScanErrors.Detail>)

  /** The row that records a scan. */
  datatype ScanRow = ScanRow(
    header: ScanHeader, seen: nat, newlyActive: nat, inactivated: nat, skippedInactive: nat, tmuxUnavailable: nat,
    errorCode: Option<ScanErrors.Code>)

  function ScanRowOf(h: ScanHeader, ws: WriteSet): ScanRow {
    ScanRow(h, ws.seen, ws.newlyActive, ws.reconciledInactive, ws.skippedInactive, ws.tmuxUnavailable,
            if h.details == [] then None else Some(h.details[0].code))
  }

  /** Everything the transaction that ends a scan writes. */
  datatype ScanTables = ScanTables(db: Db, attachments: Attachments, scans: seq<ScanRow>)

  /** The transaction that ends a scan: all of it, or nothing when a statement raises. */
  method CommitScan(t: ScanTables, ws: WriteSet, h: ScanHeader, raises: bool) returns (t': ScanTables, stale: seq<string>)
    ensures raises ==> t' == t && stale == []
    ensures !raises ==> t'.db == ScanTx(t.db, ws, h.startedAt) && t'.scans == t.scans + [ScanRowOf(h, ws)]
    ensures !raises ==>
              var row := t'.scans[|t.scans|];
              && row.header == h && row.seen == ws.seen && row.newlyActive == ws.newlyActive && row.inactivated == ws.reconciledInactive
              && row.skippedInactive == ws.skippedInactive && row.tmuxUnavailable == ws.tmuxUnavailable
              && row.errorCode == if |h.details| > 0 then Some(h.details[0].code) else None
    ensures !raises ==> AgentsAfterScan(t.db.agents, t'.db.agents, ws, h.startedAt)
    ensures !raises ==> AttachmentsAfterScan(t.attachments, t'.attachments, ws, h.startedAt)
    ensures !raises ==> forall id :: multiset(stale)[id] == TimesAffected(t.attachments, id, ws.inactivate)
  {
    if raises {
      return t, [];
    }
    var now := h.startedAt;
    var store := new PaneStore(t.db.panes);
    store.ApplyWriteSet(ws, now);
    var agents := SeeInBatches(t.db.agents, KeysOf(ws.upserts), now);
    agents := CascadeInBatches(agents, ws.inactivate);
    var attachments;
    attachments, stale := CascadeToStale(t.attachments, ws.inactivate, now);
    ScanAgents(t.db, ws, now);
    t' := ScanTables(Db(t.db.containers, store.rows, agents), attachments, t.scans + [ScanRowOf(h, ws)]);
  }
}
