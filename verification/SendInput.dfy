/**
`app.send_input`: the per-session dedupe around the enqueue.  The queue service's answers are inputs;
the rows it accepts are kept so that "enqueues nothing" can be stated.
*/
module SendInput {
  import opened OrderedDicts
  import Idem = Idempotency

  const PAYLOAD_MAX_BYTES := 16384

  datatype RowState = Queued | Blocked | Delivered | Canceled | DeliveryFailed
  datatype BlockReason = KillSwitchOff | SenderRoleNotPermitted | OtherReason
  datatype Row = Row(messageId: Option<string>, state: RowState, blockReason: Option<BlockReason>)

  datatype Code = SessionGate(gate: string) | ValidationFailed | InternalError | AgentNotFound | RoutingDisabled | PermissionDenied
  datatype Response = Ok(messageId: Option<string>, state: RowState, deduplicated: bool) | Failed(code: Code)

  datatype Payload = NotAnObject | NotSerializable | Serialized(bytes: nat)
  datatype KeyParam = NoKey | NotAString | Key(key: string)

  /** The session gate's answer: the code it refuses with, or the session id. */
  datatype Gate = Refused(code: string) | Admitted(id: int)

  /** The wire parameters; a `None` target is missing or ill-typed. */
  datatype Request = Request(session: Gate, target: Option<string>, payload: Payload, keyParam: KeyParam)

  /** What the queue service would answer to this call. */
  datatype Resolution = Resolved(agent: string) | Unresolved | ResolutionError
  datatype QueueError = RoutingOff | SenderNotPermitted | TargetNotActive | NoSuchAgent | LabelAmbiguous | OtherError
  datatype Delivery = Raised(error: QueueError) | Accepted(row: Row)
  datatype World = World(wired: bool, resolution: Resolution, delivery: Delivery, nowMs: int, auditWorks: bool)

  /** The audit event of an accepted message. */
  datatype Enqueued = Enqueued(session: int, messageId: Option<string>, target: string, state: RowState)

  type Store = Idem.Store<Response>
  datatype State = State(stores: map<int, Store>, queue: seq<Row>, audits: seq<Enqueued>) {
    ghost predicate Valid() {
      forall s :: s in stores ==> stores[s].Valid()
    }

    function StoreOf(session: int): (d: Store)
      ensures Valid() ==> d.Valid()
    {
      if session in stores then stores[session] else EmptyDict()
    }
  }

  /** The first failing check before the store is consulted. */
  function Precheck(req: Request, w: World): Option<Code> {
    if req.session.Refused? then Some(SessionGate(req.session.code))
    else if req.target.None? || req.target.value == "" then Some(ValidationFailed)
    else if req.payload.NotAnObject? then Some(ValidationFailed)
    else if req.keyParam.NotAString? then Some(ValidationFailed)
    else if req.keyParam.Key? && |req.keyParam.key| > Idem.MAX_KEY_LENGTH then Some(ValidationFailed)
    else if !w.wired then Some(InternalError)
    else None
  }

  function RaisedCode(e: QueueError): Code {
    match e
    case RoutingOff => RoutingDisabled
    case SenderNotPermitted => PermissionDenied
    case TargetNotActive => PermissionDenied
    case NoSuchAgent => AgentNotFound
    case LabelAmbiguous => AgentNotFound
    case OtherError => InternalError
  }

  /** Everything between a store miss and the success envelope. */
  function Enqueue(req: Request, w: World): Response {
    if w.resolution.Unresolved? then Failed(AgentNotFound)
    else if w.resolution.ResolutionError? then Failed(InternalError)
    else if !req.payload.Serialized? || req.payload.bytes > PAYLOAD_MAX_BYTES then Failed(ValidationFailed)
    else
      match w.delivery
      case Raised(e) => Failed(RaisedCode(e))
      case Accepted(row) =>
        if row.state == Blocked && row.blockReason == Some(KillSwitchOff) then Failed(RoutingDisabled)
        else if row.state == Blocked && row.blockReason == Some(SenderRoleNotPermitted) then Failed(PermissionDenied)
        else Ok(row.messageId, row.state, false)
  }

  /** Whether `queue_service.send_input` was reached and stored a row (a blocked row is stored too). */
  predicate RowStored(req: Request, w: World) {
    w.resolution.Resolved? && req.payload.Serialized? && req.payload.bytes <= PAYLOAD_MAX_BYTES && w.delivery.Accepted?
  }

  /** The event a call that was not a replay writes: one for each success, naming the agent the target resolved to, if the append works. */
  function AuditOf(req: Request, w: World): seq<Enqueued>
    requires Precheck(req, w).None?
  {
    var resp := Enqueue(req, w);
    if resp.Ok? && w.auditWorks then [Enqueued(req.session.id, resp.messageId, w.resolution.agent, resp.state)] else []
  }

  function RecordedEntry(key: string, resp: Response, nowMs: int): Idem.Entry<Response>
    requires resp.Ok? && resp.messageId.Some?
  {
    Idem.Entry(key, resp.messageId.value, resp, nowMs)
  }

  /** The dedupe-store operations one call performs on its session's store. */
  function StoreOps(d: Store, req: Request, w: World): seq<Idem.Op<Response>> {
    if Precheck(req, w).Some? || req.keyParam.NoKey? then []
    else
      var key := if req.keyParam.Key? then req.keyParam.key else "";
      var resp := Enqueue(req, w);
      if key in d.items then [Idem.Lookup(key)]
      else if resp.Ok? && resp.messageId.Some? then [Idem.Lookup(key), Idem.Record(RecordedEntry(key, resp, w.nowMs))]
      else [Idem.Lookup(key)]
  }

  /** The session's store after one call that passed its prechecks. */
  function StoreAfter(d: Store, req: Request, w: World): (d': Store)
    ensures d.Valid() ==> d'.Valid()
  {
    if !req.keyParam.Key? then d
    else if req.keyParam.key in d.items then Idem.LookupStep(d, req.keyParam.key)
    else
      var resp := Enqueue(req, w);
      if resp.Ok? && resp.messageId.Some?
      then Idem.RecordStep(Idem.MAX_ENTRIES, d, RecordedEntry(req.keyParam.key, resp, w.nowMs)) else d
  }

  function Replay(recorded: Response): Response {
    if recorded.Ok? then recorded.(deduplicated := true) else recorded
  }

  predicate IsReplay(d: Store, req: Request) {
    req.keyParam.Key? && req.keyParam.key in d.items
  }

  function Respond(d: Store, req: Request, w: World): Response {
    if Precheck(req, w).Some? then Failed(Precheck(req, w).value)
    else if IsReplay(d, req) then Replay(d.items[req.keyParam.key].response)
    else Enqueue(req, w)
  }

  function ApplyOps(d: Store, ops: seq<Idem.Op<Response>>): (d': Store)
    ensures d.Valid() ==> d'.Valid()
  {
    if ops == [] then d else Idem.Step(Idem.MAX_ENTRIES, ApplyOps(d, ops[..|ops| - 1]), ops[|ops| - 1])
  }

  datatype Call = Send(req: Request, w: World) | DropSession(session: int)

  /** The state after one call. */
  function Step(st: State, c: Call): (st': State)
    ensures st.Valid() ==> st'.Valid()
  {
    match c
    case DropSession(s) => st.(stores := st.stores - {s})
    case Send(req, w) =>
      if Precheck(req, w).Some? then st
      else
        var s := req.session.id;
        var d := st.StoreOf(s);
        State(st.stores[s := StoreAfter(d, req, w)],
              if !IsReplay(d, req) && RowStored(req, w) then st.queue + [w.delivery.row] else st.queue,
              st.audits + if IsReplay(d, req) then [] else AuditOf(req, w))
  }

  /** The handler's process-wide state: one dedupe store per session, and the rows the queue service holds. */
  class AppSendInput {
    var stores: map<int, Store>
    var queue: seq<Row>
    var audits: seq<Enqueued>

    ghost function Abstract(): State
      reads this
    {
      State(stores, queue, audits)
    }

    constructor ()
      ensures Abstract() == State(map[], [], [])
    {
      stores := map[];
      queue := [];
      audits := [];
    }

    /** The session's store, created on first use. */
    method StoreForSession(session: int) returns (store: Store)
      modifies this`stores
      ensures store == old(Abstract()).StoreOf(session) && stores == old(stores)[session := store]
    {
      if session !in stores {
        stores := stores[session := EmptyDict()];
      }
      store := stores[session];
    }

    method DropStore(session: int)
      modifies this`stores
      ensures Abstract() == Step(old(Abstract()), DropSession(session))
    {
      stores := stores - {session};
    }

    method Send(req: Request, w: World) returns (resp: Response)
      requires Abstract().Valid()
      modifies this
      ensures Abstract() == Step(old(Abstract()), Call.Send(req, w))
      ensures req.session.Admitted? ==> resp == Respond(old(Abstract()).StoreOf(req.session.id), req, w)
      ensures req.session.Refused? ==> resp == Failed(SessionGate(req.session.code))
      ensures resp.Failed? ==> audits == old(audits)
      ensures resp.Ok? && !resp.deduplicated ==>
                && w.resolution.Resolved? && req.payload.Serialized? && req.payload.bytes <= 16384 && w.delivery.Accepted?
                && (w.delivery.row.state == Blocked ==>
                      w.delivery.row.blockReason != Some(KillSwitchOff) && w.delivery.row.blockReason != Some(SenderRoleNotPermitted))
                && resp.messageId == w.delivery.row.messageId && resp.state == w.delivery.row.state
    {
      var bad := Precheck(req, w);
      if bad.Some? {
        return Failed(bad.value);
      }
      var session := req.session.id;
      var store := StoreForSession(session);
      if req.keyParam.Key? {
        var key := req.keyParam.key;
        if key in store.items {
          UpdateTwice(old(stores), session, store, Idem.LookupStep(store, key));
          stores := stores[session := Idem.LookupStep(store, key)];
          assert audits == audits + [];
          return Replay(store.items[key].response);
        }
      }
      resp := Enqueue(req, w);
      if RowStored(req, w) {
        queue := queue + [w.delivery.row];
      }
      audits := audits + AuditOf(req, w);
      if req.keyParam.Key? && resp.Ok? && resp.messageId.Some? {
        var recorded := Idem.RecordStep(Idem.MAX_ENTRIES, store, RecordedEntry(req.keyParam.key, resp, w.nowMs));
        UpdateTwice(old(stores), session, store, recorded);
        stores := stores[session := recorded];
      }
    }
  }

  lemma {:induction false} UpdateTwice<K, V>(m: map<K, V>, k: K, v: V, v': V)
    ensures m[k := v][k := v'] == m[k := v']
  {
  }

  lemma {:induction false} ApplyOne(d: Store, op: Idem.Op<Response>)
    ensures ApplyOps(d, [op]) == Idem.Step(Idem.MAX_ENTRIES, d, op)
  {
    assert [op][..0] == [];
  }

  lemma {:induction false} ApplyTwo(d: Store, op1: Idem.Op<Response>, op2: Idem.Op<Response>)
    ensures ApplyOps(d, [op1, op2]) == Idem.Step(Idem.MAX_ENTRIES, Idem.Step(Idem.MAX_ENTRIES, d, op1), op2)
  {
    ApplyOne(d, op1);
    assert [op1, op2][..1] == [op1];
  }

  lemma {:induction false} StoreAfterIsOps(d: Store, req: Request, w: World)
    requires Precheck(req, w).None?
    ensures ApplyOps(d, StoreOps(d, req, w)) == StoreAfter(d, req, w)
  {
    if req.keyParam.Key? {
      var key, resp := req.keyParam.key, Enqueue(req, w);
      if key !in d.items && resp.Ok? && resp.messageId.Some? {
        ApplyTwo(d, Idem.Lookup(key), Idem.Record(RecordedEntry(key, resp, w.nowMs)));
      } else {
        ApplyOne(d, Idem.Lookup(key));
      }
    }
  }

  // Serial runs

  function Run(calls: seq<Call>): (st: State)
    ensures st.Valid()
  {
    if calls == [] then State(map[], [], []) else Step(Run(calls[..|calls| - 1]), calls[|calls| - 1])
  }

  /** The operations a run performs on the store of session `s`. */
  function OpsOf(calls: seq<Call>, s: int): seq<Idem.Op<Response>> {
    if calls == [] then [] else OpsOf(calls[..|calls| - 1], s) + CallOps(Run(calls[..|calls| - 1]), calls[|calls| - 1], s)
  }

  function CallOps(st: State, c: Call, s: int): seq<Idem.Op<Response>> {
    match c
    case DropSession(t) => if t == s then [Idem.Clear] else []
    case Send(req, w) => if req.session == Admitted(s) then StoreOps(st.StoreOf(s), req, w) else []
  }

  lemma {:induction false} RunConcat(ops: seq<Idem.Op<Response>>, more: seq<Idem.Op<Response>>)
    ensures Idem.Run(Idem.MAX_ENTRIES, ops + more) == ApplyOps(Idem.Run(Idem.MAX_ENTRIES, ops), more)
  {
    if more == [] {
      assert ops + more == ops;
    } else {
      assert (ops + more)[..|ops + more| - 1] == ops + more[..|more| - 1];
      RunConcat(ops, more[..|more| - 1]);
    }
  }

  lemma {:induction false} StepStore(st: State, c: Call, s: int)
    ensures Step(st, c).StoreOf(s) == ApplyOps(st.StoreOf(s), CallOps(st, c, s))
  {
    if c == DropSession(s) {
      ApplyOne(st.StoreOf(s), Idem.Clear);
    } else if c.Send? && Precheck(c.req, c.w).None? {
      StoreAfterIsOps(st.StoreOf(s), c.req, c.w);
    }
  }

  /** A session's store is the dedupe store run on the operations of that session's calls. */
  lemma {:induction false} StoreFollowsOps(calls: seq<Call>, s: int)
    ensures Run(calls).StoreOf(s) == Idem.Run(Idem.MAX_ENTRIES, OpsOf(calls, s))
  {
    if calls != [] {
      var front, c := calls[..|calls| - 1], calls[|calls| - 1];
      StoreFollowsOps(front, s);
      StepStore(Run(front), c, s);
      RunConcat(OpsOf(front, s), CallOps(Run(front), c, s));
    }
  }

  /** Fewer than 256 distinct other keys of the session were touched since the last touch of `k`. */
  ghost predicate Remembered(calls: seq<Call>, s: int, k: string) {
    Idem.Held(Idem.MAX_ENTRIES, Idem.Touches(Idem.MAX_ENTRIES, OpsOf(calls, s)), k)
  }

  /** A well-formed call on session `s` with key `k` is answered from the store exactly when `k` is remembered. */
  lemma {:induction false} ReplayIff(calls: seq<Call>, req: Request, w: World, s: int, k: string)
    requires Precheck(req, w).None? && req.session == Admitted(s) && req.keyParam == Key(k)
    ensures IsReplay(Run(calls).StoreOf(s), req) <==> Remembered(calls, s, k)
    ensures RowStored(req, w) ==> (Run(calls + [Send(req, w)]).queue == Run(calls).queue <==> Remembered(calls, s, k))
  {
    StoreFollowsOps(calls, s);
    Idem.HeldIff(Idem.MAX_ENTRIES, OpsOf(calls, s), k);
    assert (calls + [Send(req, w)])[..|calls|] == calls;
  }

  /** While `k` stays remembered its entry is never recorded again. */
  lemma {:induction false} EntryStays(calls: seq<Call>, i: nat, s: int, k: string)
    requires i <= |calls| && forall j :: i <= j <= |calls| ==> Remembered(calls[..j], s, k)
    ensures k in Run(calls[..i]).StoreOf(s).items && k in Run(calls).StoreOf(s).items
    ensures Run(calls).StoreOf(s).items[k] == Run(calls[..i]).StoreOf(s).items[k]
    decreases |calls| - i
  {
    assert Remembered(calls[..i], s, k);
    StoreFollowsOps(calls[..i], s);
    Idem.HeldIff(Idem.MAX_ENTRIES, OpsOf(calls[..i], s), k);
    if i == |calls| {
      assert calls[..i] == calls;
    } else {
      EntryStays(calls, i + 1, s, k);
      assert calls[..i + 1][..i] == calls[..i];
      StepKeepsEntry(Run(calls[..i]), calls[i], s, k);
    }
  }

  lemma {:induction false} StepKeepsEntry(st: State, c: Call, s: int, k: string)
    requires k in st.StoreOf(s).items && k in Step(st, c).StoreOf(s).items
    ensures Step(st, c).StoreOf(s).items[k] == st.StoreOf(s).items[k]
  {
  }

  /** A keyed call that missed, succeeded with a message id, and whose answer is `first`. */
  predicate FirstSuccess(st: State, c: Call, s: int, k: string, first: Response) {
    && c.Send? && c.req.session == Admitted(s) && c.req.keyParam == Key(k)
    && !IsReplay(st.StoreOf(s), c.req)
    && first.Ok? && first.messageId.Some?
    && Respond(st.StoreOf(s), c.req, c.w) == first
  }

  lemma {:induction false} FirstSuccessIsRecorded(st: State, c: Call, s: int, k: string, first: Response)
    requires FirstSuccess(st, c, s, k, first) && k in Step(st, c).StoreOf(s).items
    ensures Step(st, c).StoreOf(s).items[k].response == first
  {
  }

  lemma {:induction false} HitReplays(st: State, s: int, k: string, req: Request, w: World)
    requires k in st.StoreOf(s).items
    requires Precheck(req, w).None? && req.session == Admitted(s) && req.keyParam == Key(k)
    ensures Respond(st.StoreOf(s), req, w) == Replay(st.StoreOf(s).items[k].response)
    ensures Step(st, Send(req, w)).queue == st.queue && Step(st, Send(req, w)).audits == st.audits
  {
    assert st.audits + [] == st.audits;
  }

  /**
  Once call `i` of session `s` succeeded under key `k`, any later well-formed call with that key gets the
  same message id back marked as deduplicated and stores neither row nor audit event, for as long as `k` stayed remembered.
  */
  lemma {:induction false} RetryReplaysFirstSuccess(calls: seq<Call>, i: nat, s: int, k: string, first: Response, req: Request, w: World)
    requires i < |calls| && FirstSuccess(Run(calls[..i]), calls[i], s, k, first)
    requires forall j :: i < j <= |calls| ==> Remembered(calls[..j], s, k)
    requires Precheck(req, w).None? && req.session == Admitted(s) && req.keyParam == Key(k)
    ensures Respond(Run(calls).StoreOf(s), req, w) == Ok(first.messageId, first.state, true)
    ensures Run(calls + [Send(req, w)]).queue == Run(calls).queue && Run(calls + [Send(req, w)]).audits == Run(calls).audits
  {
    FirstIsHeld(calls, i, s, k, first);
    HitReplays(Run(calls), s, k, req, w);
    RunSnoc(calls, Send(req, w));
  }

  lemma {:induction false} RunSnoc(calls: seq<Call>, c: Call)
    ensures Run(calls + [c]) == Step(Run(calls), c)
  {
    assert (calls + [c])[..|calls|] == calls;
  }

  lemma {:induction false} RunTake(calls: seq<Call>, i: nat)
    requires i < |calls|
    ensures Run(calls[..i + 1]) == Step(Run(calls[..i]), calls[i])
  {
    assert calls[..i + 1][..i] == calls[..i];
  }

  /** From the first success's state `after` to a later state `last` that still has the same entry. */
  lemma {:induction false} EntryAnswers(before: State, c: Call, after: State, last: State, s: int, k: string, first: Response)
    requires FirstSuccess(before, c, s, k, first) && after == Step(before, c)
    requires k in after.StoreOf(s).items && k in last.StoreOf(s).items
    requires last.StoreOf(s).items[k] == after.StoreOf(s).items[k]
    ensures last.StoreOf(s).items[k].response == first
  {
    FirstSuccessIsRecorded(before, c, s, k, first);
  }

  lemma {:induction false} FirstIsHeld(calls: seq<Call>, i: nat, s: int, k: string, first: Response)
    requires i < |calls| && FirstSuccess(Run(calls[..i]), calls[i], s, k, first)
    requires forall j :: i < j <= |calls| ==> Remembered(calls[..j], s, k)
    ensures k in Run(calls).StoreOf(s).items && Run(calls).StoreOf(s).items[k].response == first
  {
    EntryStays(calls, i + 1, s, k);
    RunTake(calls, i);
    EntryAnswers(Run(calls[..i]), calls[i], Run(calls[..i + 1]), Run(calls), s, k, first);
  }
}
