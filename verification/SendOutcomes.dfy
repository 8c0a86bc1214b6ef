/** What `app.send_input` answers, and what it leaves behind, by the cause of each answer. */
module SendOutcomes {
  import opened OrderedDicts
  import Idem = Idempotency
  import opened SendInput

  // Before the store is consulted

  /** The call is well formed: an admitted session, a target, an object, a key that is short enough, and a queue to send to. */
  predicate WellFormed(req: Request, w: World) {
    && req.session.Admitted? && req.target.Some? && |req.target.value| > 0 && !req.payload.NotAnObject?
    && (req.keyParam.NoKey? || (req.keyParam.Key? && |req.keyParam.key| <= 256)) && w.wired
  }

  /** A call that is not is refused: by the gate, for what it asks, or for want of a queue, in that order. */
  lemma {:induction false} MalformedRefused(d: Store, req: Request, w: World)
    ensures Precheck(req, w).None? <==> WellFormed(req, w)
    ensures !WellFormed(req, w) ==>
              Respond(d, req, w) ==
              Failed(if req.session.Refused? then SessionGate(req.session.code)
                     else if WellFormed(req, w.(wired := true)) then InternalError else ValidationFailed)
  {
  }

  /** And it changes nothing at all. */
  lemma {:induction false} MalformedChangesNothing(st: State, req: Request, w: World)
    requires !WellFormed(req, w)
    ensures Step(st, Send(req, w)) == st
  {
    MalformedRefused(EmptyDict(), req, w);
  }

  // A call that is not a replay

  predicate Fits(req: Request) {
    req.payload.Serialized? && req.payload.bytes <= 16384
  }

  /** The queue took the message and did not block it for the kill switch or for its sender. */
  predicate Taken(w: World) {
    && w.delivery.Accepted?
    && !(w.delivery.row.state == Blocked && w.delivery.row.blockReason == Some(KillSwitchOff))
    && !(w.delivery.row.state == Blocked && w.delivery.row.blockReason == Some(SenderRoleNotPermitted))
  }

  /** A well-formed call whose key is not held succeeds if and only if its target resolves, its payload fits and the queue takes it. */
  lemma {:induction false} SucceedsIff(d: Store, req: Request, w: World)
    requires WellFormed(req, w) && !IsReplay(d, req)
    ensures Respond(d, req, w).Ok? <==> w.resolution.Resolved? && Fits(req) && Taken(w)
    ensures Respond(d, req, w).Ok? ==> Respond(d, req, w) == Ok(w.delivery.row.messageId, w.delivery.row.state, false)
  {
    MalformedRefused(d, req, w);
  }

  /** The cause of each refusal, in the order in which it is met. */
  function Refusal(req: Request, w: World): Option<Code> {
    match w.resolution
    case Unresolved => Some(AgentNotFound)
    case ResolutionError => Some(InternalError)
    case Resolved(_) =>
      if !Fits(req) then Some(ValidationFailed)
      else match w.delivery
        case Raised(RoutingOff) => Some(RoutingDisabled)
        case Raised(SenderNotPermitted) => Some(PermissionDenied)
        case Raised(TargetNotActive) => Some(PermissionDenied)
        case Raised(NoSuchAgent) => Some(AgentNotFound)
        case Raised(LabelAmbiguous) => Some(AgentNotFound)
        case Raised(OtherError) => Some(InternalError)
        case Accepted(Row(_, Blocked, Some(KillSwitchOff))) => Some(RoutingDisabled)
        case Accepted(Row(_, Blocked, Some(SenderRoleNotPermitted))) => Some(PermissionDenied)
        case Accepted(_) => None
  }

  lemma {:induction false} RefusedBecause(d: Store, req: Request, w: World)
    requires WellFormed(req, w) && !IsReplay(d, req)
    ensures Respond(d, req, w).Failed? <==> Refusal(req, w).Some?
    ensures Respond(d, req, w).Failed? ==> Respond(d, req, w).code == Refusal(req, w).value
  {
    MalformedRefused(d, req, w);
  }

  /** After a refusal the session remembers what it did, in the same order, and no event is written; a blocked row stays in the queue. */
  lemma {:induction false} RefusalLeaves(st: State, req: Request, w: World)
    requires WellFormed(req, w) && Respond(st.StoreOf(req.session.id), req, w).Failed? && !IsReplay(st.StoreOf(req.session.id), req)
    ensures var st' := Step(st, Send(req, w));
            && (forall s :: st'.StoreOf(s) == st.StoreOf(s)) && st'.audits == st.audits
            && st'.queue == st.queue + if w.resolution.Resolved? && Fits(req) && w.delivery.Accepted? then [w.delivery.row] else []
  {
    MalformedRefused(st.StoreOf(req.session.id), req, w);
  }

  /** A success adds its row and, if that append works, its event; under a key it is what the key answers from then on. */
  lemma {:induction false} SuccessLeaves(st: State, req: Request, w: World)
    requires WellFormed(req, w) && Respond(st.StoreOf(req.session.id), req, w).Ok? && !IsReplay(st.StoreOf(req.session.id), req)
    requires st.Valid()
    ensures var st', s, row := Step(st, Send(req, w)), req.session.id, w.delivery.row;
            && st'.queue == st.queue + [row]
            && st'.audits == st.audits + (if w.auditWorks then [Enqueued(s, row.messageId, w.resolution.agent, row.state)] else [])
            && (forall x :: x != s ==> st'.StoreOf(x) == st.StoreOf(x))
            && (req.keyParam.NoKey? || row.messageId.None? ==> st'.StoreOf(s) == st.StoreOf(s))
            && (req.keyParam.Key? && row.messageId.Some? ==>
                  && req.keyParam.key in st'.StoreOf(s).items
                  && st'.StoreOf(s).items[req.keyParam.key].response == Ok(row.messageId, row.state, false)
                  && st'.StoreOf(s).items[req.keyParam.key].messageId == row.messageId.value
                  && st'.StoreOf(s).items[req.keyParam.key].createdAtMs == w.nowMs)
  {
    var d := st.StoreOf(req.session.id);
    MalformedRefused(d, req, w);
    SucceedsIff(d, req, w);
  }

  /** A replay gives the recorded answer back, marked as one, and adds neither row nor event. */
  lemma {:induction false} ReplayLeaves(st: State, req: Request, w: World)
    requires WellFormed(req, w) && IsReplay(st.StoreOf(req.session.id), req)
    ensures var st', s, k := Step(st, Send(req, w)), req.session.id, req.keyParam.key;
            && st'.queue == st.queue && st'.audits == st.audits
            && (forall x :: x != s ==> st'.StoreOf(x) == st.StoreOf(x)) && st'.StoreOf(s).items == st.StoreOf(s).items
            && (st.StoreOf(s).items[k].response.Ok? ==>
                  var first := st.StoreOf(s).items[k].response;
                  Respond(st.StoreOf(s), req, w) == Ok(first.messageId, first.state, true))
  {
    MalformedRefused(st.StoreOf(req.session.id), req, w);
    assert st.audits + [] == st.audits;
  }
}
