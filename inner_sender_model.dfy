/**
 * The per-fiber inner sender as a state machine on values: routing of an
 * outgoing message, dispatch of an inbound envelope, the pending-call table
 * and its two competing resolvers (response and timeout), the bounded drain
 * of the fiber's queue, and the two Call entry points.
 *
 * The class in module InnerSenderSystem is proved to move exactly as these
 * functions say; the properties of the sender are proved here, as lemmas.
 *
 * `fiber` is the address of the fiber that owns the sender: `fiber.process`
 * is `Fiber.Process`, `fiber.fiber` is `Fiber.Id`. `needThrow` stands for
 * `ErrorCore.IsRpcNeedThrowException`, whose definition is not part of this
 * model.
 */
module InnerSenderModel {
  import opened ActorTypes

  /** Reference batch size of one drain: `Fetch(fiber.Id, 1000, self.list)`. */
  const FetchLimit: nat := 1000

  /**
   * Everything the sender reads or writes: its counter and pending-call table,
   * the mailboxes of its fiber, the process-wide queues, and two logs standing
   * for the effects the model does not otherwise keep: every completion of a
   * task source, and every message disposed.
   */
  datatype SenderState = SenderState(
    rpcId: int32,
    requestCallback: map<int, PendingCall>,
    mailboxes: map<int, seq<Delivery>>,
    queues: map<int, seq<MessageInfo>>,
    completions: seq<Completion>,
    disposed: seq<Msg>)

  /** The state an operation reaches, with the exception it raised there, if any. */
  datatype Step = Step(state: SenderState, raised: Option<Failure>)

  /** The three ways an outgoing message is routed. */
  datatype Route = CrossProcess | SameFiber | OtherFiber

  function RouteOf(fiber: Address, dest: ActorId): Route {
    if dest.Process() != fiber.process then CrossProcess
    else if dest.Fiber() == fiber.fiber then SameFiber
    else OtherFiber
  }

  // ---------------------------------------------------------------------------
  // The process-wide message queue (its implementation is not part of this
  // model: a registered fiber owns a FIFO, an unregistered one drops sends).
  // ---------------------------------------------------------------------------

  /** `MessageQueue.Send(fromAddress, actorId, message)`. */
  function QueueSend(queues: map<int, seq<MessageInfo>>, from: Address, dest: ActorId, m: Msg)
    : (r: map<int, seq<MessageInfo>>)
    ensures r.Keys == queues.Keys
    ensures forall f :: f in queues && f != dest.Fiber() ==> r[f] == queues[f]
    ensures dest.Fiber() in queues ==>
      r[dest.Fiber()] == queues[dest.Fiber()] + [MessageInfo(ActorId(from, dest.instanceId), m)]
  {
    var f := dest.Fiber();
    if f in queues then queues[f := queues[f] + [MessageInfo(ActorId(from, dest.instanceId), m)]]
    else queues
  }

  /** `MessageQueue.Fetch(fiberId, max, list)`: the oldest `max` envelopes at most, and the queues without them. */
  function QueueFetch(queues: map<int, seq<MessageInfo>>, fiberId: int, max: nat)
    : (r: (seq<MessageInfo>, map<int, seq<MessageInfo>>))
    ensures r.1.Keys == queues.Keys
    ensures forall f :: f in queues && f != fiberId ==> r.1[f] == queues[f]
    ensures fiberId !in queues ==> r.0 == []
    ensures fiberId in queues ==>
      && |r.0| == (if |queues[fiberId]| < max then |queues[fiberId]| else max)
      && r.0 + r.1[fiberId] == queues[fiberId]
  {
    if fiberId !in queues then ([], queues)
    else
      var q := queues[fiberId];
      var n := if |q| < max then |q| else max;
      (q[..n], queues[fiberId := q[n..]])
  }

  // ---------------------------------------------------------------------------
  // Completion of a pending call
  // ---------------------------------------------------------------------------

  /** `Run`: how a removed pending call is completed by the response that matched it. */
  function Run(call: PendingCall, response: Msg, needThrow: int -> bool): (r: CallOutcome)
    requires response.Response?
    ensures response.error == ERR_MessageTimeout ==> r == Raised(RpcError(ERR_MessageTimeout))
    ensures response.error != ERR_MessageTimeout && call.needException && needThrow(response.error)
      ==> r == Raised(RpcError(response.error))
    ensures r.Returned? <==>
      response.error != ERR_MessageTimeout && !(call.needException && needThrow(response.error))
    ensures r.Returned? ==> r.response == response
  {
    if response.error == ERR_MessageTimeout then Raised(RpcError(response.error))
    else if call.needException && needThrow(response.error) then Raised(RpcError(response.error))
    else Returned(response)
  }

  /** `HandleIActorResponse`: remove the matching entry, if any, and complete it. */
  function HandleResponse(s: SenderState, response: Msg, needThrow: int -> bool): (r: SenderState)
    requires response.Response?
    ensures r.requestCallback == s.requestCallback - {response.rpcId}
    ensures |r.completions| == |s.completions| + (if response.rpcId in s.requestCallback then 1 else 0)
    ensures r.completions[..|s.completions|] == s.completions
    ensures r == s.(requestCallback := r.requestCallback, completions := r.completions)
  {
    var id := response.rpcId;
    if id !in s.requestCallback then s
    else
      s.(requestCallback := s.requestCallback - {id},
         completions := s.completions + [Completion(id, Run(s.requestCallback[id], response, needThrow))])
  }

  /** `Timeout`, once its wait is over: only a successful `Remove` completes the call. */
  function Timeout(s: SenderState, rpcId: int, request: Msg, needException: bool): (r: SenderState)
    requires request.Request?
    ensures r.requestCallback == s.requestCallback - {rpcId}
    ensures |r.completions| == |s.completions| + (if rpcId in s.requestCallback then 1 else 0)
    ensures r.completions[..|s.completions|] == s.completions
    ensures r == s.(requestCallback := r.requestCallback, completions := r.completions)
  {
    if rpcId !in s.requestCallback then s
    else
      var outcome := if needException then Raised(SenderTimeout)
                     else Returned(CreateResponse(request, ERR_Timeout));
      s.(requestCallback := s.requestCallback - {rpcId},
         completions := s.completions + [Completion(rpcId, outcome)])
  }

  // ---------------------------------------------------------------------------
  // Sending and dispatching (mutually recursive: a request handled in place
  // may produce a reply, and a reply to the same fiber is handled in place)
  // ---------------------------------------------------------------------------

  /** Responses are never answered, so a reply to a reply cannot happen. */
  function Rank(m: Msg): nat { if m.Response? then 0 else 1 }

  /** `SendInner`: reject, handle in place, or enqueue for another fiber. */
  function SendInner(s: SenderState, fiber: Address, needThrow: int -> bool, dest: ActorId, m: Msg)
    : (r: Step)
    ensures r.raised.Some? ==> r.state == s
    ensures r.state.rpcId == s.rpcId
    decreases Rank(m), 1
  {
    match RouteOf(fiber, dest)
    case CrossProcess => Step(s, Some(InnerProcessDiff(dest.Process(), fiber.process)))
    case SameFiber => HandleMessage(s, fiber, needThrow, MessageInfo(dest, m))
    case OtherFiber => Step(s.(queues := QueueSend(s.queues, fiber, dest, m)), None)
  }

  /** `Reply`: a response goes to the fiber root of the caller's fiber. */
  function Reply(s: SenderState, fiber: Address, needThrow: int -> bool, fromAddress: Address, response: Msg)
    : (r: Step)
    requires response.Response?
    ensures r.raised.Some? ==> r.state == s
    ensures r.state.rpcId == s.rpcId
    decreases Rank(response), 2
  {
    SendInner(s, fiber, needThrow, ActorId(fromAddress, 0), response)
  }

  /** `Send`: fire and forget. */
  function Send(s: SenderState, fiber: Address, needThrow: int -> bool, dest: ActorId, m: Msg): (r: Step)
    ensures r.raised.Some? ==> r.state == s
    ensures r.state.rpcId == s.rpcId
  {
    SendInner(s, fiber, needThrow, dest, m)
  }

  /** `HandleMessage`: a response goes to the call table, anything else to its mailbox. */
  function HandleMessage(s: SenderState, fiber: Address, needThrow: int -> bool, info: MessageInfo)
    : (r: Step)
    ensures r.raised.Some? ==> r.state == s
    ensures r.state.rpcId == s.rpcId
    decreases Rank(info.message), 0
  {
    var m := info.message;
    if m.Response? then Step(HandleResponse(s, m, needThrow), None)
    else if info.actorId.instanceId !in s.mailboxes then
      if m.Request? then
        var replied := Reply(s, fiber, needThrow, info.actorId.address, CreateResponse(m, ERR_NotFoundActor));
        if replied.raised.Some? then replied
        else Step(replied.state.(disposed := replied.state.disposed + [m]), None)
      else
        Step(s.(disposed := s.disposed + [m]), None)
    else
      var iid := info.actorId.instanceId;
      Step(s.(mailboxes := s.mailboxes[iid := s.mailboxes[iid] + [Delivery(info.actorId.address, m)]]), None)
  }

  /** The `foreach` of `Update`: handle the envelopes in order; an exception ends the loop. */
  function HandleAll(s: SenderState, fiber: Address, needThrow: int -> bool, batch: seq<MessageInfo>): (r: Step)
    ensures r.state.rpcId == s.rpcId
    decreases |batch|
  {
    if batch == [] then Step(s, None)
    else
      var first := HandleMessage(s, fiber, needThrow, batch[0]);
      if first.raised.Some? then first
      else HandleAll(first.state, fiber, needThrow, batch[1..])
  }

  /** `Update`: drain at most FetchLimit envelopes of this fiber's queue and handle them. */
  function Update(s: SenderState, fiber: Address, needThrow: int -> bool): (r: Step)
    ensures r.state.rpcId == s.rpcId
  {
    var fetched := QueueFetch(s.queues, fiber.fiber, FetchLimit);
    HandleAll(s.(queues := fetched.1), fiber, needThrow, fetched.0)
  }

  // ---------------------------------------------------------------------------
  // Calls
  // ---------------------------------------------------------------------------

  /** `GetRpcId`: `++self.RpcId`. */
  function GetRpcId(s: SenderState): (r: (int32, SenderState))
    ensures r.1 == s.(rpcId := r.0)
    ensures s.rpcId < Int32Max ==> r.0 == s.rpcId + 1
  {
    var id := Inc32(s.rpcId);
    (id, s.(rpcId := id))
  }

  /** The `Call` with a caller-supplied rpc id, up to the point where the caller waits. */
  function CallWithId(s: SenderState, fiber: Address, needThrow: int -> bool,
                      dest: ActorId, rpcId: int, request: Msg, needException: bool): (r: Step)
    requires request.Request?
    ensures r.state.rpcId == s.rpcId
  {
    if dest.IsDefault() then Step(s, Some(ActorIdZero))
    else if fiber.process != dest.Process() then Step(s, Some(InnerProcessDiff(dest.Process(), fiber.process)))
    else if rpcId in s.requestCallback then Step(s, Some(DuplicateRpcId(rpcId)))
    else
      var added := s.(requestCallback := s.requestCallback[rpcId := PendingCall(dest, request, needException)]);
      SendInner(added, fiber, needThrow, dest, request)
  }

  /** The `Call` that takes a fresh rpc id for the request, then calls `CallWithId`. */
  function Call(s: SenderState, fiber: Address, needThrow: int -> bool,
                dest: ActorId, request: Msg, needException: bool): (r: Step)
    requires request.Request?
    ensures r.state.rpcId == Inc32(s.rpcId)
  {
    var (id, s1) := GetRpcId(s);
    if dest.IsDefault() then Step(s1, Some(ActorIdZero))
    else CallWithId(s1, fiber, needThrow, dest, id, Request(id, request.body), needException)
  }

  // ===========================================================================
  // Properties
  // ===========================================================================

  /** A destination in another process is rejected and nothing changes. */
  lemma CrossProcessRejected(s: SenderState, fiber: Address, needThrow: int -> bool, dest: ActorId, m: Msg)
    requires dest.Process() != fiber.process
    ensures SendInner(s, fiber, needThrow, dest, m) == Step(s, Some(InnerProcessDiff(dest.Process(), fiber.process)))
  {
  }

  /** A destination in another fiber of this process: exactly one enqueue, stamped with this fiber's address. */
  lemma OtherFiberEnqueuesOnce(s: SenderState, fiber: Address, needThrow: int -> bool, dest: ActorId, m: Msg)
    requires dest.Process() == fiber.process && dest.Fiber() != fiber.fiber
    requires dest.Fiber() in s.queues
    ensures var r := SendInner(s, fiber, needThrow, dest, m);
      && r.raised == None
      && r.state == s.(queues := r.state.queues)
      && r.state.queues == s.queues[dest.Fiber() := s.queues[dest.Fiber()] + [MessageInfo(ActorId(fiber, dest.instanceId), m)]]
  {
  }

  /**
   * An envelope stamped with this fiber's own address is handled without
   * touching the queues and without raising: a missing actor's reply comes
   * straight back to this fiber.
   */
  lemma {:induction false} LocalHandleStaysLocal(s: SenderState, fiber: Address, needThrow: int -> bool, info: MessageInfo)
    requires info.actorId.address == fiber
    ensures var r := HandleMessage(s, fiber, needThrow, info);
      r.raised == None && r.state.queues == s.queues
    decreases Rank(info.message)
  {
    var m := info.message;
    if !m.Response? && info.actorId.instanceId !in s.mailboxes && m.Request? {
      var resp := CreateResponse(m, ERR_NotFoundActor);
      var back := MessageInfo(ActorId(fiber, 0), resp);
      assert RouteOf(fiber, ActorId(fiber, 0)) == SameFiber;
      assert Reply(s, fiber, needThrow, fiber, resp) == HandleMessage(s, fiber, needThrow, back);
      LocalHandleStaysLocal(s, fiber, needThrow, back);
    }
  }

  /** Same-fiber fast path: handled in place, the queues are untouched, nothing is raised. */
  lemma SameFiberBypassesQueue(s: SenderState, fiber: Address, needThrow: int -> bool, dest: ActorId, m: Msg)
    requires dest.address == fiber
    ensures var r := SendInner(s, fiber, needThrow, dest, m);
      && r == HandleMessage(s, fiber, needThrow, MessageInfo(dest, m))
      && r.raised == None && r.state.queues == s.queues
  {
    LocalHandleStaysLocal(s, fiber, needThrow, MessageInfo(dest, m));
  }

  /** A response nobody waits for (already timed out, duplicate, rogue) changes nothing. */
  lemma UnknownResponseIgnored(s: SenderState, needThrow: int -> bool, response: Msg)
    requires response.Response? && response.rpcId !in s.requestCallback
    ensures HandleResponse(s, response, needThrow) == s
  {
  }

  /** A response for a pending call removes that entry and completes it once, by `Run`. */
  lemma MatchedResponseCompletesOnce(s: SenderState, needThrow: int -> bool, response: Msg)
    requires response.Response? && response.rpcId in s.requestCallback
    ensures var r := HandleResponse(s, response, needThrow);
      && r.requestCallback == s.requestCallback - {response.rpcId}
      && r.completions == s.completions
           + [Completion(response.rpcId, Run(s.requestCallback[response.rpcId], response, needThrow))]
      && r.mailboxes == s.mailboxes && r.queues == s.queues && r.disposed == s.disposed
  {
  }

  /** A message for an existing mailbox is appended to that mailbox only; no reply, no disposal. */
  lemma DeliveredToMailbox(s: SenderState, fiber: Address, needThrow: int -> bool, info: MessageInfo)
    requires !info.message.Response? && info.actorId.instanceId in s.mailboxes
    ensures var r := HandleMessage(s, fiber, needThrow, info);
      var iid := info.actorId.instanceId;
      && r.raised == None
      && r.state == s.(mailboxes := r.state.mailboxes)
      && r.state.mailboxes.Keys == s.mailboxes.Keys
      && r.state.mailboxes[iid] == s.mailboxes[iid] + [Delivery(info.actorId.address, info.message)]
      && forall k :: k in s.mailboxes && k != iid ==> r.state.mailboxes[k] == s.mailboxes[k]
  {
  }

  /** A plain message for a missing mailbox is disposed and nothing else happens. */
  lemma PlainForMissingActorDropped(s: SenderState, fiber: Address, needThrow: int -> bool, info: MessageInfo)
    requires info.message.Plain? && info.actorId.instanceId !in s.mailboxes
    ensures HandleMessage(s, fiber, needThrow, info) == Step(s.(disposed := s.disposed + [info.message]), None)
  {
  }

  /**
   * A request for a missing mailbox is answered with ERR_NotFoundActor sent to
   * the fiber root of the sender's fiber, then disposed; the mailboxes are untouched.
   */
  lemma RequestForMissingActorAnswered(s: SenderState, fiber: Address, needThrow: int -> bool, info: MessageInfo)
    requires info.message.Request? && info.actorId.instanceId !in s.mailboxes
    ensures var r := HandleMessage(s, fiber, needThrow, info);
      var reply := SendInner(s, fiber, needThrow, ActorId(info.actorId.address, 0),
                             Response(info.message.rpcId, ERR_NotFoundActor, Empty));
      && (reply.raised.None? ==> r == Step(reply.state.(disposed := reply.state.disposed + [info.message]), None))
      && (reply.raised.Some? ==> r == reply && r.state == s)
      && r.state.mailboxes == s.mailboxes
  {
    var reply := SendInner(s, fiber, needThrow, ActorId(info.actorId.address, 0),
                           Response(info.message.rpcId, ERR_NotFoundActor, Empty));
    ReplyKeepsMailboxes(s, fiber, needThrow, ActorId(info.actorId.address, 0),
                        Response(info.message.rpcId, ERR_NotFoundActor, Empty));
  }

  /** Sending a response never delivers into a mailbox. */
  lemma ReplyKeepsMailboxes(s: SenderState, fiber: Address, needThrow: int -> bool, dest: ActorId, response: Msg)
    requires response.Response?
    ensures SendInner(s, fiber, needThrow, dest, response).state.mailboxes == s.mailboxes
  {
  }

  /** `GetRpcId` hands out strictly increasing ids until the 32-bit counter wraps. */
  lemma RpcIdsIncrease(s: SenderState)
    requires s.rpcId < Int32Max
    ensures var (id, s1) := GetRpcId(s);
      id > s.rpcId && s1.rpcId == id && s1 == s.(rpcId := id)
  {
  }

  /** `Call` with a default ActorId consumes an rpc id and rejects before adding anything. */
  lemma CallDefaultConsumesId(s: SenderState, fiber: Address, needThrow: int -> bool, dest: ActorId, request: Msg, needException: bool)
    requires request.Request? && dest.IsDefault()
    ensures var r := Call(s, fiber, needThrow, dest, request, needException);
      && r.raised == Some(ActorIdZero)
      && r.state == s.(rpcId := Inc32(s.rpcId))
  {
  }

  /**
   * A default ActorId, or a destination in another process, is rejected
   * before the entry is added: nothing changes.
   */
  lemma CallWithIdRejects(s: SenderState, fiber: Address, needThrow: int -> bool,
                          dest: ActorId, rpcId: int, request: Msg, needException: bool)
    requires request.Request?
    requires dest.IsDefault() || dest.Process() != fiber.process
    ensures var r := CallWithId(s, fiber, needThrow, dest, rpcId, request, needException);
      && r.state == s
      && r.raised == Some(if dest.IsDefault() then ActorIdZero else InnerProcessDiff(dest.Process(), fiber.process))
  {
  }

  /** An existing rpc id cannot be added again (Dictionary.Add), and nothing changes. */
  lemma DuplicateRpcIdRejected(s: SenderState, fiber: Address, needThrow: int -> bool,
                               dest: ActorId, rpcId: int, request: Msg, needException: bool)
    requires request.Request? && !dest.IsDefault() && dest.Process() == fiber.process
    requires rpcId in s.requestCallback
    ensures CallWithId(s, fiber, needThrow, dest, rpcId, request, needException) == Step(s, Some(DuplicateRpcId(rpcId)))
  {
  }

  /**
   * Once its destination checks pass, a call never raises: the entry is in the
   * table and the request was routed (the reply of a missing actor can only go
   * to this process).
   */
  lemma {:induction false} AcceptedCallDoesNotRaise(s: SenderState, fiber: Address, needThrow: int -> bool,
                                 dest: ActorId, rpcId: int, request: Msg, needException: bool)
    requires request.Request? && !dest.IsDefault() && dest.Process() == fiber.process
    requires rpcId !in s.requestCallback
    ensures CallWithId(s, fiber, needThrow, dest, rpcId, request, needException).raised == None
  {
    var added := s.(requestCallback := s.requestCallback[rpcId := PendingCall(dest, request, needException)]);
    if dest.Fiber() == fiber.fiber {
      assert dest.address == fiber;
      SameFiberBypassesQueue(added, fiber, needThrow, dest, request);
    }
  }

  /**
   * An accepted call whose request is not answered on the spot registers
   * exactly its entry; to another fiber the request is queued once and
   * nothing else changes, to a present actor of this fiber it is delivered
   * into that actor's mailbox.
   */
  lemma {:induction false} AcceptedCallRegisters(s: SenderState, fiber: Address, needThrow: int -> bool,
                                                 dest: ActorId, rpcId: int, request: Msg, needException: bool)
    requires request.Request? && !dest.IsDefault() && dest.Process() == fiber.process
    requires rpcId !in s.requestCallback
    requires dest.Fiber() != fiber.fiber || dest.instanceId in s.mailboxes
    ensures var r := CallWithId(s, fiber, needThrow, dest, rpcId, request, needException);
      && r.raised == None
      && r.state.requestCallback == s.requestCallback[rpcId := PendingCall(dest, request, needException)]
      && (dest.Fiber() != fiber.fiber ==>
            && r.state.queues == QueueSend(s.queues, fiber, dest, request)
            && r.state == s.(requestCallback := r.state.requestCallback, queues := r.state.queues))
      && (dest.Fiber() == fiber.fiber ==>
            && r.state == s.(requestCallback := r.state.requestCallback, mailboxes := r.state.mailboxes)
            && r.state.mailboxes == s.mailboxes[dest.instanceId := s.mailboxes[dest.instanceId] + [Delivery(fiber, request)]])
  {
    var added := s.(requestCallback := s.requestCallback[rpcId := PendingCall(dest, request, needException)]);
    var r := CallWithId(s, fiber, needThrow, dest, rpcId, request, needException);
    assert r == SendInner(added, fiber, needThrow, dest, request);
    if dest.Fiber() == fiber.fiber {
      assert RouteOf(fiber, dest) == SameFiber;
      assert dest.address == fiber;
      DeliveredToMailbox(added, fiber, needThrow, MessageInfo(dest, request));
    } else {
      assert RouteOf(fiber, dest) == OtherFiber;
    }
  }

  /**
   * The entry is added before the request is sent: a call to a missing actor
   * of this very fiber is completed synchronously with the ERR_NotFoundActor
   * reply, and its timeout, firing later, finds nothing to remove.
   */
  lemma {:induction false} SameFiberMissingActorResolvedBeforeTimeout(
      s: SenderState, fiber: Address, needThrow: int -> bool,
      dest: ActorId, rpcId: int, request: Msg, needException: bool)
    requires request.Request? && request.rpcId == rpcId
    requires !dest.IsDefault() && dest.address == fiber
    requires rpcId !in s.requestCallback && dest.instanceId !in s.mailboxes
    ensures var r := CallWithId(s, fiber, needThrow, dest, rpcId, request, needException);
      var notFound := Response(rpcId, ERR_NotFoundActor, Empty);
      && r.raised == None
      && r.state.requestCallback == s.requestCallback
      && r.state.completions == s.completions
           + [Completion(rpcId, Run(PendingCall(dest, request, needException), notFound, needThrow))]
      && r.state.disposed == s.disposed + [request]
      && Timeout(r.state, rpcId, request, needException) == r.state
  {
    var call := PendingCall(dest, request, needException);
    var added := s.(requestCallback := s.requestCallback[rpcId := call]);
    var notFound := Response(rpcId, ERR_NotFoundActor, Empty);
    var back := MessageInfo(ActorId(fiber, 0), notFound);
    assert CreateResponse(request, ERR_NotFoundActor) == notFound;
    assert RouteOf(fiber, ActorId(fiber, 0)) == SameFiber;
    var replied := HandleMessage(added, fiber, needThrow, back);
    assert replied == Step(HandleResponse(added, notFound, needThrow), None);
    assert Reply(added, fiber, needThrow, fiber, notFound) == replied;
    assert RouteOf(fiber, dest) == SameFiber;
    var r := CallWithId(s, fiber, needThrow, dest, rpcId, request, needException);
    assert r == SendInner(added, fiber, needThrow, dest, request);
    assert r == HandleMessage(added, fiber, needThrow, MessageInfo(dest, request));
    assert r == Step(replied.state.(disposed := replied.state.disposed + [request]), None);
    assert added.requestCallback - {rpcId} == s.requestCallback;
  }

  // ---------------------------------------------------------------------------
  // Exactly-once resolution: responses and timeouts racing for the same key
  // ---------------------------------------------------------------------------

  /** What may happen to the table while calls are outstanding. */
  datatype Event =
    | Arrive(response: Msg)                                 // a response handled by this fiber
    | Expire(rpcId: int, request: Msg, needException: bool) // a Timeout whose wait is over

  predicate WellFormed(e: Event) {
    match e
    case Arrive(resp) => resp.Response?
    case Expire(_, req, _) => req.Request?
  }

  function KeyOf(e: Event): int
    requires WellFormed(e)
  {
    match e
    case Arrive(resp) => resp.rpcId
    case Expire(id, _, _) => id
  }

  function ApplyEvent(s: SenderState, needThrow: int -> bool, e: Event): SenderState
    requires WellFormed(e)
  {
    match e
    case Arrive(resp) => HandleResponse(s, resp, needThrow)
    case Expire(id, req, needEx) => Timeout(s, id, req, needEx)
  }

  function ApplyEvents(s: SenderState, needThrow: int -> bool, events: seq<Event>): SenderState
    requires forall i :: 0 <= i < |events| ==> WellFormed(events[i])
    decreases |events|
  {
    if events == [] then s
    else ApplyEvents(ApplyEvent(s, needThrow, events[0]), needThrow, events[1..])
  }

  /** How many completions of key `k` are in the log. */
  function CompletionsOf(log: seq<Completion>, k: int): nat {
    if log == [] then 0
    else (if log[0].rpcId == k then 1 else 0) + CompletionsOf(log[1..], k)
  }

  lemma {:induction false} CompletionsOfAppend(log: seq<Completion>, c: Completion, k: int)
    ensures CompletionsOf(log + [c], k) == CompletionsOf(log, k) + (if c.rpcId == k then 1 else 0)
  {
    if log != [] {
      assert (log + [c])[1..] == log[1..] + [c];
      CompletionsOfAppend(log[1..], c, k);
    }
  }

  predicate Mentions(events: seq<Event>, k: int)
    requires forall i :: 0 <= i < |events| ==> WellFormed(events[i])
  {
    exists i :: 0 <= i < |events| && KeyOf(events[i]) == k
  }

  /**
   * Whatever responses and timeouts arrive, in whatever order, a call pending
   * under key `k` is completed exactly once if any of them concerns `k`, and
   * not at all otherwise; a key that is not pending is never completed.
   */
  lemma {:induction false} ResolvedExactlyOnce(s: SenderState, needThrow: int -> bool, events: seq<Event>, k: int)
    requires forall i :: 0 <= i < |events| ==> WellFormed(events[i])
    ensures var r := ApplyEvents(s, needThrow, events);
      && CompletionsOf(r.completions, k)
         == CompletionsOf(s.completions, k) + (if k in s.requestCallback && Mentions(events, k) then 1 else 0)
      && (k in r.requestCallback <==> k in s.requestCallback && !Mentions(events, k))
    decreases |events|
  {
    if events != [] {
      var e := events[0];
      var s1 := ApplyEvent(s, needThrow, e);
      var id := KeyOf(e);
      if id in s.requestCallback {
        var c :| s1.completions == s.completions + [c] && c.rpcId == id;
        CompletionsOfAppend(s.completions, c, k);
        assert s1.requestCallback == s.requestCallback - {id};
      } else {
        assert s1 == s;
      }
      ResolvedExactlyOnce(s1, needThrow, events[1..], k);
      assert Mentions(events, k) <==> id == k || Mentions(events[1..], k) by {
        if Mentions(events, k) && id != k {
          var i :| 0 <= i < |events| && KeyOf(events[i]) == k;
          assert KeyOf(events[1..][i - 1]) == k;
        }
        if Mentions(events[1..], k) {
          var i :| 0 <= i < |events[1..]| && KeyOf(events[1..][i]) == k;
          assert KeyOf(events[i + 1]) == k;
        }
      }
    }
  }

  /** The response wins the race: the timeout that fires afterwards is a no-op. */
  lemma TimeoutAfterResponseIsNoOp(s: SenderState, needThrow: int -> bool, response: Msg, request: Msg, needException: bool)
    requires response.Response? && request.Request?
    ensures var s1 := HandleResponse(s, response, needThrow);
      Timeout(s1, response.rpcId, request, needException) == s1
  {
  }

  /** The timeout wins the race: the response that arrives afterwards is a no-op. */
  lemma ResponseAfterTimeoutIsNoOp(s: SenderState, needThrow: int -> bool, rpcId: int, request: Msg, needException: bool, response: Msg)
    requires response.Response? && request.Request? && response.rpcId == rpcId
    ensures var s1 := Timeout(s, rpcId, request, needException);
      HandleResponse(s1, response, needThrow) == s1
  {
  }

  /**
   * A timeout that removes its entry completes the call with a failure when
   * `needException`, and with an ERR_Timeout response otherwise.
   */
  lemma TimeoutOutcome(s: SenderState, rpcId: int, request: Msg, needException: bool)
    requires request.Request? && rpcId in s.requestCallback
    ensures var r := Timeout(s, rpcId, request, needException);
      && r.requestCallback == s.requestCallback - {rpcId}
      && |r.completions| == |s.completions| + 1
      && r.completions[..|s.completions|] == s.completions
      && var c := r.completions[|s.completions|];
         c.rpcId == rpcId
         && (needException <==> c.outcome.Raised?)
         && (needException ==> c.outcome.failure == SenderTimeout)
         && (!needException ==> c.outcome.response.Response? && c.outcome.response.error == ERR_Timeout
                                && c.outcome.response.rpcId == request.rpcId)
  {
  }

  // ---------------------------------------------------------------------------
  // Draining the queue
  // ---------------------------------------------------------------------------

  /** Each tick drains at most FetchLimit envelopes, the oldest first, and leaves the rest in order. */
  lemma DrainIsBoundedPrefix(s: SenderState, fiber: Address)
    requires fiber.fiber in s.queues
    ensures var (batch, rest) := QueueFetch(s.queues, fiber.fiber, FetchLimit);
      && |batch| <= FetchLimit
      && (|s.queues[fiber.fiber]| >= FetchLimit ==> |batch| == FetchLimit)
      && batch + rest[fiber.fiber] == s.queues[fiber.fiber]
  {
  }

  /**
   * Handling an envelope never enqueues for this fiber: a reply to this fiber
   * is handled in place, and only other fibers' queues can grow. No queue
   * appears or disappears.
   */
  lemma {:induction false} HandleKeepsOwnQueue(s: SenderState, fiber: Address, needThrow: int -> bool, info: MessageInfo)
    ensures var r := HandleMessage(s, fiber, needThrow, info);
      && r.state.queues.Keys == s.queues.Keys
      && (fiber.fiber in s.queues ==> r.state.queues[fiber.fiber] == s.queues[fiber.fiber])
    decreases Rank(info.message)
  {
    var m := info.message;
    if !m.Response? && info.actorId.instanceId !in s.mailboxes && m.Request? {
      var resp := CreateResponse(m, ERR_NotFoundActor);
      var dest := ActorId(info.actorId.address, 0);
      var replied := Reply(s, fiber, needThrow, info.actorId.address, resp);
      assert replied == SendInner(s, fiber, needThrow, dest, resp);
      if RouteOf(fiber, dest) == SameFiber {
        assert replied == HandleMessage(s, fiber, needThrow, MessageInfo(dest, resp));
        HandleKeepsOwnQueue(s, fiber, needThrow, MessageInfo(dest, resp));
      }
    }
  }

  /** The same for a whole batch, whether or not it stops at an exception. */
  lemma {:induction false} HandleAllKeepsOwnQueue(s: SenderState, fiber: Address, needThrow: int -> bool,
                                                  batch: seq<MessageInfo>)
    ensures var r := HandleAll(s, fiber, needThrow, batch);
      && r.state.queues.Keys == s.queues.Keys
      && (fiber.fiber in s.queues ==> r.state.queues[fiber.fiber] == s.queues[fiber.fiber])
    decreases |batch|
  {
    if batch != [] {
      HandleKeepsOwnQueue(s, fiber, needThrow, batch[0]);
      var first := HandleMessage(s, fiber, needThrow, batch[0]);
      if first.raised.None? {
        HandleAllKeepsOwnQueue(first.state, fiber, needThrow, batch[1..]);
      }
    }
  }

  /**
   * After a tick the fiber's queue holds exactly what the fetch left behind:
   * the envelopes past the first FetchLimit, in order, to be handled next tick.
   */
  lemma UpdateLeavesRemainder(s: SenderState, fiber: Address, needThrow: int -> bool)
    requires fiber.fiber in s.queues
    ensures var r := Update(s, fiber, needThrow);
      var q := s.queues[fiber.fiber];
      && fiber.fiber in r.state.queues
      && r.state.queues[fiber.fiber] == q[(if |q| < FetchLimit then |q| else FetchLimit)..]
  {
    var q := s.queues[fiber.fiber];
    var (batch, rest) := QueueFetch(s.queues, fiber.fiber, FetchLimit);
    assert rest[fiber.fiber] == q[|batch|..] by {
      assert batch + rest[fiber.fiber] == q;
    }
    HandleAllKeepsOwnQueue(s.(queues := rest), fiber, needThrow, batch);
  }

  /** Two messages sent from one fiber to another are queued in the order they were sent. */
  lemma {:induction false} QueueIsFifoPerPair(s: SenderState, fiber: Address, needThrow: int -> bool,
                                              dest: ActorId, m1: Msg, m2: Msg)
    requires dest.Process() == fiber.process && dest.Fiber() != fiber.fiber
    requires dest.Fiber() in s.queues
    ensures var s2 := Send(Send(s, fiber, needThrow, dest, m1).state, fiber, needThrow, dest, m2).state;
      s2.queues[dest.Fiber()] == s.queues[dest.Fiber()]
        + [MessageInfo(ActorId(fiber, dest.instanceId), m1), MessageInfo(ActorId(fiber, dest.instanceId), m2)]
  {
    OtherFiberEnqueuesOnce(s, fiber, needThrow, dest, m1);
    var s1 := Send(s, fiber, needThrow, dest, m1).state;
    OtherFiberEnqueuesOnce(s1, fiber, needThrow, dest, m2);
  }
}
