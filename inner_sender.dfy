/**
 * The inner sender of one fiber as the object the source updates in place,
 * and the process-wide message queue it shares with the other fibers.
 *
 * Each method with a counterpart in InnerSenderModel is proved to move the
 * object exactly as that function says (`Model()` is the object's state as a
 * value): mostly the function of the same name, `HandleResponse` for
 * `HandleIActorResponse`, `QueueSend` and `QueueFetch` for the queue.
 * `Awake`, `Destroy`, `AddQueue` and `RemoveQueue` state their new state
 * directly. The sender's properties are the lemmas of InnerSenderModel.
 */
module InnerSenderSystem {
  import opened ActorTypes
  import M = InnerSenderModel

  /** `MessageQueue.Instance`: one FIFO of envelopes per registered fiber. */
  class MessageQueue {
    var queues: map<int, seq<MessageInfo>>

    constructor ()
      ensures queues == map[]
    {
      queues := map[];
    }

    /** `AddQueue`: registering a fiber that already has a queue keeps that queue. */
    method AddQueue(fiberId: int)
      modifies this
      ensures fiberId in queues
      ensures queues == if fiberId in old(queues) then old(queues) else old(queues)[fiberId := []]
    {
      if fiberId !in queues {
        queues := queues[fiberId := []];
      }
    }

    /** `RemoveQueue`: the fiber's queue and whatever it still holds are gone. */
    method RemoveQueue(fiberId: int)
      modifies this
      ensures queues == old(queues) - {fiberId}
    {
      queues := queues - {fiberId};
    }

    method Send(from: Address, dest: ActorId, m: Msg)
      modifies this
      ensures queues == M.QueueSend(old(queues), from, dest, m)
    {
      var f := dest.Fiber();
      if f in queues {
        queues := queues[f := queues[f] + [MessageInfo(ActorId(from, dest.instanceId), m)]];
      }
    }

    method Fetch(fiberId: int, max: nat) returns (batch: seq<MessageInfo>)
      modifies this
      ensures (batch, queues) == M.QueueFetch(old(queues), fiberId, max)
    {
      if fiberId !in queues {
        batch := [];
        return;
      }
      var q := queues[fiberId];
      var n := if |q| < max then |q| else max;
      batch := q[..n];
      queues := queues[fiberId := q[n..]];
    }
  }

  /** `ProcessInnerSender` with the methods of `ProcessInnerSenderSystem`. */
  class ProcessInnerSender {
    /** The owning fiber: `Fiber.Process` and `Fiber.Id`. */
    const fiber: Address
    /** `ErrorCore.IsRpcNeedThrowException`. */
    const isRpcNeedThrowException: int -> bool
    const messageQueue: MessageQueue

    var RpcId: int32
    var requestCallback: map<int, PendingCall>
    /** `Fiber.Mailboxes`: the mailbox of each registered actor instance of this fiber. */
    var mailboxes: map<int, seq<Delivery>>
    /** Every `SetResult`/`SetException` on a call's task source, in order. */
    var completions: seq<Completion>
    /** Every `Dispose` of a message, in order. */
    var disposed: seq<Msg>
    /** `self.list`: the batch of the current `Update`. */
    var list: seq<MessageInfo>

    function Model(): M.SenderState
      reads this, messageQueue
    {
      M.SenderState(RpcId, requestCallback, mailboxes, messageQueue.queues, completions, disposed)
    }

    constructor (fiber: Address, isRpcNeedThrowException: int -> bool, messageQueue: MessageQueue,
                 mailboxes: map<int, seq<Delivery>>)
      ensures this.fiber == fiber && this.messageQueue == messageQueue
      ensures Model() == M.SenderState(0, map[], mailboxes, messageQueue.queues, [], [])
      ensures list == []
    {
      this.fiber := fiber;
      this.isRpcNeedThrowException := isRpcNeedThrowException;
      this.messageQueue := messageQueue;
      RpcId := 0;
      requestCallback := map[];
      this.mailboxes := mailboxes;
      completions := [];
      disposed := [];
      list := [];
    }

    /** `Awake`: register this fiber's queue. */
    method Awake()
      modifies messageQueue
      ensures fiber.fiber in messageQueue.queues
      ensures messageQueue.queues ==
        if fiber.fiber in old(messageQueue.queues) then old(messageQueue.queues)
        else old(messageQueue.queues)[fiber.fiber := []]
    {
      messageQueue.AddQueue(fiber.fiber);
    }

    /** `Destroy`: deregister this fiber's queue; the call table is left as it is. */
    method Destroy()
      modifies messageQueue
      ensures messageQueue.queues == old(messageQueue.queues) - {fiber.fiber}
    {
      messageQueue.RemoveQueue(fiber.fiber);
    }

    method Update() returns (raised: Option<Failure>)
      modifies this, messageQueue
      ensures M.Step(Model(), raised) == M.Update(old(Model()), fiber, isRpcNeedThrowException)
    {
      list := [];
      var fetched := messageQueue.Fetch(fiber.fiber, M.FetchLimit);
      list := list + fetched;
      ghost var start := Model();
      var i := 0;
      while i < |list|
        invariant 0 <= i <= |list| && list == fetched
        invariant M.HandleAll(start, fiber, isRpcNeedThrowException, list)
               == M.HandleAll(Model(), fiber, isRpcNeedThrowException, list[i..])
      {
        assert list[i..][1..] == list[i + 1..];
        raised := HandleMessage(list[i]);
        if raised.Some? {
          return;
        }
        i := i + 1;
      }
      raised := None;
    }

    method HandleMessage(info: MessageInfo) returns (raised: Option<Failure>)
      modifies this, messageQueue
      ensures M.Step(Model(), raised) == M.HandleMessage(old(Model()), fiber, isRpcNeedThrowException, info)
      ensures list == old(list)
      decreases M.Rank(info.message), 0
    {
      var message := info.message;
      if message.Response? {
        HandleIActorResponse(message);
        return None;
      }
      var actorId := info.actorId;
      if actorId.instanceId !in mailboxes {
        if message.Request? {
          var resp := CreateResponse(message, ERR_NotFoundActor);
          raised := Reply(actorId.address, resp);
          if raised.Some? {
            return;
          }
        }
        disposed := disposed + [message];
        return None;
      }
      mailboxes := mailboxes[actorId.instanceId := mailboxes[actorId.instanceId] + [Delivery(actorId.address, message)]];
      raised := None;
    }

    method HandleIActorResponse(response: Msg)
      requires response.Response?
      modifies this
      ensures Model() == M.HandleResponse(old(Model()), response, isRpcNeedThrowException)
      ensures list == old(list)
    {
      if response.rpcId !in requestCallback {
        return;
      }
      var sender := requestCallback[response.rpcId];
      requestCallback := requestCallback - {response.rpcId};
      var outcome := M.Run(sender, response, isRpcNeedThrowException);
      completions := completions + [Completion(response.rpcId, outcome)];
    }

    method Reply(fromAddress: Address, message: Msg) returns (raised: Option<Failure>)
      requires message.Response?
      modifies this, messageQueue
      ensures M.Step(Model(), raised) == M.Reply(old(Model()), fiber, isRpcNeedThrowException, fromAddress, message)
      ensures list == old(list)
      decreases M.Rank(message), 2
    {
      raised := SendInner(ActorId(fromAddress, 0), message);
    }

    method Send(actorId: ActorId, message: Msg) returns (raised: Option<Failure>)
      modifies this, messageQueue
      ensures M.Step(Model(), raised) == M.Send(old(Model()), fiber, isRpcNeedThrowException, actorId, message)
      ensures list == old(list)
    {
      raised := SendInner(actorId, message);
    }

    method SendInner(actorId: ActorId, message: Msg) returns (raised: Option<Failure>)
      modifies this, messageQueue
      ensures M.Step(Model(), raised) == M.SendInner(old(Model()), fiber, isRpcNeedThrowException, actorId, message)
      ensures list == old(list)
      decreases M.Rank(message), 1
    {
      if actorId.Process() != fiber.process {
        return Some(InnerProcessDiff(actorId.Process(), fiber.process));
      }
      if actorId.Fiber() == fiber.fiber {
        raised := HandleMessage(MessageInfo(actorId, message));
        return;
      }
      messageQueue.Send(fiber, actorId, message);
      raised := None;
    }

    method GetRpcId() returns (id: int32)
      modifies this
      ensures (id, Model()) == M.GetRpcId(old(Model()))
      ensures list == old(list)
    {
      RpcId := Inc32(RpcId);
      id := RpcId;
    }

    /**
     * The `Call` that assigns the request a fresh rpc id. The model stops
     * where the source awaits: the call's result is the completion recorded
     * later under `rpcId`.
     */
    method Call(actorId: ActorId, request: Msg, needException: bool) returns (rpcId: int32, raised: Option<Failure>)
      requires request.Request?
      modifies this, messageQueue
      ensures rpcId == Inc32(old(RpcId))
      ensures M.Step(Model(), raised) == M.Call(old(Model()), fiber, isRpcNeedThrowException, actorId, request, needException)
      ensures list == old(list)
    {
      rpcId := GetRpcId();
      var req := Request(rpcId, request.body);
      if actorId.IsDefault() {
        return rpcId, Some(ActorIdZero);
      }
      raised := CallWithId(actorId, rpcId, req, needException);
    }

    /** The `Call` with a caller-supplied rpc id, up to the await. */
    method CallWithId(actorId: ActorId, rpcId: int, request: Msg, needException: bool) returns (raised: Option<Failure>)
      requires request.Request?
      modifies this, messageQueue
      ensures M.Step(Model(), raised)
           == M.CallWithId(old(Model()), fiber, isRpcNeedThrowException, actorId, rpcId, request, needException)
      ensures list == old(list)
    {
      if actorId.IsDefault() {
        return Some(ActorIdZero);
      }
      if fiber.process != actorId.Process() {
        return Some(InnerProcessDiff(actorId.Process(), fiber.process));
      }
      if rpcId in requestCallback {
        return Some(DuplicateRpcId(rpcId));
      }
      requestCallback := requestCallback[rpcId := PendingCall(actorId, request, needException)];
      raised := SendInner(actorId, request);
    }

    /** The nested `Timeout` of a call, once its wait is over. */
    method Timeout(rpcId: int, request: Msg, needException: bool)
      requires request.Request?
      modifies this
      ensures Model() == M.Timeout(old(Model()), rpcId, request, needException)
      ensures list == old(list)
    {
      if rpcId !in requestCallback {
        return;
      }
      requestCallback := requestCallback - {rpcId};
      if needException {
        completions := completions + [Completion(rpcId, Raised(SenderTimeout))];
      } else {
        var response := CreateResponse(request, ERR_Timeout);
        completions := completions + [Completion(rpcId, Returned(response))];
      }
    }
  }
}
