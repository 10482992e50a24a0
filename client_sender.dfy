/**
 * The client's main fiber talks to its NetClient fiber through a
 * `ClientSenderCompnent`: it creates that fiber at login, wraps every message
 * and request it sends there, and unwraps the responses it gets back.
 *
 * Fiber creation and removal belong to the fiber manager, which is not part
 * of this model: the id a creation returns is a parameter, and each removal
 * is recorded in `removedFibers`.
 */
module ClientSender {
  import opened ActorTypes
  import M = InnerSenderModel

  /** `Main2NetClient_Login`: what the new NetClient fiber is asked to do. */
  datatype LoginRequest = Main2NetClient_Login(ownerFiberId: int, account: string, password: string)

  /** `A2NetClient_Message` around an application message. */
  function WrapMessage(message: Msg): Msg {
    Plain(Wrapped(message))
  }

  /** `A2NetClient_Request` around an application request; its rpc id is set by the inner `Call`. */
  function WrapRequest(request: Msg): Msg {
    Request(0, Wrapped(request))
  }

  /**
   * The error rule of `Call`, applied once the inner call on the
   * `A2NetClient_Request` has completed: an exception of the inner call
   * propagates; a completion that is not an `A2NetClient_Response` fails the
   * cast and is dereferenced; otherwise the wrapped response is judged as
   * `Run` judges a response.
   */
  function UnwrapResponse(inner: CallOutcome, needException: bool, needThrow: int -> bool): (r: CallOutcome)
    ensures inner.Raised? ==> r == inner
    ensures r.Returned? ==>
      && inner.Returned? && inner.response.body.Wrapped?
      && r.response == inner.response.body.inner && r.response.Response?
      && r.response.error != ERR_MessageTimeout
      && !(needException && needThrow(r.response.error))
    ensures inner.Returned? && inner.response.Response?
            && inner.response.body.Wrapped? && inner.response.body.inner.Response?
            && inner.response.body.inner.error == ERR_MessageTimeout
            ==> r == Raised(RpcError(ERR_MessageTimeout))
  {
    match inner
    case Raised(_) => inner
    case Returned(wrapper) =>
      if !(wrapper.Response? && wrapper.body.Wrapped? && wrapper.body.inner.Response?) then Raised(NullReference)
      else
        var response := wrapper.body.inner;
        if response.error == ERR_MessageTimeout then Raised(RpcError(response.error))
        else if needException && needThrow(response.error) then Raised(RpcError(response.error))
        else Returned(response)
  }

  /** The unwrapped response is decided exactly as `Run` decides a response for a call with the caller's flag. */
  lemma UnwrapMirrorsRun(wrapper: Msg, needException: bool, needThrow: int -> bool, target: ActorId, request: Msg)
    requires wrapper.Response? && wrapper.body.Wrapped? && wrapper.body.inner.Response?
    ensures UnwrapResponse(Returned(wrapper), needException, needThrow)
         == M.Run(PendingCall(target, request, needException), wrapper.body.inner, needThrow)
  {
  }

  /**
   * The inner call always runs with `needException` true, so an error that
   * must be raised on the wrapper response reaches the caller as an
   * exception even when the caller passed `needException` false: the
   * caller's flag governs only the unwrapped response.
   */
  lemma CallerFlagOnlyGovernsInnerResponse(wrapper: Msg, needException: bool, needThrow: int -> bool,
                                           target: ActorId, request: Msg)
    requires wrapper.Response? && needThrow(wrapper.error)
    ensures UnwrapResponse(M.Run(PendingCall(target, WrapRequest(request), true), wrapper, needThrow),
                           needException, needThrow).Raised?
  {
  }

  class ClientSenderCompnent {
    /** `self.Fiber()`: the main fiber that owns this component. */
    const ownAddress: Address
    var fiberId: int
    var netClientActorId: ActorId
    /** Every `FiberManager.Instance.Remove(id)` this component issued. */
    var removedFibers: seq<int>

    constructor (ownAddress: Address)
      ensures this.ownAddress == ownAddress
      ensures fiberId == 0 && netClientActorId == ActorId(Address(0, 0), 0) && removedFibers == []
    {
      this.ownAddress := ownAddress;
      fiberId := 0;
      netClientActorId := ActorId(Address(0, 0), 0);
      removedFibers := [];
    }

    /** `Destroy`. */
    method Destroy()
      modifies this
      ensures fiberId == 0 && netClientActorId == old(netClientActorId)
      ensures removedFibers == if old(fiberId) == 0 then old(removedFibers) else old(removedFibers) + [old(fiberId)]
    {
      RemoveFiberAsync();
    }

    /**
     * `RemoveFiberAsync`: nothing to do without a fiber; otherwise the field is
     * cleared before the captured id is removed, so a second call removes nothing.
     */
    method RemoveFiberAsync()
      modifies this
      ensures fiberId == 0 && netClientActorId == old(netClientActorId)
      ensures old(fiberId) == 0 ==> removedFibers == old(removedFibers)
      ensures old(fiberId) != 0 ==> removedFibers == old(removedFibers) + [old(fiberId)]
    {
      if fiberId == 0 {
        return;
      }
      var id := fiberId;
      fiberId := 0;
      removedFibers := removedFibers + [id];
    }

    /**
     * `LoginAsync` up to its call: record the created fiber and address its
     * root; returns the destination and the request handed to the inner `Call`.
     */
    method LoginAsync(account: string, password: string, createdFiberId: int)
      returns (target: ActorId, request: LoginRequest)
      modifies this
      ensures fiberId == createdFiberId
      ensures netClientActorId == ActorId(Address(ownAddress.process, createdFiberId), 0)
      ensures target == netClientActorId && target.Process() == ownAddress.process && target.instanceId == 0
      ensures request == Main2NetClient_Login(ownAddress.fiber, account, password)
      ensures removedFibers == old(removedFibers)
    {
      fiberId := createdFiberId;
      netClientActorId := ActorId(Address(ownAddress.process, fiberId), 0);
      target := netClientActorId;
      request := Main2NetClient_Login(ownAddress.fiber, account, password);
    }

    /** `Send`: the arguments handed to the inner sender's `Send`. */
    method Send(message: Msg) returns (target: ActorId, wrapped: Msg)
      ensures target == netClientActorId
      ensures wrapped.Plain? && wrapped.body == Wrapped(message)
    {
      target := netClientActorId;
      wrapped := WrapMessage(message);
    }

    /** `Call`: the arguments of the inner call, whose `needException` is always the default, true. */
    method Call(request: Msg) returns (target: ActorId, wrapped: Msg, innerNeedException: bool)
      requires request.Request?
      ensures target == netClientActorId
      ensures wrapped.Request? && wrapped.body == Wrapped(request)
      ensures innerNeedException
    {
      target := netClientActorId;
      wrapped := WrapRequest(request);
      innerNeedException := true;
    }
  }
}
