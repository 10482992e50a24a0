/**
 * Value types of the in-process actor messaging core: addresses, actor ids,
 * the three kinds of message object, the envelope carried by the process-wide
 * message queue, the record kept for an outstanding call, and the ways a call
 * or a send can end.
 */
module ActorTypes {

  /** C# `int`: what `RpcId` and `RouterIndex` are stored in. */
  type int32 = x: int | -0x8000_0000 <= x < 0x8000_0000
  /** C# `uint`: connection ids of the router handshake. */
  type uint32 = x: int | 0 <= x < 0x1_0000_0000

  const Int32Max: int := 0x7FFF_FFFF

  /** `++x` on a C# `int` in an unchecked context: wraps from Int32Max to the minimum. */
  function Inc32(x: int32): (r: int32)
    ensures x < Int32Max ==> r == x + 1
    ensures x == Int32Max ==> r == -0x8000_0000
  {
    if x == Int32Max then -0x8000_0000 else x + 1
  }

  /** A fiber of a process. */
  datatype Address = Address(process: int, fiber: int)

  /** An actor instance inside a fiber; instance id 0 is the fiber root. */
  datatype ActorId = ActorId(address: Address, instanceId: int) {
    /** `actorId == default`: every field zero. */
    predicate IsDefault() {
      address.process == 0 && address.fiber == 0 && instanceId == 0
    }
    function Process(): int { address.process }
    function Fiber(): int { address.fiber }
  }

  /**
   * Error codes the core compares against. ErrorCore is not part of this
   * model: only the facts that these are distinct and non-zero are used.
   */
  const ERR_Success: int := 0
  const ERR_NotFoundActor: int := 110302
  const ERR_MessageTimeout: int := 110305
  const ERR_Timeout: int := 200002

  /** What a message carries besides its routing data. */
  datatype Body =
    | Empty                 // a freshly created response: only RpcId and Error are set
    | Opaque(kind: int)     // application fields, not interpreted by the core
    | Wrapped(inner: Msg)   // the `MessageObject` field of the A2NetClient_* wrappers

  /** `MessageObject`: a plain message, an `IRequest` or an `IResponse`. */
  datatype Msg =
    | Plain(body: Body)
    | Request(rpcId: int, body: Body)
    | Response(rpcId: int, error: int, body: Body)

  /** `MessageHelper.CreateResponse(request, error)`: a response echoing the request's rpc id. */
  function CreateResponse(request: Msg, error: int): (r: Msg)
    requires request.Request?
    ensures r.Response? && r.rpcId == request.rpcId && r.error == error
  {
    Response(request.rpcId, error, Empty)
  }

  /**
   * The envelope of the message queue: `actorId.Address` is the SENDER's fiber
   * address and `actorId.InstanceId` the destination instance (mailbox key).
   */
  datatype MessageInfo = MessageInfo(actorId: ActorId, message: Msg)

  /** What a mailbox holds: `mailBoxComponent.Add(fromAddress, message)`. */
  datatype Delivery = Delivery(from: Address, message: Msg)

  /** `MessageSenderStruct`: the record of an outstanding call (its task source is its rpc id). */
  datatype PendingCall = PendingCall(actorId: ActorId, request: Msg, needException: bool)

  /** The exceptions the modelled code raises. */
  datatype Failure =
    | InnerProcessDiff(destProcess: int, fiberProcess: int)  // "actor inner process diff"
    | ActorIdZero                                           // "actor id is 0"
    | DuplicateRpcId(rpcId: int)                            // Dictionary.Add on an existing key
    | RpcError(error: int)                                  // RpcException(error, …)
    | SenderTimeout                                         // "actor sender timeout"
    | NullReference                                         // a failed `as` cast dereferenced
    | IndexOutOfRange                                       // indexing past an array
    | ArgumentOutOfRange                                    // indexing a List outside its range

  /** How the task source of a call is completed: `SetResult` or `SetException`. */
  datatype CallOutcome = Returned(response: Msg) | Raised(failure: Failure)

  /** One completion of a task source, recorded in the order it happened. */
  datatype Completion = Completion(rpcId: int, outcome: CallOutcome)

  datatype Option<T> = None | Some(value: T)
}
