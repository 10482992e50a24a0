# ET actor messaging core, client routing and realm login, in Dafny

This project models the in-process actor messaging engine of the ET game-server
framework, together with the client- and realm-side logic around it.

The engine is `ProcessInnerSender`, one per fiber. It does four things:
- It routes every outgoing message in one of three ways:
  - a destination in another process is rejected;
  - a destination in the same fiber is handled in place;
  - a destination in another fiber of the same process goes onto the process-wide `MessageQueue`.
- Each tick it drains up to 1000 envelopes from its queue.
- It dispatches each envelope. A response resolves a pending call. Any other message is appended to its actor's mailbox. If that actor is missing, the message is disposed, and a request is also answered with `ERR_NotFoundActor`.
- It keeps the table of pending calls, keyed by an rpc id taken from a 32-bit counter. Each entry is resolved exactly once, by either the matching response or the timeout, whichever removes it first.

Around the engine the project models:
- `ClientSenderCompnent`: how the client's main fiber creates its NetClient fiber, wraps messages and requests for it, and unwraps the responses.
- `RouterAddressComponent`: round-robin choice of a router and account-keyed choice of a realm, from "host:port" text.
- `RouterHelper`:
  - the connector id;
  - the SYN header written into the 512-byte send buffer;
  - the resend loop (every 300 ms, at most 20 sends);
  - the zero check of `CreateRouterSession`.
- `C2R_LoginHandler`:
  - the realm's login checks: session lock, empty fields, then register or check the password;
  - the request to a gate for a login key;
  - the scheduled close of the session.

Layout:
- `actor_types.dfy`: addresses, actor ids, messages, envelopes, pending calls and failures. Also the C# `int` wrap-around (`Inc32`).
- `inner_sender_model.dfy`: the sender as a state machine on values, with every property proved as a lemma.
- `inner_sender.dfy`: the `ProcessInnerSender` and `MessageQueue` classes. Each method that has a counterpart in `InnerSenderModel` is proved to move the object exactly as that function says. Mostly the function has the same name; `HandleIActorResponse` corresponds to `HandleResponse`, and the queue's methods to `QueueSend` and `QueueFetch`. `Awake`, `Destroy`, `AddQueue` and `RemoveQueue` have no counterpart: their contracts state the new state directly.
- `client_sender.dfy`, `router_address.dfy`, `router_helper.dfy` and `login_handler.dfy` each model one file of the same name in the source.

Exceptions are modelled as a `Failure` value, returned together with the state reached when the exception was thrown. Library functions whose code is not part of this model are parameters:
- `ErrorCore.IsRpcNeedThrowException` is `needThrow`;
- `string.Mode` is `mode`;
- the clock and the router's acknowledgement flag are the `frames` of `Connect`;
- the gate's answer is an input of the login handler.

Numeric values that the source takes from files outside this model are chosen distinct and non-zero. They are used only through that fact. These are the error codes and the `KcpProtocalType` flags.

The model follows the code in four places where a reader might expect otherwise:
- The rpc id counter is a C# `int`. It wraps to a negative value after 2^31 - 1 calls.
- `RouterIndex` is a C# `int` as well. Once it wraps, C#'s `%` gives a negative slot, and `GetAddress` throws (`SelectRouter`). A negative index that is a multiple of the router count gives slot 0, and then the first router is chosen without a throw.
- `Connect` returns 0 both for a timeout and for an acknowledged connection whose `localConn` is 0. `CreateRouterSession` then reports "get router fail" in both cases (`ConnectOutcomeDecidesSession`).
- In `C2R_LoginHandler`, a gate call that raises leaves the handler without an answer. No close is scheduled, and a new account has already been saved by then (`LoginHandler.Run`).

`ProcessInnerSender.Destroy` only deregisters the fiber's queue. Calls still pending at that point stay in the table. Failing them on disposal would spare their callers a wait until the timeout, but the code does not do this, and the model follows the code.

## Model

| member | source | states |
|---|---|---|
| ActorTypes.Inc32 | Unity/Assets/Scripts/Core/Fiber/Module/Actor/ProcessInnerSenderSystem.cs:163-166 | `++RpcId` on a C# `int`: one more, except that the maximum wraps to the minimum |
| InnerSenderModel.QueueSend | Unity/Assets/Scripts/Core/Fiber/Module/Actor/ProcessInnerSenderSystem.cs:159 | enqueueing for a registered fiber appends one envelope, carrying the sender's fiber address and the destination instance, to that fiber's queue only; no queue appears or disappears |
| InnerSenderModel.QueueFetch | Unity/Assets/Scripts/Core/Fiber/Module/Actor/ProcessInnerSenderSystem.cs:43 | a fetch takes the oldest `min(length, max)` envelopes of the fiber's queue; batch followed by the remainder is the old queue, and the other queues are untouched |
| InnerSenderModel.HandleResponse | Unity/Assets/Scripts/Core/Fiber/Module/Actor/ProcessInnerSenderSystem.cs:92-101 | the response's rpc id is no longer pending afterwards; one completion is logged iff it was pending, earlier completions are kept, and nothing else changes (the completion itself: `MatchedResponseCompletesOnce`, `UnknownResponseIgnored`) |
| InnerSenderModel.Timeout | Unity/Assets/Scripts/Core/Fiber/Module/Actor/ProcessInnerSenderSystem.cs:231-254 | the rpc id is no longer pending afterwards; one completion is logged iff it was pending, earlier completions are kept, and nothing else changes (the completion itself: `TimeoutOutcome`) |
| InnerSenderModel.Call | Unity/Assets/Scripts/Core/Fiber/Module/Actor/ProcessInnerSenderSystem.cs:169-187 | every call consumes exactly one rpc id, whatever happens next (the default-id rejection: `CallDefaultConsumesId`) |
| InnerSenderModel.Run | Unity/Assets/Scripts/Core/Fiber/Module/Actor/ProcessInnerSenderSystem.cs:106-126 | `ERR_MessageTimeout` always raises an `RpcException`; otherwise `NeedException && IsRpcNeedThrowException(error)` raises; the call returns the response itself iff neither holds |
| InnerSenderModel.SendInner | Unity/Assets/Scripts/Core/Fiber/Module/Actor/ProcessInnerSenderSystem.cs:141-160 | a send that throws leaves the whole state as it was; no send touches the rpc id counter |
| InnerSenderModel.Reply | Unity/Assets/Scripts/Core/Fiber/Module/Actor/ProcessInnerSenderSystem.cs:129-132 | a reply that throws changes nothing; the counter is untouched |
| InnerSenderModel.Send | Unity/Assets/Scripts/Core/Fiber/Module/Actor/ProcessInnerSenderSystem.cs:134-137 | a send that throws changes nothing; the counter is untouched |
| InnerSenderModel.HandleMessage | Unity/Assets/Scripts/Core/Fiber/Module/Actor/ProcessInnerSenderSystem.cs:55-89 | handling an envelope that throws changes nothing; the counter is untouched |
| InnerSenderModel.HandleAll | Unity/Assets/Scripts/Core/Fiber/Module/Actor/ProcessInnerSenderSystem.cs:46-50 | handling a batch never touches the rpc id counter |
| InnerSenderModel.Update | Unity/Assets/Scripts/Core/Fiber/Module/Actor/ProcessInnerSenderSystem.cs:36-51 | a tick never touches the rpc id counter |
| InnerSenderModel.GetRpcId | Unity/Assets/Scripts/Core/Fiber/Module/Actor/ProcessInnerSenderSystem.cs:163-166 | the id handed out is the one stored, one more than before unless the counter wraps; nothing else changes |
| InnerSenderModel.CallWithId | Unity/Assets/Scripts/Core/Fiber/Module/Actor/ProcessInnerSenderSystem.cs:199-228 | a call with a given id never touches the counter |
| InnerSenderModel.CrossProcessRejected | Unity/Assets/Scripts/Core/Fiber/Module/Actor/ProcessInnerSenderSystem.cs:148-151 | a destination in another process raises "inner process diff" and no table, mailbox or queue changes |
| InnerSenderModel.OtherFiberEnqueuesOnce | Unity/Assets/Scripts/Core/Fiber/Module/Actor/ProcessInnerSenderSystem.cs:153-159 | another fiber of this process: exactly one envelope, stamped with this fiber's address, is appended to that fiber's queue and nothing else changes |
| InnerSenderModel.LocalHandleStaysLocal | Unity/Assets/Scripts/Core/Fiber/Module/Actor/ProcessInnerSenderSystem.cs:70-86 | an envelope from this very fiber is handled without raising and without touching any queue, the not-found reply included |
| InnerSenderModel.SameFiberBypassesQueue | Unity/Assets/Scripts/Core/Fiber/Module/Actor/ProcessInnerSenderSystem.cs:153-157 | a destination in this fiber is handled in place by `HandleMessage`; the queues are untouched |
| InnerSenderModel.UnknownResponseIgnored | Unity/Assets/Scripts/Core/Fiber/Module/Actor/ProcessInnerSenderSystem.cs:92-98 | a response whose rpc id is not pending changes nothing |
| InnerSenderModel.MatchedResponseCompletesOnce | Unity/Assets/Scripts/Core/Fiber/Module/Actor/ProcessInnerSenderSystem.cs:92-101 | a pending rpc id is removed and completed once, as `Run` decides; mailboxes, queues and disposals are untouched |
| InnerSenderModel.DeliveredToMailbox | Unity/Assets/Scripts/Core/Fiber/Module/Actor/ProcessInnerSenderSystem.cs:88 | with a mailbox, exactly (sender address, message) is appended to that mailbox only; no reply, no disposal |
| InnerSenderModel.PlainForMissingActorDropped | Unity/Assets/Scripts/Core/Fiber/Module/Actor/ProcessInnerSenderSystem.cs:70-86 | a plain message for a missing actor is disposed and nothing is sent |
| InnerSenderModel.RequestForMissingActorAnswered | Unity/Assets/Scripts/Core/Fiber/Module/Actor/ProcessInnerSenderSystem.cs:76-85 | a request for a missing actor is answered with `ERR_NotFoundActor` at the fiber root of the sender, then disposed; no mailbox changes |
| InnerSenderModel.ReplyKeepsMailboxes | Unity/Assets/Scripts/Core/Fiber/Module/Actor/ProcessInnerSenderSystem.cs:58-62 | a response is never delivered into a mailbox |
| InnerSenderModel.RpcIdsIncrease | Unity/Assets/Scripts/Core/Fiber/Module/Actor/ProcessInnerSenderSystem.cs:163-166 | below the maximum, each id handed out is larger than the last |
| InnerSenderModel.CallDefaultConsumesId | Unity/Assets/Scripts/Core/Fiber/Module/Actor/ProcessInnerSenderSystem.cs:177-183 | `Call` to the default ActorId consumes an id and raises "actor id is 0" before anything is added |
| InnerSenderModel.CallWithIdRejects | Unity/Assets/Scripts/Core/Fiber/Module/Actor/ProcessInnerSenderSystem.cs:207-219 | a default ActorId raises "actor id is 0" and a destination in another process raises "inner process diff", both before the entry is added: the state is unchanged |
| InnerSenderModel.DuplicateRpcIdRejected | Unity/Assets/Scripts/Core/Fiber/Module/Actor/ProcessInnerSenderSystem.cs:225 | adding an rpc id already pending throws and nothing changes |
| InnerSenderModel.AcceptedCallDoesNotRaise | Unity/Assets/Scripts/Core/Fiber/Module/Actor/ProcessInnerSenderSystem.cs:207-228 | once the destination checks pass and the id is new, the call never raises, whatever the destination (its state: `AcceptedCallRegisters`, `SameFiberMissingActorResolvedBeforeTimeout`) |
| InnerSenderModel.AcceptedCallRegisters | Unity/Assets/Scripts/Core/Fiber/Module/Actor/ProcessInnerSenderSystem.cs:224-226 | an accepted call adds exactly its entry `(actorId, request, needException)` under its rpc id; to another fiber the request is queued once and nothing else changes; to a present actor of this fiber it is appended to that actor's mailbox and nothing else changes |
| InnerSenderModel.SameFiberMissingActorResolvedBeforeTimeout | Unity/Assets/Scripts/Core/Fiber/Module/Actor/ProcessInnerSenderSystem.cs:224-240 | the entry is added before the request is sent: a call to a missing actor of this fiber is completed at once by the not-found reply, and its timeout later finds nothing |
| InnerSenderModel.CompletionsOfAppend | Unity/Assets/Scripts/Core/Fiber/Module/Actor/ProcessInnerSenderSystem.cs:100 | appending a completion adds one to the count of its own key only |
| InnerSenderModel.ResolvedExactlyOnce | Unity/Assets/Scripts/Core/Fiber/Module/Actor/ProcessInnerSenderSystem.cs:95-101 | under any sequence of responses and timeouts, a pending key is completed exactly once if any of them concerns it and stays pending otherwise; a key not pending is never completed |
| InnerSenderModel.TimeoutAfterResponseIsNoOp | Unity/Assets/Scripts/Core/Fiber/Module/Actor/ProcessInnerSenderSystem.cs:236-240 | the timeout that fires after its response finds nothing and changes nothing |
| InnerSenderModel.ResponseAfterTimeoutIsNoOp | Unity/Assets/Scripts/Core/Fiber/Module/Actor/ProcessInnerSenderSystem.cs:95-98 | the response that arrives after its timeout changes nothing |
| InnerSenderModel.TimeoutOutcome | Unity/Assets/Scripts/Core/Fiber/Module/Actor/ProcessInnerSenderSystem.cs:243-253 | a timeout that removes its entry completes it once: with an exception iff `needException`, otherwise with an `ERR_Timeout` response for that request |
| InnerSenderModel.DrainIsBoundedPrefix | Unity/Assets/Scripts/Core/Fiber/Module/Actor/ProcessInnerSenderSystem.cs:39-43 | the fetch of a tick takes at most 1000 envelopes, exactly 1000 when that many wait, oldest first |
| InnerSenderModel.HandleKeepsOwnQueue | Unity/Assets/Scripts/Core/Fiber/Module/Actor/ProcessInnerSenderSystem.cs:55-89 | handling an envelope never enqueues for this fiber (a reply to this fiber is handled in place), and no queue appears or disappears |
| InnerSenderModel.HandleAllKeepsOwnQueue | Unity/Assets/Scripts/Core/Fiber/Module/Actor/ProcessInnerSenderSystem.cs:46-50 | handling a batch, stopped by an exception or not, leaves this fiber's queue as it was |
| InnerSenderModel.UpdateLeavesRemainder | Unity/Assets/Scripts/Core/Fiber/Module/Actor/ProcessInnerSenderSystem.cs:36-51 | after a tick the fiber's queue is exactly the envelopes past the first 1000, in order, left for the next tick |
| InnerSenderModel.QueueIsFifoPerPair | Unity/Assets/Scripts/Core/Fiber/Module/Actor/ProcessInnerSenderSystem.cs:159 | two sends from one fiber to another are queued in the order they were made |
| InnerSenderSystem.MessageQueue.AddQueue | Unity/Assets/Scripts/Core/Fiber/Module/Actor/ProcessInnerSenderSystem.cs:31 | registering a fiber gives it a queue; an existing queue is kept, a policy chosen because `MessageQueue` is not in the source |
| InnerSenderSystem.MessageQueue.RemoveQueue | Unity/Assets/Scripts/Core/Fiber/Module/Actor/ProcessInnerSenderSystem.cs:21 | deregistering drops the fiber's queue and only that one |
| InnerSenderSystem.MessageQueue.Send | Unity/Assets/Scripts/Core/Fiber/Module/Actor/ProcessInnerSenderSystem.cs:159 | the queues become `QueueSend` of the old queues |
| InnerSenderSystem.MessageQueue.Fetch | Unity/Assets/Scripts/Core/Fiber/Module/Actor/ProcessInnerSenderSystem.cs:43 | batch and queues are `QueueFetch` of the old queues |
| InnerSenderSystem.ProcessInnerSender.Awake | Unity/Assets/Scripts/Core/Fiber/Module/Actor/ProcessInnerSenderSystem.cs:26-32 | the fiber's queue is registered (an existing one is kept, by the chosen `AddQueue` policy) |
| InnerSenderSystem.ProcessInnerSender.Destroy | Unity/Assets/Scripts/Core/Fiber/Module/Actor/ProcessInnerSenderSystem.cs:16-22 | the fiber's queue, and only it, is deregistered |
| InnerSenderSystem.ProcessInnerSender.Update | Unity/Assets/Scripts/Core/Fiber/Module/Actor/ProcessInnerSenderSystem.cs:36-51 | the loop over the fetched list leaves the object as `Update` of its old state says, stopping at the first exception |
| InnerSenderSystem.ProcessInnerSender.HandleMessage | Unity/Assets/Scripts/Core/Fiber/Module/Actor/ProcessInnerSenderSystem.cs:55-89 | the object moves as `HandleMessage` says |
| InnerSenderSystem.ProcessInnerSender.HandleIActorResponse | Unity/Assets/Scripts/Core/Fiber/Module/Actor/ProcessInnerSenderSystem.cs:92-101 | the object moves as `HandleResponse` says |
| InnerSenderSystem.ProcessInnerSender.Reply | Unity/Assets/Scripts/Core/Fiber/Module/Actor/ProcessInnerSenderSystem.cs:129-132 | the object moves as `Reply` says |
| InnerSenderSystem.ProcessInnerSender.Send | Unity/Assets/Scripts/Core/Fiber/Module/Actor/ProcessInnerSenderSystem.cs:134-137 | the object moves as `Send` says |
| InnerSenderSystem.ProcessInnerSender.SendInner | Unity/Assets/Scripts/Core/Fiber/Module/Actor/ProcessInnerSenderSystem.cs:141-160 | the object moves as `SendInner` says |
| InnerSenderSystem.ProcessInnerSender.GetRpcId | Unity/Assets/Scripts/Core/Fiber/Module/Actor/ProcessInnerSenderSystem.cs:163-166 | id and object are as `GetRpcId` says |
| InnerSenderSystem.ProcessInnerSender.Call | Unity/Assets/Scripts/Core/Fiber/Module/Actor/ProcessInnerSenderSystem.cs:169-187 | the request gets the next id, and the object moves as `Call` says, up to the wait |
| InnerSenderSystem.ProcessInnerSender.CallWithId | Unity/Assets/Scripts/Core/Fiber/Module/Actor/ProcessInnerSenderSystem.cs:199-228 | the object moves as `CallWithId` says, up to the wait |
| InnerSenderSystem.ProcessInnerSender.Timeout | Unity/Assets/Scripts/Core/Fiber/Module/Actor/ProcessInnerSenderSystem.cs:231-254 | the object moves as `Timeout` says |
| ClientSender.UnwrapResponse | Unity/Assets/Scripts/Hotfix/Client/Demo/Main/ClientSenderCompnentSystem.cs:63-75 | an exception of the inner call propagates; an unwrapped `ERR_MessageTimeout` always raises; a returned response is the wrapped one, and only when neither the timeout nor `needException && IsRpcNeedThrowException` applies |
| ClientSender.UnwrapMirrorsRun | Unity/Assets/Scripts/Hotfix/Client/Demo/Main/ClientSenderCompnentSystem.cs:64-75 | the unwrapped response is judged exactly as `Run` judges a response, with the caller's flag |
| ClientSender.CallerFlagOnlyGovernsInnerResponse | Unity/Assets/Scripts/Hotfix/Client/Demo/Main/ClientSenderCompnentSystem.cs:63 | the inner call always uses `needException = true`, so an error to be raised on the wrapper reaches the caller as an exception whatever flag the caller passed |
| ClientSender.ClientSenderCompnent.Destroy | Unity/Assets/Scripts/Hotfix/Client/Demo/Main/ClientSenderCompnentSystem.cs:18-21 | the NetClient fiber, if any, is removed once and the field is cleared |
| ClientSender.ClientSenderCompnent.RemoveFiberAsync | Unity/Assets/Scripts/Hotfix/Client/Demo/Main/ClientSenderCompnentSystem.cs:24-34 | without a fiber nothing is removed; otherwise the field is cleared and the captured id removed exactly once, so a second call removes nothing |
| ClientSender.ClientSenderCompnent.LoginAsync | Unity/Assets/Scripts/Hotfix/Client/Demo/Main/ClientSenderCompnentSystem.cs:37-47 | the created fiber is recorded and its root in this process becomes `netClientActorId`, the destination of a login request carrying this fiber's id, account and password |
| ClientSender.ClientSenderCompnent.Send | Unity/Assets/Scripts/Hotfix/Client/Demo/Main/ClientSenderCompnentSystem.cs:51-56 | the message goes unchanged inside an `A2NetClient_Message` to `netClientActorId` |
| ClientSender.ClientSenderCompnent.Call | Unity/Assets/Scripts/Hotfix/Client/Demo/Main/ClientSenderCompnentSystem.cs:59-63 | the request goes unchanged inside an `A2NetClient_Request` to `netClientActorId`, with the inner `needException` true |
| RouterAddress.Split | Unity/Assets/Scripts/Hotfix/Client/Demo/NetClient/Router/RouterAddressComponentSystem.cs:66 | `Split(':')` gives at least one field, no field holds the separator, and joining the fields gives the text back |
| RouterAddress.SplitJoin | Unity/Assets/Scripts/Hotfix/Client/Demo/NetClient/Router/RouterAddressComponentSystem.cs:66 | splitting joined separator-free fields gives those fields back |
| RouterAddress.FirstTwoFields | Unity/Assets/Scripts/Hotfix/Client/Demo/NetClient/Router/RouterAddressComponentSystem.cs:66 | text joined from at least two fields starts with the first field, the separator and the second field, and the second field ends the text or a separator follows it |
| RouterAddress.ParseEndPoint | Unity/Assets/Scripts/Hotfix/Client/Demo/NetClient/Router/RouterAddressComponentSystem.cs:66-74 | an address with a `:` gives host = the text before the first `:` and port = the text from there up to the next `:` or the end, with the requested IPv6 mapping; without one, `ss[1]` throws |
| RouterAddress.HostPortRoundTrip | Unity/Assets/Scripts/Hotfix/Client/Demo/NetClient/Router/RouterAddressComponentSystem.cs:66-74 | "host:port" reads back as that host and that port |
| RouterAddress.TruncRem | Unity/Assets/Scripts/Hotfix/Client/Demo/NetClient/Router/RouterAddressComponentSystem.cs:64 | C#'s `%`: on a non-negative dividend the mathematical remainder; on a negative one a value in (-n, 0] that differs from the dividend by a multiple of n, so it takes the dividend's sign |
| RouterAddress.SelectRouter | Unity/Assets/Scripts/Hotfix/Client/Demo/NetClient/Router/RouterAddressComponentSystem.cs:64-74 | a non-negative index picks `Routers[index % Count]`; a negative index with a non-zero remainder makes the List indexer throw; a negative multiple of `Count` picks `Routers[0]` |
| RouterAddress.RoundRobinVisitsEachOnce | Unity/Assets/Scripts/Hotfix/Client/Demo/NetClient/Router/RouterAddressComponentSystem.cs:64 | from a non-negative index without overflow, `Count` consecutive choices pick every router, and none twice |
| RouterAddress.RouterAddressComponent.Awake | Unity/Assets/Scripts/Hotfix/Client/Demo/NetClient/Router/RouterAddressComponentSystem.cs:13-17 | host and port are stored verbatim; nothing else changes |
| RouterAddress.RouterAddressComponent.GetAddress | Unity/Assets/Scripts/Hotfix/Client/Demo/NetClient/Router/RouterAddressComponentSystem.cs:56-75 | an empty list gives null and leaves the index; otherwise the router chosen by the old index, with the manager's IPv6 mapping, and the index moves on by exactly one (wrapping) |
| RouterAddress.RouterAddressComponent.GetRealmAddress | Unity/Assets/Scripts/Hotfix/Client/Demo/NetClient/Router/RouterAddressComponentSystem.cs:78-93 | an in-range `account.Mode(Count)` always gives the realm at that index, parsed, and a found realm comes only from an in-range index; never IPv6-mapped, with no state read beyond the realm list; an out-of-range index makes the List indexer throw |
| RouterHelper.SynFlag | Unity/Assets/Scripts/Hotfix/Client/Demo/NetClient/Router/RouterHelper.cs:69 | `RouterSYN` iff the remote id is 0, `RouterReconnectSYN` otherwise |
| RouterHelper.ConnectorId | Unity/Assets/Scripts/Hotfix/Client/Demo/NetClient/Router/RouterHelper.cs:72 | the packed id fits a `long` |
| RouterHelper.ConnectorIdDecodes | Unity/Assets/Scripts/Hotfix/Client/Demo/NetClient/Router/RouterHelper.cs:72 | the high 32 bits of the connector id are `localConn` and the low 32 bits `remoteConn` |
| RouterHelper.ConnectorIdInjective | Unity/Assets/Scripts/Hotfix/Client/Demo/NetClient/Router/RouterHelper.cs:71-73 | distinct pairs of connection ids give distinct connector ids |
| RouterHelper.HeaderRoundTrip | Unity/Assets/Scripts/Hotfix/Client/Demo/NetClient/Router/RouterHelper.cs:82-88 | the first `13 + address length` bytes read back as the flag, `localConn`, `remoteConn`, `connectId` and the address |
| RouterHelper.WriteTo | Unity/Assets/Scripts/Hotfix/Client/Demo/NetClient/Router/RouterHelper.cs:82-85 | a field's bytes are written at its offset and no other byte changes |
| RouterHelper.BuildSendCache | Unity/Assets/Scripts/Hotfix/Client/Demo/NetClient/Router/RouterHelper.cs:77-88 | a 512-byte buffer with the flag at 0, `localConn` at 1, `remoteConn` at 5, `connectId` at 9 and the address from 13; an address longer than 499 bytes makes `Array.Copy` throw |
| RouterHelper.ReturnedConn | Unity/Assets/Scripts/Hotfix/Client/Demo/NetClient/Router/RouterHelper.cs:100-118 | an acknowledged connect returns `localConn`, a timed-out one 0 |
| RouterHelper.ResendLoop | Unity/Assets/Scripts/Hotfix/Client/Demo/NetClient/Router/RouterHelper.cs:93-119 | in every frame a packet goes out iff more than 300 ms passed since the last send; at most 20 sends; the 21st due ends the loop; the first frame with a set flag ends it with no later send |
| RouterHelper.Connect | Unity/Assets/Scripts/Hotfix/Client/Demo/NetClient/Router/RouterHelper.cs:67-119 | the buffer holds the header for this flag and ids; every packet is its first `13 + address length` bytes; a packet goes out in a frame iff one is due, sends are in frame order, at most 20, none after the ending frame; an ack ends the loop at the first set flag, a timeout at the 21st due send, which is not made; nothing is sent when the copy throws |
| RouterHelper.CreateRouterSession | Unity/Assets/Scripts/Hotfix/Client/Demo/NetClient/Router/RouterHelper.cs:16-28 | a zero connection id throws and creates nothing; otherwise a session under that id with a ping and a router check |
| RouterHelper.ConnectOutcomeDecidesSession | Unity/Assets/Scripts/Hotfix/Client/Demo/NetClient/Router/RouterHelper.cs:14-24 | a session is created iff the connect was acknowledged with a non-zero `localConn`, and then under `localConn` |
| LoginHandler.Decide | Unity/Assets/Scripts/Hotfix/Server/Demo/Realm/C2R_LoginHandler.cs:14-53 | the lock check comes first, then empty fields, then an unknown account is registered, a wrong password refused and a matching one accepted; each outcome iff its condition |
| LoginHandler.AccountsAfter | Unity/Assets/Scripts/Hotfix/Server/Demo/Realm/C2R_LoginHandler.cs:36-43 | only a registration writes, exactly the request's account and password, and no other record changes |
| LoginHandler.RegisteredAccountChecksPassword | Unity/Assets/Scripts/Hotfix/Server/Demo/Realm/C2R_LoginHandler.cs:36-53 | after a registration the same password is accepted and any other refused |
| LoginHandler.AcceptedLoginIsStable | Unity/Assets/Scripts/Hotfix/Server/Demo/Realm/C2R_LoginHandler.cs:36-53 | a login that passed the checks is accepted as is the next time |
| LoginHandler.ZoneDB.Save | Unity/Assets/Scripts/Hotfix/Server/Demo/Realm/C2R_LoginHandler.cs:42 | the new account's record is stored |
| LoginHandler.CloseSession | Unity/Assets/Scripts/Hotfix/Server/Demo/Realm/C2R_LoginHandler.cs:72-76 | one more close is scheduled; the lock is untouched |
| LoginHandler.Run | Unity/Assets/Scripts/Hotfix/Server/Demo/Realm/C2R_LoginHandler.cs:11-70 | a refusal sets its error, schedules a close and asks no gate; otherwise the gate for the account is asked, and its key, id and address fill the answer with `Error` untouched, then a close is scheduled; when the gate call raises, the exception propagates, no close is scheduled and the answer is untouched; the lock ends as it began; only a registration writes the database, even on the exception path |

## Left out

- InnerSenderModel.SendInner, InnerSenderModel.Reply, InnerSenderModel.Send, InnerSenderModel.HandleMessage: their own contracts state only that a throw changes nothing and that the counter is untouched. Their routing and dispatch are stated by the lemmas beside them: `CrossProcessRejected`, `SameFiberBypassesQueue`, `OtherFiberEnqueuesOnce`, `DeliveredToMailbox`, `PlainForMissingActorDropped` and `RequestForMissingActorAnswered`.
- InnerSenderModel.HandleAll, InnerSenderModel.Update: their own contracts state only that the counter is untouched. The fetch is stated by `DrainIsBoundedPrefix`, the queue left after a tick by `HandleAllKeepsOwnQueue` and `UpdateLeavesRemainder`, and each envelope's handling by the lemmas about `HandleMessage`.
- InnerSenderModel.CallWithId: its own contract states only that the counter is untouched. Its checks and the resulting state are stated by `CallWithIdRejects`, `DuplicateRpcIdRejected`, `AcceptedCallDoesNotRaise`, `AcceptedCallRegisters` and `SameFiberMissingActorResolvedBeforeTimeout`.
- InnerSenderModel.Call: its own contract states only that one rpc id is consumed. After that it is `CallWithId` with the fresh id, and the lemmas about `CallWithId` apply.
- `MessageQueue` is not shown in the source. It is modelled as one FIFO per registered fiber. Two of its rules are chosen policies: a send to an unregistered fiber is dropped, and `AddQueue` keeps a queue the fiber already has. Its cross-thread locking is not modelled.
- Tasks, `Coroutine()`, the timer and the clock are not modelled. A completion is a record in the `completions` log. The timeout is a separate operation, applied once its wait is over. The warning for calls slower than 200 ms and every log line are left out.
- `ErrorCore.IsRpcNeedThrowException`, `MessageHelper.CreateResponse`, `string.Mode` and `GetLongHashCode` are not part of this model. The first and third are parameters. `CreateResponse` is taken to echo the request's rpc id and carry the error. The hash and `RandomGenerator` values are inputs.
- Mailboxes are a map from instance id to the queued deliveries. Mailbox processing and the release of undelivered messages are outside the sender.
- ClientSender.ClientSenderCompnent.LoginAsync: `netClientActorId` is taken to have instance id 0, the fiber root. The two-argument `ActorId` constructor is not part of this model. The fiber creation and the awaited `NetClient2Main_Login` with its `PlayerId` are not modelled; the created fiber id is an input. The removal of a fiber is recorded, not performed.
- ClientSender.UnwrapResponse: every way the reply can fail to be an `A2NetClient_Response` carrying a response is one `NullReference` failure.
- `GetAllRouter`, `WaitTenMinGetAllRouter` and `Init` are not modelled. They cover the HTTP fetch, JSON decoding, the shuffle, the ten-minute refresh and host resolution. The router and realm lists are given to the constructor.
- `IPAddress.Parse`, `MapToIPv6` and `int.Parse` are library parsing. An endpoint keeps host and port as text, plus whether it is mapped to IPv6. A host or port that these functions would reject is not modelled as an exception.
- The byte order of `WriteTo` and the encoding of `ToByteArray` are not modelled. Buffer cells record which field byte or address byte they hold.
- `GetRouterAddress` only chains `GetAddress` and `Connect`, so it is not modelled as its own member. A null router address passed to the transport is not modelled.
- RouterHelper.Connect: the `RouterConnector` child entity and its acknowledgement callback are not modelled; the flag is an input per frame. The overflow of `long` time arithmetic is not modelled.
- RouterHelper.ResendLoop: a run that never returns is modelled as the given frames running out (`StillWaiting`).
- RouterHelper.CreateRouterSession: `netComponent.Create` and the components' own behaviour are not part of this model.
- LoginHandler.Run: the following are not modelled:
  - the coroutine lock on the account, and the concurrency it guards against;
  - the in-memory `AccountInfosComponent` entity;
  - duplicate database records for one account;
  - database failures;
  - the choice of gate (`RealmGateAddressHelper.GetGate`), which is an input.

  A gate reply that is not a `G2R_GetLoginKey` counts as the call raising.
- The orchestration files, the bootstrap and the UI wiring (`Main2NetClient_LoginHandler`, `LoginHelper`, `RouterConnectorSystem`, `Entry`, `UILobbyComponentSystem`) are not part of this model.
