/**
 * `RouterHelper`: how a client opens a session through a router. `Connect`
 * packs the two connection ids into the connector id, writes the SYN header
 * into a 512-byte send buffer and resends it every 300 ms until the router
 * acknowledges or 20 sends have gone unanswered; `CreateRouterSession`
 * refuses a zero connection id.
 *
 * The byte order of `WriteTo` and the encoding of the address text are
 * library code and not part of this model: a buffer cell records which
 * header field (and which byte of it) or which address byte it holds.
 * The frame clock and the acknowledgement flag the router's answer sets are
 * inputs, one `Frame` per turn of the connect loop.
 */
module RouterHelper {
  import opened ActorTypes
  import RouterAddress

  // ---------------------------------------------------------------------------
  // SYN flag and connector id
  // ---------------------------------------------------------------------------

  /**
   * `KcpProtocalType.RouterSYN` and `RouterReconnectSYN`. KcpProtocalType is
   * not part of this model: only the fact that the two differ is used.
   */
  const RouterSYN: int := 7
  const RouterReconnectSYN: int := 5

  /** A first connection (no remote id yet) sends `RouterSYN`, a reconnection `RouterReconnectSYN`. */
  function SynFlag(remoteConn: uint32): (flag: int)
    ensures flag == RouterSYN <==> remoteConn == 0
    ensures flag == RouterReconnectSYN <==> remoteConn != 0
  {
    if remoteConn == 0 then RouterSYN else RouterReconnectSYN
  }

  const Two32: int := 0x1_0000_0000
  const Two63: int := 0x8000_0000_0000_0000
  const Two64: int := 0x1_0000_0000_0000_0000

  /**
   * `(long)(((ulong)localConn << 32) | remoteConn)`: the shifted local id and
   * the remote id occupy disjoint bits, so the `|` is an addition; the cast
   * to `long` reads the top bit as the sign.
   */
  function ConnectorId(localConn: uint32, remoteConn: uint32): (id: int)
    ensures -Two63 <= id < Two63
  {
    var u := localConn * Two32 + remoteConn;
    if u >= Two63 then u - Two64 else u
  }

  /** The 64 bits of a `long` read as an unsigned number. */
  function AsUnsigned(id: int): int {
    if id < 0 then id + Two64 else id
  }

  /** The high and the low 32 bits of a connector id. */
  function HighConn(id: int): int { AsUnsigned(id) / Two32 }
  function LowConn(id: int): int { AsUnsigned(id) % Two32 }

  /** The high half of the connector id is the local id and the low half the remote id. */
  lemma ConnectorIdDecodes(localConn: uint32, remoteConn: uint32)
    ensures HighConn(ConnectorId(localConn, remoteConn)) == localConn
    ensures LowConn(ConnectorId(localConn, remoteConn)) == remoteConn
  {
    var u := localConn * Two32 + remoteConn;
    assert AsUnsigned(ConnectorId(localConn, remoteConn)) == u;
    RouterAddress.ModUnique(u, Two32, localConn, remoteConn);
    assert u / Two32 == localConn;
  }

  /** Distinct pairs of connection ids give distinct connectors. */
  lemma ConnectorIdInjective(l1: uint32, r1: uint32, l2: uint32, r2: uint32)
    requires ConnectorId(l1, r1) == ConnectorId(l2, r2)
    ensures l1 == l2 && r1 == r2
  {
    ConnectorIdDecodes(l1, r1);
    ConnectorIdDecodes(l2, r2);
  }

  // ---------------------------------------------------------------------------
  // The SYN header in the send buffer
  // ---------------------------------------------------------------------------

  datatype HeaderField = Syn | LocalConn | RemoteConn | ConnectId

  /** One byte of the send buffer: never written, byte `k` of a header field holding `value`, or an address byte. */
  datatype Cell = Blank | FieldByte(field: HeaderField, value: int, k: int) | AddressByte(b: bv8)

  const BufferSize: int := 512
  /** Offsets of the header fields and of the address. */
  const SynOffset: int := 0
  const LocalConnOffset: int := 1
  const RemoteConnOffset: int := 5
  const ConnectIdOffset: int := 9
  const AddressOffset: int := 13

  /** What a send buffer holds once the header and the address are written. */
  ghost predicate Layout(cells: seq<Cell>, synFlag: int, localConn: uint32, remoteConn: uint32,
                         connectId: uint32, address: seq<bv8>)
  {
    && |cells| == BufferSize && AddressOffset + |address| <= BufferSize
    && cells[SynOffset] == FieldByte(Syn, synFlag, 0)
    && (forall i :: LocalConnOffset <= i < RemoteConnOffset ==> cells[i] == FieldByte(LocalConn, localConn, i - LocalConnOffset))
    && (forall i :: RemoteConnOffset <= i < ConnectIdOffset ==> cells[i] == FieldByte(RemoteConn, remoteConn, i - RemoteConnOffset))
    && (forall i :: ConnectIdOffset <= i < AddressOffset ==> cells[i] == FieldByte(ConnectId, connectId, i - ConnectIdOffset))
    && (forall i :: 0 <= i < |address| ==> cells[AddressOffset + i] == AddressByte(address[i]))
    && (forall i :: AddressOffset + |address| <= i < BufferSize ==> cells[i] == Blank)
  }

  /** The fields a router reads back from a SYN packet. */
  datatype Header = Header(synFlag: int, localConn: int, remoteConn: int, connectId: int, address: seq<bv8>)

  /** The value of the `size`-byte field at `offset`, if every byte of it belongs to that field. */
  function ReadField(cells: seq<Cell>, offset: nat, size: nat, field: HeaderField): (r: Option<int>)
    requires 0 < size && offset + size <= |cells|
    ensures r.Some? ==> forall i :: offset <= i < offset + size ==> cells[i] == FieldByte(field, r.value, i - offset)
  {
    var c := cells[offset];
    if c.FieldByte? && forall i :: offset <= i < offset + size ==> cells[i] == FieldByte(field, c.value, i - offset)
    then Some(c.value) else None
  }

  /** The address bytes, if every cell holds one. */
  function ReadAddress(cells: seq<Cell>): (r: Option<seq<bv8>>)
    ensures r.Some? ==> |r.value| == |cells| && forall i :: 0 <= i < |cells| ==> cells[i] == AddressByte(r.value[i])
  {
    if forall i :: 0 <= i < |cells| ==> cells[i].AddressByte? then Some(seq(|cells|, i requires 0 <= i < |cells| => cells[i].b))
    else None
  }

  /** How the receiving side reads the first `13 + address length` bytes of a SYN packet. */
  function ParseHeader(packet: seq<Cell>): Option<Header> {
    if |packet| < AddressOffset then None
    else
      var syn := ReadField(packet, SynOffset, 1, Syn);
      var local := ReadField(packet, LocalConnOffset, 4, LocalConn);
      var remote := ReadField(packet, RemoteConnOffset, 4, RemoteConn);
      var connect := ReadField(packet, ConnectIdOffset, 4, ConnectId);
      var address := ReadAddress(packet[AddressOffset..]);
      if syn.Some? && local.Some? && remote.Some? && connect.Some? && address.Some?
      then Some(Header(syn.value, local.value, remote.value, connect.value, address.value))
      else None
  }

  /** The bytes `Connect` sends read back as exactly the fields it wrote. */
  lemma HeaderRoundTrip(cells: seq<Cell>, synFlag: int, localConn: uint32, remoteConn: uint32,
                        connectId: uint32, address: seq<bv8>)
    requires Layout(cells, synFlag, localConn, remoteConn, connectId, address)
    ensures ParseHeader(cells[..AddressOffset + |address|]) == Some(Header(synFlag, localConn, remoteConn, connectId, address))
  {
    var packet := cells[..AddressOffset + |address|];
    assert packet[SynOffset] == cells[SynOffset];
    assert ReadField(packet, LocalConnOffset, 4, LocalConn) == Some(localConn) by {
      assert packet[LocalConnOffset] == cells[LocalConnOffset];
    }
    assert ReadField(packet, RemoteConnOffset, 4, RemoteConn) == Some(remoteConn) by {
      assert packet[RemoteConnOffset] == cells[RemoteConnOffset];
    }
    assert ReadField(packet, ConnectIdOffset, 4, ConnectId) == Some(connectId) by {
      assert packet[ConnectIdOffset] == cells[ConnectIdOffset];
    }
    var rest := packet[AddressOffset..];
    forall i | 0 <= i < |rest|
      ensures rest[i] == AddressByte(address[i])
    {
      assert rest[i] == cells[AddressOffset + i];
    }
    assert ReadAddress(rest).value == address;
  }

  /** `sendCache.WriteTo(offset, value)` for a field of `size` bytes. */
  method WriteTo(sendCache: array<Cell>, offset: int, size: int, field: HeaderField, value: int)
    requires 0 <= offset && 0 < size && offset + size <= sendCache.Length
    modifies sendCache
    ensures forall i :: offset <= i < offset + size ==> sendCache[i] == FieldByte(field, value, i - offset)
    ensures forall i :: 0 <= i < sendCache.Length && !(offset <= i < offset + size) ==> sendCache[i] == old(sendCache[i])
  {
    var k := 0;
    while k < size
      invariant 0 <= k <= size
      invariant forall i :: offset <= i < offset + k ==> sendCache[i] == FieldByte(field, value, i - offset)
      invariant forall i :: 0 <= i < sendCache.Length && !(offset <= i < offset + k) ==> sendCache[i] == old(sendCache[i])
    {
      sendCache[offset + k] := FieldByte(field, value, k);
      k := k + 1;
    }
  }

  /**
   * The buffer of `Connect`: a fresh 512-byte array, the four header fields,
   * then `Array.Copy` of the address to offset 13, which throws (`copied`
   * false, nothing copied) when the address does not fit.
   */
  method BuildSendCache(synFlag: int, localConn: uint32, remoteConn: uint32, connectId: uint32, address: seq<bv8>)
    returns (sendCache: array<Cell>, copied: bool)
    ensures copied <==> AddressOffset + |address| <= BufferSize
    ensures copied ==> Layout(sendCache[..], synFlag, localConn, remoteConn, connectId, address)
    ensures !copied ==> Layout(sendCache[..], synFlag, localConn, remoteConn, connectId, [])
  {
    sendCache := new Cell[BufferSize](_ => Blank);
    WriteTo(sendCache, SynOffset, 1, Syn, synFlag);
    WriteTo(sendCache, LocalConnOffset, 4, LocalConn, localConn);
    WriteTo(sendCache, RemoteConnOffset, 4, RemoteConn, remoteConn);
    WriteTo(sendCache, ConnectIdOffset, 4, ConnectId, connectId);
    if AddressOffset + |address| > BufferSize {
      return sendCache, false;
    }
    ghost var header := sendCache[..];
    var i := 0;
    while i < |address|
      invariant 0 <= i <= |address|
      invariant forall j :: 0 <= j < AddressOffset ==> sendCache[j] == header[j]
      invariant forall j :: 0 <= j < i ==> sendCache[AddressOffset + j] == AddressByte(address[j])
      invariant forall j :: AddressOffset + i <= j < BufferSize ==> sendCache[j] == Blank
    {
      sendCache[AddressOffset + i] := AddressByte(address[i]);
      i := i + 1;
    }
    copied := true;
  }

  // ---------------------------------------------------------------------------
  // The connect loop
  // ---------------------------------------------------------------------------

  /** One turn of the loop: `ClientFrameTime()` at its top, `routerConnector.Flag` after the frame wait. */
  datatype Frame = Frame(now: int, flag: int)

  /**
   * How `Connect` ends: acknowledged in a frame (returns `localConn`), out of
   * sends when a 21st fell due in a frame (returns 0), still waiting when the
   * given frames run out, or `Array.Copy` threw.
   */
  datatype ConnectOutcome = Acked(frame: nat) | TimedOut(frame: nat) | StillWaiting | CopyThrew

  const MaxSends: int := 20
  const ResendInterval: int := 300

  /** What `Connect` returns, when it returns. */
  function ReturnedConn(outcome: ConnectOutcome, localConn: uint32): (r: Option<uint32>)
    ensures outcome.Acked? ==> r == Some(localConn)
    ensures outcome.TimedOut? ==> r == Some(0)
    ensures r.None? <==> outcome == StillWaiting || outcome == CopyThrew
  {
    match outcome
    case Acked(_) => Some(localConn)
    case TimedOut(_) => Some(0)
    case _ => None
  }

  /** `lastSendTimer` as seen in frame `j`: the time of the last send in an earlier frame, or 0. */
  function LastSendBefore(frames: seq<Frame>, sends: seq<nat>, j: int): int
    requires forall i :: 0 <= i < |sends| ==> sends[i] < |frames|
  {
    if |sends| == 0 then 0
    else if sends[|sends| - 1] < j then frames[sends[|sends| - 1]].now
    else LastSendBefore(frames, sends[..|sends| - 1], j)
  }

  /** Whether a packet is due in frame `j`: more than 300 ms since `lastSendTimer`. */
  ghost predicate SendDue(frames: seq<Frame>, sends: seq<nat>, j: nat)
    requires j < |frames|
    requires forall i :: 0 <= i < |sends| ==> sends[i] < |frames|
  {
    frames[j].now - LastSendBefore(frames, sends, j) > ResendInterval
  }

  /** The frames `Connect` went through without returning in them. */
  function FramesPassed(outcome: ConnectOutcome, frames: seq<Frame>): int {
    match outcome
    case Acked(f) => f
    case TimedOut(f) => f
    case _ => |frames|
  }

  /**
   * The `while (true)` loop of `Connect`: in each frame a packet goes out
   * exactly when one is due (20 at most; the 21st due ends the call with 0),
   * and the first frame whose flag is set ends it with `localConn`.
   * `sends` lists the frames in which a packet went out.
   */
  method ResendLoop(frames: seq<Frame>) returns (outcome: ConnectOutcome, sends: seq<nat>)
    ensures outcome != CopyThrew
    ensures 0 <= FramesPassed(outcome, frames) <= |frames|
    ensures outcome.Acked? || outcome.TimedOut? ==> outcome.frame < |frames|
    ensures |sends| <= MaxSends
    ensures forall i :: 0 <= i < |sends| ==> sends[i] <= FramesPassed(outcome, frames) && sends[i] < |frames|
    ensures forall i, j :: 0 <= i < j < |sends| ==> sends[i] < sends[j]
    ensures forall j :: 0 <= j < FramesPassed(outcome, frames) ==> frames[j].flag == 0
    ensures forall j :: 0 <= j < FramesPassed(outcome, frames) ==> (j in sends <==> SendDue(frames, sends, j))
    ensures outcome.Acked? ==>
              frames[outcome.frame].flag != 0 && (outcome.frame in sends <==> SendDue(frames, sends, outcome.frame))
    ensures outcome.TimedOut? ==>
              |sends| == MaxSends && SendDue(frames, sends, outcome.frame) && outcome.frame !in sends
  {
    var count := MaxSends;
    var lastSendTimer := 0;
    sends := [];
    var n := 0;
    while n < |frames|
      invariant 0 <= n <= |frames|
      invariant 0 <= count <= MaxSends && |sends| == MaxSends - count
      invariant forall i :: 0 <= i < |sends| ==> sends[i] < n
      invariant forall i, j :: 0 <= i < j < |sends| ==> sends[i] < sends[j]
      invariant lastSendTimer == LastSendBefore(frames, sends, n)
      invariant forall j :: 0 <= j < n ==> (j in sends <==> SendDue(frames, sends, j))
      invariant forall j :: 0 <= j < n ==> frames[j].flag == 0
    {
      var timeNow := frames[n].now;
      if timeNow - lastSendTimer > ResendInterval {
        count := count - 1;
        if count < 0 {
          return TimedOut(n), sends;
        }
        lastSendTimer := timeNow;
        SendStep(frames, sends, n);
        sends := sends + [n];
      } else {
        assert n !in sends;
      }
      if frames[n].flag != 0 {
        return Acked(n), sends;
      }
      n := n + 1;
    }
    outcome := StillWaiting;
  }

  /**
   * `Connect`: builds the buffer (an address too long for it makes
   * `Array.Copy` throw before anything is sent), then runs the resend loop;
   * every packet is the first `13 + address length` bytes of the buffer.
   */
  method Connect(localConn: uint32, remoteConn: uint32, connectId: uint32, address: seq<bv8>, frames: seq<Frame>)
    returns (outcome: ConnectOutcome, sendCache: array<Cell>, sentLength: int, sends: seq<nat>)
    ensures outcome == CopyThrew <==> AddressOffset + |address| > BufferSize
    ensures outcome == CopyThrew ==> sends == []
    ensures outcome != CopyThrew ==> Layout(sendCache[..], SynFlag(remoteConn), localConn, remoteConn, connectId, address)
    ensures sentLength == AddressOffset + |address|
    ensures |sends| <= MaxSends
    ensures outcome != CopyThrew ==> 0 <= FramesPassed(outcome, frames) <= |frames|
    ensures forall i :: 0 <= i < |sends| ==> sends[i] < |frames|
    ensures outcome != CopyThrew ==> forall i :: 0 <= i < |sends| ==> sends[i] <= FramesPassed(outcome, frames)
    ensures forall i, j :: 0 <= i < j < |sends| ==> sends[i] < sends[j]
    ensures outcome != CopyThrew ==> forall j :: 0 <= j < FramesPassed(outcome, frames) ==>
              frames[j].flag == 0 && (j in sends <==> SendDue(frames, sends, j))
    ensures outcome.Acked? ==> outcome.frame < |frames| && frames[outcome.frame].flag != 0
    ensures outcome.Acked? ==> (outcome.frame in sends <==> SendDue(frames, sends, outcome.frame))
    ensures outcome.TimedOut? ==>
              outcome.frame < |frames| && |sends| == MaxSends && SendDue(frames, sends, outcome.frame)
    ensures outcome.TimedOut? ==> outcome.frame !in sends
  {
    var synFlag := SynFlag(remoteConn);
    var copied;
    sendCache, copied := BuildSendCache(synFlag, localConn, remoteConn, connectId, address);
    sentLength := AddressOffset + |address|;
    if !copied {
      return CopyThrew, sendCache, sentLength, [];
    }
    outcome, sends := ResendLoop(frames);
  }

  /** Recording a send in frame `n` leaves `lastSendTimer` of earlier frames as it was, and is the timer of later ones. */
  lemma SendKeepsEarlierDecisions(frames: seq<Frame>, sends: seq<nat>, n: nat)
    requires n < |frames|
    requires forall i :: 0 <= i < |sends| ==> sends[i] < n
    ensures forall j :: j <= n ==> LastSendBefore(frames, sends + [n], j) == LastSendBefore(frames, sends, j)
    ensures LastSendBefore(frames, sends + [n], n + 1) == frames[n].now
  {
    assert (sends + [n])[..|sends|] == sends;
  }

  /** A send in frame `n`, when one is due there, keeps every earlier decision and makes frame `n` a sending frame. */
  lemma SendStep(frames: seq<Frame>, sends: seq<nat>, n: nat)
    requires n < |frames|
    requires forall i :: 0 <= i < |sends| ==> sends[i] < n
    requires forall j :: 0 <= j < n ==> (j in sends <==> SendDue(frames, sends, j))
    requires SendDue(frames, sends, n)
    ensures forall j :: 0 <= j <= n ==> (j in sends + [n] <==> SendDue(frames, sends + [n], j))
    ensures LastSendBefore(frames, sends + [n], n + 1) == frames[n].now
  {
    SendKeepsEarlierDecisions(frames, sends, n);
    forall j | 0 <= j <= n
      ensures j in sends + [n] <==> SendDue(frames, sends + [n], j)
    {
      assert LastSendBefore(frames, sends + [n], j) == LastSendBefore(frames, sends, j);
      if j < n {
        assert j in sends + [n] <==> j in sends;
      }
    }
  }

  // ---------------------------------------------------------------------------
  // CreateRouterSession
  // ---------------------------------------------------------------------------

  datatype SessionComponent = PingComponent | RouterCheckComponent

  /** A session through a router: `netComponent.Create(routerAddress, address, recvLocalConn)` and its components. */
  datatype RouterSession = RouterSession(id: uint32, routerAddress: RouterAddress.EndPoint,
                                         realAddress: RouterAddress.EndPoint, components: seq<SessionComponent>)

  datatype SessionResult = GetRouterFail | Created(session: RouterSession)

  /**
   * `CreateRouterSession` once `GetRouterAddress` has answered: a zero
   * connection id throws "get router fail" and creates nothing; otherwise a
   * session under that id with a ping and a router check.
   */
  function CreateRouterSession(recvLocalConn: uint32, routerAddress: RouterAddress.EndPoint,
                               realAddress: RouterAddress.EndPoint): (r: SessionResult)
    ensures r == GetRouterFail <==> recvLocalConn == 0
    ensures r.Created? ==> r.session.id == recvLocalConn && r.session.routerAddress == routerAddress
                           && r.session.realAddress == realAddress
    ensures r.Created? ==> PingComponent in r.session.components && RouterCheckComponent in r.session.components
  {
    if recvLocalConn == 0 then GetRouterFail
    else Created(RouterSession(recvLocalConn, routerAddress, realAddress, [PingComponent, RouterCheckComponent]))
  }

  /**
   * A connect that ran out of sends ends in "get router fail"; an
   * acknowledged one opens the session under `localConn`, unless `localConn`
   * is itself 0, which the zero check cannot tell from a timeout.
   */
  lemma ConnectOutcomeDecidesSession(outcome: ConnectOutcome, localConn: uint32,
                                     routerAddress: RouterAddress.EndPoint, realAddress: RouterAddress.EndPoint)
    requires outcome.Acked? || outcome.TimedOut?
    ensures var recv := ReturnedConn(outcome, localConn).value;
            CreateRouterSession(recv, routerAddress, realAddress).Created?
            <==> outcome.Acked? && localConn != 0
    ensures outcome.Acked? && localConn != 0 ==>
            CreateRouterSession(localConn, routerAddress, realAddress).session.id == localConn
  {
  }
}
