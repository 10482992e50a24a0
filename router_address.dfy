/**
 * `RouterAddressComponent`: the client's list of routers and realms, the
 * round-robin choice of the next router, and the account-keyed choice of a
 * realm. Each address is text of the form "host:port".
 *
 * Parsing the host into an IP address and the port into a number is library
 * code and is not part of this model: an endpoint keeps the two fields as
 * text, and whether the address is mapped to IPv6.
 */
module RouterAddress {
  import opened ActorTypes

  // ---------------------------------------------------------------------------
  // string.Split(':')
  // ---------------------------------------------------------------------------

  /** Fields joined back with the separator between them. */
  function Join(fields: seq<string>, sep: char): string
    requires |fields| >= 1
    decreases |fields|
  {
    if |fields| == 1 then fields[0] else fields[0] + [sep] + Join(fields[1..], sep)
  }

  /** `s.Split(sep)`: always at least one field, empty fields kept, no field holds the separator. */
  function Split(s: string, sep: char): (fields: seq<string>)
    ensures |fields| >= 1
    ensures forall i :: 0 <= i < |fields| ==> sep !in fields[i]
    ensures Join(fields, sep) == s
    decreases |s|
  {
    if |s| == 0 then [""]
    else
      var rest := Split(s[1..], sep);
      if s[0] == sep then [""] + rest
      else [[s[0]] + rest[0]] + rest[1..]
  }

  lemma {:induction false} SplitPrefix(a: string, t: string, sep: char)
    requires sep !in a
    ensures Split(a + t, sep) == [a + Split(t, sep)[0]] + Split(t, sep)[1..]
    decreases |a|
  {
    if |a| > 0 {
      assert (a + t)[1..] == a[1..] + t;
      SplitPrefix(a[1..], t, sep);
      assert [a[0]] + (a[1..] + Split(t, sep)[0]) == a + Split(t, sep)[0];
    } else {
      assert a + t == t;
      assert "" + Split(t, sep)[0] == Split(t, sep)[0];
      assert [Split(t, sep)[0]] + Split(t, sep)[1..] == Split(t, sep);
    }
  }

  /** Splitting fields that hold no separator gives back exactly those fields. */
  lemma {:induction false} SplitJoin(fields: seq<string>, sep: char)
    requires |fields| >= 1
    requires forall i :: 0 <= i < |fields| ==> sep !in fields[i]
    ensures Split(Join(fields, sep), sep) == fields
    decreases |fields|
  {
    if |fields| == 1 {
      SplitPrefix(fields[0], "", sep);
      assert fields[0] + "" == fields[0];
    } else {
      var rest := Join(fields[1..], sep);
      SplitJoin(fields[1..], sep);
      assert Split([sep] + rest, sep) == [""] + fields[1..] by {
        assert ([sep] + rest)[1..] == rest;
      }
      assert fields[0] + [sep] + rest == fields[0] + ([sep] + rest);
      SplitPrefix(fields[0], [sep] + rest, sep);
      assert fields[0] + "" == fields[0];
      assert [fields[0]] + fields[1..] == fields;
    }
  }

  // ---------------------------------------------------------------------------
  // Endpoints
  // ---------------------------------------------------------------------------

  /** The text of at least two fields starts with the first two, and the second ends the text or a separator follows it. */
  lemma FirstTwoFields(ss: seq<string>, sep: char)
    requires |ss| >= 2
    ensures ss[0] + [sep] + ss[1] <= Join(ss, sep)
    ensures var end := |ss[0]| + 1 + |ss[1]|;
            end == |Join(ss, sep)| || (end < |Join(ss, sep)| && Join(ss, sep)[end] == sep)
  {
    var tail := Join(ss[1..], sep);
    assert Join(ss, sep) == ss[0] + [sep] + tail;
    if |ss| == 2 {
      assert tail == ss[1];
    } else {
      assert tail == ss[1] + [sep] + Join(ss[2..], sep) by {
        assert ss[1..][1..] == ss[2..];
      }
    }
  }

  datatype EndPoint = EndPoint(host: string, port: string, mapToIPv6: bool)

  /** What `GetAddress` and `GetRealmAddress` give: null, an endpoint, or an exception. */
  datatype AddressResult = NoRouter | Found(endPoint: EndPoint) | Threw(failure: Failure)

  /** `ss = address.Split(':')`, then `ss[0]` and `ss[1]`: fewer than two fields is an index error. */
  function ParseEndPoint(address: string, mapToIPv6: bool): (r: AddressResult)
    ensures r.Found? || r == Threw(IndexOutOfRange)
    ensures r.Found? <==> ':' in address
    ensures r.Found? ==> ':' !in r.endPoint.host && ':' !in r.endPoint.port && r.endPoint.mapToIPv6 == mapToIPv6
    ensures r.Found? ==> r.endPoint.host + [':'] + r.endPoint.port <= address
    ensures r.Found? ==> var end := |r.endPoint.host| + 1 + |r.endPoint.port|;
                         end == |address| || (end < |address| && address[end] == ':')
  {
    var ss := Split(address, ':');
    assert |ss| >= 2 <==> ':' in address by {
      if |ss| == 1 { assert Join(ss, ':') == ss[0]; }
      else { assert Join(ss, ':') == ss[0] + [':'] + Join(ss[1..], ':'); assert address[|ss[0]|] == ':'; }
    }
    if |ss| < 2 then Threw(IndexOutOfRange)
    else
      FirstTwoFields(ss, ':');
      Found(EndPoint(ss[0], ss[1], mapToIPv6))
  }

  /** "host:port" is read back as that host and that port. */
  lemma HostPortRoundTrip(host: string, port: string, mapToIPv6: bool)
    requires ':' !in host && ':' !in port
    ensures ParseEndPoint(host + ":" + port, mapToIPv6) == Found(EndPoint(host, port, mapToIPv6))
  {
    var fields := [host, port];
    assert Join(fields, ':') == host + ":" + port by {
      assert Join(fields[1..], ':') == port;
    }
    SplitJoin(fields, ':');
  }

  // ---------------------------------------------------------------------------
  // Round robin
  // ---------------------------------------------------------------------------

  /** C#'s `%` on `int`: the remainder takes the sign of the dividend. */
  function TruncRem(a: int, n: int): (r: int)
    requires n > 0
    ensures a >= 0 ==> r == a % n
    ensures a < 0 ==> -n < r <= 0 && (a - r) % n == 0
    ensures -n < r < n
  {
    if a >= 0 then a % n
    else
      var m := -a;
      assert m == (m / n) * n + m % n;
      assert a + m % n == -(m / n) * n;
      ModUnique(a + m % n, n, -(m / n), 0);
      -(m % n)
  }

  /**
   * `Info.Routers[index % Count]` for a non-empty list: a negative slot makes
   * the List indexer throw, while a negative multiple of Count gives slot 0.
   */
  function SelectRouter(routers: seq<string>, index: int32, mapToIPv6: bool): (r: AddressResult)
    requires |routers| > 0
    ensures index >= 0 ==> r == ParseEndPoint(routers[index % |routers|], mapToIPv6)
    ensures index < 0 && TruncRem(index, |routers|) != 0 ==> r == Threw(ArgumentOutOfRange)
    ensures index < 0 && TruncRem(index, |routers|) == 0 ==> r == ParseEndPoint(routers[0], mapToIPv6)
  {
    var slot := TruncRem(index, |routers|);
    if slot < 0 then Threw(ArgumentOutOfRange) else ParseEndPoint(routers[slot], mapToIPv6)
  }

  lemma {:induction false} MulAtLeast(d: int, n: int)
    requires d >= 1 && n > 0
    ensures d * n >= n
    decreases d
  {
    if d > 1 {
      MulAtLeast(d - 1, n);
      assert d * n == (d - 1) * n + n;
    }
  }

  /** Quotient and remainder are unique: `a == q * n + r` with `0 <= r < n` fixes `a % n`. */
  lemma ModUnique(a: int, n: int, q: int, r: int)
    requires n > 0 && 0 <= r < n && a == q * n + r
    ensures a % n == r
  {
    var q0, r0 := a / n, a % n;
    assert (q - q0) * n == r0 - r;
    if q > q0 {
      MulAtLeast(q - q0, n);
      assert false;
    }
    if q < q0 {
      MulAtLeast(q0 - q, n);
      assert false;
    }
  }

  /** The slot chosen by the `k`-th call after the index was `start`. */
  function NthSlot(start: int, k: int, n: int): int
    requires n > 0
  {
    TruncRem(start + k, n)
  }

  /** Which of the `n` calls after `start` picks slot `j`. */
  function CallFor(start: int, j: int, n: int): int
    requires n > 0
  {
    if j >= start % n then j - start % n else j - start % n + n
  }

  /**
   * Starting from a non-negative index that does not overflow, `n` consecutive
   * choices over `n` routers pick every slot (slot `j` at call `CallFor(start, j, n)`),
   * and no slot twice.
   */
  lemma RoundRobinVisitsEachOnce(start: int, n: int)
    requires n > 0 && 0 <= start && start + n - 1 <= Int32Max
    ensures forall j :: 0 <= j < n ==> 0 <= CallFor(start, j, n) < n && NthSlot(start, CallFor(start, j, n), n) == j
    ensures forall k1, k2 :: 0 <= k1 < k2 < n ==> NthSlot(start, k1, n) != NthSlot(start, k2, n)
  {
    var q, r := start / n, start % n;
    forall k | 0 <= k < n
      ensures NthSlot(start, k, n) == if r + k < n then r + k else r + k - n
    {
      if r + k < n {
        ModUnique(start + k, n, q, r + k);
      } else {
        assert start + k == (q + 1) * n + (r + k - n);
        ModUnique(start + k, n, q + 1, r + k - n);
      }
    }
  }

  /** The component; `Info` is what the router manager's answer left in it. */
  class RouterAddressComponent {
    var RouterManagerHost: string
    var RouterManagerPort: int
    /** `RouterManagerIPAddress.AddressFamily == InterNetworkV6`. */
    var managerIsIPv6: bool
    /** `Info.Routers` and `Info.Realms`. */
    var routers: seq<string>
    var realms: seq<string>
    var RouterIndex: int32

    /** The component once `Init` has fetched the router manager's answer (the fetch is not modelled). */
    constructor (routers: seq<string>, realms: seq<string>, managerIsIPv6: bool)
      ensures this.routers == routers && this.realms == realms && this.managerIsIPv6 == managerIsIPv6
      ensures RouterIndex == 0
    {
      this.routers := routers;
      this.realms := realms;
      this.managerIsIPv6 := managerIsIPv6;
      RouterIndex := 0;
      RouterManagerHost := "";
      RouterManagerPort := 0;
    }

    /** `Awake(address, port)`: host and port are kept as given. */
    method Awake(address: string, port: int)
      modifies this
      ensures RouterManagerHost == address && RouterManagerPort == port
      ensures routers == old(routers) && realms == old(realms) && RouterIndex == old(RouterIndex)
      ensures managerIsIPv6 == old(managerIsIPv6)
    {
      RouterManagerHost := address;
      RouterManagerPort := port;
    }

    /**
     * `GetAddress`: null for an empty list and nothing changes; otherwise the
     * router at the current index (the index moves on by one, wrapping as a C#
     * `int`), mapped to IPv6 when the router manager's address is IPv6.
     */
    method GetAddress() returns (r: AddressResult)
      modifies this
      ensures |routers| == 0 ==> r == NoRouter && RouterIndex == old(RouterIndex)
      ensures |routers| > 0 ==>
        RouterIndex == Inc32(old(RouterIndex)) && r == SelectRouter(routers, old(RouterIndex), managerIsIPv6)
      ensures routers == old(routers) && realms == old(realms) && managerIsIPv6 == old(managerIsIPv6)
      ensures RouterManagerHost == old(RouterManagerHost) && RouterManagerPort == old(RouterManagerPort)
    {
      if |routers| == 0 {
        return NoRouter;
      }
      var index := RouterIndex;
      RouterIndex := Inc32(RouterIndex);
      var slot := TruncRem(index, |routers|);
      if slot < 0 {
        return Threw(ArgumentOutOfRange);
      }
      var ss := Split(routers[slot], ':');
      if |ss| < 2 {
        return Threw(IndexOutOfRange);
      }
      r := Found(EndPoint(ss[0], ss[1], managerIsIPv6));
    }

    /**
     * `GetRealmAddress`: the realm at `account.Mode(Count)` (`mode` stands for
     * that hash, which is not part of this model), never mapped to IPv6.
     */
    function GetRealmAddress(account: string, mode: (string, int) -> int): (r: AddressResult)
      reads this
      ensures r != NoRouter
      ensures r.Found? ==> !r.endPoint.mapToIPv6
      ensures r.Found? ==> 0 <= mode(account, |realms|) < |realms|
      ensures 0 <= mode(account, |realms|) < |realms| ==> r == ParseEndPoint(realms[mode(account, |realms|)], false)
      ensures !(0 <= mode(account, |realms|) < |realms|) ==> r == Threw(ArgumentOutOfRange)
    {
      var v := mode(account, |realms|);
      if 0 <= v < |realms| then ParseEndPoint(realms[v], false) else Threw(ArgumentOutOfRange)
    }
  }
}
