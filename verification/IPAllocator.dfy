/** The mutable allocator, proved against AllocatorSpec. */
module IPAllocators {
  import opened Bytes
  import opened Subnets
  import opened AllocatorSpec

  // ---------- Keys of the map of addresses in use and the numbers they stand for ----------

  predicate IsKey(key: seq<byte>, n: nat) {
    Canon(key) == key && |Expand(key, n)| == n
  }

  function Numbers(keys: set<seq<byte>>, n: nat): set<nat> {
    set k | k in keys :: Value(Expand(k, n))
  }

  lemma KeyIsNumber(keys: set<seq<byte>>, ip: seq<byte>, n: nat)
    requires forall k :: k in keys ==> IsKey(k, n)
    requires NumberOf(ip, n).Some?
    ensures Canon(ip) in keys <==> NumberOf(ip, n).value in Numbers(keys, n)
  {
    var x := NumberOf(ip, n).value;
    if x in Numbers(keys, n) {
      var k :| k in keys && Value(Expand(k, n)) == x;
      SameIPIsSameNumber(ip, k, n);
    }
  }

  lemma CanonIsKey(ip: seq<byte>, n: nat)
    requires NumberOf(ip, n).Some?
    ensures IsKey(Canon(ip), n)
  {
    CanonExpand(ip, n);
    if IsMapped(ip) {
      assert |Canon(ip)| == 4;
    }
  }

  lemma KeyNumberIs(k: seq<byte>, n: nat)
    requires IsKey(k, n)
    ensures NumberOf(k, n) == Some(Value(Expand(k, n)))
  {
  }

  lemma {:induction false} NumbersCount(keys: set<seq<byte>>, n: nat)
    requires forall k :: k in keys ==> IsKey(k, n)
    ensures |Numbers(keys, n)| == |keys|
    decreases keys
  {
    if keys != {} {
      var k :| k in keys;
      var rest := keys - {k};
      var x := Value(Expand(k, n));
      NumbersCount(rest, n);
      KeyNumberIs(k, n);
      KeyIsNumber(rest, k, n);
      assert Numbers(keys, n) == Numbers(rest, n) + {x};
    }
  }

  lemma NumbersAdd(keys: set<seq<byte>>, ip: seq<byte>, n: nat)
    requires NumberOf(ip, n).Some?
    ensures IsKey(Canon(ip), n)
    ensures Numbers(keys + {Canon(ip)}, n) == Numbers(keys, n) + {NumberOf(ip, n).value}
  {
    CanonIsKey(ip, n);
    assert Value(Expand(Canon(ip), n)) == NumberOf(ip, n).value;
  }

  lemma NumbersRemove(keys: set<seq<byte>>, ip: seq<byte>, n: nat)
    requires forall k :: k in keys ==> IsKey(k, n)
    requires NumberOf(ip, n).Some? && Canon(ip) in keys
    ensures NumberOf(ip, n).value in Numbers(keys, n)
    ensures Numbers(keys - {Canon(ip)}, n) == Numbers(keys, n) - {NumberOf(ip, n).value}
  {
    KeyIsNumber(keys - {Canon(ip)}, ip, n);
    NumbersAdd(keys - {Canon(ip)}, ip, n);
    assert keys == keys - {Canon(ip)} + {Canon(ip)};
  }

  lemma {:induction false} OrNotAt(net: seq<byte>, mask: seq<byte>, i: nat)
    requires |net| == |mask| && i < |net|
    ensures OrNot(net, mask)[i] == OrByte(net[i], Not(mask[i]))
  {
    if i < |net| - 1 {
      OrNotAt(net[..|net| - 1], mask[..|net| - 1], i);
    }
  }

  /** AllocateSpecificIP's success and its three errors. */
  datatype SpecificResult = Allocated | NotInSubnet | NetworkOrBroadcast | AlreadyAllocated

  /** A nil subnet is an error. */
  method NewIPAllocator(subnet: Option<Subnet>) returns (a: IPAllocator?)
    ensures a == null <==> subnet.None?
    ensures a != null ==>
              fresh(a) && a.Valid() && Some(a.subnet) == subnet && a.State() == Init(NetOf(a.subnet))
  {
    match subnet
    case None => return null;
    case Some(sub) => a := new IPAllocator(sub);
  }

  class IPAllocator {
    const subnet: Subnet
    var inUse: map<seq<byte>, bool>
    var nextIP: seq<byte>

    ghost predicate Valid()
      reads this
    {
      && |nextIP| == |subnet.ip|
      && (forall k :: k in inUse ==> inUse[k] && IsKey(k, |subnet.ip|))
    }

    ghost function State(): AllocState
      requires Valid()
      reads this
    {
      AllocState(Value(nextIP), Numbers(inUse.Keys, |subnet.ip|))
    }

    constructor (subnet: Subnet)
      ensures Valid() && this.subnet == subnet
      ensures State() == Init(NetOf(subnet))
    {
      this.subnet := subnet;
      inUse := map[];
      var firstIP := FirstUsable(subnet.ip);
      IncIsSucc(subnet.ip);
      nextIP := firstIP;
    }

    /** Copies the address and runs the carry loop on the copy. */
    static method IncrementIP(ip: seq<byte>) returns (r: seq<byte>)
      ensures |r| == |ip| && Value(r) == Succ(Value(ip), Pow256(|ip|))
      ensures r == Inc(ip)
    {
      var copy := new byte[|ip|](i requires 0 <= i < |ip| => ip[i]);
      assert copy[..] == ip;
      IncrementInPlace(copy);
      IncIsSucc(ip);
      return copy[..];
    }

    /** The suggested gateway: the address after the network address, taken or not. */
    method GetGatewayIP() returns (gateway: seq<byte>)
      requires Valid()
      ensures |gateway| == |subnet.ip| && Value(gateway) == Init(NetOf(subnet)).cursor
    {
      gateway := SuggestedGateway(subnet.ip);
      IncIsSucc(subnet.ip);
    }

    method GetBroadcastAddress() returns (broadcast: seq<byte>)
      requires Valid()
      ensures |broadcast| == |subnet.ip| && Value(broadcast) == subnet.Broadcast()
    {
      var n, mask := |subnet.ip|, subnet.MaskBytes();
      var bytes := new byte[n](i requires 0 <= i < n => subnet.ip[i]);
      for i := 0 to n
        invariant forall k :: 0 <= k < i ==> bytes[k] == OrNot(subnet.ip, mask)[k]
        invariant forall k :: i <= k < n ==> bytes[k] == subnet.ip[k]
      {
        OrNotAt(subnet.ip, mask, i);
        bytes[i] := OrByte(bytes[i], Not(mask[i]));
      }
      broadcast := bytes[..];
      assert broadcast == OrNot(subnet.ip, mask);
      OrNotIsLast(subnet.ip, subnet.Host());
    }

    method IsNetworkOrBroadcast(ip: seq<byte>) returns (reserved: bool)
      requires Valid()
      requires NumberOf(ip, |subnet.ip|).Some?
      ensures reserved <==> NumberOf(ip, |subnet.ip|).value in {subnet.Network(), subnet.Broadcast()}
    {
      var n := |subnet.ip|;
      ExpandCanon(subnet.ip);
      SameIPIsSameNumber(ip, subnet.ip, n);
      if SameIP(ip, subnet.ip) {
        return true;
      }
      var broadcast := GetBroadcastAddress();
      ExpandCanon(broadcast);
      SameIPIsSameNumber(ip, broadcast, n);
      return SameIP(ip, broadcast);
    }

    method GetTotalIPs() returns (total: int)
      requires Valid()
      ensures total == TotalIPs(subnet)
    {
      var host := 8 * |subnet.ip| - subnet.ones;
      return if host <= 62 then Pow2(host) else if host == 63 then -0x8000_0000_0000_0000 else 0;
    }

    /** The two tests the scan makes on each address. */
    method IsFree(ip: seq<byte>) returns (free: bool)
      requires Valid() && |ip| == |subnet.ip|
      ensures free <==> Free(NetOf(subnet), State().out, Value(ip))
    {
      ExpandCanon(ip);
      KeyIsNumber(inUse.Keys, ip, |subnet.ip|);
      var reserved := IsNetworkOrBroadcast(ip);
      return !reserved && Canon(ip) !in inUse;
    }

    method FindNextAvailableIP() returns (found: Option<seq<byte>>)
      requires Valid()
      modifies this`nextIP
      ensures Valid() && State().out == old(State()).out
      ensures var scan := Scan(NetOf(subnet), old(State()).out, old(State()).cursor, TotalIPs(subnet));
              && (found.None? ==> scan.None? && nextIP == old(nextIP))
              && (found.Some? ==> |found.value| == |subnet.ip| && scan == Some(Value(found.value))
                                  && State().cursor == Succ(scan.value, subnet.Space()))
    {
      var currentIP := nextIP;
      var total := GetTotalIPs();
      ghost var out := State().out;
      ghost var scan := Scan(NetOf(subnet), out, State().cursor, total);
      var i := 0;
      while i < total
        invariant |currentIP| == |subnet.ip| && nextIP == old(nextIP)
        invariant scan == Scan(NetOf(subnet), out, Value(currentIP), total - i)
      {
        var free := IsFree(currentIP);
        var succ := IncrementIP(currentIP);
        ScanStep(NetOf(subnet), out, Value(currentIP), total - i, Value(succ));
        if free {
          nextIP := succ;
          return Some(currentIP);
        }
        currentIP := succ;
        i := i + 1;
      }
      return None;
    }

    method AllocateIP() returns (r: Option<seq<byte>>)
      requires Valid()
      modifies this
      ensures Valid()
      ensures var (s', o) := Step(NetOf(subnet), old(State()), Next);
              && State() == s'
              && (r.Some? ==> |r.value| == |subnet.ip| && o == Granted(Value(r.value)))
              && (r.None? ==> o == Failed)
    {
      r := FindNextAvailableIP();
      if r.Some? {
        ExpandCanon(r.value);
        MarkInUse(r.value);
      }
    }

    /** a.allocated[ip.String()] = true */
    method MarkInUse(ip: seq<byte>)
      requires Valid() && NumberOf(ip, |subnet.ip|).Some?
      modifies this`inUse
      ensures Valid()
      ensures State() == old(State()).(out := old(State()).out + {NumberOf(ip, |subnet.ip|).value})
    {
      ghost var was := inUse.Keys;
      NumbersAdd(was, ip, |subnet.ip|);
      inUse := inUse[Canon(ip) := true];
      assert inUse.Keys == was + {Canon(ip)};
    }

    method AllocateSpecificIP(ip: seq<byte>) returns (r: SpecificResult)
      requires Valid()
      modifies this`inUse
      ensures Valid()
      ensures var (s', o) := Step(NetOf(subnet), old(State()), SpecificOf(subnet, ip));
              && State() == s'
              && (r == Allocated ==> o == Granted(Value(Canon(ip))))
              && (r != Allocated ==> o == Failed)
      ensures r == NotInSubnet <==> !subnet.Contains(ip)
      ensures r == NetworkOrBroadcast <==> subnet.Contains(ip) && Reserved(NetOf(subnet), Value(Canon(ip)))
      ensures r == AlreadyAllocated ==> Value(Canon(ip)) in old(State()).out
    {
      ContainsIsInside(subnet, ip);
      if !subnet.Contains(ip) {
        return NotInSubnet;
      }
      assert NumberOf(ip, |subnet.ip|) == Some(Value(Canon(ip)));
      KeyIsNumber(inUse.Keys, ip, |subnet.ip|);
      var reserved := IsNetworkOrBroadcast(ip);
      if reserved {
        return NetworkOrBroadcast;
      }
      if Canon(ip) in inUse {
        return AlreadyAllocated;
      }
      MarkInUse(ip);
      return Allocated;
    }

    method ReleaseIP(ip: seq<byte>) returns (ok: bool)
      requires Valid()
      modifies this`inUse
      ensures Valid()
      ensures var (s', o) := Step(NetOf(subnet), old(State()), ReleaseOf(subnet, ip));
              && State() == s'
              && (ok ==> o.Released? && NumberOf(ip, |subnet.ip|) == Some(o.addr))
              && (!ok ==> o == Failed)
      ensures var x := NumberOf(ip, |subnet.ip|);
              && (ok <==> x.Some? && x.value in old(State()).out)
              && (ok ==> State().out == old(State()).out - {x.value} && nextIP == old(nextIP))
    {
      ghost var n, was := |subnet.ip|, inUse.Keys;
      var key := Canon(ip);
      if NumberOf(ip, n).Some? {
        KeyIsNumber(was, ip, n);
      }
      if key !in inUse {
        return false;
      }
      NumbersRemove(was, ip, n);
      inUse := inUse - {key};
      assert inUse.Keys == was - {key};
      return true;
    }

    method GetAvailableCount() returns (count: int)
      requires Valid()
      ensures count == AvailableCount(NetOf(subnet), State())
    {
      NumbersCount(inUse.Keys, |subnet.ip|);
      var total := GetTotalIPs();
      return Int64(total - |inUse| - 2);
    }
  }
}
