/** Addresses as byte strings, contiguous masks, and the number each address stands for. */
module Subnets {
  import opened Bytes

  // ---------- Addresses ----------

  const V4_IN_V6_PREFIX: seq<byte> := [0, 0, 0, 0, 0, 0, 0, 0, 0, 0, 0xFF, 0xFF]

  predicate IsMapped(ip: seq<byte>) {
    |ip| == 16 && ip[..12] == V4_IN_V6_PREFIX
  }

  /** The canonical form that net.IP's String and Equal work on: an IPv4 address written in
      16 bytes is the same address as its last four bytes. */
  function Canon(ip: seq<byte>): (key: seq<byte>) {
    if IsMapped(ip) then ip[12..] else ip
  }

  predicate SameIP(a: seq<byte>, b: seq<byte>) {
    Canon(a) == Canon(b)
  }

  /** Four bytes behind ten bytes of 0 and two of 255 are the same address; no other address of
      16 bytes is an IPv4 address. */
  lemma MappedForm(ip: seq<byte>, v4: seq<byte>)
    requires |ip| == 16 && |v4| == 4
    ensures SameIP(ip, v4) <==>
            && (forall i :: 0 <= i < 10 ==> ip[i] == 0) && ip[10] == 255 && ip[11] == 255
            && forall i :: 0 <= i < 4 ==> ip[12 + i] == v4[i]
  {
    assert !IsMapped(v4);
    if (forall i :: 0 <= i < 10 ==> ip[i] == 0) && ip[10] == 255 && ip[11] == 255 {
      assert ip[..12] == V4_IN_V6_PREFIX;
    }
    if IsMapped(ip) {
      assert forall i :: 0 <= i < 12 ==> ip[i] == ip[..12][i];
      assert forall i :: 0 <= i < 4 ==> ip[12 + i] == ip[12..][i];
    }
  }

  /** A canonical key written back in the n bytes of a subnet's address family. */
  function Expand(key: seq<byte>, n: nat): (ip: seq<byte>) {
    if n == 16 && |key| == 4 then V4_IN_V6_PREFIX + key else key
  }

  /** The number of an address in a family of n bytes; None for the other family. */
  function NumberOf(ip: seq<byte>, n: nat): (r: Option<nat>) {
    var e := Expand(Canon(ip), n);
    if |e| == n then Some(Value(e)) else None
  }

  lemma ExpandCanon(ip: seq<byte>)
    requires |ip| == 4 || |ip| == 16
    ensures Expand(Canon(ip), |ip|) == ip
    ensures NumberOf(ip, |ip|) == Some(Value(ip))
  {
    if IsMapped(ip) {
      assert ip == ip[..12] + ip[12..];
    }
  }

  lemma CanonExpand(ip: seq<byte>, n: nat)
    ensures Canon(Expand(Canon(ip), n)) == Canon(ip)
  {
    var key := Canon(ip);
    if n == 16 && |key| == 4 {
      assert (V4_IN_V6_PREFIX + key)[..12] == V4_IN_V6_PREFIX;
      assert (V4_IN_V6_PREFIX + key)[12..] == key;
    }
  }

  /** Within one family, two addresses are Equal exactly when their numbers agree. */
  lemma SameIPIsSameNumber(a: seq<byte>, b: seq<byte>, n: nat)
    requires NumberOf(a, n).Some?
    ensures SameIP(a, b) <==> NumberOf(a, n) == NumberOf(b, n)
  {
    if NumberOf(a, n) == NumberOf(b, n) {
      ValueInjective(Expand(Canon(a), n), Expand(Canon(b), n));
      CanonExpand(a, n);
      CanonExpand(b, n);
    }
  }

  // ---------- The carry loop ----------

  /** Adds one at the last byte and carries towards the first. */
  function Inc(ip: seq<byte>): (r: seq<byte>)
    ensures |r| == |ip|
  {
    if ip == [] then []
    else
      var n := |ip| - 1;
      if ip[n] == 255 then Inc(ip[..n]) + [0] else ip[..n] + [ip[n] + 1]
  }

  /** One step forward on the circle of `space` addresses. */
  function Succ(x: nat, space: nat): (r: nat) {
    if x + 1 == space then 0 else x + 1
  }

  /** The carry loop adds one modulo 256^n. */
  lemma {:induction false} IncAddsOne(ip: seq<byte>)
    ensures Value(Inc(ip)) == Succ(Value(ip), Pow256(|ip|)) == (Value(ip) + 1) % Pow256(|ip|)
  {
    IncIsSucc(ip);
    ModIs(Value(ip) + 1, Pow256(|ip|), if Value(ip) + 1 == Pow256(|ip|) then 1 else 0, Value(Inc(ip)));
  }

  lemma {:induction false} IncIsSucc(ip: seq<byte>)
    ensures Value(Inc(ip)) == Succ(Value(ip), Pow256(|ip|))
  {
    if ip != [] {
      var n, r := |ip| - 1, Inc(ip);
      if ip[n] == 255 {
        assert r[..n] == Inc(ip[..n]);
        IncIsSucc(ip[..n]);
      } else {
        assert r[..n] == ip[..n];
      }
    }
  }

  /** The increment loop as the program writes it, in place on a fresh copy. */
  method IncrementInPlace(ip: array<byte>)
    modifies ip
    ensures ip[..] == Inc(old(ip[..]))
  {
    ghost var was := ip[..];
    var i := ip.Length - 1;
    while i >= 0
      invariant -1 <= i < ip.Length
      invariant forall k :: 0 <= k <= i ==> ip[k] == was[k]
      invariant forall k :: i < k < ip.Length ==> was[k] == 255 && ip[k] == 0
    {
      ip[i] := (ip[i] as int + 1) % 256;
      if ip[i] != 0 {
        break;
      }
      i := i - 1;
    }
    IncIs(was, ip[..], i);
  }

  /** Inc clears the run of 255s at the end and adds one to the byte before it. */
  lemma {:induction false} IncIs(was: seq<byte>, now: seq<byte>, i: int)
    requires |was| == |now| && -1 <= i < |was|
    requires forall k :: i < k < |was| ==> was[k] == 255 && now[k] == 0
    requires forall k :: 0 <= k < i ==> now[k] == was[k]
    requires i >= 0 ==> was[i] != 255 && now[i] == was[i] + 1
    ensures now == Inc(was)
    decreases |was|
  {
    var n := |was| - 1;
    if i < n {
      IncIs(was[..n], now[..n], i);
      assert now == now[..n] + [0];
    } else if n >= 0 {
      assert now == was[..n] + [was[n] + 1];
    }
  }

  /** The copy of the loop in NewIPAllocator, for the initial cursor. */
  method FirstUsable(network: seq<byte>) returns (r: seq<byte>)
    ensures r == Inc(network)
  {
    var firstIP := new byte[|network|](i requires 0 <= i < |network| => network[i]);
    var i := firstIP.Length - 1;
    while i >= 0
      invariant -1 <= i < firstIP.Length
      invariant forall k :: 0 <= k <= i ==> firstIP[k] == network[k]
      invariant forall k :: i < k < firstIP.Length ==> network[k] == 255 && firstIP[k] == 0
    {
      firstIP[i] := (firstIP[i] as int + 1) % 256;
      if firstIP[i] != 0 {
        break;
      }
      i := i - 1;
    }
    IncIs(network, firstIP[..], i);
    return firstIP[..];
  }

  /** The copy of the loop in GetGatewayIP. */
  method SuggestedGateway(network: seq<byte>) returns (r: seq<byte>)
    ensures r == Inc(network)
  {
    var gateway := new byte[|network|](i requires 0 <= i < |network| => network[i]);
    var i := gateway.Length - 1;
    while i >= 0
      invariant -1 <= i < gateway.Length
      invariant forall k :: 0 <= k <= i ==> gateway[k] == network[k]
      invariant forall k :: i < k < gateway.Length ==> network[k] == 255 && gateway[k] == 0
    {
      gateway[i] := (gateway[i] as int + 1) % 256;
      if gateway[i] != 0 {
        break;
      }
      i := i - 1;
    }
    IncIs(network, gateway[..], i);
    return gateway[..];
  }

  // ---------- Masks ----------

  /** The mask byte that keeps all but the low j bits. */
  function MaskByte(j: nat): byte
    requires j <= 8
  {
    Pow2Small();
    if j < 8 then Pow2Grows(j, 8); 256 - Pow2(j) else 0
  }

  /** The mask of n bytes whose low `host` bits are clear. */
  function Mask(n: nat, host: nat): (m: seq<byte>)
    ensures |m| == n
  {
    if n == 0 then []
    else Mask(n - 1, if host < 8 then 0 else host - 8) + [MaskByte(if host < 8 then host else 8)]
  }

  /** Byte by byte, ip and net agree wherever the mask is set. */
  predicate MatchesUnder(ip: seq<byte>, net: seq<byte>, mask: seq<byte>)
    requires |ip| == |net| == |mask|
  {
    ip == [] ||
    var n := |ip| - 1;
    And(ip[n], mask[n]) == And(net[n], mask[n]) && MatchesUnder(ip[..n], net[..n], mask[..n])
  }

  predicate IsMasked(net: seq<byte>, mask: seq<byte>)
    requires |net| == |mask|
  {
    net == [] ||
    var n := |net| - 1;
    And(net[n], mask[n]) == net[n] && IsMasked(net[..n], mask[..n])
  }

  function OrByte(a: byte, b: byte): byte {
    Pow2Small();
    OrRange(a, b, 8);
    Or(a, b)
  }

  lemma {:induction false} OrRange(a: nat, b: nat, k: nat)
    requires a < Pow2(k) && b < Pow2(k)
    ensures Or(a, b) < Pow2(k)
  {
    if k != 0 {
      OrRange(a / 2, b / 2, k - 1);
    }
  }

  /** Byte-wise OR with the complemented mask. */
  function OrNot(net: seq<byte>, mask: seq<byte>): (r: seq<byte>)
    requires |net| == |mask|
    ensures |r| == |net|
  {
    if net == [] then []
    else
      var n := |net| - 1;
      OrNot(net[..n], mask[..n]) + [OrByte(net[n], Not(mask[n]))]
  }

  lemma LowBits(ip: byte, net: byte, j: nat)
    requires j <= 8 && And(net, MaskByte(j)) == net
    ensures And(ip, MaskByte(j)) == And(net, MaskByte(j)) <==> net <= ip < net + Pow2(j)
    ensures OrByte(net, Not(MaskByte(j))) == net + Pow2(j) - 1
  {
    MaskByteRounds(net, j);
    MaskByteRounds(ip, j);
    OrLowOnes(net, j);
    RoundDown(ip, net, Pow2(j));
  }

  lemma MaskByteRounds(b: byte, j: nat)
    requires j <= 8
    ensures And(b, MaskByte(j)) == b - b % Pow2(j)
    ensures Pow2(j) in {1, 2, 4, 8, 16, 32, 64, 128, 256} && Not(MaskByte(j)) == Pow2(j) - 1
  {
    Pow2Small();
    AndHighMask(b, 8, j);
  }

  lemma RoundDown(ip: byte, net: byte, p: nat)
    requires p in {1, 2, 4, 8, 16, 32, 64, 128, 256} && net % p == 0
    ensures ip - ip % p == net <==> net <= ip < net + p
  {
  }

  /** An address matches a masked network exactly when it lies in the interval of 2^host
      numbers starting there. */
  lemma {:induction false} MaskIsInterval(ip: seq<byte>, net: seq<byte>, host: nat)
    requires |ip| == |net| && host <= 8 * |net|
    requires IsMasked(net, Mask(|net|, host))
    ensures MatchesUnder(ip, net, Mask(|net|, host))
       <==> Value(net) <= Value(ip) < Value(net) + Pow2(host)
    decreases |net|
  {
    if net != [] {
      var n := |net| - 1;
      var rest, low := if host < 8 then 0 else host - 8, if host < 8 then host else 8;
      MaskLast(n, host);
      MaskIsInterval(ip[..n], net[..n], rest);
      LowBits(ip[n], net[n], low);
      HostSplit(host);
      IntervalStep(Value(ip[..n]), ip[n], Value(net[..n]), net[n], Pow2(rest), Pow2(low));
    }
  }

  /** OR-ing in the complemented mask gives the last number of that interval. */
  lemma {:induction false} OrNotIsLast(net: seq<byte>, host: nat)
    requires host <= 8 * |net|
    requires IsMasked(net, Mask(|net|, host))
    ensures Value(OrNot(net, Mask(|net|, host))) == Value(net) + Pow2(host) - 1
    decreases |net|
  {
    if net != [] {
      var n := |net| - 1;
      var rest, low := if host < 8 then 0 else host - 8, if host < 8 then host else 8;
      MaskLast(n, host);
      OrNotIsLast(net[..n], rest);
      LowBits(net[n], net[n], low);
      HostSplit(host);
      var r := OrNot(net, Mask(n + 1, host));
      assert r[..n] == OrNot(net[..n], Mask(n, rest)) && r[n] == net[n] + Pow2(low) - 1;
    }
  }

  lemma MaskLast(n: nat, host: nat)
    ensures var m := Mask(n + 1, host);
            && m[..n] == Mask(n, if host < 8 then 0 else host - 8)
            && m[n] == MaskByte(if host < 8 then host else 8)
  {
  }

  lemma HostSplit(host: nat)
    ensures host >= 8 ==> Pow2(host) == 256 * Pow2(host - 8) && Pow2(8) == 256
    ensures host < 8 ==> Pow2(0) == 1 && Pow2(host) < 256
  {
    Pow2Small();
    if host >= 8 {
      Pow2Plus8(host - 8);
    }
  }

  /** The two-digit step: either the low byte is free altogether or the high digits are fixed. */
  lemma IntervalStep(v: int, b: int, p: int, q: int, high: int, low: int)
    requires 0 <= b < 256 && 0 <= q
    requires high == 1 || low == 256
    requires q + low <= 256 && high >= 1 && 1 <= low <= 256
    ensures p <= v < p + high && q <= b < q + low
       <==> 256 * p + q <= 256 * v + b < 256 * p + q + (if low == 256 then 256 * high else low)
  {
  }

  // ---------- Subnets ----------

  /** A network address and a prefix length. */
  datatype CIDR = CIDR(ip: seq<byte>, ones: nat) {
    predicate Valid() {
      && (|ip| == 4 || (|ip| == 16 && !IsMapped(ip)))
      && ones <= 8 * |ip|
      && IsMasked(ip, MaskBytes())
    }

    function Host(): nat {
      if ones <= 8 * |ip| then 8 * |ip| - ones else 0
    }

    function MaskBytes(): (m: seq<byte>)
      ensures |m| == |ip|
    {
      Mask(|ip|, Host())
    }

    /** IPNet.Contains. */
    predicate Contains(x: seq<byte>) {
      |Canon(x)| == |ip| && MatchesUnder(Canon(x), ip, MaskBytes())
    }

    function Network(): nat {
      Value(ip)
    }

    function Size(): nat {
      Pow2(Host())
    }

    function Broadcast(): nat {
      Network() + Size() - 1
    }

    /** How many addresses the family has, in or out of the subnet. */
    function Space(): (r: nat)
      ensures r >= 1
    {
      Pow256(|ip|)
    }
  }

  /** What ParseCIDR hands to NewIPAllocator: the network address already masked. */
  type Subnet = c: CIDR | c.Valid() ghost witness Loopback()

  ghost function Loopback(): (c: CIDR)
    ensures c.Valid()
  {
    var ip: seq<byte> := [127, 0, 0, 1];
    AllOnesMask(ip);
    CIDR(ip, 32)
  }

  lemma {:induction false} AllOnesMask(ip: seq<byte>)
    ensures IsMasked(ip, Mask(|ip|, 0))
  {
    if ip != [] {
      var n := |ip| - 1;
      AllOnesMask(ip[..n]);
      MaskLast(n, 0);
      Pow2Small();
      AndAllOnes(ip[n], 8);
    }
  }

  lemma SubnetFacts(sub: Subnet)
    ensures sub.Network() <= sub.Broadcast() < sub.Space()
    ensures sub.Host() < 8 * |sub.ip| ==> 2 * sub.Size() <= sub.Space()
    ensures sub.Host() == 8 * |sub.ip| ==> sub.Network() == 0 && sub.Size() == sub.Space()
    ensures sub.Space() >= 256
  {
    OrNotIsLast(sub.ip, sub.Host());
    Pow256IsPow2(|sub.ip|);
    if sub.Host() < 8 * |sub.ip| {
      Pow2Grows(sub.Host(), 8 * |sub.ip|);
    }
  }

  lemma {:induction false} Pow2Adds(a: nat, b: nat)
    ensures Pow2(a + b) == Pow2(a) * Pow2(b)
  {
    if a != 0 {
      Pow2Adds(a - 1, b);
      assert Pow2(a + b) == 2 * Pow2(a + b - 1) == 2 * (Pow2(a - 1) * Pow2(b));
    }
  }

  /** A prefix of n bits cuts the family into 2^n subnets of this size. */
  lemma PrefixTimesSize(sub: Subnet)
    ensures Pow2(sub.ones) * sub.Size() == sub.Space()
  {
    Pow256IsPow2(|sub.ip|);
    var ones, host := sub.ones, sub.Host();
    assert ones + host == 8 * |sub.ip|;
    Pow2Adds(ones, host);
  }

  /** Contains is membership of the interval from network to broadcast address. */
  lemma ContainsIsInside(sub: Subnet, x: seq<byte>)
    ensures sub.Contains(x) <==> |Canon(x)| == |sub.ip| && sub.Network() <= Value(Canon(x)) <= sub.Broadcast()
  {
    if |Canon(x)| == |sub.ip| {
      MaskIsInterval(Canon(x), sub.ip, sub.Host());
    }
  }
}
