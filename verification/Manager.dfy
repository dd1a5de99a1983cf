/** The VPN manager's use of the allocator: local, gateway and peer addresses. */
module Managers {
  import opened Bytes
  import opened Subnets
  import opened AllocatorSpec
  import opened AllocatorTheorems
  import opened IPAllocators

  /** config.LocalIP after net.ParseIP, which answers with 16 bytes. */
  datatype LocalConfig =
    | Unset
    | Malformed
    | Given(ip: seq<byte>)

  datatype Addresses = Addresses(alloc: AllocState, local: nat, gateway: nat)

  function LocalOp(sub: Subnet, config: LocalConfig): Option<Op> {
    match config
    case Unset => Some(Next)
    case Malformed => None
    case Given(ip) => Some(SpecificOf(sub, ip))
  }

  /** The address part of NewManager; op allocates the local address. */
  function Setup(net: Net, op: Op): Option<Addresses> {
    var (s, o) := Step(net, Init(net), op);
    if o.Granted? then Some(Addresses(s, o.addr, GatewayNumber(net, o.addr))) else None
  }

  function GatewayNumber(net: Net, local: nat): nat {
    var gateway := Succ(net.network, net.space);
    if gateway == local then Succ(local, net.space) else gateway
  }

  /** The number of an address known to be of the subnet's family. */
  function NumberIn(sub: Subnet, ip: seq<byte>): nat {
    NumberOf(ip, |sub.ip|).GetOr(0)
  }

  /** The subnet contains the address, which is neither its network nor its broadcast address. */
  predicate IsHost(sub: Subnet, ip: seq<byte>) {
    sub.Contains(ip) && Value(Canon(ip)) !in {sub.Network(), sub.Broadcast()}
  }

  // ---------- Incrementing an IPv4 address written in 16 bytes ----------

  lemma {:induction false} IncKeepsPrefix(p: seq<byte>, k: seq<byte>)
    requires Value(k) + 1 < Pow256(|k|)
    ensures Inc(p + k) == p + Inc(k)
  {
    if k != [] {
      var n := |k| - 1;
      assert (p + k)[..|p| + n] == p + k[..n];
      if k[n] == 255 {
        IncKeepsPrefix(p, k[..n]);
      }
    }
  }

  predicate FitsBelowBroadcast(sub: Subnet, ip: seq<byte>) {
    (|ip| == 16 || |ip| == |sub.ip|) && |Canon(ip)| == |sub.ip| && Value(Canon(ip)) < sub.Broadcast()
  }

  /** Stepping past an address below the broadcast address stays in its family, in either
      written form. */
  lemma NextNumber(sub: Subnet, ip: seq<byte>, r: seq<byte>)
    requires r == Inc(ip) && FitsBelowBroadcast(sub, ip)
    ensures NumberOf(r, |sub.ip|) == Some(Succ(Value(Canon(ip)), sub.Space()))
  {
    SubnetFacts(sub);
    if |ip| == |sub.ip| {
      assert Canon(ip) == ip;
      IncIsSucc(ip);
      ExpandCanon(r);
    } else {
      var k := Canon(ip);
      assert ip == V4_IN_V6_PREFIX + k;
      IncKeepsPrefix(V4_IN_V6_PREFIX, k);
      IncIsSucc(k);
      assert r[..12] == V4_IN_V6_PREFIX && r[12..] == Inc(k);
    }
  }

  class Manager {
    const allocator: IPAllocator
    var localIP: seq<byte>
    var gatewayIP: seq<byte>

    constructor (allocator: IPAllocator, localIP: seq<byte>, gatewayIP: seq<byte>)
      ensures this.allocator == allocator && this.localIP == localIP && this.gatewayIP == gatewayIP
    {
      this.allocator, this.localIP, this.gatewayIP := allocator, localIP, gatewayIP;
    }

    ghost predicate Valid()
      reads this, allocator
    {
      && allocator.Valid()
      && NumberOf(localIP, |allocator.subnet.ip|).Some?
      && NumberOf(gatewayIP, |allocator.subnet.ip|).Some?
    }

    ghost function State(): Addresses
      requires Valid()
      reads this, allocator
    {
      var n := |allocator.subnet.ip|;
      Addresses(allocator.State(), NumberOf(localIP, n).value, NumberOf(gatewayIP, n).value)
    }

    method AllocatePeerIP() returns (r: Option<seq<byte>>)
      requires Valid()
      modifies allocator
      ensures Valid()
      ensures var (s', o) := Step(NetOf(allocator.subnet), old(State()).alloc, Next);
              && State() == old(State()).(alloc := s')
              && (r.Some? ==> o == Granted(Value(r.value)))
              && (r.None? ==> o == Failed)
    {
      r := allocator.AllocateIP();
    }

    method ReleasePeerIP(ip: seq<byte>) returns (ok: bool)
      requires Valid()
      modifies allocator
      ensures Valid()
      ensures var (s', o) := Step(NetOf(allocator.subnet), old(State()).alloc, ReleaseOf(allocator.subnet, ip));
              && State() == old(State()).(alloc := s')
              && (ok <==> o.Released?)
    {
      ok := allocator.ReleaseIP(ip);
    }
  }

  /** The local address: the configured one, or the next free one. */
  method AllocateLocalIP(allocator: IPAllocator, config: LocalConfig) returns (localIP: Option<seq<byte>>)
    requires allocator.Valid() && (config.Given? ==> |config.ip| == 16)
    modifies allocator
    ensures allocator.Valid()
    ensures config.Malformed? ==> localIP.None?
    ensures config.Given? ==>
              && (localIP.Some? <==> IsHost(allocator.subnet, config.ip)
                                     && NumberIn(allocator.subnet, config.ip) !in old(allocator.State()).out)
              && (localIP.Some? ==> localIP.value == config.ip)
    ensures var sub, was, op := allocator.subnet, old(allocator.State()), LocalOp(allocator.subnet, config);
            && (localIP.None? <==> op.None? || Step(NetOf(sub), was, op.value).1 == Failed)
            && (localIP.Some? ==>
                  && Step(NetOf(sub), was, op.value) == (allocator.State(), Granted(NumberIn(sub, localIP.value)))
                  && NumberOf(localIP.value, |sub.ip|).Some?
                  && (|localIP.value| == |sub.ip| || FitsBelowBroadcast(sub, localIP.value)))
  {
    match config
    case Malformed =>
      return None;
    case Given(ip) =>
      var r := allocator.AllocateSpecificIP(ip);
      return if r.Allocated? then Some(ip) else None;
    case Unset =>
      localIP := allocator.AllocateIP();
      if localIP.Some? {
        ExpandCanon(localIP.value);
      }
  }

  /** The suggested gateway, or the address after the local one when they coincide. */
  method SuggestGateway(allocator: IPAllocator, localIP: seq<byte>) returns (gatewayIP: seq<byte>)
    requires allocator.Valid() && NumberOf(localIP, |allocator.subnet.ip|).Some?
    requires |localIP| == |allocator.subnet.ip| || FitsBelowBroadcast(allocator.subnet, localIP)
    ensures var net, local := NetOf(allocator.subnet), NumberIn(allocator.subnet, localIP);
            NumberOf(gatewayIP, |allocator.subnet.ip|) == Some(GatewayNumber(net, local))
  {
    var subnet := allocator.subnet;
    gatewayIP := allocator.GetGatewayIP();
    ExpandCanon(gatewayIP);
    SameIPIsSameNumber(gatewayIP, localIP, |subnet.ip|);
    if SameIP(gatewayIP, localIP) {
      gatewayIP := IPAllocator.IncrementIP(localIP);
      if |localIP| == |subnet.ip| {
        ExpandCanon(localIP);
        ExpandCanon(gatewayIP);
      } else {
        NextNumber(subnet, localIP, gatewayIP);
      }
    }
  }

  /** The address n places after the network address, on the circle of the family. */
  function AtOffset(sub: Subnet, n: nat): nat {
    if sub.Network() + n < sub.Space() then sub.Network() + n else sub.Network() + n - sub.Space()
  }

  /** What a fresh allocator grants first: network + 1, but network + 2 when that is broadcast. */
  function FirstHost(sub: Subnet): nat {
    AtOffset(sub, if sub.Size() == 2 then 2 else 1)
  }

  /** network + 1, or network + 2 when the local address is network + 1. */
  function GatewayFor(sub: Subnet, local: nat): nat {
    AtOffset(sub, if local == AtOffset(sub, 1) then 2 else 1)
  }

  /** No configured address and a subnet small enough to scan, or a host of the subnet. */
  predicate Accepts(sub: Subnet, config: LocalConfig) {
    match config
    case Unset => sub.Host() <= 62
    case Malformed => false
    case Given(ip) => IsHost(sub, ip)
  }

  lemma SuccIsOffset(sub: Subnet)
    ensures Succ(sub.Network(), sub.Space()) == AtOffset(sub, 1)
    ensures Succ(AtOffset(sub, 1), sub.Space()) == AtOffset(sub, 2)
  {
    SubnetFacts(sub);
  }

  /** With no configured address, setup succeeds exactly when the subnet can be scanned, and the
      local address is the first host. */
  lemma UnsetTakesFirst(sub: Subnet)
    ensures var setup := Setup(NetOf(sub), Next);
            && (setup.Some? <==> sub.Host() <= 62)
            && (setup.Some? ==> setup.value.local == FirstHost(sub))
  {
    var net := NetOf(sub);
    var c0 := Init(net).cursor;
    var c1 := Succ(c0, net.space);
    ScannableIsShort(sub);
    SuccIsOffset(sub);
    if net.Scannable() {
      ScanStep(net, {}, c0, net.total, c1);
      if net.size == 2 {
        ScanStep(net, {}, c1, net.total - 1, Succ(c1, net.space));
      }
    }
  }

  /** A configured address is used exactly when it is a host of the subnet. */
  lemma GivenIsTaken(sub: Subnet, ip: seq<byte>)
    ensures var setup := Setup(NetOf(sub), SpecificOf(sub, ip));
            && (setup.Some? <==> IsHost(sub, ip))
            && (setup.Some? ==> setup.value.local == Value(Canon(ip)) && NumberOf(ip, |sub.ip|) == Some(setup.value.local))
  {
    ContainsIsInside(sub, ip);
  }

  /** The gateway is network + 1, or network + 2 when the local address is network + 1. */
  lemma GatewayIsNext(sub: Subnet, op: Op)
    requires Setup(NetOf(sub), op).Some?
    ensures var m := Setup(NetOf(sub), op).value;
            m.gateway == GatewayFor(sub, m.local)
  {
    SuccIsOffset(sub);
  }

  /** The address part of NewManager for a configuration. */
  function FromConfig(sub: Subnet, config: LocalConfig): Option<Addresses> {
    match LocalOp(sub, config)
    case None => None
    case Some(op) => Setup(NetOf(sub), op)
  }

  /** When a configuration is accepted, and what its local and gateway addresses are. */
  lemma ConfiguredSetup(sub: Subnet, config: LocalConfig)
    ensures var setup := FromConfig(sub, config);
            && (setup.Some? <==> Accepts(sub, config))
            && (setup.Some? ==>
                  var m := setup.value;
                  && m.local == (if config.Given? then NumberIn(sub, config.ip) else FirstHost(sub))
                  && m.gateway == GatewayFor(sub, m.local))
  {
    match config
    case Unset =>
      UnsetTakesFirst(sub);
      if Setup(NetOf(sub), Next).Some? {
        GatewayIsNext(sub, Next);
      }
    case Malformed =>
    case Given(ip) =>
      GivenIsTaken(sub, ip);
      if Setup(NetOf(sub), SpecificOf(sub, ip)).Some? {
        GatewayIsNext(sub, SpecificOf(sub, ip));
      }
  }

  /** cidr is what ParseCIDR makes of the configured subnet, None when it does not parse. */
  method NewManager(cidr: Option<Subnet>, config: LocalConfig) returns (m: Manager?)
    requires config.Given? ==> |config.ip| == 16
    ensures m != null ==> fresh(m) && fresh(m.allocator) && m.Valid() && Some(m.allocator.subnet) == cidr
    ensures m == null <==> cidr.None? || FromConfig(cidr.value, config).None?
    ensures m != null ==> FromConfig(cidr.value, config) == Some(m.State())
    ensures m != null <==>
              cidr.Some? && Accepts(cidr.value, config)
    ensures m != null && config.Given? ==> SameIP(m.localIP, config.ip)
    ensures m != null && config.Unset? ==> m.State().local == FirstHost(cidr.value)
    ensures m != null ==>
              m.State().gateway == GatewayFor(cidr.value, m.State().local)
  {
    if cidr.None? {
      return null;
    }
    ConfiguredSetup(cidr.value, config);
    var allocator := NewIPAllocator(cidr);
    var local := AllocateLocalIP(allocator, config);
    if local.None? {
      return null;
    }
    var localIP := local.value;
    var gatewayIP := SuggestGateway(allocator, localIP);
    m := new Manager(allocator, localIP, gatewayIP);
  }

  // ---------- Local, gateway and peers ----------

  /** On every run of peer calls that does not release the local address, no peer gets it. */
  lemma {:induction false} PeerIsNeverLocal(net: Net, op: Op, ops: seq<Op>)
    requires Setup(net, op).Some?
    requires forall i :: 0 <= i < |ops| ==> ops[i] != Release(Some(Setup(net, op).value.local))
    ensures var m := Setup(net, op).value; Granted(m.local) !in Trace(net, m.alloc, ops)
  {
    var m := Setup(net, op).value;
    HeldIsNeverGranted(net, m.alloc, ops, m.local);
  }

  /** The gateway half fails: the first peer address is the gateway, unless the subnet has
      exactly two addresses. */
  lemma FirstPeerIsGateway(net: Net, op: Op)
    requires net.Scannable() && (op.Next? || op.Specific?)
    requires Setup(net, op).Some?
    ensures var m := Setup(net, op).value;
            var o := Step(net, m.alloc, Next).1;
            o.Granted? && (o.addr == m.gateway <==> net.size != 2)
  {
    var m := Setup(net, op).value;
    var c0, k := Init(net).cursor, net.total;
    var c1 := Succ(c0, net.space);
    var c2 := Succ(c1, net.space);
    ScanStep(net, {}, c0, k, c1);
    if k > 1 {
      ScanStep(net, {}, c1, k - 1, c2);
    }
    var s := m.alloc;
    var d := Succ(s.cursor, net.space);
    ScanStep(net, s.out, s.cursor, k, d);
    if k > 1 {
      ScanStep(net, s.out, d, k - 1, Succ(d, net.space));
    }
  }

  /** Over whole runs of peer calls: the gateway is safe from being handed out exactly in the
      subnets of two addresses. */
  lemma GatewayIsKeptIff(net: Net, op: Op)
    requires net.Scannable() && (op.Next? || op.Specific?)
    requires Setup(net, op).Some?
    ensures var m := Setup(net, op).value;
            (forall ops :: Granted(m.gateway) !in Trace(net, m.alloc, ops)) <==> net.size == 2
  {
    var m := Setup(net, op).value;
    FirstPeerIsGateway(net, op);
    if net.size == 2 {
      forall ops ensures Granted(m.gateway) !in Trace(net, m.alloc, ops) {
        ReservedIsNeverGranted(net, op, ops, m.gateway);
      }
    } else {
      TraceAt(net, m.alloc, [Next], 0);
      assert Granted(m.gateway) in Trace(net, m.alloc, [Next]);
    }
  }

  lemma ReservedIsNeverGranted(net: Net, op: Op, ops: seq<Op>, x: nat)
    requires Setup(net, op).Some? && Reserved(net, x)
    ensures Granted(x) !in Trace(net, Setup(net, op).value.alloc, ops)
  {
    var s := Setup(net, op).value.alloc;
    InitOK(net);
    StepOK(net, Init(net), op);
    forall i | 0 <= i < |ops| ensures Trace(net, s, ops)[i] != Granted(x) {
      TraceAt(net, s, ops, i);
      RunOK(net, s, ops[..i]);
      StepOK(net, Run(net, s, ops[..i]), ops[i]);
    }
  }

  /** Repaired variant, not the program's: NewManager also allocates the gateway address. */
  function RepairedSetup(net: Net, op: Op): Option<Addresses> {
    match Setup(net, op)
    case None => None
    case Some(m) =>
      var (s, o) := Step(net, m.alloc, Specific(Some(m.gateway)));
      if o.Granted? then Some(m.(alloc := s)) else None
  }

  /** With at least two usable hosts the repaired setup succeeds whenever the original does,
      and no peer then gets the local or the gateway address. */
  lemma {:induction false} RepairedGatewayIsKept(net: Net, op: Op, ops: seq<Op>)
    requires net.Scannable() && net.size >= 4 && (op.Next? || op.Specific?)
    requires Setup(net, op).Some?
    requires var m := Setup(net, op).value;
             forall i :: 0 <= i < |ops| ==> ops[i] != Release(Some(m.local)) && ops[i] != Release(Some(m.gateway))
    ensures RepairedSetup(net, op).Some?
    ensures var m := RepairedSetup(net, op).value;
            && m.local != m.gateway
            && Granted(m.local) !in Trace(net, m.alloc, ops)
            && Granted(m.gateway) !in Trace(net, m.alloc, ops)
  {
    var c0 := Init(net).cursor;
    ScanStep(net, {}, c0, net.total, Succ(c0, net.space));
    var m := RepairedSetup(net, op).value;
    HeldIsNeverGranted(net, m.alloc, ops, m.local);
    HeldIsNeverGranted(net, m.alloc, ops, m.gateway);
  }
}
