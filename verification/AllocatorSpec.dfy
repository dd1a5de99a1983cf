/** The address allocator on numbers: a cursor, the outstanding addresses, and one step per call. */
module AllocatorSpec {
  import opened Bytes
  import opened Subnets

  datatype AllocState = AllocState(cursor: nat, out: set<nat>)

  /** A subnet as numbers: its first address, how many it has, how many its family has, and
      what `1 << (bits - ones)` makes of its size. */
  datatype Geometry = Geometry(network: nat, size: nat, space: nat, total: int) {
    predicate Valid() {
      && 1 <= size && 256 <= space && network + size <= space
      && (size == space || 2 * size <= space)
      && (size <= 2 || size % 4 == 0)
      && (total == size <= 0x4000_0000_0000_0000 || total == 0 || total == -0x8000_0000_0000_0000)
    }

    function Broadcast(): int {
      network + size - 1
    }

    predicate Inside(x: nat) {
      network <= x <= Broadcast()
    }

    /** The size did not overflow Go's int. */
    predicate Scannable() {
      total == size
    }
  }

  type Net = g: Geometry | g.Valid() witness Geometry(0, 1, 256, 1)

  /** `1 << (bits - ones)` in Go's 64-bit int: negative for 63 host bits, zero beyond. */
  function TotalIPs(sub: Subnet): int {
    if sub.Host() <= 62 then sub.Size()
    else if sub.Host() == 63 then -0x8000_0000_0000_0000
    else 0
  }

  /** What a Go int holds after arithmetic that may have overflowed. */
  function Int64(x: int): (r: int)
    ensures -0x8000_0000_0000_0000 <= r < 0x8000_0000_0000_0000
    ensures -0x8000_0000_0000_0000 <= x < 0x8000_0000_0000_0000 ==> r == x
    ensures -0x1_8000_0000_0000_0000 <= x < -0x8000_0000_0000_0000 ==> r == x + 0x1_0000_0000_0000_0000
  {
    (x + 0x8000_0000_0000_0000) % 0x1_0000_0000_0000_0000 - 0x8000_0000_0000_0000
  }

  lemma LargestSize()
    ensures Pow2(62) == 0x4000_0000_0000_0000
  {
    Pow2Plus8(0);
    Pow2Plus8(8);
    Pow2Plus8(16);
    Pow2Plus8(24);
    Pow2Plus8(32);
    Pow2Plus8(40);
    Pow2Plus8(48);
    assert Pow2(62) == 2 * Pow2(61) == 4 * Pow2(60) == 8 * Pow2(59);
    assert Pow2(59) == 2 * Pow2(58) == 4 * Pow2(57) == 8 * Pow2(56);
  }

  lemma SizeIsPowerOfTwo(h: nat)
    ensures Pow2(h) <= 2 || Pow2(h) % 4 == 0
    ensures h <= 62 ==> Pow2(h) <= 0x4000_0000_0000_0000
  {
    LargestSize();
    if h < 62 {
      Pow2Grows(h, 62);
    }
    if h >= 2 {
      assert Pow2(h) == 2 * Pow2(h - 1) == 4 * Pow2(h - 2);
      ModIs(Pow2(h), 4, Pow2(h - 2), 0);
    }
  }

  function NetOf(sub: Subnet): (net: Net) {
    SubnetFacts(sub);
    SizeIsPowerOfTwo(sub.Host());
    Geometry(sub.Network(), sub.Size(), sub.Space(), TotalIPs(sub))
  }

  /** The numbers determine which prefixes can be scanned: at most 62 host bits. */
  lemma ScannableIsShort(sub: Subnet)
    ensures NetOf(sub).Scannable() <==> sub.Host() <= 62
  {
  }

  /** Addresses are numbers by now; None is an address of the other family. */
  datatype Op =
    | Next
    | Specific(addr: Option<nat>)
    | Release(addr: Option<nat>)

  function SpecificOf(sub: Subnet, ip: seq<byte>): Op {
    Specific(if |Canon(ip)| == |sub.ip| then Some(Value(Canon(ip))) else None)
  }

  function ReleaseOf(sub: Subnet, ip: seq<byte>): Op {
    Release(NumberOf(ip, |sub.ip|))
  }

  datatype Outcome =
    | Granted(addr: nat)
    | Released(addr: nat)
    | Failed

  predicate Reserved(net: Net, x: nat) {
    x == net.network || x == net.Broadcast()
  }

  predicate Free(net: Net, out: set<nat>, x: nat) {
    !Reserved(net, x) && x !in out
  }

  /** The first free address among the k addresses from c on, wrapping only at the end of the
      whole address space. */
  function Scan(net: Net, out: set<nat>, c: nat, k: int): Option<nat>
    decreases k
  {
    if k <= 0 then None
    else if Free(net, out, c) then Some(c)
    else Scan(net, out, Succ(c, net.space), k - 1)
  }

  lemma ScanStep(net: Net, out: set<nat>, c: nat, k: int, c': nat)
    requires k > 0 && c' == Succ(c, net.space)
    ensures Scan(net, out, c, k) == if Free(net, out, c) then Some(c) else Scan(net, out, c', k - 1)
  {
  }

  function Step(net: Net, s: AllocState, op: Op): (AllocState, Outcome) {
    match op
    case Next =>
      (match Scan(net, s.out, s.cursor, net.total)
       case Some(x) => (AllocState(Succ(x, net.space), s.out + {x}), Granted(x))
       case None => (s, Failed))
    case Specific(Some(x)) =>
      if net.Inside(x) && !Reserved(net, x) && x !in s.out
      then (s.(out := s.out + {x}), Granted(x))
      else (s, Failed)
    case Release(Some(x)) =>
      if x in s.out then (s.(out := s.out - {x}), Released(x)) else (s, Failed)
    case _ => (s, Failed)
  }

  function Init(net: Net): AllocState {
    AllocState(Succ(net.network, net.space), {})
  }

  /** The state after a run of calls. */
  function Run(net: Net, s: AllocState, ops: seq<Op>): AllocState {
    if ops == [] then s
    else Step(net, Run(net, s, ops[..|ops| - 1]), ops[|ops| - 1]).0
  }

  /** What each call of the run answered. */
  function Trace(net: Net, s: AllocState, ops: seq<Op>): (t: seq<Outcome>)
    ensures |t| == |ops|
  {
    if ops == [] then []
    else
      var n := |ops| - 1;
      Trace(net, s, ops[..n]) + [Step(net, Run(net, s, ops[..n]), ops[n]).1]
  }

  /** GetAvailableCount, whose subtraction overflows when the size is the least int. */
  function AvailableCount(net: Net, s: AllocState): int {
    Int64(net.total - |s.out| - 2)
  }

  /** The len of a Go map is an int. */
  predicate LenIsInt(s: AllocState) {
    |s.out| < 0x8000_0000_0000_0000
  }
}
