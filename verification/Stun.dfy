/** STUN binding requests and responses (sections 6, 15 and 15.2 of RFC 5389). */
module Stun {
  import opened Bytes

  datatype UDPAddr = UDPAddr(ip: seq<byte>, port: nat)

  datatype Error =
    | ResponseTooShort
    | UnexpectedType
    | AttributeTooShort
    | MappedAddressTooShort
    | UnsupportedFamily
    | NotFound

  datatype Result<+T> = Ok(value: T) | Err(error: Error)

  const XOR_MAPPED_ADDRESS := 0x0020
  const BINDING_SUCCESS := 0x0101
  const COOKIE: seq<byte> := [0x21, 0x12, 0xA4, 0x42]

  /** The key parseXORMappedAddress applies to the address: its first byte, four times. */
  const WRITTEN_KEY: seq<byte> := [0x21, 0x21, 0x21, 0x21]

  // ---------- XOR-MAPPED-ADDRESS ----------

  type Key = k: seq<byte> | |k| == 4 witness [0, 0, 0, 0]

  function XorKey(a: seq<byte>, key: Key): (r: seq<byte>)
    requires |a| == 4
    ensures |r| == 4
  {
    [XorByte(a[0], key[0]), XorByte(a[1], key[1]), XorByte(a[2], key[2]), XorByte(a[3], key[3])]
  }

  function XorPort(w: nat): (r: nat)
    requires w < 0x1_0000
    ensures r < 0x1_0000
  {
    Pow2Small();
    XorRange(w, 0x2112, 16);
    Xor(w, 0x2112)
  }

  /** parseXORMappedAddress, with the address key as a parameter. */
  function DecodeWith(key: Key, d: seq<byte>): Result<UDPAddr> {
    if |d| < 8 then Err(MappedAddressTooShort)
    else if d[1] != 0x01 then Err(UnsupportedFamily)
    else Ok(UDPAddr(XorKey(d[4..8], key), XorPort(Be16(d[2], d[3]))))
  }

  /** An IPv4 XOR-MAPPED-ADDRESS value; section 15.2 of RFC 5389 takes the cookie as key. */
  function EncodeWith(key: Key, addr: UDPAddr): (d: seq<byte>)
    requires |addr.ip| == 4 && addr.port < 0x1_0000
    ensures |d| == 8
  {
    var x := XorPort(addr.port);
    [0, 1, Hi(x), Lo(x)] + XorKey(addr.ip, key)
  }

  lemma XorIsIdentityIff(a: nat, k: nat, k': nat)
    ensures Xor(Xor(a, k), k') == a <==> k == k'
  {
    XorAssociative(a, k, k');
    if k == k' {
      XorTwice(a, k);
    } else if Xor(a, Xor(k, k')) == a {
      XorAssociative(a, a, Xor(k, k'));
      XorSelf(a);
      XorAssociative(k, k, k');
      XorSelf(k);
    }
  }

  lemma XorKeyIsIdentityIff(ip: seq<byte>, key': Key, key: Key)
    requires |ip| == 4
    ensures XorKey(XorKey(ip, key'), key) == ip <==> key' == key
  {
    var r := XorKey(XorKey(ip, key'), key);
    forall i | 0 <= i < 4
      ensures r[i] == ip[i] <==> key'[i] == key[i]
    {
      XorIsIdentityIff(ip[i], key'[i], key[i]);
    }
  }

  lemma XorPortTwice(w: nat)
    requires w < 0x1_0000
    ensures XorPort(XorPort(w)) == w
  {
    XorTwice(w, 0x2112);
  }

  lemma EncodedFields(key: Key, addr: UDPAddr)
    requires |addr.ip| == 4 && addr.port < 0x1_0000
    ensures var d := EncodeWith(key, addr);
            d[1] == 1 && Be16(d[2], d[3]) == XorPort(addr.port) && d[4..8] == XorKey(addr.ip, key)
  {
    Be16OfHiLo(XorPort(addr.port));
  }

  /** Decoding inverts encoding exactly when both use the same key; the port always survives. */
  lemma {:induction false} DecodeInvertsIff(key: Key, key': Key, addr: UDPAddr)
    requires |addr.ip| == 4 && addr.port < 0x1_0000
    ensures var r := DecodeWith(key, EncodeWith(key', addr));
            && r == Ok(UDPAddr(XorKey(XorKey(addr.ip, key'), key), addr.port))
            && (r == Ok(addr) <==> key == key')
  {
    EncodedFields(key', addr);
    XorPortTwice(addr.port);
    XorKeyIsIdentityIff(addr.ip, key', key);
  }

  /** As written, the address of a standard response is always wrong: its last three bytes
      come back XORed with 0x33, 0x85 and 0x63. */
  lemma {:induction false} StandardAddressIsWrong(addr: UDPAddr)
    requires |addr.ip| == 4 && addr.port < 0x1_0000
    ensures DecodeWith(WRITTEN_KEY, EncodeWith(COOKIE, addr))
         == Ok(UDPAddr(XorKey(addr.ip, [0x00, 0x33, 0x85, 0x63]), addr.port))
    ensures DecodeWith(WRITTEN_KEY, EncodeWith(COOKIE, addr)) != Ok(addr)
  {
    DecodeInvertsIff(WRITTEN_KEY, COOKIE, addr);
    assert COOKIE[1] != WRITTEN_KEY[1];
    KeysCombine(addr.ip);
  }

  lemma KeysCombine(ip: seq<byte>)
    requires |ip| == 4
    ensures XorKey(XorKey(ip, COOKIE), WRITTEN_KEY) == XorKey(ip, [0x00, 0x33, 0x85, 0x63])
  {
    KeyDifference();
    XorAssociative(ip[0], 0x21, 0x21);
    XorAssociative(ip[1], 0x12, 0x21);
    XorAssociative(ip[2], 0xA4, 0x21);
    XorAssociative(ip[3], 0x42, 0x21);
  }

  lemma KeyDifference()
    ensures Xor(0x21, 0x21) == 0x00 && Xor(0x12, 0x21) == 0x33 && Xor(0xA4, 0x21) == 0x85 && Xor(0x42, 0x21) == 0x63
  {
    XorSelf(0x21);
    XorHex(0x12, 1, 2);
    XorHex(0xA4, 0xA, 4);
    XorHex(0x42, 4, 2);
    HexDigits();
  }

  lemma XorHex(a: nat, h: nat, l: nat)
    requires a / 16 == h && a % 16 == l
    ensures Xor(a, 0x21) == 16 * Xor(h, 2) + Xor(l, 1)
  {
    XorBase16(a, 0x21);
  }

  lemma HexDigits()
    ensures Xor(1, 2) == 3 && Xor(2, 1) == 3 && Xor(0xA, 2) == 8 && Xor(4, 1) == 5 && Xor(4, 2) == 6
  {
  }

  lemma XorPortBytes(w: nat)
    requires w < 0x1_0000
    ensures Hi(XorPort(w)) == XorByte(Hi(w), 0x21) && Lo(XorPort(w)) == XorByte(Lo(w), 0x12)
  {
    XorWord(w, 0x2112);
  }

  /** What decoding makes of every value, byte by byte. */
  lemma DecodedBytes(d: seq<byte>)
    ensures var r := DecodeWith(WRITTEN_KEY, d);
            if |d| < 8 then r == Err(MappedAddressTooShort)
            else if d[1] != 1 then r == Err(UnsupportedFamily)
            else
              && r.Ok?
              && 0 <= r.value.port < 0x1_0000
              && Hi(r.value.port) == XorByte(d[2], 0x21) && Lo(r.value.port) == XorByte(d[3], 0x12)
              && r.value.ip == [XorByte(d[4], 0x21), XorByte(d[5], 0x21), XorByte(d[6], 0x21), XorByte(d[7], 0x21)]
  {
    if |d| >= 8 && d[1] == 1 {
      XorPortBytes(Be16(d[2], d[3]));
      assert Hi(Be16(d[2], d[3])) == d[2] && Lo(Be16(d[2], d[3])) == d[3];
    }
  }

  /** The encoding of section 15.2 of RFC 5389, byte by byte: port and address XORed with the cookie. */
  lemma EncodedBytes(addr: UDPAddr)
    requires |addr.ip| == 4 && addr.port < 0x1_0000
    ensures EncodeWith(COOKIE, addr) ==
            [0, 1, XorByte(Hi(addr.port), 0x21), XorByte(Lo(addr.port), 0x12),
             XorByte(addr.ip[0], 0x21), XorByte(addr.ip[1], 0x12), XorByte(addr.ip[2], 0xA4), XorByte(addr.ip[3], 0x42)]
  {
    XorPortBytes(addr.port);
  }

  method ParseXORMappedAddress(data: seq<byte>) returns (r: Result<UDPAddr>)
    ensures r == DecodeWith(WRITTEN_KEY, data)
  {
    if |data| < 8 {
      return Err(MappedAddressTooShort);
    }
    var family := data[1];
    if family != 0x01 {
      return Err(UnsupportedFamily);
    }
    var port := XorPort(Be16(data[2], data[3]));
    var ip := new byte[4](_ => 0);
    for i := 0 to 4
      invariant forall k :: 0 <= k < i ==> ip[k] == XorByte(data[4 + k], 0x21)
    {
      ip[i] := XorByte(data[4 + i], 0x21);
    }
    assert ip[..] == XorKey(data[4..8], WRITTEN_KEY);
    return Ok(UDPAddr(ip[..], port));
  }

  // ---------- The attribute walk ----------

  function TypeAt(data: seq<byte>, o: nat): nat
    requires o + 4 <= |data|
  {
    Be16(data[o], data[o + 1])
  }

  function LengthAt(data: seq<byte>, o: nat): nat
    requires o + 4 <= |data|
  {
    Be16(data[o + 2], data[o + 3])
  }

  /** The offset of the first XOR-MAPPED-ADDRESS met by stepping over whole attributes from o,
      while more than a bare attribute header remains. */
  function Walk(data: seq<byte>, o: nat): (r: Option<nat>)
    ensures r.Some? ==> r.value + 4 < |data| && TypeAt(data, r.value) == XOR_MAPPED_ADDRESS
    decreases |data| - o
  {
    if o + 4 >= |data| then None
    else if TypeAt(data, o) == XOR_MAPPED_ADDRESS then Some(o)
    else Walk(data, o + 4 + LengthAt(data, o))
  }

  function Parse(data: seq<byte>): Result<UDPAddr> {
    if |data| < 20 then Err(ResponseTooShort)
    else if Be16(data[0], data[1]) != BINDING_SUCCESS then Err(UnexpectedType)
    else match Walk(data, 20)
      case None => Err(NotFound)
      case Some(o) =>
        var end := o + 4 + LengthAt(data, o);
        if end > |data| then Err(AttributeTooShort)
        else DecodeWith(WRITTEN_KEY, data[o + 4..end])
  }

  method ParseSTUNResponse(data: seq<byte>) returns (r: Result<UDPAddr>)
    ensures r == Parse(data)
  {
    if |data| < 20 {
      return Err(ResponseTooShort);
    }
    if Be16(data[0], data[1]) != BINDING_SUCCESS {
      return Err(UnexpectedType);
    }
    var offset := 20;
    while offset < |data| - 4
      invariant offset >= 20
      invariant Walk(data, 20) == Walk(data, offset)
      decreases |data| - offset
    {
      var attrType, attrLen := TypeAt(data, offset), LengthAt(data, offset);
      if attrType == XOR_MAPPED_ADDRESS {
        if offset + 4 + attrLen > |data| {
          return Err(AttributeTooShort);
        }
        r := ParseXORMappedAddress(data[offset + 4..offset + 4 + attrLen]);
        return;
      }
      offset := offset + 4 + attrLen;
    }
    return Err(NotFound);
  }

  /** A path of attribute offsets from 20, none but the last an XOR-MAPPED-ADDRESS. */
  ghost predicate IsPath(data: seq<byte>, path: seq<nat>) {
    && |path| > 0 && path[0] == 20
    && forall i :: 0 <= i < |path| - 1 ==>
         && path[i] + 4 < |data| && TypeAt(data, path[i]) != XOR_MAPPED_ADDRESS
         && path[i + 1] == path[i] + 4 + LengthAt(data, path[i])
  }

  ghost predicate Reaches(data: seq<byte>, o: nat) {
    o + 4 < |data| && TypeAt(data, o) == XOR_MAPPED_ADDRESS
    && exists path :: IsPath(data, path) && path[|path| - 1] == o
  }

  lemma {:induction false} PathExtends(data: seq<byte>, path: seq<nat>) returns (full: seq<nat>)
    requires IsPath(data, path)
    requires Walk(data, path[|path| - 1]).Some?
    ensures IsPath(data, full) && Walk(data, path[|path| - 1]) == Some(full[|full| - 1])
    decreases |data| - path[|path| - 1]
  {
    var o := path[|path| - 1];
    if TypeAt(data, o) == XOR_MAPPED_ADDRESS {
      full := path;
    } else {
      full := PathExtends(data, path + [o + 4 + LengthAt(data, o)]);
    }
  }

  lemma {:induction false} WalkFollowsPath(data: seq<byte>, path: seq<nat>)
    requires IsPath(data, path)
    ensures Walk(data, 20) == Walk(data, path[|path| - 1])
    decreases |path|
  {
    var n := |path| - 1;
    if n > 0 {
      WalkFollowsPath(data, path[..n]);
    }
  }

  lemma WalkIsReach(data: seq<byte>, o: nat)
    ensures Walk(data, 20) == Some(o) <==> Reaches(data, o)
  {
    if Walk(data, 20) == Some(o) {
      var path := PathExtends(data, [20]);
    }
    if Reaches(data, o) {
      var path :| IsPath(data, path) && path[|path| - 1] == o;
      WalkFollowsPath(data, path);
    }
  }

  /** The attribute at o is complete, at least 8 bytes long and of family IPv4. */
  predicate Usable(data: seq<byte>, o: nat)
    requires o + 4 < |data|
  {
    o + 4 + LengthAt(data, o) <= |data| && LengthAt(data, o) >= 8 && data[o + 5] == 0x01
  }

  /** On every byte string, parsing succeeds exactly when the message is a binding success and
      the first reachable XOR-MAPPED-ADDRESS is usable. */
  lemma ParseSucceedsIff(data: seq<byte>)
    ensures Parse(data).Ok? <==>
            && |data| >= 20 && data[0] == 1 && data[1] == 1
            && exists o: nat :: Reaches(data, o) && Usable(data, o)
  {
    if |data| >= 20 {
      match Walk(data, 20)
      case Some(o) =>
        WalkIsReach(data, o);
        forall o': nat | Reaches(data, o') ensures o' == o { WalkIsReach(data, o'); }
      case None =>
        forall o: nat | Reaches(data, o) ensures false { WalkIsReach(data, o); }
    }
  }

  /** Which error each malformed response gets, in the order the program looks. */
  lemma ParseErrors(data: seq<byte>)
    ensures Parse(data) == Err(ResponseTooShort) <==> |data| < 20
    ensures Parse(data) == Err(UnexpectedType) <==> |data| >= 20 && (data[0] != 1 || data[1] != 1)
    ensures Parse(data) == Err(NotFound) <==>
            |data| >= 20 && data[0] == 1 && data[1] == 1 && forall o: nat :: !Reaches(data, o)
  {
    if |data| >= 20 {
      match Walk(data, 20)
      case Some(o) => WalkIsReach(data, o);
      case None =>
        forall o: nat ensures !Reaches(data, o) { WalkIsReach(data, o); }
    }
  }

  /** What is decoded is that attribute's value and nothing else. */
  lemma ParseDecodesFirst(data: seq<byte>, o: nat)
    requires |data| >= 20 && data[0] == 1 && data[1] == 1 && Reaches(data, o)
    ensures var end := o + 4 + LengthAt(data, o);
            Parse(data) == (if end > |data| then Err(AttributeTooShort)
                            else DecodeWith(WRITTEN_KEY, data[o + 4..end]))
  {
    WalkIsReach(data, o);
  }

  // ---------- Encoding attribute lists ----------

  datatype RawAttr = RawAttr(typ: nat, value: seq<byte>)

  type Attr = a: RawAttr | a.typ < 0x1_0000 && |a.value| < 0x1_0000 witness RawAttr(0, [])

  /** An attribute in the framing the walk steps over: header and value, no padding. */
  function Frame(a: Attr): (bs: seq<byte>)
    ensures |bs| == 4 + |a.value|
  {
    [Hi(a.typ), Lo(a.typ), Hi(|a.value|), Lo(|a.value|)] + a.value
  }

  function FrameAll(attrs: seq<Attr>): seq<byte> {
    if attrs == [] then [] else Frame(attrs[0]) + FrameAll(attrs[1..])
  }

  /** The framing of section 15 of RFC 5389: the value is padded to a multiple of 4 bytes. */
  function FramePadded(a: Attr): seq<byte> {
    Frame(a) + Zeros((4 - |a.value| % 4) % 4)
  }

  function FramePaddedAll(attrs: seq<Attr>): seq<byte> {
    if attrs == [] then [] else FramePadded(attrs[0]) + FramePaddedAll(attrs[1..])
  }

  function Zeros(n: nat): (z: seq<byte>)
    ensures |z| == n && forall i :: 0 <= i < n ==> z[i] == 0
  {
    if n == 0 then [] else Zeros(n - 1) + [0]
  }

  predicate IsSuccessHeader(header: seq<byte>) {
    |header| == 20 && header[0] == 1 && header[1] == 1
  }

  predicate NoneMapped(attrs: seq<Attr>) {
    forall i :: 0 <= i < |attrs| ==> attrs[i].typ != XOR_MAPPED_ADDRESS
  }

  /** bs stands in the data at offset o. */
  predicate At(data: seq<byte>, o: nat, bs: seq<byte>) {
    o + |bs| <= |data| && data[o..o + |bs|] == bs
  }

  lemma AtSplit(data: seq<byte>, o: nat, a: seq<byte>, b: seq<byte>)
    requires At(data, o, a + b)
    ensures At(data, o, a) && At(data, o + |a|, b)
  {
    var whole := data[o..o + |a + b|];
    assert data[o..o + |a|] == whole[..|a|] == a;
    assert data[o + |a|..o + |a| + |b|] == whole[|a|..] == b;
  }

  lemma FrameAt(data: seq<byte>, o: nat, a: Attr)
    requires At(data, o, Frame(a))
    ensures TypeAt(data, o) == a.typ && LengthAt(data, o) == |a.value|
    ensures data[o + 4..o + 4 + |a.value|] == a.value
  {
    var head := [Hi(a.typ), Lo(a.typ), Hi(|a.value|), Lo(|a.value|)];
    AtSplit(data, o, head, a.value);
    Be16OfHiLo(a.typ);
    Be16OfHiLo(|a.value|);
    var h := data[o..o + 4];
    assert h == head;
    assert data[o] == h[0] && data[o + 1] == h[1] && data[o + 2] == h[2] && data[o + 3] == h[3];
  }

  /** The headers the walk reads from o on are those of the attributes, none of them mapped. */
  predicate Lists(data: seq<byte>, o: nat, attrs: seq<Attr>)
    decreases |attrs|
  {
    attrs == [] ||
    (&& o + 4 < |data| && TypeAt(data, o) == attrs[0].typ != XOR_MAPPED_ADDRESS
     && LengthAt(data, o) == |attrs[0].value|
     && Lists(data, o + 4 + |attrs[0].value|, attrs[1..]))
  }

  lemma {:induction false} FramesAreListed(data: seq<byte>, o: nat, attrs: seq<Attr>)
    requires NoneMapped(attrs) && At(data, o, FrameAll(attrs)) && o + |FrameAll(attrs)| < |data|
    ensures Lists(data, o, attrs)
    decreases |attrs|
  {
    if attrs != [] {
      var a, more := attrs[0], attrs[1..];
      assert NoneMapped(more);
      AtSplit(data, o, Frame(a), FrameAll(more));
      FrameAt(data, o, a);
      FramesAreListed(data, o + |Frame(a)|, more);
    }
  }

  lemma {:induction false} WalkSkips(data: seq<byte>, o: nat, attrs: seq<Attr>)
    requires Lists(data, o, attrs)
    ensures Walk(data, o) == Walk(data, o + |FrameAll(attrs)|)
    decreases |attrs|
  {
    if attrs != [] {
      WalkSkips(data, o + 4 + |attrs[0].value|, attrs[1..]);
    }
  }

  lemma AtParts(a: seq<byte>, b: seq<byte>, c: seq<byte>, d: seq<byte>)
    ensures var data := a + b + c + d;
            At(data, |a|, b) && At(data, |a| + |b|, c) && data[..|a|] == a
  {
    var data := a + b + c + d;
    assert data[|a|..|a| + |b|] == b && data[|a| + |b|..|a| + |b| + |c|] == c;
  }

  /** Parsing undoes encoding: after any attributes of other types, in the walk's own framing,
      the XOR-MAPPED-ADDRESS is the one decoded, whatever follows it. */
  lemma {:induction false} ListRoundTrip(header: seq<byte>, attrs: seq<Attr>, value: seq<byte>, tail: seq<byte>)
    requires IsSuccessHeader(header) && NoneMapped(attrs) && 8 <= |value| < 0x1_0000
    ensures Parse(header + FrameAll(attrs) + Frame(RawAttr(XOR_MAPPED_ADDRESS, value)) + tail)
         == DecodeWith(WRITTEN_KEY, value)
  {
    var x := Frame(RawAttr(XOR_MAPPED_ADDRESS, value));
    var data := header + FrameAll(attrs) + x + tail;
    AtParts(header, FrameAll(attrs), x, tail);
    assert data[0] == header[0] && data[1] == header[1];
    ParseAt(data, attrs, value);
  }

  lemma ParseAt(data: seq<byte>, attrs: seq<Attr>, value: seq<byte>)
    requires |data| >= 20 && Be16(data[0], data[1]) == BINDING_SUCCESS
    requires NoneMapped(attrs) && 8 <= |value| < 0x1_0000
    requires At(data, 20, FrameAll(attrs))
    requires At(data, 20 + |FrameAll(attrs)|, Frame(RawAttr(XOR_MAPPED_ADDRESS, value)))
    ensures Parse(data) == DecodeWith(WRITTEN_KEY, value)
  {
    var o := 20 + |FrameAll(attrs)|;
    FrameAt(data, o, RawAttr(XOR_MAPPED_ADDRESS, value));
    WalkReaches(data, attrs, o);
    ParseFound(data, o, value);
  }

  lemma WalkReaches(data: seq<byte>, attrs: seq<Attr>, o: nat)
    requires NoneMapped(attrs) && At(data, 20, FrameAll(attrs))
    requires o == 20 + |FrameAll(attrs)| && o + 4 < |data| && TypeAt(data, o) == XOR_MAPPED_ADDRESS
    ensures Walk(data, 20) == Some(o)
  {
    FramesAreListed(data, 20, attrs);
    WalkSkips(data, 20, attrs);
  }

  lemma ParseFound(data: seq<byte>, o: nat, value: seq<byte>)
    requires |data| >= 20 && Be16(data[0], data[1]) == BINDING_SUCCESS
    requires Walk(data, 20) == Some(o)
    requires LengthAt(data, o) == |value| && At(data, o + 4, value)
    ensures Parse(data) == DecodeWith(WRITTEN_KEY, value)
  {
  }

  lemma {:induction false} PaddedIsPlain(attrs: seq<Attr>)
    requires forall i :: 0 <= i < |attrs| ==> |attrs[i].value| % 4 == 0
    ensures FramePaddedAll(attrs) == FrameAll(attrs)
  {
    if attrs != [] {
      PaddedIsPlain(attrs[1..]);
    }
  }

  /** The same for standard padding, when every earlier length is a multiple of 4. */
  lemma {:induction false} PaddedRoundTrip(header: seq<byte>, attrs: seq<Attr>, value: seq<byte>, tail: seq<byte>)
    requires IsSuccessHeader(header) && NoneMapped(attrs) && 8 <= |value| < 0x1_0000
    requires forall i :: 0 <= i < |attrs| ==> |attrs[i].value| % 4 == 0
    ensures Parse(header + FramePaddedAll(attrs) + Frame(RawAttr(XOR_MAPPED_ADDRESS, value)) + tail)
         == DecodeWith(WRITTEN_KEY, value)
  {
    PaddedIsPlain(attrs);
    ListRoundTrip(header, attrs, value, tail);
  }

  /** A standard message whose last attribute is a mapped address with value d. */
  function PaddedMessage(header: seq<byte>, attrs: seq<Attr>, last: Attr, d: seq<byte>): seq<byte>
    requires |d| < 0x1_0000
  {
    header + FramePaddedAll(attrs) + FramePadded(last) + Frame(RawAttr(XOR_MAPPED_ADDRESS, d))
  }

  /** When only the last attribute before a final IPv4 address may be padded, the address is
      found exactly when that attribute needs no padding. */
  lemma {:induction false} PaddingBreaksIff(header: seq<byte>, attrs: seq<Attr>, last: Attr, addr: UDPAddr)
    requires IsSuccessHeader(header) && NoneMapped(attrs + [last])
    requires |addr.ip| == 4 && addr.port < 0x1_0000
    requires forall i :: 0 <= i < |attrs| ==> |attrs[i].value| % 4 == 0
    ensures var d := EncodeWith(COOKIE, addr);
            var r := Parse(PaddedMessage(header, attrs, last, d));
            && (r == DecodeWith(WRITTEN_KEY, d) <==> |last.value| % 4 == 0)
            && (|last.value| % 4 != 0 ==> r == Err(NotFound))
  {
    var d := EncodeWith(COOKIE, addr);
    DecodeInvertsIff(WRITTEN_KEY, COOKIE, addr);
    MessageBytes(header, attrs, last, d);
    if |last.value| % 4 == 0 {
      ListRoundTrip(header, attrs + [last], d, []);
    } else {
      MisalignedIsNotFound(header, attrs + [last], Zeros(4 - |last.value| % 4), d);
    }
  }

  lemma MessageBytes(header: seq<byte>, attrs: seq<Attr>, last: Attr, d: seq<byte>)
    requires |d| == 8 && forall i :: 0 <= i < |attrs| ==> |attrs[i].value| % 4 == 0
    ensures var front, x := header + FrameAll(attrs + [last]), Frame(RawAttr(XOR_MAPPED_ADDRESS, d));
            PaddedMessage(header, attrs, last, d) ==
            if |last.value| % 4 == 0 then front + x + [] else front + Zeros(4 - |last.value| % 4) + x
  {
    PaddedIsPlain(attrs);
    SplitLast(attrs, last);
    var pad, x := Zeros((4 - |last.value| % 4) % 4), Frame(RawAttr(XOR_MAPPED_ADDRESS, d));
    Regroup(header, FrameAll(attrs), Frame(last), pad, x);
    if |last.value| % 4 == 0 {
      assert pad == [];
      assert header + FrameAll(attrs + [last]) + [] + x == header + FrameAll(attrs + [last]) + x + [];
    }
  }

  lemma Regroup(a: seq<byte>, b: seq<byte>, c: seq<byte>, d: seq<byte>, e: seq<byte>)
    ensures a + b + (c + d) + e == a + (b + c) + d + e
  {
  }

  lemma MisalignedIsNotFound(header: seq<byte>, attrs: seq<Attr>, pad: seq<byte>, d: seq<byte>)
    requires IsSuccessHeader(header) && NoneMapped(attrs) && |d| == 8
    requires 1 <= |pad| <= 3 && forall i :: 0 <= i < |pad| ==> pad[i] == 0
    ensures Parse(header + FrameAll(attrs) + pad + Frame(RawAttr(XOR_MAPPED_ADDRESS, d))) == Err(NotFound)
  {
    var body, x := FrameAll(attrs), Frame(RawAttr(XOR_MAPPED_ADDRESS, d));
    var data := header + body + pad + x;
    assert data == header + body + (pad + x) + [];
    AtParts(header, body, pad + x, []);
    assert data[0] == header[0] && data[1] == header[1];
    WalkIsNone(data, attrs, pad, d);
  }

  lemma WalkIsNone(data: seq<byte>, attrs: seq<Attr>, pad: seq<byte>, d: seq<byte>)
    requires NoneMapped(attrs) && 1 <= |pad| <= 3 && |d| == 8
    requires forall i :: 0 <= i < |pad| ==> pad[i] == 0
    requires At(data, 20, FrameAll(attrs))
    requires var o := 20 + |FrameAll(attrs)|;
             At(data, o, pad + Frame(RawAttr(XOR_MAPPED_ADDRESS, d))) && o + |pad| + 12 == |data|
    ensures Walk(data, 20).None?
  {
    FramesAreListed(data, 20, attrs);
    WalkSkips(data, 20, attrs);
    MisalignedWalk(data, 20 + |FrameAll(attrs)|, pad, d);
  }

  lemma {:induction false} SplitLast(attrs: seq<Attr>, last: Attr)
    ensures FrameAll(attrs + [last]) == FrameAll(attrs) + Frame(last)
  {
    if attrs == [] {
      assert FrameAll([last]) == Frame(last) + FrameAll([]);
    } else {
      assert (attrs + [last])[1..] == attrs[1..] + [last];
      SplitLast(attrs[1..], last);
    }
  }

  /** Read from inside the padding, the bytes of the final attribute look like lengths that
      run past the end. */
  lemma MisalignedWalk(data: seq<byte>, o: nat, pad: seq<byte>, d: seq<byte>)
    requires 1 <= |pad| <= 3 && |d| == 8
    requires forall i :: 0 <= i < |pad| ==> pad[i] == 0
    requires At(data, o, pad + Frame(RawAttr(XOR_MAPPED_ADDRESS, d))) && o + |pad| + 12 == |data|
    ensures Walk(data, o).None?
  {
    var p, x := |pad|, Frame(RawAttr(XOR_MAPPED_ADDRESS, d));
    var rest := data[o..o + p + 12];
    assert rest == pad + x && x[0] == 0x00 && x[1] == 0x20 && x[2] == 0x00 && x[3] == 0x08;
    forall i | o <= i < o + p ensures data[i] == 0 { assert data[i] == rest[i - o] == pad[i - o]; }
    assert data[o + p] == rest[p] == x[0] && data[o + p + 1] == rest[p + 1] == x[1];
    assert data[o + p + 2] == rest[p + 2] == x[2] && data[o + p + 3] == rest[p + 3] == x[3];
    MisalignedBy(data, o, p);
  }

  lemma MisalignedBy(data: seq<byte>, o: nat, p: nat)
    requires 1 <= p <= 3 && o + p + 12 == |data|
    requires forall i :: o <= i < o + p ==> data[i] == 0
    requires data[o + p] == 0x00 && data[o + p + 1] == 0x20 && data[o + p + 2] == 0x00 && data[o + p + 3] == 0x08
    ensures Walk(data, o).None?
  {
    assert data[o] == 0 && data[o + p - 1] == 0;
    if p == 3 {
      assert data[o + 1] == 0;
      assert Walk(data, o + 4).None?;
    }
  }

  /** In longer lists a multiple of 4 is not necessary: here the walk leaves an attribute of
      2 bytes out of step and comes back into step by chance at the next. */
  lemma {:induction false} PaddingCanResync(header: seq<byte>, value: seq<byte>)
    requires IsSuccessHeader(header) && 8 <= |value| < 0x1_0000
    ensures Parse(header + FramePaddedAll([RawAttr(0x8022, [65, 66]), RawAttr(0x0006, [1, 2, 3, 4])])
                  + Frame(RawAttr(XOR_MAPPED_ADDRESS, value)) + [])
         == DecodeWith(WRITTEN_KEY, value)
  {
    ResyncBytes();
    ListRoundTrip(header, [RawAttr(0x8022, [65, 66]), RawAttr(0x0000, [0, 4, 1, 2, 3, 4])], value, []);
  }

  lemma ResyncBytes()
    ensures FramePaddedAll([RawAttr(0x8022, [65, 66]), RawAttr(0x0006, [1, 2, 3, 4])])
         == FrameAll([RawAttr(0x8022, [65, 66]), RawAttr(0x0000, [0, 4, 1, 2, 3, 4])])
  {
    var a: Attr, b: Attr := RawAttr(0x8022, [65, 66]), RawAttr(0x0006, [1, 2, 3, 4]);
    var b': Attr := RawAttr(0x0000, [0, 4, 1, 2, 3, 4]);
    FrameTwo(a, b');
    FramePaddedTwo(a, b);
    assert Zeros(2) == [0, 0];
    assert FramePadded(a) == [0x80, 0x22, 0, 2, 65, 66, 0, 0];
    assert FramePadded(b) == [0, 6, 0, 4, 1, 2, 3, 4];
    assert Frame(a) == [0x80, 0x22, 0, 2, 65, 66];
    assert Frame(b') == [0, 0, 0, 6, 0, 4, 1, 2, 3, 4];
  }

  lemma FrameTwo(a: Attr, b: Attr)
    ensures FrameAll([a, b]) == Frame(a) + Frame(b)
  {
    assert [a, b][1..] == [b];
    assert FrameAll([b]) == Frame(b) + FrameAll([]);
  }

  lemma FramePaddedTwo(a: Attr, b: Attr)
    ensures FramePaddedAll([a, b]) == FramePadded(a) + FramePadded(b)
  {
    assert [a, b][1..] == [b];
    assert FramePaddedAll([b]) == FramePadded(b) + FramePaddedAll([]);
  }

  /** The usual response, byte by byte: one attribute, whatever the rest of the header. */
  lemma UsualResponse(header: seq<byte>, d: seq<byte>)
    requires |header| == 20 && header[0] == 1 && header[1] == 1
    requires |d| == 8
    ensures Parse(header + [0x00, 0x20, 0x00, 0x08] + d) ==
            if d[1] != 1 then Err(UnsupportedFamily)
            else Ok(UDPAddr([XorByte(d[4], 0x21), XorByte(d[5], 0x21), XorByte(d[6], 0x21), XorByte(d[7], 0x21)],
                            Be16(XorByte(d[2], 0x21), XorByte(d[3], 0x12))))
  {
    var x := Frame(RawAttr(XOR_MAPPED_ADDRESS, d));
    assert x == [0x00, 0x20, 0x00, 0x08] + d;
    assert header + FrameAll([]) + x + [] == header + [0x00, 0x20, 0x00, 0x08] + d;
    ListRoundTrip(header, [], d, []);
    DecodedBytes(d);
    if d[1] == 1 {
      Be16OfHiLo(XorPort(Be16(d[2], d[3])));
    }
  }

  // ---------- The request ----------

  function Request(): seq<byte> {
    [0x00, 0x01, 0x00, 0x00] + COOKIE + [0, 0, 0, 0, 0, 0, 0, 0, 0, 0, 0, 0]
  }

  method CreateSTUNRequest() returns (request: array<byte>)
    ensures fresh(request) && request[..] == Request()
    ensures request[..] == [0x00, 0x01, 0x00, 0x00, 0x21, 0x12, 0xA4, 0x42, 0, 0, 0, 0, 0, 0, 0, 0, 0, 0, 0, 0]
  {
    request := new byte[20];
    request[0], request[1] := Hi(0x0001), Lo(0x0001);
    request[2], request[3] := Hi(0x0000), Lo(0x0000);
    request[4], request[5], request[6], request[7] := 0x21, 0x12, 0xA4, 0x42;
    for i := 8 to 20
      invariant forall k :: 0 <= k < i ==> request[k] == Request()[k]
    {
      request[i] := 0;
    }
    assert request[..] == Request();
  }

  /** Repaired variant, not the program's: decoding with the cookie the request carried undoes
      the encoding of section 15.2 of RFC 5389. */
  lemma RepairedRoundTrip(addr: UDPAddr)
    requires |addr.ip| == 4 && addr.port < 0x1_0000
    ensures DecodeWith(Request()[4..8], EncodeWith(COOKIE, addr)) == Ok(addr)
  {
    assert Request()[4..8] == COOKIE;
    DecodeInvertsIff(COOKIE, COOKIE, addr);
  }
}
