/** IPv4 header checksum (section 1 of RFC 1071, section 3.1 of RFC 791) and the TTL setter. */
module Packets {
  import opened Bytes

  newtype uint32 = x: int | 0 <= x < 0x1_0000_0000

  const HEADER_BYTES := 20

  // ---------- Ones' complement sums ----------

  /** The sum of the k big-endian words at the front of the data. */
  function WordSum(data: seq<byte>, k: nat): (s: nat)
    requires 2 * k <= |data|
    ensures s <= 0xFFFF * k
  {
    if k == 0 then 0 else WordSum(data, k - 1) + Be16(data[2 * k - 2], data[2 * k - 1])
  }

  /** The 16-bit ones' complement value of a sum: 65535 is cast out until the rest fits. */
  function Fold(s: nat): (r: nat)
    ensures r <= 0xFFFF
  {
    if s <= 0xFFFF then s else Fold(s - 0xFFFF)
  }

  /** One round of the fold loop, adding the high half to the low half, casts out 65535 as
      often as the high half says. */
  lemma CarryRound(s: nat)
    requires s > 0xFFFF
    ensures var s' := s % 0x1_0000 + s / 0x1_0000; s' < s && Fold(s') == Fold(s)
  {
    CastOut(s, s / 0x1_0000);
  }

  lemma {:induction false} CastOut(s: nat, q: nat)
    requires s - 0xFFFF * q > 0
    ensures Fold(s - 0xFFFF * q) == Fold(s)
  {
    if q > 0 {
      CastOut(s - 0xFFFF, q - 1);
    }
  }

  /** Ones' complement addition of two words (section 1 of RFC 1071). */
  function OnesAdd(a: nat, b: nat): nat {
    Fold(a + b)
  }

  function OnesNot(w: nat): nat
    requires w <= 0xFFFF
  {
    0xFFFF - w
  }

  /** Folding subtracts a multiple of 65535 and never turns a positive sum into zero. */
  lemma {:induction false} FoldSubtracts(s: nat) returns (k: int)
    ensures k >= 0
    ensures s == Fold(s) + 0xFFFF * k
    ensures Fold(s) == 0 <==> s == 0
  {
    if s <= 0xFFFF {
      k := 0;
    } else {
      k := FoldSubtracts(s - 0xFFFF);
      k := k + 1;
    }
  }

  /** r represents s: the residue in 1..65535, with zero for zero only. */
  predicate Represents(r: nat, s: nat, k: int) {
    r <= 0xFFFF && s == r + 0xFFFF * k && (r == 0 <==> s == 0)
  }

  lemma SameResidue(r: nat, s: nat, k: int, r': nat, s': nat, k': int, d: int)
    requires Represents(r, s, k) && Represents(r', s', k')
    requires s' == s + 0xFFFF * d && (s == 0 <==> s' == 0)
    ensures r == r'
  {
  }

  /** The fold loop maps 0 to 0 and any s > 0 to ((s - 1) mod 65535) + 1. */
  lemma {:induction false} FoldIsResidue(s: nat)
    ensures Fold(s) == if s == 0 then 0 else (s - 1) % 0xFFFF + 1
  {
    var k := FoldSubtracts(s);
    if s > 0 {
      SameResidue(Fold(s), s, k, (s - 1) % 0xFFFF + 1, s, (s - 1) / 0xFFFF, 0);
    }
  }

  // ---------- Headers ----------

  type Header = d: seq<byte> | |d| >= HEADER_BYTES witness seq(20, _ => 0)

  function HeaderSum(data: Header): nat {
    WordSum(data, HEADER_BYTES / 2)
  }

  function Zeroed(data: Header): Header {
    data[10 := 0][11 := 0]
  }

  /** The value CalculateChecksum returns. */
  function Checksum(data: Header): (c: nat)
    ensures c <= 0xFFFF
  {
    OnesNot(Fold(HeaderSum(Zeroed(data))))
  }

  function WithWord(data: Header, k: nat, w: nat): Header
    requires k < HEADER_BYTES / 2 && w <= 0xFFFF
  {
    data[2 * k := Hi(w)][2 * k + 1 := Lo(w)]
  }

  function Word(data: Header, k: nat): nat
    requires k < HEADER_BYTES / 2
  {
    Be16(data[2 * k], data[2 * k + 1])
  }

  /** Section 1 of RFC 1071: the ones' complement sum of a good header is all ones. */
  predicate Verifies(data: Header) {
    Fold(HeaderSum(data)) == 0xFFFF
  }

  lemma {:induction false} SumUpdate(a: Header, b: Header, j: nat, k: nat)
    requires 2 * k <= HEADER_BYTES && j < HEADER_BYTES / 2
    requires forall i :: 0 <= i < HEADER_BYTES && i != 2 * j && i != 2 * j + 1 ==> a[i] == b[i]
    ensures WordSum(b, k) + (if j < k then Word(a, j) else 0) == WordSum(a, k) + (if j < k then Word(b, j) else 0)
  {
    if k > 0 {
      SumUpdate(a, b, j, k - 1);
    }
  }

  lemma StoredSum(data: Header, w: nat)
    requires w <= 0xFFFF
    ensures HeaderSum(WithWord(data, 5, w)) == HeaderSum(Zeroed(data)) + w
  {
    SumUpdate(Zeroed(data), WithWord(data, 5, w), 5, 10);
  }

  /** The sum covers the first twenty bytes and no others, even offsets weighing 256. */
  lemma HeaderSumIsBytes(data: Header)
    ensures HeaderSum(data) ==
            256 * (data[0] as int + data[2] + data[4] + data[6] + data[8] + data[10] + data[12] + data[14] + data[16] + data[18])
            + data[1] + data[3] + data[5] + data[7] + data[9] + data[11] + data[13] + data[15] + data[17] + data[19]
  {
    FiveWords(data);
    assert WordSum(data, 7) == WordSum(data, 5) + Be16(data[10], data[11]) + Be16(data[12], data[13]);
    assert WordSum(data, 9) == WordSum(data, 7) + Be16(data[14], data[15]) + Be16(data[16], data[17]);
    assert WordSum(data, 10) == WordSum(data, 9) + Be16(data[18], data[19]);
  }

  lemma FiveWords(data: Header)
    ensures WordSum(data, 5) == 256 * (data[0] as int + data[2] + data[4] + data[6] + data[8])
                                + data[1] + data[3] + data[5] + data[7] + data[9]
  {
    assert WordSum(data, 2) == WordSum(data, 0) + Be16(data[0], data[1]) + Be16(data[2], data[3]);
    assert WordSum(data, 4) == WordSum(data, 2) + Be16(data[4], data[5]) + Be16(data[6], data[7]);
    assert WordSum(data, 5) == WordSum(data, 4) + Be16(data[8], data[9]);
  }

  /** What is returned, from the bytes: the ones' complement of the sum without bytes 10 and 11. */
  lemma ChecksumFromBytes(data: Header, s: nat)
    requires s == 256 * (data[0] as int + data[2] + data[4] + data[6] + data[8]
                         + data[12] + data[14] + data[16] + data[18])
                  + data[1] + data[3] + data[5] + data[7] + data[9] + data[13] + data[15] + data[17] + data[19]
    ensures Checksum(data) == if s == 0 then 0xFFFF else 0xFFFF - ((s - 1) % 0xFFFF + 1)
  {
    HeaderSumIsBytes(Zeroed(data));
    FoldIsResidue(s);
  }

  /** The example header of many texts on the checksum. */
  lemma KnownHeader()
    ensures Checksum([0x45, 0x00, 0x00, 0x73, 0x00, 0x00, 0x40, 0x00, 0x40, 0x11,
                      0x00, 0x00, 0xC0, 0xA8, 0x00, 0x01, 0xC0, 0xA8, 0x00, 0xC7]) == 0xB861
  {
    var data: Header := [0x45, 0x00, 0x00, 0x73, 0x00, 0x00, 0x40, 0x00, 0x40, 0x11,
                         0x00, 0x00, 0xC0, 0xA8, 0x00, 0x01, 0xC0, 0xA8, 0x00, 0xC7];
    ChecksumFromBytes(data, 0x2479C);
  }

  /** A stored checksum word verifies exactly when it is the calculated one, where zero may
      also be written as all ones. */
  lemma VerifiesIff(data: Header, w: nat)
    requires w <= 0xFFFF
    ensures Verifies(WithWord(data, 5, w)) <==>
            w == Checksum(data) || (Checksum(data) == 0 && w == 0xFFFF)
  {
    var s := HeaderSum(Zeroed(data));
    StoredSum(data, w);
    var j := FoldSubtracts(s);
    var k := FoldSubtracts(s + w);
    AllOnesIff(Fold(s), s, j, w, Fold(s + w), k);
  }

  lemma AllOnesIff(f: nat, s: nat, j: int, w: nat, g: nat, k: int)
    requires Represents(f, s, j) && Represents(g, s + w, k) && w <= 0xFFFF
    ensures g == 0xFFFF <==> w == 0xFFFF - f || (f == 0xFFFF && w == 0xFFFF)
  {
  }

  /** Storing the checksum does not change what is calculated next. */
  lemma ChecksumIsStable(data: Header, w: nat)
    requires w <= 0xFFFF
    ensures Checksum(WithWord(data, 5, w)) == Checksum(Zeroed(data)) == Checksum(data)
  {
    assert Zeroed(WithWord(data, 5, w)) == Zeroed(data) == Zeroed(Zeroed(data));
  }

  // ---------- Incremental update ----------

  /** Equation 3 of section 3 of RFC 1624: HC' = ~(~HC + ~m + m'). */
  function Incremental(hc: nat, m: nat, m': nat): nat
    requires hc <= 0xFFFF && m <= 0xFFFF && m' <= 0xFFFF
  {
    OnesNot(OnesAdd(OnesAdd(OnesNot(hc), OnesNot(m)), m'))
  }

  lemma OnesAddAssociates(a: nat, b: nat, c: nat)
    ensures OnesAdd(OnesAdd(a, b), c) == Fold(a + b + c)
  {
    var i := FoldSubtracts(a + b);
    var j := FoldSubtracts(a + b + c);
    var f := Fold(a + b);
    var k := FoldSubtracts(f + c);
    SameResidue(Fold(a + b + c), a + b + c, j, Fold(f + c), f + c, k, -i);
  }

  function WithTTL(data: Header, ttl: byte): Header {
    data[8 := ttl]
  }

  /** Replacing word m by m' in a sum of words agrees with the incremental update of the
      checksum exactly when the new sum is not zero. */
  lemma IncrementalIsRecomputed(s: nat, m: nat, m': nat)
    requires m <= 0xFFFF && m' <= 0xFFFF && m <= s
    ensures OnesNot(Fold(s - m + m')) == Incremental(OnesNot(Fold(s)), m, m') <==> s - m + m' != 0
  {
    var f, s' := Fold(s), s - m + m';
    OnesAddAssociates(f, 0xFFFF - m, m');
    var i := FoldSubtracts(s);
    var j := FoldSubtracts(s');
    var k := FoldSubtracts(f + (0xFFFF - m) + m');
    if s' != 0 {
      SameResidue(Fold(s'), s', j, Fold(f + (0xFFFF - m) + m'), f + (0xFFFF - m) + m', k, 1 - i);
    }
  }

  /** A change of any word but the checksum's: the sum loses the old word and gains the new, and
      the recalculated checksum is the incremental update of the old one, except for a header
      left zero everywhere but in its checksum. */
  lemma WordUpdateIsIncremental(data: Header, k: nat, w: nat)
    requires k < HEADER_BYTES / 2 && k != 5 && w <= 0xFFFF
    ensures HeaderSum(Zeroed(WithWord(data, k, w))) + Word(data, k) == HeaderSum(Zeroed(data)) + w
    ensures Checksum(WithWord(data, k, w)) == Incremental(Checksum(data), Word(data, k), w)
       <==> HeaderSum(Zeroed(WithWord(data, k, w))) != 0
  {
    var old', new', gone := Zeroed(data), Zeroed(WithWord(data, k, w)), Zeroed(WithWord(data, k, 0));
    SumUpdate(old', new', k, 10);
    SumUpdate(old', gone, k, 10);
    Be16OfHiLo(w);
    assert Word(old', k) == Word(data, k) && Word(new', k) == w && Word(gone, k) == 0;
    IncrementalIsRecomputed(HeaderSum(old'), Word(data, k), w);
  }

  /** In particular after a TTL change. */
  lemma TTLUpdateIsIncremental(data: Header, ttl: byte)
    ensures Checksum(WithTTL(data, ttl)) == Incremental(Checksum(data), Word(data, 4), Word(WithTTL(data, ttl), 4))
       <==> HeaderSum(Zeroed(WithTTL(data, ttl))) != 0
  {
    var w := Be16(ttl, data[9]);
    assert WithTTL(data, ttl) == WithWord(data, 4, w);
    WordUpdateIsIncremental(data, 4, w);
  }

  /** The exception needs a zero first byte, which no parsed IPv4 header has. */
  lemma {:induction false} FirstByteCounts(data: Header, k: nat)
    requires 1 <= k <= HEADER_BYTES / 2 && data[0] != 0
    ensures WordSum(data, k) > 0
  {
    if k > 1 {
      FirstByteCounts(data, k - 1);
    } else {
      assert WordSum(data, 0) == 0;
    }
  }

  lemma ParsedTTLUpdate(data: Header, ttl: byte)
    requires data[0] != 0
    ensures Checksum(WithTTL(data, ttl)) == Incremental(Checksum(data), Word(data, 4), Word(WithTTL(data, ttl), 4))
  {
    FirstByteCounts(Zeroed(WithTTL(data, ttl)), HEADER_BYTES / 2);
    TTLUpdateIsIncremental(data, ttl);
  }

  // ---------- The packet ----------

  class Packet {
    const Data: array<byte>

    constructor (data: array<byte>)
      ensures Data == data
    {
      Data := data;
    }

    method SetTTL(ttl: int) returns (ok: bool)
      modifies Data
      ensures ok <==> Data.Length >= 9 && 0 <= ttl <= 255
      ensures Data[..] == if ok then old(Data[..])[8 := ttl] else old(Data[..])
    {
      if Data.Length < 9 {
        return false;
      }
      if ttl < 0 || ttl > 255 {
        return false;
      }
      Data[8] := ttl;
      return true;
    }

    /** Zeroes the checksum field and returns the checksum; it does not store it. */
    method CalculateChecksum() returns (r: Option<nat>)
      modifies Data
      ensures r.None? <==> Data.Length < HEADER_BYTES
      ensures r.None? ==> Data[..] == old(Data[..])
      ensures r.Some? ==> r.value == Checksum(old(Data[..])) && Data[..] == old(Data[..])[10 := 0][11 := 0]
    {
      if Data.Length < HEADER_BYTES {
        return None;
      }
      Data[10] := 0;
      Data[11] := 0;
      assert Data[..] == Zeroed(old(Data[..]));
      var sum: uint32 := 0;
      var i := 0;
      while i < HEADER_BYTES
        invariant 0 <= i <= HEADER_BYTES && i % 2 == 0
        invariant Data[..] == Zeroed(old(Data[..]))
        invariant sum as int == WordSum(Data[..], i / 2)
      {
        assert i / 2 + 1 <= 10;
        sum := sum + Be16(Data[i], Data[i + 1]) as uint32;
        i := i + 2;
      }
      ghost var total := HeaderSum(Zeroed(old(Data[..])));
      assert sum as int == total;
      while sum > 0xFFFF
        invariant Fold(sum as int) == Fold(total)
        invariant Data[..] == Zeroed(old(Data[..]))
      {
        CarryRound(sum as int);
        sum := (sum % 0x1_0000) + (sum / 0x1_0000);
      }
      var complement := (0xFFFF_FFFF - sum) % 0x1_0000;
      assert complement as int == 0xFFFF - sum as int;
      return Some(complement as int);
    }
  }
}
