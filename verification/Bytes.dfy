/** Bytes, bitwise operations, big-endian numbers and powers of two, shared by the other modules. */
module Bytes {

  type byte = x: int | 0 <= x < 256

  datatype Option<+T> = None | Some(value: T) {
    function GetOr(default: T): T {
      if Some? then value else default
    }
  }

  function Pow2(k: nat): (r: nat)
    ensures r >= 1
  {
    if k == 0 then 1 else 2 * Pow2(k - 1)
  }

  function Pow256(n: nat): (r: nat)
    ensures r >= 1
  {
    if n == 0 then 1 else 256 * Pow256(n - 1)
  }

  lemma {:induction false} Pow256IsPow2(n: nat)
    ensures Pow256(n) == Pow2(8 * n)
  {
    if n != 0 {
      Pow256IsPow2(n - 1);
      Pow2Plus8(8 * (n - 1));
    }
  }

  lemma Pow2Plus8(k: nat)
    ensures Pow2(k + 8) == 256 * Pow2(k)
  {
    assert Pow2(k + 8) == 2 * Pow2(k + 7) == 4 * Pow2(k + 6) == 8 * Pow2(k + 5);
    assert Pow2(k + 5) == 2 * Pow2(k + 4) == 4 * Pow2(k + 3) == 8 * Pow2(k + 2);
    assert Pow2(k + 2) == 2 * Pow2(k + 1) == 4 * Pow2(k);
  }

  lemma {:induction false} Pow2Grows(a: nat, b: nat)
    requires a < b
    ensures 2 * Pow2(a) <= Pow2(b)
    decreases b
  {
    if a + 1 < b {
      Pow2Grows(a, b - 1);
    }
  }

  /** The value of a byte string read as a big-endian number. */
  function Value(bs: seq<byte>): (v: nat)
    ensures v < Pow256(|bs|)
  {
    if bs == [] then 0
    else 256 * Value(bs[..|bs| - 1]) + bs[|bs| - 1]
  }

  lemma {:induction false} ValueInjective(a: seq<byte>, b: seq<byte>)
    requires |a| == |b| && Value(a) == Value(b)
    ensures a == b
  {
    if a != [] {
      var n := |a| - 1;
      ValueInjective(a[..n], b[..n]);
      assert a == a[..n] + [a[n]] && b == b[..n] + [b[n]];
    }
  }

  /** The 16-bit word that encoding/binary's BigEndian reads from two bytes. */
  function Be16(hi: byte, lo: byte): (w: nat)
    ensures w < 0x1_0000
  {
    256 * hi + lo
  }

  function Hi(w: nat): byte
    requires w < 0x1_0000
  {
    w / 256
  }

  function Lo(w: nat): byte
    requires w < 0x1_0000
  {
    w % 256
  }

  lemma Be16OfHiLo(w: nat)
    requires w < 0x1_0000
    ensures Be16(Hi(w), Lo(w)) == w
  {
  }

  // ---------- Bitwise operations, bit by bit ----------

  function And(a: nat, b: nat): (r: nat)
    ensures r <= a && r <= b
  {
    if a == 0 || b == 0 then 0 else 2 * And(a / 2, b / 2) + (if a % 2 == 1 && b % 2 == 1 then 1 else 0)
  }

  function Or(a: nat, b: nat): (r: nat)
    ensures r <= a + b
    decreases a + b
  {
    if a == 0 then b else if b == 0 then a
    else 2 * Or(a / 2, b / 2) + (if a % 2 == 1 || b % 2 == 1 then 1 else 0)
  }

  function Xor(a: nat, b: nat): (r: nat)
    ensures r <= a + b
    decreases a + b
  {
    if a == 0 then b else if b == 0 then a
    else 2 * Xor(a / 2, b / 2) + (if a % 2 != b % 2 then 1 else 0)
  }

  /** The complement of a byte. */
  function Not(a: byte): byte {
    255 - a
  }

  lemma {:induction false} AndAllOnes(a: nat, k: nat)
    requires a < Pow2(k)
    ensures And(a, Pow2(k) - 1) == a
  {
    if k != 0 {
      AndAllOnes(a / 2, k - 1);
    }
  }

  /** Masking with k bits whose low j are clear rounds down to a multiple of 2^j. */
  lemma {:induction false} AndHighMask(a: nat, k: nat, j: nat)
    requires a < Pow2(k) && j <= k
    ensures Pow2(j) <= Pow2(k)
    ensures And(a, Pow2(k) - Pow2(j)) == a - a % Pow2(j)
    decreases k
  {
    if j == 0 {
      AndAllOnes(a, k);
    } else {
      AndHighMask(a / 2, k - 1, j - 1);
      HalfMod(a, Pow2(j - 1));
      assert Pow2(k) - Pow2(j) == 2 * (Pow2(k - 1) - Pow2(j - 1));
    }
  }

  lemma HalfMod(a: nat, p: nat)
    requires p > 0
    ensures a % (2 * p) == 2 * ((a / 2) % p) + a % 2
  {
    var q, r := (a / 2) / p, (a / 2) % p;
    assert a / 2 == p * q + r;
    assert a == (2 * p) * q + (2 * r + a % 2) by {
      assert (2 * p) * q == 2 * (p * q);
    }
    ModIs(a, 2 * p, q, 2 * r + a % 2);
  }

  lemma ModIs(a: int, m: int, q: int, r: int)
    requires 0 <= r < m && a == m * q + r
    ensures a % m == r
  {
    var q' := a / m;
    if q < q' {
      MulGap(m, q, q');
    } else if q' < q {
      MulGap(m, q', q);
    }
  }

  lemma {:induction false} MulGap(m: int, x: int, y: int)
    requires m > 0 && x < y
    ensures m * x + m <= m * y
    decreases y - x
  {
    assert m * y == m * (y - 1) + m;
    if x + 1 < y {
      MulGap(m, x, y - 1);
    }
  }

  /** OR with the low j bits of a multiple of 2^j is addition. */
  lemma {:induction false} OrLowOnes(a: nat, j: nat)
    requires a % Pow2(j) == 0
    ensures Or(a, Pow2(j) - 1) == a + Pow2(j) - 1
    decreases j
  {
    if j != 0 {
      var p := Pow2(j - 1);
      HalfMod(a, p);
      OrLowOnes(a / 2, j - 1);
      assert (2 * p - 1) / 2 == p - 1 && (2 * p - 1) % 2 == 1;
    }
  }

  lemma XorHalf(a: nat, b: nat)
    ensures Xor(a, b) / 2 == Xor(a / 2, b / 2)
    ensures Xor(a, b) % 2 == if a % 2 != b % 2 then 1 else 0
  {
  }

  lemma {:induction false} XorAssociative(a: nat, b: nat, c: nat)
    ensures Xor(Xor(a, b), c) == Xor(a, Xor(b, c))
    decreases a + b + c
  {
    if a + b + c != 0 {
      XorHalf(a, b);
      XorHalf(b, c);
      XorHalf(Xor(a, b), c);
      XorHalf(a, Xor(b, c));
      XorAssociative(a / 2, b / 2, c / 2);
    }
  }

  lemma {:induction false} XorSelf(a: nat)
    ensures Xor(a, a) == 0
  {
    if a != 0 {
      XorSelf(a / 2);
    }
  }

  /** XOR with the same key twice gives the original back. */
  lemma XorTwice(a: nat, key: nat)
    ensures Xor(Xor(a, key), key) == a
  {
    XorAssociative(a, key, key);
    XorSelf(key);
  }

  lemma {:induction false} XorRange(a: nat, b: nat, k: nat)
    requires a < Pow2(k) && b < Pow2(k)
    ensures Xor(a, b) < Pow2(k)
  {
    if k != 0 {
      XorRange(a / 2, b / 2, k - 1);
    }
  }

  /** The k-th bit of a number, the last being number 0. */
  function Bit(a: nat, k: nat): (b: nat)
    ensures b <= 1
  {
    if k == 0 then a % 2 else Bit(a / 2, k - 1)
  }

  /** The three operations are what they are called, bit by bit. */
  lemma {:induction false} AndIsBitwise(a: nat, b: nat, k: nat)
    ensures Bit(And(a, b), k) == 1 <==> Bit(a, k) == 1 && Bit(b, k) == 1
  {
    BitOfZero(k);
    if k != 0 {
      AndIsBitwise(a / 2, b / 2, k - 1);
    }
  }

  lemma {:induction false} OrIsBitwise(a: nat, b: nat, k: nat)
    ensures Bit(Or(a, b), k) == 1 <==> Bit(a, k) == 1 || Bit(b, k) == 1
  {
    BitOfZero(k);
    if k != 0 {
      OrIsBitwise(a / 2, b / 2, k - 1);
    }
  }

  lemma {:induction false} XorIsBitwise(a: nat, b: nat, k: nat)
    ensures Bit(Xor(a, b), k) == 1 <==> Bit(a, k) != Bit(b, k)
  {
    XorHalf(a, b);
    if k != 0 {
      XorIsBitwise(a / 2, b / 2, k - 1);
    }
  }

  lemma {:induction false} BitOfZero(k: nat)
    ensures Bit(0, k) == 0
  {
    if k != 0 {
      BitOfZero(k - 1);
    }
  }

  lemma XorBase2(a: nat, b: nat)
    ensures Xor(a, b) == 2 * Xor(a / 2, b / 2) + Xor(a % 2, b % 2)
  {
    XorHalf(a, b);
    XorHalf(a % 2, b % 2);
  }

  /** XOR works digit by digit in base 4, and so in base 16 and 256. */
  lemma XorBase4(a: nat, b: nat)
    ensures Xor(a, b) == 4 * Xor(a / 4, b / 4) + Xor(a % 4, b % 4)
  {
    XorBase2(a, b);
    XorBase2(a / 2, b / 2);
    XorBase2(a % 4, b % 4);
    Digits(a, 2);
    Digits(b, 2);
  }

  lemma XorBase16(a: nat, b: nat)
    ensures Xor(a, b) == 16 * Xor(a / 16, b / 16) + Xor(a % 16, b % 16)
  {
    XorBase4(a, b);
    XorBase4(a / 4, b / 4);
    XorBase4(a % 16, b % 16);
    Digits(a, 4);
    Digits(b, 4);
  }

  lemma XorBase256(a: nat, b: nat)
    ensures Xor(a, b) == 256 * Xor(a / 256, b / 256) + Xor(a % 256, b % 256)
  {
    XorBase16(a, b);
    XorBase16(a / 16, b / 16);
    XorBase16(a % 256, b % 256);
    Digits(a, 16);
    Digits(b, 16);
  }

  /** The two last digits of a number. */
  lemma Digits(a: nat, n: nat)
    requires n == 2 || n == 4 || n == 16
    ensures a / n / n == a / (n * n)
    ensures a % (n * n) / n == a / n % n && a % (n * n) % n == a % n
  {
  }

  lemma XorWordRange(v: nat, w: nat)
    requires v < 0x1_0000 && w < 0x1_0000
    ensures Xor(v, w) < 0x1_0000
  {
    assert Pow2(16) == 0x1_0000 by { Pow2Small(); }
    XorRange(v, w, 16);
  }

  lemma HiLoAre(w: nat, h: byte, l: byte)
    requires w == 256 * h + l
    ensures w < 0x1_0000 && Hi(w) == h && Lo(w) == l
  {
  }

  /** On a word XOR works byte by byte. */
  lemma XorWord(v: nat, w: nat)
    requires v < 0x1_0000 && w < 0x1_0000
    ensures Xor(v, w) < 0x1_0000
    ensures Hi(Xor(v, w)) == XorByte(Hi(v), Hi(w)) && Lo(Xor(v, w)) == XorByte(Lo(v), Lo(w))
  {
    XorWordRange(v, w);
    XorBase256(v, w);
    HiLoAre(Xor(v, w), XorByte(Hi(v), Hi(w)), XorByte(Lo(v), Lo(w)));
  }

  lemma Pow2Small()
    ensures Pow2(0) == 1 && Pow2(1) == 2 && Pow2(2) == 4 && Pow2(3) == 8
    ensures Pow2(4) == 16 && Pow2(5) == 32 && Pow2(6) == 64 && Pow2(7) == 128 && Pow2(8) == 256
    ensures Pow2(16) == 0x1_0000
  {
    Pow2Plus8(0);
    Pow2Plus8(8);
    assert Pow2(4) == 2 * Pow2(3) == 4 * Pow2(2);
    assert Pow2(6) == 2 * Pow2(5) == 4 * Pow2(4);
    assert Pow2(8) == 2 * Pow2(7);
  }

  /** XOR on bytes. */
  function XorByte(a: byte, b: byte): byte {
    Pow2Small();
    XorRange(a, b, 8);
    Xor(a, b)
  }
}
