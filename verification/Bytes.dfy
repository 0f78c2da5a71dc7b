/** Machine integers as the firmware uses them: subset types of `int`, with every wrap-around written out. */
module Bytes {

  type byte = x: int | 0 <= x < 0x100
  type u16 = x: int | 0 <= x < 0x1_0000
  type u32 = x: int | 0 <= x < 0x1_0000_0000

  datatype Option<+T> = None | Some(value: T)

  function Pow2(n: nat): (r: nat)
    ensures r > 0
  {
    if n == 0 then 1 else 2 * Pow2(n - 1)
  }

  /** Exclusive or of the low n bits, bit by bit. */
  function XorBits(a: nat, b: nat, n: nat): (r: nat)
    ensures r < Pow2(n)
  {
    if n == 0 then 0 else (if a % 2 == b % 2 then 0 else 1) + 2 * XorBits(a / 2, b / 2, n - 1)
  }

  lemma {:induction false} XorBitsTwice(a: nat, b: nat, n: nat)
    requires a < Pow2(n)
    ensures XorBits(XorBits(a, b, n), b, n) == a
  {
    if n > 0 {
      XorBitsTwice(a / 2, b / 2, n - 1);
      assert XorBits(a, b, n) / 2 == XorBits(a / 2, b / 2, n - 1);
    }
  }

  function Xor(a: byte, b: byte): byte {
    XorBits(a, b, 8)
  }

  lemma XorTwice(a: byte, b: byte)
    ensures Xor(Xor(a, b), b) == a
  {
    XorBitsTwice(a, b, 8);
  }

  /** Bit k of a number. */
  function Bit(x: nat, k: nat): nat {
    if k == 0 then x % 2 else Bit(x / 2, k - 1)
  }

  lemma {:induction false} XorBitsAt(a: nat, b: nat, n: nat, k: nat)
    requires k < n
    ensures Bit(XorBits(a, b, n), k) == (Bit(a, k) + Bit(b, k)) % 2
  {
    if k > 0 {
      XorBitsAt(a / 2, b / 2, n - 1, k - 1);
    }
  }

  /** Every one of the eight bits is the exclusive or of the two bits in its place. */
  lemma XorBitwise(a: byte, b: byte)
    ensures forall k :: 0 <= k < 8 ==> Bit(Xor(a, b), k) == (Bit(a, k) + Bit(b, k)) % 2
  {
    hide Bit;
    forall k | 0 <= k < 8
      ensures Bit(Xor(a, b), k) == (Bit(a, k) + Bit(b, k)) % 2
    {
      XorBitsAt(a, b, 8, k);
    }
  }

  /** It is the exclusive or of machine bytes. */
  lemma XorOnBits(a: bv8, b: bv8)
    ensures Xor(a as int, b as int) == (a ^ b) as int
  {
    hide XorBits;
    XorHalves(a, b, 8);
  }

  function Val(a: bv8): nat {
    a as int
  }

  function Half(a: bv8): bv8 {
    a >> 1
  }

  function Both(a: bv8, b: bv8): bv8 {
    a ^ b
  }

  lemma {:induction false} XorHalves(a: bv8, b: bv8, n: nat)
    requires Val(a) < Pow2(n) && Val(b) < Pow2(n)
    ensures XorBits(Val(a), Val(b), n) == Val(Both(a, b))
    decreases n
  {
    hide Val, Half, Both;
    XorStep(a, b);
    if n > 0 {
      XorHalves(Half(a), Half(b), n - 1);
    }
  }

  lemma XorStep(a: bv8, b: bv8)
    ensures Val(a) == Val(b) == 0 ==> Val(Both(a, b)) == 0
    ensures Val(Half(a)) == Val(a) / 2 && Val(Half(b)) == Val(b) / 2
    ensures Val(Both(a, b)) == (if Val(a) % 2 == Val(b) % 2 then 0 else 1) + 2 * Val(Both(Half(a), Half(b)))
  {
    Halves(a);
    Halves(b);
    Halves(a ^ b);
    XorHalf(a, b);
  }

  lemma XorHalf(a: bv8, b: bv8)
    ensures (a ^ b) >> 1 == (a >> 1) ^ (b >> 1)
    ensures (a ^ b) & 1 == if a & 1 == b & 1 then 0 else 1
  {
  }

  lemma Halves(a: bv8)
    ensures (a >> 1) as int == a as int / 2
    ensures a as int % 2 == (a & 1) as int && (a & 1 == 0 || a & 1 == 1)
  {
  }

  lemma {:induction false} XorBitsZero(a: nat, n: nat)
    requires a < Pow2(n)
    ensures XorBits(a, 0, n) == a
  {
    if n > 0 {
      XorBitsZero(a / 2, n - 1);
    }
  }

  lemma Pow2Of(n: nat)
    ensures Pow2(n + 3) == 8 * Pow2(n)
    ensures Pow2(1) == 2 && Pow2(4) == 16 && Pow2(7) == 128 && Pow2(8) == 256
  {
    assert Pow2(n + 2) == 4 * Pow2(n);
    assert Pow2(4) == 8 * Pow2(1) && Pow2(7) == 8 * Pow2(4);
  }

  lemma XorZero(a: byte)
    ensures Xor(a, 0) == a
  {
    Pow2Of(0);
    XorBitsZero(a, 8);
  }

  lemma XorOne(a: byte)
    ensures Xor(a, 1) == if a % 2 == 0 then a + 1 else a - 1
  {
    Pow2Of(0);
    XorBitsZero(a / 2, 7);
    assert XorBits(a, 1, 8) == (if a % 2 == 1 then 0 else 1) + 2 * XorBits(a / 2, 0, 7);
  }

  /** A left shift, by doubling. */
  function Shl(x: nat, n: nat): nat {
    if n == 0 then x else 2 * Shl(x, n - 1)
  }

  lemma {:induction false} ShlAdds(x: nat, y: nat, n: nat)
    ensures Shl(x + y, n) == Shl(x, n) + Shl(y, n)
  {
    if n > 0 {
      ShlAdds(x, y, n - 1);
    }
  }

  lemma {:induction false} ShlTwice(x: nat, m: nat, n: nat)
    ensures Shl(x, m + n) == Shl(Shl(x, n), m)
  {
    if m > 0 {
      ShlTwice(x, m - 1, n);
    }
  }

  lemma ShlSeven(x: nat)
    ensures Shl(x, 7) == 128 * x
  {
    assert Shl(x, 1) == 2 * x;
    assert Shl(x, 3) == 4 * Shl(x, 1);
    assert Shl(x, 5) == 4 * Shl(x, 3);
    assert Shl(x, 7) == 4 * Shl(x, 5);
  }

  lemma {:induction false} ShlIs(x: nat, n: nat)
    ensures Shl(x, n) == x * Pow2(n)
  {
    if n > 0 {
      ShlIs(x, n - 1);
    }
  }

  /** Little-endian and big-endian 32-bit words. */
  function LeBytes(v: u32): (s: seq<byte>)
    ensures |s| == 4
  {
    [v % 0x100, v / 0x100 % 0x100, v / 0x1_0000 % 0x100, v / 0x100_0000 % 0x100]
  }

  function LeWord(s: seq<byte>): u32
    requires |s| == 4
  {
    s[0] as int + 0x100 * (s[1] as int) + 0x1_0000 * (s[2] as int) + 0x100_0000 * (s[3] as int)
  }

  function BeBytes(v: u32): (s: seq<byte>)
    ensures |s| == 4
  {
    [v / 0x100_0000 % 0x100, v / 0x1_0000 % 0x100, v / 0x100 % 0x100, v % 0x100]
  }

  function BeWord(s: seq<byte>): u32
    requires |s| == 4
  {
    LeWord([s[3], s[2], s[1], s[0]])
  }

  /** The bytes of a word, first and last one first, as shifts. */
  lemma WordsAreShifts(s: seq<byte>)
    requires |s| == 4
    ensures LeWord(s) as int == s[0] as int + Shl(s[1], 8) + Shl(s[2], 16) + Shl(s[3], 24)
    ensures BeWord(s) as int == Shl(s[0], 24) + Shl(s[1], 16) + Shl(s[2], 8) + s[3] as int
  {
    Pow2Of(8);
    Pow2Of(13);
    Pow2Of(16);
    Pow2Of(21);
    assert Pow2(11) == 0x800 && Pow2(13) == 4 * Pow2(11) && Pow2(16) == 0x1_0000;
    assert Pow2(19) == 0x8_0000 && Pow2(21) == 4 * Pow2(19) && Pow2(24) == 0x100_0000;
    hide Pow2;
    forall x: byte, n | n in {8, 16, 24}
      ensures Shl(x, n) == x as int * Pow2(n)
    {
      ShlIs(x, n);
    }
  }

  lemma LeRoundTrip(v: u32)
    ensures LeWord(LeBytes(v)) == v
  {
    var q := v / 0x100;
    assert v / 0x1_0000 == q / 0x100 && v / 0x100_0000 == q / 0x100 / 0x100;
  }

  lemma LeRoundTripBytes(s: seq<byte>)
    requires |s| == 4
    ensures LeBytes(LeWord(s)) == s
  {
    var v := LeWord(s);
    var q := s[1] as int + 0x100 * (s[2] as int) + 0x1_0000 * (s[3] as int);
    var r := s[2] as int + 0x100 * (s[3] as int);
    assert v / 0x100 == q && q / 0x100 == r && r / 0x100 == s[3];
    assert v / 0x1_0000 == r && v / 0x100_0000 == s[3];
  }

  lemma BeRoundTrip(v: u32)
    ensures BeWord(BeBytes(v)) == v
  {
    LeRoundTrip(v);
  }

  lemma BeRoundTripBytes(s: seq<byte>)
    requires |s| == 4
    ensures BeBytes(BeWord(s)) == s
  {
    LeRoundTripBytes([s[3], s[2], s[1], s[0]]);
  }

  /** The firmware's masks and shifts are written below as division and remainder; on eight bits they agree. */
  lemma MasksAreArithmetic(x: bv8, y: bv8)
    ensures x & 0x0F == x % 16 && x & 0x7F == x % 128 && x & 0x07 == x % 8 && x >> 3 == x / 8
    ensures (x & !0x0F) | (y & 0x0F) == x / 16 * 16 + y % 16
  {
  }

  /** Accumulating a varint with `|=` is addition, as each group lands above the bits already set. */
  lemma OrIsAddition(v: bv32, c: bv32)
    ensures v < 0x80 ==> v | (c << 7) == v + (c << 7)
    ensures v < 0x4000 ==> v | (c << 14) == v + (c << 14)
    ensures v < 0x20_0000 ==> v | (c << 21) == v + (c << 21)
    ensures v < 0x1000_0000 ==> v | (c << 28) == v + (c << 28)
  {
  }
}
