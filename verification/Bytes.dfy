/**
  Bytes, bit masks on them, and the masked big-endian 16-bit read that every parser uses.
 */
module Bytes {

  type Byte = x: int | 0 <= x < 256

  /** Bitwise "and" of two non-negative integers. */
  function BitAnd(a: nat, b: nat): nat
    decreases a
  {
    if a == 0 || b == 0 then 0 else 2 * BitAnd(a / 2, b / 2) + (if a % 2 == 1 && b % 2 == 1 then 1 else 0)
  }

  /** The value of two bytes, most significant first, with a mask on the first. */
  function MaskedTwoBytes(msb: Byte, lsb: Byte, msbMask: nat := 0xff): int {
    BitAnd(msb, msbMask) * 256 + lsb
  }

  /** Adding a clear low bit to a mask; h names half of a. */
  lemma {:induction false} ClearBit(a: nat, m: nat, h: nat)
    requires h == a / 2
    ensures BitAnd(a, 2 * m) == 2 * BitAnd(h, m)
  {
    var mask := 2 * m;
    assert mask / 2 == m && mask % 2 == 0;
    if a != 0 && m != 0 {
      assert BitAnd(a, mask) == 2 * BitAnd(a / 2, mask / 2) + 0;
    }
  }

  /** Adding a set low bit to a mask; h names half of a. */
  lemma {:induction false} SetBit(a: nat, m: nat, h: nat)
    requires h == a / 2
    ensures BitAnd(a, 2 * m + 1) == 2 * BitAnd(h, m) + a % 2
  {
    var mask := 2 * m + 1;
    assert mask / 2 == m && mask % 2 == 1;
    if a != 0 {
      assert BitAnd(a, mask) == 2 * BitAnd(a / 2, mask / 2) + if a % 2 == 1 then 1 else 0;
    }
  }

  lemma {:induction false} DivModUnique(a: int, d: int, q: int, r: int)
    requires d > 0 && a == q * d + r && 0 <= r < d
    ensures a / d == q && a % d == r
  {
    var e := a / d - q;
    assert e * d == r - a % d;
    assert e >= 1 ==> e * d >= d;
    assert e <= -1 ==> e * d <= -d;
  }

  /** The remainder by 2p from the remainder of the half by p. */
  lemma {:induction false} HalfRemainder(a: nat, h: nat, p: nat)
    requires h == a / 2 && p > 0
    ensures a % (2 * p) == 2 * (h % p) + a % 2
  {
    var q, r := h / p, h % p;
    assert q * (2 * p) == 2 * (q * p);
    DivModUnique(a, 2 * p, q, 2 * r + a % 2);
  }

  /** A mask of low bits, doubled and with its lowest bit set, keeps the remainder by twice as much. */
  lemma {:induction false} WidenMask(a: nat, h: nat, p: nat, m: nat)
    requires h == a / 2 && p > 0 && m == p - 1 && BitAnd(h, m) == h % p
    ensures BitAnd(a, 2 * p - 1) == a % (2 * p)
  {
    SetBit(a, m, h);
    HalfRemainder(a, h, p);
    assert 2 * m + 1 == 2 * p - 1;
  }

  function PowerOfTwo(n: nat): (p: nat)
    ensures p > 0
  {
    if n == 0 then 1 else 2 * PowerOfTwo(n - 1)
  }

  /** A mask of the n lowest bits keeps the remainder by two to the n. */
  lemma {:induction false} LowBits(a: nat, n: nat)
    ensures BitAnd(a, PowerOfTwo(n) - 1) == a % PowerOfTwo(n)
  {
    if n == 0 {
      assert PowerOfTwo(n) == 1 && a % 1 == 0;
    } else {
      var h, p := a / 2, PowerOfTwo(n - 1);
      LowBits(h, n - 1);
      WidenMask(a, h, p, p - 1);
    }
  }

  /** The masks of the parsers. */
  lemma {:induction false} LowMasks()
    ensures PowerOfTwo(1) == 2 && PowerOfTwo(2) == 4 && PowerOfTwo(4) == 16 && PowerOfTwo(5) == 32 && PowerOfTwo(8) == 256
  {
    assert PowerOfTwo(3) == 8 && PowerOfTwo(6) == 64 && PowerOfTwo(7) == 128;
  }

  lemma {:induction false} LowMask(a: nat, n: nat, p: nat, mask: nat)
    requires p == PowerOfTwo(n) && mask == p - 1
    ensures BitAnd(a, mask) == a % p
  {
    LowBits(a, n);
  }

  lemma {:induction false} TwoClearBits(a: nat, m: nat, h: nat, q: nat)
    requires h == a / 2 && q == h / 2
    ensures BitAnd(a, 4 * m) == 4 * BitAnd(q, m)
  {
    ClearBit(h, m, q);
    ClearBit(a, 2 * m, h);
  }

  lemma {:induction false} FourClearBits(a: nat, m: nat, q: nat, s: nat)
    requires q == a / 4 && s == q / 4
    ensures BitAnd(a, 16 * m) == 16 * BitAnd(s, m)
  {
    TwoClearBits(q, m, q / 2, s);
    TwoClearBits(a, 4 * m, a / 2, q);
  }

  /** Testing bit six of a byte. */
  lemma {:induction false} BitSix(a: Byte)
    ensures BitAnd(a, 0x40) != 0 <==> a / 64 % 2 == 1
  {
    FourClearBits(a, 4, a / 4, a / 16);
    TwoClearBits(a / 16, 1, a / 32, a / 64);
    LowMasks();
    LowMask(a / 64, 1, 2, 1);
  }

  /** The field in bits four and five of a byte. */
  lemma {:induction false} BitsFourFive(a: Byte)
    ensures BitAnd(a, 0x30) / 16 == a / 16 % 4
  {
    FourClearBits(a, 3, a / 4, a / 16);
    LowMasks();
    LowMask(a / 16, 2, 4, 3);
  }

  /** The three masked reads of the parsers: all sixteen bits, a PID of thirteen, a length of twelve. */
  function SixteenBits(msb: Byte, lsb: Byte): int { msb as int * 256 + lsb as int }
  function ThirteenBits(msb: Byte, lsb: Byte): int { (msb as int) % 32 * 256 + lsb as int }
  function TwelveBits(msb: Byte, lsb: Byte): (n: nat) { (msb as int) % 16 * 256 + lsb as int }

  /** Without a mask all bits of both bytes count. */
  lemma {:induction false} AllBitsKept(msb: Byte, lsb: Byte, mask: nat)
    requires mask == 0xff
    ensures MaskedTwoBytes(msb, lsb, mask) == SixteenBits(msb, lsb)
  {
    LowMasks();
    LowMask(msb, 8, 256, mask);
    DivModUnique(msb, 256, 0, msb);
  }

  method ReadSixteenBits(msb: Byte, lsb: Byte) returns (value: int)
    ensures value == SixteenBits(msb, lsb)
  {
    AllBitsKept(msb, lsb, 0xff);
    value := MaskedTwoBytes(msb, lsb);
  }

  method ReadThirteenBits(msb: Byte, lsb: Byte) returns (value: int)
    ensures value == ThirteenBits(msb, lsb)
  {
    LowMasks();
    LowMask(msb, 5, 32, 0x1f);
    value := MaskedTwoBytes(msb, lsb, 0x1f);
  }

  method ReadTwelveBits(msb: Byte, lsb: Byte) returns (value: nat)
    ensures value == TwelveBits(msb, lsb)
  {
    LowMasks();
    LowMask(msb, 4, 16, 0x0f);
    value := MaskedTwoBytes(msb, lsb, 0x0f);
  }

  /** A high part below some reserved bits reads back. */
  lemma {:induction false} ThirteenBitsReadBack(msb: Byte, lsb: Byte, reserved: int, value: int)
    requires 0 <= value < 8192 && msb == reserved * 32 + value / 256 && lsb == value % 256
    ensures ThirteenBits(msb, lsb) == value
  {
    DivModUnique(msb, 32, reserved, value / 256);
  }

  lemma {:induction false} TwelveBitsReadBack(msb: Byte, lsb: Byte, reserved: int, value: int)
    requires 0 <= value < 4096 && msb == reserved * 16 + value / 256 && lsb == value % 256
    ensures TwelveBits(msb, lsb) == value
  {
    DivModUnique(msb, 16, reserved, value / 256);
  }

  lemma {:induction false} Regroup<T>(done: seq<T>, x: T, rest: seq<T>)
    ensures done + ([x] + rest) == (done + [x]) + rest
  {}

  lemma {:induction false} Associate<T>(a: seq<T>, b: seq<T>, c: seq<T>)
    ensures a + (b + c) == (a + b) + c
  {}
}
