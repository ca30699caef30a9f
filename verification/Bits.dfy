/** Machine integers, shifts, bitwise "or" and little-endian encoding.

    Go's fixed-width integers are subset types of `int`; every operation that can leave
    the range reduces modulo the width where the program does.  A mask such as `x & 0xf`
    is written `x % 16`, a right shift is a division. */
module Bits {
  type u8 = x: int | 0 <= x < 0x100
  type u16 = x: int | 0 <= x < 0x1_0000
  type u32 = x: int | 0 <= x < 0x1_0000_0000
  type i8 = x: int | -128 <= x < 128

  /** `a << k` before truncation. */
  function Shl(a: nat, k: nat): nat {
    if k == 0 then a else 2 * Shl(a, k - 1)
  }

  /** `a << k` in a uint32. */
  function Shl32(a: nat, k: nat): u32 {
    Shl(a, k) % 0x1_0000_0000
  }

  /** Bitwise "or", bit by bit. */
  function BitOr(a: nat, b: nat): nat
    decreases a + b
  {
    if a == 0 && b == 0 then 0
    else (if a % 2 == 1 || b % 2 == 1 then 1 else 0) + 2 * BitOr(a / 2, b / 2)
  }

  lemma OrZero(a: nat)
    ensures BitOr(a, 0) == a && BitOr(0, a) == a
    decreases a
  {
    if a > 0 {
      OrZero(a / 2);
    }
  }

  /** Or-ing in a value that fits below the shift is addition. */
  lemma {:induction false} OrShifted(a: nat, b: nat, k: nat)
    requires b < Shl(1, k)
    ensures BitOr(Shl(a, k), b) == Shl(a, k) + b
    decreases k
  {
    if k == 0 {
      OrZero(a);
    } else {
      OrShifted(a, b / 2, k - 1);
      assert Shl(a, k) / 2 == Shl(a, k - 1);
    }
  }

  lemma ShlValues(a: nat)
    ensures Shl(a, 1) == 2 * a && Shl(a, 2) == 4 * a && Shl(a, 6) == 64 * a && Shl(a, 7) == 128 * a
  {
    assert Shl(a, 0) == a;
    assert Shl(a, 1) == 2 * a;
    assert Shl(a, 2) == 4 * a;
    assert Shl(a, 3) == 8 * a;
    assert Shl(a, 4) == 16 * a;
    assert Shl(a, 5) == 32 * a;
    assert Shl(a, 6) == 64 * a;
  }

  /** Shifts of a uint32 by one and by seven, as arithmetic. */
  lemma Shl32Values(a: u32)
    ensures a < 0x8000_0000 ==> Shl32(a, 1) == 2 * a as int
    ensures Shl32(a, 7) == 128 * (a as int % 0x200_0000)
  {
    ShlValues(a);
  }

  /** `(a << 2) | b` in a uint8, as the message layer packs netFn/LUN and rqSeq/LUN. */
  function Pack(a: u8, b: u8): u8
  {
    BitOr(Shl(a, 2) % 0x100, b) % 0x100
  }

  lemma PackIsSum(a: u8, b: u8)
    requires b < 4
    ensures Pack(a, b) == 4 * (a as int % 64) + b
  {
    hide BitOr, Shl;
    var h: nat := a % 64;
    assert Shl(a, 2) % 0x100 == Shl(h, 2) by {
      ShlValues(a);
      ShlValues(h);
    }
    assert BitOr(Shl(h, 2), b) == 4 * h + b by {
      ShlValues(1);
      ShlValues(h);
      OrShifted(h, b, 2);
    }
  }

  /** Unpacking gives both parts back: six bits of a, all of b. */
  lemma PackValue(a: u8, b: u8)
    requires b < 4
    ensures Pack(a, b) / 4 == a % 64 && Pack(a, b) % 4 == b
  {
    PackIsSum(a, b);
  }

  /** Bit k of x, as in `x & (1 << k)`. */
  predicate HasBit(x: nat, k: nat) {
    if k == 0 then x % 2 == 1 else HasBit(x / 2, k - 1)
  }

  // ---------- little endian ----------

  /** The low n bytes of x, least significant first. */
  function Bytes(x: nat, n: nat): (s: seq<u8>)
    ensures |s| == n
  {
    if n == 0 then [] else [x % 0x100] + Bytes(x / 0x100, n - 1)
  }

  function Value(s: seq<u8>): nat {
    if s == [] then 0 else s[0] as int + 0x100 * Value(s[1..])
  }

  function Le16(x: u16): (s: seq<u8>)
    ensures |s| == 2
  {
    Bytes(x, 2)
  }

  function Le32(x: u32): (s: seq<u8>)
    ensures |s| == 4
  {
    Bytes(x, 4)
  }

  function Un16(s: seq<u8>): u16
    requires |s| == 2
  {
    ValueBound(s);
    Value(s)
  }

  function Un32(s: seq<u8>): u32
    requires |s| == 4
  {
    ValueBound(s);
    Value(s)
  }

  lemma ValueBound(s: seq<u8>)
    ensures |s| == 1 ==> Value(s) < 0x100
    ensures |s| == 2 ==> Value(s) < 0x1_0000
    ensures |s| == 3 ==> Value(s) < 0x100_0000
    ensures |s| == 4 ==> Value(s) < 0x1_0000_0000
  {
    if s != [] {
      ValueBound(s[1..]);
    }
  }

  lemma {:induction false} ValueOfBytes(x: nat, n: nat)
    ensures n > 0 && x < 0x100 ==> Value(Bytes(x, n)) == x
    ensures n > 1 && x < 0x1_0000 ==> Value(Bytes(x, n)) == x
    ensures n > 2 && x < 0x100_0000 ==> Value(Bytes(x, n)) == x
    ensures n > 3 && x < 0x1_0000_0000 ==> Value(Bytes(x, n)) == x
    decreases n
  {
    if n > 0 {
      ValueOfBytes(x / 0x100, n - 1);
      assert Bytes(x, n)[1..] == Bytes(x / 0x100, n - 1);
    }
  }

  lemma LowByte(low: u8, high: nat)
    ensures (low as int + 0x100 * high) % 0x100 == low && (low as int + 0x100 * high) / 0x100 == high
  {
  }

  lemma {:induction false} BytesOfValue(s: seq<u8>)
    ensures Bytes(Value(s), |s|) == s
    decreases |s|
  {
    if s != [] {
      BytesOfValue(s[1..]);
      LowByte(s[0], Value(s[1..]));
      assert s == [s[0]] + s[1..];
    }
  }

  lemma LittleEndian16(x: u16)
    ensures Un16(Le16(x)) == x
  {
    ValueOfBytes(x, 2);
  }

  lemma LittleEndian32(x: u32)
    ensures Un32(Le32(x)) == x
  {
    ValueOfBytes(x, 4);
  }

  /** Zero-filled memory. */
  function Zeros(n: nat): (s: seq<u8>)
    ensures |s| == n
  {
    seq(n, _ => 0)
  }
}
