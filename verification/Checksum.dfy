/** The two's-complement checksum of the IPMI message layer (section 13.8 of the IPMI v2.0
    specification). */
module Checksum {
  import opened Bits

  function Sum(s: seq<u8>): nat {
    if s == [] then 0 else Sum(s[..|s| - 1]) + s[|s| - 1]
  }

  lemma {:induction false} SumConcat(a: seq<u8>, b: seq<u8>)
    ensures Sum(a + b) == Sum(a) + Sum(b)
    decreases |b|
  {
    if b == [] {
      assert a + b == a;
    } else {
      SumConcat(a, b[..|b| - 1]);
      assert (a + b)[..|a + b| - 1] == a + b[..|b| - 1];
    }
  }

  lemma {:induction false} SumUpdate(s: seq<u8>, i: nat, v: u8)
    requires i < |s|
    ensures Sum(s[i := v]) == Sum(s) - s[i] + v
    decreases |s|
  {
    var n := |s| - 1;
    if i == n {
      assert s[i := v][..n] == s[..n];
    } else {
      SumUpdate(s[..n], i, v);
      assert s[i := v][..n] == s[..n][i := v];
    }
  }

  /** Conversion of a sum to int8: keep the low eight bits, read them as signed. */
  function Int8(x: int): i8 {
    (x + 128) % 256 - 128
  }

  /** Conversion of an int8 to uint8. */
  function Uint8(x: i8): u8 {
    x % 256
  }

  /** The byte that makes s sum to zero modulo 256. */
  function CheckByte(s: seq<u8>): u8 {
    (0 - Sum(s) as int) % 256
  }

  /** Covered bytes and checksum together are zero modulo 256, and only this byte does it. */
  lemma CheckByteCancels(s: seq<u8>, c: u8)
    ensures Sum(s + [c]) % 256 == 0 <==> c == CheckByte(s)
  {
    assert (s + [c])[..|s|] == s;
  }

  lemma Int8Congruent(x: int)
    ensures (Int8(x) as int - x) % 256 == 0
  {
    assert x + 128 == 256 * ((x + 128) / 256) + (x + 128) % 256;
    assert Int8(x) as int - x == 256 * (0 - (x + 128) / 256);
  }

  /** Adding in int8 is adding and then truncating. */
  lemma Int8Add(x: int, y: int)
    ensures Int8(Int8(x) as int + Int8(y) as int) == Int8(x + y)
  {
    Int8Congruent(x);
    Int8Congruent(y);
    var kx, ky := (Int8(x) as int - x) / 256, (Int8(y) as int - y) / 256;
    assert Int8(x) as int + Int8(y) as int == x + y + 256 * (kx + ky);
  }

  method IpmiChecksum(data: seq<u8>, size: nat, start: i8) returns (r: i8)
    requires size <= |data|
    ensures (r as int + start as int + Sum(data[..size])) % 256 == 0
  {
    var csum := start;
    var n := size;
    var dataIdx := 0;
    while n > 0
      invariant 0 <= dataIdx <= size && dataIdx == size - n
      invariant csum == Int8(start as int + Sum(data[..dataIdx]))
    {
      csum := Int8(csum as int + Int8(data[dataIdx]) as int);
      Int8Add(start as int + Sum(data[..dataIdx]), data[dataIdx]);
      assert data[..dataIdx + 1][..dataIdx] == data[..dataIdx];
      dataIdx := dataIdx + 1;
      n := n - 1;
    }
    Int8Congruent(start as int + Sum(data[..size]));
    Int8Congruent(0 - csum as int);
    r := Int8(0 - csum as int);
  }
}
