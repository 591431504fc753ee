/** Bitcoin-style variable length integers. */
module Varint {
  import opened Wrappers
  import opened Bytes
  import Arith

  const U64: nat := 0x1_0000_0000_0000_0000

  /** The k low-order bytes of n, least significant first. */
  function LittleEndian(n: nat, k: nat): (r: Bytes)
    ensures |r| == k
  {
    if k == 0 then [] else [n % 256] + LittleEndian(n / 256, k - 1)
  }

  function FromLittleEndian(b: Bytes): nat {
    if |b| == 0 then 0 else b[0] + 256 * FromLittleEndian(b[1..])
  }

  function Bound(k: nat): nat {
    if k == 0 then 1 else 256 * Bound(k - 1)
  }

  lemma {:induction false} LittleEndianRoundTrip(n: nat, k: nat)
    requires n < Bound(k)
    ensures FromLittleEndian(LittleEndian(n, k)) == n
  {
    if k > 0 {
      LittleEndianRoundTrip(n / 256, k - 1);
      assert LittleEndian(n, k)[1..] == LittleEndian(n / 256, k - 1);
    }
  }

  function Write(n: nat): (r: Bytes)
    requires n < U64
    ensures |r| in {1, 3, 5, 9}
    ensures |r| == 1 <==> n <= 0xFC
  {
    if n <= 0xFC then [n]
    else if n <= 0xFFFF then [0xFD] + LittleEndian(n, 2)
    else if n <= 0xFFFF_FFFF then [0xFE] + LittleEndian(n, 4)
    else [0xFF] + LittleEndian(n, 8)
  }

  /** The value at the front of a buffer and the number of bytes it takes. */
  function Read(b: Bytes): Option<(nat, nat)> {
    if |b| < 1 then None
    else
      var k := if b[0] == 0xFD then 2 else if b[0] == 0xFE then 4 else if b[0] == 0xFF then 8 else 0;
      if |b| < 1 + k then None
      else Some((if k == 0 then b[0] else FromLittleEndian(b[1..1 + k]), 1 + k))
  }

  /** Reading undoes writing, whatever follows in the buffer. */
  lemma RoundTrip(n: nat, rest: Bytes)
    requires n < U64
    ensures Read(Write(n) + rest) == Some((n, |Write(n)|))
  {
    assert Bound(2) == 0x1_0000 && Bound(4) == 0x1_0000_0000;
    assert Bound(8) == 0x1_0000_0000 * Bound(4);
    var k := |Write(n)| - 1;
    if k > 0 {
      LittleEndianRoundTrip(n, k);
      assert (Write(n) + rest)[1..1 + k] == LittleEndian(n, k);
    }
  }

  /** Byte i is the digit with the weight 256^i. */
  lemma {:induction false} LittleEndianAt(n: nat, k: nat, i: nat)
    requires i < k
    ensures Bound(i) > 0 && LittleEndian(n, k)[i] == n / Bound(i) % 256
    decreases k
  {
    BoundPositive(i);
    if i > 0 {
      LittleEndianAt(n / 256, k - 1, i - 1);
      DivTwice(n, Bound(i - 1));
    }
  }

  lemma {:induction false} BoundPositive(k: nat)
    ensures Bound(k) > 0
  {
    if k > 0 {
      BoundPositive(k - 1);
    }
  }

  lemma DivTwice(n: nat, b: nat)
    requires b > 0
    ensures n / (256 * b) == n / 256 / b
  {
    var q, r := n / 256 / b, (n / 256) % b;
    assert n / 256 == b * q + r;
    Arith.DivModUnique(n, 256 * b, q, 256 * r + n % 256);
  }

  /** No other form of a number is shorter than the one that is written. */
  lemma Shortest(b: Bytes)
    requires Read(b).Some?
    ensures Read(b).value.0 < U64 && |Write(Read(b).value.0)| <= Read(b).value.1
  {
    var k := Read(b).value.1 - 1;
    if k > 0 {
      ValueBound(b[1..1 + k]);
      assert Bound(2) == 0x1_0000 && Bound(4) == 0x1_0000_0000;
      assert Bound(8) == 0x1_0000_0000 * Bound(4);
    }
  }

  lemma {:induction false} ValueBound(b: Bytes)
    ensures FromLittleEndian(b) < Bound(|b|)
    decreases |b|
  {
    if |b| > 0 {
      ValueBound(b[1..]);
    }
  }
}
