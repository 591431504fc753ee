/** Numbers as strings of bits, most significant bit first. */
module BitStrings {
  import opened Arith
  import opened Numerals

  type Bits = seq<bool>

  /** The k low bits of n. */
  function BitsOf(n: nat, k: nat): (b: Bits)
    ensures |b| == k
  {
    if k == 0 then [] else BitsOf(n / 2, k - 1) + [n % 2 == 1]
  }

  function NumberOf(b: Bits): nat {
    if |b| == 0 then 0
    else 2 * NumberOf(b[..|b| - 1]) + (if b[|b| - 1] then 1 else 0)
  }

  function Zeros(k: nat): (b: Bits)
    ensures |b| == k
    ensures forall i :: 0 <= i < k ==> !b[i]
  {
    seq(k, _ => false)
  }

  function Xor(a: Bits, b: Bits): (r: Bits)
    requires |a| == |b|
    ensures |r| == |a|
    ensures forall i :: 0 <= i < |r| ==> r[i] == (a[i] != b[i])
  {
    seq(|a|, i requires 0 <= i < |a| => a[i] != b[i])
  }

  /** Bits and numbers below 2^k determine each other. */
  lemma {:induction false} NumberOfBits(n: nat, k: nat)
    requires n < Pow(2, k)
    ensures NumberOf(BitsOf(n, k)) == n
    decreases k
  {
    if k > 0 {
      NumberOfBits(n / 2, k - 1);
      assert BitsOf(n, k)[..k - 1] == BitsOf(n / 2, k - 1);
    }
  }

  lemma {:induction false} BitsOfNumber(b: Bits)
    ensures NumberOf(b) < Pow(2, |b|)
    ensures BitsOf(NumberOf(b), |b|) == b
    decreases |b|
  {
    if |b| > 0 {
      BitsOfNumber(b[..|b| - 1]);
      assert b == b[..|b| - 1] + [b[|b| - 1]];
    }
  }

  lemma BitsInjective(m: nat, n: nat, k: nat)
    requires m < Pow(2, k) && n < Pow(2, k) && BitsOf(m, k) == BitsOf(n, k)
    ensures m == n
  {
    NumberOfBits(m, k);
    NumberOfBits(n, k);
  }

  /** Shifting in w bits. */
  lemma {:induction false} BitsShiftIn(n: nat, k: nat, x: nat, w: nat)
    requires x < Pow(2, w)
    ensures BitsOf(n * Pow(2, w) + x, k + w) == BitsOf(n, k) + BitsOf(x, w)
    decreases w
  {
    if w > 0 {
      var p := Pow(2, w - 1);
      BitsShiftIn(n, k, x / 2, w - 1);
      assert n * (2 * p) == 2 * (n * p);
      DivModUnique(n * (2 * p) + x, 2, n * p + x / 2, x % 2);
      assert (BitsOf(n, k) + BitsOf(x / 2, w - 1)) + [x % 2 == 1] == BitsOf(n, k) + BitsOf(x, w);
    }
  }

  /** The remainder by 2p, one bit at a time. */
  lemma RemainderHalves(n: nat, p: nat)
    requires p > 0
    ensures n / (2 * p) == n / 2 / p
    ensures (n % (2 * p)) / 2 == (n / 2) % p && (n % (2 * p)) % 2 == n % 2
  {
    var q, r := n / 2 / p, (n / 2) % p;
    assert n / 2 == p * q + r;
    assert (2 * p) * q == 2 * (p * q);
    DivModUnique(n, 2 * p, q, 2 * r + n % 2);
  }

  /** The low bits only depend on the remainder. */
  lemma {:induction false} BitsOfRemainder(n: nat, k: nat, m: nat)
    requires k <= m
    ensures Pow(2, m) > 0 && BitsOf(n % Pow(2, m), k) == BitsOf(n, k)
    decreases k
  {
    PowPositive(2, m);
    if k > 0 {
      PowPositive(2, m - 1);
      RemainderHalves(n, Pow(2, m - 1));
      BitsOfRemainder(n / 2, k - 1, m - 1);
    }
  }

  /** Splitting off the low bits. */
  lemma BitsSplit(n: nat, k: nat, w: nat)
    ensures Pow(2, w) > 0
    ensures BitsOf(n, k + w) == BitsOf(n / Pow(2, w), k) + BitsOf(n, w)
  {
    PowPositive(2, w);
    var p := Pow(2, w);
    assert n == (n / p) * p + n % p;
    BitsShiftIn(n / p, k, n % p, w);
    BitsOfRemainder(n, w, w);
  }

  /** Bit j from the right. */
  predicate Bit(n: nat, j: nat) {
    if j == 0 then n % 2 == 1 else Bit(n / 2, j - 1)
  }

  lemma {:induction false} BitAt(n: nat, k: nat, j: nat)
    requires j < k
    ensures BitsOf(n, k)[k - 1 - j] == Bit(n, j)
    decreases k
  {
    if j > 0 {
      BitAt(n / 2, k - 1, j - 1);
    }
  }

  lemma {:induction false} BitsOfZero(k: nat)
    ensures BitsOf(0, k) == Zeros(k)
  {
    if k > 0 {
      BitsOfZero(k - 1);
    }
  }

  // ---- algebra ----

  lemma XorAssociates(a: Bits, b: Bits, c: Bits)
    requires |a| == |b| == |c|
    ensures Xor(Xor(a, b), c) == Xor(a, Xor(b, c))
  {}

  lemma XorSelf(a: Bits)
    ensures Xor(a, a) == Zeros(|a|)
  {}

  lemma XorZeros(a: Bits)
    ensures Xor(a, Zeros(|a|)) == a && Xor(Zeros(|a|), a) == a
  {}

  lemma XorConcat(a: Bits, a': Bits, b: Bits, b': Bits)
    requires |a| == |b| && |a'| == |b'|
    ensures Xor(a + a', b + b') == Xor(a, b) + Xor(a', b')
  {}

  /** Strings of one length are equal if their exclusive or is zero. */
  lemma XorZeroMeansEqual(a: Bits, b: Bits)
    requires |a| == |b| && Xor(a, b) == Zeros(|a|)
    ensures a == b
  {
    forall i | 0 <= i < |a|
      ensures a[i] == b[i]
    {
      assert !Xor(a, b)[i];
    }
  }
}
