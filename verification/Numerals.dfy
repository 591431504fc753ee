/** Positional numerals, most significant digit first, in an arbitrary base. */
module Numerals {
  import opened Arith

  function Pow(b: nat, k: nat): nat {
    if k == 0 then 1 else b * Pow(b, k - 1)
  }

  function Value(s: seq<nat>, b: nat): nat {
    if |s| == 0 then 0 else Value(s[..|s| - 1], b) * b + s[|s| - 1]
  }

  predicate Digits(s: seq<nat>, b: nat) {
    forall i :: 0 <= i < |s| ==> s[i] < b
  }

  lemma {:induction false} PowPositive(b: nat, k: nat)
    requires b > 0
    ensures Pow(b, k) > 0
  {
    if k > 0 {
      PowPositive(b, k - 1);
    }
  }

  lemma {:induction false} PowAdd(b: nat, j: nat, k: nat)
    ensures Pow(b, j + k) == Pow(b, j) * Pow(b, k)
    decreases k
  {
    if k > 0 {
      PowAdd(b, j, k - 1);
      assert Pow(b, j + k) == b * Pow(b, j + (k - 1));
      Rearrange(b, Pow(b, j), Pow(b, k - 1));
    }
  }

  lemma MulMonotone(a: nat, b: nat, c: nat)
    requires a <= b
    ensures a * c <= b * c
  {}

  /** Appending a digit below the base stays below the next power. */
  lemma AppendBound(v: nat, p: nat, d: nat, b: nat)
    requires v < p && d < b
    ensures v * b + d < b * p
  {
    MulMonotone(v + 1, p, b);
    assert (v + 1) * b == v * b + b;
  }

  lemma Rearrange(a: nat, x: nat, y: nat)
    ensures a * (x * y) == x * (a * y)
  {}

  lemma {:induction false} PowMonotone(b: nat, j: nat, k: nat)
    requires b > 0 && j <= k
    ensures Pow(b, j) <= Pow(b, k)
  {
    if j < k {
      PowMonotone(b, j, k - 1);
      MulMonotone(1, b, Pow(b, k - 1));
    }
  }

  /** A numeral in two parts. */
  lemma {:induction false} ValueConcat(s: seq<nat>, t: seq<nat>, b: nat)
    ensures Value(s + t, b) == Value(s, b) * Pow(b, |t|) + Value(t, b)
    decreases |t|
  {
    if |t| == 0 {
      assert s + t == s;
    } else {
      var last := |t| - 1;
      ValueConcat(s, t[..last], b);
      assert (s + t)[..|s + t| - 1] == s + t[..last];
      Distribute(Value(s, b), Pow(b, last), Value(t[..last], b), b);
    }
  }

  lemma Distribute(v: nat, p: nat, w: nat, b: nat)
    ensures (v * p + w) * b == v * (b * p) + w * b
  {
    assert (v * p + w) * b == v * p * b + w * b;
    assert v * p * b == v * (b * p);
  }

  lemma ValueSingle(d: nat, b: nat)
    ensures Value([d], b) == d
  {
    assert [d][..0] == [];
    assert Value([], b) == 0;
  }

  /** A numeral with one more digit in front. */
  lemma ValueCons(d: nat, t: seq<nat>, b: nat)
    ensures Value([d] + t, b) == d * Pow(b, |t|) + Value(t, b)
  {
    ValueConcat([d], t, b);
    ValueSingle(d, b);
  }

  lemma {:induction false} ValueBound(s: seq<nat>, b: nat)
    requires Digits(s, b)
    ensures Value(s, b) < Pow(b, |s|)
    decreases |s|
  {
    if |s| > 0 {
      ValueBound(s[..|s| - 1], b);
      AppendBound(Value(s[..|s| - 1], b), Pow(b, |s| - 1), s[|s| - 1], b);
    }
  }

  lemma {:induction false} ValueOfZeros(s: seq<nat>, b: nat)
    requires forall i :: 0 <= i < |s| ==> s[i] == 0
    ensures Value(s, b) == 0
    decreases |s|
  {
    if |s| > 0 {
      ValueOfZeros(s[..|s| - 1], b);
    }
  }

  /** Leading zeros do not change the value. */
  lemma ValueSkipZeros(s: seq<nat>, k: nat, b: nat)
    requires k <= |s| && forall i :: 0 <= i < k ==> s[i] == 0
    ensures Value(s, b) == Value(s[k..], b)
  {
    assert s == s[..k] + s[k..];
    ValueConcat(s[..k], s[k..], b);
    ValueOfZeros(s[..k], b);
  }

  /** No leading zero. */
  predicate Canonical(s: seq<nat>) {
    |s| > 0 ==> s[0] != 0
  }

  /** Without a leading zero a numeral is at least the power for its length. */
  lemma CanonicalBound(s: seq<nat>, b: nat)
    requires |s| > 0 && s[0] != 0
    ensures Value(s, b) >= Pow(b, |s| - 1)
  {
    assert s == [s[0]] + s[1..];
    ValueCons(s[0], s[1..], b);
    MulMonotone(1, s[0], Pow(b, |s| - 1));
  }

  lemma DigitSplit(v: nat, v': nat, d: nat, d': nat, b: nat)
    requires d < b && d' < b && v * b + d == v' * b + d'
    ensures v == v' && d == d'
  {
    DivModUnique(v * b + d, b, v, d);
    DivModUnique(v * b + d, b, v', d');
  }

  /** Numerals of one length are determined by their value. */
  lemma {:induction false} ValueInjective(s: seq<nat>, t: seq<nat>, b: nat)
    requires Digits(s, b) && Digits(t, b) && |s| == |t| && Value(s, b) == Value(t, b)
    ensures s == t
    decreases |s|
  {
    if |s| > 0 {
      var last := |s| - 1;
      DigitSplit(Value(s[..last], b), Value(t[..last], b), s[last], t[last], b);
      ValueInjective(s[..last], t[..last], b);
      assert s == s[..last] + [s[last]] && t == t[..last] + [t[last]];
    }
  }

  /** So are numerals without leading zeros. */
  lemma CanonicalUnique(s: seq<nat>, t: seq<nat>, b: nat)
    requires b > 0 && Digits(s, b) && Digits(t, b) && Canonical(s) && Canonical(t) && Value(s, b) == Value(t, b)
    ensures s == t
  {
    CanonicalLength(s, t, b);
    CanonicalLength(t, s, b);
    ValueInjective(s, t, b);
  }

  lemma CanonicalLength(s: seq<nat>, t: seq<nat>, b: nat)
    requires b > 0 && Digits(s, b) && Digits(t, b) && Canonical(s) && Canonical(t) && Value(s, b) == Value(t, b)
    ensures |s| >= |t|
  {
    ValueBound(s, b);
    if |s| < |t| {
      CanonicalBound(t, b);
      PowMonotone(b, |s|, |t| - 1);
    }
  }
}
