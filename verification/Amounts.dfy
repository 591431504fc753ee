/**
 Display of 64-bit amounts: conversion to decimal digits by shifting bits in ("double
 dabble"), then a decimal number with eight fractional digits.
 */
module Amounts {
  import opened Numerals
  import opened Arith

  const CELLS: nat := 21

  // ---- doubling a decimal number ----

  /** Twice a digit string plus a bit; the carry out of the first digit is dropped. */
  function Doubled(s: seq<nat>, bit: nat): (r: seq<nat>)
    ensures |r| == |s|
  {
    if |s| == 0 then []
    else
      var last := |s| - 1;
      Doubled(s[..last], if s[last] >= 5 then 1 else 0) + [2 * s[last] % 10 + bit]
  }

  /** Digit by digit: twice the digit modulo 10, plus one if the next digit carries. */
  lemma {:induction false} DoubledAt(s: seq<nat>, bit: nat, k: nat)
    requires k < |s|
    ensures Doubled(s, bit)[k] == 2 * s[k] % 10 + (if k + 1 < |s| then (if s[k + 1] >= 5 then 1 else 0) else bit)
    decreases |s|
  {
    var last := |s| - 1;
    if k < last {
      DoubledAt(s[..last], if s[last] >= 5 then 1 else 0, k);
    }
  }

  lemma DoubledDigits(s: seq<nat>, bit: nat)
    requires Digits(s, 10) && bit <= 1
    ensures Digits(Doubled(s, bit), 10)
  {
    forall k | 0 <= k < |s|
      ensures Doubled(s, bit)[k] < 10
    {
      DoubledAt(s, bit, k);
      DoubleDigit(s[k]);
    }
  }

  lemma {:induction false} DoubledValue(s: seq<nat>, bit: nat)
    requires Digits(s, 10) && (|s| > 0 ==> s[0] < 5)
    ensures Value(Doubled(s, bit), 10) == 2 * Value(s, 10) + (if |s| > 0 then bit else 0)
    decreases |s|
  {
    if |s| > 0 {
      var last := |s| - 1;
      var d := s[last];
      var carry := if d >= 5 then 1 else 0;
      DoubledValue(s[..last], carry);
      DoubleDigit(d);
      AppendDigit(Doubled(s[..last], carry), 2 * d % 10 + bit);
    }
  }

  lemma AppendDigit(s: seq<nat>, d: nat)
    ensures Value(s + [d], 10) == Value(s, 10) * 10 + d
  {
    assert (s + [d])[..|s|] == s;
  }

  lemma DoubleDigit(d: nat)
    requires d < 10
    ensures 2 * d == 10 * (if d >= 5 then 1 else 0) + 2 * d % 10 && 2 * d % 10 <= 8
  {}

  // ---- one bit, in place ----

  /** The correction before the shift: 3 is added to digits from 5 on. */
  function Adjusted(d: nat): nat {
    if d >= 5 then d + 3 else d
  }

  method AdjustCells(scratch: array<nat>, smin: nat)
    requires scratch.Length == CELLS && smin < CELLS && forall i :: 0 <= i < smin ==> scratch[i] == 0
    modifies scratch
    ensures forall i :: 0 <= i < CELLS ==> scratch[i] == Adjusted(old(scratch[i]))
  {
    for k := smin to CELLS
      invariant forall i :: 0 <= i < k ==> scratch[i] == Adjusted(old(scratch[i]))
      invariant forall i :: k <= i < CELLS ==> scratch[i] == old(scratch[i])
    {
      scratch[k] := scratch[k] + (if scratch[k] >= 5 then 3 else 0);
    }
  }

  /** Shifts 4-bit cells left by one, each taking the top bit of the next one. */
  method ShiftCells(scratch: array<nat>, smin: nat, bit: nat)
    requires scratch.Length == CELLS && smin < CELLS
    requires forall i :: 0 <= i < smin ==> scratch[i] == 0
    requires smin > 0 ==> scratch[smin] < 8
    modifies scratch
    ensures forall i :: 0 <= i < CELLS ==>
                          scratch[i] == old(scratch[i]) * 2 % 16
                                        + (if i + 1 < CELLS then (if old(scratch[i + 1]) >= 8 then 1 else 0) else bit)
  {
    for k := smin to CELLS - 1
      invariant forall i :: 0 <= i < k ==>
                              scratch[i] == old(scratch[i]) * 2 % 16 + (if old(scratch[i + 1]) >= 8 then 1 else 0)
      invariant forall i :: k <= i < CELLS ==> scratch[i] == old(scratch[i])
    {
      scratch[k] := scratch[k] * 2 % 16 + (if scratch[k + 1] >= 8 then 1 else 0);
    }
    scratch[CELLS - 1] := scratch[CELLS - 1] * 2 % 16 + bit;
  }

  /** The cells of a number below 10^20 start with a zero. */
  lemma FirstCellZero(s: seq<nat>)
    requires |s| == CELLS && Digits(s, 10) && Value(s, 10) < Pow(10, 20)
    ensures s[0] == 0
  {
    assert s == [s[0]] + s[1..];
    ValueCons(s[0], s[1..], 10);
    if s[0] > 0 {
      MulMonotone(1, s[0], Pow(10, 20));
    }
  }

  /** Shifting a bit into the cells; cells before smin are zero and are not touched. */
  method ShiftIn(scratch: array<nat>, smin: nat, bit: nat) returns (smin': nat)
    requires scratch.Length == CELLS && smin < CELLS && bit <= 1
    requires Digits(scratch[..], 10) && Value(scratch[..], 10) < Pow(10, 20)
    requires forall i :: 0 <= i < smin ==> scratch[i] == 0
    modifies scratch
    ensures smin' < CELLS && Digits(scratch[..], 10)
    ensures Value(scratch[..], 10) == 2 * Value(old(scratch[..]), 10) + bit
    ensures forall i :: 0 <= i < smin' ==> scratch[i] == 0
  {
    ghost var was := scratch[..];
    FirstCellZero(was);
    AdjustCells(scratch, smin);
    smin' := smin;
    if scratch[smin'] >= 8 {
      smin' := smin' - 1;
    }
    ShiftCells(scratch, smin', bit);
    CellsAreDoubled(was, scratch[..], bit);
    DoubledValue(was, bit);
    DoubledDigits(was, bit);
    StillZero(was, bit, smin, smin');
    assert forall i :: 0 <= i < CELLS ==> scratch[i] == scratch[..][i];
  }

  /** On a decimal digit, correction and shift double modulo 10, with the carry in the top bit. */
  lemma DabbleDigit(d: nat)
    requires d < 10
    ensures Adjusted(d) * 2 % 16 == 2 * d % 10 && (Adjusted(d) >= 8 <==> d >= 5)
  {}

  lemma CellsAreDoubled(was: seq<nat>, now: seq<nat>, bit: nat)
    requires |was| == |now| == CELLS && Digits(was, 10)
    requires forall i :: 0 <= i < CELLS ==>
                           now[i] == Adjusted(was[i]) * 2 % 16
                                     + (if i + 1 < CELLS then (if Adjusted(was[i + 1]) >= 8 then 1 else 0) else bit)
    ensures now == Doubled(was, bit)
  {
    forall k | 0 <= k < CELLS
      ensures now[k] == Doubled(was, bit)[k]
    {
      DoubledAt(was, bit, k);
      DabbleDigit(was[k]);
      if k + 1 < CELLS {
        DabbleDigit(was[k + 1]);
      }
    }
  }

  /** The cells before the new bound are still zero. */
  lemma StillZero(was: seq<nat>, bit: nat, smin: nat, smin': nat)
    requires |was| == CELLS && smin < CELLS && forall i :: 0 <= i < smin ==> was[i] == 0
    requires smin' <= smin && (was[smin] >= 5 ==> smin' < smin)
    ensures forall i :: 0 <= i < smin' ==> Doubled(was, bit)[i] == 0
  {
    forall i | 0 <= i < smin'
      ensures Doubled(was, bit)[i] == 0
    {
      DoubledAt(was, bit, i);
    }
  }

  // ---- all bits ----

  /** The top j bits of a byte. */
  function Top(b: nat, j: nat): nat
    requires j <= 8
  {
    PowPositive(2, 8 - j);
    b / Pow(2, 8 - j)
  }

  /** Bit j of a byte, counted from the most significant. */
  function Bit(b: nat, j: nat): (bit: nat)
    requires j < 8
    ensures bit <= 1
  {
    PowPositive(2, 7 - j);
    b / Pow(2, 7 - j) % 2
  }

  lemma TopStep(b: nat, j: nat)
    requires j < 8
    ensures Top(b, j + 1) == 2 * Top(b, j) + Bit(b, j)
  {
    var p := Pow(2, 7 - j);
    PowPositive(2, 7 - j);
    assert Pow(2, 8 - j) == 2 * p;
    var q, r := b / (2 * p), b % (2 * p);
    assert b == 2 * p * q + r;
    if r < p {
      assert 2 * p * q + r == p * (2 * q) + r;
      DivModUnique(b, p, 2 * q, r);
    } else {
      assert 2 * p * q + r == p * (2 * q + 1) + (r - p);
      DivModUnique(b, p, 2 * q + 1, r - p);
    }
  }

  lemma TopEnds(b: nat)
    requires b < 256
    ensures Top(b, 0) == 0 && Top(b, 8) == b
  {
    assert Pow(2, 4) == 16;
    assert Pow(2, 8) == 256;
    assert Pow(2, 0) == 1;
  }

  lemma TwoToThe64()
    ensures Pow(256, 8) <= Pow(10, 20)
  {
    assert Pow(256, 2) == 65536;
    assert Pow(256, 4) == 65536 * 65536;
    assert Pow(256, 6) == 65536 * 65536 * 65536;
    assert Pow(10, 4) == 10000;
    assert Pow(10, 8) == 100000000;
    assert Pow(10, 12) == 1000000000000;
    assert Pow(10, 16) == 10000000000000000;
  }

  /** A part of the amount is small enough to be doubled. */
  lemma PartBound(amount: seq<nat>, i: nat, j: nat)
    requires |amount| == 8 && Digits(amount, 256) && i < 8 && j < 8
    ensures Value(amount[..i], 256) * Pow(2, j) + Top(amount[i], j) < Pow(10, 20)
  {
    var v, b := Value(amount[..i], 256), amount[i];
    ValueBound(amount[..i], 256);
    AppendBound(v, Pow(256, i), b, 256);
    PowMonotone(256, i + 1, 8);
    TwoToThe64();
    PowMonotone(2, j, 8);
    assert Pow(2, 4) == 16;
    assert Pow(2, 8) == 256;
    MulMonotone(Pow(2, j), 256, v);
    PowPositive(2, 8 - j);
    DivAtMost(b, Pow(2, 8 - j));
  }

  lemma DivAtMost(b: nat, p: nat)
    requires p > 0
    ensures b / p <= b
  {
    MulMonotone(1, p, b / p);
    assert b == p * (b / p) + b % p;
  }

  lemma BitValue(v: nat, p: nat, top: nat, bit: nat)
    ensures 2 * (v * p + top) + bit == v * (2 * p) + (2 * top + bit)
  {}

  /** The number that i bytes and j more bits of the amount make. */
  function Part(amount: seq<nat>, i: nat, j: nat): nat
    requires i < |amount| && j <= 8
  {
    if j == 0 then Value(amount[..i], 256) else 2 * Part(amount, i, j - 1) + Bit(amount[i], j - 1)
  }

  lemma {:induction false} PartIs(amount: seq<nat>, i: nat, j: nat)
    requires i < |amount| && j <= 8 && Digits(amount, 256)
    ensures Part(amount, i, j) == Value(amount[..i], 256) * Pow(2, j) + Top(amount[i], j)
    decreases j
  {
    if j == 0 {
      TopEnds(amount[i]);
    } else {
      PartIs(amount, i, j - 1);
      TopStep(amount[i], j - 1);
      BitValue(Value(amount[..i], 256), Pow(2, j - 1), Top(amount[i], j - 1), Bit(amount[i], j - 1));
    }
  }

  lemma PartFits(amount: seq<nat>, i: nat, j: nat)
    requires |amount| == 8 && Digits(amount, 256) && i < 8 && j < 8
    ensures Part(amount, i, j) < Pow(10, 20)
  {
    PartIs(amount, i, j);
    PartBound(amount, i, j);
  }

  lemma WholeByte(amount: seq<nat>, i: nat)
    requires i < |amount| && Digits(amount, 256)
    ensures Part(amount, i, 8) == 256 * Value(amount[..i], 256) + amount[i]
  {
    PartIs(amount, i, 8);
    TopEnds(amount[i]);
    TwoToThe8();
  }

  lemma TwoToThe8()
    ensures Pow(2, 8) == 256
  {
    assert Pow(2, 4) == 16;
  }

  /** What the cells hold between two bits. */
  ghost predicate Holds(cells: seq<nat>, smin: nat, v: nat) {
    && |cells| == CELLS && smin < CELLS && Digits(cells, 10)
    && (forall k :: 0 <= k < smin ==> cells[k] == 0)
    && Value(cells, 10) == v
  }

  method ShiftInByte(scratch: array<nat>, smin: nat, ghost amount: seq<nat>, ghost i: nat, b: nat) returns (smin': nat)
    requires scratch.Length == CELLS && |amount| == 8 && Digits(amount, 256) && i < 8 && b == amount[i]
    requires Holds(scratch[..], smin, Value(amount[..i], 256))
    modifies scratch
    ensures Holds(scratch[..], smin', 256 * Value(amount[..i], 256) + b)
  {
    smin' := smin;
    for j := 0 to 8
      invariant Holds(scratch[..], smin', Part(amount, i, j))
    {
      PartFits(amount, i, j);
      assert forall k :: 0 <= k < smin' ==> scratch[k] == scratch[..][k];
      smin' := ShiftIn(scratch, smin', Bit(b, j));
    }
    WholeByte(amount, i);
  }

  /** The decimal digits of the amount, bit by bit. */
  method ToDecimal(amount: seq<nat>) returns (scratch: array<nat>)
    requires |amount| == 8 && Digits(amount, 256)
    ensures fresh(scratch) && scratch.Length == CELLS
    ensures Digits(scratch[..], 10) && Value(scratch[..], 10) == Value(amount, 256)
  {
    scratch := new nat[CELLS](_ => 0);
    var smin: nat := CELLS - 2;
    ValueOfZeros(scratch[..], 10);
    for i := 0 to 8
      invariant fresh(scratch) && Holds(scratch[..], smin, Value(amount[..i], 256))
    {
      smin := ShiftInByte(scratch, smin, amount, i, amount[i]);
      assert amount[..i + 1][..i] == amount[..i];
    }
    assert amount[..8] == amount;
  }

  // ---- printing ----

  function DigitChar(d: nat): char
    requires d < 10
  {
    ('0' as nat + d) as char
  }

  function Chars(digits: seq<nat>): (s: string)
    requires Digits(digits, 10)
    ensures |s| == |digits|
    ensures forall i :: 0 <= i < |s| ==> s[i] == DigitChar(digits[i])
  {
    seq(|digits|, i requires 0 <= i < |digits| => DigitChar(digits[i]))
  }

  /** A decimal number; the point is there only in front of fractional digits. */
  function Decimal(whole: seq<nat>, fraction: seq<nat>): string
    requires Digits(whole, 10) && Digits(fraction, 10)
  {
    Chars(whole) + (if |fraction| == 0 then [] else ['.'] + Chars(fraction))
  }

  /** No redundant leading digit: a single zero, or no zero in front. */
  predicate PlainWhole(whole: seq<nat>) {
    |whole| > 0 && (whole[0] == 0 ==> |whole| == 1)
  }

  /** No trailing zero. */
  predicate PlainFraction(fraction: seq<nat>) {
    |fraction| <= 8 && (|fraction| > 0 ==> fraction[|fraction| - 1] != 0)
  }

  /** What a decimal number is worth in units of 10^-8. */
  function Worth(whole: seq<nat>, fraction: seq<nat>): nat
    requires |fraction| <= 8
  {
    Value(whole, 10) * Pow(10, 8) + Value(fraction, 10) * Pow(10, 8 - |fraction|)
  }

  /** The text determines the two digit strings. */
  lemma DecimalInjective(whole: seq<nat>, fraction: seq<nat>, whole': seq<nat>, fraction': seq<nat>)
    requires Digits(whole, 10) && Digits(fraction, 10) && Digits(whole', 10) && Digits(fraction', 10)
    requires Decimal(whole, fraction) == Decimal(whole', fraction')
    ensures whole == whole' && fraction == fraction'
  {
    var s, s' := Decimal(whole, fraction), Decimal(whole', fraction');
    assert forall i :: 0 <= i < |whole| ==> s[i] != '.';
    assert forall i :: 0 <= i < |whole'| ==> s'[i] != '.';
    assert |fraction| > 0 ==> s[|whole|] == '.';
    assert |fraction'| > 0 ==> s'[|whole'|] == '.';
    assert |whole| == |whole'| && |fraction| == |fraction'|;
    assert forall i :: 0 <= i < |whole| ==> s[i] == DigitChar(whole[i]) && s'[i] == DigitChar(whole'[i]);
    assert forall i :: 0 <= i < |fraction| ==>
                         s[|whole| + 1 + i] == DigitChar(fraction[i]) && s'[|whole| + 1 + i] == DigitChar(fraction'[i]);
  }

  const WHOLE_CELLS: nat := 13

  /** Prints the whole part without leading zeros; a zero alone stays. */
  method PrintWhole(cells: seq<nat>, out: array<char>) returns (n: nat, ghost whole: seq<nat>)
    requires |cells| == CELLS && Digits(cells, 10) && out.Length >= WHOLE_CELLS
    modifies out
    ensures 1 <= n <= WHOLE_CELLS && Digits(whole, 10) && PlainWhole(whole) && out[..n] == Chars(whole)
    ensures Value(whole, 10) == Value(cells[..WHOLE_CELLS], 10)
    ensures forall i :: n <= i < out.Length ==> out[i] == old(out[i])
  {
    n := 0;
    var nonZero := false;
    ghost var first := 0;
    for offset := 0 to WHOLE_CELLS
      invariant nonZero <==> first < offset
      invariant first <= offset && n == offset - first
      invariant forall i :: 0 <= i < first ==> cells[i] == 0
      invariant nonZero ==> cells[first] != 0
      invariant forall i :: 0 <= i < n ==> out[i] == DigitChar(cells[first + i])
      invariant forall i :: n <= i < out.Length ==> out[i] == old(out[i])
    {
      if !nonZero && cells[offset] == 0 {
        first := first + 1;
      } else {
        nonZero := true;
        out[n] := DigitChar(cells[offset]);
        n := n + 1;
      }
    }
    whole := cells[first..WHOLE_CELLS];
    ValueSkipZeros(cells[..WHOLE_CELLS], first, 10);
    assert cells[..WHOLE_CELLS][first..] == whole;
    if n == 0 {
      out[n] := '0';
      n := n + 1;
      whole := [0];
      ValueSingle(0, 10);
    }
  }

  /** The fractional digits up to the last one that is not zero. */
  function FractionLength(cells: seq<nat>): (f: nat)
    ensures f <= |cells|
    ensures forall i :: f <= i < |cells| ==> cells[i] == 0
    ensures f > 0 ==> cells[f - 1] != 0
  {
    if |cells| == 0 then 0
    else if cells[|cells| - 1] != 0 then |cells|
    else FractionLength(cells[..|cells| - 1])
  }

  /** Prints the fractional digits, each only if it or a later one is not zero. */
  method PrintFraction(cells: seq<nat>, out: array<char>, start: nat) returns (n: nat)
    requires |cells| == 8 && Digits(cells, 10) && start + 9 <= out.Length
    modifies out
    ensures var fraction := cells[..FractionLength(cells)];
            && n == start + (if |fraction| == 0 then 0 else 1 + |fraction|)
            && out[start..n] == (if |fraction| == 0 then [] else ['.'] + Chars(fraction))
    ensures forall i :: 0 <= i < start ==> out[i] == old(out[i])
  {
    var comma := false;
    n := start;
    ghost var f := FractionLength(cells);
    for i := 0 to 8
      invariant i <= f && (comma <==> i > 0) && n == start + (if i == 0 then 0 else 1 + i)
      invariant i > 0 ==> out[start] == '.'
      invariant forall k :: 0 <= k < i ==> out[start + 1 + k] == DigitChar(cells[k])
      invariant forall k :: 0 <= k < start ==> out[k] == old(out[k])
    {
      if forall j :: i <= j < 8 ==> cells[j] == 0 {
        assert i == f;
        break;
      }
      if !comma {
        out[n] := '.';
        n := n + 1;
        comma := true;
      }
      out[n] := DigitChar(cells[i]);
      n := n + 1;
    }
  }

  /** The digits of the cells, split into whole and fractional part, are worth the same. */
  lemma WorthOfCells(cells: seq<nat>, whole: seq<nat>)
    requires |cells| == CELLS && Value(whole, 10) == Value(cells[..WHOLE_CELLS], 10)
    ensures var rest := cells[WHOLE_CELLS..];
            Worth(whole, rest[..FractionLength(rest)]) == Value(cells, 10)
  {
    var rest := cells[WHOLE_CELLS..];
    var f := FractionLength(rest);
    assert cells == cells[..WHOLE_CELLS] + rest;
    ValueConcat(cells[..WHOLE_CELLS], rest, 10);
    assert rest == rest[..f] + rest[f..];
    ValueConcat(rest[..f], rest[f..], 10);
    ValueOfZeros(rest[f..], 10);
  }

  /**
   Prints a 64-bit amount, given as 8 big-endian bytes, as a decimal number of units of 10^8
   without redundant digits, and returns the length of the text.
   */
  method DisplayAmount(amount: seq<nat>, out: array<char>) returns (n: nat, ghost whole: seq<nat>, ghost fraction: seq<nat>)
    requires |amount| == 8 && Digits(amount, 256) && out.Length >= 22
    modifies out
    ensures Digits(whole, 10) && Digits(fraction, 10) && PlainWhole(whole) && PlainFraction(fraction)
    ensures n <= 22 && out[..n] == Decimal(whole, fraction)
    ensures Worth(whole, fraction) == Value(amount, 256)
  {
    var scratch := ToDecimal(amount);
    n, whole, fraction := PrintCells(scratch[..], out);
  }

  /** Prints the decimal digits with the point where it belongs. */
  method PrintCells(cells: seq<nat>, out: array<char>) returns (n: nat, ghost whole: seq<nat>, ghost fraction: seq<nat>)
    requires |cells| == CELLS && Digits(cells, 10) && out.Length >= 22
    modifies out
    ensures Digits(whole, 10) && Digits(fraction, 10) && PlainWhole(whole) && PlainFraction(fraction)
    ensures n <= 22 && out[..n] == Decimal(whole, fraction)
    ensures Worth(whole, fraction) == Value(cells, 10)
  {
    n, whole := PrintWhole(cells, out);
    ghost var w := n;
    ghost var rest := cells[WHOLE_CELLS..];
    fraction := rest[..FractionLength(rest)];
    n := PrintFraction(cells[WHOLE_CELLS..], out, n);
    WorthOfCells(cells, whole);
    assert out[..n] == out[..w] + out[w..n];
  }

  /** Amounts with the same text are equal. */
  lemma TextDeterminesAmount(a: nat, b: nat, whole: seq<nat>, fraction: seq<nat>, whole': seq<nat>, fraction': seq<nat>)
    requires Digits(whole, 10) && Digits(fraction, 10) && Digits(whole', 10) && Digits(fraction', 10)
    requires |fraction| <= 8 && |fraction'| <= 8 && Worth(whole, fraction) == a && Worth(whole', fraction') == b
    requires Decimal(whole, fraction) == Decimal(whole', fraction')
    ensures a == b
  {
    DecimalInjective(whole, fraction, whole', fraction');
  }
}
