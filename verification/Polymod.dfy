/**
 The checksum register of Bech32 (BIP 173): a BCH code over 5-bit symbols, kept in 30 bits.
 The register never exceeds 30 bits, so it is a bit string of that length here.
 */
module Polymod {
  import opened BitStrings
  import opened Numerals

  type Register = b: Bits | |b| == 30 witness Zeros(30)

  /** The generator that belongs to bit i of the five that are shifted out. */
  function Generator(i: nat): nat
    requires i < 5
  {
    if i == 0 then 0x3b6a57b2
    else if i == 1 then 0x26508e6d
    else if i == 2 then 0x1ea119fa
    else if i == 3 then 0x3d4233dd
    else 0x2a1462b3
  }

  /** Bit j from the right of the sum of the first n generators whose bits in top are set; bit 0 stands last. */
  predicate Added(top: Bits, n: nat, j: nat)
    requires |top| == 5 && n <= 5
  {
    n > 0 && Added(top, n - 1, j) != (top[5 - n] && Bit(Generator(n - 1), j))
  }

  /** The register shifted by a symbol. */
  function Shifted(pre: Register): Register {
    pre[5..] + Zeros(5)
  }

  /** Shifts in five clear bits and adds the generators of the set bits that are shifted out, bit by bit. */
  function PolymodStep(pre: Register): (r: Register)
    ensures forall i :: 0 <= i < 30 ==> r[i] == (Shifted(pre)[i] != Added(pre[..5], 5, 29 - i))
  {
    seq(30, i requires 0 <= i < 30 => Shifted(pre)[i] != Added(pre[..5], 5, 29 - i))
  }

  /** A symbol in the low bits. */
  function Padded(symbol: nat): Register {
    Zeros(25) + BitsOf(symbol, 5)
  }

  /** One step that takes in a symbol. */
  function Feed(chk: Register, symbol: nat): Register {
    Xor(PolymodStep(chk), Padded(symbol))
  }

  /** Takes in symbols one by one. */
  function Run(next: (Register, nat) -> Register, chk: Register, symbols: seq<nat>): Register {
    if |symbols| == 0 then chk
    else next(Run(next, chk, symbols[..|symbols| - 1]), symbols[|symbols| - 1])
  }

  function FeedAll(chk: Register, symbols: seq<nat>): Register {
    Run(Feed, chk, symbols)
  }

  /** Steps without input. */
  function Repeat(step: Register -> Register, chk: Register, n: nat): Register {
    if n == 0 then chk else step(Repeat(step, chk, n - 1))
  }

  lemma {:induction false} RunConcat(next: (Register, nat) -> Register, chk: Register, s: seq<nat>, t: seq<nat>)
    ensures Run(next, chk, s + t) == Run(next, Run(next, chk, s), t)
    decreases |t|
  {
    if |t| == 0 {
      assert s + t == s;
    } else {
      var last := |t| - 1;
      RunConcat(next, chk, s, t[..last]);
      assert (s + t)[..|s + t| - 1] == s + t[..last];
    }
  }

  // ---- linearity ----

  lemma {:induction false} AddedLinear(s: Bits, t: Bits, n: nat, j: nat)
    requires |s| == |t| == 5 && n <= 5
    ensures Added(Xor(s, t), n, j) == (Added(s, n, j) != Added(t, n, j))
    decreases n
  {
    if n > 0 {
      AddedLinear(s, t, n - 1, j);
    }
  }

  lemma StepLinear(x: Register, y: Register)
    ensures PolymodStep(Xor(x, y)) == Xor(PolymodStep(x), PolymodStep(y))
  {
    assert Xor(x, y)[..5] == Xor(x[..5], y[..5]);
    assert Shifted(Xor(x, y)) == Xor(Shifted(x), Shifted(y));
    forall i | 0 <= i < 30
      ensures PolymodStep(Xor(x, y))[i] == Xor(PolymodStep(x), PolymodStep(y))[i]
    {
      AddedLinear(x[..5], y[..5], 5, 29 - i);
    }
  }

  ghost predicate Linear(next: (Register, nat) -> Register, step: Register -> Register) {
    forall x: Register, y: Register, symbol: nat ::
      next(Xor(x, y), symbol) == Xor(step(x), next(y, symbol))
  }

  lemma FeedIsLinear()
    ensures Linear(Feed, PolymodStep)
  {
    forall x: Register, y: Register, symbol: nat
      ensures Feed(Xor(x, y), symbol) == Xor(PolymodStep(x), Feed(y, symbol))
    {
      StepLinear(x, y);
      XorAssociates(PolymodStep(x), PolymodStep(y), Padded(symbol));
    }
  }

  /** Taking in symbols is steps on one part of the register and the symbols on the other. */
  lemma {:induction false} RunLinear(next: (Register, nat) -> Register, step: Register -> Register,
                                     x: Register, y: Register, symbols: seq<nat>)
    requires Linear(next, step)
    ensures Run(next, Xor(x, y), symbols) == Xor(Repeat(step, x, |symbols|), Run(next, y, symbols))
    decreases |symbols|
  {
    if |symbols| > 0 {
      RunLinear(next, step, x, y, symbols[..|symbols| - 1]);
    }
  }

  // ---- six symbols ----

  /** The bits of symbols in order. */
  function SymbolBits(symbols: seq<nat>): (b: Bits)
    ensures |b| == 5 * |symbols|
  {
    if |symbols| == 0 then []
    else SymbolBits(symbols[..|symbols| - 1]) + BitsOf(symbols[|symbols| - 1], 5)
  }

  lemma {:induction false} NothingAdded(top: Bits, n: nat, j: nat)
    requires top == Zeros(5) && n <= 5
    ensures !Added(top, n, j)
    decreases n
  {
    if n > 0 {
      NothingAdded(top, n - 1, j);
    }
  }

  lemma StepShifts(chk: Register)
    requires chk[..5] == Zeros(5)
    ensures PolymodStep(chk) == Shifted(chk)
  {
    forall i | 0 <= i < 30
      ensures PolymodStep(chk)[i] == Shifted(chk)[i]
    {
      NothingAdded(chk[..5], 5, 29 - i);
    }
  }

  /** With the top five bits clear, a symbol is just shifted in. */
  lemma FeedShifts(chk: Register, symbol: nat)
    requires chk[..5] == Zeros(5)
    ensures Feed(chk, symbol) == chk[5..] + BitsOf(symbol, 5)
  {
    StepShifts(chk);
    XorConcat(chk[5..], Zeros(5), Zeros(25), BitsOf(symbol, 5));
    XorZeros(chk[5..]);
    XorZeros(BitsOf(symbol, 5));
  }

  lemma FeedIsShift()
    ensures Shifts(Feed)
  {
    forall chk: Register, symbol: nat | chk[..5] == Zeros(5)
      ensures Feed(chk, symbol) == chk[5..] + BitsOf(symbol, 5)
    {
      FeedShifts(chk, symbol);
    }
  }

  ghost predicate Shifts(next: (Register, nat) -> Register) {
    forall chk: Register, symbol: nat ::
      chk[..5] == Zeros(5) ==> next(chk, symbol) == chk[5..] + BitsOf(symbol, 5)
  }

  /** Up to six symbols taken into the clear register stand in it as they are. */
  lemma {:induction false} RunFew(next: (Register, nat) -> Register, symbols: seq<nat>)
    requires Shifts(next) && |symbols| <= 6
    ensures Run(next, Zeros(30), symbols) == Zeros(30 - 5 * |symbols|) + SymbolBits(symbols)
    decreases |symbols|
  {
    if |symbols| == 0 {
      assert Zeros(30) + SymbolBits(symbols) == Zeros(30);
    } else {
      var last := |symbols| - 1;
      RunFew(next, symbols[..last]);
      var chk := Run(next, Zeros(30), symbols[..last]);
      assert chk[..5] == Zeros(5);
      assert chk[5..] == Zeros(30 - 5 * |symbols|) + SymbolBits(symbols[..last]);
    }
  }

  lemma {:induction false} SymbolBitsInjective(s: seq<nat>, t: seq<nat>)
    requires |s| == |t| && Digits(s, 32) && Digits(t, 32) && SymbolBits(s) == SymbolBits(t)
    ensures s == t
    decreases |s|
  {
    if |s| > 0 {
      var last := |s| - 1;
      assert SymbolBits(s[..last]) == SymbolBits(s)[..5 * last] == SymbolBits(t)[..5 * last] == SymbolBits(t[..last]);
      assert BitsOf(s[last], 5) == SymbolBits(s)[5 * last..] == SymbolBits(t)[5 * last..] == BitsOf(t[last], 5);
      SymbolBitsInjective(s[..last], t[..last]);
      ThirtyTwo();
      BitsInjective(s[last], t[last], 5);
      assert s == s[..last] + [s[last]] && t == t[..last] + [t[last]];
    }
  }

  lemma ThirtyTwo()
    ensures Pow(2, 5) == 32
  {
    assert Pow(2, 3) == 8;
  }

  /** The six symbols that a register holds. */
  function SymbolsOf(chk: Register): (symbols: seq<nat>)
    ensures |symbols| == 6
  {
    seq(6, i requires 0 <= i < 6 => NumberOf(chk[5 * i..5 * i + 5]))
  }

  lemma SymbolBitsNext(symbols: seq<nat>, v: nat)
    ensures SymbolBits(symbols + [v]) == SymbolBits(symbols) + BitsOf(v, 5)
  {
    assert (symbols + [v])[..|symbols|] == symbols;
  }

  lemma {:induction false} SymbolsOfBits(chk: Register, n: nat)
    requires n <= 6
    ensures Digits(SymbolsOf(chk)[..n], 32)
    ensures SymbolBits(SymbolsOf(chk)[..n]) == chk[..5 * n]
  {
    if n > 0 {
      SymbolsOfBits(chk, n - 1);
      var part := chk[5 * (n - 1)..5 * n];
      ThirtyTwo();
      BitsOfNumber(part);
      SymbolBitsNext(SymbolsOf(chk)[..n - 1], NumberOf(part));
      assert SymbolsOf(chk)[..n] == SymbolsOf(chk)[..n - 1] + [NumberOf(part)];
      assert chk[..5 * (n - 1)] + part == chk[..5 * n];
    }
  }

  /** Six symbols bring any register to any target. */
  lemma ChecksumReaches(next: (Register, nat) -> Register, step: Register -> Register, chk: Register, target: Register)
    requires Linear(next, step) && Shifts(next)
    ensures var symbols := SymbolsOf(Xor(Repeat(step, chk, 6), target));
            Digits(symbols, 32) && Run(next, chk, symbols) == target
  {
    var idle := Repeat(step, chk, 6);
    var sum := Xor(idle, target);
    var symbols := SymbolsOf(sum);
    SymbolsOfBits(sum, 6);
    assert symbols[..6] == symbols && sum[..30] == sum;
    RunFromZero(next, step, chk, symbols);
    assert Zeros(0) + sum == sum;
    XorAssociates(idle, idle, target);
    XorSelf(idle);
    XorZeros(target);
  }

  /** Up to six symbols: steps on the register, plus the symbols themselves. */
  lemma RunFromZero(next: (Register, nat) -> Register, step: Register -> Register, chk: Register, symbols: seq<nat>)
    requires Linear(next, step) && Shifts(next) && |symbols| <= 6
    ensures Run(next, chk, symbols)
         == Xor(Repeat(step, chk, |symbols|), Zeros(30 - 5 * |symbols|) + SymbolBits(symbols))
  {
    XorZeros(chk);
    RunLinear(next, step, chk, Zeros(30), symbols);
    RunFew(next, symbols);
  }

  // ---- nothing is forgotten ----

  lemma AddedAt(top: Bits, j: nat)
    requires |top| == 5
    ensures Added(top, 5, j)
         == (((((top[4] && Bit(Generator(0), j)) != (top[3] && Bit(Generator(1), j)))
               != (top[2] && Bit(Generator(2), j))) != (top[1] && Bit(Generator(3), j)))
             != (top[0] && Bit(Generator(4), j)))
  {
    assert Added(top, 1, j) == (top[4] && Bit(Generator(0), j));
    assert Added(top, 2, j) == ((top[4] && Bit(Generator(0), j)) != (top[3] && Bit(Generator(1), j)));
    assert Added(top, 4, j)
        == ((Added(top, 2, j) != (top[2] && Bit(Generator(2), j))) != (top[1] && Bit(Generator(3), j)));
  }

  /** The low five bits of the generators are independent. */
  lemma GeneratorsIndependent(top: Bits)
    requires |top| == 5 && forall j :: 0 <= j < 5 ==> !Added(top, 5, j)
    ensures top == Zeros(5)
  {
    AddedAt(top, 0);
    AddedAt(top, 1);
    AddedAt(top, 2);
    AddedAt(top, 3);
    AddedAt(top, 4);
    assert !top[0] && !top[1] && !top[2] && !top[3] && !top[4];
  }

  /** Only the clear register steps to the clear register. */
  lemma StepKernel(x: Register)
    requires PolymodStep(x) == Zeros(30)
    ensures x == Zeros(30)
  {
    forall j | 0 <= j < 5
      ensures !Added(x[..5], 5, j)
    {
      assert !PolymodStep(x)[29 - j];
    }
    GeneratorsIndependent(x[..5]);
    StepShifts(x);
    assert x == x[..5] + x[5..];
    assert x[5..] == Shifted(x)[..25] == Zeros(25);
  }

  ghost predicate TrivialKernel(step: Register -> Register) {
    forall x: Register :: step(x) == Zeros(30) ==> x == Zeros(30)
  }

  lemma StepTrivialKernel()
    ensures TrivialKernel(PolymodStep)
  {
    forall x: Register | PolymodStep(x) == Zeros(30)
      ensures x == Zeros(30)
    {
      StepKernel(x);
    }
  }

  lemma {:induction false} RepeatKernel(step: Register -> Register, x: Register, n: nat)
    requires TrivialKernel(step) && Repeat(step, x, n) == Zeros(30)
    ensures x == Zeros(30)
    decreases n
  {
    if n > 0 {
      RepeatKernel(step, x, n - 1);
    }
  }

  /** Different registers stay different under the same symbols. */
  lemma RunInjective(next: (Register, nat) -> Register, step: Register -> Register, x: Register, y: Register, symbols: seq<nat>)
    requires Linear(next, step) && TrivialKernel(step) && Run(next, x, symbols) == Run(next, y, symbols)
    ensures x == y
  {
    var sum := Xor(x, y);
    XorAssociates(x, y, y);
    XorSelf(y);
    XorZeros(x);
    RunLinear(next, step, sum, y, symbols);
    var idle, r := Repeat(step, sum, |symbols|), Run(next, y, symbols);
    XorAssociates(idle, r, r);
    XorSelf(r);
    XorZeros(idle);
    RepeatKernel(step, sum, |symbols|);
    XorZeroMeansEqual(x, y);
  }

  /**
   Two messages that differ only within six consecutive symbols leave different checksums, whatever
   comes before and after.
   */
  lemma BurstChangesRegister(chk: Register, before: seq<nat>, s: seq<nat>, t: seq<nat>, after: seq<nat>)
    requires |s| == |t| <= 6 && Digits(s, 32) && Digits(t, 32)
    requires FeedAll(chk, before + s + after) == FeedAll(chk, before + t + after)
    ensures s == t
  {
    FeedIsLinear();
    FeedIsShift();
    StepTrivialKernel();
    Burst(Feed, PolymodStep, chk, before, s, t, after);
  }

  lemma Burst(next: (Register, nat) -> Register, step: Register -> Register, chk: Register,
              before: seq<nat>, s: seq<nat>, t: seq<nat>, after: seq<nat>)
    requires Linear(next, step) && Shifts(next) && TrivialKernel(step)
    requires |s| == |t| <= 6 && Digits(s, 32) && Digits(t, 32)
    requires Run(next, chk, before + s + after) == Run(next, chk, before + t + after)
    ensures s == t
  {
    var c := Run(next, chk, before);
    RunThrough(next, chk, before, s, after);
    RunThrough(next, chk, before, t, after);
    RunInjective(next, step, Run(next, c, s), Run(next, c, t), after);
    FewDetermined(next, step, c, s, t);
  }

  lemma RunThrough(next: (Register, nat) -> Register, chk: Register, before: seq<nat>, s: seq<nat>, after: seq<nat>)
    ensures Run(next, chk, before + s + after) == Run(next, Run(next, Run(next, chk, before), s), after)
  {
    RunConcat(next, chk, before + s, after);
    RunConcat(next, chk, before, s);
  }

  /** Up to six symbols are determined by where they take the register. */
  lemma FewDetermined(next: (Register, nat) -> Register, step: Register -> Register, chk: Register, s: seq<nat>, t: seq<nat>)
    requires Linear(next, step) && Shifts(next)
    requires |s| == |t| <= 6 && Digits(s, 32) && Digits(t, 32) && Run(next, chk, s) == Run(next, chk, t)
    ensures s == t
  {
    RunFromZero(next, step, chk, s);
    RunFromZero(next, step, chk, t);
    var z := Zeros(30 - 5 * |s|);
    XorCancels(Repeat(step, chk, |s|), z + SymbolBits(s), z + SymbolBits(t));
    SuffixOf(z, SymbolBits(s), SymbolBits(t));
    SymbolBitsInjective(s, t);
  }

  lemma XorCancels(a: Bits, b: Bits, c: Bits)
    requires |a| == |b| == |c| && Xor(a, b) == Xor(a, c)
    ensures b == c
  {
    XorAssociates(a, a, b);
    XorAssociates(a, a, c);
    XorSelf(a);
    XorZeros(b);
    XorZeros(c);
  }

  lemma SuffixOf(z: Bits, a: Bits, b: Bits)
    requires z + a == z + b
    ensures a == b
  {
    assert a == (z + a)[|z|..] && b == (z + b)[|z|..];
  }
}
