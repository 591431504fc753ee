/** The checksum register holds the remainder of the message modulo the generator polynomial of BIP 173. */
module Bch {
  import opened BitStrings
  import opened Numerals
  import opened Polymod
  import opened Galois
  import Arith

  /** 29, 22, 20, 21, 29, 18: the coefficients of the generator polynomial below x^6. */
  function LowCoefficient(k: nat): nat
    requires k < 6
  {
    [29, 22, 20, 21, 29, 18][k]
  }

  /** x^6 + 29 x^5 + 22 x^4 + 20 x^3 + 21 x^2 + 29 x + 18 */
  function GeneratorPoly(): (g: Poly)
    ensures |g| == 7
  {
    [BitsOf(1, 5)] + seq(6, k requires 0 <= k < 6 => BitsOf(LowCoefficient(k), 5))
  }

  /** The six symbols of a register, as coefficients. */
  function Coefficients(chk: Register): (p: Poly)
    ensures |p| == 6
    ensures forall k :: 0 <= k < 6 ==> p[k] == chk[5 * k..5 * k + 5]
  {
    seq(6, k requires 0 <= k < 6 => chk[5 * k..5 * k + 5])
  }

  // ---- the bits of the generators ----

  /** A number without its k lowest symbols. */
  function Down(n: nat, k: nat): nat {
    if k == 0 then n else Down(n / 32, k - 1)
  }

  lemma BitShift(n: nat, j: nat)
    ensures Bit(n, j + 5) == Bit(n / 32, j)
  {
    assert Bit(n, j + 5) == Bit(n / 2, j + 4) == Bit(n / 2 / 2, j + 3) == Bit(n / 2 / 2 / 2, j + 2)
        == Bit(n / 2 / 2 / 2 / 2, j + 1) == Bit(n / 2 / 2 / 2 / 2 / 2, j);
    assert n / 2 / 2 / 2 / 2 / 2 == n / 32;
  }

  lemma {:induction false} BitDown(n: nat, j: nat, k: nat)
    ensures Bit(n, 5 * k + j) == Bit(Down(n, k), j)
    decreases k
  {
    if k > 0 {
      BitDown(n / 32, j, k - 1);
      BitShift(n, 5 * (k - 1) + j);
    }
  }

  // ---- multiples of the coefficients ----

  function AlphaPower(a: Element, n: nat): Element {
    if n == 0 then a else TimesAlpha(AlphaPower(a, n - 1))
  }

  function Choice(bit: bool, a: Element): Element {
    if bit then a else Zeros(5)
  }

  lemma AlphaLinear(a: Element, b: Element)
    ensures TimesAlpha(Xor(a, b)) == Xor(TimesAlpha(a), TimesAlpha(b))
  {}

  lemma TimesNext(a: Element, b: Bits, bit: bool)
    ensures Times(a, b + [bit]) == Xor(TimesAlpha(Times(a, b)), Choice(bit, a))
  {
    assert (b + [bit])[..|b|] == b;
  }

  lemma AlphaRegroups(p: Element, t: Element, l: Element)
    ensures Xor(TimesAlpha(Xor(p, t)), l) == Xor(TimesAlpha(p), Xor(TimesAlpha(t), l))
  {
    AlphaLinear(p, t);
    XorAssociates(TimesAlpha(p), TimesAlpha(t), l);
  }

  lemma AlphaChoice(bit: bool, a: Element, n: nat)
    ensures TimesAlpha(Choice(bit, AlphaPower(a, n))) == Choice(bit, AlphaPower(a, n + 1))
  {}

  /** The first bit of a factor adds a multiple. */
  lemma {:induction false} TimesFirst(a: Element, bit: bool, b: Bits)
    ensures Times(a, [bit] + b) == Xor(Choice(bit, AlphaPower(a, |b|)), Times(a, b))
    decreases |b|
  {
    if |b| == 0 {
      TimesBit(a, bit, b);
    } else {
      var rest, last := b[..|b| - 1], b[|b| - 1];
      assert b == rest + [last] && [bit] + b == [bit] + rest + [last];
      TimesFirst(a, bit, rest);
      TimesNext(a, [bit] + rest, last);
      TimesNext(a, rest, last);
      AlphaRegroups(Choice(bit, AlphaPower(a, |rest|)), Times(a, rest), Choice(last, a));
      AlphaChoice(bit, a, |rest|);
    }
  }

  lemma TimesBit(a: Element, bit: bool, b: Bits)
    requires b == []
    ensures Times(a, [bit] + b) == Xor(Choice(bit, AlphaPower(a, |b|)), Times(a, b))
  {
    assert [bit] + b == b + [bit];
    TimesNext(a, b, bit);
    assert Times(a, b) == Zeros(5) && TimesAlpha(Zeros(5)) == Zeros(5);
  }

  // ---- the symbols of the generators ----

  lemma NextBit(m: nat, b: nat, k: nat)
    requires b <= 1
    ensures BitsOf(2 * m + b, k + 1) == BitsOf(m, k) + [b == 1]
  {}

  lemma NextTwo(m: nat, b: nat, c: nat, n: nat, k: nat)
    requires b <= 1 && c <= 1 && n == 4 * m + 2 * b + c
    ensures BitsOf(n, k + 2) == BitsOf(m, k) + [b == 1, c == 1]
  {
    NextBit(m, b, k);
    NextBit(2 * m + b, c, k + 1);
  }

  lemma FromBits(a: nat, b: nat, c: nat, d: nat, e: nat, v: nat, m: nat, k: nat)
    requires a <= 1 && b <= 1 && c <= 1 && d <= 1 && e <= 1 && v == 4 * m + 2 * d + e && m == 4 * a + 2 * b + c && k == 1
    ensures BitsOf(v, k + 4) == [a == 1, b == 1, c == 1, d == 1, e == 1]
  {
    OneBit(a);
    NextTwo(a, b, c, m, k);
    NextTwo(m, d, e, v, k + 2);
  }

  lemma OneBit(a: nat)
    requires a <= 1
    ensures BitsOf(a, 1) == [a == 1]
  {
    assert BitsOf(a, 1) == [] + [a % 2 == 1];
  }

  /** Multiplication by alpha, on numbers. */
  function AlphaOf(v: nat): nat {
    if v < 16 then 2 * v else if v / 4 % 2 == 0 then 2 * v - 23 else 2 * v - 39
  }

  lemma AlphaOfBits(v: nat, a: nat, b: nat, c: nat, d: nat, e: nat)
    requires a <= 1 && b <= 1 && c <= 1 && d <= 1 && e <= 1 && v == 16 * a + 8 * b + 4 * c + 2 * d + e
    ensures AlphaOf(v) >= 0 && BitsOf(AlphaOf(v), 5) == TimesAlpha(BitsOf(v, 5))
  {
    FromBits(a, b, c, d, e, v, 4 * a + 2 * b + c, 1);
    assert v / 4 == 4 * a + 2 * b + c;
    var f := if a == 1 then 1 - c else c;
    FromBits(b, f, d, e, a, AlphaOf(v), 4 * b + 2 * f + d, 1);
  }
  /** The number with these symbols, the lowest first. */
  function Packed(d: seq<nat>): nat {
    if |d| == 0 then 0 else d[0] + 32 * Packed(d[1..])
  }

  lemma {:induction false} SymbolAt(d: seq<nat>, k: nat)
    requires Digits(d, 32) && k < |d|
    ensures Down(Packed(d), k) % 32 == d[k]
    decreases |d|
  {
    var m := Packed(d[1..]);
    assert Packed(d) / 32 == m && Packed(d) % 32 == d[0];
    if k > 0 {
      SymbolAt(d[1..], k - 1);
    }
  }

  /** The symbols of each generator, the lowest first. */
  function Row(n: nat): (d: seq<nat>)
    requires n < 5
    ensures |d| == 6 && Digits(d, 32)
  {
    if n == 0 then [18, 29, 21, 20, 22, 29]
    else if n == 1 then [13, 19, 3, 1, 5, 19]
    else if n == 2 then [26, 15, 6, 2, 10, 15]
    else if n == 3 then [29, 30, 12, 4, 20, 30]
    else [19, 21, 24, 8, 1, 21]
  }

  lemma PackedSix(d: seq<nat>)
    requires |d| == 6
    ensures Packed(d) == d[0] + 32 * (d[1] + 32 * (d[2] + 32 * (d[3] + 32 * (d[4] + 32 * d[5]))))
  {
    var d5, d4, d3, d2, d1 := d[5..], d[4..], d[3..], d[2..], d[1..];
    assert d5[1..] == [] && Packed(d5) == d[5];
    assert d4[1..] == d5 && d3[1..] == d4 && d2[1..] == d3 && d1[1..] == d2;
    assert Packed(d3) == d[3] + 32 * Packed(d4);
    assert Packed(d2) == d[2] + 32 * Packed(d3);
    assert Packed(d1) == d[1] + 32 * Packed(d2);
  }

  lemma RowsPack(n: nat)
    requires n < 5
    ensures Generator(n) == Packed(Row(n))
  {
    PackedSix(Row(n));
  }

  /** Each row is alpha times the row before. */
  lemma RowsMultiply(n: nat, k: nat)
    requires n < 4 && k < 6
    ensures Row(n)[k] < 32 && Row(n + 1)[k] == AlphaOf(Row(n)[k])
  {}

  lemma FirstRow(k: nat)
    requires k < 6
    ensures Row(0)[k] == LowCoefficient(5 - k)
  {}

  lemma AlphaOfNumber(v: nat)
    requires v < 32
    ensures AlphaOf(v) >= 0 && BitsOf(AlphaOf(v), 5) == TimesAlpha(BitsOf(v, 5))
  {
    var a, b, c, d, e := v / 16, v / 8 % 2, v / 4 % 2, v / 2 % 2, v % 2;
    assert v == 16 * a + 8 * b + 4 * c + 2 * d + e;
    AlphaOfBits(v, a, b, c, d, e);
  }

  lemma {:induction false} RowIsPower(n: nat, k: nat)
    requires n < 5 && k < 6
    ensures BitsOf(Row(n)[k], 5) == AlphaPower(BitsOf(LowCoefficient(5 - k), 5), n)
  {
    if n == 0 {
      FirstRow(k);
    } else {
      RowIsPower(n - 1, k);
      RowsMultiply(n - 1, k);
      AlphaOfNumber(Row(n - 1)[k]);
    }
  }

  /** The bits of a generator are those of the multiples of the coefficients. */
  lemma GeneratorBit(n: nat, k: nat, j: nat)
    requires n < 5 && k < 6 && j < 5
    ensures Bit(Generator(n), 5 * k + j) == AlphaPower(BitsOf(LowCoefficient(5 - k), 5), n)[4 - j]
  {
    var m := Down(Generator(n), k);
    BitDown(Generator(n), j, k);
    RowsPack(n);
    SymbolAt(Row(n), k);
    BitsOfRemainder(m, 5, 5);
    ThirtyTwo();
    BitAt(m, 5, j);
    RowIsPower(n, k);
  }

  lemma {:induction false} AddedIsTimes(top: Element, n: nat, i: nat, a: Element, l: nat)
    requires n <= 5 && l < 5 && forall m :: 0 <= m < 5 ==> Bit(Generator(m), i) == AlphaPower(a, m)[l]
    ensures Added(top, n, i) == Times(a, top[5 - n..])[l]
  {
    if n > 0 {
      AddedIsTimes(top, n - 1, i, a, l);
      TimesFirst(a, top[5 - n], top[5 - (n - 1)..]);
      NextSuffix(top, n, a, l);
    }
  }

  lemma NextSuffix(top: Element, n: nat, a: Element, l: nat)
    requires 0 < n <= 5 && l < 5
    requires Times(a, [top[5 - n]] + top[5 - (n - 1)..]) == Xor(Choice(top[5 - n], AlphaPower(a, n - 1)), Times(a, top[5 - (n - 1)..]))
    ensures Times(a, top[5 - n..])[l] == ((top[5 - n] && AlphaPower(a, n - 1)[l]) != Times(a, top[5 - (n - 1)..])[l])
  {
    assert top[5 - n..] == [top[5 - n]] + top[5 - (n - 1)..];
  }

  /** What is added to a symbol is the multiple of its coefficient. */
  lemma AddedIsProduct(top: Element, n: nat, k: nat, j: nat, a: Element, i: nat, l: nat)
    requires n == 5 && k < 6 && j < 5 && a == BitsOf(LowCoefficient(5 - k), 5) && i == 5 * k + j && l == 4 - j
    ensures Added(top, n, i) == Times(a, top)[l]
  {
    forall m | 0 <= m < 5
      ensures Bit(Generator(m), i) == AlphaPower(a, m)[l]
    {
      GeneratorBit(m, k, j);
    }
    AddedIsTimes(top, n, i, a, l);
    assert top[5 - n..] == top;
  }

  // ---- one step ----

  /** The coefficient of the generator polynomial, as an element. */
  function LowElement(i: nat): Element
    requires i < 6
  {
    BitsOf(LowCoefficient(i), 5)
  }

  lemma StepBit(chk: Register, i: nat, l: nat)
    requires i < 6 && l < 5
    ensures PolymodStep(chk)[5 * i + l] == ((i < 5 && chk[5 * (i + 1) + l]) != Times(LowElement(i), chk[..5])[l])
  {
    AddedIsProduct(chk[..5], 5, 5 - i, 4 - l, LowElement(i), 29 - (5 * i + l), l);
    ShiftedBit(chk, i, l);
  }

  lemma ShiftedBit(chk: Register, i: nat, l: nat)
    requires i < 6 && l < 5
    ensures Shifted(chk)[5 * i + l] == (i < 5 && chk[5 * (i + 1) + l])
    ensures 29 - (5 * i + l) == 5 * (5 - i) + (4 - l)
  {}

  /** One step is multiplication by x modulo the generator polynomial. */
  lemma StepMultiplies(chk: Register, i: nat)
    requires i < 6
    ensures Coefficients(PolymodStep(chk))[i]
         == Xor(if i < 5 then Coefficients(chk)[i + 1] else Zeros(5), Times(LowElement(i), Coefficients(chk)[0]))
  {
    var t := Times(LowElement(i), chk[..5]);
    assert Coefficients(chk)[0] == chk[..5];
    forall l | 0 <= l < 5
      ensures PolymodStep(chk)[5 * i + l] == ((i < 5 && chk[5 * (i + 1) + l]) != t[l])
    {
      StepBit(chk, i, l);
    }
    SymbolOfBits(PolymodStep(chk), chk, i, t);
  }

  lemma SymbolOfBits(next: Register, chk: Register, i: nat, t: Element)
    requires i < 6 && forall l :: 0 <= l < 5 ==> next[5 * i + l] == ((i < 5 && chk[5 * (i + 1) + l]) != t[l])
    ensures Coefficients(next)[i] == Xor(if i < 5 then Coefficients(chk)[i + 1] else Zeros(5), t)
  {
    var s := if i < 5 then chk[5 * (i + 1)..5 * (i + 1) + 5] else Zeros(5);
    var r := next[5 * i..5 * i + 5];
    forall l | 0 <= l < 5
      ensures r[l] == Xor(s, t)[l]
    {
      assert r[l] == next[5 * i + l];
    }
    assert r == Xor(s, t);
  }

  // ---- messages ----

  function Elements(symbols: seq<nat>): (p: Poly)
    ensures |p| == |symbols|
    ensures forall i :: 0 <= i < |p| ==> p[i] == BitsOf(symbols[i], 5)
  {
    seq(|symbols|, i requires 0 <= i < |symbols| => BitsOf(symbols[i], 5))
  }

  lemma ZeroXor(a: Element, b: Element)
    ensures Xor(Zeros(5), a) == a && Xor(a, Zeros(5)) == a && Xor(Xor(a, b), b) == a
  {}

  lemma AlphaShifts(b: Bits, last: bool, one: Element, t: Element)
    requires one == Zeros(4) + [true] && |b| < 5 && t == Zeros(5 - |b|) + b
    ensures Xor(TimesAlpha(t), Choice(last, one)) == Zeros(5 - (|b| + 1)) + (b + [last])
  {
    assert !t[0];
    assert TimesAlpha(t) == t[1..] + [false];
  }

  /** 1 times an element. */
  lemma {:induction false} OneTimes(one: Element, b: Bits, t: Element)
    requires one == Zeros(4) + [true] && |b| <= 5 && t == Times(one, b)
    ensures t == Zeros(5 - |b|) + b
    decreases |b|
  {
    if |b| > 0 {
      var rest, last := b[..|b| - 1], b[|b| - 1];
      assert b == rest + [last];
      OneTimes(one, rest, Times(one, rest));
      TimesNext(one, rest, last);
      AlphaShifts(rest, last, one, Times(one, rest));
    }
  }

  lemma OneBits()
    ensures BitsOf(1, 5) == Zeros(4) + [true]
  {
    BitsOfZero(4);
  }

  /** The next coefficient, with the symbol that is taken in. */
  lemma FeedMultiplies(chk: Register, symbol: nat, i: nat)
    requires i < 6
    ensures Coefficients(Feed(chk, symbol))[i]
         == Xor(if i < 5 then Coefficients(chk)[i + 1] else BitsOf(symbol, 5), Times(LowElement(i), Coefficients(chk)[0]))
  {
    var t := Times(LowElement(i), Coefficients(chk)[0]);
    StepMultiplies(chk, i);
    FedSymbol(PolymodStep(chk), symbol, i);
    if i == 5 {
      ZeroXor(t, t);
      assert Xor(t, BitsOf(symbol, 5)) == Xor(BitsOf(symbol, 5), t);
    } else {
      ZeroXor(Coefficients(PolymodStep(chk))[i], t);
    }
  }

  lemma FedSymbol(next: Register, symbol: nat, i: nat)
    requires i < 6
    ensures Coefficients(Xor(next, Padded(symbol)))[i] == Xor(Coefficients(next)[i], if i < 5 then Zeros(5) else BitsOf(symbol, 5))
  {
    var fed, pad := Xor(next, Padded(symbol)), if i < 5 then Zeros(5) else BitsOf(symbol, 5);
    forall l | 0 <= l < 5
      ensures Padded(symbol)[5 * i + l] == pad[l]
    {}
    assert fed[5 * i..5 * i + 5] == Xor(next[5 * i..5 * i + 5], pad);
  }

  /** One division step: x * (q * g + r) + e = (x * q + c) * g + r', where c is the first coefficient of r. */
  lemma DivideNext(mul: Multiplication, m: Poly, a: Poly, r: Poly, r': Poly, e: Element, g: Poly)
    requires |r| == 6 && |r'| == 6 && |a| >= 6 && m == Plus(a, r) && |g| == 7
    requires mul(g[0], r[0]) == r[0]
    requires forall i :: 0 <= i < 6 ==> r'[i] == Xor(if i < 5 then r[i + 1] else e, mul(g[i + 1], r[0]))
    ensures m + [e] == Plus(Plus(a + [Zeros(5)], Scaled(mul, r[0], g)), r')
  {
    var n, b := |a| - 6, Plus(a + [Zeros(5)], Scaled(mul, r[0], g));
    var s := Plus(b, r');
    forall i | 0 <= i < |s|
      ensures s[i] == (m + [e])[i]
    {
      if i > n {
        var l := i - n - 1;
        assert s[i] == Xor(b[i], r'[l]) && b[i] == Xor((a + [Zeros(5)])[i], mul(g[l + 1], r[0]));
        ThreeXor((a + [Zeros(5)])[i], mul(g[l + 1], r[0]), if l < 5 then r[l + 1] else e);
        ZeroXor(e, e);
      }
    }
  }

  lemma ThreeXor(a: Element, b: Element, c: Element)
    ensures Xor(Xor(a, b), Xor(c, b)) == Xor(a, c)
  {}

  lemma NothingDivided(r: Poly)
    requires |r| == 6
    ensures Plus(Nil(6), r) == r
  {
    forall i | 0 <= i < 6
      ensures Plus(Nil(6), r)[i] == r[i]
    {
      ZeroXor(r[i], r[i]);
    }
  }

  /**
   After any symbols the register is the remainder of the message modulo the generator polynomial: the message
   is a multiple of that polynomial plus the polynomial of degree below 6 in the register.
   */
  lemma {:induction false} RegisterIsRemainder(chk: Register, symbols: seq<nat>) returns (q: Poly)
    ensures |q| == |symbols|
    ensures Coefficients(chk) + Elements(symbols) == Plus(Product(Multiply, q, GeneratorPoly()), Coefficients(FeedAll(chk, symbols)))
    decreases |symbols|
  {
    if |symbols| == 0 {
      q := [];
      NothingDivided(Coefficients(chk));
      assert Coefficients(chk) + Elements(symbols) == Coefficients(chk);
    } else {
      var last := |symbols| - 1;
      var before, symbol := FeedAll(chk, symbols[..last]), symbols[last];
      var p := RegisterIsRemainder(chk, symbols[..last]);
      q := p + [Coefficients(before)[0]];
      RemainderNext(Coefficients(chk) + Elements(symbols[..last]), p, before, symbol);
      ElementsNext(Coefficients(chk), symbols);
    }
  }

  lemma ElementsNext(p: Poly, symbols: seq<nat>)
    requires |symbols| > 0
    ensures var last := |symbols| - 1; p + Elements(symbols) == p + Elements(symbols[..last]) + [BitsOf(symbols[last], 5)]
  {}

  lemma ProductNext(mul: Multiplication, p: Poly, c: Element, g: Poly)
    requires |g| > 0
    ensures Product(mul, p + [c], g) == Plus(Product(mul, p, g) + [Zeros(5)], Scaled(mul, c, g))
  {
    assert (p + [c])[..|p|] == p;
  }

  lemma RemainderNext(m: Poly, p: Poly, before: Register, symbol: nat)
    requires m == Plus(Product(Multiply, p, GeneratorPoly()), Coefficients(before))
    ensures m + [BitsOf(symbol, 5)] == Plus(Product(Multiply, p + [Coefficients(before)[0]], GeneratorPoly()), Coefficients(Feed(before, symbol)))
  {
    ProductNext(Multiply, p, Coefficients(before)[0], GeneratorPoly());
    DividedNext(m, Product(Multiply, p, GeneratorPoly()), before, symbol);
  }

  lemma DividedNext(m: Poly, a: Poly, before: Register, symbol: nat)
    requires |a| >= 6 && m == Plus(a, Coefficients(before))
    ensures var c := Coefficients(before)[0];
            m + [BitsOf(symbol, 5)] == Plus(Plus(a + [Zeros(5)], Scaled(Multiply, c, GeneratorPoly())), Coefficients(Feed(before, symbol)))
  {
    var g := GeneratorPoly();
    OneBits();
    OneTimes(g[0], Coefficients(before)[0], Multiply(g[0], Coefficients(before)[0]));
    assert Zeros(0) + Coefficients(before)[0] == Coefficients(before)[0];
    forall i | 0 <= i < 6
      ensures Coefficients(Feed(before, symbol))[i]
           == Xor(if i < 5 then Coefficients(before)[i + 1] else BitsOf(symbol, 5), Times(g[i + 1], Coefficients(before)[0]))
    {
      FeedMultiplies(before, symbol, i);
    }
    DivideNext(Multiply, m, a, Coefficients(before), Coefficients(Feed(before, symbol)), BitsOf(symbol, 5), g);
  }

  // ---- there is one remainder ----

  ghost predicate Monic(mul: Multiplication, g: Poly) {
    |g| == 7 && forall c: Element :: mul(g[0], c) == c
  }

  /** The remainder before the last step. */
  function Carried(mul: Multiplication, c: Element, r: Poly, g: Poly): (s: Poly)
    requires |r| == 6 && |g| == 7
    ensures |s| == 6
    ensures forall i :: 0 <= i < 6 ==> s[i] == if i == 0 then mul(g[0], c) else Xor(mul(g[i], c), r[i - 1])
  {
    seq(6, i requires 0 <= i < 6 => CarriedAt(mul, c, r, g, i))
  }

  function CarriedAt(mul: Multiplication, c: Element, r: Poly, g: Poly, i: nat): Element
    requires |r| == 6 && |g| == 7 && i < 6
  {
    if i == 0 then mul(g[0], c) else Xor(mul(g[i], c), r[i - 1])
  }

  /** Dividing step by step. */
  lemma PlusNext(mul: Multiplication, a: Poly, c: Element, r: Poly, g: Poly)
    requires |r| == 6 && |g| == 7 && |a| >= 6
    ensures Plus(Plus(a + [Zeros(5)], Scaled(mul, c, g)), r) == Plus(a, Carried(mul, c, r, g)) + [Xor(mul(g[6], c), r[5])]
  {
    var n, b := |a| - 6, Plus(a + [Zeros(5)], Scaled(mul, c, g));
    var l, m := Plus(b, r), Plus(a, Carried(mul, c, r, g)) + [Xor(mul(g[6], c), r[5])];
    forall i | 0 <= i < |l|
      ensures l[i] == m[i]
    {
      if i > n {
        var j := i - n;
        assert l[i] == Xor(b[i], r[j - 1]) && b[i] == Xor((a + [Zeros(5)])[i], mul(g[j], c));
        XorAssociates((a + [Zeros(5)])[i], mul(g[j], c), r[j - 1]);
        ZeroXor(Xor(mul(g[6], c), r[5]), c);
      }
    }
  }

  lemma CarriedUnique(mul: Multiplication, c: Element, r: Poly, c': Element, r': Poly, g: Poly)
    requires |r| == 6 && |r'| == 6 && Monic(mul, g)
    requires Carried(mul, c, r, g) == Carried(mul, c', r', g) && Xor(mul(g[6], c), r[5]) == Xor(mul(g[6], c'), r'[5])
    ensures c == c' && r == r'
  {
    assert Carried(mul, c, r, g)[0] == c && Carried(mul, c', r', g)[0] == c';
    forall i | 0 <= i < 6
      ensures r[i] == r'[i]
    {
      var t := mul(g[i + 1], c);
      assert i < 5 ==> Carried(mul, c, r, g)[i + 1] == Xor(t, r[i]) && Carried(mul, c', r', g)[i + 1] == Xor(t, r'[i]);
      XorCancels(t, r[i], r'[i]);
    }
  }

  /** A message has one quotient and one remainder. */
  lemma {:induction false} RemainderUnique(mul: Multiplication, q: Poly, r: Poly, q': Poly, r': Poly, g: Poly)
    requires |q| == |q'| && |r| == 6 && |r'| == 6 && Monic(mul, g) && Plus(Product(mul, q, g), r) == Plus(Product(mul, q', g), r')
    ensures q == q' && r == r'
    decreases |q|
  {
    if |q| == 0 {
      NothingDivided(r);
      NothingDivided(r');
    } else {
      var n := |q| - 1;
      var s, s' := Carried(mul, q[n], r, g), Carried(mul, q'[n], r', g);
      LastStep(mul, q, r, g);
      LastStep(mul, q', r', g);
      SameEnds(Plus(Product(mul, q[..n], g), s), Xor(mul(g[6], q[n]), r[5]), Plus(Product(mul, q'[..n], g), s'), Xor(mul(g[6], q'[n]), r'[5]));
      RemainderUnique(mul, q[..n], s, q'[..n], s', g);
      CarriedUnique(mul, q[n], r, q'[n], r', g);
      assert q == q[..n] + [q[n]] && q' == q'[..n] + [q'[n]];
    }
  }

  lemma LastStep(mul: Multiplication, q: Poly, r: Poly, g: Poly)
    requires |q| > 0 && |r| == 6 && |g| == 7
    ensures var n := |q| - 1;
            Plus(Product(mul, q, g), r) == Plus(Product(mul, q[..n], g), Carried(mul, q[n], r, g)) + [Xor(mul(g[6], q[n]), r[5])]
  {
    var n := |q| - 1;
    assert q == q[..n] + [q[n]];
    ProductNext(mul, q[..n], q[n], g);
    PlusNext(mul, Product(mul, q[..n], g), q[n], r, g);
  }

  lemma SameEnds(a: Poly, x: Element, b: Poly, y: Element)
    requires a + [x] == b + [y]
    ensures a == b && x == y
  {
    assert a == (a + [x])[..|a|] && b == (b + [y])[..|b|];
    assert x == (a + [x])[|a|] && y == (b + [y])[|b|];
  }

  lemma GeneratorMonic()
    ensures Monic(Multiply, GeneratorPoly())
  {
    OneBits();
    forall c: Element
      ensures Multiply(GeneratorPoly()[0], c) == c
    {
      OneTimes(GeneratorPoly()[0], c, Multiply(GeneratorPoly()[0], c));
      assert Zeros(0) + c == c;
    }
  }

  lemma CoefficientsDetermine(a: Register, b: Register)
    requires Coefficients(a) == Coefficients(b)
    ensures a == b
  {
    forall i | 0 <= i < 30
      ensures a[i] == b[i]
    {
      var k := i / 5;
      assert Coefficients(a)[k][i - 5 * k] == a[i] && Coefficients(b)[k][i - 5 * k] == b[i];
    }
  }

  /** The register ends at a value if and only if the message is a multiple of the generator polynomial plus that value. */
  lemma RegisterIff(chk: Register, symbols: seq<nat>, end: Register)
    ensures FeedAll(chk, symbols) == end
       <==> exists q: Poly :: |q| == |symbols| && Coefficients(chk) + Elements(symbols) == Plus(Product(Multiply, q, GeneratorPoly()), Coefficients(end))
  {
    var p := RegisterIsRemainder(chk, symbols);
    if q: Poly :| |q| == |symbols| && Coefficients(chk) + Elements(symbols) == Plus(Product(Multiply, q, GeneratorPoly()), Coefficients(end)) {
      GeneratorMonic();
      RemainderUnique(Multiply, p, Coefficients(FeedAll(chk, symbols)), q, Coefficients(end), GeneratorPoly());
      CoefficientsDetermine(FeedAll(chk, symbols), end);
    }
  }
}
