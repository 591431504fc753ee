/**
 What the checksum of a text means over the field with 32 elements, and test vectors of BIP 173 and BIP 350
 that fix the constants and the characters.
 */
module Bech32Vectors {
  import opened BitStrings
  import opened Numerals
  import opened Polymod
  import opened Galois
  import opened Bch
  import opened Bech32

  // ---- the meaning of a checksum ----

  /** The constant of an encoding, as symbols. */
  function ConstantSymbols(enc: Encoding): seq<nat> {
    if enc.EncBech32? then [0, 0, 0, 0, 0, 1] else [21, 28, 16, 12, 5, 3]
  }

  /** 1 followed by the symbols, as a polynomial with room for a remainder of degree 5. */
  function Message(symbols: seq<nat>): Poly {
    Elements([0, 0, 0, 0, 0, 1]) + Elements(symbols)
  }

  /** The polynomials are equal modulo the generator polynomial of BIP 173. */
  ghost predicate Congruent(message: Poly, rest: Poly) {
    |rest| == 6 && exists q: Poly :: |q| + 6 == |message| && message == Plus(Product(Multiply, q, GeneratorPoly()), rest)
  }

  // ---- symbols as bit vectors ----

  /** Bit i from the left. */
  function BitV(v: bv5, i: nat): bool {
    if i == 0 then v & 16 != 0 else if i == 1 then v & 8 != 0 else if i == 2 then v & 4 != 0 else if i == 3 then v & 2 != 0 else v & 1 != 0
  }

  function Elem(v: bv5): (r: Element)
    ensures forall i :: 0 <= i < 5 ==> r[i] == BitV(v, i)
  {
    seq(5, i requires 0 <= i < 5 => BitV(v, i))
  }

  function Number(v: bv5): nat {
    (if v & 16 != 0 then 16 else 0) + (if v & 8 != 0 then 8 else 0) + (if v & 4 != 0 then 4 else 0)
    + (if v & 2 != 0 then 2 else 0) + (if v & 1 != 0 then 1 else 0)
  }

  lemma NumberBits(v: bv5)
    ensures Number(v) < 32 && BitsOf(Number(v), 5) == Elem(v)
  {
    var a, b, c := if v & 16 != 0 then 1 else 0, if v & 8 != 0 then 1 else 0, if v & 4 != 0 then 1 else 0;
    var d, e := if v & 2 != 0 then 1 else 0, if v & 1 != 0 then 1 else 0;
    FromBits(a, b, c, d, e, Number(v), 4 * a + 2 * b + c, 1);
  }

  function Numbers(vs: seq<bv5>): (r: seq<nat>)
    ensures |r| == |vs|
    ensures forall i :: 0 <= i < |vs| ==> r[i] == Number(vs[i])
  {
    seq(|vs|, i requires 0 <= i < |vs| => Number(vs[i]))
  }

  function AlphaV(v: bv5): bv5 {
    (v << 1) ^ (if v & 16 != 0 then 9 else 0)
  }

  function ChoiceV(bit: bool, v: bv5): bv5 {
    if bit then v else 0
  }

  /** The product, from the first k bits of the second factor. */
  function TimesV(a: bv5, b: bv5, k: nat): bv5 {
    if k == 0 then 0 else AlphaV(TimesV(a, b, k - 1)) ^ ChoiceV(BitV(b, k - 1), a)
  }

  lemma XorBit(a: bv5, b: bv5, i: nat)
    ensures BitV(a ^ b, i) == (BitV(a, i) != BitV(b, i))
  {}

  lemma XorElem(a: bv5, b: bv5, c: bv5)
    requires c == a ^ b
    ensures Elem(c) == Xor(Elem(a), Elem(b))
  {
    forall i | 0 <= i < 5
      ensures Elem(c)[i] == Xor(Elem(a), Elem(b))[i]
    {
      XorBit(a, b, i);
    }
  }

  lemma AlphaElem(v: bv5)
    ensures Elem(AlphaV(v)) == TimesAlpha(Elem(v))
  {}

  lemma ZeroElem()
    ensures Elem(0) == Zeros(5)
  {}

  lemma ChoiceElem(bit: bool, a: bv5)
    ensures Elem(ChoiceV(bit, a)) == Choice(bit, Elem(a))
  {
    ZeroElem();
  }

  lemma NextElem(a: bv5, t: bv5, bit: bool, bits: Bits, x: bv5, u: bv5)
    requires Times(Elem(a), bits) == Elem(t) && x == AlphaV(t) && u == x ^ ChoiceV(bit, a)
    ensures Times(Elem(a), bits + [bit]) == Elem(u)
  {
    TimesNext(Elem(a), bits, bit);
    AlphaElem(t);
    ChoiceElem(bit, a);
    XorElem(x, ChoiceV(bit, a), u);
  }

  lemma NextFront(b: bv5, k: nat)
    requires k < 5
    ensures Elem(b)[..k + 1] == Elem(b)[..k] + [BitV(b, k)]
  {}

  lemma {:induction false} TimesElem(a: bv5, b: bv5, k: nat)
    requires k <= 5
    ensures Elem(TimesV(a, b, k)) == Times(Elem(a), Elem(b)[..k])
  {
    if k == 0 {
      ZeroElem();
    } else {
      TimesElem(a, b, k - 1);
      TimesElemNext(a, b, k - 1, Elem(b)[..k - 1], TimesV(a, b, k - 1));
    }
  }

  lemma TimesElemNext(a: bv5, b: bv5, k: nat, bits: Bits, t: bv5)
    requires k < 5 && bits == Elem(b)[..k] && t == TimesV(a, b, k) && Times(Elem(a), bits) == Elem(t)
    ensures Elem(TimesV(a, b, k + 1)) == Times(Elem(a), Elem(b)[..k + 1])
  {
    NextElem(a, t, BitV(b, k), bits, AlphaV(t), AlphaV(t) ^ ChoiceV(BitV(b, k), a));
    NextFront(b, k);
  }

  lemma ProductElem(a: bv5, b: bv5, k: nat)
    requires k == 5
    ensures Elem(TimesV(a, b, k)) == Times(Elem(a), Elem(b))
  {
    TimesElem(a, b, k);
    assert Elem(b)[..k] == Elem(b);
  }

  // ---- the register as six of them ----

  datatype Six = Six(a: bv5, b: bv5, c: bv5, d: bv5, e: bv5, f: bv5)

  function At(r: Six, i: nat): bv5 {
    if i == 0 then r.a else if i == 1 then r.b else if i == 2 then r.c else if i == 3 then r.d else if i == 4 then r.e else r.f
  }

  function Elems(r: Six): (p: Poly)
    ensures |p| == 6
    ensures forall i :: 0 <= i < 6 ==> p[i] == Elem(At(r, i))
  {
    seq(6, i requires 0 <= i < 6 => Elem(At(r, i)))
  }

  predicate Holds(chk: Register, r: Six) {
    Coefficients(chk) == Elems(r)
  }

  /** The coefficients of the generator polynomial. */
  function GeneratorV(i: nat): bv5 {
    if i == 0 then 29 else if i == 1 then 22 else if i == 2 then 20 else if i == 3 then 21 else if i == 4 then 29 else 18
  }

  function StepAt(r: Six, v: bv5, i: nat, k: nat): bv5 {
    (if i < 5 then At(r, i + 1) else v) ^ TimesV(GeneratorV(i), r.a, k)
  }

  function StepV(r: Six, v: bv5, k: nat): Six {
    Six(StepAt(r, v, 0, k), StepAt(r, v, 1, k), StepAt(r, v, 2, k), StepAt(r, v, 3, k), StepAt(r, v, 4, k), StepAt(r, v, 5, k))
  }

  lemma LowElem(i: nat)
    requires i < 6
    ensures LowElement(i) == Elem(GeneratorV(i))
  {
    NumberBits(GeneratorV(i));
  }

  lemma NextSymbol(chk: Register, s: nat, i: nat, g: bv5, top: bv5, next: bv5, k: nat, p: bv5)
    requires i < 6 && g == GeneratorV(i) && Coefficients(chk)[0] == Elem(top) && k == 5
    requires (if i < 5 then Coefficients(chk)[i + 1] else BitsOf(s, 5)) == Elem(next) && p == next ^ TimesV(g, top, k)
    ensures Coefficients(Feed(chk, s))[i] == Elem(p)
  {
    FeedMultiplies(chk, s, i);
    LowElem(i);
    ProductElem(g, top, k);
    XorElem(next, TimesV(g, top, k), p);
  }

  lemma StepIsAt(r: Six, v: bv5, k: nat, i: nat)
    requires i < 6
    ensures At(StepV(r, v, k), i) == StepAt(r, v, i, k)
  {}

  lemma FeedAt(chk: Register, s: nat, r: Six, v: bv5, k: nat, i: nat)
    requires Holds(chk, r) && BitsOf(s, 5) == Elem(v) && k == 5 && i < 6
    ensures Coefficients(Feed(chk, s))[i] == Elem(StepAt(r, v, i, k))
  {
    assert r.a == At(r, 0) && Elems(r)[0] == Elem(r.a);
    if i < 5 {
      assert Elems(r)[i + 1] == Elem(At(r, i + 1));
    }
    NextSymbol(chk, s, i, GeneratorV(i), r.a, if i < 5 then At(r, i + 1) else v, k, StepAt(r, v, i, k));
  }

  lemma FeedV(chk: Register, s: nat, r: Six, v: bv5, k: nat, next: Six)
    requires Holds(chk, r) && BitsOf(s, 5) == Elem(v) && k == 5 && next == StepV(r, v, k)
    ensures Holds(Feed(chk, s), next)
  {
    forall i | 0 <= i < 6
      ensures Coefficients(Feed(chk, s))[i] == Elems(next)[i]
    {
      FeedAt(chk, s, r, v, k, i);
      StepIsAt(r, v, k, i);
    }
  }

  function RunV(vs: seq<bv5>): Six {
    if |vs| == 0 then Six(0, 0, 0, 0, 0, 1) else StepV(RunV(vs[..|vs| - 1]), vs[|vs| - 1], 5)
  }

  lemma StartHolds()
    ensures Holds(Start(), Six(0, 0, 0, 0, 0, 1))
  {
    var r := Six(0, 0, 0, 0, 0, 1);
    ZeroElem();
    OneElem();
    forall i | 0 <= i < 6
      ensures Coefficients(Start())[i] == Elems(r)[i]
    {
      assert Coefficients(Start())[i] == if i < 5 then Zeros(5) else Zeros(4) + [true];
    }
  }

  lemma OneElem()
    ensures Elem(1) == Zeros(4) + [true]
  {}

  /** The register after symbols. */
  lemma {:induction false} RunHolds(vs: seq<bv5>)
    ensures Holds(FeedAll(Start(), Numbers(vs)), RunV(vs))
    decreases |vs|
  {
    if |vs| == 0 {
      StartHolds();
      assert FeedAll(Start(), Numbers(vs)) == Start();
    } else {
      var last := |vs| - 1;
      RunHolds(vs[..last]);
      FedNext(vs[..last], vs[last], RunV(vs[..last]), RunV(vs));
      assert vs[..last] + [vs[last]] == vs;
    }
  }

  lemma FedNext(vs: seq<bv5>, v: bv5, r: Six, next: Six)
    requires Holds(FeedAll(Start(), Numbers(vs)), r) && next == StepV(r, v, 5)
    ensures Holds(FeedAll(Start(), Numbers(vs + [v])), next)
  {
    NumberBits(v);
    FeedV(FeedAll(Start(), Numbers(vs)), Number(v), r, v, 5, next);
    FeedMore(Numbers(vs), Number(v));
    assert Numbers(vs + [v]) == Numbers(vs) + [Number(v)];
  }

  lemma RunNext(vs: seq<bv5>, v: bv5, ws: seq<bv5>, r: Six, next: Six)
    requires RunV(vs) == r && ws == vs + [v] && next == StepV(r, v, 5)
    ensures RunV(ws) == next
  {}

  lemma RunBech32()
    ensures RunV([3, 0, 1, 10, 28, 25, 31, 20, 31]) == Six(0, 0, 0, 0, 0, 1)
  {
    RunNext([], 3, [3], Six(0, 0, 0, 0, 0, 1), Six(0, 0, 0, 0, 1, 3));
    RunNext([3], 0, [3, 0], Six(0, 0, 0, 0, 1, 3), Six(0, 0, 0, 1, 3, 0));
    RunNext([3, 0], 1, [3, 0, 1], Six(0, 0, 0, 1, 3, 0), Six(0, 0, 1, 3, 0, 1));
    RunNext([3, 0, 1], 10, [3, 0, 1, 10], Six(0, 0, 1, 3, 0, 1), Six(0, 1, 3, 0, 1, 10));
    RunNext([3, 0, 1, 10], 28, [3, 0, 1, 10, 28], Six(0, 1, 3, 0, 1, 10), Six(1, 3, 0, 1, 10, 28));
    RunNext([3, 0, 1, 10, 28], 25, [3, 0, 1, 10, 28, 25], Six(1, 3, 0, 1, 10, 28), Six(30, 22, 21, 31, 1, 11));
    RunNext([3, 0, 1, 10, 28, 25], 31, [3, 0, 1, 10, 28, 25, 31], Six(30, 22, 21, 31, 1, 11), Six(1, 15, 16, 16, 28, 6));
    RunNext([3, 0, 1, 10, 28, 25, 31], 20, [3, 0, 1, 10, 28, 25, 31, 20], Six(1, 15, 16, 16, 28, 6), Six(18, 6, 4, 9, 27, 6));
    RunNext([3, 0, 1, 10, 28, 25, 31, 20], 31, [3, 0, 1, 10, 28, 25, 31, 20, 31], Six(18, 6, 4, 9, 27, 6), Six(0, 0, 0, 0, 0, 1));
  }

  lemma RunBech32m()
    ensures RunV([3, 0, 1, 31, 0, 9, 19, 17, 29]) == Six(21, 28, 16, 12, 5, 3)
  {
    RunNext([], 3, [3], Six(0, 0, 0, 0, 0, 1), Six(0, 0, 0, 0, 1, 3));
    RunNext([3], 0, [3, 0], Six(0, 0, 0, 0, 1, 3), Six(0, 0, 0, 1, 3, 0));
    RunNext([3, 0], 1, [3, 0, 1], Six(0, 0, 0, 1, 3, 0), Six(0, 0, 1, 3, 0, 1));
    RunNext([3, 0, 1], 31, [3, 0, 1, 31], Six(0, 0, 1, 3, 0, 1), Six(0, 1, 3, 0, 1, 31));
    RunNext([3, 0, 1, 31], 0, [3, 0, 1, 31, 0], Six(0, 1, 3, 0, 1, 31), Six(1, 3, 0, 1, 31, 0));
    RunNext([3, 0, 1, 31, 0], 9, [3, 0, 1, 31, 0, 9], Six(1, 3, 0, 1, 31, 0), Six(30, 22, 21, 10, 29, 27));
    RunNext([3, 0, 1, 31, 0, 9], 19, [3, 0, 1, 31, 0, 9, 19], Six(30, 22, 21, 10, 29, 27), Six(1, 15, 5, 12, 12, 10));
    RunNext([3, 0, 1, 31, 0, 9, 19], 17, [3, 0, 1, 31, 0, 9, 19, 17], Six(1, 15, 5, 12, 12, 10), Six(18, 19, 24, 25, 23, 3));
    RunNext([3, 0, 1, 31, 0, 9, 19, 17], 29, [3, 0, 1, 31, 0, 9, 19, 17, 29], Six(18, 19, 24, 25, 23, 3), Six(21, 28, 16, 12, 5, 3));
  }

  // ---- the constants ----

  lemma BitsOfNext(n: nat, k: nat, x: nat)
    requires x < 32
    ensures BitsOf(32 * n + x, k + 5) == BitsOf(n, k) + BitsOf(x, 5)
  {
    ThirtyTwo();
    BitsShiftIn(n, k, x, 5);
  }

  /** The symbols of a number are the coefficients of its bits. */
  lemma {:induction false} PackedBits(d: seq<nat>, n: nat, bits: Bits)
    requires Digits(d, 32) && n == Valued(d) && bits == BitsOf(n, 5 * |d|)
    ensures forall i :: 0 <= i < |d| ==> bits[5 * i..5 * i + 5] == BitsOf(d[i], 5)
    decreases |d|
  {
    if |d| > 0 {
      var last := |d| - 1;
      var front := BitsOf(Valued(d[..last]), 5 * last);
      PackedBits(d[..last], Valued(d[..last]), front);
      BitsOfNext(Valued(d[..last]), 5 * last, d[last]);
      AppendedBits(bits, front, d, last);
    }
  }

  lemma AppendedBits(bits: Bits, front: Bits, d: seq<nat>, last: nat)
    requires |d| == last + 1 && |front| == 5 * last && bits == front + BitsOf(d[last], 5)
    requires forall i :: 0 <= i < last ==> front[5 * i..5 * i + 5] == BitsOf(d[..last][i], 5)
    ensures forall i :: 0 <= i < |d| ==> bits[5 * i..5 * i + 5] == BitsOf(d[i], 5)
  {
    forall i | 0 <= i < |d|
      ensures bits[5 * i..5 * i + 5] == BitsOf(d[i], 5)
    {
      if i < last {
        assert bits[5 * i..5 * i + 5] == front[5 * i..5 * i + 5] && d[..last][i] == d[i];
      }
    }
  }

  /** The number with these symbols, the highest first. */
  function Valued(d: seq<nat>): nat {
    if |d| == 0 then 0 else 32 * Valued(d[..|d| - 1]) + d[|d| - 1]
  }

  lemma ValuedSix(d: seq<nat>)
    requires |d| == 6
    ensures Valued(d) == 32 * (32 * (32 * (32 * (32 * d[0] + d[1]) + d[2]) + d[3]) + d[4]) + d[5]
  {
    var d5, d4, d3, d2, d1 := d[..5], d[..4], d[..3], d[..2], d[..1];
    assert d1[..0] == [] && Valued(d1) == d[0];
    assert d2[..1] == d1 && d3[..2] == d2 && d4[..3] == d3 && d5[..4] == d4;
    assert Valued(d2) == 32 * Valued(d1) + d[1];
    assert Valued(d3) == 32 * Valued(d2) + d[2];
    assert Valued(d4) == 32 * Valued(d3) + d[3];
    assert Valued(d5) == 32 * Valued(d4) + d[4];
  }

  lemma ConstantIs(enc: Encoding)
    ensures Coefficients(Constant(enc)) == Elements(ConstantSymbols(enc))
  {
    var d := ConstantSymbols(enc);
    var n := if enc.EncBech32? then 1 else 0x2bc830a3;
    ValuedSix(d);
    PackedBits(d, n, BitsOf(n, 30));
  }

  lemma StartIs()
    ensures Coefficients(Start()) == Elements([0, 0, 0, 0, 0, 1])
  {
    StartHolds();
    NumberBits(0);
    NumberBits(1);
    var r := Six(0, 0, 0, 0, 0, 1);
    forall i | 0 <= i < 6
      ensures Elems(r)[i] == Elements([0, 0, 0, 0, 0, 1])[i]
    {
      assert Elems(r)[i] == if i < 5 then Elem(0) else Elem(1);
    }
  }

  /** A checksum is right if and only if 1, the human-readable part and the symbols are the constant modulo the generator polynomial. */
  lemma VerifiesIff(hrp: string, symbols: seq<nat>, enc: Encoding)
    ensures Verifies(hrp, symbols, enc) <==> Congruent(Message(Expand(hrp) + symbols), Elements(ConstantSymbols(enc)))
  {
    var all := Expand(hrp) + symbols;
    StartIs();
    ConstantIs(enc);
    RegisterIff(Start(), all, Constant(enc));
    CongruentIff(all, Elements(ConstantSymbols(enc)));
  }

  lemma CongruentIff(all: seq<nat>, rest: Poly)
    requires |rest| == 6
    ensures Congruent(Message(all), rest)
       <==> exists q: Poly :: |q| == |all| && Elements([0, 0, 0, 0, 0, 1]) + Elements(all) == Plus(Product(Multiply, q, GeneratorPoly()), rest)
  {}

  // ---- test vectors ----

  /** The characters in the order of BIP 173. */
  lemma CharacterSet(v: nat)
    requires v < 32
    ensures CharOf(v) == "qpzry9x8gf2tvdw0s3jn54khce6mua7l"[v]
  {}

  lemma ExpandA()
    ensures Expand("a") == [3, 0, 1]
  {
    assert High("a") == [3] && Low("a") == [1];
  }

  lemma VectorVerifies(vs: seq<bv5>, c: seq<nat>, enc: Encoding, r: Six)
    requires |c| == 6 && Numbers(vs) == [3, 0, 1] + c && RunV(vs) == r && Elems(r) == Elements(ConstantSymbols(enc))
    ensures Verifies("a", c, enc)
  {
    RunHolds(vs);
    ExpandA();
    ConstantIs(enc);
    CoefficientsDetermine(FeedAll(Start(), Numbers(vs)), Constant(enc));
  }

  lemma VectorEncoded(c: seq<nat>, enc: Encoding)
    requires |c| == 6 && Digits(c, 32) && Verifies("a", c, enc)
    ensures Encoded("a", [], enc) == "a1" + Chars(c)
  {
    assert [] + c == c;
    ChecksumUnique("a", [], c, enc);
    assert "a" + "1" == "a1";
  }

  lemma ConstantElems(r: Six, d: seq<nat>)
    requires |d| == 6 && forall i :: 0 <= i < 6 ==> d[i] == Number(At(r, i))
    ensures Elems(r) == Elements(d)
  {
    forall i | 0 <= i < 6
      ensures Elems(r)[i] == Elements(d)[i]
    {
      NumberBits(At(r, i));
    }
  }

  lemma NumbersAre(vs: seq<bv5>, ns: seq<nat>)
    requires |vs| == |ns| && forall i :: 0 <= i < |vs| ==> ns[i] == Number(vs[i])
    ensures Numbers(vs) == ns
  {}

  lemma Bech32Symbols()
    ensures Numbers([3, 0, 1, 10, 28, 25, 31, 20, 31]) == [3, 0, 1] + [10, 28, 25, 31, 20, 31]
  {
    NumbersAre([3, 0, 1, 10, 28, 25, 31, 20, 31], [3, 0, 1, 10, 28, 25, 31, 20, 31]);
    assert [3, 0, 1] + [10, 28, 25, 31, 20, 31] == [3, 0, 1, 10, 28, 25, 31, 20, 31];
  }

  lemma Bech32Verifies()
    ensures Verifies("a", [10, 28, 25, 31, 20, 31], EncBech32)
  {
    RunBech32();
    Bech32Symbols();
    ConstantElems(Six(0, 0, 0, 0, 0, 1), ConstantSymbols(EncBech32));
    VectorVerifies([3, 0, 1, 10, 28, 25, 31, 20, 31], [10, 28, 25, 31, 20, 31], EncBech32, Six(0, 0, 0, 0, 0, 1));
  }

  lemma Bech32Chars()
    ensures Chars([10, 28, 25, 31, 20, 31]) == "2uel5l"
  {}

  /** "A12UEL5L" of BIP 173, in lower case. */
  lemma VectorBech32()
    ensures Encoded("a", [], EncBech32) == "a12uel5l"
  {
    Bech32Verifies();
    Bech32Chars();
    VectorEncoded([10, 28, 25, 31, 20, 31], EncBech32);
    assert "a1" + "2uel5l" == "a12uel5l";
  }

  lemma Bech32mSymbols()
    ensures Numbers([3, 0, 1, 31, 0, 9, 19, 17, 29]) == [3, 0, 1] + [31, 0, 9, 19, 17, 29]
  {
    NumbersAre([3, 0, 1, 31, 0, 9, 19, 17, 29], [3, 0, 1, 31, 0, 9, 19, 17, 29]);
    assert [3, 0, 1] + [31, 0, 9, 19, 17, 29] == [3, 0, 1, 31, 0, 9, 19, 17, 29];
  }

  lemma Bech32mVerifies()
    ensures Verifies("a", [31, 0, 9, 19, 17, 29], EncBech32m)
  {
    RunBech32m();
    Bech32mSymbols();
    ConstantElems(Six(21, 28, 16, 12, 5, 3), ConstantSymbols(EncBech32m));
    VectorVerifies([3, 0, 1, 31, 0, 9, 19, 17, 29], [31, 0, 9, 19, 17, 29], EncBech32m, Six(21, 28, 16, 12, 5, 3));
  }

  lemma Bech32mChars()
    ensures Chars([31, 0, 9, 19, 17, 29]) == "lqfn3a"
  {}

  /** "A1LQFN3A" of BIP 350, in lower case. */
  lemma VectorBech32m()
    ensures Encoded("a", [], EncBech32m) == "a1lqfn3a"
  {
    Bech32mVerifies();
    Bech32mChars();
    VectorEncoded([31, 0, 9, 19, 17, 29], EncBech32m);
    assert "a1" + "lqfn3a" == "a1lqfn3a";
  }
}
