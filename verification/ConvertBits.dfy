/** Regrouping of bits: a list of numbers of one width read as a list of numbers of another. */
module ConvertBits {
  import opened Wrappers
  import opened Arith
  import opened BitStrings
  import opened Numerals

  /** The bits of numbers of width w, one after the other. */
  function Stream(data: seq<nat>, w: nat): Bits {
    if |data| == 0 then [] else Stream(data[..|data| - 1], w) + BitsOf(data[|data| - 1], w)
  }

  lemma {:induction false} StreamLength(data: seq<nat>, w: nat)
    ensures |Stream(data, w)| == |data| * w
    decreases |data|
  {
    if |data| > 0 {
      StreamLength(data[..|data| - 1], w);
    }
  }

  lemma StreamNext(data: seq<nat>, w: nat, v: nat)
    ensures Stream(data + [v], w) == Stream(data, w) + BitsOf(v, w)
  {
    assert (data + [v])[..|data|] == data;
  }

  lemma SameStreamParts(s: seq<nat>, u: nat, t: seq<nat>, v: nat, w: nat)
    requires |s| == |t| && Stream(s, w) + BitsOf(u, w) == Stream(t, w) + BitsOf(v, w)
    ensures Stream(s, w) == Stream(t, w) && BitsOf(u, w) == BitsOf(v, w)
  {
    StreamLength(s, w);
    StreamLength(t, w);
    SplitEqual(Stream(s, w), BitsOf(u, w), Stream(t, w), BitsOf(v, w));
  }

  lemma {:induction false} StreamInjective(s: seq<nat>, t: seq<nat>, w: nat)
    requires Digits(s, Pow(2, w)) && Digits(t, Pow(2, w)) && |s| == |t| && Stream(s, w) == Stream(t, w)
    ensures s == t
    decreases |s|
  {
    if |s| > 0 {
      var last := |s| - 1;
      SameStreamParts(s[..last], s[last], t[..last], t[last], w);
      StreamInjective(s[..last], t[..last], w);
      BitsInjective(s[last], t[last], w);
      assert s == s[..last] + [s[last]] && t == t[..last] + [t[last]];
    }
  }

  lemma SplitEqual(a: Bits, b: Bits, c: Bits, d: Bits)
    requires |a| == |c| && a + b == c + d
    ensures a == c && b == d
  {
    assert a == (a + b)[..|a|] && c == (c + d)[..|c|];
    assert b == (a + b)[|a|..] && d == (c + d)[|c|..];
  }

  // ---- the loop ----

  /** What was read is what was written, and the low bits of val that are still to be written. */
  ghost predicate Pending(read: seq<nat>, w: nat, out: seq<nat>, o: nat, val: nat, bits: nat) {
    Digits(out, Pow(2, o)) && Stream(read, w) == Stream(out, o) + BitsOf(val, bits)
  }

  const WORD: nat := 0x1_0000_0000

  lemma WordIsPower()
    ensures WORD == Pow(2, 32)
  {
    PowAdd(2, 16, 16);
    PowAdd(2, 8, 8);
    assert Pow(2, 8) == 256;
  }

  lemma ConcatAssociates(a: Bits, b: Bits, c: Bits)
    ensures (a + b) + c == a + (b + c)
  {}

  /** Shifting a number into an accumulator of m bits. */
  lemma ShiftedBits(val: nat, bits: nat, v: nat, w: nat, m: nat)
    requires v < Pow(2, w) && bits + w <= m
    ensures Pow(2, m) > 0
    ensures BitsOf((val * Pow(2, w) + v) % Pow(2, m), bits + w) == BitsOf(val, bits) + BitsOf(v, w)
  {
    BitsShiftIn(val, bits, v, w);
    BitsOfRemainder(val * Pow(2, w) + v, bits + w, m);
  }

  lemma ReadNext(read: seq<nat>, w: nat, out: seq<nat>, o: nat, val: nat, bits: nat, v: nat, val': nat)
    requires Pending(read, w, out, o, val, bits) && BitsOf(val', bits + w) == BitsOf(val, bits) + BitsOf(v, w)
    ensures Pending(read + [v], w, out, o, val', bits + w)
  {
    StreamNext(read, w, v);
    ConcatAssociates(Stream(out, o), BitsOf(val, bits), BitsOf(v, w));
  }

  /** The o highest of the pending bits as a number. */
  lemma TopDigit(val: nat, bits: nat, o: nat)
    ensures Pow(2, bits) > 0 && Pow(2, o) > 0
    ensures var digit := val / Pow(2, bits) % Pow(2, o);
            0 <= digit < Pow(2, o) && BitsOf(val, o + bits) == BitsOf(digit, o) + BitsOf(val, bits)
  {
    PowPositive(2, bits);
    PowPositive(2, o);
    BitsSplit(val, o, bits);
    BitsOfRemainder(val / Pow(2, bits), o, o);
  }

  lemma WriteNext(read: seq<nat>, w: nat, out: seq<nat>, o: nat, val: nat, bits: nat, digit: nat)
    requires Pending(read, w, out, o, val, o + bits)
    requires digit < Pow(2, o) && BitsOf(val, o + bits) == BitsOf(digit, o) + BitsOf(val, bits)
    ensures Pending(read, w, out + [digit], o, val, bits)
  {
    StreamNext(out, o, digit);
    ConcatAssociates(Stream(out, o), BitsOf(digit, o), BitsOf(val, bits));
  }

  /** Shifts a number into the 32-bit accumulator. */
  method ShiftIn(ghost read: seq<nat>, w: nat, ghost out: seq<nat>, ghost o: nat, val0: nat, ghost bits: nat, v: nat)
    returns (val: nat)
    requires Pending(read, w, out, o, val0, bits) && v < Pow(2, w) && bits + w <= 32
    ensures Pending(read + [v], w, out, o, val, bits + w) && val < WORD
  {
    WordIsPower();
    ShiftedBits(val0, bits, v, w, 32);
    val := (val0 * Pow(2, w) + v) % WORD;
    ReadNext(read, w, out, o, val0, bits, v, val);
  }

  /** Writes numbers of o bits while there are enough bits. */
  method WriteAll(ghost read: seq<nat>, ghost w: nat, out0: seq<nat>, o: nat, val: nat, bits0: nat)
    returns (out: seq<nat>, bits: nat)
    requires o > 0 && Pending(read, w, out0, o, val, bits0)
    ensures Pending(read, w, out, o, val, bits) && bits < o
  {
    out, bits := out0, bits0;
    while bits >= o
      invariant Pending(read, w, out, o, val, bits)
    {
      bits := bits - o;
      TopDigit(val, bits, o);
      var digit := val / Pow(2, bits) % Pow(2, o);
      WriteNext(read, w, out, o, val, bits, digit);
      out := out + [digit];
    }
  }

  /** The loop over the input, which leaves fewer than o bits. */
  method Regroup(data: seq<nat>, w: nat, o: nat) returns (out: seq<nat>, val: nat, bits: nat)
    requires 0 < o <= 8 && 0 < w <= 8 && Digits(data, Pow(2, w))
    ensures Pending(data, w, out, o, val, bits) && bits < o
  {
    out, val, bits := [], 0, 0;
    var i := 0;
    assert Stream(data[..0], w) == Stream(out, o) + BitsOf(val, bits);
    while i < |data|
      invariant i <= |data| && bits < o && Pending(data[..i], w, out, o, val, bits)
    {
      val := ShiftIn(data[..i], w, out, o, val, bits, data[i]);
      assert data[..i + 1] == data[..i] + [data[i]];
      out, bits := WriteAll(data[..i + 1], w, out, o, val, bits + w);
      i := i + 1;
    }
    assert data[..i] == data;
  }

  // ---- conversion ----

  /** The bits that do not fill a whole number of o bits. */
  function Leftover(data: seq<nat>, w: nat, o: nat): Bits
    requires o > 0
  {
    var bits := Stream(data, w);
    bits[|bits| - |bits| % o..]
  }

  lemma PendingIsLeftover(data: seq<nat>, w: nat, out: seq<nat>, o: nat, val: nat, bits: nat)
    requires Pending(data, w, out, o, val, bits) && bits < o
    ensures Leftover(data, w, o) == BitsOf(val, bits)
    ensures Stream(data, w) == Stream(out, o) + Leftover(data, w, o)
  {
    StreamLength(out, o);
    TailOf(Stream(out, o), BitsOf(val, bits), |out|, o);
  }

  lemma TailOf(a: Bits, b: Bits, n: nat, o: nat)
    requires |b| < o && |a| == n * o
    ensures var c := a + b; c[|c| - |c| % o..] == b
  {
    DivModUnique(|a + b|, o, n, |b|);
  }

  /** Moving b bits to the top of an o-bit number clears the rest. */
  lemma MoveUp(val: nat, b: nat, o: nat, m: nat)
    requires b <= o <= m && Pow(2, o) > 0 && Pow(2, m) > 0
    ensures BitsOf(val * Pow(2, o - b) % Pow(2, m) % Pow(2, o), o) == BitsOf(val, b) + Zeros(o - b)
  {
    var x := val * Pow(2, o - b);
    BitsOfRemainder(x % Pow(2, m), o, o);
    BitsOfRemainder(x, o, m);
    PowPositive(2, o - b);
    BitsShiftIn(val, b, 0, o - b);
    BitsOfZero(o - b);
  }

  /** Conversion with padding: the bits are kept and filled up with zeros. */
  method ConvertPadded(data: seq<nat>, w: nat, o: nat) returns (out: seq<nat>)
    requires 0 < o <= 8 && 0 < w <= 8 && Digits(data, Pow(2, w))
    ensures Digits(out, Pow(2, o))
    ensures exists k: nat :: k < o && Stream(out, o) == Stream(data, w) + Zeros(k)
  {
    var val, bits;
    out, val, bits := Regroup(data, w, o);
    if bits != 0 {
      var last := PaddedDigit(val, bits, o);
      StreamNext(out, o, last);
      ConcatAssociates(Stream(out, o), BitsOf(val, bits), Zeros(o - bits));
      out := out + [last];
      assert o - bits < o && Stream(out, o) == Stream(data, w) + Zeros(o - bits);
    } else {
      assert Stream(out, o) == Stream(data, w) + Zeros(0);
    }
  }

  method PaddedDigit(val: nat, bits: nat, o: nat) returns (digit: nat)
    requires bits <= o <= 8
    ensures digit < Pow(2, o) && BitsOf(digit, o) == BitsOf(val, bits) + Zeros(o - bits)
  {
    PowPositive(2, o);
    WordIsPower();
    MoveUp(val, bits, o, 32);
    digit := val * Pow(2, o - bits) % WORD % Pow(2, o);
  }

  /** Conversion without padding fails unless less than a number is left, all of it zero. */
  method ConvertExact(data: seq<nat>, w: nat, o: nat) returns (r: Option<seq<nat>>)
    requires 0 < o <= 8 && 0 < w <= 8 && Digits(data, Pow(2, w))
    ensures r.Some? <==> |Leftover(data, w, o)| < w && Leftover(data, w, o) == Zeros(|Leftover(data, w, o)|)
    ensures r.Some? ==> Digits(r.value, Pow(2, o)) && Stream(data, w) == Stream(r.value, o) + Leftover(data, w, o)
  {
    var out, val, bits := Regroup(data, w, o);
    PendingIsLeftover(data, w, out, o, val, bits);
    var rest := PaddedDigit(val, bits, o);
    ZeroDigit(rest, BitsOf(val, bits), o);
    if rest != 0 || bits >= w {
      return None;
    }
    return Some(out);
  }

  lemma ZeroDigit(digit: nat, b: Bits, o: nat)
    requires |b| <= o && digit < Pow(2, o) && BitsOf(digit, o) == b + Zeros(o - |b|)
    ensures digit == 0 <==> b == Zeros(|b|)
  {
    BitsOfZero(o);
    assert Zeros(o) == Zeros(|b|) + Zeros(o - |b|);
    PowPositive(2, o);
    if b == Zeros(|b|) {
      BitsInjective(digit, 0, o);
    } else if digit == 0 {
      SplitEqual(b, Zeros(o - |b|), Zeros(|b|), Zeros(o - |b|));
    }
  }
}
