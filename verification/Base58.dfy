/** Base 58 encoding and decoding, in place on arrays of digits. */
module Base58 {
  import opened Wrappers
  import opened Numerals

  const MAX_ENCODE: nat := 120
  const MAX_DECODE: nat := 164

  // ---- alphabet ----

  /** The alphabet: digits and letters in order, without 0, I, O and l. */
  function CharOf(d: nat): char
    requires d < 58
  {
    (if d < 9 then '1' as nat + d
     else if d < 17 then 'A' as nat + d - 9
     else if d < 22 then 'J' as nat + d - 17
     else if d < 33 then 'P' as nat + d - 22
     else if d < 44 then 'a' as nat + d - 33
     else 'm' as nat + d - 44) as char
  }

  /** The value of a character, or None outside the alphabet. */
  function DigitOf(c: char): (d: Option<nat>)
    ensures d.Some? ==> d.value < 58 && CharOf(d.value) == c
  {
    if '1' <= c <= '9' then Some(c as nat - '1' as nat)
    else if 'A' <= c <= 'H' then Some(9 + c as nat - 'A' as nat)
    else if 'J' <= c <= 'N' then Some(17 + c as nat - 'J' as nat)
    else if 'P' <= c <= 'Z' then Some(22 + c as nat - 'P' as nat)
    else if 'a' <= c <= 'k' then Some(33 + c as nat - 'a' as nat)
    else if 'm' <= c <= 'z' then Some(44 + c as nat - 'm' as nat)
    else None
  }

  lemma DigitOfChar(d: nat)
    requires d < 58
    ensures DigitOf(CharOf(d)) == Some(d)
  {}

  /** The characters in order. */
  lemma Alphabet(d: nat)
    requires d < 58
    ensures d < 9 ==> CharOf(d) == "123456789"[d]
    ensures 9 <= d < 22 ==> CharOf(d) == "ABCDEFGHJKLMN"[d - 9]
    ensures 22 <= d < 33 ==> CharOf(d) == "PQRSTUVWXYZ"[d - 22]
    ensures 33 <= d < 44 ==> CharOf(d) == "abcdefghijk"[d - 33]
    ensures 44 <= d ==> CharOf(d) == "mnopqrstuvwxyz"[d - 44]
  {}

  function Text(digits: seq<nat>): (s: string)
    requires Digits(digits, 58)
    ensures |s| == |digits|
    ensures forall i :: 0 <= i < |s| ==> s[i] == CharOf(digits[i])
  {
    seq(|digits|, i requires 0 <= i < |digits| => CharOf(digits[i]))
  }

  // ---- what is computed ----

  /** The number of leading zeros. */
  function Zeros(s: seq<nat>): (z: nat)
    ensures z <= |s|
    ensures forall i :: 0 <= i < z ==> s[i] == 0
    ensures z < |s| ==> s[z] != 0
  {
    if |s| == 0 || s[0] != 0 then 0 else 1 + Zeros(s[1..])
  }

  /** A number in another base with its leading zeros kept one for one. */
  ghost predicate Rewrites(s: seq<nat>, b: nat, t: seq<nat>, c: nat) {
    && Digits(t, c)
    && Zeros(t) == Zeros(s)
    && Value(t, c) == Value(s, b)
  }

  lemma ZerosOf(s: seq<nat>, z: nat)
    requires z <= |s| && (forall i :: 0 <= i < z ==> s[i] == 0) && (z < |s| ==> s[z] != 0)
    ensures Zeros(s) == z
  {}

  /** What a number is rewritten to is unique. */
  lemma RewriteUnique(s: seq<nat>, b: nat, t: seq<nat>, t': seq<nat>, c: nat)
    requires c > 0 && Rewrites(s, b, t, c) && Rewrites(s, b, t', c)
    ensures t == t'
  {
    Stripped(t, c);
    Stripped(t', c);
    CanonicalUnique(t[Zeros(t)..], t'[Zeros(t)..], c);
    SameFront(t, t', Zeros(t));
  }

  /** A numeral without its leading zeros. */
  lemma Stripped(t: seq<nat>, c: nat)
    requires Digits(t, c)
    ensures var rest := t[Zeros(t)..];
            Digits(rest, c) && Canonical(rest) && Value(rest, c) == Value(t, c)
  {
    ValueSkipZeros(t, Zeros(t), c);
  }

  lemma SameFront(t: seq<nat>, t': seq<nat>, z: nat)
    requires z <= |t| && z <= |t'| && t[z..] == t'[z..] && forall i :: 0 <= i < z ==> t[i] == t'[i]
    ensures t == t'
  {
    assert t == t[..z] + t[z..] && t' == t'[..z] + t'[z..];
    assert t[..z] == t'[..z];
  }

  /** Rewriting back gives the original. */
  lemma RewriteBack(s: seq<nat>, b: nat, t: seq<nat>, c: nat, u: seq<nat>)
    requires b > 0 && Digits(s, b) && Rewrites(s, b, t, c) && Rewrites(t, c, u, b)
    ensures u == s
  {
    assert Rewrites(t, c, s, b);
    RewriteUnique(t, c, u, s, b);
  }

  // ---- encoding: multiply by 256 and add, with an early exit ----

  /** The cells that suffice for t bytes. */
  function Cells(t: nat): nat {
    t * 138 / 100 + 1
  }

  lemma {:induction false} PowerGrowth(k: nat)
    ensures Pow(256, 8 * k) <= Pow(58, 11 * k)
  {
    if k > 0 {
      PowerGrowth(k - 1);
      EightBytes();
      PowAdd(256, 8 * (k - 1), 8);
      PowAdd(58, 11 * (k - 1), 11);
      ProductMonotone(Pow(256, 8 * (k - 1)), Pow(58, 11 * (k - 1)), Pow(256, 8), Pow(58, 11));
    }
  }

  lemma ProductMonotone(a: nat, a': nat, b: nat, b': nat)
    requires a <= a' && b <= b'
    ensures a * b <= a' * b'
  {
    MulMonotone(a, a', b);
    MulMonotone(b, b', a');
  }

  /** 256^8 <= 58^11 */
  lemma EightBytes()
    ensures Pow(256, 8) <= Pow(58, 11)
  {
    assert Pow(256, 2) == 65536;
    assert Pow(256, 4) == 65536 * 65536;
    assert Pow(256, 6) == 65536 * 65536 * 65536;
    assert Pow(58, 2) == 3364;
    assert Pow(58, 4) == 11316496;
    assert Pow(58, 6) == 38068692544;
    assert Pow(58, 8) == 128063081718016;
    assert Pow(58, 10) == 430804206899405824;
  }

  lemma {:induction false} PowOfPow(b: nat, j: nat, k: nat)
    ensures Pow(Pow(b, j), k) == Pow(b, j * k)
  {
    if k > 0 {
      PowOfPow(b, j, k - 1);
      PowAdd(b, j, j * (k - 1));
      assert j * k == j + j * (k - 1);
    }
  }

  lemma {:induction false} PowStrict(a: nat, b: nat, k: nat)
    requires a > b && k > 0
    ensures Pow(a, k) > Pow(b, k)
  {
    if k > 1 {
      PowStrict(a, b, k - 1);
      MulMonotone(Pow(b, k - 1) + 1, Pow(a, k - 1), a);
      MulMonotone(b, a, Pow(b, k - 1));
      assert (Pow(b, k - 1) + 1) * a == Pow(b, k - 1) * a + a;
    }
  }

  /** The buffer has room for the value of any t bytes. */
  lemma CellsSuffice(t: nat)
    ensures Pow(256, t) <= Pow(58, Cells(t))
  {
    var q := Cells(t);
    assert 8 * q >= 11 * t;
    if Pow(256, t) > Pow(58, q) {
      PowStrict(Pow(256, t), Pow(58, q), 8);
      PowOfPow(256, t, 8);
      PowOfPow(58, q, 8);
      PowerGrowth(t);
      PowMonotone(58, 11 * t, q * 8);
    }
  }

  /** One cell of the multiplication, carry + 256 * d = 58 * q + r, moved past a tail of cells. */
  lemma CellStep(d: nat, before: seq<nat>, carry: nat, after: seq<nat>, byte: nat, q: nat, r: nat)
    requires |before| == |after| && carry + 256 * d == 58 * q + r
    requires 256 * Value(before, 58) + byte == carry * Pow(58, |after|) + Value(after, 58)
    ensures 256 * Value([d] + before, 58) + byte == q * Pow(58, |after| + 1) + Value([r] + after, 58)
  {
    var p := Pow(58, |after|);
    ValueCons(d, before, 58);
    ValueCons(r, after, 58);
    CellProduct(q, r, p, carry, d);
    assert Pow(58, |after| + 1) == 58 * p;
  }

  lemma CellProduct(q: nat, r: nat, p: nat, carry: nat, d: nat)
    requires carry + 256 * d == 58 * q + r
    ensures 256 * (d * p) + carry * p == q * (58 * p) + r * p
  {
    assert 256 * (d * p) + carry * p == (carry + 256 * d) * p;
    assert q * (58 * p) + r * p == (58 * q + r) * p;
  }

  /** A carry out of enough cells is zero. */
  lemma NoCarry(carry: nat, tail: seq<nat>, v: nat, limit: nat)
    requires carry * Pow(58, |tail|) + Value(tail, 58) == v && v < Pow(58, limit) && |tail| >= limit
    ensures carry == 0
  {
    PowMonotone(58, limit, |tail|);
    if carry > 0 {
      MulMonotone(1, carry, Pow(58, |tail|));
    }
  }

  /** After one more byte the number still fits the cells for t + 1 bytes. */
  lemma NextFits(v: nat, byte: nat, t: nat)
    requires v < Pow(256, t) && byte < 256
    ensures 256 * v + byte < Pow(58, Cells(t + 1))
  {
    AppendBound(v, Pow(256, t), byte, 256);
    CellsSuffice(t + 1);
  }

  /** The cells from j on hold the low end of 256 * was + byte; the rest of it is in the carry. */
  ghost predicate Progress(was: seq<nat>, now: seq<nat>, j: nat, carry: nat, byte: nat) {
    && |was| == |now| && j <= |was|
    && (forall i :: 0 <= i < j ==> now[i] == was[i])
    && (forall i :: j <= i < |now| ==> now[i] < 58)
    && 256 * Value(was[j..], 58) + byte == carry * Pow(58, |was| - j) + Value(now[j..], 58)
  }

  lemma ProgressStarts(was: seq<nat>, byte: nat)
    ensures Progress(was, was, |was|, byte, byte)
  {
    assert was[|was|..] == [];
  }

  lemma ProgressStep(was: seq<nat>, now: seq<nat>, j: nat, carry: nat, byte: nat, q: nat, r: nat)
    requires j < |was| && Progress(was, now, j + 1, carry, byte)
    requires carry + 256 * now[j] == 58 * q + r && r < 58
    ensures Progress(was, now[j := r], j, q, byte)
  {
    assert was[j..] == [was[j]] + was[j + 1..];
    assert now[j := r][j..] == [r] + now[j + 1..];
    CellStep(was[j], was[j + 1..], carry, now[j + 1..], byte, q, r);
  }

  /** When the loop goes on, the number needs more cells, and there are some left. */
  lemma GoesOn(was: seq<nat>, now: seq<nat>, carry: nat, byte: nat, j: nat, stop: nat, t: nat)
    requires 1 <= stop < |was| && j < |was| && Progress(was, now, j, carry, byte)
    requires Value(was, 58) < Pow(256, t) && byte < 256 && forall i :: 0 <= i < stop ==> was[i] == 0
    requires |was| - stop <= Cells(t) && Cells(t + 1) <= |was|
    requires j >= stop || carry != 0
    ensures 0 < j && |was| - j < Cells(t + 1)
  {
    if j < stop {
      ValueSkipZeros(was, j, 58);
      NextFits(Value(was, 58), byte, t);
      if |was| - j >= Cells(t + 1) {
        NoCarry(carry, now[j..], 256 * Value(was, 58) + byte, Cells(t + 1));
      }
    }
  }

  /** When the loop ends, the cells it did not reach are zero. */
  lemma Ends(was: seq<nat>, now: seq<nat>, j: nat, byte: nat)
    requires Progress(was, now, j, 0, byte) && forall i :: 0 <= i < j ==> was[i] == 0
    ensures Value(now, 58) == 256 * Value(was, 58) + byte && Digits(now, 58)
    ensures forall i :: 0 <= i < j ==> now[i] == 0
  {
    ValueSkipZeros(was, j, 58);
    ValueSkipZeros(now, j, 58);
  }

  /**
   Multiplies the number in the first `size` cells by 256 and adds a byte. Cells before `stop`
   are zero; the loop ends at a cell before `stop` as soon as the carry is zero, and it always
   does so before running out of cells.
   */
  method MultiplyAdd(buffer: array<nat>, size: nat, stop: nat, byte: nat, ghost t: nat) returns (j: nat)
    requires 1 <= stop < size <= buffer.Length && byte < 256
    requires Digits(buffer[..size], 58) && forall i :: 0 <= i < stop ==> buffer[i] == 0
    requires Value(buffer[..size], 58) < Pow(256, t) && size - stop <= Cells(t) && Cells(t + 1) <= size
    modifies buffer
    ensures Digits(buffer[..size], 58)
    ensures Value(buffer[..size], 58) == 256 * Value(old(buffer[..size]), 58) + byte
    ensures j < stop && size - j <= Cells(t + 1)
    ensures forall i :: 0 <= i < j ==> buffer[i] == 0
  {
    ghost var was := buffer[..size];
    var carry: nat := byte;
    j := size;
    ProgressStarts(was, byte);
    while true
      invariant 0 < j <= size && size - j < Cells(t + 1)
      invariant Progress(was, buffer[..size], j, carry, byte)
      decreases j
    {
      j := j - 1;
      ghost var now := buffer[..size];
      var x := carry + 256 * buffer[j];
      ProgressStep(was, now, j, carry, byte, x / 58, x % 58);
      buffer[j] := x % 58;
      carry := x / 58;
      assert buffer[..size] == now[j := x % 58];
      if j <= stop - 1 && carry == 0 {
        break;
      }
      GoesOn(was, buffer[..size], carry, byte, j, stop, t);
    }
    Ends(was, buffer[..size], j, byte);
    assert forall i :: 0 <= i < j ==> buffer[i] == buffer[..size][i];
  }

  method CountZeros(s: seq<nat>) returns (z: nat)
    ensures z == Zeros(s)
  {
    z := 0;
    while z < |s| && s[z] == 0
      invariant z <= |s| && forall i :: 0 <= i < z ==> s[i] == 0
    {
      z := z + 1;
    }
    ZerosOf(s, z);
  }

  lemma CellsGrow(t: nat, n: nat)
    requires t < n
    ensures Cells(t) < Cells(n)
  {}

  /** The base 58 digits of the bytes after the leading zeros, in a buffer of the prescribed size. */
  method FillBuffer(input: seq<nat>, z: nat) returns (buffer: array<nat>, size: nat)
    requires Digits(input, 256) && z <= |input| <= MAX_ENCODE
    ensures size == Cells(|input| - z) <= buffer.Length && fresh(buffer)
    ensures Digits(buffer[..size], 58) && Value(buffer[..size], 58) == Value(input[z..], 256)
  {
    buffer := new nat[MAX_ENCODE * 138 / 100 + 1](_ => 0);
    size := (|input| - z) * 138 / 100 + 1;
    var stop := size - 1;
    assert input[z..z] == [];
    ValueOfZeros(buffer[..size], 58);
    for start := z to |input|
      invariant fresh(buffer) && stop < size && size - stop <= Cells(start - z)
      invariant Digits(buffer[..size], 58) && forall i :: 0 <= i < stop ==> buffer[i] == 0
      invariant Value(buffer[..size], 58) == Value(input[z..start], 256)
    {
      ghost var t := start - z;
      ValueBound(input[z..start], 256);
      CellsGrow(t, |input| - z);
      assert Cells(t + 1) <= size by {
        if t + 1 < |input| - z {
          CellsGrow(t + 1, |input| - z);
        }
      }
      stop := MultiplyAdd(buffer, size, stop, input[start], t);
      assert input[z..start + 1][..t] == input[z..start];
    }
    assert input[z..|input|] == input[z..];
  }

  /** The leading zeros of the input followed by the digits without theirs. */
  lemma Assembled(input: seq<nat>, cells: seq<nat>, digits: seq<nat>)
    requires Digits(cells, 58) && Value(cells, 58) == Value(input[Zeros(input)..], 256)
    requires digits == seq(Zeros(input), _ => 0) + cells[Zeros(cells)..]
    ensures Rewrites(input, 256, digits, 58)
  {
    var z := Zeros(input);
    var rest := cells[Zeros(cells)..];
    Stripped(cells, 58);
    ValueSkipZeros(input, z, 256);
    ZerosOf(digits, z);
    assert digits[z..] == rest;
    ValueSkipZeros(digits, z, 58);
  }

  /**
   Encodes bytes into `out` and returns the length of the text, or -1 when there are too many
   bytes or the text does not fit. `digits` are the values of the characters.
   */
  method Encode(input: seq<nat>, out: array<char>) returns (r: int, ghost digits: seq<nat>)
    requires Digits(input, 256)
    modifies out
    ensures |input| > MAX_ENCODE ==> r == -1
    ensures |input| <= MAX_ENCODE ==> Rewrites(input, 256, digits, 58) && r == if out.Length < |digits| then -1 else |digits|
    ensures r >= 0 ==> r <= out.Length && out[..r] == Text(digits)
    ensures r == -1 ==> out[..] == old(out[..])
    ensures forall i :: 0 <= r <= i < out.Length ==> out[i] == old(out[i])
  {
    digits := [];
    if |input| > MAX_ENCODE {
      return -1, digits;
    }
    var z := CountZeros(input);
    var buffer, size := FillBuffer(input, z);
    var j := CountZeros(buffer[..size]);
    digits := seq(z, _ => 0) + buffer[..size][j..];
    Assembled(input, buffer[..size], digits);
    if out.Length < z + size - j {
      return -1, digits;
    }
    r := WriteText(out, z, buffer[..size], j);
  }

  /** Writes z times the character for zero, then the characters of the cells from j on. */
  method WriteText(out: array<char>, z: nat, cells: seq<nat>, j: nat) returns (r: nat)
    requires Digits(cells, 58) && j <= |cells| && z + |cells| - j <= out.Length
    modifies out
    ensures r == z + |cells| - j
    ensures out[..r] == Text(seq(z, _ => 0) + cells[j..])
    ensures forall i :: r <= i < out.Length ==> out[i] == old(out[i])
  {
    ghost var digits := seq(z, _ => 0) + cells[j..];
    for i := 0 to z
      invariant forall k :: 0 <= k < i ==> out[k] == CharOf(digits[k])
      invariant forall k :: i <= k < out.Length ==> out[k] == old(out[k])
    {
      out[i] := CharOf(0);
    }
    r := z;
    for k := j to |cells|
      invariant r == z + k - j
      invariant forall i :: 0 <= i < r ==> out[i] == CharOf(digits[i])
      invariant forall i :: r <= i < out.Length ==> out[i] == old(out[i])
    {
      out[r] := CharOf(cells[k]);
      r := r + 1;
    }
  }

  // ---- decoding: repeated division by 256 ----

  /** One digit of the long division: 58 * r + d = 256 * q + r'. */
  lemma DivisionStep(was: seq<nat>, now: seq<nat>, r: nat, d: nat, q: nat, r': nat)
    requires Value(was, 58) == 256 * Value(now, 58) + r && r * 58 + d == 256 * q + r'
    ensures Value(was + [d], 58) == 256 * Value(now + [q], 58) + r'
  {
    assert (was + [d])[..|was|] == was && (now + [q])[..|now|] == now;
  }

  /** The first i digits have been divided, leaving a quotient in their place and a remainder. */
  ghost predicate Dividing(was: seq<nat>, now: seq<nat>, i: nat, r: nat) {
    && |was| == |now| && i <= |was| && r < 256
    && (forall k :: i <= k < |was| ==> now[k] == was[k])
    && (forall k :: 0 <= k < i ==> now[k] < 58)
    && (if i == 0 then r == 0 else now[0] == 0)
    && Value(was[..i], 58) == 256 * Value(now[..i], 58) + r
  }

  lemma DividingStep(was: seq<nat>, now: seq<nat>, i: nat, r: nat, q: nat, r': nat)
    requires Dividing(was, now, i, r) && i < |was| && was[i] < 58
    requires r * 58 + now[i] == 256 * q + r' && r' < 256
    ensures Dividing(was, now[i := q], i + 1, r')
  {
    assert was[..i + 1] == was[..i] + [was[i]];
    assert now[i := q][..i + 1] == now[..i] + [q];
    DivisionStep(was[..i], now[..i], r, was[i], q, r');
  }

  /** Divides the number in the cells from start to n by 256; the leading cell always becomes zero. */
  method DivideBy256(tmp: array<nat>, start: nat, n: nat) returns (remainder: nat)
    requires start < n <= tmp.Length && Digits(tmp[start..n], 58)
    modifies tmp
    ensures remainder < 256 && Digits(tmp[start..n], 58) && tmp[start] == 0
    ensures Value(old(tmp[start..n]), 58) == 256 * Value(tmp[start..n], 58) + remainder
  {
    ghost var was := tmp[start..n];
    remainder := 0;
    for i := start to n
      invariant Dividing(was, tmp[start..n], i - start, remainder)
    {
      ghost var now := tmp[start..n];
      assert now[i - start] == tmp[i];
      var x := remainder * 58 + tmp[i];
      DividingStep(was, now, i - start, remainder, x / 256, x % 256);
      tmp[i] := x / 256;
      remainder := x % 256;
      assert tmp[start..n] == now[i - start := x / 256];
    }
    ghost var now := tmp[start..n];
    assert was[..n - start] == was && now[..n - start] == now && now[0] == tmp[start];
  }

  /** All passes: quotients shrink by one cell and remainders fill the buffer from its end. */
  ghost predicate Passing(digits: seq<nat>, quotient: seq<nat>, bytes: seq<nat>) {
    && |quotient| + |bytes| == |digits|
    && Digits(quotient, 58) && Digits(bytes, 256)
    && Value(digits, 58) == Value(quotient, 58) * Pow(256, |bytes|) + Value(bytes, 256)
  }

  lemma PassingStarts(digits: seq<nat>)
    requires Digits(digits, 58)
    ensures Passing(digits, digits, [])
  {}

  lemma PassingEnds(digits: seq<nat>, bytes: seq<nat>)
    requires Passing(digits, [], bytes)
    ensures Digits(bytes, 256) && Value(bytes, 256) == Value(digits, 58)
  {}

  lemma PassingStep(digits: seq<nat>, quotient: seq<nat>, bytes: seq<nat>, next: seq<nat>, r: nat)
    requires Passing(digits, quotient, bytes) && |next| == |quotient| > 0 && Digits(next, 58) && r < 256 && next[0] == 0
    requires Value(quotient, 58) == 256 * Value(next, 58) + r
    ensures Passing(digits, next[1..], [r] + bytes)
  {
    ValueSkipZeros(next, 1, 58);
    ValueCons(r, bytes, 256);
    PassProduct(Value(next, 58), r, Pow(256, |bytes|));
    assert Pow(256, |[r] + bytes|) == 256 * Pow(256, |bytes|);
  }

  lemma PassProduct(v: nat, r: nat, p: nat)
    ensures (256 * v + r) * p == v * (256 * p) + r * p
  {
    assert (256 * v + r) * p == 256 * v * p + r * p;
    assert 256 * v * p == v * (256 * p);
  }

  /** One pass: divides and puts the remainder in front of the bytes found so far. */
  method Pass(tmp: array<nat>, start: nat, n: nat, buffer: array<nat>, j: nat, ghost digits: seq<nat>)
    requires tmp != buffer && start < n <= tmp.Length && 0 < j <= n <= buffer.Length
    requires Passing(digits, tmp[start..n], buffer[j..n])
    modifies tmp, buffer
    ensures tmp[start] == 0 && Passing(digits, tmp[start + 1..n], buffer[j - 1..n])
    ensures forall i :: 0 <= i < j - 1 ==> buffer[i] == old(buffer[i])
  {
    ghost var quotient, bytes := tmp[start..n], buffer[j..n];
    var remainder := DivideBy256(tmp, start, n);
    PassingStep(digits, quotient, bytes, tmp[start..n], remainder);
    assert tmp[start..n][1..] == tmp[start + 1..n];
    buffer[j - 1] := remainder;
    assert buffer[j - 1..n] == [remainder] + bytes;
  }

  /** The base 256 digits of the base 58 digits from z on, in the same number of cells. */
  method FillBytes(tmp: array<nat>, z: nat, n: nat) returns (buffer: array<nat>)
    requires z <= n <= tmp.Length && n <= MAX_DECODE && Digits(tmp[z..n], 58)
    modifies tmp
    ensures fresh(buffer) && buffer.Length == MAX_DECODE
    ensures forall i :: 0 <= i < z ==> buffer[i] == 0
    ensures Digits(buffer[z..n], 256) && Value(buffer[z..n], 256) == Value(old(tmp[z..n]), 58)
  {
    ghost var digits := tmp[z..n];
    buffer := new nat[MAX_DECODE](_ => 0);
    var j, start := n, z;
    PassingStarts(digits);
    assert buffer[n..n] == [];
    while start < n
      invariant z <= start <= n && j == n - (start - z)
      invariant Passing(digits, tmp[start..n], buffer[j..n])
      invariant forall i :: 0 <= i < j ==> buffer[i] == 0
    {
      Pass(tmp, start, n, buffer, j, digits);
      if tmp[start] == 0 {
        start := start + 1;
      }
      j := j - 1;
    }
    assert j == z && tmp[n..n] == [];
    PassingEnds(digits, buffer[z..n]);
  }

  // ---- decoding texts ----

  /** The digits of a text, or None when it has a character outside the alphabet. */
  function TextDigits(text: string): (r: Option<seq<nat>>)
    ensures r.Some? ==> |r.value| == |text| && Digits(r.value, 58) && Text(r.value) == text
  {
    if forall i :: 0 <= i < |text| ==> DigitOf(text[i]).Some?
    then Some(seq(|text|, i requires 0 <= i < |text| => DigitOf(text[i]).value))
    else None
  }

  lemma TextDigitsOfText(digits: seq<nat>)
    requires Digits(digits, 58)
    ensures TextDigits(Text(digits)) == Some(digits)
  {
    forall i | 0 <= i < |digits|
      ensures DigitOf(Text(digits)[i]) == Some(digits[i])
    {
      DigitOfChar(digits[i]);
    }
    assert TextDigits(Text(digits)).value == digits;
  }

  method ReadDigits(text: string, tmp: array<nat>) returns (ok: bool)
    requires |text| <= tmp.Length
    modifies tmp
    ensures ok <==> TextDigits(text).Some?
    ensures ok ==> tmp[..|text|] == TextDigits(text).value
  {
    for i := 0 to |text|
      invariant forall k :: 0 <= k < i ==> DigitOf(text[k]) == Some(tmp[k])
    {
      var d := DigitOf(text[i]);
      if d.None? {
        return false;
      }
      tmp[i] := d.value;
    }
    return true;
  }

  /** The bytes: as many zeros as leading zero digits, then the cells without their leading zeros. */
  lemma Unassembled(digits: seq<nat>, cells: seq<nat>, bytes: seq<nat>)
    requires Digits(cells, 256) && Value(cells, 256) == Value(digits[Zeros(digits)..], 58)
    requires bytes == seq(Zeros(digits), _ => 0) + cells[Zeros(cells)..]
    ensures Rewrites(digits, 58, bytes, 256)
  {
    var z := Zeros(digits);
    var rest := cells[Zeros(cells)..];
    Stripped(cells, 256);
    ValueSkipZeros(digits, z, 58);
    ZerosOf(bytes, z);
    assert bytes[z..] == rest;
    ValueSkipZeros(bytes, z, 256);
  }

  /**
   Decodes a text of 2 to 164 characters into `out` and returns the number of bytes, or -1 when
   the text has another length or a foreign character, or the bytes do not fit.
   */
  method Decode(text: string, out: array<nat>) returns (r: int, ghost bytes: seq<nat>)
    modifies out
    ensures var readable := 2 <= |text| <= MAX_DECODE && TextDigits(text).Some?;
            && (!readable ==> r == -1)
            && (readable ==> Rewrites(TextDigits(text).value, 58, bytes, 256) && r == if out.Length < |bytes| then -1 else |bytes|)
    ensures r >= 0 ==> r <= out.Length && out[..r] == bytes
    ensures r == -1 ==> out[..] == old(out[..])
    ensures forall i :: 0 <= r <= i < out.Length ==> out[i] == old(out[i])
  {
    bytes := [];
    var n := |text|;
    if n > MAX_DECODE || n < 2 {
      return -1, bytes;
    }
    var tmp := new nat[MAX_DECODE](_ => 0);
    var ok := ReadDigits(text, tmp);
    if !ok {
      return -1, bytes;
    }
    var result := Convert(tmp, n);
    bytes := result;
    if out.Length < |result| {
      return -1, bytes;
    }
    for i := 0 to |result|
      invariant forall m :: 0 <= m < i ==> out[m] == result[m]
      invariant forall m :: i <= m < out.Length ==> out[m] == old(out[m])
    {
      out[i] := result[i];
    }
    r := |result|;
  }

  /** The bytes of the first n digits. */
  method Convert(tmp: array<nat>, n: nat) returns (bytes: seq<nat>)
    requires n <= tmp.Length && n <= MAX_DECODE && Digits(tmp[..n], 58)
    modifies tmp
    ensures Rewrites(old(tmp[..n]), 58, bytes, 256)
  {
    ghost var digits := tmp[..n];
    var z := CountZeros(tmp[..n]);
    assert tmp[z..n] == digits[z..];
    var buffer := FillBytes(tmp, z, n);
    var k := CountZeros(buffer[z..n]);
    var j := z + k;
    bytes := buffer[j - z..n];
    LeadingBytes(buffer[..n], z, k);
    assert buffer[..n][j - z..] == bytes && buffer[..n][z..] == buffer[z..n];
    Unassembled(digits, buffer[z..n], bytes);
  }

  /** Stepping back z cells from the first nonzero one gives z zeros in front of it. */
  lemma LeadingBytes(cells: seq<nat>, z: nat, k: nat)
    requires z + k <= |cells| && forall i :: 0 <= i < z + k ==> cells[i] == 0
    ensures cells[k..] == seq(z, _ => 0) + cells[z..][k..]
  {}

  // ---- round trips ----

  /** Decoding undoes encoding, leading zeros included. */
  lemma DecodeEncode(input: seq<nat>, digits: seq<nat>, bytes: seq<nat>)
    requires Digits(input, 256) && Rewrites(input, 256, digits, 58)
    requires TextDigits(Text(digits)).Some? && Rewrites(TextDigits(Text(digits)).value, 58, bytes, 256)
    ensures bytes == input
  {
    TextDigitsOfText(digits);
    RewriteBack(input, 256, digits, 58, bytes);
  }

  /** Encoding undoes decoding: every readable text is the text of its bytes. */
  lemma EncodeDecode(text: string, bytes: seq<nat>, digits: seq<nat>)
    requires TextDigits(text).Some? && Rewrites(TextDigits(text).value, 58, bytes, 256)
    requires Rewrites(bytes, 256, digits, 58)
    ensures Text(digits) == text
  {
    RewriteBack(TextDigits(text).value, 58, bytes, 256, digits);
  }

  /** 256^30 <= 58^41 */
  lemma ThirtyBytes()
    ensures Pow(256, 30) <= Pow(58, 41)
  {
    assert Pow(58, 2) == 3364;
    assert Pow(58, 4) == 11316496;
    assert Pow(58, 6) == 38068692544;
    assert Pow(58, 8) == 128063081718016;
    assert Pow(58, 10) == 430804206899405824;
    PowAdd(58, 10, 10);
    assert Pow(58, 20) == 185592264682226060569122324245118976;
    PowAdd(58, 20, 20);
    assert Pow(58, 40) == 34444488709877454747081479018851205589883534409595458615323760395288576;
    PowAdd(256, 5, 5);
    assert Pow(256, 5) == 1099511627776;
    assert Pow(256, 10) == 1208925819614629174706176;
    PowAdd(256, 10, 10);
    PowAdd(256, 20, 10);
    assert Pow(58, 41) == 58 * Pow(58, 40);
  }

  lemma {:induction false} PowersEach(a: nat, b: nat, k: nat)
    requires Pow(256, a) <= Pow(58, b)
    ensures Pow(256, k * a) <= Pow(58, k * b)
    decreases k
  {
    if k > 0 {
      PowersEach(a, b, k - 1);
      PowAdd(256, (k - 1) * a, a);
      PowAdd(58, (k - 1) * b, b);
      assert k * a == (k - 1) * a + a && k * b == (k - 1) * b + b;
      ProductMonotone(Pow(256, (k - 1) * a), Pow(58, (k - 1) * b), Pow(256, a), Pow(58, b));
    }
  }

  lemma PowOrder(x: nat, y: nat, c: nat)
    requires Pow(58, x) < c <= Pow(58, y)
    ensures x < y
  {
    if x >= y {
      PowMonotone(58, y, x);
    }
  }

  function Product(a: nat, b: nat): nat {
    a * b
  }

  lemma StrictPowers(t: nat, n: nat, a: nat, p: nat, q: nat)
    requires p == Pow(256, t) && q == Pow(58, n) && q < p && a > 0
    ensures Pow(58, n * a) < Pow(256, t * a)
  {
    PowStrict(p, q, a);
    PowOfPow(256, t, a);
    PowOfPow(58, n, a);
  }

  /** If a bytes have no more than b digits, then n + 1 digits take more than n * a / b bytes. */
  lemma DigitsPerByte(t: nat, n: nat, a: nat, b: nat)
    requires a > 0 && Pow(256, a) <= Pow(58, b) && Pow(58, n) < Pow(256, t)
    ensures n * a < t * b
  {
    var x, y, z := Product(n, a), Product(t, b), Product(t, a);
    PowersEach(a, b, t);
    StrictPowers(t, n, a, Pow(256, t), Pow(58, n));
    PowOrder(x, y, Pow(256, z));
  }

  lemma DigitsOfBytes(rest: seq<nat>, tail: seq<nat>, a: nat, b: nat)
    requires a > 0 && Pow(256, a) <= Pow(58, b) && Digits(rest, 256) && Digits(tail, 58)
    requires Canonical(tail) && |tail| > 0 && Value(tail, 58) == Value(rest, 256)
    ensures (|tail| - 1) * a < |rest| * b
  {
    ValueBound(rest, 256);
    CanonicalBound(tail, 58);
    DigitsPerByte(|rest|, |tail| - 1, a, b);
  }

  /** The text of at most 120 bytes has at most 164 characters. */
  lemma TextIsReadable(input: seq<nat>, digits: seq<nat>)
    requires Digits(input, 256) && Rewrites(input, 256, digits, 58) && |input| <= MAX_ENCODE
    ensures |digits| <= MAX_DECODE
  {
    var z := Zeros(input);
    Stripped(digits, 58);
    ValueSkipZeros(input, z, 256);
    if |digits| > z {
      ThirtyBytes();
      DigitsOfBytes(input[z..], digits[z..], 30, 41);
    }
  }

  /** The inputs whose text has at least two characters. */
  predicate LongEnough(input: seq<nat>) {
    |input| >= 2 || (|input| == 1 && input[0] >= 58)
  }

  lemma TextLengthIff(input: seq<nat>, digits: seq<nat>)
    requires Digits(input, 256) && Rewrites(input, 256, digits, 58)
    ensures |digits| >= 2 <==> LongEnough(input)
  {
    var z := Zeros(input);
    Stripped(digits, 58);
    ValueSkipZeros(input, z, 256);
    if |digits| == 1 {
      ValueSingle(digits[0], 58);
      assert digits == [digits[0]];
    }
    if |input| == 1 {
      assert input == [input[0]];
      ValueSingle(input[0], 256);
      if |digits| >= 2 && input[0] < 58 {
        OneDigit(input[0], digits);
      }
    } else if |input| >= 2 && z == 0 {
      ValueAtLeast(input);
    } else if |input| >= 2 && z == 1 {
      Stripped(input, 256);
      CanonicalBound(input[1..], 256);
      PowPositive(256, |input| - 2);
    } else if |input| == 0 && |digits| > 0 {
      assert digits[0..] == digits;
      CanonicalBound(digits, 58);
      PowPositive(58, |digits| - 1);
    }
  }

  /** A number below 58 is one digit. */
  lemma OneDigit(v: nat, digits: seq<nat>)
    requires v < 58 && Rewrites([v], 256, digits, 58)
    ensures |digits| == 1
  {
    ValueSingle(v, 256);
    ValueSingle(v, 58);
    assert Rewrites([v], 256, [v], 58);
    RewriteUnique([v], 256, digits, [v], 58);
  }

  lemma ValueAtLeast(input: seq<nat>)
    requires |input| >= 2 && input[0] != 0
    ensures Value(input, 256) >= 256
  {
    var t := input[1..];
    assert input == [input[0]] + t;
    ValueCons(input[0], t, 256);
    PowMonotone(256, 1, |t|);
    assert Pow(256, 1) == 256;
    MulMonotone(1, input[0], Pow(256, |t|));
  }

  /** Short inputs are encoded to a text that is not read back: [7] to "8". */
  lemma ShortTextNotRead()
    ensures Rewrites([7], 256, [7], 58) && Text([7]) == "8" && !LongEnough([7])
  {
    ValueSingle(7, 256);
    ValueSingle(7, 58);
  }

  /** With large enough outputs, the round trip succeeds exactly for inputs of two bytes and for single bytes from 58. */
  method EncodeThenDecode(input: seq<nat>) returns (r: Option<seq<nat>>)
    requires Digits(input, 256) && |input| <= MAX_ENCODE
    ensures r == if LongEnough(input) then Some(input) else None
  {
    var room := 2 * |input| + 1;
    var chars := new char[room](_ => '1');
    var n, digits := Encode(input, chars);
    TextFits(input, digits);
    TextIsReadable(input, digits);
    TextLengthIff(input, digits);
    var text := chars[..n];
    TextDigitsOfText(digits);
    var out := new nat[room](_ => 0);
    var m, bytes := Decode(text, out);
    if m < 0 {
      r := None;
      if LongEnough(input) {
        DecodeEncode(input, digits, bytes);
      }
    } else {
      DecodeEncode(input, digits, bytes);
      r := Some(out[..m]);
    }
  }

  /** A text has at most two characters per byte. */
  lemma TextFits(input: seq<nat>, digits: seq<nat>)
    requires Digits(input, 256) && Rewrites(input, 256, digits, 58)
    ensures |digits| <= 2 * |input| + 1
  {
    var z := Zeros(input);
    var rest, tail := input[z..], digits[z..];
    Stripped(digits, 58);
    ValueSkipZeros(input, z, 256);
    ValueBound(rest, 256);
    CellsSuffice(|rest|);
    if |tail| > Cells(|rest|) {
      CanonicalBound(tail, 58);
      PowMonotone(58, Cells(|rest|), |tail| - 1);
    }
  }
}
