/** Bech32 and Bech32m texts: a human-readable part, the separator '1', and symbols with a checksum. */
module Bech32 {
  import opened Wrappers
  import opened BitStrings
  import opened Numerals
  import opened Polymod

  datatype Encoding = EncBech32 | EncBech32m

  function Constant(enc: Encoding): Register {
    BitsOf(if enc.EncBech32? then 1 else 0x2bc830a3, 30)
  }

  // ---- characters ----

  function CharOf(v: nat): char
    requires v < 32
  {
    if v < 8 then
      if v == 0 then 'q' else if v == 1 then 'p' else if v == 2 then 'z' else if v == 3 then 'r'
      else if v == 4 then 'y' else if v == 5 then '9' else if v == 6 then 'x' else '8'
    else if v < 16 then
      if v == 8 then 'g' else if v == 9 then 'f' else if v == 10 then '2' else if v == 11 then 't'
      else if v == 12 then 'v' else if v == 13 then 'd' else if v == 14 then 'w' else '0'
    else if v < 24 then
      if v == 16 then 's' else if v == 17 then '3' else if v == 18 then 'j' else if v == 19 then 'n'
      else if v == 20 then '5' else if v == 21 then '4' else if v == 22 then 'k' else 'h'
    else
      if v == 24 then 'c' else if v == 25 then 'e' else if v == 26 then '6' else if v == 27 then 'm'
      else if v == 28 then 'u' else if v == 29 then 'a' else if v == 30 then '7' else 'l'
  }

  predicate IsLower(c: char) { 'a' <= c <= 'z' }

  predicate IsUpper(c: char) { 'A' <= c <= 'Z' }

  function LowerChar(c: char): char {
    if IsUpper(c) then (c as nat + 32) as char else c
  }

  /** The reverse table, which holds both cases of the letters. */
  function SymbolOf(c: char): (s: Option<nat>)
    ensures s.Some? ==> s.value < 32
  {
    match LowerChar(c)
    case '0' => Some(15)
    case '2' => Some(10)
    case '3' => Some(17)
    case '4' => Some(21)
    case '5' => Some(20)
    case '6' => Some(26)
    case '7' => Some(30)
    case '8' => Some(7)
    case '9' => Some(5)
    case 'a' => Some(29)
    case 'c' => Some(24)
    case 'd' => Some(13)
    case 'e' => Some(25)
    case 'f' => Some(9)
    case 'g' => Some(8)
    case 'h' => Some(23)
    case 'j' => Some(18)
    case 'k' => Some(22)
    case 'l' => Some(31)
    case 'm' => Some(27)
    case 'n' => Some(19)
    case 'p' => Some(1)
    case 'q' => Some(0)
    case 'r' => Some(3)
    case 's' => Some(16)
    case 't' => Some(11)
    case 'u' => Some(28)
    case 'v' => Some(12)
    case 'w' => Some(14)
    case 'x' => Some(6)
    case 'y' => Some(4)
    case 'z' => Some(2)
    case _ => None
  }

  lemma SymbolOfChar(v: nat)
    requires v < 32
    ensures SymbolOf(CharOf(v)) == Some(v)
    ensures CharOf(v) != '1' && !IsUpper(CharOf(v))
  {}

  lemma CharOfSymbol(c: char)
    requires SymbolOf(c).Some?
    ensures CharOf(SymbolOf(c).value) == LowerChar(c)
  {}

  // ---- texts ----

  function Lower(s: string): (r: string)
    ensures |r| == |s|
    ensures forall i :: 0 <= i < |s| ==> r[i] == LowerChar(s[i])
  {
    seq(|s|, i requires 0 <= i < |s| => LowerChar(s[i]))
  }

  function Chars(symbols: seq<nat>): (s: string)
    requires Digits(symbols, 32)
    ensures |s| == |symbols|
    ensures forall i :: 0 <= i < |s| ==> s[i] == CharOf(symbols[i])
  {
    seq(|symbols|, i requires 0 <= i < |symbols| => CharOf(symbols[i]))
  }

  predicate AllSymbols(s: string) {
    forall i :: 0 <= i < |s| ==> SymbolOf(s[i]).Some?
  }

  function Symbols(s: string): (r: seq<nat>)
    requires AllSymbols(s)
    ensures |r| == |s| && Digits(r, 32)
    ensures forall i :: 0 <= i < |s| ==> r[i] == SymbolOf(s[i]).value
  {
    seq(|s|, i requires 0 <= i < |s| => SymbolOf(s[i]).value)
  }

  lemma SymbolsOfChars(symbols: seq<nat>)
    requires Digits(symbols, 32)
    ensures AllSymbols(Chars(symbols)) && Symbols(Chars(symbols)) == symbols
  {
    forall i | 0 <= i < |symbols|
      ensures SymbolOf(Chars(symbols)[i]) == Some(symbols[i])
    {
      SymbolOfChar(symbols[i]);
    }
  }

  lemma CharsOfSymbols(s: string)
    requires AllSymbols(s)
    ensures Chars(Symbols(s)) == Lower(s)
  {
    forall i | 0 <= i < |s|
      ensures Chars(Symbols(s))[i] == Lower(s)[i]
    {
      CharOfSymbol(s[i]);
    }
  }

  predicate Readable(s: string) {
    forall i :: 0 <= i < |s| ==> 33 <= s[i] as nat <= 126
  }

  predicate HasLower(s: string) {
    exists i :: 0 <= i < |s| && IsLower(s[i])
  }

  predicate HasUpper(s: string) {
    exists i :: 0 <= i < |s| && IsUpper(s[i])
  }

  // ---- checksum ----

  function High(s: string): (r: seq<nat>)
    ensures |r| == |s|
    ensures forall i :: 0 <= i < |s| ==> r[i] == s[i] as nat / 32
  {
    seq(|s|, i requires 0 <= i < |s| => s[i] as nat / 32)
  }

  function Low(s: string): (r: seq<nat>)
    ensures |r| == |s|
    ensures forall i :: 0 <= i < |s| ==> r[i] == s[i] as nat % 32
  {
    seq(|s|, i requires 0 <= i < |s| => s[i] as nat % 32)
  }

  /** The human-readable part as the checksum sees it. */
  function Expand(hrp: string): seq<nat> {
    High(hrp) + [0] + Low(hrp)
  }

  /** The register starts at 1. */
  function Start(): Register {
    Zeros(29) + [true]
  }

  /** The text's symbols bring the register to the constant of the encoding. */
  predicate Verifies(hrp: string, symbols: seq<nat>, enc: Encoding) {
    FeedAll(Start(), Expand(hrp) + symbols) == Constant(enc)
  }

  function Checksum(hrp: string, data: seq<nat>, enc: Encoding): (c: seq<nat>)
    ensures |c| == 6
  {
    SymbolsOf(Xor(Repeat(PolymodStep, FeedAll(Start(), Expand(hrp) + data), 6), Constant(enc)))
  }

  lemma ChecksumVerifies(hrp: string, data: seq<nat>, enc: Encoding)
    ensures Digits(Checksum(hrp, data, enc), 32)
    ensures Verifies(hrp, data + Checksum(hrp, data, enc), enc)
  {
    var front := Expand(hrp) + data;
    FeedIsLinear();
    FeedIsShift();
    ChecksumReaches(Feed, PolymodStep, FeedAll(Start(), front), Constant(enc));
    RunConcat(Feed, Start(), front, Checksum(hrp, data, enc));
    assert front + Checksum(hrp, data, enc) == Expand(hrp) + (data + Checksum(hrp, data, enc));
  }

  /** No change within six consecutive symbols goes unnoticed. */
  lemma BurstDetected(hrp: string, before: seq<nat>, s: seq<nat>, t: seq<nat>, after: seq<nat>, enc: Encoding)
    requires |s| == |t| <= 6 && Digits(s, 32) && Digits(t, 32)
    requires Verifies(hrp, before + s + after, enc) && Verifies(hrp, before + t + after, enc)
    ensures s == t
  {
    Regroup(Expand(hrp), before, s, after);
    Regroup(Expand(hrp), before, t, after);
    BurstChangesRegister(Start(), Expand(hrp) + before, s, t, after);
  }

  lemma Regroup(a: seq<nat>, b: seq<nat>, c: seq<nat>, d: seq<nat>)
    ensures a + (b + c + d) == (a + b) + c + d
  {}

  /** The checksum is the only one that verifies. */
  lemma ChecksumUnique(hrp: string, data: seq<nat>, c: seq<nat>, enc: Encoding)
    requires |c| == 6 && Digits(c, 32) && Verifies(hrp, data + c, enc)
    ensures c == Checksum(hrp, data, enc)
  {
    ChecksumVerifies(hrp, data, enc);
    LastDetected(hrp, data, c, Checksum(hrp, data, enc), enc);
  }

  lemma LastDetected(hrp: string, data: seq<nat>, s: seq<nat>, t: seq<nat>, enc: Encoding)
    requires |s| == |t| <= 6 && Digits(s, 32) && Digits(t, 32)
    requires Verifies(hrp, data + s, enc) && Verifies(hrp, data + t, enc)
    ensures s == t
  {
    assert data + s + [] == data + s && data + t + [] == data + t;
    BurstDetected(hrp, data, s, t, [], enc);
  }

  lemma ConstantsDiffer()
    ensures Constant(EncBech32) != Constant(EncBech32m)
  {
    BitAt(1, 30, 1);
    BitAt(0x2bc830a3, 30, 1);
  }

  // ---- encoding ----

  predicate Encodable(hrp: string, data: seq<nat>) {
    && Readable(hrp)
    && !HasUpper(hrp)
    && |hrp| + 7 + |data| <= 90
    && Digits(data, 32)
  }

  /** The text for a human-readable part and data. */
  function Encoded(hrp: string, data: seq<nat>, enc: Encoding): string
    requires Digits(data, 32)
  {
    ChecksumVerifies(hrp, data, enc);
    hrp + "1" + Chars(data + Checksum(hrp, data, enc))
  }

  lemma FeedMore(symbols: seq<nat>, v: nat)
    ensures Feed(FeedAll(Start(), symbols), v) == FeedAll(Start(), symbols + [v])
  {
    assert (symbols + [v])[..|symbols|] == symbols;
  }

  lemma FeedNext(fed: seq<nat>, data: seq<nat>, i: nat)
    requires i < |data|
    ensures Feed(FeedAll(Start(), fed + data[..i]), data[i]) == FeedAll(Start(), fed + data[..i + 1])
  {
    FeedMore(fed + data[..i], data[i]);
    assert fed + data[..i] + [data[i]] == fed + data[..i + 1];
  }

  lemma CharsNext(data: seq<nat>, i: nat)
    requires i < |data| && Digits(data[..i], 32) && data[i] < 32
    ensures Digits(data[..i + 1], 32) && Chars(data[..i + 1]) == Chars(data[..i]) + [CharOf(data[i])]
  {}

  lemma FeedZero(chk: Register)
    ensures Feed(chk, 0) == PolymodStep(chk)
  {
    BitsOfZero(5);
    assert Padded(0) == Zeros(30);
    XorZeros(PolymodStep(chk));
  }

  /** The human-readable part is checked and its high bits are fed. */
  method FeedHighs(hrp: string) returns (r: Option<Register>)
    ensures r.Some? <==> Readable(hrp) && !HasUpper(hrp)
    ensures r.Some? ==> r.value == FeedAll(Start(), High(hrp))
  {
    var chk := Start();
    var i := 0;
    while i < |hrp|
      invariant i <= |hrp| && Readable(hrp[..i]) && !HasUpper(hrp[..i])
      invariant chk == FeedAll(Start(), High(hrp[..i]))
    {
      assert hrp[..i + 1] == hrp[..i] + [hrp[i]];
      if hrp[i] as nat < 33 || hrp[i] as nat > 126 || IsUpper(hrp[i]) {
        return None;
      }
      FeedMore(High(hrp[..i]), hrp[i] as nat / 32);
      assert High(hrp[..i + 1]) == High(hrp[..i]) + [hrp[i] as nat / 32];
      chk := Feed(chk, hrp[i] as nat / 32);
      i := i + 1;
    }
    assert hrp[..i] == hrp;
    return Some(chk);
  }

  /** The low bits of the human-readable part are fed while it is copied to the output. */
  method FeedLows(hrp: string, before: Register, ghost fed: seq<nat>) returns (chk: Register, out: string)
    requires before == FeedAll(Start(), fed)
    ensures chk == FeedAll(Start(), fed + Low(hrp)) && out == hrp
  {
    chk, out := before, "";
    var i := 0;
    assert fed + Low(hrp[..0]) == fed;
    while i < |hrp|
      invariant i <= |hrp| && out == hrp[..i]
      invariant chk == FeedAll(Start(), fed + Low(hrp[..i]))
    {
      assert Low(hrp[..i]) == Low(hrp)[..i];
      FeedNext(fed, Low(hrp), i);
      assert Low(hrp[..i + 1]) == Low(hrp)[..i + 1];
      chk := Feed(chk, hrp[i] as nat % 32);
      out := out + [hrp[i]];
      i := i + 1;
    }
    assert hrp[..i] == hrp;
  }

  /** The data is checked, fed and appended to the output. */
  method FeedData(data: seq<nat>, before: Register, ghost fed: seq<nat>) returns (r: Option<(Register, string)>)
    requires before == FeedAll(Start(), fed)
    ensures r.Some? <==> Digits(data, 32)
    ensures r.Some? ==> r.value.0 == FeedAll(Start(), fed + data) && r.value.1 == Chars(data)
  {
    var chk, out := before, "";
    var i := 0;
    assert fed + data[..0] == fed;
    while i < |data|
      invariant i <= |data| && Digits(data[..i], 32) && out == Chars(data[..i])
      invariant chk == FeedAll(Start(), fed + data[..i])
    {
      if data[i] / 32 != 0 {
        return None;
      }
      assert data[i] < 32;
      FeedNext(fed, data, i);
      CharsNext(data, i);
      chk := Feed(chk, data[i]);
      out := out + [CharOf(data[i])];
      i := i + 1;
    }
    assert data[..i] == data;
    return Some((chk, out));
  }

  /** Six steps without input make room for the checksum, which is read off the register. */
  method CreateChecksum(before: Register, enc: Encoding) returns (out: string)
    ensures var symbols := SymbolsOf(Xor(Repeat(PolymodStep, before, 6), Constant(enc)));
            Digits(symbols, 32) && out == Chars(symbols)
  {
    var chk := before;
    for i := 0 to 6
      invariant chk == Repeat(PolymodStep, before, i)
    {
      chk := PolymodStep(chk);
    }
    chk := Xor(chk, Constant(enc));
    out := WriteChecksum(chk);
  }

  method WriteChecksum(chk: Register) returns (out: string)
    ensures Digits(SymbolsOf(chk), 32) && out == Chars(SymbolsOf(chk))
  {
    ghost var symbols := SymbolsOf(chk);
    SymbolsOfBits(chk, 6);
    assert symbols[..6] == symbols;
    out := "";
    for i := 0 to 6
      invariant out == Chars(symbols[..i])
    {
      assert NumberOf(chk[5 * i..5 * i + 5]) == symbols[i];
      CharsNext(symbols, i);
      out := out + [CharOf(NumberOf(chk[5 * i..5 * i + 5]))];
    }
  }

  method Encode(hrp: string, data: seq<nat>, enc: Encoding) returns (r: Option<string>)
    ensures r.Some? <==> Encodable(hrp, data)
    ensures r.Some? ==> r.value == Encoded(hrp, data, enc)
  {
    var checked := FeedHighs(hrp);
    if checked.None? || |hrp| + 7 + |data| > 90 {
      return None;
    }
    FeedMore(High(hrp), 0);
    FeedZero(checked.value);
    var chk := PolymodStep(checked.value);
    var front, body;
    chk, front := FeedLows(hrp, chk, High(hrp) + [0]);
    body := FeedData(data, chk, Expand(hrp));
    if body.None? {
      return None;
    }
    var last := CreateChecksum(body.value.0, enc);
    return Some(front + "1" + body.value.1 + last);
  }
}
