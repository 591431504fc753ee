/** Decoding undoes encoding, encoding undoes decoding, and small changes are noticed. */
module Bech32RoundTrip {
  import opened Numerals
  import opened Bech32
  import opened Bech32Decode

  /** The shape of an encoded text. */
  lemma EncodedShape(hrp: string, all: seq<nat>)
    requires Readable(hrp) && !HasUpper(hrp) && Digits(all, 32)
    ensures var text := hrp + "1" + Chars(all);
            && SeparatedAt(text, |hrp|) && text[..|hrp|] == hrp && text[|hrp| + 1..] == Chars(all)
            && Lower(hrp) == hrp && !HasUpper(text) && AllSymbols(Chars(all)) && Symbols(Chars(all)) == all
  {
    var text := hrp + "1" + Chars(all);
    forall i | |hrp| < i < |text|
      ensures text[i] != '1' && !IsUpper(text[i])
    {
      SymbolOfChar(all[i - |hrp| - 1]);
    }
    SymbolsOfChars(all);
    assert Lower(hrp) == hrp;
    HasCase(text, |hrp|);
  }

  /** Encoded texts decode to what was encoded if, and only if, the human-readable part is not empty. */
  lemma RoundTrip(hrp: string, data: seq<nat>, enc: Encoding)
    requires Encodable(hrp, data)
    ensures hrp != "" ==> Decodes(Encoded(hrp, data, enc), Decoded(hrp, data, enc))
    ensures hrp == "" ==> forall d :: !Decodes(Encoded(hrp, data, enc), d)
  {
    ChecksumVerifies(hrp, data, enc);
    var all := data + Checksum(hrp, data, enc);
    var text := hrp + "1" + Chars(all);
    EncodedShape(hrp, all);
    if hrp == "" {
      Rejected(text, 0);
    } else {
      assert WellFormed(text, |hrp|);
      assert all[..|data|] == data;
      assert DecodesAt(text, |hrp|, Decoded(hrp, data, enc));
    }
  }

  /** The text in two parts around the separator. */
  lemma LowerParts(text: string, p: nat)
    requires p < |text| && text[p] == '1'
    ensures Lower(text) == Lower(text[..p]) + "1" + Lower(text[p + 1..])
  {}

  lemma LowerIsLower(s: string)
    requires Readable(s)
    ensures Readable(Lower(s)) && !HasUpper(Lower(s))
  {}

  /** What a text that decodes is made of. */
  lemma Anatomy(text: string, d: Decoded) returns (symbols: seq<nat>)
    requires Decodes(text, d)
    ensures |d.hrp| > 0 && Readable(d.hrp) && !HasUpper(d.hrp) && 6 <= |symbols| <= 89 - |d.hrp|
    ensures Digits(symbols, 32) && Lower(text) == d.hrp + "1" + Chars(symbols)
    ensures d.data == symbols[..|symbols| - 6] && Verifies(d.hrp, symbols, d.encoding)
  {
    var p: nat :| DecodesAt(text, p, d);
    symbols := Symbols(text[p + 1..]);
    CharsOfSymbols(text[p + 1..]);
    LowerParts(text, p);
    LowerIsLower(text[..p]);
  }

  /** Every text that decodes is, in lower case, the encoding of what it decodes to. */
  lemma DecodedEncodes(text: string, d: Decoded)
    requires Decodes(text, d)
    ensures d.hrp != "" && Encodable(d.hrp, d.data) && Encoded(d.hrp, d.data, d.encoding) == Lower(text)
  {
    var symbols := Anatomy(text, d);
    var last := symbols[|symbols| - 6..];
    assert symbols == d.data + last;
    ChecksumUnique(d.hrp, d.data, last, d.encoding);
  }

  lemma CharsInjective(s: seq<nat>, t: seq<nat>, j: nat)
    requires Digits(s, 32) && Digits(t, 32) && j < |s| == |t| && Chars(s)[j] == Chars(t)[j]
    ensures s[j] == t[j]
  {
    SymbolOfChar(s[j]);
    SymbolOfChar(t[j]);
  }

  /** Sequences that agree but for six elements in a row, cut around these. */
  lemma CutAround(s: seq<nat>, t: seq<nat>, k: int) returns (before: seq<nat>, x: seq<nat>, y: seq<nat>, after: seq<nat>)
    requires |s| == |t| && forall j :: 0 <= j < |s| && !(k <= j < k + 6) ==> s[j] == t[j]
    ensures s == before + x + after && t == before + y + after && |x| == |y| <= 6
  {
    var lo := if k < 0 then 0 else if k < |s| then k else |s|;
    var hi := if lo + 6 < |s| then lo + 6 else |s|;
    before, x, y, after := s[..lo], s[lo..hi], t[lo..hi], s[hi..];
  }

  /** Symbols that agree but for six in a row, and verify, agree. */
  lemma WindowDetected(hrp: string, s: seq<nat>, t: seq<nat>, k: int, enc: Encoding)
    requires |s| == |t| && Digits(s, 32) && Digits(t, 32) && Verifies(hrp, s, enc) && Verifies(hrp, t, enc)
    requires forall j :: 0 <= j < |s| && !(k <= j < k + 6) ==> s[j] == t[j]
    ensures s == t
  {
    var before, x, y, after := CutAround(s, t, k);
    DigitsWithin(before, x, after, 32);
    DigitsWithin(before, y, after, 32);
    BurstDetected(hrp, before, x, y, after, enc);
  }

  lemma DigitsWithin(before: seq<nat>, x: seq<nat>, after: seq<nat>, b: nat)
    requires Digits(before + x + after, b)
    ensures Digits(x, b)
  {
    assert x == (before + x + after)[|before|..|before| + |x|];
  }

  /**
   Two texts that decode, with one human-readable part, one length and one encoding, never differ within
   six consecutive characters only.
   */
  lemma TypoDetected(text: string, text': string, d: Decoded, d': Decoded, k: nat)
    requires Decodes(text, d) && Decodes(text', d') && d.hrp == d'.hrp && d.encoding == d'.encoding
    requires |text| == |text'|
    requires forall i :: 0 <= i < |text| && !(k <= i < k + 6) ==> Lower(text)[i] == Lower(text')[i]
    ensures Lower(text) == Lower(text')
  {
    var s := Anatomy(text, d);
    var t := Anatomy(text', d');
    SymbolsAgree(d.hrp + "1", Lower(text), Lower(text'), s, t, k);
    WindowDetected(d.hrp, s, t, k - |d.hrp| - 1, d.encoding);
  }

  /** Texts that agree but for six characters have symbols that do. */
  lemma SymbolsAgree(front: string, a: string, b: string, s: seq<nat>, t: seq<nat>, k: nat)
    requires Digits(s, 32) && Digits(t, 32) && a == front + Chars(s) && b == front + Chars(t) && |a| == |b|
    requires forall i :: 0 <= i < |a| && !(k <= i < k + 6) ==> a[i] == b[i]
    ensures |s| == |t|
    ensures forall j :: 0 <= j < |s| && !(k - |front| <= j < k - |front| + 6) ==> s[j] == t[j]
  {
    forall j | 0 <= j < |s| && !(k - |front| <= j < k - |front| + 6)
      ensures s[j] == t[j]
    {
      assert a[|front| + j] == Chars(s)[j] && b[|front| + j] == Chars(t)[j];
      CharsInjective(s, t, j);
    }
  }
}
