/** Decoding of Bech32 and Bech32m texts, and how it relates to encoding. */
module Bech32Decode {
  import opened Wrappers
  import opened Polymod
  import opened Bech32

  datatype Decoded = Decoded(hrp: string, data: seq<nat>, encoding: Encoding)

  // ---- what a text means ----

  /** The last '1' stands at p. */
  ghost predicate SeparatedAt(text: string, p: nat) {
    p < |text| && text[p] == '1' && forall i :: p < i < |text| ==> text[i] != '1'
  }

  /** Everything a text needs but a good checksum. */
  ghost predicate WellFormed(text: string, p: nat) {
    && SeparatedAt(text, p)
    && 8 <= |text| <= 90
    && 1 <= p <= |text| - 7
    && Readable(text[..p])
    && AllSymbols(text[p + 1..])
    && !(HasLower(text) && HasUpper(text))
  }

  ghost predicate DecodesAt(text: string, p: nat, d: Decoded) {
    && WellFormed(text, p)
    && d.hrp == Lower(text[..p])
    && d.data == Symbols(text[p + 1..])[..|text| - p - 7]
    && Verifies(d.hrp, Symbols(text[p + 1..]), d.encoding)
  }

  ghost predicate Decodes(text: string, d: Decoded) {
    exists p: nat :: DecodesAt(text, p, d)
  }

  lemma SeparatorUnique(text: string, p: nat, q: nat)
    requires SeparatedAt(text, p) && SeparatedAt(text, q)
    ensures p == q
  {}

  lemma EncodingUnique(hrp: string, symbols: seq<nat>, enc: Encoding, enc': Encoding)
    requires Verifies(hrp, symbols, enc) && Verifies(hrp, symbols, enc')
    ensures enc == enc'
  {
    ConstantsDiffer();
  }

  /** A text has at most one meaning. */
  lemma DecodingUnique(text: string, d: Decoded, e: Decoded)
    requires Decodes(text, d) && Decodes(text, e)
    ensures d == e
  {
    var p: nat :| DecodesAt(text, p, d);
    var q: nat :| DecodesAt(text, q, e);
    SeparatorUnique(text, p, q);
    UniqueAt(text, p, d, e);
  }

  lemma UniqueAt(text: string, p: nat, d: Decoded, e: Decoded)
    requires DecodesAt(text, p, d) && DecodesAt(text, p, e)
    ensures d == e
  {
    EncodingUnique(d.hrp, Symbols(text[p + 1..]), d.encoding, e.encoding);
  }

  // ---- decoding ----

  /** Counts the characters behind the last '1', all of them if there is none. */
  method FindSeparator(text: string) returns (n: nat)
    ensures n <= |text| && forall i :: |text| - n <= i < |text| ==> text[i] != '1'
    ensures n < |text| ==> SeparatedAt(text, |text| - 1 - n)
  {
    n := 0;
    while n < |text| && text[|text| - 1 - n] != '1'
      invariant n <= |text| && forall i :: |text| - n <= i < |text| ==> text[i] != '1'
    {
      n := n + 1;
    }
  }

  lemma CaseNext(s: string, i: nat)
    requires i < |s|
    ensures HasLower(s[..i + 1]) <==> HasLower(s[..i]) || IsLower(s[i])
    ensures HasUpper(s[..i + 1]) <==> HasUpper(s[..i]) || IsUpper(s[i])
  {
    assert s[..i + 1][i] == s[i];
    assert forall j :: 0 <= j < i ==> s[..i + 1][j] == s[..i][j];
  }

  lemma HighNext(text: string, i: nat)
    requires i < |text|
    ensures Lower(text[..i + 1]) == Lower(text[..i]) + [LowerChar(text[i])]
    ensures High(Lower(text[..i + 1])) == High(Lower(text[..i])) + [LowerChar(text[i]) as nat / 32]
  {}

  /** Letters of either case have the same low bits. */
  lemma LowOfLower(s: string)
    ensures Low(Lower(s)) == Low(s)
  {}

  /** Checks the human-readable part, puts it in lower case and feeds its high bits. */
  method DecodeHighs(text: string, p: nat) returns (ok: bool, hrp: string, chk: Register, lower: bool, upper: bool)
    requires p <= |text|
    ensures ok <==> Readable(text[..p])
    ensures ok ==> hrp == Lower(text[..p]) && chk == FeedAll(Start(), High(hrp))
    ensures ok ==> lower == HasLower(text[..p]) && upper == HasUpper(text[..p])
  {
    ok, hrp, chk, lower, upper := true, "", Start(), false, false;
    var i := 0;
    while i < p
      invariant i <= p && Readable(text[..i])
      invariant hrp == Lower(text[..i]) && chk == FeedAll(Start(), High(Lower(text[..i])))
      invariant lower == HasLower(text[..i]) && upper == HasUpper(text[..i])
    {
      var ch := text[i];
      assert text[..i + 1] == text[..i] + [ch];
      if ch as nat < 33 || ch as nat > 126 {
        assert text[..p][i] == ch;
        return false, hrp, chk, lower, upper;
      }
      CaseNext(text, i);
      HighNext(text, i);
      FeedMore(High(hrp), LowerChar(ch) as nat / 32);
      if IsLower(ch) {
        lower := true;
      } else if IsUpper(ch) {
        upper := true;
        ch := LowerChar(ch);
      }
      hrp := hrp + [ch];
      chk := Feed(chk, ch as nat / 32);
      i := i + 1;
    }
  }

  /** Feeds the low bits of the human-readable part as it stands in the text. */
  method DecodeLows(text: string, p: nat, before: Register, ghost fed: seq<nat>) returns (chk: Register)
    requires p <= |text| && before == FeedAll(Start(), fed)
    ensures chk == FeedAll(Start(), fed + Low(text[..p]))
  {
    chk := before;
    var i := 0;
    assert fed + Low(text)[..0] == fed;
    while i < p
      invariant i <= p && chk == FeedAll(Start(), fed + Low(text)[..i])
    {
      FeedNext(fed, Low(text), i);
      chk := Feed(chk, text[i] as nat % 32);
      i := i + 1;
    }
    assert Low(text)[..p] == Low(text[..p]);
  }

  /** Both passes over the human-readable part, with the separating step between them. */
  method DecodeHrp(text: string, p: nat) returns (ok: bool, hrp: string, chk: Register, lower: bool, upper: bool)
    requires p <= |text|
    ensures ok <==> Readable(text[..p])
    ensures ok ==> hrp == Lower(text[..p]) && chk == FeedAll(Start(), Expand(hrp))
    ensures ok ==> lower == HasLower(text[..p]) && upper == HasUpper(text[..p])
  {
    ok, hrp, chk, lower, upper := DecodeHighs(text, p);
    if ok {
      FeedMore(High(hrp), 0);
      FeedZero(chk);
      chk := PolymodStep(chk);
      chk := DecodeLows(text, p, chk, High(hrp) + [0]);
      LowOfLower(text[..p]);
    }
  }

  /** The first k symbols were taken in and, of them, those before keep were kept. */
  ghost predicate Taken(tail: string, k: nat, keep: nat, fed: seq<nat>, chk: Register, data: seq<nat>) {
    && k <= |tail|
    && AllSymbols(tail[..k])
    && chk == FeedAll(Start(), fed + Symbols(tail[..k]))
    && data == Symbols(tail[..k])[..if k < keep then k else keep]
  }

  lemma TakeNone(tail: string, keep: nat, fed: seq<nat>)
    requires keep <= |tail|
    ensures Taken(tail, 0, keep, fed, FeedAll(Start(), fed), [])
  {
    assert fed + Symbols(tail[..0]) == fed;
  }

  lemma SymbolsNext(s: string, k: nat)
    requires k < |s| && AllSymbols(s[..k]) && SymbolOf(s[k]).Some?
    ensures AllSymbols(s[..k + 1]) && Symbols(s[..k + 1]) == Symbols(s[..k]) + [SymbolOf(s[k]).value]
  {
    assert s[..k + 1] == s[..k] + [s[k]];
  }

  lemma TakeNext(tail: string, k: nat, keep: nat, fed: seq<nat>, chk: Register, data: seq<nat>)
    requires k < |tail| && keep <= |tail| && Taken(tail, k, keep, fed, chk, data) && SymbolOf(tail[k]).Some?
    ensures var v := SymbolOf(tail[k]).value;
            Taken(tail, k + 1, keep, fed, Feed(chk, v), if k < keep then data + [v] else data)
  {
    var v := SymbolOf(tail[k]).value;
    SymbolsNext(tail, k);
    FeedMore(fed + Symbols(tail[..k]), v);
    assert fed + Symbols(tail[..k]) + [v] == fed + Symbols(tail[..k + 1]);
  }

  lemma TookAll(tail: string, keep: nat, fed: seq<nat>, chk: Register, data: seq<nat>)
    requires keep <= |tail| && Taken(tail, |tail|, keep, fed, chk, data)
    ensures AllSymbols(tail) && chk == FeedAll(Start(), fed + Symbols(tail)) && data == Symbols(tail)[..keep]
  {
    assert tail[..|tail|] == tail;
  }

  /** Takes in one character, and keeps its symbol if it is data. */
  method TakeSymbol(ghost tail: string, ghost k: nat, ghost keep: nat, ghost fed: seq<nat>,
                    ch: char, isData: bool, chk0: Register, data0: seq<nat>)
    returns (ok: bool, chk: Register, data: seq<nat>)
    requires k < |tail| && keep <= |tail| && Taken(tail, k, keep, fed, chk0, data0)
    requires ch == tail[k] && isData == (k < keep)
    ensures if ok then Taken(tail, k + 1, keep, fed, chk, data) else !AllSymbols(tail)
  {
    var v := SymbolOf(ch);
    if v.None? {
      return false, chk0, data0;
    }
    TakeNext(tail, k, keep, fed, chk0, data0);
    return true, Feed(chk0, v.value), if isData then data0 + [v.value] else data0;
  }

  /** The characters after the separator: checked, fed, and all but the last six kept. */
  method DecodeSymbols(tail: string, before: Register, ghost fed: seq<nat>, lower0: bool, upper0: bool)
    returns (ok: bool, data: seq<nat>, chk: Register, lower: bool, upper: bool)
    requires |tail| >= 6 && before == FeedAll(Start(), fed)
    ensures if ok then Taken(tail, |tail|, |tail| - 6, fed, chk, data) else !AllSymbols(tail)
    ensures ok ==> lower == (lower0 || HasLower(tail)) && upper == (upper0 || HasUpper(tail))
  {
    data, chk, lower, upper := [], before, lower0, upper0;
    TakeNone(tail, |tail| - 6, fed);
    var i := 0;
    while i < |tail|
      invariant i <= |tail| && Taken(tail, i, |tail| - 6, fed, chk, data)
      invariant lower == (lower0 || HasLower(tail[..i])) && upper == (upper0 || HasUpper(tail[..i]))
    {
      ok, chk, data := TakeSymbol(tail, i, |tail| - 6, fed, tail[i], i + 6 < |tail|, chk, data);
      if !ok {
        return;
      }
      CaseNext(tail, i);
      lower, upper := lower || IsLower(tail[i]), upper || IsUpper(tail[i]);
      i := i + 1;
    }
    assert tail[..|tail|] == tail;
    ok := true;
  }

  /** Why a text is rejected. */
  ghost predicate Faulty(text: string, p: nat) {
    WellFormed(text, p) ==>
      && !Verifies(Lower(text[..p]), Symbols(text[p + 1..]), EncBech32)
      && !Verifies(Lower(text[..p]), Symbols(text[p + 1..]), EncBech32m)
  }

  lemma FaultyAt(text: string, p: nat, d: Decoded)
    requires Faulty(text, p)
    ensures !DecodesAt(text, p, d)
  {
    match d.encoding
    case EncBech32 =>
    case EncBech32m =>
  }

  lemma Rejected(text: string, p: nat)
    requires SeparatedAt(text, p) && Faulty(text, p)
    ensures forall d :: !Decodes(text, d)
  {
    forall d
      ensures !Decodes(text, d)
    {
      forall q: nat
        ensures !DecodesAt(text, q, d)
      {
        if SeparatedAt(text, q) {
          SeparatorUnique(text, p, q);
          FaultyAt(text, p, d);
        }
      }
    }
  }

  lemma HasCase(text: string, p: nat)
    requires p < |text| && text[p] == '1'
    ensures HasLower(text) <==> HasLower(text[..p]) || HasLower(text[p + 1..])
    ensures HasUpper(text) <==> HasUpper(text[..p]) || HasUpper(text[p + 1..])
  {
    assert forall i :: 0 <= i < p ==> text[..p][i] == text[i];
    forall i | p < i < |text|
      ensures text[i] == text[p + 1..][i - p - 1]
    {}
  }

  /** What is left to check once the characters were read. */
  lemma FormedByCase(text: string, p: nat, lower: bool, upper: bool)
    requires SeparatedAt(text, p) && 8 <= |text| <= 90 && 1 <= p <= |text| - 7
    requires Readable(text[..p]) && AllSymbols(text[p + 1..])
    requires lower == (HasLower(text[..p]) || HasLower(text[p + 1..]))
    requires upper == (HasUpper(text[..p]) || HasUpper(text[p + 1..]))
    ensures WellFormed(text, p) <==> !(lower && upper)
  {
    HasCase(text, p);
  }

  method Decode(text: string) returns (r: Option<Decoded>)
    ensures r.Some? ==> Decodes(text, r.value)
    ensures r.None? ==> forall d :: !Decodes(text, d)
  {
    if |text| < 8 || |text| > 90 {
      return None;
    }
    var n := FindSeparator(text);
    if 1 + n >= |text| || n < 6 {
      return None;
    }
    r := DecodeAt(text, |text| - (1 + n));
  }

  method DecodeAt(text: string, p: nat) returns (r: Option<Decoded>)
    requires SeparatedAt(text, p) && 8 <= |text| <= 90 && 1 <= p <= |text| - 7
    ensures r.Some? ==> Decodes(text, r.value)
    ensures r.None? ==> forall d :: !Decodes(text, d)
  {
    var ok, hrp, chk, lower, upper := DecodeHrp(text, p);
    if !ok {
      Rejected(text, p);
      return None;
    }
    var data;
    ok, data, chk, lower, upper := DecodeSymbols(text[p + 1..], chk, Expand(hrp), lower, upper);
    if !ok {
      Rejected(text, p);
      return None;
    }
    TookAll(text[p + 1..], |text| - p - 7, Expand(hrp), chk, data);
    FormedByCase(text, p, lower, upper);
    if lower && upper {
      Rejected(text, p);
      return None;
    }
    var enc := Conclude(chk);
    if enc.None? {
      NeitherEncoding(text, p, chk);
      return None;
    }
    r := Some(Decoded(hrp, data, enc.value));
    DecodesWith(text, p, r.value);
  }

  lemma DecodesWith(text: string, p: nat, d: Decoded)
    requires WellFormed(text, p) && d.hrp == Lower(text[..p]) && d.data == Symbols(text[p + 1..])[..|text| - p - 7]
    requires FeedAll(Start(), Expand(d.hrp) + Symbols(text[p + 1..])) == Constant(d.encoding)
    ensures Decodes(text, d)
  {
    assert DecodesAt(text, p, d);
  }

  lemma NeitherEncoding(text: string, p: nat, chk: Register)
    requires WellFormed(text, p) && chk == FeedAll(Start(), Expand(Lower(text[..p])) + Symbols(text[p + 1..]))
    requires forall enc :: chk != Constant(enc)
    ensures forall d :: !Decodes(text, d)
  {
    Rejected(text, p);
  }

  /** The encoding that the final register tells, if any. */
  method Conclude(chk: Register) returns (enc: Option<Encoding>)
    ensures enc.Some? ==> chk == Constant(enc.value)
    ensures enc.None? ==> forall e :: chk != Constant(e)
  {
    if chk == Constant(EncBech32) {
      enc := Some(EncBech32);
    } else if chk == Constant(EncBech32m) {
      enc := Some(EncBech32m);
    } else {
      enc := None;
    }
  }
}
