/** Segregated witness addresses (BIP 173, BIP 350): a version and a program as a Bech32 or Bech32m text. */
module SegwitAddress {
  import opened Wrappers
  import opened BitStrings
  import opened Numerals
  import opened ConvertBits
  import opened Polymod
  import opened Bech32
  import opened Bech32Decode
  import opened Bech32RoundTrip

  // ---- programs as symbols ----

  /** The bytes of a program, regrouped into symbols with fewer than five bits of padding. */
  ghost predicate Regroups(program: seq<nat>, symbols: seq<nat>) {
    && Digits(program, 256)
    && Digits(symbols, 32)
    && exists k: nat :: k < 5 && Stream(symbols, 5) == Stream(program, 8) + Zeros(k)
  }

  lemma Powers()
    ensures Pow(2, 5) == 32 && Pow(2, 8) == 256
  {
    assert Pow(2, 3) == 8;
    assert Pow(2, 6) == 64;
  }

  /** The padding makes a multiple of five. */
  lemma RegroupLengths(program: seq<nat>, symbols: seq<nat>, k: nat)
    requires k < 5 && Stream(symbols, 5) == Stream(program, 8) + Zeros(k)
    ensures 5 * |symbols| == 8 * |program| + k
  {
    StreamLength(symbols, 5);
    StreamLength(program, 8);
  }

  /** Regrouping determines the symbols. */
  lemma RegroupUnique(program: seq<nat>, s: seq<nat>, t: seq<nat>)
    requires Regroups(program, s) && Regroups(program, t)
    ensures s == t
  {
    var j: nat :| j < 5 && Stream(s, 5) == Stream(program, 8) + Zeros(j);
    var k: nat :| k < 5 && Stream(t, 5) == Stream(program, 8) + Zeros(k);
    RegroupLengths(program, s, j);
    RegroupLengths(program, t, k);
    Powers();
    StreamInjective(s, t, 5);
  }

  /** And it determines the program. */
  lemma RegroupInjective(p: seq<nat>, q: seq<nat>, symbols: seq<nat>)
    requires Regroups(p, symbols) && Regroups(q, symbols)
    ensures p == q
  {
    var j: nat :| j < 5 && Stream(symbols, 5) == Stream(p, 8) + Zeros(j);
    var k: nat :| k < 5 && Stream(symbols, 5) == Stream(q, 8) + Zeros(k);
    RegroupLengths(p, symbols, j);
    RegroupLengths(q, symbols, k);
    StreamLength(p, 8);
    StreamLength(q, 8);
    SplitEqual(Stream(p, 8), Zeros(j), Stream(q, 8), Zeros(k));
    Powers();
    StreamInjective(p, q, 8);
  }

  /** Symbols are a regrouped program exactly if conversion back succeeds. */
  lemma LeftoverRegroups(symbols: seq<nat>, program: seq<nat>)
    requires Regroups(program, symbols)
    ensures var rest := Leftover(symbols, 5, 8); |rest| < 5 && rest == Zeros(|rest|)
  {
    var k: nat :| k < 5 && Stream(symbols, 5) == Stream(program, 8) + Zeros(k);
    StreamLength(program, 8);
    TailOf(Stream(program, 8), Zeros(k), |program|, 8);
  }

  // ---- addresses ----

  predicate LengthAllowed(version: int, n: nat) {
    2 <= n <= 40 && (version == 0 ==> n == 20 || n == 32)
  }

  function EncodingFor(version: int): Encoding {
    if version > 0 then EncBech32m else EncBech32
  }

  /** Conversion to an unsigned byte. */
  function AsByte(version: int): nat {
    version % 256
  }

  lemma AsByteIdentity(version: int)
    requires 0 <= version <= 16
    ensures AsByte(version) == version
  {}

  /** A text that encodes a version and a program; the version is stored in a byte. */
  ghost predicate Encodes(text: string, hrp: string, version: int, program: seq<nat>) {
    && version <= 16
    && LengthAllowed(version, |program|)
    && exists symbols ::
      && Regroups(program, symbols)
      && Encodable(hrp, [AsByte(version)] + symbols)
      && text == Encoded(hrp, [AsByte(version)] + symbols, EncodingFor(version))
  }

  method Encode(hrp: string, version: int, program: seq<nat>) returns (r: Option<string>)
    requires Digits(program, 256)
    ensures r.Some? ==> Encodes(r.value, hrp, version, program)
    ensures r.None? ==> forall text :: !Encodes(text, hrp, version, program)
  {
    if version > 16 || !LengthAllowed(version, |program|) {
      return None;
    }
    Powers();
    var symbols := ConvertPadded(program, 8, 5);
    assert Regroups(program, symbols);
    r := Bech32.Encode(hrp, [AsByte(version)] + symbols, EncodingFor(version));
    if r.None? {
      forall text
        ensures !Encodes(text, hrp, version, program)
      {
        if Encodes(text, hrp, version, program) {
          var s :| Regroups(program, s) && Encodable(hrp, [AsByte(version)] + s);
          RegroupUnique(program, symbols, s);
        }
      }
    }
  }

  /** The address of a version and a program. */
  ghost predicate Addresses(text: string, hrp: string, version: int, program: seq<nat>) {
    && 0 <= version <= 16
    && LengthAllowed(version, |program|)
    && exists symbols ::
      && Regroups(program, symbols)
      && Decodes(text, Decoded(hrp, [version] + symbols, EncodingFor(version)))
  }

  /** The same of what a text decodes to. */
  ghost predicate Means(d: Decoded, hrp: string, version: int, program: seq<nat>) {
    && d.hrp == hrp
    && |d.data| > 0 && d.data[0] == version
    && 0 <= version <= 16
    && d.encoding == EncodingFor(version)
    && Regroups(program, d.data[1..])
    && LengthAllowed(version, |program|)
  }

  lemma AddressMeans(text: string, d: Decoded, hrp: string, version: int, program: seq<nat>)
    requires Decodes(text, d) && Addresses(text, hrp, version, program)
    ensures Means(d, hrp, version, program)
  {
    var symbols :| Regroups(program, symbols) && Decodes(text, Decoded(hrp, [version] + symbols, EncodingFor(version)));
    DecodingUnique(text, d, Decoded(hrp, [version] + symbols, EncodingFor(version)));
    assert d.data[1..] == symbols;
  }

  lemma MeansAddress(text: string, d: Decoded, hrp: string, version: int, program: seq<nat>)
    requires Decodes(text, d)
    ensures Addresses(text, hrp, version, program) <==> Means(d, hrp, version, program)
  {
    if Addresses(text, hrp, version, program) {
      AddressMeans(text, d, hrp, version, program);
    }
    if Means(d, hrp, version, program) {
      assert d == Decoded(hrp, [version] + d.data[1..], EncodingFor(version));
    }
  }

  /** A program of at most 40 bytes takes at most 64 symbols. */
  lemma FewSymbols(program: seq<nat>, symbols: seq<nat>)
    requires Regroups(program, symbols) && |program| <= 40
    ensures |symbols| <= 64
  {
    var k: nat :| k < 5 && Stream(symbols, 5) == Stream(program, 8) + Zeros(k);
    RegroupLengths(program, symbols, k);
  }

  /** The checks and the conversion after a text was decoded. */
  method Interpret(d: Decoded, hrp: string) returns (r: Option<(nat, seq<nat>)>)
    requires Digits(d.data, 32)
    ensures r.Some? ==> Means(d, hrp, r.value.0, r.value.1)
    ensures r.None? ==> forall v, p :: !Means(d, hrp, v, p)
  {
    if |d.data| == 0 || hrp != d.hrp || d.data[0] > 16 {
      return None;
    }
    if |d.data| > 65 {
      forall v, p | Means(d, hrp, v, p)
        ensures false
      {
        FewSymbols(p, d.data[1..]);
      }
      return None;
    }
    if (d.data[0] == 0 && d.encoding != EncBech32) || (d.data[0] > 0 && d.encoding != EncBech32m) {
      return None;
    }
    r := InterpretProgram(d.data[0], d.data[1..]);
  }

  method InterpretProgram(version: nat, symbols: seq<nat>) returns (r: Option<(nat, seq<nat>)>)
    requires Digits(symbols, 32)
    ensures r.Some? ==> r.value.0 == version && Regroups(r.value.1, symbols) && LengthAllowed(version, |r.value.1|)
    ensures r.None? ==> forall p :: !(Regroups(p, symbols) && LengthAllowed(version, |p|))
  {
    Powers();
    var program := ConvertExact(symbols, 5, 8);
    if program.None? {
      forall p | Regroups(p, symbols)
        ensures false
      {
        LeftoverRegroups(symbols, p);
      }
      return None;
    }
    assert Regroups(program.value, symbols);
    if !LengthAllowed(version, |program.value|) {
      forall p | Regroups(p, symbols)
        ensures p == program.value
      {
        RegroupInjective(p, program.value, symbols);
      }
      return None;
    }
    return Some((version, program.value));
  }

  method Decode(hrp: string, text: string) returns (r: Option<(nat, seq<nat>)>)
    ensures r.Some? ==> Addresses(text, hrp, r.value.0, r.value.1)
    ensures r.None? ==> forall v, p :: !Addresses(text, hrp, v, p)
  {
    var d := Bech32Decode.Decode(text);
    if d.None? {
      return None;
    }
    DecodedDigits(text, d.value);
    r := Interpret(d.value, hrp);
    forall v, p
      ensures Addresses(text, hrp, v, p) <==> Means(d.value, hrp, v, p)
    {
      MeansAddress(text, d.value, hrp, v, p);
    }
  }

  lemma DecodedDigits(text: string, d: Decoded)
    requires Decodes(text, d)
    ensures Digits(d.data, 32)
  {
    var symbols := Anatomy(text, d);
  }

  // ---- which constant ----

  /** The symbols of an address of version 0 bring the register to 1, and those of any other to 0x2bc830a3. */
  lemma AddressRegister(text: string, hrp: string, version: int, program: seq<nat>)
    requires Addresses(text, hrp, version, program)
    ensures exists p: nat ::
              && SeparatedAt(text, p) && AllSymbols(text[p + 1..])
              && FeedAll(Start(), Expand(hrp) + Symbols(text[p + 1..])) == BitsOf(if version == 0 then 1 else 0x2bc830a3, 30)
  {
    var symbols :| Regroups(program, symbols) && Decodes(text, Decoded(hrp, [version] + symbols, EncodingFor(version)));
    var p: nat :| DecodesAt(text, p, Decoded(hrp, [version] + symbols, EncodingFor(version)));
    assert SeparatedAt(text, p);
  }

  lemma EncodedReaches(hrp: string, data: seq<nat>, enc: Encoding) returns (symbols: seq<nat>)
    requires Digits(data, 32)
    ensures Digits(symbols, 32) && Encoded(hrp, data, enc) == hrp + "1" + Chars(symbols)
    ensures FeedAll(Start(), Expand(hrp) + symbols) == Constant(enc)
  {
    ChecksumVerifies(hrp, data, enc);
    symbols := data + Checksum(hrp, data, enc);
  }

  /** So do those of an encoded one. */
  lemma EncodedRegister(text: string, hrp: string, version: int, program: seq<nat>)
    requires Encodes(text, hrp, version, program)
    ensures exists symbols ::
              && Digits(symbols, 32) && text == hrp + "1" + Chars(symbols)
              && FeedAll(Start(), Expand(hrp) + symbols) == BitsOf(if version > 0 then 0x2bc830a3 else 1, 30)
  {
    var s :| Regroups(program, s) && Encodable(hrp, [AsByte(version)] + s)
             && text == Encoded(hrp, [AsByte(version)] + s, EncodingFor(version));
    var symbols := EncodedReaches(hrp, [AsByte(version)] + s, EncodingFor(version));
  }

  /** The versions, lengths of programs and lengths of texts that BIP 173 and BIP 141 allow. */
  lemma AddressBounds(text: string, hrp: string, version: int, program: seq<nat>)
    requires Addresses(text, hrp, version, program)
    ensures 0 <= version <= 16 && 2 <= |program| <= 40 && (version == 0 ==> |program| == 20 || |program| == 32)
    ensures |hrp| > 0 && |text| <= 90 && |text| == |hrp| + 8 + (8 * |program| + 4) / 5
  {
    var symbols :| Regroups(program, symbols) && Decodes(text, Decoded(hrp, [version] + symbols, EncodingFor(version)));
    var p: nat :| DecodesAt(text, p, Decoded(hrp, [version] + symbols, EncodingFor(version)));
    var k: nat :| k < 5 && Stream(symbols, 5) == Stream(program, 8) + Zeros(k);
    RegroupLengths(program, symbols, k);
    assert |[version] + symbols| == |text| - p - 7;
  }

  // ---- decoding undoes encoding ----

  /**
   An encoded address decodes to its version and program exactly if the human-readable part is not
   empty and the version is not negative.
   */
  lemma AddressRoundTrip(text: string, hrp: string, version: int, program: seq<nat>)
    requires Encodes(text, hrp, version, program)
    ensures Addresses(text, hrp, version, program) <==> hrp != "" && version >= 0
  {
    var symbols :| Regroups(program, symbols) && Encodable(hrp, [AsByte(version)] + symbols)
                   && text == Encoded(hrp, [AsByte(version)] + symbols, EncodingFor(version));
    RoundTrip(hrp, [AsByte(version)] + symbols, EncodingFor(version));
    if version >= 0 {
      AsByteIdentity(version);
    }
  }

  /** Every address is, in lower case, the encoding of its version and program. */
  lemma AddressEncodes(text: string, hrp: string, version: int, program: seq<nat>)
    requires Addresses(text, hrp, version, program)
    ensures hrp != "" && Encodes(Lower(text), hrp, version, program)
  {
    var symbols :| Regroups(program, symbols) && Decodes(text, Decoded(hrp, [version] + symbols, EncodingFor(version)));
    DecodedEncodes(text, Decoded(hrp, [version] + symbols, EncodingFor(version)));
    AsByteIdentity(version);
  }

  lemma AddressDecoding(text: string, hrp: string, version: int, program: seq<nat>) returns (d: Decoded)
    requires Addresses(text, hrp, version, program)
    ensures Decodes(text, d) && d.hrp == hrp && d.encoding == EncodingFor(version)
  {
    var symbols :| Regroups(program, symbols) && Decodes(text, Decoded(hrp, [version] + symbols, EncodingFor(version)));
    d := Decoded(hrp, [version] + symbols, EncodingFor(version));
  }

  /** A text is the address of at most one version and program. */
  lemma AddressUnique(text: string, hrp: string, v: int, p: seq<nat>, v': int, p': seq<nat>)
    requires Addresses(text, hrp, v, p) && Addresses(text, hrp, v', p')
    ensures v == v' && p == p'
  {
    var d := AddressDecoding(text, hrp, v, p);
    MeansAddress(text, d, hrp, v, p);
    MeansAddress(text, d, hrp, v', p');
    RegroupInjective(p, p', d.data[1..]);
  }

  /** Addresses of one length, both with version 0 or both without, never differ within six characters only. */
  lemma AddressTypo(text: string, text': string, hrp: string, v: int, p: seq<nat>, v': int, p': seq<nat>, k: nat)
    requires Addresses(text, hrp, v, p) && Addresses(text', hrp, v', p') && (v == 0 <==> v' == 0)
    requires |text| == |text'|
    requires forall i :: 0 <= i < |text| && !(k <= i < k + 6) ==> Lower(text)[i] == Lower(text')[i]
    ensures v == v' && p == p'
  {
    var d := AddressDecoding(text, hrp, v, p);
    var d' := AddressDecoding(text', hrp, v', p');
    TypoDetected(text, text', d, d', k);
    SameLower(text, text', hrp, v, p, v', p');
  }

  /** Case does not matter. */
  lemma SameLower(text: string, text': string, hrp: string, v: int, p: seq<nat>, v': int, p': seq<nat>)
    requires Addresses(text, hrp, v, p) && Addresses(text', hrp, v', p') && Lower(text) == Lower(text')
    ensures v == v' && p == p'
  {
    AddressEncodes(text, hrp, v, p);
    AddressEncodes(text', hrp, v', p');
    AddressRoundTrip(Lower(text), hrp, v, p);
    AddressRoundTrip(Lower(text), hrp, v', p');
    AddressUnique(Lower(text), hrp, v, p, v', p');
  }

  // ---- a negative version ----

  lemma {:induction false} BitsOfZero(k: nat)
    ensures BitsOf(0, k) == Zeros(k)
  {
    if k > 0 {
      BitsOfZero(k - 1);
    }
  }

  lemma {:induction false} StreamOfZeros(s: seq<nat>, k: nat)
    requires forall i :: 0 <= i < |s| ==> s[i] == 0
    ensures Stream(s, k) == Zeros(|s| * k)
    decreases |s|
  {
    if |s| > 0 {
      var last := |s| - 1;
      StreamOfZeros(s[..last], k);
      BitsOfZero(k);
      assert |s| * k == last * k + k;
      assert Zeros(last * k + k) == Zeros(last * k) + Zeros(k);
    }
  }

  /** Version -256 with a program of two zero bytes is encoded, with the byte 0, and cannot be read back. */
  lemma NegativeVersionEncoded(hrp: string, program: seq<nat>, symbols: seq<nat>, version: int)
    requires hrp == "bc" && program == [0, 0] && symbols == [0, 0, 0, 0] && version == -256
    ensures Digits([AsByte(version)] + symbols, 32)
    ensures var text := Encoded(hrp, [AsByte(version)] + symbols, EncodingFor(version));
            Encodes(text, hrp, version, program) && !Addresses(text, hrp, version, program)
  {
    StreamOfZeros(program, 8);
    StreamOfZeros(symbols, 5);
    var k: nat := 4;
    assert Zeros(20) == Zeros(16) + Zeros(k);
    assert Stream(symbols, 5) == Stream(program, 8) + Zeros(k);
    assert Regroups(program, symbols);
    assert Encodable(hrp, [AsByte(version)] + symbols);
  }
}
