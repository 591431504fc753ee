/** Display of OP_RETURN output scripts. */
module OpReturn {
  import opened Wrappers

  type byte = x: int | 0 <= x < 256

  const OP_PUSHDATA1: int := 0x4c
  const OP_PUSHDATA2: int := 0x4d
  const OP_PUSHDATA4: int := 0x4e
  const OP_1NEGATE: int := 0x4f
  const OP_RESERVED: int := 0x50
  const OP_1: int := 0x51
  const OP_16: int := 0x60
  const OP_RETURN: int := 0x6a

  const MAX_SCRIPT: nat := 83
  const MAX_PUSHES: nat := 5
  const OUT_SIZE: nat := 9 + 5 * 3 + 2 * 80 + 1

  // ---- what is displayed ----

  function HexChar(n: nat): char
    requires n < 16
  {
    if n < 10 then ('0' as nat + n) as char else ('a' as nat + n - 10) as char
  }

  function Hex(data: seq<byte>): (s: string)
    ensures |s| == 2 * |data|
  {
    if |data| == 0 then [] else Hex(data[..|data| - 1]) + [HexChar(data[|data| - 1] / 16), HexChar(data[|data| - 1] % 16)]
  }

  /** A number from 1 to 16 in decimal. */
  function SmallNumber(n: nat): string
    requires 1 <= n <= 16
  {
    if n >= 10 then ['1', ('0' as nat + n - 10) as char] else [('0' as nat + n) as char]
  }

  /** The data of a push, unless a shorter opcode exists for it. */
  function DataToken(data: seq<byte>): Option<string> {
    if |data| == 1 && (data[0] == 0x81 || 1 <= data[0] <= 16) then None else Some("0x" + Hex(data))
  }

  /** The text of the first push of a script and the number of bytes it takes. */
  function Token(s: seq<byte>): (r: Option<(string, nat)>)
    requires |s| > 0
    ensures r.Some? ==> 1 <= r.value.1 <= |s| && |r.value.0| <= 2 * r.value.1
  {
    var op := s[0];
    if op == 0 then Some(("0", 1))
    else if op <= 75 then Data(s, 1, op)
    else if op == OP_PUSHDATA1 then
      if |s| < 2 || s[1] <= 75 then None else Data(s, 2, s[1])
    else if op == OP_1NEGATE then Some(("-1", 1))
    else if OP_1 <= op <= OP_16 then Some((SmallNumber(op - 0x50), 1))
    else None
  }

  function Data(s: seq<byte>, offset: nat, length: nat): Option<(string, nat)>
    requires offset <= |s|
  {
    if offset + length > |s| then None
    else match DataToken(s[offset..offset + length])
      case None => None
      case Some(text) => Some((text, offset + length))
  }

  /** The texts of at most `budget` pushes that make up a script. */
  function Tokens(s: seq<byte>, budget: nat): Option<seq<string>> {
    if |s| == 0 then Some([])
    else if budget == 0 then None
    else match Token(s)
      case None => None
      case Some((text, n)) =>
        match Tokens(s[n..], budget - 1)
        case None => None
        case Some(rest) => Some([text] + rest)
  }

  /** Each token with a space in front. */
  function Spaced(tokens: seq<string>): string {
    if |tokens| == 0 then [] else [' '] + tokens[0] + Spaced(tokens[1..])
  }

  function Describe(s: seq<byte>): Option<string> {
    if |s| == 0 || s[0] != OP_RETURN || |s| > MAX_SCRIPT then None
    else match Tokens(s[1..], MAX_PUSHES)
      case None => None
      case Some(tokens) => Some("OP_RETURN" + Spaced(tokens))
  }

  // ---- the text determines the script ----

  function HexValue(c: char): nat {
    if '0' <= c <= '9' then c as nat - '0' as nat else if 'a' <= c <= 'f' then 10 + c as nat - 'a' as nat else 0
  }

  function Unhex(s: string): seq<byte> {
    if |s| < 2 then []
    else
      var k := |s| - 2;
      Unhex(s[..k]) + [(HexValue(s[k]) * 16 + HexValue(s[k + 1])) % 256]
  }

  lemma HexRoundTripOne(n: nat)
    requires n < 16
    ensures HexValue(HexChar(n)) == n && HexChar(n) != ' '
  {}

  lemma UnhexAppend(s: string, b: byte)
    ensures Unhex(s + [HexChar(b / 16), HexChar(b % 16)]) == Unhex(s) + [b]
  {
    var t := s + [HexChar(b / 16), HexChar(b % 16)];
    assert t[..|t| - 2] == s;
    HexRoundTripOne(b / 16);
    HexRoundTripOne(b % 16);
  }

  lemma {:induction false} UnhexHex(data: seq<byte>)
    ensures Unhex(Hex(data)) == data
    decreases |data|
  {
    if |data| > 0 {
      var last := |data| - 1;
      UnhexHex(data[..last]);
      UnhexAppend(Hex(data[..last]), data[last]);
      assert data == data[..last] + [data[last]];
    }
  }

  /** The shortest push of some data. */
  function PushOf(data: seq<byte>): seq<int> {
    (if |data| <= 75 then [|data|] else [OP_PUSHDATA1, |data|]) + data
  }

  /** The bytes of the push that a token stands for. */
  function Untoken(t: string): seq<int> {
    if t == "0" then [0]
    else if t == "-1" then [OP_1NEGATE]
    else if |t| >= 2 && t[1] == 'x' then
      PushOf(Unhex(t[2..]))
    else if |t| == 1 then [0x50 + HexValue(t[0])]
    else if |t| == 2 then [0x50 + 10 + HexValue(t[1])]
    else []
  }

  lemma UntokenData(data: seq<byte>)
    ensures Untoken("0x" + Hex(data)) == PushOf(data)
  {
    var t := "0x" + Hex(data);
    assert t[1] == 'x' && t[2..] == Hex(data);
    UnhexHex(data);
  }

  lemma UntokenSmall(n: nat)
    requires 1 <= n <= 16
    ensures Untoken(SmallNumber(n)) == [0x50 + n]
  {
    var t := SmallNumber(n);
    if n >= 10 {
      assert t[0] == '1' && t[1] == ('0' as nat + n - 10) as char;
    } else {
      assert t[0] == ('0' as nat + n) as char;
    }
  }

  lemma DirectPush(s: seq<byte>)
    requires |s| > 0 && 1 <= s[0] <= 75 && Token(s).Some?
    ensures Untoken(Token(s).value.0) == s[..Token(s).value.1]
  {
    var data := s[1..1 + s[0]];
    UntokenData(data);
    assert s[..1 + s[0]] == [s[0]] + data;
  }

  lemma LongPush(s: seq<byte>)
    requires |s| > 0 && s[0] == OP_PUSHDATA1 && Token(s).Some?
    ensures Untoken(Token(s).value.0) == s[..Token(s).value.1]
  {
    var data := s[2..2 + s[1]];
    UntokenData(data);
    assert s[..2 + s[1]] == [s[0], s[1]] + data;
  }

  lemma NumberPush(s: seq<byte>)
    requires |s| > 0 && (s[0] == 0 || s[0] >= OP_1NEGATE) && Token(s).Some?
    ensures Untoken(Token(s).value.0) == s[..Token(s).value.1]
  {
    assert s[..1] == [s[0]];
    if s[0] >= OP_1 {
      UntokenSmall(s[0] - 0x50);
    }
  }

  /** A token stands for the bytes it was made from. */
  lemma UntokenToken(s: seq<byte>)
    requires |s| > 0 && Token(s).Some?
    ensures Untoken(Token(s).value.0) == s[..Token(s).value.1]
  {
    if 1 <= s[0] <= 75 {
      DirectPush(s);
    } else if s[0] == OP_PUSHDATA1 {
      LongPush(s);
    } else {
      NumberPush(s);
    }
  }

  predicate NoSpace(t: string) {
    forall i :: 0 <= i < |t| ==> t[i] != ' '
  }

  lemma {:induction false} HexNoSpace(data: seq<byte>)
    ensures NoSpace(Hex(data))
    decreases |data|
  {
    if |data| > 0 {
      HexNoSpace(data[..|data| - 1]);
    }
  }

  lemma TokenNoSpace(s: seq<byte>)
    requires |s| > 0 && Token(s).Some?
    ensures NoSpace(Token(s).value.0)
  {
    var op := s[0];
    if 1 <= op <= 75 {
      HexNoSpace(s[1..1 + op]);
    } else if op == OP_PUSHDATA1 {
      HexNoSpace(s[2..2 + s[1]]);
    }
  }

  /** The position of the first space, or the length. */
  function SpaceAt(w: string): nat {
    if |w| == 0 || w[0] == ' ' then 0 else 1 + SpaceAt(w[1..])
  }

  lemma {:induction false} TokenEnds(t: string, a: string)
    requires NoSpace(t) && (|a| > 0 ==> a[0] == ' ')
    ensures SpaceAt(t + a) == |t|
    decreases |t|
  {
    if |t| > 0 {
      assert (t + a)[1..] == t[1..] + a;
      TokenEnds(t[1..], a);
    } else {
      assert t + a == a;
    }
  }

  /** What follows a token starts with a space or is empty, so the token ends there. */
  lemma SameToken(t: string, u: string, a: string, b: string)
    requires NoSpace(t) && NoSpace(u) && t + a == u + b
    requires (|a| > 0 ==> a[0] == ' ') && (|b| > 0 ==> b[0] == ' ')
    ensures t == u && a == b
  {
    TokenEnds(t, a);
    TokenEnds(u, b);
    var w := t + a;
    assert w[..|t|] == t && w[|t|..] == a;
    assert w[..|u|] == u && w[|u|..] == b;
  }

  /** The text of a script that is not empty: a space, the first token, and the rest. */
  lemma SpacedStep(s: seq<byte>, n: nat)
    requires |s| > 0 && Tokens(s, n).Some?
    ensures n > 0 && Token(s).Some? && NoSpace(Token(s).value.0)
    ensures var (t, k) := Token(s).value;
            && Tokens(s[k..], n - 1).Some?
            && var rest := Spaced(Tokens(s[k..], n - 1).value);
               (|rest| > 0 ==> rest[0] == ' ') && Spaced(Tokens(s, n).value)[1..] == t + rest
  {
    TokenNoSpace(s);
    var (t, k) := Token(s).value;
    var rest := Tokens(s[k..], n - 1).value;
    assert ([t] + rest)[1..] == rest;
    assert Spaced([t] + rest) == [' '] + (t + Spaced(rest));
  }

  /** Scripts whose pushes have the same spaced texts are the same. */
  lemma {:induction false} SpacedDetermines(s: seq<byte>, s': seq<byte>, n: nat, n': nat)
    requires Tokens(s, n).Some? && Tokens(s', n').Some?
    requires Spaced(Tokens(s, n).value) == Spaced(Tokens(s', n').value)
    ensures s == s'
    decreases n
  {
    if |s| > 0 && |s'| > 0 {
      SpacedStep(s, n);
      SpacedStep(s', n');
      var t, k, t', k' := Token(s).value.0, Token(s).value.1, Token(s').value.0, Token(s').value.1;
      SameToken(t, t', Spaced(Tokens(s[k..], n - 1).value), Spaced(Tokens(s'[k'..], n' - 1).value));
      SpacedDetermines(s[k..], s'[k'..], n - 1, n' - 1);
      SameScript(s, s');
    }
  }

  lemma SameScript(s: seq<byte>, s': seq<byte>)
    requires |s| > 0 && |s'| > 0 && Token(s).Some? && Token(s').Some? && Token(s).value.0 == Token(s').value.0
    requires s[Token(s).value.1..] == s'[Token(s').value.1..]
    ensures s == s'
  {
    UntokenToken(s);
    UntokenToken(s');
    var k, k' := Token(s).value.1, Token(s').value.1;
    assert s == s[..k] + s[k..] && s' == s'[..k'] + s'[k'..];
  }

  /** Two accepted scripts with the same text are the same script. */
  lemma TextDeterminesScript(s: seq<byte>, s': seq<byte>)
    requires Describe(s).Some? && Describe(s) == Describe(s')
    ensures s == s'
  {
    var ts, ts' := Tokens(s[1..], MAX_PUSHES).value, Tokens(s'[1..], MAX_PUSHES).value;
    assert ("OP_RETURN" + Spaced(ts))[9..] == Spaced(ts);
    assert ("OP_RETURN" + Spaced(ts'))[9..] == Spaced(ts');
    SpacedDetermines(s[1..], s'[1..], MAX_PUSHES, MAX_PUSHES);
    assert s == [OP_RETURN] + s[1..] && s' == [OP_RETURN] + s'[1..];
  }

  // ---- the printer ----

  method WriteHex(data: seq<byte>, out: array<char>, ctr: nat) returns (end: nat)
    requires ctr + 2 * |data| <= out.Length
    modifies out
    ensures end == ctr + 2 * |data|
    ensures out[..end] == old(out[..ctr]) + Hex(data)
  {
    end := ctr;
    for i := 0 to |data|
      invariant end == ctr + 2 * i
      invariant out[..end] == old(out[..ctr]) + Hex(data[..i])
    {
      ghost var before := out[..end];
      out[end] := HexChar(data[i] / 16);
      out[end + 1] := HexChar(data[i] % 16);
      end := end + 2;
      assert data[..i + 1][..i] == data[..i];
      assert out[..end] == before + [HexChar(data[i] / 16), HexChar(data[i] % 16)];
    }
    assert data[..|data|] == data;
  }

  /** Writes the data of a push; fails when it is cut off or has a shorter opcode. */
  method WriteData(s: seq<byte>, offset: nat, length: nat, out: array<char>, ctr: nat) returns (n: nat, end: nat)
    requires 0 < offset <= |s| && length > 0 && ctr + 2 * |s| <= out.Length
    modifies out
    ensures match Data(s, offset, length)
            case None => n == 0
            case Some((text, k)) => n == k && end == ctr + |text| <= out.Length && out[..end] == old(out[..ctr]) + text
  {
    n, end := 0, ctr;
    if offset + length > |s| {
      return;
    }
    var data := s[offset..offset + length];
    if length == 1 {
      if data[0] == 0x81 || (1 <= data[0] && data[0] <= 16) {
        return;
      }
    }
    ghost var before := out[..ctr];
    out[end] := '0';
    out[end + 1] := 'x';
    assert out[..ctr + 2] == before + "0x";
    end := WriteHex(data, out, end + 2);
    assert before + "0x" + Hex(data) == before + ("0x" + Hex(data));
    n := offset + length;
  }

  /** Writes the text of the first push; returns the bytes consumed, 0 on failure. */
  method WriteToken(s: seq<byte>, out: array<char>, ctr: nat) returns (n: nat, end: nat)
    requires |s| > 0 && ctr + 2 * |s| <= out.Length
    modifies out
    ensures match Token(s)
            case None => n == 0
            case Some((text, k)) => n == k && end == ctr + |text| <= out.Length && out[..end] == old(out[..ctr]) + text
  {
    n, end := 0, ctr;
    ghost var before := out[..ctr];
    var op := s[0];
    if op > OP_16 || op == OP_RESERVED || op == OP_PUSHDATA2 || op == OP_PUSHDATA4 {
      return;
    }
    if op == 0 {
      out[end] := '0';
      n, end := 1, end + 1;
      assert out[..end] == before + "0";
    } else if op <= 75 {
      n, end := WriteData(s, 1, op, out, ctr);
    } else if op == OP_PUSHDATA1 {
      if |s| < 2 || s[1] <= 75 {
        return;
      }
      n, end := WriteData(s, 2, s[1], out, ctr);
    } else if op == OP_1NEGATE {
      out[end] := '-';
      out[end + 1] := '1';
      n, end := 1, end + 2;
      assert out[..end] == before + "-1";
    } else {
      var num := op - 0x50;
      if num >= 10 {
        out[end] := '1';
        num := num - 10;
        end := end + 1;
      }
      out[end] := ('0' as nat + num) as char;
      n, end := 1, end + 1;
      assert out[..end] == before + SmallNumber(op - 0x50);
    }
  }

  lemma {:induction false} SpacedAppend(ts: seq<string>, t: string)
    ensures Spaced(ts + [t]) == Spaced(ts) + [' '] + t
    decreases |ts|
  {
    if |ts| > 0 {
      assert (ts + [t])[1..] == ts[1..] + [t];
      SpacedAppend(ts[1..], t);
    }
  }

  /** The text so far, with the space that the next token follows. */
  function Written(done: seq<string>): string {
    "OP_RETURN" + Spaced(done) + [' ']
  }

  /** Appending a token and a space to the text so far. */
  lemma SpacedText(done: seq<string>, t: string)
    ensures Written(done) + t + [' '] == Written(done + [t])
  {
    SpacedAppend(done, t);
    Regroup("OP_RETURN", Spaced(done), [' '], t);
  }

  lemma Regroup(a: string, b: string, c: string, d: string)
    ensures a + b + c + d == a + (b + c + d)
  {}

  method WriteSpace(out: array<char>, ctr: nat)
    requires ctr < out.Length
    modifies out
    ensures out[..ctr + 1] == old(out[..ctr]) + [' ']
  {
    out[ctr] := ' ';
  }

  /** The tokens of a script, once some of them are done. */
  ghost function AllTokens(done: seq<string>, rest: seq<byte>, budget: nat): Option<seq<string>> {
    match Tokens(rest, budget)
    case None => None
    case Some(ts) => Some(done + ts)
  }

  lemma AllTokensStep(done: seq<string>, rest: seq<byte>, budget: nat)
    requires |rest| > 0 && budget > 0
    ensures AllTokens(done, rest, budget)
            == match Token(rest)
               case None => None
               case Some((t, k)) => AllTokens(done + [t], rest[k..], budget - 1)
  {
    match Token(rest)
    case None =>
    case Some((t, k)) =>
      match Tokens(rest[k..], budget - 1)
      case None =>
      case Some(ts) => assert done + ([t] + ts) == done + [t] + ts;
  }

  /** Writes the first token and a space after it; returns the bytes consumed, 0 on failure. */
  method WriteNext(s: seq<byte>, out: array<char>, ctr: nat, ghost done: seq<string>) returns (n: nat, end: nat)
    requires |s| > 0 && ctr + 2 * |s| + 1 <= out.Length && out[..ctr] == Written(done)
    modifies out
    ensures match Token(s)
            case None => n == 0
            case Some((t, k)) => n == k && end <= ctr + 2 * n + 1 && end <= out.Length && out[..end] == Written(done + [t])
  {
    n, end := WriteToken(s, out, ctr);
    if n == 0 {
      return;
    }
    SpacedText(done, Token(s).value.0);
    WriteSpace(out, end);
    end := end + 1;
  }

  /** Writes the tokens one by one until the script or the budget is used up. */
  method WriteTokens(script: seq<byte>, out: array<char>) returns (ok: bool, ctr: nat)
    requires 1 < |script| <= MAX_SCRIPT && out.Length == OUT_SIZE && out[..10] == Written([])
    modifies out
    ensures ok <==> Tokens(script[1..], MAX_PUSHES).Some?
    ensures ok ==> 10 <= ctr <= OUT_SIZE && out[..ctr] == Written(Tokens(script[1..], MAX_PUSHES).value)
  {
    ctr := 10;
    var offset: nat, pushes: nat := 1, 0;
    ghost var done: seq<string> := [];
    ghost var all := Tokens(script[1..], MAX_PUSHES);
    if all.Some? {
      assert [] + all.value == all.value;
    }
    while offset < |script| && pushes < MAX_PUSHES
      invariant 1 <= offset <= |script| && pushes <= MAX_PUSHES
      invariant ctr <= 10 + 2 * (offset - 1) + pushes
      invariant out[..ctr] == Written(done)
      invariant all == AllTokens(done, script[offset..], MAX_PUSHES - pushes)
      decreases |script| - offset
    {
      ghost var rest := script[offset..];
      AllTokensStep(done, rest, MAX_PUSHES - pushes);
      var n, end := WriteNext(script[offset..], out, ctr, done);
      if n == 0 {
        return false, ctr;
      }
      assert rest[n..] == script[offset + n..];
      done := done + [Token(rest).value.0];
      ctr, offset, pushes := end, offset + n, pushes + 1;
    }
    ok := offset == |script|;
    if ok {
      assert done + [] == done;
    }
  }

  /**
   Formats a script into `out` and returns the length of the text with its terminator, or -1.
   No write goes past the end of `out`, whatever the script.
   */
  method Format(script: seq<byte>, out: array<char>) returns (r: int)
    requires out.Length == OUT_SIZE
    modifies out
    ensures match Describe(script)
            case None => r == -1
            case Some(text) => r == |text| + 1 <= OUT_SIZE && out[..r - 1] == text && out[r - 1] == 0 as char
  {
    if |script| == 0 || script[0] != OP_RETURN {
      return -1;
    }
    if |script| > MAX_SCRIPT {
      return -1;
    }
    var prefix := "OP_RETURN ";
    for i := 0 to OUT_SIZE
      invariant forall k :: 0 <= k < i ==> out[k] == if k < 10 then prefix[k] else 0 as char
    {
      out[i] := if i < 10 then prefix[i] else 0 as char;
    }
    assert out[..10] == prefix == Written([]);
    if |script| == 1 {
      out[9] := 0 as char;
      assert out[..9] == "OP_RETURN" + Spaced([]);
      return 10;
    }
    var ok, ctr := WriteTokens(script, out);
    if !ok {
      return -1;
    }
    ghost var text := "OP_RETURN" + Spaced(Tokens(script[1..], MAX_PUSHES).value);
    ghost var written := out[..ctr];
    out[ctr - 1] := 0 as char;
    assert out[..ctr - 1] == written[..ctr - 1] == text;
    return ctr;
  }
}
