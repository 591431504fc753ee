/**
 Which OP_RETURN scripts are displayed, and how, in terms of the data that they push: exactly those made of
 at most five minimal pushes, with the text of each item.
 */
module OpReturnPushes {
  import opened Wrappers
  import opened OpReturn

  type Item = d: seq<byte> | |d| <= 255

  /** The number from -1 to 16, other than 0, that a single byte stands for on the stack. */
  predicate IsNumber(item: Item) {
    |item| == 1 && (item[0] == 0x81 || 1 <= item[0] <= 16)
  }

  /** The shortest bytes that push an item: an opcode of its own for the numbers, a length otherwise. */
  function Minimal(item: Item): (r: seq<byte>)
    ensures |r| > 0
  {
    if item == [] then [0]
    else if item == [0x81] then [0x4f]
    else if IsNumber(item) then [0x50 + item[0]]
    else if |item| < 76 then [|item|] + item
    else [0x4c, |item|] + item
  }

  /** Bytes in hexadecimal. */
  function HexText(data: seq<byte>): string {
    if |data| == 0 then "" else HexText(data[..|data| - 1]) + ["0123456789abcdef"[data[|data| - 1] / 16], "0123456789abcdef"[data[|data| - 1] % 16]]
  }

  function NumberText(n: nat): string
    requires 1 <= n <= 16
  {
    ["1", "2", "3", "4", "5", "6", "7", "8", "9", "10", "11", "12", "13", "14", "15", "16"][n - 1]
  }

  /** How an item is shown. */
  function Shown(item: Item): string {
    if item == [] then "0"
    else if item == [0x81] then "-1"
    else if IsNumber(item) then NumberText(item[0])
    else "0x" + HexText(item)
  }

  /** A script that pushes items. */
  function Pushes(items: seq<Item>): seq<byte> {
    if |items| == 0 then [] else Minimal(items[0]) + Pushes(items[1..])
  }

  function Texts(items: seq<Item>): (r: seq<string>)
    ensures |r| == |items|
    ensures forall i :: 0 <= i < |items| ==> r[i] == Shown(items[i])
  {
    seq(|items|, i requires 0 <= i < |items| => Shown(items[i]))
  }

  // ---- one push ----

  lemma {:induction false} HexIsText(data: seq<byte>)
    ensures Hex(data) == HexText(data)
    decreases |data|
  {
    if |data| > 0 {
      var b := data[|data| - 1];
      HexIsText(data[..|data| - 1]);
      assert HexChar(b / 16) == "0123456789abcdef"[b / 16] && HexChar(b % 16) == "0123456789abcdef"[b % 16];
    }
  }

  lemma SmallShown(n: nat)
    requires 1 <= n <= 16
    ensures SmallNumber(n) == NumberText(n)
  {}

  lemma DataShown(item: Item)
    requires item != []
    ensures DataToken(item) == if IsNumber(item) then None else Some(Shown(item))
  {
    HexIsText(item);
  }

  lemma DataIs(s: seq<byte>, offset: nat, item: Item)
    requires item != [] && !IsNumber(item) && offset + |item| <= |s| && s[offset..offset + |item|] == item
    ensures Data(s, offset, |item|) == Some((Shown(item), offset + |item|))
  {
    DataShown(item);
  }

  /** A push of data is displayed as its item, whatever follows. */
  lemma DirectToken(item: Item, rest: seq<byte>, s: seq<byte>)
    requires item != [] && !IsNumber(item) && |item| < 76 && s == [|item|] + item + rest
    ensures Token(s) == Some((Shown(item), 1 + |item|))
  {
    assert s[0] == |item| && s[1..1 + |item|] == item;
    DataIs(s, 1, item);
  }

  lemma LongToken(item: Item, rest: seq<byte>, s: seq<byte>)
    requires |item| >= 76 && s == [0x4c, |item|] + item + rest
    ensures Token(s) == Some((Shown(item), 2 + |item|))
  {
    assert s[0] == 0x4c && s[1] == |item| && s[2..2 + |item|] == item;
    DataIs(s, 2, item);
  }

  lemma NumberToken(item: Item, rest: seq<byte>, s: seq<byte>)
    requires IsNumber(item) && item[0] != 0x81 && s == [0x50 + item[0]] + rest
    ensures Token(s) == Some((Shown(item), 1))
  {
    SmallShown(item[0]);
  }

  lemma MinimalToken(item: Item, rest: seq<byte>)
    ensures Token(Minimal(item) + rest) == Some((Shown(item), |Minimal(item)|))
  {
    if item == [] || item == [0x81] {
    } else if IsNumber(item) {
      assert item == [item[0]];
      NumberToken(item, rest, Minimal(item) + rest);
    } else if |item| < 76 {
      DirectToken(item, rest, Minimal(item) + rest);
    } else {
      LongToken(item, rest, Minimal(item) + rest);
    }
  }

  /** What is displayed is a minimal push. */
  lemma DirectMinimal(s: seq<byte>, item: Item)
    requires |s| > 0 && 1 <= s[0] <= 75 && Token(s).Some? && item == s[1..1 + s[0]]
    ensures s[..Token(s).value.1] == Minimal(item)
  {
    DataShown(item);
    assert s[..1 + s[0]] == [s[0]] + item;
  }

  lemma LongMinimal(s: seq<byte>, item: Item)
    requires |s| > 0 && s[0] == OP_PUSHDATA1 && Token(s).Some? && item == s[2..2 + s[1]]
    ensures s[..Token(s).value.1] == Minimal(item)
  {
    assert s[..2 + s[1]] == [s[0], s[1]] + item;
  }

  lemma TokenMinimal(s: seq<byte>) returns (item: Item)
    requires |s| > 0 && Token(s).Some?
    ensures s[..Token(s).value.1] == Minimal(item)
  {
    if s[0] == 0 {
      item := [];
    } else if s[0] <= 75 {
      item := s[1..1 + s[0]];
      DirectMinimal(s, item);
    } else if s[0] == OP_PUSHDATA1 {
      item := s[2..2 + s[1]];
      LongMinimal(s, item);
    } else if s[0] == OP_1NEGATE {
      item := [0x81];
    } else {
      item := [s[0] - 0x50];
    }
  }

  // ---- scripts ----

  lemma TokensNext(head: seq<byte>, rest: seq<byte>, text: string, budget: nat)
    requires |head| > 0 && budget > 0 && Token(head + rest) == Some((text, |head|))
    ensures Tokens(head + rest, budget)
            == match Tokens(rest, budget - 1) case None => None case Some(texts) => Some([text] + texts)
  {
    assert (head + rest)[|head|..] == rest;
  }

  lemma PushesCons(item: Item, items: seq<Item>)
    ensures Pushes([item] + items) == Minimal(item) + Pushes(items)
  {
    assert ([item] + items)[1..] == items;
  }

  lemma TextsCons(item: Item, items: seq<Item>)
    ensures Texts([item] + items) == [Shown(item)] + Texts(items)
  {}

  lemma ConsTokens(item: Item, items: seq<Item>, budget: nat)
    requires budget > 0 && Tokens(Pushes(items), budget - 1) == Some(Texts(items))
    ensures Tokens(Pushes([item] + items), budget) == Some(Texts([item] + items))
  {
    PushesCons(item, items);
    TextsCons(item, items);
    MinimalToken(item, Pushes(items));
    TokensNext(Minimal(item), Pushes(items), Shown(item), budget);
  }

  lemma {:induction false} PushesTokens(items: seq<Item>, budget: nat)
    requires |items| <= budget
    ensures Tokens(Pushes(items), budget) == Some(Texts(items))
    decreases |items|
  {
    if |items| > 0 {
      PushesTokens(items[1..], budget - 1);
      ConsTokens(items[0], items[1..], budget);
      assert items == [items[0]] + items[1..];
    } else {
      assert Texts(items) == [];
    }
  }

  lemma FirstToken(s: seq<byte>, budget: nat) returns (item: Item, rest: seq<byte>)
    requires |s| > 0 && Tokens(s, budget).Some?
    ensures budget > 0 && s == Minimal(item) + rest && Tokens(rest, budget - 1).Some?
  {
    var n := Token(s).value.1;
    item := TokenMinimal(s);
    rest := s[n..];
    assert s == s[..n] + s[n..];
  }

  lemma {:induction false} TokensPushes(s: seq<byte>, budget: nat) returns (items: seq<Item>)
    requires Tokens(s, budget).Some?
    ensures |items| <= budget && s == Pushes(items)
    decreases budget
  {
    if |s| == 0 {
      items := [];
    } else {
      var item, rest := FirstToken(s, budget);
      var more := TokensPushes(rest, budget - 1);
      items := [item] + more;
      PushesCons(item, more);
    }
  }

  /** The script is OP_RETURN and minimal pushes of the items, of which there are at most five, in at most 83 bytes. */
  predicate Displayable(s: seq<byte>, items: seq<Item>) {
    |s| <= 83 && |items| <= 5 && s == [0x6a] + Pushes(items)
  }

  /** Such a script is displayed, with the texts of its items. */
  lemma DisplayableShown(s: seq<byte>, items: seq<Item>)
    requires Displayable(s, items)
    ensures Describe(s) == Some("OP_RETURN" + Spaced(Texts(items)))
  {
    PushesTokens(items, MAX_PUSHES);
    assert s[1..] == Pushes(items);
  }

  /** A script is displayed if and only if it is such a script. */
  lemma DescribedIff(s: seq<byte>)
    ensures Describe(s).Some? <==> exists items: seq<Item> :: Displayable(s, items)
  {
    if Describe(s).Some? {
      var items := TokensPushes(s[1..], MAX_PUSHES);
      assert s == [0x6a] + s[1..];
      assert Displayable(s, items);
    }
    if items: seq<Item> :| Displayable(s, items) {
      DisplayableShown(s, items);
    }
  }

  /** A one-byte push of 5, which has an opcode, is refused. */
  lemma NotMinimal(s: seq<byte>)
    requires s == [0x01, 0x05]
    ensures Describe([0x6a] + s) == None
  {
    assert ([0x6a] + s)[1..] == s && Token(s) == None;
  }

  lemma MinimalShown(items: seq<Item>, none: seq<Item>)
    requires none == [] && items == [[5]] + none
    ensures Describe([0x6a, 0x55]) == Some("OP_RETURN 5")
  {
    PushesCons([5], none);
    assert [0x6a] + Pushes(items) == [0x6a, 0x55];
    DisplayableShown([0x6a, 0x55], items);
    var five := Texts(items);
    assert five == ["5"] && five[1..] == [] && Spaced(five) == [' '] + "5" + Spaced(five[1..]);
    assert "OP_RETURN" + Spaced(five) == "OP_RETURN 5";
  }
}
