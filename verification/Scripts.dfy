/**
 Bitcoin Script, as far as Miniscript needs it, and the translation of Miniscript
 expressions into Script (BIP 379).
 */
module Scripts {
  import opened Miniscript

  datatype Opcode =
    | OpDup | OpSwap | OpSize | OpIfDup | OpToAltStack | OpFromAltStack
    | OpHash(kind: HashKind)
    | OpCheckSigAdd
    | OpVerify | OpAdd | OpBoolAnd | OpBoolOr | OpZeroNotEqual
    | OpCheckSequenceVerify | OpCheckLockTimeVerify
    | OpIf | OpNotIf | OpElse | OpEndIf

  /** Operations that exist both plain and with a VERIFY merged into them. */
  datatype Test = Equal | CheckSig | CheckMultiSig | NumEqual

  /** What a push puts on the stack. */
  datatype Item = Number(n: nat) | KeyBytes(key: nat) | KeyHash(key: nat) | Image(kind: HashKind, image: nat)

  /** A push comes with its length in bytes, opcode included. */
  datatype Op = Push(item: Item, length: nat) | Code(code: Opcode) | Check(test: Test, verify: bool)

  type Script = seq<Op>

  // ---- sizes ----

  type byte = x: int | 0 <= x < 256

  /** The bytes of a positive number, least significant first, with room for the sign bit. */
  function NumberBytes(n: nat): seq<byte> {
    if n < 0x80 then [n]
    else if n < 0x100 then [n, 0]
    else [n % 256] + NumberBytes(n / 256)
  }

  /** The bytes that push a number: a single opcode up to 16, a data push above. */
  function PushNumber(n: nat): seq<int> {
    if n == 0 then [0]
    else if n <= 16 then [0x50 + n]
    else [|NumberBytes(n)|] + NumberBytes(n)
  }

  function ItemSize(item: Item, ctx: Context): nat {
    match item
    case Number(n) => |PushNumber(n)|
    case KeyBytes(_) => 1 + (if ctx == Tapscript then 32 else 33)
    case KeyHash(_) => 1 + 20
    case Image(kind, _) => 1 + (if kind == Sha256 || kind == Hash256 then 32 else 20)
  }

  function PushOf(item: Item, ctx: Context): Op {
    Push(item, ItemSize(item, ctx))
  }

  function OpLength(op: Op): nat {
    if op.Push? then op.length else 1
  }

  /** The length of a script in bytes. */
  function Size(s: Script): nat {
    if |s| == 0 then 0 else Size(s[..|s| - 1]) + OpLength(s[|s| - 1])
  }

  /** The number of operations that are not pushes. */
  function NonPushes(s: Script): nat {
    if |s| == 0 then 0 else NonPushes(s[..|s| - 1]) + (if s[|s| - 1].Push? then 0 else 1)
  }

  // ---- merging VERIFY ----

  predicate HasVerifyForm(op: Op) {
    op.Check? && !op.verify
  }

  /** The last operation can absorb a VERIFY. */
  predicate CanMerge(s: Script) {
    |s| > 0 && HasVerifyForm(s[|s| - 1])
  }

  /** VERIFY is merged into the last operation where possible, and appended otherwise. */
  function Verify(s: Script): Script {
    if CanMerge(s) then s[..|s| - 1] + [s[|s| - 1].(verify := true)] else s + [Code(OpVerify)]
  }

  // ---- translation ----

  function Num(n: nat, ctx: Context): Script {
    [PushOf(Number(n), ctx)]
  }

  function PushKeys(keys: seq<nat>, ctx: Context): Script {
    if |keys| == 0 then [] else PushKeys(keys[..|keys| - 1], ctx) + [PushOf(KeyBytes(keys[|keys| - 1]), ctx)]
  }

  /** <key1> CHECKSIG <key2> CHECKSIGADD ... */
  function CheckSigAdds(keys: seq<nat>, ctx: Context): Script {
    if |keys| == 0 then []
    else
      var last := |keys| - 1;
      var check := if last == 0 then Check(CheckSig, false) else Code(OpCheckSigAdd);
      CheckSigAdds(keys[..last], ctx) + [PushOf(KeyBytes(keys[last]), ctx), check]
  }

  function Translate(e: Expr, ctx: Context): Script
    decreases e
  {
    match e
    case Zero => Num(0, ctx)
    case One => Num(1, ctx)
    case PkK(key) => [PushOf(KeyBytes(key), ctx)]
    case PkH(key) => PkHScript(key, ctx)
    case Pk(key) => [PushOf(KeyBytes(key), ctx), Check(CheckSig, false)]
    case Pkh(key) => PkHScript(key, ctx) + [Check(CheckSig, false)]
    case Multi(k, keys) => MultiScript(k, keys, ctx)
    case MultiA(k, keys) => MultiAScript(k, keys, ctx)
    case Older(n) => Num(n, ctx) + [Code(OpCheckSequenceVerify)]
    case After(n) => Num(n, ctx) + [Code(OpCheckLockTimeVerify)]
    case HashLock(kind, image) => HashLockScript(kind, image, ctx)
    case AndOr(x, y, z) => AndOrScript(Translate(x, ctx), Translate(y, ctx), Translate(z, ctx))
    case Binary(op, x, y) => BinaryScript(op, Translate(x, ctx), Translate(y, ctx), ctx)
    case Thresh(k, subs) => TranslateSum(subs, true, ctx) + Num(k, ctx) + [Check(Equal, false)]
    case Wrap(w, x) => WrapScript(w, Translate(x, ctx), ctx)
  }

  /** [X1] [X2] ADD ... [Xn] ADD */
  function TranslateSum(l: Exprs, first: bool, ctx: Context): Script
    decreases l
  {
    match l
    case Nil => []
    case Cons(head, tail) =>
      Translate(head, ctx) + (if first then [] else [Code(OpAdd)]) + TranslateSum(tail, false, ctx)
  }

  /** DUP HASH160 <key hash> EQUALVERIFY */
  function PkHScript(key: nat, ctx: Context): Script {
    [Code(OpDup), Code(OpHash(Hash160)), PushOf(KeyHash(key), ctx), Check(Equal, true)]
  }

  function MultiScript(k: nat, keys: seq<nat>, ctx: Context): Script {
    Num(k, ctx) + PushKeys(keys, ctx) + Num(|keys|, ctx) + [Check(CheckMultiSig, false)]
  }

  function MultiAScript(k: nat, keys: seq<nat>, ctx: Context): Script {
    CheckSigAdds(keys, ctx) + Num(k, ctx) + [Check(NumEqual, false)]
  }

  /** SIZE <32> EQUALVERIFY HASH <image> EQUAL */
  function HashLockScript(kind: HashKind, image: nat, ctx: Context): Script {
    [Code(OpSize), PushOf(Number(32), ctx), Check(Equal, true), Code(OpHash(kind)), PushOf(Image(kind, image), ctx), Check(Equal, false)]
  }

  /** [X] NOTIF [Z] ELSE [Y] ENDIF */
  function AndOrScript(x: Script, y: Script, z: Script): Script {
    x + [Code(OpNotIf)] + z + [Code(OpElse)] + y + [Code(OpEndIf)]
  }

  function BinaryScript(op: BinOp, x: Script, y: Script, ctx: Context): Script {
    match op
    case AndV => x + y
    case AndB => x + y + [Code(OpBoolAnd)]
    case AndN => AndOrScript(x, y, Num(0, ctx))
    case OrB => x + y + [Code(OpBoolOr)]
    case OrC => x + [Code(OpNotIf)] + y + [Code(OpEndIf)]
    case OrD => x + [Code(OpIfDup), Code(OpNotIf)] + y + [Code(OpEndIf)]
    case OrI => [Code(OpIf)] + x + [Code(OpElse)] + y + [Code(OpEndIf)]
  }

  function WrapScript(w: Wrapper, x: Script, ctx: Context): Script {
    match w
    case WrapA => [Code(OpToAltStack)] + x + [Code(OpFromAltStack)]
    case WrapS => [Code(OpSwap)] + x
    case WrapC => x + [Check(CheckSig, false)]
    case WrapT => x + Num(1, ctx)
    case WrapD => [Code(OpDup), Code(OpIf)] + x + [Code(OpEndIf)]
    case WrapV => Verify(x)
    case WrapJ => [Code(OpSize), Code(OpZeroNotEqual), Code(OpIf)] + x + [Code(OpEndIf)]
    case WrapN => x + [Code(OpZeroNotEqual)]
    case WrapL => [Code(OpIf)] + Num(0, ctx) + [Code(OpElse)] + x + [Code(OpEndIf)]
    case WrapU => [Code(OpIf)] + x + [Code(OpElse)] + Num(0, ctx) + [Code(OpEndIf)]
  }
}
