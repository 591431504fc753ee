/**
 The length of the text of an expression, and the scripts that texts of the accepted length can have.
 */
module MiniscriptText {
  import opened Miniscript
  import opened Scripts
  import opened MiniscriptSize

  const MAX_DESCRIPTOR_TEMPLATE_LENGTH: nat := 512

  /** The shortest way to write a key. */
  const KEY_TEXT: nat := |"@0"|

  function HashText(kind: HashKind): nat {
    match kind
    case Sha256 => |"sha256()"| + 64
    case Hash256 => |"hash256()"| + 64
    case Ripemd160 => |"ripemd160()"| + 40
    case Hash160 => |"hash160()"| + 40
  }

  function BinaryText(op: BinOp): nat {
    match op
    case AndV => |"and_v(,)"|
    case AndB => |"and_b(,)"|
    case AndN => |"and_n(,)"|
    case OrB => |"or_b(,)"|
    case OrC => |"or_c(,)"|
    case OrD => |"or_d(,)"|
    case OrI => |"or_i(,)"|
  }

  /** The length of the text of an expression, with the shortest keys and numbers. */
  function TextLength(e: Expr): nat
    decreases e
  {
    match e
    case Zero => 1
    case One => 1
    case PkK(_) => |"pk_k()"| + KEY_TEXT
    case PkH(_) => |"pk_h()"| + KEY_TEXT
    case Pk(_) => |"pk()"| + KEY_TEXT
    case Pkh(_) => |"pkh()"| + KEY_TEXT
    case Multi(_, keys) => |"multi(1)"| + |keys| * (1 + KEY_TEXT)
    case MultiA(_, keys) => |"multi_a(1)"| + |keys| * (1 + KEY_TEXT)
    case Older(_) => |"older(1)"|
    case After(_) => |"after(1)"|
    case HashLock(kind, _) => HashText(kind)
    case AndOr(x, y, z) => |"andor(,,)"| + TextLength(x) + TextLength(y) + TextLength(z)
    case Binary(op, x, y) => BinaryText(op) + TextLength(x) + TextLength(y)
    case Thresh(_, subs) => |"thresh(1)"| + TextLengths(subs)
    case Wrap(_, x) => (if x.Wrap? then |"v"| else |"v:"|) + TextLength(x)
  }

  function TextLengths(l: Exprs): nat
    decreases l
  {
    match l
    case Nil => 0
    case Cons(head, tail) => |","| + TextLength(head) + TextLengths(tail)
  }

  /** Every character stands for at most 12 bytes of script. */
  predicate Brief(s: Script, length: nat) {
    Size(s) <= 12 * length
  }

  lemma LeafBrief(e: Expr, ctx: Context)
    requires !e.AndOr? && !e.Binary? && !e.Thresh? && !e.Wrap? && TypeOf(e, ctx).Some?
    ensures Brief(Translate(e, ctx), TextLength(e))
  {
    match e
    case Zero => NumMeasure(0, ctx);
    case One => NumMeasure(1, ctx);
    case PkK(key) => Atom(PushOf(KeyBytes(key), ctx));
    case PkH(key) => PkHSize(key, ctx);
    case Pk(key) => Two(PushOf(KeyBytes(key), ctx), Check(CheckSig, false));
    case Pkh(key) =>
      PkHSize(key, ctx);
      Append(PkHScript(key, ctx), Check(CheckSig, false));
    case Multi(k, keys) => MultiBrief(k, keys);
    case MultiA(k, keys) => MultiABrief(k, keys);
    case Older(n) => LockBrief(n, Code(OpCheckSequenceVerify), ctx);
    case After(n) => LockBrief(n, Code(OpCheckLockTimeVerify), ctx);
    case HashLock(kind, image) => HashBrief(kind, image, ctx);
  }

  lemma PkHSize(key: nat, ctx: Context)
    ensures Size(PkHScript(key, ctx)) == 24
  {
    var a, b, c, d := Code(OpDup), Code(OpHash(Hash160)), PushOf(KeyHash(key), ctx), Check(Equal, true);
    Three(a, b, c);
    Append([a, b, c], d);
    assert PkHScript(key, ctx) == [a, b, c] + [d];
  }

  lemma LockBrief(n: nat, op: Op, ctx: Context)
    requires 1 <= n < 0x8000_0000 && !op.Push?
    ensures Size(Num(n, ctx) + [op]) <= 8
  {
    NumMeasure(n, ctx);
    PushSizeIsLength(n);
    Append(Num(n, ctx), op);
  }

  lemma MultiBrief(k: nat, keys: seq<nat>)
    requires 1 <= k <= |keys| <= MAX_MULTISIG_KEYS
    ensures Brief(MultiScript(k, keys, P2wsh), TextLength(Multi(k, keys)))
  {
    PushKeysMeasure(keys);
    NumMeasure(k, P2wsh);
    NumMeasure(|keys|, P2wsh);
    Concat(Num(k, P2wsh), PushKeys(keys, P2wsh));
    Concat(Num(k, P2wsh) + PushKeys(keys, P2wsh), Num(|keys|, P2wsh));
    Append(Num(k, P2wsh) + PushKeys(keys, P2wsh) + Num(|keys|, P2wsh), Check(CheckMultiSig, false));
  }

  lemma MultiABrief(k: nat, keys: seq<nat>)
    requires 1 <= k <= |keys| <= MAX_MULTISIG_KEYS
    ensures Brief(MultiAScript(k, keys, Tapscript), TextLength(MultiA(k, keys)))
  {
    CheckSigAddsMeasure(keys);
    NumMeasure(k, Tapscript);
    Concat(CheckSigAdds(keys, Tapscript), Num(k, Tapscript));
    Append(CheckSigAdds(keys, Tapscript) + Num(k, Tapscript), Check(NumEqual, false));
  }

  lemma HashBrief(kind: HashKind, image: nat, ctx: Context)
    ensures Brief(HashLockScript(kind, image, ctx), HashText(kind))
  {
    var a, b, c := Code(OpSize), PushOf(Number(32), ctx), Check(Equal, true);
    var d, e, f := Code(OpHash(kind)), PushOf(Image(kind, image), ctx), Check(Equal, false);
    Three(a, b, c);
    Three(d, e, f);
    Concat([a, b, c], [d, e, f]);
    assert HashLockScript(kind, image, ctx) == [a, b, c] + [d, e, f];
    PushSizeIsLength(32);
  }

  lemma {:induction false} EveryBrief(e: Expr, ctx: Context)
    requires TypeOf(e, ctx).Some?
    ensures Brief(Translate(e, ctx), TextLength(e))
    decreases e
  {
    match e
    case AndOr(x, y, z) =>
      EveryBrief(x, ctx);
      EveryBrief(y, ctx);
      EveryBrief(z, ctx);
      AndOrMeasure(Translate(x, ctx), Translate(y, ctx), Translate(z, ctx));
    case Binary(op, x, y) =>
      EveryBrief(x, ctx);
      EveryBrief(y, ctx);
      BinaryMeasure(op, Translate(x, ctx), Translate(y, ctx), ctx);
    case Thresh(k, subs) =>
      EveryChildBrief(subs, true, ctx);
      ThreshBrief(k, subs, ctx);
    case Wrap(w, x) =>
      EveryBrief(x, ctx);
      WrapMeasure(w, Translate(x, ctx), ctx);
    case _ =>
      LeafBrief(e, ctx);
  }

  lemma ThreshBrief(k: nat, subs: Exprs, ctx: Context)
    requires k <= INT16_MAX && Brief(TranslateSum(subs, true, ctx), TextLengths(subs))
    ensures Brief(TranslateSum(subs, true, ctx) + Num(k, ctx) + [Check(Equal, false)], TextLength(Thresh(k, subs)))
  {
    var sum := TranslateSum(subs, true, ctx);
    NumMeasure(k, ctx);
    PushSizeIsLength(k);
    Concat(sum, Num(k, ctx));
    Append(sum + Num(k, ctx), Check(Equal, false));
  }

  lemma {:induction false} EveryChildBrief(l: Exprs, first: bool, ctx: Context)
    requires CountSubs(l, first, ctx).Some?
    ensures Brief(TranslateSum(l, first, ctx), TextLengths(l))
    decreases l
  {
    match l
    case Nil =>
    case Cons(head, tail) =>
      EveryBrief(head, ctx);
      EveryChildBrief(tail, false, ctx);
      var x, add := Translate(head, ctx), if first then [] else [Code(OpAdd)];
      Atom(Code(OpAdd));
      Concat(x, add);
      Concat(x + add, TranslateSum(tail, false, ctx));
  }

  lemma {:induction false} OpsWithinSize(s: Script)
    ensures NonPushes(s) <= Size(s)
    decreases |s|
  {
    if |s| > 0 {
      OpsWithinSize(s[..|s| - 1]);
    }
  }

  /** A policy of the accepted length has a script whose size and operations 16 bits can count. */
  lemma TextFits(e: Expr, ctx: Context)
    requires TypeOf(e, ctx).Some? && TextLength(e) <= MAX_DESCRIPTOR_TEMPLATE_LENGTH
    ensures Size(Translate(e, ctx)) < 65536 && NonPushes(Translate(e, ctx)) < 65536
  {
    EveryBrief(e, ctx);
    OpsWithinSize(Translate(e, ctx));
  }
}
