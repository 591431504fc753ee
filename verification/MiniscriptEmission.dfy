/**
 The script that the app derives from a policy, fragment by fragment, with a flag that asks for the
 VERIFY form of the last operation.
 */
module MiniscriptEmission {
  import opened Wrappers
  import opened Miniscript
  import opened Scripts
  import opened MiniscriptWays
  import opened MiniscriptSize

  // ---- what is emitted ----

  /** With the flag, operations that have a VERIFY form take the next opcode, and others are followed by VERIFY. */
  function OpV(op: Op, v: bool): Script {
    if !v then [op]
    else if op.Check? && !op.verify then [op.(verify := true)]
    else if op == Check(CheckSig, true) then [Check(CheckMultiSig, false)]
    else [op, Code(OpVerify)]
  }

  /** pk_k is emitted with CHECKSIGVERIFY. */
  function Emit(e: Expr, v: bool, ctx: Context): Script
    decreases e
  {
    match e
    case Zero => OpV(PushOf(Number(0), ctx), v)
    case One => OpV(PushOf(Number(1), ctx), v)
    case PkK(key) => [PushOf(KeyBytes(key), ctx)] + OpV(Check(CheckSig, true), v)
    case PkH(key) => PkHScript(key, ctx)
    case Pk(key) => [PushOf(KeyBytes(key), ctx)] + OpV(Check(CheckSig, false), v)
    case Pkh(key) => PkHScript(key, ctx) + OpV(Check(CheckSig, false), v)
    case Multi(k, keys) => Num(k, ctx) + PushKeys(keys, ctx) + Num(|keys|, ctx) + OpV(Check(CheckMultiSig, false), v)
    case MultiA(k, keys) => CheckSigAdds(keys, ctx) + Num(k, ctx) + OpV(Check(NumEqual, false), v)
    case Older(n) => Num(n, ctx) + OpV(Code(OpCheckSequenceVerify), v)
    case After(n) => Num(n, ctx) + OpV(Code(OpCheckLockTimeVerify), v)
    case HashLock(kind, image) =>
      [Code(OpSize), PushOf(Number(32), ctx), Check(Equal, true), Code(OpHash(kind)), PushOf(Image(kind, image), ctx)]
      + OpV(Check(Equal, false), v)
    case AndOr(x, y, z) => EmitAndOr(Emit(x, false, ctx), Emit(y, false, ctx), Emit(z, false, ctx), v)
    case Binary(op, x, y) => EmitBinary(op, Emit(x, false, ctx), Emit(y, op == AndV && v, ctx), v, ctx)
    case Thresh(k, subs) =>
      EmitSteps(subs, 0, ctx) + (if Length(subs) >= 2 then [Code(OpAdd)] else []) + Num(k, ctx) + OpV(Check(Equal, false), v)
    case Wrap(w, x) => EmitWrap(w, Emit(x, w == WrapV, ctx), v, ctx)
  }

  /** [x] NOTIF [z] ELSE [y] ENDIF, with the flag. */
  function EmitAndOr(x: Script, y: Script, z: Script, v: bool): Script {
    x + [Code(OpNotIf)] + z + [Code(OpElse)] + y + OpV(Code(OpEndIf), v)
  }

  /** Only and_v passes the flag on, to its second child. */
  function EmitBinary(op: BinOp, x: Script, y: Script, v: bool, ctx: Context): Script {
    match op
    case AndV => x + y
    case AndB => x + y + OpV(Code(OpBoolAnd), v)
    case AndN => x + [Code(OpNotIf)] + Num(0, ctx) + [Code(OpElse)] + y + OpV(Code(OpEndIf), v)
    case OrB => x + y + OpV(Code(OpBoolOr), v)
    case OrC => x + [Code(OpNotIf)] + y + OpV(Code(OpEndIf), v)
    case OrD => x + [Code(OpIfDup), Code(OpNotIf)] + y + OpV(Code(OpEndIf), v)
    case OrI => [Code(OpIf)] + x + [Code(OpElse)] + y + OpV(Code(OpEndIf), v)
  }

  /** And v sets it for its child. */
  function EmitWrap(w: Wrapper, x: Script, v: bool, ctx: Context): Script {
    match w
    case WrapA => [Code(OpToAltStack)] + x + [Code(OpFromAltStack)]
    case WrapS => [Code(OpSwap)] + x
    case WrapC => x + OpV(Check(CheckSig, false), v)
    case WrapT => x + OpV(PushOf(Number(1), ctx), v)
    case WrapD => [Code(OpDup), Code(OpIf)] + x + OpV(Code(OpEndIf), v)
    case WrapV => x
    case WrapJ => [Code(OpSize), Code(OpZeroNotEqual), Code(OpIf)] + x + OpV(Code(OpEndIf), v)
    case WrapN => x + OpV(Code(OpZeroNotEqual), v)
    case WrapL => [Code(OpIf)] + Num(0, ctx) + [Code(OpElse)] + x + OpV(Code(OpEndIf), v)
    case WrapU => [Code(OpIf)] + x + [Code(OpElse)] + Num(0, ctx) + OpV(Code(OpEndIf), v)
  }

  /** The children of thresh from step i on: from step 2, the ADD of the children before comes first. */
  function EmitSteps(l: Exprs, i: nat, ctx: Context): Script
    decreases l
  {
    match l
    case Nil => []
    case Cons(head, tail) => (if i > 1 then [Code(OpAdd)] else []) + Emit(head, false, ctx) + EmitSteps(tail, i + 1, ctx)
  }

  // ---- the flag and the merging of VERIFY ----

  /** An operation that takes the flag, at the end of a script. */
  lemma FlagIsVerify(s: Script, op: Op, v: bool)
    requires op.Check? ==> !op.verify
    ensures s + OpV(op, v) == if v then Verify(s + [op]) else s + [op]
  {
    assert (s + [op])[..|s|] == s;
    assert s + [op, Code(OpVerify)] == s + [op] + [Code(OpVerify)];
  }

  lemma VerifySecond(x: Script, y: Script)
    requires |y| > 0
    ensures Verify(x + y) == x + Verify(y)
  {
    assert (x + y)[|x + y| - 1] == y[|y| - 1];
    assert (x + y)[..|x + y| - 1] == x + y[..|y| - 1];
    if CanMerge(y) {
      assert x + y[..|y| - 1] + [y[|y| - 1].(verify := true)] == x + (y[..|y| - 1] + [y[|y| - 1].(verify := true)]);
    } else {
      assert x + y + [Code(OpVerify)] == x + (y + [Code(OpVerify)]);
    }
  }

  // ---- pk_k ----

  /** pk_k is used only as the first child of and_v. */
  predicate KeysFirst(e: Expr)
    decreases e
  {
    match e
    case PkK(_) => false
    case AndOr(x, y, z) => KeysFirst(x) && KeysFirst(y) && KeysFirst(z)
    case Binary(op, x, y) => ((op == AndV && x.PkK?) || KeysFirst(x)) && KeysFirst(y)
    case Thresh(_, subs) => AllKeysFirst(subs)
    case Wrap(_, x) => KeysFirst(x)
    case _ => true
  }

  predicate AllKeysFirst(l: Exprs)
    decreases l
  {
    match l
    case Nil => true
    case Cons(head, tail) => KeysFirst(head) && AllKeysFirst(tail)
  }

  /** v:pk in place of pk_k as the first child of and_v. */
  function Verified(e: Expr): Expr
    decreases e
  {
    match e
    case AndOr(x, y, z) => AndOr(Verified(x), Verified(y), Verified(z))
    case Binary(op, x, y) => Binary(op, if op == AndV && x.PkK? then Wrap(WrapV, Pk(x.key)) else Verified(x), Verified(y))
    case Thresh(k, subs) => Thresh(k, AllVerified(subs))
    case Wrap(w, x) => Wrap(w, Verified(x))
    case _ => e
  }

  function AllVerified(l: Exprs): Exprs
    decreases l
  {
    match l
    case Nil => Nil
    case Cons(head, tail) => Cons(Verified(head), AllVerified(tail))
  }

  lemma {:induction false} VerifiedType(e: Expr, ctx: Context)
    requires KeysFirst(e)
    ensures TypeOf(Verified(e), ctx) == TypeOf(e, ctx)
    decreases e
  {
    match e
    case AndOr(x, y, z) =>
      VerifiedType(x, ctx);
      VerifiedType(y, ctx);
      VerifiedType(z, ctx);
    case Binary(op, x, y) =>
      VerifiedType(y, ctx);
      if op == AndV && x.PkK? {
        FirstKeyType(x.key, TypeOf(y, ctx), ctx);
      } else {
        VerifiedType(x, ctx);
      }
    case Thresh(_, subs) => AllVerifiedType(subs, true, ctx);
    case Wrap(_, x) => VerifiedType(x, ctx);
    case _ =>
  }

  /** and_v has the same type with either. */
  lemma FirstKeyType(key: nat, y: Option<Type>, ctx: Context)
    ensures BinaryType(AndV, TypeOf(Wrap(WrapV, Pk(key)), ctx), y) == BinaryType(AndV, TypeOf(PkK(key), ctx), y)
  {
    assert TypeOf(Pk(key), ctx) == Some(Type(B, false, true, true, true, true));
    assert TypeOf(Wrap(WrapV, Pk(key)), ctx) == Some(Type(V, false, true, true, false, false));
    assert TypeOf(PkK(key), ctx) == Some(Type(K, false, true, true, true, true));
  }

  lemma {:induction false} AllVerifiedType(l: Exprs, first: bool, ctx: Context)
    requires AllKeysFirst(l)
    ensures CountSubs(AllVerified(l), first, ctx) == CountSubs(l, first, ctx)
    decreases l
  {
    match l
    case Nil =>
    case Cons(head, tail) =>
      VerifiedType(head, ctx);
      AllVerifiedType(tail, false, ctx);
  }

  lemma {:induction false} VerifiedWays(e: Expr, full: bool)
    requires KeysFirst(e)
    ensures WaysOf(Verified(e), full) == WaysOf(e, full)
    decreases e
  {
    match e
    case AndOr(x, y, z) =>
      VerifiedWays(x, full);
      VerifiedWays(y, full);
      VerifiedWays(z, full);
    case Binary(op, x, y) =>
      VerifiedWays(y, full);
      if op == AndV && x.PkK? {
        FirstKeyWays(x.key, WaysOf(y, full), full);
      } else {
        VerifiedWays(x, full);
      }
    case Thresh(_, subs) => AllVerifiedWays(subs, full);
    case Wrap(_, x) => VerifiedWays(x, full);
    case _ =>
  }

  /** And the same ways. */
  lemma FirstKeyWays(key: nat, y: Both, full: bool)
    ensures BinaryWays(AndV, WaysOf(Wrap(WrapV, Pk(key)), full), y, full) == BinaryWays(AndV, WaysOf(PkK(key), full), y, full)
  {
    assert WaysOf(Wrap(WrapV, Pk(key)), full).sat == WaysOf(Pk(key), full).sat == WaysOf(PkK(key), full).sat;
  }

  lemma {:induction false} AllVerifiedWays(l: Exprs, full: bool)
    requires AllKeysFirst(l)
    ensures ListWays(AllVerified(l), full) == ListWays(l, full)
    decreases l
  {
    match l
    case Nil =>
    case Cons(head, tail) =>
      VerifiedWays(head, full);
      AllVerifiedWays(tail, full);
  }

  // ---- the flag asks for VERIFY ----

  lemma EmitBinaryIs(op: BinOp, x: Script, y: Script, v: bool, ctx: Context)
    requires op != AndV
    ensures var s := BinaryScript(op, x, y, ctx); EmitBinary(op, x, y, v, ctx) == if v then Verify(s) else s
  {
    match op
    case AndB => FlagIsVerify(x + y, Code(OpBoolAnd), v);
    case AndN => FlagIsVerify(x + [Code(OpNotIf)] + Num(0, ctx) + [Code(OpElse)] + y, Code(OpEndIf), v);
    case OrB => FlagIsVerify(x + y, Code(OpBoolOr), v);
    case OrC => FlagIsVerify(x + [Code(OpNotIf)] + y, Code(OpEndIf), v);
    case OrD => FlagIsVerify(x + [Code(OpIfDup), Code(OpNotIf)] + y, Code(OpEndIf), v);
    case OrI => FlagIsVerify([Code(OpIf)] + x + [Code(OpElse)] + y, Code(OpEndIf), v);
  }

  lemma EmitWrapIs(w: Wrapper, x: Script, v: bool, ctx: Context)
    requires w != WrapV && (v ==> w != WrapA && w != WrapS)
    ensures var s := WrapScript(w, x, ctx); EmitWrap(w, x, v, ctx) == if v then Verify(s) else s
  {
    match w
    case WrapA =>
    case WrapS =>
    case WrapC => FlagIsVerify(x, Check(CheckSig, false), v);
    case WrapT => FlagIsVerify(x, PushOf(Number(1), ctx), v);
    case WrapD => FlagIsVerify([Code(OpDup), Code(OpIf)] + x, Code(OpEndIf), v);
    case WrapJ => FlagIsVerify([Code(OpSize), Code(OpZeroNotEqual), Code(OpIf)] + x, Code(OpEndIf), v);
    case WrapN => FlagIsVerify(x, Code(OpZeroNotEqual), v);
    case WrapL => FlagIsVerify([Code(OpIf)] + Num(0, ctx) + [Code(OpElse)] + x, Code(OpEndIf), v);
    case WrapU => FlagIsVerify([Code(OpIf)] + x + [Code(OpElse)] + Num(0, ctx), Code(OpEndIf), v);
  }

  lemma EmitLeafIs(e: Expr, v: bool, ctx: Context)
    requires !e.AndOr? && !e.Binary? && !e.Thresh? && !e.Wrap? && !e.PkK? && (v ==> !e.PkH?)
    ensures Emit(e, v, ctx) == if v then Verify(Translate(e, ctx)) else Translate(e, ctx)
  {
    match e
    case Zero => EmitPushIs(0, v, ctx);
    case One => EmitPushIs(1, v, ctx);
    case PkH(key) =>
    case Pk(key) =>
      FlagIsVerify([PushOf(KeyBytes(key), ctx)], Check(CheckSig, false), v);
      assert Translate(e, ctx) == [PushOf(KeyBytes(key), ctx)] + [Check(CheckSig, false)];
    case Pkh(key) => FlagIsVerify(PkHScript(key, ctx), Check(CheckSig, false), v);
    case Multi(k, keys) => FlagIsVerify(Num(k, ctx) + PushKeys(keys, ctx) + Num(|keys|, ctx), Check(CheckMultiSig, false), v);
    case MultiA(k, keys) => FlagIsVerify(CheckSigAdds(keys, ctx) + Num(k, ctx), Check(NumEqual, false), v);
    case Older(n) => FlagIsVerify(Num(n, ctx), Code(OpCheckSequenceVerify), v);
    case After(n) => FlagIsVerify(Num(n, ctx), Code(OpCheckLockTimeVerify), v);
    case HashLock(kind, image) =>
      var s := [Code(OpSize), PushOf(Number(32), ctx), Check(Equal, true), Code(OpHash(kind)), PushOf(Image(kind, image), ctx)];
      FlagIsVerify(s, Check(Equal, false), v);
      assert HashLockScript(kind, image, ctx) == s + [Check(Equal, false)];
  }

  lemma EmitPushIs(n: nat, v: bool, ctx: Context)
    ensures OpV(PushOf(Number(n), ctx), v) == if v then Verify(Num(n, ctx)) else Num(n, ctx)
  {
    FlagIsVerify([], PushOf(Number(n), ctx), v);
    assert [] + [PushOf(Number(n), ctx)] == Num(n, ctx) && [] + OpV(PushOf(Number(n), ctx), v) == OpV(PushOf(Number(n), ctx), v);
  }

  lemma AndOrEmits(x: Script, y: Script, z: Script)
    ensures EmitAndOr(x, y, z, false) == AndOrScript(x, y, z) && EmitAndOr(x, y, z, true) == Verify(AndOrScript(x, y, z))
  {
    FlagIsVerify(x + [Code(OpNotIf)] + z + [Code(OpElse)] + y, Code(OpEndIf), true);
  }

  lemma {:induction false} TranslateNotEmpty(e: Expr, ctx: Context)
    ensures |Translate(e, ctx)| > 0
    decreases e
  {
    if e.Binary? && e.op == AndV {
      TranslateNotEmpty(e.y, ctx);
    }
  }

  lemma {:induction false} EmitNotEmpty(e: Expr, v: bool, ctx: Context)
    ensures |Emit(e, v, ctx)| > 0
    decreases e
  {
    if e.Binary? {
      EmitNotEmpty(e.y, e.op == AndV && v, ctx);
    }
    if e.Wrap? {
      EmitNotEmpty(e.x, e.w == WrapV, ctx);
    }
  }

  /** For an expression of type B, the flag gives the script with VERIFY merged into it or appended. */
  lemma {:induction false} FlagVerifies(e: Expr, ctx: Context)
    requires TypeOf(e, ctx).Some? && TypeOf(e, ctx).value.kind == B
    ensures Emit(e, true, ctx) == Verify(Emit(e, false, ctx))
    decreases e
  {
    match e
    case AndOr(x, y, z) => AndOrEmits(Emit(x, false, ctx), Emit(y, false, ctx), Emit(z, false, ctx));
    case Binary(op, x, y) =>
      if op == AndV {
        FlagVerifies(y, ctx);
        EmitNotEmpty(y, false, ctx);
        VerifySecond(Emit(x, false, ctx), Emit(y, false, ctx));
      } else {
        EmitBinaryIs(op, Emit(x, false, ctx), Emit(y, false, ctx), false, ctx);
        EmitBinaryIs(op, Emit(x, false, ctx), Emit(y, false, ctx), true, ctx);
      }
    case Thresh(k, subs) =>
      var sum := EmitSteps(subs, 0, ctx) + (if Length(subs) >= 2 then [Code(OpAdd)] else []) + Num(k, ctx);
      FlagIsVerify(sum, Check(Equal, false), true);
    case Wrap(w, x) =>
      EmitWrapIs(w, Emit(x, false, ctx), false, ctx);
      EmitWrapIs(w, Emit(x, false, ctx), true, ctx);
    case _ =>
      EmitLeafIs(e, false, ctx);
      EmitLeafIs(e, true, ctx);
  }

  // ---- emission is translation ----

  lemma AddMoves(x: Script, steps: Script, sum: Script, add: Script)
    requires steps + add == add + sum
    ensures add + x + steps + add == add + (x + add + sum)
  {
    assert add + x + steps + add == add + x + (steps + add);
    assert add + x + (add + sum) == add + (x + add + sum);
  }

  /** The ADD of each child comes before the next child, and the last one at the end. */
  lemma {:induction false} StepsAreSum(l: Exprs, i: nat, ctx: Context, first: bool)
    requires i >= 2 && AllEmitAs(l, ctx) && !first
    ensures EmitSteps(l, i, ctx) + [Code(OpAdd)] == [Code(OpAdd)] + TranslateSum(AllVerified(l), first, ctx)
    decreases l
  {
    match l
    case Nil =>
      assert [] + [Code(OpAdd)] == [Code(OpAdd)] + [];
    case Cons(head, tail) =>
      StepsAreSum(tail, i + 1, ctx, first);
      AddMoves(Emit(head, false, ctx), EmitSteps(tail, i + 1, ctx), TranslateSum(AllVerified(tail), first, ctx), [Code(OpAdd)]);
      SumCons(Verified(head), AllVerified(tail), first, ctx);
  }

  lemma SumCons(head: Expr, tail: Exprs, first: bool, ctx: Context)
    ensures TranslateSum(Cons(head, tail), first, ctx) ==
              Translate(head, ctx) + (if first then [] else [Code(OpAdd)]) + TranslateSum(tail, false, ctx)
  {}

  lemma StepsCons(head: Expr, tail: Exprs, i: nat, ctx: Context)
    ensures EmitSteps(Cons(head, tail), i, ctx) == (if i > 1 then [Code(OpAdd)] else []) + Emit(head, false, ctx) + EmitSteps(tail, i + 1, ctx)
  {}

  predicate AllEmitAs(l: Exprs, ctx: Context)
    decreases l
  {
    match l
    case Nil => true
    case Cons(head, tail) => Emit(head, false, ctx) == Translate(Verified(head), ctx) && AllEmitAs(tail, ctx)
  }

  lemma TwoAdds(x: Script, y: Script, steps: Script, sum: Script, add: Script)
    requires steps + add == add + sum
    ensures [] + x + ([] + y + steps) + add == x + [] + (y + add + sum)
  {
    assert [] + x + ([] + y + steps) + add == x + (y + (steps + add));
    assert x + (y + (add + sum)) == x + [] + (y + add + sum);
  }

  lemma SumEmits(l: Exprs, ctx: Context, first: bool, rest: bool, i: nat)
    requires l.Cons? && AllEmitAs(l, ctx) && first && !rest && i == 0
    ensures EmitSteps(l, i, ctx) + (if Length(l) >= 2 then [Code(OpAdd)] else []) == TranslateSum(AllVerified(l), first, ctx)
  {
    StepsCons(l.head, l.tail, i, ctx);
    SumCons(Verified(l.head), AllVerified(l.tail), first, ctx);
    match l.tail
    case Nil =>
    case Cons(second, more) =>
      StepsCons(second, more, i + 1, ctx);
      SumCons(Verified(second), AllVerified(more), rest, ctx);
      StepsAreSum(more, i + 2, ctx, rest);
      TwoAdds(Emit(l.head, false, ctx), Emit(second, false, ctx), EmitSteps(more, i + 2, ctx), TranslateSum(AllVerified(more), rest, ctx), [Code(OpAdd)]);
  }

  /** Where pk_k is used only as the first child of and_v, the app emits the script of BIP 379 with v:pk in its place. */
  lemma {:induction false} EmitIs(e: Expr, ctx: Context)
    requires TypeOf(e, ctx).Some? && KeysFirst(e)
    ensures Emit(e, false, ctx) == Translate(Verified(e), ctx)
    decreases e
  {
    match e
    case AndOr(x, y, z) =>
      EmitIs(x, ctx);
      EmitIs(y, ctx);
      EmitIs(z, ctx);
      AndOrEmits(Emit(x, false, ctx), Emit(y, false, ctx), Emit(z, false, ctx));
    case Binary(op, x, y) =>
      EmitIs(y, ctx);
      if op == AndV && x.PkK? {
        FirstKeyEmits(x.key, ctx);
      } else {
        EmitIs(x, ctx);
      }
      if op != AndV {
        EmitBinaryIs(op, Emit(x, false, ctx), Emit(y, false, ctx), false, ctx);
      }
    case Thresh(k, subs) =>
      AllEmit(subs, true, ctx);
      SumEmits(subs, ctx, true, false, 0);
    case Wrap(w, x) =>
      EmitIs(x, ctx);
      if w == WrapV {
        FlagVerifies(x, ctx);
      } else {
        EmitWrapIs(w, Emit(x, false, ctx), false, ctx);
      }
    case _ => EmitLeafIs(e, false, ctx);
  }

  lemma {:induction false} AllEmit(l: Exprs, first: bool, ctx: Context)
    requires CountSubs(l, first, ctx).Some? && AllKeysFirst(l)
    ensures AllEmitAs(l, ctx)
    decreases l
  {
    match l
    case Nil =>
    case Cons(head, tail) =>
      EmitIs(head, ctx);
      AllEmit(tail, false, ctx);
  }

  lemma FirstKeyEmits(key: nat, ctx: Context)
    ensures Emit(PkK(key), false, ctx) == Translate(Wrap(WrapV, Pk(key)), ctx)
  {
    var s := [PushOf(KeyBytes(key), ctx)];
    assert Translate(Pk(key), ctx) == s + [Check(CheckSig, false)];
    assert (s + [Check(CheckSig, false)])[..1] == s;
  }

  // ---- what pk_k adds ----

  /** How often pk_k is used. */
  function KeyCount(e: Expr): nat
    decreases e
  {
    match e
    case PkK(_) => 1
    case AndOr(x, y, z) => KeyCount(x) + KeyCount(y) + KeyCount(z)
    case Binary(_, x, y) => KeyCount(x) + KeyCount(y)
    case Thresh(_, subs) => KeyCounts(subs)
    case Wrap(_, x) => KeyCount(x)
    case _ => 0
  }

  function KeyCounts(l: Exprs): nat
    decreases l
  {
    match l
    case Nil => 0
    case Cons(head, tail) => KeyCount(head) + KeyCounts(tail)
  }

  /** A measure that adds up, and to which merging a VERIFY makes no difference. */
  ghost predicate AddsUp(m: Script -> nat) {
    && m([]) == 0
    && (forall a: Script, b: Script :: Splits(m, a, b))
    && (forall s: Script :: Absorbs(m, s))
  }

  predicate Splits(m: Script -> nat, a: Script, b: Script) {
    m(a + b) == m(a) + m(b)
  }

  predicate Absorbs(m: Script -> nat, s: Script) {
    CanMerge(s) ==> m(Verify(s)) == m(s)
  }

  type Weight = m: Script -> nat | AddsUp(m) witness (s: Script) => 0

  lemma Split(m: Weight, a: Script, b: Script, c: Script)
    ensures m(a + b + c) == m(a) + m(b) + m(c)
  {
    assert Splits(m, a, b) && Splits(m, a + b, c);
  }

  lemma SplitMany(m: Weight, a: Script, b: Script, c: Script, d: Script, e: Script)
    ensures m(a + b + c + d + e) == m(a) + m(b) + m(c) + m(d) + m(e)
  {
    Split(m, a, b, c);
    Split(m, a + b + c, d, e);
  }

  /** The first script weighs n more than the second, and VERIFY merges into both or neither. */
  predicate More(m: Weight, s: Script, t: Script, n: nat) {
    m(s) == m(t) + n && CanMerge(s) == CanMerge(t)
  }

  lemma AndOrWeight(m: Weight, x: Script, y: Script, z: Script)
    ensures m(AndOrScript(x, y, z)) == m(x) + m(y) + m(z) + m([Code(OpNotIf)]) + m([Code(OpElse)]) + m([Code(OpEndIf)])
  {
    SplitMany(m, x, [Code(OpNotIf)], z, [Code(OpElse)], y);
    assert Splits(m, x + [Code(OpNotIf)] + z + [Code(OpElse)] + y, [Code(OpEndIf)]);
  }

  function BinaryRest(m: Weight, op: BinOp, ctx: Context): nat {
    match op
    case AndV => 0
    case AndB => m([Code(OpBoolAnd)])
    case AndN => m(Num(0, ctx)) + m([Code(OpNotIf)]) + m([Code(OpElse)]) + m([Code(OpEndIf)])
    case OrB => m([Code(OpBoolOr)])
    case OrC => m([Code(OpNotIf)]) + m([Code(OpEndIf)])
    case OrD => m([Code(OpIfDup), Code(OpNotIf)]) + m([Code(OpEndIf)])
    case OrI => m([Code(OpIf)]) + m([Code(OpElse)]) + m([Code(OpEndIf)])
  }

  lemma BinaryWeight(m: Weight, op: BinOp, x: Script, y: Script, ctx: Context)
    ensures m(BinaryScript(op, x, y, ctx)) == m(x) + m(y) + BinaryRest(m, op, ctx)
  {
    match op
    case AndV => assert Splits(m, x, y);
    case AndB => Split(m, x, y, [Code(OpBoolAnd)]);
    case AndN => AndOrWeight(m, x, y, Num(0, ctx));
    case OrB => Split(m, x, y, [Code(OpBoolOr)]);
    case OrC => Bracket(m, x, [Code(OpNotIf)], y);
    case OrD => Bracket(m, x, [Code(OpIfDup), Code(OpNotIf)], y);
    case OrI => SplitMany(m, [Code(OpIf)], x, [Code(OpElse)], y, [Code(OpEndIf)]);
  }

  lemma Bracket(m: Weight, a: Script, b: Script, c: Script)
    ensures m(a + b + c + [Code(OpEndIf)]) == m(a) + m(b) + m(c) + m([Code(OpEndIf)])
  {
    Split(m, a, b, c);
    assert Splits(m, a + b + c, [Code(OpEndIf)]);
  }

  function WrapRest(m: Weight, w: Wrapper, merges: bool, ctx: Context): nat {
    match w
    case WrapA => m([Code(OpToAltStack)]) + m([Code(OpFromAltStack)])
    case WrapS => m([Code(OpSwap)])
    case WrapC => m([Check(CheckSig, false)])
    case WrapT => m(Num(1, ctx))
    case WrapD => m([Code(OpDup), Code(OpIf)]) + m([Code(OpEndIf)])
    case WrapV => if merges then 0 else m([Code(OpVerify)])
    case WrapJ => m([Code(OpSize), Code(OpZeroNotEqual), Code(OpIf)]) + m([Code(OpEndIf)])
    case WrapN => m([Code(OpZeroNotEqual)])
    case WrapL => m([Code(OpIf)]) + m(Num(0, ctx)) + m([Code(OpElse)]) + m([Code(OpEndIf)])
    case WrapU => m([Code(OpIf)]) + m(Num(0, ctx)) + m([Code(OpElse)]) + m([Code(OpEndIf)])
  }

  lemma WrapWeight(m: Weight, w: Wrapper, x: Script, ctx: Context)
    ensures m(WrapScript(w, x, ctx)) == m(x) + WrapRest(m, w, CanMerge(x), ctx)
  {
    match w
    case WrapA => Split(m, [Code(OpToAltStack)], x, [Code(OpFromAltStack)]);
    case WrapS => assert Splits(m, [Code(OpSwap)], x);
    case WrapC => assert Splits(m, x, [Check(CheckSig, false)]);
    case WrapT => assert Splits(m, x, Num(1, ctx));
    case WrapD => Split(m, [Code(OpDup), Code(OpIf)], x, [Code(OpEndIf)]);
    case WrapV => assert Absorbs(m, x) && Splits(m, x, [Code(OpVerify)]);
    case WrapJ => Split(m, [Code(OpSize), Code(OpZeroNotEqual), Code(OpIf)], x, [Code(OpEndIf)]);
    case WrapN => assert Splits(m, x, [Code(OpZeroNotEqual)]);
    case WrapL => SplitMany(m, [Code(OpIf)], Num(0, ctx), [Code(OpElse)], x, [Code(OpEndIf)]);
    case WrapU => SplitMany(m, [Code(OpIf)], x, [Code(OpElse)], Num(0, ctx), [Code(OpEndIf)]);
  }

  lemma AndOrMore(m: Weight, x: Script, y: Script, z: Script, x': Script, y': Script, z': Script, a: nat, b: nat, c: nat)
    requires More(m, x, x', a) && More(m, y, y', b) && More(m, z, z', c)
    ensures More(m, EmitAndOr(x, y, z, false), AndOrScript(x', y', z'), a + b + c)
  {
    AndOrEmits(x, y, z);
    AndOrWeight(m, x, y, z);
    AndOrWeight(m, x', y', z');
  }

  lemma BinaryMore(m: Weight, op: BinOp, x: Script, y: Script, x': Script, y': Script, a: nat, b: nat, ctx: Context)
    requires More(m, x, x', a) && More(m, y, y', b) && |y| > 0 && |y'| > 0
    ensures More(m, EmitBinary(op, x, y, false, ctx), BinaryScript(op, x', y', ctx), a + b)
  {
    if op != AndV {
      EmitBinaryIs(op, x, y, false, ctx);
    }
    BinaryWeight(m, op, x, y, ctx);
    BinaryWeight(m, op, x', y', ctx);
    BinaryLast(op, x, y, ctx);
    BinaryLast(op, x', y', ctx);
  }

  lemma WrapMore(m: Weight, w: Wrapper, x: Script, x': Script, a: nat, ctx: Context)
    requires More(m, x, x', a) && |x| > 0 && |x'| > 0
    ensures More(m, WrapScript(w, x, ctx), WrapScript(w, x', ctx), a)
  {
    WrapWeight(m, w, x, ctx);
    WrapWeight(m, w, x', ctx);
    WrapLast(w, x, ctx);
    WrapLast(w, x', ctx);
  }

  lemma KeyMore(m: Weight, key: nat, ctx: Context)
    requires m([Check(CheckSig, true)]) == 1
    ensures More(m, Emit(PkK(key), false, ctx), Translate(PkK(key), ctx), 1)
  {
    assert Splits(m, [PushOf(KeyBytes(key), ctx)], [Check(CheckSig, true)]);
  }

  /** The scripts of a wrapper, from those of its child. */
  lemma WrapNode(w: Wrapper, x: Expr, ctx: Context)
    requires TypeOf(x, ctx).Some? && (w == WrapV ==> TypeOf(x, ctx).value.kind == B)
    ensures Emit(Wrap(w, x), false, ctx) == WrapScript(w, Emit(x, false, ctx), ctx)
    ensures Translate(Wrap(w, x), ctx) == WrapScript(w, Translate(x, ctx), ctx)
  {
    if w == WrapV {
      FlagVerifies(x, ctx);
    } else {
      EmitWrapIs(w, Emit(x, false, ctx), false, ctx);
    }
  }

  /** Each pk_k makes the emitted script longer than that of BIP 379 by a CHECKSIGVERIFY. */
  lemma {:induction false} EmitMore(m: Weight, e: Expr, ctx: Context)
    requires TypeOf(e, ctx).Some? && m([Check(CheckSig, true)]) == 1
    ensures More(m, Emit(e, false, ctx), Translate(e, ctx), KeyCount(e))
    decreases e
  {
    match e
    case PkK(key) => KeyMore(m, key, ctx);
    case AndOr(x, y, z) =>
      EmitMore(m, x, ctx);
      EmitMore(m, y, ctx);
      EmitMore(m, z, ctx);
      AndOrMore(m, Emit(x, false, ctx), Emit(y, false, ctx), Emit(z, false, ctx),
                Translate(x, ctx), Translate(y, ctx), Translate(z, ctx), KeyCount(x), KeyCount(y), KeyCount(z));
    case Binary(op, x, y) =>
      EmitMore(m, x, ctx);
      EmitMore(m, y, ctx);
      EmitNotEmpty(y, false, ctx);
      TranslateNotEmpty(y, ctx);
      BinaryMore(m, op, Emit(x, false, ctx), Emit(y, false, ctx), Translate(x, ctx), Translate(y, ctx), KeyCount(x), KeyCount(y), ctx);
    case Thresh(k, subs) =>
      StepsMore(m, subs, 0, true, ctx);
      ThreshMore(m, EmitSteps(subs, 0, ctx), TranslateSum(subs, true, ctx), Length(subs) >= 2, KeyCounts(subs), k, ctx);
    case Wrap(w, x) =>
      EmitMore(m, x, ctx);
      EmitNotEmpty(x, false, ctx);
      TranslateNotEmpty(x, ctx);
      WrapNode(w, x, ctx);
      WrapMore(m, w, Emit(x, false, ctx), Translate(x, ctx), KeyCount(x), ctx);
    case _ => EmitLeafIs(e, false, ctx);
  }

  /** The ADD that is emitted after the children from step i on and belongs to one of them. */
  function LateAdd(m: Weight, l: Exprs, i: nat): nat {
    if (i == 0 && Length(l) >= 2) || (i == 1 && l.Cons?) then m([Code(OpAdd)]) else 0
  }

  lemma {:induction false} StepsMore(m: Weight, l: Exprs, i: nat, first: bool, ctx: Context)
    requires CountSubs(l, first, ctx).Some? && (first <==> i == 0) && m([Check(CheckSig, true)]) == 1
    ensures m(EmitSteps(l, i, ctx)) + LateAdd(m, l, i) == m(TranslateSum(l, first, ctx)) + KeyCounts(l)
    decreases l
  {
    match l
    case Nil =>
    case Cons(head, tail) =>
      EmitMore(m, head, ctx);
      StepsMore(m, tail, i + 1, false, ctx);
      assert LateAdd(m, l, i) + (if i > 1 then m([Code(OpAdd)]) else 0) == LateAdd(m, tail, i + 1) + (if first then 0 else m([Code(OpAdd)])) by {
        assert Length(l) == 1 + Length(tail) && (Length(tail) == 0 <==> tail.Nil?);
      }
      StepsCons(head, tail, i, ctx);
      SumCons(head, tail, first, ctx);
      Split(m, if i > 1 then [Code(OpAdd)] else [], Emit(head, false, ctx), EmitSteps(tail, i + 1, ctx));
      Split(m, Translate(head, ctx), if first then [] else [Code(OpAdd)], TranslateSum(tail, false, ctx));
  }

  lemma ThreshMore(m: Weight, steps: Script, sum: Script, add: bool, n: nat, k: nat, ctx: Context)
    requires m(steps) + (if add then m([Code(OpAdd)]) else 0) == m(sum) + n
    ensures More(m, steps + (if add then [Code(OpAdd)] else []) + Num(k, ctx) + [Check(Equal, false)], sum + Num(k, ctx) + [Check(Equal, false)], n)
  {
    var adds := if add then [Code(OpAdd)] else [];
    Split(m, steps, adds, Num(k, ctx));
    assert Splits(m, steps + adds + Num(k, ctx), [Check(Equal, false)]);
    Split(m, sum, Num(k, ctx), [Check(Equal, false)]);
  }

  lemma SizeAddsUp()
    ensures AddsUp(Size) && AddsUp(NonPushes)
  {
    forall a: Script, b: Script
      ensures Splits(Size, a, b) && Splits(NonPushes, a, b)
    {
      Concat(a, b);
    }
    forall s: Script
      ensures Absorbs(Size, s) && Absorbs(NonPushes, s)
    {
      VerifyMeasure(s);
    }
  }

  /** The emitted script is one byte and one operation longer than that of BIP 379 for each pk_k. */
  lemma EmitLonger(e: Expr, ctx: Context)
    requires TypeOf(e, ctx).Some?
    ensures Measures(Emit(e, false, ctx), Size(Translate(e, ctx)) + KeyCount(e), NonPushes(Translate(e, ctx)) + KeyCount(e))
  {
    SizeAddsUp();
    Atom(Check(CheckSig, true));
    EmitMore(Size, e, ctx);
    EmitMore(NonPushes, e, ctx);
  }

  /** The app emits the script of BIP 379 if and only if the expression has no pk_k. */
  lemma EmitsTranslationIff(e: Expr, ctx: Context)
    requires TypeOf(e, ctx).Some?
    ensures Emit(e, false, ctx) == Translate(e, ctx) <==> KeyCount(e) == 0
  {
    EmitLonger(e, ctx);
    if KeyCount(e) == 0 {
      NoKeys(e);
      EmitIs(e, ctx);
    }
  }

  lemma {:induction false} NoKeys(e: Expr)
    requires KeyCount(e) == 0
    ensures KeysFirst(e) && Verified(e) == e
    decreases e
  {
    match e
    case AndOr(x, y, z) =>
      NoKeys(x);
      NoKeys(y);
      NoKeys(z);
    case Binary(_, x, y) =>
      NoKeys(x);
      NoKeys(y);
    case Thresh(_, subs) => NoneKeys(subs);
    case Wrap(_, x) => NoKeys(x);
    case _ =>
  }

  lemma {:induction false} NoneKeys(l: Exprs)
    requires KeyCounts(l) == 0
    ensures AllKeysFirst(l) && AllVerified(l) == l
    decreases l
  {
    match l
    case Nil =>
    case Cons(head, tail) =>
      NoKeys(head);
      NoneKeys(tail);
  }
}
