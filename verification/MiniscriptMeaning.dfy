/**
 The script of every expression that is accepted and whose and_v have a first child of type V does what
 its ways say: a witness makes the script succeed exactly if it is one of the ways to satisfy the expression.
 */
module MiniscriptMeaning {
  import opened Wrappers
  import opened Miniscript
  import opened MiniscriptWays
  import opened MiniscriptShape
  import opened Scripts
  import opened ScriptMachine
  import opened MiniscriptExecution
  import opened MiniscriptFragments
  import opened MiniscriptLeaves
  import opened MiniscriptSums

  /** What a script of each type does; a key that is left on the stack is for a CHECKSIG. */
  ghost predicate Means(tx: Tx, s: Script, t: Type, p: Both) {
    match t.kind
    case B => Does(tx, s, false, t.u, p)
    case V => Does(tx, s, true, false, p) && p.dsat == iset{}
    case K => Proper(tx, s) && Does(tx, s + CHECKSIG, false, true, p)
    case W => DoesBeside(tx, s, t.u, p)
  }

  lemma MeansProper(tx: Tx, s: Script, t: Type, p: Both)
    requires Means(tx, s, t, p)
    ensures Proper(tx, s)
  {}

  /** What follows an expression of a type before it answers. */
  function Fin(kind: Kind): Script {
    if kind == K then CHECKSIG else []
  }

  lemma ProperFin(tx: Tx, kind: Kind)
    ensures Proper(tx, Fin(kind))
  {
    ProperPlain(tx, Fin(kind));
  }

  /** The types B, V and K in one form. */
  lemma MeansDoes(tx: Tx, s: Script, t: Type, p: Both, u: bool)
    requires Means(tx, s, t, p) && t.kind != W && (u ==> t.u)
    ensures Does(tx, s + Fin(t.kind), t.kind == V, t.kind == K || (t.kind == B && u), p)
  {
    assert s + [] == s;
    if t.kind == B && !u {
      DoesWeaker(tx, s, false, t.u, p);
    }
  }

  lemma DoesMeans(tx: Tx, s: Script, t: Type, p: Both)
    requires Proper(tx, s) && t.kind != W && (t.kind == V ==> p.dsat == iset{})
    requires Does(tx, s + Fin(t.kind), t.kind == V, t.kind == K || (t.kind == B && t.u), p)
    ensures Means(tx, s, t, p)
  {
    assert s + [] == s;
  }

  lemma NoneEach(A: Ways, B: Ways, C: Ways, D: Ways)
    requires A == iset{} && C == iset{}
    ensures Each(A, B) + Each(C, D) == iset{}
  {}

  // ---- nodes ----

  lemma AndOrMeans(tx: Tx, x: Script, y: Script, z: Script, xt: Type, yt: Type, zt: Type, xp: Both, yp: Both, zp: Both)
    requires AndOrType(Some(xt), Some(yt), Some(zt)).Some?
    requires Means(tx, x, xt, xp) && Means(tx, y, yt, yp) && Means(tx, z, zt, zp)
    ensures Means(tx, AndOrScript(x, y, z), AndOrType(Some(xt), Some(yt), Some(zt)).value, AndOrWays(xp, yp, zp, true))
  {
    var t := AndOrType(Some(xt), Some(yt), Some(zt)).value;
    var fin := Fin(t.kind);
    MeansProper(tx, y, yt, yp);
    MeansProper(tx, z, zt, zp);
    ProperFin(tx, t.kind);
    MeansDoes(tx, y, yt, yp, t.u);
    MeansDoes(tx, z, zt, zp, t.u);
    AndOrDoes(tx, x, y, z, fin, t.kind == V, t.kind == K || (t.kind == B && t.u), xp, yp, zp);
    if t.kind == V {
      NoneEach(zp.dsat, xp.dsat, yp.dsat, xp.sat);
    }
    DoesMeans(tx, AndOrScript(x, y, z), t, AndOrWays(xp, yp, zp, true));
  }

  lemma AndVMeans(tx: Tx, x: Script, y: Script, xt: Type, yt: Type, xp: Both, yp: Both)
    requires AndVType(xt, yt).Some? && xt.kind == V && Means(tx, x, xt, xp) && Means(tx, y, yt, yp)
    ensures Means(tx, x + y, AndVType(xt, yt).value, ThenWays(xp, yp))
  {
    var t := AndVType(xt, yt).value;
    MeansProper(tx, y, yt, yp);
    ProperConcat(tx, x, y);
    MeansDoes(tx, y, yt, yp, t.u);
    ThenDoes(tx, x, y + Fin(t.kind), t.kind == V, t.kind == K || (t.kind == B && t.u), xp, yp);
    assert x + y + Fin(t.kind) == x + (y + Fin(t.kind));
    JustNothing(xp.sat);
    DoesMeans(tx, x + y, t, ThenWays(xp, yp));
  }

  lemma OrIMeans(tx: Tx, x: Script, y: Script, xt: Type, yt: Type, xp: Both, yp: Both)
    requires OrIType(xt, yt).Some? && Means(tx, x, xt, xp) && Means(tx, y, yt, yp)
    ensures Means(tx, Block(OpIf, x, y), OrIType(xt, yt).value, BinaryWays(OrI, xp, yp, true))
  {
    var t := OrIType(xt, yt).value;
    MeansProper(tx, x, xt, xp);
    MeansProper(tx, y, yt, yp);
    ProperFin(tx, t.kind);
    ExecBlock(tx, OpIf, x, y);
    MeansDoes(tx, x, xt, xp, t.u);
    MeansDoes(tx, y, yt, yp, t.u);
    IfDoes(tx, x, y, Fin(t.kind), t.kind == V, t.kind == K || (t.kind == B && t.u), xp, yp);
    if t.kind == V {
      NoneEach(xp.dsat, Just([True]), yp.dsat, Just([Empty]));
    }
    DoesMeans(tx, Block(OpIf, x, y), t, BinaryWays(OrI, xp, yp, true));
  }

  lemma BinaryMeans(tx: Tx, op: BinOp, x: Script, y: Script, xt: Type, yt: Type, xp: Both, yp: Both, ctx: Context)
    requires BinaryType(op, Some(xt), Some(yt)).Some? && (op == AndV ==> xt.kind == V)
    requires Means(tx, x, xt, xp) && Means(tx, y, yt, yp)
    ensures Means(tx, BinaryScript(op, x, y, ctx), BinaryType(op, Some(xt), Some(yt)).value, BinaryWays(op, xp, yp, true))
  {
    match op
    case AndV =>
      AndVMeans(tx, x, y, xt, yt, xp, yp);
    case AndB =>
      DoesWeaker(tx, x, false, xt.u, xp);
      BoolDoes(tx, x, y, true, yt.u, xp, yp);
    case OrB =>
      DoesWeaker(tx, x, false, xt.u, xp);
      BoolDoes(tx, x, y, false, yt.u, xp, yp);
    case AndN =>
      AndNDoes(tx, x, y, yt.u, xp, yp, ctx);
    case OrC =>
      OrCDoes(tx, x, y, xp, yp);
      assert BinaryScript(OrC, x, y, ctx) == x + ShortBlock(OpNotIf, y);
    case OrD =>
      OrDDoes(tx, x, y, yt.u, xp, yp, ctx);
      assert BinaryScript(OrD, x, y, ctx) == x + ([Code(OpIfDup)] + ShortBlock(OpNotIf, y));
    case OrI =>
      OrIMeans(tx, x, y, xt, yt, xp, yp);
      assert BinaryScript(OrI, x, y, ctx) == Block(OpIf, x, y);
  }

  lemma WrapMeans(tx: Tx, w: Wrapper, x: Script, xt: Type, xp: Both, ctx: Context)
    requires WrapType(w, Some(xt), ctx).Some? && Means(tx, x, xt, xp) && Shaped(xt, xp)
    ensures Means(tx, WrapScript(w, x, ctx), WrapType(w, Some(xt), ctx).value, WrapWays(w, xp, true))
  {
    match w
    case WrapA => AsideDoes(tx, x, xt.u, xp);
    case WrapS => SwappedDoes(tx, x, xt.u, xp);
    case WrapC =>
    case WrapT => ThenOneDoes(tx, x, xp, ctx);
    case WrapD =>
      DupIfDoes(tx, x, xp, ctx);
      assert WrapScript(WrapD, x, ctx) == [Code(OpDup)] + ShortBlock(OpIf, x);
      DoesWeaker(tx, WrapScript(WrapD, x, ctx), false, true, WrapWays(WrapD, xp, true));
    case WrapV => VerifyDoes(tx, x, xt.u, xp);
    case WrapJ =>
      NonZeroIfDoes(tx, x, xt.u, xp);
      assert WrapScript(WrapJ, x, ctx) == NonZeroScript(x);
    case WrapN => NonZeroDoes(tx, x, xt.u, xp);
    case WrapL =>
      UnlikelyDoes(tx, x, xt.u, xp, ctx);
      assert WrapScript(WrapL, x, ctx) == Block(OpIf, Num(0, ctx), x);
    case WrapU =>
      UnlikelyDoes(tx, x, xt.u, xp, ctx);
      assert WrapScript(WrapU, x, ctx) == Block(OpIf, x, Num(0, ctx));
  }

  lemma LeafMeans(tx: Tx, e: Expr, ctx: Context)
    requires !e.AndOr? && !e.Binary? && !e.Thresh? && !e.Wrap? && TypeOf(e, ctx).Some?
    ensures Means(tx, Translate(e, ctx), TypeOf(e, ctx).value, WaysOf(e, true))
  {
    match e
    case Zero => PushDoes(tx, ctx, false, true);
    case One => PushDoes(tx, ctx, true, true);
    case PkK(key) =>
      ProperOne(tx, PushOf(KeyBytes(key), ctx));
      KeyDoes(tx, key, ctx);
    case PkH(key) =>
      ProperPlain(tx, PkHScript(key, ctx));
      KeyHashDoes(tx, key, ctx);
    case Pk(key) =>
      KeyDoes(tx, key, ctx);
      assert Translate(e, ctx) == [PushOf(KeyBytes(key), ctx)] + CHECKSIG;
    case Pkh(key) => KeyHashDoes(tx, key, ctx);
    case Multi(k, keys) => MultiDoes(tx, k, keys, ctx);
    case MultiA(k, keys) => MultiADoes(tx, k, keys, ctx);
    case Older(n) => LockDoes(tx, Relative(n), ctx);
    case After(n) => LockDoes(tx, Absolute(n), ctx);
    case HashLock(kind, image) => HashDoes(tx, kind, image, ctx);
  }

  // ---- all expressions ----

  /** The first child of every and_v is of type V, which the parser does not check. */
  predicate FirstVerifies(e: Expr, ctx: Context)
    decreases e
  {
    match e
    case AndOr(x, y, z) => FirstVerifies(x, ctx) && FirstVerifies(y, ctx) && FirstVerifies(z, ctx)
    case Binary(op, x, y) =>
      FirstVerifies(x, ctx) && FirstVerifies(y, ctx)
      && (op == AndV && TypeOf(x, ctx).Some? ==> TypeOf(x, ctx).value.kind == V)
    case Thresh(_, subs) => AllFirstVerify(subs, ctx)
    case Wrap(_, x) => FirstVerifies(x, ctx)
    case _ => true
  }

  predicate AllFirstVerify(l: Exprs, ctx: Context)
    decreases l
  {
    match l
    case Nil => true
    case Cons(head, tail) => FirstVerifies(head, ctx) && AllFirstVerify(tail, ctx)
  }

  /** The parts of a thresh. */
  ghost function PartsOf(l: Exprs, ctx: Context): seq<Part>
    decreases l
  {
    match l
    case Nil => []
    case Cons(head, tail) => [Part(Translate(head, ctx), WaysOf(head, true))] + PartsOf(tail, ctx)
  }

  lemma {:induction false} PartsTranslate(l: Exprs, ctx: Context)
    ensures TranslateSum(l, false, ctx) == SumScript(PartsOf(l, ctx)) && ListWays(l, true) == PartWays(PartsOf(l, ctx))
    decreases l
  {
    match l
    case Nil =>
    case Cons(head, tail) =>
      PartsTranslate(tail, ctx);
      var part, parts := Part(Translate(head, ctx), WaysOf(head, true)), PartsOf(tail, ctx);
      assert ([part] + parts)[1..] == parts;
  }

  lemma Regroup(x: Script, sum: Script, a: Script, b: Script)
    ensures x + [] + sum + a + b == x + sum + (a + b)
  {}

  lemma ThreshTranslates(k: nat, head: Expr, tail: Exprs, ctx: Context)
    ensures Translate(Thresh(k, Cons(head, tail)), ctx) ==
              Translate(head, ctx) + SumScript(PartsOf(tail, ctx)) + (Num(k, ctx) + [Check(Equal, false)])
  {
    PartsTranslate(tail, ctx);
    Regroup(Translate(head, ctx), SumScript(PartsOf(tail, ctx)), Num(k, ctx), [Check(Equal, false)]);
  }

  lemma ThreshWaysOf(k: nat, head: Expr, tail: Exprs, ctx: Context)
    ensures WaysOf(Thresh(k, Cons(head, tail)), true) == ThreshWays(k, [WaysOf(head, true)] + PartWays(PartsOf(tail, ctx)), true)
  {
    PartsTranslate(tail, ctx);
  }

  lemma ThreshMeans(tx: Tx, k: nat, head: Expr, tail: Exprs, ctx: Context)
    requires k >= 1 && Does(tx, Translate(head, ctx), false, true, WaysOf(head, true)) && AllBeside(tx, PartsOf(tail, ctx))
    ensures Does(tx, Translate(Thresh(k, Cons(head, tail)), ctx), false, true, WaysOf(Thresh(k, Cons(head, tail)), true))
  {
    ThreshDoes(tx, k, Part(Translate(head, ctx), WaysOf(head, true)), PartsOf(tail, ctx), ctx);
    ThreshTranslates(k, head, tail, ctx);
    ThreshWaysOf(k, head, tail, ctx);
  }

  /** The script of an accepted expression means what its ways say, where the first child of every and_v is of type V. */
  lemma {:induction false} EveryMeans(tx: Tx, e: Expr, ctx: Context)
    requires TypeOf(e, ctx).Some? && FirstVerifies(e, ctx)
    ensures Means(tx, Translate(e, ctx), TypeOf(e, ctx).value, WaysOf(e, true))
    decreases e
  {
    match e
    case AndOr(x, y, z) =>
      EveryMeans(tx, x, ctx);
      EveryMeans(tx, y, ctx);
      EveryMeans(tx, z, ctx);
      AndOrMeans(tx, Translate(x, ctx), Translate(y, ctx), Translate(z, ctx),
                 TypeOf(x, ctx).value, TypeOf(y, ctx).value, TypeOf(z, ctx).value,
                 WaysOf(x, true), WaysOf(y, true), WaysOf(z, true));
    case Binary(op, x, y) =>
      EveryMeans(tx, x, ctx);
      EveryMeans(tx, y, ctx);
      BinaryMeans(tx, op, Translate(x, ctx), Translate(y, ctx), TypeOf(x, ctx).value, TypeOf(y, ctx).value,
                  WaysOf(x, true), WaysOf(y, true), ctx);
    case Thresh(k, subs) =>
      EveryMeans(tx, subs.head, ctx);
      EveryChildMeans(tx, subs.tail, ctx);
      ThreshMeans(tx, k, subs.head, subs.tail, ctx);
    case Wrap(w, x) =>
      EveryMeans(tx, x, ctx);
      EveryShaped(x, ctx);
      WrapMeans(tx, w, Translate(x, ctx), TypeOf(x, ctx).value, WaysOf(x, true), ctx);
    case _ =>
      LeafMeans(tx, e, ctx);
  }

  lemma {:induction false} EveryChildMeans(tx: Tx, l: Exprs, ctx: Context)
    requires CountSubs(l, false, ctx).Some? && AllFirstVerify(l, ctx)
    ensures AllBeside(tx, PartsOf(l, ctx))
    decreases l
  {
    match l
    case Nil =>
    case Cons(head, tail) =>
      EveryMeans(tx, head, ctx);
      EveryChildMeans(tx, tail, ctx);
      var part, parts := Part(Translate(head, ctx), WaysOf(head, true)), PartsOf(tail, ctx);
      assert ([part] + parts)[1..] == parts && ([part] + parts)[0] == part;
  }

  /** The items are one of the ways, and the transaction meets its locks. */
  ghost predicate IsWay(tx: Tx, A: Ways, items: Elements) {
    exists w :: w in A && w.items == items && Held(tx, w.locks)
  }

  /**
   A witness makes the script of an expression of type B succeed exactly if it is a way to satisfy
   the expression whose timelocks the transaction meets, and end in 0 exactly if it is a way to dissatisfy it.
   */
  lemma AcceptsIff(tx: Tx, e: Expr, ctx: Context, items: Elements)
    requires TypeOf(e, ctx).Some? && TypeOf(e, ctx).value.kind == B && FirstVerifies(e, ctx)
    ensures Accepts(tx, Translate(e, ctx), items) <==> IsWay(tx, WaysOf(e, true).sat, items)
    ensures Declines(tx, Translate(e, ctx), items) <==> IsWay(tx, WaysOf(e, true).dsat, items)
  {
    EveryMeans(tx, e, ctx);
    DoesAccepts(tx, Translate(e, ctx), TypeOf(e, ctx).value.u, WaysOf(e, true), items);
  }

  lemma DoesAccepts(tx: Tx, s: Script, u: bool, p: Both, items: Elements)
    requires Does(tx, s, false, u, p)
    ensures Accepts(tx, s, items) <==> IsWay(tx, p.sat, items)
    ensures Declines(tx, s, items) <==> IsWay(tx, p.dsat, items)
  {
    ProperEnds(tx, s, items, []);
    if Accepts(tx, s, items) || Declines(tx, s, items) {
      var base, w, sat := Explained(tx, s, false, u, p, items, []);
      assert base == [] && items == w.items;
      assert Exec(tx, s, items, []).stack[0] == Empty <==> !sat;
    }
    if IsWay(tx, p.sat, items) {
      var w :| w in p.sat && w.items == items && Held(tx, w.locks);
      WayEnds(tx, s, u, p, w, true);
    }
    if IsWay(tx, p.dsat, items) {
      var w :| w in p.dsat && w.items == items && Held(tx, w.locks);
      WayEnds(tx, s, u, p, w, false);
    }
  }

  lemma WayEnds(tx: Tx, s: Script, u: bool, p: Both, w: Way, sat: bool)
    requires Does(tx, s, false, u, p) && w in Side(p, sat) && Held(tx, w.locks)
    ensures if sat then Accepts(tx, s, w.items) else Declines(tx, s, w.items)
  {
    assert Complete(tx, s, false, u, p, [], w, sat, []);
    assert [] + w.items == w.items;
    ProperEnds(tx, s, w.items, []);
  }
}
