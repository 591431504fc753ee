/** The flags s and f are exact: without them there is a satisfaction, or a dissatisfaction, without a signature. */
module MiniscriptExactness {
  import opened Wrappers
  import opened Miniscript
  import opened MiniscriptInfo
  import opened MiniscriptConsistency
  import opened MiniscriptWays
  import opened ScriptMachine
  import opened MiniscriptSafety

  ghost predicate Frank(i: Info, p: Both) {
    (!i.s ==> !AllSigned(p.sat)) && (!i.f ==> !AllSigned(p.dsat))
  }

  // ---- ways taken together ----

  lemma EachUnsigned(A: Ways, B: Ways)
    ensures !AllSigned(A) && !AllSigned(B) ==> !AllSigned(Each(A, B))
  {
    if !AllSigned(A) && !AllSigned(B) {
      var a :| a in A && !Signed(a.items);
      var b :| b in B && !Signed(b.items);
      SignedJoin(a, b);
      assert Join(a, b) in Each(A, B);
    }
  }

  lemma UnionUnsigned(A: Ways, B: Ways)
    ensures !AllSigned(A) || !AllSigned(B) ==> !AllSigned(A + B)
  {}

  lemma FreeUnsigned(A: Ways)
    ensures SomeFree(A) ==> !AllSigned(A)
  {}

  lemma TaggedUnsigned(A: Ways, tag: Element)
    requires !tag.Sig?
    ensures !AllSigned(A) ==> !AllSigned(Each(A, Just([tag])))
  {
    JustFree([tag]);
    FreeUnsigned(Just([tag]));
    EachUnsigned(A, Just([tag]));
  }

  // ---- nodes ----

  lemma AndOrFrank(x: Type, y: Type, z: Type, xi: Info, yi: Info, zi: Info, xp: Both, yp: Both, zp: Both)
    requires AndOrType(Some(x), Some(y), Some(z)).Some? && SomeFree(xp.dsat)
    requires Frank(xi, xp) && Frank(yi, yp) && Frank(zi, zp)
    ensures Frank(AndOrInfo(xi, yi, zi), AndOrWays(xp, yp, zp, true))
  {
    FreeUnsigned(xp.dsat);
    EachUnsigned(yp.sat, xp.sat);
    EachUnsigned(zp.sat, xp.dsat);
    EachUnsigned(zp.dsat, xp.dsat);
    EachUnsigned(yp.dsat, xp.sat);
    UnionUnsigned(Each(yp.sat, xp.sat), Each(zp.sat, xp.dsat));
    UnionUnsigned(Each(zp.dsat, xp.dsat), Each(yp.dsat, xp.sat));
  }

  lemma BinaryFrank(op: BinOp, x: Type, y: Type, xi: Info, yi: Info, xp: Both, yp: Both)
    requires BinaryType(op, Some(x), Some(y)).Some? && Guarded(x, xi, xp) && Guarded(y, yi, yp)
    requires Frank(xi, xp) && Frank(yi, yp)
    ensures Frank(BinaryInfo(op, xi, yi), BinaryWays(op, xp, yp, true))
  {
    FreeUnsigned(xp.dsat);
    FreeUnsigned(yp.dsat);
    EachUnsigned(yp.sat, xp.sat);
    EachUnsigned(yp.sat, xp.dsat);
    EachUnsigned(yp.dsat, xp.sat);
    EachUnsigned(yp.dsat, xp.dsat);
    match op
    case AndV =>
    case AndB =>
      UnionUnsigned(Each(yp.sat, xp.dsat), Each(yp.dsat, xp.sat));
      UnionUnsigned(Each(yp.dsat, xp.dsat), Each(yp.sat, xp.dsat) + Each(yp.dsat, xp.sat));
    case AndN => UnionUnsigned(xp.dsat, Each(yp.dsat, xp.sat));
    case OrB =>
      UnionUnsigned(Each(yp.dsat, xp.sat), Each(yp.sat, xp.dsat));
      UnionUnsigned(Each(yp.dsat, xp.sat) + Each(yp.sat, xp.dsat), Each(yp.sat, xp.sat));
    case OrC => UnionUnsigned(xp.sat, Each(yp.sat, xp.dsat));
    case OrD => UnionUnsigned(xp.sat, Each(yp.sat, xp.dsat));
    case OrI =>
      TaggedUnsigned(xp.sat, True);
      TaggedUnsigned(yp.sat, Empty);
      TaggedUnsigned(xp.dsat, True);
      TaggedUnsigned(yp.dsat, Empty);
      UnionUnsigned(Each(xp.sat, Just([True])), Each(yp.sat, Just([Empty])));
      UnionUnsigned(Each(xp.dsat, Just([True])), Each(yp.dsat, Just([Empty])));
  }

  lemma WrapFrank(w: Wrapper, x: Type, xi: Info, xp: Both, ctx: Context)
    requires WrapType(w, Some(x), ctx).Some? && Frank(xi, xp)
    ensures Frank(WrapInfo(w, xi), WrapWays(w, xp, true))
  {
    JustFree([Empty]);
    JustFree([True]);
    FreeUnsigned(Just([Empty]));
    FreeUnsigned(Just([True]));
    TaggedUnsigned(xp.sat, True);
    TaggedUnsigned(xp.sat, Empty);
    match w
    case WrapJ => UnionUnsigned(Just([Empty]), WithTop(xp.dsat));
    case WrapL => UnionUnsigned(Just([True]), Each(xp.dsat, Just([Empty])));
    case WrapU => UnionUnsigned(Each(xp.dsat, Just([True])), Just([Empty]));
    case _ =>
  }

  lemma LeafFrank(e: Expr, ctx: Context)
    requires !e.AndOr? && !e.Binary? && !e.Thresh? && !e.Wrap? && Accepted(e, ctx)
    ensures Frank(InfoOf(e, ctx).value, WaysOf(e, true))
  {
    match e
    case Zero => JustFree([]);
    case One => JustFree([]);
    case PkK(key) => KeyGuarded(key);
    case PkH(key) => KeyGuarded(key);
    case Pk(key) => KeyGuarded(key);
    case Pkh(key) => KeyGuarded(key);
    case Multi(k, keys) => MultiGuarded(k, keys);
    case MultiA(k, keys) => MultiAGuarded(k, keys);
    case Older(n) => assert Way([], {Relative(n)}, 0) in Locked(Relative(n));
    case After(n) => assert Way([], {Absolute(n)}, 0) in Locked(Absolute(n));
    case HashLock(kind, image) =>
      JustFree([Preimage(kind, image)]);
      assert ElementLength(Other(0)) == 32 && Way([Other(0)], {}, 0) in WrongPreimages(kind, image);
  }

  // ---- thresh ----

  ghost predicate FrankChildren(infos: seq<Info>, ps: seq<Both>) {
    |infos| == |ps| && forall i :: 0 <= i < |ps| ==> !infos[i].s ==> !AllSigned(ps[i].sat)
  }

  lemma FrankPrefix(infos: seq<Info>, ps: seq<Both>, n: nat)
    requires FrankChildren(infos, ps) && FreeChildren(ps) && |ps| == n + 1
    ensures FrankChildren(infos[..n], ps[..n]) && FreeChildren(ps[..n])
    ensures (!infos[n].s ==> !AllSigned(ps[n].sat)) && SomeFree(ps[n].dsat)
    ensures Unsafe(infos) == Unsafe(infos[..n]) + (if infos[n].s then 0 else 1)
  {}

  lemma OneMoreUnsigned(A: Ways, B: Ways, last: Both)
    requires (!AllSigned(A) && !AllSigned(last.dsat)) || (!AllSigned(B) && !AllSigned(last.sat))
    ensures !AllSigned(Each(last.dsat, A) + Each(last.sat, B))
  {
    EachUnsigned(last.dsat, A);
    EachUnsigned(last.sat, B);
    UnionUnsigned(Each(last.dsat, A), Each(last.sat, B));
  }

  /** If k children can be satisfied without a signature, there is a choice without one. */
  lemma {:induction false} ChooseUnsigned(infos: seq<Info>, ps: seq<Both>, k: nat)
    requires FrankChildren(infos, ps) && FreeChildren(ps) && k <= Unsafe(infos)
    ensures !AllSigned(Choose(ps, k))
    decreases |ps|
  {
    if |ps| == 0 {
      assert Nothing in Choose(ps, k);
    } else {
      var n := |ps| - 1;
      FrankPrefix(infos, ps, n);
      FreeUnsigned(ps[n].dsat);
      if k > 0 && !infos[n].s {
        ChooseUnsigned(infos[..n], ps[..n], k - 1);
        LastSatisfied(ps, n, k);
      } else {
        ChooseUnsigned(infos[..n], ps[..n], k);
        LastDissatisfied(ps, n, k);
      }
    }
  }

  lemma LastSatisfied(ps: seq<Both>, n: nat, k: int)
    requires |ps| == n + 1 && !AllSigned(Choose(ps[..n], k - 1)) && !AllSigned(ps[n].sat)
    ensures !AllSigned(Choose(ps, k))
  {
    OneMoreUnsigned(Choose(ps[..n], k), Choose(ps[..n], k - 1), ps[n]);
  }

  lemma LastDissatisfied(ps: seq<Both>, n: nat, k: int)
    requires |ps| == n + 1 && !AllSigned(Choose(ps[..n], k)) && !AllSigned(ps[n].dsat)
    ensures !AllSigned(Choose(ps, k))
  {
    OneMoreUnsigned(Choose(ps[..n], k), Choose(ps[..n], k - 1), ps[n]);
  }

  lemma ThreshFrank(k: nat, infos: seq<Info>, ps: seq<Both>)
    requires FrankChildren(infos, ps) && GuardedChildren(infos, ps) && ThreshInfo(k, Some(infos)).Some?
    ensures Frank(ThreshInfo(k, Some(infos)).value, ThreshWays(k, ps, true))
  {
    UnsafeCount(infos);
    ThreshGuarded(k, infos, ps);
    FreeUnsigned(ThreshWays(k, ps, true).dsat);
    if k <= Unsafe(infos) {
      ChooseUnsigned(infos, ps, k);
    }
  }

  // ---- all expressions ----

  lemma {:induction false} EveryFrank(e: Expr, ctx: Context)
    requires Accepted(e, ctx)
    ensures Frank(InfoOf(e, ctx).value, WaysOf(e, true))
    decreases e
  {
    match e
    case AndOr(x, y, z) =>
      EveryFrank(x, ctx);
      EveryFrank(y, ctx);
      EveryFrank(z, ctx);
      EveryGuarded(x, ctx);
      AndOrFrank(TypeOf(x, ctx).value, TypeOf(y, ctx).value, TypeOf(z, ctx).value,
                 InfoOf(x, ctx).value, InfoOf(y, ctx).value, InfoOf(z, ctx).value,
                 WaysOf(x, true), WaysOf(y, true), WaysOf(z, true));
    case Binary(op, x, y) =>
      EveryFrank(x, ctx);
      EveryFrank(y, ctx);
      EveryGuarded(x, ctx);
      EveryGuarded(y, ctx);
      BinaryFrank(op, TypeOf(x, ctx).value, TypeOf(y, ctx).value, InfoOf(x, ctx).value, InfoOf(y, ctx).value,
                  WaysOf(x, true), WaysOf(y, true));
    case Thresh(k, subs) =>
      EveryChildFrank(subs, true, ctx);
      EveryChildGuarded(subs, true, ctx);
      ThreshFrank(k, InfosOf(subs, ctx).value, ListWays(subs, true));
    case Wrap(w, x) =>
      EveryFrank(x, ctx);
      WrapFrank(w, TypeOf(x, ctx).value, InfoOf(x, ctx).value, WaysOf(x, true), ctx);
    case _ =>
      LeafFrank(e, ctx);
  }

  lemma {:induction false} EveryChildFrank(l: Exprs, first: bool, ctx: Context)
    requires CountSubs(l, first, ctx).Some? && InfosOf(l, ctx).Some?
    ensures FrankChildren(InfosOf(l, ctx).value, ListWays(l, true))
    decreases l
  {
    match l
    case Nil =>
    case Cons(head, tail) =>
      EveryFrank(head, ctx);
      EveryChildFrank(tail, false, ctx);
  }

  /** s and f stand for exactly what they promise, in every accepted expression. */
  lemma FlagsExact(e: Expr, ctx: Context)
    requires Accepted(e, ctx)
    ensures InfoOf(e, ctx).value.s <==> AllSigned(WaysOf(e, true).sat)
    ensures InfoOf(e, ctx).value.f <==> AllSigned(WaysOf(e, true).dsat)
  {
    EveryGuarded(e, ctx);
    EveryFrank(e, ctx);
  }
}
