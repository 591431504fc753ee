/** What the flag m promises about satisfactions: at most one of them is without a signature. */
module MiniscriptMalleability {
  import opened Wrappers
  import opened Miniscript
  import opened MiniscriptInfo
  import opened MiniscriptConsistency
  import opened MiniscriptWays
  import opened ScriptMachine
  import opened MiniscriptSafety
  import opened MiniscriptUniqueness

  ghost predicate Settled(i: Info, p: Both) {
    i.m ==> Unique(p.sat)
  }

  lemma SignedUnique(A: Ways)
    ensures AllSigned(A) ==> Unique(A)
  {}

  lemma AndOrSettled(xi: Info, yi: Info, zi: Info, xp: Both, yp: Both, zp: Both)
    requires Settled(xi, xp) && Settled(yi, yp) && Settled(zi, zp) && Expressive(xi, xp)
    requires (xi.s ==> AllSigned(xp.sat)) && (yi.s ==> AllSigned(yp.sat)) && (zi.s ==> AllSigned(zp.sat))
    ensures Settled(AndOrInfo(xi, yi, zi), AndOrWays(xp, yp, zp, true))
  {
    EachUniqueIf(yp.sat, xp.sat);
    EachUniqueIf(zp.sat, xp.dsat);
    EachSigned(yp.sat, xp.sat);
    EachSigned(zp.sat, xp.dsat);
    UnionUnique(Each(yp.sat, xp.sat), Each(zp.sat, xp.dsat));
    UnionUnique(Each(zp.sat, xp.dsat), Each(yp.sat, xp.sat));
  }

  lemma ThreeUnique(a: Ways, b: Ways, c: Ways)
    ensures Unique(a) && AllSigned(b) && AllSigned(c) ==> Unique(a + b + c) && Unique(b + a + c)
  {}

  /** or_b: the ways that satisfy a child with s are signed. */
  lemma OrBSigned(xp: Both, yp: Both)
    requires Unique(yp.sat) && Unique(xp.dsat) && AllSigned(xp.sat)
    ensures Unique(BinaryWays(OrB, xp, yp, true).sat)
  {
    EachUnique(yp.sat, xp.dsat);
    EachSigned(yp.dsat, xp.sat);
    EachSigned(yp.sat, xp.sat);
    ThreeUnique(Each(yp.sat, xp.dsat), Each(yp.dsat, xp.sat), Each(yp.sat, xp.sat));
  }

  lemma OrBSecondSigned(xp: Both, yp: Both)
    requires Unique(xp.sat) && Unique(yp.dsat) && AllSigned(yp.sat)
    ensures Unique(BinaryWays(OrB, xp, yp, true).sat)
  {
    EachUnique(yp.dsat, xp.sat);
    EachSigned(yp.sat, xp.dsat);
    EachSigned(yp.sat, xp.sat);
    ThreeUnique(Each(yp.dsat, xp.sat), Each(yp.sat, xp.dsat), Each(yp.sat, xp.sat));
  }

  /** Either A, or D and then C. */
  lemma CaseSigned(A: Ways, C: Ways, D: Ways)
    requires AllSigned(A) && Unique(C) && Unique(D)
    ensures Unique(A + Each(C, D))
  {
    EachUnique(C, D);
    UnionUnique(Each(C, D), A);
  }

  lemma CaseSecondSigned(A: Ways, C: Ways, D: Ways)
    requires Unique(A) && AllSigned(C)
    ensures Unique(A + Each(C, D))
  {
    EachSigned(C, D);
    UnionUnique(A, Each(C, D));
  }

  /** What m of a disjunction demands. */
  ghost predicate OneSigned(xi: Info, yi: Info, xp: Both, yp: Both) {
    && Unique(xp.sat) && Unique(yp.sat)
    && (xi.s || yi.s)
    && (xi.s ==> AllSigned(xp.sat))
    && (yi.s ==> AllSigned(yp.sat))
  }

  lemma OrBSettled(xi: Info, yi: Info, xp: Both, yp: Both)
    requires OneSigned(xi, yi, xp, yp) && Unique(xp.dsat) && Unique(yp.dsat)
    ensures Unique(BinaryWays(OrB, xp, yp, true).sat)
  {
    if xi.s {
      OrBSigned(xp, yp);
    } else {
      OrBSecondSigned(xp, yp);
    }
  }

  lemma OrDSettled(xi: Info, yi: Info, xp: Both, yp: Both)
    requires OneSigned(xi, yi, xp, yp) && Unique(xp.dsat)
    ensures Unique(xp.sat + Each(yp.sat, xp.dsat))
  {
    if xi.s {
      CaseSigned(xp.sat, yp.sat, xp.dsat);
    } else {
      CaseSecondSigned(xp.sat, yp.sat, xp.dsat);
    }
  }

  lemma OrISettled(xi: Info, yi: Info, xp: Both, yp: Both)
    requires OneSigned(xi, yi, xp, yp)
    ensures Unique(BinaryWays(OrI, xp, yp, true).sat)
  {
    JustUnique([Empty]);
    if xi.s {
      TaggedFacts(xp.sat, True);
      CaseSigned(Each(xp.sat, Just([True])), yp.sat, Just([Empty]));
    } else {
      TaggedUnique(xp.sat, True);
      CaseSecondSigned(Each(xp.sat, Just([True])), yp.sat, Just([Empty]));
    }
  }

  /** A child of a disjunction with m. */
  ghost predicate SettledChild(i: Info, p: Both) {
    Settled(i, p) && Expressive(i, p) && (i.s ==> AllSigned(p.sat))
  }

  lemma OneIsSigned(xi: Info, yi: Info, xp: Both, yp: Both)
    requires SettledChild(xi, xp) && SettledChild(yi, yp) && xi.m && yi.m && (xi.s || yi.s)
    ensures OneSigned(xi, yi, xp, yp) && (xi.e ==> Unique(xp.dsat)) && (yi.e ==> Unique(yp.dsat))
  {}

  lemma OrsSettled(op: BinOp, xi: Info, yi: Info, xp: Both, yp: Both)
    requires op == OrB || op == OrC || op == OrD || op == OrI
    requires SettledChild(xi, xp) && SettledChild(yi, yp) && BinaryInfo(op, xi, yi).m
    ensures Unique(BinaryWays(op, xp, yp, true).sat)
  {
    OneIsSigned(xi, yi, xp, yp);
    if op == OrB {
      OrBSettled(xi, yi, xp, yp);
    } else if op == OrI {
      OrISettled(xi, yi, xp, yp);
    } else {
      OrDSettled(xi, yi, xp, yp);
    }
  }

  lemma BinarySettled(op: BinOp, xi: Info, yi: Info, xp: Both, yp: Both)
    requires SettledChild(xi, xp) && SettledChild(yi, yp)
    ensures Settled(BinaryInfo(op, xi, yi), BinaryWays(op, xp, yp, true))
  {
    if BinaryInfo(op, xi, yi).m {
      if op == AndV || op == AndB || op == AndN {
        EachUnique(yp.sat, xp.sat);
      } else {
        OrsSettled(op, xi, yi, xp, yp);
      }
    }
  }

  lemma WrapSettled(w: Wrapper, xi: Info, xp: Both)
    requires Settled(xi, xp)
    ensures Settled(WrapInfo(w, xi), WrapWays(w, xp, true))
  {
    TaggedUnique(xp.sat, True);
    TaggedUnique(xp.sat, Empty);
  }

  lemma LeafSettled(e: Expr, ctx: Context)
    requires !e.AndOr? && !e.Binary? && !e.Thresh? && !e.Wrap? && Accepted(e, ctx)
    ensures Settled(InfoOf(e, ctx).value, WaysOf(e, true))
  {
    match e
    case Multi(k, keys) =>
      MultiGuarded(k, keys);
      SignedUnique(MultiWays(k, keys).sat);
    case MultiA(k, keys) =>
      MultiAGuarded(k, keys);
      SignedUnique(MultiAWays(k, keys, true).sat);
    case _ =>
  }

  // ---- thresh ----

  ghost predicate SettledChildren(infos: seq<Info>, ps: seq<Both>) {
    SignedChildren(infos, ps) && forall i :: 0 <= i < |ps| ==> Unique(ps[i].sat) && Unique(ps[i].dsat)
  }

  lemma SettledPrefix(infos: seq<Info>, ps: seq<Both>, n: nat)
    requires SettledChildren(infos, ps) && |ps| == n + 1
    ensures SettledChildren(infos[..n], ps[..n]) && Unique(ps[n].sat) && Unique(ps[n].dsat)
  {}

  lemma LastSigned(ps: seq<Both>, n: nat, k: int)
    requires |ps| == n + 1 && Unique(ps[n].dsat) && AllSigned(ps[n].sat) && Unique(Choose(ps[..n], k))
    ensures Unique(Choose(ps, k))
  {
    EachUnique(ps[n].dsat, Choose(ps[..n], k));
    EachSigned(ps[n].sat, Choose(ps[..n], k - 1));
    UnionUnique(Each(ps[n].dsat, Choose(ps[..n], k)), Each(ps[n].sat, Choose(ps[..n], k - 1)));
  }

  lemma LastUnsafe(ps: seq<Both>, n: nat, k: int)
    requires |ps| == n + 1 && Unique(ps[n].sat) && AllSigned(Choose(ps[..n], k)) && Unique(Choose(ps[..n], k - 1))
    ensures Unique(Choose(ps, k))
  {
    EachUnique(ps[n].sat, Choose(ps[..n], k - 1));
    EachSigned(ps[n].dsat, Choose(ps[..n], k));
    UnionUnique(Each(ps[n].sat, Choose(ps[..n], k - 1)), Each(ps[n].dsat, Choose(ps[..n], k)));
  }

  /** If at most k children can be satisfied without a signature, at most one choice of k is without one. */
  lemma {:induction false} ChooseSettled(infos: seq<Info>, ps: seq<Both>, k: int)
    requires SettledChildren(infos, ps) && Unsafe(infos) <= k
    ensures Unique(Choose(ps, k))
    decreases |ps|
  {
    if |ps| > 0 {
      var n := |ps| - 1;
      SettledPrefix(infos, ps, n);
      SignedPrefix(infos, ps, n);
      if infos[n].s {
        ChooseSettled(infos[..n], ps[..n], k);
        LastSigned(ps, n, k);
      } else {
        ChooseSigned(infos[..n], ps[..n], k);
        ChooseSettled(infos[..n], ps[..n], k - 1);
        LastUnsafe(ps, n, k);
      }
    } else {
      NoneUnique(Choose(ps, k));
    }
  }

  lemma NoneUnique(A: Ways)
    requires A <= iset{Nothing}
    ensures Unique(A)
  {}

  // ---- all expressions ----

  lemma {:induction false} EverySettled(e: Expr, ctx: Context)
    requires Accepted(e, ctx) && ChildrenHaveM(e, ctx)
    ensures Settled(InfoOf(e, ctx).value, WaysOf(e, true))
    decreases e
  {
    match e
    case AndOr(x, y, z) =>
      EverySettled(x, ctx);
      EverySettled(y, ctx);
      EverySettled(z, ctx);
      EveryExpressive(x, ctx);
      EveryGuarded(x, ctx);
      EveryGuarded(y, ctx);
      EveryGuarded(z, ctx);
      AndOrSettled(InfoOf(x, ctx).value, InfoOf(y, ctx).value, InfoOf(z, ctx).value,
                   WaysOf(x, true), WaysOf(y, true), WaysOf(z, true));
    case Binary(op, x, y) =>
      EverySettled(x, ctx);
      EverySettled(y, ctx);
      EveryExpressive(x, ctx);
      EveryExpressive(y, ctx);
      EveryGuarded(x, ctx);
      EveryGuarded(y, ctx);
      BinarySettled(op, InfoOf(x, ctx).value, InfoOf(y, ctx).value, WaysOf(x, true), WaysOf(y, true));
    case Thresh(k, subs) =>
      EveryChildGuarded(subs, true, ctx);
      EveryChildUnique(subs, true, ctx);
      EveryChildSettled(subs, true, ctx);
      ThreshSettled(k, InfosOf(subs, ctx).value, ListWays(subs, true));
    case Wrap(w, x) =>
      EverySettled(x, ctx);
      WrapSettled(w, InfoOf(x, ctx).value, WaysOf(x, true));
    case _ =>
      LeafSettled(e, ctx);
  }

  lemma ThreshSettled(k: nat, infos: seq<Info>, ps: seq<Both>)
    requires SignedChildren(infos, ps) && ThreshInfo(k, Some(infos)).Some? && forall i :: 0 <= i < |ps| ==> Unique(ps[i].sat)
    requires CountE(infos) == |infos| ==> forall i :: 0 <= i < |ps| ==> Unique(ps[i].dsat)
    ensures Settled(ThreshInfo(k, Some(infos)).value, ThreshWays(k, ps, true))
  {
    UnsafeCount(infos);
    if ThreshInfo(k, Some(infos)).value.m {
      ChooseSettled(infos, ps, k);
    }
  }

  lemma {:induction false} EveryChildSettled(l: Exprs, first: bool, ctx: Context)
    requires CountSubs(l, first, ctx).Some? && InfosOf(l, ctx).Some? && AllHaveM(l, ctx)
    ensures forall i :: 0 <= i < |ListWays(l, true)| ==> Unique(ListWays(l, true)[i].sat)
    decreases l
  {
    match l
    case Nil =>
    case Cons(head, tail) =>
      EverySettled(head, ctx);
      EveryChildSettled(tail, false, ctx);
  }

  /** An expression with m has at most one satisfaction without a signature, if the children of every thresh have m. */
  lemma OneSatisfaction(e: Expr, ctx: Context)
    requires Accepted(e, ctx) && ChildrenHaveM(e, ctx) && InfoOf(e, ctx).value.m
    ensures Unique(WaysOf(e, true).sat)
  {
    EverySettled(e, ctx);
  }
}
