/** Expressions with the flag e have one dissatisfaction without a signature. */
module MiniscriptUniqueness {
  import opened Wrappers
  import opened Miniscript
  import opened MiniscriptInfo
  import opened MiniscriptConsistency
  import opened MiniscriptWays
  import opened ScriptMachine
  import opened MiniscriptSafety

  /** At most one witness without a signature. */
  ghost predicate Unique(A: Ways) {
    forall v, w :: v in A && w in A && !Signed(v.items) && !Signed(w.items) ==> v.items == w.items
  }

  ghost predicate Expressive(i: Info, p: Both) {
    i.m && i.e ==> Unique(p.dsat)
  }

  // ---- ways taken together ----

  lemma EachUnique(A: Ways, B: Ways)
    requires Unique(A) && Unique(B)
    ensures Unique(Each(A, B))
  {
    forall v, w | v in Each(A, B) && w in Each(A, B) && !Signed(v.items) && !Signed(w.items)
      ensures v.items == w.items
    {
      var a, b :| a in A && b in B && v == Join(a, b);
      var c, d :| c in A && d in B && w == Join(c, d);
      SignedJoin(a, b);
      SignedJoin(c, d);
    }
  }

  lemma UnionUnique(A: Ways, B: Ways)
    ensures Unique(A) && AllSigned(B) ==> Unique(A + B) && Unique(B + A)
  {}

  lemma JustUnique(s: seq<Element>)
    ensures Unique(Just(s))
  {}

  lemma TaggedUnique(A: Ways, tag: Element)
    ensures Unique(A) ==> Unique(Each(A, Just([tag])))
  {
    if Unique(A) {
      JustUnique([tag]);
      EachUnique(A, Just([tag]));
    }
  }

  lemma EachUniqueIf(A: Ways, B: Ways)
    ensures Unique(A) && Unique(B) ==> Unique(Each(A, B))
  {
    if Unique(A) && Unique(B) {
      EachUnique(A, B);
    }
  }

  // ---- nodes ----

  lemma AndOrExpressive(xi: Info, yi: Info, zi: Info, xp: Both, yp: Both, zp: Both)
    requires Expressive(xi, xp) && Expressive(zi, zp)
    requires (xi.s ==> AllSigned(xp.sat)) && (yi.f ==> AllSigned(yp.dsat))
    ensures Expressive(AndOrInfo(xi, yi, zi), AndOrWays(xp, yp, zp, true))
  {
    EachUniqueIf(zp.dsat, xp.dsat);
    EachSigned(yp.dsat, xp.sat);
    UnionUnique(Each(zp.dsat, xp.dsat), Each(yp.dsat, xp.sat));
  }

  lemma BinaryExpressive(op: BinOp, x: Type, y: Type, xi: Info, yi: Info, xp: Both, yp: Both)
    requires Expressive(xi, xp) && Expressive(yi, yp) && Guarded(x, xi, xp) && Guarded(y, yi, yp)
    ensures Expressive(BinaryInfo(op, xi, yi), BinaryWays(op, xp, yp, true))
  {
    match op
    case AndV =>
    case AndB =>
      EachUniqueIf(yp.dsat, xp.dsat);
      EachSigned(yp.sat, xp.dsat);
      EachSigned(yp.dsat, xp.sat);
      UnionUnique(Each(yp.dsat, xp.dsat), Each(yp.sat, xp.dsat) + Each(yp.dsat, xp.sat));
    case AndN =>
      EachSigned(yp.dsat, xp.sat);
      UnionUnique(xp.dsat, Each(yp.dsat, xp.sat));
    case OrB => EachUniqueIf(yp.dsat, xp.dsat);
    case OrC =>
    case OrD => EachUniqueIf(yp.dsat, xp.dsat);
    case OrI =>
      TaggedUnique(xp.dsat, True);
      TaggedUnique(yp.dsat, Empty);
      TaggedFacts(xp.dsat, True);
      TaggedFacts(yp.dsat, Empty);
      UnionUnique(Each(xp.dsat, Just([True])), Each(yp.dsat, Just([Empty])));
      UnionUnique(Each(yp.dsat, Just([Empty])), Each(xp.dsat, Just([True])));
  }

  lemma WithTopSigned(A: Ways)
    ensures AllSigned(A) ==> AllSigned(WithTop(A))
  {}

  lemma WrapExpressive(w: Wrapper, x: Type, xi: Info, xp: Both)
    requires Expressive(xi, xp) && Guarded(x, xi, xp)
    ensures Expressive(WrapInfo(w, xi), WrapWays(w, xp, true))
  {
    JustUnique([Empty]);
    match w
    case WrapJ =>
      WithTopSigned(xp.dsat);
      UnionUnique(Just([Empty]), WithTop(xp.dsat));
    case WrapL =>
      JustUnique([True]);
      TaggedFacts(xp.dsat, Empty);
      UnionUnique(Just([True]), Each(xp.dsat, Just([Empty])));
    case WrapU =>
      TaggedFacts(xp.dsat, True);
      UnionUnique(Just([Empty]), Each(xp.dsat, Just([True])));
    case _ =>
  }

  lemma MultiAExpressive(k: nat, keys: seq<nat>)
    ensures Unique(MultiAWays(k, keys, true).dsat)
  {
    forall w | w in MultiAWays(k, keys, true).dsat && !Signed(w.items)
      ensures w.items == Empties(|keys|)
    {
      var j: nat, p :| j != k && p in Marks(keys, j) && w == Way(p, {}, 0);
      MarksSigned(keys, j, p);
    }
  }

  lemma LeafExpressive(e: Expr, ctx: Context)
    requires !e.AndOr? && !e.Binary? && !e.Thresh? && !e.Wrap? && Accepted(e, ctx)
    ensures Expressive(InfoOf(e, ctx).value, WaysOf(e, true))
  {
    match e
    case Zero => JustUnique([]);
    case One =>
    case PkK(key) => JustUnique([Empty]);
    case PkH(key) => JustUnique([Empty, PubKey(key)]);
    case Pk(key) => JustUnique([Empty]);
    case Pkh(key) => JustUnique([Empty, PubKey(key)]);
    case Multi(k, keys) =>
    case MultiA(k, keys) => MultiAExpressive(k, keys);
    case Older(_) =>
    case After(_) =>
    case HashLock(_, _) =>
  }

  // ---- thresh ----

  lemma ChooseZero(ps: seq<Both>)
    requires |ps| > 0
    ensures Choose(ps, 0) == Each(ps[|ps| - 1].dsat, Choose(ps[..|ps| - 1], 0))
  {
    NoChoice(ps[..|ps| - 1], -1);
    EachNone(ps[|ps| - 1].sat, Choose(ps[..|ps| - 1], -1));
  }

  lemma {:induction false} ChooseZeroUnique(ps: seq<Both>)
    requires forall i :: 0 <= i < |ps| ==> Unique(ps[i].dsat)
    ensures Unique(Choose(ps, 0))
    decreases |ps|
  {
    if |ps| > 0 {
      var n := |ps| - 1;
      ChooseZeroUnique(ps[..n]);
      ChooseZero(ps);
      EachUnique(ps[n].dsat, Choose(ps[..n], 0));
    }
  }

  /** With the flag e, the dissatisfactions of thresh without a signature dissatisfy every child. */
  lemma FreeIsZero(k: nat, infos: seq<Info>, ps: seq<Both>, w: Way)
    requires GuardedChildren(infos, ps) && Unsafe(infos) == 0
    requires w in ThreshWays(k, ps, true).dsat && !Signed(w.items)
    ensures w in Choose(ps, 0)
  {
    if w !in Choose(ps, 0) {
      var j: nat :| j != k && w in Choose(ps, j);
      if j > 0 {
        ChooseSigned(infos, ps, j);
      }
    }
  }

  lemma ThreshExpressive(k: nat, infos: seq<Info>, ps: seq<Both>)
    requires GuardedChildren(infos, ps) && ThreshInfo(k, Some(infos)).Some?
    requires ThreshInfo(k, Some(infos)).value.e && forall i :: 0 <= i < |ps| ==> Unique(ps[i].dsat)
    ensures Unique(ThreshWays(k, ps, true).dsat)
  {
    UnsafeCount(infos);
    ChooseZeroUnique(ps);
    forall w | w in ThreshWays(k, ps, true).dsat && !Signed(w.items)
      ensures w in Choose(ps, 0)
    {
      FreeIsZero(k, infos, ps, w);
    }
  }

  /** Of two unique products, the factors are unique where both have a way without a signature. */
  lemma FactorsUnique(A: Ways, B: Ways)
    requires Unique(Each(A, B)) && SomeFree(A) && SomeFree(B)
    ensures Unique(A) && Unique(B)
  {
    var a :| a in A && !Signed(a.items);
    var b :| b in B && !Signed(b.items);
    forall v, w | v in A && w in A && !Signed(v.items) && !Signed(w.items)
      ensures v.items == w.items
    {
      SignedJoin(v, b);
      SignedJoin(w, b);
      assert Join(v, b) in Each(A, B) && Join(w, b) in Each(A, B);
      SameEnd(v.items, w.items, b.items);
    }
    forall v, w | v in B && w in B && !Signed(v.items) && !Signed(w.items)
      ensures v.items == w.items
    {
      SignedJoin(a, v);
      SignedJoin(a, w);
      assert Join(a, v) in Each(A, B) && Join(a, w) in Each(A, B);
      SameStart(a.items, v.items, w.items);
    }
  }

  lemma SameEnd(s: seq<Element>, t: seq<Element>, u: seq<Element>)
    requires s + u == t + u
    ensures s == t
  {
    assert |s| == |t|;
    assert s == (s + u)[..|s|] && t == (t + u)[..|t|];
  }

  lemma SameStart(u: seq<Element>, s: seq<Element>, t: seq<Element>)
    requires u + s == u + t
    ensures s == t
  {
    assert s == (u + s)[|u|..] && t == (u + t)[|u|..];
  }

  lemma {:induction false} ChildUnique(infos: seq<Info>, ps: seq<Both>, i: nat)
    requires GuardedChildren(infos, ps) && Unique(Choose(ps, 0)) && i < |ps|
    ensures Unique(ps[i].dsat)
    decreases |ps|
  {
    var n := |ps| - 1;
    LastUnique(infos, ps, n);
    if i < n {
      FirstChildren(infos, ps, n);
      ChildUnique(infos[..n], ps[..n], i);
    }
  }

  lemma LastUnique(infos: seq<Info>, ps: seq<Both>, n: nat)
    requires GuardedChildren(infos, ps) && Unique(Choose(ps, 0)) && |ps| == n + 1
    ensures Unique(Choose(ps[..n], 0)) && Unique(ps[n].dsat)
  {
    FirstChildren(infos, ps, n);
    ChooseFree(ps[..n]);
    ChooseZero(ps);
    FactorsUnique(ps[n].dsat, Choose(ps[..n], 0));
  }

  /** With the flag e, thresh has one dissatisfaction without a signature if and only if all its children have. */
  lemma ThreshUniqueIff(k: nat, infos: seq<Info>, ps: seq<Both>)
    requires GuardedChildren(infos, ps) && ThreshInfo(k, Some(infos)).Some? && ThreshInfo(k, Some(infos)).value.e
    ensures Unique(ThreshWays(k, ps, true).dsat) <==> forall i :: 0 <= i < |ps| ==> Unique(ps[i].dsat)
  {
    if Unique(ThreshWays(k, ps, true).dsat) {
      forall i | 0 <= i < |ps|
        ensures Unique(ps[i].dsat)
      {
        ChildUnique(infos, ps, i);
      }
    }
    if forall i :: 0 <= i < |ps| ==> Unique(ps[i].dsat) {
      ThreshExpressive(k, infos, ps);
    }
  }

  // ---- all expressions ----

  /** The children of every thresh have m, which the second pass counts but does not demand. */
  predicate ChildrenHaveM(e: Expr, ctx: Context)
    decreases e
  {
    match e
    case AndOr(x, y, z) => ChildrenHaveM(x, ctx) && ChildrenHaveM(y, ctx) && ChildrenHaveM(z, ctx)
    case Binary(_, x, y) => ChildrenHaveM(x, ctx) && ChildrenHaveM(y, ctx)
    case Thresh(_, subs) => AllHaveM(subs, ctx)
    case Wrap(_, x) => ChildrenHaveM(x, ctx)
    case _ => true
  }

  predicate AllHaveM(l: Exprs, ctx: Context)
    decreases l
  {
    match l
    case Nil => true
    case Cons(head, tail) =>
      ChildrenHaveM(head, ctx) && (InfoOf(head, ctx).Some? ==> InfoOf(head, ctx).value.m) && AllHaveM(tail, ctx)
  }

  lemma {:induction false} EveryExpressive(e: Expr, ctx: Context)
    requires Accepted(e, ctx) && ChildrenHaveM(e, ctx)
    ensures Expressive(InfoOf(e, ctx).value, WaysOf(e, true))
    decreases e
  {
    match e
    case AndOr(x, y, z) =>
      EveryExpressive(x, ctx);
      EveryExpressive(z, ctx);
      EveryGuarded(x, ctx);
      EveryGuarded(y, ctx);
      AndOrExpressive(InfoOf(x, ctx).value, InfoOf(y, ctx).value, InfoOf(z, ctx).value,
                      WaysOf(x, true), WaysOf(y, true), WaysOf(z, true));
    case Binary(op, x, y) =>
      EveryExpressive(x, ctx);
      EveryExpressive(y, ctx);
      EveryGuarded(x, ctx);
      EveryGuarded(y, ctx);
      BinaryExpressive(op, TypeOf(x, ctx).value, TypeOf(y, ctx).value, InfoOf(x, ctx).value, InfoOf(y, ctx).value,
                       WaysOf(x, true), WaysOf(y, true));
    case Thresh(k, subs) =>
      EveryChildGuarded(subs, true, ctx);
      EveryChildUnique(subs, true, ctx);
      var infos, i := InfosOf(subs, ctx).value, InfoOf(e, ctx).value;
      if i.m && i.e {
        ThreshExpressive(k, infos, ListWays(subs, true));
      }
    case Wrap(w, x) =>
      EveryExpressive(x, ctx);
      EveryGuarded(x, ctx);
      WrapExpressive(w, TypeOf(x, ctx).value, InfoOf(x, ctx).value, WaysOf(x, true));
    case _ =>
      LeafExpressive(e, ctx);
  }

  lemma {:induction false} EveryChildUnique(l: Exprs, first: bool, ctx: Context)
    requires CountSubs(l, first, ctx).Some? && InfosOf(l, ctx).Some? && AllHaveM(l, ctx)
    ensures |ListWays(l, true)| == |InfosOf(l, ctx).value|
    ensures CountE(InfosOf(l, ctx).value) == |InfosOf(l, ctx).value| ==>
              forall i :: 0 <= i < |ListWays(l, true)| ==> Unique(ListWays(l, true)[i].dsat)
    decreases l
  {
    match l
    case Nil =>
    case Cons(head, tail) =>
      EveryExpressive(head, ctx);
      EveryChildUnique(tail, false, ctx);
      assert InfosOf(l, ctx).value[1..] == InfosOf(tail, ctx).value;
  }

  /** An expression with m and e has exactly one dissatisfaction without a signature, if the children of every thresh have m. */
  lemma OneDissatisfaction(e: Expr, ctx: Context)
    requires Accepted(e, ctx) && ChildrenHaveM(e, ctx) && InfoOf(e, ctx).value.m && InfoOf(e, ctx).value.e
    ensures SomeFree(WaysOf(e, true).dsat) && Unique(WaysOf(e, true).dsat)
  {
    EveryExpressive(e, ctx);
    EveryGuarded(e, ctx);
    EveryNodeConsistent(e, ctx);
  }

  function Either(a: nat, b: nat): Expr {
    Binary(OrI, Pk(a), Pk(b))
  }

  /** and_n(or_i(pk(a), pk(b)), 1) */
  function LooseChild(a: nat, b: nat): Expr {
    Binary(AndN, Either(a, b), One)
  }

  lemma TwoFree(A: Ways, v: Way, w: Way)
    requires v in A && w in A && !Signed(v.items) && !Signed(w.items) && v.items != w.items
    ensures !Unique(A)
  {}

  lemma TaggedFree(A: Ways, tag: Element)
    requires !tag.Sig? && Way([Empty], {}, 0) in A
    ensures Way([Empty, tag], {}, 0) in Each(A, Just([tag])) && !Signed([Empty, tag])
  {
    var a, b := Way([Empty], {}, 0), Way([tag], {}, 0);
    assert b in Just([tag]);
    assert Join(a, b) in Each(A, Just([tag]));
    assert a.items + b.items == [Empty, tag] && a.locks + b.locks == {};
    SignedJoin(a, b);
  }

  /** or_i(pk(a), pk(b)) has two dissatisfactions without a signature. */
  lemma EitherWays(x: Both, y: Both)
    requires Way([Empty], {}, 0) in x.dsat && Way([Empty], {}, 0) in y.dsat
    ensures !Unique(BinaryWays(OrI, x, y, true).dsat)
  {
    TaggedFree(x.dsat, True);
    TaggedFree(y.dsat, Empty);
    assert [Empty, True][1] != [Empty, Empty][1];
    TwoFree(BinaryWays(OrI, x, y, true).dsat, Way([Empty, True], {}, 0), Way([Empty, Empty], {}, 0));
  }

  lemma ChildNotUnique(a: nat, b: nat)
    ensures !Unique(WaysOf(LooseChild(a, b), true).dsat)
  {
    EitherWays(WaysOf(Pk(a), true), WaysOf(Pk(b), true));
    AndOne(WaysOf(Either(a, b), true), WaysOf(One, true));
  }

  lemma AndOne(x: Both, y: Both)
    requires y.dsat == iset{}
    ensures BinaryWays(AndN, x, y, true).dsat == x.dsat
  {
    EachNone(y.dsat, x.sat);
  }

  lemma EitherFlags(a: nat, b: nat, ctx: Context)
    ensures TypeOf(Either(a, b), ctx) == Some(Type(B, false, false, false, true, true))
    ensures InfoOf(Either(a, b), ctx).Some? && InfoOf(Either(a, b), ctx).value.s && !InfoOf(Either(a, b), ctx).value.e
  {
    var x, y := InfoOf(Pk(a), ctx).value, InfoOf(Pk(b), ctx).value;
    assert x.s && x.e && !x.f && y.s && y.e && !y.f;
    assert InfoOf(Either(a, b), ctx) == Some(OrIInfo(x, y));
  }

  lemma LooseFlags(a: nat, b: nat, ctx: Context)
    ensures TypeOf(LooseChild(a, b), ctx) == Some(Type(B, false, false, false, true, true))
    ensures InfoOf(LooseChild(a, b), ctx).Some? && InfoOf(LooseChild(a, b), ctx).value.s && InfoOf(LooseChild(a, b), ctx).value.e
  {
    EitherFlags(a, b, ctx);
    assert TypeOf(LooseChild(a, b), ctx) == AndNType(TypeOf(Either(a, b), ctx).value, TypeOf(One, ctx).value);
    assert InfoOf(LooseChild(a, b), ctx) == Some(AndNInfo(InfoOf(Either(a, b), ctx).value, InfoOf(One, ctx).value));
  }

  /** Without that condition m and e do not suffice: thresh(1, and_n(or_i(pk(a), pk(b)), 1)). */
  lemma LooseThresh(a: nat, b: nat, ctx: Context)
    ensures var e := Thresh(1, Cons(LooseChild(a, b), Nil));
            Accepted(e, ctx) && InfoOf(e, ctx).value.m && InfoOf(e, ctx).value.e && !Unique(WaysOf(e, true).dsat)
  {
    LooseFlags(a, b, ctx);
    OneChildFlags(1, LooseChild(a, b), ctx);
    LooseWays(a, b, ctx);
  }

  lemma LooseWays(a: nat, b: nat, ctx: Context)
    ensures !Unique(WaysOf(Thresh(1, Cons(LooseChild(a, b), Nil)), true).dsat)
  {
    LooseFlags(a, b, ctx);
    EveryGuarded(LooseChild(a, b), ctx);
    ChildNotUnique(a, b);
    NotUniqueOne(InfoOf(LooseChild(a, b), ctx).value, WaysOf(LooseChild(a, b), true));
    OneChildWays(1, LooseChild(a, b));
  }

  lemma OneInList(child: Expr, ctx: Context)
    requires TypeOf(child, ctx) == Some(Type(B, false, false, false, true, true)) && InfoOf(child, ctx).Some?
    ensures CountSubs(Cons(child, Nil), true, ctx) == Some(ThreshCount(1, 0, 0))
    ensures InfosOf(Cons(child, Nil), ctx) == Some([InfoOf(child, ctx).value])
  {
    assert CountSubs(Nil, false, ctx) == Some(ThreshCount(0, 0, 0));
    assert InfosOf(Nil, ctx) == Some([]);
    assert [InfoOf(child, ctx).value] + [] == [InfoOf(child, ctx).value];
  }

  lemma OneInfo(i: Info)
    requires i.e && i.s
    ensures ThreshInfo(1, Some([i])).Some? && ThreshInfo(1, Some([i])).value.m && ThreshInfo(1, Some([i])).value.e
  {
    assert [i][1..] == [];
    assert CountE([i]) == 1 && CountS([i]) == 1;
  }

  lemma OneChildFlags(k: nat, child: Expr, ctx: Context)
    requires k == 1 && TypeOf(child, ctx) == Some(Type(B, false, false, false, true, true))
    requires InfoOf(child, ctx).Some? && InfoOf(child, ctx).value.e && InfoOf(child, ctx).value.s
    ensures Accepted(Thresh(k, Cons(child, Nil)), ctx)
    ensures var i := InfoOf(Thresh(k, Cons(child, Nil)), ctx).value; i.m && i.e
  {
    OneInList(child, ctx);
    OneInfo(InfoOf(child, ctx).value);
    ThreshNode(k, Cons(child, Nil), ctx);
  }

  lemma ThreshNode(k: nat, subs: Exprs, ctx: Context)
    requires 1 <= k <= Miniscript.INT16_MAX
    ensures TypeOf(Thresh(k, subs), ctx) == ThreshType(CountSubs(subs, true, ctx))
    ensures InfoOf(Thresh(k, subs), ctx) == ThreshInfo(k, InfosOf(subs, ctx))
  {}

  lemma NotUniqueOne(i: Info, p: Both)
    requires i.e && i.s && AllSigned(p.sat) && SomeFree(p.dsat) && !Unique(p.dsat)
    ensures !Unique(ThreshWays(1, [p], true).dsat)
  {
    OneInfo(i);
    assert GuardedChildren([i], [p]);
    ThreshUniqueIff(1, [i], [p]);
    assert [p][0] == p;
  }

  lemma OneChildWays(k: nat, child: Expr)
    ensures WaysOf(Thresh(k, Cons(child, Nil)), true) == ThreshWays(k, [WaysOf(child, true)], true)
  {
    assert ListWays(Nil, true) == [];
    assert ListWays(Cons(child, Nil), true) == [WaysOf(child, true)];
  }

  // ---- children without m ----

  /** or_b(j:pk(a), s:pk(b)) */
  function TightChild(a: nat, b: nat): Expr {
    Binary(OrB, Wrap(WrapJ, Pk(a)), Wrap(WrapS, Pk(b)))
  }

  lemma TightFlags(a: nat, b: nat, ctx: Context)
    ensures TypeOf(TightChild(a, b), ctx) == Some(Type(B, false, false, false, true, true))
    ensures InfoOf(TightChild(a, b), ctx).Some?
    ensures var i := InfoOf(TightChild(a, b), ctx).value; i.s && i.e && !i.m
  {
    var x, y := InfoOf(Pk(a), ctx).value, InfoOf(Pk(b), ctx).value;
    assert x.s && !x.f && y.s;
    assert InfoOf(Wrap(WrapJ, Pk(a)), ctx) == Some(WrapJInfo(x)) && InfoOf(Wrap(WrapS, Pk(b)), ctx) == Some(WrapSInfo(y));
    assert InfoOf(TightChild(a, b), ctx) == Some(OrBInfo(WrapJInfo(x), WrapSInfo(y)));
    assert TypeOf(Wrap(WrapJ, Pk(a)), ctx) == Some(Type(B, false, true, true, true, true));
    assert TypeOf(Wrap(WrapS, Pk(b)), ctx) == Some(Type(W, false, false, false, true, true));
  }

  lemma TightWays(x: Both, y: Both)
    requires x.dsat == Just([Empty]) && y.dsat == Just([Empty])
    ensures Unique(BinaryWays(OrB, WrapWays(WrapJ, x, true), WrapWays(WrapS, y, true), true).dsat)
  {
    var p, q := WrapWays(WrapJ, x, true), WrapWays(WrapS, y, true);
    JustUnique([Empty]);
    assert p.dsat == Just([Empty]) by {
      assert WithTop(x.dsat) == iset{};
    }
    EachUnique(q.dsat, p.dsat);
  }

  lemma UniqueOne(i: Info, p: Both)
    requires i.e && i.s && AllSigned(p.sat) && SomeFree(p.dsat) && Unique(p.dsat)
    ensures Unique(ThreshWays(1, [p], true).dsat)
  {
    OneInfo(i);
    assert GuardedChildren([i], [p]);
    ThreshUniqueIff(1, [i], [p]);
  }

  /**
   That the children of thresh have m is not needed in every case: thresh(1, or_b(j:pk(a), s:pk(b))) has one
   dissatisfaction without a signature and a child without m.
   */
  lemma TightThresh(a: nat, b: nat, k: nat, ctx: Context)
    requires k == 1
    ensures var e := Thresh(k, Cons(TightChild(a, b), Nil));
            && Accepted(e, ctx) && InfoOf(e, ctx).value.m && InfoOf(e, ctx).value.e && !ChildrenHaveM(e, ctx)
            && Unique(WaysOf(e, true).dsat)
  {
    TightFlags(a, b, ctx);
    OneChildFlags(k, TightChild(a, b), ctx);
    EveryGuarded(TightChild(a, b), ctx);
    TightChildWays(a, b);
    UniqueOne(InfoOf(TightChild(a, b), ctx).value, WaysOf(TightChild(a, b), true));
    OneChildWays(k, TightChild(a, b));
  }

  lemma TightChildWays(a: nat, b: nat)
    ensures Unique(WaysOf(TightChild(a, b), true).dsat)
  {
    TightWays(WaysOf(Pk(a), true), WaysOf(Pk(b), true));
    BinaryNode(OrB, Wrap(WrapJ, Pk(a)), Wrap(WrapS, Pk(b)));
    WrapNode(WrapJ, Pk(a));
    WrapNode(WrapS, Pk(b));
  }

  lemma BinaryNode(op: BinOp, x: Expr, y: Expr)
    ensures WaysOf(Binary(op, x, y), true) == BinaryWays(op, WaysOf(x, true), WaysOf(y, true), true)
  {}

  lemma WrapNode(w: Wrapper, x: Expr)
    ensures WaysOf(Wrap(w, x), true) == WrapWays(w, WaysOf(x, true), true)
  {}
}
