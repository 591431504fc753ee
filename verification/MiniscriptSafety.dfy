/** What the malleability flags promise about the witnesses of an expression. */
module MiniscriptSafety {
  import opened Wrappers
  import opened Miniscript
  import opened MiniscriptInfo
  import opened MiniscriptConsistency
  import opened MiniscriptWays
  import opened ScriptMachine

  /** The witness has a signature in it. */
  predicate Signed(s: seq<Element>) {
    exists i :: 0 <= i < |s| && s[i].Sig?
  }

  ghost predicate AllSigned(A: Ways) {
    forall w :: w in A ==> Signed(w.items)
  }

  /** Some way needs neither a signature nor a timelock. */
  ghost predicate SomeFree(A: Ways) {
    exists w :: w in A && !Signed(w.items) && w.locks == {}
  }

  /**
   s: no satisfaction without a signature; f: no dissatisfaction without one; d: there is a
   dissatisfaction without one and without timelocks; and what is of type V has no dissatisfaction.
   */
  ghost predicate Guarded(t: Type, i: Info, p: Both) {
    && (i.s ==> AllSigned(p.sat))
    && (i.f ==> AllSigned(p.dsat))
    && (t.d ==> SomeFree(p.dsat))
    && (t.kind == V ==> p.dsat == iset{})
  }

  // ---- ways taken together ----

  lemma SignedJoin(a: Way, b: Way)
    ensures Signed(Join(a, b).items) <==> Signed(a.items) || Signed(b.items)
  {
    var s := a.items + b.items;
    if Signed(a.items) {
      var i :| 0 <= i < |a.items| && a.items[i].Sig?;
      assert s[i].Sig?;
    }
    if Signed(b.items) {
      var i :| 0 <= i < |b.items| && b.items[i].Sig?;
      assert s[|a.items| + i].Sig?;
    }
  }

  lemma EachSigned(A: Ways, B: Ways)
    ensures AllSigned(A) || AllSigned(B) ==> AllSigned(Each(A, B))
  {
    forall w | w in Each(A, B)
      ensures AllSigned(A) || AllSigned(B) ==> Signed(w.items)
    {
      var a, b :| a in A && b in B && w == Join(a, b);
      SignedJoin(a, b);
    }
  }

  lemma EachFree(A: Ways, B: Ways)
    ensures SomeFree(A) && SomeFree(B) ==> SomeFree(Each(A, B))
  {
    if SomeFree(A) && SomeFree(B) {
      var a :| a in A && !Signed(a.items) && a.locks == {};
      var b :| b in B && !Signed(b.items) && b.locks == {};
      SignedJoin(a, b);
      assert Join(a, b) in Each(A, B) && Join(a, b).locks == {};
    }
  }

  lemma EachNone(A: Ways, B: Ways)
    ensures A == iset{} || B == iset{} ==> Each(A, B) == iset{}
  {}

  lemma EachFacts(A: Ways, B: Ways)
    ensures AllSigned(A) || AllSigned(B) ==> AllSigned(Each(A, B))
    ensures SomeFree(A) && SomeFree(B) ==> SomeFree(Each(A, B))
    ensures A == iset{} || B == iset{} ==> Each(A, B) == iset{}
  {
    EachSigned(A, B);
    EachFree(A, B);
  }

  lemma UnionFree(A: Ways, B: Ways)
    ensures SomeFree(A) || SomeFree(B) ==> SomeFree(A + B)
  {
    if SomeFree(A) {
      var a :| a in A && !Signed(a.items) && a.locks == {};
      assert a in A + B;
    }
    if SomeFree(B) {
      var b :| b in B && !Signed(b.items) && b.locks == {};
      assert b in A + B;
    }
  }

  lemma JustFree(s: seq<Element>)
    requires !Signed(s)
    ensures SomeFree(Just(s))
  {
    assert Way(s, {}, 0) in Just(s);
  }

  // ---- nodes ----

  lemma AndOrGuarded(x: Type, y: Type, z: Type, xi: Info, yi: Info, zi: Info, xp: Both, yp: Both, zp: Both)
    requires AndOrType(Some(x), Some(y), Some(z)).Some?
    requires Guarded(x, xi, xp) && Guarded(y, yi, yp) && Guarded(z, zi, zp)
    ensures Guarded(AndOrType(Some(x), Some(y), Some(z)).value, AndOrInfo(xi, yi, zi), AndOrWays(xp, yp, zp, true))
  {
    EachFacts(yp.sat, xp.sat);
    EachFacts(zp.sat, xp.dsat);
    EachFacts(zp.dsat, xp.dsat);
    EachFacts(yp.dsat, xp.sat);
    UnionFree(Each(zp.dsat, xp.dsat), Each(yp.dsat, xp.sat));
  }

  lemma BinaryGuarded(op: BinOp, x: Type, y: Type, xi: Info, yi: Info, xp: Both, yp: Both)
    requires BinaryType(op, Some(x), Some(y)).Some? && Guarded(x, xi, xp) && Guarded(y, yi, yp)
    ensures Guarded(BinaryType(op, Some(x), Some(y)).value, BinaryInfo(op, xi, yi), BinaryWays(op, xp, yp, true))
  {
    EachFacts(yp.sat, xp.sat);
    EachFacts(yp.sat, xp.dsat);
    EachFacts(yp.dsat, xp.sat);
    EachFacts(yp.dsat, xp.dsat);
    match op
    case AndV =>
    case AndB => UnionFree(Each(yp.dsat, xp.dsat), Each(yp.sat, xp.dsat) + Each(yp.dsat, xp.sat));
    case AndN => UnionFree(xp.dsat, Each(yp.dsat, xp.sat));
    case OrB =>
    case OrC =>
    case OrD =>
    case OrI => OrIGuarded(x, y, xi, yi, xp, yp);
  }

  /** A witness with one more element that is not a signature. */
  lemma TaggedFacts(A: Ways, tag: Element)
    requires !tag.Sig?
    ensures AllSigned(A) ==> AllSigned(Each(A, Just([tag])))
    ensures SomeFree(A) ==> SomeFree(Each(A, Just([tag])))
    ensures A == iset{} ==> Each(A, Just([tag])) == iset{}
  {
    JustFree([tag]);
    EachFacts(A, Just([tag]));
  }

  lemma OrIGuarded(x: Type, y: Type, xi: Info, yi: Info, xp: Both, yp: Both)
    requires OrIType(x, y).Some? && Guarded(x, xi, xp) && Guarded(y, yi, yp)
    ensures Guarded(OrIType(x, y).value, OrIInfo(xi, yi), BinaryWays(OrI, xp, yp, true))
  {
    TaggedFacts(xp.sat, True);
    TaggedFacts(yp.sat, Empty);
    TaggedFacts(xp.dsat, True);
    TaggedFacts(yp.dsat, Empty);
    UnionFree(Each(xp.dsat, Just([True])), Each(yp.dsat, Just([Empty])));
  }

  lemma WrapGuarded(w: Wrapper, x: Type, xi: Info, xp: Both, ctx: Context)
    requires WrapType(w, Some(x), ctx).Some? && Consistent(x, xi) && Guarded(x, xi, xp)
    ensures Guarded(WrapType(w, Some(x), ctx).value, WrapInfo(w, xi), WrapWays(w, xp, true))
  {
    match w
    case WrapD =>
      JustFree([Empty]);
      TaggedFacts(xp.sat, True);
    case WrapJ =>
      JustFree([Empty]);
      UnionFree(Just([Empty]), WithTop(xp.dsat));
    case WrapL =>
      JustFree([True]);
      TaggedFacts(xp.sat, Empty);
      UnionFree(Just([True]), Each(xp.dsat, Just([Empty])));
    case WrapU =>
      JustFree([Empty]);
      TaggedFacts(xp.sat, True);
      UnionFree(Each(xp.dsat, Just([True])), Just([Empty]));
    case _ =>
  }

  // ---- leaves ----

  lemma SignedAppend(s: seq<Element>, item: Element)
    ensures Signed(s + [item]) <==> Signed(s) || item.Sig?
  {
    if Signed(s) {
      var i :| 0 <= i < |s| && s[i].Sig?;
      assert (s + [item])[i].Sig?;
    }
    if item.Sig? {
      assert (s + [item])[|s|].Sig?;
    }
  }

  lemma SignedPrepend(item: Element, s: seq<Element>)
    ensures Signed([item] + s) <==> item.Sig? || Signed(s)
  {
    SignedJoin(Way([item], {}, 0), Way(s, {}, 0));
    assert item.Sig? ==> [item][0].Sig?;
  }

  lemma {:induction false} PicksSigned(keys: seq<nat>, k: int, p: seq<Element>)
    requires p in Picks(keys, k)
    ensures |p| == k && (k > 0 ==> Signed(p))
    decreases |keys|
  {
    if |keys| > 0 {
      var last := |keys| - 1;
      if p in Picks(keys[..last], k) {
        PicksSigned(keys[..last], k, p);
      } else {
        var q :| q in Picks(keys[..last], k - 1) && p == q + [Sig(keys[last])];
        PicksSigned(keys[..last], k - 1, q);
        SignedAppend(q, Sig(keys[last]));
      }
    }
  }

  lemma {:induction false} MarksSigned(keys: seq<nat>, k: int, p: seq<Element>)
    requires p in Marks(keys, k)
    ensures |p| == |keys| && 0 <= k <= |keys| && (k > 0 ==> Signed(p)) && (k == 0 ==> p == Empties(|keys|))
    decreases |keys|
  {
    if |keys| > 0 {
      var last := |keys| - 1;
      if q :| q in Marks(keys[..last], k) && p == [Empty] + q {
        MarksSigned(keys[..last], k, q);
        SignedPrepend(Empty, q);
      } else {
        var q :| q in Marks(keys[..last], k - 1) && p == [Sig(keys[last])] + q;
        MarksSigned(keys[..last], k - 1, q);
        SignedPrepend(Sig(keys[last]), q);
      }
    }
  }

  lemma MultiGuarded(k: nat, keys: seq<nat>)
    requires 1 <= k
    ensures AllSigned(MultiWays(k, keys).sat) && SomeFree(MultiWays(k, keys).dsat)
  {
    forall w | w in MultiWays(k, keys).sat
      ensures Signed(w.items)
    {
      var p :| p in Picks(keys, k) && w == Way([Empty] + p, {}, |keys|);
      PicksSigned(keys, k, p);
      SignedJoin(Way([Empty], {}, 0), Way(p, {}, 0));
    }
    assert Way(Empties(k + 1), {}, |keys|) in MultiWays(k, keys).dsat;
  }

  lemma MultiAGuarded(k: nat, keys: seq<nat>)
    requires 1 <= k
    ensures AllSigned(MultiAWays(k, keys, true).sat) && SomeFree(MultiAWays(k, keys, true).dsat)
  {
    forall w | w in MultiAWays(k, keys, true).sat
      ensures Signed(w.items)
    {
      var p :| p in Marks(keys, k) && w == Way(p, {}, 0);
      MarksSigned(keys, k, p);
    }
    NoneMarked(keys);
    var none: nat := 0;
    assert none != k && Empties(|keys|) in Marks(keys, none);
    assert Way(Empties(|keys|), {}, 0) in MultiAWays(k, keys, true).dsat;
  }

  lemma LeafGuarded(e: Expr, ctx: Context)
    requires !e.AndOr? && !e.Binary? && !e.Thresh? && !e.Wrap? && Accepted(e, ctx)
    ensures Guarded(TypeOf(e, ctx).value, InfoOf(e, ctx).value, WaysOf(e, true))
  {
    match e
    case Zero => JustFree([]);
    case One =>
    case PkK(key) => KeyGuarded(key);
    case PkH(key) => KeyGuarded(key);
    case Pk(key) => KeyGuarded(key);
    case Pkh(key) => KeyGuarded(key);
    case Multi(k, keys) => MultiGuarded(k, keys);
    case MultiA(k, keys) => MultiAGuarded(k, keys);
    case Older(_) =>
    case After(_) =>
    case HashLock(kind, image) => assert ElementLength(Other(0)) == 32 && Way([Other(0)], {}, 0) in WrongPreimages(kind, image);
  }

  lemma KeyGuarded(key: nat)
    ensures AllSigned(Just([Sig(key)])) && AllSigned(Just([Sig(key), PubKey(key)]))
    ensures SomeFree(Just([Empty])) && SomeFree(Just([Empty, PubKey(key)]))
  {
    assert [Sig(key)][0].Sig? && [Sig(key), PubKey(key)][0].Sig?;
    JustFree([Empty]);
    JustFree([Empty, PubKey(key)]);
  }

  // ---- thresh ----

  ghost predicate SignedChildren(infos: seq<Info>, ps: seq<Both>) {
    |infos| == |ps| && forall i :: 0 <= i < |ps| ==> infos[i].s ==> AllSigned(ps[i].sat)
  }

  ghost predicate FreeChildren(ps: seq<Both>) {
    forall i :: 0 <= i < |ps| ==> SomeFree(ps[i].dsat)
  }

  /** The children of thresh: all of them can be dissatisfied without a signature. */
  ghost predicate GuardedChildren(infos: seq<Info>, ps: seq<Both>) {
    SignedChildren(infos, ps) && FreeChildren(ps)
  }

  /** How many children may have satisfactions without a signature. */
  function Unsafe(infos: seq<Info>): nat {
    if |infos| == 0 then 0 else Unsafe(infos[..|infos| - 1]) + (if infos[|infos| - 1].s then 0 else 1)
  }

  lemma {:induction false} UnsafeCons(x: Info, infos: seq<Info>)
    ensures Unsafe([x] + infos) == (if x.s then 0 else 1) + Unsafe(infos)
    decreases |infos|
  {
    if |infos| > 0 {
      var n := |infos| - 1;
      UnsafeCons(x, infos[..n]);
      assert ([x] + infos)[..n + 1] == [x] + infos[..n];
    }
  }

  lemma {:induction false} UnsafeCount(infos: seq<Info>)
    ensures Unsafe(infos) == |infos| - CountS(infos)
    decreases |infos|
  {
    if |infos| > 0 {
      UnsafeCount(infos[1..]);
      UnsafeCons(infos[0], infos[1..]);
      assert infos == [infos[0]] + infos[1..];
    }
  }

  lemma FirstChildren(infos: seq<Info>, ps: seq<Both>, n: nat)
    requires GuardedChildren(infos, ps) && n <= |ps|
    ensures GuardedChildren(infos[..n], ps[..n])
  {}

  lemma OneMoreSigned(A: Ways, B: Ways, last: Both)
    requires AllSigned(A) && (AllSigned(B) || AllSigned(last.sat))
    ensures AllSigned(Each(last.dsat, A) + Each(last.sat, B))
  {
    EachSigned(last.dsat, A);
    EachSigned(last.sat, B);
  }

  lemma SignedPrefix(infos: seq<Info>, ps: seq<Both>, n: nat)
    requires SignedChildren(infos, ps) && |ps| == n + 1
    ensures SignedChildren(infos[..n], ps[..n]) && (infos[n].s ==> AllSigned(ps[n].sat))
    ensures Unsafe(infos) == Unsafe(infos[..n]) + (if infos[n].s then 0 else 1)
  {}

  /** If fewer than k children can be satisfied without a signature, some satisfied child has one. */
  lemma {:induction false} ChooseSigned(infos: seq<Info>, ps: seq<Both>, k: int)
    requires SignedChildren(infos, ps) && Unsafe(infos) < k
    ensures AllSigned(Choose(ps, k))
    decreases |ps|
  {
    if |ps| > 0 {
      var n := |ps| - 1;
      SignedPrefix(infos, ps, n);
      ChooseSigned(infos[..n], ps[..n], k);
      if !infos[n].s {
        ChooseSigned(infos[..n], ps[..n], k - 1);
      }
      OneMoreSigned(Choose(ps[..n], k), Choose(ps[..n], k - 1), ps[n]);
    }
  }

  lemma {:induction false} ChooseFree(ps: seq<Both>)
    requires FreeChildren(ps)
    ensures SomeFree(Choose(ps, 0))
    decreases |ps|
  {
    if |ps| == 0 {
      assert Nothing in Choose(ps, 0);
    } else {
      var n := |ps| - 1;
      ChooseFree(ps[..n]);
      EachFree(ps[n].dsat, Choose(ps[..n], 0));
      UnionFree(Each(ps[n].dsat, Choose(ps[..n], 0)), Each(ps[n].sat, Choose(ps[..n], -1)));
    }
  }

  lemma ThreshGuarded(k: nat, infos: seq<Info>, ps: seq<Both>)
    requires GuardedChildren(infos, ps) && ThreshInfo(k, Some(infos)).Some?
    ensures var i, p := ThreshInfo(k, Some(infos)).value, ThreshWays(k, ps, true);
            (i.s ==> AllSigned(p.sat)) && !i.f && SomeFree(p.dsat)
  {
    UnsafeCount(infos);
    if Unsafe(infos) < k {
      ChooseSigned(infos, ps, k);
    }
    ChooseFree(ps);
    UnionFree(Choose(ps, 0), Extra(true, iset j: nat, w | j != k && w in Choose(ps, j) :: w));
  }

  // ---- all expressions ----

  /** In every accepted expression the flags s and f, the modifier d and the type V keep their promises. */
  lemma {:induction false} EveryGuarded(e: Expr, ctx: Context)
    requires Accepted(e, ctx)
    ensures Guarded(TypeOf(e, ctx).value, InfoOf(e, ctx).value, WaysOf(e, true))
    decreases e
  {
    match e
    case AndOr(x, y, z) =>
      EveryGuarded(x, ctx);
      EveryGuarded(y, ctx);
      EveryGuarded(z, ctx);
      AndOrGuarded(TypeOf(x, ctx).value, TypeOf(y, ctx).value, TypeOf(z, ctx).value,
                   InfoOf(x, ctx).value, InfoOf(y, ctx).value, InfoOf(z, ctx).value,
                   WaysOf(x, true), WaysOf(y, true), WaysOf(z, true));
    case Binary(op, x, y) =>
      EveryGuarded(x, ctx);
      EveryGuarded(y, ctx);
      BinaryGuarded(op, TypeOf(x, ctx).value, TypeOf(y, ctx).value, InfoOf(x, ctx).value, InfoOf(y, ctx).value,
                    WaysOf(x, true), WaysOf(y, true));
    case Thresh(k, subs) =>
      EveryChildGuarded(subs, true, ctx);
      ThreshGuarded(k, InfosOf(subs, ctx).value, ListWays(subs, true));
    case Wrap(w, x) =>
      EveryGuarded(x, ctx);
      EveryNodeConsistent(x, ctx);
      WrapGuarded(w, TypeOf(x, ctx).value, InfoOf(x, ctx).value, WaysOf(x, true), ctx);
    case _ =>
      LeafGuarded(e, ctx);
  }

  lemma {:induction false} EveryChildGuarded(l: Exprs, first: bool, ctx: Context)
    requires CountSubs(l, first, ctx).Some? && InfosOf(l, ctx).Some?
    ensures GuardedChildren(InfosOf(l, ctx).value, ListWays(l, true))
    decreases l
  {
    match l
    case Nil =>
    case Cons(head, tail) =>
      EveryGuarded(head, ctx);
      EveryChildGuarded(tail, false, ctx);
  }
}
