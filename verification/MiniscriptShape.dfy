/** How many witness elements an expression takes: the modifiers z, o and n of its type. */
module MiniscriptShape {
  import opened Wrappers
  import opened Miniscript
  import opened MiniscriptWays
  import opened ScriptMachine

  ghost predicate Counted(A: Ways, n: nat) {
    forall w :: w in A ==> |w.items| == n
  }

  ghost predicate SomeElement(A: Ways) {
    forall w :: w in A ==> |w.items| > 0
  }

  ghost predicate AllTopped(A: Ways) {
    forall w :: w in A ==> TopNotEmpty(w.items)
  }

  /** z: no element; o: exactly one; n: at least one, and in a satisfaction the topmost is not empty. */
  ghost predicate Shaped(t: Type, p: Both) {
    && !(t.z && t.o)
    && (t.z ==> Counted(p.sat, 0) && Counted(p.dsat, 0))
    && (t.o ==> Counted(p.sat, 1) && Counted(p.dsat, 1))
    && (t.n ==> AllTopped(p.sat) && SomeElement(p.dsat))
  }

  // ---- ways taken together ----

  lemma EachCounted(A: Ways, B: Ways, a: nat, b: nat)
    ensures Counted(A, a) && Counted(B, b) ==> Counted(Each(A, B), a + b)
  {
    forall w | w in Each(A, B)
      ensures Counted(A, a) && Counted(B, b) ==> |w.items| == a + b
    {
      var x, y :| x in A && y in B && w == Join(x, y);
    }
  }

  /** The elements of B are on top. */
  lemma EachTopped(A: Ways, B: Ways)
    ensures AllTopped(B) || (Counted(B, 0) && AllTopped(A)) ==> AllTopped(Each(A, B))
    ensures SomeElement(B) || SomeElement(A) ==> SomeElement(Each(A, B))
    ensures AllTopped(B) ==> SomeElement(B)
  {
    forall w | w in Each(A, B)
      ensures AllTopped(B) || (Counted(B, 0) && AllTopped(A)) ==> TopNotEmpty(w.items)
      ensures SomeElement(B) || SomeElement(A) ==> |w.items| > 0
    {
      var x, y :| x in A && y in B && w == Join(x, y);
      assert |y.items| == 0 ==> w.items == x.items;
    }
  }

  lemma EachShaped(A: Ways, B: Ways)
    ensures Counted(A, 0) && Counted(B, 0) ==> Counted(Each(A, B), 0)
    ensures (Counted(A, 0) && Counted(B, 1)) || (Counted(A, 1) && Counted(B, 0)) ==> Counted(Each(A, B), 1)
  {
    EachCounted(A, B, 0, 0);
    EachCounted(A, B, 0, 1);
    EachCounted(A, B, 1, 0);
  }

  // ---- nodes ----

  lemma AndOrShaped(x: Type, y: Type, z: Type, xp: Both, yp: Both, zp: Both)
    requires AndOrType(Some(x), Some(y), Some(z)).Some?
    requires Shaped(x, xp) && Shaped(y, yp) && Shaped(z, zp)
    ensures Shaped(AndOrType(Some(x), Some(y), Some(z)).value, AndOrWays(xp, yp, zp, true))
  {
    EachShaped(yp.sat, xp.sat);
    EachShaped(zp.sat, xp.dsat);
    EachShaped(zp.dsat, xp.dsat);
    EachShaped(yp.dsat, xp.sat);
  }

  lemma AndShaped(x: Type, y: Type, xp: Both, yp: Both)
    requires Shaped(x, xp) && Shaped(y, yp) && (x.n || (x.z && y.n))
    ensures AllTopped(Each(yp.sat, xp.sat))
    ensures SomeElement(Each(yp.dsat, xp.sat)) && SomeElement(Each(yp.dsat, xp.dsat)) && SomeElement(Each(yp.sat, xp.dsat))
  {
    EachTopped(yp.sat, xp.sat);
    EachTopped(yp.dsat, xp.sat);
    EachTopped(yp.dsat, xp.dsat);
    EachTopped(yp.sat, xp.dsat);
  }

  lemma BinaryShaped(op: BinOp, x: Type, y: Type, xp: Both, yp: Both)
    requires BinaryType(op, Some(x), Some(y)).Some? && Shaped(x, xp) && Shaped(y, yp)
    ensures Shaped(BinaryType(op, Some(x), Some(y)).value, BinaryWays(op, xp, yp, true))
  {
    EachShaped(yp.sat, xp.sat);
    EachShaped(yp.sat, xp.dsat);
    EachShaped(yp.dsat, xp.sat);
    EachShaped(yp.dsat, xp.dsat);
    if (op == AndV || op == AndB) && (x.n || (x.z && y.n)) {
      AndShaped(x, y, xp, yp);
    }
    if op == OrI {
      OrIShaped(x, y, xp, yp);
    }
  }

  lemma TaggedShaped(A: Ways, tag: Element)
    ensures Counted(A, 0) ==> Counted(Each(A, Just([tag])), 1)
    ensures SomeElement(Each(A, Just([tag])))
    ensures tag != Empty ==> AllTopped(Each(A, Just([tag])))
  {
    EachShaped(A, Just([tag]));
    EachTopped(A, Just([tag]));
  }

  lemma OrIShaped(x: Type, y: Type, xp: Both, yp: Both)
    requires OrIType(x, y).Some? && Shaped(x, xp) && Shaped(y, yp)
    ensures Shaped(OrIType(x, y).value, BinaryWays(OrI, xp, yp, true))
  {
    TaggedShaped(xp.sat, True);
    TaggedShaped(yp.sat, Empty);
    TaggedShaped(xp.dsat, True);
    TaggedShaped(yp.dsat, Empty);
  }

  lemma WrapShaped(w: Wrapper, x: Type, xp: Both, ctx: Context)
    requires WrapType(w, Some(x), ctx).Some? && Shaped(x, xp)
    ensures Shaped(WrapType(w, Some(x), ctx).value, WrapWays(w, xp, true))
  {
    match w
    case WrapD => TaggedShaped(xp.sat, True);
    case WrapL =>
      TaggedShaped(xp.sat, Empty);
      TaggedShaped(xp.dsat, Empty);
    case WrapU =>
      TaggedShaped(xp.sat, True);
      TaggedShaped(xp.dsat, True);
    case _ =>
  }

  // ---- leaves ----

  lemma {:induction false} PicksTopped(keys: seq<nat>, k: int, p: seq<Element>)
    requires p in Picks(keys, k)
    ensures |p| == k && (k > 0 ==> p[k - 1].Sig?)
    decreases |keys|
  {
    if |keys| > 0 {
      var last := |keys| - 1;
      if p in Picks(keys[..last], k) {
        PicksTopped(keys[..last], k, p);
      } else {
        var q :| q in Picks(keys[..last], k - 1) && p == q + [Sig(keys[last])];
        PicksTopped(keys[..last], k - 1, q);
      }
    }
  }

  lemma MultiShaped(k: nat, keys: seq<nat>)
    requires 1 <= k
    ensures AllTopped(MultiWays(k, keys).sat) && SomeElement(MultiWays(k, keys).dsat)
  {
    forall w | w in MultiWays(k, keys).sat
      ensures TopNotEmpty(w.items)
    {
      var p :| p in Picks(keys, k) && w == Way([Empty] + p, {}, |keys|);
      PicksTopped(keys, k, p);
      assert w.items[|w.items| - 1] == p[k - 1];
    }
  }

  lemma LeafShaped(e: Expr, ctx: Context)
    requires !e.AndOr? && !e.Binary? && !e.Thresh? && !e.Wrap? && TypeOf(e, ctx).Some?
    ensures Shaped(TypeOf(e, ctx).value, WaysOf(e, true))
  {
    if e.Multi? {
      MultiShaped(e.k, e.keys);
    }
  }

  // ---- thresh ----

  lemma AboveCounted(head: Both, A: Ways, B: Ways, h: nat, n: nat)
    requires Counted(head.sat, h) && Counted(head.dsat, h) && Counted(A, n) && Counted(B, n)
    ensures Counted(Above(head, A, B), n + h)
  {
    EachCounted(A, head.dsat, n, h);
    EachCounted(B, head.sat, n, h);
  }

  /** Where every child takes one element or none, the choice takes one for each that takes one. */
  lemma {:induction false} ChooseShaped(l: Exprs, first: bool, ctx: Context, k: int)
    requires CountSubs(l, first, ctx).Some?
    ensures var c := CountSubs(l, first, ctx).value;
            c.zs + c.os <= c.n && (c.zs + c.os == c.n ==> Counted(Choose(ListWays(l, true), k), c.os))
    decreases l, 0
  {
    match l
    case Nil =>
    case Cons(head, tail) =>
      EveryShaped(head, ctx);
      ChooseShaped(tail, false, ctx, k);
      ChooseShaped(tail, false, ctx, k - 1);
      var t, c := TypeOf(head, ctx).value, CountSubs(tail, false, ctx).value;
      if (t.z || t.o) && c.zs + c.os == c.n {
        var p, ps := WaysOf(head, true), ListWays(tail, true);
        AboveCounted(p, Choose(ps, k), Choose(ps, k - 1), if t.o then 1 else 0, c.os);
        ChooseCons(p, ps, k);
      }
  }

  lemma ThreshCounted(k: nat, ps: seq<Both>, n: nat)
    requires forall j :: Counted(Choose(ps, j), n)
    ensures Counted(ThreshWays(k, ps, true).sat, n) && Counted(ThreshWays(k, ps, true).dsat, n)
  {
    var p := ThreshWays(k, ps, true);
    forall w | w in p.dsat
      ensures |w.items| == n
    {
      assert Counted(Choose(ps, 0), n);
      if w !in Choose(ps, 0) {
        var j: nat :| j != k && w in Choose(ps, j);
        assert Counted(Choose(ps, j), n);
      }
    }
  }

  lemma {:induction false} ThreshShaped(k: nat, subs: Exprs, ctx: Context)
    requires ThreshType(CountSubs(subs, true, ctx)).Some?
    ensures Shaped(ThreshType(CountSubs(subs, true, ctx)).value, ThreshWays(k, ListWays(subs, true), true))
    decreases subs, 1
  {
    var c := CountSubs(subs, true, ctx).value;
    if c.zs + c.os == c.n {
      forall j
        ensures Counted(Choose(ListWays(subs, true), j), c.os)
      {
        ChooseShaped(subs, true, ctx, j);
      }
      ThreshCounted(k, ListWays(subs, true), c.os);
    }
    ChooseShaped(subs, true, ctx, 0);
  }

  // ---- all expressions ----

  /** The modifiers z, o and n of an accepted expression tell the elements of all its ways. */
  lemma {:induction false} EveryShaped(e: Expr, ctx: Context)
    requires TypeOf(e, ctx).Some?
    ensures Shaped(TypeOf(e, ctx).value, WaysOf(e, true))
    decreases e
  {
    match e
    case AndOr(x, y, z) =>
      EveryShaped(x, ctx);
      EveryShaped(y, ctx);
      EveryShaped(z, ctx);
      AndOrShaped(TypeOf(x, ctx).value, TypeOf(y, ctx).value, TypeOf(z, ctx).value,
                  WaysOf(x, true), WaysOf(y, true), WaysOf(z, true));
    case Binary(op, x, y) =>
      EveryShaped(x, ctx);
      EveryShaped(y, ctx);
      BinaryShaped(op, TypeOf(x, ctx).value, TypeOf(y, ctx).value, WaysOf(x, true), WaysOf(y, true));
    case Thresh(k, subs) =>
      ThreshShaped(k, subs, ctx);
    case Wrap(w, x) =>
      EveryShaped(x, ctx);
      WrapShaped(w, TypeOf(x, ctx).value, WaysOf(x, true), ctx);
    case _ =>
      LeafShaped(e, ctx);
  }
}
