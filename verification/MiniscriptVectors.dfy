/** Test vectors of the source for the second pass, and policies of its end-to-end tests that are sane. */
module MiniscriptVectors {
  import opened Wrappers
  import opened Miniscript
  import opened MiniscriptInfo
  import opened MiniscriptConsistency
  import opened MiniscriptSanity
  import opened Thresh

  /** The type and the second pass of an expression. */
  predicate Has(e: Expr, ctx: Context, t: Type, i: Info) {
    TypeOf(e, ctx) == Some(t) && InfoOf(e, ctx) == Some(i)
  }

  lemma WrapStep(w: Wrapper, x: Expr, ctx: Context, xt: Type, xi: Info, t: Type, i: Info)
    requires Has(x, ctx, xt, xi) && WrapType(w, Some(xt), ctx) == Some(t) && WrapInfo(w, xi) == i
    ensures Has(Wrap(w, x), ctx, t, i)
  {}

  lemma BinaryStep(op: BinOp, x: Expr, y: Expr, ctx: Context, xt: Type, xi: Info, yt: Type, yi: Info, t: Type, i: Info)
    requires Has(x, ctx, xt, xi) && Has(y, ctx, yt, yi) && BinaryType(op, Some(xt), Some(yt)) == Some(t) && BinaryInfo(op, xi, yi) == i
    ensures Has(Binary(op, x, y), ctx, t, i)
  {}

  lemma AndOrStep(x: Expr, y: Expr, z: Expr, ctx: Context, xt: Type, xi: Info, yt: Type, yi: Info, zt: Type, zi: Info, t: Type, i: Info)
    requires Has(x, ctx, xt, xi) && Has(y, ctx, yt, yi) && Has(z, ctx, zt, zi)
    requires AndOrType(Some(xt), Some(yt), Some(zt)) == Some(t) && AndOrInfo(xi, yi, zi) == i
    ensures Has(AndOr(x, y, z), ctx, t, i)
  {}

  /** What the source's tests expect: s, m and k, the size of the script, its operations and keys, and the stack with the script on it. */
  predicate Vector(e: Expr, ctx: Context, s: bool, m: bool, k: bool, size: nat, ops: nat, stack: nat) {
    && Accepted(e, ctx)
    && var i := InfoOf(e, ctx).value;
       && i.s == s && i.m == m && i.k == k && i.size == size
       && i.ops.count + (if i.ops.sat == -1 then 0 else i.ops.sat) == ops && i.ss.sat + 1 == stack
  }

  lemma VectorOrDefaultPart1(a: nat, b: nat, c: nat, d: nat, n1: nat)
    requires n1 == 500000
    ensures Has(Wrap(WrapS, Wrap(WrapU, After(n1))), P2wsh, Type(W, false, false, false, true, false),
                Info(Ops(5, 0, -1), Child(1, 1), 10, false, false, true, true, false, false, false, true, true, true))
  {
    var e1, t1 := After(n1), Type(B, true, false, false, false, false);
    var i1 := Info(Ops(1, 0, -1), Child(0, -1), 5, false, true, false, true, false, false, false, true, true, true);
    assert Has(e1, P2wsh, t1, i1);
    var e2, t2 := Wrap(WrapU, e1), Type(B, false, true, false, true, false);
    var i2 := Info(Ops(4, 0, -1), Child(1, 1), 9, false, false, true, true, false, false, false, true, true, true);
    WrapStep(WrapU, e1, P2wsh, t1, i1, t2, i2);
    var e3, t3 := Wrap(WrapS, e2), Type(W, false, false, false, true, false);
    var i3 := Info(Ops(5, 0, -1), Child(1, 1), 10, false, false, true, true, false, false, false, true, true, true);
    WrapStep(WrapS, e2, P2wsh, t2, i2, t3, i3);
  }

  lemma VectorOrDefaultPart2(a: nat, b: nat, c: nat, d: nat, n1: nat)
    requires n1 == 500000
    ensures Has(Binary(OrB, Multi(3, [b, c, d]), Wrap(WrapS, Wrap(WrapU, After(n1)))), P2wsh, Type(B, false, false, false, true, true),
                Info(Ops(7, 3, -1), Child(5, 5), 116, false, false, true, true, false, false, false, true, true, true))
  {
    var e1, t1 := Multi(3, [b, c, d]), Type(B, false, false, true, true, true);
    var i1 := Info(Ops(1, 3, 3), Child(4, 4), 105, true, false, true, true, false, false, false, false, true, false);
    assert Has(e1, P2wsh, t1, i1);
    var e2, t2 := Wrap(WrapS, Wrap(WrapU, After(n1))), Type(W, false, false, false, true, false);
    var i2 := Info(Ops(5, 0, -1), Child(1, 1), 10, false, false, true, true, false, false, false, true, true, true);
    VectorOrDefaultPart1(a, b, c, d, n1);
    var e3, t3 := Binary(OrB, e1, e2), Type(B, false, false, false, true, true);
    var i3 := Info(Ops(7, 3, -1), Child(5, 5), 116, false, false, true, true, false, false, false, true, true, true);
    BinaryStep(OrB, e1, e2, P2wsh, t1, i1, t2, i2, t3, i3);
  }

  /** or_d(multi(1,@0),or_b(multi(3,@1,@2,@3),su:after(500000))) */
  lemma VectorOrDefault(a: nat, b: nat, c: nat, d: nat, n1: nat)
    requires n1 == 500000
    ensures Vector(Binary(OrD, Multi(1, [a]), Binary(OrB, Multi(3, [b, c, d]), Wrap(WrapS, Wrap(WrapU, After(n1))))), P2wsh,
                   false, true, true, 156, 15, 8)
  {
    var e1, t1 := Multi(1, [a]), Type(B, false, false, true, true, true);
    var i1 := Info(Ops(1, 1, 1), Child(2, 2), 37, true, false, true, true, false, false, false, false, true, false);
    assert Has(e1, P2wsh, t1, i1);
    var e2, t2 := Binary(OrB, Multi(3, [b, c, d]), Wrap(WrapS, Wrap(WrapU, After(n1)))), Type(B, false, false, false, true, true);
    var i2 := Info(Ops(7, 3, -1), Child(5, 5), 116, false, false, true, true, false, false, false, true, true, true);
    VectorOrDefaultPart2(a, b, c, d, n1);
    var e3, t3 := Binary(OrD, e1, e2), Type(B, false, false, false, true, true);
    var i3 := Info(Ops(11, 4, -1), Child(7, 7), 156, false, false, true, true, false, false, false, true, true, true);
    BinaryStep(OrD, e1, e2, P2wsh, t1, i1, t2, i2, t3, i3);
  }

  lemma VectorAndNonePart1(a: nat, n1: nat, n2: nat)
    requires n1 == 4252898 && n2 == 16
    ensures Has(Wrap(WrapC, PkK(a)), P2wsh, Type(B, false, true, true, true, true),
                Info(Ops(1, 0, 0), Child(1, 1), 35, true, false, true, true, false, false, false, false, true, false))
  {
    var e1, t1 := PkK(a), Type(K, false, true, true, true, true);
    var i1 := Info(Ops(0, 0, 0), Child(1, 1), 34, true, false, true, true, false, false, false, false, true, true);
    assert Has(e1, P2wsh, t1, i1);
    var e2, t2 := Wrap(WrapC, e1), Type(B, false, true, true, true, true);
    var i2 := Info(Ops(1, 0, 0), Child(1, 1), 35, true, false, true, true, false, false, false, false, true, false);
    WrapStep(WrapC, e1, P2wsh, t1, i1, t2, i2);
  }

  lemma VectorAndNonePart2(a: nat, n1: nat, n2: nat)
    requires n1 == 4252898 && n2 == 16
    ensures Has(Wrap(WrapL, Older(n1)), P2wsh, Type(B, false, true, false, true, false),
                Info(Ops(4, 0, -1), Child(1, 1), 9, false, false, true, true, true, false, false, false, true, true))
  {
    var e1, t1 := Older(n1), Type(B, true, false, false, false, false);
    var i1 := Info(Ops(1, 0, -1), Child(0, -1), 5, false, true, false, true, true, false, false, false, true, true);
    assert Has(e1, P2wsh, t1, i1);
    var e2, t2 := Wrap(WrapL, e1), Type(B, false, true, false, true, false);
    var i2 := Info(Ops(4, 0, -1), Child(1, 1), 9, false, false, true, true, true, false, false, false, true, true);
    WrapStep(WrapL, e1, P2wsh, t1, i1, t2, i2);
  }

  lemma VectorAndNonePart3(a: nat, n1: nat, n2: nat)
    requires n1 == 4252898 && n2 == 16
    ensures Has(Wrap(WrapA, Older(n2)), P2wsh, Type(W, false, false, false, false, false),
                Info(Ops(3, 0, -1), Child(0, -1), 4, false, true, false, true, false, true, false, false, true, true))
  {
    var e1, t1 := Older(n2), Type(B, true, false, false, false, false);
    var i1 := Info(Ops(1, 0, -1), Child(0, -1), 2, false, true, false, true, false, true, false, false, true, true);
    assert Has(e1, P2wsh, t1, i1);
    var e2, t2 := Wrap(WrapA, e1), Type(W, false, false, false, false, false);
    var i2 := Info(Ops(3, 0, -1), Child(0, -1), 4, false, true, false, true, false, true, false, false, true, true);
    WrapStep(WrapA, e1, P2wsh, t1, i1, t2, i2);
  }

  lemma VectorAndNonePart4(a: nat, n1: nat, n2: nat)
    requires n1 == 4252898 && n2 == 16
    ensures Has(Binary(AndB, Wrap(WrapL, Older(n1)), Wrap(WrapA, Older(n2))), P2wsh, Type(B, false, false, false, false, true),
                Info(Ops(8, 0, -1), Child(1, -1), 14, false, false, false, true, true, true, false, false, false, true))
  {
    var e1, t1 := Wrap(WrapL, Older(n1)), Type(B, false, true, false, true, false);
    var i1 := Info(Ops(4, 0, -1), Child(1, 1), 9, false, false, true, true, true, false, false, false, true, true);
    VectorAndNonePart2(a, n1, n2);
    var e2, t2 := Wrap(WrapA, Older(n2)), Type(W, false, false, false, false, false);
    var i2 := Info(Ops(3, 0, -1), Child(0, -1), 4, false, true, false, true, false, true, false, false, true, true);
    VectorAndNonePart3(a, n1, n2);
    var e3, t3 := Binary(AndB, e1, e2), Type(B, false, false, false, false, true);
    var i3 := Info(Ops(8, 0, -1), Child(1, -1), 14, false, false, false, true, true, true, false, false, false, true);
    BinaryStep(AndB, e1, e2, P2wsh, t1, i1, t2, i2, t3, i3);
  }

  /** and_n(c:pk_k(@0),and_b(l:older(4252898),a:older(16))) */
  lemma VectorAndNone(a: nat, n1: nat, n2: nat)
    requires n1 == 4252898 && n2 == 16
    ensures Vector(Binary(AndN, Wrap(WrapC, PkK(a)), Binary(AndB, Wrap(WrapL, Older(n1)), Wrap(WrapA, Older(n2)))), P2wsh,
                   true, true, false, 53, 12, 3)
  {
    var e1, t1 := Wrap(WrapC, PkK(a)), Type(B, false, true, true, true, true);
    var i1 := Info(Ops(1, 0, 0), Child(1, 1), 35, true, false, true, true, false, false, false, false, true, false);
    VectorAndNonePart1(a, n1, n2);
    var e2, t2 := Binary(AndB, Wrap(WrapL, Older(n1)), Wrap(WrapA, Older(n2))), Type(B, false, false, false, false, true);
    var i2 := Info(Ops(8, 0, -1), Child(1, -1), 14, false, false, false, true, true, true, false, false, false, true);
    VectorAndNonePart4(a, n1, n2);
    var e3, t3 := Binary(AndN, e1, e2), Type(B, false, false, false, true, true);
    var i3 := Info(Ops(12, 0, 0), Child(2, 1), 53, true, false, true, true, true, true, false, false, false, true);
    BinaryStep(AndN, e1, e2, P2wsh, t1, i1, t2, i2, t3, i3);
  }

  lemma SaneRecoveryPart1(a: nat, b: nat, n1: nat)
    requires n1 == 12960
    ensures Has(Wrap(WrapV, Pk(a)), P2wsh, Type(V, false, true, true, false, false),
                Info(Ops(1, 0, -1), Child(1, -1), 35, true, true, false, true, false, false, false, false, true, true))
  {
    var e1, t1 := Pk(a), Type(B, false, true, true, true, true);
    var i1 := Info(Ops(1, 0, 0), Child(1, 1), 35, true, false, true, true, false, false, false, false, true, false);
    assert Has(e1, P2wsh, t1, i1);
    var e2, t2 := Wrap(WrapV, e1), Type(V, false, true, true, false, false);
    var i2 := Info(Ops(1, 0, -1), Child(1, -1), 35, true, true, false, true, false, false, false, false, true, true);
    WrapStep(WrapV, e1, P2wsh, t1, i1, t2, i2);
  }

  lemma SaneRecoveryPart2(a: nat, b: nat, n1: nat)
    requires n1 == 12960
    ensures Has(Binary(OrD, Pk(b), Older(n1)), P2wsh, Type(B, false, true, false, false, false),
                Info(Ops(5, 0, -1), Child(1, -1), 42, false, true, false, true, false, true, false, false, true, true))
  {
    var e1, t1 := Pk(b), Type(B, false, true, true, true, true);
    var i1 := Info(Ops(1, 0, 0), Child(1, 1), 35, true, false, true, true, false, false, false, false, true, false);
    assert Has(e1, P2wsh, t1, i1);
    var e2, t2 := Older(n1), Type(B, true, false, false, false, false);
    var i2 := Info(Ops(1, 0, -1), Child(0, -1), 4, false, true, false, true, false, true, false, false, true, true);
    assert Has(e2, P2wsh, t2, i2);
    var e3, t3 := Binary(OrD, e1, e2), Type(B, false, true, false, false, false);
    var i3 := Info(Ops(5, 0, -1), Child(1, -1), 42, false, true, false, true, false, true, false, false, true, true);
    BinaryStep(OrD, e1, e2, P2wsh, t1, i1, t2, i2, t3, i3);
  }

  /** and_v(v:pk(@0),or_d(pk(@1),older(12960))) */
  lemma SaneRecovery(a: nat, b: nat, n1: nat)
    requires n1 == 12960
    ensures Sane(Binary(AndV, Wrap(WrapV, Pk(a)), Binary(OrD, Pk(b), Older(n1))), P2wsh)
  {
    var e1, t1 := Wrap(WrapV, Pk(a)), Type(V, false, true, true, false, false);
    var i1 := Info(Ops(1, 0, -1), Child(1, -1), 35, true, true, false, true, false, false, false, false, true, true);
    SaneRecoveryPart1(a, b, n1);
    var e2, t2 := Binary(OrD, Pk(b), Older(n1)), Type(B, false, true, false, false, false);
    var i2 := Info(Ops(5, 0, -1), Child(1, -1), 42, false, true, false, true, false, true, false, false, true, true);
    SaneRecoveryPart2(a, b, n1);
    var e3, t3 := Binary(AndV, e1, e2), Type(B, false, false, true, false, false);
    var i3 := Info(Ops(6, 0, -1), Child(2, -1), 77, true, true, false, true, false, true, false, false, true, true);
    BinaryStep(AndV, e1, e2, P2wsh, t1, i1, t2, i2, t3, i3);
  }

  lemma SaneChannelPart1(a: nat, b: nat, c: nat, image: nat, n1: nat)
    requires n1 == 1008
    ensures Has(Wrap(WrapV, Pkh(b)), P2wsh, Type(V, false, false, true, false, false),
                Info(Ops(4, 0, -1), Child(2, -1), 25, true, true, false, true, false, false, false, false, true, true))
  {
    var e1, t1 := Pkh(b), Type(B, false, false, true, true, true);
    var i1 := Info(Ops(4, 0, 0), Child(2, 2), 25, true, false, true, true, false, false, false, false, true, false);
    assert Has(e1, P2wsh, t1, i1);
    var e2, t2 := Wrap(WrapV, e1), Type(V, false, false, true, false, false);
    var i2 := Info(Ops(4, 0, -1), Child(2, -1), 25, true, true, false, true, false, false, false, false, true, true);
    WrapStep(WrapV, e1, P2wsh, t1, i1, t2, i2);
  }

  lemma SaneChannelPart2(a: nat, b: nat, c: nat, image: nat, n1: nat)
    requires n1 == 1008
    ensures Has(Binary(AndV, Wrap(WrapV, Pkh(b)), HashLock(Hash160, image)), P2wsh, Type(B, false, false, true, false, true),
                Info(Ops(8, 0, -1), Child(3, -1), 52, true, true, false, true, false, false, false, false, true, false))
  {
    var e1, t1 := Wrap(WrapV, Pkh(b)), Type(V, false, false, true, false, false);
    var i1 := Info(Ops(4, 0, -1), Child(2, -1), 25, true, true, false, true, false, false, false, false, true, true);
    SaneChannelPart1(a, b, c, image, n1);
    var e2, t2 := HashLock(Hash160, image), Type(B, false, true, true, true, true);
    var i2 := Info(Ops(4, 0, -1), Child(1, -1), 27, false, false, false, true, false, false, false, false, true, false);
    assert Has(e2, P2wsh, t2, i2);
    var e3, t3 := Binary(AndV, e1, e2), Type(B, false, false, true, false, true);
    var i3 := Info(Ops(8, 0, -1), Child(3, -1), 52, true, true, false, true, false, false, false, false, true, false);
    BinaryStep(AndV, e1, e2, P2wsh, t1, i1, t2, i2, t3, i3);
  }

  lemma SaneChannelPart3(a: nat, b: nat, c: nat, image: nat, n1: nat)
    requires n1 == 1008
    ensures Has(Binary(OrI, Binary(AndV, Wrap(WrapV, Pkh(b)), HashLock(Hash160, image)), Older(n1)), P2wsh, Type(B, false, false, false, false, false),
                Info(Ops(12, 0, -1), Child(4, -1), 59, false, true, false, true, false, true, false, false, true, true))
  {
    var e1, t1 := Binary(AndV, Wrap(WrapV, Pkh(b)), HashLock(Hash160, image)), Type(B, false, false, true, false, true);
    var i1 := Info(Ops(8, 0, -1), Child(3, -1), 52, true, true, false, true, false, false, false, false, true, false);
    SaneChannelPart2(a, b, c, image, n1);
    var e2, t2 := Older(n1), Type(B, true, false, false, false, false);
    var i2 := Info(Ops(1, 0, -1), Child(0, -1), 4, false, true, false, true, false, true, false, false, true, true);
    assert Has(e2, P2wsh, t2, i2);
    var e3, t3 := Binary(OrI, e1, e2), Type(B, false, false, false, false, false);
    var i3 := Info(Ops(12, 0, -1), Child(4, -1), 59, false, true, false, true, false, true, false, false, true, true);
    BinaryStep(OrI, e1, e2, P2wsh, t1, i1, t2, i2, t3, i3);
  }

  /** andor(pk(@0),or_i(and_v(v:pkh(@1),hash160(0)),older(1008)),pk(@2)) */
  lemma SaneChannel(a: nat, b: nat, c: nat, image: nat, n1: nat)
    requires n1 == 1008
    ensures Sane(AndOr(Pk(a), Binary(OrI, Binary(AndV, Wrap(WrapV, Pkh(b)), HashLock(Hash160, image)), Older(n1)), Pk(c)), P2wsh)
  {
    var e1, t1 := Pk(a), Type(B, false, true, true, true, true);
    var i1 := Info(Ops(1, 0, 0), Child(1, 1), 35, true, false, true, true, false, false, false, false, true, false);
    assert Has(e1, P2wsh, t1, i1);
    var e2, t2 := Binary(OrI, Binary(AndV, Wrap(WrapV, Pkh(b)), HashLock(Hash160, image)), Older(n1)), Type(B, false, false, false, false, false);
    var i2 := Info(Ops(12, 0, -1), Child(4, -1), 59, false, true, false, true, false, true, false, false, true, true);
    SaneChannelPart3(a, b, c, image, n1);
    var e3, t3 := Pk(c), Type(B, false, true, true, true, true);
    var i3 := Info(Ops(1, 0, 0), Child(1, 1), 35, true, false, true, true, false, false, false, false, true, false);
    assert Has(e3, P2wsh, t3, i3);
    var e4, t4 := AndOr(e1, e2, e3), Type(B, false, false, false, true, false);
    var i4 := Info(Ops(17, 0, 0), Child(5, 2), 132, true, false, true, true, false, true, false, false, true, true);
    AndOrStep(e1, e2, e3, P2wsh, t1, i1, t2, i2, t3, i3, t4, i4);
  }

  lemma SaneContractPart1(a: nat, b: nat, c: nat, image: nat)
    ensures Has(Wrap(WrapV, Pk(b)), P2wsh, Type(V, false, true, true, false, false),
                Info(Ops(1, 0, -1), Child(1, -1), 35, true, true, false, true, false, false, false, false, true, true))
  {
    var e1, t1 := Pk(b), Type(B, false, true, true, true, true);
    var i1 := Info(Ops(1, 0, 0), Child(1, 1), 35, true, false, true, true, false, false, false, false, true, false);
    assert Has(e1, P2wsh, t1, i1);
    var e2, t2 := Wrap(WrapV, e1), Type(V, false, true, true, false, false);
    var i2 := Info(Ops(1, 0, -1), Child(1, -1), 35, true, true, false, true, false, false, false, false, true, true);
    WrapStep(WrapV, e1, P2wsh, t1, i1, t2, i2);
  }

  lemma SaneContractPart2(a: nat, b: nat, c: nat, image: nat)
    ensures Has(Wrap(WrapV, HashLock(Hash160, image)), P2wsh, Type(V, false, true, true, false, false),
                Info(Ops(4, 0, -1), Child(1, -1), 27, false, true, false, true, false, false, false, false, true, true))
  {
    var e1, t1 := HashLock(Hash160, image), Type(B, false, true, true, true, true);
    var i1 := Info(Ops(4, 0, -1), Child(1, -1), 27, false, false, false, true, false, false, false, false, true, false);
    assert Has(e1, P2wsh, t1, i1);
    var e2, t2 := Wrap(WrapV, e1), Type(V, false, true, true, false, false);
    var i2 := Info(Ops(4, 0, -1), Child(1, -1), 27, false, true, false, true, false, false, false, false, true, true);
    WrapStep(WrapV, e1, P2wsh, t1, i1, t2, i2);
  }

  lemma SaneContractPart3(a: nat, b: nat, c: nat, image: nat)
    ensures Has(Binary(OrC, Pk(c), Wrap(WrapV, HashLock(Hash160, image))), P2wsh, Type(V, false, false, false, false, false),
                Info(Ops(7, 0, -1), Child(2, -1), 64, false, true, false, true, false, false, false, false, true, true))
  {
    var e1, t1 := Pk(c), Type(B, false, true, true, true, true);
    var i1 := Info(Ops(1, 0, 0), Child(1, 1), 35, true, false, true, true, false, false, false, false, true, false);
    assert Has(e1, P2wsh, t1, i1);
    var e2, t2 := Wrap(WrapV, HashLock(Hash160, image)), Type(V, false, true, true, false, false);
    var i2 := Info(Ops(4, 0, -1), Child(1, -1), 27, false, true, false, true, false, false, false, false, true, true);
    SaneContractPart2(a, b, c, image);
    var e3, t3 := Binary(OrC, e1, e2), Type(V, false, false, false, false, false);
    var i3 := Info(Ops(7, 0, -1), Child(2, -1), 64, false, true, false, true, false, false, false, false, true, true);
    BinaryStep(OrC, e1, e2, P2wsh, t1, i1, t2, i2, t3, i3);
  }

  lemma SaneContractPart4(a: nat, b: nat, c: nat, image: nat)
    ensures Has(Binary(AndV, Wrap(WrapV, Pk(b)), Binary(OrC, Pk(c), Wrap(WrapV, HashLock(Hash160, image)))), P2wsh, Type(V, false, false, true, false, false),
                Info(Ops(8, 0, -1), Child(3, -1), 99, true, true, false, true, false, false, false, false, true, true))
  {
    var e1, t1 := Wrap(WrapV, Pk(b)), Type(V, false, true, true, false, false);
    var i1 := Info(Ops(1, 0, -1), Child(1, -1), 35, true, true, false, true, false, false, false, false, true, true);
    SaneContractPart1(a, b, c, image);
    var e2, t2 := Binary(OrC, Pk(c), Wrap(WrapV, HashLock(Hash160, image))), Type(V, false, false, false, false, false);
    var i2 := Info(Ops(7, 0, -1), Child(2, -1), 64, false, true, false, true, false, false, false, false, true, true);
    SaneContractPart3(a, b, c, image);
    var e3, t3 := Binary(AndV, e1, e2), Type(V, false, false, true, false, false);
    var i3 := Info(Ops(8, 0, -1), Child(3, -1), 99, true, true, false, true, false, false, false, false, true, true);
    BinaryStep(AndV, e1, e2, P2wsh, t1, i1, t2, i2, t3, i3);
  }

  /** t:or_c(pk(@0),and_v(v:pk(@1),or_c(pk(@2),v:hash160(0)))) */
  lemma SaneContract(a: nat, b: nat, c: nat, image: nat)
    ensures Sane(Wrap(WrapT, Binary(OrC, Pk(a), Binary(AndV, Wrap(WrapV, Pk(b)), Binary(OrC, Pk(c), Wrap(WrapV, HashLock(Hash160, image)))))), P2wsh)
  {
    var e1, t1 := Pk(a), Type(B, false, true, true, true, true);
    var i1 := Info(Ops(1, 0, 0), Child(1, 1), 35, true, false, true, true, false, false, false, false, true, false);
    assert Has(e1, P2wsh, t1, i1);
    var e2, t2 := Binary(AndV, Wrap(WrapV, Pk(b)), Binary(OrC, Pk(c), Wrap(WrapV, HashLock(Hash160, image)))), Type(V, false, false, true, false, false);
    var i2 := Info(Ops(8, 0, -1), Child(3, -1), 99, true, true, false, true, false, false, false, false, true, true);
    SaneContractPart4(a, b, c, image);
    var e3, t3 := Binary(OrC, e1, e2), Type(V, false, false, false, false, false);
    var i3 := Info(Ops(11, 0, -1), Child(4, -1), 136, true, true, false, true, false, false, false, false, true, true);
    BinaryStep(OrC, e1, e2, P2wsh, t1, i1, t2, i2, t3, i3);
    var e4, t4 := Wrap(WrapT, e3), Type(B, false, false, false, false, true);
    var i4 := Info(Ops(11, 0, -1), Child(4, -1), 137, true, true, false, true, false, false, false, false, true, true);
    WrapStep(WrapT, e3, P2wsh, t3, i3, t4, i4);
  }

  /** or_d(pk(@0),multi(3,@1,@2,@3,@4,@5)) */
  lemma SaneBackup(a: nat, b: nat, c: nat, d: nat, e: nat, f: nat)
    ensures Sane(Binary(OrD, Pk(a), Multi(3, [b, c, d, e, f])), P2wsh)
  {
    var e1, t1 := Pk(a), Type(B, false, true, true, true, true);
    var i1 := Info(Ops(1, 0, 0), Child(1, 1), 35, true, false, true, true, false, false, false, false, true, false);
    assert Has(e1, P2wsh, t1, i1);
    var e2, t2 := Multi(3, [b, c, d, e, f]), Type(B, false, false, true, true, true);
    var i2 := Info(Ops(1, 5, 5), Child(4, 4), 173, true, false, true, true, false, false, false, false, true, false);
    assert Has(e2, P2wsh, t2, i2);
    var e3, t3 := Binary(OrD, e1, e2), Type(B, false, false, false, true, true);
    var i3 := Info(Ops(5, 5, 5), Child(5, 5), 211, true, false, true, true, false, false, false, false, true, true);
    BinaryStep(OrD, e1, e2, P2wsh, t1, i1, t2, i2, t3, i3);
  }
}
