/** The costs that the second pass computes are the greatest over all canonical ways. */
module MiniscriptCosts {
  import opened Wrappers
  import opened Miniscript
  import opened MiniscriptInfo
  import opened MiniscriptConsistency
  import opened MiniscriptWays
  import opened ScriptMachine
  import opened MiniscriptSafety
  import opened Thresh

  /** Elements on the initial stack, and keys of the CHECKMULTISIG operations that run. */
  datatype Measure = Stack | Keys

  function Amount(m: Measure, w: Way): nat {
    match m
    case Stack => |w.items|
    case Keys => w.keys
  }

  /** Costs are capped at INT16_MAX. */
  function Cap(n: nat): Cost {
    if n > Thresh.INT16_MAX then Thresh.INT16_MAX else n
  }

  /** The greatest cost of the ways; -1 if there are none. */
  ghost predicate Peak(m: Measure, A: Ways, c: Cost) {
    && (forall w :: w in A ==> Cap(Amount(m, w)) <= c)
    && (c >= 0 ==> exists w :: w in A && Cap(Amount(m, w)) == c)
  }

  function Costs(m: Measure, i: Info): Child {
    match m
    case Stack => i.ss
    case Keys => Child(i.ops.sat, i.ops.dsat)
  }

  ghost predicate Priced(m: Measure, c: Child, p: Both) {
    Peak(m, p.sat, c.sat) && Peak(m, p.dsat, c.dsat)
  }

  // ---- ways taken together ----

  lemma AmountJoin(m: Measure, a: Way, b: Way)
    ensures Amount(m, Join(a, b)) == Amount(m, a) + Amount(m, b)
  {}

  lemma PeakEach(m: Measure, A: Ways, a: Cost, B: Ways, b: Cost)
    requires Peak(m, A, a) && Peak(m, B, b)
    ensures Peak(m, Each(A, B), SumCheck(a, b))
  {
    forall w | w in Each(A, B)
      ensures Cap(Amount(m, w)) <= SumCheck(a, b)
    {
      var x, y :| x in A && y in B && w == Join(x, y);
      AmountJoin(m, x, y);
    }
    if a >= 0 && b >= 0 {
      var x :| x in A && Cap(Amount(m, x)) == a;
      var y :| y in B && Cap(Amount(m, y)) == b;
      AmountJoin(m, x, y);
      assert Join(x, y) in Each(A, B);
    }
  }

  lemma PeakUnion(m: Measure, A: Ways, a: Cost, B: Ways, b: Cost)
    requires Peak(m, A, a) && Peak(m, B, b)
    ensures Peak(m, A + B, MaxCheck(a, b))
  {
    var c := MaxCheck(a, b);
    if c >= 0 {
      if c == a {
        var x :| x in A && Cap(Amount(m, x)) == a;
        assert x in A + B;
      } else {
        var y :| y in B && Cap(Amount(m, y)) == b;
        assert y in A + B;
      }
    }
  }

  lemma PeakNone(m: Measure)
    ensures Peak(m, iset{}, -1)
  {}

  lemma PeakOne(m: Measure, w: Way)
    ensures Peak(m, iset{w}, Cap(Amount(m, w)))
  {
    assert w in iset{w};
  }

  lemma PeakJust(m: Measure, s: seq<Element>)
    requires |s| <= 1000
    ensures Peak(m, Just(s), if m.Stack? then |s| else 0)
  {
    PeakOne(m, Way(s, {}, 0));
  }

  lemma PeakTagged(m: Measure, A: Ways, a: Cost, tag: Element)
    requires Peak(m, A, a)
    ensures Peak(m, Each(A, Just([tag])), SumCheck(a, if m.Stack? then 1 else 0))
  {
    PeakJust(m, [tag]);
    PeakEach(m, A, a, Just([tag]), if m.Stack? then 1 else 0);
  }

  // ---- nodes ----

  lemma AndOrPriced(xi: Info, yi: Info, zi: Info, xp: Both, yp: Both, zp: Both)
    requires Priced(Stack, xi.ss, xp) && Priced(Stack, yi.ss, yp) && Priced(Stack, zi.ss, zp)
    ensures Priced(Stack, AndOrInfo(xi, yi, zi).ss, AndOrWays(xp, yp, zp, false))
  {
    PeakEach(Stack, yp.sat, yi.ss.sat, xp.sat, xi.ss.sat);
    PeakEach(Stack, zp.sat, zi.ss.sat, xp.dsat, xi.ss.dsat);
    PeakEach(Stack, zp.dsat, zi.ss.dsat, xp.dsat, xi.ss.dsat);
    PeakUnion(Stack, Each(yp.sat, xp.sat), SumCheck(yi.ss.sat, xi.ss.sat),
              Each(zp.sat, xp.dsat), SumCheck(zi.ss.sat, xi.ss.dsat));
    assert AndOrWays(xp, yp, zp, false).dsat == Each(zp.dsat, xp.dsat);
  }

  lemma BinaryPriced(m: Measure, op: BinOp, xi: Info, yi: Info, xp: Both, yp: Both)
    requires Priced(m, Costs(m, xi), xp) && Priced(m, Costs(m, yi), yp) && (m.Keys? ==> op != AndN)
    ensures Priced(m, Costs(m, BinaryInfo(op, xi, yi)), BinaryWays(op, xp, yp, false))
  {
    match op
    case AndV => AndPriced(m, op, xi, yi, xp, yp);
    case AndB => AndPriced(m, op, xi, yi, xp, yp);
    case AndN => AndPriced(m, op, xi, yi, xp, yp);
    case OrB => OrBPriced(m, xi, yi, xp, yp);
    case OrC => OrPriced(m, op, xi, yi, xp, yp);
    case OrD => OrPriced(m, op, xi, yi, xp, yp);
    case OrI => OrIPriced(m, xi, yi, xp, yp);
  }

  lemma AndPriced(m: Measure, op: BinOp, xi: Info, yi: Info, xp: Both, yp: Both)
    requires Priced(m, Costs(m, xi), xp) && Priced(m, Costs(m, yi), yp) && (m.Keys? ==> op != AndN)
    requires op == AndV || op == AndB || op == AndN
    ensures Priced(m, Costs(m, BinaryInfo(op, xi, yi)), BinaryWays(op, xp, yp, false))
  {
    var x, y := Costs(m, xi), Costs(m, yi);
    PeakEach(m, yp.sat, y.sat, xp.sat, x.sat);
    PeakEach(m, yp.dsat, y.dsat, xp.dsat, x.dsat);
    PeakNone(m);
    assert BinaryWays(op, xp, yp, false).dsat
        == (if op == AndV then iset{} else if op == AndB then Each(yp.dsat, xp.dsat) else xp.dsat);
  }

  lemma OrBPriced(m: Measure, xi: Info, yi: Info, xp: Both, yp: Both)
    requires Priced(m, Costs(m, xi), xp) && Priced(m, Costs(m, yi), yp)
    ensures Priced(m, Costs(m, OrBInfo(xi, yi)), BinaryWays(OrB, xp, yp, false))
  {
    var x, y := Costs(m, xi), Costs(m, yi);
    EitherPriced(m, x, y, xp, yp);
    PeakEach(m, yp.dsat, y.dsat, xp.dsat, x.dsat);
    assert BinaryWays(OrB, xp, yp, false).sat == Each(yp.dsat, xp.sat) + Each(yp.sat, xp.dsat);
  }

  /** One of the two is satisfied. */
  lemma EitherPriced(m: Measure, x: Child, y: Child, xp: Both, yp: Both)
    requires Priced(m, x, xp) && Priced(m, y, yp)
    ensures Peak(m, Each(yp.dsat, xp.sat) + Each(yp.sat, xp.dsat), MaxCheck(SumCheck(y.dsat, x.sat), SumCheck(y.sat, x.dsat)))
  {
    PeakEach(m, yp.sat, y.sat, xp.dsat, x.dsat);
    PeakEach(m, yp.dsat, y.dsat, xp.sat, x.sat);
    PeakUnion(m, Each(yp.dsat, xp.sat), SumCheck(y.dsat, x.sat), Each(yp.sat, xp.dsat), SumCheck(y.sat, x.dsat));
  }

  /** The first is satisfied, or dissatisfied and the second satisfied. */
  lemma ElsePriced(m: Measure, x: Child, y: Child, xp: Both, yp: Both)
    requires Priced(m, x, xp) && Priced(m, y, yp)
    ensures Peak(m, xp.sat + Each(yp.sat, xp.dsat), MaxCheck(x.sat, SumCheck(y.sat, x.dsat)))
    ensures Peak(m, Each(yp.dsat, xp.dsat), SumCheck(y.dsat, x.dsat))
  {
    PeakEach(m, yp.sat, y.sat, xp.dsat, x.dsat);
    PeakEach(m, yp.dsat, y.dsat, xp.dsat, x.dsat);
    PeakUnion(m, xp.sat, x.sat, Each(yp.sat, xp.dsat), SumCheck(y.sat, x.dsat));
  }

  lemma SumCommutes(a: Cost, b: Cost)
    ensures SumCheck(a, b) == SumCheck(b, a)
  {}

  lemma OrPriced(m: Measure, op: BinOp, xi: Info, yi: Info, xp: Both, yp: Both)
    requires Priced(m, Costs(m, xi), xp) && Priced(m, Costs(m, yi), yp) && (op == OrC || op == OrD)
    ensures Priced(m, Costs(m, BinaryInfo(op, xi, yi)), BinaryWays(op, xp, yp, false))
  {
    var x, y := Costs(m, xi), Costs(m, yi);
    ElsePriced(m, x, y, xp, yp);
    SumCommutes(x.dsat, y.sat);
    SumCommutes(x.dsat, y.dsat);
    PeakNone(m);
  }

  lemma OrIPriced(m: Measure, xi: Info, yi: Info, xp: Both, yp: Both)
    requires Priced(m, Costs(m, xi), xp) && Priced(m, Costs(m, yi), yp)
    ensures Priced(m, Costs(m, OrIInfo(xi, yi)), BinaryWays(OrI, xp, yp, false))
  {
    var x, y, one := Costs(m, xi), Costs(m, yi), if m.Stack? then 1 else 0;
    PeakTagged(m, xp.sat, x.sat, True);
    PeakTagged(m, yp.sat, y.sat, Empty);
    PeakTagged(m, xp.dsat, x.dsat, True);
    PeakTagged(m, yp.dsat, y.dsat, Empty);
    PeakUnion(m, Each(xp.sat, Just([True])), SumCheck(x.sat, one), Each(yp.sat, Just([Empty])), SumCheck(y.sat, one));
    PeakUnion(m, Each(xp.dsat, Just([True])), SumCheck(x.dsat, one), Each(yp.dsat, Just([Empty])), SumCheck(y.dsat, one));
  }

  lemma WrapPriced(m: Measure, w: Wrapper, xi: Info, xp: Both)
    requires Priced(m, Costs(m, xi), xp)
    requires m.Keys? && (w == WrapL || w == WrapU) ==> xi.ops.dsat >= 0
    ensures Priced(m, Costs(m, WrapInfo(w, xi)), WrapWays(w, xp, false))
  {
    PeakNone(m);
    match w
    case WrapD =>
      PeakJust(m, [Empty]);
      PeakTagged(m, xp.sat, Costs(m, xi).sat, True);
    case WrapJ =>
      PeakJust(m, [Empty]);
      assert WrapWays(w, xp, false).dsat == Just([Empty]);
    case WrapL => WrapLPriced(m, xi, xp);
    case WrapU => WrapUPriced(m, xi, xp);
    case _ =>
  }

  lemma WrapLPriced(m: Measure, xi: Info, xp: Both)
    requires Priced(m, Costs(m, xi), xp) && (m.Keys? ==> xi.ops.dsat >= 0)
    ensures Priced(m, Costs(m, WrapLUInfo(xi)), WrapWays(WrapL, xp, false))
  {
    var x, one := Costs(m, xi), if m.Stack? then 1 else 0;
    PeakJust(m, [True]);
    PeakTagged(m, xp.sat, x.sat, Empty);
    PeakTagged(m, xp.dsat, x.dsat, Empty);
    PeakUnion(m, Just([True]), one, Each(xp.dsat, Just([Empty])), SumCheck(x.dsat, one));
  }

  lemma WrapUPriced(m: Measure, xi: Info, xp: Both)
    requires Priced(m, Costs(m, xi), xp) && (m.Keys? ==> xi.ops.dsat >= 0)
    ensures Priced(m, Costs(m, WrapLUInfo(xi)), WrapWays(WrapU, xp, false))
  {
    var x, one := Costs(m, xi), if m.Stack? then 1 else 0;
    PeakJust(m, [Empty]);
    PeakTagged(m, xp.sat, x.sat, True);
    PeakTagged(m, xp.dsat, x.dsat, True);
    PeakUnion(m, Each(xp.dsat, Just([True])), SumCheck(x.dsat, one), Just([Empty]), one);
  }

  // ---- leaves ----

  /** Some k keys can be picked if there are as many. */
  lemma {:induction false} SomePicks(keys: seq<nat>, k: nat) returns (p: seq<Element>)
    requires k <= |keys|
    ensures p in Picks(keys, k)
    decreases |keys|
  {
    if |keys| == 0 {
      p := [];
    } else {
      var last := |keys| - 1;
      if k <= last {
        p := SomePicks(keys[..last], k);
      } else {
        var q := SomePicks(keys[..last], k - 1);
        p := q + [Sig(keys[last])];
      }
    }
  }

  lemma {:induction false} SomeMarks(keys: seq<nat>, k: nat) returns (p: seq<Element>)
    requires k <= |keys|
    ensures p in Marks(keys, k)
    decreases |keys|
  {
    if |keys| == 0 {
      p := [];
    } else {
      var last := |keys| - 1;
      if k <= last {
        var q := SomeMarks(keys[..last], k);
        p := [Empty] + q;
      } else {
        var q := SomeMarks(keys[..last], k - 1);
        p := [Sig(keys[last])] + q;
      }
    }
  }

  /** Ways that all cost the same. */
  lemma PeakSame(m: Measure, A: Ways, w: Way, n: nat)
    requires w in A && n <= 1000 && forall v :: v in A ==> Amount(m, v) == n
    ensures Peak(m, A, n)
  {}

  lemma MultiPriced(m: Measure, k: nat, keys: seq<nat>)
    requires 1 <= k <= |keys| <= MAX_MULTISIG_KEYS
    ensures Priced(m, if m.Stack? then Child(k + 1, k + 1) else Child(|keys|, |keys|), MultiWays(k, keys))
  {
    var p := SomePicks(keys, k);
    forall w | w in MultiWays(k, keys).sat
      ensures |w.items| == k + 1 && w.keys == |keys|
    {
      var q :| q in Picks(keys, k) && w == Way([Empty] + q, {}, |keys|);
      PicksSigned(keys, k, q);
    }
    PeakSame(m, MultiWays(k, keys).sat, Way([Empty] + p, {}, |keys|), if m.Stack? then k + 1 else |keys|);
    PeakOne(m, Way(Empties(k + 1), {}, |keys|));
  }

  lemma MultiAPriced(m: Measure, k: nat, keys: seq<nat>)
    requires 1 <= k <= |keys| <= MAX_MULTISIG_KEYS
    ensures Priced(m, if m.Stack? then Child(|keys|, |keys|) else Child(0, 0), MultiAWays(k, keys, false))
  {
    var p := SomeMarks(keys, k);
    forall w | w in MultiAWays(k, keys, false).sat
      ensures |w.items| == |keys| && w.keys == 0
    {
      var q :| q in Marks(keys, k) && w == Way(q, {}, 0);
      MarksSigned(keys, k, q);
    }
    PeakSame(m, MultiAWays(k, keys, false).sat, Way(p, {}, 0), if m.Stack? then |keys| else 0);
    PeakJust(m, Empties(|keys|));
  }

  lemma KeyPriced(m: Measure, key: nat)
    ensures Priced(m, if m.Stack? then Child(1, 1) else Child(0, 0), Both(Just([Sig(key)]), Just([Empty])))
    ensures Priced(m, if m.Stack? then Child(2, 2) else Child(0, 0),
                   Both(Just([Sig(key), PubKey(key)]), Just([Empty, PubKey(key)])))
  {
    PeakJust(m, [Sig(key)]);
    PeakJust(m, [Empty]);
    PeakJust(m, [Sig(key), PubKey(key)]);
    PeakJust(m, [Empty, PubKey(key)]);
  }

  lemma LockPriced(m: Measure, lock: Lock)
    ensures Peak(m, Locked(lock), 0)
  {
    PeakOne(m, Way([], {lock}, 0));
  }

  lemma LeafPriced(m: Measure, e: Expr, ctx: Context)
    requires !e.AndOr? && !e.Binary? && !e.Thresh? && !e.Wrap? && Accepted(e, ctx)
    ensures Priced(m, Costs(m, InfoOf(e, ctx).value), WaysOf(e, false))
  {
    PeakNone(m);
    match e
    case Zero => PeakJust(m, []);
    case One => PeakJust(m, []);
    case PkK(key) => KeyPriced(m, key);
    case Pk(key) => KeyPriced(m, key);
    case PkH(key) => KeyPriced(m, key);
    case Pkh(key) => KeyPriced(m, key);
    case Multi(k, keys) => MultiPriced(m, k, keys);
    case MultiA(k, keys) => MultiAPriced(m, k, keys);
    case Older(n) => LockPriced(m, Relative(n));
    case After(n) => LockPriced(m, Absolute(n));
    case HashLock(kind, image) => PeakJust(m, [Preimage(kind, image)]);
  }

  // ---- thresh ----

  ghost predicate PricedChildren(m: Measure, children: seq<Child>, ps: seq<Both>) {
    |children| == |ps| && forall i :: 0 <= i < |ps| ==> Priced(m, children[i], ps[i])
  }

  /** The recurrence, extended to counts below zero. */
  function BestAt(children: seq<Child>, k: int): Cost {
    if k < 0 then -1 else Best(children, k)
  }

  lemma BestStep(children: seq<Child>, k: int)
    requires |children| > 0 && k <= |children|
    ensures var rest, c := children[..|children| - 1], children[|children| - 1];
            BestAt(children, k) == MaxCheck(SumCheck(BestAt(rest, k), c.dsat), SumCheck(BestAt(rest, k - 1), c.sat))
  {
    if k >= 0 {
      BestCombines(children, k);
    }
  }

  /** One more child, dissatisfied after A or satisfied after B. */
  lemma OneMorePriced(m: Measure, A: Ways, a: Cost, B: Ways, b: Cost, c: Child, p: Both)
    requires Peak(m, A, a) && Peak(m, B, b) && Priced(m, c, p)
    ensures Peak(m, Each(p.dsat, A) + Each(p.sat, B), MaxCheck(SumCheck(a, c.dsat), SumCheck(b, c.sat)))
  {
    PeakEach(m, p.dsat, c.dsat, A, a);
    PeakEach(m, p.sat, c.sat, B, b);
    PeakUnion(m, Each(p.dsat, A), SumCheck(a, c.dsat), Each(p.sat, B), SumCheck(b, c.sat));
  }

  /** The recurrence computes the greatest cost of satisfying exactly k children. */
  lemma {:induction false} ChoosePriced(m: Measure, children: seq<Child>, ps: seq<Both>, k: int)
    requires PricedChildren(m, children, ps)
    ensures Peak(m, Choose(ps, k), BestAt(children, k))
    decreases |ps|
  {
    if k > |ps| || k < 0 {
      NoChoice(ps, k);
      assert BestAt(children, k) == -1;
    } else if |ps| == 0 {
      PeakOne(m, Nothing);
    } else {
      var n := |ps| - 1;
      ChoosePriced(m, children[..n], ps[..n], k);
      ChoosePriced(m, children[..n], ps[..n], k - 1);
      StepPriced(m, children, ps, k, n);
    }
  }

  lemma StepPriced(m: Measure, children: seq<Child>, ps: seq<Both>, k: int, n: nat)
    requires PricedChildren(m, children, ps) && |ps| == n + 1 && k <= |ps|
    requires Peak(m, Choose(ps[..n], k), BestAt(children[..n], k))
    requires Peak(m, Choose(ps[..n], k - 1), BestAt(children[..n], k - 1))
    ensures Peak(m, Choose(ps, k), BestAt(children, k))
  {
    OneMorePriced(m, Choose(ps[..n], k), BestAt(children[..n], k), Choose(ps[..n], k - 1), BestAt(children[..n], k - 1),
                  children[n], ps[n]);
    BestStep(children, k);
    ChooseStep(ps, k, n);
  }

  lemma ChooseStep(ps: seq<Both>, k: int, n: nat)
    requires |ps| == n + 1
    ensures Choose(ps, k) == Each(ps[n].dsat, Choose(ps[..n], k)) + Each(ps[n].sat, Choose(ps[..n], k - 1))
  {}

  function ChildCosts(m: Measure, infos: seq<Info>): (r: seq<Child>)
    ensures |r| == |infos| && forall i :: 0 <= i < |r| ==> r[i] == Costs(m, infos[i])
  {
    match m
    case Stack => StackCosts(infos)
    case Keys => OpsCosts(infos)
  }

  lemma ThreshPriced(m: Measure, k: nat, infos: seq<Info>, ps: seq<Both>)
    requires PricedChildren(m, ChildCosts(m, infos), ps) && ThreshInfo(k, Some(infos)).Some? && k <= |infos|
    ensures Priced(m, Costs(m, ThreshInfo(k, Some(infos)).value), ThreshWays(k, ps, false))
  {
    ChoosePriced(m, ChildCosts(m, infos), ps, k);
    ChoosePriced(m, ChildCosts(m, infos), ps, 0);
    assert ThreshWays(k, ps, false).dsat == Choose(ps, 0);
  }

  // ---- where the costs are not the greatest ----

  lemma PeakUnique(m: Measure, A: Ways, c: Cost, d: Cost)
    requires Peak(m, A, c)
    ensures Peak(m, A, d) <==> c == d
  {}

  /** A thresh that asks for more children than it has is given costs although there is no way. */
  lemma ThreshPricedIff(m: Measure, k: nat, infos: seq<Info>, ps: seq<Both>)
    requires PricedChildren(m, ChildCosts(m, infos), ps) && ThreshInfo(k, Some(infos)).Some?
    ensures Priced(m, Costs(m, ThreshInfo(k, Some(infos)).value), ThreshWays(k, ps, false)) <==> k <= |infos|
  {
    if k <= |infos| {
      ThreshPriced(m, k, infos, ps);
    } else {
      NoChoice(ps, k);
      PeakNone(m);
      PeakUnique(m, Choose(ps, k), -1, Costs(m, ThreshInfo(k, Some(infos)).value).sat);
    }
  }

  /**
   The keys counted for andor are right exactly if y.dsat and x.dsat count the same beside the satisfaction
   of z, or neither counts for more than satisfying x and y.
   */
  lemma AndOrKeysIff(x: Info, y: Info, z: Info, xp: Both, yp: Both, zp: Both)
    requires Priced(Keys, Costs(Keys, x), xp) && Priced(Keys, Costs(Keys, y), yp) && Priced(Keys, Costs(Keys, z), zp)
    ensures Priced(Keys, Costs(Keys, AndOrInfo(x, y, z)), AndOrWays(xp, yp, zp, false)) <==>
              var both, counted, right := SumCheck(y.ops.sat, x.ops.sat), SumCheck(y.ops.dsat, z.ops.sat), SumCheck(x.ops.dsat, z.ops.sat);
              counted == right || (counted <= both && right <= both)
  {
    PeakEach(Keys, yp.sat, y.ops.sat, xp.sat, x.ops.sat);
    PeakEach(Keys, zp.sat, z.ops.sat, xp.dsat, x.ops.dsat);
    PeakEach(Keys, zp.dsat, z.ops.dsat, xp.dsat, x.ops.dsat);
    var right := MaxCheck(SumCheck(y.ops.sat, x.ops.sat), SumCheck(z.ops.sat, x.ops.dsat));
    PeakUnion(Keys, Each(yp.sat, xp.sat), SumCheck(y.ops.sat, x.ops.sat), Each(zp.sat, xp.dsat), SumCheck(z.ops.sat, x.ops.dsat));
    PeakUnique(Keys, AndOrWays(xp, yp, zp, false).sat, right, AndOrInfo(x, y, z).ops.sat);
    SumCommutes(x.ops.dsat, z.ops.dsat);
    assert AndOrWays(xp, yp, zp, false).dsat == Each(zp.dsat, xp.dsat);
  }

  /** Those for and_n are right exactly if dissatisfying y does not count for more than satisfying both. */
  lemma AndNKeysIff(x: Info, y: Info, xp: Both, yp: Both)
    requires Priced(Keys, Costs(Keys, x), xp) && Priced(Keys, Costs(Keys, y), yp)
    ensures Priced(Keys, Costs(Keys, AndNInfo(x, y)), BinaryWays(AndN, xp, yp, false))
       <==> y.ops.dsat <= SumCheck(y.ops.sat, x.ops.sat)
  {
    PeakEach(Keys, yp.sat, y.ops.sat, xp.sat, x.ops.sat);
    PeakUnique(Keys, Each(yp.sat, xp.sat), SumCheck(y.ops.sat, x.ops.sat), AndNInfo(x, y).ops.sat);
    assert BinaryWays(AndN, xp, yp, false).dsat == xp.dsat;
  }

  /** Those for l are right exactly if the child can be dissatisfied. */
  lemma WrapLKeysIff(x: Info, xp: Both)
    requires Priced(Keys, Costs(Keys, x), xp)
    ensures Priced(Keys, Costs(Keys, WrapLUInfo(x)), WrapWays(WrapL, xp, false)) <==> x.ops.dsat >= 0
  {
    if x.ops.dsat >= 0 {
      WrapLPriced(Keys, x, xp);
    } else {
      assert Way([True], {}, 0) in Just([True]);
      assert Way([True], {}, 0) in WrapWays(WrapL, xp, false).dsat;
    }
  }

  /** And the same for u. */
  lemma WrapUKeysIff(x: Info, xp: Both)
    requires Priced(Keys, Costs(Keys, x), xp)
    ensures Priced(Keys, Costs(Keys, WrapLUInfo(x)), WrapWays(WrapU, xp, false)) <==> x.ops.dsat >= 0
  {
    if x.ops.dsat >= 0 {
      WrapUPriced(Keys, x, xp);
    } else {
      assert Way([Empty], {}, 0) in Just([Empty]);
      assert Way([Empty], {}, 0) in WrapWays(WrapU, xp, false).dsat;
    }
  }

  // ---- all expressions ----

  /** For keys, andor does not suffer from counting y.dsat for x.dsat. */
  predicate AndOrExact(m: Measure, x: Info, y: Info, z: Info) {
    m.Keys? ==>
      var both, counted, right := SumCheck(y.ops.sat, x.ops.sat), SumCheck(y.ops.dsat, z.ops.sat), SumCheck(x.ops.dsat, z.ops.sat);
      counted == right || (counted <= both && right <= both)
  }

  /** Nor does and_n. */
  predicate BinaryExact(m: Measure, op: BinOp, x: Info, y: Info) {
    m.Keys? && op == AndN ==> y.ops.dsat <= SumCheck(y.ops.sat, x.ops.sat)
  }

  /** And what l and u wrap can be dissatisfied. */
  predicate WrapExact(m: Measure, w: Wrapper, x: Info) {
    m.Keys? && (w == WrapL || w == WrapU) ==> x.ops.dsat >= 0
  }

  lemma AndOrIff(m: Measure, x: Info, y: Info, z: Info, xp: Both, yp: Both, zp: Both)
    requires Priced(m, Costs(m, x), xp) && Priced(m, Costs(m, y), yp) && Priced(m, Costs(m, z), zp)
    ensures Priced(m, Costs(m, AndOrInfo(x, y, z)), AndOrWays(xp, yp, zp, false)) <==> AndOrExact(m, x, y, z)
  {
    match m
    case Stack => AndOrPriced(x, y, z, xp, yp, zp);
    case Keys => AndOrKeysIff(x, y, z, xp, yp, zp);
  }

  lemma BinaryIff(m: Measure, op: BinOp, x: Info, y: Info, xp: Both, yp: Both)
    requires Priced(m, Costs(m, x), xp) && Priced(m, Costs(m, y), yp)
    ensures Priced(m, Costs(m, BinaryInfo(op, x, y)), BinaryWays(op, xp, yp, false)) <==> BinaryExact(m, op, x, y)
  {
    if m.Keys? && op == AndN {
      AndNKeysIff(x, y, xp, yp);
    } else {
      BinaryPriced(m, op, x, y, xp, yp);
    }
  }

  lemma WrapIff(m: Measure, w: Wrapper, x: Info, xp: Both)
    requires Priced(m, Costs(m, x), xp)
    ensures Priced(m, Costs(m, WrapInfo(w, x)), WrapWays(w, xp, false)) <==> WrapExact(m, w, x)
  {
    if m.Keys? && w == WrapL {
      WrapLKeysIff(x, xp);
    } else if m.Keys? && w == WrapU {
      WrapUKeysIff(x, xp);
    } else {
      WrapPriced(m, w, x, xp);
    }
  }

  /** Where the costs of a node follow from those of its children; a thresh asks for no more children than it has. */
  predicate NodeExact(m: Measure, e: Expr, ctx: Context)
    requires Accepted(e, ctx)
  {
    match e
    case AndOr(x, y, z) => AndOrExact(m, InfoOf(x, ctx).value, InfoOf(y, ctx).value, InfoOf(z, ctx).value)
    case Binary(op, x, y) => BinaryExact(m, op, InfoOf(x, ctx).value, InfoOf(y, ctx).value)
    case Thresh(k, subs) => k <= Length(subs)
    case Wrap(w, x) => WrapExact(m, w, InfoOf(x, ctx).value)
    case _ => true
  }

  /** And so at every node. */
  predicate Exact(m: Measure, e: Expr, ctx: Context)
    decreases e
  {
    && Accepted(e, ctx)
    && NodeExact(m, e, ctx)
    && match e
       case AndOr(x, y, z) => Exact(m, x, ctx) && Exact(m, y, ctx) && Exact(m, z, ctx)
       case Binary(_, x, y) => Exact(m, x, ctx) && Exact(m, y, ctx)
       case Thresh(_, subs) => AllExact(m, subs, ctx)
       case Wrap(_, x) => Exact(m, x, ctx)
       case _ => true
  }

  predicate AllExact(m: Measure, l: Exprs, ctx: Context)
    decreases l
  {
    match l
    case Nil => true
    case Cons(head, tail) => Exact(m, head, ctx) && AllExact(m, tail, ctx)
  }

  ghost predicate NodePriced(m: Measure, e: Expr, ctx: Context) {
    Accepted(e, ctx) && Priced(m, Costs(m, InfoOf(e, ctx).value), WaysOf(e, false))
  }

  /** The costs of every node are the greatest over all canonical ways. */
  ghost predicate PricedTree(m: Measure, e: Expr, ctx: Context)
    decreases e
  {
    && NodePriced(m, e, ctx)
    && match e
       case AndOr(x, y, z) => PricedTree(m, x, ctx) && PricedTree(m, y, ctx) && PricedTree(m, z, ctx)
       case Binary(_, x, y) => PricedTree(m, x, ctx) && PricedTree(m, y, ctx)
       case Thresh(_, subs) => PricedList(m, subs, ctx)
       case Wrap(_, x) => PricedTree(m, x, ctx)
       case _ => true
  }

  ghost predicate PricedList(m: Measure, l: Exprs, ctx: Context)
    decreases l
  {
    match l
    case Nil => true
    case Cons(head, tail) => PricedTree(m, head, ctx) && PricedList(m, tail, ctx)
  }

  lemma ThreshNodeIff(m: Measure, k: nat, subs: Exprs, ctx: Context)
    requires Accepted(Thresh(k, subs), ctx) && PricedList(m, subs, ctx)
    ensures NodePriced(m, Thresh(k, subs), ctx) <==> NodeExact(m, Thresh(k, subs), ctx)
  {
    ListPriced(m, subs, ctx);
    ThreshPricedIff(m, k, InfosOf(subs, ctx).value, ListWays(subs, false));
  }

  lemma {:induction false} ListPriced(m: Measure, l: Exprs, ctx: Context)
    requires InfosOf(l, ctx).Some? && PricedList(m, l, ctx)
    ensures |InfosOf(l, ctx).value| == Length(l)
    ensures PricedChildren(m, ChildCosts(m, InfosOf(l, ctx).value), ListWays(l, false))
    decreases l
  {
    match l
    case Nil =>
    case Cons(head, tail) =>
      ListPriced(m, tail, ctx);
      PricedCons(m, InfoOf(head, ctx).value, InfosOf(tail, ctx).value, WaysOf(head, false), ListWays(tail, false));
  }

  lemma PricedCons(m: Measure, i: Info, infos: seq<Info>, p: Both, ps: seq<Both>)
    requires Priced(m, Costs(m, i), p) && PricedChildren(m, ChildCosts(m, infos), ps)
    ensures PricedChildren(m, ChildCosts(m, [i] + infos), [p] + ps)
  {}

  /** The costs in an accepted expression are the greatest over all canonical ways if and only if every node is exact. */
  lemma {:induction false} CostsAreGreatest(m: Measure, e: Expr, ctx: Context)
    requires Accepted(e, ctx)
    ensures PricedTree(m, e, ctx) <==> Exact(m, e, ctx)
    decreases e, 1
  {
    match e
    case AndOr(_, _, _) => AndOrGreatest(m, e, ctx);
    case Binary(_, _, _) => BinaryGreatest(m, e, ctx);
    case Thresh(k, subs) =>
      AllCostsAreGreatest(m, subs, true, ctx);
      if AllExact(m, subs, ctx) {
        ThreshNodeIff(m, k, subs, ctx);
      }
    case Wrap(w, x) =>
      CostsAreGreatest(m, x, ctx);
      if Exact(m, x, ctx) {
        WrapIff(m, w, InfoOf(x, ctx).value, WaysOf(x, false));
      }
    case _ =>
      LeafPriced(m, e, ctx);
  }

  lemma {:induction false} AndOrGreatest(m: Measure, e: Expr, ctx: Context)
    requires e.AndOr? && Accepted(e, ctx)
    ensures PricedTree(m, e, ctx) <==> Exact(m, e, ctx)
    decreases e, 0
  {
    CostsAreGreatest(m, e.x, ctx);
    CostsAreGreatest(m, e.y, ctx);
    CostsAreGreatest(m, e.z, ctx);
    if Exact(m, e.x, ctx) && Exact(m, e.y, ctx) && Exact(m, e.z, ctx) {
      AndOrIff(m, InfoOf(e.x, ctx).value, InfoOf(e.y, ctx).value, InfoOf(e.z, ctx).value,
               WaysOf(e.x, false), WaysOf(e.y, false), WaysOf(e.z, false));
    }
  }

  lemma {:induction false} BinaryGreatest(m: Measure, e: Expr, ctx: Context)
    requires e.Binary? && Accepted(e, ctx)
    ensures PricedTree(m, e, ctx) <==> Exact(m, e, ctx)
    decreases e, 0
  {
    CostsAreGreatest(m, e.x, ctx);
    CostsAreGreatest(m, e.y, ctx);
    if Exact(m, e.x, ctx) && Exact(m, e.y, ctx) {
      BinaryIff(m, e.op, InfoOf(e.x, ctx).value, InfoOf(e.y, ctx).value, WaysOf(e.x, false), WaysOf(e.y, false));
    }
  }

  lemma {:induction false} AllCostsAreGreatest(m: Measure, l: Exprs, first: bool, ctx: Context)
    requires CountSubs(l, first, ctx).Some? && InfosOf(l, ctx).Some?
    ensures PricedList(m, l, ctx) <==> AllExact(m, l, ctx)
    decreases l
  {
    match l
    case Nil =>
    case Cons(head, tail) =>
      CostsAreGreatest(m, head, ctx);
      AllCostsAreGreatest(m, tail, false, ctx);
  }

  // ---- expressions whose costs are not the greatest ----

  /** andor(pk(a), older(n), multi(1, b)) */
  function TimedOr(a: nat, n: nat, b: nat): Expr {
    AndOr(Pk(a), Older(n), Multi(1, [b]))
  }

  /** No key is counted for it, although its satisfaction by the multisig checks one. */
  lemma TimedOrKeys(a: nat, n: nat, b: nat)
    requires 1 <= n < 0x8000_0000
    ensures Accepted(TimedOr(a, n, b), P2wsh) && InfoOf(TimedOr(a, n, b), P2wsh).value.ops.sat == 0
    ensures Way([Empty, Sig(b), Empty], {}, 1) in WaysOf(TimedOr(a, n, b), false).sat
  {
    var x, y, z := InfoOf(Pk(a), P2wsh).value, InfoOf(Older(n), P2wsh).value, InfoOf(Multi(1, [b]), P2wsh).value;
    assert x.ops == Ops(1, 0, 0) && y.ops == Ops(1, 0, -1);
    assert InfoOf(TimedOr(a, n, b), P2wsh) == Some(AndOrInfo(x, y, z));
    OnePick(b);
    var v, w := Way([Empty] + [Sig(b)], {}, 1), Way([Empty], {}, 0);
    assert v in MultiWays(1, [b]).sat && w in WaysOf(Pk(a), false).dsat;
    assert Join(v, w) in Each(MultiWays(1, [b]).sat, WaysOf(Pk(a), false).dsat);
    assert Join(v, w) == Way([Empty, Sig(b), Empty], {}, 1);
  }

  lemma OnePick(b: nat)
    ensures [Sig(b)] in Picks([b], 1)
  {
    var keys, k := [b], 1;
    assert keys[..0] == [] && [] in Picks(keys[..0], k - 1);
    assert [] + [Sig(b)] == [Sig(b)];
    assert [] + [Sig(keys[0])] in Picks(keys, k);
  }

  /** A cost is given for and_n(pk(a), 0), which cannot be satisfied. */
  lemma AndNeverKeys(a: nat, ctx: Context)
    ensures var e := Binary(AndN, Pk(a), Zero);
            Accepted(e, ctx) && InfoOf(e, ctx).value.ops.sat == 0 && WaysOf(e, false).sat == iset{}
  {
    var e := Binary(AndN, Pk(a), Zero);
    assert InfoOf(Zero, ctx).value.ops == Ops(0, -1, 0);
    assert InfoOf(e, ctx) == Some(AndNInfo(InfoOf(Pk(a), ctx).value, InfoOf(Zero, ctx).value));
    assert WaysOf(e, false).sat == Each(WaysOf(Zero, false).sat, WaysOf(Pk(a), false).sat);
    EachNone(WaysOf(Zero, false).sat, WaysOf(Pk(a), false).sat);
  }

  /** And none for dissatisfying l:older(n) and u:older(n), which 1 and the empty element do. */
  lemma WrappedOlderKeys(n: nat, ctx: Context)
    requires 1 <= n < 0x8000_0000
    ensures var l, u := Wrap(WrapL, Older(n)), Wrap(WrapU, Older(n));
            && Accepted(l, ctx) && InfoOf(l, ctx).value.ops.dsat == -1 && Way([True], {}, 0) in WaysOf(l, false).dsat
            && Accepted(u, ctx) && InfoOf(u, ctx).value.ops.dsat == -1 && Way([Empty], {}, 0) in WaysOf(u, false).dsat
  {
    var i, p := InfoOf(Older(n), ctx).value, WaysOf(Older(n), false);
    assert i == OlderInfo(n) && i.ops.dsat == -1;
    assert InfoOf(Wrap(WrapL, Older(n)), ctx) == Some(WrapLUInfo(i)) && InfoOf(Wrap(WrapU, Older(n)), ctx) == Some(WrapLUInfo(i));
    assert Way([True], {}, 0) in Just([True]) && Way([Empty], {}, 0) in Just([Empty]);
    assert WaysOf(Wrap(WrapL, Older(n)), false) == WrapWays(WrapL, p, false);
    assert WaysOf(Wrap(WrapU, Older(n)), false) == WrapWays(WrapU, p, false);
  }
}
