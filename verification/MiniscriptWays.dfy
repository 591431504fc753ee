/**
 What it takes to satisfy and to dissatisfy a miniscript, after the tables of BIP 379: the witness
 elements, the timelocks that have to be met, and the keys of the CHECKMULTISIG operations that run.
 */
module MiniscriptWays {
  import opened Miniscript
  import opened ScriptMachine

  datatype Way = Way(items: seq<Element>, locks: set<Lock>, keys: nat)

  type Ways = iset<Way>

  /** The ways to satisfy and to dissatisfy an expression. */
  datatype Both = Both(sat: Ways, dsat: Ways)

  const Nothing: Way := Way([], {}, 0)

  function Join(a: Way, b: Way): Way {
    Way(a.items + b.items, a.locks + b.locks, a.keys + b.keys)
  }

  /** One way of each. */
  ghost function Each(A: Ways, B: Ways): Ways {
    iset a, b | a in A && b in B :: Join(a, b)
  }

  ghost function Just(s: seq<Element>): Ways {
    iset{Way(s, {}, 0)}
  }

  ghost function Locked(lock: Lock): Ways {
    iset{Way([], {lock}, 0)}
  }

  // ---- signatures of multisig ----

  /** k signatures in the order of their keys. */
  ghost function Picks(keys: seq<nat>, k: int): iset<seq<Element>> {
    if |keys| == 0 then (if k == 0 then iset{[]} else iset{})
    else
      var last := |keys| - 1;
      Picks(keys[..last], k) + (iset p | p in Picks(keys[..last], k - 1) :: p + [Sig(keys[last])])
  }

  /** One element per key, that of the first key on top, and k of them signatures. */
  ghost function Marks(keys: seq<nat>, k: int): iset<seq<Element>> {
    if |keys| == 0 then (if k == 0 then iset{[]} else iset{})
    else
      var last := |keys| - 1;
      (iset p | p in Marks(keys[..last], k) :: [Empty] + p)
      + (iset p | p in Marks(keys[..last], k - 1) :: [Sig(keys[last])] + p)
  }

  function Empties(n: nat): seq<Element> {
    seq(n, _ => Empty)
  }

  ghost function MultiWays(k: nat, keys: seq<nat>): Both {
    Both(iset p | p in Picks(keys, k) :: Way([Empty] + p, {}, |keys|),
         iset{Way(Empties(k + 1), {}, |keys|)})
  }

  ghost function MultiAWays(k: nat, keys: seq<nat>, full: bool): Both {
    Both(iset p | p in Marks(keys, k) :: Way(p, {}, 0),
         if full then iset j: nat, p | j != k && p in Marks(keys, j) :: Way(p, {}, 0)
         else Just(Empties(|keys|)))
  }

  // ---- expressions ----

  /** With `full`, also the ways that BIP 379 calls non-canonical or malleable. */
  ghost function WaysOf(e: Expr, full: bool): Both
    decreases e
  {
    match e
    case Zero => Both(iset{}, Just([]))
    case One => Both(Just([]), iset{})
    case PkK(key) => Both(Just([Sig(key)]), Just([Empty]))
    case Pk(key) => Both(Just([Sig(key)]), Just([Empty]))
    case PkH(key) => Both(Just([Sig(key), PubKey(key)]), Just([Empty, PubKey(key)]))
    case Pkh(key) => Both(Just([Sig(key), PubKey(key)]), Just([Empty, PubKey(key)]))
    case Multi(k, keys) => MultiWays(k, keys)
    case MultiA(k, keys) => MultiAWays(k, keys, full)
    case Older(n) => Both(Locked(Relative(n)), iset{})
    case After(n) => Both(Locked(Absolute(n)), iset{})
    case HashLock(kind, image) => Both(Just([Preimage(kind, image)]), Extra(full, WrongPreimages(kind, image)))
    case AndOr(x, y, z) => AndOrWays(WaysOf(x, full), WaysOf(y, full), WaysOf(z, full), full)
    case Binary(op, x, y) => BinaryWays(op, WaysOf(x, full), WaysOf(y, full), full)
    case Thresh(k, subs) => ThreshWays(k, ListWays(subs, full), full)
    case Wrap(w, x) => WrapWays(w, WaysOf(x, full), full)
  }

  ghost function ListWays(l: Exprs, full: bool): seq<Both>
    decreases l
  {
    match l
    case Nil => []
    case Cons(head, tail) => [WaysOf(head, full)] + ListWays(tail, full)
  }

  /** Any 32 bytes but the preimage. */
  ghost function WrongPreimages(kind: HashKind, image: nat): Ways {
    iset item | ElementLength(item) == 32 && item != Preimage(kind, image) :: Way([item], {}, 0)
  }

  /** The extra ways, if they are asked for. */
  ghost function Extra(full: bool, A: Ways): Ways {
    if full then A else iset{}
  }

  ghost function AndOrWays(x: Both, y: Both, z: Both, full: bool): Both {
    Both(Each(y.sat, x.sat) + Each(z.sat, x.dsat),
         Each(z.dsat, x.dsat) + Extra(full, Each(y.dsat, x.sat)))
  }

  ghost function BinaryWays(op: BinOp, x: Both, y: Both, full: bool): Both {
    match op
    case AndV => Both(Each(y.sat, x.sat), Extra(full, Each(y.dsat, x.sat)))
    case AndB => Both(Each(y.sat, x.sat),
                      Each(y.dsat, x.dsat) + Extra(full, Each(y.sat, x.dsat) + Each(y.dsat, x.sat)))
    case AndN => Both(Each(y.sat, x.sat), x.dsat + Extra(full, Each(y.dsat, x.sat)))
    case OrB => Both(Each(y.dsat, x.sat) + Each(y.sat, x.dsat) + Extra(full, Each(y.sat, x.sat)),
                     Each(y.dsat, x.dsat))
    case OrC => Both(x.sat + Each(y.sat, x.dsat), iset{})
    case OrD => Both(x.sat + Each(y.sat, x.dsat), Each(y.dsat, x.dsat))
    case OrI => Both(Each(x.sat, Just([True])) + Each(y.sat, Just([Empty])),
                     Each(x.dsat, Just([True])) + Each(y.dsat, Just([Empty])))
  }

  predicate TopNotEmpty(s: seq<Element>) {
    |s| > 0 && s[|s| - 1] != Empty
  }

  /** The ways whose topmost element is not empty. */
  ghost function WithTop(A: Ways): Ways {
    iset w | w in A && TopNotEmpty(w.items)
  }

  ghost function WrapWays(w: Wrapper, x: Both, full: bool): Both {
    match w
    case WrapA => x
    case WrapS => x
    case WrapC => x
    case WrapN => x
    case WrapT => Both(x.sat, iset{})
    case WrapV => Both(x.sat, iset{})
    case WrapD => Both(Each(x.sat, Just([True])), Just([Empty]))
    case WrapJ => Both(x.sat, Just([Empty]) + Extra(full, WithTop(x.dsat)))
    case WrapL => Both(Each(x.sat, Just([Empty])), Just([True]) + Each(x.dsat, Just([Empty])))
    case WrapU => Both(Each(x.sat, Just([True])), Each(x.dsat, Just([True])) + Just([Empty]))
  }

  /** The ways to satisfy exactly k of the children and to dissatisfy the others; the elements of the first child are on top. */
  ghost function Choose(children: seq<Both>, k: int): Ways {
    if |children| == 0 then (if k == 0 then iset{Nothing} else iset{})
    else
      var rest, last := children[..|children| - 1], children[|children| - 1];
      Each(last.dsat, Choose(rest, k)) + Each(last.sat, Choose(rest, k - 1))
  }

  ghost function ThreshWays(k: nat, children: seq<Both>, full: bool): Both {
    Both(Choose(children, k),
         Choose(children, 0) + Extra(full, iset j: nat, w | j != k && w in Choose(children, j) :: w))
  }

  /** No more children can be satisfied than there are, and no fewer than none. */
  lemma {:induction false} NoChoice(children: seq<Both>, k: int)
    ensures k < 0 || k > |children| ==> Choose(children, k) == iset{}
    decreases |children|
  {
    if |children| > 0 {
      NoChoice(children[..|children| - 1], k);
      NoChoice(children[..|children| - 1], k - 1);
    }
  }

  lemma JoinAssociates(a: Way, b: Way, c: Way)
    ensures Join(a, Join(b, c)) == Join(Join(a, b), c)
  {
    assert a.items + (b.items + c.items) == a.items + b.items + c.items;
    assert a.locks + (b.locks + c.locks) == a.locks + b.locks + c.locks;
  }

  lemma EachAssociates(A: Ways, B: Ways, C: Ways)
    ensures Each(A, Each(B, C)) == Each(Each(A, B), C)
  {
    forall w | w in Each(A, Each(B, C))
      ensures w in Each(Each(A, B), C)
    {
      var a, v :| a in A && v in Each(B, C) && w == Join(a, v);
      var b, c :| b in B && c in C && v == Join(b, c);
      JoinAssociates(a, b, c);
      assert Join(a, b) in Each(A, B);
    }
    forall w | w in Each(Each(A, B), C)
      ensures w in Each(A, Each(B, C))
    {
      var v, c :| v in Each(A, B) && c in C && w == Join(v, c);
      var a, b :| a in A && b in B && v == Join(a, b);
      JoinAssociates(a, b, c);
      assert Join(b, c) in Each(B, C);
    }
  }

  lemma EachDistributes(A: Ways, B: Ways, C: Ways)
    ensures Each(A, B + C) == Each(A, B) + Each(A, C)
    ensures Each(B + C, A) == Each(B, A) + Each(C, A)
  {}

  lemma JoinNothing(w: Way)
    ensures Join(w, Nothing) == w && Join(Nothing, w) == w
  {
    assert w.items + [] == w.items && [] + w.items == w.items;
  }

  lemma EachNothing(A: Ways)
    ensures Each(A, iset{Nothing}) == A && Each(iset{Nothing}, A) == A
  {
    forall w
      ensures w in Each(A, iset{Nothing}) <==> w in A
      ensures w in Each(iset{Nothing}, A) <==> w in A
    {
      JoinNothing(w);
      if w in Each(A, iset{Nothing}) {
        var a, b :| a in A && b in iset{Nothing} && w == Join(a, b);
        JoinNothing(a);
      }
      if w in Each(iset{Nothing}, A) {
        var b, a :| b in iset{Nothing} && a in A && w == Join(b, a);
        JoinNothing(a);
      }
    }
  }

  /** One more child, dissatisfied with A or satisfied with B, its elements below or above theirs. */
  ghost function Below(p: Both, A: Ways, B: Ways): Ways {
    Each(p.dsat, A) + Each(p.sat, B)
  }

  ghost function Above(p: Both, A: Ways, B: Ways): Ways {
    Each(A, p.dsat) + Each(B, p.sat)
  }

  /** It does not matter which of two children is added first. */
  lemma BelowAbove(head: Both, last: Both, A: Ways, B: Ways, C: Ways)
    ensures Below(last, Above(head, A, B), Above(head, B, C)) == Above(head, Below(last, A, B), Below(last, B, C))
  {
    EachAssociates(last.dsat, A, head.dsat);
    EachAssociates(last.dsat, B, head.sat);
    EachAssociates(last.sat, B, head.dsat);
    EachAssociates(last.sat, C, head.sat);
    EachDistributes(last.dsat, Each(A, head.dsat), Each(B, head.sat));
    EachDistributes(last.sat, Each(B, head.dsat), Each(C, head.sat));
    EachDistributes(head.dsat, Each(last.dsat, A), Each(last.sat, B));
    EachDistributes(head.sat, Each(last.dsat, B), Each(last.sat, C));
  }

  /** The choice can also be made from the first child on. */
  lemma {:induction false} ChooseCons(head: Both, tail: seq<Both>, k: int)
    ensures Choose([head] + tail, k) == Above(head, Choose(tail, k), Choose(tail, k - 1))
    decreases |tail|
  {
    var all := [head] + tail;
    var n := |tail|;
    if n == 0 {
      assert all[..0] == [] && all[0] == head;
      EachNothing(head.dsat);
      EachNothing(head.sat);
    } else {
      var last := tail[n - 1];
      assert all[..n] == [head] + tail[..n - 1] && all[n] == last;
      ChooseCons(head, tail[..n - 1], k);
      ChooseCons(head, tail[..n - 1], k - 1);
      BelowAbove(head, last, Choose(tail[..n - 1], k), Choose(tail[..n - 1], k - 1), Choose(tail[..n - 1], k - 2));
    }
  }

  // ---- canonical ways ----

  ghost predicate Within(p: Both, q: Both) {
    p.sat <= q.sat && p.dsat <= q.dsat
  }

  lemma EachWithin(A: Ways, B: Ways, C: Ways, D: Ways)
    requires A <= C && B <= D
    ensures Each(A, B) <= Each(C, D)
  {}

  lemma BinaryWithin(op: BinOp, x: Both, y: Both, xq: Both, yq: Both)
    requires Within(x, xq) && Within(y, yq)
    ensures Within(BinaryWays(op, x, y, false), BinaryWays(op, xq, yq, true))
  {
    EachWithin(y.sat, x.sat, yq.sat, xq.sat);
    EachWithin(y.sat, x.dsat, yq.sat, xq.dsat);
    EachWithin(y.dsat, x.sat, yq.dsat, xq.sat);
    EachWithin(y.dsat, x.dsat, yq.dsat, xq.dsat);
    if op == OrI {
      EachWithin(x.sat, Just([True]), xq.sat, Just([True]));
      EachWithin(y.sat, Just([Empty]), yq.sat, Just([Empty]));
      EachWithin(x.dsat, Just([True]), xq.dsat, Just([True]));
      EachWithin(y.dsat, Just([Empty]), yq.dsat, Just([Empty]));
    }
  }

  lemma WrapWithin(w: Wrapper, x: Both, xq: Both)
    requires Within(x, xq)
    ensures Within(WrapWays(w, x, false), WrapWays(w, xq, true))
  {
    EachWithin(x.sat, Just([True]), xq.sat, Just([True]));
    EachWithin(x.sat, Just([Empty]), xq.sat, Just([Empty]));
    EachWithin(x.dsat, Just([True]), xq.dsat, Just([True]));
    EachWithin(x.dsat, Just([Empty]), xq.dsat, Just([Empty]));
  }

  lemma AndOrWithin(x: Both, y: Both, z: Both, xq: Both, yq: Both, zq: Both)
    requires Within(x, xq) && Within(y, yq) && Within(z, zq)
    ensures Within(AndOrWays(x, y, z, false), AndOrWays(xq, yq, zq, true))
  {
    EachWithin(y.sat, x.sat, yq.sat, xq.sat);
    EachWithin(z.sat, x.dsat, zq.sat, xq.dsat);
    EachWithin(z.dsat, x.dsat, zq.dsat, xq.dsat);
  }

  ghost predicate AllWithin(ps: seq<Both>, qs: seq<Both>) {
    |ps| == |qs| && forall i :: 0 <= i < |ps| ==> Within(ps[i], qs[i])
  }

  lemma {:induction false} ChooseWithin(ps: seq<Both>, qs: seq<Both>, k: int)
    requires AllWithin(ps, qs)
    ensures Choose(ps, k) <= Choose(qs, k)
    decreases |ps|
  {
    if |ps| > 0 {
      var n := |ps| - 1;
      ChooseWithin(ps[..n], qs[..n], k);
      ChooseWithin(ps[..n], qs[..n], k - 1);
      EachWithin(ps[n].dsat, Choose(ps[..n], k), qs[n].dsat, Choose(qs[..n], k));
      EachWithin(ps[n].sat, Choose(ps[..n], k - 1), qs[n].sat, Choose(qs[..n], k - 1));
    }
  }

  lemma {:induction false} NoneMarked(keys: seq<nat>)
    ensures Empties(|keys|) in Marks(keys, 0)
    decreases |keys|
  {
    if |keys| == 0 {
      assert Empties(0) == [];
    } else {
      var last := |keys| - 1;
      NoneMarked(keys[..last]);
      assert Empties(|keys|) == [Empty] + Empties(last);
    }
  }

  lemma MultiAWithin(k: nat, keys: seq<nat>)
    requires k >= 1
    ensures Within(MultiAWays(k, keys, false), MultiAWays(k, keys, true))
  {
    var none: nat := 0;
    NoneMarked(keys);
    assert none != k && Empties(|keys|) in Marks(keys, none);
  }

  /** The canonical ways are among all ways. */
  lemma {:induction false} CanonicalWithin(e: Expr, ctx: Context)
    requires TypeOf(e, ctx).Some?
    ensures Within(WaysOf(e, false), WaysOf(e, true))
    decreases e
  {
    match e
    case AndOr(x, y, z) =>
      CanonicalWithin(x, ctx);
      CanonicalWithin(y, ctx);
      CanonicalWithin(z, ctx);
      AndOrWithin(WaysOf(x, false), WaysOf(y, false), WaysOf(z, false), WaysOf(x, true), WaysOf(y, true), WaysOf(z, true));
    case Binary(op, x, y) =>
      CanonicalWithin(x, ctx);
      CanonicalWithin(y, ctx);
      BinaryWithin(op, WaysOf(x, false), WaysOf(y, false), WaysOf(x, true), WaysOf(y, true));
    case Thresh(k, subs) =>
      CanonicalChildren(subs, true, ctx);
      ChooseWithin(ListWays(subs, false), ListWays(subs, true), k);
      ChooseWithin(ListWays(subs, false), ListWays(subs, true), 0);
    case Wrap(w, x) =>
      CanonicalWithin(x, ctx);
      WrapWithin(w, WaysOf(x, false), WaysOf(x, true));
    case MultiA(k, keys) =>
      MultiAWithin(k, keys);
    case _ =>
  }

  lemma {:induction false} CanonicalChildren(l: Exprs, first: bool, ctx: Context)
    requires CountSubs(l, first, ctx).Some?
    ensures AllWithin(ListWays(l, false), ListWays(l, true))
    decreases l
  {
    match l
    case Nil =>
    case Cons(head, tail) =>
      CanonicalWithin(head, ctx);
      CanonicalChildren(tail, false, ctx);
  }
}
