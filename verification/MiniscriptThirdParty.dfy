/**
 What m guarantees against third parties, for expressions that use no key twice: whoever can satisfy an
 expression with some keys can do so with a witness that nobody can replace by another one with the
 signatures in it alone.
 */
module MiniscriptThirdParty {
  import opened Miniscript
  import opened MiniscriptInfo
  import opened MiniscriptConsistency
  import opened MiniscriptWays
  import opened ScriptMachine
  import opened MiniscriptSafety
  import opened MiniscriptUniqueness
  import opened MiniscriptFirmness

  // ---- the keys of expressions ----

  function KeySet(keys: seq<nat>): set<nat> {
    set key | key in keys
  }

  predicate AllDifferent(keys: seq<nat>) {
    forall i, j :: 0 <= i < j < |keys| ==> keys[i] != keys[j]
  }

  function KeysOf(e: Expr): set<nat>
    decreases e
  {
    match e
    case PkK(key) => {key}
    case PkH(key) => {key}
    case Pk(key) => {key}
    case Pkh(key) => {key}
    case Multi(_, keys) => KeySet(keys)
    case MultiA(_, keys) => KeySet(keys)
    case AndOr(x, y, z) => KeysOf(x) + KeysOf(y) + KeysOf(z)
    case Binary(_, x, y) => KeysOf(x) + KeysOf(y)
    case Thresh(_, subs) => KeysOfAll(subs)
    case Wrap(_, x) => KeysOf(x)
    case _ => {}
  }

  function KeysOfAll(l: Exprs): set<nat>
    decreases l
  {
    match l
    case Nil => {}
    case Cons(head, tail) => KeysOf(head) + KeysOfAll(tail)
  }

  /** No key is used twice. */
  predicate Distinct(e: Expr)
    decreases e
  {
    match e
    case Multi(_, keys) => AllDifferent(keys)
    case MultiA(_, keys) => AllDifferent(keys)
    case AndOr(x, y, z) =>
      Distinct(x) && Distinct(y) && Distinct(z) && KeysOf(x) !! KeysOf(y) && KeysOf(x) + KeysOf(y) !! KeysOf(z)
    case Binary(_, x, y) => Distinct(x) && Distinct(y) && KeysOf(x) !! KeysOf(y)
    case Thresh(_, subs) => AllDistinct(subs)
    case Wrap(_, x) => Distinct(x)
    case _ => true
  }

  predicate AllDistinct(l: Exprs)
    decreases l
  {
    match l
    case Nil => true
    case Cons(head, tail) => Distinct(head) && AllDistinct(tail) && KeysOf(head) !! KeysOfAll(tail)
  }

  // ---- leaves ----

  lemma {:induction false} PicksKeys(keys: seq<nat>, k: int, p: seq<Element>)
    requires p in Picks(keys, k)
    ensures SigKeys(p) <= KeySet(keys) && (AllDifferent(keys) ==> |SigKeys(p)| == k)
    decreases |keys|
  {
    if |keys| == 0 {
      assert SigKeys([]) == {};
    } else {
      var last := |keys| - 1;
      if p in Picks(keys[..last], k) {
        PicksKeys(keys[..last], k, p);
      } else {
        var q :| q in Picks(keys[..last], k - 1) && p == q + [Sig(keys[last])];
        PicksKeys(keys[..last], k - 1, q);
        OneMoreKey(keys, last, q, p);
      }
    }
  }

  lemma OneMoreKey(keys: seq<nat>, last: nat, q: seq<Element>, p: seq<Element>)
    requires |keys| == last + 1 && SigKeys(q) <= KeySet(keys[..last])
    requires p == q + [Sig(keys[last])] || p == [Sig(keys[last])] + q
    ensures SigKeys(p) == SigKeys(q) + {keys[last]} && (AllDifferent(keys) ==> keys[last] !in SigKeys(q))
  {
    SigKeysConcat(q, [Sig(keys[last])]);
    SigKeysConcat([Sig(keys[last])], q);
    assert SigKeys([Sig(keys[last])]) == {keys[last]};
  }

  lemma PickParts(keys: seq<nat>, k: int, p: seq<Element>) returns (has: bool, q: seq<Element>)
    requires |keys| > 0 && p in Picks(keys, k) && AllDifferent(keys)
    ensures var last := |keys| - 1;
            if has then p == q + [Sig(keys[last])] && q in Picks(keys[..last], k - 1) && SigKeys(p) == SigKeys(q) + {keys[last]}
            else p == q && q in Picks(keys[..last], k)
    ensures keys[|keys| - 1] !in SigKeys(q)
  {
    var last := |keys| - 1;
    if p in Picks(keys[..last], k) {
      has, q := false, p;
      PicksKeys(keys[..last], k, q);
    } else {
      has := true;
      q :| q in Picks(keys[..last], k - 1) && p == q + [Sig(keys[last])];
      PicksKeys(keys[..last], k - 1, q);
      OneMoreKey(keys, last, q, p);
    }
  }

  /** The signatures of a multisig that are of the same keys are the same. */
  lemma {:induction false} PicksDetermined(keys: seq<nat>, k: int, p: seq<Element>, q: seq<Element>)
    requires p in Picks(keys, k) && q in Picks(keys, k) && AllDifferent(keys) && SigKeys(q) == SigKeys(p)
    ensures q == p
    decreases |keys|
  {
    if |keys| > 0 {
      var last := |keys| - 1;
      var hp, p' := PickParts(keys, k, p);
      var hq, q' := PickParts(keys, k, q);
      assert hp <==> keys[last] in SigKeys(p);
      PicksDetermined(keys[..last], if hp then k - 1 else k, p', q');
    }
  }

  lemma SameCount(a: set<nat>, b: set<nat>)
    requires a <= b && |a| == |b|
    ensures a == b
  {
    assert |b - a| == |b| - |a|;
  }

  lemma MarkSplit(keys: seq<nat>, last: nat, k: int, p: seq<Element>) returns (has: bool, q: seq<Element>)
    requires |keys| == last + 1 && p in Marks(keys, k)
    ensures if has then p == [Sig(keys[last])] + q && q in Marks(keys[..last], k - 1) else p == [Empty] + q && q in Marks(keys[..last], k)
  {
    if r :| r in Marks(keys[..last], k) && p == [Empty] + r {
      has, q := false, r;
    } else {
      has := true;
      q :| q in Marks(keys[..last], k - 1) && p == [Sig(keys[last])] + q;
    }
  }

  lemma {:induction false} MarksKeys(keys: seq<nat>, k: int, p: seq<Element>)
    requires p in Marks(keys, k)
    ensures SigKeys(p) <= KeySet(keys) && (AllDifferent(keys) ==> |SigKeys(p)| == k)
    decreases |keys|
  {
    if |keys| == 0 {
      assert SigKeys([]) == {};
    } else {
      var last := |keys| - 1;
      var has, q := MarkSplit(keys, last, k, p);
      MarksKeys(keys[..last], if has then k - 1 else k, q);
      if has {
        OneMoreKey(keys, last, q, p);
      } else {
        NoMoreKey(q, p);
      }
    }
  }

  lemma NoMoreKey(q: seq<Element>, p: seq<Element>)
    requires p == [Empty] + q
    ensures SigKeys(p) == SigKeys(q)
  {
    SigKeysConcat([Empty], q);
    assert SigKeys([Empty]) == {};
  }

  lemma MarkParts(keys: seq<nat>, k: int, p: seq<Element>) returns (has: bool, q: seq<Element>)
    requires |keys| > 0 && p in Marks(keys, k) && AllDifferent(keys)
    ensures var last := |keys| - 1;
            if has then p == [Sig(keys[last])] + q && q in Marks(keys[..last], k - 1) && SigKeys(p) == SigKeys(q) + {keys[last]}
            else p == [Empty] + q && q in Marks(keys[..last], k) && SigKeys(p) == SigKeys(q)
    ensures keys[|keys| - 1] !in SigKeys(q)
  {
    var last := |keys| - 1;
    has, q := MarkSplit(keys, last, k, p);
    MarksKeys(keys[..last], if has then k - 1 else k, q);
    if has {
      OneMoreKey(keys, last, q, p);
    } else {
      NoMoreKey(q, p);
    }
  }

  lemma {:induction false} MarksDetermined(keys: seq<nat>, k: int, p: seq<Element>, q: seq<Element>)
    requires p in Marks(keys, k) && q in Marks(keys, k) && AllDifferent(keys) && SigKeys(q) == SigKeys(p)
    ensures q == p
    decreases |keys|
  {
    if |keys| > 0 {
      var last := |keys| - 1;
      var hp, p' := MarkParts(keys, k, p);
      var hq, q' := MarkParts(keys, k, q);
      assert hp <==> keys[last] in SigKeys(p);
      MarksDetermined(keys[..last], if hp then k - 1 else k, p', q');
    }
  }

  lemma MultiFirm(tx: Tx, K: set<nat>, k: nat, keys: seq<nat>)
    requires AllDifferent(keys)
    ensures Firm(tx, K, MultiWays(k, keys).sat)
  {
    var A := MultiWays(k, keys).sat;
    if w :| w in A && Open(tx, K, w) {
      var p :| p in Picks(keys, k) && w == Way([Empty] + p, {}, |keys|);
      PicksKeys(keys, k, p);
      NoMoreKey(p, w.items);
      forall v | v in A && Open(tx, SigKeys(w.items), v)
        ensures v.items == w.items
      {
        var q :| q in Picks(keys, k) && v == Way([Empty] + q, {}, |keys|);
        PicksKeys(keys, k, q);
        NoMoreKey(q, v.items);
        SameCount(SigKeys(q), SigKeys(p));
        PicksDetermined(keys, k, p, q);
      }
      assert Final(tx, A, w);
    }
  }

  lemma MultiAFirm(tx: Tx, K: set<nat>, k: nat, keys: seq<nat>)
    requires AllDifferent(keys)
    ensures Firm(tx, K, MultiAWays(k, keys, true).sat)
  {
    var A := MultiAWays(k, keys, true).sat;
    if w :| w in A && Open(tx, K, w) {
      var p :| p in Marks(keys, k) && w == Way(p, {}, 0);
      MarksKeys(keys, k, p);
      forall v | v in A && Open(tx, SigKeys(w.items), v)
        ensures v.items == w.items
      {
        var q :| q in Marks(keys, k) && v == Way(q, {}, 0);
        MarksKeys(keys, k, q);
        SameCount(SigKeys(q), SigKeys(p));
        MarksDetermined(keys, k, p, q);
      }
      assert Final(tx, A, w);
    }
  }

  lemma SingleFirm(tx: Tx, K: set<nat>, A: Ways, w: Way)
    requires A == iset{w} || A == iset{}
    ensures Firm(tx, K, A)
  {
    if Can(tx, K, A) {
      assert Final(tx, A, w);
    }
  }

  lemma LeafFirm(tx: Tx, K: set<nat>, e: Expr)
    requires !e.AndOr? && !e.Binary? && !e.Thresh? && !e.Wrap? && Distinct(e)
    ensures Firm(tx, K, WaysOf(e, true).sat)
  {
    match e
    case Zero => SingleFirm(tx, K, WaysOf(e, true).sat, Nothing);
    case One => SingleFirm(tx, K, WaysOf(e, true).sat, Way([], {}, 0));
    case PkK(key) => SingleFirm(tx, K, WaysOf(e, true).sat, Way([Sig(key)], {}, 0));
    case PkH(key) => SingleFirm(tx, K, WaysOf(e, true).sat, Way([Sig(key), PubKey(key)], {}, 0));
    case Pk(key) => SingleFirm(tx, K, WaysOf(e, true).sat, Way([Sig(key)], {}, 0));
    case Pkh(key) => SingleFirm(tx, K, WaysOf(e, true).sat, Way([Sig(key), PubKey(key)], {}, 0));
    case Multi(k, keys) => MultiFirm(tx, K, k, keys);
    case MultiA(k, keys) => MultiAFirm(tx, K, k, keys);
    case Older(n) => SingleFirm(tx, K, WaysOf(e, true).sat, Way([], {Relative(n)}, 0));
    case After(n) => SingleFirm(tx, K, WaysOf(e, true).sat, Way([], {Absolute(n)}, 0));
    case HashLock(kind, image) => SingleFirm(tx, K, WaysOf(e, true).sat, Way([Preimage(kind, image)], {}, 0));
  }

  // ---- whose signatures there are ----

  ghost predicate KeyedBoth(p: Both, keys: set<nat>) {
    Keyed(p.sat, keys) && Keyed(p.dsat, keys)
  }

  lemma KeyedMore(p: Both, keys: set<nat>, more: set<nat>)
    requires KeyedBoth(p, keys) && keys <= more
    ensures KeyedBoth(p, more)
  {}

  lemma EachKeyedSame(A: Ways, B: Ways, keys: set<nat>)
    requires Keyed(A, keys) && Keyed(B, keys)
    ensures Keyed(Each(A, B), keys)
  {
    EachKeyed(A, B, keys, keys);
  }

  lemma JustKeyed(s: seq<Element>, keys: set<nat>)
    requires SigKeys(s) <= keys
    ensures Keyed(Just(s), keys)
  {}

  lemma TagKeyed(A: Ways, tag: Element, keys: set<nat>)
    requires Keyed(A, keys) && !tag.Sig?
    ensures Keyed(Just([tag]), keys) && Keyed(Each(A, Just([tag])), keys)
  {
    assert SigKeys([tag]) == {};
    JustKeyed([tag], keys);
    EachKeyedSame(A, Just([tag]), keys);
  }

  lemma AndOrKeyed(x: Both, y: Both, z: Both, keys: set<nat>)
    requires KeyedBoth(x, keys) && KeyedBoth(y, keys) && KeyedBoth(z, keys)
    ensures KeyedBoth(AndOrWays(x, y, z, true), keys)
  {
    EachKeyedSame(y.sat, x.sat, keys);
    EachKeyedSame(z.sat, x.dsat, keys);
    EachKeyedSame(z.dsat, x.dsat, keys);
    EachKeyedSame(y.dsat, x.sat, keys);
  }

  lemma BinaryKeyed(op: BinOp, x: Both, y: Both, keys: set<nat>)
    requires KeyedBoth(x, keys) && KeyedBoth(y, keys)
    ensures KeyedBoth(BinaryWays(op, x, y, true), keys)
  {
    EachKeyedSame(y.sat, x.sat, keys);
    EachKeyedSame(y.sat, x.dsat, keys);
    EachKeyedSame(y.dsat, x.sat, keys);
    EachKeyedSame(y.dsat, x.dsat, keys);
    if op == OrI {
      TagKeyed(x.sat, True, keys);
      TagKeyed(y.sat, Empty, keys);
      TagKeyed(x.dsat, True, keys);
      TagKeyed(y.dsat, Empty, keys);
    }
  }

  lemma WrapKeyed(w: Wrapper, x: Both, keys: set<nat>)
    requires KeyedBoth(x, keys)
    ensures KeyedBoth(WrapWays(w, x, true), keys)
  {
    TagKeyed(x.sat, True, keys);
    TagKeyed(x.sat, Empty, keys);
    TagKeyed(x.dsat, True, keys);
    TagKeyed(x.dsat, Empty, keys);
  }

  lemma {:induction false} ChooseKeyed(ps: seq<Both>, keys: set<nat>, k: int)
    requires forall i :: 0 <= i < |ps| ==> KeyedBoth(ps[i], keys)
    ensures Keyed(Choose(ps, k), keys)
    decreases |ps|
  {
    if |ps| == 0 {
      assert SigKeys([]) == {};
    } else {
      var n := |ps| - 1;
      ChooseKeyed(ps[..n], keys, k);
      ChooseKeyed(ps[..n], keys, k - 1);
      LastKeyed(ps[n], Choose(ps[..n], k), Choose(ps[..n], k - 1), keys);
    }
  }

  lemma LastKeyed(p: Both, A: Ways, B: Ways, keys: set<nat>)
    requires KeyedBoth(p, keys) && Keyed(A, keys) && Keyed(B, keys)
    ensures Keyed(Each(p.dsat, A) + Each(p.sat, B), keys)
  {
    EachKeyedSame(p.dsat, A, keys);
    EachKeyedSame(p.sat, B, keys);
  }

  lemma ThreshKeyed(k: nat, ps: seq<Both>, keys: set<nat>)
    requires forall i :: 0 <= i < |ps| ==> KeyedBoth(ps[i], keys)
    ensures KeyedBoth(ThreshWays(k, ps, true), keys)
  {
    ChooseKeyed(ps, keys, k);
    forall w | w in ThreshWays(k, ps, true).dsat
      ensures SigKeys(w.items) <= keys
    {
      if w in Choose(ps, 0) {
        ChooseKeyed(ps, keys, 0);
      } else {
        var j: nat :| j != k && w in Choose(ps, j);
        ChooseKeyed(ps, keys, j);
      }
    }
  }

  lemma MultiKeyed(k: nat, keys: seq<nat>)
    ensures KeyedBoth(MultiWays(k, keys), KeySet(keys))
  {
    forall w | w in MultiWays(k, keys).sat
      ensures SigKeys(w.items) <= KeySet(keys)
    {
      var p :| p in Picks(keys, k) && w == Way([Empty] + p, {}, |keys|);
      PicksKeys(keys, k, p);
      NoMoreKey(p, w.items);
    }
    assert SigKeys(Empties(k + 1)) == {};
  }

  lemma MultiAKeyed(k: nat, keys: seq<nat>)
    ensures KeyedBoth(MultiAWays(k, keys, true), KeySet(keys))
  {
    forall w | w in MultiAWays(k, keys, true).sat
      ensures SigKeys(w.items) <= KeySet(keys)
    {
      var p :| p in Marks(keys, k) && w == Way(p, {}, 0);
      MarksKeys(keys, k, p);
    }
    forall w | w in MultiAWays(k, keys, true).dsat
      ensures SigKeys(w.items) <= KeySet(keys)
    {
      var j: nat, p :| j != k && p in Marks(keys, j) && w == Way(p, {}, 0);
      MarksKeys(keys, j, p);
    }
  }

  lemma KeyKeyed(key: nat)
    ensures SigKeys([Sig(key)]) == {key} && SigKeys([Empty]) == {} && SigKeys([]) == {}
    ensures SigKeys([Sig(key), PubKey(key)]) == {key} && SigKeys([Empty, PubKey(key)]) == {}
  {}

  lemma NoKeyed()
    ensures SigKeys([]) == {}
  {}

  lemma LeafKeyed(e: Expr)
    requires !e.AndOr? && !e.Binary? && !e.Thresh? && !e.Wrap?
    ensures KeyedBoth(WaysOf(e, true), KeysOf(e))
  {
    match e
    case Multi(k, keys) => MultiKeyed(k, keys);
    case MultiA(k, keys) => MultiAKeyed(k, keys);
    case PkK(key) => KeyKeyed(key);
    case PkH(key) => KeyKeyed(key);
    case Pk(key) => KeyKeyed(key);
    case Pkh(key) => KeyKeyed(key);
    case HashLock(kind, image) => HashKeyed(kind, image);
    case Zero => NoKeyed();
    case One => NoKeyed();
    case Older(_) => NoKeyed();
    case After(_) => NoKeyed();
  }

  lemma HashKeyed(kind: HashKind, image: nat)
    ensures Keyed(Just([Preimage(kind, image)]), {}) && Keyed(WrongPreimages(kind, image), {})
  {
    assert SigKeys([Preimage(kind, image)]) == {};
    forall w | w in WrongPreimages(kind, image)
      ensures SigKeys(w.items) <= {}
    {
      var item :| ElementLength(item) == 32 && w == Way([item], {}, 0);
      assert !item.Sig? && SigKeys([item]) == {};
    }
  }

  /** The signatures in all ways of an expression are of its own keys. */
  lemma {:induction false} EveryKeyed(e: Expr)
    ensures KeyedBoth(WaysOf(e, true), KeysOf(e))
    decreases e
  {
    match e
    case AndOr(x, y, z) =>
      EveryKeyed(x);
      EveryKeyed(y);
      EveryKeyed(z);
      KeyedMore(WaysOf(x, true), KeysOf(x), KeysOf(e));
      KeyedMore(WaysOf(y, true), KeysOf(y), KeysOf(e));
      KeyedMore(WaysOf(z, true), KeysOf(z), KeysOf(e));
      AndOrKeyed(WaysOf(x, true), WaysOf(y, true), WaysOf(z, true), KeysOf(e));
    case Binary(op, x, y) =>
      EveryKeyed(x);
      EveryKeyed(y);
      KeyedMore(WaysOf(x, true), KeysOf(x), KeysOf(e));
      KeyedMore(WaysOf(y, true), KeysOf(y), KeysOf(e));
      BinaryKeyed(op, WaysOf(x, true), WaysOf(y, true), KeysOf(e));
    case Thresh(k, subs) =>
      EveryChildKeyed(subs, KeysOf(e));
      ThreshKeyed(k, ListWays(subs, true), KeysOf(e));
    case Wrap(w, x) =>
      EveryKeyed(x);
      WrapKeyed(w, WaysOf(x, true), KeysOf(e));
    case _ => LeafKeyed(e);
  }

  lemma {:induction false} EveryChildKeyed(l: Exprs, keys: set<nat>)
    requires KeysOfAll(l) <= keys
    ensures forall i :: 0 <= i < |ListWays(l, true)| ==> KeyedBoth(ListWays(l, true)[i], keys)
    decreases l
  {
    match l
    case Nil =>
    case Cons(head, tail) =>
      EveryKeyed(head);
      KeyedMore(WaysOf(head, true), KeysOf(head), keys);
      EveryChildKeyed(tail, keys);
  }

  // ---- all expressions ----

  /** What is known of a child with m: its ways, and its dissatisfactions if it has e. */
  ghost predicate Child(tx: Tx, K: set<nat>, i: Info, p: Both, keys: set<nat>) {
    && Firm(tx, K, p.sat) && Keyed(p.sat, keys) && Keyed(p.dsat, keys)
    && (i.s ==> AllSigned(p.sat))
    && (i.e ==> Unique(p.dsat) && SomeFree(p.dsat))
  }

  lemma AndOrFirm(tx: Tx, K: set<nat>, xi: Info, yi: Info, zi: Info, x: Both, y: Both, z: Both, kx: set<nat>, ky: set<nat>, kz: set<nat>)
    requires Child(tx, K, xi, x, kx) && Child(tx, K, yi, y, ky) && Child(tx, K, zi, z, kz)
    requires kx !! ky && kx + ky !! kz && xi.e && (xi.s || yi.s || zi.s)
    ensures Firm(tx, K, AndOrWays(x, y, z, true).sat)
  {
    var A := Each(y.sat, x.sat);
    EachFirm(tx, K, y.sat, x.sat, ky, kx);
    EachKeyed(y.sat, x.sat, ky, kx);
    EachSigned(y.sat, x.sat);
    CaseFirm(tx, K, A, z.sat, x.dsat, ky + kx, kz);
  }

  lemma OrITagged(tx: Tx, K: set<nat>, x: Both, y: Both, kx: set<nat>, ky: set<nat>)
    requires Firm(tx, K, x.sat) && Keyed(x.sat, kx) && Keyed(y.sat, ky) && kx !! ky
    ensures Firm(tx, K, Each(x.sat, Just([True]))) && Alternative(Each(x.sat, Just([True])), y.sat, Just([Empty]), kx, ky)
    ensures AllSigned(x.sat) ==> AllSigned(Each(x.sat, Just([True])))
  {
    TagFirm(tx, K, x.sat, True, kx);
    TagKeyed(x.sat, True, kx);
    TagKeyed(x.sat, Empty, kx);
    TaggedFacts(x.sat, True);
    JustUnique([Empty]);
    JustFree([Empty]);
  }

  lemma OrICase(tx: Tx, K: set<nat>, x: Both, y: Both, kx: set<nat>, ky: set<nat>)
    requires Firm(tx, K, x.sat) && Firm(tx, K, y.sat) && Keyed(x.sat, kx) && Keyed(y.sat, ky) && kx !! ky
    requires AllSigned(x.sat) || AllSigned(y.sat)
    ensures Firm(tx, K, Each(x.sat, Just([True])) + Each(y.sat, Just([Empty])))
  {
    OrITagged(tx, K, x, y, kx, ky);
    CaseFirm(tx, K, Each(x.sat, Just([True])), y.sat, Just([Empty]), kx, ky);
  }

  lemma OrIFirm(tx: Tx, K: set<nat>, xi: Info, yi: Info, x: Both, y: Both, kx: set<nat>, ky: set<nat>)
    requires Child(tx, K, xi, x, kx) && Child(tx, K, yi, y, ky) && kx !! ky && (xi.s || yi.s)
    ensures Firm(tx, K, Each(x.sat, Just([True])) + Each(y.sat, Just([Empty])))
  {
    OrICase(tx, K, x, y, kx, ky);
  }

  lemma TagFirm(tx: Tx, K: set<nat>, A: Ways, tag: Element, keys: set<nat>)
    requires Firm(tx, K, A) && Keyed(A, keys) && !tag.Sig?
    ensures Firm(tx, K, Each(A, Just([tag])))
  {
    SingleFirm(tx, K, Just([tag]), Way([tag], {}, 0));
    assert SigKeys([tag]) == {};
    JustKeyed([tag], {});
    EachFirm(tx, K, A, Just([tag]), keys, {});
  }

  lemma OrDFirm(tx: Tx, K: set<nat>, xi: Info, yi: Info, x: Both, y: Both, kx: set<nat>, ky: set<nat>)
    requires Child(tx, K, xi, x, kx) && Child(tx, K, yi, y, ky) && kx !! ky && xi.e && (xi.s || yi.s)
    ensures Firm(tx, K, x.sat + Each(y.sat, x.dsat))
  {
    CaseFirm(tx, K, x.sat, y.sat, x.dsat, kx, ky);
  }

  lemma OrBothFirm(tx: Tx, K: set<nat>, xi: Info, yi: Info, x: Both, y: Both, kx: set<nat>, ky: set<nat>)
    requires Child(tx, K, xi, x, kx) && Child(tx, K, yi, y, ky) && kx !! ky && xi.e && yi.e && (xi.s || yi.s)
    ensures Firm(tx, K, BinaryWays(OrB, x, y, true).sat)
  {
    OrBFirm(tx, K, x, y, kx, ky);
  }

  lemma BinaryFirm(tx: Tx, K: set<nat>, op: BinOp, xi: Info, yi: Info, x: Both, y: Both, kx: set<nat>, ky: set<nat>)
    requires Child(tx, K, xi, x, kx) && Child(tx, K, yi, y, ky) && kx !! ky && BinaryInfo(op, xi, yi).m
    ensures Firm(tx, K, BinaryWays(op, x, y, true).sat)
  {
    if op == AndV || op == AndB || op == AndN {
      EachFirm(tx, K, y.sat, x.sat, ky, kx);
    } else if op == OrB {
      OrBothFirm(tx, K, xi, yi, x, y, kx, ky);
    } else if op == OrI {
      OrIFirm(tx, K, xi, yi, x, y, kx, ky);
    } else {
      OrDFirm(tx, K, xi, yi, x, y, kx, ky);
    }
  }

  lemma WrapFirm(tx: Tx, K: set<nat>, w: Wrapper, x: Both, keys: set<nat>)
    requires Firm(tx, K, x.sat) && Keyed(x.sat, keys)
    ensures Firm(tx, K, WrapWays(w, x, true).sat)
  {
    TagFirm(tx, K, x.sat, True, keys);
    TagFirm(tx, K, x.sat, Empty, keys);
  }

  // ---- the children of thresh ----

  function KeyList(l: Exprs): (ks: seq<set<nat>>)
    decreases l
  {
    match l
    case Nil => []
    case Cons(head, tail) => [KeysOf(head)] + KeyList(tail)
  }

  ghost predicate Children(tx: Tx, K: set<nat>, infos: seq<Info>, ps: seq<Both>, ks: seq<set<nat>>) {
    && |infos| == |ps| == |ks|
    && (forall i :: 0 <= i < |ps| ==> Sturdy(tx, K, ps[i], ks[i]) && (infos[i].s ==> AllSigned(ps[i].sat)))
    && (forall i, j :: 0 <= i < j < |ps| ==> ks[i] !! ks[j])
  }

  lemma {:induction false} BeforeDisjoint(ks: seq<set<nat>>, n: nat, X: set<nat>)
    requires n <= |ks| && forall i :: 0 <= i < n ==> ks[i] !! X
    ensures KeysBefore(ks, n) !! X
  {
    if n > 0 {
      BeforeDisjoint(ks, n - 1, X);
    }
  }

  lemma {:induction false} ChildrenSturdy(tx: Tx, K: set<nat>, infos: seq<Info>, ps: seq<Both>, ks: seq<set<nat>>, n: nat)
    requires Children(tx, K, infos, ps, ks) && n <= |ps|
    ensures SturdyChildren(tx, K, infos, ps, ks, n)
    decreases n
  {
    if n > 0 {
      ChildrenSturdy(tx, K, infos, ps, ks, n - 1);
      BeforeDisjoint(ks, n - 1, ks[n - 1]);
    }
  }

  lemma {:induction false} KeyListWithin(l: Exprs, i: nat)
    requires i < |KeyList(l)|
    ensures KeyList(l)[i] <= KeysOfAll(l)
    decreases l
  {
    if i > 0 {
      KeyListWithin(l.tail, i - 1);
    }
  }

  lemma ChildrenCons(tx: Tx, K: set<nat>, i: Info, p: Both, k: set<nat>, infos: seq<Info>, ps: seq<Both>, ks: seq<set<nat>>)
    requires Sturdy(tx, K, p, k) && (i.s ==> AllSigned(p.sat)) && Children(tx, K, infos, ps, ks)
    requires forall j :: 0 <= j < |ks| ==> k !! ks[j]
    ensures Children(tx, K, [i] + infos, [p] + ps, [k] + ks)
  {}

  // ---- the induction ----

  /** An accepted expression with m, whose thresh children have m, and without a key that is used twice. */
  predicate Careful(e: Expr, ctx: Context) {
    Accepted(e, ctx) && ChildrenHaveM(e, ctx) && Distinct(e) && InfoOf(e, ctx).value.m
  }

  lemma ChildOf(tx: Tx, K: set<nat>, e: Expr, ctx: Context)
    requires Careful(e, ctx) && Firm(tx, K, WaysOf(e, true).sat)
    ensures Child(tx, K, InfoOf(e, ctx).value, WaysOf(e, true), KeysOf(e))
  {
    EveryKeyed(e);
    EveryGuarded(e, ctx);
    if InfoOf(e, ctx).value.e {
      OneDissatisfaction(e, ctx);
    }
  }

  lemma {:induction false} EveryFirm(tx: Tx, K: set<nat>, e: Expr, ctx: Context)
    requires Careful(e, ctx)
    ensures Firm(tx, K, WaysOf(e, true).sat)
    decreases e, 1
  {
    match e
    case AndOr(x, y, z) => EveryAndOrFirm(tx, K, x, y, z, ctx);
    case Binary(op, x, y) => EveryBinaryFirm(tx, K, op, x, y, ctx);
    case Thresh(k, subs) => EveryThreshFirm(tx, K, k, subs, ctx);
    case Wrap(w, x) => EveryWrapFirm(tx, K, w, x, ctx);
    case _ => LeafFirm(tx, K, e);
  }

  lemma {:induction false} EveryWrapFirm(tx: Tx, K: set<nat>, w: Wrapper, x: Expr, ctx: Context)
    requires Careful(Wrap(w, x), ctx)
    ensures Firm(tx, K, WaysOf(Wrap(w, x), true).sat)
    decreases Wrap(w, x), 0
  {
    WrapCareful(w, x, ctx);
    EveryFirm(tx, K, x, ctx);
    EveryKeyed(x);
    WrapFirm(tx, K, w, WaysOf(x, true), KeysOf(x));
  }

  lemma WrapCareful(w: Wrapper, x: Expr, ctx: Context)
    requires Careful(Wrap(w, x), ctx)
    ensures Careful(x, ctx)
  {}

  lemma {:induction false} EveryAndOrFirm(tx: Tx, K: set<nat>, x: Expr, y: Expr, z: Expr, ctx: Context)
    requires Careful(AndOr(x, y, z), ctx)
    ensures Firm(tx, K, WaysOf(AndOr(x, y, z), true).sat)
    decreases AndOr(x, y, z), 0
  {
    AndOrCareful(x, y, z, ctx);
    EveryFirm(tx, K, x, ctx);
    EveryFirm(tx, K, y, ctx);
    EveryFirm(tx, K, z, ctx);
    ChildOf(tx, K, x, ctx);
    ChildOf(tx, K, y, ctx);
    ChildOf(tx, K, z, ctx);
    AndOrFirm(tx, K, InfoOf(x, ctx).value, InfoOf(y, ctx).value, InfoOf(z, ctx).value,
              WaysOf(x, true), WaysOf(y, true), WaysOf(z, true), KeysOf(x), KeysOf(y), KeysOf(z));
  }

  lemma AndOrCareful(x: Expr, y: Expr, z: Expr, ctx: Context)
    requires Careful(AndOr(x, y, z), ctx)
    ensures Careful(x, ctx) && Careful(y, ctx) && Careful(z, ctx) && KeysOf(x) !! KeysOf(y) && KeysOf(x) + KeysOf(y) !! KeysOf(z)
    ensures var xi, yi, zi := InfoOf(x, ctx).value, InfoOf(y, ctx).value, InfoOf(z, ctx).value; xi.e && (xi.s || yi.s || zi.s)
  {}

  lemma {:induction false} EveryBinaryFirm(tx: Tx, K: set<nat>, op: BinOp, x: Expr, y: Expr, ctx: Context)
    requires Careful(Binary(op, x, y), ctx)
    ensures Firm(tx, K, WaysOf(Binary(op, x, y), true).sat)
    decreases Binary(op, x, y), 0
  {
    BinaryCareful(op, x, y, ctx);
    EveryFirm(tx, K, x, ctx);
    EveryFirm(tx, K, y, ctx);
    ChildOf(tx, K, x, ctx);
    ChildOf(tx, K, y, ctx);
    BinaryFirm(tx, K, op, InfoOf(x, ctx).value, InfoOf(y, ctx).value, WaysOf(x, true), WaysOf(y, true), KeysOf(x), KeysOf(y));
  }

  lemma BinaryCareful(op: BinOp, x: Expr, y: Expr, ctx: Context)
    requires Careful(Binary(op, x, y), ctx)
    ensures Careful(x, ctx) && Careful(y, ctx) && KeysOf(x) !! KeysOf(y)
    ensures BinaryInfo(op, InfoOf(x, ctx).value, InfoOf(y, ctx).value).m
  {}

  lemma {:induction false} EveryThreshFirm(tx: Tx, K: set<nat>, k: nat, subs: Exprs, ctx: Context)
    requires Careful(Thresh(k, subs), ctx)
    ensures Firm(tx, K, WaysOf(Thresh(k, subs), true).sat)
    decreases Thresh(k, subs), 0
  {
    var infos := InfosOf(subs, ctx).value;
    EveryChildFirm(tx, K, subs, true, ctx);
    ChildrenSturdy(tx, K, infos, ListWays(subs, true), KeyList(subs), |infos|);
    UnsafeCount(infos);
    ThreshFirm(tx, K, k, infos, ListWays(subs, true), KeyList(subs));
  }

  lemma {:induction false} EveryChildFirm(tx: Tx, K: set<nat>, l: Exprs, first: bool, ctx: Context)
    requires CountSubs(l, first, ctx).Some? && InfosOf(l, ctx).Some? && AllHaveM(l, ctx) && AllDistinct(l)
    requires CountE(InfosOf(l, ctx).value) == |InfosOf(l, ctx).value|
    ensures Children(tx, K, InfosOf(l, ctx).value, ListWays(l, true), KeyList(l))
    decreases l, 0
  {
    match l
    case Nil =>
    case Cons(head, tail) =>
      var infos := InfosOf(l, ctx).value;
      assert infos[1..] == InfosOf(tail, ctx).value;
      EveryFirm(tx, K, head, ctx);
      ChildOf(tx, K, head, ctx);
      EveryChildFirm(tx, K, tail, false, ctx);
      forall j | 0 <= j < |KeyList(tail)|
        ensures KeysOf(head) !! KeyList(tail)[j]
      {
        KeyListWithin(tail, j);
      }
      ChildrenCons(tx, K, InfoOf(head, ctx).value, WaysOf(head, true), KeysOf(head),
                   InfosOf(tail, ctx).value, ListWays(tail, true), KeyList(tail));
  }
}
