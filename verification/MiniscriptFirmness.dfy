/**
 Ways that nobody can replace by another with the signatures in them alone, and how each construct keeps
 them available.
 */
module MiniscriptFirmness {
  import opened Miniscript
  import opened MiniscriptInfo
  import opened MiniscriptWays
  import opened ScriptMachine
  import opened MiniscriptSafety
  import opened MiniscriptUniqueness

  /** The keys whose signatures are in a witness. */
  function SigKeys(s: seq<Element>): set<nat> {
    set item | item in s && item.Sig? :: item.key
  }

  lemma SigKeysConcat(s: seq<Element>, t: seq<Element>)
    ensures SigKeys(s + t) == SigKeys(s) + SigKeys(t)
  {}

  lemma SignedKeys(s: seq<Element>)
    ensures Signed(s) <==> SigKeys(s) != {}
  {
    if Signed(s) {
      var i :| 0 <= i < |s| && s[i].Sig?;
      assert s[i].key in SigKeys(s);
    }
  }

  /** Whoever has the signatures of the keys can use the way in the transaction. */
  ghost predicate Open(tx: Tx, K: set<nat>, w: Way) {
    Held(tx, w.locks) && SigKeys(w.items) <= K
  }

  ghost predicate Can(tx: Tx, K: set<nat>, A: Ways) {
    exists w :: w in A && Open(tx, K, w)
  }

  /** A way that its own signatures do not let anybody replace. */
  ghost predicate Final(tx: Tx, A: Ways, w: Way) {
    && w in A && Held(tx, w.locks)
    && forall v :: v in A && Open(tx, SigKeys(w.items), v) ==> v.items == w.items
  }

  /** Whoever can use some way can use such a way. */
  ghost predicate Firm(tx: Tx, K: set<nat>, A: Ways) {
    Can(tx, K, A) ==> exists w :: Final(tx, A, w) && SigKeys(w.items) <= K
  }

  /** All signatures are of these keys. */
  ghost predicate Keyed(A: Ways, keys: set<nat>) {
    forall w :: w in A ==> SigKeys(w.items) <= keys
  }

  // ---- ways taken together ----

  lemma OpenJoin(tx: Tx, K: set<nat>, a: Way, b: Way)
    ensures Open(tx, K, Join(a, b)) <==> Open(tx, K, a) && Open(tx, K, b)
    ensures SigKeys(Join(a, b).items) == SigKeys(a.items) + SigKeys(b.items)
  {
    SigKeysConcat(a.items, b.items);
  }

  lemma EachKeyed(A: Ways, B: Ways, ka: set<nat>, kb: set<nat>)
    requires Keyed(A, ka) && Keyed(B, kb)
    ensures Keyed(Each(A, B), ka + kb)
  {
    forall w | w in Each(A, B)
      ensures SigKeys(w.items) <= ka + kb
    {
      var a, b :| a in A && b in B && w == Join(a, b);
      SigKeysConcat(a.items, b.items);
    }
  }

  lemma CanEach(tx: Tx, K: set<nat>, A: Ways, B: Ways)
    ensures Can(tx, K, Each(A, B)) ==> Can(tx, K, A) && Can(tx, K, B)
  {
    if Can(tx, K, Each(A, B)) {
      var w :| w in Each(A, B) && Open(tx, K, w);
      var a, b :| a in A && b in B && w == Join(a, b);
      OpenJoin(tx, K, a, b);
    }
  }

  lemma CanFewer(tx: Tx, K: set<nat>, L: set<nat>, A: Ways)
    requires !Can(tx, K, A) && L <= K
    ensures !Can(tx, L, A)
  {
    forall w | w in A
      ensures !Open(tx, L, w)
    {
      assert !Open(tx, K, w);
    }
  }

  /** What needs a signature cannot be used with the signatures of other keys. */
  lemma CanSigned(tx: Tx, K: set<nat>, A: Ways, keys: set<nat>)
    requires AllSigned(A) && Keyed(A, keys) && K !! keys
    ensures !Can(tx, K, A)
  {
    forall w | w in A
      ensures !Open(tx, K, w)
    {
      SignedKeys(w.items);
      var key :| key in SigKeys(w.items);
      assert key in keys && key !in K;
    }
  }

  /** The other way has the signatures of its own part only. */
  lemma OwnKeys(S: set<nat>, T: set<nat>, X: set<nat>, ka: set<nat>)
    requires X <= S + T && X <= ka && T !! ka
    ensures X <= S
  {}

  lemma JoinFinal(tx: Tx, A: Ways, B: Ways, ka: set<nat>, kb: set<nat>, a: Way, b: Way)
    requires Final(tx, A, a) && Final(tx, B, b) && Keyed(A, ka) && Keyed(B, kb) && ka !! kb
    ensures Final(tx, Each(A, B), Join(a, b))
  {
    var w := Join(a, b);
    var S, T := SigKeys(a.items), SigKeys(b.items);
    OpenJoin(tx, S + T, a, b);
    forall v | v in Each(A, B) && Open(tx, SigKeys(w.items), v)
      ensures v.items == w.items
    {
      var c, d :| c in A && d in B && v == Join(c, d);
      OpenJoin(tx, S + T, c, d);
      OwnKeys(S, T, SigKeys(c.items), ka);
      OwnKeys(T, S, SigKeys(d.items), kb);
    }
  }

  lemma EachFirm(tx: Tx, K: set<nat>, A: Ways, B: Ways, ka: set<nat>, kb: set<nat>)
    requires Firm(tx, K, A) && Firm(tx, K, B) && Keyed(A, ka) && Keyed(B, kb) && ka !! kb
    ensures Firm(tx, K, Each(A, B))
  {
    CanEach(tx, K, A, B);
    if Can(tx, K, Each(A, B)) {
      var a :| Final(tx, A, a) && SigKeys(a.items) <= K;
      var b :| Final(tx, B, b) && SigKeys(b.items) <= K;
      JoinFinal(tx, A, B, ka, kb, a, b);
      SigKeysConcat(a.items, b.items);
    }
  }

  // ---- either A, or D and then C ----

  lemma FirstFinal(tx: Tx, A: Ways, C: Ways, D: Ways, a: Way)
    requires Final(tx, A, a) && !Can(tx, SigKeys(a.items), C)
    ensures Final(tx, A + Each(C, D), a)
  {
    forall v | v in A + Each(C, D) && Open(tx, SigKeys(a.items), v)
      ensures v.items == a.items
    {
      if v !in A {
        CanEach(tx, SigKeys(a.items), C, D);
      }
    }
  }

  lemma FreeDetermined(D: Ways, d: Way, v: Way, keys: set<nat>, S: set<nat>)
    requires Unique(D) && d in D && !Signed(d.items) && v in D && Keyed(D, keys) && SigKeys(v.items) <= S && S !! keys
    ensures v.items == d.items
  {
    SignedKeys(v.items);
    assert SigKeys(v.items) <= S * keys;
  }

  lemma SecondFinal(tx: Tx, A: Ways, C: Ways, D: Ways, kc: set<nat>, kd: set<nat>, c: Way, d: Way)
    requires Final(tx, C, c) && !Can(tx, SigKeys(c.items), A) && Keyed(C, kc) && Keyed(D, kd) && kc !! kd
    requires Unique(D) && d in D && !Signed(d.items) && d.locks == {}
    ensures Final(tx, A + Each(C, D), Join(c, d)) && SigKeys(Join(c, d).items) == SigKeys(c.items)
  {
    var w := Join(c, d);
    SignedKeys(d.items);
    OpenJoin(tx, SigKeys(c.items), c, d);
    assert SigKeys(w.items) == SigKeys(c.items) && w.locks == c.locks;
    forall v | v in A + Each(C, D) && Open(tx, SigKeys(w.items), v)
      ensures v.items == w.items
    {
      assert v !in A;
      var c', d' :| c' in C && d' in D && v == Join(c', d');
      OpenJoin(tx, SigKeys(c.items), c', d');
      FreeDetermined(D, d, d', kd, SigKeys(c.items));
    }
  }

  lemma CanUnion(tx: Tx, K: set<nat>, A: Ways, B: Ways)
    ensures Can(tx, K, A + B) <==> Can(tx, K, A) || Can(tx, K, B)
  {
    if Can(tx, K, A) {
      var w :| w in A && Open(tx, K, w);
      assert w in A + B;
    }
    if Can(tx, K, B) {
      var w :| w in B && Open(tx, K, w);
      assert w in A + B;
    }
  }

  /** The alternatives C and D of A, with the keys of their own. */
  ghost predicate Alternative(A: Ways, C: Ways, D: Ways, ka: set<nat>, kc: set<nat>) {
    Keyed(A, ka) && Keyed(D, ka) && Keyed(C, kc) && ka !! kc && Unique(D) && SomeFree(D)
  }

  lemma TakeFirst(tx: Tx, K: set<nat>, A: Ways, C: Ways, D: Ways, ka: set<nat>, kc: set<nat>)
    requires Alternative(A, C, D, ka, kc) && Firm(tx, K, A) && Can(tx, K, A) && (AllSigned(C) || !Can(tx, K, C))
    ensures Firm(tx, K, A + Each(C, D))
  {
    var a :| Final(tx, A, a) && SigKeys(a.items) <= K;
    if AllSigned(C) {
      CanSigned(tx, SigKeys(a.items), C, kc);
    } else {
      CanFewer(tx, K, SigKeys(a.items), C);
    }
    FirstFinal(tx, A, C, D, a);
  }

  lemma TakeSecond(tx: Tx, K: set<nat>, A: Ways, C: Ways, D: Ways, ka: set<nat>, kc: set<nat>)
    requires Alternative(A, C, D, ka, kc) && Firm(tx, K, C) && Can(tx, K, C) && (AllSigned(A) || !Can(tx, K, A))
    ensures Firm(tx, K, A + Each(C, D))
  {
    var c :| Final(tx, C, c) && SigKeys(c.items) <= K;
    var d :| d in D && !Signed(d.items) && d.locks == {};
    if AllSigned(A) {
      CanSigned(tx, SigKeys(c.items), A, ka);
    } else {
      CanFewer(tx, K, SigKeys(c.items), A);
    }
    SecondFinal(tx, A, C, D, kc, ka, c, d);
  }

  lemma CaseFirm(tx: Tx, K: set<nat>, A: Ways, C: Ways, D: Ways, ka: set<nat>, kc: set<nat>)
    requires Alternative(A, C, D, ka, kc) && Firm(tx, K, A) && Firm(tx, K, C) && (AllSigned(A) || AllSigned(C))
    ensures Firm(tx, K, A + Each(C, D))
  {
    CanUnion(tx, K, A, Each(C, D));
    CanEach(tx, K, C, D);
    if Can(tx, K, A + Each(C, D)) {
      if Can(tx, K, A) && (AllSigned(C) || !Can(tx, K, C)) {
        TakeFirst(tx, K, A, C, D, ka, kc);
      } else {
        TakeSecond(tx, K, A, C, D, ka, kc);
      }
    }
  }

  // ---- or_b ----

  lemma OrBFinal(tx: Tx, x: Both, y: Both, kx: set<nat>, ky: set<nat>, a: Way, d: Way)
    requires Final(tx, x.sat, a) && !Can(tx, SigKeys(a.items), y.sat) && Keyed(x.sat, kx) && Keyed(y.dsat, ky) && kx !! ky
    requires Unique(y.dsat) && d in y.dsat && !Signed(d.items) && d.locks == {}
    ensures Final(tx, BinaryWays(OrB, x, y, true).sat, Join(d, a)) && SigKeys(Join(d, a).items) == SigKeys(a.items)
  {
    var w := Join(d, a);
    SignedKeys(d.items);
    OpenJoin(tx, SigKeys(a.items), d, a);
    assert SigKeys(w.items) == SigKeys(a.items) && w.locks == a.locks;
    assert w in Each(y.dsat, x.sat);
    forall v | v in BinaryWays(OrB, x, y, true).sat && Open(tx, SigKeys(w.items), v)
      ensures v.items == w.items
    {
      CanEach(tx, SigKeys(a.items), y.sat, x.dsat);
      CanEach(tx, SigKeys(a.items), y.sat, x.sat);
      assert v in Each(y.dsat, x.sat);
      var d', a' :| d' in y.dsat && a' in x.sat && v == Join(d', a');
      OpenJoin(tx, SigKeys(a.items), d', a');
      FreeDetermined(y.dsat, d, d', ky, SigKeys(a.items));
    }
  }

  lemma OrBSecondFinal(tx: Tx, x: Both, y: Both, kx: set<nat>, ky: set<nat>, c: Way, d: Way)
    requires Final(tx, y.sat, c) && !Can(tx, SigKeys(c.items), x.sat) && Keyed(y.sat, ky) && Keyed(x.dsat, kx) && kx !! ky
    requires Unique(x.dsat) && d in x.dsat && !Signed(d.items) && d.locks == {}
    ensures Final(tx, BinaryWays(OrB, x, y, true).sat, Join(c, d)) && SigKeys(Join(c, d).items) == SigKeys(c.items)
  {
    var w := Join(c, d);
    SignedKeys(d.items);
    OpenJoin(tx, SigKeys(c.items), c, d);
    assert SigKeys(w.items) == SigKeys(c.items) && w.locks == c.locks;
    assert w in Each(y.sat, x.dsat);
    forall v | v in BinaryWays(OrB, x, y, true).sat && Open(tx, SigKeys(w.items), v)
      ensures v.items == w.items
    {
      CanEach(tx, SigKeys(c.items), y.dsat, x.sat);
      CanEach(tx, SigKeys(c.items), y.sat, x.sat);
      assert v in Each(y.sat, x.dsat);
      var c', d' :| c' in y.sat && d' in x.dsat && v == Join(c', d');
      OpenJoin(tx, SigKeys(c.items), c', d');
      FreeDetermined(x.dsat, d, d', kx, SigKeys(c.items));
    }
  }

  /** A child that can be dissatisfied in one way without a signature. */
  ghost predicate Sturdy(tx: Tx, K: set<nat>, p: Both, keys: set<nat>) {
    Firm(tx, K, p.sat) && Keyed(p.sat, keys) && Keyed(p.dsat, keys) && Unique(p.dsat) && SomeFree(p.dsat)
  }

  lemma OrBTakeFirst(tx: Tx, K: set<nat>, x: Both, y: Both, kx: set<nat>, ky: set<nat>)
    requires Sturdy(tx, K, x, kx) && Sturdy(tx, K, y, ky) && kx !! ky && Can(tx, K, x.sat) && (AllSigned(y.sat) || !Can(tx, K, y.sat))
    ensures Firm(tx, K, BinaryWays(OrB, x, y, true).sat)
  {
    var a :| Final(tx, x.sat, a) && SigKeys(a.items) <= K;
    var d :| d in y.dsat && !Signed(d.items) && d.locks == {};
    if AllSigned(y.sat) {
      CanSigned(tx, SigKeys(a.items), y.sat, ky);
    } else {
      CanFewer(tx, K, SigKeys(a.items), y.sat);
    }
    OrBFinal(tx, x, y, kx, ky, a, d);
  }

  lemma OrBTakeSecond(tx: Tx, K: set<nat>, x: Both, y: Both, kx: set<nat>, ky: set<nat>)
    requires Sturdy(tx, K, x, kx) && Sturdy(tx, K, y, ky) && kx !! ky && Can(tx, K, y.sat) && (AllSigned(x.sat) || !Can(tx, K, x.sat))
    ensures Firm(tx, K, BinaryWays(OrB, x, y, true).sat)
  {
    var c :| Final(tx, y.sat, c) && SigKeys(c.items) <= K;
    var d :| d in x.dsat && !Signed(d.items) && d.locks == {};
    if AllSigned(x.sat) {
      CanSigned(tx, SigKeys(c.items), x.sat, kx);
    } else {
      CanFewer(tx, K, SigKeys(c.items), x.sat);
    }
    OrBSecondFinal(tx, x, y, kx, ky, c, d);
  }

  lemma CanOrB(tx: Tx, K: set<nat>, x: Both, y: Both)
    ensures Can(tx, K, BinaryWays(OrB, x, y, true).sat) ==> Can(tx, K, x.sat) || Can(tx, K, y.sat)
  {
    CanUnion(tx, K, Each(y.dsat, x.sat), Each(y.sat, x.dsat));
    CanUnion(tx, K, Each(y.dsat, x.sat) + Each(y.sat, x.dsat), Each(y.sat, x.sat));
    CanEach(tx, K, y.dsat, x.sat);
    CanEach(tx, K, y.sat, x.dsat);
    CanEach(tx, K, y.sat, x.sat);
  }

  lemma OrBFirm(tx: Tx, K: set<nat>, x: Both, y: Both, kx: set<nat>, ky: set<nat>)
    requires Sturdy(tx, K, x, kx) && Sturdy(tx, K, y, ky) && kx !! ky && (AllSigned(x.sat) || AllSigned(y.sat))
    ensures Firm(tx, K, BinaryWays(OrB, x, y, true).sat)
  {
    CanOrB(tx, K, x, y);
    if Can(tx, K, BinaryWays(OrB, x, y, true).sat) {
      if Can(tx, K, x.sat) && (AllSigned(y.sat) || !Can(tx, K, y.sat)) {
        OrBTakeFirst(tx, K, x, y, kx, ky);
      } else {
        OrBTakeSecond(tx, K, x, y, kx, ky);
      }
    }
  }

  // ---- thresh ----

  /** The keys of the first n children. */
  function KeysBefore(ks: seq<set<nat>>, n: nat): set<nat>
    requires n <= |ks|
  {
    if n == 0 then {} else KeysBefore(ks, n - 1) + ks[n - 1]
  }

  /** What is asked of the first n children. */
  ghost predicate SturdyChildren(tx: Tx, K: set<nat>, infos: seq<Info>, ps: seq<Both>, ks: seq<set<nat>>, n: nat)
    requires |infos| == |ps| == |ks| && n <= |ps|
  {
    n == 0 || (SturdyChildren(tx, K, infos, ps, ks, n - 1) && SturdyLast(tx, K, infos[n - 1], ps[n - 1], ks[n - 1], KeysBefore(ks, n - 1)))
  }

  ghost predicate SturdyLast(tx: Tx, K: set<nat>, i: Info, p: Both, kl: set<nat>, kr: set<nat>) {
    Sturdy(tx, K, p, kl) && (i.s ==> AllSigned(p.sat)) && kl !! kr
  }

  /** How many of the first n children can be satisfied with the keys, and how many of those do not have s. */
  ghost function Ready(tx: Tx, K: set<nat>, ps: seq<Both>, n: nat): nat
    requires n <= |ps|
  {
    if n == 0 then 0 else Ready(tx, K, ps, n - 1) + (if Can(tx, K, ps[n - 1].sat) then 1 else 0)
  }

  ghost function ReadyUnsafe(tx: Tx, K: set<nat>, infos: seq<Info>, ps: seq<Both>, n: nat): nat
    requires n <= |ps| == |infos|
  {
    if n == 0 then 0
    else ReadyUnsafe(tx, K, infos, ps, n - 1) + (if Can(tx, K, ps[n - 1].sat) && !infos[n - 1].s then 1 else 0)
  }

  lemma {:induction false} ReadyUnsafeBounds(tx: Tx, K: set<nat>, infos: seq<Info>, ps: seq<Both>, n: nat)
    requires n <= |ps| == |infos|
    ensures ReadyUnsafe(tx, K, infos, ps, n) <= Ready(tx, K, ps, n)
    ensures ReadyUnsafe(tx, K, infos, ps, n) <= Unsafe(infos[..n])
  {
    if n > 0 {
      ReadyUnsafeBounds(tx, K, infos, ps, n - 1);
      assert infos[..n][..n - 1] == infos[..n - 1];
    }
  }

  /** Ways together with the number of children that they satisfy. */
  type Family = iset<(int, Way)>

  /** One more child. */
  ghost function Grow(F: Family, p: Both): Family {
    (iset i: int, a, r | (i, r) in F && a in p.dsat :: (i, Join(a, r)))
    + (iset i: int, a, r | (i, r) in F && a in p.sat :: (i + 1, Join(a, r)))
  }

  /** The first n children. */
  ghost function FamilyOf(ps: seq<Both>, n: nat): Family
    requires n <= |ps|
  {
    if n == 0 then iset{(0, Nothing)} else Grow(FamilyOf(ps, n - 1), ps[n - 1])
  }

  lemma GrowParts(F: Family, p: Both, i: int, v: Way) returns (sat: bool, a: Way, r: Way)
    requires (i, v) in Grow(F, p)
    ensures v == Join(a, r) && (if sat then a in p.sat && (i - 1, r) in F else a in p.dsat && (i, r) in F)
  {
    if a', r' :| (i, r') in F && a' in p.dsat && v == Join(a', r') {
      sat, a, r := false, a', r';
    } else {
      var l: int, a', r' :| (l, r') in F && a' in p.sat && (i, v) == (l + 1, Join(a', r'));
      sat, a, r := true, a', r';
    }
  }

  lemma GrowIn(F: Family, p: Both, i: int, a: Way, r: Way)
    requires (i, r) in F
    ensures a in p.dsat ==> (i, Join(a, r)) in Grow(F, p)
    ensures a in p.sat ==> (i + 1, Join(a, r)) in Grow(F, p)
  {}

  /** The ways with j children are those of A. */
  ghost predicate Layer(F: Family, j: int, A: Ways) {
    forall w :: (j, w) in F <==> w in A
  }

  lemma GrowLayer(F: Family, p: Both, A: Ways, B: Ways, j: int)
    requires Layer(F, j, A) && Layer(F, j - 1, B)
    ensures Layer(Grow(F, p), j, Each(p.dsat, A) + Each(p.sat, B))
  {
    forall w
      ensures (j, w) in Grow(F, p) <==> w in Each(p.dsat, A) + Each(p.sat, B)
    {
      if (j, w) in Grow(F, p) {
        var sat, a, r := GrowParts(F, p, j, w);
      }
      if w in Each(p.dsat, A) {
        var a, r :| a in p.dsat && r in A && w == Join(a, r);
        GrowIn(F, p, j, a, r);
      }
      if w in Each(p.sat, B) {
        var a, r :| a in p.sat && r in B && w == Join(a, r);
        GrowIn(F, p, j - 1, a, r);
      }
    }
  }

  lemma ChooseFirst(ps: seq<Both>, m: nat, j: int)
    requires m < |ps|
    ensures Choose(ps[..m + 1], j) == Each(ps[m].dsat, Choose(ps[..m], j)) + Each(ps[m].sat, Choose(ps[..m], j - 1))
  {
    assert ps[..m + 1][..m] == ps[..m];
  }

  lemma {:induction false} FamilyLayer(ps: seq<Both>, n: nat, j: int)
    requires n <= |ps|
    ensures Layer(FamilyOf(ps, n), j, Choose(ps[..n], j))
  {
    if n > 0 {
      FamilyLayer(ps, n - 1, j);
      FamilyLayer(ps, n - 1, j - 1);
      GrowLayer(FamilyOf(ps, n - 1), ps[n - 1], Choose(ps[..n - 1], j), Choose(ps[..n - 1], j - 1), j);
      ChooseFirst(ps, n - 1, j);
    }
  }

  lemma {:induction false} FamilyKeyed(tx: Tx, K: set<nat>, infos: seq<Info>, ps: seq<Both>, ks: seq<set<nat>>, n: nat, i: int, v: Way)
    requires |infos| == |ps| == |ks| && n <= |ps| && SturdyChildren(tx, K, infos, ps, ks, n) && (i, v) in FamilyOf(ps, n)
    ensures SigKeys(v.items) <= KeysBefore(ks, n)
    decreases n
  {
    if n > 0 {
      var sat, a, r := GrowParts(FamilyOf(ps, n - 1), ps[n - 1], i, v);
      FamilyKeyed(tx, K, infos, ps, ks, n - 1, if sat then i - 1 else i, r);
      JoinKeyed(ps[n - 1], ks[n - 1], KeysBefore(ks, n - 1), a, r);
    } else {
      assert SigKeys([]) == {};
    }
  }

  lemma JoinKeyed(p: Both, kl: set<nat>, kr: set<nat>, a: Way, r: Way)
    requires Keyed(p.sat, kl) && Keyed(p.dsat, kl) && (a in p.sat || a in p.dsat) && SigKeys(r.items) <= kr
    ensures SigKeys(Join(a, r).items) <= kr + kl
  {
    SigKeysConcat(a.items, r.items);
  }

  /** No more children are satisfied than can be. */
  lemma {:induction false} OpenReady(tx: Tx, K: set<nat>, ps: seq<Both>, n: nat, j: int, v: Way)
    requires n <= |ps| && (j, v) in FamilyOf(ps, n) && Open(tx, K, v)
    ensures 0 <= j <= Ready(tx, K, ps, n)
    decreases n
  {
    if n > 0 {
      var sat, a, r := GrowParts(FamilyOf(ps, n - 1), ps[n - 1], j, v);
      OpenJoin(tx, K, a, r);
      OpenReady(tx, K, ps, n - 1, if sat then j - 1 else j, r);
    }
  }

  /** The ways that satisfy j or more children with the signatures of one that satisfies j are that one. */
  ghost predicate FinalIn(tx: Tx, F: Family, j: int, w: Way) {
    && (j, w) in F && Held(tx, w.locks)
    && forall i: int, v :: i >= j && (i, v) in F && Open(tx, SigKeys(w.items), v) ==> i == j && v.items == w.items
  }

  ghost predicate FamilyKeyedBy(F: Family, keys: set<nat>) {
    forall i: int, v :: (i, v) in F ==> SigKeys(v.items) <= keys
  }

  /** The last child is satisfied. */
  lemma SatisfyLast(tx: Tx, F: Family, p: Both, j: int, kl: set<nat>, kr: set<nat>, a: Way, r: Way)
    requires FamilyKeyedBy(F, kr) && kl !! kr && Keyed(p.sat, kl) && Final(tx, p.sat, a) && FinalIn(tx, F, j, r)
    ensures FinalIn(tx, Grow(F, p), j + 1, Join(a, r))
  {
    var w := Join(a, r);
    var S, T := SigKeys(a.items), SigKeys(r.items);
    OpenJoin(tx, S + T, a, r);
    GrowIn(F, p, j, a, r);
    forall i: int, v | i >= j + 1 && (i, v) in Grow(F, p) && Open(tx, SigKeys(w.items), v)
      ensures i == j + 1 && v.items == w.items
    {
      var sat, b, q := GrowParts(F, p, i, v);
      OpenJoin(tx, S + T, b, q);
      OwnKeys(T, S, SigKeys(q.items), kr);
      assert Open(tx, T, q);
      if sat {
        OwnKeys(S, T, SigKeys(b.items), kl);
      }
    }
  }

  /** The last child is dissatisfied, and cannot be satisfied with the signatures of the others. */
  lemma DissatisfyLast(tx: Tx, F: Family, p: Both, j: int, kl: set<nat>, kr: set<nat>, d: Way, r: Way)
    requires FinalIn(tx, F, j, r) && SigKeys(r.items) <= kr && kl !! kr && !Can(tx, SigKeys(r.items), p.sat)
    requires Unique(p.dsat) && d in p.dsat && !Signed(d.items) && d.locks == {} && Keyed(p.dsat, kl)
    ensures FinalIn(tx, Grow(F, p), j, Join(d, r)) && SigKeys(Join(d, r).items) == SigKeys(r.items)
  {
    var w, T := Join(d, r), SigKeys(r.items);
    SignedKeys(d.items);
    OpenJoin(tx, T, d, r);
    assert SigKeys(w.items) == T && w.locks == r.locks;
    GrowIn(F, p, j, d, r);
    forall i: int, v | i >= j && (i, v) in Grow(F, p) && Open(tx, SigKeys(w.items), v)
      ensures i == j && v.items == w.items
    {
      var sat, b, q := GrowParts(F, p, i, v);
      OpenJoin(tx, T, b, q);
      assert !sat;
      FreeDetermined(p.dsat, d, b, kl, T);
    }
  }

  /** A final choice with some of the keys. */
  ghost predicate Chosen(tx: Tx, K: set<nat>, F: Family, keys: set<nat>, j: int, w: Way) {
    FinalIn(tx, F, j, w) && SigKeys(w.items) <= K && SigKeys(w.items) <= keys
  }

  lemma SatisfyOne(tx: Tx, K: set<nat>, F: Family, i: Info, p: Both, j: int, kl: set<nat>, kr: set<nat>, r: Way) returns (w: Way)
    requires SturdyLast(tx, K, i, p, kl, kr) && Can(tx, K, p.sat) && FamilyKeyedBy(F, kr) && Chosen(tx, K, F, kr, j, r)
    ensures Chosen(tx, K, Grow(F, p), kr + kl, j + 1, w)
  {
    var a :| Final(tx, p.sat, a) && SigKeys(a.items) <= K;
    SatisfyLast(tx, F, p, j, kl, kr, a, r);
    SigKeysConcat(a.items, r.items);
    w := Join(a, r);
  }

  lemma DissatisfyOne(tx: Tx, K: set<nat>, F: Family, i: Info, p: Both, j: int, kl: set<nat>, kr: set<nat>, r: Way) returns (w: Way)
    requires SturdyLast(tx, K, i, p, kl, kr) && (Can(tx, K, p.sat) ==> i.s) && Chosen(tx, K, F, kr, j, r)
    ensures Chosen(tx, K, Grow(F, p), kr + kl, j, w)
  {
    if i.s {
      CanSigned(tx, SigKeys(r.items), p.sat, kl);
    } else {
      CanFewer(tx, K, SigKeys(r.items), p.sat);
    }
    var d :| d in p.dsat && !Signed(d.items) && d.locks == {};
    DissatisfyLast(tx, F, p, j, kl, kr, d, r);
    w := Join(d, r);
  }

  /** Children without s that can be satisfied come first; of the others, as many as are needed. */
  ghost predicate Takes(tx: Tx, K: set<nat>, infos: seq<Info>, ps: seq<Both>, m: nat, j: int)
    requires m < |ps| == |infos|
  {
    Can(tx, K, ps[m].sat) && (!infos[m].s || j > Ready(tx, K, ps, m))
  }

  lemma TakesBounds(tx: Tx, K: set<nat>, infos: seq<Info>, ps: seq<Both>, m: nat, j: int)
    requires m < |ps| == |infos| && ReadyUnsafe(tx, K, infos, ps, m + 1) <= j <= Ready(tx, K, ps, m + 1)
    ensures ReadyUnsafe(tx, K, infos, ps, m) <= (if Takes(tx, K, infos, ps, m, j) then j - 1 else j) <= Ready(tx, K, ps, m)
  {
    ReadyUnsafeBounds(tx, K, infos, ps, m);
  }

  lemma AllFamilyKeyed(tx: Tx, K: set<nat>, infos: seq<Info>, ps: seq<Both>, ks: seq<set<nat>>, n: nat)
    requires |infos| == |ps| == |ks| && n <= |ps| && SturdyChildren(tx, K, infos, ps, ks, n)
    ensures FamilyKeyedBy(FamilyOf(ps, n), KeysBefore(ks, n))
  {
    forall i: int, v | (i, v) in FamilyOf(ps, n)
      ensures SigKeys(v.items) <= KeysBefore(ks, n)
    {
      FamilyKeyed(tx, K, infos, ps, ks, n, i, v);
    }
  }

  lemma ChooseOne(tx: Tx, K: set<nat>, infos: seq<Info>, ps: seq<Both>, ks: seq<set<nat>>, m: nat, j: int, F: Family, r: Way) returns (w: Way)
    requires |infos| == |ps| == |ks| && m < |ps| && SturdyLast(tx, K, infos[m], ps[m], ks[m], KeysBefore(ks, m))
    requires FamilyKeyedBy(F, KeysBefore(ks, m)) && j <= Ready(tx, K, ps, m) + 1
    requires Chosen(tx, K, F, KeysBefore(ks, m), if Takes(tx, K, infos, ps, m, j) then j - 1 else j, r)
    ensures Chosen(tx, K, Grow(F, ps[m]), KeysBefore(ks, m) + ks[m], j, w)
  {
    if Takes(tx, K, infos, ps, m, j) {
      w := SatisfyOne(tx, K, F, infos[m], ps[m], j - 1, ks[m], KeysBefore(ks, m), r);
    } else {
      w := DissatisfyOne(tx, K, F, infos[m], ps[m], j, ks[m], KeysBefore(ks, m), r);
    }
  }

  lemma {:induction false} ChooseFirm(tx: Tx, K: set<nat>, infos: seq<Info>, ps: seq<Both>, ks: seq<set<nat>>, n: nat, j: int) returns (w: Way)
    requires |infos| == |ps| == |ks| && n <= |ps| && SturdyChildren(tx, K, infos, ps, ks, n)
    requires ReadyUnsafe(tx, K, infos, ps, n) <= j <= Ready(tx, K, ps, n)
    ensures Chosen(tx, K, FamilyOf(ps, n), KeysBefore(ks, n), j, w)
    decreases n
  {
    if n == 0 {
      w := Nothing;
      assert SigKeys([]) == {};
    } else {
      var m := n - 1;
      TakesBounds(tx, K, infos, ps, m, j);
      AllFamilyKeyed(tx, K, infos, ps, ks, m);
      var r := ChooseFirm(tx, K, infos, ps, ks, m, if Takes(tx, K, infos, ps, m, j) then j - 1 else j);
      w := ChooseOne(tx, K, infos, ps, ks, m, j, FamilyOf(ps, m), r);
    }
  }

  lemma FinalChoice(tx: Tx, F: Family, A: Ways, k: int, w: Way)
    requires FinalIn(tx, F, k, w) && Layer(F, k, A)
    ensures Final(tx, A, w)
  {}

  lemma ThreshFirm(tx: Tx, K: set<nat>, k: nat, infos: seq<Info>, ps: seq<Both>, ks: seq<set<nat>>)
    requires |infos| == |ps| == |ks| && SturdyChildren(tx, K, infos, ps, ks, |ps|) && Unsafe(infos) <= k
    ensures Firm(tx, K, Choose(ps, k))
  {
    var n := |ps|;
    assert ps[..n] == ps && infos[..n] == infos;
    FamilyLayer(ps, n, k);
    if v :| v in Choose(ps, k) && Open(tx, K, v) {
      OpenReady(tx, K, ps, n, k, v);
      ReadyUnsafeBounds(tx, K, infos, ps, n);
      var w := ChooseFirm(tx, K, infos, ps, ks, n, k);
      FinalChoice(tx, FamilyOf(ps, n), Choose(ps, k), k, w);
    }
  }
}
