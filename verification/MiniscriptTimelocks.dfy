/** The flag k: no satisfaction has to meet a timelock of each kind. */
module MiniscriptTimelocks {
  import opened Wrappers
  import opened Miniscript
  import opened MiniscriptInfo
  import opened MiniscriptConsistency
  import opened MiniscriptWays
  import opened ScriptMachine

  /** Two locks of one sort, one of them a time and the other a height. */
  predicate Mixed(locks: set<Lock>) {
    exists a, b :: a in locks && b in locks && Clash(a, b)
  }

  predicate Clash(a: Lock, b: Lock) {
    a.Relative? == b.Relative? && IsTime(a) != IsTime(b)
  }

  /** A lock that the parser accepts; the flags g, h, i and j name it. */
  predicate NamedLock(lock: Lock, g: bool, h: bool, i: bool, j: bool) {
    1 <= lock.n < DISABLED && if lock.Relative? then (if IsTime(lock) then g else h) else (if IsTime(lock) then i else j)
  }

  predicate Named(locks: set<Lock>, g: bool, h: bool, i: bool, j: bool) {
    forall lock :: lock in locks ==> NamedLock(lock, g, h, i, j)
  }

  ghost predicate AllNamed(A: Ways, x: Info) {
    forall w :: w in A ==> Named(w.locks, x.g, x.h, x.i, x.j)
  }

  ghost predicate NoneMixed(A: Ways) {
    forall w :: w in A ==> !Mixed(w.locks)
  }

  ghost predicate NoLocks(A: Ways) {
    forall w :: w in A ==> w.locks == {}
  }

  /** Satisfactions have locks that are named, not mixed ones with k; dissatisfactions have none. */
  ghost predicate Timed(x: Info, p: Both) {
    AllNamed(p.sat, x) && NoLocks(p.dsat) && (x.k ==> NoneMixed(p.sat))
  }

  // ---- locks and transactions ----

  /** A transaction can meet locks of the accepted values together exactly if they are not mixed. */
  lemma HeldIffNotMixed(locks: set<Lock>)
    requires forall lock :: lock in locks ==> 1 <= lock.n < DISABLED
    ensures (exists tx :: Held(tx, locks)) <==> !Mixed(locks)
  {
    if tx :| Held(tx, locks) {
      forall a, b | a in locks && b in locks
        ensures !Clash(a, b)
      {
        MetNotDisabled(tx, a);
        MetNotDisabled(tx, b);
      }
    }
    if !Mixed(locks) {
      var tx := MeetingTx(locks);
      assert Held(tx, locks);
    }
  }

  lemma MetNotDisabled(tx: Tx, lock: Lock)
    requires Met(tx, lock) && lock.n < DISABLED
    ensures IsTime(lock) == IsTime(if lock.Relative? then Relative(tx.sequence) else Absolute(tx.lockTime))
  {}

  /** A transaction late enough for every lock. */
  lemma MeetingTx(locks: set<Lock>) returns (tx: Tx)
    requires !Mixed(locks) && forall lock :: lock in locks ==> 1 <= lock.n < DISABLED
    ensures Held(tx, locks)
  {
    var relative := exists lock :: lock in locks && lock.Relative? && IsTime(lock);
    var absolute := exists lock :: lock in locks && lock.Absolute? && IsTime(lock);
    tx := Tx(if relative then TIME_FLAG + 65535 else 65535, if absolute then DISABLED - 1 else LOCKTIME_THRESHOLD - 1);
    forall lock | lock in locks
      ensures Met(tx, lock)
    {
      assert !exists other :: other in locks && Clash(lock, other);
    }
  }

  // ---- ways taken together ----

  /** Locks that are named apart do not mix when they are put together. */
  lemma UnionMixed(A: set<Lock>, B: set<Lock>, x: Info, y: Info)
    requires Named(A, x.g, x.h, x.i, x.j) && Named(B, y.g, y.h, y.i, y.j)
    ensures Named(A + B, x.g || y.g, x.h || y.h, x.i || y.i, x.j || y.j)
    ensures !Mixed(A) && !Mixed(B) && !MixesLocks(x, y) ==> !Mixed(A + B)
  {
    forall a, b | !Mixed(A) && !Mixed(B) && !MixesLocks(x, y) && a in A + B && b in A + B
      ensures !Clash(a, b)
    {}
  }

  /** The flags of x are among those of r. */
  predicate Covers(r: Info, x: Info) {
    (x.g ==> r.g) && (x.h ==> r.h) && (x.i ==> r.i) && (x.j ==> r.j)
  }

  lemma CoversNamed(A: Ways, x: Info, r: Info)
    requires AllNamed(A, x) && Covers(r, x)
    ensures AllNamed(A, r)
  {
    forall w | w in A
      ensures Named(w.locks, r.g, r.h, r.i, r.j)
    {
      assert Named(w.locks, x.g, x.h, x.i, x.j);
    }
  }

  /** What is put together with ways that have no locks keeps its locks. */
  lemma EachUnlocked(A: Ways, B: Ways, x: Info, r: Info)
    requires AllNamed(A, x) && NoLocks(B) && Covers(r, x)
    ensures AllNamed(Each(A, B), r) && AllNamed(Each(B, A), r)
    ensures NoneMixed(A) ==> NoneMixed(Each(A, B)) && NoneMixed(Each(B, A))
  {
    CoversNamed(A, x, r);
    forall w | w in Each(A, B) || w in Each(B, A)
      ensures exists a :: a in A && a.locks == w.locks
    {
      var a, b :| a in A && b in B && (w == Join(a, b) || w == Join(b, a));
      assert a.locks + b.locks == a.locks && b.locks + a.locks == a.locks;
    }
  }

  /** Both are satisfied. */
  lemma EachTimed(y: Info, x: Info, B: Ways, A: Ways, r: Info)
    requires AllNamed(B, y) && AllNamed(A, x) && Covers(r, x) && Covers(r, y)
    ensures AllNamed(Each(B, A), r)
    ensures NoneMixed(A) && NoneMixed(B) && !MixesLocks(x, y) ==> NoneMixed(Each(B, A))
  {
    forall w | w in Each(B, A)
      ensures Named(w.locks, r.g, r.h, r.i, r.j)
      ensures NoneMixed(A) && NoneMixed(B) && !MixesLocks(x, y) ==> !Mixed(w.locks)
    {
      var b, a :| b in B && a in A && w == Join(b, a);
      UnionMixed(a.locks, b.locks, x, y);
      assert w.locks == a.locks + b.locks;
      assert Named(w.locks, x.g || y.g, x.h || y.h, x.i || y.i, x.j || y.j);
    }
  }

  lemma EachNoLocks(A: Ways, B: Ways)
    requires NoLocks(A) && NoLocks(B)
    ensures NoLocks(Each(A, B))
  {
    forall w | w in Each(A, B)
      ensures w.locks == {}
    {
      var a, b :| a in A && b in B && w == Join(a, b);
    }
  }

  // ---- nodes ----

  lemma AndOrTimed(x: Info, y: Info, z: Info, xp: Both, yp: Both, zp: Both)
    requires Timed(x, xp) && Timed(y, yp) && Timed(z, zp)
    ensures Timed(AndOrInfo(x, y, z), AndOrWays(xp, yp, zp, false))
  {
    var r := AndOrInfo(x, y, z);
    EachTimed(y, x, yp.sat, xp.sat, r);
    EachUnlocked(zp.sat, xp.dsat, z, r);
    EachNoLocks(zp.dsat, xp.dsat);
  }

  lemma BinaryTimed(op: BinOp, x: Info, y: Info, xp: Both, yp: Both)
    requires Timed(x, xp) && Timed(y, yp)
    ensures Timed(BinaryInfo(op, x, y), BinaryWays(op, xp, yp, false))
  {
    var r := BinaryInfo(op, x, y);
    match op
    case AndV => EachTimed(y, x, yp.sat, xp.sat, r);
    case AndB =>
      EachTimed(y, x, yp.sat, xp.sat, r);
      EachNoLocks(yp.dsat, xp.dsat);
    case AndN => EachTimed(y, x, yp.sat, xp.sat, r);
    case OrB => OrBTimed(x, y, xp, yp);
    case OrC => OrElseTimed(x, y, xp, yp, r);
    case OrD =>
      OrElseTimed(x, y, xp, yp, r);
      EachNoLocks(yp.dsat, xp.dsat);
    case OrI => OrITimed(x, y, xp, yp);
  }

  lemma OrBTimed(x: Info, y: Info, xp: Both, yp: Both)
    requires Timed(x, xp) && Timed(y, yp)
    ensures Timed(OrBInfo(x, y), BinaryWays(OrB, xp, yp, false))
  {
    EachUnlocked(xp.sat, yp.dsat, x, OrBInfo(x, y));
    EachUnlocked(yp.sat, xp.dsat, y, OrBInfo(x, y));
    EachNoLocks(yp.dsat, xp.dsat);
  }

  lemma OrITimed(x: Info, y: Info, xp: Both, yp: Both)
    requires Timed(x, xp) && Timed(y, yp)
    ensures Timed(OrIInfo(x, y), BinaryWays(OrI, xp, yp, false))
  {
    EachUnlocked(xp.sat, Just([True]), x, OrIInfo(x, y));
    EachUnlocked(yp.sat, Just([Empty]), y, OrIInfo(x, y));
    EachNoLocks(xp.dsat, Just([True]));
    EachNoLocks(yp.dsat, Just([Empty]));
  }

  lemma OrElseTimed(x: Info, y: Info, xp: Both, yp: Both, r: Info)
    requires Timed(x, xp) && Timed(y, yp) && Covers(r, x) && Covers(r, y)
    ensures AllNamed(xp.sat + Each(yp.sat, xp.dsat), r)
    ensures NoneMixed(xp.sat) && NoneMixed(yp.sat) ==> NoneMixed(xp.sat + Each(yp.sat, xp.dsat))
  {
    CoversNamed(xp.sat, x, r);
    EachUnlocked(yp.sat, xp.dsat, y, r);
  }

  lemma WrapTimed(w: Wrapper, x: Info, xp: Both)
    requires Timed(x, xp)
    ensures Timed(WrapInfo(w, x), WrapWays(w, xp, false))
  {
    EachUnlocked(xp.sat, Just([True]), x, x);
    EachUnlocked(xp.sat, Just([Empty]), x, x);
    EachNoLocks(xp.dsat, Just([True]));
    EachNoLocks(xp.dsat, Just([Empty]));
  }

  lemma LeafTimed(e: Expr, ctx: Context)
    requires !e.AndOr? && !e.Binary? && !e.Thresh? && !e.Wrap? && Accepted(e, ctx)
    ensures Timed(InfoOf(e, ctx).value, WaysOf(e, false))
  {}

  // ---- thresh ----

  ghost predicate TimedChildren(infos: seq<Info>, ps: seq<Both>) {
    |infos| == |ps| && forall i :: 0 <= i < |ps| ==> Timed(infos[i], ps[i])
  }

  /** What the flags after the children say of the ways to satisfy j of them. */
  ghost predicate TimedChoice(acc: Locks, A: Ways, j: int, threshold: nat) {
    && (forall w :: w in A ==> Named(w.locks, acc.g, acc.h, acc.i, acc.j))
    && (j <= 0 ==> NoLocks(A))
    && (acc.k && (j <= 1 || threshold >= 2) ==> NoneMixed(A))
  }

  /** The flags after one more child. */
  function NextLocks(acc: Locks, t: Info, threshold: nat): Locks {
    var g, h, i, j := acc.g || t.g, acc.h || t.h, acc.i || t.i, acc.j || t.j;
    var mixed := threshold >= 2 && ((t.g && h) || (t.h && g) || (t.i && j) || (t.j && i));
    Locks(g, h, i, j, acc.k && t.k && !mixed)
  }

  lemma SkipTimed(acc: Locks, A: Ways, t: Info, p: Both, j: int, threshold: nat)
    requires TimedChoice(acc, A, j, threshold) && Timed(t, p)
    ensures TimedChoice(NextLocks(acc, t, threshold), Each(p.dsat, A), j, threshold)
  {
    forall w | w in Each(p.dsat, A)
      ensures exists a :: a in A && a.locks == w.locks
    {
      var b, a :| b in p.dsat && a in A && w == Join(b, a);
      assert b.locks + a.locks == a.locks;
    }
  }

  /** One more child is satisfied. */
  lemma TakeLocks(acc: Locks, A: set<Lock>, t: Info, B: set<Lock>, j: int, threshold: nat)
    requires Named(A, acc.g, acc.h, acc.i, acc.j) && Named(B, t.g, t.h, t.i, t.j) && (j <= 1 ==> A == {})
    requires (acc.k && (j <= 2 || threshold >= 2) ==> !Mixed(A)) && (t.k ==> !Mixed(B))
    ensures var next := NextLocks(acc, t, threshold);
            && Named(A + B, next.g, next.h, next.i, next.j)
            && (next.k && (j <= 1 || threshold >= 2) ==> !Mixed(A + B))
  {
    var next := NextLocks(acc, t, threshold);
    forall a, b | next.k && (j <= 1 || threshold >= 2) && a in A + B && b in A + B
      ensures !Clash(a, b)
    {}
  }

  lemma TakeTimed(acc: Locks, A: Ways, t: Info, p: Both, j: int, threshold: nat)
    requires TimedChoice(acc, A, j - 1, threshold) && Timed(t, p) && (j <= 0 ==> A == iset{})
    ensures TimedChoice(NextLocks(acc, t, threshold), Each(p.sat, A), j, threshold)
  {
    var next := NextLocks(acc, t, threshold);
    forall w | w in Each(p.sat, A)
      ensures Named(w.locks, next.g, next.h, next.i, next.j)
      ensures next.k && (j <= 1 || threshold >= 2) ==> !Mixed(w.locks)
      ensures j > 0
    {
      var b, a :| b in p.sat && a in A && w == Join(b, a);
      TakeLocks(acc, a.locks, t, b.locks, j, threshold);
      assert w.locks == a.locks + b.locks;
    }
  }

  lemma UnionTimed(acc: Locks, A: Ways, B: Ways, j: int, threshold: nat)
    requires TimedChoice(acc, A, j, threshold) && TimedChoice(acc, B, j, threshold)
    ensures TimedChoice(acc, A + B, j, threshold)
  {}

  lemma FoldStep(infos: seq<Info>, n: nat, threshold: nat)
    requires |infos| == n + 1
    ensures FoldLocks(infos, threshold) == NextLocks(FoldLocks(infos[..n], threshold), infos[n], threshold)
  {}

  lemma {:induction false} ChooseTimed(infos: seq<Info>, ps: seq<Both>, j: int, threshold: nat)
    requires TimedChildren(infos, ps)
    ensures TimedChoice(FoldLocks(infos, threshold), Choose(ps, j), j, threshold)
    decreases |ps|
  {
    if |ps| > 0 {
      var n := |ps| - 1;
      ChooseTimed(infos[..n], ps[..n], j, threshold);
      ChooseTimed(infos[..n], ps[..n], j - 1, threshold);
      StepTimed(infos, ps, n, j, threshold);
    }
  }

  lemma StepTimed(infos: seq<Info>, ps: seq<Both>, n: nat, j: int, threshold: nat)
    requires TimedChildren(infos, ps) && |ps| == n + 1
    requires TimedChoice(FoldLocks(infos[..n], threshold), Choose(ps[..n], j), j, threshold)
    requires TimedChoice(FoldLocks(infos[..n], threshold), Choose(ps[..n], j - 1), j - 1, threshold)
    ensures TimedChoice(FoldLocks(infos, threshold), Choose(ps, j), j, threshold)
  {
    var acc, next := FoldLocks(infos[..n], threshold), FoldLocks(infos, threshold);
    FoldStep(infos, n, threshold);
    NoChoice(ps[..n], j - 1);
    SkipTimed(acc, Choose(ps[..n], j), infos[n], ps[n], j, threshold);
    TakeTimed(acc, Choose(ps[..n], j - 1), infos[n], ps[n], j, threshold);
    UnionTimed(next, Each(ps[n].dsat, Choose(ps[..n], j)), Each(ps[n].sat, Choose(ps[..n], j - 1)), j, threshold);
  }

  lemma ThreshTimed(k: nat, infos: seq<Info>, ps: seq<Both>)
    requires TimedChildren(infos, ps) && ThreshInfo(k, Some(infos)).Some?
    ensures Timed(ThreshInfo(k, Some(infos)).value, ThreshWays(k, ps, false))
  {
    ChooseTimed(infos, ps, k, k);
    ChooseTimed(infos, ps, 0, k);
  }

  // ---- all expressions ----

  /** With k, no canonical satisfaction needs a time lock and a height lock of one sort. */
  lemma {:induction false} EveryTimed(e: Expr, ctx: Context)
    requires Accepted(e, ctx)
    ensures Timed(InfoOf(e, ctx).value, WaysOf(e, false))
    decreases e
  {
    match e
    case AndOr(x, y, z) =>
      EveryTimed(x, ctx);
      EveryTimed(y, ctx);
      EveryTimed(z, ctx);
      AndOrTimed(InfoOf(x, ctx).value, InfoOf(y, ctx).value, InfoOf(z, ctx).value,
                 WaysOf(x, false), WaysOf(y, false), WaysOf(z, false));
    case Binary(op, x, y) =>
      EveryTimed(x, ctx);
      EveryTimed(y, ctx);
      BinaryTimed(op, InfoOf(x, ctx).value, InfoOf(y, ctx).value, WaysOf(x, false), WaysOf(y, false));
    case Thresh(k, subs) =>
      EveryChildTimed(subs, true, ctx);
      ThreshTimed(k, InfosOf(subs, ctx).value, ListWays(subs, false));
    case Wrap(w, x) =>
      EveryTimed(x, ctx);
      WrapTimed(w, InfoOf(x, ctx).value, WaysOf(x, false));
    case _ =>
      LeafTimed(e, ctx);
  }

  lemma {:induction false} EveryChildTimed(l: Exprs, first: bool, ctx: Context)
    requires CountSubs(l, first, ctx).Some? && InfosOf(l, ctx).Some?
    ensures TimedChildren(InfosOf(l, ctx).value, ListWays(l, false))
    decreases l
  {
    match l
    case Nil =>
    case Cons(head, tail) =>
      EveryTimed(head, ctx);
      EveryChildTimed(tail, false, ctx);
  }
}
