/** The conditions under which a miniscript is accepted in a policy, and what they guarantee. */
module MiniscriptSanity {
  import opened Wrappers
  import opened Miniscript
  import opened MiniscriptInfo
  import opened MiniscriptConsistency
  import opened MiniscriptWays
  import opened MiniscriptSafety
  import opened MiniscriptUniqueness
  import opened MiniscriptMalleability
  import opened MiniscriptFirmness
  import opened MiniscriptThirdParty
  import opened MiniscriptExactness
  import opened MiniscriptTimelocks
  import opened MiniscriptCosts
  import opened MiniscriptText
  import opened ScriptMachine
  import opened MiniscriptMeaning
  import opened MiniscriptEmission
  import Scripts
  import MiniscriptSize
  import MiniscriptFragments
  import MiniscriptExecution
  import MiniscriptLeaves
  import Thresh

  const MAX_STANDARD_P2WSH_STACK_ITEMS: nat := 100
  const MAX_STANDARD_P2WSH_SCRIPT_SIZE: nat := 3600
  const MAX_OPS_PER_SCRIPT: nat := 201

  predicate Sane(e: Expr, ctx: Context) {
    && Accepted(e, ctx)
    && TypeOf(e, ctx).value.kind == B
    && SaneInfo(InfoOf(e, ctx).value)
  }

  predicate SaneInfo(i: Info) {
    && i.m && i.s && i.k
    && 0 <= i.ss.sat <= MAX_STANDARD_P2WSH_STACK_ITEMS
    && i.ops.sat != -1
    && i.ops.count + i.ops.sat <= MAX_OPS_PER_SCRIPT
    && i.size <= MAX_STANDARD_P2WSH_SCRIPT_SIZE
  }

  /** The script that the app derives addresses from. */
  function ScriptOf(e: Expr, ctx: Context): Scripts.Script {
    Emit(e, false, ctx)
  }

  /**
   pk_k, which the app emits with CHECKSIGVERIFY, is used only as the first child of and_v, and any other first
   child of and_v is of type V. The app checks neither.
   */
  predicate Sound(e: Expr, ctx: Context) {
    KeysFirst(e) && FirstVerifies(Verified(e), ctx)
  }

  /** Then a witness makes the script succeed, or end in 0, exactly if it is one of the ways of the expression. */
  lemma ScriptAcceptsIff(tx: Tx, e: Expr, ctx: Context, items: Elements)
    requires TypeOf(e, ctx).Some? && TypeOf(e, ctx).value.kind == B && Sound(e, ctx)
    ensures Accepts(tx, ScriptOf(e, ctx), items) <==> IsWay(tx, WaysOf(e, true).sat, items)
    ensures Declines(tx, ScriptOf(e, ctx), items) <==> IsWay(tx, WaysOf(e, true).dsat, items)
  {
    EmitIs(e, ctx);
    VerifiedType(e, ctx);
    VerifiedWays(e, true);
    AcceptsIff(tx, Verified(e), ctx, items);
  }

  // ---- signatures and timelocks ----

  /** By the tables every satisfaction has a signature, and no canonical one mixes timelocks. */
  lemma SaneWays(e: Expr, ctx: Context)
    requires Sane(e, ctx)
    ensures AllSigned(WaysOf(e, true).sat) && NoneMixed(WaysOf(e, false).sat)
  {
    EveryGuarded(e, ctx);
    EveryTimed(e, ctx);
  }

  /** Every witness that the script accepts has a signature. */
  lemma SaneNeedsSignature(tx: Tx, e: Expr, ctx: Context, items: Elements)
    requires Sane(e, ctx) && Sound(e, ctx) && Accepts(tx, ScriptOf(e, ctx), items)
    ensures Signed(items)
  {
    SaneWays(e, ctx);
    ScriptAcceptsIff(tx, e, ctx, items);
  }

  /** And a canonical satisfaction is accepted in every transaction that meets its timelocks. */
  lemma CanonicalAccepted(tx: Tx, e: Expr, ctx: Context, w: Way)
    requires Accepted(e, ctx) && TypeOf(e, ctx).value.kind == B && Sound(e, ctx)
    requires w in WaysOf(e, false).sat && Held(tx, w.locks)
    ensures Accepts(tx, ScriptOf(e, ctx), w.items)
  {
    CanonicalWithin(e, ctx);
    ScriptAcceptsIff(tx, e, ctx, w.items);
  }

  /** Of which there are some. */
  lemma SaneCanBeSpent(e: Expr, ctx: Context, w: Way)
    requires Sane(e, ctx) && Sound(e, ctx) && w in WaysOf(e, false).sat
    ensures exists tx :: Accepts(tx, ScriptOf(e, ctx), w.items)
  {
    var tx := SaneTx(e, ctx, w);
    CanonicalAccepted(tx, e, ctx, w);
  }

  lemma SaneTx(e: Expr, ctx: Context, w: Way) returns (tx: Tx)
    requires Sane(e, ctx) && w in WaysOf(e, false).sat
    ensures Held(tx, w.locks)
  {
    EveryTimed(e, ctx);
    tx := NamedTx(InfoOf(e, ctx).value, WaysOf(e, false), w);
  }

  lemma NamedTx(i: Info, p: Both, w: Way) returns (tx: Tx)
    requires Timed(i, p) && i.k && w in p.sat
    ensures Held(tx, w.locks)
  {
    assert Named(w.locks, i.g, i.h, i.i, i.j) && !Mixed(w.locks);
    assert forall lock :: lock in w.locks ==> NamedLock(lock, i.g, i.h, i.i, i.j);
    tx := MeetingTx(w.locks);
  }

  /** The flags of an expression of type B, as promises about its script. */
  lemma ScriptGuarded(tx: Tx, e: Expr, ctx: Context, items: Elements)
    requires Accepted(e, ctx) && TypeOf(e, ctx).value.kind == B && Sound(e, ctx)
    ensures InfoOf(e, ctx).value.s && Accepts(tx, ScriptOf(e, ctx), items) ==> Signed(items)
    ensures InfoOf(e, ctx).value.f && Declines(tx, ScriptOf(e, ctx), items) ==> Signed(items)
  {
    EveryGuarded(e, ctx);
    ScriptAcceptsIff(tx, e, ctx, items);
  }

  /** With m and e, at most one witness without a signature makes the script end in 0. */
  lemma ScriptDeclinesOne(tx: Tx, e: Expr, ctx: Context, a: Elements, b: Elements)
    requires Accepted(e, ctx) && TypeOf(e, ctx).value.kind == B && Sound(e, ctx)
    requires ChildrenHaveM(e, ctx) && InfoOf(e, ctx).value.m && InfoOf(e, ctx).value.e
    requires Declines(tx, ScriptOf(e, ctx), a) && Declines(tx, ScriptOf(e, ctx), b) && !Signed(a) && !Signed(b)
    ensures a == b
  {
    OneDissatisfaction(e, ctx);
    ScriptAcceptsIff(tx, e, ctx, a);
    ScriptAcceptsIff(tx, e, ctx, b);
  }

  /** With m, at most one witness without a signature makes it succeed. */
  lemma ScriptAcceptsOne(tx: Tx, e: Expr, ctx: Context, a: Elements, b: Elements)
    requires Accepted(e, ctx) && TypeOf(e, ctx).value.kind == B && Sound(e, ctx)
    requires ChildrenHaveM(e, ctx) && InfoOf(e, ctx).value.m
    requires Accepts(tx, ScriptOf(e, ctx), a) && Accepts(tx, ScriptOf(e, ctx), b) && !Signed(a) && !Signed(b)
    ensures a == b
  {
    OneSatisfaction(e, ctx);
    ScriptAcceptsIff(tx, e, ctx, a);
    ScriptAcceptsIff(tx, e, ctx, b);
  }

  /** Without s some witness without a signature is accepted in some transaction, unless its timelocks exclude each other. */
  lemma ScriptUnguarded(e: Expr, ctx: Context) returns (w: Way)
    requires Accepted(e, ctx) && TypeOf(e, ctx).value.kind == B && Sound(e, ctx) && !InfoOf(e, ctx).value.s
    ensures !Signed(w.items) && forall tx :: Held(tx, w.locks) ==> Accepts(tx, ScriptOf(e, ctx), w.items)
  {
    FlagsExact(e, ctx);
    w :| w in WaysOf(e, true).sat && !Signed(w.items);
    forall tx | Held(tx, w.locks)
      ensures Accepts(tx, ScriptOf(e, ctx), w.items)
    {
      ScriptAcceptsIff(tx, e, ctx, w.items);
    }
  }

  /** A witness that the script accepts and that nobody can replace with the signatures in it alone. */
  ghost predicate Irreplaceable(tx: Tx, e: Expr, ctx: Context, items: Elements) {
    && Accepts(tx, ScriptOf(e, ctx), items)
    && forall other :: Accepts(tx, ScriptOf(e, ctx), other) && SigKeys(other) <= SigKeys(items) ==> other == items
  }

  lemma FinalIrreplaceable(tx: Tx, e: Expr, ctx: Context, w: Way)
    requires TypeOf(e, ctx).Some? && TypeOf(e, ctx).value.kind == B && Sound(e, ctx) && Final(tx, WaysOf(e, true).sat, w)
    ensures Irreplaceable(tx, e, ctx, w.items)
  {
    ScriptAcceptsIff(tx, e, ctx, w.items);
    forall other | Accepts(tx, ScriptOf(e, ctx), other) && SigKeys(other) <= SigKeys(w.items)
      ensures other == w.items
    {
      ScriptAcceptsIff(tx, e, ctx, other);
      var v :| v in WaysOf(e, true).sat && v.items == other && Held(tx, v.locks);
      assert Open(tx, SigKeys(w.items), v);
    }
  }

  /**
   A sane policy without a key that is used twice cannot be malleated by third parties: whoever has keys that
   suffice to spend, in whatever transaction, has an irreplaceable witness with these keys.
   */
  lemma SaneNotMalleable(tx: Tx, e: Expr, ctx: Context, K: set<nat>, items: Elements)
    requires Sane(e, ctx) && Sound(e, ctx) && ChildrenHaveM(e, ctx) && Distinct(e)
    requires Accepts(tx, ScriptOf(e, ctx), items) && SigKeys(items) <= K
    ensures exists best :: Irreplaceable(tx, e, ctx, best) && SigKeys(best) <= K && Signed(best)
  {
    EveryFirm(tx, K, e, ctx);
    ScriptAcceptsIff(tx, e, ctx, items);
    var v :| v in WaysOf(e, true).sat && v.items == items && Held(tx, v.locks);
    assert Open(tx, K, v);
    var w :| Final(tx, WaysOf(e, true).sat, w) && SigKeys(w.items) <= K;
    FinalIrreplaceable(tx, e, ctx, w);
    SaneNeedsSignature(tx, e, ctx, w.items);
  }

  // ---- the limits ----

  lemma WithinPeak(m: Measure, A: Ways, c: Thresh.Cost, limit: nat)
    requires Peak(m, A, c) && c <= limit < 32767
    ensures forall w :: w in A ==> Amount(m, w) <= limit
  {}

  /** Where the costs are exact there is a canonical satisfaction, and none takes more than 100 elements. */
  lemma SaneFitsStack(e: Expr, ctx: Context)
    requires Sane(e, ctx) && Exact(Stack, e, ctx)
    ensures exists w :: w in WaysOf(e, false).sat
    ensures forall w :: w in WaysOf(e, false).sat ==> |w.items| <= MAX_STANDARD_P2WSH_STACK_ITEMS
  {
    CostsAreGreatest(Stack, e, ctx);
    WithinPeak(Stack, WaysOf(e, false).sat, InfoOf(e, ctx).value.ss.sat, MAX_STANDARD_P2WSH_STACK_ITEMS);
  }

  /** The size and the operations of the script: what the second pass counts, modulo 2^16, and one more for each pk_k. */
  lemma ScriptMeasures(e: Expr, ctx: Context)
    requires Accepted(e, ctx)
    ensures var i, n := InfoOf(e, ctx).value, KeyCount(e);
            && Scripts.Size(ScriptOf(e, ctx)) >= n && i.size == (Scripts.Size(ScriptOf(e, ctx)) - n) % 65536
            && Scripts.NonPushes(ScriptOf(e, ctx)) >= n && i.ops.count == (Scripts.NonPushes(ScriptOf(e, ctx)) - n) % 65536
            && (TextLength(e) <= MAX_DESCRIPTOR_TEMPLATE_LENGTH ==>
                  MiniscriptSize.Measures(ScriptOf(e, ctx), i.size + n, i.ops.count + n))
  {
    MiniscriptSize.SizeOfAccepted(e, ctx);
    EmitLonger(e, ctx);
    if TextLength(e) <= MAX_DESCRIPTOR_TEMPLATE_LENGTH {
      TextFits(e, ctx);
    }
  }

  /** Script operations and multisig keys together stay within the limit but for the pk_k, exactly so for policies of the accepted length. */
  lemma SaneFitsOps(e: Expr, ctx: Context)
    requires Sane(e, ctx) && Exact(Keys, e, ctx)
    ensures forall w :: w in WaysOf(e, false).sat ==>
              (Scripts.NonPushes(ScriptOf(e, ctx)) - KeyCount(e)) % 65536 + w.keys <= MAX_OPS_PER_SCRIPT
    ensures TextLength(e) <= MAX_DESCRIPTOR_TEMPLATE_LENGTH ==>
              forall w :: w in WaysOf(e, false).sat ==> Scripts.NonPushes(ScriptOf(e, ctx)) + w.keys <= MAX_OPS_PER_SCRIPT + KeyCount(e)
  {
    var i := InfoOf(e, ctx).value;
    CostsAreGreatest(Keys, e, ctx);
    WithinPeak(Keys, WaysOf(e, false).sat, i.ops.sat, MAX_OPS_PER_SCRIPT - i.ops.count);
    ScriptMeasures(e, ctx);
  }

  lemma SaneFitsSize(e: Expr, ctx: Context)
    requires Sane(e, ctx)
    ensures (Scripts.Size(ScriptOf(e, ctx)) - KeyCount(e)) % 65536 <= MAX_STANDARD_P2WSH_SCRIPT_SIZE
    ensures TextLength(e) <= MAX_DESCRIPTOR_TEMPLATE_LENGTH ==> Scripts.Size(ScriptOf(e, ctx)) <= MAX_STANDARD_P2WSH_SCRIPT_SIZE + KeyCount(e)
  {
    ScriptMeasures(e, ctx);
  }

  /** n:n:...:pk(b) */
  function Repeated(count: nat, b: nat): Expr {
    if count == 0 then Pk(b) else Wrap(WrapN, Repeated(count - 1, b))
  }

  lemma {:induction false} RepeatedIs(count: nat, b: nat)
    requires count <= 1000
    ensures InfoOf(Repeated(count, b), P2wsh) == Some(Plain(Ops(1 + count, 0, 0), Thresh.Child(1, 1), 35 + count, true, false, true, count > 0))
    ensures TypeOf(Repeated(count, b), P2wsh) == Some(Type(B, false, true, true, true, true))
    ensures TextLength(Repeated(count, b)) <= 8 + count
    ensures KeyCount(Repeated(count, b)) == 0
  {
    if count > 0 {
      RepeatedIs(count - 1, b);
    }
  }

  /** and_v(pk_k(a), n:n:...:pk(b)) */
  function OneOver(a: nat, b: nat, count: nat): Expr {
    Binary(AndV, PkK(a), Repeated(count, b))
  }

  lemma OneOverCounts(a: nat, y: Expr, n: nat)
    requires n == 201 && TypeOf(y, P2wsh) == Some(Type(B, false, true, true, true, true))
    requires InfoOf(y, P2wsh) == Some(Plain(Ops(n, 0, 0), Thresh.Child(1, 1), 34 + n, true, false, true, true))
    ensures Sane(Binary(AndV, PkK(a), y), P2wsh) && InfoOf(Binary(AndV, PkK(a), y), P2wsh).value.ops.count == n
  {
    var e := Binary(AndV, PkK(a), y);
    assert InfoOf(e, P2wsh) == Some(AndVInfo(InfoOf(PkK(a), P2wsh).value, InfoOf(y, P2wsh).value));
    assert TypeOf(e, P2wsh) == AndVType(TypeOf(PkK(a), P2wsh).value, TypeOf(y, P2wsh).value);
  }

  /** The pk_k can take the script over the limit: and_v(pk_k(a), Y) with 200 times n: in Y has 202 operations. */
  lemma OneOverTheLimit(a: nat, b: nat, count: nat)
    requires count == 200
    ensures var e := OneOver(a, b, count);
            && Sane(e, P2wsh) && TextLength(e) <= MAX_DESCRIPTOR_TEMPLATE_LENGTH
            && Scripts.NonPushes(ScriptOf(e, P2wsh)) == MAX_OPS_PER_SCRIPT + 1
  {
    var e := OneOver(a, b, count);
    RepeatedIs(count, b);
    OneOverCounts(a, e.y, 1 + count);
    ScriptMeasures(e, P2wsh);
  }

  // ---- where the first child of and_v is not of type V ----

  /** l:1 */
  function Anything(): Expr {
    Wrap(WrapL, One)
  }

  /** and_v(pk(a), l:1) */
  function Unverified(a: nat): Expr {
    Binary(AndV, Pk(a), Anything())
  }

  lemma AnythingFlags(ctx: Context)
    ensures TypeOf(Anything(), ctx) == Some(Type(B, false, true, false, true, true))
    ensures InfoOf(Anything(), ctx) == Some(Info(Ops(3, 0, -1), Thresh.Child(1, 1), 5, false, false, true, true, false, false, false, false, true, true))
  {
    assert InfoOf(One, ctx) == Some(Plain(Ops(0, 0, -1), Thresh.Child(0, -1), 1, false, true, false, true));
    assert InfoOf(Anything(), ctx) == Some(WrapLUInfo(InfoOf(One, ctx).value));
  }

  lemma UnverifiedIsSane(a: nat)
    ensures Sane(Unverified(a), P2wsh)
  {
    AnythingFlags(P2wsh);
    var x, y := InfoOf(Pk(a), P2wsh).value, InfoOf(Anything(), P2wsh).value;
    assert x == Plain(Ops(1, 0, 0), Thresh.Child(1, 1), 35, true, false, true, false);
    assert InfoOf(Unverified(a), P2wsh) == Some(AndVInfo(x, y));
    assert TypeOf(Unverified(a), P2wsh) == AndVType(TypeOf(Pk(a), P2wsh).value, TypeOf(Anything(), P2wsh).value);
  }

  lemma UnverifiedNotSound(a: nat)
    ensures !Sound(Unverified(a), P2wsh)
  {
    NoKeys(Unverified(a));
  }

  lemma UnverifiedScript(a: nat)
    ensures ScriptOf(Unverified(a), P2wsh) ==
              [Scripts.PushOf(Scripts.KeyBytes(a), P2wsh)] + MiniscriptLeaves.CHECKSIG
              + Block(Scripts.OpIf, Scripts.Num(0, P2wsh), Scripts.Num(1, P2wsh))
  {
    assert ScriptOf(Pk(a), P2wsh) == [Scripts.PushOf(Scripts.KeyBytes(a), P2wsh)] + MiniscriptLeaves.CHECKSIG;
    assert ScriptOf(One, P2wsh) == Scripts.Num(1, P2wsh);
    assert ScriptOf(Anything(), P2wsh) == EmitWrap(WrapL, ScriptOf(One, P2wsh), false, P2wsh);
    assert ScriptOf(Unverified(a), P2wsh) == ScriptOf(Pk(a), P2wsh) + ScriptOf(Anything(), P2wsh);
  }

  /** <a> CHECKSIG on one empty element. */
  lemma UnsignedKey(tx: Tx, a: nat, key: Scripts.Script)
    requires key == [Scripts.PushOf(Scripts.KeyBytes(a), P2wsh)] + MiniscriptLeaves.CHECKSIG
    ensures Proper(tx, key) && Exec(tx, key, [Empty], []) == Running([Empty], [], [])
  {
    MiniscriptLeaves.ProperPlain(tx, key);
    MiniscriptLeaves.ExecKey(tx, a, [Empty], [], P2wsh);
    MiniscriptLeaves.CheckSigAnswer(a, [], Empty, []);
    assert [] + [Empty] + [PubKey(a)] == [Empty] + [PubKey(a)];
  }

  /** IF 0 ELSE 1 ENDIF on one empty element. */
  lemma AnythingRuns(tx: Tx, zero: Scripts.Script, one: Scripts.Script)
    requires zero == Scripts.Num(0, P2wsh) && one == Scripts.Num(1, P2wsh)
    ensures Exec(tx, Block(Scripts.OpIf, zero, one), [Empty], []) == Running([True], [], [])
  {
    MiniscriptLeaves.ProperPlain(tx, zero);
    MiniscriptLeaves.ProperPlain(tx, one);
    ExecBlock(tx, Scripts.OpIf, zero, one);
    MiniscriptExecution.ExecOne(tx, Scripts.PushOf(Scripts.Number(1), P2wsh), [], []);
  }

  lemma UnverifiedAccepts(tx: Tx, a: nat)
    ensures Accepts(tx, ScriptOf(Unverified(a), P2wsh), [Empty])
  {
    var zero, one := Scripts.Num(0, P2wsh), Scripts.Num(1, P2wsh);
    var key := [Scripts.PushOf(Scripts.KeyBytes(a), P2wsh)] + MiniscriptLeaves.CHECKSIG;
    UnverifiedScript(a);
    UnsignedKey(tx, a, key);
    AnythingRuns(tx, zero, one);
    ExecConcat(tx, key, Block(Scripts.OpIf, zero, one), [Empty], []);
  }

  /**
   Where the first child of and_v is not of type V, a sane policy can be spent with no signature, although by
   the tables every satisfaction has one: and_v(pk(a), l:1) with one empty witness element.
   */
  lemma UnverifiedUnsigned(tx: Tx, a: nat)
    ensures Sane(Unverified(a), P2wsh) && AllSigned(WaysOf(Unverified(a), true).sat) && !Sound(Unverified(a), P2wsh)
    ensures Accepts(tx, ScriptOf(Unverified(a), P2wsh), [Empty]) && !Signed([Empty])
  {
    UnverifiedIsSane(a);
    UnverifiedNotSound(a);
    SaneWays(Unverified(a), P2wsh);
    UnverifiedAccepts(tx, a);
  }

  /** The condition is not needed in every case: and_v(0, 1) has no satisfaction, and its script accepts nothing. */
  lemma UnverifiedHarmless(tx: Tx, items: Elements, ctx: Context)
    ensures var e := Binary(AndV, Zero, One);
            Accepted(e, ctx) && !Sound(e, ctx) && WaysOf(e, true).sat == iset{} && !Accepts(tx, ScriptOf(e, ctx), items)
  {
    var e, a, b := Binary(AndV, Zero, One), Scripts.PushOf(Scripts.Number(0), ctx), Scripts.PushOf(Scripts.Number(1), ctx);
    assert InfoOf(e, ctx) == Some(AndVInfo(InfoOf(Zero, ctx).value, InfoOf(One, ctx).value));
    EachNone(WaysOf(One, true).sat, WaysOf(Zero, true).sat);
    assert ScriptOf(e, ctx) == [a] + [b];
    MiniscriptFragments.ExecBefore(tx, a, [b], items, []);
    MiniscriptExecution.ExecOne(tx, b, items + [Empty], []);
  }

  // ---- what is refused for want of m ----

  /** or_i(older(m), after(n)) */
  function EitherLock(m: nat, n: nat): Expr {
    Binary(OrI, Older(m), After(n))
  }

  /** and_v(v:pk(a), or_i(older(m), after(n))) */
  function Selectable(a: nat, m: nat, n: nat): Expr {
    Binary(AndV, Wrap(WrapV, Pk(a)), EitherLock(m, n))
  }

  /** It is accepted and always needs a signature, but it does not have m. */
  lemma SelectableRefused(a: nat, m: nat, n: nat)
    requires 1 <= m < 0x8000_0000 && 1 <= n < 0x8000_0000
    ensures var e := Selectable(a, m, n);
            Accepted(e, P2wsh) && TypeOf(e, P2wsh).value.kind == B && InfoOf(e, P2wsh).value.s && !InfoOf(e, P2wsh).value.m && !Sane(e, P2wsh)
  {
    var e := Selectable(a, m, n);
    var x, y := InfoOf(Older(m), P2wsh).value, InfoOf(After(n), P2wsh).value;
    assert !x.s && !y.s;
    assert InfoOf(EitherLock(m, n), P2wsh) == Some(OrIInfo(x, y));
    assert TypeOf(EitherLock(m, n), P2wsh) == OrIType(TypeOf(Older(m), P2wsh).value, TypeOf(After(n), P2wsh).value);
    VerifiedKey(a);
    assert InfoOf(e, P2wsh) == Some(AndVInfo(InfoOf(Wrap(WrapV, Pk(a)), P2wsh).value, OrIInfo(x, y)));
    assert TypeOf(e, P2wsh) == AndVType(TypeOf(Wrap(WrapV, Pk(a)), P2wsh).value, TypeOf(EitherLock(m, n), P2wsh).value);
  }

  lemma VerifiedKey(a: nat)
    ensures TypeOf(Wrap(WrapV, Pk(a)), P2wsh) == Some(Type(V, false, true, true, false, false))
    ensures InfoOf(Wrap(WrapV, Pk(a)), P2wsh) == Some(WrapVInfo(InfoOf(Pk(a), P2wsh).value)) && InfoOf(Pk(a), P2wsh).value.s
  {
    assert TypeOf(Pk(a), P2wsh) == Some(Type(B, false, true, true, true, true));
  }

  lemma LockTagged(lock: Lock, tag: Element, w: Way)
    requires w == Way([tag], {lock}, 0)
    ensures w in Each(Locked(lock), Just([tag]))
  {
    var a, b := Way([], {lock}, 0), Way([tag], {}, 0);
    assert a in Locked(lock) && b in Just([tag]) && Join(a, b) == w;
  }

  lemma SignedAfter(key: nat, tag: Element, lock: Lock, A: Ways)
    requires Way([tag], {lock}, 0) in A
    ensures Way([tag, Sig(key)], {lock}, 0) in Each(A, Just([Sig(key)]))
  {
    var a, b := Way([tag], {lock}, 0), Way([Sig(key)], {}, 0);
    assert b in Just([Sig(key)]) && Join(a, b) == Way([tag, Sig(key)], {lock}, 0);
  }

  lemma EitherLockWays(m: nat, n: nat)
    ensures WaysOf(EitherLock(m, n), true).sat == Each(Locked(Relative(m)), Just([True])) + Each(Locked(Absolute(n)), Just([Empty]))
  {
    assert WaysOf(Older(m), true).sat == Locked(Relative(m)) && WaysOf(After(n), true).sat == Locked(Absolute(n));
    assert WaysOf(EitherLock(m, n), true) == BinaryWays(OrI, WaysOf(Older(m), true), WaysOf(After(n), true), true);
  }

  lemma SelectableWays(a: nat, m: nat, n: nat)
    ensures var A := WaysOf(Selectable(a, m, n), true).sat;
            Way([True, Sig(a)], {Relative(m)}, 0) in A && Way([Empty, Sig(a)], {Absolute(n)}, 0) in A
  {
    var A := WaysOf(EitherLock(m, n), true).sat;
    EitherLockWays(m, n);
    LockTagged(Relative(m), True, Way([True], {Relative(m)}, 0));
    LockTagged(Absolute(n), Empty, Way([Empty], {Absolute(n)}, 0));
    SignedAfter(a, True, Relative(m), A);
    SignedAfter(a, Empty, Absolute(n), A);
    assert WaysOf(Wrap(WrapV, Pk(a)), true).sat == Just([Sig(a)]);
    assert WaysOf(Selectable(a, m, n), true).sat == Each(A, WaysOf(Wrap(WrapV, Pk(a)), true).sat);
  }

  lemma SelectableSound(a: nat, m: nat, n: nat)
    ensures Sound(Selectable(a, m, n), P2wsh)
  {
    var x, y := Wrap(WrapV, Pk(a)), EitherLock(m, n);
    VerifiedKey(a);
    assert KeyCount(x) == 0 && KeyCount(y) == 0;
    NoKeys(Selectable(a, m, n));
    assert FirstVerifies(x, P2wsh) && FirstVerifies(y, P2wsh);
  }

  /** Rightly so: once both timelocks are met, whoever sees the signature can exchange one witness for the other. */
  lemma SelectableReplaceable(tx: Tx, a: nat, m: nat, n: nat)
    requires 1 <= m < 0x8000_0000 && 1 <= n < 0x8000_0000 && Met(tx, Relative(m)) && Met(tx, Absolute(n))
    ensures var s := ScriptOf(Selectable(a, m, n), P2wsh); Accepts(tx, s, [True, Sig(a)]) && Accepts(tx, s, [Empty, Sig(a)])
  {
    SelectableRefused(a, m, n);
    SelectableSound(a, m, n);
    SelectableWays(a, m, n);
    ScriptAcceptsIff(tx, Selectable(a, m, n), P2wsh, [True, Sig(a)]);
    ScriptAcceptsIff(tx, Selectable(a, m, n), P2wsh, [Empty, Sig(a)]);
  }

  // ---- where pk_k is not the first child of and_v ----

  lemma BareKeyScript(a: nat, e: Expr)
    requires e == Wrap(WrapC, PkK(a))
    ensures ScriptOf(e, P2wsh) == [Scripts.PushOf(Scripts.KeyBytes(a), P2wsh)] + ([Scripts.Check(Scripts.CheckSig, true)] + MiniscriptLeaves.CHECKSIG)
    ensures !Sound(e, P2wsh)
  {
    assert !KeysFirst(PkK(a));
    assert ScriptOf(PkK(a), P2wsh) == [Scripts.PushOf(Scripts.KeyBytes(a), P2wsh)] + [Scripts.Check(Scripts.CheckSig, true)];
    assert ScriptOf(e, P2wsh) == ScriptOf(PkK(a), P2wsh) + MiniscriptLeaves.CHECKSIG;
  }

  /** <a> CHECKSIGVERIFY CHECKSIG on one signature. */
  lemma BareKeyRuns(tx: Tx, a: nat, push: Scripts.Op, verify: Scripts.Op, check: Scripts.Script)
    requires push == Scripts.PushOf(Scripts.KeyBytes(a), P2wsh) && verify == Scripts.Check(Scripts.CheckSig, true)
    requires check == MiniscriptLeaves.CHECKSIG
    ensures Exec(tx, [push] + ([verify] + check), [Sig(a)], []) == Failed
  {
    MiniscriptFragments.ExecBefore(tx, push, [verify] + check, [Sig(a)], []);
    MiniscriptFragments.ExecBefore(tx, verify, check, [Sig(a)] + [PubKey(a)], []);
    SignedKey(tx, a, verify);
    MiniscriptExecution.ExecOne(tx, Scripts.Check(Scripts.CheckSig, false), [], []);
  }

  lemma SignedKey(tx: Tx, a: nat, verify: Scripts.Op)
    requires verify == Scripts.Check(Scripts.CheckSig, true)
    ensures ActStep(tx, verify, Running([Sig(a)] + [PubKey(a)], [], [])) == Running([], [], [])
  {
    MiniscriptLeaves.CheckSigAnswer(a, [], Sig(a), []);
    assert [] + [Sig(a)] == [Sig(a)];
  }

  /** c:pk_k(a), which in BIP 379 is the same as pk(a), is not satisfied by a signature. */
  lemma BareKeyRefused(tx: Tx, a: nat, e: Expr)
    requires e == Wrap(WrapC, PkK(a))
    ensures Sane(e, P2wsh) && !Sound(e, P2wsh)
    ensures Accepts(tx, Scripts.Translate(e, P2wsh), [Sig(a)]) && !Accepts(tx, ScriptOf(e, P2wsh), [Sig(a)])
  {
    BareKeyScript(a, e);
    BareKeyRuns(tx, a, Scripts.PushOf(Scripts.KeyBytes(a), P2wsh), Scripts.Check(Scripts.CheckSig, true), MiniscriptLeaves.CHECKSIG);
    BareKeySane(a, e);
    BareKeySatisfied(tx, a, e);
  }

  lemma BareKeySane(a: nat, e: Expr)
    requires e == Wrap(WrapC, PkK(a))
    ensures Sane(e, P2wsh)
  {
    assert InfoOf(e, P2wsh) == Some(WrapCInfo(InfoOf(PkK(a), P2wsh).value));
  }

  lemma BareKeySatisfied(tx: Tx, a: nat, e: Expr)
    requires e == Wrap(WrapC, PkK(a))
    ensures Accepts(tx, Scripts.Translate(e, P2wsh), [Sig(a)])
  {
    var w := Way([Sig(a)], {}, 0);
    assert w in WaysOf(PkK(a), true).sat && WaysOf(e, true) == WaysOf(PkK(a), true);
    AcceptsIff(tx, e, P2wsh, [Sig(a)]);
  }

  // ---- where thresh asks for more children than it has ----

  /** thresh(2, pk(a)) */
  function TooMany(a: nat, k: nat): Expr {
    Thresh(k, Cons(Pk(a), Nil))
  }

  lemma OneKeyInfos(a: nat)
    ensures CountSubs(Cons(Pk(a), Nil), true, P2wsh) == Some(ThreshCount(1, 0, 1))
    ensures InfosOf(Cons(Pk(a), Nil), P2wsh) == Some([InfoOf(Pk(a), P2wsh).value])
  {
    assert CountSubs(Nil, false, P2wsh) == Some(ThreshCount(0, 0, 0));
    assert InfosOf(Nil, P2wsh) == Some([]);
    assert [InfoOf(Pk(a), P2wsh).value] + [] == [InfoOf(Pk(a), P2wsh).value];
  }

  lemma OneKeyThresh(i: Info, k: nat)
    requires k == 2 && i == Plain(Ops(1, 0, 0), Thresh.Child(1, 1), 35, true, false, true, false)
    ensures ThreshInfo(k, Some([i])).Some? && SaneInfo(ThreshInfo(k, Some([i])).value)
  {
    var infos := [i];
    assert infos[1..] == [] && infos[..0] == [];
    assert CountS(infos) == 1 && CountE(infos) == 1 && SumSizes(infos) == 35;
    assert SumOps(infos[1..]) == 0 && SumOps(infos) == 2;
    assert FoldLocks(infos[..0], k) == Locks(false, false, false, false, true);
    assert FoldLocks(infos, k) == Locks(false, false, false, false, true);
  }

  lemma TooManySane(a: nat, k: nat)
    requires k == 2
    ensures Sane(TooMany(a, k), P2wsh)
  {
    OneKeyInfos(a);
    OneKeyThresh(InfoOf(Pk(a), P2wsh).value, k);
  }

  lemma TooManyWays(a: nat, k: nat)
    requires k == 2
    ensures WaysOf(TooMany(a, k), true).sat == iset{}
  {
    OneChildWays(k, Pk(a));
    NoChoice([WaysOf(Pk(a), true)], k);
  }

  lemma TooManySound(a: nat, k: nat)
    ensures Sound(TooMany(a, k), P2wsh)
  {
    var l := Cons(Pk(a), Nil);
    assert AllVerified(Nil) == Nil && AllVerified(l) == l;
    assert AllKeysFirst(Nil) && AllKeysFirst(l);
    assert AllFirstVerify(Nil, P2wsh) && AllFirstVerify(l, P2wsh);
  }

  /** The app accepts a policy that nobody can satisfy. */
  lemma TooManyUnsatisfiable(tx: Tx, a: nat, k: nat, items: Elements)
    requires k == 2
    ensures Sane(TooMany(a, k), P2wsh) && WaysOf(TooMany(a, k), true).sat == iset{}
    ensures !Accepts(tx, ScriptOf(TooMany(a, k), P2wsh), items)
  {
    TooManySane(a, k);
    TooManyWays(a, k);
    TooManySound(a, k);
    ScriptAcceptsIff(tx, TooMany(a, k), P2wsh, items);
  }
}
