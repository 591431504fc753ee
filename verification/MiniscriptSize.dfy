/**
 The size, the operation count and the x flag computed by the second pass are those of
 the Script that the expression translates to.
 */
module MiniscriptSize {
  import opened Wrappers
  import opened Miniscript
  import opened MiniscriptInfo
  import opened Scripts
  import opened MiniscriptConsistency

  // ---- measures of scripts ----

  /** Size and number of non-push operations. */
  predicate Measures(s: Script, bytes: nat, ops: nat) {
    Size(s) == bytes && NonPushes(s) == ops
  }

  lemma {:induction false} SizeConcat(a: Script, b: Script)
    ensures Size(a + b) == Size(a) + Size(b)
    decreases |b|
  {
    if |b| == 0 {
      assert a + b == a;
    } else {
      SizeConcat(a, b[..|b| - 1]);
      WithoutLast(a, b);
    }
  }

  lemma {:induction false} NonPushesConcat(a: Script, b: Script)
    ensures NonPushes(a + b) == NonPushes(a) + NonPushes(b)
    decreases |b|
  {
    if |b| == 0 {
      assert a + b == a;
    } else {
      NonPushesConcat(a, b[..|b| - 1]);
      WithoutLast(a, b);
    }
  }

  lemma WithoutLast(a: Script, b: Script)
    requires |b| > 0
    ensures var c := a + b;
            c[..|c| - 1] == a + b[..|b| - 1] && c[|c| - 1] == b[|b| - 1]
  {}

  lemma Concat(a: Script, b: Script)
    ensures Size(a + b) == Size(a) + Size(b) && NonPushes(a + b) == NonPushes(a) + NonPushes(b)
  {
    SizeConcat(a, b);
    NonPushesConcat(a, b);
  }

  lemma Atom(op: Op)
    ensures Measures([op], OpLength(op), if op.Push? then 0 else 1)
  {
    var s := [op];
    assert s[..|s| - 1] == [] && s[|s| - 1] == op;
    assert Size(s) == Size([]) + OpLength(op);
    assert NonPushes(s) == NonPushes([]) + (if op.Push? then 0 else 1);
  }

  /** An operation at the end. */
  lemma Append(a: Script, op: Op)
    ensures Measures(a + [op], Size(a) + OpLength(op), NonPushes(a) + (if op.Push? then 0 else 1))
  {
    Concat(a, [op]);
    Atom(op);
  }

  /** An operation at the front. */
  lemma Prepend(op: Op, a: Script)
    ensures Measures([op] + a, OpLength(op) + Size(a), (if op.Push? then 0 else 1) + NonPushes(a))
  {
    Concat([op], a);
    Atom(op);
  }

  lemma Two(p: Op, q: Op)
    ensures Measures([p, q], OpLength(p) + OpLength(q), (if p.Push? then 0 else 1) + (if q.Push? then 0 else 1))
  {
    Atom(p);
    Append([p], q);
    assert [p, q] == [p] + [q];
  }

  lemma Three(p: Op, q: Op, r: Op)
    ensures Measures([p, q, r], OpLength(p) + OpLength(q) + OpLength(r),
                     (if p.Push? then 0 else 1) + (if q.Push? then 0 else 1) + (if r.Push? then 0 else 1))
  {
    Atom(p);
    Append([p], q);
    Append([p] + [q], r);
    assert [p, q, r] == [p] + [q] + [r];
  }

  // ---- number pushes ----

  lemma NumberLength(n: nat)
    requires 1 <= n < 0x1_0000_0000
    ensures |NumberBytes(n)| == if n < 0x80 then 1 else if n < 0x8000 then 2 else if n < 0x80_0000 then 3 else if n < 0x8000_0000 then 4 else 5
  {
    if n >= 0x100 {
      var m := n / 256;
      assert |NumberBytes(n)| == 1 + |NumberBytes(m)|;
      if m >= 0x100 {
        var l := m / 256;
        assert |NumberBytes(m)| == 1 + |NumberBytes(l)|;
        if l >= 0x100 {
          assert |NumberBytes(l)| == 1 + |NumberBytes(l / 256)|;
        }
      }
    }
  }

  /** The size that the code computes for a push is the length of the minimal encoding. */
  lemma PushSizeIsLength(n: nat)
    requires n < 0x1_0000_0000
    ensures PushSize(n) == |PushNumber(n)|
  {
    if n > 16 {
      NumberLength(n);
    }
  }

  function LittleEndian(b: seq<byte>): nat {
    if |b| == 0 then 0 else b[0] + 256 * LittleEndian(b[1..])
  }

  /** The bytes of a number have its value, leave the sign bit clear, and could not be one fewer. */
  lemma {:induction false} NumberValue(n: nat)
    requires n > 0
    ensures var b := NumberBytes(n);
            && |b| > 0 && LittleEndian(b) == n && b[|b| - 1] < 0x80
            && (|b| == 1 || b[|b| - 1] > 0 || b[|b| - 2] >= 0x80)
  {
    var b := NumberBytes(n);
    if n < 0x80 {
      assert b[1..] == [];
    } else if n < 0x100 {
      assert b[1..] == [0] && b[1..][1..] == [] && LittleEndian(b[1..]) == 0;
    } else {
      NumberValue(n / 256);
      assert b[1..] == NumberBytes(n / 256);
    }
  }

  lemma NumMeasure(n: nat, ctx: Context)
    requires n < 0x1_0000_0000
    ensures Measures(Num(n, ctx), PushSize(n), 0)
  {
    PushSizeIsLength(n);
    Atom(PushOf(Number(n), ctx));
  }

  // ---- what each construct adds to its children ----

  function BinaryBytes(op: BinOp): nat {
    match op
    case AndV => 0
    case AndB => 1
    case AndN => 4
    case OrB => 1
    case OrC => 2
    case OrD => 3
    case OrI => 3
  }

  function BinaryOps(op: BinOp): nat {
    if op == AndN then 3 else BinaryBytes(op)
  }

  lemma AndOrMeasure(x: Script, y: Script, z: Script)
    ensures Measures(AndOrScript(x, y, z), 3 + Size(x) + Size(y) + Size(z), 3 + NonPushes(x) + NonPushes(y) + NonPushes(z))
  {
    var s1 := x + [Code(OpNotIf)];
    Append(x, Code(OpNotIf));
    Concat(s1, z);
    Append(s1 + z, Code(OpElse));
    Concat(s1 + z + [Code(OpElse)], y);
    Append(s1 + z + [Code(OpElse)] + y, Code(OpEndIf));
  }

  lemma BinaryMeasure(op: BinOp, x: Script, y: Script, ctx: Context)
    ensures Measures(BinaryScript(op, x, y, ctx), BinaryBytes(op) + Size(x) + Size(y), BinaryOps(op) + NonPushes(x) + NonPushes(y))
  {
    match op
    case AndV => Concat(x, y);
    case AndB => Concat(x, y); Append(x + y, Code(OpBoolAnd));
    case AndN => NumMeasure(0, ctx); AndOrMeasure(x, y, Num(0, ctx));
    case OrB => Concat(x, y); Append(x + y, Code(OpBoolOr));
    case OrC => Bracketed(x + [Code(OpNotIf)], y); Append(x, Code(OpNotIf));
    case OrD =>
      Two(Code(OpIfDup), Code(OpNotIf));
      Concat(x, [Code(OpIfDup), Code(OpNotIf)]);
      Bracketed(x + [Code(OpIfDup), Code(OpNotIf)], y);
    case OrI => IfElse(x, y);
  }

  lemma Bracketed(before: Script, x: Script)
    ensures Measures(before + x + [Code(OpEndIf)], Size(before) + Size(x) + 1, NonPushes(before) + NonPushes(x) + 1)
  {
    Concat(before, x);
    Append(before + x, Code(OpEndIf));
  }

  lemma IfElse(x: Script, y: Script)
    ensures Measures([Code(OpIf)] + x + [Code(OpElse)] + y + [Code(OpEndIf)], 3 + Size(x) + Size(y), 3 + NonPushes(x) + NonPushes(y))
  {
    Prepend(Code(OpIf), x);
    Append([Code(OpIf)] + x, Code(OpElse));
    Bracketed([Code(OpIf)] + x + [Code(OpElse)], y);
  }

  /** v adds a VERIFY unless it can be merged. */
  function WrapBytes(w: Wrapper, merges: bool): nat {
    match w
    case WrapA => 2
    case WrapS => 1
    case WrapC => 1
    case WrapT => 1
    case WrapD => 3
    case WrapV => if merges then 0 else 1
    case WrapJ => 4
    case WrapN => 1
    case WrapL => 4
    case WrapU => 4
  }

  function WrapOps(w: Wrapper, merges: bool): nat {
    match w
    case WrapT => 0
    case WrapL => 3
    case WrapU => 3
    case _ => WrapBytes(w, merges)
  }

  lemma VerifyMeasure(x: Script)
    ensures var extra := if CanMerge(x) then 0 else 1;
            Measures(Verify(x), Size(x) + extra, NonPushes(x) + extra)
  {
    if CanMerge(x) {
      var rest, last := x[..|x| - 1], x[|x| - 1];
      assert x == rest + [last];
      Append(rest, last);
      Append(rest, last.(verify := true));
    } else {
      Append(x, Code(OpVerify));
    }
  }

  lemma WrapMeasure(w: Wrapper, x: Script, ctx: Context)
    ensures Measures(WrapScript(w, x, ctx), WrapBytes(w, CanMerge(x)) + Size(x), WrapOps(w, CanMerge(x)) + NonPushes(x))
  {
    match w
    case WrapA => Prepend(Code(OpToAltStack), x); Append([Code(OpToAltStack)] + x, Code(OpFromAltStack));
    case WrapS => Prepend(Code(OpSwap), x);
    case WrapC => Append(x, Check(CheckSig, false));
    case WrapT => NumMeasure(1, ctx); Concat(x, Num(1, ctx));
    case WrapD => Two(Code(OpDup), Code(OpIf)); Bracketed([Code(OpDup), Code(OpIf)], x);
    case WrapV => VerifyMeasure(x);
    case WrapJ =>
      Three(Code(OpSize), Code(OpZeroNotEqual), Code(OpIf));
      Bracketed([Code(OpSize), Code(OpZeroNotEqual), Code(OpIf)], x);
    case WrapN => Append(x, Code(OpZeroNotEqual));
    case WrapL => NumMeasure(0, ctx); IfElse(Num(0, ctx), x);
    case WrapU => NumMeasure(0, ctx); IfElse(x, Num(0, ctx));
  }

  // ---- 16-bit sums ----

  lemma {:induction false} U16IsRemainder(n: nat)
    ensures U16(n) == n % 65536
  {
    if n >= 65536 {
      U16IsRemainder(n - 65536);
    }
  }

  lemma {:induction false} U16Sum1(c: nat, a: nat)
    ensures U16(c + U16(a)) == U16(c + a)
    decreases a
  {
    if a >= 65536 {
      U16Sum1(c, a - 65536);
    }
  }

  lemma U16Sum(c: nat, a: nat, b: nat)
    ensures U16(c + U16(a) + U16(b)) == U16(c + a + b)
  {
    U16Sum1(c + U16(a), b);
    U16Sum1(c + b, a);
  }

  lemma U16Sum3(c: nat, a: nat, b: nat, d: nat)
    ensures U16(c + U16(a) + U16(b) + U16(d)) == U16(c + a + b + d)
  {
    U16Sum(c + U16(d), a, b);
    U16Sum1(c + a + b, d);
  }

  // ---- the second pass ----

  lemma BinaryInfoMeasure(op: BinOp, x: Info, y: Info)
    ensures BinaryInfo(op, x, y).size == U16(BinaryBytes(op) + x.size + y.size)
    ensures BinaryInfo(op, x, y).ops.count == U16(BinaryOps(op) + x.ops.count + y.ops.count)
    ensures BinaryInfo(op, x, y).x <==> (op == AndV ==> y.x)
  {
    match op
    case AndV =>
    case AndB =>
    case AndN =>
    case OrB =>
    case OrC =>
    case OrD =>
    case OrI =>
  }

  lemma WrapInfoMeasure(w: Wrapper, x: Info)
    requires x.ops.count < 65536
    ensures WrapInfo(w, x).size == U16(WrapBytes(w, !x.x) + x.size)
    ensures WrapInfo(w, x).ops.count == U16(WrapOps(w, !x.x) + x.ops.count)
    ensures WrapInfo(w, x).x <==> !(w == WrapC || (w == WrapS && !x.x))
  {
    match w
    case WrapA =>
    case WrapS =>
    case WrapC =>
    case WrapT =>
    case WrapD =>
    case WrapV =>
    case WrapJ =>
    case WrapN =>
    case WrapL =>
    case WrapU =>
  }

  /** What the second pass knows about a script. */
  predicate Matches(i: Info, s: Script) {
    && i.size == U16(Size(s))
    && i.ops.count == U16(NonPushes(s))
    && (i.x <==> !CanMerge(s))
    && |s| > 0
  }

  lemma BinaryLast(op: BinOp, x: Script, y: Script, ctx: Context)
    requires |y| > 0
    ensures var s := BinaryScript(op, x, y, ctx);
            |s| > 0 && (CanMerge(s) <==> op == AndV && CanMerge(y))
  {
    match op
    case AndV =>
    case AndB =>
    case AndN =>
    case OrB =>
    case OrC =>
    case OrD =>
    case OrI =>
  }

  /** From sums of sizes to a match. */
  lemma MatchesBySums(i: Info, s: Script, bytes: nat, ops: nat, x: Script, y: Script, xi: Info, yi: Info)
    requires Matches(xi, x) && Matches(yi, y)
    requires i.size == U16(bytes + xi.size + yi.size) && i.ops.count == U16(ops + xi.ops.count + yi.ops.count)
    requires Measures(s, bytes + Size(x) + Size(y), ops + NonPushes(x) + NonPushes(y))
    requires |s| > 0 && (i.x <==> !CanMerge(s))
    ensures Matches(i, s)
  {
    U16Sum(bytes, Size(x), Size(y));
    U16Sum(ops, NonPushes(x), NonPushes(y));
  }

  lemma BinaryMatches(op: BinOp, x: Script, y: Script, xi: Info, yi: Info, ctx: Context)
    requires Matches(xi, x) && Matches(yi, y)
    ensures Matches(BinaryInfo(op, xi, yi), BinaryScript(op, x, y, ctx))
  {
    BinaryMeasure(op, x, y, ctx);
    BinaryLast(op, x, y, ctx);
    BinaryInfoMeasure(op, xi, yi);
    MatchesBySums(BinaryInfo(op, xi, yi), BinaryScript(op, x, y, ctx), BinaryBytes(op), BinaryOps(op), x, y, xi, yi);
  }

  lemma AndOrMatches(x: Script, y: Script, z: Script, xi: Info, yi: Info, zi: Info)
    requires Matches(xi, x) && Matches(yi, y) && Matches(zi, z)
    ensures Matches(AndOrInfo(xi, yi, zi), AndOrScript(x, y, z))
  {
    AndOrMeasure(x, y, z);
    U16Sum3(3, Size(x), Size(y), Size(z));
    U16Sum3(3, NonPushes(x), NonPushes(y), NonPushes(z));
  }

  lemma WrapLast(w: Wrapper, x: Script, ctx: Context)
    requires |x| > 0
    ensures var s := WrapScript(w, x, ctx);
            |s| > 0 && (CanMerge(s) <==> w == WrapC || (w == WrapS && CanMerge(x)))
  {
    match w
    case WrapA =>
    case WrapS =>
    case WrapC =>
    case WrapT =>
    case WrapD =>
    case WrapV =>
    case WrapJ =>
    case WrapN =>
    case WrapL =>
    case WrapU =>
  }

  lemma MatchesBySum(i: Info, s: Script, bytes: nat, ops: nat, x: Script, xi: Info)
    requires Matches(xi, x)
    requires i.size == U16(bytes + xi.size) && i.ops.count == U16(ops + xi.ops.count)
    requires Measures(s, bytes + Size(x), ops + NonPushes(x))
    requires |s| > 0 && (i.x <==> !CanMerge(s))
    ensures Matches(i, s)
  {
    U16Sum1(bytes, Size(x));
    U16Sum1(ops, NonPushes(x));
  }

  lemma WrapMatches(w: Wrapper, x: Script, xi: Info, ctx: Context)
    requires Matches(xi, x)
    ensures Matches(WrapInfo(w, xi), WrapScript(w, x, ctx))
  {
    WrapMeasure(w, x, ctx);
    WrapLast(w, x, ctx);
    WrapInfoMeasure(w, xi);
    MatchesBySum(WrapInfo(w, xi), WrapScript(w, x, ctx), WrapBytes(w, CanMerge(x)), WrapOps(w, CanMerge(x)), x, xi);
  }

  // ---- leaves ----

  lemma {:induction false} PushKeysMeasure(keys: seq<nat>)
    ensures Measures(PushKeys(keys, P2wsh), 34 * |keys|, 0)
    decreases |keys|
  {
    if |keys| > 0 {
      var last := |keys| - 1;
      PushKeysMeasure(keys[..last]);
      Append(PushKeys(keys[..last], P2wsh), PushOf(KeyBytes(keys[last]), P2wsh));
    }
  }

  lemma {:induction false} CheckSigAddsMeasure(keys: seq<nat>)
    ensures Measures(CheckSigAdds(keys, Tapscript), 34 * |keys|, |keys|)
    decreases |keys|
  {
    if |keys| > 0 {
      var last := |keys| - 1;
      CheckSigAddsMeasure(keys[..last]);
      var push, check := PushOf(KeyBytes(keys[last]), Tapscript), if last == 0 then Check(CheckSig, false) else Code(OpCheckSigAdd);
      var before := CheckSigAdds(keys[..last], Tapscript);
      Append(before, push);
      Append(before + [push], check);
      assert before + [push, check] == before + [push] + [check];
    }
  }

  lemma MultiMatches(k: nat, keys: seq<nat>)
    requires k <= |keys| <= MAX_MULTISIG_KEYS
    ensures Matches(MultiInfo(k, |keys|).value, MultiScript(k, keys, P2wsh))
  {
    PushKeysMeasure(keys);
    NumMeasure(k, P2wsh);
    NumMeasure(|keys|, P2wsh);
    Concat(Num(k, P2wsh), PushKeys(keys, P2wsh));
    Concat(Num(k, P2wsh) + PushKeys(keys, P2wsh), Num(|keys|, P2wsh));
    Append(Num(k, P2wsh) + PushKeys(keys, P2wsh) + Num(|keys|, P2wsh), Check(CheckMultiSig, false));
  }

  lemma MultiAMatches(k: nat, keys: seq<nat>)
    requires k <= |keys| <= MAX_MULTISIG_KEYS
    ensures Matches(MultiAInfo(k, |keys|).value, MultiAScript(k, keys, Tapscript))
  {
    CheckSigAddsMeasure(keys);
    NumMeasure(k, Tapscript);
    Concat(CheckSigAdds(keys, Tapscript), Num(k, Tapscript));
    Append(CheckSigAdds(keys, Tapscript) + Num(k, Tapscript), Check(NumEqual, false));
  }

  lemma TimelockMatches(n: nat, ctx: Context)
    requires n < 0x8000_0000
    ensures Matches(OlderInfo(n), Num(n, ctx) + [Code(OpCheckSequenceVerify)])
    ensures Matches(AfterInfo(n), Num(n, ctx) + [Code(OpCheckLockTimeVerify)])
  {
    NumMeasure(n, ctx);
    Append(Num(n, ctx), Code(OpCheckSequenceVerify));
    Append(Num(n, ctx), Code(OpCheckLockTimeVerify));
  }

  lemma HashLockMeasure(kind: HashKind, image: nat, ctx: Context)
    ensures Measures(HashLockScript(kind, image, ctx), if kind == Sha256 || kind == Hash256 then 39 else 27, 4)
  {
    var a, b := [Code(OpSize), PushOf(Number(32), ctx), Check(Equal, true)], [Code(OpHash(kind)), PushOf(Image(kind, image), ctx), Check(Equal, false)];
    PushSizeIsLength(32);
    Three(a[0], a[1], a[2]);
    Three(b[0], b[1], b[2]);
    Concat(a, b);
    assert HashLockScript(kind, image, ctx) == a + b;
  }

  lemma KeyHashMeasure(key: nat, ctx: Context)
    ensures Measures(PkHScript(key, ctx), 24, 3)
  {
    var a := [Code(OpDup), Code(OpHash(Hash160)), PushOf(KeyHash(key), ctx)];
    Three(a[0], a[1], a[2]);
    Append(a, Check(Equal, true));
    assert PkHScript(key, ctx) == a + [Check(Equal, true)];
  }

  lemma KeyMatches(e: Expr, ctx: Context)
    requires e.PkK? || e.PkH? || e.Pk? || e.Pkh?
    ensures Matches(InfoOf(e, ctx).value, Translate(e, ctx))
  {
    var push := PushOf(KeyBytes(e.key), ctx);
    Atom(push);
    Append([push], Check(CheckSig, false));
    assert [push, Check(CheckSig, false)] == [push] + [Check(CheckSig, false)];
    KeyHashMeasure(e.key, ctx);
    Append(PkHScript(e.key, ctx), Check(CheckSig, false));
  }

  lemma LeafMatches(e: Expr, ctx: Context)
    requires !e.AndOr? && !e.Binary? && !e.Thresh? && !e.Wrap? && Accepted(e, ctx)
    ensures Matches(InfoOf(e, ctx).value, Translate(e, ctx))
  {
    match e
    case Multi(k, keys) => MultiMatches(k, keys);
    case MultiA(k, keys) => MultiAMatches(k, keys);
    case Older(n) => TimelockMatches(n, ctx);
    case After(n) => TimelockMatches(n, ctx);
    case HashLock(kind, image) => HashLockMeasure(kind, image, ctx);
    case Zero => NumMeasure(0, ctx);
    case One => NumMeasure(1, ctx);
    case _ => KeyMatches(e, ctx);
  }

  // ---- thresh ----

  /** What the running sums of thresh know about [X1] [X2] ADD ...; `missing` is 1 without an ADD for X1. */
  predicate SumMatches(subs: seq<Info>, s: Script, missing: nat) {
    U16(SumSizes(subs) + |subs|) == U16(Size(s) + missing) && SumOps(subs) == U16(NonPushes(s) + missing)
  }

  lemma SumMeasure(x: Script, y: Script, first: bool)
    ensures var extra := if first then 0 else 1;
            Measures(x + (if first then [] else [Code(OpAdd)]) + y, extra + Size(x) + Size(y), extra + NonPushes(x) + NonPushes(y))
  {
    if first {
      assert x + [] + y == x + y;
      Concat(x, y);
    } else {
      Append(x, Code(OpAdd));
      Concat(x + [Code(OpAdd)], y);
    }
  }

  lemma SumStep(i: Info, rest: seq<Info>, x: Script, y: Script, first: bool)
    requires Matches(i, x) && SumMatches(rest, y, 0)
    ensures SumMatches([i] + rest, x + (if first then [] else [Code(OpAdd)]) + y, if first then 1 else 0)
  {
    assert ([i] + rest)[1..] == rest;
    SumMeasure(x, y, first);
    U16Sum(1, Size(x), Size(y));
    U16Sum1(1 + i.size, SumSizes(rest) + |rest|);
    U16Sum(1, NonPushes(x), NonPushes(y));
  }

  lemma ThreshMatches(k: nat, subs: seq<Info>, s: Script, ctx: Context)
    requires ThreshInfo(k, Some(subs)).Some? && SumMatches(subs, s, 1)
    ensures Matches(ThreshInfo(k, Some(subs)).value, s + Num(k, ctx) + [Check(Equal, false)])
  {
    NumMeasure(k, ctx);
    Concat(s, Num(k, ctx));
    Append(s + Num(k, ctx), Check(Equal, false));
    U16Sum1(PushSize(k), SumSizes(subs) + |subs|);
    U16Sum1(PushSize(k), Size(s) + 1);
  }

  lemma {:induction false} SumsMatch(l: Exprs, first: bool, ctx: Context)
    requires CountSubs(l, first, ctx).Some? && InfosOf(l, ctx).Some?
    ensures SumMatches(InfosOf(l, ctx).value, TranslateSum(l, first, ctx), if first && l.Cons? then 1 else 0)
    decreases l
  {
    match l
    case Nil =>
    case Cons(head, tail) =>
      EveryMatches(head, ctx);
      SumsMatch(tail, false, ctx);
      SumStep(InfoOf(head, ctx).value, InfosOf(tail, ctx).value, Translate(head, ctx), TranslateSum(tail, false, ctx), first);
  }

  // ---- all expressions ----

  /** The second pass measures the translation of every accepted expression. */
  lemma {:induction false} EveryMatches(e: Expr, ctx: Context)
    requires Accepted(e, ctx)
    ensures Matches(InfoOf(e, ctx).value, Translate(e, ctx))
    decreases e
  {
    match e
    case AndOr(x, y, z) =>
      EveryMatches(x, ctx);
      EveryMatches(y, ctx);
      EveryMatches(z, ctx);
      AndOrMatches(Translate(x, ctx), Translate(y, ctx), Translate(z, ctx),
                   InfoOf(x, ctx).value, InfoOf(y, ctx).value, InfoOf(z, ctx).value);
    case Binary(op, x, y) =>
      EveryMatches(x, ctx);
      EveryMatches(y, ctx);
      BinaryMatches(op, Translate(x, ctx), Translate(y, ctx), InfoOf(x, ctx).value, InfoOf(y, ctx).value, ctx);
    case Wrap(w, x) =>
      EveryMatches(x, ctx);
      WrapMatches(w, Translate(x, ctx), InfoOf(x, ctx).value, ctx);
    case Thresh(k, subs) =>
      SumsMatch(subs, true, ctx);
      ThreshMatches(k, InfosOf(subs, ctx).value, TranslateSum(subs, true, ctx), ctx);
    case _ =>
      LeafMatches(e, ctx);
  }

  /**
   For every accepted expression: the size and the operation count are those of its Script,
   modulo 2^16 and exactly when they fit, and x is false exactly when the last operation has a
   VERIFY form.
   */
  lemma SizeOfAccepted(e: Expr, ctx: Context)
    requires Accepted(e, ctx)
    ensures var i, s := InfoOf(e, ctx).value, Translate(e, ctx);
            && i.size == Size(s) % 65536
            && i.ops.count == NonPushes(s) % 65536
            && |s| > 0
            && (!i.x <==> HasVerifyForm(s[|s| - 1]))
            && (Size(s) < 65536 ==> i.size == Size(s))
            && (NonPushes(s) < 65536 ==> i.ops.count == NonPushes(s))
  {
    EveryMatches(e, ctx);
    MatchesMeasures(InfoOf(e, ctx).value, Translate(e, ctx));
  }

  lemma MatchesMeasures(i: Info, s: Script)
    requires Matches(i, s)
    ensures i.size == Size(s) % 65536 && i.ops.count == NonPushes(s) % 65536
    ensures |s| > 0 && (!i.x <==> HasVerifyForm(s[|s| - 1]))
  {
    U16IsRemainder(Size(s));
    U16IsRemainder(NonPushes(s));
  }
}
