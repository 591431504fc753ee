/** The scripts of the single fragments do what their ways say. */
module MiniscriptFragments {
  import opened Miniscript
  import opened MiniscriptWays
  import opened MiniscriptShape
  import opened Scripts
  import opened ScriptMachine
  import opened MiniscriptExecution

  // ---- and_b, or_b ----

  function BoolCode(conj: bool): Opcode {
    if conj then OpBoolAnd else OpBoolOr
  }

  function BoolOp(conj: bool): BinOp {
    if conj then AndB else OrB
  }

  predicate Combine(conj: bool, a: bool, b: bool) {
    if conj then a && b else a || b
  }

  lemma ExecBool(tx: Tx, conj: bool, base: Elements, p: Element, q: Element, alt: Elements)
    requires AsNumber(p).Some? && AsNumber(q).Some?
    ensures Exec(tx, [Code(BoolCode(conj))], base + [p, q], alt) == Running(base + [Truth(Combine(conj, p != Empty, q != Empty))], alt, [])
  {
    var full := base + [p, q];
    ExecOne(tx, Code(BoolCode(conj)), full, alt);
    assert full[..|full| - 2] == base;
  }

  lemma ExecThree(tx: Tx, x: Script, y: Script, z: Script, stack: Elements, alt: Elements)
    requires Proper(tx, x) && Proper(tx, y)
    ensures var m := Exec(tx, x, stack, alt);
            Exec(tx, x + y + z, stack, alt) == if m.Failed? then Failed else Exec(tx, y + z, m.stack, m.alt)
  {
    assert x + y + z == x + (y + z);
    ExecConcat(tx, x, y + z, stack, alt);
  }

  /** Two expressions, one of them beside the answer of the other, and the operation on their answers. */
  lemma BoolDoes(tx: Tx, x: Script, y: Script, conj: bool, u: bool, xp: Both, yp: Both)
    requires Does(tx, x, false, false, xp) && DoesBeside(tx, y, u, yp)
    ensures Does(tx, x + y + [Code(BoolCode(conj))], false, true, BinaryWays(BoolOp(conj), xp, yp, true))
  {
    var last := [Code(BoolCode(conj))];
    var p := BinaryWays(BoolOp(conj), xp, yp, true);
    ProperOne(tx, Code(BoolCode(conj)));
    ProperConcat(tx, x, y);
    ProperConcat(tx, x + y, last);
    forall stack, alt
      ensures Sound(tx, x + y + last, false, true, p, stack, alt)
    {
      BoolSound(tx, x, y, conj, u, xp, yp, stack, alt);
    }
    forall base, w, sat, alt
      ensures Complete(tx, x + y + last, false, true, p, base, w, sat, alt)
    {
      BoolComplete(tx, x, y, conj, u, xp, yp, base, w, sat, alt);
    }
  }

  /** The operation on an answer and the element beside it. */
  lemma ExecAnswers(tx: Tx, conj: bool, u: bool, base: Elements, t: Element, sat: bool, after: Elements, alt: Elements)
    requires LeavesBeside(u, base, t, sat, after) && AsNumber(t).Some?
    ensures Exec(tx, [Code(BoolCode(conj))], after, alt) == Running(base + [Truth(Combine(conj, t != Empty, sat))], alt, [])
  {
    ExecBool(tx, conj, base, after[|base|], after[|base| + 1], alt);
    assert after == base + [after[|base|], after[|base| + 1]];
  }

  lemma BoolSound(tx: Tx, x: Script, y: Script, conj: bool, u: bool, xp: Both, yp: Both, stack: Elements, alt: Elements)
    requires Does(tx, x, false, false, xp) && DoesBeside(tx, y, u, yp)
    ensures Sound(tx, x + y + [Code(BoolCode(conj))], false, true, BinaryWays(BoolOp(conj), xp, yp, true), stack, alt)
  {
    var last := [Code(BoolCode(conj))];
    ExecThree(tx, x, y, last, stack, alt);
    var m := Exec(tx, x + y + last, stack, alt);
    if m.Running? {
      var mid, a, first := Explained(tx, x, false, false, xp, stack, alt);
      var t := Exec(tx, x, stack, alt).stack[|mid|];
      ExecConcat(tx, y, last, mid + [t], alt);
      var base, b, second := ExplainedBeside(tx, y, u, yp, mid, t, alt);
      ExecAnswers(tx, conj, u, base, t, second, Exec(tx, y, mid + [t], alt).stack, alt);
      HeldJoin(tx, b, a);
      StackJoin(base, b, a);
      assert Join(b, a) in Each(Side(yp, second), Side(xp, first));
      assert Explains(tx, false, true, BinaryWays(BoolOp(conj), xp, yp, true), stack, m.stack, base, Join(b, a), Combine(conj, first, second));
    }
  }

  lemma BoolSplit(conj: bool, xp: Both, yp: Both, w: Way, sat: bool) returns (b: Way, a: Way, first: bool, second: bool)
    requires w in Side(BinaryWays(BoolOp(conj), xp, yp, true), sat)
    ensures b in Side(yp, second) && a in Side(xp, first) && w == Join(b, a) && Combine(conj, first, second) == sat
  {
    if w in Each(yp.sat, xp.sat) && Combine(conj, true, true) == sat {
      first, second := true, true;
    } else if w in Each(yp.sat, xp.dsat) && Combine(conj, false, true) == sat {
      first, second := false, true;
    } else if w in Each(yp.dsat, xp.sat) && Combine(conj, true, false) == sat {
      first, second := true, false;
    } else {
      first, second := false, false;
    }
    assert w in Each(Side(yp, second), Side(xp, first));
    b, a :| b in Side(yp, second) && a in Side(xp, first) && w == Join(b, a);
  }

  lemma BoolComplete(tx: Tx, x: Script, y: Script, conj: bool, u: bool, xp: Both, yp: Both,
                     base: Elements, w: Way, sat: bool, alt: Elements)
    requires Does(tx, x, false, false, xp) && DoesBeside(tx, y, u, yp)
    ensures Complete(tx, x + y + [Code(BoolCode(conj))], false, true, BinaryWays(BoolOp(conj), xp, yp, true), base, w, sat, alt)
  {
    if w in Side(BinaryWays(BoolOp(conj), xp, yp, true), sat) && Held(tx, w.locks) {
      var last := [Code(BoolCode(conj))];
      var b, a, first, second := BoolSplit(conj, xp, yp, w, sat);
      HeldJoin(tx, b, a);
      StackJoin(base, b, a);
      assert Complete(tx, x, false, false, xp, base + b.items, a, first, alt);
      var t := Exec(tx, x, base + b.items + a.items, alt).stack[|base + b.items|];
      assert CompleteBeside(tx, y, u, yp, base, t, b, second, alt);
      ExecThree(tx, x, y, last, base + w.items, alt);
      ExecConcat(tx, y, last, base + b.items + [t], alt);
      ExecAnswers(tx, conj, u, base, t, second, Exec(tx, y, base + b.items + [t], alt).stack, alt);
    }
  }

  // ---- an operation on the answer: v, n ----

  lemma ExecAfter(tx: Tx, x: Script, op: Op, stack: Elements, alt: Elements)
    requires Proper(tx, x)
    ensures var m := Exec(tx, x, stack, alt);
            Exec(tx, x + [op], stack, alt) == if m.Failed? then Failed else ActStep(tx, op, m)
  {
    ExecConcat(tx, x, [op], stack, alt);
    var m := Exec(tx, x, stack, alt);
    if m.Running? {
      ProperEnds(tx, x, stack, alt);
      ExecOne(tx, op, m.stack, m.alt);
    }
  }

  /** Of an answer, VERIFY goes on with 1 only and takes it off. */
  lemma VerifyAnswer(tx: Tx, u: bool, base: Elements, sat: bool, m: Machine)
    requires m.Running? && m.conds == [] && Leaves(false, u, base, sat, m.stack)
    ensures ActStep(tx, Code(OpVerify), m) == if sat then Running(base, m.alt, []) else Failed
  {
    assert m.stack[..|base|] == base;
  }

  lemma VerifyDoes(tx: Tx, x: Script, u: bool, p: Both)
    requires Does(tx, x, false, u, p)
    ensures Does(tx, Verify(x), true, false, Both(p.sat, iset{}))
  {
    var q := Both(p.sat, iset{});
    ProperVerify(tx, x);
    forall stack, alt
      ensures Sound(tx, Verify(x), true, false, q, stack, alt)
    {
      RunVerify(tx, x, Running(stack, alt, []));
      ExecAfter(tx, x, Code(OpVerify), stack, alt);
      ProperEnds(tx, x, stack, alt);
      var m := Exec(tx, Verify(x), stack, alt);
      if m.Running? {
        var base, w, sat := Explained(tx, x, false, u, p, stack, alt);
        VerifyAnswer(tx, u, base, sat, Exec(tx, x, stack, alt));
        assert Explains(tx, true, false, q, stack, m.stack, base, w, true);
      }
    }
    forall base, w, sat, alt
      ensures Complete(tx, Verify(x), true, false, q, base, w, sat, alt)
    {
      RunVerify(tx, x, Running(base + w.items, alt, []));
      ExecAfter(tx, x, Code(OpVerify), base + w.items, alt);
      ProperEnds(tx, x, base + w.items, alt);
      assert Complete(tx, x, false, u, p, base, w, true, alt);
      if w in p.sat && Held(tx, w.locks) {
        VerifyAnswer(tx, u, base, true, Exec(tx, x, base + w.items, alt));
      }
    }
  }

  lemma NonZeroAnswer(tx: Tx, u: bool, base: Elements, sat: bool, m: Machine)
    requires m.Running? && m.conds == [] && Leaves(false, u, base, sat, m.stack)
    ensures ActStep(tx, Code(OpZeroNotEqual), m) == Running(base + [Truth(sat)], m.alt, [])
  {
    assert m.stack[..|base|] == base;
  }

  lemma NonZeroDoes(tx: Tx, x: Script, u: bool, p: Both)
    requires Does(tx, x, false, u, p)
    ensures Does(tx, x + [Code(OpZeroNotEqual)], false, true, p)
  {
    var s := x + [Code(OpZeroNotEqual)];
    ProperOne(tx, Code(OpZeroNotEqual));
    ProperConcat(tx, x, [Code(OpZeroNotEqual)]);
    forall stack, alt
      ensures Sound(tx, s, false, true, p, stack, alt)
    {
      ExecAfter(tx, x, Code(OpZeroNotEqual), stack, alt);
      ProperEnds(tx, x, stack, alt);
      var m := Exec(tx, s, stack, alt);
      if m.Running? {
        var base, w, sat := Explained(tx, x, false, u, p, stack, alt);
        NonZeroAnswer(tx, u, base, sat, Exec(tx, x, stack, alt));
        assert Explains(tx, false, true, p, stack, m.stack, base, w, sat);
      }
    }
    forall base, w, sat, alt
      ensures Complete(tx, s, false, true, p, base, w, sat, alt)
    {
      ExecAfter(tx, x, Code(OpZeroNotEqual), base + w.items, alt);
      ProperEnds(tx, x, base + w.items, alt);
      assert Complete(tx, x, false, u, p, base, w, sat, alt);
      if w in Side(p, sat) && Held(tx, w.locks) {
        NonZeroAnswer(tx, u, base, sat, Exec(tx, x, base + w.items, alt));
      }
    }
  }

  // ---- blocks ----

  /** What follows a block follows the part that runs. */
  lemma BlockThen(tx: Tx, code: Opcode, s: Script, t: Script, fin: Script, base: Elements, tag: Element, alt: Elements)
    requires IsIf(code) && Proper(tx, s) && Proper(tx, t) && (tag == True || tag == Empty)
    ensures Exec(tx, Block(code, s, t) + fin, base + [tag], alt) ==
              Exec(tx, (if (tag == True) == (code == OpIf) then s else t) + fin, base, alt)
  {
    ExecBlock(tx, code, s, t);
    ExecConcat(tx, Block(code, s, t), fin, base + [tag], alt);
    ExecConcat(tx, s, fin, base, alt);
    ExecConcat(tx, t, fin, base, alt);
    assert (base + [tag])[..|base|] == base;
  }

  lemma BlockNeedsTag(tx: Tx, code: Opcode, s: Script, t: Script, fin: Script)
    requires IsIf(code) && Proper(tx, s) && Proper(tx, t)
    ensures NeedsTag(tx, Block(code, s, t) + fin)
  {
    ExecBlock(tx, code, s, t);
    forall stack, alt | Exec(tx, Block(code, s, t) + fin, stack, alt).Running?
      ensures Tagged(stack)
    {
      ExecConcat(tx, Block(code, s, t), fin, stack, alt);
    }
  }

  /** IF [y] ELSE [z] ENDIF, with what follows it. */
  lemma IfDoes(tx: Tx, y: Script, z: Script, fin: Script, v: bool, u: bool, yp: Both, zp: Both)
    requires Proper(tx, y) && Proper(tx, z) && Proper(tx, fin) && Does(tx, y + fin, v, u, yp) && Does(tx, z + fin, v, u, zp)
    ensures Does(tx, Block(OpIf, y, z) + fin, v, u, BinaryWays(OrI, yp, zp, true))
  {
    var r := Block(OpIf, y, z) + fin;
    ExecBlock(tx, OpIf, y, z);
    ProperConcat(tx, Block(OpIf, y, z), fin);
    BlockNeedsTag(tx, OpIf, y, z, fin);
    forall base, alt
      ensures Exec(tx, r, base + [True], alt) == Exec(tx, y + fin, base, alt)
      ensures Exec(tx, r, base + [Empty], alt) == Exec(tx, z + fin, base, alt)
    {
      BlockThen(tx, OpIf, y, z, fin, base, True, alt);
      BlockThen(tx, OpIf, y, z, fin, base, Empty, alt);
    }
    TagDoes(tx, r, y + fin, z + fin, v, u, yp, zp);
  }

  /** [x] NOTIF [z] ELSE [y] ENDIF, with what follows it. */
  lemma AndOrDoes(tx: Tx, x: Script, y: Script, z: Script, fin: Script, v: bool, u: bool, xp: Both, yp: Both, zp: Both)
    requires Does(tx, x, false, true, xp) && Proper(tx, y) && Proper(tx, z) && Proper(tx, fin)
    requires Does(tx, y + fin, v, u, yp) && Does(tx, z + fin, v, u, zp)
    ensures Proper(tx, AndOrScript(x, y, z)) && Does(tx, AndOrScript(x, y, z) + fin, v, u, AndOrWays(xp, yp, zp, true))
  {
    var r := Block(OpNotIf, z, y) + fin;
    ExecBlock(tx, OpNotIf, z, y);
    ProperConcat(tx, x, Block(OpNotIf, z, y));
    ProperConcat(tx, Block(OpNotIf, z, y), fin);
    forall base, alt
      ensures Exec(tx, r, base + [True], alt) == Exec(tx, y + fin, base, alt)
      ensures Exec(tx, r, base + [Empty], alt) == Exec(tx, z + fin, base, alt)
    {
      BlockThen(tx, OpNotIf, z, y, fin, base, True, alt);
      BlockThen(tx, OpNotIf, z, y, fin, base, Empty, alt);
    }
    CaseDoes(tx, x, r, y + fin, z + fin, v, u, xp, yp, zp);
    AndOrIsBlock(x, y, z, fin);
  }

  lemma AndOrIsBlock(x: Script, y: Script, z: Script, fin: Script)
    ensures AndOrScript(x, y, z) == x + Block(OpNotIf, z, y)
    ensures AndOrScript(x, y, z) + fin == x + (Block(OpNotIf, z, y) + fin)
  {
    var a, b, c := [Code(OpNotIf)], [Code(OpElse)], [Code(OpEndIf)];
    assert x + a + z + b + y + c == x + (a + z + b + y + c);
  }

  lemma ShortChooses(tx: Tx, z: Script, base: Elements, alt: Elements)
    requires Proper(tx, z)
    ensures Exec(tx, ShortBlock(OpNotIf, z), base + [True], alt) == Running(base, alt, [])
    ensures Exec(tx, ShortBlock(OpNotIf, z), base + [Empty], alt) == Exec(tx, z, base, alt)
    ensures Exec(tx, ShortBlock(OpIf, z), base + [True], alt) == Exec(tx, z, base, alt)
    ensures Exec(tx, ShortBlock(OpIf, z), base + [Empty], alt) == Running(base, alt, [])
  {
    ExecShort(tx, OpNotIf, z);
    ExecShort(tx, OpIf, z);
    assert forall tag :: (base + [tag])[..|base|] == base;
  }

  // ---- pushes ----

  lemma PushDoes(tx: Tx, ctx: Context, sat: bool, u: bool)
    ensures Does(tx, Num(if sat then 1 else 0, ctx), false, u, if sat then Both(Just([]), iset{}) else Both(iset{}, Just([])))
  {
    var op := PushOf(Number(if sat then 1 else 0), ctx);
    var p := if sat then Both(Just([]), iset{}) else Both(iset{}, Just([]));
    ProperOne(tx, op);
    forall stack, alt
      ensures Sound(tx, [op], false, u, p, stack, alt)
    {
      ExecOne(tx, op, stack, alt);
      assert stack == stack + Nothing.items;
      assert Explains(tx, false, u, p, stack, stack + [Truth(sat)], stack, Nothing, sat);
    }
    forall base, w, side, alt
      ensures Complete(tx, [op], false, u, p, base, w, side, alt)
    {
      ExecOne(tx, op, base + w.items, alt);
      if w in Side(p, side) {
        assert base + w.items == base;
      }
    }
  }

  /** The empty script is of type V. */
  lemma NoneDoes(tx: Tx)
    ensures Does(tx, [], true, false, Both(Just([]), iset{}))
  {
    var p := Both(Just([]), iset{});
    ProperNone(tx);
    forall stack, alt
      ensures Sound(tx, [], true, false, p, stack, alt)
    {
      assert stack == stack + Nothing.items;
      assert Explains(tx, true, false, p, stack, stack, stack, Nothing, true);
    }
    forall base, w, side, alt
      ensures Complete(tx, [], true, false, p, base, w, side, alt)
    {
      if w in Side(p, side) {
        assert base + w.items == base;
      }
    }
  }

  lemma JustNothing(A: Ways)
    ensures Just([]) == iset{Nothing} && Each(Just([]), A) == A && Each(A, Just([])) == A
    ensures Each(iset{}, A) == iset{} && Each(A, iset{}) == iset{}
  {
    EachNothing(A);
  }

  /** and_n, or_c and or_d are andor with a constant. */
  lemma CaseWays(x: Both, y: Both)
    ensures AndOrWays(x, y, Both(iset{}, Just([])), true) == BinaryWays(AndN, x, y, true)
    ensures AndOrWays(x, Both(Just([]), iset{}), y, true) == BinaryWays(OrD, x, y, true)
    ensures y.dsat == iset{} ==> BinaryWays(OrD, x, y, true) == BinaryWays(OrC, x, y, true)
  {
    JustNothing(x.sat);
    JustNothing(x.dsat);
    NoneMore(x.sat);
    NoneMore(Each(y.sat, x.sat));
    NoneMore(Each(y.dsat, x.dsat));
  }

  lemma NoneMore(A: Ways)
    ensures A + iset{} == A && iset{} + A == A
  {}

  /** The two parts of or_i under the elements that choose them. */
  ghost function Either(x: Both, z: Both, T: Ways, E: Ways): Both {
    Both(Each(x.sat, T) + Each(z.sat, E), Each(x.dsat, T) + Each(z.dsat, E))
  }

  lemma EitherZero(p: Both, T: Ways, E: Ways)
    ensures Either(Both(iset{}, Just([])), p, T, E) == Both(Each(p.sat, E), T + Each(p.dsat, E))
    ensures Either(p, Both(iset{}, Just([])), T, E) == Both(Each(p.sat, T), Each(p.dsat, T) + E)
  {
    JustNothing(T);
    JustNothing(E);
    NoneMore(Each(p.sat, T));
    NoneMore(Each(p.sat, E));
  }

  lemma EitherDup(A: Ways, T: Ways, E: Ways)
    ensures Either(Both(A, iset{}), Both(iset{}, Just([])), T, E) == Both(Each(A, T), E)
  {
    EitherZero(Both(A, iset{}), T, E);
    JustNothing(T);
    NoneMore(E);
  }

  lemma EitherIsOrI(x: Both, z: Both)
    ensures BinaryWays(OrI, x, z, true) == Either(x, z, Just([True]), Just([Empty]))
  {}

  /** l and u are or_i with a constant. */
  lemma TagWays(p: Both, zero: Both)
    requires zero == Both(iset{}, Just([]))
    ensures BinaryWays(OrI, zero, p, true) == WrapWays(WrapL, p, true)
    ensures BinaryWays(OrI, p, zero, true) == WrapWays(WrapU, p, true)
  {
    EitherIsOrI(zero, p);
    EitherIsOrI(p, zero);
    EitherZero(p, Just([True]), Just([Empty]));
  }

  /** And so is d, with another constant. */
  lemma DupWays(p: Both, q: Both, zero: Both)
    requires zero == Both(iset{}, Just([])) && q == Both(p.sat, iset{})
    ensures BinaryWays(OrI, q, zero, true) == WrapWays(WrapD, p, true)
  {
    EitherIsOrI(q, zero);
    EitherDup(p.sat, Just([True]), Just([Empty]));
  }

  // ---- or_c, or_d, and_n ----

  lemma OrCDoes(tx: Tx, x: Script, z: Script, xp: Both, zp: Both)
    requires Does(tx, x, false, true, xp) && Does(tx, z, true, false, zp) && zp.dsat == iset{}
    ensures Does(tx, x + ShortBlock(OpNotIf, z), true, false, BinaryWays(OrC, xp, zp, true))
  {
    var r := ShortBlock(OpNotIf, z);
    ExecShort(tx, OpNotIf, z);
    NoneDoes(tx);
    forall base, alt
      ensures Exec(tx, r, base + [True], alt) == Exec(tx, [], base, alt)
      ensures Exec(tx, r, base + [Empty], alt) == Exec(tx, z, base, alt)
    {
      ShortChooses(tx, z, base, alt);
    }
    CaseDoes(tx, x, r, [], z, true, false, xp, Both(Just([]), iset{}), zp);
    CaseWays(xp, zp);
  }

  lemma ExecBefore(tx: Tx, op: Op, x: Script, stack: Elements, alt: Elements)
    requires !IsControl(op)
    ensures var m := ActStep(tx, op, Running(stack, alt, []));
            Exec(tx, [op] + x, stack, alt) == if m.Failed? then Failed else Exec(tx, x, m.stack, m.alt)
  {
    ProperOne(tx, op);
    ExecConcat(tx, [op], x, stack, alt);
    ExecOne(tx, op, stack, alt);
  }

  lemma IfDupChooses(tx: Tx, z: Script, base: Elements, alt: Elements, ctx: Context)
    requires Proper(tx, z)
    ensures Exec(tx, [Code(OpIfDup)] + ShortBlock(OpNotIf, z), base + [True], alt) == Exec(tx, Num(1, ctx), base, alt)
    ensures Exec(tx, [Code(OpIfDup)] + ShortBlock(OpNotIf, z), base + [Empty], alt) == Exec(tx, z, base, alt)
  {
    ExecBefore(tx, Code(OpIfDup), ShortBlock(OpNotIf, z), base + [True], alt);
    ExecBefore(tx, Code(OpIfDup), ShortBlock(OpNotIf, z), base + [Empty], alt);
    ShortChooses(tx, z, base + [True], alt);
    ShortChooses(tx, z, base, alt);
    ExecOne(tx, PushOf(Number(1), ctx), base, alt);
  }

  lemma OrDDoes(tx: Tx, x: Script, z: Script, u: bool, xp: Both, zp: Both, ctx: Context)
    requires Does(tx, x, false, true, xp) && Does(tx, z, false, u, zp)
    ensures Does(tx, x + ([Code(OpIfDup)] + ShortBlock(OpNotIf, z)), false, u, BinaryWays(OrD, xp, zp, true))
  {
    var r := [Code(OpIfDup)] + ShortBlock(OpNotIf, z);
    ExecShort(tx, OpNotIf, z);
    ProperOne(tx, Code(OpIfDup));
    ProperConcat(tx, [Code(OpIfDup)], ShortBlock(OpNotIf, z));
    PushDoes(tx, ctx, true, u);
    forall base, alt
      ensures Exec(tx, r, base + [True], alt) == Exec(tx, Num(1, ctx), base, alt)
      ensures Exec(tx, r, base + [Empty], alt) == Exec(tx, z, base, alt)
    {
      IfDupChooses(tx, z, base, alt, ctx);
    }
    CaseDoes(tx, x, r, Num(1, ctx), z, false, u, xp, Both(Just([]), iset{}), zp);
    CaseWays(xp, zp);
  }

  lemma AndNDoes(tx: Tx, x: Script, y: Script, u: bool, xp: Both, yp: Both, ctx: Context)
    requires Does(tx, x, false, true, xp) && Does(tx, y, false, u, yp)
    ensures Does(tx, AndOrScript(x, y, Num(0, ctx)), false, u, BinaryWays(AndN, xp, yp, true))
  {
    PushDoes(tx, ctx, false, u);
    ProperNone(tx);
    assert y + [] == y && Num(0, ctx) + [] == Num(0, ctx) && AndOrScript(x, y, Num(0, ctx)) + [] == AndOrScript(x, y, Num(0, ctx));
    AndOrDoes(tx, x, y, Num(0, ctx), [], false, u, xp, yp, Both(iset{}, Just([])));
    CaseWays(xp, yp);
  }

  // ---- t, l, u, d, j ----

  lemma ThenOneDoes(tx: Tx, x: Script, p: Both, ctx: Context)
    requires Does(tx, x, true, false, p)
    ensures Does(tx, x + Num(1, ctx), false, true, Both(p.sat, iset{}))
  {
    PushDoes(tx, ctx, true, true);
    ThenDoes(tx, x, Num(1, ctx), false, true, p, Both(Just([]), iset{}));
    JustNothing(p.sat);
  }

  lemma UnlikelyDoes(tx: Tx, x: Script, u: bool, p: Both, ctx: Context)
    requires Does(tx, x, false, u, p)
    ensures Does(tx, Block(OpIf, Num(0, ctx), x), false, u, WrapWays(WrapL, p, true))
    ensures Does(tx, Block(OpIf, x, Num(0, ctx)), false, u, WrapWays(WrapU, p, true))
  {
    var zero, zp := Num(0, ctx), Both(iset{}, Just([]));
    PushDoes(tx, ctx, false, u);
    ProperNone(tx);
    assert zero + [] == zero && x + [] == x;
    assert Block(OpIf, zero, x) + [] == Block(OpIf, zero, x) && Block(OpIf, x, zero) + [] == Block(OpIf, x, zero);
    IfDoes(tx, zero, x, [], false, u, zp, p);
    IfDoes(tx, x, zero, [], false, u, p, zp);
    TagWays(p, zp);
  }

  /** An expression that takes nothing leaves the 1 below it. */
  lemma OverOneDoes(tx: Tx, x: Script, p: Both, ctx: Context)
    requires Does(tx, x, true, false, p) && Counted(p.sat, 0)
    ensures Does(tx, Num(1, ctx) + x, false, true, Both(p.sat, iset{}))
  {
    var s, q := Num(1, ctx) + x, Both(p.sat, iset{});
    ProperOne(tx, PushOf(Number(1), ctx));
    ProperConcat(tx, Num(1, ctx), x);
    forall stack, alt
      ensures Sound(tx, s, false, true, q, stack, alt)
    {
      ExecBefore(tx, PushOf(Number(1), ctx), x, stack, alt);
      var m := Exec(tx, s, stack, alt);
      if m.Running? {
        var base, w, sat := Explained(tx, x, true, false, p, stack + [True], alt);
        assert w.items == [] && base == stack + [True] && stack == stack + w.items;
        assert Explains(tx, false, true, q, stack, m.stack, stack, w, true);
      }
    }
    forall base, w, sat, alt
      ensures Complete(tx, s, false, true, q, base, w, sat, alt)
    {
      if w in Side(q, sat) && Held(tx, w.locks) {
        assert w.items == [] && base + w.items == base && base + [True] + w.items == base + [True];
        ExecBefore(tx, PushOf(Number(1), ctx), x, base, alt);
        assert Complete(tx, x, true, false, p, base + [True], w, true, alt);
      }
    }
  }

  lemma DupIfDoes(tx: Tx, x: Script, p: Both, ctx: Context)
    requires Does(tx, x, true, false, p) && Counted(p.sat, 0)
    ensures Does(tx, [Code(OpDup)] + ShortBlock(OpIf, x), false, true, WrapWays(WrapD, p, true))
  {
    var r, one, zero := [Code(OpDup)] + ShortBlock(OpIf, x), Num(1, ctx) + x, Num(0, ctx);
    ExecShort(tx, OpIf, x);
    ProperOne(tx, Code(OpDup));
    ProperConcat(tx, [Code(OpDup)], ShortBlock(OpIf, x));
    OverOneDoes(tx, x, p, ctx);
    PushDoes(tx, ctx, false, true);
    forall base, alt
      ensures Exec(tx, r, base + [True], alt) == Exec(tx, one, base, alt)
      ensures Exec(tx, r, base + [Empty], alt) == Exec(tx, zero, base, alt)
    {
      DupIfChooses(tx, x, ctx, base, alt);
    }
    forall stack, alt | Exec(tx, r, stack, alt).Running?
      ensures Tagged(stack)
    {
      ExecBefore(tx, Code(OpDup), ShortBlock(OpIf, x), stack, alt);
    }
    TagDoes(tx, r, one, zero, false, true, Both(p.sat, iset{}), Both(iset{}, Just([])));
    DupWays(p, Both(p.sat, iset{}), Both(iset{}, Just([])));
  }

  lemma DupIfChooses(tx: Tx, x: Script, ctx: Context, base: Elements, alt: Elements)
    requires Proper(tx, x)
    ensures Exec(tx, [Code(OpDup)] + ShortBlock(OpIf, x), base + [True], alt) == Exec(tx, Num(1, ctx) + x, base, alt)
    ensures Exec(tx, [Code(OpDup)] + ShortBlock(OpIf, x), base + [Empty], alt) == Exec(tx, Num(0, ctx), base, alt)
  {
    ExecBefore(tx, Code(OpDup), ShortBlock(OpIf, x), base + [True], alt);
    ExecBefore(tx, Code(OpDup), ShortBlock(OpIf, x), base + [Empty], alt);
    ShortChooses(tx, x, base + [True], alt);
    ShortChooses(tx, x, base + [Empty], alt);
    ExecBefore(tx, PushOf(Number(1), ctx), x, base, alt);
    ExecOne(tx, PushOf(Number(0), ctx), base, alt);
  }

  /** SIZE 0NOTEQUAL IF [x] ENDIF */
  function NonZeroScript(x: Script): Script {
    [Code(OpSize)] + ([Code(OpZeroNotEqual)] + ShortBlock(OpIf, x))
  }

  lemma ExecNonZero(tx: Tx, x: Script, base: Elements, q: Element, alt: Elements)
    requires Proper(tx, x)
    ensures Exec(tx, NonZeroScript(x), base + [q], alt) ==
              if q != Empty then Exec(tx, x, base + [q], alt) else Running(base + [q], alt, [])
  {
    var s := ShortBlock(OpIf, x);
    ExecBefore(tx, Code(OpSize), [Code(OpZeroNotEqual)] + s, base + [q], alt);
    var n := Numbered(ElementLength(q));
    ExecBefore(tx, Code(OpZeroNotEqual), s, base + [q] + [n], alt);
    assert (base + [q] + [n])[..|base| + 1] == base + [q];
    ShortChooses(tx, x, base + [q], alt);
  }

  lemma ExecNonZeroNone(tx: Tx, x: Script, alt: Elements)
    ensures Exec(tx, NonZeroScript(x), [], alt) == Failed
  {
    ExecBefore(tx, Code(OpSize), [Code(OpZeroNotEqual)] + ShortBlock(OpIf, x), [], alt);
  }

  lemma NonZeroIfDoes(tx: Tx, x: Script, u: bool, p: Both)
    requires Does(tx, x, false, u, p) && AllTopped(p.sat) && SomeElement(p.dsat)
    ensures Does(tx, NonZeroScript(x), false, u, WrapWays(WrapJ, p, true))
  {
    var s, q := NonZeroScript(x), WrapWays(WrapJ, p, true);
    ExecShort(tx, OpIf, x);
    ProperOne(tx, Code(OpSize));
    ProperOne(tx, Code(OpZeroNotEqual));
    ProperConcat(tx, [Code(OpZeroNotEqual)], ShortBlock(OpIf, x));
    ProperConcat(tx, [Code(OpSize)], [Code(OpZeroNotEqual)] + ShortBlock(OpIf, x));
    forall stack, alt
      ensures Sound(tx, s, false, u, q, stack, alt)
    {
      NonZeroIfSound(tx, x, u, p, stack, alt);
    }
    forall base, w, sat, alt
      ensures Complete(tx, s, false, u, q, base, w, sat, alt)
    {
      NonZeroIfComplete(tx, x, u, p, base, w, sat, alt);
    }
  }

  lemma NonZeroIfSound(tx: Tx, x: Script, u: bool, p: Both, stack: Elements, alt: Elements)
    requires Does(tx, x, false, u, p) && SomeElement(p.dsat)
    ensures Sound(tx, NonZeroScript(x), false, u, WrapWays(WrapJ, p, true), stack, alt)
  {
    if |stack| == 0 {
      ExecNonZeroNone(tx, x, alt);
      assert stack == [];
    } else {
      var n := |stack| - 1;
      assert stack == stack[..n] + [stack[n]];
      NonZeroIfRuns(tx, x, u, p, stack[..n], stack[n], alt);
    }
  }

  lemma NonZeroIfRuns(tx: Tx, x: Script, u: bool, p: Both, mid: Elements, q: Element, alt: Elements)
    requires Does(tx, x, false, u, p) && SomeElement(p.dsat)
    ensures Sound(tx, NonZeroScript(x), false, u, WrapWays(WrapJ, p, true), mid + [q], alt)
  {
    var j := WrapWays(WrapJ, p, true);
    ExecNonZero(tx, x, mid, q, alt);
    if q == Empty {
      assert Explains(tx, false, u, j, mid + [q], mid + [q], mid, Way([Empty], {}, 0), false);
    } else if Exec(tx, x, mid + [q], alt).Running? {
      var base, w, sat := Explained(tx, x, false, u, p, mid + [q], alt);
      if !sat {
        TopOf(mid, q, base, w.items);
      }
      assert Explains(tx, false, u, j, mid + [q], Exec(tx, x, mid + [q], alt).stack, base, w, sat);
    }
  }

  lemma TopOf(mid: Elements, q: Element, base: Elements, items: Elements)
    requires mid + [q] == base + items && |items| > 0
    ensures items[|items| - 1] == q
  {
    assert (base + items)[|mid|] == items[|items| - 1];
  }

  lemma NonZeroIfComplete(tx: Tx, x: Script, u: bool, p: Both, base: Elements, w: Way, sat: bool, alt: Elements)
    requires Does(tx, x, false, u, p) && AllTopped(p.sat)
    ensures Complete(tx, NonZeroScript(x), false, u, WrapWays(WrapJ, p, true), base, w, sat, alt)
  {
    if w in Side(WrapWays(WrapJ, p, true), sat) && Held(tx, w.locks) {
      if w in Just([Empty]) && !sat {
        ExecNonZero(tx, x, base, Empty, alt);
      } else {
        var n := |w.items| - 1;
        assert TopNotEmpty(w.items);
        assert base + w.items == base + w.items[..n] + [w.items[n]];
        ExecNonZero(tx, x, base + w.items[..n], w.items[n], alt);
        assert Complete(tx, x, false, u, p, base, w, sat, alt);
      }
    }
  }
}
