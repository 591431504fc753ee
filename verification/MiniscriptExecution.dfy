/** What a script does to the stack, as the ways to satisfy and to dissatisfy an expression say. */
module MiniscriptExecution {
  import opened Miniscript
  import opened MiniscriptWays
  import opened Scripts
  import opened ScriptMachine

  ghost function Side(p: Both, sat: bool): Ways {
    if sat then p.sat else p.dsat
  }

  /** What a satisfied or dissatisfied expression puts on the stack: with u a satisfied one puts exactly 1. */
  predicate Answer(u: bool, sat: bool, item: Element) {
    if sat then item != Empty && AsNumber(item).Some? && (u ==> item == True) else item == Empty
  }

  /** An expression of type V leaves nothing, and others their answer. */
  predicate Leaves(v: bool, u: bool, base: Elements, sat: bool, after: Elements) {
    if v then sat && after == base
    else |after| == |base| + 1 && after == base + [after[|base|]] && Answer(u, sat, after[|base|])
  }

  ghost predicate Explains(tx: Tx, v: bool, u: bool, p: Both, before: Elements, after: Elements, base: Elements, w: Way, sat: bool) {
    before == base + w.items && w in Side(p, sat) && Held(tx, w.locks) && Leaves(v, u, base, sat, after)
  }

  /** A run that does not fail has consumed one of the ways. */
  ghost predicate Sound(tx: Tx, s: Script, v: bool, u: bool, p: Both, stack: Elements, alt: Elements) {
    var m := Exec(tx, s, stack, alt);
    m.Running? ==> m.alt == alt && exists base, w, sat :: Explains(tx, v, u, p, stack, m.stack, base, w, sat)
  }

  /** A way whose locks are met is consumed. */
  ghost predicate Complete(tx: Tx, s: Script, v: bool, u: bool, p: Both, base: Elements, w: Way, sat: bool, alt: Elements) {
    w in Side(p, sat) && Held(tx, w.locks) ==>
      var m := Exec(tx, s, base + w.items, alt);
      m.Running? && m.alt == alt && Leaves(v, u, base, sat, m.stack)
  }

  ghost predicate AllSound(tx: Tx, s: Script, v: bool, u: bool, p: Both) {
    forall stack, alt :: Sound(tx, s, v, u, p, stack, alt)
  }

  ghost predicate AllComplete(tx: Tx, s: Script, v: bool, u: bool, p: Both) {
    forall base, w, sat, alt :: Complete(tx, s, v, u, p, base, w, sat, alt)
  }

  /** The script consumes exactly the ways and leaves the answer. */
  ghost predicate Does(tx: Tx, s: Script, v: bool, u: bool, p: Both) {
    Proper(tx, s) && AllSound(tx, s, v, u, p) && AllComplete(tx, s, v, u, p)
  }

  lemma Explained(tx: Tx, s: Script, v: bool, u: bool, p: Both, stack: Elements, alt: Elements)
    returns (base: Elements, w: Way, sat: bool)
    requires AllSound(tx, s, v, u, p) && Exec(tx, s, stack, alt).Running?
    ensures Exec(tx, s, stack, alt).alt == alt && Explains(tx, v, u, p, stack, Exec(tx, s, stack, alt).stack, base, w, sat)
  {
    assert Sound(tx, s, v, u, p, stack, alt);
    base, w, sat :| Explains(tx, v, u, p, stack, Exec(tx, s, stack, alt).stack, base, w, sat);
  }

  /** What is asked of the answer can be relaxed. */
  lemma DoesWeaker(tx: Tx, s: Script, v: bool, u: bool, p: Both)
    requires Does(tx, s, v, u, p)
    ensures Does(tx, s, v, false, p)
  {
    forall stack, alt
      ensures Sound(tx, s, v, false, p, stack, alt)
    {
      var m := Exec(tx, s, stack, alt);
      if m.Running? {
        var base, w, sat := Explained(tx, s, v, u, p, stack, alt);
        assert Explains(tx, v, false, p, stack, m.stack, base, w, sat);
      }
    }
    forall base, w, sat, alt
      ensures Complete(tx, s, v, false, p, base, w, sat, alt)
    {
      assert Complete(tx, s, v, u, p, base, w, sat, alt);
    }
  }

  lemma HeldJoin(tx: Tx, a: Way, b: Way)
    ensures Held(tx, Join(a, b).locks) <==> Held(tx, a.locks) && Held(tx, b.locks)
  {
    assert forall lock :: lock in a.locks ==> lock in Join(a, b).locks;
    assert forall lock :: lock in b.locks ==> lock in Join(a, b).locks;
  }

  lemma StackJoin(base: Elements, b: Way, a: Way)
    ensures base + Join(b, a).items == base + b.items + a.items
  {}

  // ---- one after the other: and_v ----

  ghost function ThenWays(x: Both, y: Both): Both {
    Both(Each(y.sat, x.sat), Each(y.dsat, x.sat))
  }

  lemma ThenDoes(tx: Tx, x: Script, y: Script, v: bool, u: bool, xp: Both, yp: Both)
    requires Does(tx, x, true, false, xp) && Does(tx, y, v, u, yp)
    ensures Does(tx, x + y, v, u, ThenWays(xp, yp))
  {
    ProperConcat(tx, x, y);
    forall stack, alt
      ensures Sound(tx, x + y, v, u, ThenWays(xp, yp), stack, alt)
    {
      ThenSound(tx, x, y, v, u, xp, yp, stack, alt);
    }
    forall base, w, sat, alt
      ensures Complete(tx, x + y, v, u, ThenWays(xp, yp), base, w, sat, alt)
    {
      ThenComplete(tx, x, y, v, u, xp, yp, base, w, sat, alt);
    }
  }

  lemma ThenSound(tx: Tx, x: Script, y: Script, v: bool, u: bool, xp: Both, yp: Both, stack: Elements, alt: Elements)
    requires Does(tx, x, true, false, xp) && Does(tx, y, v, u, yp)
    ensures Sound(tx, x + y, v, u, ThenWays(xp, yp), stack, alt)
  {
    ExecConcat(tx, x, y, stack, alt);
    var m := Exec(tx, x + y, stack, alt);
    if m.Running? {
      var mid, a, _ := Explained(tx, x, true, false, xp, stack, alt);
      var base, b, sat := Explained(tx, y, v, u, yp, mid, alt);
      HeldJoin(tx, b, a);
      StackJoin(base, b, a);
      assert Join(b, a) in Each(Side(yp, sat), xp.sat);
      assert Explains(tx, v, u, ThenWays(xp, yp), stack, m.stack, base, Join(b, a), sat);
    }
  }

  lemma ThenComplete(tx: Tx, x: Script, y: Script, v: bool, u: bool, xp: Both, yp: Both,
                     base: Elements, w: Way, sat: bool, alt: Elements)
    requires Does(tx, x, true, false, xp) && Does(tx, y, v, u, yp)
    ensures Complete(tx, x + y, v, u, ThenWays(xp, yp), base, w, sat, alt)
  {
    if w in Side(ThenWays(xp, yp), sat) && Held(tx, w.locks) {
      var b, a :| b in Side(yp, sat) && a in xp.sat && w == Join(b, a);
      HeldJoin(tx, b, a);
      StackJoin(base, b, a);
      assert Complete(tx, x, true, false, xp, base + b.items, a, true, alt);
      assert Complete(tx, y, v, u, yp, base, b, sat, alt);
      ExecConcat(tx, x, y, base + w.items, alt);
    }
  }

  // ---- a choice by the answer of an expression: andor, and_n, or_c, or_d ----

  /** After 1 the rest does what y does, and after 0 what z does. */
  ghost predicate Chooses(tx: Tx, r: Script, y: Script, z: Script) {
    forall base, alt ::
      Exec(tx, r, base + [True], alt) == Exec(tx, y, base, alt) && Exec(tx, r, base + [Empty], alt) == Exec(tx, z, base, alt)
  }

  lemma CaseDoes(tx: Tx, x: Script, r: Script, y: Script, z: Script, v: bool, u: bool, xp: Both, yp: Both, zp: Both)
    requires Does(tx, x, false, true, xp) && Does(tx, y, v, u, yp) && Does(tx, z, v, u, zp)
    requires Proper(tx, r) && Chooses(tx, r, y, z)
    ensures Does(tx, x + r, v, u, AndOrWays(xp, yp, zp, true))
  {
    ProperConcat(tx, x, r);
    forall stack, alt
      ensures Sound(tx, x + r, v, u, AndOrWays(xp, yp, zp, true), stack, alt)
    {
      CaseSound(tx, x, r, y, z, v, u, xp, yp, zp, stack, alt);
    }
    forall base, w, sat, alt
      ensures Complete(tx, x + r, v, u, AndOrWays(xp, yp, zp, true), base, w, sat, alt)
    {
      CaseComplete(tx, x, r, y, z, v, u, xp, yp, zp, base, w, sat, alt);
    }
  }

  lemma CaseSound(tx: Tx, x: Script, r: Script, y: Script, z: Script, v: bool, u: bool, xp: Both, yp: Both, zp: Both,
                  stack: Elements, alt: Elements)
    requires Does(tx, x, false, true, xp) && Does(tx, y, v, u, yp) && Does(tx, z, v, u, zp) && Chooses(tx, r, y, z)
    ensures Sound(tx, x + r, v, u, AndOrWays(xp, yp, zp, true), stack, alt)
  {
    ExecConcat(tx, x, r, stack, alt);
    var m := Exec(tx, x + r, stack, alt);
    if m.Running? {
      var mid, a, first := Explained(tx, x, false, true, xp, stack, alt);
      var s, p := if first then y else z, if first then yp else zp;
      assert Exec(tx, r, mid + [Truth(first)], alt) == Exec(tx, s, mid, alt);
      var base, b, sat := Explained(tx, s, v, u, p, mid, alt);
      HeldJoin(tx, b, a);
      StackJoin(base, b, a);
      assert Join(b, a) in Each(Side(p, sat), Side(xp, first));
      assert Explains(tx, v, u, AndOrWays(xp, yp, zp, true), stack, m.stack, base, Join(b, a), sat);
    }
  }

  lemma CaseComplete(tx: Tx, x: Script, r: Script, y: Script, z: Script, v: bool, u: bool, xp: Both, yp: Both, zp: Both,
                     base: Elements, w: Way, sat: bool, alt: Elements)
    requires Does(tx, x, false, true, xp) && Does(tx, y, v, u, yp) && Does(tx, z, v, u, zp) && Chooses(tx, r, y, z)
    ensures Complete(tx, x + r, v, u, AndOrWays(xp, yp, zp, true), base, w, sat, alt)
  {
    if w in Side(AndOrWays(xp, yp, zp, true), sat) && Held(tx, w.locks) {
      var first := w in Each(Side(yp, sat), xp.sat);
      var s, p := if first then y else z, if first then yp else zp;
      assert w in Each(Side(p, sat), Side(xp, first));
      var b, a :| b in Side(p, sat) && a in Side(xp, first) && w == Join(b, a);
      HeldJoin(tx, b, a);
      StackJoin(base, b, a);
      assert Complete(tx, x, false, true, xp, base + b.items, a, first, alt);
      assert Exec(tx, r, base + b.items + [Truth(first)], alt) == Exec(tx, s, base + b.items, alt);
      assert Complete(tx, s, v, u, p, base, b, sat, alt);
      ExecConcat(tx, x, r, base + w.items, alt);
    }
  }

  // ---- a choice by a witness element: or_i, l, u, d ----

  /** The rest fails unless the topmost element is 1 or empty. */
  ghost predicate NeedsTag(tx: Tx, r: Script) {
    forall stack, alt :: Exec(tx, r, stack, alt).Running? ==> Tagged(stack)
  }

  predicate Tagged(stack: Elements) {
    |stack| > 0 && (stack[|stack| - 1] == True || stack[|stack| - 1] == Empty)
  }

  lemma TagDoes(tx: Tx, r: Script, y: Script, z: Script, v: bool, u: bool, yp: Both, zp: Both)
    requires Does(tx, y, v, u, yp) && Does(tx, z, v, u, zp) && Proper(tx, r) && Chooses(tx, r, y, z) && NeedsTag(tx, r)
    ensures Does(tx, r, v, u, BinaryWays(OrI, yp, zp, true))
  {
    forall stack, alt
      ensures Sound(tx, r, v, u, BinaryWays(OrI, yp, zp, true), stack, alt)
    {
      TagSound(tx, r, y, z, v, u, yp, zp, stack, alt);
    }
    forall base, w, sat, alt
      ensures Complete(tx, r, v, u, BinaryWays(OrI, yp, zp, true), base, w, sat, alt)
    {
      TagComplete(tx, r, y, z, v, u, yp, zp, base, w, sat, alt);
    }
  }

  lemma TagSound(tx: Tx, r: Script, y: Script, z: Script, v: bool, u: bool, yp: Both, zp: Both, stack: Elements, alt: Elements)
    requires Does(tx, y, v, u, yp) && Does(tx, z, v, u, zp) && Chooses(tx, r, y, z) && NeedsTag(tx, r)
    ensures Sound(tx, r, v, u, BinaryWays(OrI, yp, zp, true), stack, alt)
  {
    var m := Exec(tx, r, stack, alt);
    if m.Running? {
      var n := |stack| - 1;
      assert Tagged(stack);
      assert stack == stack[..n] + [stack[n]];
      if stack[n] == True {
        TagRuns(tx, r, y, True, v, u, yp, BinaryWays(OrI, yp, zp, true), stack[..n], alt);
      } else {
        TagRuns(tx, r, z, Empty, v, u, zp, BinaryWays(OrI, yp, zp, true), stack[..n], alt);
      }
    }
  }

  lemma TagRuns(tx: Tx, r: Script, s: Script, tag: Element, v: bool, u: bool, p: Both, q: Both, mid: Elements, alt: Elements)
    requires Does(tx, s, v, u, p) && Exec(tx, r, mid + [tag], alt) == Exec(tx, s, mid, alt)
    requires Each(p.sat, Just([tag])) <= q.sat && Each(p.dsat, Just([tag])) <= q.dsat
    ensures Sound(tx, r, v, u, q, mid + [tag], alt)
  {
    var m := Exec(tx, s, mid, alt);
    if m.Running? {
      var base, b, sat := Explained(tx, s, v, u, p, mid, alt);
      var a := Way([tag], {}, 0);
      HeldJoin(tx, b, a);
      StackJoin(base, b, a);
      assert Join(b, a) in Each(Side(p, sat), Just([tag]));
      assert Explains(tx, v, u, q, mid + [tag], m.stack, base, Join(b, a), sat);
    }
  }

  lemma TagComplete(tx: Tx, r: Script, y: Script, z: Script, v: bool, u: bool, yp: Both, zp: Both,
                    base: Elements, w: Way, sat: bool, alt: Elements)
    requires Does(tx, y, v, u, yp) && Does(tx, z, v, u, zp) && Chooses(tx, r, y, z)
    ensures Complete(tx, r, v, u, BinaryWays(OrI, yp, zp, true), base, w, sat, alt)
  {
    if w in Side(BinaryWays(OrI, yp, zp, true), sat) && Held(tx, w.locks) {
      var first := w in Each(Side(yp, sat), Just([True]));
      var s, p := if first then y else z, if first then yp else zp;
      var a := Way([Truth(first)], {}, 0);
      var b :| b in Side(p, sat) && w == Join(b, a);
      HeldJoin(tx, b, a);
      StackJoin(base, b, a);
      assert Complete(tx, s, v, u, p, base, b, sat, alt);
      assert base + w.items == base + b.items + [Truth(first)];
    }
  }

  // ---- expressions of type W ----

  predicate LeavesBeside(u: bool, base: Elements, t: Element, sat: bool, after: Elements) {
    |after| == |base| + 2
    && ((after == base + [after[|base|], t] && Answer(u, sat, after[|base|]))
        || (after == base + [t, after[|base| + 1]] && Answer(u, sat, after[|base| + 1])))
  }

  ghost predicate ExplainsBeside(tx: Tx, u: bool, p: Both, before: Elements, t: Element, after: Elements, base: Elements, w: Way, sat: bool) {
    before == base + w.items && w in Side(p, sat) && Held(tx, w.locks) && LeavesBeside(u, base, t, sat, after)
  }

  ghost predicate SoundBeside(tx: Tx, s: Script, u: bool, p: Both, stack: Elements, t: Element, alt: Elements) {
    var m := Exec(tx, s, stack + [t], alt);
    m.Running? ==> m.alt == alt && exists base, w, sat :: ExplainsBeside(tx, u, p, stack, t, m.stack, base, w, sat)
  }

  ghost predicate CompleteBeside(tx: Tx, s: Script, u: bool, p: Both, base: Elements, t: Element, w: Way, sat: bool, alt: Elements) {
    w in Side(p, sat) && Held(tx, w.locks) ==>
      var m := Exec(tx, s, base + w.items + [t], alt);
      m.Running? && m.alt == alt && LeavesBeside(u, base, t, sat, m.stack)
  }

  /** As Does, with one more element on top that is kept. */
  ghost predicate DoesBeside(tx: Tx, s: Script, u: bool, p: Both) {
    && Proper(tx, s)
    && (forall stack, t, alt :: SoundBeside(tx, s, u, p, stack, t, alt))
    && (forall base, t, w, sat, alt :: CompleteBeside(tx, s, u, p, base, t, w, sat, alt))
  }

  lemma ExplainedBeside(tx: Tx, s: Script, u: bool, p: Both, stack: Elements, t: Element, alt: Elements)
    returns (base: Elements, w: Way, sat: bool)
    requires DoesBeside(tx, s, u, p) && Exec(tx, s, stack + [t], alt).Running?
    ensures var m := Exec(tx, s, stack + [t], alt); m.alt == alt && ExplainsBeside(tx, u, p, stack, t, m.stack, base, w, sat)
  {
    assert SoundBeside(tx, s, u, p, stack, t, alt);
    base, w, sat :| ExplainsBeside(tx, u, p, stack, t, Exec(tx, s, stack + [t], alt).stack, base, w, sat);
  }

  lemma ExecOne(tx: Tx, op: Op, stack: Elements, alt: Elements)
    ensures Exec(tx, [op], stack, alt) == ActStep(tx, op, Running(stack, alt, []))
  {
    RunOne(tx, op, Running(stack, alt, []));
  }

  // ---- a: and s: ----

  /** The element on top waits on the alternative stack. */
  lemma ExecAside(tx: Tx, x: Script, stack: Elements, t: Element, alt: Elements)
    requires Proper(tx, x)
    ensures var m := Exec(tx, x, stack, alt + [t]);
            Exec(tx, [Code(OpToAltStack)] + x + [Code(OpFromAltStack)], stack + [t], alt) ==
              if m.Failed? || |m.alt| == 0 then Failed
              else Running(m.stack + [m.alt[|m.alt| - 1]], m.alt[..|m.alt| - 1], [])
  {
    var first, last := [Code(OpToAltStack)], [Code(OpFromAltStack)];
    ProperOne(tx, Code(OpToAltStack));
    ProperConcat(tx, first, x);
    ExecConcat(tx, first + x, last, stack + [t], alt);
    ExecConcat(tx, first, x, stack + [t], alt);
    ExecOne(tx, Code(OpToAltStack), stack + [t], alt);
    assert (stack + [t])[..|stack|] == stack;
    var m := Exec(tx, x, stack, alt + [t]);
    if m.Running? {
      ProperEnds(tx, x, stack, alt + [t]);
      ExecOne(tx, Code(OpFromAltStack), m.stack, m.alt);
    }
  }

  lemma AsideDoes(tx: Tx, x: Script, u: bool, p: Both)
    requires Does(tx, x, false, u, p)
    ensures DoesBeside(tx, [Code(OpToAltStack)] + x + [Code(OpFromAltStack)], u, p)
  {
    var s := [Code(OpToAltStack)] + x + [Code(OpFromAltStack)];
    ProperOne(tx, Code(OpToAltStack));
    ProperOne(tx, Code(OpFromAltStack));
    ProperConcat(tx, [Code(OpToAltStack)], x);
    ProperConcat(tx, [Code(OpToAltStack)] + x, [Code(OpFromAltStack)]);
    forall stack, t, alt
      ensures SoundBeside(tx, s, u, p, stack, t, alt)
    {
      ExecAside(tx, x, stack, t, alt);
      var m := Exec(tx, s, stack + [t], alt);
      if m.Running? {
        var base, w, sat := Explained(tx, x, false, u, p, stack, alt + [t]);
        assert (alt + [t])[..|alt|] == alt;
        assert m.stack == base + [m.stack[|base|], t];
        assert ExplainsBeside(tx, u, p, stack, t, m.stack, base, w, sat);
      }
    }
    forall base, t, w, sat, alt
      ensures CompleteBeside(tx, s, u, p, base, t, w, sat, alt)
    {
      AsideComplete(tx, x, u, p, base, t, w, sat, alt);
    }
  }

  lemma AsideComplete(tx: Tx, x: Script, u: bool, p: Both, base: Elements, t: Element, w: Way, sat: bool, alt: Elements)
    requires Does(tx, x, false, u, p)
    ensures CompleteBeside(tx, [Code(OpToAltStack)] + x + [Code(OpFromAltStack)], u, p, base, t, w, sat, alt)
  {
    if w in Side(p, sat) && Held(tx, w.locks) {
      ExecAside(tx, x, base + w.items, t, alt);
      assert Complete(tx, x, false, u, p, base, w, sat, alt + [t]);
      var m := Exec(tx, x, base + w.items, alt + [t]);
      assert (alt + [t])[..|alt|] == alt;
      assert m.stack + [t] == base + [m.stack[|base|], t];
    }
  }

  lemma ExecSwapped(tx: Tx, x: Script, stack: Elements, q: Element, t: Element, alt: Elements)
    ensures Exec(tx, [Code(OpSwap)] + x, stack + [q] + [t], alt) == Exec(tx, x, stack + [t] + [q], alt)
  {
    var full := stack + [q] + [t];
    ProperOne(tx, Code(OpSwap));
    ExecConcat(tx, [Code(OpSwap)], x, full, alt);
    ExecOne(tx, Code(OpSwap), full, alt);
    assert full[..|full| - 2] == stack;
    assert stack + [t, q] == stack + [t] + [q];
  }

  lemma ExecSwapOne(tx: Tx, x: Script, t: Element, alt: Elements)
    ensures Exec(tx, [Code(OpSwap)] + x, [] + [t], alt) == Failed
  {
    ProperOne(tx, Code(OpSwap));
    ExecConcat(tx, [Code(OpSwap)], x, [] + [t], alt);
    ExecOne(tx, Code(OpSwap), [] + [t], alt);
  }

  /** An expression that takes exactly one element works below the top as well. */
  lemma SwappedDoes(tx: Tx, x: Script, u: bool, p: Both)
    requires Does(tx, x, false, u, p)
    requires forall w :: w in p.sat || w in p.dsat ==> |w.items| == 1
    ensures DoesBeside(tx, [Code(OpSwap)] + x, u, p)
  {
    var s := [Code(OpSwap)] + x;
    ProperOne(tx, Code(OpSwap));
    ProperConcat(tx, [Code(OpSwap)], x);
    forall stack, t, alt
      ensures SoundBeside(tx, s, u, p, stack, t, alt)
    {
      SwappedSound(tx, x, u, p, stack, t, alt);
    }
    forall base, t, w, sat, alt
      ensures CompleteBeside(tx, s, u, p, base, t, w, sat, alt)
    {
      SwappedComplete(tx, x, u, p, base, t, w, sat, alt);
    }
  }

  lemma SwappedSound(tx: Tx, x: Script, u: bool, p: Both, stack: Elements, t: Element, alt: Elements)
    requires Does(tx, x, false, u, p)
    requires forall w :: w in p.sat || w in p.dsat ==> |w.items| == 1
    ensures SoundBeside(tx, [Code(OpSwap)] + x, u, p, stack, t, alt)
  {
    var m := Exec(tx, [Code(OpSwap)] + x, stack + [t], alt);
    if |stack| == 0 {
      assert stack + [t] == [] + [t];
      ExecSwapOne(tx, x, t, alt);
    } else if m.Running? {
      var n := |stack| - 1;
      assert stack == stack[..n] + [stack[n]];
      ExecSwapped(tx, x, stack[..n], stack[n], t, alt);
      var base, w, sat := Explained(tx, x, false, u, p, stack[..n] + [t] + [stack[n]], alt);
      OneElement(stack[..n] + [t], stack[n], base, w.items);
      assert m.stack == stack[..n] + [t, m.stack[|stack[..n]| + 1]];
      assert ExplainsBeside(tx, u, p, stack, t, m.stack, stack[..n], w, sat);
    }
  }

  lemma OneElement(s: Elements, q: Element, base: Elements, items: Elements)
    requires s + [q] == base + items && |items| == 1
    ensures s == base && items == [q]
  {
    assert s == (s + [q])[..|s|];
    assert base == (base + items)[..|base|];
    assert items[0] == (base + items)[|base|];
  }

  lemma SwappedComplete(tx: Tx, x: Script, u: bool, p: Both, base: Elements, t: Element, w: Way, sat: bool, alt: Elements)
    requires Does(tx, x, false, u, p)
    requires forall w :: w in p.sat || w in p.dsat ==> |w.items| == 1
    ensures CompleteBeside(tx, [Code(OpSwap)] + x, u, p, base, t, w, sat, alt)
  {
    if w in Side(p, sat) && Held(tx, w.locks) {
      assert w.items == [w.items[0]];
      ExecSwapped(tx, x, base, w.items[0], t, alt);
      assert Complete(tx, x, false, u, p, base + [t], w, sat, alt);
      var m := Exec(tx, x, base + [t] + w.items, alt);
      assert m.stack == base + [t, m.stack[|base| + 1]];
    }
  }
}
