/** The scripts that count: multisig and thresh. */
module MiniscriptSums {
  import opened Wrappers
  import opened Miniscript
  import opened MiniscriptWays
  import opened MiniscriptShape
  import opened Scripts
  import opened ScriptMachine
  import opened MiniscriptExecution
  import opened MiniscriptFragments
  import opened MiniscriptLeaves

  // ---- CHECKMULTISIG ----

  function KeyElements(keys: seq<nat>): Elements {
    seq(|keys|, i requires 0 <= i < |keys| => PubKey(keys[i]))
  }

  lemma {:induction false} PicksInit(keys: seq<nat>, k: int, p: Elements)
    requires p in Picks(keys, k) && k > 0
    ensures |p| == k && p[..k - 1] in Picks(keys, k - 1)
    decreases |keys|
  {
    PicksTopped(keys, k, p);
    if |keys| > 0 {
      var last := |keys| - 1;
      if p in Picks(keys[..last], k) {
        PicksInit(keys[..last], k, p);
      } else {
        var q :| q in Picks(keys[..last], k - 1) && p == q + [Sig(keys[last])];
        PicksTopped(keys[..last], k - 1, q);
        assert p[..k - 1] == q;
      }
    }
  }

  lemma {:induction false} PicksBounds(keys: seq<nat>, k: int)
    ensures k > |keys| ==> Picks(keys, k) == iset{}
    ensures k == 0 ==> [] in Picks(keys, k)
    decreases |keys|
  {
    if |keys| > 0 {
      PicksBounds(keys[..|keys| - 1], k);
      PicksBounds(keys[..|keys| - 1], k - 1);
    }
  }

  /** Comparing signatures and keys from the end accepts exactly the signatures of some of the keys in their order. */
  lemma {:induction false} MatchesIffPicked(sigs: Elements, keys: seq<nat>)
    ensures Matches(sigs, KeyElements(keys)) <==> sigs in Picks(keys, |sigs|)
    decreases |keys|
  {
    var k := |sigs|;
    PicksBounds(keys, k);
    if 0 < k <= |keys| {
      var last := |keys| - 1;
      assert KeyElements(keys)[..last] == KeyElements(keys[..last]);
      MatchesIffPicked(sigs, keys[..last]);
      MatchesIffPicked(sigs[..k - 1], keys[..last]);
      MatchesStep(sigs, keys, k, last);
    } else if k == 0 {
      assert sigs == [];
    }
  }

  lemma MatchesStep(sigs: Elements, keys: seq<nat>, k: nat, last: nat)
    requires 0 < k == |sigs| && |keys| == last + 1
    ensures sigs in Picks(keys, k) <==>
              if sigs[k - 1] == Sig(keys[last]) then sigs[..k - 1] in Picks(keys[..last], k - 1) else sigs in Picks(keys[..last], k)
  {
    assert sigs == sigs[..k - 1] + [sigs[k - 1]];
    if sigs in Picks(keys, k) && sigs !in Picks(keys[..last], k) {
      var q :| q in Picks(keys[..last], k - 1) && sigs == q + [Sig(keys[last])];
      assert q == sigs[..k - 1];
    }
    if sigs in Picks(keys[..last], k) {
      PicksInit(keys[..last], k, sigs);
    }
  }

  lemma {:induction false} ExecPushKeys(tx: Tx, keys: seq<nat>, stack: Elements, alt: Elements, ctx: Context)
    ensures Proper(tx, PushKeys(keys, ctx))
    ensures Exec(tx, PushKeys(keys, ctx), stack, alt) == Running(stack + KeyElements(keys), alt, [])
    decreases |keys|
  {
    if |keys| == 0 {
      ProperNone(tx);
      assert stack + KeyElements(keys) == stack;
    } else {
      var last := |keys| - 1;
      var op := PushOf(KeyBytes(keys[last]), ctx);
      ExecPushKeys(tx, keys[..last], stack, alt, ctx);
      ProperOne(tx, op);
      ProperConcat(tx, PushKeys(keys[..last], ctx), [op]);
      ExecAfter(tx, PushKeys(keys[..last], ctx), op, stack, alt);
      assert stack + KeyElements(keys) == stack + KeyElements(keys[..last]) + [PubKey(keys[last])];
    }
  }

  lemma ExecMulti(tx: Tx, k: nat, keys: seq<nat>, stack: Elements, alt: Elements, ctx: Context)
    ensures Proper(tx, MultiScript(k, keys, ctx))
    ensures Exec(tx, MultiScript(k, keys, ctx), stack, alt) ==
              CheckMultiSigStep(Running(stack + [Numbered(k)] + KeyElements(keys) + [Numbered(|keys|)], alt, []))
  {
    var a, b, c, d := PushOf(Number(k), ctx), PushKeys(keys, ctx), PushOf(Number(|keys|), ctx), Check(CheckMultiSig, false);
    ProperOne(tx, a);
    ProperOne(tx, c);
    ProperOne(tx, d);
    ExecPushKeys(tx, keys, stack + [Numbered(k)], alt, ctx);
    ProperConcat(tx, [a], b);
    ProperConcat(tx, [a] + b, [c]);
    ProperConcat(tx, [a] + b + [c], [d]);
    ExecBefore(tx, a, b, stack, alt);
    ExecAfter(tx, [a] + b, c, stack, alt);
    ExecAfter(tx, [a] + b + [c], d, stack, alt);
  }

  /** What CHECKMULTISIG makes of the elements below the keys. */
  function MultiOutcome(stack: Elements, k: nat, keys: Elements, alt: Elements): Machine {
    var size := |stack|;
    if size < k + 1 || stack[size - 1 - k] != Empty then Failed
    else
      var base, sigs := stack[..size - 1 - k], stack[size - k..];
      if Matches(sigs, keys) then Running(base + [True], alt, [])
      else if AllEmpty(sigs) then Running(base + [Empty], alt, [])
      else Failed
  }

  /** Where the elements of CHECKMULTISIG are. */
  predicate MultiLayout(full: Elements, stack: Elements, keys: Elements, k: nat) {
    var size, n := |full|, |keys|;
    && size == |stack| + n + 2
    && full[size - 1 - n..size - 1] == keys
    && (|stack| >= k + 1 ==>
        && full[size - 3 - n - k] == stack[|stack| - 1 - k]
        && full[size - 2 - n - k..size - 2 - n] == stack[|stack| - k..]
        && full[..size - (n + k + 3)] == stack[..|stack| - 1 - k])
  }

  lemma MultiSigOutcome(full: Elements, stack: Elements, k: nat, keys: Elements, alt: Elements)
    requires MultiLayout(full, stack, keys, k) && k <= |keys|
    ensures MultiSigStep(Running(full, alt, []), |keys|, k) == MultiOutcome(stack, k, keys, alt)
  {}

  lemma MultiReads(full: Elements, n: nat, k: nat, alt: Elements)
    requires |full| >= n + 2 && full[|full| - 1] == Numbered(n) && full[|full| - 2 - n] == Numbered(k)
    ensures CheckMultiSigStep(Running(full, alt, [])) == MultiSigStep(Running(full, alt, []), n, k)
  {}

  lemma MultiIsLaidOut(stack: Elements, a: Element, keys: Elements, b: Element, k: nat)
    ensures var full := stack + [a] + keys + [b];
            MultiLayout(full, stack, keys, k) && full[|full| - 1] == b && full[|full| - 2 - |keys|] == a
  {}

  lemma MultiStep(stack: Elements, k: nat, keys: Elements, alt: Elements)
    requires k <= |keys|
    ensures CheckMultiSigStep(Running(stack + [Numbered(k)] + keys + [Numbered(|keys|)], alt, [])) == MultiOutcome(stack, k, keys, alt)
  {
    var full := stack + [Numbered(k)] + keys + [Numbered(|keys|)];
    MultiIsLaidOut(stack, Numbered(k), keys, Numbered(|keys|), k);
    MultiReads(full, |keys|, k, alt);
    MultiSigOutcome(full, stack, k, keys, alt);
  }

  lemma MultiDoes(tx: Tx, k: nat, keys: seq<nat>, ctx: Context)
    requires 1 <= k <= |keys|
    ensures Does(tx, MultiScript(k, keys, ctx), false, true, MultiWays(k, keys))
  {
    var s := MultiScript(k, keys, ctx);
    ExecMulti(tx, k, keys, [], [], ctx);
    forall stack, alt
      ensures Sound(tx, s, false, true, MultiWays(k, keys), stack, alt)
    {
      MultiSound(tx, k, keys, stack, alt, ctx);
    }
    forall base, w, sat, alt
      ensures Complete(tx, s, false, true, MultiWays(k, keys), base, w, sat, alt)
    {
      MultiComplete(tx, k, keys, base, w, sat, alt, ctx);
    }
  }

  lemma MultiTaken(k: nat, keys: seq<nat>, sigs: Elements)
    requires |sigs| == k && (Matches(sigs, KeyElements(keys)) || AllEmpty(sigs))
    ensures Way([Empty] + sigs, {}, |keys|) in Side(MultiWays(k, keys), Matches(sigs, KeyElements(keys)))
  {
    MatchesIffPicked(sigs, keys);
    if AllEmpty(sigs) {
      assert [Empty] + sigs == Empties(k + 1);
    }
  }

  lemma MultiSound(tx: Tx, k: nat, keys: seq<nat>, stack: Elements, alt: Elements, ctx: Context)
    requires 1 <= k <= |keys|
    ensures Sound(tx, MultiScript(k, keys, ctx), false, true, MultiWays(k, keys), stack, alt)
  {
    ExecMulti(tx, k, keys, stack, alt, ctx);
    MultiStep(stack, k, KeyElements(keys), alt);
    if MultiOutcome(stack, k, KeyElements(keys), alt).Running? {
      var base, sigs := MultiTakes(stack, k, KeyElements(keys), alt);
      MultiExplains(tx, k, keys, base, sigs);
    }
  }

  lemma MultiTakes(stack: Elements, k: nat, keys: Elements, alt: Elements) returns (base: Elements, sigs: Elements)
    requires MultiOutcome(stack, k, keys, alt).Running?
    ensures stack == base + ([Empty] + sigs) && |sigs| == k && (Matches(sigs, keys) || AllEmpty(sigs))
    ensures MultiOutcome(stack, k, keys, alt) == Running(base + [Truth(Matches(sigs, keys))], alt, [])
  {
    base, sigs := stack[..|stack| - 1 - k], stack[|stack| - k..];
  }

  lemma MultiExplains(tx: Tx, k: nat, keys: seq<nat>, base: Elements, sigs: Elements)
    requires |sigs| == k && (Matches(sigs, KeyElements(keys)) || AllEmpty(sigs))
    ensures var sat := Matches(sigs, KeyElements(keys));
            Explains(tx, false, true, MultiWays(k, keys), base + ([Empty] + sigs), base + [Truth(sat)], base, Way([Empty] + sigs, {}, |keys|), sat)
  {
    MultiTaken(k, keys, sigs);
  }

  lemma MultiComplete(tx: Tx, k: nat, keys: seq<nat>, base: Elements, w: Way, sat: bool, alt: Elements, ctx: Context)
    requires 1 <= k <= |keys|
    ensures Complete(tx, MultiScript(k, keys, ctx), false, true, MultiWays(k, keys), base, w, sat, alt)
  {
    if w in Side(MultiWays(k, keys), sat) {
      var stack := base + w.items;
      ExecMulti(tx, k, keys, stack, alt, ctx);
      MultiStep(stack, k, KeyElements(keys), alt);
      var sigs := MultiSigs(k, keys, w, sat);
      assert |stack| == |base| + 1 + k;
      assert stack[..|base|] == base && stack[|base| + 1..] == sigs && stack[|base|] == Empty;
    }
  }

  lemma MultiSigs(k: nat, keys: seq<nat>, w: Way, sat: bool) returns (sigs: Elements)
    requires 1 <= k <= |keys| && w in Side(MultiWays(k, keys), sat)
    ensures w.items == [Empty] + sigs && |sigs| == k && Matches(sigs, KeyElements(keys)) == sat && (!sat ==> AllEmpty(sigs))
  {
    if sat {
      sigs :| sigs in Picks(keys, k) && w == Way([Empty] + sigs, {}, |keys|);
      PicksTopped(keys, k, sigs);
      MatchesIffPicked(sigs, keys);
    } else {
      sigs := Empties(k);
      assert [Empty] + sigs == Empties(k + 1);
      MatchesIffPicked(sigs, keys);
      if sigs in Picks(keys, k) {
        PicksTopped(keys, k, sigs);
      }
    }
  }

  // ---- CHECKSIGADD ----

  lemma AddKeyStep(key: nat, base: Elements, sig: Element, n: nat, alt: Elements)
    ensures CheckSigAddStep(Running(base + [sig, Numbered(n), PubKey(key)], alt, [])) ==
              match SigAnswer(key, sig) case None => Failed case Some(b) => Running(base + [Numbered(n + (if b then 1 else 0))], alt, [])
  {
    var m := Running(base + [sig, Numbered(n), PubKey(key)], alt, []);
    assert Pop(m, 3) == base && Top(m, 0) == PubKey(key) && Top(m, 1) == Numbered(n) && Top(m, 2) == sig;
  }

  lemma ExecAddKey(tx: Tx, key: nat, base: Elements, sig: Element, n: nat, alt: Elements, ctx: Context)
    ensures Exec(tx, [PushOf(KeyBytes(key), ctx), Code(OpCheckSigAdd)], base + [sig] + [Numbered(n)], alt) ==
              match SigAnswer(key, sig) case None => Failed case Some(b) => Running(base + [Numbered(n + (if b then 1 else 0))], alt, [])
  {
    var a, c := PushOf(KeyBytes(key), ctx), Code(OpCheckSigAdd);
    assert [a, c] == [a] + [c];
    var stack := base + [sig] + [Numbered(n)];
    ExecBefore(tx, a, [c], stack, alt);
    ExecOne(tx, c, stack + [PubKey(key)], alt);
    AddKeyStep(key, base, sig, n, alt);
    assert stack + [PubKey(key)] == base + [sig, Numbered(n), PubKey(key)];
  }

  lemma ExecAddKeyNone(tx: Tx, key: nat, n: nat, alt: Elements, ctx: Context)
    ensures Exec(tx, [PushOf(KeyBytes(key), ctx), Code(OpCheckSigAdd)], [] + [Numbered(n)], alt) == Failed
  {
    var a, c := PushOf(KeyBytes(key), ctx), Code(OpCheckSigAdd);
    assert [a, c] == [a] + [c];
    ExecBefore(tx, a, [c], [] + [Numbered(n)], alt);
    ExecOne(tx, c, [] + [Numbered(n)] + [PubKey(key)], alt);
  }

  lemma ProperAdds(tx: Tx, keys: seq<nat>, ctx: Context)
    ensures Proper(tx, CheckSigAdds(keys, ctx))
  {
    PlainAdds(keys, ctx);
    ProperPlain(tx, CheckSigAdds(keys, ctx));
  }

  lemma {:induction false} PlainAdds(keys: seq<nat>, ctx: Context)
    ensures forall i :: 0 <= i < |CheckSigAdds(keys, ctx)| ==> !IsControl(CheckSigAdds(keys, ctx)[i])
    decreases |keys|
  {
    if |keys| > 0 {
      PlainAdds(keys[..|keys| - 1], ctx);
    }
  }

  lemma AddsAre(keys: seq<nat>, last: nat, ctx: Context)
    requires |keys| == last + 1 && last > 0
    ensures CheckSigAdds(keys, ctx) == CheckSigAdds(keys[..last], ctx) + [PushOf(KeyBytes(keys[last]), ctx), Code(OpCheckSigAdd)]
  {}

  /** The first key is checked with CHECKSIG. */
  lemma FirstKey(tx: Tx, keys: seq<nat>, stack: Elements, alt: Elements, ctx: Context)
    requires |keys| == 1
    ensures Exec(tx, CheckSigAdds(keys, ctx), stack, alt) == CheckSigStep(Running(stack + [PubKey(keys[0])], alt, []))
  {
    assert keys[..0] == [];
    assert CheckSigAdds(keys, ctx) == [PushOf(KeyBytes(keys[0]), ctx)] + CHECKSIG;
    ExecKey(tx, keys[0], stack, alt, ctx);
  }

  lemma OneMark(keys: seq<nat>, sig: Element)
    requires |keys| == 1 && SigAnswer(keys[0], sig).Some?
    ensures [sig] in Marks(keys, if SigAnswer(keys[0], sig).value then 1 else 0)
  {
    assert keys[..0] == [] && [] in Marks(keys[..0], 0);
    assert [sig] == [sig] + [];
  }

  lemma MoreMarks(keys: seq<nat>, last: nat, items: Elements, sig: Element, n: int)
    requires |keys| == last + 1 && items in Marks(keys[..last], n) && SigAnswer(keys[last], sig).Some?
    ensures [sig] + items in Marks(keys, n + (if SigAnswer(keys[last], sig).value then 1 else 0))
  {}

  /** A run over the keys has taken one element for each and counted the signatures. */
  lemma {:induction false} AddsSound(tx: Tx, keys: seq<nat>, stack: Elements, alt: Elements, ctx: Context)
    returns (base: Elements, items: Elements, n: nat)
    requires |keys| >= 1 && Exec(tx, CheckSigAdds(keys, ctx), stack, alt).Running?
    ensures stack == base + items && items in Marks(keys, n)
    ensures Exec(tx, CheckSigAdds(keys, ctx), stack, alt) == Running(base + [Numbered(n)], alt, [])
    decreases |keys|
  {
    var last := |keys| - 1;
    if last == 0 {
      base, items, n := FirstSound(tx, keys, stack, alt, ctx);
    } else {
      ProperAdds(tx, keys[..last], ctx);
      AddsAre(keys, last, ctx);
      ExecConcat(tx, CheckSigAdds(keys[..last], ctx), [PushOf(KeyBytes(keys[last]), ctx), Code(OpCheckSigAdd)], stack, alt);
      var mid, rest, k := AddsSound(tx, keys[..last], stack, alt, ctx);
      var sig;
      base, sig, n := AddKeySound(tx, keys[last], mid, k, alt, ctx);
      items := [sig] + rest;
      MoreMarks(keys, last, rest, sig, k);
      assert base + [sig] + rest == base + items;
    }
  }

  lemma FirstSound(tx: Tx, keys: seq<nat>, stack: Elements, alt: Elements, ctx: Context)
    returns (base: Elements, items: Elements, n: nat)
    requires |keys| == 1 && Exec(tx, CheckSigAdds(keys, ctx), stack, alt).Running?
    ensures stack == base + items && items in Marks(keys, n)
    ensures Exec(tx, CheckSigAdds(keys, ctx), stack, alt) == Running(base + [Numbered(n)], alt, [])
  {
    FirstKey(tx, keys, stack, alt, ctx);
    var size := |stack|;
    base, items := stack[..size - 1], [stack[size - 1]];
    assert stack == base + items;
    CheckSigAnswer(keys[0], base, stack[size - 1], alt);
    OneMark(keys, stack[size - 1]);
    n := if SigAnswer(keys[0], stack[size - 1]).value then 1 else 0;
  }

  lemma AddKeySound(tx: Tx, key: nat, mid: Elements, k: nat, alt: Elements, ctx: Context)
    returns (base: Elements, sig: Element, n: nat)
    requires Exec(tx, [PushOf(KeyBytes(key), ctx), Code(OpCheckSigAdd)], mid + [Numbered(k)], alt).Running?
    ensures mid == base + [sig] && SigAnswer(key, sig).Some? && n == k + (if SigAnswer(key, sig).value then 1 else 0)
    ensures Exec(tx, [PushOf(KeyBytes(key), ctx), Code(OpCheckSigAdd)], mid + [Numbered(k)], alt) == Running(base + [Numbered(n)], alt, [])
  {
    if |mid| == 0 {
      assert mid == [];
      ExecAddKeyNone(tx, key, k, alt, ctx);
      assert false;
    }
    base, sig := mid[..|mid| - 1], mid[|mid| - 1];
    assert mid == base + [sig];
    ExecAddKey(tx, key, base, sig, k, alt, ctx);
    n := k + (if SigAnswer(key, sig).value then 1 else 0);
  }

  lemma MarksFirst(keys: seq<nat>, items: Elements, n: int) returns (sig: Element, rest: Elements, k: int)
    requires |keys| >= 1 && items in Marks(keys, n)
    ensures var last := |keys| - 1;
            items == [sig] + rest && SigAnswer(keys[last], sig).Some? && rest in Marks(keys[..last], k)
            && n == k + (if SigAnswer(keys[last], sig).value then 1 else 0)
  {
    var last := |keys| - 1;
    if q :| q in Marks(keys[..last], n) && items == [Empty] + q {
      sig, rest, k := Empty, q, n;
    } else {
      var q :| q in Marks(keys[..last], n - 1) && items == [Sig(keys[last])] + q;
      sig, rest, k := Sig(keys[last]), q, n - 1;
    }
  }

  lemma {:induction false} MarksBounds(keys: seq<nat>, items: Elements, n: int)
    requires items in Marks(keys, n)
    ensures |items| == |keys| && 0 <= n
    decreases |keys|
  {
    if |keys| > 0 {
      var _, rest, k := MarksFirst(keys, items, n);
      MarksBounds(keys[..|keys| - 1], rest, k);
    }
  }

  lemma {:induction false} AddsComplete(tx: Tx, keys: seq<nat>, base: Elements, items: Elements, n: nat, alt: Elements, ctx: Context)
    requires |keys| >= 1 && items in Marks(keys, n)
    ensures Exec(tx, CheckSigAdds(keys, ctx), base + items, alt) == Running(base + [Numbered(n)], alt, [])
    decreases |keys|
  {
    var last := |keys| - 1;
    var sig, rest, k := MarksFirst(keys, items, n);
    MarksBounds(keys[..last], rest, k);
    if last == 0 {
      FirstKey(tx, keys, base + items, alt, ctx);
      assert items == [sig] && k == 0;
      CheckSigAnswer(keys[0], base, sig, alt);
    } else {
      ProperAdds(tx, keys[..last], ctx);
      AddsAre(keys, last, ctx);
      ExecConcat(tx, CheckSigAdds(keys[..last], ctx), [PushOf(KeyBytes(keys[last]), ctx), Code(OpCheckSigAdd)], base + items, alt);
      assert base + items == base + [sig] + rest;
      AddsComplete(tx, keys[..last], base + [sig], rest, k, alt, ctx);
      ExecAddKey(tx, keys[last], base, sig, k, alt, ctx);
    }
  }

  /** The count is compared with a number. */
  lemma ExecCompare(tx: Tx, k: nat, test: Test, base: Elements, n: nat, alt: Elements, ctx: Context)
    requires test == Equal || test == NumEqual
    ensures Exec(tx, Num(k, ctx) + [Check(test, false)], base + [Numbered(n)], alt) == Running(base + [Truth(n == k)], alt, [])
  {
    ExecBefore(tx, PushOf(Number(k), ctx), [Check(test, false)], base + [Numbered(n)], alt);
    var full := base + [Numbered(n)] + [Numbered(k)];
    ExecOne(tx, Check(test, false), full, alt);
    assert full[..|base|] == base;
  }

  lemma MultiAIs(k: nat, keys: seq<nat>, ctx: Context)
    ensures MultiAScript(k, keys, ctx) == CheckSigAdds(keys, ctx) + (Num(k, ctx) + [Check(NumEqual, false)])
  {}

  lemma MultiADoes(tx: Tx, k: nat, keys: seq<nat>, ctx: Context)
    requires 1 <= k <= |keys|
    ensures Does(tx, MultiAScript(k, keys, ctx), false, true, MultiAWays(k, keys, true))
  {
    var s, adds, fin, p := MultiAScript(k, keys, ctx), CheckSigAdds(keys, ctx), Num(k, ctx) + [Check(NumEqual, false)], MultiAWays(k, keys, true);
    ProperAdds(tx, keys, ctx);
    ProperPlain(tx, fin);
    ProperConcat(tx, adds, fin);
    MultiAIs(k, keys, ctx);
    forall stack, alt
      ensures Sound(tx, s, false, true, p, stack, alt)
    {
      ExecConcat(tx, adds, fin, stack, alt);
      var m := Exec(tx, s, stack, alt);
      if m.Running? {
        var base, items, n := AddsSound(tx, keys, stack, alt, ctx);
        ExecCompare(tx, k, NumEqual, base, n, alt, ctx);
        assert Explains(tx, false, true, p, stack, m.stack, base, Way(items, {}, 0), n == k);
      }
    }
    forall base, w, sat, alt
      ensures Complete(tx, s, false, true, p, base, w, sat, alt)
    {
      if w in Side(p, sat) {
        var n: nat :| w.items in Marks(keys, n) && (n == k) == sat;
        ExecConcat(tx, adds, fin, base + w.items, alt);
        AddsComplete(tx, keys, base, w.items, n, alt, ctx);
        ExecCompare(tx, k, NumEqual, base, n, alt, ctx);
      }
    }
  }

  // ---- thresh ----

  /** The script of a child and its ways. */
  datatype Part = Part(script: Script, ways: Both)

  /** [X1] ADD [X2] ADD ... [Xn] ADD */
  ghost function SumScript(parts: seq<Part>): Script {
    if |parts| == 0 then [] else parts[0].script + [Code(OpAdd)] + SumScript(parts[1..])
  }

  ghost function PartWays(parts: seq<Part>): seq<Both> {
    if |parts| == 0 then [] else [parts[0].ways] + PartWays(parts[1..])
  }

  /** All answer beside the sum. */
  ghost predicate AllBeside(tx: Tx, parts: seq<Part>) {
    |parts| > 0 ==> DoesBeside(tx, parts[0].script, true, parts[0].ways) && AllBeside(tx, parts[1..])
  }

  lemma {:induction false} ProperSum(tx: Tx, parts: seq<Part>)
    requires AllBeside(tx, parts)
    ensures Proper(tx, SumScript(parts))
    decreases |parts|
  {
    ProperNone(tx);
    if |parts| > 0 {
      ProperOne(tx, Code(OpAdd));
      ProperSum(tx, parts[1..]);
      ProperConcat(tx, parts[0].script, [Code(OpAdd)]);
      ProperConcat(tx, parts[0].script + [Code(OpAdd)], SumScript(parts[1..]));
    }
  }

  function One(sat: bool): nat {
    if sat then 1 else 0
  }

  lemma ExecSum(tx: Tx, base: Elements, p: Element, q: Element, n: nat, alt: Elements)
    requires AsNumber(p).Some? && AsNumber(q).Some? && n == AsNumber(p).value + AsNumber(q).value
    ensures Exec(tx, [Code(OpAdd)], base + [p, q], alt) == Running(base + [Numbered(n)], alt, [])
  {
    var full := base + [p, q];
    ExecOne(tx, Code(OpAdd), full, alt);
    assert full[..|full| - 2] == base;
  }

  /** ADD on the sum and an answer beside it. */
  lemma ExecAdd(tx: Tx, base: Elements, n: nat, sat: bool, after: Elements, alt: Elements)
    requires LeavesBeside(true, base, Numbered(n), sat, after)
    ensures Exec(tx, [Code(OpAdd)], after, alt) == Running(base + [Numbered(n + One(sat))], alt, [])
  {
    assert AsNumber(Numbered(n)) == Some(n) && AsNumber(Truth(sat)) == Some(One(sat));
    ExecSum(tx, base, Numbered(n), Truth(sat), n + One(sat), alt);
    ExecSum(tx, base, Truth(sat), Numbered(n), n + One(sat), alt);
  }

  /** A way to satisfy exactly k of the children. */
  ghost predicate Chosen(ps: seq<Both>, k: int, w: Way) {
    w in Choose(ps, k)
  }

  /** One child is dissatisfied with the rest as before, or satisfied with one less to satisfy. */
  lemma ChooseHead(head: Both, tail: seq<Both>, b: Way, a: Way, w: Way, k: nat, n: nat, sat: bool)
    requires Chosen(tail, k, b) && a in Side(head, sat) && w == Join(b, a) && n == One(sat) + k
    ensures Chosen([head] + tail, n, w)
  {
    ChooseCons(head, tail, n);
    assert w in Each(Choose(tail, k), Side(head, sat));
  }

  lemma ChooseSplit(head: Both, tail: seq<Both>, w: Way, k: nat) returns (b: Way, a: Way, n: nat, sat: bool)
    requires Chosen([head] + tail, k, w)
    ensures Chosen(tail, n, b) && a in Side(head, sat) && w == Join(b, a) && k == One(sat) + n
  {
    ChooseCons(head, tail, k);
    NoChoice(tail, k - 1);
    sat := w !in Each(Choose(tail, k), head.dsat);
    var m := k - One(sat);
    assert w in Each(Choose(tail, m), Side(head, sat));
    b, a :| b in Choose(tail, m) && a in Side(head, sat) && w == Join(b, a);
    if m < 0 {
      assert false;
    }
    n := m;
  }

  lemma ExecMore(tx: Tx, x: Script, rest: Script, base: Elements, t: Element, alt: Elements)
    requires Proper(tx, x)
    ensures var m := Exec(tx, x, base + [t], alt);
            Exec(tx, x + [Code(OpAdd)] + rest, base + [t], alt) ==
              if m.Failed? then Failed
              else var n := Exec(tx, [Code(OpAdd)], m.stack, m.alt); if n.Failed? then Failed else Exec(tx, rest, n.stack, n.alt)
  {
    ProperOne(tx, Code(OpAdd));
    ExecThree(tx, x, [Code(OpAdd)], rest, base + [t], alt);
    var m := Exec(tx, x, base + [t], alt);
    if m.Running? {
      ExecConcat(tx, [Code(OpAdd)], rest, m.stack, m.alt);
    }
  }

  /** One child and what follows it. */
  lemma HeadSound(tx: Tx, x: Script, xp: Both, rest: Script, stack: Elements, n: nat, alt: Elements)
    returns (mid: Elements, a: Way, sat: bool)
    requires DoesBeside(tx, x, true, xp) && Exec(tx, x + [Code(OpAdd)] + rest, stack + [Numbered(n)], alt).Running?
    ensures stack == mid + a.items && a in Side(xp, sat) && Held(tx, a.locks)
    ensures Exec(tx, x + [Code(OpAdd)] + rest, stack + [Numbered(n)], alt) == Exec(tx, rest, mid + [Numbered(n + One(sat))], alt)
  {
    ExecMore(tx, x, rest, stack, Numbered(n), alt);
    mid, a, sat := ExplainedBeside(tx, x, true, xp, stack, Numbered(n), alt);
    ExecAdd(tx, mid, n, sat, Exec(tx, x, stack + [Numbered(n)], alt).stack, alt);
  }

  lemma HeadComplete(tx: Tx, x: Script, xp: Both, rest: Script, mid: Elements, a: Way, sat: bool, n: nat, alt: Elements)
    requires DoesBeside(tx, x, true, xp) && a in Side(xp, sat) && Held(tx, a.locks)
    ensures Exec(tx, x + [Code(OpAdd)] + rest, mid + a.items + [Numbered(n)], alt) == Exec(tx, rest, mid + [Numbered(n + One(sat))], alt)
  {
    assert CompleteBeside(tx, x, true, xp, mid, Numbered(n), a, sat, alt);
    ExecMore(tx, x, rest, mid + a.items, Numbered(n), alt);
    ExecAdd(tx, mid, n, sat, Exec(tx, x, mid + a.items + [Numbered(n)], alt).stack, alt);
  }

  /** The ways of a child and of the rest, put together. */
  lemma JoinChosen(tx: Tx, head: Both, tail: seq<Both>, stack: Elements, mid: Elements, a: Way, sat: bool,
                   base: Elements, b: Way, m: nat, w: Way, k: nat)
    requires stack == mid + a.items && a in Side(head, sat) && Held(tx, a.locks)
    requires mid == base + b.items && Chosen(tail, m, b) && Held(tx, b.locks) && w == Join(b, a) && k == One(sat) + m
    ensures stack == base + w.items && Held(tx, w.locks) && Chosen([head] + tail, k, w)
  {
    HeldJoin(tx, b, a);
    StackJoin(base, b, a);
    ChooseHead(head, tail, b, a, w, m, k, sat);
  }

  lemma SplitChosen(tx: Tx, head: Both, tail: seq<Both>, base: Elements, w: Way, k: nat) returns (b: Way, a: Way, m: nat, sat: bool)
    requires Chosen([head] + tail, k, w) && Held(tx, w.locks)
    ensures base + w.items == base + b.items + a.items && a in Side(head, sat) && Held(tx, a.locks)
    ensures Chosen(tail, m, b) && Held(tx, b.locks) && k == One(sat) + m
  {
    b, a, m, sat := ChooseSplit(head, tail, w, k);
    HeldJoin(tx, b, a);
    StackJoin(base, b, a);
  }

  /** A run over the children has taken a way to satisfy some of them, and added their number. */
  lemma {:induction false} SumSound(tx: Tx, parts: seq<Part>, stack: Elements, n: nat, alt: Elements)
    returns (base: Elements, w: Way, k: nat, total: nat)
    requires AllBeside(tx, parts) && Exec(tx, SumScript(parts), stack + [Numbered(n)], alt).Running?
    ensures stack == base + w.items && Chosen(PartWays(parts), k, w) && Held(tx, w.locks) && total == n + k
    ensures Exec(tx, SumScript(parts), stack + [Numbered(n)], alt) == Running(base + [Numbered(total)], alt, [])
    decreases |parts|
  {
    if |parts| == 0 {
      base, w, k, total := stack, Nothing, 0, n;
      assert stack + [] == stack;
    } else {
      var mid, a, sat := HeadSound(tx, parts[0].script, parts[0].ways, SumScript(parts[1..]), stack, n, alt);
      var b, m;
      base, b, m, total := SumSound(tx, parts[1..], mid, n + One(sat), alt);
      w, k := Join(b, a), One(sat) + m;
      JoinChosen(tx, parts[0].ways, PartWays(parts[1..]), stack, mid, a, sat, base, b, m, w, k);
    }
  }

  lemma {:induction false} SumComplete(tx: Tx, parts: seq<Part>, base: Elements, w: Way, k: nat, n: nat, total: nat, alt: Elements)
    requires AllBeside(tx, parts) && Chosen(PartWays(parts), k, w) && Held(tx, w.locks) && total == n + k
    ensures Exec(tx, SumScript(parts), base + w.items + [Numbered(n)], alt) == Running(base + [Numbered(total)], alt, [])
    decreases |parts|
  {
    if |parts| == 0 {
      assert base + w.items == base;
    } else {
      var b, a, m, sat := SplitChosen(tx, parts[0].ways, PartWays(parts[1..]), base, w, k);
      HeadComplete(tx, parts[0].script, parts[0].ways, SumScript(parts[1..]), base + b.items, a, sat, n, alt);
      SumComplete(tx, parts[1..], base, b, m, n + One(sat), total, alt);
    }
  }

  /** The first child answers on its own. */
  lemma FirstSoundly(tx: Tx, x: Script, xp: Both, rest: Script, stack: Elements, alt: Elements)
    returns (mid: Elements, a: Way, sat: bool)
    requires Does(tx, x, false, true, xp) && Exec(tx, x + rest, stack, alt).Running?
    ensures stack == mid + a.items && a in Side(xp, sat) && Held(tx, a.locks)
    ensures Exec(tx, x + rest, stack, alt) == Exec(tx, rest, mid + [Numbered(One(sat))], alt)
  {
    ExecConcat(tx, x, rest, stack, alt);
    mid, a, sat := Explained(tx, x, false, true, xp, stack, alt);
    assert Exec(tx, x, stack, alt).stack == mid + [Numbered(One(sat))];
  }

  lemma FirstCompletely(tx: Tx, x: Script, xp: Both, rest: Script, mid: Elements, a: Way, sat: bool, alt: Elements)
    requires Does(tx, x, false, true, xp) && a in Side(xp, sat) && Held(tx, a.locks)
    ensures Exec(tx, x + rest, mid + a.items, alt) == Exec(tx, rest, mid + [Numbered(One(sat))], alt)
  {
    ExecConcat(tx, x, rest, mid + a.items, alt);
    assert Complete(tx, x, false, true, xp, mid, a, sat, alt);
    assert Exec(tx, x, mid + a.items, alt).stack == mid + [Numbered(One(sat))];
  }

  lemma PartsSound(tx: Tx, head: Part, tail: seq<Part>, stack: Elements, alt: Elements)
    returns (base: Elements, w: Way, k: nat)
    requires Does(tx, head.script, false, true, head.ways) && AllBeside(tx, tail)
    requires Exec(tx, head.script + SumScript(tail), stack, alt).Running?
    ensures stack == base + w.items && Chosen([head.ways] + PartWays(tail), k, w) && Held(tx, w.locks)
    ensures Exec(tx, head.script + SumScript(tail), stack, alt) == Running(base + [Numbered(k)], alt, [])
  {
    var mid, a, sat := FirstSoundly(tx, head.script, head.ways, SumScript(tail), stack, alt);
    var b, m;
    base, b, m, k := SumSound(tx, tail, mid, One(sat), alt);
    w := Join(b, a);
    JoinChosen(tx, head.ways, PartWays(tail), stack, mid, a, sat, base, b, m, w, k);
  }

  lemma PartsComplete(tx: Tx, head: Part, tail: seq<Part>, base: Elements, w: Way, k: nat, alt: Elements)
    requires Does(tx, head.script, false, true, head.ways) && AllBeside(tx, tail)
    requires Chosen([head.ways] + PartWays(tail), k, w) && Held(tx, w.locks)
    ensures Exec(tx, head.script + SumScript(tail), base + w.items, alt) == Running(base + [Numbered(k)], alt, [])
  {
    var b, a, m, sat := SplitChosen(tx, head.ways, PartWays(tail), base, w, k);
    FirstCompletely(tx, head.script, head.ways, SumScript(tail), base + b.items, a, sat, alt);
    SumComplete(tx, tail, base, b, m, One(sat), k, alt);
  }

  lemma ThreshSide(k: nat, ps: seq<Both>, w: Way, n: nat)
    requires k >= 1 && Chosen(ps, n, w)
    ensures w in Side(ThreshWays(k, ps, true), n == k)
  {}

  lemma ThreshChosen(k: nat, ps: seq<Both>, w: Way, sat: bool) returns (n: nat)
    requires k >= 1 && w in Side(ThreshWays(k, ps, true), sat)
    ensures Chosen(ps, n, w) && (n == k) == sat
  {
    if sat {
      n := k;
    } else if w in Choose(ps, 0) {
      n := 0;
    } else {
      n :| n != k && w in Choose(ps, n);
    }
  }

  lemma ThreshDoes(tx: Tx, k: nat, head: Part, tail: seq<Part>, ctx: Context)
    requires k >= 1 && Does(tx, head.script, false, true, head.ways) && AllBeside(tx, tail)
    ensures Does(tx, head.script + SumScript(tail) + (Num(k, ctx) + [Check(Equal, false)]), false, true,
                 ThreshWays(k, [head.ways] + PartWays(tail), true))
  {
    var sum, fin, ps := head.script + SumScript(tail), Num(k, ctx) + [Check(Equal, false)], [head.ways] + PartWays(tail);
    var p := ThreshWays(k, ps, true);
    ProperSum(tx, tail);
    ProperConcat(tx, head.script, SumScript(tail));
    ProperPlain(tx, fin);
    ProperConcat(tx, sum, fin);
    forall stack, alt
      ensures Sound(tx, sum + fin, false, true, p, stack, alt)
    {
      ExecConcat(tx, sum, fin, stack, alt);
      var m := Exec(tx, sum + fin, stack, alt);
      if m.Running? {
        var base, w, n := PartsSound(tx, head, tail, stack, alt);
        ExecCompare(tx, k, Equal, base, n, alt, ctx);
        ThreshSide(k, ps, w, n);
        assert Explains(tx, false, true, p, stack, m.stack, base, w, n == k);
      }
    }
    forall base, w, sat, alt
      ensures Complete(tx, sum + fin, false, true, p, base, w, sat, alt)
    {
      if w in Side(p, sat) && Held(tx, w.locks) {
        var n := ThreshChosen(k, ps, w, sat);
        ExecConcat(tx, sum, fin, base + w.items, alt);
        PartsComplete(tx, head, tail, base, w, n, alt);
        ExecCompare(tx, k, Equal, base, n, alt, ctx);
      }
    }
  }
}
