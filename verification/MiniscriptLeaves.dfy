/** The scripts of keys, hashes, timelocks and multisig do what their ways say. */
module MiniscriptLeaves {
  import opened Wrappers
  import opened Miniscript
  import opened MiniscriptWays
  import opened Scripts
  import opened ScriptMachine
  import opened MiniscriptExecution
  import opened MiniscriptFragments

  const CHECKSIG: Script := [Check(CheckSig, false)]

  /** A script without blocks. */
  lemma {:induction false} ProperPlain(tx: Tx, s: Script)
    requires forall i :: 0 <= i < |s| ==> !IsControl(s[i])
    ensures Proper(tx, s)
    decreases |s|
  {
    if |s| == 0 {
      ProperNone(tx);
    } else {
      var n := |s| - 1;
      ProperPlain(tx, s[..n]);
      ProperOne(tx, s[n]);
      ProperConcat(tx, s[..n], [s[n]]);
      assert s == s[..n] + [s[n]];
    }
  }

  /** A script that takes one element off, given by what it answers to each element. */
  ghost predicate AnswersOne(tx: Tx, s: Script, answer: Element -> Option<bool>) {
    && (forall alt :: Exec(tx, s, [], alt) == Failed)
    && (forall base, q, alt :: Exec(tx, s, base + [q], alt) ==
         match answer(q) case None => Failed case Some(b) => Running(base + [Truth(b)], alt, []))
  }

  ghost predicate OneWays(p: Both, answer: Element -> Option<bool>) {
    && (forall w, sat :: w in Side(p, sat) ==> |w.items| == 1 && answer(w.items[0]) == Some(sat))
    && (forall q :: answer(q).Some? ==> Way([q], {}, 0) in Side(p, answer(q).value))
  }

  lemma AnswersOneDoes(tx: Tx, s: Script, p: Both, answer: Element -> Option<bool>)
    requires Proper(tx, s) && AnswersOne(tx, s, answer) && OneWays(p, answer)
    ensures Does(tx, s, false, true, p)
  {
    forall stack, alt
      ensures Sound(tx, s, false, true, p, stack, alt)
    {
      var m := Exec(tx, s, stack, alt);
      if |stack| == 0 {
        assert stack == [];
      } else {
        var n := |stack| - 1;
        var base, q := stack[..n], stack[n];
        assert stack == base + [q];
        if m.Running? {
          assert Explains(tx, false, true, p, stack, m.stack, base, Way([q], {}, 0), answer(q).value);
        }
      }
    }
    forall base, w, sat, alt
      ensures Complete(tx, s, false, true, p, base, w, sat, alt)
    {
      if w in Side(p, sat) {
        assert w.items == [w.items[0]];
      }
    }
  }

  // ---- keys ----

  lemma ExecKey(tx: Tx, key: nat, stack: Elements, alt: Elements, ctx: Context)
    ensures Exec(tx, [PushOf(KeyBytes(key), ctx)] + CHECKSIG, stack, alt) ==
              CheckSigStep(Running(stack + [PubKey(key)], alt, []))
  {
    ExecBefore(tx, PushOf(KeyBytes(key), ctx), CHECKSIG, stack, alt);
    ExecOne(tx, Check(CheckSig, false), stack + [PubKey(key)], alt);
  }

  function SigAnswer(key: nat, sig: Element): Option<bool> {
    match SigCheck(sig, PubKey(key))
    case None => None
    case Some(n) => Some(n == 1)
  }

  lemma CheckSigAnswer(key: nat, base: Elements, sig: Element, alt: Elements)
    ensures CheckSigStep(Running(base + [sig] + [PubKey(key)], alt, [])) ==
              match SigAnswer(key, sig) case None => Failed case Some(b) => Running(base + [Truth(b)], alt, [])
  {
    assert (base + [sig] + [PubKey(key)])[..|base|] == base;
  }

  lemma KeyDoes(tx: Tx, key: nat, ctx: Context)
    ensures Does(tx, [PushOf(KeyBytes(key), ctx)] + CHECKSIG, false, true, Both(Just([Sig(key)]), Just([Empty])))
  {
    var s, answer := [PushOf(KeyBytes(key), ctx)] + CHECKSIG, sig => SigAnswer(key, sig);
    ProperPlain(tx, s);
    forall alt
      ensures Exec(tx, s, [], alt) == Failed
    {
      ExecKey(tx, key, [], alt, ctx);
    }
    forall base, sig, alt
      ensures Exec(tx, s, base + [sig], alt) ==
                match answer(sig) case None => Failed case Some(b) => Running(base + [Truth(b)], alt, [])
    {
      ExecKey(tx, key, base + [sig], alt, ctx);
      CheckSigAnswer(key, base, sig, alt);
    }
    AnswersOneDoes(tx, s, Both(Just([Sig(key)]), Just([Empty])), answer);
  }

  // ---- key hashes ----

  /** DUP HASH160 <key hash> EQUALVERIFY checks that the key is on top. */
  lemma ExecPkH(tx: Tx, key: nat, base: Elements, q: Element, alt: Elements, ctx: Context)
    ensures Exec(tx, PkHScript(key, ctx), base + [q], alt) == if q == PubKey(key) then Running(base + [q], alt, []) else Failed
  {
    var a, b, c, d := Code(OpDup), Code(OpHash(Hash160)), PushOf(KeyHash(key), ctx), Check(Equal, true);
    assert PkHScript(key, ctx) == [a] + ([b] + ([c] + [d]));
    ExecBefore(tx, a, [b] + ([c] + [d]), base + [q], alt);
    var stack := base + [q] + [q];
    ExecBefore(tx, b, [c] + [d], stack, alt);
    var h := Hashed(Hash160, q);
    assert stack[..|base| + 1] == base + [q];
    ExecBefore(tx, c, [d], base + [q] + [h], alt);
    var full := base + [q] + [h] + [Digest(Hash160, PubKey(key))];
    ExecOne(tx, d, full, alt);
    EqualVerify(base + [q], h, Digest(Hash160, PubKey(key)), alt);
  }

  lemma EqualVerify(base: Elements, a: Element, b: Element, alt: Elements)
    ensures VerifyStep(TestStep(Equal, Running(base + [a] + [b], alt, []))) == if a == b then Running(base, alt, []) else Failed
  {
    assert (base + [a] + [b])[..|base|] == base;
    assert (base + [Truth(a == b)])[..|base|] == base;
  }

  lemma ExecPkHNone(tx: Tx, key: nat, alt: Elements, ctx: Context)
    ensures Exec(tx, PkHScript(key, ctx), [], alt) == Failed
  {
    var s := PkHScript(key, ctx);
    assert s == [s[0]] + s[1..];
    ExecBefore(tx, s[0], s[1..], [], alt);
  }

  lemma ExecPkHKey(tx: Tx, key: nat, base: Elements, q: Element, alt: Elements, ctx: Context)
    ensures Exec(tx, PkHScript(key, ctx) + CHECKSIG, base + [q], alt) ==
              if q == PubKey(key) then CheckSigStep(Running(base + [q], alt, [])) else Failed
  {
    ProperPlain(tx, PkHScript(key, ctx));
    ExecAfter(tx, PkHScript(key, ctx), Check(CheckSig, false), base + [q], alt);
    ExecPkH(tx, key, base, q, alt, ctx);
  }

  ghost function KeyHashWays(key: nat): Both {
    Both(Just([Sig(key), PubKey(key)]), Just([Empty, PubKey(key)]))
  }

  lemma KeyHashDoes(tx: Tx, key: nat, ctx: Context)
    ensures Does(tx, PkHScript(key, ctx) + CHECKSIG, false, true, KeyHashWays(key))
  {
    var s := PkHScript(key, ctx) + CHECKSIG;
    ProperPlain(tx, s);
    forall stack, alt
      ensures Sound(tx, s, false, true, KeyHashWays(key), stack, alt)
    {
      KeyHashSound(tx, key, stack, alt, ctx);
    }
    forall base, w, sat, alt
      ensures Complete(tx, s, false, true, KeyHashWays(key), base, w, sat, alt)
    {
      if w in Side(KeyHashWays(key), sat) {
        var sig := if sat then Sig(key) else Empty;
        assert base + w.items == base + [sig] + [PubKey(key)];
        ExecPkHKey(tx, key, base + [sig], PubKey(key), alt, ctx);
        CheckSigAnswer(key, base, sig, alt);
      }
    }
  }

  lemma KeyHashSound(tx: Tx, key: nat, stack: Elements, alt: Elements, ctx: Context)
    ensures Sound(tx, PkHScript(key, ctx) + CHECKSIG, false, true, KeyHashWays(key), stack, alt)
  {
    var n := |stack|;
    if n == 0 {
      assert stack == [];
      ProperPlain(tx, PkHScript(key, ctx));
      ExecAfter(tx, PkHScript(key, ctx), Check(CheckSig, false), stack, alt);
      ExecPkHNone(tx, key, alt, ctx);
    } else {
      var top := stack[n - 1];
      assert stack == stack[..n - 1] + [top];
      ExecPkHKey(tx, key, stack[..n - 1], top, alt, ctx);
      if n >= 2 && top == PubKey(key) {
        var base, sig := stack[..n - 2], stack[n - 2];
        assert stack == base + [sig] + [top];
        KeyHashRuns(tx, key, base, sig, alt, ctx);
      }
    }
  }

  lemma KeyHashRuns(tx: Tx, key: nat, base: Elements, sig: Element, alt: Elements, ctx: Context)
    ensures Sound(tx, PkHScript(key, ctx) + CHECKSIG, false, true, KeyHashWays(key), base + [sig] + [PubKey(key)], alt)
  {
    var stack := base + [sig] + [PubKey(key)];
    ExecPkHKey(tx, key, base + [sig], PubKey(key), alt, ctx);
    CheckSigAnswer(key, base, sig, alt);
    var m := Exec(tx, PkHScript(key, ctx) + CHECKSIG, stack, alt);
    if m.Running? {
      assert stack == base + [sig, PubKey(key)];
      assert Explains(tx, false, true, KeyHashWays(key), stack, m.stack, base, Way([sig, PubKey(key)], {}, 0), SigAnswer(key, sig).value);
    }
  }

  // ---- timelocks ----

  lemma LockDoes(tx: Tx, lock: Lock, ctx: Context)
    requires lock.n >= 1
    ensures Does(tx, Num(lock.n, ctx) + [Code(if lock.Relative? then OpCheckSequenceVerify else OpCheckLockTimeVerify)],
                 false, false, Both(Locked(lock), iset{}))
  {
    var op := Code(if lock.Relative? then OpCheckSequenceVerify else OpCheckLockTimeVerify);
    var s, p := Num(lock.n, ctx) + [op], Both(Locked(lock), iset{});
    ProperPlain(tx, s);
    forall stack, alt
      ensures Exec(tx, s, stack, alt) == if Met(tx, lock) then Running(stack + [Numbered(lock.n)], alt, []) else Failed
    {
      ExecBefore(tx, PushOf(Number(lock.n), ctx), [op], stack, alt);
      ExecOne(tx, op, stack + [Numbered(lock.n)], alt);
    }
    forall stack, alt
      ensures Sound(tx, s, false, false, p, stack, alt)
    {
      if Met(tx, lock) {
        assert stack == stack + [];
        assert Explains(tx, false, false, p, stack, stack + [Numbered(lock.n)], stack, Way([], {lock}, 0), true);
      }
    }
    forall base, w, sat, alt
      ensures Complete(tx, s, false, false, p, base, w, sat, alt)
    {
      if w in Side(p, sat) && Held(tx, w.locks) {
        assert lock in w.locks;
        assert base + w.items == base;
      }
    }
  }

  // ---- hashes ----

  function HashAnswer(kind: HashKind, image: nat, q: Element): Option<bool> {
    if ElementLength(q) == 32 then Some(q == Preimage(kind, image)) else None
  }

  lemma ExecHash(tx: Tx, kind: HashKind, image: nat, base: Elements, q: Element, alt: Elements, ctx: Context)
    ensures Exec(tx, HashLockScript(kind, image, ctx), base + [q], alt) ==
              match HashAnswer(kind, image, q) case None => Failed case Some(b) => Running(base + [Truth(b)], alt, [])
  {
    var a, b, c := Code(OpSize), PushOf(Number(32), ctx), Check(Equal, true);
    var rest := [Code(OpHash(kind))] + ([PushOf(Image(kind, image), ctx)] + [Check(Equal, false)]);
    assert HashLockScript(kind, image, ctx) == [a] + ([b] + ([c] + rest));
    var n, k: nat := ElementLength(q), 32;
    ExecBefore(tx, a, [b] + ([c] + rest), base + [q], alt);
    ExecBefore(tx, b, [c] + rest, base + [q] + [Numbered(n)], alt);
    ExecBefore(tx, c, rest, base + [q] + [Numbered(n)] + [Numbered(k)], alt);
    EqualVerify(base + [q], Numbered(n), Numbered(k), alt);
    if n == k {
      ExecHashed(tx, kind, image, base, q, alt, ctx);
    }
  }

  lemma ExecHashed(tx: Tx, kind: HashKind, image: nat, base: Elements, q: Element, alt: Elements, ctx: Context)
    ensures Exec(tx, [Code(OpHash(kind))] + ([PushOf(Image(kind, image), ctx)] + [Check(Equal, false)]), base + [q], alt) ==
              Running(base + [Truth(q == Preimage(kind, image))], alt, [])
  {
    ExecBefore(tx, Code(OpHash(kind)), [PushOf(Image(kind, image), ctx)] + [Check(Equal, false)], base + [q], alt);
    assert (base + [q])[..|base|] == base;
    ExecBefore(tx, PushOf(Image(kind, image), ctx), [Check(Equal, false)], base + [Hashed(kind, q)], alt);
    var full := base + [Hashed(kind, q)] + [ImageOf(kind, image)];
    ExecOne(tx, Check(Equal, false), full, alt);
    assert full[..|base|] == base;
  }

  lemma HashDoes(tx: Tx, kind: HashKind, image: nat, ctx: Context)
    ensures Does(tx, HashLockScript(kind, image, ctx), false, true, Both(Just([Preimage(kind, image)]), WrongPreimages(kind, image)))
  {
    var s, answer := HashLockScript(kind, image, ctx), q => HashAnswer(kind, image, q);
    ProperPlain(tx, s);
    forall alt
      ensures Exec(tx, s, [], alt) == Failed
    {
      assert s == [s[0]] + s[1..];
      ExecBefore(tx, s[0], s[1..], [], alt);
    }
    forall base, q, alt
      ensures Exec(tx, s, base + [q], alt) ==
                match answer(q) case None => Failed case Some(b) => Running(base + [Truth(b)], alt, [])
    {
      ExecHash(tx, kind, image, base, q, alt, ctx);
    }
    AnswersOneDoes(tx, s, Both(Just([Preimage(kind, image)]), WrongPreimages(kind, image)), answer);
  }
}
