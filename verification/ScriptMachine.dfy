/**
 Running Script: a stack, an alternative stack and the conditions of the open IF blocks, for the
 operations that Miniscript uses and under the consensus and standardness rules it relies on (section
 "Translation table" of BIP 379): the argument of IF is the empty element or 1, a signature that does
 not verify is empty, and the extra element of CHECKMULTISIG is empty.

 Elements elements are symbolic: a signature verifies under its own key only, and hashes do not collide.
 */
module ScriptMachine {
  import opened Wrappers
  import opened Miniscript
  import opened MiniscriptInfo
  import opened Scripts

  /** A stack element. The numbers 0 and 1 are Empty and True. */
  datatype Element =
    | Sig(key: nat)
    | PubKey(key: nat)
    | Preimage(kind: HashKind, image: nat)
    | Other(bytes: nat)    // any other 32 bytes
    | Empty
    | True
    | Numeral(n: nat)
    | Digest(kind: HashKind, of: Element)
    | ImageOf(kind: HashKind, image: nat)

  /** The bytes of an element. */
  function ElementLength(item: Element): nat {
    match item
    case Sig(_) => 72
    case PubKey(_) => 33
    case Preimage(_, _) => 32
    case Other(_) => 32
    case Empty => 0
    case True => 1
    case Numeral(n) => |NumberBytes(n)|
    case Digest(kind, _) => DigestLength(kind)
    case ImageOf(kind, _) => DigestLength(kind)
  }

  function DigestLength(kind: HashKind): nat {
    if kind == Sha256 || kind == Hash256 then 32 else 20
  }

  function Numbered(n: nat): Element {
    if n == 0 then Empty else if n == 1 then True else Numeral(n)
  }

  /** The number an element stands for. */
  function AsNumber(item: Element): Option<nat> {
    match item
    case Empty => Some(0)
    case True => Some(1)
    case Numeral(n) => if n >= 2 then Some(n) else None
    case _ => None
  }

  function Hashed(kind: HashKind, item: Element): Element {
    if item.Preimage? && item.kind == kind then ImageOf(kind, item.image) else Digest(kind, item)
  }

  function Pushed(item: Item): Element {
    match item
    case Number(n) => Numbered(n)
    case KeyBytes(key) => PubKey(key)
    case KeyHash(key) => Digest(Hash160, PubKey(key))
    case Image(kind, image) => ImageOf(kind, image)
  }

  // ---- timelocks ----

  datatype Lock = Relative(n: nat) | Absolute(n: nat)

  /** The sequence number of the input and the lock time of a version 2 transaction. */
  datatype Tx = Tx(sequence: nat, lockTime: nat)

  const FINAL: nat := 0xffff_ffff
  const DISABLED: nat := 0x8000_0000

  predicate IsTime(lock: Lock) {
    match lock
    case Relative(n) => n / TIME_FLAG % 2 == 1
    case Absolute(n) => n >= LOCKTIME_THRESHOLD
  }

  /** What CHECKSEQUENCEVERIFY and CHECKLOCKTIMEVERIFY demand (BIP 112 and BIP 65). */
  predicate Met(tx: Tx, lock: Lock) {
    match lock
    case Relative(n) =>
      n / DISABLED % 2 == 1
      || (tx.sequence / DISABLED % 2 == 0 && IsTime(lock) == IsTime(Relative(tx.sequence)) && n % 65536 <= tx.sequence % 65536)
    case Absolute(n) => IsTime(lock) == IsTime(Absolute(tx.lockTime)) && n <= tx.lockTime && tx.sequence != FINAL
  }

  ghost predicate Held(tx: Tx, locks: set<Lock>) {
    forall lock :: lock in locks ==> Met(tx, lock)
  }

  // ---- the machine ----

  type Elements = seq<Element>

  /** The condition of an IF block is false also while its ELSE part does not run. */
  datatype Machine = Failed | Running(stack: Elements, alt: Elements, conds: seq<bool>)

  function Pop(m: Machine, n: nat): Elements
    requires m.Running? && n <= |m.stack|
  {
    m.stack[..|m.stack| - n]
  }

  /** The n-th element from the top. */
  function Top(m: Machine, n: nat): Element
    requires m.Running? && n < |m.stack|
  {
    m.stack[|m.stack| - 1 - n]
  }

  /** Takes n elements off and puts one on. */
  function Replace(m: Machine, n: nat, item: Element): Machine
    requires m.Running? && n <= |m.stack|
  {
    m.(stack := Pop(m, n) + [item])
  }

  function Truth(b: bool): Element {
    if b then True else Empty
  }

  /** Replaces n numbers by a number, and fails where an element is not a number. */
  function Unary(m: Machine, f: nat -> nat): Machine
    requires m.Running?
  {
    if |m.stack| < 1 || AsNumber(Top(m, 0)).None? then Failed
    else Replace(m, 1, Numbered(f(AsNumber(Top(m, 0)).value)))
  }

  function Combined(m: Machine, f: (nat, nat) -> nat): Machine
    requires m.Running?
  {
    if |m.stack| < 2 || AsNumber(Top(m, 0)).None? || AsNumber(Top(m, 1)).None? then Failed
    else Replace(m, 2, Numbered(f(AsNumber(Top(m, 1)).value, AsNumber(Top(m, 0)).value)))
  }

  /** A signature check ends in 1, in 0 for the empty signature, and fails for any other. */
  function SigCheck(sig: Element, key: Element): Option<nat> {
    if !key.PubKey? then None
    else if sig == Sig(key.key) then Some(1)
    else if sig == Empty then Some(0)
    else None
  }

  function CheckSigStep(m: Machine): Machine
    requires m.Running?
  {
    if |m.stack| < 2 || SigCheck(Top(m, 1), Top(m, 0)).None? then Failed
    else Replace(m, 2, Numbered(SigCheck(Top(m, 1), Top(m, 0)).value))
  }

  /** <signature> <number> <key> */
  function CheckSigAddStep(m: Machine): Machine
    requires m.Running?
  {
    if |m.stack| < 3 || AsNumber(Top(m, 1)).None? || SigCheck(Top(m, 2), Top(m, 0)).None? then Failed
    else Replace(m, 3, Numbered(AsNumber(Top(m, 1)).value + SigCheck(Top(m, 2), Top(m, 0)).value))
  }

  /** Signatures and keys are compared from the last ones on, and a key that does not fit is passed over. */
  predicate Matches(sigs: Elements, keys: Elements) {
    if |sigs| == 0 then true
    else if |sigs| > |keys| then false
    else
      var s, k := |sigs| - 1, |keys| - 1;
      if keys[k].PubKey? && sigs[s] == Sig(keys[k].key) then Matches(sigs[..s], keys[..k]) else Matches(sigs, keys[..k])
  }

  predicate AllEmpty(s: Elements) {
    forall i :: 0 <= i < |s| ==> s[i] == Empty
  }

  /** <empty> <signature 1> ... <signature k> <k> <key 1> ... <key n> <n> */
  function CheckMultiSigStep(m: Machine): Machine
    requires m.Running?
  {
    if |m.stack| < 1 || AsNumber(Top(m, 0)).None? then Failed
    else
      var n := AsNumber(Top(m, 0)).value;
      if |m.stack| < n + 2 || AsNumber(Top(m, n + 1)).None? then Failed
      else MultiSigStep(m, n, AsNumber(Top(m, n + 1)).value)
  }

  function MultiSigStep(m: Machine, n: nat, k: nat): Machine
    requires m.Running? && |m.stack| >= n + 2
  {
    var size := |m.stack|;
    if k > n || size < n + k + 3 || Top(m, n + k + 2) != Empty then Failed
    else
      var sigs, keys := m.stack[size - 2 - n - k..size - 2 - n], m.stack[size - 1 - n..size - 1];
      if Matches(sigs, keys) then Replace(m, n + k + 3, True)
      else if AllEmpty(sigs) then Replace(m, n + k + 3, Empty)
      else Failed
  }

  function TestStep(test: Test, m: Machine): Machine
    requires m.Running?
  {
    match test
    case Equal => if |m.stack| < 2 then Failed else Replace(m, 2, Truth(Top(m, 1) == Top(m, 0)))
    case CheckSig => CheckSigStep(m)
    case CheckMultiSig => CheckMultiSigStep(m)
    case NumEqual => Combined(m, (a, b) => if a == b then 1 else 0)
  }

  function VerifyStep(m: Machine): Machine {
    if m.Failed? || |m.stack| < 1 || Top(m, 0) == Empty then Failed else m.(stack := Pop(m, 1))
  }

  /** IF and NOTIF: the element taken off has to be 1 or empty. */
  function Branch(m: Machine, taken: Element): Machine
    requires m.Running?
  {
    if |m.stack| < 1 || (Top(m, 0) != True && Top(m, 0) != Empty) then Failed
    else Running(Pop(m, 1), m.alt, m.conds + [Top(m, 0) == taken])
  }

  /** ELSE and ENDIF are carried out whether or not the block runs. */
  function Control(code: Opcode, m: Machine): Machine
    requires m.Running?
  {
    if |m.conds| == 0 then Failed
    else
      var n := |m.conds| - 1;
      if code == OpElse then m.(conds := m.conds[..n] + [!m.conds[n]]) else m.(conds := m.conds[..n])
  }

  function LockStep(tx: Tx, m: Machine, relative: bool): Machine
    requires m.Running?
  {
    if |m.stack| < 1 || AsNumber(Top(m, 0)).None? then Failed
    else
      var n := AsNumber(Top(m, 0)).value;
      if Met(tx, if relative then Relative(n) else Absolute(n)) then m else Failed
  }

  function CodeStep(tx: Tx, code: Opcode, m: Machine): Machine
    requires m.Running?
  {
    var size := |m.stack|;
    match code
    case OpDup => if size < 1 then Failed else m.(stack := m.stack + [Top(m, 0)])
    case OpSwap => if size < 2 then Failed else m.(stack := Pop(m, 2) + [Top(m, 0), Top(m, 1)])
    case OpSize => if size < 1 then Failed else m.(stack := m.stack + [Numbered(ElementLength(Top(m, 0)))])
    case OpIfDup => if size < 1 then Failed else if Top(m, 0) == Empty then m else m.(stack := m.stack + [Top(m, 0)])
    case OpToAltStack => if size < 1 then Failed else Running(Pop(m, 1), m.alt + [Top(m, 0)], m.conds)
    case OpFromAltStack =>
      if |m.alt| < 1 then Failed else Running(m.stack + [m.alt[|m.alt| - 1]], m.alt[..|m.alt| - 1], m.conds)
    case OpHash(kind) => if size < 1 then Failed else Replace(m, 1, Hashed(kind, Top(m, 0)))
    case OpCheckSigAdd => CheckSigAddStep(m)
    case OpVerify => VerifyStep(m)
    case OpAdd => Combined(m, (a, b) => a + b)
    case OpBoolAnd => Combined(m, (a, b) => if a != 0 && b != 0 then 1 else 0)
    case OpBoolOr => Combined(m, (a, b) => if a != 0 || b != 0 then 1 else 0)
    case OpZeroNotEqual => Unary(m, a => if a != 0 then 1 else 0)
    case OpCheckSequenceVerify => LockStep(tx, m, true)
    case OpCheckLockTimeVerify => LockStep(tx, m, false)
    case OpIf => Branch(m, True)
    case OpNotIf => Branch(m, Empty)
    case OpElse => Control(code, m)
    case OpEndIf => Control(code, m)
  }

  /** Where a block does not run, only the nesting of blocks is followed. */
  function SkipStep(op: Op, m: Machine): Machine
    requires m.Running?
  {
    if op == Code(OpIf) || op == Code(OpNotIf) then m.(conds := m.conds + [false])
    else if op == Code(OpElse) || op == Code(OpEndIf) then Control(op.code, m)
    else m
  }

  function ActStep(tx: Tx, op: Op, m: Machine): Machine
    requires m.Running?
  {
    match op
    case Push(item, _) => m.(stack := m.stack + [Pushed(item)])
    case Code(code) => CodeStep(tx, code, m)
    case Check(test, verify) => if verify then VerifyStep(TestStep(test, m)) else TestStep(test, m)
  }

  function Step(tx: Tx, op: Op, m: Machine): Machine {
    if m.Failed? then Failed
    else if false in m.conds then SkipStep(op, m)
    else ActStep(tx, op, m)
  }

  function Run(tx: Tx, s: Script, m: Machine): Machine {
    if |s| == 0 then m else Step(tx, s[|s| - 1], Run(tx, s[..|s| - 1], m))
  }

  /** The script ends with one element that is not empty. */
  predicate Accepts(tx: Tx, s: Script, w: Elements) {
    var m := Run(tx, s, Running(w, [], []));
    m.Running? && m.conds == [] && |m.stack| == 1 && m.stack[0] != Empty
  }

  /** The script ends with the empty element. */
  predicate Declines(tx: Tx, s: Script, w: Elements) {
    var m := Run(tx, s, Running(w, [], []));
    m.Running? && m.conds == [] && m.stack == [Empty]
  }

  // ---- runs taken together ----

  lemma {:induction false} RunConcat(tx: Tx, s: Script, t: Script, m: Machine)
    ensures Run(tx, s + t, m) == Run(tx, t, Run(tx, s, m))
    decreases |t|
  {
    if |t| == 0 {
      assert s + t == s;
    } else {
      var n := |t| - 1;
      RunConcat(tx, s, t[..n], m);
      assert (s + t)[..|s + t| - 1] == s + t[..n];
      assert (s + t)[|s + t| - 1] == t[n];
    }
  }

  lemma RunOne(tx: Tx, op: Op, m: Machine)
    ensures Run(tx, [op], m) == Step(tx, op, m)
  {
    assert [op][..0] == [];
    assert Run(tx, [op][..0], m) == m;
  }

  lemma {:induction false} RunFailed(tx: Tx, s: Script)
    ensures Run(tx, s, Failed) == Failed
    decreases |s|
  {
    if |s| > 0 {
      RunFailed(tx, s[..|s| - 1]);
    }
  }

  /** The outcome of a script that is not inside a block. */
  function Exec(tx: Tx, s: Script, stack: Elements, alt: Elements): Machine {
    Run(tx, s, Running(stack, alt, []))
  }

  function Under(conds: seq<bool>, m: Machine): Machine {
    if m.Failed? then Failed else m.(conds := conds)
  }

  /** The script has no effect where it does not run, and does not depend on the blocks it is in where it does. */
  ghost predicate ProperAt(tx: Tx, s: Script, stack: Elements, alt: Elements, conds: seq<bool>) {
    Run(tx, s, Running(stack, alt, conds))
    == if false in conds then Running(stack, alt, conds) else Under(conds, Exec(tx, s, stack, alt))
  }

  ghost predicate Proper(tx: Tx, s: Script) {
    forall stack, alt, conds :: ProperAt(tx, s, stack, alt, conds)
  }

  /** Outside blocks, too, all blocks are closed at the end. */
  lemma ProperEnds(tx: Tx, s: Script, stack: Elements, alt: Elements)
    requires Proper(tx, s)
    ensures var m := Exec(tx, s, stack, alt); m.Running? ==> m == Running(m.stack, m.alt, [])
  {
    assert ProperAt(tx, s, stack, alt, []);
  }

  predicate IsControl(op: Op) {
    op == Code(OpIf) || op == Code(OpNotIf) || op == Code(OpElse) || op == Code(OpEndIf)
  }

  lemma ProperOne(tx: Tx, op: Op)
    requires !IsControl(op)
    ensures Proper(tx, [op])
  {
    forall stack, alt, conds
      ensures ProperAt(tx, [op], stack, alt, conds)
    {
      RunOne(tx, op, Running(stack, alt, conds));
      RunOne(tx, op, Running(stack, alt, []));
      if false !in conds {
        ActUnder(tx, op, stack, alt, conds);
      }
    }
  }

  /** What a single operation does, does not depend on the blocks around it. */
  lemma ActUnder(tx: Tx, op: Op, stack: Elements, alt: Elements, conds: seq<bool>)
    requires !IsControl(op)
    ensures ActStep(tx, op, Running(stack, alt, conds)) == Under(conds, ActStep(tx, op, Running(stack, alt, [])))
  {
    var m, n := Running(stack, alt, conds), Running(stack, alt, []);
    match op
    case Push(_, _) =>
    case Check(test, verify) => TestUnder(test, stack, alt, conds);
    case Code(code) => CodeUnder(tx, code, stack, alt, conds);
  }

  lemma MultiSigUnder(n: nat, k: nat, stack: Elements, alt: Elements, conds: seq<bool>)
    requires |stack| >= n + 2
    ensures MultiSigStep(Running(stack, alt, conds), n, k) == Under(conds, MultiSigStep(Running(stack, alt, []), n, k))
  {}

  lemma TestUnder(test: Test, stack: Elements, alt: Elements, conds: seq<bool>)
    ensures TestStep(test, Running(stack, alt, conds)) == Under(conds, TestStep(test, Running(stack, alt, [])))
  {
    match test
    case Equal =>
    case CheckSig =>
    case CheckMultiSig =>
      if |stack| >= 1 && AsNumber(stack[|stack| - 1]).Some? {
        var n := AsNumber(stack[|stack| - 1]).value;
        if |stack| >= n + 2 && AsNumber(stack[|stack| - 2 - n]).Some? {
          MultiSigUnder(n, AsNumber(stack[|stack| - 2 - n]).value, stack, alt, conds);
        }
      }
    case NumEqual => CombinedUnder((a, b) => if a == b then 1 else 0, stack, alt, conds);
  }

  lemma CombinedUnder(f: (nat, nat) -> nat, stack: Elements, alt: Elements, conds: seq<bool>)
    ensures Combined(Running(stack, alt, conds), f) == Under(conds, Combined(Running(stack, alt, []), f))
  {}

  lemma CountUnder(stack: Elements, alt: Elements, conds: seq<bool>)
    ensures CheckSigAddStep(Running(stack, alt, conds)) == Under(conds, CheckSigAddStep(Running(stack, alt, [])))
    ensures VerifyStep(Running(stack, alt, conds)) == Under(conds, VerifyStep(Running(stack, alt, [])))
  {}

  lemma LockUnder(tx: Tx, relative: bool, stack: Elements, alt: Elements, conds: seq<bool>)
    ensures LockStep(tx, Running(stack, alt, conds), relative) == Under(conds, LockStep(tx, Running(stack, alt, []), relative))
  {}

  lemma UnaryUnder(f: nat -> nat, stack: Elements, alt: Elements, conds: seq<bool>)
    ensures Unary(Running(stack, alt, conds), f) == Under(conds, Unary(Running(stack, alt, []), f))
  {}

  lemma CodeUnder(tx: Tx, code: Opcode, stack: Elements, alt: Elements, conds: seq<bool>)
    requires !IsControl(Code(code))
    ensures CodeStep(tx, code, Running(stack, alt, conds)) == Under(conds, CodeStep(tx, code, Running(stack, alt, [])))
  {
    match code
    case OpDup =>
    case OpSwap =>
    case OpSize =>
    case OpIfDup =>
    case OpToAltStack =>
    case OpFromAltStack =>
    case OpHash(kind) =>
    case OpAdd => CombinedUnder((a, b) => a + b, stack, alt, conds);
    case OpBoolAnd => CombinedUnder((a, b) => if a != 0 && b != 0 then 1 else 0, stack, alt, conds);
    case OpBoolOr => CombinedUnder((a, b) => if a != 0 || b != 0 then 1 else 0, stack, alt, conds);
    case OpZeroNotEqual => UnaryUnder(a => if a != 0 then 1 else 0, stack, alt, conds);
    case OpCheckSigAdd => CountUnder(stack, alt, conds);
    case OpVerify => CountUnder(stack, alt, conds);
    case OpCheckSequenceVerify => LockUnder(tx, true, stack, alt, conds);
    case OpCheckLockTimeVerify => LockUnder(tx, false, stack, alt, conds);
  }

  lemma ProperConcat(tx: Tx, s: Script, t: Script)
    requires Proper(tx, s) && Proper(tx, t)
    ensures Proper(tx, s + t)
  {
    forall stack, alt, conds
      ensures ProperAt(tx, s + t, stack, alt, conds)
    {
      RunConcat(tx, s, t, Running(stack, alt, conds));
      RunConcat(tx, s, t, Running(stack, alt, []));
      RunFailed(tx, t);
      assert ProperAt(tx, s, stack, alt, conds);
      assert ProperAt(tx, s, stack, alt, []);
      var m := Exec(tx, s, stack, alt);
      if m.Running? && false !in conds {
        assert ProperAt(tx, t, m.stack, m.alt, conds);
      }
      if false in conds {
        assert ProperAt(tx, t, stack, alt, conds);
      }
    }
  }

  /** One script after the other. */
  lemma ExecConcat(tx: Tx, s: Script, t: Script, stack: Elements, alt: Elements)
    requires Proper(tx, s)
    ensures var m := Exec(tx, s, stack, alt);
            Exec(tx, s + t, stack, alt) == if m.Failed? then Failed else Exec(tx, t, m.stack, m.alt)
  {
    RunConcat(tx, s, t, Running(stack, alt, []));
    ProperEnds(tx, s, stack, alt);
    RunFailed(tx, t);
  }

  // ---- blocks ----

  function Block(code: Opcode, s: Script, t: Script): Script {
    [Code(code)] + s + [Code(OpElse)] + t + [Code(OpEndIf)]
  }

  function ShortBlock(code: Opcode, s: Script): Script {
    [Code(code)] + s + [Code(OpEndIf)]
  }

  predicate IsIf(code: Opcode) {
    code == OpIf || code == OpNotIf
  }

  /** What IF or NOTIF finds on the stack: whether its first part runs, if it does not fail. */
  function Condition(code: Opcode, stack: Elements): Option<bool> {
    if |stack| == 0 then None
    else
      var top := stack[|stack| - 1];
      if top != True && top != Empty then None else Some(top == (if code == OpIf then True else Empty))
  }

  lemma RunIf(tx: Tx, code: Opcode, stack: Elements, alt: Elements, conds: seq<bool>)
    requires IsIf(code)
    ensures var c := Condition(code, stack);
            Run(tx, [Code(code)], Running(stack, alt, conds)) ==
              if false in conds then Running(stack, alt, conds + [false])
              else if c.None? then Failed else Running(stack[..|stack| - 1], alt, conds + [c.value])
  {
    RunOne(tx, Code(code), Running(stack, alt, conds));
  }

  lemma RunElse(tx: Tx, stack: Elements, alt: Elements, conds: seq<bool>, c: bool)
    ensures Run(tx, [Code(OpElse)], Running(stack, alt, conds + [c])) == Running(stack, alt, conds + [!c])
  {
    RunOne(tx, Code(OpElse), Running(stack, alt, conds + [c]));
    assert (conds + [c])[..|conds|] == conds;
  }

  lemma RunEndIf(tx: Tx, stack: Elements, alt: Elements, conds: seq<bool>, c: bool)
    ensures Run(tx, [Code(OpEndIf)], Running(stack, alt, conds + [c])) == Running(stack, alt, conds)
  {
    RunOne(tx, Code(OpEndIf), Running(stack, alt, conds + [c]));
    assert (conds + [c])[..|conds|] == conds;
  }

  /** A part of a block runs if its condition and those around the block are true. */
  lemma RunPart(tx: Tx, s: Script, stack: Elements, alt: Elements, conds: seq<bool>, c: bool)
    requires Proper(tx, s)
    ensures Run(tx, s, Running(stack, alt, conds + [c])) ==
              if !c || false in conds then Running(stack, alt, conds + [c])
              else Under(conds + [c], Exec(tx, s, stack, alt))
  {
    assert ProperAt(tx, s, stack, alt, conds + [c]);
    assert (conds + [c])[|conds|] == c;
    assert forall i :: 0 <= i < |conds| ==> (conds + [c])[i] == conds[i];
  }

  lemma RunFive(tx: Tx, a: Script, s: Script, b: Script, t: Script, c: Script, m: Machine)
    ensures Run(tx, a + s + b + t + c, m) == Run(tx, c, Run(tx, t, Run(tx, b, Run(tx, s, Run(tx, a, m)))))
  {
    RunConcat(tx, a + s + b + t, c, m);
    RunConcat(tx, a + s + b, t, m);
    RunConcat(tx, a + s, b, m);
    RunConcat(tx, a, s, m);
  }

  /** From the first part of a block to its end. */
  lemma RunParts(tx: Tx, s: Script, t: Script, stack: Elements, alt: Elements, conds: seq<bool>, c: bool)
    requires Proper(tx, s) && Proper(tx, t)
    ensures Run(tx, [Code(OpEndIf)], Run(tx, t, Run(tx, [Code(OpElse)], Run(tx, s, Running(stack, alt, conds + [c]))))) ==
              if false in conds then Running(stack, alt, conds)
              else Under(conds, if c then Exec(tx, s, stack, alt) else Exec(tx, t, stack, alt))
  {
    RunPart(tx, s, stack, alt, conds, c);
    RunFailed(tx, [Code(OpElse)]);
    RunFailed(tx, t);
    RunFailed(tx, [Code(OpEndIf)]);
    var m := if c && false !in conds then Exec(tx, s, stack, alt) else Running(stack, alt, []);
    if m.Running? {
      RunElse(tx, m.stack, m.alt, conds, c);
      RunPart(tx, t, m.stack, m.alt, conds, !c);
      var n := if !c && false !in conds then Exec(tx, t, m.stack, m.alt) else m;
      if n.Running? {
        RunEndIf(tx, n.stack, n.alt, conds, !c);
      }
    }
  }

  lemma RunBlock(tx: Tx, code: Opcode, s: Script, t: Script, stack: Elements, alt: Elements, conds: seq<bool>)
    requires IsIf(code) && Proper(tx, s) && Proper(tx, t)
    ensures var c := Condition(code, stack);
            Run(tx, Block(code, s, t), Running(stack, alt, conds)) ==
              if false in conds then Running(stack, alt, conds)
              else if c.None? then Failed
              else Under(conds, if c.value then Exec(tx, s, stack[..|stack| - 1], alt) else Exec(tx, t, stack[..|stack| - 1], alt))
  {
    RunFive(tx, [Code(code)], s, [Code(OpElse)], t, [Code(OpEndIf)], Running(stack, alt, conds));
    RunIf(tx, code, stack, alt, conds);
    var c := Condition(code, stack);
    if false in conds {
      RunParts(tx, s, t, stack, alt, conds, false);
    } else if c.Some? {
      RunParts(tx, s, t, stack[..|stack| - 1], alt, conds, c.value);
    } else {
      RunFailed(tx, s);
      RunFailed(tx, [Code(OpElse)]);
      RunFailed(tx, t);
      RunFailed(tx, [Code(OpEndIf)]);
    }
  }

  /** IF [s] ELSE [t] ENDIF runs one of its parts. */
  lemma ExecBlock(tx: Tx, code: Opcode, s: Script, t: Script)
    requires IsIf(code) && Proper(tx, s) && Proper(tx, t)
    ensures Proper(tx, Block(code, s, t))
    ensures forall stack, alt :: Exec(tx, Block(code, s, t), stack, alt) == BlockOutcome(tx, code, s, t, stack, alt)
  {
    forall stack, alt
      ensures Exec(tx, Block(code, s, t), stack, alt) == BlockOutcome(tx, code, s, t, stack, alt)
    {
      RunBlock(tx, code, s, t, stack, alt, []);
      if |stack| > 0 {
        ProperEnds(tx, s, stack[..|stack| - 1], alt);
        ProperEnds(tx, t, stack[..|stack| - 1], alt);
      }
    }
    forall stack, alt, conds
      ensures ProperAt(tx, Block(code, s, t), stack, alt, conds)
    {
      RunBlock(tx, code, s, t, stack, alt, conds);
    }
  }

  function BlockOutcome(tx: Tx, code: Opcode, s: Script, t: Script, stack: Elements, alt: Elements): Machine {
    var c := Condition(code, stack);
    if c.None? then Failed
    else if c.value then Exec(tx, s, stack[..|stack| - 1], alt) else Exec(tx, t, stack[..|stack| - 1], alt)
  }

  /** An ELSE right before ENDIF changes nothing. */
  lemma StepElseEndIf(tx: Tx, m: Machine)
    ensures Step(tx, Code(OpEndIf), Step(tx, Code(OpElse), m)) == Step(tx, Code(OpEndIf), m)
  {
    if m.Running? && |m.conds| > 0 {
      var n := |m.conds| - 1;
      assert m.conds == m.conds[..n] + [m.conds[n]];
      var k := Step(tx, Code(OpElse), m);
      assert k == m.(conds := m.conds[..n] + [!m.conds[n]]);
      assert k.conds[..n] == m.conds[..n];
    }
  }

  lemma RunShort(tx: Tx, code: Opcode, s: Script, m: Machine)
    ensures Run(tx, ShortBlock(code, s), m) == Run(tx, Block(code, s, []), m)
  {
    var a, b, c := [Code(code)] + s, [Code(OpElse)], [Code(OpEndIf)];
    assert a + b + [] + c == a + b + c;
    RunConcat(tx, a + b, c, m);
    RunConcat(tx, a, b, m);
    RunConcat(tx, a, c, m);
    var n := Run(tx, a, m);
    RunOne(tx, Code(OpElse), n);
    RunOne(tx, Code(OpEndIf), n);
    RunOne(tx, Code(OpEndIf), Step(tx, Code(OpElse), n));
    StepElseEndIf(tx, n);
  }

  lemma ProperNone(tx: Tx)
    ensures Proper(tx, [])
  {
    forall stack, alt, conds
      ensures ProperAt(tx, [], stack, alt, conds)
    {}
  }

  /** IF [s] ENDIF */
  lemma ExecShort(tx: Tx, code: Opcode, s: Script)
    requires IsIf(code) && Proper(tx, s)
    ensures Proper(tx, ShortBlock(code, s))
    ensures forall stack, alt :: Exec(tx, ShortBlock(code, s), stack, alt) == BlockOutcome(tx, code, s, [], stack, alt)
  {
    ProperNone(tx);
    ExecBlock(tx, code, s, []);
    forall stack, alt
      ensures Exec(tx, ShortBlock(code, s), stack, alt) == BlockOutcome(tx, code, s, [], stack, alt)
    {
      RunShort(tx, code, s, Running(stack, alt, []));
    }
    forall stack, alt, conds
      ensures ProperAt(tx, ShortBlock(code, s), stack, alt, conds)
    {
      RunShort(tx, code, s, Running(stack, alt, conds));
      RunShort(tx, code, s, Running(stack, alt, []));
      assert ProperAt(tx, Block(code, s, []), stack, alt, conds);
    }
  }

  // ---- verify ----

  lemma StepVerify(tx: Tx, test: Test, m: Machine)
    ensures Step(tx, Check(test, true), m) == Step(tx, Code(OpVerify), Step(tx, Check(test, false), m))
  {
    if m.Running? && false !in m.conds {
      TestUnder(test, m.stack, m.alt, m.conds);
      var n := TestStep(test, m);
      assert Step(tx, Check(test, false), m) == n && Step(tx, Check(test, true), m) == VerifyStep(n);
    }
  }

  /** Merging VERIFY into the last operation does not change what the script does. */
  lemma RunVerify(tx: Tx, s: Script, m: Machine)
    ensures Run(tx, Verify(s), m) == Run(tx, s + [Code(OpVerify)], m)
  {
    if CanMerge(s) {
      var n := |s| - 1;
      assert s == s[..n] + [s[n]];
      RunConcat(tx, s[..n], [s[n]], m);
      RunConcat(tx, s[..n], [s[n].(verify := true)], m);
      RunConcat(tx, s, [Code(OpVerify)], m);
      StepVerify(tx, s[n].test, Run(tx, s[..n], m));
      RunOne(tx, s[n], Run(tx, s[..n], m));
      RunOne(tx, s[n].(verify := true), Run(tx, s[..n], m));
      RunOne(tx, Code(OpVerify), Run(tx, s, m));
    }
  }

  lemma ProperVerify(tx: Tx, s: Script)
    requires Proper(tx, s)
    ensures Proper(tx, Verify(s))
  {
    ProperOne(tx, Code(OpVerify));
    ProperConcat(tx, s, [Code(OpVerify)]);
    forall stack, alt, conds
      ensures ProperAt(tx, Verify(s), stack, alt, conds)
    {
      RunVerify(tx, s, Running(stack, alt, conds));
      RunVerify(tx, s, Running(stack, alt, []));
      assert ProperAt(tx, s + [Code(OpVerify)], stack, alt, conds);
    }
  }
}
