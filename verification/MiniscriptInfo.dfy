/**
 The second pass over a miniscript: malleability, timelock, size and cost properties,
 computed from those of the children.
 */
module MiniscriptInfo {
  import opened Wrappers
  import opened Miniscript
  import opened Thresh

  /** 16-bit unsigned fields wrap: the remainder modulo 2^16. */
  function U16(n: nat): (r: nat)
    ensures r < 65536
  {
    if n < 65536 then n else U16(n - 65536)
  }

  /** Non-push opcodes, and keys in executed multisig opcodes to satisfy or dissatisfy. */
  datatype Ops = Ops(count: nat, sat: Cost, dsat: Cost)

  /**
   s: needs a signature; f: forced; e: expressive; m: non-malleable; g, h: relative time and
   height locks; i, j: absolute time and height locks; k: no mix of them on one path; x: the last
   opcode has no VERIFY form.
   */
  datatype Info = Info(
    ops: Ops,
    ss: Child,
    size: nat,
    s: bool, f: bool, e: bool, m: bool,
    g: bool, h: bool, i: bool, j: bool, k: bool,
    x: bool
  )

  const TIME_FLAG: nat := 0x40_0000         // bit 22 of a relative timelock
  const LOCKTIME_THRESHOLD: nat := 500_000_000

  /** The length of the script fragment that pushes a number. */
  function PushSize(n: nat): nat {
    if n <= 16 then 1
    else if n < 0x80 then 2
    else if n < 0x8000 then 3
    else if n < 0x80_0000 then 4
    else if n < 0x8000_0000 then 5
    else 6
  }

  /** No timelocks. */
  function Plain(ops: Ops, ss: Child, size: nat, s: bool, f: bool, e: bool, x: bool): Info {
    Info(ops, ss, U16(size), s, f, e, true, false, false, false, false, true, x)
  }

  function InfoOf(expr: Expr, ctx: Context): Option<Info>
    decreases expr
  {
    match expr
    case Zero => Some(Plain(Ops(0, -1, 0), Child(-1, 0), 1, true, false, true, true))
    case One => Some(Plain(Ops(0, 0, -1), Child(0, -1), 1, false, true, false, true))
    case PkK(_) => Some(Plain(Ops(0, 0, 0), Child(1, 1), if ctx == Tapscript then 33 else 34, true, false, true, true))
    case PkH(_) => Some(Plain(Ops(3, 0, 0), Child(2, 2), 24, true, false, true, true))
    case Pk(_) => Some(Plain(Ops(1, 0, 0), Child(1, 1), if ctx == Tapscript then 34 else 35, true, false, true, false))
    case Pkh(_) => Some(Plain(Ops(4, 0, 0), Child(2, 2), 25, true, false, true, false))
    case Multi(k, keys) => MultiInfo(k, |keys|)
    case MultiA(k, keys) => MultiAInfo(k, |keys|)
    case Older(n) => Some(OlderInfo(n))
    case After(n) => Some(AfterInfo(n))
    case HashLock(kind, _) =>
      Some(Plain(Ops(4, 0, -1), Child(1, -1), if kind == Sha256 || kind == Hash256 then 39 else 27, false, false, false, false))
    case AndOr(x, y, z) =>
      (match (InfoOf(x, ctx), InfoOf(y, ctx), InfoOf(z, ctx))
       case (Some(x), Some(y), Some(z)) => Some(AndOrInfo(x, y, z))
       case _ => None)
    case Binary(op, x, y) =>
      (match (InfoOf(x, ctx), InfoOf(y, ctx))
       case (Some(x), Some(y)) => Some(BinaryInfo(op, x, y))
       case _ => None)
    case Thresh(k, subs) => ThreshInfo(k, InfosOf(subs, ctx))
    case Wrap(w, x) =>
      (match InfoOf(x, ctx)
       case Some(x) => Some(WrapInfo(w, x))
       case None => None)
  }

  function InfosOf(l: Exprs, ctx: Context): Option<seq<Info>>
    decreases l
  {
    match l
    case Nil => Some([])
    case Cons(head, tail) =>
      match (InfoOf(head, ctx), InfosOf(tail, ctx))
      case (Some(x), Some(rest)) => Some([x] + rest)
      case _ => None
  }

  function BinaryInfo(op: BinOp, x: Info, y: Info): Info {
    match op
    case AndV => AndVInfo(x, y)
    case AndB => AndBInfo(x, y)
    case AndN => AndNInfo(x, y)
    case OrB => OrBInfo(x, y)
    case OrC => OrCInfo(x, y)
    case OrD => OrDInfo(x, y)
    case OrI => OrIInfo(x, y)
  }

  function WrapInfo(w: Wrapper, x: Info): Info {
    match w
    case WrapA => WrapAInfo(x)
    case WrapS => WrapSInfo(x)
    case WrapC => WrapCInfo(x)
    case WrapT => WrapTInfo(x)
    case WrapD => WrapDInfo(x)
    case WrapV => WrapVInfo(x)
    case WrapJ => WrapJInfo(x)
    case WrapN => WrapNInfo(x)
    case WrapL => WrapLUInfo(x)
    case WrapU => WrapLUInfo(x)
  }

  // ---- leaves ----

  /** The parser admits at most 16 keys. */
  function MultiInfo(k: nat, n: nat): Option<Info> {
    if k > MAX_MULTISIG_KEYS || n > MAX_MULTISIG_KEYS then None
    else Some(Plain(Ops(1, n, n), Child(k + 1, k + 1), 1 + PushSize(k) + PushSize(n) + 34 * n, true, false, true, false))
  }

  function MultiAInfo(k: nat, n: nat): Option<Info> {
    if k > MAX_MULTISIG_KEYS || n > MAX_MULTISIG_KEYS then None
    else Some(Plain(Ops(n + 1, 0, 0), Child(n, n), 1 + PushSize(k) + 34 * n, true, false, true, false))
  }

  function OlderInfo(n: nat): Info {
    var time := n / TIME_FLAG % 2 == 1;
    Info(Ops(1, 0, -1), Child(0, -1), U16(1 + PushSize(n)), false, true, false, true, time, !time, false, false, true, true)
  }

  function AfterInfo(n: nat): Info {
    var time := n >= LOCKTIME_THRESHOLD;
    Info(Ops(1, 0, -1), Child(0, -1), U16(1 + PushSize(n)), false, true, false, true, false, false, time, !time, true, true)
  }

  // ---- conjunctions ----

  /** A relative or absolute height lock of one meets a time lock of the other. */
  predicate MixesLocks(x: Info, y: Info) {
    (x.g && y.h) || (x.h && y.g) || (x.i && y.j) || (x.j && y.i)
  }

  /** The satisfaction of andor adds y.dsat, not x.dsat, to the satisfaction of z. */
  function AndOrInfo(x: Info, y: Info, z: Info): Info {
    Info(Ops(U16(3 + x.ops.count + y.ops.count + z.ops.count),
             MaxCheck(SumCheck(y.ops.sat, x.ops.sat), SumCheck(y.ops.dsat, z.ops.sat)),
             SumCheck(x.ops.dsat, z.ops.dsat)),
         Child(MaxCheck(SumCheck(x.ss.sat, y.ss.sat), SumCheck(x.ss.dsat, z.ss.sat)), SumCheck(x.ss.dsat, z.ss.dsat)),
         U16(3 + x.size + y.size + z.size),
         z.s && (x.s || y.s), z.f && (x.s || y.f), z.e && (x.s || y.f),
         x.m && y.m && z.m && x.e && (x.s || y.s || z.s),
         x.g || y.g || z.g, x.h || y.h || z.h, x.i || y.i || z.i, x.j || y.j || z.j,
         x.k && y.k && z.k && !MixesLocks(x, y),
         true)
  }

  function AndVInfo(x: Info, y: Info): Info {
    Info(Ops(U16(x.ops.count + y.ops.count), SumCheck(x.ops.sat, y.ops.sat), -1),
         Child(SumCheck(x.ss.sat, y.ss.sat), -1),
         U16(x.size + y.size),
         x.s || y.s, x.s || y.f, false, x.m && y.m,
         x.g || y.g, x.h || y.h, x.i || y.i, x.j || y.j, x.k && y.k && !MixesLocks(x, y),
         y.x)
  }

  function AndBInfo(x: Info, y: Info): Info {
    Info(Ops(U16(1 + x.ops.count + y.ops.count), SumCheck(x.ops.sat, y.ops.sat), SumCheck(x.ops.dsat, y.ops.dsat)),
         Child(SumCheck(x.ss.sat, y.ss.sat), SumCheck(x.ss.dsat, y.ss.dsat)),
         U16(1 + x.size + y.size),
         x.s || y.s, (x.f && y.f) || (x.s && x.f) || (y.s && y.f), x.e && y.e && x.s && y.s, x.m && y.m,
         x.g || y.g, x.h || y.h, x.i || y.i, x.j || y.j, x.k && y.k && !MixesLocks(x, y),
         true)
  }

  function AndNInfo(x: Info, y: Info): Info {
    Info(Ops(U16(3 + x.ops.count + y.ops.count), MaxCheck(SumCheck(y.ops.sat, x.ops.sat), y.ops.dsat), x.ops.dsat),
         Child(SumCheck(x.ss.sat, y.ss.sat), x.ss.dsat),
         U16(4 + x.size + y.size),
         x.s || y.s, false, x.s || y.f, x.m && y.m && x.e && (x.s || y.s),
         x.g || y.g, x.h || y.h, x.i || y.i, x.j || y.j, x.k && y.k && !MixesLocks(x, y),
         true)
  }

  // ---- disjunctions ----

  function OrBInfo(x: Info, z: Info): Info {
    Info(Ops(U16(1 + x.ops.count + z.ops.count),
             MaxCheck(SumCheck(x.ops.sat, z.ops.dsat), SumCheck(z.ops.sat, x.ops.dsat)),
             SumCheck(x.ops.dsat, z.ops.dsat)),
         Child(MaxCheck(SumCheck(x.ss.dsat, z.ss.sat), SumCheck(x.ss.sat, z.ss.dsat)), SumCheck(x.ss.dsat, z.ss.dsat)),
         U16(1 + x.size + z.size),
         x.s && z.s, false, true, x.m && z.m && x.e && z.e && (x.s || z.s),
         x.g || z.g, x.h || z.h, x.i || z.i, x.j || z.j, x.k && z.k,
         true)
  }

  function OrCInfo(x: Info, z: Info): Info {
    Info(Ops(U16(2 + x.ops.count + z.ops.count), MaxCheck(x.ops.sat, SumCheck(z.ops.sat, x.ops.dsat)), -1),
         Child(MaxCheck(x.ss.sat, SumCheck(x.ss.dsat, z.ss.sat)), -1),
         U16(2 + x.size + z.size),
         x.s && z.s, true, false, x.m && z.m && x.e && (x.s || z.s),
         x.g || z.g, x.h || z.h, x.i || z.i, x.j || z.j, x.k && z.k,
         true)
  }

  function OrDInfo(x: Info, z: Info): Info {
    Info(Ops(U16(3 + x.ops.count + z.ops.count), MaxCheck(x.ops.sat, SumCheck(z.ops.sat, x.ops.dsat)), SumCheck(x.ops.dsat, z.ops.dsat)),
         Child(MaxCheck(x.ss.sat, SumCheck(x.ss.dsat, z.ss.sat)), SumCheck(x.ss.dsat, z.ss.dsat)),
         U16(3 + x.size + z.size),
         x.s && z.s, z.f, z.e, x.m && z.m && x.e && (x.s || z.s),
         x.g || z.g, x.h || z.h, x.i || z.i, x.j || z.j, x.k && z.k,
         true)
  }

  function OrIInfo(x: Info, z: Info): Info {
    Info(Ops(U16(3 + x.ops.count + z.ops.count), MaxCheck(x.ops.sat, z.ops.sat), MaxCheck(x.ops.dsat, z.ops.dsat)),
         Child(MaxCheck(SumCheck(x.ss.sat, 1), SumCheck(z.ss.sat, 1)), MaxCheck(SumCheck(x.ss.dsat, 1), SumCheck(z.ss.dsat, 1))),
         U16(3 + x.size + z.size),
         x.s && z.s, x.f && z.f, (x.e && z.f) || (z.e && x.f), x.m && z.m && (x.s || z.s),
         x.g || z.g, x.h || z.h, x.i || z.i, x.j || z.j, x.k && z.k,
         true)
  }

  // ---- thresh ----

  function CountS(subs: seq<Info>): (n: nat)
    ensures n <= |subs|
  {
    if |subs| == 0 then 0 else CountS(subs[1..]) + (if subs[0].s then 1 else 0)
  }

  function CountE(subs: seq<Info>): (n: nat)
    ensures n <= |subs|
  {
    if |subs| == 0 then 0 else CountE(subs[1..]) + (if subs[0].e then 1 else 0)
  }

  function SumSizes(subs: seq<Info>): nat {
    if |subs| == 0 then 0 else subs[0].size + SumSizes(subs[1..])
  }

  /** The running operation count of thresh, one more than the child's for each child. */
  function SumOps(subs: seq<Info>): nat {
    if |subs| == 0 then 0 else U16(subs[0].ops.count + 1 + SumOps(subs[1..]))
  }

  datatype Locks = Locks(g: bool, h: bool, i: bool, j: bool, k: bool)

  /** The timelock flags after the children up to the last. */
  function FoldLocks(subs: seq<Info>, threshold: nat): Locks {
    if |subs| == 0 then Locks(false, false, false, false, true)
    else
      var acc, t := FoldLocks(subs[..|subs| - 1], threshold), subs[|subs| - 1];
      var g, h, i, j := acc.g || t.g, acc.h || t.h, acc.i || t.i, acc.j || t.j;
      var mixed := threshold >= 2 && ((t.g && h) || (t.h && g) || (t.i && j) || (t.j && i));
      Locks(g, h, i, j, acc.k && t.k && !mixed)
  }

  function OpsCosts(subs: seq<Info>): (r: seq<Child>)
    ensures |r| == |subs|
  {
    seq(|subs|, i requires 0 <= i < |subs| => Child(subs[i].ops.sat, subs[i].ops.dsat))
  }

  function StackCosts(subs: seq<Info>): (r: seq<Child>)
    ensures |r| == |subs|
  {
    seq(|subs|, i requires 0 <= i < |subs| => subs[i].ss)
  }

  /**
   Fails on more than 128 children. A threshold above 129 would read outside the table and is
   not given a value here.
   */
  function ThreshInfo(k: nat, children: Option<seq<Info>>): Option<Info> {
    match children
    case None => None
    case Some(subs) =>
      var n, s := |subs|, CountS(subs);
      if n > MAX_N || k > MAX_N + 1 then None
      else
        var ops, stack, locks := OpsCosts(subs), StackCosts(subs), FoldLocks(subs, k);
        Some(Info(Ops(SumOps(subs), Entry(ops, k), Best(ops, 0)),
                  Child(Entry(stack, k), Best(stack, 0)),
                  U16(SumSizes(subs) + n + PushSize(k)),
                  n - s <= k - 1, false, s == n, CountE(subs) == n && n - s <= k,
                  locks.g, locks.h, locks.i, locks.j, locks.k,
                  false))
  }

  // ---- wrappers ----

  function WrapAInfo(x: Info): Info {
    x.(size := U16(x.size + 2), ops := x.ops.(count := U16(2 + x.ops.count)), x := true)
  }

  function WrapSInfo(x: Info): Info {
    x.(size := U16(x.size + 1), ops := x.ops.(count := U16(1 + x.ops.count)))
  }

  function WrapNInfo(x: Info): Info {
    x.(size := U16(x.size + 1), ops := x.ops.(count := U16(1 + x.ops.count)), x := true)
  }

  function WrapCInfo(x: Info): Info {
    x.(size := U16(x.size + 1), ops := x.ops.(count := U16(1 + x.ops.count)), s := true, x := false)
  }

  function WrapDInfo(x: Info): Info {
    x.(size := U16(x.size + 3), ops := Ops(U16(3 + x.ops.count), x.ops.sat, 0), ss := Child(SumCheck(1, x.ss.sat), 1),
       f := false, e := true, x := true)
  }

  function WrapTInfo(x: Info): Info {
    x.(size := U16(x.size + 1), ops := x.ops.(dsat := -1), ss := x.ss.(dsat := -1), f := true, e := false, x := true)
  }

  function WrapVInfo(x: Info): Info {
    var extra := if x.x then 1 else 0;
    x.(size := U16(x.size + extra), ops := Ops(U16(x.ops.count + extra), x.ops.sat, -1), ss := x.ss.(dsat := -1),
       f := true, e := false, x := true)
  }

  function WrapJInfo(x: Info): Info {
    x.(size := U16(x.size + 4), ops := Ops(U16(4 + x.ops.count), x.ops.sat, 0), ss := x.ss.(dsat := 1),
       f := false, e := x.f, x := true)
  }

  function WrapLUInfo(x: Info): Info {
    x.(size := U16(x.size + 4), ops := x.ops.(count := U16(3 + x.ops.count)),
       ss := Child(SumCheck(x.ss.sat, 1), MaxCheck(1, SumCheck(x.ss.dsat, 1))),
       f := false, e := x.f, x := true)
  }
}
