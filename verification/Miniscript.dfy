/**
 Miniscript expressions and the type rules that the descriptor parser enforces.

 Keys and hash images are represented by numbers. The children of `thresh` form a list, as
 in the parsed policy.
 */
module Miniscript {
  import opened Wrappers

  datatype Context = P2wsh | Tapscript

  datatype HashKind = Sha256 | Hash256 | Ripemd160 | Hash160

  datatype Expr =
    | Zero
    | One
    | PkK(key: nat)
    | PkH(key: nat)
    | Pk(key: nat)
    | Pkh(key: nat)
    | Multi(k: nat, keys: seq<nat>)
    | MultiA(k: nat, keys: seq<nat>)
    | Older(n: nat)
    | After(n: nat)
    | HashLock(kind: HashKind, image: nat)
    | AndOr(x: Expr, y: Expr, z: Expr)
    | Binary(op: BinOp, x: Expr, y: Expr)
    | Thresh(k: nat, subs: Exprs)
    | Wrap(w: Wrapper, x: Expr)

  datatype BinOp = AndV | AndB | AndN | OrB | OrC | OrD | OrI

  datatype Wrapper = WrapA | WrapS | WrapC | WrapT | WrapD | WrapV | WrapJ | WrapN | WrapL | WrapU

  datatype Exprs = Nil | Cons(head: Expr, tail: Exprs)

  function Length(l: Exprs): nat {
    match l
    case Nil => 0
    case Cons(_, tail) => 1 + Length(tail)
  }

  const MAX_MULTISIG_KEYS: nat := 16
  const INT16_MAX: nat := 32767

  /** Basic types: base, verify, key, wrapped. */
  datatype Kind = B | V | K | W

  /** A basic type with the modifiers z, o, n, d, u. */
  datatype Type = Type(kind: Kind, z: bool, o: bool, n: bool, d: bool, u: bool)

  /** What the loop over the children of `thresh` has counted. */
  datatype ThreshCount = ThreshCount(n: nat, zs: nat, os: nat)

  /** The type of an expression, or None when the parser rejects it. */
  function TypeOf(e: Expr, ctx: Context): Option<Type>
    decreases e
  {
    match e
    case Zero => Some(Type(B, true, false, false, true, true))
    case One => Some(Type(B, true, false, false, false, true))
    case PkK(_) => Some(Type(K, false, true, true, true, true))
    case PkH(_) => Some(Type(K, false, false, true, true, true))
    case Pk(_) => Some(Type(B, false, true, true, true, true))
    case Pkh(_) => Some(Type(B, false, false, true, true, true))
    case Multi(k, keys) =>
      if ctx == P2wsh && 1 <= k <= |keys| <= MAX_MULTISIG_KEYS
      then Some(Type(B, false, false, true, true, true)) else None
    case MultiA(k, keys) =>
      if ctx == Tapscript && 1 <= k <= |keys| <= MAX_MULTISIG_KEYS
      then Some(Type(B, false, false, false, true, true)) else None
    case Older(n) => TimelockType(n)
    case After(n) => TimelockType(n)
    case HashLock(_, _) => Some(Type(B, false, true, true, true, true))
    case AndOr(x, y, z) => AndOrType(TypeOf(x, ctx), TypeOf(y, ctx), TypeOf(z, ctx))
    case Binary(op, x, y) => BinaryType(op, TypeOf(x, ctx), TypeOf(y, ctx))
    case Thresh(k, subs) =>
      if 1 <= k <= INT16_MAX then ThreshType(CountSubs(subs, true, ctx)) else None
    case Wrap(w, x) => WrapType(w, TypeOf(x, ctx), ctx)
  }

  /** The first child is of type B, the others of type W, and all have d and u. */
  function CountSubs(l: Exprs, first: bool, ctx: Context): Option<ThreshCount>
    decreases l
  {
    match l
    case Nil => Some(ThreshCount(0, 0, 0))
    case Cons(head, tail) => CountSub(TypeOf(head, ctx), CountSubs(tail, false, ctx), first)
  }

  /** One child and the count of those after it. */
  function CountSub(child: Option<Type>, rest: Option<ThreshCount>, first: bool): Option<ThreshCount> {
    match (child, rest)
    case (Some(t), Some(c)) =>
      if t.kind != (if first then B else W) || !t.d || !t.u then None
      else Some(ThreshCount(c.n + 1, c.zs + (if t.z then 1 else 0), c.os + (if t.o then 1 else 0)))
    case _ => None
  }

  function ThreshType(count: Option<ThreshCount>): Option<Type> {
    match count
    case None => None
    case Some(c) =>
      if c.n == 0 then None
      else Some(Type(B, c.zs == c.n, c.zs == c.n - 1 && c.os == 1, false, true, true))
  }

  function TimelockType(n: nat): Option<Type> {
    if 1 <= n < 0x8000_0000 then Some(Type(B, true, false, false, false, false)) else None
  }

  function AndOrType(x: Option<Type>, y: Option<Type>, z: Option<Type>): Option<Type> {
    match (x, y, z)
    case (Some(x), Some(y), Some(z)) =>
      if x.kind != B || !x.d || !x.u || y.kind != z.kind || y.kind == W then None
      else Some(Type(y.kind, x.z && y.z && z.z, (x.z && y.o && z.o) || (x.o && y.z && z.z), false, z.d, y.u && z.u))
    case _ => None
  }

  function BinaryType(op: BinOp, x: Option<Type>, y: Option<Type>): Option<Type> {
    match (x, y)
    case (Some(x), Some(y)) =>
      (match op
       case AndV => AndVType(x, y)
       case AndB => AndBType(x, y)
       case AndN => AndNType(x, y)
       case OrB => OrBType(x, y)
       case OrC => OrCType(x, y)
       case OrD => OrDType(x, y)
       case OrI => OrIType(x, y))
    case _ => None
  }

  /** The type of the first child is not looked at. */
  function AndVType(x: Type, y: Type): Option<Type> {
    if y.kind == W then None
    else Some(Type(y.kind, x.z && y.z, (x.z && y.o) || (x.o && y.z), x.n || (x.z && y.n), false, y.u))
  }

  function AndBType(x: Type, y: Type): Option<Type> {
    if x.kind != B || y.kind != W then None
    else Some(Type(B, x.z && y.z, (x.z && y.o) || (x.o && y.z), x.n || (x.z && y.n), x.d && y.d, true))
  }

  function AndNType(x: Type, y: Type): Option<Type> {
    if x.kind != B || !x.d || !x.u || y.kind != B then None
    else Some(Type(B, x.z && y.z, x.o && y.z, false, true, y.u))
  }

  function OrBType(x: Type, z: Type): Option<Type> {
    if x.kind != B || !x.d || z.kind != W || !z.d then None
    else Some(Type(B, x.z && z.z, (x.z && z.o) || (x.o && z.z), false, true, true))
  }

  function OrCType(x: Type, z: Type): Option<Type> {
    if x.kind != B || !x.d || !x.u || z.kind != V then None
    else Some(Type(V, x.z && z.z, x.o && z.z, false, false, false))
  }

  function OrDType(x: Type, z: Type): Option<Type> {
    if x.kind != B || !x.d || !x.u || z.kind != B then None
    else Some(Type(B, x.z && z.z, x.o && z.z, false, z.d, z.u))
  }

  function OrIType(x: Type, z: Type): Option<Type> {
    if x.kind == W || x.kind != z.kind then None
    else Some(Type(x.kind, false, x.z && z.z, false, x.d || z.d, x.u && z.u))
  }

  /** Wrapper d has u only in tapscript. */
  function WrapType(w: Wrapper, child: Option<Type>, ctx: Context): Option<Type> {
    match child
    case None => None
    case Some(x) =>
      match w
      case WrapA => if x.kind == B then Some(Type(W, false, false, false, x.d, x.u)) else None
      case WrapS => if x.kind == B && x.o then Some(Type(W, false, false, false, x.d, x.u)) else None
      case WrapC => if x.kind == K then Some(Type(B, false, x.o, x.n, x.d, true)) else None
      case WrapT => if x.kind == V then Some(Type(B, x.z, x.o, x.n, false, true)) else None
      case WrapD => if x.kind == V && x.z then Some(Type(B, false, true, true, true, ctx == Tapscript)) else None
      case WrapV => if x.kind == B then Some(Type(V, x.z, x.o, x.n, false, false)) else None
      case WrapJ => if x.kind == B && x.n then Some(Type(B, false, x.o, true, true, x.u)) else None
      case WrapN => if x.kind == B then Some(Type(B, x.z, x.o, x.n, x.d, true)) else None
      case WrapL => if x.kind == B then Some(Type(B, false, x.z, false, true, x.u)) else None
      case WrapU => if x.kind == B then Some(Type(B, false, x.z, false, true, x.u)) else None
  }
}
