/** The two passes agree: type modifiers and malleability flags never contradict each other. */
module MiniscriptConsistency {
  import opened Wrappers
  import opened Miniscript
  import opened MiniscriptInfo

  predicate Consistent(t: Type, i: Info) {
    && !(t.z && t.o)
    && (t.n ==> !t.z && t.kind != W)
    && (t.kind == V ==> !t.d && !t.u && !i.e && i.f)
    && (t.kind == K ==> t.u && i.s)
    && !(i.e && i.f)
    && (i.e ==> t.d)
    && !(t.d && i.f)
    && (t.z ==> i.m)
    && (t.z && t.d ==> i.e && i.s)
  }

  /** The parser and the second pass both accept the expression. */
  predicate Accepted(e: Expr, ctx: Context) {
    TypeOf(e, ctx).Some? && InfoOf(e, ctx).Some?
  }

  predicate Fine(e: Expr, ctx: Context) {
    Accepted(e, ctx) && Consistent(TypeOf(e, ctx).value, InfoOf(e, ctx).value)
  }

  /** Consistency of a node and of everything below it. */
  predicate ConsistentTree(e: Expr, ctx: Context)
    decreases e
  {
    && Fine(e, ctx)
    && match e
       case AndOr(x, y, z) => ConsistentTree(x, ctx) && ConsistentTree(y, ctx) && ConsistentTree(z, ctx)
       case Binary(_, x, y) => ConsistentTree(x, ctx) && ConsistentTree(y, ctx)
       case Thresh(_, subs) => ConsistentList(subs, ctx)
       case Wrap(_, x) => ConsistentTree(x, ctx)
       case _ => true
  }

  predicate ConsistentList(l: Exprs, ctx: Context)
    decreases l
  {
    match l
    case Nil => true
    case Cons(head, tail) => ConsistentTree(head, ctx) && ConsistentList(tail, ctx)
  }

  /** When all children of thresh are z, they are all e and s. */
  lemma {:induction false} ThreshCounts(l: Exprs, first: bool, ctx: Context)
    requires CountSubs(l, first, ctx).Some? && InfosOf(l, ctx).Some? && ConsistentList(l, ctx)
    ensures var c, subs := CountSubs(l, first, ctx).value, InfosOf(l, ctx).value;
            c.n == |subs| && c.zs <= c.n && (c.zs == c.n ==> CountS(subs) == c.n && CountE(subs) == c.n)
    decreases l
  {
    match l
    case Nil =>
    case Cons(head, tail) =>
      ThreshCounts(tail, false, ctx);
      var subs := InfosOf(l, ctx).value;
      assert subs[1..] == InfosOf(tail, ctx).value;
  }

  // ---- one node, given its children ----

  lemma BinaryNode(op: BinOp, x: Type, y: Type, xi: Info, yi: Info)
    requires Consistent(x, xi) && Consistent(y, yi) && BinaryType(op, Some(x), Some(y)).Some?
    ensures Consistent(BinaryType(op, Some(x), Some(y)).value, BinaryInfo(op, xi, yi))
  {}

  lemma AndOrNode(x: Type, y: Type, z: Type, xi: Info, yi: Info, zi: Info)
    requires Consistent(x, xi) && Consistent(y, yi) && Consistent(z, zi) && AndOrType(Some(x), Some(y), Some(z)).Some?
    ensures Consistent(AndOrType(Some(x), Some(y), Some(z)).value, AndOrInfo(xi, yi, zi))
  {}

  lemma WrapNode(w: Wrapper, x: Type, xi: Info, ctx: Context)
    requires Consistent(x, xi) && WrapType(w, Some(x), ctx).Some?
    ensures Consistent(WrapType(w, Some(x), ctx).value, WrapInfo(w, xi))
  {}

  lemma ThreshNode(e: Expr, ctx: Context)
    requires e.Thresh? && Accepted(e, ctx) && ConsistentList(e.subs, ctx)
    ensures Consistent(TypeOf(e, ctx).value, InfoOf(e, ctx).value)
  {
    ThreshCounts(e.subs, true, ctx);
  }

  lemma LeafNode(e: Expr, ctx: Context)
    requires !e.AndOr? && !e.Binary? && !e.Thresh? && !e.Wrap? && Accepted(e, ctx)
    ensures Consistent(TypeOf(e, ctx).value, InfoOf(e, ctx).value)
  {}

  /** Every expression that both passes accept is consistent at every node. */
  lemma {:induction false} EveryNodeConsistent(e: Expr, ctx: Context)
    requires Accepted(e, ctx)
    ensures ConsistentTree(e, ctx)
    decreases e
  {
    match e
    case AndOr(x, y, z) =>
      EveryNodeConsistent(x, ctx);
      EveryNodeConsistent(y, ctx);
      EveryNodeConsistent(z, ctx);
      AndOrNode(TypeOf(x, ctx).value, TypeOf(y, ctx).value, TypeOf(z, ctx).value,
                InfoOf(x, ctx).value, InfoOf(y, ctx).value, InfoOf(z, ctx).value);
    case Binary(op, x, y) =>
      EveryNodeConsistent(x, ctx);
      EveryNodeConsistent(y, ctx);
      BinaryNode(op, TypeOf(x, ctx).value, TypeOf(y, ctx).value, InfoOf(x, ctx).value, InfoOf(y, ctx).value);
    case Thresh(_, subs) =>
      EveryListConsistent(subs, true, ctx);
      ThreshNode(e, ctx);
    case Wrap(w, x) =>
      EveryNodeConsistent(x, ctx);
      WrapNode(w, TypeOf(x, ctx).value, InfoOf(x, ctx).value, ctx);
    case _ =>
      LeafNode(e, ctx);
  }

  lemma {:induction false} EveryListConsistent(l: Exprs, first: bool, ctx: Context)
    requires CountSubs(l, first, ctx).Some? && InfosOf(l, ctx).Some?
    ensures ConsistentList(l, ctx)
    decreases l
  {
    match l
    case Nil =>
    case Cons(head, tail) =>
      EveryNodeConsistent(head, ctx);
      EveryListConsistent(tail, false, ctx);
  }
}
