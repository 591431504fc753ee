/**
 The secp256k1 group as the MuSig2 code sees it: points in affine coordinates, a
 separate point at infinity, and calls into the device's elliptic curve library.

 The library and the curve constants are the fields of a `Secp` value. `Lawful`
 lists what the code relies on; nothing is assumed beyond it.
 */
module Curve {
  import opened Wrappers

  /** An uncompressed point: prefix byte 0 is `Infinity`, prefix byte 4 is `Affine`. */
  datatype Point = Infinity | Affine(x: nat, y: nat)

  /** A 33-byte compressed point: the prefix byte and the big-endian x coordinate. */
  datatype Compressed = Compressed(prefix: nat, x: nat)

  datatype Secp = Secp(
    p: nat,                          // the field prime
    n: nat,                          // the group order
    g: Point,                        // the generator
    member: Point -> bool,           // the points of the curve
    cxAdd: (Point, Point) -> Point,  // library addition of two finite points
    cxMul: (Point, nat) -> Point,    // library multiplication of a finite point
    liftX: nat -> Point              // the even-y point with this x, or Infinity
  ) {
    /** Point addition with the special cases the library does not take. */
    function Add(P: Point, Q: Point): Point {
      if P.Infinity? then Q
      else if Q.Infinity? then P
      else if P.x == Q.x && P.y != Q.y then Infinity
      else cxAdd(P, Q)
    }

    function Mul(P: Point, k: nat): Point {
      if P.Infinity? then Infinity else cxMul(P, k)
    }

    /** Negation replaces y by p - y. */
    function Negate(P: Point): Point
      requires P.Affine? ==> P.y <= p
    {
      if P.Infinity? then Infinity else Affine(P.x, p - P.y)
    }

    predicate HasEvenY(P: Point)
      requires P.Affine?
    {
      P.y % 2 == 0
    }

    /** Decompression; fails on an unknown prefix or an x that is not on the curve. */
    function Decompress(k: Compressed): Option<Point>
      requires Lawful()
    {
      var lifted := liftX(k.x);
      assert LiftMemberLaw(k.x) && NegationLaw(lifted);
      if lifted.Infinity? then None
      else if k.prefix == 2 then Some(lifted)
      else if k.prefix == 3 then Some(Negate(lifted))
      else None
    }

    /** Decompression where 33 zero bytes stand for the point at infinity. */
    function DecompressExt(k: Compressed): Option<Point>
      requires Lawful()
    {
      if k == Compressed(0, 0) then Some(Infinity) else Decompress(k)
    }

    /** Compression of a finite point. */
    function Compress(P: Point): Compressed
      requires P.Affine?
    {
      Compressed(if P.y % 2 == 1 then 3 else 2, P.x)
    }

    /** Repeated addition, the meaning of scalar multiplication. */
    ghost function Times(P: Point, k: nat): Point {
      if k == 0 then Infinity else Add(Times(P, k - 1), P)
    }

    /** The one of P and -P whose y coordinate is even (BIP 340). */
    function EvenY(P: Point): Point
      requires P.Affine? && P.y <= p
    {
      if HasEvenY(P) then P else Negate(P)
    }

    // What the code relies on, one predicate per law so that each instance is named.

    ghost predicate NegationLaw(P: Point) {
      member(P) && P.Affine? ==> 0 < P.y < p && member(Affine(P.x, p - P.y))
    }

    ghost predicate AdditionLaw(P: Point, Q: Point) {
      member(P) && member(Q) ==>
        && member(Add(P, Q))
        && Add(P, Q) == Add(Q, P)
        && (P.Affine? && Q.Affine? && P.x == Q.x ==> P.y == Q.y || P.y + Q.y == p)
    }

    ghost predicate AssociativeLaw(P: Point, Q: Point, R: Point) {
      member(P) && member(Q) && member(R) ==> Add(Add(P, Q), R) == Add(P, Add(Q, R))
    }

    ghost predicate MultiplicationLaw(P: Point, k: nat) {
      member(P) && P.Affine? ==> cxMul(P, k) == Times(P, k)
    }

    ghost predicate OrderLaw(P: Point) {
      member(P) ==> Times(P, n) == Infinity
    }

    ghost predicate GeneratorLaw(k: nat) {
      0 < k < n ==> Times(g, k) != Infinity
    }

    ghost predicate LiftLaw(P: Point) {
      member(P) && P.Affine? ==>
        var lifted := liftX(P.x);
        lifted.Affine? && lifted.x == P.x && lifted.y % 2 == 0
    }

    ghost predicate LiftMemberLaw(x: nat) {
      member(liftX(x)) && (liftX(x).Affine? ==> liftX(x).x == x && liftX(x).y % 2 == 0)
    }

    /** A commutative group of order n over a field of odd characteristic p. */
    ghost predicate Lawful() {
      && p % 2 == 1
      && n > 1
      && g.Affine?
      && member(g)
      && member(Infinity)
      && (forall P :: NegationLaw(P))
      && (forall P, Q :: AdditionLaw(P, Q))
      && (forall P, Q, R :: AssociativeLaw(P, Q, R))
      && (forall P, k :: MultiplicationLaw(P, k))
      && (forall P :: OrderLaw(P))
      && (forall k :: GeneratorLaw(k))
      && (forall P :: LiftLaw(P))
      && (forall x :: LiftMemberLaw(x))
    }
  }

  // ---- group algebra ----

  lemma AddFacts(c: Secp, P: Point, Q: Point)
    requires c.Lawful() && c.member(P) && c.member(Q)
    ensures c.member(c.Add(P, Q))
    ensures c.Add(P, Q) == c.Add(Q, P)
  {
    assert c.AdditionLaw(P, Q);
  }

  lemma AddAssociates(c: Secp, P: Point, Q: Point, R: Point)
    requires c.Lawful() && c.member(P) && c.member(Q) && c.member(R)
    ensures c.Add(c.Add(P, Q), R) == c.Add(P, c.Add(Q, R))
  {
    assert c.AssociativeLaw(P, Q, R);
  }

  /** (P + Q) + (R + S) == (P + R) + (Q + S) */
  lemma AddInterchange(c: Secp, P: Point, Q: Point, R: Point, S: Point)
    requires c.Lawful() && c.member(P) && c.member(Q) && c.member(R) && c.member(S)
    ensures c.Add(c.Add(P, Q), c.Add(R, S)) == c.Add(c.Add(P, R), c.Add(Q, S))
  {
    AddFacts(c, R, S);
    AddFacts(c, Q, S);
    AddFacts(c, Q, R);
    AddAssociates(c, P, Q, c.Add(R, S));
    AddAssociates(c, Q, R, S);
    AddAssociates(c, R, Q, S);
    AddAssociates(c, P, R, c.Add(Q, S));
  }

  lemma {:induction false} TimesMember(c: Secp, P: Point, k: nat)
    requires c.Lawful() && c.member(P)
    ensures c.member(c.Times(P, k))
  {
    if k > 0 {
      TimesMember(c, P, k - 1);
      AddFacts(c, c.Times(P, k - 1), P);
    }
  }

  /** The library's multiplication is repeated addition. */
  lemma MulIsTimes(c: Secp, P: Point, k: nat)
    requires c.Lawful() && c.member(P)
    ensures c.Mul(P, k) == c.Times(P, k)
    ensures c.member(c.Mul(P, k))
  {
    assert c.MultiplicationLaw(P, k);
    TimesMember(c, P, k);
    if P.Infinity? {
      TimesInfinity(c, k);
    }
  }

  lemma {:induction false} TimesInfinity(c: Secp, k: nat)
    ensures c.Times(Infinity, k) == Infinity
  {
    if k > 0 {
      TimesInfinity(c, k - 1);
    }
  }

  lemma {:induction false} TimesSum(c: Secp, P: Point, a: nat, b: nat)
    requires c.Lawful() && c.member(P)
    ensures c.Times(P, a + b) == c.Add(c.Times(P, a), c.Times(P, b))
  {
    TimesMember(c, P, a);
    if b == 0 {
      AddFacts(c, c.Times(P, a), Infinity);
    } else {
      TimesSum(c, P, a, b - 1);
      TimesMember(c, P, b - 1);
      AddAssociates(c, c.Times(P, a), c.Times(P, b - 1), P);
      assert c.Times(P, a + b) == c.Add(c.Times(P, a + (b - 1)), P);
    }
  }

  lemma {:induction false} TimesProduct(c: Secp, P: Point, a: nat, b: nat)
    requires c.Lawful() && c.member(P)
    ensures c.Times(P, a * b) == c.Times(c.Times(P, a), b)
  {
    TimesMember(c, P, a);
    if b == 0 {
      assert a * b == 0;
    } else {
      TimesProduct(c, P, a, b - 1);
      assert a * b == a * (b - 1) + a;
      TimesSum(c, P, a * (b - 1), a);
    }
  }

  lemma {:induction false} TimesOfSum(c: Secp, P: Point, Q: Point, k: nat)
    requires c.Lawful() && c.member(P) && c.member(Q)
    ensures c.Times(c.Add(P, Q), k) == c.Add(c.Times(P, k), c.Times(Q, k))
  {
    if k > 0 {
      TimesOfSum(c, P, Q, k - 1);
      TimesMember(c, P, k - 1);
      TimesMember(c, Q, k - 1);
      AddInterchange(c, c.Times(P, k - 1), c.Times(Q, k - 1), P, Q);
    }
  }

  /** Scalars matter only modulo the group order. */
  lemma TimesMod(c: Secp, P: Point, k: nat)
    requires c.Lawful() && c.member(P)
    ensures c.Times(P, k % c.n) == c.Times(P, k)
  {
    var q := k / c.n;
    assert c.n * q + k % c.n == k;
    TimesProduct(c, P, c.n, q);
    assert c.OrderLaw(P);
    TimesInfinity(c, q);
    TimesSum(c, P, c.n * q, k % c.n);
  }

  /** Multiplying by n - 1 negates. */
  lemma TimesNegates(c: Secp, P: Point)
    requires c.Lawful() && c.member(P)
    ensures P.Affine? ==> 0 < P.y < c.p
    ensures c.member(c.Negate(P))
    ensures c.Times(P, c.n - 1) == c.Negate(P)
  {
    assert c.NegationLaw(P);
    var M := c.Times(P, c.n - 1);
    var N := c.Negate(P);
    TimesMember(c, P, c.n - 1);
    assert c.OrderLaw(P);
    assert c.Add(M, P) == Infinity;
    assert c.Add(P, N) == Infinity;
    AddAssociates(c, M, P, N);
    AddFacts(c, M, Infinity);
  }

  // ---- the same for the library's multiplication ----

  lemma MulMember(c: Secp, P: Point, k: nat)
    requires c.Lawful() && c.member(P)
    ensures c.member(c.Mul(P, k))
  {
    MulIsTimes(c, P, k);
  }

  lemma MulOne(c: Secp, P: Point)
    requires c.Lawful() && c.member(P)
    ensures c.Mul(P, 1) == P && c.Mul(P, 0) == Infinity
  {
    MulIsTimes(c, P, 1);
    MulIsTimes(c, P, 0);
    assert c.Times(P, 0) == Infinity;
  }

  lemma MulSum(c: Secp, P: Point, a: nat, b: nat)
    requires c.Lawful() && c.member(P)
    ensures c.Mul(P, a + b) == c.Add(c.Mul(P, a), c.Mul(P, b))
  {
    TimesSum(c, P, a, b);
    MulIsTimes(c, P, a);
    MulIsTimes(c, P, b);
    MulIsTimes(c, P, a + b);
  }

  lemma MulProduct(c: Secp, P: Point, a: nat, b: nat)
    requires c.Lawful() && c.member(P)
    ensures c.Mul(P, a * b) == c.Mul(c.Mul(P, a), b)
  {
    TimesProduct(c, P, a, b);
    MulIsTimes(c, P, a);
    MulIsTimes(c, c.Mul(P, a), b);
    MulIsTimes(c, P, a * b);
  }

  lemma MulOfSum(c: Secp, P: Point, Q: Point, k: nat)
    requires c.Lawful() && c.member(P) && c.member(Q)
    ensures c.Mul(c.Add(P, Q), k) == c.Add(c.Mul(P, k), c.Mul(Q, k))
  {
    TimesOfSum(c, P, Q, k);
    AddFacts(c, P, Q);
    MulIsTimes(c, P, k);
    MulIsTimes(c, Q, k);
    MulIsTimes(c, c.Add(P, Q), k);
  }

  /** Scalars matter only modulo the group order. */
  lemma MulReduce(c: Secp, P: Point, k: nat)
    requires c.Lawful() && c.member(P)
    ensures c.Mul(P, k % c.n) == c.Mul(P, k)
  {
    TimesMod(c, P, k);
    MulIsTimes(c, P, k);
    MulIsTimes(c, P, k % c.n);
  }

  /** Scalars that differ by a multiple of the order give the same point. */
  lemma MulShift(c: Secp, P: Point, a: nat, q: nat)
    requires c.Lawful() && c.member(P)
    ensures c.Mul(P, a + c.n * q) == c.Mul(P, a)
  {
    TimesSum(c, P, a, c.n * q);
    TimesProduct(c, P, c.n, q);
    assert c.OrderLaw(P);
    TimesInfinity(c, q);
    TimesMember(c, P, a);
    AddFacts(c, c.Times(P, a), Infinity);
    MulIsTimes(c, P, a);
    MulIsTimes(c, P, a + c.n * q);
  }

  lemma MulFinite(c: Secp, k: nat)
    requires c.Lawful() && 0 < k < c.n
    ensures c.Mul(c.g, k).Affine? && c.member(c.Mul(c.g, k))
  {
    assert c.GeneratorLaw(k);
    MulIsTimes(c, c.g, k);
  }

  /** Multiplying by n - 1 negates. */
  lemma MulNegates(c: Secp, P: Point)
    requires c.Lawful() && c.member(P)
    ensures P.Affine? ==> 0 < P.y < c.p
    ensures c.member(c.Negate(P))
    ensures c.Mul(P, c.n - 1) == c.Negate(P)
  {
    TimesNegates(c, P);
    MulIsTimes(c, P, c.n - 1);
  }

  /** Decompression undoes compression on every finite point of the curve. */
  lemma CompressRoundTrip(c: Secp, P: Point)
    requires c.Lawful() && c.member(P) && P.Affine?
    ensures c.Decompress(c.Compress(P)) == Some(P)
    ensures c.DecompressExt(c.Compress(P)) == Some(P)
  {
    var L := c.liftX(P.x);
    assert c.LiftLaw(P);
    assert c.LiftMemberLaw(P.x);
    assert c.NegationLaw(L);
    assert c.AdditionLaw(P, L);
    assert P == L || P == c.Negate(L);
    FlipParity(c.p, L.y);
  }

  lemma FlipParity(p: nat, y: nat)
    requires p % 2 == 1 && y <= p
    ensures (p - y) % 2 == 1 - y % 2
  {}

  /** The point that has the x of P and an even y. */
  lemma LiftIsEvenY(c: Secp, P: Point)
    requires c.Lawful() && c.member(P) && P.Affine?
    ensures P.y <= c.p && c.liftX(P.x) == c.EvenY(P)
  {
    var L := c.liftX(P.x);
    assert c.LiftLaw(P);
    assert c.LiftMemberLaw(P.x);
    assert c.NegationLaw(P);
    assert c.NegationLaw(L);
    assert c.AdditionLaw(P, L);
    FlipParity(c.p, L.y);
  }

  /** The prefix tells the parity of y: 2 is even and 3 is odd. */
  lemma DecompressIff(c: Secp, k: Compressed, P: Point)
    requires c.Lawful()
    ensures c.Decompress(k) == Some(P) <==> c.member(P) && P.Affine? && k == Compressed(2 + P.y % 2, P.x)
  {
    var L := c.liftX(k.x);
    assert c.LiftMemberLaw(k.x);
    assert c.NegationLaw(L);
    if L.Affine? {
      FlipParity(c.p, L.y);
    }
    if c.member(P) && P.Affine? && k == Compressed(2 + P.y % 2, P.x) {
      CompressRoundTrip(c, P);
    }
  }

  /** Whatever decompresses is a finite point of the curve. */
  lemma DecompressMember(c: Secp, k: Compressed)
    requires c.Lawful()
    ensures c.Decompress(k).Some? ==> c.member(c.Decompress(k).value) && c.Decompress(k).value.Affine?
    ensures c.DecompressExt(k).Some? ==> c.member(c.DecompressExt(k).value)
  {
    assert c.LiftMemberLaw(k.x);
    assert c.NegationLaw(c.liftX(k.x));
  }

  // ---- the laws hold of some curve ----

  /** The group of order 3 on the points (1, 1) and (1, 2) over the field of 3 elements. */
  function ThreePoints(): Secp {
    var A, B := Affine(1, 1), Affine(1, 2);
    var other := (P: Point) => if P == A then B else A;
    Secp(3, 3, A,
         P => P == Infinity || P == A || P == B,
         (P, Q) => if P == Q then other(P) else Infinity,
         (P, k) => if k % 3 == 0 then Infinity else if k % 3 == 1 then P else other(P),
         x => if x == 1 then B else Infinity)
  }

  lemma {:induction false} ThreePointsTimes(P: Point, k: nat)
    requires P == Affine(1, 1) || P == Affine(1, 2)
    ensures ThreePoints().Times(P, k) == ThreePoints().cxMul(P, k)
  {
    if k > 0 {
      ThreePointsTimes(P, k - 1);
    }
  }

  /** `Lawful` is not contradictory. */
  lemma LawsAreConsistent()
    ensures ThreePoints().Lawful()
  {
    var c := ThreePoints();
    forall P, k: nat
      ensures c.MultiplicationLaw(P, k)
    {
      if c.member(P) && P.Affine? {
        ThreePointsTimes(P, k);
      }
    }
    forall P
      ensures c.OrderLaw(P)
    {
      if c.member(P) && P.Affine? {
        ThreePointsTimes(P, 3);
      } else if c.member(P) {
        TimesInfinity(c, 3);
      }
    }
    forall k: nat
      ensures c.GeneratorLaw(k)
    {
      ThreePointsTimes(c.g, k);
    }
  }
}
