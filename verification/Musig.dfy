/**
 MuSig2 (BIP 327) key aggregation, tweaking, nonce aggregation and partial signing.

 Scalars are the unsigned values of the 32-byte big-endian arrays. The tagged hashes
 are the fields of a `Hashes` value, about which nothing is assumed.
 */
module Musig {
  import opened Wrappers
  import opened Curve
  import opened Arith

  type Message = seq<nat>

  datatype PubNonce = PubNonce(r1: Compressed, r2: Compressed)

  datatype Hashes = Hashes(
    keyList: seq<Compressed> -> nat,
    keyCoefficient: (nat, Compressed) -> nat,
    nonceCoefficient: (PubNonce, nat, Message) -> nat,
    challenge: (nat, nat, Message) -> nat
  )

  datatype Tweak = Tweak(value: nat, xonly: bool)

  datatype Session = Session(aggnonce: PubNonce, pubkeys: seq<Compressed>, tweaks: seq<Tweak>, msg: Message)

  /** `Halted` is a failed LEDGER_ASSERT, which stops the app. */
  datatype Status = Ok | Error | Halted

  /** A value of the key aggregation context. */
  datatype KeyAgg = KeyAgg(Q: Point, gacc: nat, tacc: nat)

  datatype SessionValues = SessionValues(Q: Point, gacc: nat, tacc: nat, b: nat, R: Point, e: nat)

  datatype Outcome<T> = Done(value: T) | Failed(status: Status)

  // ---- scalar arithmetic modulo the group order ----

  function AddMod(c: Secp, a: nat, b: nat): nat
    requires c.n > 0
  {
    (a + b) % c.n
  }

  function MulMod(c: Secp, a: nat, b: nat): nat
    requires c.n > 0
  {
    a * b % c.n
  }

  // ---- key aggregation ----

  /** The first key from position i on that differs from the first key, or 33 zero bytes. */
  function SecondKey(pubkeys: seq<Compressed>, i: nat): Compressed
    requires i <= |pubkeys|
    decreases |pubkeys| - i
  {
    if i == |pubkeys| then Compressed(0, 0)
    else if pubkeys[i] != pubkeys[0] then pubkeys[i]
    else SecondKey(pubkeys, i + 1)
  }

  function Coefficient(c: Secp, h: Hashes, pubkeys: seq<Compressed>, pk: Compressed): nat
    requires c.n > 0
  {
    if pk == SecondKey(pubkeys, 0) then 1 else h.keyCoefficient(h.keyList(pubkeys), pk) % c.n
  }

  /** Key j is the first that differs from the first key. */
  predicate IsSecond(pubkeys: seq<Compressed>, j: int) {
    0 <= j < |pubkeys| && pubkeys[j] != pubkeys[0] && forall i :: 0 <= i < j ==> pubkeys[i] == pubkeys[0]
  }

  lemma {:induction false} SecondKeyIs(pubkeys: seq<Compressed>, i: nat)
    requires i <= |pubkeys| && forall l :: 0 <= l < i ==> pubkeys[l] == pubkeys[0]
    ensures if exists j :: IsSecond(pubkeys, j) then exists j :: IsSecond(pubkeys, j) && SecondKey(pubkeys, i) == pubkeys[j]
            else SecondKey(pubkeys, i) == Compressed(0, 0)
    decreases |pubkeys| - i
  {
    if i < |pubkeys| {
      if pubkeys[i] != pubkeys[0] {
        assert IsSecond(pubkeys, i);
      } else {
        SecondKeyIs(pubkeys, i + 1);
      }
    }
  }

  /** The key that is first to differ from the first has the coefficient 1, and every other key the hash of all keys with it. */
  lemma CoefficientIs(c: Secp, h: Hashes, pubkeys: seq<Compressed>, pk: Compressed)
    requires c.n > 0
    ensures forall j :: IsSecond(pubkeys, j) ==> Coefficient(c, h, pubkeys, pubkeys[j]) == 1
    ensures pk != Compressed(0, 0) && (forall j :: IsSecond(pubkeys, j) ==> pubkeys[j] != pk) ==>
              Coefficient(c, h, pubkeys, pk) == h.keyCoefficient(h.keyList(pubkeys), pk) % c.n
  {
    SecondKeyIs(pubkeys, 0);
    forall j | IsSecond(pubkeys, j)
      ensures Coefficient(c, h, pubkeys, pubkeys[j]) == 1
    {
      var i :| IsSecond(pubkeys, i) && SecondKey(pubkeys, 0) == pubkeys[i];
      assert i == j;
    }
  }

  /** Every 33-byte string decodes to a point. */
  predicate AllDecode(c: Secp, points: seq<Compressed>)
    requires c.Lawful()
  {
    forall i :: 0 <= i < |points| ==> c.Decompress(points[i]).Some?
  }

  /** The sum of a_i * P_i over the first k keys. */
  function WeightedSum(c: Secp, h: Hashes, pubkeys: seq<Compressed>, k: nat): Point
    requires c.Lawful() && k <= |pubkeys| && AllDecode(c, pubkeys[..k])
  {
    if k == 0 then Infinity
    else
      assert pubkeys[..k][..k - 1] == pubkeys[..k - 1];
      assert pubkeys[..k][k - 1] == pubkeys[k - 1];
      c.Add(WeightedSum(c, h, pubkeys, k - 1),
            c.Mul(c.Decompress(pubkeys[k - 1]).value, Coefficient(c, h, pubkeys, pubkeys[k - 1])))
  }

  method GetSecondKey(pubkeys: seq<Compressed>) returns (out: Compressed)
    ensures out == SecondKey(pubkeys, 0)
    ensures out != Compressed(0, 0) ==> out in pubkeys && out != pubkeys[0]
    ensures (forall i :: 0 <= i < |pubkeys| ==> pubkeys[i] == pubkeys[0]) ==> out == Compressed(0, 0)
  {
    for i := 0 to |pubkeys|
      invariant SecondKey(pubkeys, 0) == SecondKey(pubkeys, i)
    {
      if pubkeys[0] != pubkeys[i] {
        return pubkeys[i];
      }
    }
    return Compressed(0, 0);
  }

  /** The mutable context that aggregation and tweaking update. */
  class KeyAggContext {
    var Q: Point
    var gacc: nat
    var tacc: nat

    constructor (content: KeyAgg)
      ensures Value() == content
    {
      Q, gacc, tacc := content.Q, content.gacc, content.tacc;
    }

    function Value(): KeyAgg
      reads this
    {
      KeyAgg(Q, gacc, tacc)
    }

    /**
     Sets the context to the aggregate of the keys. On an undecodable key it stops with
     Q the aggregate of the keys before it and the accumulators untouched.
     */
    method KeyAggregate(c: Secp, h: Hashes, pubkeys: seq<Compressed>) returns (ok: bool)
      requires c.Lawful()
      modifies this
      ensures ok <==> AllDecode(c, pubkeys)
      ensures ok ==> AllDecode(c, pubkeys[..|pubkeys|]) && Value() == KeyAgg(WeightedSum(c, h, pubkeys, |pubkeys|), 1, 0)
      ensures !ok ==> gacc == old(gacc) && tacc == old(tacc)
      ensures !ok ==> exists i :: 0 <= i < |pubkeys| && c.Decompress(pubkeys[i]).None?
                                  && AllDecode(c, pubkeys[..i]) && Q == WeightedSum(c, h, pubkeys, i)
    {
      var pk2 := GetSecondKey(pubkeys);
      Q := Infinity;
      for i := 0 to |pubkeys|
        invariant AllDecode(c, pubkeys[..i])
        invariant Q == WeightedSum(c, h, pubkeys, i)
        invariant gacc == old(gacc) && tacc == old(tacc)
      {
        var P := c.Decompress(pubkeys[i]);
        if P.None? {
          return false;
        }
        var a := if pubkeys[i] == pk2 then 1 else h.keyCoefficient(h.keyList(pubkeys), pubkeys[i]) % c.n;
        assert pubkeys[..i + 1] == pubkeys[..i] + [pubkeys[i]];
        Q := c.Add(Q, c.Mul(P.value, a));
      }
      assert pubkeys[..|pubkeys|] == pubkeys;
      tacc := 0;
      gacc := 1;
      return true;
    }

    /** Applies one plain or x-only tweak. */
    method ApplyTweak(c: Secp, tweak: Tweak) returns (status: Status)
      requires c.Lawful()
      modifies this
      ensures (status, Value()) == Tweaked(c, old(Value()), tweak)
    {
      var g := 1;
      if tweak.xonly {
        if Q.Infinity? {
          return Halted;
        }
        if !c.HasEvenY(Q) {
          g := c.n - g;
        }
      }
      if tweak.value >= c.n {
        return Error;
      }
      Q := c.Mul(Q, g);
      var T := c.Mul(c.g, tweak.value);
      Q := c.Add(Q, T);
      if Q.Infinity? {
        return Error;
      }
      gacc := MulMod(c, g, gacc);
      tacc := MulMod(c, g, tacc);
      tacc := AddMod(c, tacc, tweak.value);
      return Ok;
    }
  }

  // ---- tweaking ----

  /** 1 or n - 1, the factor that makes the point's y even. */
  function EvenFactor(c: Secp, P: Point): (g: nat)
    requires P.Affine? && c.n > 1
    ensures g == 1 || g == c.n - 1
  {
    if c.HasEvenY(P) then 1 else c.n - 1
  }

  function Tweaked(c: Secp, k: KeyAgg, tweak: Tweak): (Status, KeyAgg)
    requires c.Lawful()
  {
    if tweak.xonly && k.Q.Infinity? then (Halted, k)
    else if tweak.value >= c.n then (Error, k)
    else
      var g := if tweak.xonly then EvenFactor(c, k.Q) else 1;
      var Q := c.Add(c.Mul(k.Q, g), c.Mul(c.g, tweak.value));
      if Q.Infinity? then (Error, k.(Q := Q))
      else (Ok, KeyAgg(Q, MulMod(c, g, k.gacc), AddMod(c, MulMod(c, g, k.tacc), tweak.value)))
  }

  /** What a tweak adds t * G to: the point itself or, for an x-only tweak, the point with even y that has its x. */
  function TweakBase(c: Secp, P: Point, xonly: bool): Point {
    if xonly && P.Affine? then c.liftX(P.x) else P
  }

  lemma FactorLifts(c: Secp, P: Point)
    requires c.Lawful() && c.member(P) && P.Affine?
    ensures P.y <= c.p && c.EvenY(P) == c.Mul(P, EvenFactor(c, P)) == c.liftX(P.x)
  {
    LiftIsEvenY(c, P);
    MulNegates(c, P);
    MulOne(c, P);
  }

  /**
   A tweak succeeds exactly if it is less than the order, an x-only one has a finite point, and the result is
   finite; the result is then lift_x(x(Q)) + t * G for an x-only tweak (BIP 341), and Q + t * G for a plain one.
   */
  lemma TweakIs(c: Secp, k: KeyAgg, tweak: Tweak)
    requires c.Lawful() && c.member(k.Q)
    ensures var sum := c.Add(TweakBase(c, k.Q, tweak.xonly), c.Mul(c.g, tweak.value));
            && (Tweaked(c, k, tweak).0 == Ok <==> (tweak.xonly ==> k.Q.Affine?) && tweak.value < c.n && sum != Infinity)
            && (Tweaked(c, k, tweak).0 == Ok ==> Tweaked(c, k, tweak).1.Q == sum)
            && (Tweaked(c, k, tweak).0 == Halted <==> tweak.xonly && k.Q.Infinity?)
  {
    MulOne(c, k.Q);
    if tweak.xonly && k.Q.Affine? {
      FactorLifts(c, k.Q);
    }
  }

  /** An x-only tweak gives the same point for Q and for -Q. */
  lemma TweakOfNegative(c: Secp, k: KeyAgg, l: KeyAgg, tweak: Tweak)
    requires c.Lawful() && c.member(k.Q) && c.member(l.Q) && tweak.xonly
    requires k.Q.Affine? && k.Q.y <= c.p && l.Q == c.Negate(k.Q) && Tweaked(c, k, tweak).0 == Ok
    ensures Tweaked(c, l, tweak).0 == Ok && Tweaked(c, k, tweak).1.Q == Tweaked(c, l, tweak).1.Q
  {
    TweakIs(c, k, tweak);
    TweakIs(c, l, tweak);
  }

  /** A chain of tweaks as BIP 327 and BIP 341 define it on points. */
  function TweakedChain(c: Secp, P: Point, tweaks: seq<Tweak>): Point
    decreases |tweaks|
  {
    if tweaks == [] then P
    else
      var last := tweaks[|tweaks| - 1];
      c.Add(TweakBase(c, TweakedChain(c, P, tweaks[..|tweaks| - 1]), last.xonly), c.Mul(c.g, last.value))
  }

  /** Applies the tweaks in order, stopping at the first that fails. */
  function AllTweaked(c: Secp, k: KeyAgg, tweaks: seq<Tweak>): (Status, KeyAgg)
    requires c.Lawful()
    decreases |tweaks|
  {
    if tweaks == [] then (Ok, k)
    else
      var (status, next) := AllTweaked(c, k, tweaks[..|tweaks| - 1]);
      if status != Ok then (status, next) else Tweaked(c, next, tweaks[|tweaks| - 1])
  }

  /** BIP 327, "Applying Tweaks": Q = gacc * S + tacc * G with gacc in {1, n - 1}. */
  ghost predicate TweakInvariant(c: Secp, S: Point, k: KeyAgg)
    requires c.Lawful()
  {
    && c.member(S)
    && (k.gacc == 1 || k.gacc == c.n - 1)
    && k.tacc < c.n
    && k.Q == c.Add(c.Mul(S, k.gacc), c.Mul(c.g, k.tacc))
  }

  lemma SignProduct(n: nat, g: nat, h: nat)
    requires n > 1 && (g == 1 || g == n - 1) && (h == 1 || h == n - 1)
    ensures g * h % n == 1 || g * h % n == n - 1
  {
    if g == 1 {
      DivModUnique(g * h, n, 0, h);
    } else if h == 1 {
      DivModUnique(g * h, n, 0, g);
    } else {
      DivModUnique(g * h, n, n - 2, 1);
    }
  }

  /** Reducing a product modulo the order does not change the multiple. */
  lemma MulMulMod(c: Secp, P: Point, g: nat, k: nat)
    requires c.Lawful() && c.member(P)
    ensures c.Mul(P, MulMod(c, g, k)) == c.Mul(c.Mul(P, k), g)
  {
    MulReduce(c, P, g * k);
    MulProduct(c, P, k, g);
    assert k * g == g * k;
  }

  lemma MulAddMod(c: Secp, P: Point, a: nat, b: nat)
    requires c.Lawful() && c.member(P)
    ensures c.Mul(P, AddMod(c, a, b)) == c.Add(c.Mul(P, a), c.Mul(P, b))
  {
    MulReduce(c, P, a + b);
    MulSum(c, P, a, b);
  }

  /** g * (gS + tG) + u * G == (g * gS) + (g * tG + u * G) */
  lemma TweakedPoint(c: Secp, gS: Point, tG: Point, g: nat, u: nat)
    requires c.Lawful() && c.member(gS) && c.member(tG)
    ensures c.Add(c.Mul(c.Add(gS, tG), g), c.Mul(c.g, u))
            == c.Add(c.Mul(gS, g), c.Add(c.Mul(tG, g), c.Mul(c.g, u)))
  {
    AddFacts(c, gS, tG);
    MulMember(c, c.Add(gS, tG), g);
    MulMember(c, c.g, u);
    MulOfSum(c, gS, tG, g);
    MulMember(c, gS, g);
    MulMember(c, tG, g);
    AddAssociates(c, c.Mul(gS, g), c.Mul(tG, g), c.Mul(c.g, u));
  }

  /** One successful tweak keeps the invariant. */
  lemma TweakKeepsInvariant(c: Secp, S: Point, k: KeyAgg, tweak: Tweak)
    requires c.Lawful() && TweakInvariant(c, S, k)
    requires Tweaked(c, k, tweak).0 == Ok
    ensures TweakInvariant(c, S, Tweaked(c, k, tweak).1)
  {
    var g := if tweak.xonly then EvenFactor(c, k.Q) else 1;
    MulMember(c, S, k.gacc);
    MulMember(c, c.g, k.tacc);
    TweakedPoint(c, c.Mul(S, k.gacc), c.Mul(c.g, k.tacc), g, tweak.value);
    SignProduct(c.n, g, k.gacc);
    MulMulMod(c, S, g, k.gacc);
    MulMulMod(c, c.g, g, k.tacc);
    MulAddMod(c, c.g, MulMod(c, g, k.tacc), tweak.value);
  }

  /** Every sequence of plain and x-only tweaks keeps the invariant. */
  lemma {:induction false} TweaksKeepInvariant(c: Secp, S: Point, k: KeyAgg, tweaks: seq<Tweak>)
    requires c.Lawful() && TweakInvariant(c, S, k)
    requires AllTweaked(c, k, tweaks).0 == Ok
    ensures TweakInvariant(c, S, AllTweaked(c, k, tweaks).1)
    decreases |tweaks|
  {
    if tweaks != [] {
      var last := |tweaks| - 1;
      TweaksKeepInvariant(c, S, k, tweaks[..last]);
      TweakKeepsInvariant(c, S, AllTweaked(c, k, tweaks[..last]).1, tweaks[last]);
    }
  }

  /** Every successful sequence of tweaks leads to the end of the chain. */
  lemma {:induction false} TweaksAreChain(c: Secp, S: Point, k: KeyAgg, tweaks: seq<Tweak>)
    requires c.Lawful() && TweakInvariant(c, S, k)
    requires AllTweaked(c, k, tweaks).0 == Ok
    ensures AllTweaked(c, k, tweaks).1.Q == TweakedChain(c, k.Q, tweaks)
    decreases |tweaks|
  {
    if tweaks != [] {
      var last := |tweaks| - 1;
      var l := AllTweaked(c, k, tweaks[..last]).1;
      TweaksAreChain(c, S, k, tweaks[..last]);
      TweaksKeepInvariant(c, S, k, tweaks[..last]);
      InvariantMember(c, S, l);
      TweakIs(c, l, tweaks[last]);
    }
  }

  lemma InvariantMember(c: Secp, S: Point, k: KeyAgg)
    requires c.Lawful() && TweakInvariant(c, S, k)
    ensures c.member(k.Q)
  {
    MulMember(c, S, k.gacc);
    MulMember(c, c.g, k.tacc);
    AddFacts(c, c.Mul(S, k.gacc), c.Mul(c.g, k.tacc));
  }

  lemma {:induction false} WeightedSumMember(c: Secp, h: Hashes, pubkeys: seq<Compressed>, k: nat)
    requires c.Lawful() && k <= |pubkeys| && AllDecode(c, pubkeys[..k])
    ensures c.member(WeightedSum(c, h, pubkeys, k))
  {
    if k > 0 {
      assert pubkeys[..k][..k - 1] == pubkeys[..k - 1];
      assert pubkeys[..k][k - 1] == pubkeys[k - 1];
      WeightedSumMember(c, h, pubkeys, k - 1);
      DecompressMember(c, pubkeys[k - 1]);
      var P := c.Decompress(pubkeys[k - 1]).value;
      MulMember(c, P, Coefficient(c, h, pubkeys, pubkeys[k - 1]));
      AddFacts(c, WeightedSum(c, h, pubkeys, k - 1), c.Mul(P, Coefficient(c, h, pubkeys, pubkeys[k - 1])));
    }
  }

  /** The aggregate of a session's keys after its tweaks. */
  function TweakedKey(c: Secp, h: Hashes, s: Session): (Status, KeyAgg)
    requires c.Lawful() && AllDecode(c, s.pubkeys)
  {
    assert s.pubkeys[..|s.pubkeys|] == s.pubkeys;
    AllTweaked(c, KeyAgg(WeightedSum(c, h, s.pubkeys, |s.pubkeys|), 1, 0), s.tweaks)
  }

  lemma SumInvariant(c: Secp, h: Hashes, pubkeys: seq<Compressed>)
    requires c.Lawful() && AllDecode(c, pubkeys)
    ensures pubkeys[..|pubkeys|] == pubkeys
    ensures var S := WeightedSum(c, h, pubkeys, |pubkeys|); TweakInvariant(c, S, KeyAgg(S, 1, 0))
  {
    assert pubkeys[..|pubkeys|] == pubkeys;
    var S := WeightedSum(c, h, pubkeys, |pubkeys|);
    WeightedSumMember(c, h, pubkeys, |pubkeys|);
    MulOne(c, S);
    MulOne(c, c.g);
    AddFacts(c, S, Infinity);
  }

  /**
   After key aggregation and any sequence of tweaks, Q = gacc * (sum of a_i * P_i) + tacc * G.
   */
  lemma AggregateKeyInvariant(c: Secp, h: Hashes, s: Session)
    requires c.Lawful() && AllDecode(c, s.pubkeys)
    requires TweakedKey(c, h, s).0 == Ok
    ensures s.pubkeys[..|s.pubkeys|] == s.pubkeys
    ensures TweakInvariant(c, WeightedSum(c, h, s.pubkeys, |s.pubkeys|), TweakedKey(c, h, s).1)
  {
    assert s.pubkeys[..|s.pubkeys|] == s.pubkeys;
    var S := WeightedSum(c, h, s.pubkeys, |s.pubkeys|);
    SumInvariant(c, h, s.pubkeys);
    TweaksKeepInvariant(c, S, KeyAgg(S, 1, 0), s.tweaks);
  }

  /** The tweaked key of a session is the chain of its tweaks from the sum of a_i * P_i. */
  lemma AggregateKeyIs(c: Secp, h: Hashes, s: Session)
    requires c.Lawful() && AllDecode(c, s.pubkeys) && TweakedKey(c, h, s).0 == Ok
    ensures s.pubkeys[..|s.pubkeys|] == s.pubkeys
    ensures TweakedKey(c, h, s).1.Q == TweakedChain(c, WeightedSum(c, h, s.pubkeys, |s.pubkeys|), s.tweaks)
  {
    assert s.pubkeys[..|s.pubkeys|] == s.pubkeys;
    var S := WeightedSum(c, h, s.pubkeys, |s.pubkeys|);
    SumInvariant(c, h, s.pubkeys);
    TweaksAreChain(c, S, KeyAgg(S, 1, 0), s.tweaks);
  }

  // ---- nonces ----

  function NonceSum(c: Secp, nonces: seq<Compressed>): Point
    requires c.Lawful() && AllDecode(c, nonces)
  {
    if nonces == [] then Infinity
    else c.Add(NonceSum(c, nonces[..|nonces| - 1]), c.Decompress(nonces[|nonces| - 1]).value)
  }

  /** The 33 bytes for a sum of nonces; zeros stand for the point at infinity. */
  function CompressExt(c: Secp, P: Point): Compressed {
    if P.Infinity? then Compressed(0, 0) else c.Compress(P)
  }

  function FirstNonces(nonces: seq<PubNonce>): (r: seq<Compressed>)
    ensures |r| == |nonces|
    ensures forall i :: 0 <= i < |nonces| ==> r[i] == nonces[i].r1
  {
    seq(|nonces|, i requires 0 <= i < |nonces| => nonces[i].r1)
  }

  function SecondNonces(nonces: seq<PubNonce>): (r: seq<Compressed>)
    ensures |r| == |nonces|
    ensures forall i :: 0 <= i < |nonces| ==> r[i] == nonces[i].r2
  {
    seq(|nonces|, i requires 0 <= i < |nonces| => nonces[i].r2)
  }

  /** One pass of the aggregation; -i - 1 blames cosigner i. */
  method NonceAggregateHalf(c: Secp, nonces: seq<Compressed>) returns (code: int, out: Compressed)
    requires c.Lawful()
    ensures code == 0 <==> AllDecode(c, nonces)
    ensures code == 0 ==> out == CompressExt(c, NonceSum(c, nonces))
    ensures code != 0 ==>
              var i := -code - 1;
              0 <= i < |nonces| && c.Decompress(nonces[i]).None? && AllDecode(c, nonces[..i])
  {
    var R := Infinity;
    out := Compressed(0, 0);
    for i := 0 to |nonces|
      invariant AllDecode(c, nonces[..i])
      invariant R == NonceSum(c, nonces[..i])
    {
      var Rij := c.Decompress(nonces[i]);
      if Rij.None? {
        return -i - 1, out;
      }
      assert nonces[..i + 1][..i] == nonces[..i];
      R := c.Add(R, Rij.value);
    }
    assert nonces[..|nonces|] == nonces;
    code := 0;
    out := CompressExt(c, R);
  }

  /**
   Sums both halves of the public nonces. A failure names the first cosigner whose
   first half is invalid or, when all of those are valid, whose second half is.
   */
  method NonceAggregate(c: Secp, nonces: seq<PubNonce>) returns (code: int, out: PubNonce)
    requires c.Lawful()
    ensures code == 0 <==> AllDecode(c, FirstNonces(nonces)) && AllDecode(c, SecondNonces(nonces))
    ensures code == 0 ==> out == AggregateNonce(c, nonces)
    ensures code != 0 ==>
              var i := -code - 1;
              0 <= i < |nonces| && (c.Decompress(nonces[i].r1).None? || c.Decompress(nonces[i].r2).None?)
  {
    out := PubNonce(Compressed(0, 0), Compressed(0, 0));
    var r1, r2;
    code, r1 := NonceAggregateHalf(c, FirstNonces(nonces));
    if code < 0 {
      return;
    }
    code, r2 := NonceAggregateHalf(c, SecondNonces(nonces));
    if code < 0 {
      return;
    }
    out := PubNonce(r1, r2);
  }

  function AggregateNonce(c: Secp, nonces: seq<PubNonce>): PubNonce
    requires c.Lawful() && AllDecode(c, FirstNonces(nonces)) && AllDecode(c, SecondNonces(nonces))
  {
    PubNonce(CompressExt(c, NonceSum(c, FirstNonces(nonces))), CompressExt(c, NonceSum(c, SecondNonces(nonces))))
  }

  // ---- session values ----

  /** The x coordinate bytes of a point; those of the point at infinity are zero. */
  function XBytes(P: Point): nat {
    if P.Infinity? then 0 else P.x
  }

  function NonceCoefficientOf(c: Secp, h: Hashes, s: Session): nat
    requires c.Lawful() && AllDecode(c, s.pubkeys)
  {
    h.nonceCoefficient(s.aggnonce, XBytes(TweakedKey(c, h, s).1.Q), s.msg)
  }

  /** R_1 + b * R_2 before the point at infinity is replaced. */
  function EffectiveNonce(c: Secp, s: Session, b: nat): Option<Point>
    requires c.Lawful()
  {
    var R1 := c.DecompressExt(s.aggnonce.r1);
    var R2 := c.DecompressExt(s.aggnonce.r2);
    if R1.None? || R2.None? then None else Some(c.Add(R1.value, c.Mul(R2.value, b)))
  }

  function ValuesOf(c: Secp, h: Hashes, s: Session): Outcome<SessionValues>
    requires c.Lawful() && AllDecode(c, s.pubkeys)
  {
    var (status, k) := TweakedKey(c, h, s);
    if status != Ok then Failed(status)
    else
      var b := NonceCoefficientOf(c, h, s);
      var R0 := EffectiveNonce(c, s, b);
      if R0.None? then Failed(Error)
      else
        var R := if R0.value.Infinity? then c.g else R0.value;
        Done(SessionValues(k.Q, k.gacc, k.tacc, b, R, h.challenge(XBytes(R), XBytes(k.Q), s.msg)))
  }

  /**
   Computes the session values. The code of key aggregation is not looked at: when some key
   does not decode, the rest runs on a context whose accumulators hold whatever was there.
   */
  method GetSessionValues(c: Secp, h: Hashes, s: Session) returns (r: Outcome<SessionValues>)
    requires c.Lawful()
    ensures AllDecode(c, s.pubkeys) ==> r == ValuesOf(c, h, s)
    ensures r.Done? ==> r.value.R.Affine?
    ensures r.Failed? ==> r.status != Ok
  {
    var uninitialised: KeyAgg := *;
    var ctx := new KeyAggContext(uninitialised);
    var aggregated := ctx.KeyAggregate(c, h, s.pubkeys);
    var status := ApplyTweaks(c, ctx, s.tweaks);
    if status != Ok {
      return Failed(status);
    }
    var b := h.nonceCoefficient(s.aggnonce, XBytes(ctx.Q), s.msg);
    var R1 := c.DecompressExt(s.aggnonce.r1);
    if R1.None? {
      return Failed(Error);
    }
    var R2 := c.DecompressExt(s.aggnonce.r2);
    if R2.None? {
      return Failed(Error);
    }
    var R := c.Add(R1.value, c.Mul(R2.value, b));
    if R.Infinity? {
      R := c.g;
    }
    var e := h.challenge(XBytes(R), XBytes(ctx.Q), s.msg);
    return Done(SessionValues(ctx.Q, ctx.gacc, ctx.tacc, b, R, e));
  }

  /** Applies the session's tweaks in order, up to the first failure. */
  method ApplyTweaks(c: Secp, ctx: KeyAggContext, tweaks: seq<Tweak>) returns (status: Status)
    requires c.Lawful()
    modifies ctx
    ensures (status, ctx.Value()) == AllTweaked(c, old(ctx.Value()), tweaks)
  {
    for i := 0 to |tweaks|
      invariant AllTweaked(c, old(ctx.Value()), tweaks[..i]) == (Ok, ctx.Value())
    {
      assert tweaks[..i + 1][..i] == tweaks[..i];
      status := ctx.ApplyTweak(c, tweaks[i]);
      if status != Ok {
        StoppedTweaks(c, old(ctx.Value()), tweaks, i + 1);
        return;
      }
    }
    assert tweaks[..|tweaks|] == tweaks;
    status := Ok;
  }

  /** A failure among the first tweaks is the failure of the whole list. */
  lemma {:induction false} StoppedTweaks(c: Secp, k: KeyAgg, tweaks: seq<Tweak>, i: nat)
    requires c.Lawful() && i <= |tweaks|
    requires AllTweaked(c, k, tweaks[..i]).0 != Ok
    ensures AllTweaked(c, k, tweaks) == AllTweaked(c, k, tweaks[..i])
    decreases |tweaks|
  {
    if i < |tweaks| {
      var rest := tweaks[..|tweaks| - 1];
      assert rest[..i] == tweaks[..i];
      StoppedTweaks(c, k, rest, i);
    } else {
      assert tweaks[..i] == tweaks;
    }
  }

  // ---- partial signing ----

  /** The secret nonce and the key it was generated for. */
  datatype Secret = Secret(k1: nat, k2: nat, pk: Compressed)

  predicate InScalarRange(c: Secp, k: nat) {
    0 < k < c.n
  }

  /** A signer's share k_1 + b * k_2 + e * a * d, with the nonces negated where R has an odd y. */
  function Share(c: Secp, v: SessionValues, k1: nat, k2: nat, a: nat, sk: nat): nat
    requires c.Lawful() && v.R.Affine? && v.Q.Affine? && InScalarRange(c, k1) && InScalarRange(c, k2)
  {
    var even := c.HasEvenY(v.R);
    var k1' := if even then k1 else c.n - k1;
    var k2' := if even then k2 else c.n - k2;
    SignedShare(c, v, k1', k2', a, sk)
  }

  /** The share once the nonces carry the sign of R. */
  function SignedShare(c: Secp, v: SessionValues, k1: nat, k2: nat, a: nat, sk: nat): nat
    requires c.Lawful() && v.Q.Affine?
  {
    (k1 + v.b * k2 + v.e * a * EvenFactor(c, v.Q) * v.gacc * sk) % c.n
  }

  /** The factors of the key part, reduced one by one. */
  lemma ReducedKeyPart(c: Secp, e: nat, a: nat, g: nat, gacc: nat, sk: nat)
    requires c.n > 0
    ensures MulMod(c, MulMod(c, e, a), MulMod(c, MulMod(c, g, gacc), sk)) == e * a * g * gacc * sk % c.n
  {
    var ea, d := e * a, g * gacc * sk;
    ModProduct(g * gacc, sk, c.n);
    ModProduct(ea, d % c.n, c.n);
    ModProduct(d, ea, c.n);
    Swap(ea, d % c.n);
    Swap(ea, d);
    Flatten(ea, g, gacc, sk);
  }

  lemma Swap(x: int, y: int)
    ensures x * y == y * x
  {}

  lemma Flatten(p: int, g: int, gacc: int, sk: int)
    ensures p * (g * gacc * sk) == p * g * gacc * sk
  {
    assert p * (g * gacc * sk) == p * (g * gacc) * sk;
    assert p * (g * gacc) == p * g * gacc;
  }

  /** The sum, reduced term by term. */
  lemma ReducedSum(x: int, y: int, y': int, z: int, z': int, s: int, r: int, n: int)
    requires n > 0 && y' == y % n && z' == z % n && s == (x + y') % n && r == (s + z') % n
    ensures r == (x + y + z) % n
  {
    ModSumRight(x, y, y', n);
    ModSumLeft(x + y, s, z', n);
    ModSumRight(x + y, z, z', n);
  }

  /** The share, with every product and sum reduced in turn. */
  lemma ReducedShare(c: Secp, v: SessionValues, k1: nat, k2: nat, a: nat, sk: nat)
    requires c.Lawful() && v.Q.Affine?
    ensures var d := MulMod(c, MulMod(c, EvenFactor(c, v.Q), v.gacc), sk);
            SignedShare(c, v, k1, k2, a, sk) == AddMod(c, AddMod(c, k1, MulMod(c, v.b, k2)), MulMod(c, MulMod(c, v.e, a), d))
  {
    var g := EvenFactor(c, v.Q);
    var nonce, key := MulMod(c, v.b, k2), MulMod(c, MulMod(c, v.e, a), MulMod(c, MulMod(c, g, v.gacc), sk));
    ReducedKeyPart(c, v.e, a, g, v.gacc, sk);
    ReducedSum(k1, v.b * k2, nonce, v.e * a * g * v.gacc * sk, key, AddMod(c, k1, nonce), AddMod(c, AddMod(c, k1, nonce), key), c.n);
  }

  /** The code reduces after every product and sum; the result is the share of BIP 327. */
  method ComputeShare(c: Secp, v: SessionValues, k1: nat, k2: nat, a: nat, sk: nat) returns (sig: nat)
    requires c.Lawful() && v.Q.Affine?
    ensures sig == (k1 + v.b * k2 + v.e * a * EvenFactor(c, v.Q) * v.gacc * sk) % c.n
  {
    var g := 1;
    if !c.HasEvenY(v.Q) {
      g := c.n - g;
    }
    var d := MulMod(c, g, v.gacc);
    d := MulMod(c, d, sk);
    var bk2 := MulMod(c, v.b, k2);
    var ead := MulMod(c, v.e, a);
    ead := MulMod(c, ead, d);
    sig := k1;
    sig := AddMod(c, sig, bk2);
    sig := AddMod(c, sig, ead);
    ReducedShare(c, v, k1, k2, a, sk);
  }

  function PartialSignature(c: Secp, h: Hashes, s: Session, v: SessionValues, secret: Secret, sk: nat): Outcome<nat>
    requires c.Lawful() && v.R.Affine?
  {
    if !InScalarRange(c, secret.k1) || !InScalarRange(c, secret.k2) || !InScalarRange(c, sk) then Failed(Error)
    else
      MulFinite(c, sk);
      var pk := c.Compress(c.Mul(c.g, sk));
      if pk != secret.pk || pk !in s.pubkeys then Failed(Error)
      else if v.Q.Infinity? then Failed(Halted)
      else Done(Share(c, v, secret.k1, secret.k2, Coefficient(c, h, s.pubkeys, pk), sk))
  }

  /** A secret nonce, which signing zeroes. */
  class SecretNonce {
    var k1: nat
    var k2: nat
    var pk: Compressed

    constructor (secret: Secret)
      ensures Value() == secret
    {
      k1, k2, pk := secret.k1, secret.k2, secret.pk;
    }

    function Value(): Secret
      reads this
    {
      Secret(k1, k2, pk)
    }

    /**
     Produces the partial signature. Whenever the session values are available the nonce is
     zeroed, and a zeroed nonce never signs: one nonce yields at most one signature.
     */
    method Sign(c: Secp, h: Hashes, s: Session, sk: nat) returns (r: Outcome<nat>)
      requires c.Lawful()
      modifies this
      ensures pk == old(pk)
      ensures r.Done? ==> k1 == 0 && k2 == 0
      ensures old(k1) == 0 || old(k2) == 0 ==> r.Failed?
      ensures AllDecode(c, s.pubkeys) ==>
                match ValuesOf(c, h, s)
                case Failed(status) => r == Failed(status) && Value() == old(Value())
                case Done(v) => v.R.Affine? && r == PartialSignature(c, h, s, v, old(Value()), sk) && k1 == 0 && k2 == 0
    {
      var values := GetSessionValues(c, h, s);
      if values.Failed? {
        return Failed(values.status);
      }
      var v := values.value;
      var n1, n2 := k1, k2;
      k1 := 0;
      k2 := 0;
      if n1 == 0 || n1 >= c.n {
        return Failed(Error);
      }
      if n2 == 0 || n2 >= c.n {
        return Failed(Error);
      }
      if !c.HasEvenY(v.R) {
        n1 := c.n - n1;
        n2 := c.n - n2;
      }
      if sk == 0 || sk >= c.n {
        return Failed(Error);
      }
      var P := c.Mul(c.g, sk);
      MulFinite(c, sk);
      var mine := c.Compress(P);
      if mine != pk {
        return Failed(Error);
      }
      var a := SessionKeyCoefficient(c, h, s, mine);
      if a.None? {
        return Failed(Error);
      }
      if v.Q.Infinity? {
        return Failed(Halted);
      }
      var sig := ComputeShare(c, v, n1, n2, a.value, sk);
      return Done(sig);
    }
  }

  /** The coefficient of a key of the session; fails when the key is not one of them. */
  method SessionKeyCoefficient(c: Secp, h: Hashes, s: Session, pk: Compressed) returns (a: Option<nat>)
    requires c.Lawful()
    ensures a == if pk in s.pubkeys then Some(Coefficient(c, h, s.pubkeys, pk)) else None
  {
    var found := false;
    for i := 0 to |s.pubkeys|
      invariant !found && pk !in s.pubkeys[..i]
    {
      if pk == s.pubkeys[i] {
        found := true;
        break;
      }
    }
    if !found {
      return None;
    }
    var pk2 := GetSecondKey(s.pubkeys);
    return Some(if pk == pk2 then 1 else h.keyCoefficient(h.keyList(s.pubkeys), pk) % c.n);
  }
}
