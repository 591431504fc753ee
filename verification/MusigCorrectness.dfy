/**
 Completeness of a MuSig2 session: the partial signatures of all cosigners add up to a
 BIP 340 signature for the aggregate key, exactly when the aggregate nonce is finite.
 */
module MusigCorrectness {
  import opened Wrappers
  import opened Curve
  import opened Musig

  /** A cosigner's secret key and the secret nonces of one signing session. */
  datatype Signer = Signer(sk: nat, k1: nat, k2: nat)

  predicate ValidSigner(c: Secp, a: Signer) {
    InScalarRange(c, a.sk) && InScalarRange(c, a.k1) && InScalarRange(c, a.k2)
  }

  /** k * G */
  ghost function T(c: Secp, k: nat): Point {
    c.Mul(c.g, k)
  }

  lemma Finite(c: Secp, k: nat)
    requires c.Lawful() && InScalarRange(c, k)
    ensures T(c, k).Affine? && c.member(T(c, k))
  {
    MulFinite(c, k);
  }

  function PubKeyOf(c: Secp, sk: nat): Compressed
    requires c.Lawful() && InScalarRange(c, sk)
  {
    Finite(c, sk);
    c.Compress(c.Mul(c.g, sk))
  }

  function PubNonceOf(c: Secp, a: Signer): PubNonce
    requires c.Lawful() && ValidSigner(c, a)
  {
    PubNonce(PubKeyOf(c, a.k1), PubKeyOf(c, a.k2))
  }

  function Sum(xs: seq<nat>): nat {
    if xs == [] then 0 else Sum(xs[..|xs| - 1]) + xs[|xs| - 1]
  }

  // ---- keys and nonces as multiples of the generator ----

  ghost predicate KeysOf(c: Secp, pubkeys: seq<Compressed>, sks: seq<nat>)
    requires c.Lawful()
  {
    && |sks| == |pubkeys|
    && forall i :: 0 <= i < |sks| ==> InScalarRange(c, sks[i]) && pubkeys[i] == PubKeyOf(c, sks[i])
  }

  lemma KeyPoint(c: Secp, pubkeys: seq<Compressed>, sks: seq<nat>, i: nat)
    requires c.Lawful() && KeysOf(c, pubkeys, sks) && i < |sks|
    ensures c.Decompress(pubkeys[i]) == Some(T(c, sks[i]))
  {
    Finite(c, sks[i]);
    CompressRoundTrip(c, T(c, sks[i]));
  }

  lemma KeysDecode(c: Secp, pubkeys: seq<Compressed>, sks: seq<nat>)
    requires c.Lawful() && KeysOf(c, pubkeys, sks)
    ensures AllDecode(c, pubkeys)
  {
    forall i | 0 <= i < |sks|
      ensures c.Decompress(pubkeys[i]).Some?
    {
      KeyPoint(c, pubkeys, sks, i);
    }
  }

  /** The products a_i * d_i of coefficients and secret keys. */
  function Weights(c: Secp, h: Hashes, pubkeys: seq<Compressed>, sks: seq<nat>): (r: seq<nat>)
    requires c.Lawful() && |pubkeys| == |sks|
    ensures |r| == |sks|
  {
    seq(|sks|, i requires 0 <= i < |sks| => Coefficient(c, h, pubkeys, pubkeys[i]) * sks[i])
  }

  lemma WeightPoint(c: Secp, h: Hashes, pubkeys: seq<Compressed>, sks: seq<nat>, i: nat)
    requires c.Lawful() && KeysOf(c, pubkeys, sks) && i < |sks|
    ensures c.Decompress(pubkeys[i]).Some?
    ensures c.Mul(c.Decompress(pubkeys[i]).value, Coefficient(c, h, pubkeys, pubkeys[i]))
            == T(c, Weights(c, h, pubkeys, sks)[i])
  {
    var a := Coefficient(c, h, pubkeys, pubkeys[i]);
    KeyPoint(c, pubkeys, sks, i);
    MulProduct(c, c.g, sks[i], a);
    Commute(sks[i], a);
  }

  lemma {:induction false} WeightedSumScalar(c: Secp, h: Hashes, pubkeys: seq<Compressed>, sks: seq<nat>, k: nat)
    requires c.Lawful() && KeysOf(c, pubkeys, sks) && k <= |sks|
    ensures AllDecode(c, pubkeys[..k])
    ensures WeightedSum(c, h, pubkeys, k) == T(c, Sum(Weights(c, h, pubkeys, sks)[..k]))
  {
    KeysDecode(c, pubkeys, sks);
    MulOne(c, c.g);
    if k > 0 {
      var w := Weights(c, h, pubkeys, sks);
      WeightedSumScalar(c, h, pubkeys, sks, k - 1);
      WeightPoint(c, h, pubkeys, sks, k - 1);
      assert w[..k][..k - 1] == w[..k - 1];
      MulSum(c, c.g, Sum(w[..k - 1]), w[k - 1]);
    }
  }

  lemma {:induction false} NonceSumScalar(c: Secp, nonces: seq<Compressed>, ks: seq<nat>)
    requires c.Lawful() && KeysOf(c, nonces, ks)
    ensures AllDecode(c, nonces)
    ensures NonceSum(c, nonces) == T(c, Sum(ks))
    decreases |nonces|
  {
    KeysDecode(c, nonces, ks);
    MulOne(c, c.g);
    if nonces != [] {
      var last := |nonces| - 1;
      NonceSumScalar(c, nonces[..last], ks[..last]);
      KeyPoint(c, nonces, ks, last);
      MulSum(c, c.g, Sum(ks[..last]), ks[last]);
    }
  }

  lemma ExtRoundTrip(c: Secp, P: Point)
    requires c.Lawful() && c.member(P)
    ensures c.DecompressExt(CompressExt(c, P)) == Some(P)
  {
    if P.Affine? {
      CompressRoundTrip(c, P);
    }
  }

  // ---- one partial signature ----

  lemma MulModScalar(c: Secp, a: nat, b: nat)
    requires c.Lawful()
    ensures T(c, MulMod(c, a, b)) == T(c, a * b)
  {
    MulReduce(c, c.g, a * b);
  }

  lemma AddModScalar(c: Secp, a: nat, b: nat)
    requires c.Lawful()
    ensures T(c, AddMod(c, a, b)) == c.Add(T(c, a), T(c, b))
  {
    MulReduce(c, c.g, a + b);
    MulSum(c, c.g, a, b);
  }

  /** A factor may be replaced by any other that gives the same point. */
  lemma SameFactor(c: Secp, a: nat, a': nat, b: nat)
    requires c.Lawful() && T(c, a) == T(c, a')
    ensures T(c, a * b) == T(c, a' * b)
  {
    MulProduct(c, c.g, a, b);
    MulProduct(c, c.g, a', b);
  }

  /** Negating a nonce multiplies it by the sign of R. */
  lemma SignedNonce(c: Secp, R: Point, k: nat)
    requires c.Lawful() && R.Affine? && InScalarRange(c, k)
    ensures T(c, if c.HasEvenY(R) then k else c.n - k) == T(c, EvenFactor(c, R) * k)
  {
    if !c.HasEvenY(R) {
      assert (c.n - 1) * k == (c.n - k) + c.n * (k - 1);
      MulShift(c, c.g, c.n - k, k - 1);
    }
  }

  /** x * (k_1 + b * k_2) */
  function NonceExponent(x: nat, k1: nat, b: nat, k2: nat): nat {
    x * (k1 + b * k2)
  }

  /** e * g * gacc * (a * d) */
  function KeyExponent(e: nat, g: nat, gacc: nat, a: nat, sk: nat): nat {
    e * g * gacc * (a * sk)
  }

  /**
   What a share is worth: sign(R) * (k_1 + b * k_2) + e * sign(Q) * gacc * (a * d) times G.
   This is the equation of BIP 327's partial signature verification.
   */
  lemma ShareScalar(c: Secp, v: SessionValues, k1: nat, k2: nat, a: nat, sk: nat)
    requires c.Lawful() && v.R.Affine? && v.Q.Affine? && InScalarRange(c, k1) && InScalarRange(c, k2)
    ensures T(c, Share(c, v, k1, k2, a, sk))
            == T(c, NonceExponent(EvenFactor(c, v.R), k1, v.b, k2)
                    + KeyExponent(v.e, EvenFactor(c, v.Q), v.gacc, a, sk))
  {
    var even := c.HasEvenY(v.R);
    var k1' := if even then k1 else c.n - k1;
    var k2' := if even then k2 else c.n - k2;
    var r, g := EvenFactor(c, v.R), EvenFactor(c, v.Q);
    SignedNonce(c, v.R, k1);
    SignedNonce(c, v.R, k2);
    NonceScalar(c, r, v.b, k1, k2, k1', k2');
    KeyScalar(c, v.e, a, g, v.gacc, sk);
    var x := AddMod(c, k1', MulMod(c, v.b, k2'));
    var y := MulMod(c, MulMod(c, v.e, a), MulMod(c, MulMod(c, g, v.gacc), sk));
    ReducedShare(c, v, k1', k2', a, sk);
    AddModScalar(c, x, y);
    MulSum(c, c.g, NonceExponent(r, k1, v.b, k2), KeyExponent(v.e, g, v.gacc, a, sk));
  }

  lemma NonceScalar(c: Secp, r: nat, b: nat, k1: nat, k2: nat, k1': nat, k2': nat)
    requires c.Lawful() && T(c, k1') == T(c, r * k1) && T(c, k2') == T(c, r * k2)
    ensures T(c, AddMod(c, k1', MulMod(c, b, k2'))) == T(c, NonceExponent(r, k1, b, k2))
  {
    MulModScalar(c, b, k2');
    SameFactor(c, k2', r * k2, b);
    Commute(b, k2');
    Regroup(r, k2, b);
    AddModScalar(c, k1', MulMod(c, b, k2'));
    MulSum(c, c.g, r * k1, r * (b * k2));
    Distribute(r, k1, b * k2);
  }

  lemma Distribute(a: nat, x: nat, y: nat)
    ensures a * x + a * y == a * (x + y)
  {}

  lemma Commute(a: nat, b: nat)
    ensures a * b == b * a
  {}

  lemma Regroup(a: nat, b: nat, d: nat)
    ensures a * b * d == a * (d * b)
  {}

  /** The reductions inside e * a * d do not change the point. */
  lemma KeyScalar(c: Secp, e: nat, a: nat, g: nat, gacc: nat, sk: nat)
    requires c.Lawful()
    ensures T(c, MulMod(c, MulMod(c, e, a), MulMod(c, MulMod(c, g, gacc), sk))) == T(c, KeyExponent(e, g, gacc, a, sk))
  {
    var gg := MulMod(c, g, gacc);
    var d := MulMod(c, gg, sk);
    var ea := MulMod(c, e, a);
    MulModScalar(c, e, a);
    SameFactor(c, ea, e * a, d);
    MulModScalar(c, gg, sk);
    MulModScalar(c, g, gacc);
    SameFactor(c, gg, g * gacc, sk);
    SameFactor(c, d, g * gacc * sk, e * a);
    Commute(e * a, d);
    Reorder(e, a, g, gacc, sk);
    MulModScalar(c, ea, d);
  }

  lemma Reorder(e: nat, a: nat, g: nat, gacc: nat, sk: nat)
    ensures g * gacc * sk * (e * a) == e * g * gacc * (a * sk)
  {
    assert g * gacc * sk * (e * a) == (g * gacc) * (sk * (e * a)) ;
    assert sk * (e * a) == e * (a * sk);
    assert (g * gacc) * (e * (a * sk)) == ((g * gacc) * e) * (a * sk);
    assert (g * gacc) * e == e * g * gacc;
  }

  // ---- the whole session ----

  /** Partial signature aggregation of BIP 327. */
  function AggregateSignature(c: Secp, v: SessionValues, sigs: seq<nat>): nat
    requires c.Lawful() && v.Q.Affine?
  {
    (Sum(sigs) + v.e * EvenFactor(c, v.Q) * v.tacc) % c.n
  }

  /**
   Verification of BIP 340: the public key and the first half of the signature are x coordinates, and
   s * G - e * P has to be a finite point with even y and the x of the signature.
   */
  predicate Bip340Verifies(c: Secp, h: Hashes, xQ: nat, msg: Message, xR: nat, s: nat)
    requires c.Lawful()
  {
    var P := c.liftX(xQ);
    var e := h.challenge(xR, xQ, msg) % c.n;
    var R := c.Add(c.Mul(c.g, s), c.Mul(P, c.n - e));
    P.Affine? && s < c.n && R.Affine? && R.y % 2 == 0 && R.x == xR
  }

  /** s * G - e * P is R exactly if s * G is R + e * P. */
  lemma Transpose(c: Secp, S: Point, P: Point, e: nat, R: Point)
    requires c.Lawful() && c.member(S) && c.member(P) && c.member(R)
    ensures c.Add(S, c.Mul(P, c.n - e % c.n)) == R <==> S == c.Add(R, c.Mul(P, e))
  {
    var d := e % c.n;
    var M, N := c.Mul(P, d), c.Mul(P, c.n - d);
    MulReduce(c, P, e);
    MulMember(c, P, d);
    MulMember(c, P, c.n - d);
    MulSum(c, P, d, c.n - d);
    MulIsTimes(c, P, c.n);
    assert c.OrderLaw(P);
    assert c.Add(M, N) == Infinity;
    AddFacts(c, M, N);
    AddAssociates(c, S, N, M);
    AddAssociates(c, R, M, N);
    AddFacts(c, S, Infinity);
    AddFacts(c, R, Infinity);
  }

  /** A point is the one with even y that has the x of another exactly if it is finite and has an even y and that x. */
  lemma IsEvenY(c: Secp, P: Point, R: Point)
    requires c.Lawful() && c.member(P) && c.member(R) && R.Affine?
    ensures R.y <= c.p && (P == c.EvenY(R) <==> P.Affine? && P.y % 2 == 0 && P.x == R.x)
  {
    LiftIsEvenY(c, R);
    if P.Affine? && P.y % 2 == 0 && P.x == R.x {
      LiftIsEvenY(c, P);
    }
    assert c.NegationLaw(R);
    FlipParity(c.p, R.y);
  }

  /** On points: s * G = R + e * Q with both points taken at even y. */
  lemma VerifiesIff(c: Secp, h: Hashes, Q: Point, msg: Message, R: Point, s: nat)
    requires c.Lawful() && c.member(R) && R.Affine? && c.member(Q) && Q.Affine? && s < c.n
    ensures R.y <= c.p && Q.y <= c.p
    ensures Bip340Verifies(c, h, Q.x, msg, R.x, s)
       <==> c.Mul(c.g, s) == c.Add(c.EvenY(R), c.Mul(c.EvenY(Q), h.challenge(R.x, Q.x, msg)))
  {
    var e := h.challenge(R.x, Q.x, msg);
    LiftIsEvenY(c, Q);
    EvenYIsFactor(c, Q);
    EvenYIsFactor(c, R);
    var P := c.EvenY(Q);
    var S := c.Add(c.Mul(c.g, s), c.Mul(P, c.n - e % c.n));
    MulMember(c, c.g, s);
    MulMember(c, P, c.n - e % c.n);
    AddFacts(c, c.Mul(c.g, s), c.Mul(P, c.n - e % c.n));
    IsEvenY(c, S, R);
    Transpose(c, c.Mul(c.g, s), P, e, c.EvenY(R));
  }

  lemma EvenYIsFactor(c: Secp, P: Point)
    requires c.Lawful() && c.member(P) && P.Affine?
    ensures P.y <= c.p
    ensures c.EvenY(P) == c.Mul(P, EvenFactor(c, P)) && c.member(c.EvenY(P)) && c.EvenY(P).Affine?
  {
    MulNegates(c, P);
    MulOne(c, P);
  }

  function Mix(A: nat, x: nat, B: nat, y: nat): nat {
    A * x + B * y
  }

  lemma MixSum(A: nat, x: nat, x': nat, B: nat, y: nat, y': nat)
    ensures Mix(A, x, B, y) + Mix(A, x', B, y') == Mix(A, x + x', B, y + y')
  {
    Distribute(A, x, x');
    Distribute(B, y, y');
  }

  /** The values A * x_i + B * y_i. */
  function MixAll(A: nat, xs: seq<nat>, B: nat, ys: seq<nat>): (r: seq<nat>)
    requires |xs| == |ys|
    ensures |r| == |xs|
  {
    seq(|xs|, i requires 0 <= i < |xs| => Mix(A, xs[i], B, ys[i]))
  }

  lemma {:induction false} SumMixAll(A: nat, xs: seq<nat>, B: nat, ys: seq<nat>)
    requires |xs| == |ys|
    ensures Sum(MixAll(A, xs, B, ys)) == Mix(A, Sum(xs), B, Sum(ys))
    decreases |xs|
  {
    if xs != [] {
      var last := |xs| - 1;
      SumMixAll(A, xs[..last], B, ys[..last]);
      assert MixAll(A, xs, B, ys)[..last] == MixAll(A, xs[..last], B, ys[..last]);
      MixSum(A, Sum(xs[..last]), xs[last], B, Sum(ys[..last]), ys[last]);
    }
  }

  /** Equal multiples of the generator have equal sums. */
  lemma {:induction false} SumEqual(c: Secp, us: seq<nat>, ws: seq<nat>)
    requires c.Lawful() && |us| == |ws|
    requires forall i :: 0 <= i < |us| ==> T(c, us[i]) == T(c, ws[i])
    ensures T(c, Sum(us)) == T(c, Sum(ws))
    decreases |us|
  {
    if us != [] {
      var last := |us| - 1;
      SumEqual(c, us[..last], ws[..last]);
      MulSum(c, c.g, Sum(us[..last]), us[last]);
      MulSum(c, c.g, Sum(ws[..last]), ws[last]);
    }
  }

  /** Only the point at infinity leaves a point unchanged. */
  lemma Cancel(c: Secp, P: Point, Y: Point)
    requires c.Lawful() && c.member(P) && c.member(Y) && c.Add(P, Y) == Y
    ensures P == Infinity
  {
    MulNegates(c, Y);
    var N := c.Negate(Y);
    assert c.Add(Y, N) == Infinity;
    AddAssociates(c, P, Y, N);
    AddFacts(c, P, Infinity);
  }

  /** All cosigners of a session, each with its own key and nonce. */
  ghost predicate Cosigners(c: Secp, s: Session, signers: seq<Signer>)
    requires c.Lawful()
  {
    && |signers| == |s.pubkeys| > 0
    && (forall i :: 0 <= i < |signers| ==> ValidSigner(c, signers[i]) && s.pubkeys[i] == PubKeyOf(c, signers[i].sk))
    && var nonces := seq(|signers|, i requires 0 <= i < |signers| && ValidSigner(c, signers[i]) => PubNonceOf(c, signers[i]));
       && AllDecode(c, FirstNonces(nonces))
       && AllDecode(c, SecondNonces(nonces))
       && s.aggnonce == AggregateNonce(c, nonces)
  }

  function SecretKeys(signers: seq<Signer>): (r: seq<nat>)
    ensures |r| == |signers|
  {
    seq(|signers|, i requires 0 <= i < |signers| => signers[i].sk)
  }

  function FirstSecrets(signers: seq<Signer>): (r: seq<nat>)
    ensures |r| == |signers|
  {
    seq(|signers|, i requires 0 <= i < |signers| => signers[i].k1)
  }

  function SecondSecrets(signers: seq<Signer>): (r: seq<nat>)
    ensures |r| == |signers|
  {
    seq(|signers|, i requires 0 <= i < |signers| => signers[i].k2)
  }

  /** The sums of k_1 + b * k_2. */
  function NonceSecrets(signers: seq<Signer>, b: nat): (r: seq<nat>)
    ensures |r| == |signers|
  {
    seq(|signers|, i requires 0 <= i < |signers| => signers[i].k1 + b * signers[i].k2)
  }

  lemma {:induction false} SumNonceSecrets(signers: seq<Signer>, b: nat)
    ensures Sum(NonceSecrets(signers, b)) == Sum(FirstSecrets(signers)) + b * Sum(SecondSecrets(signers))
    decreases |signers|
  {
    if signers != [] {
      var last := |signers| - 1;
      var rest := signers[..last];
      SumNonceSecrets(rest, b);
      assert NonceSecrets(signers, b)[..last] == NonceSecrets(rest, b);
      assert FirstSecrets(signers)[..last] == FirstSecrets(rest);
      assert SecondSecrets(signers)[..last] == SecondSecrets(rest);
      Distribute(b, Sum(SecondSecrets(rest)), signers[last].k2);
    }
  }

  /** R_1 + b * R_2 is the sum of the cosigners' nonces. */
  lemma EffectiveNonceScalar(c: Secp, s: Session, signers: seq<Signer>, b: nat)
    requires c.Lawful() && Cosigners(c, s, signers)
    ensures EffectiveNonce(c, s, b) == Some(T(c, Sum(NonceSecrets(signers, b))))
  {
    var nonces := seq(|signers|, i requires 0 <= i < |signers| && ValidSigner(c, signers[i]) => PubNonceOf(c, signers[i]));
    var K1, K2 := Sum(FirstSecrets(signers)), Sum(SecondSecrets(signers));
    NonceSumScalar(c, FirstNonces(nonces), FirstSecrets(signers));
    NonceSumScalar(c, SecondNonces(nonces), SecondSecrets(signers));
    MulMember(c, c.g, K1);
    MulMember(c, c.g, K2);
    ExtRoundTrip(c, T(c, K1));
    ExtRoundTrip(c, T(c, K2));
    MulMember(c, T(c, K2), b);
    MulProduct(c, c.g, K2, b);
    Commute(K2, b);
    MulSum(c, c.g, K1, b * K2);
    SumNonceSecrets(signers, b);
  }

  function KeyValue(gacc: nat, w: nat, tacc: nat): nat {
    gacc * w + tacc
  }

  lemma KeyValuePoint(c: Secp, gacc: nat, w: nat, tacc: nat)
    requires c.Lawful()
    ensures T(c, KeyValue(gacc, w, tacc)) == c.Add(c.Mul(T(c, w), gacc), T(c, tacc))
  {
    MulProduct(c, c.g, w, gacc);
    Commute(gacc, w);
    MulSum(c, c.g, gacc * w, tacc);
  }

  /** Q = (gacc * sum a_i d_i + tacc) * G */
  lemma AggregateKeyScalar(c: Secp, h: Hashes, s: Session, sks: seq<nat>)
    requires c.Lawful() && KeysOf(c, s.pubkeys, sks)
    ensures AllDecode(c, s.pubkeys)
    ensures var (status, k) := TweakedKey(c, h, s);
            status == Ok ==> k.Q == T(c, KeyValue(k.gacc, Sum(Weights(c, h, s.pubkeys, sks)), k.tacc))
  {
    KeysDecode(c, s.pubkeys, sks);
    var (status, k) := TweakedKey(c, h, s);
    if status == Ok {
      var w := Weights(c, h, s.pubkeys, sks);
      AggregateKeyInvariant(c, h, s);
      WeightedSumScalar(c, h, s.pubkeys, sks, |sks|);
      assert w[..|sks|] == w;
      KeyValuePoint(c, k.gacc, Sum(w), k.tacc);
    }
  }

  /** In its own session a cosigner's signing succeeds, unless the aggregate key is infinite. */
  lemma CosignerSigns(c: Secp, h: Hashes, s: Session, signers: seq<Signer>, v: SessionValues, i: nat)
    requires c.Lawful() && Cosigners(c, s, signers) && v.R.Affine? && i < |signers|
    ensures var a := signers[i];
            PartialSignature(c, h, s, v, Secret(a.k1, a.k2, s.pubkeys[i]), a.sk)
            == if v.Q.Infinity? then Failed(Halted)
               else Done(Share(c, v, a.k1, a.k2, Coefficient(c, h, s.pubkeys, s.pubkeys[i]), a.sk))
  {
    assert s.pubkeys[i] == PubKeyOf(c, signers[i].sk);
  }

  lemma KeyPartExponent(e: nat, g: nat, gacc: nat, Y: nat, tacc: nat)
    ensures KeyValue(gacc, Y, tacc) * (g * e) == e * g * gacc * Y + e * g * tacc
  {
    var k := e * g;
    Commute(g, e);
    Distribute(k, gacc * Y, tacc);
    assert k * (gacc * Y) == k * gacc * Y;
  }

  /** The key part of the signature equation: B * sum a_i d_i + e * g * tacc is worth e * EvenY(Q). */
  lemma KeyPart(c: Secp, Q: Point, e: nat, gacc: nat, tacc: nat, Y: nat)
    requires c.Lawful() && c.member(Q) && Q.Affine? && Q == T(c, KeyValue(gacc, Y, tacc))
    ensures Q.y <= c.p
    ensures var g := EvenFactor(c, Q);
            c.Add(T(c, e * g * gacc * Y), T(c, e * g * tacc)) == c.Mul(c.EvenY(Q), e)
  {
    var g := EvenFactor(c, Q);
    EvenYIsFactor(c, Q);
    MulMember(c, c.EvenY(Q), e);
    MulProduct(c, Q, g, e);
    MulProduct(c, c.g, KeyValue(gacc, Y, tacc), g * e);
    KeyPartExponent(e, g, gacc, Y, tacc);
    MulSum(c, c.g, e * g * gacc * Y, e * g * tacc);
  }

  /** e * sign(Q) * gacc, the factor of a_i * d_i in every share. */
  function KeyFactor(c: Secp, v: SessionValues): nat
    requires c.Lawful() && v.Q.Affine?
  {
    v.e * EvenFactor(c, v.Q) * v.gacc
  }

  /** The aggregate signature times G splits into a nonce part and a key part. */
  lemma SignatureParts(c: Secp, v: SessionValues, sigs: seq<nat>, A: nat, X: nat, B: nat, Y: nat)
    requires c.Lawful() && v.Q.Affine?
    ensures var t := v.e * EvenFactor(c, v.Q) * v.tacc;
            T(c, Sum(sigs)) == T(c, Mix(A, X, B, Y)) ==>
              c.Mul(c.g, AggregateSignature(c, v, sigs)) == c.Add(c.Mul(T(c, X), A), c.Add(T(c, B * Y), T(c, t)))
  {
    var t := v.e * EvenFactor(c, v.Q) * v.tacc;
    MulMember(c, c.g, AggregateSignature(c, v, sigs));
    MulReduce(c, c.g, Sum(sigs) + t);
    MulSum(c, c.g, Sum(sigs), t);
    MulSum(c, c.g, A * X, B * Y);
    MulMember(c, c.g, A * X);
    MulMember(c, c.g, B * Y);
    MulMember(c, c.g, t);
    AddAssociates(c, T(c, A * X), T(c, B * Y), T(c, t));
    MulProduct(c, c.g, X, A);
    Commute(A, X);
  }

  /** Every cosigner has signed, each with its own key and nonce. */
  ghost predicate AllSigned(c: Secp, h: Hashes, s: Session, signers: seq<Signer>, v: SessionValues, sigs: seq<nat>)
    requires c.Lawful() && v.R.Affine?
  {
    && |sigs| == |signers| == |s.pubkeys|
    && forall i :: 0 <= i < |sigs| ==>
                     PartialSignature(c, h, s, v, Secret(signers[i].k1, signers[i].k2, s.pubkeys[i]), signers[i].sk) == Done(sigs[i])
  }

  /** One share as sign(R) * x_i + B * y_i. */
  lemma OneShare(c: Secp, h: Hashes, s: Session, signers: seq<Signer>, v: SessionValues, sigs: seq<nat>, i: nat)
    requires c.Lawful() && Cosigners(c, s, signers) && v.R.Affine? && AllSigned(c, h, s, signers, v, sigs) && i < |sigs|
    ensures v.Q.Affine?
    ensures T(c, sigs[i]) == T(c, Mix(EvenFactor(c, v.R), NonceSecrets(signers, v.b)[i],
                                      KeyFactor(c, v), Weights(c, h, s.pubkeys, SecretKeys(signers))[i]))
  {
    var a := signers[i];
    var w := Coefficient(c, h, s.pubkeys, s.pubkeys[i]);
    CosignerSigns(c, h, s, signers, v, i);
    ShareScalar(c, v, a.k1, a.k2, w, a.sk);
    ExponentsMix(EvenFactor(c, v.R), a.k1, v.b, a.k2, v.e, EvenFactor(c, v.Q), v.gacc, w, a.sk);
  }

  lemma ExponentsMix(r: nat, k1: nat, b: nat, k2: nat, e: nat, g: nat, gacc: nat, w: nat, sk: nat)
    ensures NonceExponent(r, k1, b, k2) + KeyExponent(e, g, gacc, w, sk) == Mix(r, k1 + b * k2, e * g * gacc, w * sk)
  {}

  /** The shares of all cosigners, summed. */
  lemma AllShares(c: Secp, h: Hashes, s: Session, signers: seq<Signer>, v: SessionValues, sigs: seq<nat>)
    requires c.Lawful() && Cosigners(c, s, signers) && v.R.Affine? && AllSigned(c, h, s, signers, v, sigs)
    ensures v.Q.Affine?
    ensures T(c, Sum(sigs)) == T(c, Mix(EvenFactor(c, v.R), Sum(NonceSecrets(signers, v.b)),
                                        KeyFactor(c, v), Sum(Weights(c, h, s.pubkeys, SecretKeys(signers)))))
  {
    OneShare(c, h, s, signers, v, sigs, 0);
    var A, B := EvenFactor(c, v.R), KeyFactor(c, v);
    var xs, ys := NonceSecrets(signers, v.b), Weights(c, h, s.pubkeys, SecretKeys(signers));
    forall i | 0 <= i < |sigs|
      ensures T(c, sigs[i]) == T(c, Mix(A, xs[i], B, ys[i]))
    {
      OneShare(c, h, s, signers, v, sigs, i);
    }
    SumEqual(c, sigs, MixAll(A, xs, B, ys));
    SumMixAll(A, xs, B, ys);
  }

  /** The aggregate key of the session is worth gacc * sum a_i d_i + tacc. */
  lemma SessionKeyScalar(c: Secp, h: Hashes, s: Session, signers: seq<Signer>, v: SessionValues)
    requires c.Lawful() && Cosigners(c, s, signers) && AllDecode(c, s.pubkeys) && ValuesOf(c, h, s) == Done(v)
    ensures c.member(v.Q)
    ensures v.Q == T(c, KeyValue(v.gacc, Sum(Weights(c, h, s.pubkeys, SecretKeys(signers))), v.tacc))
  {
    AggregateKeyScalar(c, h, s, SecretKeys(signers));
    MulMember(c, c.g, KeyValue(v.gacc, Sum(Weights(c, h, s.pubkeys, SecretKeys(signers))), v.tacc));
  }

  /** s * G = sign(R) * (R_1 + b * R_2) + e * EvenY(Q) */
  lemma SignatureEquation(c: Secp, h: Hashes, s: Session, signers: seq<Signer>, v: SessionValues, sigs: seq<nat>)
    requires c.Lawful() && Cosigners(c, s, signers) && AllDecode(c, s.pubkeys)
    requires ValuesOf(c, h, s) == Done(v) && AllSigned(c, h, s, signers, v, sigs)
    ensures v.Q.Affine? && v.Q.y <= c.p && c.member(v.Q)
    ensures EffectiveNonce(c, s, v.b).Some? && c.member(EffectiveNonce(c, s, v.b).value)
    ensures c.Mul(c.g, AggregateSignature(c, v, sigs))
            == c.Add(c.Mul(EffectiveNonce(c, s, v.b).value, EvenFactor(c, v.R)), c.Mul(c.EvenY(v.Q), v.e))
  {
    var X := Sum(NonceSecrets(signers, v.b));
    var Y := Sum(Weights(c, h, s.pubkeys, SecretKeys(signers)));
    AllShares(c, h, s, signers, v, sigs);
    SessionKeyScalar(c, h, s, signers, v);
    EffectiveNonceScalar(c, s, signers, v.b);
    MulMember(c, c.g, X);
    KeyPart(c, v.Q, v.e, v.gacc, v.tacc, Y);
    SignatureParts(c, v, sigs, EvenFactor(c, v.R), X, KeyFactor(c, v), Y);
  }

  /**
   When every cosigner signs in the same session with its own key and nonce, the aggregate
   of the partial signatures is a valid BIP 340 signature for the tweaked aggregate key if
   and only if R_1 + b * R_2 is not the point at infinity.
   */
  lemma SessionProducesSignature(c: Secp, h: Hashes, s: Session, signers: seq<Signer>, v: SessionValues, sigs: seq<nat>)
    requires c.Lawful() && Cosigners(c, s, signers) && AllDecode(c, s.pubkeys)
    requires ValuesOf(c, h, s) == Done(v) && AllSigned(c, h, s, signers, v, sigs)
    ensures v.Q.Affine?
    ensures Bip340Verifies(c, h, v.Q.x, s.msg, v.R.x, AggregateSignature(c, v, sigs)) <==> EffectiveNonce(c, s, v.b) != Some(Infinity)
  {
    SignatureEquation(c, h, s, signers, v, sigs);
    EvenYIsFactor(c, v.R);
    EvenYIsFactor(c, v.Q);
    MulMember(c, c.EvenY(v.Q), v.e);
    VerifiesIff(c, h, v.Q, s.msg, v.R, AggregateSignature(c, v, sigs));
    if EffectiveNonce(c, s, v.b) == Some(Infinity)
       && c.Mul(c.g, AggregateSignature(c, v, sigs)) == c.Add(c.EvenY(v.R), c.Mul(c.EvenY(v.Q), v.e)) {
      Cancel(c, c.EvenY(v.R), c.Mul(c.EvenY(v.Q), v.e));
    }
  }

  // ---- partial signature verification ----

  /** Verification of a partial signature in BIP 327, from the hashes and the points that the session gives. */
  predicate PartialSigVerifies(c: Secp, h: Hashes, s: Session, nonce: PubNonce, pk: Compressed, sig: nat)
    requires c.Lawful() && AllDecode(c, s.pubkeys)
  {
    var (status, k) := TweakedKey(c, h, s);
    var R1, R2 := c.DecompressExt(s.aggnonce.r1), c.DecompressExt(s.aggnonce.r2);
    var r1, r2, P := c.Decompress(nonce.r1), c.Decompress(nonce.r2), c.Decompress(pk);
    && status == Ok && k.Q.Affine? && R1.Some? && R2.Some? && r1.Some? && r2.Some? && P.Some?
    && pk in s.pubkeys && sig < c.n
    && var b := h.nonceCoefficient(s.aggnonce, k.Q.x, s.msg);
       var R := FiniteNonce(c, c.Add(R1.value, c.Mul(R2.value, b)));
       var e := h.challenge(R.x, k.Q.x, s.msg);
       var mine := c.Add(r1.value, c.Mul(r2.value, b));
       ShareEquation(c, sig, R, mine, k.Q, k.gacc, e, Coefficient(c, h, s.pubkeys, pk), P.value)
  }

  /** s * G = sign(R) * R_i + e * a * sign(Q) * gacc * P */
  predicate ShareEquation(c: Secp, sig: nat, R: Point, mine: Point, Q: Point, gacc: nat, e: nat, a: nat, P: Point)
    requires c.Lawful() && R.Affine? && Q.Affine?
  {
    var g := if c.HasEvenY(Q) then 1 else c.n - 1;
    c.Mul(c.g, sig) == c.Add(if c.HasEvenY(R) then mine else c.Mul(mine, c.n - 1), c.Mul(P, e * a * g * gacc))
  }

  /** G stands for the point at infinity. */
  function FiniteNonce(c: Secp, R: Point): Point
    requires c.Lawful()
    ensures FiniteNonce(c, R).Affine?
  {
    if R.Infinity? then c.g else R
  }

  /** Multiples of G below the order are different. */
  lemma Injective(c: Secp, a: nat, b: nat)
    requires c.Lawful() && a <= b < c.n && T(c, a) == T(c, b)
    ensures a == b
  {
    if a < b {
      MulSum(c, c.g, b - a, a);
      MulMember(c, c.g, a);
      MulMember(c, c.g, b - a);
      Cancel(c, T(c, b - a), T(c, a));
      MulFinite(c, b - a);
    }
  }

  lemma OwnNonce(c: Secp, r: nat, b: nat, k1: nat, k2: nat)
    requires c.Lawful()
    ensures var mine := c.Add(T(c, k1), c.Mul(T(c, k2), b));
            c.member(mine) && c.Mul(mine, r) == T(c, NonceExponent(r, k1, b, k2))
  {
    MulProduct(c, c.g, k2, b);
    Commute(k2, b);
    MulSum(c, c.g, k1, b * k2);
    MulMember(c, c.g, k1 + b * k2);
    MulProduct(c, c.g, k1 + b * k2, r);
    Commute(k1 + b * k2, r);
  }

  lemma OwnKey(c: Secp, e: nat, a: nat, g: nat, gacc: nat, sk: nat)
    requires c.Lawful()
    ensures c.Mul(T(c, sk), e * a * g * gacc) == T(c, KeyExponent(e, g, gacc, a, sk))
  {
    MulProduct(c, c.g, sk, e * a * g * gacc);
    OwnKeyExponent(e, a, g, gacc, sk);
  }

  lemma OwnKeyExponent(e: nat, a: nat, g: nat, gacc: nat, sk: nat)
    ensures sk * (e * a * g * gacc) == e * g * gacc * (a * sk)
  {
    Reorder(e, a, g, gacc, sk);
    assert sk * (e * a * g * gacc) == g * gacc * sk * (e * a);
  }

  /** Whatever partial signature is produced is the one number that passes verification for the nonce and the key of the secret. */
  lemma ShareVerifies(c: Secp, h: Hashes, s: Session, v: SessionValues, secret: Secret, sk: nat, share: nat, sig: nat)
    requires c.Lawful() && AllDecode(c, s.pubkeys) && ValuesOf(c, h, s) == Done(v)
    requires v.R.Affine? && PartialSignature(c, h, s, v, secret, sk) == Done(share)
    ensures InScalarRange(c, secret.k1) && InScalarRange(c, secret.k2)
    ensures PartialSigVerifies(c, h, s, PubNonce(PubKeyOf(c, secret.k1), PubKeyOf(c, secret.k2)), secret.pk, sig) <==> sig == share
  {
    var a, g, r := Coefficient(c, h, s.pubkeys, secret.pk), EvenFactor(c, v.Q), EvenFactor(c, v.R);
    Finite(c, sk);
    Finite(c, secret.k1);
    Finite(c, secret.k2);
    CompressRoundTrip(c, T(c, sk));
    CompressRoundTrip(c, T(c, secret.k1));
    CompressRoundTrip(c, T(c, secret.k2));
    ShareScalar(c, v, secret.k1, secret.k2, a, sk);
    OwnNonce(c, r, v.b, secret.k1, secret.k2);
    MulOne(c, c.Add(T(c, secret.k1), c.Mul(T(c, secret.k2), v.b)));
    OwnKey(c, v.e, a, g, v.gacc, sk);
    MulSum(c, c.g, NonceExponent(r, secret.k1, v.b, secret.k2), KeyExponent(v.e, g, v.gacc, a, sk));
    if sig < c.n && T(c, sig) == T(c, share) {
      if sig <= share {
        Injective(c, sig, share);
      } else {
        Injective(c, share, sig);
      }
    }
  }
}
