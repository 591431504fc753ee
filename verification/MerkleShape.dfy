/**
 The shape of a left-complete Merkle tree: powers of two, the split of a tree into its
 left and right part, and the directions from the root to a leaf.
 */
module MerkleShape {
  function Pow2(k: nat): (r: nat)
    ensures r >= 1
  {
    if k == 0 then 1 else 2 * Pow2(k - 1)
  }

  lemma {:induction false} Pow2Monotone(a: nat, b: nat)
    requires a <= b
    ensures Pow2(a) <= Pow2(b)
  {
    if a < b {
      Pow2Monotone(a, b - 1);
    }
  }

  ghost predicate IsPow2(n: nat) {
    exists k :: Pow2(k) == n
  }

  /** Bitwise and of unbounded non-negative integers. */
  function BitAnd(a: nat, b: nat): nat {
    if a == 0 || b == 0 then 0
    else 2 * BitAnd(a / 2, b / 2) + (if a % 2 == 1 && b % 2 == 1 then 1 else 0)
  }

  /** The least r with n <= 2^r. */
  function CeilLg(n: nat): (r: nat)
    requires n >= 1
    ensures n <= Pow2(r)
    ensures r > 0 ==> Pow2(r - 1) < n
  {
    if n == 1 then 0 else 1 + CeilLg((n + 1) / 2)
  }

  /** A power of two strictly below n and not below n / 2. */
  ghost predicate IsSplit(n: nat, p: nat) {
    IsPow2(p) && p < n <= 2 * p
  }

  lemma SplitExists(n: nat)
    requires n >= 2
    ensures CeilLg(n) > 0 && IsSplit(n, Pow2(CeilLg(n) - 1))
  {
    assert Pow2(0) == 1;
  }

  /** The number of leaves of the left subtree: the largest power of two below n. */
  ghost function Split(n: nat): (p: nat)
    requires n >= 2
    ensures p < n <= 2 * p
  {
    SplitExists(n);
    var p: nat :| IsSplit(n, p);
    p
  }

  /** Only one power of two qualifies. */
  lemma SplitUnique(n: nat, k: nat)
    requires n >= 2 && Pow2(k) < n <= 2 * Pow2(k)
    ensures Split(n) == Pow2(k) && CeilLg(n) == k + 1
  {
    var p := Split(n);
    assert IsSplit(n, p);
    var r: nat :| Pow2(r) == p;
    UniqueBelow(n, r, k);
    SplitExists(n);
    UniqueBelow(n, CeilLg(n) - 1, k);
  }

  lemma Pow2Order(a: nat, b: nat)
    ensures a < b ==> 2 * Pow2(a) <= Pow2(b)
  {
    if a < b {
      Pow2Monotone(a + 1, b);
    }
  }

  lemma Pow2Less(a: nat, b: nat)
    requires Pow2(a) < Pow2(b)
    ensures a < b
  {
    if b <= a {
      Pow2Monotone(b, a);
    }
  }

  lemma UniqueBelow(n: nat, r: nat, k: nat)
    requires Pow2(r) < n <= 2 * Pow2(r) && Pow2(k) < n <= 2 * Pow2(k)
    ensures r == k
  {
    Pow2Order(k, r);
    Pow2Order(r, k);
  }

  // ---- logarithms as the clients compute them ----

  method FloorLg(n: nat) returns (r: nat)
    requires n > 0
    ensures Pow2(r) <= n < 2 * Pow2(r)
  {
    r := 0;
    var t := 1;
    while 2 * t <= n
      invariant t == Pow2(r) && t <= n
      decreases n - t
    {
      t := 2 * t;
      r := r + 1;
    }
  }

  /** n & (n - 1) == 0 exactly for powers of two. */
  lemma {:induction false} PowerOf2Test(n: nat)
    requires n >= 1
    ensures BitAnd(n, n - 1) == 0 <==> IsPow2(n)
  {
    if n == 1 {
      assert Pow2(0) == 1;
    } else {
      var m := n / 2;
      PowerOf2Test(m);
      if n % 2 == 0 {
        assert (n - 1) / 2 == m - 1;
        assert BitAnd(n, n - 1) == 2 * BitAnd(m, m - 1);
        if IsPow2(m) {
          var k: nat :| Pow2(k) == m;
          assert Pow2(k + 1) == n;
        }
        if IsPow2(n) {
          var k: nat :| Pow2(k) == n;
          assert Pow2(k - 1) == m;
        }
      } else {
        assert BitAnd(n, n - 1) == 2 * BitAnd(m, m);
        BitAndSelf(m);
        OddPow2(n);
      }
    }
  }

  lemma {:induction false} BitAndSelf(m: nat)
    ensures BitAnd(m, m) == m
  {
    if m > 0 {
      BitAndSelf(m / 2);
    }
  }

  lemma OddPow2(n: nat)
    requires n > 1 && n % 2 == 1
    ensures !IsPow2(n)
  {}

  /** The split as both clients compute it. */
  method LargestPowerOf2LessThan(n: nat) returns (p: nat)
    requires n > 1
    ensures p == Split(n)
  {
    PowerOf2Test(n);
    if BitAnd(n, n - 1) == 0 {
      p := n / 2;
      ghost var k: nat :| Pow2(k) == n;
      SplitUnique(n, k - 1);
    } else {
      var r := FloorLg(n);
      p := Pow2(r);
      SplitUnique(n, r);
    }
  }

  // ---- the same on the device, in 32-bit arithmetic ----

  const U32: nat := 0x1_0000_0000

  /** The loop variable of the device's logarithm after k rounds: doubling wraps at 2^32. */
  function Doubled(k: nat): nat {
    if k == 0 then 1 else 2 * Doubled(k - 1) % U32
  }

  lemma {:induction false} DoubledIs(k: nat, m: nat)
    requires m == 31 && Pow2(m) == 0x8000_0000
    ensures Doubled(k) == if k <= m then Pow2(k) else 0
    decreases k
  {
    if k > 0 {
      DoubledIs(k - 1, m);
      if k <= m {
        Pow2Monotone(k, m);
      }
    }
  }

  /** The loop ends if and only if the size is at most 2^31: above, its variable becomes 0 and stays so. */
  lemma LogarithmEndsIff(n: nat)
    requires n < U32
    ensures (exists k: nat :: Doubled(k) >= n) <==> n <= 0x8000_0000
  {
    Pow31();
    var m: nat := 31;
    if k: nat :| Doubled(k) >= n {
      DoubledIs(k, m);
      if k <= m {
        Pow2Monotone(k, m);
      }
    }
    if n <= 0x8000_0000 {
      DoubledIs(m, m);
      assert Doubled(m) >= n;
    }
  }

  /** The device's logarithm of a size for which its loop ends. */
  method CeilLgU32(n: nat) returns (r: nat)
    requires n <= 0x8000_0000
    ensures n >= 1 ==> r == CeilLg(n)
    ensures r <= 31
  {
    r := 0;
    var t := 1;
    Pow31();
    while t < n
      invariant t == Pow2(r) && r <= 31
      invariant r > 0 ==> Pow2(r - 1) < n
      decreases 31 - r
    {
      assert r < 31;
      Pow2Monotone(r + 1, 31);
      t := 2 * t % U32;
      r := r + 1;
    }
    if n >= 2 {
      assert Pow2(0) == 1;
      SplitUnique(n, r - 1);
    }
  }

  lemma Pow31()
    ensures Pow2(31) == 0x8000_0000
  {
    assert Pow2(8) == 256;
    assert Pow2(16) == 65536;
    assert Pow2(24) == 16777216;
  }

  /** Masking with a power of two that is at least half of the range tests one comparison. */
  lemma {:induction false} TopBit(index: nat, k: nat)
    requires index < 2 * Pow2(k)
    ensures BitAnd(index, Pow2(k)) != 0 <==> index >= Pow2(k)
  {
    if k > 0 {
      TopBit(index / 2, k - 1);
    }
  }

  /** The directions from the root to a leaf: 0 is left, 1 is right. */
  ghost function Directions(size: nat, index: nat): (dirs: seq<int>)
    requires index < size
    ensures forall i :: 0 <= i < |dirs| ==> dirs[i] == 0 || dirs[i] == 1
  {
    if size == 1 then []
    else if index < Split(size) then [0] + Directions(Split(size), index)
    else [1] + Directions(size - Split(size), index - Split(size))
  }

  /** The size of the left subtree and the side of the leaf, at one level. */
  method OneLevel(size: nat, index: nat) returns (mask: nat, isRight: int)
    requires 2 <= size <= 0x8000_0000 && index < size
    ensures mask == Split(size)
    ensures isRight == if index < Split(size) then 0 else 1
  {
    var depth := CeilLgU32(size);
    SplitExists(size);
    mask := Pow2(depth - 1);
    SplitUnique(size, depth - 1);
    TopBit(index, depth - 1);
    isRight := if BitAnd(index, mask) != 0 then 1 else 0;
  }

  /** The logarithm is not computed, or its loop ends. */
  predicate Answerable(size: nat, index: nat) {
    size <= 0x8000_0000 || index >= size
  }

  /** The device's computation of one direction, without the tree. */
  method GetIthDirection(size: nat, index: nat, i: nat) returns (d: int)
    requires Answerable(size, index)
    ensures d == if index < size && i < |Directions(size, index)| then Directions(size, index)[i] else -1
  {
    if size <= 1 || index >= size {
      return -1;
    }
    var size': nat, index': nat := size, index;
    var n := 0;
    ghost var all := Directions(size, index);
    while size' > 1
      invariant index' < size' <= size
      invariant n <= i && n <= |all|
      invariant all[n..] == Directions(size', index')
      decreases size'
    {
      var mask, isRight := OneLevel(size', index');
      ghost var rest := all[n..];
      assert rest[0] == all[n] == isRight;
      if n == i {
        return isRight;
      }
      assert all[n + 1..] == rest[1..];
      n := n + 1;
      if isRight == 1 {
        size' := size' - mask;
        index' := index' - mask;
      } else {
        size' := mask;
      }
    }
    return -1;
  }

  /** A path is no longer than the depth of the tree. */
  lemma {:induction false} DirectionsLength(size: nat, index: nat, depth: nat)
    requires index < size <= Pow2(depth)
    ensures |Directions(size, index)| <= depth
    decreases depth
  {
    if size > 1 {
      var p := Split(size);
      assert IsSplit(size, p);
      var k: nat :| Pow2(k) == p;
      Pow2Less(k, depth);
      Pow2Monotone(k, depth - 1);
      if index < p {
        DirectionsLength(p, index, depth - 1);
      } else {
        DirectionsLength(size - p, index - p, depth - 1);
      }
    }
  }
}
