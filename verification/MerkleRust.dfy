/** The read-only Merkle tree of the Rust client, built and queried by recursion. */
module MerkleRust {
  import opened MerkleShape
  import opened Merkle

  datatype RustTree<D> = RustNode(value: D, left: RustTree<D>, right: RustTree<D>, height: nat) | RustLeaf(index: nat)

  /** Leaf indices stay inside the leaves vector. */
  predicate Within<D>(t: RustTree<D>, size: nat) {
    match t
    case RustNode(_, left, right, _) => Within(left, size) && Within(right, size)
    case RustLeaf(index) => index < size
  }

  function ValueIn<D>(t: RustTree<D>, leaves: seq<D>): D
    requires Within(t, |leaves|)
  {
    match t
    case RustNode(value, _, _, _) => value
    case RustLeaf(index) => leaves[index]
  }

  function Height<D>(t: RustTree<D>): nat {
    match t
    case RustNode(_, _, _, height) => height
    case RustLeaf(_) => 0
  }

  ghost function New<D>(combine: (D, D) -> D, leaves: seq<D>, start: nat, size: nat): (t: RustTree<D>)
    requires size >= 1 && start + size <= |leaves|
    ensures Within(t, |leaves|)
    decreases size
  {
    if size == 1 then RustLeaf(start)
    else
      var p := Split(size);
      var left := New(combine, leaves, start, p);
      var right := New(combine, leaves, start + p, size - p);
      RustNode(combine(ValueIn(left, leaves), ValueIn(right, leaves)), left, right, Height(left) + 1)
  }

  function GetProof<D>(t: RustTree<D>, leaves: seq<D>, index: nat): seq<D>
    requires Within(t, |leaves|)
  {
    match t
    case RustLeaf(_) => []
    case RustNode(_, left, right, _) =>
      if index < Pow2(Height(left)) then GetProof(left, leaves, index) + [ValueIn(right, leaves)]
      else GetProof(right, leaves, index - Pow2(Height(left))) + [ValueIn(left, leaves)]
  }

  /** Builds the tree by recursion on the left and right part. */
  method MakeTree<D>(combine: (D, D) -> D, leaves: seq<D>, start: nat, size: nat) returns (t: RustTree<D>)
    requires size >= 1 && start + size <= |leaves|
    ensures t == New(combine, leaves, start, size)
    decreases size
  {
    if size == 1 {
      return RustLeaf(start);
    }
    var p := LargestPowerOf2LessThan(size);
    var left := MakeTree(combine, leaves, start, p);
    var right := MakeTree(combine, leaves, start + p, size - p);
    t := RustNode(combine(ValueIn(left, leaves), ValueIn(right, leaves)), left, right, Height(left) + 1);
  }

  // ---- the tree that a Rust tree stands for ----

  function Erase<D>(t: RustTree<D>, leaves: seq<D>): Tree<D>
    requires Within(t, |leaves|)
  {
    match t
    case RustNode(_, left, right, _) => Node(Erase(left, leaves), Erase(right, leaves))
    case RustLeaf(index) => Leaf(leaves[index])
  }

  function Size<D>(t: RustTree<D>): (n: nat)
    ensures n >= 1
  {
    match t
    case RustNode(_, left, right, _) => Size(left) + Size(right)
    case RustLeaf(_) => 1
  }

  /** Stored values are hashes of the children's values. */
  predicate ValuesHash<D(==)>(combine: (D, D) -> D, t: RustTree<D>, leaves: seq<D>)
    requires Within(t, |leaves|)
  {
    t.RustNode? ==>
      && t.value == combine(ValueIn(t.left, leaves), ValueIn(t.right, leaves))
      && ValuesHash(combine, t.left, leaves)
      && ValuesHash(combine, t.right, leaves)
  }

  /** Left parts are split off as prescribed, and their heights tell their sizes. */
  ghost predicate LeftComplete<D>(t: RustTree<D>) {
    t.RustNode? ==>
      && Size(t.left) == Pow2(Height(t.left))
      && Size(t.left) == Split(Size(t))
      && LeftComplete(t.left)
      && LeftComplete(t.right)
  }

  lemma {:induction false} StoredValue<D>(combine: (D, D) -> D, t: RustTree<D>, leaves: seq<D>)
    requires Within(t, |leaves|) && ValuesHash(combine, t, leaves)
    ensures ValueIn(t, leaves) == Value(combine, Erase(t, leaves))
  {
    if t.RustNode? {
      StoredValue(combine, t.left, leaves);
      StoredValue(combine, t.right, leaves);
    }
  }

  /** The descent by heights follows the directions of the index and collects the siblings. */
  lemma {:induction false} DescentCollectsSiblings<D>(combine: (D, D) -> D, t: RustTree<D>, leaves: seq<D>, index: nat)
    requires Within(t, |leaves|) && ValuesHash(combine, t, leaves) && LeftComplete(t) && index < Size(t)
    ensures IsPath(Erase(t, leaves), Directions(Size(t), index))
    ensures GetProof(t, leaves, index) == Siblings(combine, Erase(t, leaves), Directions(Size(t), index))
  {
    if t.RustNode? {
      var p, dirs := Size(t.left), Directions(Size(t), index);
      if index < p {
        DescentCollectsSiblings(combine, t.left, leaves, index);
        StoredValue(combine, t.right, leaves);
        assert dirs[1..] == Directions(Size(t.left), index);
      } else {
        DescentCollectsSiblings(combine, t.right, leaves, index - p);
        StoredValue(combine, t.left, leaves);
        assert dirs[1..] == Directions(Size(t.right), index - p);
      }
    }
  }

  lemma SplitHeight(size: nat)
    requires size >= 2
    ensures Split(size) == Pow2(CeilLg(Split(size))) && CeilLg(size) == CeilLg(Split(size)) + 1
  {
    var p := Split(size);
    assert IsSplit(size, p);
    var k: nat :| Pow2(k) == p;
    SplitUnique(size, k);
    if k > 0 {
      SplitUnique(p, k - 1);
    } else {
      assert p == 1;
    }
  }

  lemma {:induction false} NewSize<D>(combine: (D, D) -> D, leaves: seq<D>, start: nat, size: nat)
    requires size >= 1 && start + size <= |leaves|
    ensures Size(New(combine, leaves, start, size)) == size
    decreases size
  {
    if size > 1 {
      NewSize(combine, leaves, start, Split(size));
      NewSize(combine, leaves, start + Split(size), size - Split(size));
    }
  }

  lemma {:induction false} NewHeight<D>(combine: (D, D) -> D, leaves: seq<D>, start: nat, size: nat)
    requires size >= 1 && start + size <= |leaves|
    ensures Height(New(combine, leaves, start, size)) == CeilLg(size)
    decreases size
  {
    if size > 1 {
      NewHeight(combine, leaves, start, Split(size));
      SplitHeight(size);
    }
  }

  lemma {:induction false} NewValuesHash<D>(combine: (D, D) -> D, leaves: seq<D>, start: nat, size: nat)
    requires size >= 1 && start + size <= |leaves|
    ensures ValuesHash(combine, New(combine, leaves, start, size), leaves)
    decreases size
  {
    if size > 1 {
      NewValuesHash(combine, leaves, start, Split(size));
      NewValuesHash(combine, leaves, start + Split(size), size - Split(size));
    }
  }

  lemma {:induction false} NewLeftComplete<D>(combine: (D, D) -> D, leaves: seq<D>, start: nat, size: nat)
    requires size >= 1 && start + size <= |leaves|
    ensures LeftComplete(New(combine, leaves, start, size))
    decreases size
  {
    if size > 1 {
      var p := Split(size);
      NewLeftComplete(combine, leaves, start, p);
      NewLeftComplete(combine, leaves, start + p, size - p);
      NewSize(combine, leaves, start, size);
      NewSize(combine, leaves, start, p);
      LeftHeight(combine, leaves, start, size);
    }
  }

  lemma LeftHeight<D>(combine: (D, D) -> D, leaves: seq<D>, start: nat, size: nat)
    requires size >= 2 && start + size <= |leaves|
    ensures Pow2(Height(New(combine, leaves, start, Split(size)))) == Split(size)
  {
    NewHeight(combine, leaves, start, Split(size));
    SplitHeight(size);
  }

  lemma {:induction false} NewIsBuild<D>(combine: (D, D) -> D, leaves: seq<D>, start: nat, size: nat)
    requires size >= 1 && start + size <= |leaves|
    ensures Erase(New(combine, leaves, start, size), leaves) == BuildRange(leaves, start, size)
    decreases size
  {
    if size > 1 {
      NewIsBuild(combine, leaves, start, Split(size));
      NewIsBuild(combine, leaves, start + Split(size), size - Split(size));
    }
  }

  /** The Rust tree of all leaves has the Merkle root, and its descent yields the proof of membership. */
  lemma RustTreeAgrees<D>(combine: (D, D) -> D, leaves: seq<D>, index: nat)
    requires index < |leaves|
    ensures ValueIn(New(combine, leaves, 0, |leaves|), leaves) == Root(combine, leaves)
    ensures GetProof(New(combine, leaves, 0, |leaves|), leaves, index) == Proof(combine, leaves, index)
  {
    var t := New(combine, leaves, 0, |leaves|);
    NewValuesHash(combine, leaves, 0, |leaves|);
    NewLeftComplete(combine, leaves, 0, |leaves|);
    NewSize(combine, leaves, 0, |leaves|);
    NewIsBuild(combine, leaves, 0, |leaves|);
    StoredValue(combine, t, leaves);
    DescentCollectsSiblings(combine, t, leaves, index);
  }
}
