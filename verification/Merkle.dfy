/**
 Merkle trees, proofs of membership, and the device's verification of a proof against a
 root. Left-complete trees are those of section 2.1 of RFC 6962.

 Hashes are values of any type D, and `combine` hashes two children into their parent.
 */
module Merkle {
  import opened MerkleShape

  datatype Tree<D> = Leaf(hash: D) | Node(left: Tree<D>, right: Tree<D>)

  function Value<D>(combine: (D, D) -> D, t: Tree<D>): D {
    match t
    case Leaf(hash) => hash
    case Node(left, right) => combine(Value(combine, left), Value(combine, right))
  }

  // ---- paths: directions from the root, where 0 is left and 1 is right ----

  function Child<D>(t: Tree<D>, direction: int): Tree<D>
    requires t.Node?
  {
    if direction == 0 then t.left else t.right
  }

  predicate IsPath<D>(t: Tree<D>, dirs: seq<int>)
    decreases |dirs|
  {
    |dirs| > 0 ==> t.Node? && dirs[0] in {0, 1} && IsPath(Child(t, dirs[0]), dirs[1..])
  }

  function At<D>(t: Tree<D>, dirs: seq<int>): Tree<D>
    requires IsPath(t, dirs)
    decreases |dirs|
  {
    if |dirs| == 0 then t else At(Child(t, dirs[0]), dirs[1..])
  }

  /** The siblings along a path, the lowest first. */
  function Siblings<D>(combine: (D, D) -> D, t: Tree<D>, dirs: seq<int>): (proof: seq<D>)
    requires IsPath(t, dirs)
    ensures |proof| == |dirs|
    decreases |dirs|
  {
    if |dirs| == 0 then []
    else Siblings(combine, Child(t, dirs[0]), dirs[1..]) + [Value(combine, Child(t, 1 - dirs[0]))]
  }

  // ---- the device's fold ----

  /** One step up: the direction says on which side the current hash is. */
  function StepUp<D>(combine: (D, D) -> D, cur: D, sibling: D, direction: int): D {
    if direction == 0 then combine(cur, sibling) else combine(sibling, cur)
  }

  /** Folds a proof, lowest sibling first; `dirs` lists the directions from the top. */
  function Fold<D>(combine: (D, D) -> D, cur: D, proof: seq<D>, dirs: seq<int>): D
    requires |proof| == |dirs|
    decreases |proof|
  {
    if |proof| == 0 then cur
    else Fold(combine, StepUp(combine, cur, proof[0], dirs[|dirs| - 1]), proof[1..], dirs[..|dirs| - 1])
  }

  /** The last step of a fold is the one at the root. */
  lemma {:induction false} FoldTop<D>(combine: (D, D) -> D, cur: D, proof: seq<D>, dirs: seq<int>)
    requires |proof| == |dirs| > 0
    ensures Fold(combine, cur, proof, dirs)
            == StepUp(combine, Fold(combine, cur, proof[..|proof| - 1], dirs[1..]), proof[|proof| - 1], dirs[0])
    decreases |proof|
  {
    var m := |proof| - 1;
    if m > 0 {
      var next := StepUp(combine, cur, proof[0], dirs[m]);
      FoldTop(combine, next, proof[1..], dirs[..m]);
      assert proof[1..][..m - 1] == proof[..m][1..];
      assert dirs[..m][1..] == dirs[1..][..m - 1];
    }
  }

  /** Completeness: the siblings along a path take the node at its end to the root. */
  lemma {:induction false} SiblingsReachRoot<D>(combine: (D, D) -> D, t: Tree<D>, dirs: seq<int>)
    requires IsPath(t, dirs)
    ensures Fold(combine, Value(combine, At(t, dirs)), Siblings(combine, t, dirs), dirs) == Value(combine, t)
    decreases |dirs|
  {
    if |dirs| > 0 {
      var proof := Siblings(combine, t, dirs);
      SiblingsReachRoot(combine, Child(t, dirs[0]), dirs[1..]);
      FoldTop(combine, Value(combine, At(t, dirs)), proof, dirs);
      assert proof[..|proof| - 1] == Siblings(combine, Child(t, dirs[0]), dirs[1..]);
    }
  }

  // ---- soundness ----

  /** Two different pairs of children with the same parent. */
  predicate Collision<D(==)>(combine: (D, D) -> D, pairs: ((D, D), (D, D))) {
    pairs.0 != pairs.1 && combine(pairs.0.0, pairs.0.1) == combine(pairs.1.0, pairs.1.1)
  }

  /** The children that a claimed fold has at the root. */
  function ClaimedChildren<D>(combine: (D, D) -> D, cur: D, proof: seq<D>, dirs: seq<int>): (D, D)
    requires |proof| == |dirs| > 0
  {
    var m := |proof| - 1;
    var below := Fold(combine, cur, proof[..m], dirs[1..]);
    if dirs[0] == 0 then (below, proof[m]) else (proof[m], below)
  }

  /** The first place, from the root down, where a claimed fold departs from the tree. */
  function Culprit<D(==)>(combine: (D, D) -> D, t: Tree<D>, cur: D, proof: seq<D>, dirs: seq<int>): ((D, D), (D, D))
    requires |proof| == |dirs| && IsPath(t, dirs)
    decreases |proof|
  {
    if |proof| == 0 then ((cur, cur), (cur, cur))
    else
      var claimed := ClaimedChildren(combine, cur, proof, dirs);
      var actual := (Value(combine, t.left), Value(combine, t.right));
      if claimed != actual then (claimed, actual)
      else Culprit(combine, Child(t, dirs[0]), cur, proof[..|proof| - 1], dirs[1..])
  }

  /**
   Soundness: a hash that folds to the root along a path is the value of the node at the end
   of the path, unless the fold exhibits a collision of the hash function.
   */
  lemma {:induction false} FoldDeterminesNode<D>(combine: (D, D) -> D, t: Tree<D>, cur: D, proof: seq<D>, dirs: seq<int>)
    requires |proof| == |dirs| && IsPath(t, dirs)
    requires Fold(combine, cur, proof, dirs) == Value(combine, t)
    ensures cur == Value(combine, At(t, dirs)) || Collision(combine, Culprit(combine, t, cur, proof, dirs))
    decreases |proof|
  {
    if |proof| > 0 {
      FoldTop(combine, cur, proof, dirs);
      var claimed := ClaimedChildren(combine, cur, proof, dirs);
      if claimed == (Value(combine, t.left), Value(combine, t.right)) {
        FoldDeterminesNode(combine, Child(t, dirs[0]), cur, proof[..|proof| - 1], dirs[1..]);
      }
    }
  }

  // ---- left-complete trees ----

  /** The tree over `size` leaves from position `start` on. */
  ghost function BuildRange<D>(leaves: seq<D>, start: nat, size: nat): Tree<D>
    requires size >= 1 && start + size <= |leaves|
    decreases size
  {
    if size == 1 then Leaf(leaves[start])
    else
      var p := Split(size);
      Node(BuildRange(leaves, start, p), BuildRange(leaves, start + p, size - p))
  }

  ghost function Build<D>(leaves: seq<D>): Tree<D>
    requires |leaves| >= 1
  {
    BuildRange(leaves, 0, |leaves|)
  }

  /** The Merkle tree hash of a list of leaf hashes. */
  ghost function Root<D>(combine: (D, D) -> D, leaves: seq<D>): D
    requires |leaves| >= 1
  {
    Value(combine, Build(leaves))
  }

  lemma {:induction false} DirectionsInRange<D>(leaves: seq<D>, start: nat, size: nat, index: nat)
    requires index < size && start + size <= |leaves|
    ensures IsPath(BuildRange(leaves, start, size), Directions(size, index))
    ensures At(BuildRange(leaves, start, size), Directions(size, index)) == Leaf(leaves[start + index])
    decreases size
  {
    if size > 1 {
      var p, dirs := Split(size), Directions(size, index);
      if index < p {
        DirectionsInRange(leaves, start, p, index);
        assert dirs[1..] == Directions(p, index);
      } else {
        DirectionsInRange(leaves, start + p, size - p, index - p);
        assert dirs[1..] == Directions(size - p, index - p);
      }
    }
  }

  /** The directions of an index lead to the leaf with that index. */
  lemma DirectionsLeadToLeaf<D>(leaves: seq<D>, index: nat)
    requires index < |leaves|
    ensures IsPath(Build(leaves), Directions(|leaves|, index))
    ensures At(Build(leaves), Directions(|leaves|, index)) == Leaf(leaves[index])
  {
    DirectionsInRange(leaves, 0, |leaves|, index);
  }

  lemma {:induction false} PathPrefix<D>(t: Tree<D>, dirs: seq<int>, m: nat)
    requires IsPath(t, dirs) && m <= |dirs|
    ensures IsPath(t, dirs[..m])
    decreases |dirs|
  {
    if m > 0 {
      PathPrefix(Child(t, dirs[0]), dirs[1..], m - 1);
      assert dirs[..m][1..] == dirs[1..][..m - 1];
    }
  }

  /** The proof of membership of the leaf with an index, its lowest sibling first. */
  ghost function Proof<D>(combine: (D, D) -> D, leaves: seq<D>, index: nat): (proof: seq<D>)
    requires index < |leaves|
    ensures |proof| == |Directions(|leaves|, index)|
  {
    DirectionsLeadToLeaf(leaves, index);
    Siblings(combine, Build(leaves), Directions(|leaves|, index))
  }

  /** Completeness: the proof of a leaf folds to the root. */
  lemma ProofReachesRoot<D>(combine: (D, D) -> D, leaves: seq<D>, index: nat)
    requires index < |leaves|
    ensures Fold(combine, leaves[index], Proof(combine, leaves, index), Directions(|leaves|, index)) == Root(combine, leaves)
  {
    DirectionsLeadToLeaf(leaves, index);
    SiblingsReachRoot(combine, Build(leaves), Directions(|leaves|, index));
  }

  /** Soundness: a proof of the right length that folds to the root is a proof of the leaf at the index. */
  lemma FoldDeterminesLeaf<D>(combine: (D, D) -> D, leaves: seq<D>, index: nat, cur: D, proof: seq<D>)
    requires index < |leaves| && |proof| == |Directions(|leaves|, index)|
    requires Fold(combine, cur, proof, Directions(|leaves|, index)) == Root(combine, leaves)
    ensures IsPath(Build(leaves), Directions(|leaves|, index))
    ensures cur == leaves[index] || Collision(combine, Culprit(combine, Build(leaves), cur, proof, Directions(|leaves|, index)))
  {
    DirectionsLeadToLeaf(leaves, index);
    FoldDeterminesNode(combine, Build(leaves), cur, proof, Directions(|leaves|, index));
  }
}
