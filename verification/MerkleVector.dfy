/**
 The Python client's `MerkleTree`: a vector of hashes and the Merkle tree built on it,
 whose hashes are recomputed along parent pointers when an element changes.
 */
module MerkleVector {
  import opened Wrappers
  import opened MerkleShape
  import opened Merkle
  import opened MerkleNodes

  // ---- recomputing hashes from a leaf upwards ----

  ghost predicate HashedAt<D>(combine: (D, D) -> D, c: Cell<D>)
    reads c, c.left, c.right
  {
    c.left != null && c.right != null && c.value == combine(c.left.value, c.right.value)
  }

  /** Links of every inner cell to its two children. */
  lemma {:induction false} InnerLinks<D>(t: Cells<D>)
    requires Separate(t) && Linked(t) && Parented(t)
    ensures forall c :: c in Inner(t) ==>
                          && c.left != null && c.right != null && c.left != c && c.right != c
                          && c.left.parent == c && c.right.parent == c
  {
    match t
    case CLeaf(_) =>
    case CNode(_, left, right) =>
      InnerLinks(left);
      InnerLinks(right);
      CellsFacts(left);
      CellsFacts(right);
  }

  lemma {:induction false} HashedCellByCell<D>(combine: (D, D) -> D, t: Cells<D>)
    requires Linked(t)
    ensures Hashed(combine, t) <==> forall c :: c in Inner(t) ==> HashedAt(combine, c)
  {
    match t
    case CLeaf(_) =>
    case CNode(cell, left, right) =>
      HashedCellByCell(combine, left);
      HashedCellByCell(combine, right);
      assert HashedAt(combine, cell) <==> cell.value == combine(left.cell.value, right.cell.value);
  }

  lemma {:induction false} LeavesAreNotInner<D>(t: Cells<D>)
    requires Separate(t)
    ensures forall i :: 0 <= i < |Leaves(t)| ==> Leaves(t)[i] in All(t) && Leaves(t)[i] !in Inner(t)
  {
    match t
    case CLeaf(_) =>
    case CNode(_, left, right) =>
      LeavesAreNotInner(left);
      LeavesAreNotInner(right);
      CellsFacts(left);
      CellsFacts(right);
  }

  lemma {:induction false} LeavesAreDistinct<D>(t: Cells<D>)
    requires Separate(t)
    ensures Distinct(Leaves(t))
  {
    match t
    case CLeaf(_) =>
    case CNode(_, left, right) =>
      LeavesAreDistinct(left);
      LeavesAreDistinct(right);
      LeavesAreNotInner(left);
      LeavesAreNotInner(right);
  }

  /** The path from some cell to the root, by parent pointers. */
  ghost predicate Ascent<D>(node: Cell?<D>, path: seq<Cell<D>>)
    reads Elements(path)`parent
  {
    if |path| == 0 then node == null
    else node == path[0] && Ascent(path[0].parent, path[1..])
  }

  /** All inner cells but those in `stale` are the hashes of their children. */
  ghost predicate HashedExcept<D>(combine: (D, D) -> D, inner: set<Cell<D>>, stale: seq<Cell<D>>)
    reads inner, set c <- inner :: c.left, set c <- inner :: c.right
  {
    forall c :: c in inner && c !in stale ==> HashedAt(combine, c)
  }

  /** Recomputing one value leaves only the parent's to be recomputed. */
  method Recompute<D>(combine: (D, D) -> D, node: Cell<D>, ghost inner: set<Cell<D>>, ghost stale: seq<Cell<D>>)
    requires node in inner && |stale| > 0 && stale[0] == node
    requires forall c :: c in inner ==>
                           && c.left != null && c.right != null && c.left != c && c.right != c
                           && c.left.parent == c && c.right.parent == c
    requires node.parent == if |stale| > 1 then stale[1] else null
    requires HashedExcept(combine, inner, stale)
    modifies node`value
    ensures HashedExcept(combine, inner, stale[1..])
  {
    node.value := combine(node.left.value, node.right.value);
    forall c | c in inner && c !in stale[1..]
      ensures HashedAt(combine, c)
    {
      if c != node {
        assert stale == [node] + stale[1..];
        assert old(HashedAt(combine, c));
        assert c.left != node && c.right != node;
      }
    }
  }

  /** Recomputes the values of a node and of all its ancestors. */
  method FixUp<D>(combine: (D, D) -> D, node: Cell?<D>, ghost inner: set<Cell<D>>, ghost path: seq<Cell<D>>)
    requires forall c :: c in inner ==>
                           && c.left != null && c.right != null && c.left != c && c.right != c
                           && c.left.parent == c && c.right.parent == c
    requires Ascent(node, path) && Elements(path) <= inner && HashedExcept(combine, inner, path)
    modifies inner`value
    ensures HashedExcept(combine, inner, [])
  {
    var cur := node;
    ghost var stale := path;
    while cur != null
      invariant Ascent(cur, stale) && Elements(stale) <= inner
      invariant HashedExcept(combine, inner, stale)
      decreases |stale|
    {
      var up := cur.parent;
      ghost var rest := stale[1..];
      assert cur in Elements(stale) && Elements(rest) <= Elements(stale);
      assert Ascent(up, rest) && |rest| == |stale| - 1;
      Recompute(combine, cur, inner, stale);
      assert Ascent(up, rest);
      cur, stale := up, rest;
    }
  }

  /** The path of a leaf is the way up from its parent. */
  lemma {:induction false} PathIsAscent<D>(t: Cells<D>, i: nat, k: nat)
    requires i < |Leaves(t)| && Separate(t) && Linked(t) && Parented(t) && t.cell.parent == null
    requires k <= |Path(t, i)|
    ensures Ascent(Below(t, i, k).parent, Path(t, i)[k..])
    decreases |Path(t, i)| - k
  {
    PathShape(t, i);
    PathLinks(t, i);
    if k < |Path(t, i)| {
      PathIsAscent(t, i, k + 1);
      assert StepLinks(Below(t, i, k), Path(t, i)[k], SiblingCells(t, i)[k]);
      assert Path(t, i)[k..][1..] == Path(t, i)[k + 1..];
    }
  }

  lemma ValuesAppend<D>(cells: seq<Cell<D>>, c: Cell<D>)
    ensures ValuesOf(cells + [c]) == ValuesOf(cells) + [c.value]
  {
    assert (cells + [c])[..|cells|] == cells;
  }

  /** One level of the siblings in a tree of values. */
  lemma SiblingsStep<D>(combine: (D, D) -> D, left: Tree<D>, right: Tree<D>, side: int, below: seq<int>)
    requires side in {0, 1} && IsPath(if side == 0 then left else right, below)
    ensures var dirs := [side] + below;
            && IsPath(Node(left, right), dirs)
            && Siblings(combine, Node(left, right), dirs)
               == Siblings(combine, if side == 0 then left else right, below) + [Value(combine, if side == 0 then right else left)]
  {
    assert ([side] + below)[1..] == below;
  }

  /** The directions to a leaf, read off the arrangement. */
  ghost function DirectionsIn<D>(t: Cells<D>, i: nat): seq<int>
    requires i < |Leaves(t)|
  {
    match t
    case CLeaf(_) => []
    case CNode(_, left, right) =>
      if i < |Leaves(left)| then [0] + DirectionsIn(left, i) else [1] + DirectionsIn(right, i - |Leaves(left)|)
  }

  lemma {:induction false} DirectionsInLeftComplete<D>(t: Cells<D>, i: nat)
    requires i < |Leaves(t)| && LeftComplete(t)
    ensures DirectionsIn(t, i) == Directions(|Leaves(t)|, i)
  {
    match t
    case CLeaf(_) =>
    case CNode(_, left, right) =>
      if i < |Leaves(left)| {
        DirectionsInLeftComplete(left, i);
      } else {
        DirectionsInLeftComplete(right, i - |Leaves(left)|);
      }
  }

  /** The values met on the way up are the siblings in the tree of values. */
  lemma {:induction false} SiblingValues<D>(combine: (D, D) -> D, t: Cells<D>, i: nat)
    requires i < |Leaves(t)| && Hashed(combine, t)
    ensures IsPath(Content(t), DirectionsIn(t, i))
    ensures ValuesOf(SiblingCells(t, i)) == Siblings(combine, Content(t), DirectionsIn(t, i))
  {
    match t
    case CLeaf(_) =>
    case CNode(_, left, right) =>
      if i < |Leaves(left)| {
        SiblingValues(combine, left, i);
        HashedValue(combine, right);
        ValuesAppend(SiblingCells(left, i), right.cell);
        SiblingsStep(combine, Content(left), Content(right), 0, DirectionsIn(left, i));
      } else {
        var j := i - |Leaves(left)|;
        SiblingValues(combine, right, j);
        HashedValue(combine, left);
        ValuesAppend(SiblingCells(right, j), left.cell);
        SiblingsStep(combine, Content(left), Content(right), 1, DirectionsIn(right, j));
      }
  }

  lemma SiblingValuesAreProof<D>(combine: (D, D) -> D, t: Cells<D>, i: nat)
    requires i < |Leaves(t)| && LeftComplete(t) && Hashed(combine, t)
    ensures ValuesOf(SiblingCells(t, i)) == Proof(combine, ValuesOf(Leaves(t)), i)
  {
    SiblingValues(combine, t, i);
    DirectionsInLeftComplete(t, i);
    ContentIsBuild(t);
  }

  /** The cell at the end of a path of directions. */
  ghost function CellAt<D>(t: Cells<D>, dirs: seq<int>): Cell<D>
    decreases |dirs|
  {
    if |dirs| == 0 || t.CLeaf? then t.cell
    else CellAt(if dirs[0] == 0 then t.left else t.right, dirs[1..])
  }

  /** Every cell holds the value that the node in its place has in a tree built from the leaf values. */
  lemma {:induction false} CellValues<D>(combine: (D, D) -> D, t: Cells<D>, dirs: seq<int>)
    requires Hashed(combine, t) && IsPath(Content(t), dirs)
    ensures CellAt(t, dirs).value == Value(combine, At(Content(t), dirs))
    decreases |dirs|
  {
    if |dirs| == 0 {
      HashedValue(combine, t);
    } else {
      CellValues(combine, if dirs[0] == 0 then t.left else t.right, dirs[1..]);
    }
  }

  /** Writing a leaf leaves only its parent's value to be recomputed. */
  method WriteLeaf<D>(combine: (D, D) -> D, leaf: Cell<D>, x: D, ghost inner: set<Cell<D>>, ghost path: seq<Cell<D>>)
    requires leaf !in inner && Ascent(leaf.parent, path) && HashedExcept(combine, inner, [])
    requires forall c :: c in inner ==> c.left != null && c.right != null && c.left.parent == c && c.right.parent == c
    modifies leaf`value
    ensures leaf.value == x
    ensures HashedExcept(combine, inner, path)
  {
    leaf.value := x;
    forall c | c in inner && c !in path
      ensures HashedAt(combine, c)
    {
      assert old(HashedAt(combine, c));
      assert c.left != leaf && c.right != leaf;
    }
  }

  /** Changes the value of the i-th leaf cell and recomputes the hashes above it. */
  method SetLeaf<D>(combine: (D, D) -> D, leaf: Cell<D>, x: D, ghost t: Cells<D>, ghost cells: set<Cell<D>>, ghost i: nat)
    requires Consistent(combine, t) && t.cell.parent == null && cells == All(t)
    requires i < |Leaves(t)| && leaf == Leaves(t)[i]
    modifies cells`value
    ensures Consistent(combine, t)
    ensures leaf.value == x
    ensures forall c :: c in cells && c !in Inner(t) && c != leaf ==> c.value == old(c.value)
  {
    ghost var path, inner := Path(t, i), Inner(t);
    CellsFacts(t);
    LeavesAreNotInner(t);
    InnerLinks(t);
    PathShape(t, i);
    PathIsAscent(t, i, 0);
    assert path[0..] == path && Elements(path) <= inner;
    HashedCellByCell(combine, t);
    WriteLeaf(combine, leaf, x, inner, path);
    FixUp(combine, leaf.parent, inner, path);
    HashedCellByCell(combine, t);
  }

  /** A vector of hashes with its Merkle tree. */
  class MerkleTree<D> {
    const combine: (D, D) -> D
    var leaves: seq<Cell<D>>
    var root: Cell?<D>
    ghost var shape: Option<Cells<D>>
    ghost var cells: set<Cell<D>>

    ghost predicate Valid()
      reads this, cells
    {
      match shape
      case None => leaves == [] && root == null && cells == {}
      case Some(t) =>
        && cells == All(t) && leaves == Leaves(t) && Elements(leaves) <= cells
        && root == t.cell && t.cell in cells && t.cell.parent == null
        && LeftComplete(t)
        && Consistent(combine, t)
    }

    /** The hashes in the vector. */
    ghost function Values(): seq<D>
      requires Valid()
      reads this, cells
    {
      ValuesOf(leaves)
    }

    constructor (combine: (D, D) -> D, elements: seq<D>)
      ensures Valid() && fresh(cells)
      ensures this.combine == combine && Values() == elements
    {
      var made: seq<Cell<D>> := [];
      for i := 0 to |elements|
        invariant |made| == i && Distinct(made) && Bare(made)
        invariant forall j :: 0 <= j < i ==> fresh(made[j]) && made[j].value == elements[j] && made[j].parent == null
      {
        var cell := new Cell(null, null, elements[i]);
        made := made + [cell];
      }
      this.combine := combine;
      this.leaves := made;
      if |made| > 0 {
        var r, t, all := MakeTree(combine, made);
        LeavesAreNotInner(t);
        CellsFacts(t);
        root := r;
        shape, cells := Some(t), all;
      } else {
        root := null;
        shape, cells := None, {};
      }
    }

    /** The Merkle root; `nil` when there are no elements. */
    method Root(nil: D) returns (r: D)
      requires Valid()
      ensures r == if leaves == [] then nil else Merkle.Root(combine, Values())
    {
      if root == null {
        r := nil;
      } else {
        HashedValue(combine, shape.value);
        ContentIsBuild(shape.value);
        r := root.value;
      }
    }

    /** Changes one element; the result is the tree of the changed vector, in the same cells. */
    method Set(index: nat, x: D)
      requires Valid() && index < |leaves|
      modifies cells`value
      ensures Valid()
      ensures Values() == old(Values())[index := x]
    {
      ghost var t := shape.value;
      LeavesAreNotInner(t);
      LeavesAreDistinct(t);
      SetLeaf(combine, leaves[index], x, t, cells, index);
      assert forall i :: 0 <= i < |leaves| && i != index ==> leaves[i] != leaves[index];
    }

    /** The proof of membership of one element, collected by climbing to the root. */
    method ProveLeaf(index: nat) returns (proof: seq<D>)
      requires Valid() && index < |leaves|
      ensures proof == Proof(combine, Values(), index)
    {
      ghost var t := shape.value;
      ghost var path, siblings := Path(t, index), SiblingCells(t, index);
      PathShape(t, index);
      PathLinks(t, index);
      var node := leaves[index];
      proof := [];
      ghost var k := 0;
      while node.parent != null
        invariant k <= |path| && node == Below(t, index, k)
        invariant proof == ValuesOf(siblings[..k])
        decreases |path| - k
      {
        assert StepLinks(node, path[k], siblings[k]);
        var sibling := node.Sibling().value;
        assert siblings[..k + 1][..k] == siblings[..k];
        proof := proof + [sibling.value];
        node := node.parent;
        k := k + 1;
      }
      assert k == |path|;
      assert siblings[..k] == siblings;
      SiblingValuesAreProof(combine, t, index);
    }
  }
}
