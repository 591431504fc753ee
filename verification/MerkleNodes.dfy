/**
 The Merkle tree of the Python client: nodes in memory with child and parent pointers,
 updated in place.
 */
module MerkleNodes {
  import opened Wrappers
  import opened MerkleShape
  import opened Merkle

  class Cell<D> {
    var left: Cell?<D>
    var right: Cell?<D>
    var parent: Cell?<D>
    var value: D

    constructor (left: Cell?<D>, right: Cell?<D>, value: D)
      ensures this.left == left && this.right == right && this.parent == null && this.value == value
    {
      this.left, this.right, this.parent, this.value := left, right, null, value;
    }

    /** The other child of the parent; fails on the root or when the links are broken. */
    function Sibling(): Option<Cell?<D>>
      reads this, parent
    {
      if parent == null then None
      else if parent.left == this then Some(parent.right)
      else if parent.right == this then Some(parent.left)
      else None
    }
  }

  /** The cells of a tree, arranged as the tree: the intended pointer structure. */
  datatype Cells<D> = CLeaf(cell: Cell<D>) | CNode(cell: Cell<D>, left: Cells<D>, right: Cells<D>)

  ghost function All<D>(t: Cells<D>): set<Cell<D>> {
    match t
    case CLeaf(cell) => {cell}
    case CNode(cell, left, right) => {cell} + All(left) + All(right)
  }

  ghost function Inner<D>(t: Cells<D>): set<Cell<D>> {
    match t
    case CLeaf(_) => {}
    case CNode(cell, left, right) => {cell} + Inner(left) + Inner(right)
  }

  /** The leaf cells from left to right. */
  function Leaves<D>(t: Cells<D>): (r: seq<Cell<D>>)
    ensures |r| >= 1
  {
    match t
    case CLeaf(cell) => [cell]
    case CNode(_, left, right) => Leaves(left) + Leaves(right)
  }

  /** At every inner cell the left part has the prescribed number of leaves. */
  ghost predicate LeftComplete<D>(t: Cells<D>) {
    match t
    case CLeaf(_) => true
    case CNode(_, left, right) =>
      |Leaves(left)| == Split(|Leaves(t)|) && LeftComplete(left) && LeftComplete(right)
  }

  /** The tree with the leaf values at its leaves. */
  ghost function Content<D>(t: Cells<D>): Tree<D>
    reads All(t)`value
  {
    match t
    case CLeaf(cell) => Leaf(cell.value)
    case CNode(_, left, right) => Node(Content(left), Content(right))
  }

  /** No cell occurs twice. */
  ghost predicate Separate<D>(t: Cells<D>) {
    match t
    case CLeaf(_) => true
    case CNode(cell, left, right) =>
      && cell !in All(left) && cell !in All(right) && All(left) !! All(right)
      && Separate(left) && Separate(right)
  }

  lemma {:induction false} CellsFacts<D>(t: Cells<D>)
    ensures t.cell in All(t)
    ensures Inner(t) <= All(t)
  {
    match t
    case CLeaf(_) =>
    case CNode(_, left, right) =>
      CellsFacts(left);
      CellsFacts(right);
  }

  /** Child pointers agree with the arrangement. */
  ghost predicate Linked<D>(t: Cells<D>)
    reads All(t)`left, All(t)`right
  {
    match t
    case CLeaf(cell) => cell.left == null && cell.right == null
    case CNode(cell, left, right) =>
      cell.left == left.cell && cell.right == right.cell && Linked(left) && Linked(right)
  }

  /** Parent pointers below the root agree with the arrangement. */
  ghost predicate Parented<D>(t: Cells<D>)
    requires Separate(t)
    reads (All(t) - {t.cell})`parent
  {
    match t
    case CLeaf(_) => true
    case CNode(cell, left, right) =>
      CellsFacts(left);
      CellsFacts(right);
      left.cell.parent == cell && right.cell.parent == cell && Parented(left) && Parented(right)
  }

  /** The value of every inner cell is the hash of its children's values. */
  ghost predicate Hashed<D>(combine: (D, D) -> D, t: Cells<D>)
    reads All(t)`value
  {
    match t
    case CLeaf(_) => true
    case CNode(cell, left, right) =>
      CellsFacts(left);
      CellsFacts(right);
      cell.value == combine(left.cell.value, right.cell.value) && Hashed(combine, left) && Hashed(combine, right)
  }

  /** Then the root cell holds the tree's value. */
  lemma {:induction false} HashedValue<D>(combine: (D, D) -> D, t: Cells<D>)
    requires Hashed(combine, t)
    ensures t.cell.value == Value(combine, Content(t))
  {
    match t
    case CLeaf(_) =>
    case CNode(_, left, right) =>
      HashedValue(combine, left);
      HashedValue(combine, right);
  }

  // ---- building ----

  ghost function Elements<D>(cells: seq<Cell<D>>): set<Cell<D>> {
    set c | c in cells
  }

  ghost predicate Distinct<D>(leaves: seq<Cell<D>>) {
    forall i, j :: 0 <= i < j < |leaves| ==> leaves[i] != leaves[j]
  }

  /** Pointers and hashes are those of a tree. */
  ghost predicate Consistent<D>(combine: (D, D) -> D, t: Cells<D>)
    reads All(t)`left, All(t)`right, All(t)`value, (All(t) - {t.cell})`parent
  {
    Separate(t) && Linked(t) && Parented(t) && Hashed(combine, t)
  }

  /** A new root over two trees. */
  method Join<D>(combine: (D, D) -> D, l: Cell<D>, r: Cell<D>, ghost tl: Cells<D>, ghost tr: Cells<D>, ghost parts: set<Cell<D>>) returns (root: Cell<D>)
    requires l == tl.cell && r == tr.cell && Consistent(combine, tl) && Consistent(combine, tr)
    requires All(tl) !! All(tr) && parts == All(tl) + All(tr)
    modifies l`parent, r`parent
    ensures fresh(root) && root.parent == null
    ensures Consistent(combine, CNode(root, tl, tr))
  {
    CellsFacts(tl);
    CellsFacts(tr);
    root := new Cell(l, r, combine(l.value, r.value));
    assert root !in parts;
    l.parent := root;
    r.parent := root;
  }

  /** Cells without children. */
  ghost predicate Bare<D>(cells: seq<Cell<D>>)
    reads Elements(cells)`left, Elements(cells)`right
  {
    forall i :: 0 <= i < |cells| ==> cells[i].left == null && cells[i].right == null
  }

  /** Builds the left-complete tree over a range of leaf cells, setting their parents. */
  method MakeTree<D>(combine: (D, D) -> D, range: seq<Cell<D>>) returns (root: Cell<D>, ghost t: Cells<D>, ghost cells: set<Cell<D>>)
    requires |range| >= 1 && Distinct(range) && Bare(range)
    modifies Elements(range)`parent
    ensures root == t.cell && cells == All(t)
    ensures forall c :: c in cells ==> c in Elements(range) || fresh(c)
    ensures Consistent(combine, t)
    ensures LeftComplete(t) && Leaves(t) == range
    ensures root.parent == if |range| == 1 then old(range[0].parent) else null
    decreases |range|, 1
  {
    if |range| == 1 {
      root := range[0];
      t, cells := CLeaf(root), {root};
      return;
    }
    var p := LargestPowerOf2LessThan(|range|);
    var l, r, tl, tr, parts := MakeParts(combine, range, p);
    root := Join(combine, l, r, tl, tr, parts);
    t, cells := CNode(root, tl, tr), {root} + parts;
    JoinedShape(root, tl, tr, range);
  }

  lemma JoinedShape<D>(root: Cell<D>, tl: Cells<D>, tr: Cells<D>, range: seq<Cell<D>>)
    requires |range| >= 2 && LeftComplete(tl) && LeftComplete(tr)
    requires Leaves(tl) == range[..Split(|range|)] && Leaves(tr) == range[Split(|range|)..]
    ensures Leaves(CNode(root, tl, tr)) == range
    ensures LeftComplete(CNode(root, tl, tr))
  {
    assert range == range[..Split(|range|)] + range[Split(|range|)..];
  }

  method MakeParts<D>(combine: (D, D) -> D, range: seq<Cell<D>>, p: nat)
    returns (l: Cell<D>, r: Cell<D>, ghost tl: Cells<D>, ghost tr: Cells<D>, ghost parts: set<Cell<D>>)
    requires 0 < p < |range| && Distinct(range) && Bare(range)
    modifies Elements(range)`parent
    ensures l == tl.cell && r == tr.cell && l in parts && r in parts
    ensures All(tl) !! All(tr) && parts == All(tl) + All(tr)
    ensures forall c :: c in parts ==> c in Elements(range) || fresh(c)
    ensures Consistent(combine, tl) && Consistent(combine, tr)
    ensures LeftComplete(tl) && Leaves(tl) == range[..p]
    ensures LeftComplete(tr) && Leaves(tr) == range[p..]
    decreases |range|, 0
  {
    ElementsSplit(range, p);
    ghost var cl, cr;
    l, tl, cl := MakeTree(combine, range[..p]);
    r, tr, cr := MakeTree(combine, range[p..]);
    assert cl !! cr;
    parts := cl + cr;
    CellsFacts(tl);
    CellsFacts(tr);
  }

  lemma ElementsSplit<D>(range: seq<Cell<D>>, p: nat)
    requires p <= |range| && Distinct(range)
    ensures Elements(range) == Elements(range[..p]) + Elements(range[p..])
    ensures Elements(range[..p]) !! Elements(range[p..])
  {
    assert range == range[..p] + range[p..];
  }

  // ---- the arrangement and the tree of values ----

  ghost function ValuesOf<D>(cells: seq<Cell<D>>): (r: seq<D>)
    reads Elements(cells)`value
    ensures |r| == |cells|
    ensures forall i :: 0 <= i < |cells| ==> r[i] == cells[i].value
  {
    if cells == [] then [] else ValuesOf(cells[..|cells| - 1]) + [cells[|cells| - 1].value]
  }

  /** The leaf cells of t are those of a vector from a position on. */
  ghost predicate LeavesFrom<D>(t: Cells<D>, leaves: seq<Cell<D>>, begin: nat) {
    begin + |Leaves(t)| <= |leaves| && Leaves(t) == leaves[begin..begin + |Leaves(t)|]
  }

  lemma LeavesFromParts<D>(t: Cells<D>, leaves: seq<Cell<D>>, begin: nat)
    requires t.CNode? && LeavesFrom(t, leaves, begin)
    ensures LeavesFrom(t.left, leaves, begin) && LeavesFrom(t.right, leaves, begin + |Leaves(t.left)|)
  {
    var p, n := |Leaves(t.left)|, |Leaves(t)|;
    assert Leaves(t.left) == Leaves(t)[..p];
    assert Leaves(t.right) == Leaves(t)[p..];
    assert leaves[begin..begin + n][..p] == leaves[begin..begin + p];
    assert leaves[begin..begin + n][p..] == leaves[begin + p..begin + n];
  }

  lemma BuildRangeNode<D>(values: seq<D>, begin: nat, size: nat, p: nat)
    requires size >= 2 && begin + size <= |values| && p == Split(size)
    ensures BuildRange(values, begin, size) == Node(BuildRange(values, begin, p), BuildRange(values, begin + p, size - p))
  {}

  /** The tree of values is the one built from the values of the leaf cells. */
  lemma {:induction false} ContentInRange<D>(t: Cells<D>, leaves: seq<Cell<D>>, begin: nat, values: seq<D>)
    requires LeftComplete(t) && LeavesFrom(t, leaves, begin) && values == ValuesOf(leaves)
    ensures Content(t) == BuildRange(values, begin, |Leaves(t)|)
  {
    match t
    case CLeaf(cell) =>
      assert Leaves(t)[0] == cell == leaves[begin];
    case CNode(_, left, right) =>
      LeavesFromParts(t, leaves, begin);
      var p, n := |Leaves(left)|, |Leaves(t)|;
      assert n == p + |Leaves(right)|;
      ContentInRange(left, leaves, begin, values);
      ContentInRange(right, leaves, begin + p, values);
      BuildRangeNode(values, begin, n, p);
  }

  lemma ContentIsBuild<D>(t: Cells<D>)
    requires LeftComplete(t)
    ensures Content(t) == Build(ValuesOf(Leaves(t)))
  {
    ContentInRange(t, Leaves(t), 0, ValuesOf(Leaves(t)));
  }

  // ---- climbing ----

  /** The inner cells above a leaf, the lowest first. */
  ghost function Path<D>(t: Cells<D>, i: nat): seq<Cell<D>>
    requires i < |Leaves(t)|
  {
    match t
    case CLeaf(_) => []
    case CNode(cell, left, right) =>
      (if i < |Leaves(left)| then Path(left, i) else Path(right, i - |Leaves(left)|)) + [cell]
  }

  /** The siblings met on the way up, the lowest first. */
  ghost function SiblingCells<D>(t: Cells<D>, i: nat): seq<Cell<D>>
    requires i < |Leaves(t)|
  {
    match t
    case CLeaf(_) => []
    case CNode(_, left, right) =>
      if i < |Leaves(left)| then SiblingCells(left, i) + [right.cell]
      else SiblingCells(right, i - |Leaves(left)|) + [left.cell]
  }

  /** The cell from which the k-th step up starts. */
  ghost function Below<D>(t: Cells<D>, i: nat, k: nat): Cell<D>
    requires i < |Leaves(t)| && k <= |Path(t, i)|
  {
    if k == 0 then Leaves(t)[i] else Path(t, i)[k - 1]
  }

  lemma {:induction false} PathShape<D>(t: Cells<D>, i: nat)
    requires i < |Leaves(t)|
    ensures |Path(t, i)| == |SiblingCells(t, i)|
    ensures Below(t, i, |Path(t, i)|) == t.cell
    ensures forall k :: 0 <= k < |Path(t, i)| ==> Path(t, i)[k] in Inner(t)
  {
    match t
    case CLeaf(_) =>
    case CNode(_, left, right) =>
      if i < |Leaves(left)| {
        PathShape(left, i);
      } else {
        PathShape(right, i - |Leaves(left)|);
      }
  }

  /** One step up: the parent pointer leads to the path, and the other child is the sibling. */
  ghost predicate StepLinks<D>(below: Cell<D>, up: Cell<D>, sibling: Cell<D>)
    reads below`parent, up`left, up`right
  {
    && below.parent == up
    && (if up.left == below then up.right == sibling else up.right == below && up.left == sibling)
  }

  /** Following parent pointers from a leaf visits the path and meets the siblings. */
  lemma {:induction false} PathLinks<D>(t: Cells<D>, i: nat)
    requires i < |Leaves(t)| && Separate(t) && Linked(t) && Parented(t)
    ensures |Path(t, i)| == |SiblingCells(t, i)|
    ensures forall k :: 0 <= k < |Path(t, i)| ==> StepLinks(Below(t, i, k), Path(t, i)[k], SiblingCells(t, i)[k])
  {
    PathShape(t, i);
    match t
    case CLeaf(_) =>
    case CNode(_, left, right) =>
      if i < |Leaves(left)| {
        PathLinks(left, i);
        LastStep(t, i, left, i);
      } else {
        PathLinks(right, i - |Leaves(left)|);
        LastStep(t, i, right, i - |Leaves(left)|);
      }
  }

  /** The steps of a subtree are those of the tree, followed by one step to the root. */
  lemma LastStep<D>(t: Cells<D>, i: nat, sub: Cells<D>, j: nat)
    requires t.CNode? && i < |Leaves(t)| && j < |Leaves(sub)|
    requires if i < |Leaves(t.left)| then sub == t.left && j == i else sub == t.right && j == i - |Leaves(t.left)|
    requires Separate(t) && Linked(t) && Parented(t)
    ensures var m := |Path(sub, j)|;
            && |Path(t, i)| == m + 1
            && |SiblingCells(t, i)| == m + 1
            && (forall k :: 0 <= k < m ==> Path(t, i)[k] == Path(sub, j)[k] && SiblingCells(t, i)[k] == SiblingCells(sub, j)[k])
            && (forall k :: 0 <= k < m ==> Below(t, i, k) == Below(sub, j, k))
            && StepLinks(Below(t, i, m), Path(t, i)[m], SiblingCells(t, i)[m])
  {
    PathShape(sub, j);
    CellsFacts(t.left);
    CellsFacts(t.right);
    assert Below(t, i, |Path(sub, j)|) == sub.cell;
  }
}
