/**
 The client's side of the interactive protocol: answers to the device's requests for
 preimages and Merkle proofs, split over several responses of at most 255 bytes.
 */
module ClientCommands {
  import opened Wrappers
  import opened Bytes
  import Varint
  import opened Merkle
  import opened MerkleShape
  import MerkleVector
  import MerkleRust

  // ---- what the answers are ----

  /** A response together with the queue it leaves behind. */
  datatype Answer = Answer(response: Bytes, queue: seq<Bytes>)

  function Min(a: nat, b: nat): nat {
    if a < b then a else b
  }

  /** A byte string as a list of one-byte strings. */
  function Singles(b: Bytes): (r: seq<Bytes>)
    ensures |r| == |b|
    ensures forall i :: 0 <= i < |b| ==> r[i] == [b[i]]
  {
    seq(|b|, i requires 0 <= i < |b| => [b[i]])
  }

  /** How many bytes of a preimage fit the first response. */
  function PayloadSize(preimage: Bytes): nat
    requires |preimage| < Varint.U64
  {
    Min(255 - |Varint.Write(|preimage|)| - 1, |preimage|)
  }

  function PreimageAnswer(queue: seq<Bytes>, preimage: Bytes): Answer
    requires |preimage| < Varint.U64
  {
    var n := PayloadSize(preimage);
    Answer(Varint.Write(|preimage|) + [n] + preimage[..n], queue + Singles(preimage[n..]))
  }

  const PROOF_ELEMENTS: nat := 6

  function ProofAnswer(leaf: Digest, proof: seq<Bytes>): Answer
    requires |proof| < 256
  {
    var n := Min(PROOF_ELEMENTS, |proof|);
    Answer(leaf + [|proof|] + [n] + Flatten(proof[..n]), proof[n..])
  }

  /** The queue holds elements of one length, 1 or 32. */
  predicate Uniform(queue: seq<Bytes>) {
    |queue| > 0 && |queue[0]| in {1, 32} && AllOfLength(queue, |queue[0]|)
  }

  /** How many elements of the queue fit one response. */
  function ChunkSize(queue: seq<Bytes>): (n: nat)
    requires Uniform(queue)
    ensures 1 <= n <= |queue|
    ensures n * |queue[0]| <= 253
  {
    Min(|queue|, if |queue[0]| == 1 then 253 else 7)
  }

  function MoreAnswer(queue: seq<Bytes>): Answer
    requires Uniform(queue)
  {
    var n := ChunkSize(queue);
    Answer([n] + [|queue[0]|] + Flatten(queue[..n]), queue[n..])
  }

  /** Every response fits one message. */
  lemma ResponsesFit(queue: seq<Bytes>, preimage: Bytes, leaf: Digest, proof: seq<Bytes>)
    requires |preimage| < Varint.U64 && |proof| < 256 && AllOfLength(proof, 32)
    ensures |PreimageAnswer(queue, preimage).response| <= 255
    ensures |ProofAnswer(leaf, proof).response| <= 255
    ensures Uniform(queue) ==> |MoreAnswer(queue).response| <= 255
  {
    var n := Min(PROOF_ELEMENTS, |proof|);
    FlattenLength(proof[..n], 32);
    if Uniform(queue) {
      FlattenLength(queue[..ChunkSize(queue)], |queue[0]|);
    }
  }

  /** And none could hold one element more. */
  lemma ResponsesFull(queue: seq<Bytes>, preimage: Bytes, leaf: Digest, proof: seq<Bytes>)
    requires |preimage| < Varint.U64 && |proof| < 256 && AllOfLength(proof, 32)
    ensures PreimageAnswer(queue, preimage).queue != queue ==> |PreimageAnswer(queue, preimage).response| == 255
    ensures ProofAnswer(leaf, proof).queue != [] ==> |ProofAnswer(leaf, proof).response| + 32 > 255
    ensures Uniform(queue) && MoreAnswer(queue).queue != [] ==> |MoreAnswer(queue).response| + |queue[0]| > 255
  {
    var n := Min(PROOF_ELEMENTS, |proof|);
    FlattenLength(proof[..n], 32);
    if Uniform(queue) {
      FlattenLength(queue[..ChunkSize(queue)], |queue[0]|);
    }
  }

  ghost function LeafProofAnswer(sha: Sha, leaves: seq<Digest>, index: nat): Answer
    requires index < |leaves| <= MAX_LEAVES
  {
    ProofIsShort(sha, leaves, index);
    ProofAnswer(leaves[index], Proof(CombineHashes(sha), leaves, index))
  }

  /** The largest list the device can refer to. */
  const MAX_LEAVES: nat := 0x8000_0000

  lemma ProofIsShort(sha: Sha, leaves: seq<Digest>, index: nat)
    requires index < |leaves| <= MAX_LEAVES
    ensures |Proof(CombineHashes(sha), leaves, index)| <= 31
  {
    Pow31();
    DirectionsLength(|leaves|, index, 31);
  }

  /** The proof as the Python client's tree computes it. */
  method ClimbingProof(sha: Sha, leaves: seq<Digest>, index: nat) returns (proof: seq<Digest>)
    requires index < |leaves| <= MAX_LEAVES
    ensures proof == Proof(CombineHashes(sha), leaves, index) && |proof| <= 31
  {
    var tree := new MerkleVector.MerkleTree<Digest>(CombineHashes(sha), leaves);
    proof := tree.ProveLeaf(index);
    ProofIsShort(sha, leaves, index);
  }

  /** The proof as the Rust client's tree computes it. */
  method DescendingProof(sha: Sha, leaves: seq<Digest>, index: nat) returns (proof: seq<Digest>)
    requires index < |leaves| <= MAX_LEAVES
    ensures proof == Proof(CombineHashes(sha), leaves, index) && |proof| <= 31
  {
    var tree := MerkleRust.MakeTree(CombineHashes(sha), leaves, 0, |leaves|);
    proof := MerkleRust.GetProof(tree, leaves, index);
    MerkleRust.RustTreeAgrees(CombineHashes(sha), leaves, index);
    ProofIsShort(sha, leaves, index);
  }

  function ElementHashes(sha: Sha, elements: seq<Bytes>): (r: seq<Digest>)
    ensures |r| == |elements|
  {
    seq(|elements|, i requires 0 <= i < |elements| => ElementHash(sha, elements[i]))
  }

  /** The root under which a list is filed; 32 zero bytes for the empty list. */
  ghost function ListRoot(sha: Sha, leaves: seq<Digest>): Digest {
    if |leaves| == 0 then seq(32, _ => 0) else Root(CombineHashes(sha), leaves)
  }

  method TreeRoot(sha: Sha, leaves: seq<Digest>) returns (root: Digest)
    ensures root == ListRoot(sha, leaves)
  {
    var tree := new MerkleVector.MerkleTree<Digest>(CombineHashes(sha), leaves);
    root := tree.Root(seq(32, _ => 0));
  }

  /** The preimages once a list of elements is known: each element with its prefix, under its hash. */
  function Filed(sha: Sha, preimages: map<Digest, Bytes>, elements: seq<Bytes>): map<Digest, Bytes> {
    if |elements| == 0 then preimages
    else
      var last := elements[|elements| - 1];
      Filed(sha, preimages, elements[..|elements| - 1])[ElementHash(sha, last) := [0] + last]
  }

  /** What is found under a hash. */
  ghost predicate Finds(sha: Sha, preimages: map<Digest, Bytes>, elements: seq<Bytes>, hash: Digest, found: map<Digest, Bytes>) {
    if hash in ElementHashes(sha, elements)
    then hash in found && exists j :: 0 <= j < |elements| && IsLast(sha, elements, hash, j) && found[hash] == [0] + elements[j]
    else (hash in found <==> hash in preimages) && (hash in preimages ==> found[hash] == preimages[hash])
  }

  lemma FindsNew(sha: Sha, preimages: map<Digest, Bytes>, elements: seq<Bytes>, n: nat, hash: Digest, found: map<Digest, Bytes>)
    requires |elements| == n + 1 && hash == ElementHash(sha, elements[n]) && hash in found && found[hash] == [0] + elements[n]
    ensures Finds(sha, preimages, elements, hash, found)
  {
    assert ElementHashes(sha, elements)[n] == hash;
    assert IsLast(sha, elements, hash, n);
  }

  lemma FindsOld(sha: Sha, preimages: map<Digest, Bytes>, elements: seq<Bytes>, n: nat, hash: Digest, found: map<Digest, Bytes>)
    requires |elements| == n + 1 && hash != ElementHash(sha, elements[n]) && Finds(sha, preimages, elements[..n], hash, found)
    ensures Finds(sha, preimages, elements, hash, found)
  {
    var hashes, before := ElementHashes(sha, elements), ElementHashes(sha, elements[..n]);
    assert hashes == before + [ElementHash(sha, elements[n])];
    if hash in before {
      var j :| 0 <= j < n && IsLast(sha, elements[..n], hash, j) && found[hash] == [0] + elements[..n][j];
      assert IsLast(sha, elements, hash, j) by {
        assert forall i :: j < i < n ==> elements[..n][i] == elements[i];
      }
    }
  }

  /** Under the hash of an element is that element, or a later one with the same hash; what was known before stays otherwise. */
  lemma {:induction false} FiledFinds(sha: Sha, preimages: map<Digest, Bytes>, elements: seq<Bytes>, hash: Digest)
    ensures Finds(sha, preimages, elements, hash, Filed(sha, preimages, elements))
    decreases |elements|
  {
    if |elements| > 0 {
      var n := |elements| - 1;
      var before, found := Filed(sha, preimages, elements[..n]), Filed(sha, preimages, elements);
      if hash == ElementHash(sha, elements[n]) {
        FindsNew(sha, preimages, elements, n, hash, found);
      } else {
        FiledFinds(sha, preimages, elements[..n], hash);
        SameFind(sha, preimages, elements[..n], hash, before, found);
        FindsOld(sha, preimages, elements, n, hash, found);
      }
    }
  }

  lemma SameFind(sha: Sha, preimages: map<Digest, Bytes>, elements: seq<Bytes>, hash: Digest, before: map<Digest, Bytes>, found: map<Digest, Bytes>)
    requires Finds(sha, preimages, elements, hash, before) && (hash in found <==> hash in before)
    requires hash in before ==> found[hash] == before[hash]
    ensures Finds(sha, preimages, elements, hash, found)
  {}

  /** The last element with the hash. */
  predicate IsLast(sha: Sha, elements: seq<Bytes>, hash: Digest, j: nat)
    requires j < |elements|
  {
    ElementHash(sha, elements[j]) == hash && forall i :: j < i < |elements| ==> ElementHash(sha, elements[i]) != hash
  }

  // ---- the Python client ----

  /** The client's data: known preimages by hash, known lists of leaf hashes by root, and the queue. */
  class PythonInterpreter {
    const sha: Sha
    var preimages: map<Digest, Bytes>
    var trees: map<Digest, seq<Digest>>
    var queue: seq<Bytes>

    constructor (sha: Sha)
      ensures this.sha == sha && Valid() && queue == []
    {
      this.sha := sha;
      preimages, trees, queue := map[], map[], [];
    }

    /** Everything is filed under its own hash, and the queue holds what the commands put there. */
    ghost predicate Valid()
      reads this
    {
      && (forall h :: h in preimages ==> sha(preimages[h]) == h && |preimages[h]| < Varint.U64)
      && (forall r :: r in trees ==> |trees[r]| <= MAX_LEAVES)
      && (forall r :: r in trees && |trees[r]| > 0 ==> Root(CombineHashes(sha), trees[r]) == r)
      && (forall i :: 0 <= i < |queue| ==> |queue[i]| in {1, 32})
    }

    method AddKnownPreimage(element: Bytes)
      requires Valid() && |element| < Varint.U64
      modifies this`preimages
      ensures Valid()
      ensures preimages == old(preimages)[sha(element) := element]
    {
      preimages := preimages[sha(element) := element];
    }

    /** Files the elements by their hashes, and the list of their hashes by its Merkle root. */
    method AddKnownList(elements: seq<Bytes>) returns (ghost root: Digest)
      requires Valid() && |elements| <= MAX_LEAVES
      requires forall i :: 0 <= i < |elements| ==> |elements[i]| + 1 < Varint.U64
      modifies this`preimages, this`trees
      ensures Valid()
      ensures root == ListRoot(sha, ElementHashes(sha, elements))
      ensures trees == old(trees)[root := ElementHashes(sha, elements)]
      ensures preimages == Filed(sha, old(preimages), elements)
    {
      for i := 0 to |elements|
        invariant Valid() && trees == old(trees)
        invariant preimages == Filed(sha, old(preimages), elements[..i])
      {
        AddKnownPreimage([0] + elements[i]);
        assert elements[..i + 1][..i] == elements[..i];
      }
      assert elements[..|elements|] == elements;
      var leaves := ElementHashes(sha, elements);
      var key := TreeRoot(sha, leaves);
      trees := trees[key := leaves];
      root := key;
    }

    method GetPreimage(hash: Digest) returns (r: Option<Bytes>)
      requires Valid()
      modifies this`queue
      ensures Valid()
      ensures if hash in preimages
              then r.Some? && Answer(r.value, queue) == PreimageAnswer(old(queue), preimages[hash])
              else r == None && queue == old(queue)
    {
      if hash !in preimages {
        return None;
      }
      var preimage := preimages[hash];
      var lengthOut := Varint.Write(|preimage|);
      var maxPayload := 255 - |lengthOut| - 1;
      var payload := Min(maxPayload, |preimage|);
      if payload < |preimage| {
        queue := queue + Singles(preimage[payload..]);
      }
      return Some(lengthOut + [payload] + preimage[..payload]);
    }

    /** The tree is known, has the requested size, and the queue is empty; otherwise the request fails. */
    method GetMerkleLeafProof(root: Digest, size: nat, index: nat) returns (r: Option<Bytes>)
      requires Valid()
      modifies this`queue
      ensures Valid()
      ensures if root in trees && index < size == |trees[root]| && old(queue) == []
              then r.Some? && Answer(r.value, queue) == LeafProofAnswer(sha, trees[root], index)
              else r == None && queue == old(queue)
    {
      if root !in trees {
        return None;
      }
      var leaves := trees[root];
      if index >= size || |leaves| != size {
        return None;
      }
      if |queue| != 0 {
        return None;
      }
      var proof := ClimbingProof(sha, leaves, index);
      var n := Min(PROOF_ELEMENTS, |proof|);
      var leftover := |proof| - n;
      if leftover > 0 {
        queue := queue + proof[|proof| - leftover..];
      }
      return Some(leaves[index] + [|proof|] + [n] + Flatten(proof[..n]));
    }

    /** Pops elements from the queue while they fit. */
    method GetMoreElements() returns (r: Option<Bytes>)
      requires Valid()
      modifies this`queue
      ensures Valid()
      ensures if Uniform(old(queue))
              then r.Some? && Answer(r.value, queue) == MoreAnswer(old(queue))
              else r == None && queue == old(queue)
    {
      if |queue| == 0 {
        return None;
      }
      var length := |queue[0]|;
      if exists i :: 0 <= i < |queue| && |queue[i]| != length {
        return None;
      }
      ghost var before := queue;
      assert AllOfLength(queue, length) && length in {1, 32};
      var elements: Bytes := [];
      var added := 0;
      while |queue| > 0 && |elements| + length <= 253
        invariant 0 <= added <= ChunkSize(before)
        invariant queue == before[added..] && length in {1, 32} && AllOfLength(queue, length)
        invariant elements == Flatten(before[..added]) && |elements| == added * length
        decreases |queue|
      {
        assert before[..added + 1][..added] == before[..added];
        elements := elements + queue[0];
        queue := queue[1..];
        added := added + 1;
      }
      assert added == ChunkSize(before);
      return Some([added] + [length] + elements);
    }
  }

  // ---- the Rust client ----

  function FindPreimage(preimages: seq<(Digest, Bytes)>, hash: Digest): Option<Bytes> {
    if |preimages| == 0 then None
    else if preimages[0].0 == hash then Some(preimages[0].1)
    else FindPreimage(preimages[1..], hash)
  }

  ghost function FindTree(sha: Sha, trees: seq<seq<Digest>>, root: Digest): Option<seq<Digest>>
    requires forall i :: 0 <= i < |trees| ==> |trees[i]| > 0
  {
    if |trees| == 0 then None
    else if Root(CombineHashes(sha), trees[0]) == root then Some(trees[0])
    else FindTree(sha, trees[1..], root)
  }

  class RustInterpreter {
    const sha: Sha
    var preimages: seq<(Digest, Bytes)>
    var trees: seq<seq<Digest>>
    var queue: seq<Bytes>

    constructor (sha: Sha)
      ensures this.sha == sha && Valid() && queue == []
    {
      this.sha := sha;
      preimages, trees, queue := [], [], [];
    }

    ghost predicate Valid()
      reads this
    {
      && (forall i :: 0 <= i < |preimages| ==> sha(preimages[i].1) == preimages[i].0 && |preimages[i].1| < Varint.U64)
      && (forall i :: 0 <= i < |trees| ==> 0 < |trees[i]| <= MAX_LEAVES)
      && (forall i :: 0 <= i < |queue| ==> |queue[i]| in {1, 32})
    }

    /** The same for the vectors of the Rust client, whose tree type has no empty tree. */
    method AddKnownList(elements: seq<Bytes>)
      requires Valid() && 0 < |elements| <= MAX_LEAVES
      requires forall i :: 0 <= i < |elements| ==> |elements[i]| + 1 < Varint.U64
      modifies this`preimages, this`trees
      ensures Valid()
      ensures trees == old(trees) + [ElementHashes(sha, elements)]
      ensures |preimages| == |old(preimages)| + |elements| && preimages[..|old(preimages)|] == old(preimages)
      ensures forall i :: 0 <= i < |elements| ==>
                            preimages[|old(preimages)| + i] == (ElementHash(sha, elements[i]), [0] + elements[i])
    {
      var leaves: seq<Digest> := [];
      for i := 0 to |elements|
        invariant Valid() && trees == old(trees) && leaves == ElementHashes(sha, elements)[..i]
        invariant |preimages| == |old(preimages)| + i && preimages[..|old(preimages)|] == old(preimages)
        invariant forall j :: 0 <= j < i ==>
                                preimages[|old(preimages)| + j] == (ElementHash(sha, elements[j]), [0] + elements[j])
      {
        var preimage := [0] + elements[i];
        preimages := preimages + [(sha(preimage), preimage)];
        leaves := leaves + [sha(preimage)];
      }
      assert leaves == ElementHashes(sha, elements);
      trees := trees + [leaves];
    }

    method GetPreimage(hash: Digest) returns (r: Option<Bytes>)
      requires Valid()
      modifies this`queue
      ensures Valid()
      ensures match FindPreimage(preimages, hash)
              case Some(preimage) =>
                |preimage| < Varint.U64 && r.Some? && Answer(r.value, queue) == PreimageAnswer(old(queue), preimage)
              case None => r == None && queue == old(queue)
    {
      var i := 0;
      while i < |preimages| && preimages[i].0 != hash
        invariant 0 <= i <= |preimages|
        invariant FindPreimage(preimages, hash) == FindPreimage(preimages[i..], hash)
      {
        i := i + 1;
      }
      if i == |preimages| {
        return None;
      }
      var preimage := preimages[i].1;
      r := SplitPreimage(preimage);
    }

    /** Pushes the bytes that do not fit the response, one by one. */
    method SplitPreimage(preimage: Bytes) returns (r: Option<Bytes>)
      requires Valid() && |preimage| < Varint.U64
      modifies this`queue
      ensures Valid()
      ensures r.Some? && Answer(r.value, queue) == PreimageAnswer(old(queue), preimage)
    {
      var lengthOut := Varint.Write(|preimage|);
      var maxPayload := 255 - |lengthOut| - 1;
      var payload := if |preimage| > maxPayload then maxPayload else |preimage|;
      if payload < |preimage| {
        var rest := preimage[payload..];
        for i := 0 to |rest|
          invariant Valid() && queue == old(queue) + Singles(rest)[..i]
        {
          queue := queue + [[rest[i]]];
        }
      }
      return Some(lengthOut + [payload] + preimage[..payload]);
    }

    method GetMerkleLeafProof(root: Digest, size: nat, index: nat) returns (r: Option<Bytes>)
      requires Valid()
      modifies this`queue
      ensures Valid()
      ensures match FindTree(sha, trees, root)
              case Some(leaves) =>
                if index < size == |leaves| <= MAX_LEAVES && old(queue) == []
                then r.Some? && Answer(r.value, queue) == LeafProofAnswer(sha, leaves, index)
                else r == None && queue == old(queue)
              case None => r == None && queue == old(queue)
    {
      if |queue| != 0 {
        return None;
      }
      var found := LookUpTree(root);
      if found.None? {
        return None;
      }
      var leaves := found.value;
      if index >= size || |leaves| != size {
        return None;
      }
      var proof := DescendingProof(sha, leaves, index);
      var first := SplitProof(proof);
      return Some(leaves[index] + [|proof|] + [Min(PROOF_ELEMENTS, |proof|)] + first);
    }

    method LookUpTree(root: Digest) returns (r: Option<seq<Digest>>)
      requires Valid()
      ensures r == FindTree(sha, trees, root)
      ensures r.Some? ==> 0 < |r.value| <= MAX_LEAVES
    {
      for i := 0 to |trees|
        invariant FindTree(sha, trees, root) == FindTree(sha, trees[i..], root)
      {
        var tree := MerkleRust.MakeTree(CombineHashes(sha), trees[i], 0, |trees[i]|);
        MerkleRust.RustTreeAgrees(CombineHashes(sha), trees[i], 0);
        if MerkleRust.ValueIn(tree, trees[i]) == root {
          return Some(trees[i]);
        }
      }
      return None;
    }

    /** The first six elements go into the response, the others into the queue. */
    method SplitProof(proof: seq<Digest>) returns (first: Bytes)
      requires Valid() && queue == []
      modifies this`queue
      ensures Valid()
      ensures first == Flatten(proof[..Min(PROOF_ELEMENTS, |proof|)])
      ensures queue == proof[Min(PROOF_ELEMENTS, |proof|)..]
    {
      first := [];
      for i := 0 to |proof|
        invariant Valid()
        invariant first == Flatten(proof[..Min(PROOF_ELEMENTS, i)])
        invariant queue == proof[Min(PROOF_ELEMENTS, i)..i]
      {
        if i < 6 {
          assert proof[..i + 1][..i] == proof[..i];
          first := first + proof[i];
        } else {
          queue := queue + [proof[i]];
        }
      }
    }

    /** Copies elements from the front of the queue while they fit, then drops them. */
    method GetMoreElements() returns (r: Option<Bytes>)
      requires Valid()
      modifies this`queue
      ensures Valid()
      ensures if Uniform(old(queue))
              then r.Some? && Answer(r.value, queue) == MoreAnswer(old(queue))
              else r == None && queue == old(queue)
    {
      if |queue| == 0 {
        return None;
      }
      var length := |queue[0]|;
      if exists i :: 0 <= i < |queue| && |queue[i]| != length {
        return None;
      }
      var elements: Bytes := [];
      var added := 0;
      for i := 0 to |queue|
        invariant added == Min(i, ChunkSize(queue))
        invariant elements == Flatten(queue[..added]) && |elements| == added * length
      {
        if |elements| + length <= 253 {
          assert added == i;
          assert queue[..i + 1][..i] == queue[..i];
          elements := elements + queue[i];
          added := added + 1;
        }
      }
      queue := queue[added..];
      return Some([added] + [length] + elements);
    }
  }
}
