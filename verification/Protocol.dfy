/**
 The protocol between device and client: with an honest client the device obtains exactly
 the preimage or the leaf hash it asked for; with any client, what it accepts is right.
 */
module Protocol {
  import opened Wrappers
  import opened Bytes
  import opened MerkleShape
  import opened Merkle
  import opened ClientCommands
  import Device = DeviceRequests
  import Varint

  // ---- the client's queue ----

  /** The client's responses to GET_MORE_ELEMENTS until its queue is empty. */
  function MoreResponses(queue: seq<Bytes>): seq<Bytes>
    requires |queue| == 0 || Uniform(queue)
    decreases |queue|
  {
    if |queue| == 0 then []
    else [MoreAnswer(queue).response] + MoreResponses(MoreAnswer(queue).queue)
  }

  /** What remains in the queue is again of one length, and the responses continue with it. */
  lemma MoreResponsesStep(queue: seq<Bytes>)
    requires Uniform(queue)
    ensures var answer := MoreAnswer(queue);
            && |answer.queue| < |queue|
            && (|answer.queue| == 0 || Uniform(answer.queue))
            && MoreResponses(queue) == [answer.response] + MoreResponses(answer.queue)
  {}

  // ---- the device reassembles what was split ----

  /** One response to GET_MORE_ELEMENTS, as the device parses it. */
  lemma MorePayloadOf(queue: seq<Bytes>, want: nat)
    requires Uniform(queue)
    ensures var n := ChunkSize(queue);
            Device.MorePayload(MoreAnswer(queue).response, |queue[0]|, want) == if n <= want then Some((n, Flatten(queue[..n]))) else None
  {
    var n, length := ChunkSize(queue), |queue[0]|;
    FlattenLength(queue[..n], length);
    var b := MoreAnswer(queue).response;
    assert b[2..2 + n * length] == Flatten(queue[..n]);
  }

  lemma {:induction false} PiecesOfFlatten(parts: seq<Digest>, n: nat)
    requires n <= |parts|
    ensures 32 * n <= |Flatten(parts)|
    ensures Device.Pieces(Flatten(parts), n) == parts[..n]
  {
    FlattenLength(parts, 32);
    if n > 0 {
      PiecesOfFlatten(parts, n - 1);
      FlattenSlice(parts, 32, n - 1);
    }
  }

  lemma CollectProofStep(r: Bytes, more: seq<Bytes>, want: nat, n: nat, payload: Bytes, rest: seq<Digest>)
    requires 0 < want && Device.MorePayload(r, 32, want) == Some((n, payload))
    requires Device.CollectProof(more, want - n) == Some(rest)
    ensures Device.CollectProof([r] + more, want) == Some(Device.Pieces(payload, n) + rest)
  {
    assert ([r] + more)[1..] == more;
  }

  lemma CollectBytesStep(r: Bytes, more: seq<Bytes>, want: nat, n: nat, payload: Bytes, rest: Bytes)
    requires 0 < want && Device.MorePayload(r, 1, want) == Some((n, payload))
    requires Device.CollectBytes(more, want - n) == Some(rest)
    ensures Device.CollectBytes([r] + more, want) == Some(payload + rest)
  {
    assert ([r] + more)[1..] == more;
  }

  lemma ClaimedProofStep(b: Bytes, more: seq<Bytes>, n: nat, rest: seq<Digest>)
    requires |b| >= 34 && b[33] == n <= b[32] && |b| - 34 >= 32 * n
    requires Device.CollectProof(more, b[32] - n) == Some(rest)
    ensures Device.ClaimedProof([b] + more) == Some((b[..32], Device.Pieces(b[34..], n) + rest))
  {
    assert ([b] + more)[1..] == more;
  }

  lemma ClaimedPreimageStep(b: Bytes, more: seq<Bytes>, len: nat, k: nat, n: nat, rest: Bytes)
    requires Varint.Read(b) == Some((len, k)) && |b| >= k + 1 + n && b[k] == n && n <= len && 1 <= len < Device.U32
    requires Device.CollectBytes(more, len - n) == Some(rest)
    ensures Device.ClaimedPreimage([b] + more) == Some(b[k + 1..k + 1 + n] + rest)
  {
    assert ([b] + more)[1..] == more;
  }

  lemma {:induction false} ProofReassembled(queue: seq<Digest>)
    ensures |queue| > 0 ==> Uniform(queue)
    ensures Device.CollectProof(MoreResponses(queue), |queue|) == Some(queue)
    decreases |queue|
  {
    if |queue| > 0 {
      var n := ChunkSize(queue);
      MorePayloadOf(queue, |queue|);
      PiecesOfFlatten(queue[..n], n);
      assert queue[..n][..n] == queue[..n];
      ProofReassembled(queue[n..]);
      CollectProofStep(MoreAnswer(queue).response, MoreResponses(queue[n..]), |queue|, n, Flatten(queue[..n]), queue[n..]);
      assert queue == queue[..n] + queue[n..];
    }
  }

  lemma {:induction false} FlattenSingles(b: Bytes)
    ensures Flatten(Singles(b)) == b
    decreases |b|
  {
    if |b| > 0 {
      var last := |b| - 1;
      FlattenSingles(b[..last]);
      assert Singles(b)[..last] == Singles(b[..last]);
    }
  }

  lemma {:induction false} BytesReassembled(b: Bytes)
    ensures |b| > 0 ==> Uniform(Singles(b))
    ensures Device.CollectBytes(MoreResponses(Singles(b)), |b|) == Some(b)
    decreases |b|
  {
    if |b| > 0 {
      var queue := Singles(b);
      var n := ChunkSize(queue);
      MorePayloadOf(queue, |b|);
      assert queue[..n] == Singles(b[..n]) && queue[n..] == Singles(b[n..]);
      FlattenSingles(b[..n]);
      BytesReassembled(b[n..]);
      CollectBytesStep(MoreAnswer(queue).response, MoreResponses(queue[n..]), |b|, n, b[..n], b[n..]);
      assert b == b[..n] + b[n..];
    }
  }

  // ---- an honest client ----

  /** All responses of an honest client to a request for a leaf. */
  ghost function LeafResponses(sha: Sha, leaves: seq<Digest>, index: nat): seq<Bytes>
    requires index < |leaves| <= MAX_LEAVES
  {
    var answer := LeafProofAnswer(sha, leaves, index);
    ProofIsShort(sha, leaves, index);
    var proof := Proof(CombineHashes(sha), leaves, index);
    assert answer.queue == proof[Min(PROOF_ELEMENTS, |proof|)..];
    [answer.response] + MoreResponses(answer.queue)
  }

  lemma LeafClaimed(leaf: Digest, proof: seq<Digest>)
    requires |proof| < 256
    ensures var answer := ProofAnswer(leaf, proof);
            && (|answer.queue| == 0 || Uniform(answer.queue))
            && Device.ClaimedProof([answer.response] + MoreResponses(answer.queue)) == Some((leaf, proof))
  {
    var answer := ProofAnswer(leaf, proof);
    var n := Min(PROOF_ELEMENTS, |proof|);
    var b := answer.response;
    PiecesOfFlatten(proof[..n], n);
    assert proof[..n][..n] == proof[..n];
    FlattenLength(proof[..n], 32);
    ProofReassembled(proof[n..]);
    ProofSegments(leaf, |proof|, n, Flatten(proof[..n]));
    ClaimedProofStep(b, MoreResponses(proof[n..]), n, proof[n..]);
    assert proof == proof[..n] + proof[n..];
  }

  lemma ProofSegments(leaf: Digest, m: byte, n: byte, body: Bytes)
    ensures var b := leaf + [m] + [n] + body;
            |b| == 34 + |body| && b[..32] == leaf && b[32] == m && b[33] == n && b[34..] == body
  {}

  /** Completeness: the device accepts the honest responses and obtains the leaf at the index. */
  lemma HonestLeafAccepted(sha: Sha, leaves: seq<Digest>, index: nat)
    requires index < |leaves| <= MAX_LEAVES
    ensures Device.LeafHashOutcome(sha, Root(CombineHashes(sha), leaves), |leaves|, index, LeafResponses(sha, leaves, index))
            == Some(leaves[index])
  {
    var proof := Proof(CombineHashes(sha), leaves, index);
    ProofIsShort(sha, leaves, index);
    LeafClaimed(leaves[index], proof);
    ProofReachesRoot(CombineHashes(sha), leaves, index);
    var path := Device.PathOf(|leaves|, index);
    assert path[..|proof|] == path;
  }

  /** All responses of an honest client to a request for a preimage. */
  function PreimageResponses(preimage: Bytes): seq<Bytes>
    requires |preimage| < Varint.U64
  {
    var answer := PreimageAnswer([], preimage);
    assert answer.queue == Singles(preimage[PayloadSize(preimage)..]);
    [answer.response] + MoreResponses(answer.queue)
  }

  /**
   The device obtains exactly the preimage from an honest client if and only if its length is not zero and
   fits 32 bits.
   */
  lemma HonestPreimageAcceptedIff(sha: Sha, preimage: Bytes)
    requires |preimage| < Varint.U64
    ensures Device.PreimageOutcome(sha, sha(preimage), PreimageResponses(preimage)) == Some(preimage)
       <==> 1 <= |preimage| < Device.U32
  {
    if 1 <= |preimage| < Device.U32 {
      HonestPreimageClaimed(preimage);
    } else {
      WrongLengthNotClaimed(preimage);
    }
  }

  /** The data that the device collects has the length of the preimage, in 32 bits. */
  lemma WrongLengthNotClaimed(preimage: Bytes)
    requires |preimage| < Varint.U64 && (|preimage| == 0 || |preimage| >= Device.U32)
    ensures Device.ClaimedPreimage(PreimageResponses(preimage)) != Some(preimage)
  {
    var b, k, front, rest := PreimageParts(preimage);
    var responses := PreimageResponses(preimage);
    assert responses[0] == b && responses[1..] == MoreResponses(Singles(rest));
    var len, n := |preimage| % Device.U32, |front|;
    if 1 <= len && n <= len {
      Device.CollectedBytesLength(responses[1..], len - n);
    }
  }

  /** The empty preimage is refused, although the client answers correctly. */
  lemma EmptyPreimageRefused(sha: Sha)
    ensures Device.PreimageOutcome(sha, sha([]), PreimageResponses([])) == None
  {
    var b, k, front, rest := PreimageParts([]);
    assert PreimageResponses([])[0] == b;
  }

  lemma HonestPreimageClaimed(preimage: Bytes)
    requires 1 <= |preimage| < Device.U32
    ensures Device.ClaimedPreimage(PreimageResponses(preimage)) == Some(preimage)
  {
    var b, k, front, rest := PreimageParts(preimage);
    PreimageClaimed(front, rest, b, k);
  }

  /** The first response with its header and its part of the preimage, and the part that follows. */
  lemma PreimageParts(preimage: Bytes) returns (b: Bytes, k: nat, front: Bytes, rest: Bytes)
    requires |preimage| < Varint.U64
    ensures front + rest == preimage && |b| == k + 1 + |front|
    ensures Varint.Read(b) == Some((|preimage|, k)) && b[k] == |front| && b[k + 1..] == front
    ensures |rest| > 0 ==> Uniform(Singles(rest))
    ensures PreimageResponses(preimage) == [b] + MoreResponses(Singles(rest))
  {
    var n := PayloadSize(preimage);
    PreimageHeader(preimage);
    PreimageQueue(preimage);
    TakeDrop(preimage, n);
    b, k, front, rest := PreimageAnswer([], preimage).response, |Varint.Write(|preimage|)|, preimage[..n], preimage[n..];
    BytesReassembled(rest);
  }

  lemma TakeDrop(s: Bytes, n: nat)
    requires n <= |s|
    ensures s[..n] + s[n..] == s
  {}

  lemma PreimageQueue(preimage: Bytes)
    requires |preimage| < Varint.U64
    ensures PreimageAnswer([], preimage).queue == Singles(preimage[PayloadSize(preimage)..])
  {}

  lemma PreimageClaimed(front: Bytes, rest: Bytes, b: Bytes, k: nat)
    requires 1 <= |front| + |rest| < Device.U32 && |b| == k + 1 + |front|
    requires Varint.Read(b) == Some((|front| + |rest|, k)) && b[k] == |front| && b[k + 1..] == front
    ensures |rest| > 0 ==> Uniform(Singles(rest))
    ensures Device.ClaimedPreimage([b] + MoreResponses(Singles(rest))) == Some(front + rest)
  {
    BytesReassembled(rest);
    assert b[k + 1..k + 1 + |front|] == front;
    ClaimedPreimageStep(b, MoreResponses(Singles(rest)), |front| + |rest|, k, |front|, rest);
  }

  /** The first response, as the device parses it. */
  lemma PreimageHeader(preimage: Bytes)
    requires |preimage| < Varint.U64
    ensures var n, b, k := PayloadSize(preimage), PreimageAnswer([], preimage).response, |Varint.Write(|preimage|)|;
            && Varint.Read(b) == Some((|preimage|, k))
            && |b| == k + 1 + n
            && b[k] == n
            && b[k + 1..] == preimage[..n]
  {
    var n, w := PayloadSize(preimage), Varint.Write(|preimage|);
    Varint.RoundTrip(|preimage|, [n] + preimage[..n]);
    Segments(w, n, preimage[..n]);
  }

  lemma Segments(w: Bytes, n: byte, body: Bytes)
    ensures var b := w + [n] + body;
            b == w + ([n] + body) && |b| == |w| + 1 + |body| && b[|w|] == n && b[|w| + 1..] == body
  {}

  // ---- any client ----

  /**
   Soundness: whatever the responses, a hash that the device accepts for a tree is the value of
   a node on the path to the index, at a depth equal to the length of the claimed proof, unless
   the responses exhibit a collision. It is the leaf when the proof has full length.
   */
  lemma AcceptedHashIsOnPath(sha: Sha, leaves: seq<Digest>, index: nat, responses: seq<Bytes>)
    requires index < |leaves|
    requires Device.LeafHashOutcome(sha, Root(CombineHashes(sha), leaves), |leaves|, index, responses).Some?
    ensures var combine, t, dirs := CombineHashes(sha), Build(leaves), Directions(|leaves|, index);
            var (leaf, proof) := Device.ClaimedProof(responses).value;
            var m := |proof|;
            && m <= |dirs|
            && IsPath(t, dirs[..m])
            && (leaf == Value(combine, At(t, dirs[..m])) || Collision(combine, Culprit(combine, t, leaf, proof, dirs[..m])))
            && (m == |dirs| ==> At(t, dirs[..m]) == Leaf(leaves[index]))
  {
    var combine, t, dirs := CombineHashes(sha), Build(leaves), Directions(|leaves|, index);
    var (leaf, proof) := Device.ClaimedProof(responses).value;
    DirectionsLeadToLeaf(leaves, index);
    PathPrefix(t, dirs, |proof|);
    FoldDeterminesNode(combine, t, leaf, proof, dirs[..|proof|]);
    if |proof| == |dirs| {
      assert dirs[..|proof|] == dirs;
    }
  }

  /**
   Conversely, the node at every depth on the path is accepted, with the siblings above it as the
   proof: the device does not require the proof to reach down to a leaf.
   */
  lemma EveryNodeOnPathAccepted(sha: Sha, leaves: seq<Digest>, index: nat, m: nat)
    requires index < |leaves| && m <= |Directions(|leaves|, index)|
    ensures var t, dirs := Build(leaves), Directions(|leaves|, index)[..m];
            && IsPath(t, dirs)
            && Device.Accepts(sha, Root(CombineHashes(sha), leaves), |leaves|, index,
                              Value(CombineHashes(sha), At(t, dirs)), Siblings(CombineHashes(sha), t, dirs))
  {
    DirectionsLeadToLeaf(leaves, index);
    PathPrefix(Build(leaves), Directions(|leaves|, index), m);
    SiblingsReachRoot(CombineHashes(sha), Build(leaves), Directions(|leaves|, index)[..m]);
  }

  /** A collision of node hashes is a collision of SHA-256. */
  lemma NodeCollisionIsShaCollision(sha: Sha, pairs: ((Digest, Digest), (Digest, Digest)))
    requires Collision(CombineHashes(sha), pairs)
    ensures var x, y := [1] + pairs.0.0 + pairs.0.1, [1] + pairs.1.0 + pairs.1.1;
            x != y && sha(x) == sha(y)
  {
    var x, y := [1] + pairs.0.0 + pairs.0.1, [1] + pairs.1.0 + pairs.1.1;
    assert x[1..33] == pairs.0.0 && x[33..] == pairs.0.1;
    assert y[1..33] == pairs.1.0 && y[33..] == pairs.1.1;
  }

  // ---- both sides together: leaf hashes ----

  /**
   A request for a leaf is under way: some of the proof has reached the device, the rest is in the client's
   queue, and with it the device will obtain the leaf. When the device is done, the queue is empty.
   */
  ghost predicate LeafUnderway(sha: Sha, root: Digest, path: seq<int>, s: Device.LeafState, proof: seq<Digest>,
                               leaf: Digest, whole: seq<Digest>, queue: seq<Bytes>)
  {
    && (|queue| == 0 || Uniform(queue))
    && Device.LeafTracks(sha, path, s, proof)
    && Device.LeafResume(sha, root, path, s, proof, MoreResponses(queue)) == Some(leaf)
    && (if s.MoreProof? then s.proofSize == |whole| && proof + queue == whole else queue == [])
  }

  /** The elements in the first response. */
  lemma FirstElements(leaf: Digest, whole: seq<Digest>, n: nat)
    requires |whole| < 256 && n == Min(PROOF_ELEMENTS, |whole|)
    ensures var b := ProofAnswer(leaf, whole).response;
            |b| == 34 + 32 * n && b[32] == |whole| && b[33] == n && Device.Pieces(b[34..], n) == whole[..n]
  {
    FlattenLength(whole[..n], 32);
    ProofSegments(leaf, |whole|, n, Flatten(whole[..n]));
    PiecesOfFlatten(whole[..n], n);
    assert whole[..n][..n] == whole[..n];
  }

  /** The client's queue after its first response. */
  lemma LeafAnswered(sha: Sha, leaves: seq<Digest>, index: nat)
    requires index < |leaves| <= MAX_LEAVES
    ensures var answer := LeafProofAnswer(sha, leaves, index);
            && (|answer.queue| == 0 || Uniform(answer.queue))
            && Device.LeafHashOutcome(sha, Root(CombineHashes(sha), leaves), |leaves|, index, [answer.response] + MoreResponses(answer.queue))
               == Some(leaves[index])
  {
    ProofIsShort(sha, leaves, index);
    LeafClaimed(leaves[index], Proof(CombineHashes(sha), leaves, index));
    HonestLeafAccepted(sha, leaves, index);
  }

  /** After the first response of an honest client. */
  lemma LeafBegins(sha: Sha, leaves: seq<Digest>, index: nat, s: Device.LeafState, proof: seq<Digest>, answer: Answer)
    requires index < |leaves| <= MAX_LEAVES && answer == LeafProofAnswer(sha, leaves, index)
    requires |answer.queue| == 0 || Uniform(answer.queue)
    requires Device.LeafTracks(sha, Device.PathOf(|leaves|, index), s, proof)
    requires Device.LeafResume(sha, Root(CombineHashes(sha), leaves), Device.PathOf(|leaves|, index), s, proof, MoreResponses(answer.queue))
             == Some(leaves[index])
    requires s == Device.LeafDone(None) || Device.StartedWith(answer.response, s, proof)
    ensures LeafUnderway(sha, Root(CombineHashes(sha), leaves), Device.PathOf(|leaves|, index), s, proof, leaves[index],
                         Proof(CombineHashes(sha), leaves, index), answer.queue)
  {
    var whole := Proof(CombineHashes(sha), leaves, index);
    ProofIsShort(sha, leaves, index);
    var n := Min(PROOF_ELEMENTS, |whole|);
    FirstElements(leaves[index], whole, n);
    assert whole == whole[..n] + whole[n..];
  }

  /** A device that wants more of the proof finds it in the queue. */
  lemma LeafAsks(sha: Sha, root: Digest, path: seq<int>, s: Device.LeafState, proof: seq<Digest>,
                 leaf: Digest, whole: seq<Digest>, queue: seq<Bytes>)
    requires LeafUnderway(sha, root, path, s, proof, leaf, whole, queue) && s.MoreProof?
    ensures Uniform(queue)
    ensures var answer := MoreAnswer(queue);
            && |answer.queue| < |queue|
            && (|answer.queue| == 0 || Uniform(answer.queue))
            && MoreResponses(queue) == [answer.response] + MoreResponses(answer.queue)
  {
    assert |queue| > 0;
    MoreResponsesStep(queue);
  }

  /** The elements of a response move from the queue to the device. */
  lemma LeafMore(whole: seq<Digest>, proof: seq<Digest>, queue: seq<Bytes>, more: seq<Digest>)
    requires proof + queue == whole && Uniform(queue)
    requires match Device.MorePayload(MoreAnswer(queue).response, 32, |whole| - |proof|)
             case None => true
             case Some((n, payload)) => more == proof + Device.Pieces(payload, n)
    ensures more + MoreAnswer(queue).queue == whole
  {
    var n := ChunkSize(queue);
    var rest: seq<Digest> := whole[|proof|..];
    assert rest == queue;
    MorePayloadOf(queue, |rest|);
    PiecesOfFlatten(rest[..n], n);
    assert rest[..n][..n] == rest[..n];
    assert rest == rest[..n] + rest[n..];
  }

  lemma LeafGoesOn(sha: Sha, root: Digest, path: seq<int>, s: Device.LeafState, proof: seq<Digest>, leaf: Digest, whole: seq<Digest>,
                   queue: seq<Bytes>, t: Device.LeafState, more: seq<Digest>)
    requires LeafUnderway(sha, root, path, s, proof, leaf, whole, queue) && s.MoreProof? && Uniform(queue)
    requires Device.LeafTracks(sha, path, t, more) && Device.LeafContinues(s, proof, MoreAnswer(queue).response, t, more)
    requires |MoreAnswer(queue).queue| == 0 || Uniform(MoreAnswer(queue).queue)
    requires Device.LeafResume(sha, root, path, t, more, MoreResponses(MoreAnswer(queue).queue)) == Some(leaf)
    ensures LeafUnderway(sha, root, path, t, more, leaf, whole, MoreAnswer(queue).queue)
  {
    LeafMore(whole, proof, queue, more);
  }

  /** The device asks the Python client for a leaf of a tree the client knows; the client's queue is used up. */
  method FetchLeafFromPython(client: PythonInterpreter, root: Digest, size: nat, index: nat) returns (r: Option<Digest>)
    requires client.Valid() && client.queue == []
    modifies client`queue
    ensures client.Valid() && client.queue == []
    ensures r == if root in client.trees && index < size == |client.trees[root]|
                 then Some(client.trees[root][index]) else None
  {
    var first := client.GetMerkleLeafProof(root, size, index);
    if first.None? {
      return None;
    }
    ghost var leaves, path := client.trees[root], Device.PathOf(size, index);
    ghost var leaf, whole := leaves[index], Proof(CombineHashes(client.sha), leaves, index);
    LeafAnswered(client.sha, leaves, index);
    var s, proof := Device.StartLeaf(client.sha, root, size, index, first.value, MoreResponses(client.queue));
    LeafBegins(client.sha, leaves, index, s, proof, Answer(first.value, client.queue));
    while s.MoreProof?
      invariant client.Valid() && LeafUnderway(client.sha, root, path, s, proof, leaf, whole, client.queue)
      decreases |client.queue|, s.MoreProof?
    {
      LeafAsks(client.sha, root, path, s, proof, leaf, whole, client.queue);
      ghost var queue := client.queue;
      var next := client.GetMoreElements();
      var t, more := Device.ContinueLeaf(client.sha, root, size, index, s, proof, next.value, MoreResponses(client.queue));
      LeafGoesOn(client.sha, root, path, s, proof, leaf, whole, queue, t, more);
      s, proof := t, more;
    }
    r := s.result;
  }

  /** The same with the Rust client. */
  method FetchLeafFromRust(client: RustInterpreter, root: Digest, size: nat, index: nat) returns (r: Option<Digest>)
    requires client.Valid() && client.queue == []
    modifies client`queue
    ensures client.Valid() && client.queue == []
    ensures r == match FindTree(client.sha, client.trees, root)
                 case Some(leaves) => if index < size == |leaves| then Some(leaves[index]) else None
                 case None => None
  {
    if FindTree(client.sha, client.trees, root).Some? {
      FoundTreeHasRoot(client.sha, client.trees, root);
    }
    var first := client.GetMerkleLeafProof(root, size, index);
    if first.None? {
      return None;
    }
    ghost var leaves, path := FindTree(client.sha, client.trees, root).value, Device.PathOf(size, index);
    ghost var leaf, whole := leaves[index], Proof(CombineHashes(client.sha), leaves, index);
    LeafAnswered(client.sha, leaves, index);
    var s, proof := Device.StartLeaf(client.sha, root, size, index, first.value, MoreResponses(client.queue));
    LeafBegins(client.sha, leaves, index, s, proof, Answer(first.value, client.queue));
    while s.MoreProof?
      invariant client.Valid() && LeafUnderway(client.sha, root, path, s, proof, leaf, whole, client.queue)
      decreases |client.queue|, s.MoreProof?
    {
      LeafAsks(client.sha, root, path, s, proof, leaf, whole, client.queue);
      ghost var queue := client.queue;
      var next := client.GetMoreElements();
      var t, more := Device.ContinueLeaf(client.sha, root, size, index, s, proof, next.value, MoreResponses(client.queue));
      LeafGoesOn(client.sha, root, path, s, proof, leaf, whole, queue, t, more);
      s, proof := t, more;
    }
    r := s.result;
  }

  lemma {:induction false} FoundTreeHasRoot(sha: Sha, trees: seq<seq<Digest>>, root: Digest)
    requires forall i :: 0 <= i < |trees| ==> 0 < |trees[i]| <= MAX_LEAVES
    requires FindTree(sha, trees, root).Some?
    ensures var leaves := FindTree(sha, trees, root).value;
            0 < |leaves| <= MAX_LEAVES && Root(CombineHashes(sha), leaves) == root
  {
    if Root(CombineHashes(sha), trees[0]) != root {
      FoundTreeHasRoot(sha, trees[1..], root);
    }
  }

  // ---- both sides together: preimages ----

  /**
   A request for a preimage is under way: the device has its first `sent` bytes and the client's queue the
   others. An honest client is refused only where the length is zero or does not fit 32 bits.
   */
  ghost predicate PreimageUnderway(sha: Sha, hash: Digest, preimage: Bytes, sent: nat, s: Device.PreimageState, queue: seq<Bytes>) {
    && sent <= |preimage| && queue == Singles(preimage[sent..])
    && var len := |preimage| % Device.U32;
       match s
       case MoreBytes(n, data) => n == len && sent < len && data == preimage[..sent]
       case Obtained(data) => sent == len && len >= 1 && data == preimage[..sent] && sha(data) == hash
       case Refused => if |preimage| < Device.U32 then |preimage| == 0 else sent < |preimage|
  }

  lemma PreimageSettles(sha: Sha, hash: Digest, preimage: Bytes, sent: nat)
    requires sha(preimage) == hash && sent <= |preimage| && 1 <= sent <= |preimage| % Device.U32
    ensures PreimageUnderway(sha, hash, preimage, sent, Device.Settle(sha, hash, |preimage| % Device.U32, preimage[..sent]),
                             Singles(preimage[sent..]))
  {
    if sent == |preimage| {
      assert preimage[..sent] == preimage;
    }
  }

  lemma StartsWith(sha: Sha, hash: Digest, b: Bytes, length: nat, k: nat, front: Bytes)
    requires Varint.Read(b) == Some((length, k)) && |b| == k + 1 + |front| && b[k] == |front| && b[k + 1..] == front
    ensures var len := length % Device.U32;
            Device.StartState(sha, hash, b) == if len < 1 || |front| > len then Device.Refused else Device.Settle(sha, hash, len, front)
  {
    assert b[k + 1..k + 1 + |front|] == front;
  }

  lemma PreimageStarts(sha: Sha, hash: Digest, preimage: Bytes, n: nat)
    requires sha(preimage) == hash && n <= |preimage| && (n == 0 ==> |preimage| == 0) && (|preimage| >= Device.U32 ==> n < |preimage|)
    ensures var len := |preimage| % Device.U32;
            PreimageUnderway(sha, hash, preimage, n,
                             if len < 1 || n > len then Device.Refused else Device.Settle(sha, hash, len, preimage[..n]), Singles(preimage[n..]))
  {
    if 1 <= |preimage| % Device.U32 && n <= |preimage| % Device.U32 {
      PreimageSettles(sha, hash, preimage, n);
    }
  }

  lemma PreimageBegins(sha: Sha, hash: Digest, preimage: Bytes)
    requires sha(preimage) == hash && |preimage| < Varint.U64
    ensures var answer := PreimageAnswer([], preimage);
            PreimageUnderway(sha, hash, preimage, PayloadSize(preimage), Device.StartState(sha, hash, answer.response), answer.queue)
  {
    var n := PayloadSize(preimage);
    PreimageHeader(preimage);
    PreimageQueue(preimage);
    StartsWith(sha, hash, PreimageAnswer([], preimage).response, |preimage|, |Varint.Write(|preimage|)|, preimage[..n]);
    PreimageStarts(sha, hash, preimage, n);
  }

  lemma SinglesTaken(preimage: Bytes, sent: nat, n: nat)
    requires sent + n <= |preimage|
    ensures Singles(preimage[sent..])[..n] == Singles(preimage[sent..sent + n])
    ensures Singles(preimage[sent..])[n..] == Singles(preimage[sent + n..])
    ensures preimage[..sent] + preimage[sent..sent + n] == preimage[..sent + n]
  {}

  /** A response that sends more bytes, as the device parses it. */
  lemma BytesTaken(preimage: Bytes, sent: nat, want: nat) returns (n: nat)
    requires sent < |preimage|
    ensures Uniform(Singles(preimage[sent..])) && 1 <= n <= 253 && sent + n <= |preimage|
    ensures var answer := MoreAnswer(Singles(preimage[sent..]));
            && answer.queue == Singles(preimage[sent + n..])
            && Device.MorePayload(answer.response, 1, want) == if n <= want then Some((n, preimage[sent..sent + n])) else None
    ensures preimage[..sent] + preimage[sent..sent + n] == preimage[..sent + n]
  {
    var queue := Singles(preimage[sent..]);
    assert forall i :: 0 <= i < |queue| ==> |queue[i]| == 1;
    n := ChunkSize(queue);
    MorePayloadOf(queue, want);
    SinglesTaken(preimage, sent, n);
    FlattenSingles(preimage[sent..sent + n]);
  }

  /** A response to GET_MORE_ELEMENTS is always found, and moves bytes from the queue to the device. */
  lemma PreimageGoesOn(sha: Sha, hash: Digest, preimage: Bytes, sent: nat, s: Device.PreimageState, queue: seq<Bytes>) returns (n: nat)
    requires sha(preimage) == hash && PreimageUnderway(sha, hash, preimage, sent, s, queue) && s.MoreBytes?
    ensures Uniform(queue) && n >= 1
    ensures PreimageUnderway(sha, hash, preimage, sent + n, Device.NextState(sha, hash, s, MoreAnswer(queue).response), MoreAnswer(queue).queue)
  {
    n := BytesTaken(preimage, sent, s.len - sent);
    if n <= s.len - sent {
      PreimageSettles(sha, hash, preimage, sent + n);
    }
  }

  /**
   What the device returns for a preimage of an honest client. All of the queue has been asked for exactly if
   the length of the preimage fits 32 bits. A longer preimage is not obtained; a result that is not an error
   would be the length of a part of it with the same hash.
   */
  ghost predicate PreimageFetched(sha: Sha, preimage: Bytes, limit: nat, r: int, out: Bytes, queue: seq<Bytes>) {
    && (queue == [] <==> |preimage| < Device.U32)
    && (|preimage| == 0 ==> r < 0)
    && (1 <= |preimage| < Device.U32 ==> r == Device.ReturnedLength(|preimage|) && (|preimage| <= limit ==> out == preimage))
    && (|preimage| >= Device.U32 && r >= 0 ==> r == |preimage| % Device.U32 && sha(preimage[..r]) == sha(preimage))
  }

  lemma PreimageEnds(sha: Sha, hash: Digest, preimage: Bytes, sent: nat, s: Device.PreimageState, queue: seq<Bytes>, limit: nat, out: Bytes)
    requires sha(preimage) == hash && PreimageUnderway(sha, hash, preimage, sent, s, queue) && !s.MoreBytes?
    requires Device.Buffered(s, limit, out)
    ensures PreimageFetched(sha, preimage, limit, Device.ReturnCode(s), out, queue)
  {
    assert |queue| == |preimage| - sent;
    if s.Obtained? && |preimage| < Device.U32 {
      assert preimage[..sent] == preimage;
    }
  }

  /** The device's loop for more bytes, with the Python client at the other end. */
  method AskPreimageFromPython(client: PythonInterpreter, hash: Digest, limit: nat, ghost preimage: Bytes, ghost sent0: nat,
                              s0: Device.PreimageState, out0: Bytes) returns (r: int, out: Bytes)
    requires client.Valid() && client.sha(preimage) == hash
    requires PreimageUnderway(client.sha, hash, preimage, sent0, s0, client.queue) && Device.Buffered(s0, limit, out0)
    modifies client`queue
    ensures client.Valid() && PreimageFetched(client.sha, preimage, limit, r, out, client.queue)
  {
    ghost var sent := sent0;
    var s := s0;
    out := out0;
    while s.MoreBytes?
      invariant client.Valid() && PreimageUnderway(client.sha, hash, preimage, sent, s, client.queue) && Device.Buffered(s, limit, out)
      decreases |preimage| - sent
    {
      ghost var n := PreimageGoesOn(client.sha, hash, preimage, sent, s, client.queue);
      var next := client.GetMoreElements();
      s, out := Device.ContinuePreimage(client.sha, hash, limit, s, out, next.value);
      sent := sent + n;
    }
    PreimageEnds(client.sha, hash, preimage, sent, s, client.queue, limit, out);
    r := Device.ReturnCode(s);
  }

  /** The device asks the Python client for a preimage the client knows. */
  method FetchPreimageFromPython(client: PythonInterpreter, hash: Digest, limit: nat) returns (r: int, out: Bytes)
    requires client.Valid() && client.queue == []
    modifies client`queue
    ensures client.Valid()
    ensures if hash in client.preimages then PreimageFetched(client.sha, client.preimages[hash], limit, r, out, client.queue)
            else r < 0 && client.queue == []
  {
    var first := client.GetPreimage(hash);
    if first.None? {
      return -1, [];
    }
    ghost var preimage := client.preimages[hash];
    PreimageBegins(client.sha, hash, preimage);
    var s;
    s, out := Device.StartPreimage(client.sha, hash, limit, first.value);
    r, out := AskPreimageFromPython(client, hash, limit, preimage, PayloadSize(preimage), s, out);
  }

  /** The device's loop for more bytes, with the Rust client at the other end. */
  method AskPreimageFromRust(client: RustInterpreter, hash: Digest, limit: nat, ghost preimage: Bytes, ghost sent0: nat,
                              s0: Device.PreimageState, out0: Bytes) returns (r: int, out: Bytes)
    requires client.Valid() && client.sha(preimage) == hash
    requires PreimageUnderway(client.sha, hash, preimage, sent0, s0, client.queue) && Device.Buffered(s0, limit, out0)
    modifies client`queue
    ensures client.Valid() && PreimageFetched(client.sha, preimage, limit, r, out, client.queue)
  {
    ghost var sent := sent0;
    var s := s0;
    out := out0;
    while s.MoreBytes?
      invariant client.Valid() && PreimageUnderway(client.sha, hash, preimage, sent, s, client.queue) && Device.Buffered(s, limit, out)
      decreases |preimage| - sent
    {
      ghost var n := PreimageGoesOn(client.sha, hash, preimage, sent, s, client.queue);
      var next := client.GetMoreElements();
      s, out := Device.ContinuePreimage(client.sha, hash, limit, s, out, next.value);
      sent := sent + n;
    }
    PreimageEnds(client.sha, hash, preimage, sent, s, client.queue, limit, out);
    r := Device.ReturnCode(s);
  }

  /** The device asks the Rust client for a preimage the client knows. */
  method FetchPreimageFromRust(client: RustInterpreter, hash: Digest, limit: nat) returns (r: int, out: Bytes)
    requires client.Valid() && client.queue == []
    modifies client`queue
    ensures client.Valid()
    ensures match FindPreimage(client.preimages, hash)
            case Some(preimage) => PreimageFetched(client.sha, preimage, limit, r, out, client.queue)
            case None => r < 0 && client.queue == []
  {
    var first := client.GetPreimage(hash);
    if first.None? {
      return -1, [];
    }
    ghost var preimage := FindPreimage(client.preimages, hash).value;
    FoundPreimageHashes(client.sha, client.preimages, hash);
    PreimageBegins(client.sha, hash, preimage);
    var s;
    s, out := Device.StartPreimage(client.sha, hash, limit, first.value);
    r, out := AskPreimageFromRust(client, hash, limit, preimage, PayloadSize(preimage), s, out);
  }

  lemma {:induction false} FoundPreimageHashes(sha: Sha, preimages: seq<(Digest, Bytes)>, hash: Digest)
    requires forall i :: 0 <= i < |preimages| ==> sha(preimages[i].1) == preimages[i].0
    requires FindPreimage(preimages, hash).Some?
    ensures sha(FindPreimage(preimages, hash).value) == hash
  {
    if preimages[0].0 != hash {
      FoundPreimageHashes(sha, preimages[1..], hash);
    }
  }
}
