/**
 The device's side of the protocol: fetching a preimage and fetching a verified leaf hash.

 `responses` are the messages the client sends, in order, whatever the client does. Running
 out of responses is a failed interruption.
 */
module DeviceRequests {
  import opened Wrappers
  import opened Bytes
  import opened MerkleShape
  import opened Merkle
  import Varint

  // ---- GET_MORE_ELEMENTS ----

  /** n consecutive pieces of 32 bytes. */
  function Pieces(b: Bytes, n: nat): (r: seq<Digest>)
    requires 32 * n <= |b|
    ensures |r| == n
    ensures forall i :: 0 <= i < n ==> r[i] == b[32 * i..32 * i + 32]
  {
    if n == 0 then [] else Pieces(b, n - 1) + [b[32 * (n - 1)..32 * (n - 1) + 32]]
  }

  /** The payload of a response to GET_MORE_ELEMENTS; at most `want` elements of the given length. */
  function MorePayload(b: Bytes, length: nat, want: nat): Option<(nat, Bytes)> {
    if |b| < 2 then None
    else
      var n: nat, each: nat := b[0], b[1];
      if |b| - 2 < n * each || each != length || n > want then None
      else Some((n, b[2..2 + n * length]))
  }

  // ---- leaf hashes ----

  /** The directions of a leaf; an index that is out of range has none. */
  ghost function PathOf(size: nat, index: nat): seq<int> {
    if index < size then Directions(size, index) else []
  }

  /** The remaining `want` proof elements, asked for response by response. */
  function CollectProof(responses: seq<Bytes>, want: nat): Option<seq<Digest>>
    decreases |responses|
  {
    if want == 0 then Some([])
    else if |responses| == 0 then None
    else match MorePayload(responses[0], 32, want)
      case None => None
      case Some((n, payload)) =>
        match CollectProof(responses[1..], want - n)
        case None => None
        case Some(rest) => Some(Pieces(payload, n) + rest)
  }

  /** The leaf hash and the whole proof that the client claims. */
  function ClaimedProof(responses: seq<Bytes>): Option<(Digest, seq<Digest>)> {
    if |responses| == 0 || |responses[0]| < 34 then None
    else
      var b := responses[0];
      var proofSize: nat, n: nat := b[32], b[33];
      if n > proofSize || |b| - 34 < 32 * n then None
      else match CollectProof(responses[1..], proofSize - n)
        case None => None
        case Some(rest) => Some((b[..32], Pieces(b[34..], n) + rest))
  }

  /** The device accepts a claim whose proof is not too long and folds to the root. */
  ghost predicate Accepts(sha: Sha, root: Digest, size: nat, index: nat, leaf: Digest, proof: seq<Digest>) {
    var path := PathOf(size, index);
    |proof| <= |path| && Fold(CombineHashes(sha), leaf, proof, path[..|proof|]) == root
  }

  ghost function LeafHashOutcome(sha: Sha, root: Digest, size: nat, index: nat, responses: seq<Bytes>): Option<Digest> {
    match ClaimedProof(responses)
    case None => None
    case Some((leaf, proof)) => if Accepts(sha, root, size, index, leaf, proof) then Some(leaf) else None
  }

  /** A fold in two parts. */
  lemma {:induction false} FoldConcat<D>(combine: (D, D) -> D, cur: D, p1: seq<D>, d1: seq<int>, p2: seq<D>, d2: seq<int>)
    requires |p1| == |d1| && |p2| == |d2|
    ensures Fold(combine, cur, p1 + p2, d2 + d1) == Fold(combine, Fold(combine, cur, p1, d1), p2, d2)
    decreases |p1|
  {
    if |p1| == 0 {
      assert p1 + p2 == p2 && d2 + d1 == d2;
    } else {
      var m := |p1| - 1;
      var next := StepUp(combine, cur, p1[0], d1[m]);
      FoldConcat(combine, next, p1[1..], d1[..m], p2, d2);
      assert (p1 + p2)[1..] == p1[1..] + p2;
      assert (d2 + d1)[..|d2| + m] == d2 + d1[..m];
    }
  }

  /** A fold with one more element at its end. */
  lemma FoldOne<D>(combine: (D, D) -> D, cur: D, proof: seq<D>, path: seq<int>, i: nat, hi: nat, x: D)
    requires i < hi <= |path| && |proof| == hi - i - 1
    ensures Fold(combine, cur, proof + [x], path[i..hi]) == StepUp(combine, Fold(combine, cur, proof, path[i + 1..hi]), x, path[i])
  {
    var all, dirs := proof + [x], path[i..hi];
    FoldTop(combine, cur, all, dirs);
    assert all[..|all| - 1] == proof && dirs[1..] == path[i + 1..hi];
  }

  /**
   Folds the elements of one response into the current hash. Step number `step` uses the
   direction number proofSize - step - 1, computed from the size and the index alone.
   */
  method FoldElements(sha: Sha, size: nat, index: nat, proofSize: nat, step: nat, start: Digest, b: Bytes, n: nat)
    returns (ok: bool, cur: Digest)
    requires Answerable(size, index) && step + n <= proofSize && 32 * n <= |b|
    ensures ok <==> n == 0 || proofSize - step <= |PathOf(size, index)|
    ensures ok && n > 0 ==>
              cur == Fold(CombineHashes(sha), start, Pieces(b, n), PathOf(size, index)[proofSize - step - n..proofSize - step])
    ensures n == 0 ==> cur == start
  {
    ghost var path := PathOf(size, index);
    cur := start;
    for j := 0 to n
      invariant j > 0 ==> proofSize - step <= |path|
      invariant j > 0 ==> cur == Fold(CombineHashes(sha), start, Pieces(b, j), path[proofSize - step - j..proofSize - step])
      invariant j == 0 ==> cur == start
    {
      var sibling: Digest := b[32 * j..32 * j + 32];
      var i := proofSize - (step + j) - 1;
      var direction := GetIthDirection(size, index, i);
      if direction == 0 {
        cur := CombineHashes(sha)(cur, sibling);
      } else if direction == 1 {
        cur := CombineHashes(sha)(sibling, cur);
      } else {
        return false, cur;
      }
      FoldOne(CombineHashes(sha), start, Pieces(b, j), path, i, proofSize - step, sibling);
    }
    ok := true;
  }

  lemma {:induction false} CollectedLength(responses: seq<Bytes>, want: nat)
    ensures CollectProof(responses, want).Some? ==> |CollectProof(responses, want).value| == want
    decreases |responses|
  {
    if want > 0 && |responses| > 0 {
      match MorePayload(responses[0], 32, want)
      case None =>
      case Some((n, _)) => CollectedLength(responses[1..], want - n);
    }
  }

  /** The outcome once some elements of a proof of a claimed size have arrived. */
  ghost function Finish(sha: Sha, root: Digest, path: seq<int>, proofSize: nat, leaf: Digest, proof: seq<Digest>, responses: seq<Bytes>): Option<Digest>
    requires |proof| <= proofSize
  {
    match CollectProof(responses, proofSize - |proof|)
    case None => None
    case Some(rest) =>
      var all := proof + rest;
      if |all| <= |path| && Fold(CombineHashes(sha), leaf, all, path[..|all|]) == root then Some(leaf) else None
  }

  lemma FinishComplete(sha: Sha, root: Digest, path: seq<int>, leaf: Digest, proof: seq<Digest>, responses: seq<Bytes>)
    requires |proof| <= |path|
    ensures Finish(sha, root, path, |proof|, leaf, proof, responses)
            == if Fold(CombineHashes(sha), leaf, proof, path[..|proof|]) == root then Some(leaf) else None
  {
    assert proof + [] == proof;
  }

  lemma FinishTooLong(sha: Sha, root: Digest, path: seq<int>, proofSize: nat, leaf: Digest, proof: seq<Digest>, responses: seq<Bytes>)
    requires |proof| <= proofSize && proofSize > |path|
    ensures Finish(sha, root, path, proofSize, leaf, proof, responses) == None
  {
    CollectedLength(responses, proofSize - |proof|);
  }

  lemma FinishMore(sha: Sha, root: Digest, path: seq<int>, proofSize: nat, leaf: Digest, proof: seq<Digest>, responses: seq<Bytes>)
    requires |proof| < proofSize
    ensures Finish(sha, root, path, proofSize, leaf, proof, responses)
            == if |responses| == 0 then None
               else match MorePayload(responses[0], 32, proofSize - |proof|)
                 case None => None
                 case Some((n, payload)) =>
                   Finish(sha, root, path, proofSize, leaf, proof + Pieces(payload, n), responses[1..])
  {
    if |responses| > 0 {
      match MorePayload(responses[0], 32, proofSize - |proof|)
      case None =>
      case Some((n, payload)) =>
        match CollectProof(responses[1..], proofSize - |proof| - n)
        case None =>
        case Some(rest) => assert proof + (Pieces(payload, n) + rest) == proof + Pieces(payload, n) + rest;
    }
  }

  /** Folding the elements of one more response. */
  lemma FoldMore(sha: Sha, path: seq<int>, proofSize: nat, leaf: Digest, proof: seq<Digest>, cur: Digest, pieces: seq<Digest>)
    requires |proof| + |pieces| <= proofSize <= |path|
    requires cur == Fold(CombineHashes(sha), leaf, proof, path[proofSize - |proof|..proofSize])
    ensures var step := |proof| + |pieces|;
            Fold(CombineHashes(sha), leaf, proof + pieces, path[proofSize - step..proofSize])
            == Fold(CombineHashes(sha), cur, pieces, path[proofSize - step..proofSize - |proof|])
  {
    var step := |proof| + |pieces|;
    FoldConcat(CombineHashes(sha), leaf, proof, path[proofSize - |proof|..proofSize], pieces, path[proofSize - step..proofSize - |proof|]);
    assert path[proofSize - step..proofSize - |proof|] + path[proofSize - |proof|..proofSize] == path[proofSize - step..proofSize];
  }

  /** The current hash is the fold of the elements received so far. */
  ghost predicate Folded(sha: Sha, path: seq<int>, proofSize: nat, leaf: Digest, proof: seq<Digest>, cur: Digest) {
    && |proof| <= proofSize
    && if |proof| == 0 then cur == leaf
       else proofSize <= |path| && cur == Fold(CombineHashes(sha), leaf, proof, path[proofSize - |proof|..proofSize])
  }

  /** One response's elements: either the proof is too long, or the current hash moves on. */
  method Absorb(sha: Sha, size: nat, index: nat, proofSize: nat, ghost leaf: Digest, ghost proof: seq<Digest>, step: nat, start: Digest, payload: Bytes, n: nat)
    returns (ok: bool, cur: Digest)
    requires Answerable(size, index) && step == |proof| && step + n <= proofSize && 32 * n <= |payload|
    requires Folded(sha, PathOf(size, index), proofSize, leaf, proof, start)
    ensures !ok ==> proofSize > |PathOf(size, index)|
    ensures ok ==> Folded(sha, PathOf(size, index), proofSize, leaf, proof + Pieces(payload, n), cur)
  {
    ok, cur := FoldElements(sha, size, index, proofSize, step, start, payload, n);
    if n == 0 {
      assert proof + Pieces(payload, n) == proof;
    } else if ok {
      FoldMore(sha, PathOf(size, index), proofSize, leaf, proof, start, Pieces(payload, n));
    }
  }

  /** Where a request for a leaf hash stands: the device wants more of the proof, or is done. */
  datatype LeafState =
    | MoreProof(leaf: Digest, proofSize: nat, step: nat, cur: Digest)
    | LeafDone(result: Option<Digest>)

  /** The current hash is the fold of the elements received so far, and some are missing. */
  ghost predicate LeafTracks(sha: Sha, path: seq<int>, s: LeafState, proof: seq<Digest>) {
    s.MoreProof? ==> s.step == |proof| < s.proofSize && Folded(sha, path, s.proofSize, s.leaf, proof, s.cur)
  }

  /** The outcome of the request if these are the responses still to come. */
  ghost function LeafResume(sha: Sha, root: Digest, path: seq<int>, s: LeafState, proof: seq<Digest>, responses: seq<Bytes>): Option<Digest>
    requires LeafTracks(sha, path, s, proof)
  {
    match s
    case MoreProof(leaf, proofSize, _, _) => Finish(sha, root, path, proofSize, leaf, proof, responses)
    case LeafDone(result) => result
  }

  /** The elements of one response, and the comparison with the root once the proof is complete. */
  method TakeElements(sha: Sha, root: Digest, size: nat, index: nat, leaf: Digest, proofSize: nat, ghost proof: seq<Digest>,
                      step: nat, start: Digest, payload: Bytes, n: nat, ghost rest: seq<Bytes>)
    returns (s: LeafState)
    requires Answerable(size, index) && step == |proof| && step + n <= proofSize && 32 * n <= |payload|
    requires Folded(sha, PathOf(size, index), proofSize, leaf, proof, start)
    ensures LeafTracks(sha, PathOf(size, index), s, proof + Pieces(payload, n))
    ensures LeafResume(sha, root, PathOf(size, index), s, proof + Pieces(payload, n), rest)
            == Finish(sha, root, PathOf(size, index), proofSize, leaf, proof + Pieces(payload, n), rest)
    ensures s.MoreProof? ==> s.proofSize == proofSize && s.leaf == leaf
    ensures s.LeafDone? && s.result.Some? ==> step + n == proofSize
  {
    ghost var path, all := PathOf(size, index), proof + Pieces(payload, n);
    var ok, cur := Absorb(sha, size, index, proofSize, leaf, proof, step, start, payload, n);
    if !ok {
      FinishTooLong(sha, root, path, proofSize, leaf, all, rest);
      return LeafDone(None);
    }
    if step + n < proofSize {
      return MoreProof(leaf, proofSize, step + n, cur);
    }
    FinishComplete(sha, root, path, leaf, all, rest);
    s := LeafDone(if cur == root then Some(leaf) else None);
  }

  /** What the first response claims. */
  lemma FirstClaim(sha: Sha, root: Digest, size: nat, index: nat, b: Bytes, proofSize: nat, n: nat, rest: seq<Bytes>)
    requires |b| >= 34 && proofSize == b[32] && n == b[33]
    ensures LeafHashOutcome(sha, root, size, index, [b] + rest) ==
              if n > proofSize || |b| - 34 < 32 * n then None
              else Finish(sha, root, PathOf(size, index), proofSize, b[..32], Pieces(b[34..], n), rest)
  {
    FirstClaimed(b, proofSize, n, rest);
  }

  lemma FirstClaimed(b: Bytes, proofSize: nat, n: nat, rest: seq<Bytes>)
    requires |b| >= 34 && proofSize == b[32] && n == b[33]
    ensures ClaimedProof([b] + rest) ==
              if n > proofSize || |b| - 34 < 32 * n then None
              else match CollectProof(rest, proofSize - n)
                case None => None
                case Some(more) => Some((b[..32], Pieces(b[34..], n) + more))
  {
    assert ([b] + rest)[1..] == rest;
  }

  /** The elements of the first response have been taken. */
  ghost predicate StartedWith(b: Bytes, s: LeafState, proof: seq<Digest>) {
    && |b| >= 34 && b[33] <= b[32] && 32 * b[33] <= |b| - 34
    && proof == Pieces(b[34..], b[33])
    && (if s.MoreProof? then s.proofSize == b[32] else b[32] == b[33])
  }

  /** The first response. */
  method StartLeaf(sha: Sha, root: Digest, size: nat, index: nat, b: Bytes, ghost rest: seq<Bytes>)
    returns (s: LeafState, ghost proof: seq<Digest>)
    requires Answerable(size, index)
    ensures LeafTracks(sha, PathOf(size, index), s, proof)
    ensures LeafResume(sha, root, PathOf(size, index), s, proof, rest) == LeafHashOutcome(sha, root, size, index, [b] + rest)
    ensures s == LeafDone(None) || StartedWith(b, s, proof)
  {
    proof := [];
    if |b| < 34 {
      return LeafDone(None), proof;
    }
    var leaf: Digest := b[..32];
    var proofSize: nat, n: nat := b[32], b[33];
    FirstClaim(sha, root, size, index, b, proofSize, n, rest);
    if n > proofSize || |b| - 34 < 32 * n {
      return LeafDone(None), proof;
    }
    s := TakeElements(sha, root, size, index, leaf, proofSize, [], 0, leaf, b[34..], n, rest);
    proof := Pieces(b[34..], n);
    assert [] + proof == proof;
  }

  /** The elements of the response have been added, and all are there if a leaf is returned. */
  ghost predicate LeafContinues(s: LeafState, proof: seq<Digest>, b: Bytes, t: LeafState, more: seq<Digest>)
    requires s.MoreProof? && |proof| <= s.proofSize
  {
    && (t.MoreProof? ==> t.proofSize == s.proofSize)
    && (t.LeafDone? && t.result.Some? ==> |more| == s.proofSize)
    && match MorePayload(b, 32, s.proofSize - |proof|)
       case None => true
       case Some((n, payload)) => more == proof + Pieces(payload, n)
  }

  /** A response to GET_MORE_ELEMENTS. */
  method ContinueLeaf(sha: Sha, root: Digest, size: nat, index: nat, s: LeafState, ghost proof: seq<Digest>, b: Bytes, ghost rest: seq<Bytes>)
    returns (t: LeafState, ghost more: seq<Digest>)
    requires Answerable(size, index) && s.MoreProof? && LeafTracks(sha, PathOf(size, index), s, proof)
    ensures LeafTracks(sha, PathOf(size, index), t, more)
    ensures LeafResume(sha, root, PathOf(size, index), t, more, rest) == LeafResume(sha, root, PathOf(size, index), s, proof, [b] + rest)
    ensures LeafContinues(s, proof, b, t, more)
  {
    FinishMore(sha, root, PathOf(size, index), s.proofSize, s.leaf, proof, [b] + rest);
    assert ([b] + rest)[1..] == rest;
    more := proof;
    var next := MorePayload(b, 32, s.proofSize - s.step);
    if next.None? {
      return LeafDone(None), more;
    }
    var n, payload := next.value.0, next.value.1;
    t := TakeElements(sha, root, size, index, s.leaf, s.proofSize, proof, s.step, s.cur, payload, n, rest);
    more := proof + Pieces(payload, n);
  }

  /** The device's request for a leaf hash and its verification. */
  method GetMerkleLeafHash(sha: Sha, root: Digest, size: nat, index: nat, responses: seq<Bytes>) returns (r: Option<Digest>)
    requires Answerable(size, index)
    ensures r == LeafHashOutcome(sha, root, size, index, responses)
  {
    if |responses| == 0 {
      return None;
    }
    ghost var path := PathOf(size, index);
    var s, proof := StartLeaf(sha, root, size, index, responses[0], responses[1..]);
    assert responses == [responses[0]] + responses[1..];
    var used := 1;
    while s.MoreProof? && used < |responses|
      invariant 1 <= used <= |responses| && LeafTracks(sha, path, s, proof)
      invariant LeafResume(sha, root, path, s, proof, responses[used..]) == LeafHashOutcome(sha, root, size, index, responses)
      decreases |responses| - used
    {
      assert responses[used..] == [responses[used]] + responses[used + 1..];
      s, proof := ContinueLeaf(sha, root, size, index, s, proof, responses[used], responses[used + 1..]);
      used := used + 1;
    }
    r := if s.LeafDone? then s.result else None;
    if s.MoreProof? {
      FinishMore(sha, root, path, s.proofSize, s.leaf, proof, responses[used..]);
    }
  }

  // ---- preimages ----

  const U32: nat := 0x1_0000_0000

  /** The remaining `want` bytes, asked for response by response. */
  function CollectBytes(responses: seq<Bytes>, want: nat): Option<Bytes>
    decreases |responses|
  {
    if want == 0 then Some([])
    else if |responses| == 0 then None
    else match MorePayload(responses[0], 1, want)
      case None => None
      case Some((n, payload)) =>
        match CollectBytes(responses[1..], want - n)
        case None => None
        case Some(rest) => Some(payload + rest)
  }

  /** The data that the client sends as a preimage; its length is kept in 32 bits. */
  function ClaimedPreimage(responses: seq<Bytes>): Option<Bytes> {
    if |responses| == 0 then None
    else
      var b := responses[0];
      match Varint.Read(b)
      case None => None
      case Some((length, k)) =>
        if |b| < k + 1 || |b| - k - 1 < b[k] then None
        else
          var len, n: nat := length % U32, b[k];
          if len < 1 || n > len then None
          else match CollectBytes(responses[1..], len - n)
            case None => None
            case Some(rest) => Some(b[k + 1..k + 1 + n] + rest)
  }

  function PreimageOutcome(sha: Sha, hash: Digest, responses: seq<Bytes>): Option<Bytes> {
    match ClaimedPreimage(responses)
    case None => None
    case Some(data) => if sha(data) == hash then Some(data) else None
  }

  /** Appends to a buffer of limited size; what does not fit is dropped. */
  function WriteBytes(out: Bytes, limit: nat, data: Bytes): Bytes {
    if |out| + |data| <= limit then out + data else out
  }

  /** All the data, once a part of it has arrived. */
  function AllBytes(received: Bytes, responses: seq<Bytes>, want: nat): Option<Bytes> {
    match CollectBytes(responses, want)
    case None => None
    case Some(rest) => Some(received + rest)
  }

  lemma AllBytesMore(received: Bytes, responses: seq<Bytes>, want: nat)
    requires want > 0
    ensures AllBytes(received, responses, want)
            == if |responses| == 0 then None
               else match MorePayload(responses[0], 1, want)
                 case None => None
                 case Some((n, payload)) => AllBytes(received + payload, responses[1..], want - n)
  {
    if |responses| > 0 {
      match MorePayload(responses[0], 1, want)
      case None =>
      case Some((n, payload)) =>
        match CollectBytes(responses[1..], want - n)
        case None =>
        case Some(rest) => assert received + (payload + rest) == received + payload + rest;
    }
  }

  /** Where a request for a preimage stands: the device wants more bytes, has them all, or has given up. */
  datatype PreimageState = MoreBytes(len: nat, data: Bytes) | Obtained(data: Bytes) | Refused

  /** The hash is compared once all bytes are there. */
  function Settle(sha: Sha, hash: Digest, len: nat, data: Bytes): PreimageState {
    if |data| < len then MoreBytes(len, data) else if sha(data) == hash then Obtained(data) else Refused
  }

  function StartState(sha: Sha, hash: Digest, b: Bytes): PreimageState {
    match Varint.Read(b)
    case None => Refused
    case Some((length, k)) =>
      if |b| < k + 1 || |b| - k - 1 < b[k] then Refused
      else
        var len, n: nat := length % U32, b[k];
        if len < 1 || n > len then Refused else Settle(sha, hash, len, b[k + 1..k + 1 + n])
  }

  function NextState(sha: Sha, hash: Digest, s: PreimageState, b: Bytes): PreimageState
    requires s.MoreBytes? && |s.data| < s.len
  {
    match MorePayload(b, 1, s.len - |s.data|)
    case None => Refused
    case Some((n, payload)) => Settle(sha, hash, s.len, s.data + payload)
  }

  /** The outcome of the request if these are the responses still to come. */
  function PreimageResume(sha: Sha, hash: Digest, s: PreimageState, responses: seq<Bytes>): Option<Bytes>
    requires s.MoreBytes? ==> |s.data| < s.len
  {
    match s
    case Refused => None
    case Obtained(data) => Some(data)
    case MoreBytes(len, data) =>
      match AllBytes(data, responses, len - |data|)
      case None => None
      case Some(all) => if sha(all) == hash then Some(all) else None
  }

  lemma ResumeSettled(sha: Sha, hash: Digest, len: nat, data: Bytes, responses: seq<Bytes>)
    requires |data| <= len
    ensures PreimageResume(sha, hash, Settle(sha, hash, len, data), responses)
            == match AllBytes(data, responses, len - |data|)
               case None => None
               case Some(all) => if sha(all) == hash then Some(all) else None
  {
    assert data + [] == data;
  }

  /** The request goes through its states as the responses come in. */
  lemma ResumeStart(sha: Sha, hash: Digest, b: Bytes, rest: seq<Bytes>)
    ensures PreimageResume(sha, hash, StartState(sha, hash, b), rest) == PreimageOutcome(sha, hash, [b] + rest)
  {
    assert ([b] + rest)[1..] == rest;
    match Varint.Read(b)
    case None =>
    case Some((length, k)) =>
      if |b| >= k + 1 && |b| - k - 1 >= b[k] {
        var len, n: nat := length % U32, b[k];
        if 1 <= len && n <= len {
          ResumeSettled(sha, hash, len, b[k + 1..k + 1 + n], rest);
        }
      }
  }

  lemma ResumeNext(sha: Sha, hash: Digest, s: PreimageState, b: Bytes, rest: seq<Bytes>)
    requires s.MoreBytes? && |s.data| < s.len
    ensures PreimageResume(sha, hash, NextState(sha, hash, s, b), rest) == PreimageResume(sha, hash, s, [b] + rest)
  {
    assert ([b] + rest)[1..] == rest;
    AllBytesMore(s.data, [b] + rest, s.len - |s.data|);
    match MorePayload(b, 1, s.len - |s.data|)
    case None =>
    case Some((n, payload)) => ResumeSettled(sha, hash, s.len, s.data + payload, rest);
  }

  /** The output holds the bytes received so far, if all of them fit. */
  predicate Buffered(s: PreimageState, limit: nat, out: Bytes) {
    match s
    case MoreBytes(len, data) => |data| < len && (len <= limit ==> out == data)
    case Obtained(data) => |data| <= limit ==> out == data
    case Refused => true
  }

  method SettleBytes(sha: Sha, hash: Digest, len: nat, data: Bytes) returns (s: PreimageState)
    requires |data| <= len
    ensures s == Settle(sha, hash, len, data)
  {
    if |data| < len {
      return MoreBytes(len, data);
    }
    s := if sha(data) == hash then Obtained(data) else Refused;
  }

  /** The first response. */
  method StartPreimage(sha: Sha, hash: Digest, limit: nat, b: Bytes) returns (s: PreimageState, out: Bytes)
    ensures s == StartState(sha, hash, b) && Buffered(s, limit, out)
  {
    out := [];
    var header := Varint.Read(b);
    if header.None? {
      return Refused, out;
    }
    var k := header.value.1;
    if |b| < k + 1 || |b| - k - 1 < b[k] {
      return Refused, out;
    }
    var len, n: nat := header.value.0 % U32, b[k];
    if len < 1 || n > len {
      return Refused, out;
    }
    out := WriteBytes(out, limit, b[k + 1..k + 1 + n]);
    s := SettleBytes(sha, hash, len, b[k + 1..k + 1 + n]);
  }

  /** A response to GET_MORE_ELEMENTS. */
  method ContinuePreimage(sha: Sha, hash: Digest, limit: nat, s: PreimageState, out: Bytes, b: Bytes) returns (t: PreimageState, more: Bytes)
    requires s.MoreBytes? && Buffered(s, limit, out)
    ensures t == NextState(sha, hash, s, b) && Buffered(t, limit, more)
  {
    var next := MorePayload(b, 1, s.len - |s.data|);
    if next.None? {
      return Refused, out;
    }
    var payload := next.value.1;
    more := WriteBytes(out, limit, payload);
    t := SettleBytes(sha, hash, s.len, s.data + payload);
  }

  /** The length as the signed 32-bit result of the request. */
  function ReturnedLength(len: nat): int {
    if len < 0x8000_0000 then len else len - U32
  }

  function ReturnCode(s: PreimageState): int {
    if s.Obtained? then ReturnedLength(|s.data|) else -1
  }

  /**
   The device's request for a preimage: returns its length, and in `out` its bytes when they fit. A negative
   result is an error.
   */
  method GetPreimage(sha: Sha, hash: Digest, limit: nat, responses: seq<Bytes>) returns (r: int, out: Bytes)
    ensures match PreimageOutcome(sha, hash, responses)
            case None => r < 0
            case Some(data) => r == ReturnedLength(|data|) && (|data| <= limit ==> out == data)
  {
    if |responses| == 0 {
      return -1, [];
    }
    var s;
    s, out := StartPreimage(sha, hash, limit, responses[0]);
    ResumeStart(sha, hash, responses[0], responses[1..]);
    assert responses == [responses[0]] + responses[1..];
    var used := 1;
    while s.MoreBytes? && used < |responses|
      invariant 1 <= used <= |responses| && Buffered(s, limit, out)
      invariant PreimageResume(sha, hash, s, responses[used..]) == PreimageOutcome(sha, hash, responses)
      decreases |responses| - used
    {
      assert responses[used..] == [responses[used]] + responses[used + 1..];
      ResumeNext(sha, hash, s, responses[used], responses[used + 1..]);
      s, out := ContinuePreimage(sha, hash, limit, s, out, responses[used]);
      used := used + 1;
    }
    r := ReturnCode(s);
  }

  /** What is obtained is as long as the header says, in 32 bits. */
  lemma {:induction false} CollectedBytesLength(responses: seq<Bytes>, want: nat)
    ensures CollectBytes(responses, want).Some? ==> |CollectBytes(responses, want).value| == want
    decreases |responses|
  {
    if want > 0 && |responses| > 0 {
      match MorePayload(responses[0], 1, want)
      case None =>
      case Some((n, _)) => CollectedBytesLength(responses[1..], want - n);
    }
  }
}
