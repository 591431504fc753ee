/** Byte strings, 32-byte digests and the hashes built from SHA-256. */
module Bytes {
  type byte = x: int | 0 <= x < 256

  type Bytes = seq<byte>

  type Digest = s: Bytes | |s| == 32 witness seq(32, _ => 0)

  /** SHA-256, about which nothing is assumed. */
  type Sha = Bytes -> Digest

  /** H(0x00 | x), the hash of a list element. */
  function ElementHash(sha: Sha, x: Bytes): Digest {
    sha([0] + x)
  }

  /** H(0x01 | left | right), the hash of an internal node. */
  function CombineHashes(sha: Sha): (Digest, Digest) -> Digest {
    (left: Digest, right: Digest) => sha([1] + left + right)
  }

  /** Elements and nodes are hashed from different inputs, and so are a node and its mirror image: equal hashes exhibit a collision. */
  lemma InputsDiffer(sha: Sha, x: Bytes, left: Digest, right: Digest)
    ensures ElementHash(sha, x) == sha([0] + x) && CombineHashes(sha)(left, right) == sha([1] + left + right)
    ensures [0] + x != [1] + left + right
    ensures left != right ==> [1] + left + right != [1] + right + left
  {
    assert ([0] + x)[0] == 0 && ([1] + left + right)[0] == 1;
    assert ([1] + left + right)[1..33] == left && ([1] + right + left)[1..33] == right;
  }

  function Flatten(parts: seq<Bytes>): Bytes {
    if |parts| == 0 then [] else Flatten(parts[..|parts| - 1]) + parts[|parts| - 1]
  }

  predicate AllOfLength(parts: seq<Bytes>, n: nat) {
    forall i :: 0 <= i < |parts| ==> |parts[i]| == n
  }

  lemma {:induction false} FlattenLength(parts: seq<Bytes>, n: nat)
    requires AllOfLength(parts, n)
    ensures |Flatten(parts)| == |parts| * n
    decreases |parts|
  {
    if |parts| > 0 {
      FlattenLength(parts[..|parts| - 1], n);
    }
  }

  /** The part of a concatenation that one piece of a common length occupies. */
  lemma {:induction false} FlattenSlice(parts: seq<Bytes>, n: nat, i: nat)
    requires AllOfLength(parts, n) && i < |parts|
    ensures 0 <= i * n <= i * n + n <= |Flatten(parts)|
    ensures Flatten(parts)[i * n..i * n + n] == parts[i]
    decreases |parts|
  {
    var last := |parts| - 1;
    FlattenLength(parts, n);
    FlattenLength(parts[..last], n);
    if i < last {
      FlattenSlice(parts[..last], n, i);
    }
  }
}
