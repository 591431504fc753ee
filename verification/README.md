# Verification of the Ledger Bitcoin app's core logic

This project models the parts of the Ledger Bitcoin app and of its clients whose correctness
is hardest to see from the code, and proves what those parts are for. Every file is plain
Dafny; `dafny verify dfyconfig.toml` checks all of them.

## What is modelled

**MuSig2 signing** (`Curve`, `Musig`, `MusigCorrectness`). Key aggregation, tweaking, nonce
aggregation and partial signing of BIP 327. The elliptic curve is a parameter, `Secp`, made of
the calls into the cryptographic library; `Lawful()` says that they are those of a commutative
group of order n whose points are negated by replacing y with p - y. Nothing is assumed of the
hash functions. `Curve.LawsAreConsistent` exhibits a small group that satisfies the laws. The main
result, `MusigCorrectness.SessionProducesSignature`, holds for any number of cosigners, repeated
keys and any list of tweaks: a verifier of BIP 340, which knows the two x coordinates and the message
only, accepts the sum of the partial signatures if and only if R_1 + b * R_2 is not the point at
infinity (the code then substitutes G). Each partial signature is the one number that the verifier of
BIP 327 accepts, and the aggregate key is the chain of tweaks of BIP 327 and BIP 341.

**MuSig2 sessions** (`MusigSessions`, `MusigSessionRuns`, `MusigSessionDelivery`). The 8-slot
persistent store, first as a class that refines a bounded map from ids to roots, then as a state
machine over whole runs of signing flows. `MusigSessionRuns.NoRootReuse` says that no root is ever used
twice, and `MusigSessionDelivery.CommittedIsHandedOut` that a committed session does come back with its
own root unless a later flow used its id or took its slot.

**Merkle trees** (`MerkleShape`, `Merkle`, `MerkleRust`, `MerkleNodes`, `MerkleVector`). One
reference tree and four programs that have to agree with it: the pointer structure of the Python
client, with its in-place update; the recursive tree of the Rust client; the directions that the
device computes from size and index alone; and the device's fold of a proof.

**The client protocol** (`Bytes`, `Varint`, `ClientCommands`, `DeviceRequests`, `Protocol`). Both
clients' answers to GET_PREIMAGE, GET_MERKLE_LEAF_PROOF and GET_MORE_ELEMENTS, with the queue they
share, and the device's requests as state machines that take one response at a time. The `Fetch`
methods of `Protocol` run device and client in turns. Completeness: for every tree that a client
knows and every index the device obtains the leaf and leaves the client's queue empty; it obtains a
preimage if and only if its length is not zero and fits 32 bits, and the queue ends empty exactly for
the lengths that fit. Soundness: whatever the responses are, an accepted hash is the value of a node on the
path to the index, or the responses contain two different inputs with one SHA-256 hash. A
collision is exhibited rather than excluded, because no function into 32 bytes is injective.

**Miniscript** (`Miniscript`, `Thresh`, `MiniscriptInfo`, `MiniscriptConsistency`, `Scripts`,
`MiniscriptSize`, `MiniscriptText`, `MiniscriptWays`, `MiniscriptSafety`, `MiniscriptExactness`,
`MiniscriptUniqueness`, `MiniscriptMalleability`, `MiniscriptFirmness`, `MiniscriptThirdParty`,
`MiniscriptCosts`, `MiniscriptTimelocks`, `MiniscriptVectors`). The type rules of the parser and the second pass that
computes malleability, timelock, size and cost properties. They are compared with two
independent definitions after BIP 379: the translation to Script, and the set of all witnesses that
satisfy or dissatisfy an expression. The flags s and f are exact. The flag m gives non-malleability in
full: whoever can satisfy an expression with some keys can do so with a witness that nobody can replace
with the signatures in it alone.

**Execution of Miniscript** (`ScriptMachine`, `MiniscriptShape`, `MiniscriptExecution`,
`MiniscriptFragments`, `MiniscriptLeaves`, `MiniscriptSums`, `MiniscriptMeaning`,
`MiniscriptEmission`, `MiniscriptSanity`). An interpreter of Script over symbolic stack elements, with
conditionals, the alternative stack and timelocks. By `MiniscriptMeaning.AcceptsIff`
a witness makes the translated Script succeed, or end in 0, if and only if it is one of the witnesses
of the expression and the transaction meets its timelocks. `MiniscriptEmission` is the emitter of the
app, command table by command table, with the flag that asks for VERIFY. `MiniscriptSanity` draws the
conclusions for the scripts of the policies that the app accepts.

**Codecs and displays** (`Numerals`, `BitStrings`, `Base58`, `Polymod`, `Galois`, `Bch`, `Bech32`,
`Bech32Decode`, `Bech32RoundTrip`, `Bech32Vectors`, `ConvertBits`, `SegwitAddress`, `Amounts`,
`OpReturn`, `OpReturnPushes`). Base 58 and segwit addresses with round trips in both directions, the
checksum of Bech32 as remainders of polynomials over the field with 32 elements, the decimal display of
amounts, and the display of OP_RETURN scripts as that of the items they push.

## Where a property holds only under a condition

- The witnesses of an expression are those of the Script that the app emits where `pk_k` is used only
  as the first child of `and_v`, and any other first child of `and_v` is of type V
  (`MiniscriptSanity.ScriptAcceptsIff`). The app checks neither: the check for V is commented out, and
  `pk_k` is emitted with CHECKSIGVERIFY, which stands in for the missing `v:`. Without V a policy that
  passes all checks can be spent without a signature (`MiniscriptSanity.UnverifiedUnsigned`, with
  `and_v(pk(a),l:1)`), and `c:pk_k(a)` is not satisfied by a signature
  (`MiniscriptSanity.BareKeyRefused`). The condition is sufficient but not necessary
  (`MiniscriptSanity.UnverifiedHarmless`, with `and_v(0,1)`).
- The unit tests of the source (unit-tests/test_wallet.c:595-596) expect `and_v(1,1)` and
  `and_v(pk_k(a),1)` to be rejected. The code accepts them, and the model follows the code.
- A policy that passes all checks cannot be malleated by third parties if no key is used twice, which the
  app checks elsewhere (src/handler/lib/policy.c:2006-2108), and if the children of every `thresh` have m
  (`MiniscriptSanity.SaneNotMalleable`). Without m it can: `and_v(v:pk(a),or_i(older(m),after(n)))` is
  refused (`MiniscriptSanity.SelectableRefused`) and has two witnesses with one signature
  (`MiniscriptSanity.SelectableReplaceable`).
- A committed MuSig2 session is found again unless a later flow calls its id or, when all eight slots hold
  other ids, takes slot 0 from it (`MusigSessionDelivery.SparesIff`). With at most eight ids in use only
  the calls matter (`MusigSessionDelivery.FewAreSpared`); the ninth of nine sessions displaces the first
  (`MusigSessionDelivery.NinthDisplaces`).
- The app emits the Script of BIP 379 if and only if there is no `pk_k`
  (`MiniscriptEmission.EmitsTranslationIff`). Otherwise the script is one byte and one operation longer
  for each `pk_k` than the second pass counts, which can take it over the limit of 201 operations
  (`MiniscriptSanity.OneOverTheLimit`).
- The satisfaction cost of `thresh` is the best over all choices if and only if k does not exceed the
  number of children (`Thresh.EntryIsBest`; `Thresh.EntryPastTheEnd` is an input where it is not). The
  app accepts `thresh(2,pk(a))`, whose script nothing satisfies
  (`MiniscriptSanity.TooManyUnsatisfiable`).
- The stack cost is the greatest over all canonical witnesses at every node if and only if every
  `thresh` meets that condition. For the multisig key count, moreover, `andor` and `and_n` must not
  suffer from adding y's dissatisfaction in place of x's, and `l` and `u` must wrap an
  expression that can be dissatisfied (`MiniscriptCosts.CostsAreGreatest`). Expressions where the key
  count is wrong: `andor(pk(a),older(n),multi(1,b))` (`MiniscriptCosts.TimedOrKeys`), `and_n(pk(a),0)`
  (`MiniscriptCosts.AndNeverKeys`), `l:older(n)` and `u:older(n)` (`MiniscriptCosts.WrappedOlderKeys`).
- Flags m and e promise a single dissatisfaction without a signature if the children of every
  `thresh` have m. The second pass counts these children but does not use the count
  (`MiniscriptUniqueness.LooseThresh` is an expression where the promise fails). The converse does not
  hold (`MiniscriptUniqueness.TightThresh`). For one `thresh` with e the exact condition is
  `MiniscriptUniqueness.ThreshUniqueIff`.
- The device obtains a preimage from an honest client if and only if it has 1 to 2^32 - 1 bytes
  (`Protocol.HonestPreimageAcceptedIff`); the empty one is refused (`Protocol.EmptyPreimageRefused`).
- The device's logarithm of a size ends if and only if the size is at most 2^31
  (`MerkleShape.LogarithmEndsIff`): above, the loop variable overflows to 0 and stays there.
- Base 58 text of at most 120 bytes decodes again if and only if there are at least two bytes, or one of
  value 58 or more (`Base58.EncodeThenDecode`; the byte 7 is not read back, `Base58.ShortTextNotRead`).
- An encoded Bech32 text decodes again if and only if its human-readable part is not empty
  (`Bech32RoundTrip.RoundTrip`), an encoded address if and only if, moreover, the version passed to
  the encoder is not negative (`SegwitAddress.AddressRoundTrip`; version -256 is encoded,
  `SegwitAddress.NegativeVersionEncoded`).
- The device takes the length of a Merkle proof from the client, so it accepts every node on the path
  with the siblings above it, and nothing else short of a collision
  (`Protocol.AcceptedHashIsOnPath`, `Protocol.EveryNodeOnPathAccepted`).

## Model

| member | source | states |
|---|---|---|
| Curve.MulNegates | src/musig/musig.c:71-82 | negation of a point is multiplication by n - 1 and stays on the curve |
| Curve.CompressRoundTrip | src/musig/musig.c:90-126 | decompression, with or without the encoding of infinity, undoes compression of every finite point |
| Curve.DecompressIff | src/musig/musig.c:90-126 | 33 bytes decompress to a point if and only if it is on the curve, has their x, and an even y with prefix 2 or an odd y with prefix 3 |
| Curve.LiftIsEvenY | src/musig/musig.c:90-126 | the point that is lifted from an x coordinate is the one with even y |
| Curve.DecompressMember | src/musig/musig.c:90-126 | whatever decompresses is on the curve |
| Musig.GetSecondKey | src/musig/musig.c:128-136 | the second key is the first that differs from the first key; 33 zero bytes when all keys are equal |
| Musig.CoefficientIs | src/musig/musig.c:149-183 | the key that is first to differ from the first key has the coefficient 1, and every other key the hash of the key list with it |
| Musig.KeyAggContext.KeyAggregate | src/musig/musig.c:185-214 | succeeds exactly when all keys decode, and then Q is the sum of a_i * P_i with accumulators 1 and 0; otherwise Q is the sum before the first bad key and the accumulators keep their values |
| Musig.KeyAggContext.ApplyTweak | src/musig/musig.c:302-359 | the new context and status are those of one plain or x-only tweak |
| Musig.TweakIs | src/musig/musig.c:302-359 | a tweak succeeds exactly if it is below the order, an x-only one meets a finite key, and the sum is finite; the key is then lift_x(x(Q)) + t * G for an x-only tweak and Q + t * G for a plain one |
| Musig.TweakOfNegative | src/musig/musig.c:302-359 | an x-only tweak of Q and of -Q gives the same key |
| Musig.TweakKeepsInvariant | src/musig/musig.c:302-359 | one successful tweak keeps Q = gacc * S + tacc * G with gacc in {1, n - 1} |
| Musig.TweaksKeepInvariant | src/musig/musig.c:302-359 | so does every successful sequence of tweaks |
| Musig.AggregateKeyInvariant | src/musig/musig.c:185-214 | after aggregation and any tweaks, Q = gacc * (sum of a_i * P_i) + tacc * G |
| Musig.TweaksAreChain | src/musig/musig.c:302-359 | every successful list of tweaks leads to the end of that chain of points |
| Musig.AggregateKeyIs | src/musig/musig.c:185-214 | the key of a session is that chain from the sum of a_i * P_i |
| Musig.NonceAggregateHalf | src/musig/musig.c:280-300 | one half of the nonces sums up to the encoded point, or the code names the first cosigner with an invalid one |
| Musig.NonceAggregate | src/musig/musig.c:280-300 | both halves, with success exactly when all nonces decode and blame for a cosigner with an invalid nonce otherwise |
| Musig.ApplyTweaks | src/musig/musig.c:361-419 | the tweaks are applied in order up to the first failure |
| Musig.GetSessionValues | src/musig/musig.c:361-419 | the session values when all keys decode, whose challenge and nonce coefficient `MusigCorrectness.ShareVerifies` and `MusigCorrectness.SessionProducesSignature` fix from outside; R is never the point at infinity |
| Musig.SessionKeyCoefficient | src/musig/musig.c:421-442 | the coefficient of a key exactly when it belongs to the session |
| Musig.ComputeShare | src/musig/musig.c:444-599 | the reduced modular steps of the code give k_1 + b * k_2 + e * a * g * gacc * d modulo n, computed without any reduction in between |
| Musig.SecretNonce.Sign | src/musig/musig.c:444-599 | a signature is produced only from a nonce that is not zero and zeroes it, so one nonce signs at most once; the result and all failures are those of the session |
| MusigCorrectness.ShareScalar | src/musig/musig.c:444-599 | a share times G is the signed nonce plus the key part, whatever the parities of R and Q |
| MusigCorrectness.CosignerSigns | src/musig/musig.c:444-599 | an honest cosigner passes all checks and gets its share, unless the aggregate key is infinite |
| MusigCorrectness.ShareVerifies | src/musig/musig.c:361-599 | whatever partial signature is produced is the one number that the verification of BIP 327 accepts for the key and the nonces of the secret, with the hashes taken from the session directly |
| MusigCorrectness.SignatureEquation | src/musig/musig.c:444-599 | the aggregate signature times G is sign(R) * (R_1 + b * R_2) + e * EvenY(Q) |
| MusigCorrectness.VerifiesIff | src/musig/musig.c:361-599 | that verification, which computes s * G - e * P and compares an x coordinate, is the equation s * G = R + e * Q at even y |
| MusigCorrectness.SessionProducesSignature | src/musig/musig.c:361-599 | when every cosigner signs, the aggregate passes the verification of BIP 340 for the x coordinates of Q and R and the message if and only if R_1 + b * R_2 is not infinity |
| MusigSessions.SigningState.Initialize | src/musig/musig_sessions.c:91-93 | the volatile state is all zeros |
| MusigSessions.Storage.Pop | src/musig/musig_sessions.c:27-44 | the first slot with the id is returned and zeroed |
| MusigSessions.Storage.Store | src/musig/musig_sessions.c:52-72 | the session goes to the first free slot after its id was removed, or to slot 0 |
| MusigSessions.Storage.Round1 | src/musig/musig_sessions.c:95-114 | storage loses the id, and the volatile session is kept for the same id and drawn anew otherwise |
| MusigSessions.Storage.Round2 | src/musig/musig_sessions.c:116-131 | the volatile session answers for its own id, and otherwise the stored one is moved out |
| MusigSessions.Storage.Commit | src/musig/musig_sessions.c:133-144 | the round 1 session is stored if there is one |
| MusigSessions.PopRefinesRemove | src/musig/musig_sessions.c:27-44 | on stores with distinct ids, popping is lookup and removal in a map and keeps ids distinct |
| MusigSessions.StoreRefinesUpdate | src/musig/musig_sessions.c:52-72 | storing is update in a map; another session is lost only if all slots hold other ids, and then the one in slot 0 |
| MusigSessionRuns.CallsKeepInv | src/musig/musig_sessions.c:95-131 | every sequence of round 1 and round 2 calls with fresh draws keeps the invariant that ties past events to the state |
| MusigSessionRuns.RunKeepsInv | src/musig/musig_sessions.c:91-144 | so does every run of flows, committed or aborted |
| MusigSessionRuns.RunKeepsOrigins | src/musig/musig_sessions.c:91-144 | every live or handed-out session goes back to a draw and, once out of its flow, to a commit |
| MusigSessionRuns.NoRootReuse | src/musig/musig_sessions.c:91-144 | in every run a root is drawn once, stored at most once by the flow that drew it, and handed out by round 2 in one later flow only |
| MusigSessionDelivery.CommitStores | src/musig/musig_sessions.c:133-144 | after a commit the session of round 1 is found under its id with its root, and at most the session in slot 0 is lost |
| MusigSessionDelivery.CallsLeave | src/musig/musig_sessions.c:95-131 | the calls of a flow remove exactly the ids that they are for |
| MusigSessionDelivery.FlowStores | src/musig/musig_sessions.c:91-144 | what is stored under any id after a flow, as a function of what was stored before |
| MusigSessionDelivery.SparesIff | src/musig/musig_sessions.c:91-144 | a stored session stays if and only if the flow neither calls its id nor displaces it |
| MusigSessionDelivery.FirstCallTakes | src/musig/musig_sessions.c:116-131 | the first call for an id, if for round 2, hands out exactly what is stored under it |
| MusigSessionDelivery.CommittedIsHandedOut | src/musig/musig_sessions.c:91-144 | in every run, a session committed by one flow is handed out with that root by the later flow that first calls round 2 for its id, if the flows in between spare it |
| MusigSessionDelivery.FewAreSpared | src/musig/musig_sessions.c:52-72 | with at most eight ids in a run, flows spare all ids that they do not call |
| MusigSessionDelivery.NinthDisplaces | src/musig/musig_sessions.c:52-72 | the ninth of nine sessions displaces the first |
| MerkleShape.FloorLg | bitcoin_client/ledger_bitcoin/merkle.py:8-18 | the exponent of the largest power of two up to n |
| MerkleShape.PowerOf2Test | bitcoin_client/ledger_bitcoin/merkle.py:34-39 | n & (n - 1) is zero exactly for powers of two |
| MerkleShape.LargestPowerOf2LessThan | bitcoin_client/ledger_bitcoin/merkle.py:42-50 | the one power of two p with p < n <= 2p |
| MerkleShape.CeilLgU32 | src/common/merkle.h:61-69 | the least exponent whose power reaches n, for the sizes for which the loop ends |
| MerkleShape.LogarithmEndsIff | src/common/merkle.h:61-69 | the 32-bit doubling loop ends if and only if the size is at most 2^31 |
| MerkleShape.TopBit | src/common/merkle.c:53-83 | masking an index with the left size tests whether it is at least that size |
| MerkleShape.OneLevel | src/common/merkle.c:53-83 | mask and bit give the size of the left subtree and the side of the leaf |
| MerkleShape.GetIthDirection | src/common/merkle.c:53-83 | the i-th direction on the path to the leaf, and -1 past its end or for an index outside the tree |
| MerkleShape.DirectionsLength | src/common/merkle.c:53-83 | a path is no longer than the depth of the tree |
| Merkle.FoldDeterminesNode | src/common/merkle.c:40-50 | a hash that folds to the root along a path is the value at its end, or an explicit pair of inputs collides |
| Merkle.DirectionsLeadToLeaf | src/common/merkle.c:53-83 | the directions of an index lead to the leaf with that index |
| Merkle.ProofReachesRoot | bitcoin_client/ledger_bitcoin/merkle.py:235-247 | the proof of every leaf folds to the root along the device's directions |
| Merkle.FoldDeterminesLeaf | src/handler/lib/get_merkle_leaf_hash.c:15-129 | a proof of full length that folds to the root proves the leaf at the index, up to an explicit collision |
| MerkleRust.MakeTree | bitcoin_client_rs/src/merkle.rs:72-94 | the recursion on ranges builds the specified tree |
| MerkleRust.NewHeight | bitcoin_client_rs/src/merkle.rs:72-94 | the stored height is the depth for the number of leaves |
| MerkleRust.NewIsBuild | bitcoin_client_rs/src/merkle.rs:72-94 | without its stored values it is the reference tree |
| MerkleRust.DescentCollectsSiblings | bitcoin_client_rs/src/merkle.rs:111-127 | the descent by heights follows the directions of the index and collects the siblings |
| MerkleRust.RustTreeAgrees | bitcoin_client_rs/src/merkle.rs:72-127 | root and proofs of the Rust tree are the reference root and proofs, for every size and index |
| MerkleNodes.Join | bitcoin_client/ledger_bitcoin/merkle.py:92-110 | a new root over two trees has consistent links and hashes |
| MerkleNodes.MakeTree | bitcoin_client/ledger_bitcoin/merkle.py:92-110 | the cells form a left-complete tree over the leaf cells with consistent child links, parent links and hashes |
| MerkleNodes.ContentIsBuild | bitcoin_client/ledger_bitcoin/merkle.py:92-110 | a left-complete pointer tree holds the reference tree of its leaf values |
| MerkleNodes.PathLinks | bitcoin_client/ledger_bitcoin/merkle.py:68-89 | following parent pointers from a leaf visits its path and meets the siblings |
| MerkleVector.Recompute | bitcoin_client/ledger_bitcoin/merkle.py:75-78 | recomputing one value leaves only the ancestors above it stale |
| MerkleVector.FixUp | bitcoin_client/ledger_bitcoin/merkle.py:217-220 | after climbing to the root no hash is stale |
| MerkleVector.SetLeaf | bitcoin_client/ledger_bitcoin/merkle.py:195-215 | links and hashes are consistent again, the leaf is changed and no other leaf is |
| MerkleVector.CellValues | bitcoin_client/ledger_bitcoin/merkle.py:195-220 | every cell holds the value that its place has in a tree rebuilt from the leaf values |
| MerkleVector.MerkleTree.constructor | bitcoin_client/ledger_bitcoin/merkle.py:130-138 | a consistent tree of the given elements |
| MerkleVector.MerkleTree.Root | bitcoin_client/ledger_bitcoin/merkle.py:144-147 | the reference root of the current elements |
| MerkleVector.MerkleTree.Set | bitcoin_client/ledger_bitcoin/merkle.py:195-215 | the tree of the changed vector, in the same cells |
| MerkleVector.MerkleTree.ProveLeaf | bitcoin_client/ledger_bitcoin/merkle.py:235-247 | the reference proof, collected by climbing |
| Varint.RoundTrip | src/common/varint.c:41-75 | reading undoes writing for every 64-bit number, whatever follows |
| Varint.LittleEndianAt | src/common/varint.c:41-75 | byte i of a number has the weight 256^i |
| Varint.Shortest | src/common/varint.c:41-75 | no other form that reads as the number is shorter than the one written |
| Bytes.InputsDiffer | src/common/merkle.c:31-50 | elements are hashed with the prefix 0 and nodes with 1 and left before right, so equal hashes of an element and a node, or of a node and its mirror image, exhibit a collision |
| ClientCommands.ResponsesFit | bitcoin_client/ledger_bitcoin/client_command.py:53-207 | no response exceeds 255 bytes |
| ClientCommands.ResponsesFull | bitcoin_client/ledger_bitcoin/client_command.py:53-207 | and when something is left for the queue, no response has room for one element more |
| ClientCommands.ClimbingProof | bitcoin_client/ledger_bitcoin/client_command.py:102-140 | the Python client's proof is the reference proof and has at most 31 elements |
| ClientCommands.DescendingProof | bitcoin_client_rs/src/merkle.rs:49-56 | the same for the Rust client |
| ClientCommands.PythonInterpreter.AddKnownPreimage | bitcoin_client/ledger_bitcoin/client_command.py:281-293 | the element is filed under its hash and nothing else changes |
| ClientCommands.PythonInterpreter.AddKnownList | bitcoin_client/ledger_bitcoin/client_command.py:295-318 | the preimages are those filed from the elements in order, and the list is filed by its Merkle root |
| ClientCommands.FiledFinds | bitcoin_client/ledger_bitcoin/client_command.py:295-318 | under the hash of an element is the last element with that hash, with its prefix, and under other hashes what was there before |
| ClientCommands.PythonInterpreter.GetPreimage | bitcoin_client/ledger_bitcoin/client_command.py:53-90 | response and queue together hold the preimage; an unknown hash fails without a change |
| ClientCommands.PythonInterpreter.GetMerkleLeafProof | bitcoin_client/ledger_bitcoin/client_command.py:102-140 | response and queue together hold the leaf and its proof; fails on an unknown tree, a wrong size, an index outside it or a queue that is not empty |
| ClientCommands.PythonInterpreter.GetMoreElements | bitcoin_client/ledger_bitcoin/client_command.py:179-207 | the longest front of the queue that fits a response; fails on an empty or uneven queue |
| ClientCommands.RustInterpreter.AddKnownList | bitcoin_client_rs/src/interpreter.rs:58-73 | preimages and tree are appended |
| ClientCommands.RustInterpreter.GetPreimage | bitcoin_client_rs/src/interpreter.rs:124-162 | the same answer as the Python client for the preimage found |
| ClientCommands.RustInterpreter.GetMerkleLeafProof | bitcoin_client_rs/src/interpreter.rs:164-221 | the same answer as the Python client for the tree found |
| ClientCommands.RustInterpreter.GetMoreElements | bitcoin_client_rs/src/interpreter.rs:249-274 | the same chunking as the Python client |
| DeviceRequests.FoldElements | src/handler/lib/get_merkle_leaf_hash.c:73-92 | the elements of one response are folded along the last directions of the path; fails exactly when the proof is longer than the path |
| DeviceRequests.TakeElements | src/handler/lib/get_merkle_leaf_hash.c:73-125 | after the elements of a response the request continues with the whole proof so far, and is compared with the root once it is complete |
| DeviceRequests.StartLeaf | src/handler/lib/get_merkle_leaf_hash.c:15-125 | the first response leads to a state from which the remaining responses decide as in the whole request |
| DeviceRequests.ContinueLeaf | src/handler/lib/get_merkle_leaf_hash.c:73-125 | so does every further response |
| DeviceRequests.GetMerkleLeafHash | src/handler/lib/get_merkle_leaf_hash.c:15-129 | the claimed leaf if its proof is accepted, and failure on every malformed, short or excessive response |
| DeviceRequests.StartPreimage | src/handler/lib/get_preimage.c:9-107 | the first response leads to the state that its header and bytes give, with the bytes that fit the output |
| DeviceRequests.ContinuePreimage | src/handler/lib/get_preimage.c:61-107 | so does every further response, with the hash compared at the end |
| DeviceRequests.ResumeStart | src/handler/lib/get_preimage.c:9-109 | going on from the first state is the whole request |
| DeviceRequests.ResumeNext | src/handler/lib/get_preimage.c:9-109 | going on from the next state is going on with one more response |
| DeviceRequests.GetPreimage | src/handler/lib/get_preimage.c:9-109 | the length of the accepted preimage as a signed 32-bit number, and its bytes if they fit the output; negative for every malformed, short or excessive response and for a wrong hash |
| Protocol.HonestLeafAccepted | src/handler/lib/get_merkle_leaf_hash.c:15-129 | from honest responses the device obtains the leaf at the index, for every tree and index |
| Protocol.HonestPreimageAcceptedIff | src/handler/lib/get_preimage.c:9-109 | from honest responses the device obtains exactly the preimage if and only if it has 1 to 2^32 - 1 bytes |
| Protocol.EmptyPreimageRefused | src/handler/lib/get_preimage.c:9-109 | the empty preimage is refused |
| Protocol.AcceptedHashIsOnPath | src/handler/lib/get_merkle_leaf_hash.c:15-129 | from any responses, an accepted hash is the value of the node on the path at the depth of the claimed proof, or the responses exhibit a collision |
| Protocol.EveryNodeOnPathAccepted | src/handler/lib/get_merkle_leaf_hash.c:15-129 | and every node on the path is accepted with the siblings above it |
| Protocol.NodeCollisionIsShaCollision | src/common/merkle.c:40-50 | a collision of node hashes is one of SHA-256 |
| Protocol.LeafGoesOn | src/handler/lib/get_merkle_leaf_hash.c:73-125 | while the device needs more of the proof, the client's queue holds exactly the rest of it, and one more request keeps that |
| Protocol.PreimageGoesOn | src/handler/lib/get_preimage.c:61-107 | while the device needs more bytes, the queue holds the rest of the preimage and is never found empty, and one more request keeps that |
| Protocol.AskPreimageFromPython | src/handler/lib/get_preimage.c:61-107 | asking in turns from any such state ends as the whole request does |
| Protocol.AskPreimageFromRust | bitcoin_client_rs/src/interpreter.rs:249-274 | the same with the Rust client |
| Protocol.FetchLeafFromPython | src/handler/lib/get_merkle_leaf_hash.c:15-129 | device and Python client in turns: the leaf exactly when the tree is known with that size and the index is inside, failure otherwise, and the queue is empty again |
| Protocol.FetchLeafFromRust | bitcoin_client_rs/src/interpreter.rs:164-274 | the same with the Rust client |
| Protocol.FetchPreimageFromPython | src/handler/lib/get_preimage.c:9-109 | device and Python client in turns: the preimage filed under the hash if its length is not zero and fits 32 bits, an error if it is empty or unknown; the queue is empty again exactly for lengths below 2^32 |
| Protocol.FetchPreimageFromRust | bitcoin_client_rs/src/interpreter.rs:124-274 | the same with the Rust client |
| Thresh.BestIsBest | src/common/wallet.c:2115-2186 | the recurrence yields the greatest saturating cost over all ways to satisfy exactly k children, and -1 exactly if none is feasible |
| Thresh.NextRow | src/common/wallet.c:2115-2152 | one row of the table follows from the row before |
| Thresh.ThreshCosts | src/common/wallet.c:2115-2186 | both table programs return the entries for k and for 0, and fail beyond 128 children |
| Thresh.EntryIsBest | src/common/wallet.c:2115-2186 | the entry read is the best cost if and only if k does not exceed the number of children |
| Thresh.EntryPastTheEnd | src/common/wallet.c:2115-2186 | an input with k above it, where a cost is reported although no choice exists |
| MiniscriptConsistency.BinaryNode | src/common/wallet.c:993-1380 | each two-child rule keeps the nine invariants between type modifiers and flags |
| MiniscriptConsistency.AndOrNode | src/common/wallet.c:929-992 | so does andor |
| MiniscriptConsistency.WrapNode | src/common/wallet.c:1811-1972 | so does every wrapper |
| MiniscriptConsistency.ThreshNode | src/common/wallet.c:1381-1497 | so does thresh |
| MiniscriptConsistency.EveryNodeConsistent | src/common/wallet.c:803-1972 | every node of every accepted expression satisfies the invariants |
| MiniscriptSize.PushSizeIsLength | src/common/script.c:16-29 | the size of a number push is the length of its minimal encoding |
| MiniscriptSize.NumberValue | src/common/script.c:16-29 | that encoding has the value of the number, leaves the sign bit clear and could not be shorter |
| MiniscriptSize.EveryMatches | src/common/wallet.c:2206-2908 | size, operation count and x of every accepted expression measure its Script translation |
| MiniscriptSize.SizeOfAccepted | src/common/wallet.c:2206-2908 | size and count are those of the Script modulo 2^16, exact when they fit, and x is false exactly when the last operation has a VERIFY form |
| MiniscriptText.EveryBrief | src/common/wallet.h:54-58 | every character of a policy stands for at most 12 bytes of script |
| MiniscriptText.TextFits | src/common/wallet.h:54-58 | so size and operations of a policy of at most 512 characters fit the 16-bit fields |
| MiniscriptWays.CanonicalWithin | src/common/wallet.c:2206-2908 | the canonical witnesses are among all witnesses |
| MiniscriptSafety.ChooseSigned | src/common/wallet.c:2635-2694 | if fewer than k children can be satisfied without a signature, every way to satisfy k children has one |
| MiniscriptSafety.EveryGuarded | src/common/wallet.c:2206-2908 | s: no satisfaction without a signature; f: no dissatisfaction without one; d: some dissatisfaction without one; type V: no dissatisfaction; for all witnesses that the tables of BIP 379 give to accepted expressions |
| MiniscriptExactness.ChooseUnsigned | src/common/wallet.c:2635-2694 | if k children can be satisfied without a signature, some choice of k children is without one |
| MiniscriptExactness.FlagsExact | src/common/wallet.c:2206-2908 | s holds if and only if every satisfaction has a signature, and f if and only if every dissatisfaction has one, for all accepted expressions |
| MiniscriptUniqueness.OneDissatisfaction | src/common/wallet.c:2206-2908 | with m and e there is exactly one dissatisfaction without a signature, if the children of every thresh have m |
| MiniscriptUniqueness.ThreshUniqueIff | src/common/wallet.c:2635-2694 | a thresh with e has at most one if and only if each of its children has |
| MiniscriptUniqueness.LooseThresh | src/common/wallet.c:2645-2683 | an accepted thresh with m and e that has two |
| MiniscriptUniqueness.TightThresh | src/common/wallet.c:2645-2683 | an accepted thresh that has one although a child is without m |
| MiniscriptMalleability.ChooseSettled | src/common/wallet.c:2635-2694 | if at most k children can be satisfied without a signature, at most one choice of k children is without one |
| MiniscriptMalleability.OneSatisfaction | src/common/wallet.c:2206-2908 | with m there is at most one satisfaction without a signature, if the children of every thresh have m |
| MiniscriptFirmness.CaseFirm | src/common/wallet.c:2357-2397 | of two alternatives one of which needs a signature, with keys of their own, a witness can always be chosen that its own signatures do not let anybody replace |
| MiniscriptFirmness.OrBFirm | src/common/wallet.c:2501-2534 | so for or_b |
| MiniscriptFirmness.ThreshFirm | src/common/wallet.c:2635-2694 | so for thresh, by satisfying first the children that need no signature |
| MiniscriptThirdParty.PicksDetermined | src/handler/lib/policy.c:852-928 | signatures of a multisig for the same keys are the same |
| MiniscriptThirdParty.EveryKeyed | src/common/wallet.c:2206-2908 | the signatures in all witnesses are of the keys of the expression |
| MiniscriptThirdParty.EveryFirm | src/common/wallet.c:2206-2908 | m, for expressions that use no key twice: whatever keys suffice to satisfy the expression in a transaction suffice for a witness that cannot be replaced with the signatures in it |
| MiniscriptCosts.ChoosePriced | src/common/wallet.c:2115-2186 | the recurrence over children whose costs are greatest is the greatest cost over all witnesses that satisfy exactly k of them |
| MiniscriptCosts.ThreshPricedIff | src/common/wallet.c:2635-2694 | the costs of thresh are the greatest if and only if k does not exceed the number of children |
| MiniscriptCosts.AndOrKeysIff | src/common/wallet.c:2357-2397 | the key count of andor is the greatest if and only if y's and x's dissatisfactions count the same beside z, or neither counts for more than satisfying x and y |
| MiniscriptCosts.AndNKeysIff | src/common/wallet.c:2468-2500 | the same for and_n |
| MiniscriptCosts.WrapLKeysIff | src/common/wallet.c:2881-2908 | the key count of l is the greatest if and only if its child can be dissatisfied |
| MiniscriptCosts.WrapUKeysIff | src/common/wallet.c:2881-2908 | the same for u |
| MiniscriptCosts.TimedOrKeys | src/common/wallet.c:2357-2397 | an accepted andor for which no key is counted although a satisfaction checks one |
| MiniscriptCosts.AndNeverKeys | src/common/wallet.c:2468-2500 | an accepted and_n with a key count although it has no satisfaction |
| MiniscriptCosts.WrappedOlderKeys | src/common/wallet.c:2881-2908 | accepted l and u without a key count for a dissatisfaction that they have |
| MiniscriptCosts.CostsAreGreatest | src/common/wallet.c:2206-2908 | stack sizes and key counts are the greatest over all canonical witnesses, and -1 where there are none, at every node if and only if the condition holds at every node |
| MiniscriptTimelocks.ChooseTimed | src/common/wallet.c:2650-2673 | the flags folded over the children cover the locks of every choice and exclude mixes |
| MiniscriptTimelocks.EveryTimed | src/common/wallet.c:2206-2908 | g, h, i and j name all locks of canonical satisfactions, and with k none needs time and height locks of one sort |
| MiniscriptTimelocks.HeldIffNotMixed | src/common/wallet.c:2206-2908 | some transaction meets all locks of a set if and only if the set does not mix time and height locks of one sort |
| ScriptMachine.RunConcat | src/handler/lib/policy.c:608-731 | a script made of two runs one after the other |
| ScriptMachine.RunVerify | src/handler/lib/policy.c:593-606 | merging VERIFY into the last operation changes no run of any script |
| ScriptMachine.ExecBlock | src/handler/lib/policy.c:224-325 | IF, ELSE and ENDIF around two proper scripts run exactly one of them, on the stack without the condition |
| MiniscriptShape.EveryShaped | src/common/wallet.c:803-1972 | z: all witnesses are empty; o: they have one element; n: the top element of a satisfaction is not empty; for all witnesses of all accepted expressions |
| MiniscriptSums.MatchesIffPicked | src/handler/lib/policy.c:852-928 | CHECKMULTISIG's comparison from the end accepts exactly the signatures of some of the keys in their order |
| MiniscriptSums.MultiDoes | src/handler/lib/policy.c:852-928 | the script of multi does what its witnesses say, for all keys and thresholds |
| MiniscriptSums.MultiADoes | src/handler/lib/policy.c:930-1002 | so does that of multi_a |
| MiniscriptSums.ThreshDoes | src/handler/lib/policy.c:787-850 | so does the sum of thresh over children that do |
| MiniscriptMeaning.EveryMeans | src/common/wallet.c:803-1972 | the translation of every accepted expression whose and_v have a first child of type V does what its type and its witnesses say, on every stack |
| MiniscriptMeaning.AcceptsIff | src/common/wallet.c:803-1972 | a witness makes the translation succeed, or end in 0, if and only if it satisfies, or dissatisfies, the expression and the transaction meets its timelocks |
| MiniscriptEmission.FlagVerifies | src/handler/lib/policy.c:593-606 | for every expression of type B, emitting with the flag gives the script with VERIFY merged into its last operation or appended |
| MiniscriptEmission.EmitIs | src/handler/lib/policy.c:169-325 | where pk_k is only the first child of and_v, the emitted script is the translation with v:pk in its place |
| MiniscriptEmission.VerifiedType | src/common/wallet.c:803-1972 | the replacement does not change the type |
| MiniscriptEmission.VerifiedWays | src/common/wallet.c:803-1972 | nor the witnesses |
| MiniscriptEmission.SumEmits | src/handler/lib/policy.c:787-850 | the steps of thresh with their late ADD emit the sum |
| MiniscriptEmission.EmitLonger | src/handler/lib/policy.c:169-325 | the emitted script is one byte and one operation longer than the translation for each pk_k |
| MiniscriptEmission.EmitsTranslationIff | src/handler/lib/policy.c:169-325 | and equal to it if and only if there is no pk_k |
| MiniscriptSanity.ScriptAcceptsIff | src/handler/lib/policy.c:169-325 | a witness makes the emitted script succeed, or end in 0, if and only if it is one of the expression and the transaction meets its timelocks, under the condition on pk_k and and_v |
| MiniscriptSanity.SaneWays | src/handler/lib/policy.c:1852-1912 | by the tables every satisfaction of an accepted policy has a signature, and no canonical one mixes timelocks |
| MiniscriptSanity.SaneNeedsSignature | src/handler/lib/policy.c:1852-1912 | every witness that the emitted script of an accepted policy accepts has a signature, under that condition |
| MiniscriptSanity.CanonicalAccepted | src/handler/lib/policy.c:169-325 | every canonical satisfaction is accepted in every transaction that meets its timelocks |
| MiniscriptSanity.SaneCanBeSpent | src/handler/lib/policy.c:1852-1912 | and for an accepted policy there is such a transaction |
| MiniscriptSanity.ScriptGuarded | src/common/wallet.c:2206-2908 | with s every accepted witness of the emitted script has a signature, with f every witness on which it ends in 0 |
| MiniscriptSanity.ScriptDeclinesOne | src/common/wallet.c:2206-2908 | with m and e, and m in the children of every thresh, at most one witness without a signature makes it end in 0 |
| MiniscriptSanity.ScriptAcceptsOne | src/common/wallet.c:2206-2908 | with m, and m in the children of every thresh, at most one witness without a signature makes the emitted script succeed |
| MiniscriptSanity.ScriptUnguarded | src/common/wallet.c:2206-2908 | without s some witness without a signature is accepted whenever its timelocks are met |
| MiniscriptSanity.SaneNotMalleable | src/handler/lib/policy.c:1852-1912 | whoever has keys that suffice to spend an accepted policy in a transaction has a witness with these keys that the script accepts and that nobody can replace by another with the signatures in it alone |
| MiniscriptSanity.SelectableRefused | src/common/wallet.c:2600-2634 | and_v(v:pk(a),or_i(older(m),after(n))) always needs a signature and is refused for want of m |
| MiniscriptSanity.SelectableReplaceable | src/common/wallet.c:2600-2634 | its script accepts two witnesses with the same signature |
| MiniscriptSanity.UnverifiedUnsigned | src/common/wallet.c:1023-1029 | and_v(pk(a),l:1) passes all checks and its script accepts a witness without a signature, in every transaction |
| MiniscriptSanity.UnverifiedHarmless | src/common/wallet.c:1023-1029 | and_v(0,1) fails the condition and its script still accepts exactly its witnesses, of which there are none |
| MiniscriptSanity.BareKeyRefused | src/handler/lib/policy.c:171-173 | c:pk_k(a) passes all checks, and the emitted script does not accept the signature that the translation accepts |
| MiniscriptSanity.TooManyUnsatisfiable | src/common/wallet.c:1381-1497 | thresh(2,pk(a)) passes all checks, and no witness satisfies its script |
| MiniscriptSanity.ScriptMeasures | src/common/wallet.c:2206-2908 | size and operations of the emitted script are those of the second pass plus one for each pk_k: modulo 2^16 always, exactly for policies of at most 512 characters |
| MiniscriptSanity.OneOverTheLimit | src/handler/lib/policy.c:1852-1912 | an accepted policy of that length whose emitted script has 202 operations |
| MiniscriptVectors.SaneRecovery | tests/test_e2e_miniscript.py:208-208 | and_v(v:pk(a),or_d(pk(b),older(12960))) is accepted |
| MiniscriptVectors.SaneContract | tests/test_e2e_miniscript.py:252-252 | so is t:or_c(pk(a),and_v(v:pk(b),or_c(pk(c),v:hash160(h)))) |
| MiniscriptVectors.SaneChannel | tests/test_e2e_miniscript.py:275-275 | so is andor(pk(a),or_i(and_v(v:pkh(b),hash160(h)),older(1008)),pk(c)) |
| MiniscriptVectors.SaneBackup | tests/test_e2e_miniscript.py:299-299 | so is or_d(pk(a),multi(3,b,c,d,e,f)) |
| MiniscriptVectors.VectorOrDefault | unit-tests/test_wallet.c:638-638 | the flags, size, operations and stack that the unit test expects |
| MiniscriptVectors.VectorAndNone | unit-tests/test_wallet.c:655-655 | the same for an expression that mixes timelocks |
| MiniscriptSanity.SaneFitsStack | src/handler/lib/policy.c:1852-1912 | where costs are exact, there is a canonical satisfaction and none takes more than 100 stack elements |
| MiniscriptSanity.SaneFitsOps | src/handler/lib/policy.c:1852-1912 | where key counts are exact, operations and keys stay within 201 but for one operation per pk_k, exactly so for policies of at most 512 characters |
| MiniscriptSanity.SaneFitsSize | src/handler/lib/policy.c:1852-1912 | the script has at most 3600 bytes but for one per pk_k, exactly so for policies of at most 512 characters |
| Base58.CellsSuffice | src/common/base58.c:111-159 | the 138/100 buffer holds the value of any number of bytes |
| Base58.Alphabet | src/common/base58.c:24-43 | the 58 characters in order |
| Base58.MultiplyAdd | src/common/base58.c:111-159 | with the early exit the cells hold 256 times the number plus the byte, the loop never runs out of cells and cells before the new bound are zero |
| Base58.FillBuffer | src/common/base58.c:111-159 | the digits of all bytes after the leading zeros |
| Base58.Encode | src/common/base58.c:111-159 | the text has the value of the bytes and one leading '1' per leading zero; fails on more than 120 bytes or a short output, which it leaves alone |
| Base58.DivideBy256 | src/common/base58.c:45-109 | quotient in place, remainder returned, and the leading digit always becomes zero |
| Base58.FillBytes | src/common/base58.c:45-109 | the passes fill the buffer from its end with the value of the digits |
| Base58.Decode | src/common/base58.c:45-109 | the bytes have the value and the leading zeros of the text; fails on other lengths, foreign characters or a short output |
| Base58.RewriteUnique | src/common/base58.c:45-159 | value and leading zeros determine the result |
| Base58.DecodeEncode | src/common/base58.c:45-159 | decoding undoes encoding |
| Base58.EncodeDecode | src/common/base58.c:45-159 | encoding undoes decoding |
| Base58.EncodeThenDecode | src/common/base58.c:45-159 | running one after the other returns the input if and only if it has at least two bytes, or one of value 58 or more |
| Base58.TextIsReadable | src/common/base58.c:45-159 | the text of at most 120 bytes never exceeds the 164 characters that decoding reads |
| Base58.TextLengthIff | src/common/base58.c:45-159 | and has the two characters that decoding needs exactly for those inputs |
| Base58.ShortTextNotRead | src/common/base58.c:45-58 | the byte 7 is one that is not read back |
| Polymod.StepLinear | src/common/segwit_addr.c:30-38 | the checksum step is linear over exclusive or |
| Polymod.RunLinear | src/common/segwit_addr.c:30-38 | feeding symbols splits into idle steps on one part of the register and the symbols on the other |
| Polymod.ChecksumReaches | src/common/segwit_addr.c:84-91 | the six symbols read off the register bring it to the target |
| Polymod.StepKernel | src/common/segwit_addr.c:30-38 | only the clear register steps to the clear register |
| Bch.StepMultiplies | src/common/segwit_addr.c:30-38 | one step multiplies by x modulo the generator polynomial x^6 + 29x^5 + 22x^4 + 20x^3 + 21x^2 + 29x + 18 over the field with 32 elements, which is defined on its own |
| Bch.RegisterIsRemainder | src/common/segwit_addr.c:30-38 | after any symbols the message is a multiple of that polynomial plus the register |
| Bch.RemainderUnique | src/common/segwit_addr.c:30-38 | quotient and remainder of a message are unique |
| Bch.RegisterIff | src/common/segwit_addr.c:30-38 | the register ends at a value if and only if the message is a multiple of the polynomial plus that value |
| Polymod.BurstChangesRegister | src/common/segwit_addr.c:30-38 | messages that differ within six consecutive symbols only leave different checksums |
| Bech32.SymbolOfChar | src/common/segwit_addr.c:47-58 | the reverse table undoes the character set, which has no '1' and no capital |
| Bech32.CharOfSymbol | src/common/segwit_addr.c:47-58 | and the character set undoes the reverse table up to case |
| Bech32.ChecksumVerifies | src/common/segwit_addr.c:60-94 | the created checksum verifies for its encoding |
| Bech32.ChecksumUnique | src/common/segwit_addr.c:60-94 | and is the only one that does |
| Bech32Vectors.VerifiesIff | src/common/segwit_addr.c:60-157 | a checksum verifies if and only if 1, the expanded human-readable part and the symbols are congruent to the constant of the encoding modulo the generator polynomial |
| Bech32Vectors.CharacterSet | src/common/segwit_addr.c:47-58 | the 32 characters in order |
| Bech32Vectors.VectorBech32 | src/common/segwit_addr.c:60-94 | the test vector A12UEL5L of BIP 173 |
| Bech32Vectors.VectorBech32m | src/common/segwit_addr.c:60-94 | the test vector A1LQFN3A of BIP 350 |
| Bech32.BurstDetected | src/common/segwit_addr.c:96-157 | two verifying symbol lists never differ within six consecutive symbols only |
| Bech32.Encode | src/common/segwit_addr.c:60-94 | succeeds exactly on readable parts without capitals, 5-bit data and at most 90 characters, with the text made of part, '1', data and checksum |
| Bech32Decode.FindSeparator | src/common/segwit_addr.c:104-107 | the position of the last '1' |
| Bech32Decode.Decode | src/common/segwit_addr.c:96-157 | the one meaning of the text as BIP 173 defines it, or failure exactly when it has none |
| Bech32Decode.DecodingUnique | src/common/segwit_addr.c:96-157 | a text has at most one meaning |
| Bech32RoundTrip.RoundTrip | src/common/segwit_addr.c:60-157 | encoded texts decode to what was encoded if and only if the human-readable part is not empty |
| Bech32RoundTrip.DecodedEncodes | src/common/segwit_addr.c:60-157 | every text that decodes is, in lower case, the encoding of its meaning |
| Bech32RoundTrip.TypoDetected | src/common/segwit_addr.c:96-157 | texts that decode with one part, length and encoding never differ within six consecutive characters only |
| ConvertBits.Regroup | src/common/segwit_addr.c:159-179 | the loop with its 32-bit accumulator loses no bit and leaves less than one output number |
| ConvertBits.ConvertPadded | src/common/segwit_addr.c:159-179 | with padding the bits are kept and followed by less than one number of zeros |
| ConvertBits.ConvertExact | src/common/segwit_addr.c:159-179 | without padding it succeeds exactly if the bits left over are fewer than an input number and all zero |
| SegwitAddress.RegroupUnique | src/common/segwit_addr.c:159-179 | a program determines its symbols |
| SegwitAddress.RegroupInjective | src/common/segwit_addr.c:159-179 | and the symbols determine the program |
| SegwitAddress.Encode | src/common/segwit_addr.c:181-193 | the text that encodes version and program, or failure exactly when there is none |
| SegwitAddress.Decode | src/common/segwit_addr.c:195-212 | the version and program that the text is an address of, or failure exactly when there are none |
| SegwitAddress.AddressRegister | src/common/segwit_addr.c:195-212 | an address of version 0 brings the register to 1, and one of any other version to 0x2bc830a3 |
| SegwitAddress.EncodedRegister | src/common/segwit_addr.c:181-193 | so does an encoded one |
| SegwitAddress.AddressBounds | src/common/segwit_addr.c:195-212 | the versions and lengths of programs that are allowed, and the length of the text they give |
| SegwitAddress.AddressRoundTrip | src/common/segwit_addr.c:181-212 | decoding undoes encoding if and only if the human-readable part is not empty and the version is not negative |
| SegwitAddress.NegativeVersionEncoded | src/common/segwit_addr.c:181-193 | version -256 is encoded, with the byte 0, to a text that is no address of it |
| SegwitAddress.AddressEncodes | src/common/segwit_addr.c:181-212 | every address is, in lower case, the encoding of its version and program |
| SegwitAddress.AddressUnique | src/common/segwit_addr.c:195-212 | a text is the address of at most one version and program |
| SegwitAddress.AddressTypo | src/common/segwit_addr.c:195-212 | addresses with one human-readable part and one length, both or neither of version 0, never differ within six consecutive characters only |
| Amounts.DoubledValue | src/swap/btchip_bcd.c:20-88 | correcting and shifting decimal digits doubles the number and adds the bit |
| Amounts.ShiftIn | src/swap/btchip_bcd.c:20-88 | one bit with the moving bound doubles the number, and cells before the bound stay zero |
| Amounts.ToDecimal | src/swap/btchip_bcd.c:20-88 | after all 64 bits the cells are the decimal digits of the amount |
| Amounts.PrintWhole | src/swap/btchip_bcd.c:20-88 | the whole part without redundant leading digits |
| Amounts.PrintFraction | src/swap/btchip_bcd.c:20-88 | the fractional digits without trailing zeros, and the point only in front of some |
| Amounts.DisplayAmount | src/swap/btchip_bcd.c:20-88 | the text is a plain decimal that is worth exactly the amount in units of 10^-8 |
| Amounts.DecimalInjective | src/swap/btchip_bcd.c:20-88 | the text determines its digits |
| Amounts.TextDeterminesAmount | src/swap/btchip_bcd.c:20-88 | amounts with the same text are equal |
| OpReturn.UntokenToken | src/common/script.c:119-221 | a displayed push stands for exactly the bytes it was made from |
| OpReturn.SpacedDetermines | src/common/script.c:119-221 | the displayed pushes determine the bytes after OP_RETURN |
| OpReturn.TextDeterminesScript | src/common/script.c:119-221 | two accepted scripts with the same text are the same script |
| OpReturnPushes.MinimalToken | src/common/script.c:119-221 | a minimal push of an item is displayed as the item, whatever follows |
| OpReturnPushes.DescribedIff | src/common/script.c:119-221 | a script is displayed if and only if it is OP_RETURN and at most five minimal pushes in at most 83 bytes |
| OpReturnPushes.DisplayableShown | src/common/script.c:119-221 | and the text is that of the items, numbers in decimal and other data in hexadecimal |
| OpReturnPushes.NotMinimal | src/common/script.c:119-221 | a one-byte push of 5 is refused |
| OpReturnPushes.MinimalShown | src/common/script.c:119-221 | and its opcode is displayed as 5 |
| OpReturn.WriteToken | src/common/script.c:119-221 | writes the text of the next push within the buffer, or fails exactly when it has none |
| OpReturn.WriteTokens | src/common/script.c:119-221 | writes all pushes up to the limit of five |
| OpReturn.Format | src/common/script.c:119-221 | the description with its terminator within 185 characters, or -1 exactly for scripts without one |

## Left out

- Musig.GetSessionValues: promises only that R is finite when some key does not decode, because the code ignores the result of key aggregation there and goes on with what the context holds.
- Musig.SecretNonce.Sign: the same for signing in a session with an undecodable key; that a zeroed nonce never signs is promised always.
- MiniscriptSafety.EveryGuarded: about the witnesses of the tables; what follows for the emitted script is `MiniscriptSanity.ScriptGuarded`.
- MiniscriptUniqueness.OneDissatisfaction: has the condition on the children of thresh in one direction only, because the other is false (`MiniscriptUniqueness.TightThresh`); the exact condition is given per thresh node.
- MiniscriptTimelocks.EveryTimed: one direction; an expression without k may still have no satisfaction that mixes timelocks, because k does not look at which branches can be satisfied.
- MerkleVector.MerkleTree.Set: the index of an existing element; appending (`MerkleTree.add`) descends by halving sizes and is not modelled.
- MerkleShape.CeilLgU32: sizes up to 2^31; above, the loop does not end and there is no result to specify, which `MerkleShape.LogarithmEndsIff` states.
- MerkleShape.OneLevel: the same.
- MerkleShape.GetIthDirection: the same, except that an index outside the tree is answered for every size, as in the code.
- DeviceRequests.FoldElements: the same.
- DeviceRequests.TakeElements: the same.
- DeviceRequests.StartLeaf: the same.
- DeviceRequests.ContinueLeaf: the same.
- DeviceRequests.GetMerkleLeafHash: the same. The Fetch methods have no such bound, because the clients answer only for trees that they hold.
- Thresh.ThreshCosts: k up to 129, the length of the table; the code reads outside it above, and the model of the second pass rejects such expressions.
- MiniscriptSanity.SaneNeedsSignature: the condition on `pk_k` and `and_v` in one direction; it is not necessary, as `MiniscriptSanity.UnverifiedHarmless` shows.
- Curve points: decompression of an x coordinate that is not on the curve fails as a whole; the library's partial writes to the output on failure are not modelled.
- `musig_nonce_gen`, `compute_rand_i_j` and the hash functions: parameters, or not part of this model.
- `musigsession_commit` and `musigsession_initialize_signing_state` are called as the header describes a flow; the handlers around them are not modelled.
- MiniscriptMalleability.OneSatisfaction: has the condition on the children of thresh in one direction, as `MiniscriptUniqueness.OneDissatisfaction`.
- MiniscriptThirdParty.EveryFirm: one direction; m is conservative, and an expression without it may still have such witnesses. Preimages are taken to be known to everybody.
- MiniscriptVectors.SaneRecovery: with the other vectors a sample; the types and flags of further expressions are not listed.
- Stack elements of the Script machine are symbolic: a signature is valid for one key, hashes do not collide, and numbers are unbounded. IF takes only 1 or the empty element, failing signatures have to be empty, and at the end one element is left, as the relay rules ask. The number of operations and the sizes of elements do not stop a run.
- `sortedmulti` and `sortedmulti_a`, which sort the derived public keys.
- The text side of the descriptor parser, its arena of relative pointers, and key expressions.
- Parsing of request bytes, GET_MERKLE_LEAF_INDEX, YIELD and the dispatch of client commands; the clients' maps are sequences and maps of values.
- Bech32 texts are grown as values instead of through an output pointer, and a human-readable part has no zero character inside.
- The reverse table of Bech32 is given as a case distinction over lower-case characters, and the alphabet of base 58 as ranges.
- PSBT, transaction serialization, address derivation, user interface, swap glue, and everything else around the modelled functions.
