/**
 Merkle trees as `generate-proof.ts` builds them, proof paths through them, and the
 verifier of `clarity-bitcoin.clar`. The hash is any function to 32 bytes.
 */
module Merkle {
  import opened Bytes
  import opened Clarity
  import opened Options

  type Hash = h: Buff | |h| == 32 witness seq(32, _ => 0)

  /** SHA-256 applied twice. */
  function DSha(sha: Buff -> Hash, data: Buff): Hash {
    sha(sha(data))
  }

  // --- The tree ---

  /** The two nodes hashed together at position `i`: the last node of an odd level is
      paired with itself. */
  function Pair(level: seq<Hash>, i: nat): (p: Buff)
    requires 2 * i < |level|
    ensures |p| == 64
  {
    var left: Buff := level[2 * i];
    left + (if 2 * i + 1 < |level| then level[2 * i + 1] else left)
  }

  function LevelFrom(sha: Buff -> Hash, level: seq<Hash>, i: nat): (next: seq<Hash>)
    requires 2 * i <= |level| + 1
    ensures |next| == (|level| + 1) / 2 - i
    ensures forall k :: 0 <= k < |next| ==> next[k] == DSha(sha, Pair(level, i + k))
    decreases |level| + 1 - 2 * i
  {
    if 2 * i >= |level| then [] else [DSha(sha, Pair(level, i))] + LevelFrom(sha, level, i + 1)
  }

  function NextLevel(sha: Buff -> Hash, level: seq<Hash>): (next: seq<Hash>)
    ensures |next| == (|level| + 1) / 2
    ensures forall k :: 0 <= k < |next| ==> next[k] == DSha(sha, Pair(level, k))
  {
    LevelFrom(sha, level, 0)
  }

  /** All levels of the tree, from the leaves to the root. */
  function Layers(sha: Buff -> Hash, leaves: seq<Hash>): (layers: seq<seq<Hash>>)
    requires leaves != []
    ensures layers != [] && layers[0] == leaves
    decreases |leaves|
  {
    if |leaves| == 1 then [leaves] else [leaves] + Layers(sha, NextLevel(sha, leaves))
  }

  function Root(sha: Buff -> Hash, leaves: seq<Hash>): Hash
    requires leaves != []
    decreases |leaves|
  {
    if |leaves| == 1 then leaves[0] else Root(sha, NextLevel(sha, leaves))
  }

  function Depth(n: nat): nat
    requires n > 0
  {
    if n == 1 then 0 else 1 + Depth((n + 1) / 2)
  }

  function Pow2(n: nat): (p: nat)
    ensures p > 0
  {
    if n == 0 then 1 else 2 * Pow2(n - 1)
  }

  /** `generateBitcoinMerkleTree` appends the levels to a list it is given. */
  class MerkleTree {
    var layers: seq<seq<Hash>>

    constructor ()
      ensures layers == []
    {
      layers := [];
    }

    method Generate(sha: Buff -> Hash, data: seq<Hash>)
      requires data != []
      modifies this
      ensures layers == old(layers) + Layers(sha, data)
      decreases |data|
    {
      hide Layers, NextLevel, LevelFrom;
      LayersUnfold(sha, data);
      ghost var before := layers;
      layers := layers + [data];
      if |data| == 1 {
        return;
      }
      var newLevel := HashPairs(sha, data);
      Generate(sha, newLevel);
      Reassociate(before, data, Layers(sha, newLevel));
    }
  }

  /** The loop over one level of `generateBitcoinMerkleTree`. */
  method HashPairs(sha: Buff -> Hash, data: seq<Hash>) returns (newLevel: seq<Hash>)
    ensures newLevel == NextLevel(sha, data)
    ensures |newLevel| == (|data| + 1) / 2
    ensures forall k :: 0 <= k < |newLevel| ==>
              var left: Buff, right: Buff := data[2 * k], data[if 2 * k + 1 < |data| then 2 * k + 1 else 2 * k];
              newLevel[k] == sha(sha(left + right))
  {
    LevelHashes(sha, data);
    hide DSha, LevelFrom, NextLevel, Pair;
    ghost var next := NextLevel(sha, data);
    newLevel := [];
    var i := 0;
    while i < |data|
      invariant i % 2 == 0 && i <= |data| + 1
      invariant |newLevel| == i / 2
      invariant forall k :: 0 <= k < i / 2 ==> newLevel[k] == next[k]
    {
      var d1: Buff := data[i];
      var d2: Buff := if i + 1 < |data| then data[i + 1] else d1;
      PairIs(data, i / 2, d1, d2);
      newLevel := newLevel + [DSha(sha, d1 + d2)];
      i := i + 2;
    }
  }

  /** Every node is the double hash of its two children, the left one first; the last child of
      an odd level stands on both sides. */
  lemma LevelHashes(sha: Buff -> Hash, level: seq<Hash>)
    ensures forall k :: 0 <= k < |NextLevel(sha, level)| ==>
              var left: Buff, right: Buff := level[2 * k], level[if 2 * k + 1 < |level| then 2 * k + 1 else 2 * k];
              NextLevel(sha, level)[k] == sha(sha(left + right))
  {
    hide LevelFrom, NextLevel;
    forall k | 0 <= k < |NextLevel(sha, level)|
      ensures var left: Buff, right: Buff := level[2 * k], level[if 2 * k + 1 < |level| then 2 * k + 1 else 2 * k];
              NextLevel(sha, level)[k] == sha(sha(left + right))
    {
      PairIs(level, k, level[2 * k], if 2 * k + 1 < |level| then level[2 * k + 1] else level[2 * k]);
    }
  }

  lemma PairIs(level: seq<Hash>, i: nat, left: Buff, right: Buff)
    requires 2 * i < |level| && left == level[2 * i]
    requires right == if 2 * i + 1 < |level| then level[2 * i + 1] else left
    ensures Pair(level, i) == left + right
  {
  }

  lemma LayersUnfold(sha: Buff -> Hash, leaves: seq<Hash>)
    requires leaves != []
    ensures Layers(sha, leaves) ==
            if |leaves| == 1 then [leaves] else [leaves] + Layers(sha, NextLevel(sha, leaves))
  {
  }

  lemma Reassociate(before: seq<seq<Hash>>, level: seq<Hash>, above: seq<seq<Hash>>)
    ensures before + [level] + above == before + ([level] + above)
  {
  }

  // --- Proof paths ---

  /** The place of the node hashed with node `index` of a level of length `n`; the level
      above the last has no partner. */
  function PairIndex(index: nat, n: nat, last: bool): nat {
    if index % 2 == 1 then index - 1
    else if index == n - 1 && !last then index
    else index + 1
  }

  function ProofPath(index: nat, layers: seq<seq<Hash>>): seq<Hash>
    decreases |layers|
  {
    if layers == [] then []
    else
      var pair := PairIndex(index, |layers[0]|, |layers| == 1);
      (if pair < |layers[0]| then [layers[0][pair]] else []) + ProofPath(index / 2, layers[1..])
  }

  method GetProofPath(index: nat, layers: seq<seq<Hash>>) returns (proof: seq<Hash>)
    ensures proof == ProofPath(index, layers)
  {
    proof := [];
    var node := index;
    for i := 0 to |layers|
      invariant proof + ProofPath(node, layers[i..]) == ProofPath(index, layers)
    {
      var layer := layers[i];
      var isRightNode := node % 2 == 1;
      var pairIndex :=
        if isRightNode then node - 1
        else if node == |layer| - 1 && i < |layers| - 1 then node
        else node + 1;
      assert pairIndex == PairIndex(node, |layers[i..][0]|, |layers[i..]| == 1);
      assert layers[i..][1..] == layers[i + 1..];
      if pairIndex < |layer| {
        proof := proof + [layer[pairIndex]];
      }
      node := node / 2;
    }
  }

  /** The path of the first leaf equal to the one asked for. */
  method GetTxIdProofPath(leaf: Hash, layers: seq<seq<Hash>>) returns (proof: Option<seq<Hash>>)
    requires layers != []
    ensures proof == None <==> leaf !in layers[0]
    ensures proof.Some? ==>
              exists k :: 0 <= k < |layers[0]| && layers[0][k] == leaf && leaf !in layers[0][..k]
                          && proof.value == ProofPath(k, layers)
  {
    var leaves := layers[0];
    for i := 0 to |leaves|
      invariant leaf !in leaves[..i]
    {
      if leaves[i] == leaf {
        var path := GetProofPath(i, layers);
        return Some(path);
      }
    }
    return None;
  }

  // --- The verifier ---

  datatype Proof = Proof(txIndex: nat, hashes: seq<Hash>, treeDepth: nat)

  const ERR_PROOF_TOO_SHORT: nat := 6
  /** A proof has at most fourteen hashes. */
  const MAX_PROOF: nat := 14

  datatype Walk = Walk(path: nat, rootHash: Buff, proofHashes: seq<Hash>, treeDepth: nat, curHash: Hash, verified: bool)

  function ShiftRight(val: nat, bits: nat): nat
    decreases bits
  {
    if bits == 0 then val else ShiftRight(val / 2, bits - 1)
  }

  predicate IsBitSet(val: nat, bit: nat) {
    ShiftRight(val, bit) % 2 == 1
  }

  function InnerMerkleProofVerify(sha: Buff -> Hash, ctr: nat, state: Walk): Walk
    requires ctr < state.treeDepth ==> ctr < |state.proofHashes|
  {
    if state.verified then state
    else if ctr >= state.treeDepth then state.(verified := false)
    else
      var isLeft := IsBitSet(state.path, ctr);
      var h1 := if isLeft then state.proofHashes[ctr] else state.curHash;
      var h2 := if isLeft then state.curHash else state.proofHashes[ctr];
      var nextHash := DSha(sha, h1 + h2);
      state.(curHash := nextHash,
             verified := ctr + 1 == |state.proofHashes| && nextHash == state.rootHash)
  }

  /** The fold over the counters `ctr`, `ctr + 1`, ... below the depth. */
  function FoldVerify(sha: Buff -> Hash, ctr: nat, state: Walk): Walk
    requires state.treeDepth <= |state.proofHashes|
    decreases state.treeDepth - ctr
  {
    if ctr >= state.treeDepth then state
    else FoldVerify(sha, ctr + 1, InnerMerkleProofVerify(sha, ctr, state))
  }

  /** The addition in the path overflows, and aborts, for indices next to the limit of
      a `uint`. */
  function VerifyMerkleProof(sha: Buff -> Hash, reversedTxid: Hash, merkleRoot: Buff, proof: Proof): Response<bool>
  {
    if proof.treeDepth > |proof.hashes| then Err(ERR_PROOF_TOO_SHORT)
    else if Pow2(proof.treeDepth) + proof.txIndex >= UINT_LIMIT then Panic
    else
      var state := Walk(Pow2(proof.treeDepth) + proof.txIndex, merkleRoot, proof.hashes, proof.treeDepth,
                        reversedTxid, false);
      Ok(FoldVerify(sha, 0, state).verified)
  }

  // --- What the verifier computes ---

  /** The hash reached from `node` by hashing with one sibling after another, on the
      side that the bits of `index` say. */
  function Climb(sha: Buff -> Hash, node: Hash, index: nat, siblings: seq<Hash>): Hash
    decreases |siblings|
  {
    if siblings == [] then node
    else Climb(sha, DSha(sha, Joined(node, index, siblings[0])), index / 2, siblings[1..])
  }

  function Joined(node: Hash, index: nat, sibling: Hash): (p: Buff)
    ensures |p| == 64
  {
    var n: Buff, s: Buff := node, sibling;
    if index % 2 == 1 then s + n else n + s
  }

  /** The bit set above the path's `depth` bits does not disturb them. */
  lemma {:induction false} BitBelowDepth(depth: nat, index: nat, ctr: nat)
    requires ctr < depth
    ensures IsBitSet(Pow2(depth) + index, ctr) <==> IsBitSet(index, ctr)
    decreases ctr
  {
    assert Pow2(depth) == 2 * Pow2(depth - 1);
    if ctr > 0 {
      BitBelowDepth(depth - 1, index / 2, ctr - 1);
      assert (Pow2(depth) + index) / 2 == Pow2(depth - 1) + index / 2;
    }
  }

  lemma {:induction false} ShiftOnce(val: nat, bits: nat)
    ensures ShiftRight(val, bits + 1) == ShiftRight(val, bits) / 2
    decreases bits
  {
    if bits > 0 {
      ShiftOnce(val / 2, bits - 1);
    }
  }

  lemma {:induction false} FoldIsClimb(sha: Buff -> Hash, ctr: nat, state: Walk, index: nat)
    requires ctr <= state.treeDepth <= |state.proofHashes| && !state.verified
    requires state.path == Pow2(state.treeDepth) + index
    ensures FoldVerify(sha, ctr, state).verified <==>
            && ctr < state.treeDepth == |state.proofHashes|
            && Climb(sha, state.curHash, ShiftRight(index, ctr), state.proofHashes[ctr..]) == state.rootHash
    decreases state.treeDepth - ctr
  {
    hide Joined, DSha;
    if ctr < state.treeDepth {
      var next := InnerMerkleProofVerify(sha, ctr, state);
      StepClimbs(sha, ctr, state, index);
      if next.verified {
        assert ctr + 1 == |state.proofHashes|;
        assert state.proofHashes[ctr + 1..] == [];
        assert FoldVerify(sha, ctr + 1, next) == next;
      } else {
        FoldIsClimb(sha, ctr + 1, next, index);
        if ctr + 1 == state.treeDepth == |state.proofHashes| {
          assert state.proofHashes[ctr + 1..] == [];
        }
      }
    }
  }

  lemma StepClimbs(sha: Buff -> Hash, ctr: nat, state: Walk, index: nat)
    requires ctr < state.treeDepth <= |state.proofHashes| && !state.verified
    requires state.path == Pow2(state.treeDepth) + index
    ensures var next := InnerMerkleProofVerify(sha, ctr, state);
            && next.(curHash := state.curHash, verified := false) == state
            && next.curHash == DSha(sha, Joined(state.curHash, ShiftRight(index, ctr), state.proofHashes[ctr]))
            && (next.verified <==> ctr + 1 == |state.proofHashes| && next.curHash == state.rootHash)
            && Climb(sha, state.curHash, ShiftRight(index, ctr), state.proofHashes[ctr..])
               == Climb(sha, next.curHash, ShiftRight(index, ctr + 1), state.proofHashes[ctr + 1..])
  {
    hide DSha;
    BitBelowDepth(state.treeDepth, index, ctr);
    ShiftOnce(index, ctr);
    assert state.proofHashes[ctr..][1..] == state.proofHashes[ctr + 1..];
  }

  /** The verifier accepts exactly the non-empty proofs of the announced depth that climb
      to the root; a proof shorter than announced is an error, a longer one is refused. */
  lemma VerifyIsClimb(sha: Buff -> Hash, leaf: Hash, root: Buff, proof: Proof)
    requires |proof.hashes| <= MAX_PROOF && Pow2(proof.treeDepth) + proof.txIndex < UINT_LIMIT
    ensures VerifyMerkleProof(sha, leaf, root, proof) ==
            if proof.treeDepth > |proof.hashes| then Err(ERR_PROOF_TOO_SHORT)
            else Ok(0 < proof.treeDepth == |proof.hashes|
                    && Climb(sha, leaf, proof.txIndex, proof.hashes) == root)
  {
    hide InnerMerkleProofVerify, FoldVerify, Climb;
    if proof.treeDepth <= |proof.hashes| {
      var state := Walk(Pow2(proof.treeDepth) + proof.txIndex, root, proof.hashes, proof.treeDepth, leaf, false);
      FoldIsClimb(sha, 0, state, proof.txIndex);
      assert proof.hashes[0..] == proof.hashes;
    }
  }

  // --- Completeness ---

  lemma {:induction false} DepthBounds(n: nat)
    requires n > 0
    ensures n <= Pow2(Depth(n)) && (n > 1 ==> Pow2(Depth(n) - 1) < n)
    decreases n
  {
    if n > 1 {
      DepthBounds((n + 1) / 2);
      if n > 2 {
        assert Pow2(Depth(n) - 1) == 2 * Pow2(Depth((n + 1) / 2) - 1);
      } else {
        assert Depth(1) == 0 && Pow2(0) == 1;
      }
    }
  }

  lemma {:induction false} Pow2Monotone(a: nat, b: nat)
    requires a <= b
    ensures Pow2(a) <= Pow2(b)
  {
    if a < b {
      Pow2Monotone(a, b - 1);
    }
  }

  /** A tree of at most 2^k leaves is at most k deep. */
  lemma {:induction false} DepthAtMost(n: nat, k: nat)
    requires 0 < n <= Pow2(k)
    ensures Depth(n) <= k
  {
    if n > 1 {
      DepthAtMost((n + 1) / 2, k - 1);
    }
  }

  lemma {:induction false} LayersShape(sha: Buff -> Hash, leaves: seq<Hash>)
    requires leaves != []
    ensures |Layers(sha, leaves)| == Depth(|leaves|) + 1
    ensures Layers(sha, leaves)[Depth(|leaves|)] == [Root(sha, leaves)]
    decreases |leaves|
  {
    if |leaves| > 1 {
      LayersShape(sha, NextLevel(sha, leaves));
    }
  }

  /** Each layer consists of the hashes of the one below. */
  lemma {:induction false} LayersStack(sha: Buff -> Hash, leaves: seq<Hash>, k: nat)
    requires leaves != [] && k + 1 < |Layers(sha, leaves)|
    ensures Layers(sha, leaves)[k + 1] == NextLevel(sha, Layers(sha, leaves)[k])
    decreases |leaves|
  {
    hide NextLevel;
    if k > 0 {
      LayersStack(sha, NextLevel(sha, leaves), k - 1);
    }
  }

  lemma SiblingJoins(sha: Buff -> Hash, level: seq<Hash>, index: nat)
    requires |level| > 1 && index < |level|
    ensures PairIndex(index, |level|, false) < |level|
    ensures Joined(level[index], index, level[PairIndex(index, |level|, false)]) == Pair(level, index / 2)
  {
  }

  /** The generated path of every leaf has exactly the depth of the tree and climbs to
      its root. */
  lemma {:induction false} PathClimbs(sha: Buff -> Hash, leaves: seq<Hash>, index: nat)
    requires index < |leaves|
    ensures |ProofPath(index, Layers(sha, leaves))| == Depth(|leaves|)
    ensures Climb(sha, leaves[index], index, ProofPath(index, Layers(sha, leaves))) == Root(sha, leaves)
    decreases |leaves|
  {
    hide DSha, Pair, Joined;
    var layers := Layers(sha, leaves);
    if |leaves| == 1 {
      assert ProofPath(index / 2, layers[1..]) == [];
      assert ProofPath(index, layers) == [];
    } else {
      var next := NextLevel(sha, leaves);
      assert layers[1..] == Layers(sha, next);
      PathClimbs(sha, next, index / 2);
      SiblingJoins(sha, leaves, index);
      var sibling := leaves[PairIndex(index, |leaves|, false)];
      var path := ProofPath(index, layers);
      assert path == [sibling] + ProofPath(index / 2, Layers(sha, next));
      assert path[1..] == ProofPath(index / 2, Layers(sha, next));
    }
  }

  /** Merkle completeness: for two leaves or more, the verifier accepts the generated
      path of every leaf, with the tree's depth d such that 2^(d-1) < n <= 2^d. */
  lemma MerkleComplete(sha: Buff -> Hash, leaves: seq<Hash>, index: nat)
    requires 2 <= |leaves| <= Pow2(MAX_PROOF) && index < |leaves|
    ensures var d := Depth(|leaves|);
            var path := ProofPath(index, Layers(sha, leaves));
            && 0 < d == |path| <= MAX_PROOF && Pow2(d - 1) < |leaves| <= Pow2(d)
            && VerifyMerkleProof(sha, leaves[index], Root(sha, leaves), Proof(index, path, d)) == Ok(true)
  {
    hide VerifyMerkleProof, Climb, ProofPath, Layers, Root;
    var d := Depth(|leaves|);
    DepthBounds(|leaves|);
    DepthAtMost(|leaves|, MAX_PROOF);
    PathClimbs(sha, leaves, index);
    Pow2Monotone(d, MAX_PROOF);
    LargestPath();
    VerifyIsClimb(sha, leaves[index], Root(sha, leaves), Proof(index, ProofPath(index, Layers(sha, leaves)), d));
  }

  lemma LargestPath()
    ensures Pow2(MAX_PROOF) == 16384
  {
    assert Pow2(4) == 16;
    assert Pow2(8) == 256;
    assert Pow2(12) == 4096;
  }

  /** The one leaf of a one-leaf tree has the empty path, and the verifier refuses it. */
  lemma OneLeafRefused(sha: Buff -> Hash, leaf: Hash, txIndex: nat)
    requires txIndex + 1 < UINT_LIMIT
    ensures ProofPath(0, Layers(sha, [leaf])) == [] && Root(sha, [leaf]) == leaf && Depth(1) == 0
    ensures VerifyMerkleProof(sha, leaf, leaf, Proof(txIndex, [], 0)) == Ok(false)
  {
    var layers := Layers(sha, [leaf]);
    assert layers == [[leaf]];
    assert ProofPath(0, layers[1..]) == [];
  }

  // --- Soundness ---

  /** Two inputs with one hash. */
  predicate Collision(sha: Buff -> Hash, a: Buff, b: Buff) {
    a != b && DSha(sha, a) == DSha(sha, b)
  }

  /** The leaf that a walk down a tree of `n` leaves reaches when it takes the turns
      in the bits of `index`; the partner of an odd last node is the node itself. */
  function LeafReached(n: nat, index: nat): (k: nat)
    requires n > 0
    ensures k < n
    decreases n
  {
    if n == 1 then 0
    else
      var k := 2 * LeafReached((n + 1) / 2, index / 2) + index % 2;
      if k < n then k else n - 1
  }

  lemma ProductAtLeast(k: nat, d: nat)
    requires k > 0
    ensures k * d >= d
  {
    assert k * d == (k - 1) * d + d;
  }

  lemma RemainderUnique(x: nat, d: nat, q: nat, r: nat)
    requires x == q * d + r && r < d
    ensures x % d == r
  {
    var p := x / d;
    assert p * d + x % d == q * d + r;
    if q > p {
      assert (q - p) * d == q * d - p * d;
      ProductAtLeast(q - p, d);
    } else if p > q {
      assert (p - q) * d == p * d - q * d;
      ProductAtLeast(p - q, d);
    }
  }

  lemma ModHalves(x: nat, p: nat)
    requires p > 0
    ensures x % (2 * p) == 2 * (x / 2 % p) + x % 2
  {
    var q, r := x / 2 / p, x / 2 % p;
    assert x / 2 == q * p + r;
    assert q * (2 * p) == 2 * (q * p);
    RemainderUnique(x, 2 * p, q, 2 * r + x % 2);
  }

  /** It is leaf `index` mod 2^depth when there is such a leaf. */
  lemma {:induction false} LeafReachedIsIndex(n: nat, index: nat)
    requires n > 0 && index % Pow2(Depth(n)) < n
    ensures LeafReached(n, index) == index % Pow2(Depth(n))
    decreases n
  {
    if n > 1 {
      var p := Pow2(Depth((n + 1) / 2));
      assert Pow2(Depth(n)) == 2 * p;
      ModHalves(index, p);
      LeafReachedIsIndex((n + 1) / 2, index / 2);
    }
  }

  /** Walks the proof and the tree together and returns the topmost level at which they
      hash different pairs, if there is one. */
  function DivergingPair(sha: Buff -> Hash, leaves: seq<Hash>, node: Hash, index: nat, siblings: seq<Hash>)
    : Option<(Buff, Buff)>
    requires leaves != [] && |siblings| == Depth(|leaves|)
    decreases |leaves|
  {
    if |leaves| == 1 then None
    else
      var pair := Joined(node, index, siblings[0]);
      var above := DivergingPair(sha, NextLevel(sha, leaves), DSha(sha, pair), index / 2, siblings[1..]);
      var own := Pair(leaves, LeafReached((|leaves| + 1) / 2, index / 2));
      if above.Some? then above else if pair != own then Some((pair, own)) else None
  }

  lemma JoinedApart(level: seq<Hash>, node: Hash, index: nat, sibling: Hash, parent: nat)
    requires 2 * parent < |level| && Joined(node, index, sibling) == Pair(level, parent)
    ensures var k := 2 * parent + index % 2; node == level[if k < |level| then k else |level| - 1]
  {
    var p := Pair(level, parent);
    assert p[..32] == level[2 * parent];
    if index % 2 == 1 {
      assert Joined(node, index, sibling)[32..] == node;
      assert p[32..] == if 2 * parent + 1 < |level| then level[2 * parent + 1] else level[2 * parent];
    } else {
      assert Joined(node, index, sibling)[..32] == node;
    }
  }

  lemma {:induction false} ClimbReachesLeaf(sha: Buff -> Hash, leaves: seq<Hash>, node: Hash, index: nat,
                                            siblings: seq<Hash>)
    requires leaves != [] && |siblings| == Depth(|leaves|)
    requires Climb(sha, node, index, siblings) == Root(sha, leaves)
    ensures match DivergingPair(sha, leaves, node, index, siblings)
            case None => node == leaves[LeafReached(|leaves|, index)]
            case Some((a, b)) => |a| == |b| == 64 && Collision(sha, a, b)
    decreases |leaves|
  {
    hide DSha, Joined, Pair;
    if |leaves| > 1 {
      var pair := Joined(node, index, siblings[0]);
      var next := NextLevel(sha, leaves);
      ClimbReachesLeaf(sha, next, DSha(sha, pair), index / 2, siblings[1..]);
      var parent := LeafReached(|next|, index / 2);
      if DivergingPair(sha, next, DSha(sha, pair), index / 2, siblings[1..]) == None {
        assert DSha(sha, pair) == next[parent] == DSha(sha, Pair(leaves, parent));
        if pair == Pair(leaves, parent) {
          JoinedApart(leaves, node, index, siblings[0], parent);
        }
      }
    }
  }

  /** Merkle soundness: what the verifier accepts against the root of a tree, at that
      tree's depth, is the leaf its index leads to, or the proof yields two different
      pairs of nodes with the same hash. */
  lemma MerkleSound(sha: Buff -> Hash, leaves: seq<Hash>, leaf: Hash, proof: Proof)
    requires leaves != [] && |proof.hashes| <= MAX_PROOF && proof.treeDepth == Depth(|leaves|)
    requires VerifyMerkleProof(sha, leaf, Root(sha, leaves), proof) == Ok(true)
    ensures |proof.hashes| == Depth(|leaves|)
    ensures match DivergingPair(sha, leaves, leaf, proof.txIndex, proof.hashes)
            case None => leaf == leaves[LeafReached(|leaves|, proof.txIndex)]
            case Some((a, b)) => |a| == |b| == 64 && Collision(sha, a, b)
    ensures DivergingPair(sha, leaves, leaf, proof.txIndex, proof.hashes) == None
            && proof.txIndex % Pow2(proof.treeDepth) < |leaves| ==>
              leaf == leaves[proof.txIndex % Pow2(proof.treeDepth)]
  {
    hide Climb, FoldVerify, DivergingPair, Root, Collision, LeafReached;
    VerifyIsClimb(sha, leaf, Root(sha, leaves), proof);
    ClimbReachesLeaf(sha, leaves, leaf, proof.txIndex, proof.hashes);
    if proof.txIndex % Pow2(proof.treeDepth) < |leaves| {
      LeafReachedIsIndex(|leaves|, proof.txIndex);
    }
  }
}
