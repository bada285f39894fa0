/**
 * What a Merkle root binds. Nothing here assumes an injective hash, which no
 * 32-byte hash can be: each theorem asks only that the strings hashed while
 * building the tree and folding the proof contain no collision.
 */
module MerkleBinding {
  import opened Bytes
  import opened Options
  import opened MerkleTree

  predicate Collide(h: Hash, x: bytes, y: bytes) { x != y && h(x) == h(y) }

  ghost predicate NoCollision(h: Hash, preimages: set<bytes>) {
    forall x, y {:trigger Collide(h, x, y)} :: x in preimages && y in preimages ==> !Collide(h, x, y)
  }

  function Preimage(h: Hash, ids: seq<bytes>, pad: bytes, level: nat, i: nat): bytes {
    if level == 0 then LeafPreimage(ids, pad, i)
    else [1] + Node(h, ids, pad, level - 1, 2 * i) + Node(h, ids, pad, level - 1, 2 * i + 1)
  }

  /** Every string hashed while building the subtree of node (level, i). */
  ghost function TreePreimages(h: Hash, ids: seq<bytes>, pad: bytes, level: nat, i: nat): set<bytes>
    decreases level
  {
    {Preimage(h, ids, pad, level, i)} +
    if level == 0 then {}
    else TreePreimages(h, ids, pad, level - 1, 2 * i) + TreePreimages(h, ids, pad, level - 1, 2 * i + 1)
  }

  /** The string hashed by step k of a fold whose current value is `current`. */
  function StepPreimage(current: bytes, sibling: bytes, bit: nat): bytes {
    if bit == 0 then [1] + current + Fit(sibling, 32) else [1] + Fit(sibling, 32) + current
  }

  /** Every string hashed while folding the first k steps of a proof for message id `id`. */
  ghost function FoldPreimages(h: Hash, id: bytes, siblings: seq<bytes>, path: seq<int>, k: nat): set<bytes>
    requires k <= |siblings|
  {
    if k == 0 then {[0] + id}
    else
      var below := Fold(h, h([0] + id), siblings, path, k - 1);
      FoldPreimages(h, id, siblings, path, k - 1) +
      if below.Some? then {StepPreimage(below.value, siblings[k - 1], PathBit(path, k - 1))} else {}
  }

  lemma StepHashes(h: Hash, current: Digest, sibling: bytes, bit: nat)
    requires Step(h, current, sibling, bit).Some?
    ensures Step(h, current, sibling, bit) == Some(h(StepPreimage(current, sibling, bit)))
  {
    HashPairRight(h, current, sibling);
    HashPairLeft(h, sibling, current);
  }

  lemma {:induction false} FoldIsDigest(h: Hash, id: bytes, siblings: seq<bytes>, path: seq<int>, k: nat)
    requires k <= |siblings|
    ensures var f := Fold(h, h([0] + id), siblings, path, k); f.Some? ==> |f.value| == 32
  {
    if k > 0 {
      FoldIsDigest(h, id, siblings, path, k - 1);
    }
  }

  /** The child of node i that path bit k selects. */
  function Child(path: seq<int>, k: nat, i: nat): nat { 2 * i + PathBit(path, k) }

  /** The position that the first k path bits spell below node i. */
  function Position(path: seq<int>, k: nat, i: nat): nat {
    if k == 0 then i else Position(path, k - 1, Child(path, k - 1, i))
  }

  /** The leaf of `pos` and, at each level below k, the real sibling on the way up from it. */
  ghost predicate ProofHolds(h: Hash, ids: seq<bytes>, pad: bytes, id: bytes,
                             siblings: seq<bytes>, path: seq<int>, k: nat, pos: nat)
  {
    && k <= |siblings|
    && [0] + id == LeafPreimage(ids, pad, pos)
    && forall j :: 0 <= j < k ==>
         && Shr(pos, j) >= 0
         && PathBit(path, j) == Shr(pos, j) % 2
         && Fit(siblings[j], 32) == Node(h, ids, pad, j, SiblingIndex(Shr(pos, j)))
  }

  lemma {:induction false} PositionAbove(path: seq<int>, k: nat, i: nat)
    ensures Shr(Position(path, k, i), k) == i
    decreases k
  {
    if k > 0 {
      PositionAbove(path, k - 1, Child(path, k - 1, i));
      ShrStep(Position(path, k, i), k - 1);
    }
  }

  /** A fold of k steps reached node (level, i), and no collision was met on the way. */
  ghost predicate Reaches(h: Hash, ids: seq<bytes>, pad: bytes, id: bytes,
                          siblings: seq<bytes>, path: seq<int>, k: nat, level: nat, i: nat)
  {
    && k <= |siblings| && pad != [] && pad[0] == 0
    && Fold(h, h([0] + id), siblings, path, k) == Some(Node(h, ids, pad, level, i))
    && NoCollision(h, TreePreimages(h, ids, pad, level, i) + FoldPreimages(h, id, siblings, path, k))
  }

  lemma PairEqual(a: Digest, b: Digest, c: Digest, d: Digest)
    requires [1] + a + b == [1] + c + d
    ensures a == c && b == d
  {
    SplitEqual([1] + a, b, [1] + c, d);
    SplitEqual([1], a, [1], c);
  }

  /** The last step of a fold that reaches a node hashes that node's own preimage. */
  lemma {:induction false} TopStep(h: Hash, ids: seq<bytes>, pad: bytes, id: bytes,
                                   siblings: seq<bytes>, path: seq<int>, k: nat, level: nat, i: nat)
    requires k > 0 && Reaches(h, ids, pad, id, siblings, path, k, level, i)
    ensures level > 0 && k <= |siblings|
    ensures var below := Fold(h, h([0] + id), siblings, path, k - 1);
            && below.Some? && |below.value| == 32
            && StepPreimage(below.value, siblings[k - 1], PathBit(path, k - 1)) == Preimage(h, ids, pad, level, i)
  {
    var target := Preimage(h, ids, pad, level, i);
    assert target in TreePreimages(h, ids, pad, level, i) && h(target) == Node(h, ids, pad, level, i);
    var current := Fold(h, h([0] + id), siblings, path, k - 1).value;
    FoldIsDigest(h, id, siblings, path, k - 1);
    StepHashes(h, current, siblings[k - 1], PathBit(path, k - 1));
    var mine := StepPreimage(current, siblings[k - 1], PathBit(path, k - 1));
    assert mine in FoldPreimages(h, id, siblings, path, k) && mine[0] == 1;
    assert !Collide(h, mine, target);
  }

  lemma {:induction false} BottomStep(h: Hash, ids: seq<bytes>, pad: bytes, id: bytes,
                                      siblings: seq<bytes>, path: seq<int>, level: nat, i: nat)
    requires Reaches(h, ids, pad, id, siblings, path, 0, level, i)
    ensures level == 0 && ProofHolds(h, ids, pad, id, siblings, path, 0, Position(path, 0, i))
  {
    var target := Preimage(h, ids, pad, level, i);
    assert target in TreePreimages(h, ids, pad, level, i);
    assert [0] + id in FoldPreimages(h, id, siblings, path, 0) && ([0] + id)[0] == 0;
    assert !Collide(h, [0] + id, target);
  }

  /** A fold that reached an inner node came from one of its children, next to the other. */
  lemma {:induction false} ChildReached(h: Hash, ids: seq<bytes>, pad: bytes, id: bytes,
                                        siblings: seq<bytes>, path: seq<int>, k: nat, level: nat, i: nat)
    requires k > 0 && Reaches(h, ids, pad, id, siblings, path, k, level, i)
    ensures level > 0 && k <= |siblings|
    ensures var child := Child(path, k - 1, i);
            && Fold(h, h([0] + id), siblings, path, k - 1) == Some(Node(h, ids, pad, level - 1, child))
            && Fit(siblings[k - 1], 32) == Node(h, ids, pad, level - 1, SiblingIndex(child))
  {
    hide Reaches, Fold, Fit;
    TopStep(h, ids, pad, id, siblings, path, k, level, i);
    var current := Fold(h, h([0] + id), siblings, path, k - 1).value;
    var sibling := Fit(siblings[k - 1], 32);
    var left, right := Node(h, ids, pad, level - 1, 2 * i), Node(h, ids, pad, level - 1, 2 * i + 1);
    if PathBit(path, k - 1) == 0 {
      PairEqual(current, sibling, left, right);
    } else {
      PairEqual(sibling, current, left, right);
    }
  }

  lemma {:induction false} PreimagesBelow(h: Hash, ids: seq<bytes>, pad: bytes, id: bytes,
                                          siblings: seq<bytes>, path: seq<int>, k: nat, level: nat, i: nat, child: nat)
    requires 0 < k <= |siblings| && level > 0 && 2 * i <= child <= 2 * i + 1
    requires NoCollision(h, TreePreimages(h, ids, pad, level, i) + FoldPreimages(h, id, siblings, path, k))
    ensures NoCollision(h, TreePreimages(h, ids, pad, level - 1, child) + FoldPreimages(h, id, siblings, path, k - 1))
  {
    hide Fold, Node, StepPreimage, Preimage;
    assert TreePreimages(h, ids, pad, level - 1, child) <= TreePreimages(h, ids, pad, level, i);
    assert FoldPreimages(h, id, siblings, path, k - 1) <= FoldPreimages(h, id, siblings, path, k);
  }

  lemma {:induction false} DescendFold(h: Hash, ids: seq<bytes>, pad: bytes, id: bytes,
                                       siblings: seq<bytes>, path: seq<int>, k: nat, level: nat, i: nat)
    requires k > 0 && Reaches(h, ids, pad, id, siblings, path, k, level, i)
    ensures level > 0 && Reaches(h, ids, pad, id, siblings, path, k - 1, level - 1, Child(path, k - 1, i))
  {
    ChildReached(h, ids, pad, id, siblings, path, k, level, i);
    PreimagesBelow(h, ids, pad, id, siblings, path, k, level, i, Child(path, k - 1, i));
  }

  lemma {:induction false} ProofHoldsAbove(h: Hash, ids: seq<bytes>, pad: bytes, id: bytes,
                                           siblings: seq<bytes>, path: seq<int>, k: nat, level: nat, i: nat)
    requires k > 0 && level == k && Reaches(h, ids, pad, id, siblings, path, k, level, i)
    requires ProofHolds(h, ids, pad, id, siblings, path, k - 1, Position(path, k - 1, Child(path, k - 1, i)))
    ensures ProofHolds(h, ids, pad, id, siblings, path, k, Position(path, k, i))
  {
    hide Reaches, Fold, Node, Fit, LeafPreimage;
    ChildReached(h, ids, pad, id, siblings, path, k, level, i);
    PositionAbove(path, k - 1, Child(path, k - 1, i));
  }

  /** A fold that reaches node (level, i) has exactly `level` steps and holds that node's real path. */
  lemma {:induction false} FoldBinds(h: Hash, ids: seq<bytes>, pad: bytes, id: bytes,
                                     siblings: seq<bytes>, path: seq<int>, k: nat, level: nat, i: nat)
    requires Reaches(h, ids, pad, id, siblings, path, k, level, i)
    ensures k == level
    ensures ProofHolds(h, ids, pad, id, siblings, path, k, Position(path, k, i))
    decreases k
  {
    hide Reaches, ProofHolds;
    if k == 0 {
      BottomStep(h, ids, pad, id, siblings, path, level, i);
    } else {
      DescendFold(h, ids, pad, id, siblings, path, k, level, i);
      FoldBinds(h, ids, pad, id, siblings, path, k - 1, level - 1, Child(path, k - 1, i));
      ProofHoldsAbove(h, ids, pad, id, siblings, path, k, level, i);
    }
  }

  /**
   * A proof of any length that carries the leaf of `id` and verifies against a tree's
   * root has exactly `depth` siblings, its path bits are the binary digits of a position
   * below 2^depth, the leaf is that position's leaf and the siblings are its siblings.
   */
  lemma VerifiedProofIsReal(h: Hash, ids: seq<bytes>, pad: bytes, depth: nat, id: bytes, proof: MerkleProof)
    requires pad != [] && pad[0] == 0
    requires proof.leaf == h([0] + id) && proof.root == Node(h, ids, pad, depth, 0)
    requires Fold(h, proof.leaf, proof.siblings, proof.pathIndices, |proof.siblings|) == Some(proof.root)
    requires NoCollision(h, TreePreimages(h, ids, pad, depth, 0)
                          + FoldPreimages(h, id, proof.siblings, proof.pathIndices, |proof.siblings|))
    ensures |proof.siblings| == depth
    ensures Position(proof.pathIndices, depth, 0) < Pow2(depth)
    ensures ProofHolds(h, ids, pad, id, proof.siblings, proof.pathIndices, depth,
                       Position(proof.pathIndices, depth, 0))
  {
    FoldBinds(h, ids, pad, id, proof.siblings, proof.pathIndices, |proof.siblings|, depth, 0);
    PositionAbove(proof.pathIndices, depth, 0);
    ShrZero(Position(proof.pathIndices, depth, 0), depth);
  }

  /** In the prover's tree a verified 32-byte id is the id stored at the proved position. */
  lemma ProverMembership(h: Hash, ids: seq<bytes>, depth: nat, id: bytes, proof: MerkleProof)
    requires |id| == 32
    requires proof.leaf == h([0] + id) && proof.root == Node(h, ids, PROVER_PAD, depth, 0)
    requires Fold(h, proof.leaf, proof.siblings, proof.pathIndices, |proof.siblings|) == Some(proof.root)
    requires NoCollision(h, TreePreimages(h, ids, PROVER_PAD, depth, 0)
                          + FoldPreimages(h, id, proof.siblings, proof.pathIndices, |proof.siblings|))
    ensures var pos := Position(proof.pathIndices, depth, 0); pos < |ids| && ids[pos] == id
  {
    VerifiedProofIsReal(h, ids, PROVER_PAD, depth, id, proof);
    var pos := Position(proof.pathIndices, depth, 0);
    assert |[0] + id| == 33 && |PROVER_PAD| == 32;
    SplitEqual([0], id, [0], ids[pos]);
  }

  /** In the validator's tree the same holds, except that an all-zero id may be padding. */
  lemma ValidatorMembership(h: Hash, ids: seq<Digest>, depth: nat, id: Digest, proof: MerkleProof)
    requires proof.leaf == h([0] + id) && proof.root == Node(h, ids, VALIDATOR_PAD, depth, 0)
    requires Fold(h, proof.leaf, proof.siblings, proof.pathIndices, |proof.siblings|) == Some(proof.root)
    requires NoCollision(h, TreePreimages(h, ids, VALIDATOR_PAD, depth, 0)
                          + FoldPreimages(h, id, proof.siblings, proof.pathIndices, |proof.siblings|))
    ensures var pos := Position(proof.pathIndices, depth, 0);
            if pos < |ids| then ids[pos] == id else id == Zeros(32)
  {
    VerifiedProofIsReal(h, ids, VALIDATOR_PAD, depth, id, proof);
    var pos := Position(proof.pathIndices, depth, 0);
    SplitEqual([0], id, [0], if pos < |ids| then ids[pos] else Zeros(32));
  }

  // --------------------------------------------------------------------------
  // The root determines the leaves
  // --------------------------------------------------------------------------

  lemma {:induction false} SameRootSameLeaf(h: Hash, ids: seq<bytes>, ids': seq<bytes>, pad: bytes,
                                            level: nat, i: nat, j: nat)
    requires Node(h, ids, pad, level, i) == Node(h, ids', pad, level, i) && Shr(j, level) == i
    requires NoCollision(h, TreePreimages(h, ids, pad, level, i) + TreePreimages(h, ids', pad, level, i))
    ensures LeafPreimage(ids, pad, j) == LeafPreimage(ids', pad, j)
    decreases level
  {
    var p, p' := Preimage(h, ids, pad, level, i), Preimage(h, ids', pad, level, i);
    assert p in TreePreimages(h, ids, pad, level, i) && p' in TreePreimages(h, ids', pad, level, i);
    assert !Collide(h, p, p');
    if level > 0 {
      SplitEqual([1] + Node(h, ids, pad, level - 1, 2 * i), Node(h, ids, pad, level - 1, 2 * i + 1),
                 [1] + Node(h, ids', pad, level - 1, 2 * i), Node(h, ids', pad, level - 1, 2 * i + 1));
      SplitEqual([1], Node(h, ids, pad, level - 1, 2 * i), [1], Node(h, ids', pad, level - 1, 2 * i));
      ShrStep(j, level - 1);
      SameRootSameLeaf(h, ids, ids', pad, level - 1, Shr(j, level - 1), j);
    }
  }

  lemma {:induction false} SameLeavesSameNode(h: Hash, ids: seq<bytes>, ids': seq<bytes>, pad: bytes,
                                              level: nat, i: nat)
    requires forall j: nat :: Shr(j, level) == i ==> LeafPreimage(ids, pad, j) == LeafPreimage(ids', pad, j)
    ensures Node(h, ids, pad, level, i) == Node(h, ids', pad, level, i)
    decreases level
  {
    if level == 0 {
      assert Shr(i, 0) == i;
    } else {
      forall j: nat ensures Shr(j, level) == Shr(j, level - 1) / 2 {
        ShrStep(j, level - 1);
      }
      assert forall j: nat :: Shr(j, level - 1) == 2 * i ==> LeafPreimage(ids, pad, j) == LeafPreimage(ids', pad, j);
      SameLeavesSameNode(h, ids, ids', pad, level - 1, 2 * i);
      assert forall j: nat :: Shr(j, level - 1) == 2 * i + 1 ==>
                                LeafPreimage(ids, pad, j) == LeafPreimage(ids', pad, j);
      SameLeavesSameNode(h, ids, ids', pad, level - 1, 2 * i + 1);
    }
  }

  /** Two lists have the same root exactly when their padded leaves agree below 2^depth. */
  lemma RootDeterminesPaddedLeaves(h: Hash, ids: seq<bytes>, ids': seq<bytes>, pad: bytes, depth: nat)
    requires NoCollision(h, TreePreimages(h, ids, pad, depth, 0) + TreePreimages(h, ids', pad, depth, 0))
    ensures Node(h, ids, pad, depth, 0) == Node(h, ids', pad, depth, 0)
       <==> forall j: nat :: j < Pow2(depth) ==> LeafPreimage(ids, pad, j) == LeafPreimage(ids', pad, j)
  {
    forall j: nat ensures Shr(j, depth) == 0 <==> j < Pow2(depth) {
      ShrZero(j, depth);
    }
    if Node(h, ids, pad, depth, 0) == Node(h, ids', pad, depth, 0) {
      forall j: nat | j < Pow2(depth) ensures LeafPreimage(ids, pad, j) == LeafPreimage(ids', pad, j) {
        SameRootSameLeaf(h, ids, ids', pad, depth, 0, j);
      }
    }
    if forall j: nat :: j < Pow2(depth) ==> LeafPreimage(ids, pad, j) == LeafPreimage(ids', pad, j) {
      SameLeavesSameNode(h, ids, ids', pad, depth, 0);
    }
  }

  /** The prover's root determines the whole list of 32-byte ids, its length included. */
  lemma ProverRootDeterminesList(h: Hash, ids: seq<bytes>, ids': seq<bytes>, depth: nat)
    requires |ids| <= Pow2(depth) && |ids'| <= Pow2(depth)
    requires forall i :: 0 <= i < |ids| ==> |ids[i]| == 32
    requires forall i :: 0 <= i < |ids'| ==> |ids'[i]| == 32
    requires NoCollision(h, TreePreimages(h, ids, PROVER_PAD, depth, 0) + TreePreimages(h, ids', PROVER_PAD, depth, 0))
    ensures Node(h, ids, PROVER_PAD, depth, 0) == Node(h, ids', PROVER_PAD, depth, 0) <==> ids == ids'
  {
    RootDeterminesPaddedLeaves(h, ids, ids', PROVER_PAD, depth);
    if |ids| == |ids'| {
      forall j | 0 <= j < |ids| && LeafPreimage(ids, PROVER_PAD, j) == LeafPreimage(ids', PROVER_PAD, j)
        ensures ids[j] == ids'[j]
      {
        SplitEqual([0], ids[j], [0], ids'[j]);
      }
    } else {
      var j := Min(|ids|, |ids'|);
      assert |LeafPreimage(ids, PROVER_PAD, j)| != |LeafPreimage(ids', PROVER_PAD, j)|;
    }
  }

  function OrZeros(ids: seq<bytes>, j: nat): bytes { if j < |ids| then ids[j] else Zeros(32) }

  /** The validator's root determines the list only up to trailing all-zero ids. */
  lemma ValidatorRootDeterminesUpToZeros(h: Hash, ids: seq<Digest>, ids': seq<Digest>, depth: nat)
    requires NoCollision(h, TreePreimages(h, ids, VALIDATOR_PAD, depth, 0)
                         + TreePreimages(h, ids', VALIDATOR_PAD, depth, 0))
    ensures Node(h, ids, VALIDATOR_PAD, depth, 0) == Node(h, ids', VALIDATOR_PAD, depth, 0)
       <==> forall j: nat :: j < Pow2(depth) ==> OrZeros(ids, j) == OrZeros(ids', j)
  {
    RootDeterminesPaddedLeaves(h, ids, ids', VALIDATOR_PAD, depth);
    forall j: nat
      ensures LeafPreimage(ids, VALIDATOR_PAD, j) == LeafPreimage(ids', VALIDATOR_PAD, j)
         <==> OrZeros(ids, j) == OrZeros(ids', j)
    {
      assert LeafPreimage(ids, VALIDATOR_PAD, j) == [0] + OrZeros(ids, j);
      assert LeafPreimage(ids', VALIDATOR_PAD, j) == [0] + OrZeros(ids', j);
      if [0] + OrZeros(ids, j) == [0] + OrZeros(ids', j) {
        SplitEqual([0], OrZeros(ids, j), [0], OrZeros(ids', j));
      }
    }
  }

  /** Two different lists of ids with one root in the validator's tree, whatever the hash. */
  lemma ValidatorRootIgnoresTrailingZeroId(h: Hash, ids: seq<Digest>, depth: nat)
    ensures Node(h, ids, VALIDATOR_PAD, depth, 0) == Node(h, ids + [Zeros(32)], VALIDATOR_PAD, depth, 0)
  {
    forall j: nat ensures LeafPreimage(ids, VALIDATOR_PAD, j) == LeafPreimage(ids + [Zeros(32)], VALIDATOR_PAD, j) {}
    SameLeavesSameNode(h, ids, ids + [Zeros(32)], VALIDATOR_PAD, depth, 0);
  }
}
