/**
 * The Merkle trees of the prover (a sparse tree that stores only the prefix of
 * each level) and of the validator (a dense tree built bottom-up), both measured
 * against one reference definition, `Node`.
 *
 * The hash is a parameter `h`. Leaves are hashed behind a 0x00 byte and inner
 * nodes behind a 0x01 byte (section 2.1 of RFC 6962). The preimage of a padding
 * leaf is a parameter too, because the two implementations pad differently.
 */
module MerkleTree {
  import opened Bytes
  import opened Options

  type Digest = b: bytes | |b| == 32 witness Zeros(32)
  type Hash = bytes -> Digest

  /** Padding preimage of the prover: 32 zero bytes, hashed without a prefix. */
  const PROVER_PAD: bytes := Zeros(32)
  /** Padding preimage of the validator: the leaf of 32 zero bytes. */
  const VALIDATOR_PAD: bytes := [0] + Zeros(32)

  const TREE_DEPTH: nat := 20

  // --------------------------------------------------------------------------
  // Reference definition
  // --------------------------------------------------------------------------

  function LeafPreimage(ids: seq<bytes>, pad: bytes, i: nat): bytes {
    if i < |ids| then [0] + ids[i] else pad
  }

  /** Node i of a level of the unbounded dense tree over the padded id list. */
  function Node(h: Hash, ids: seq<bytes>, pad: bytes, level: nat, i: nat): Digest
    decreases level
  {
    if level == 0 then h(LeafPreimage(ids, pad, i))
    else h([1] + Node(h, ids, pad, level - 1, 2 * i) + Node(h, ids, pad, level - 1, 2 * i + 1))
  }

  /** Hash of a subtree all of whose leaves are padding. */
  function Empty(h: Hash, pad: bytes, level: nat): Digest {
    if level == 0 then h(pad) else h([1] + Empty(h, pad, level - 1) + Empty(h, pad, level - 1))
  }

  lemma EmptyStep(h: Hash, pad: bytes, level: nat)
    ensures Empty(h, pad, 0) == h(pad)
    ensures Empty(h, pad, level + 1) == h([1] + Empty(h, pad, level) + Empty(h, pad, level))
  {}

  /** Number of nodes the sparse tree stores at a level for n leaves. */
  function Stored(n: nat, level: nat): nat {
    if level == 0 then n else Max(1, (Stored(n, level - 1) + 1) / 2)
  }

  function SiblingIndex(i: nat): nat { if i % 2 == 1 then i - 1 else i + 1 }

  lemma {:induction false} BeyondStoredIsEmpty(h: Hash, ids: seq<bytes>, pad: bytes, level: nat, i: nat)
    requires i >= Stored(|ids|, level)
    ensures Node(h, ids, pad, level, i) == Empty(h, pad, level)
    decreases level
  {
    if level > 0 {
      BeyondStoredIsEmpty(h, ids, pad, level - 1, 2 * i);
      BeyondStoredIsEmpty(h, ids, pad, level - 1, 2 * i + 1);
    }
  }

  // --------------------------------------------------------------------------
  // Halving an index
  // --------------------------------------------------------------------------

  lemma {:induction false} ShrStep(v: nat, k: nat)
    ensures Shr(v, k) >= 0 && Shr(v, k + 1) == Shr(v, k) / 2
    decreases k
  {
    if k > 0 {
      ShrStep(v / 2, k - 1);
    }
  }

  /** Shifting right by k gives 0 exactly below 2^k. */
  lemma {:induction false} ShrZero(v: nat, k: nat)
    ensures Shr(v, k) == 0 <==> v < Pow2(k)
    decreases k
  {
    if k > 0 {
      ShrZero(v / 2, k - 1);
    }
  }

  // --------------------------------------------------------------------------
  // Hashing a pair, and folding a proof
  // --------------------------------------------------------------------------

  /** Typed-array `set`: overwrites in place, and throws when the source sticks out. */
  function SetAt(buffer: bytes, source: bytes, at: nat): (r: Option<bytes>)
    ensures r.Some? ==> |r.value| == |buffer|
  {
    if at + |source| <= |buffer| then Some(buffer[..at] + source + buffer[at + |source|..]) else None
  }

  function HashPair(h: Hash, left: bytes, right: bytes): Option<Digest> {
    match SetAt([1] + Zeros(64), left, 1)
    case None => None
    case Some(buffer) =>
      match SetAt(buffer, right, 33)
      case None => None
      case Some(preimage) => Some(h(preimage))
  }

  lemma {:induction false} HashPairOfDigests(h: Hash, left: Digest, right: Digest)
    ensures HashPair(h, left, right) == Some(h([1] + left + right))
  {
    var buffer := SetAt([1] + Zeros(64), left, 1).value;
    assert buffer == [1] + left + Zeros(32);
    assert SetAt(buffer, right, 33).value == [1] + left + right;
  }

  /** A right operand that fits contributes its zero-filled form. */
  lemma {:induction false} HashPairRight(h: Hash, left: Digest, right: bytes)
    ensures HashPair(h, left, right).Some? <==> |right| <= 32
    ensures |right| <= 32 ==> HashPair(h, left, right) == Some(h([1] + left + Fit(right, 32)))
  {
    var buffer := SetAt([1] + Zeros(64), left, 1).value;
    assert buffer == [1] + left + Zeros(32);
    if |right| <= 32 {
      assert SetAt(buffer, right, 33).value == [1] + left + Fit(right, 32);
    }
  }

  lemma {:induction false} HashPairLeft(h: Hash, left: bytes, right: Digest)
    ensures HashPair(h, left, right).Some? <==> |left| <= 64
    ensures |left| <= 64 ==> HashPair(h, left, right) == Some(h([1] + Fit(left, 32) + right))
  {
    if |left| <= 64 {
      var buffer := SetAt([1] + Zeros(64), left, 1).value;
      assert buffer[1..33] == Fit(left, 32);
      assert SetAt(buffer, right, 33).value == [1] + Fit(left, 32) + right;
    }
  }

  datatype MerkleProof = MerkleProof(leaf: bytes, siblings: seq<bytes>, pathIndices: seq<int>, root: bytes)

  /** Anything but the number 0, a missing entry included, takes the right branch. */
  function PathBit(pathIndices: seq<int>, k: nat): nat {
    if k < |pathIndices| && pathIndices[k] == 0 then 0 else 1
  }

  function Step(h: Hash, current: bytes, sibling: bytes, bit: nat): Option<bytes> {
    if bit == 0 then HashPair(h, current, sibling) else HashPair(h, sibling, current)
  }

  /** The value after k folding steps, None once a step has thrown. */
  function Fold(h: Hash, leaf: bytes, siblings: seq<bytes>, path: seq<int>, k: nat): Option<bytes>
    requires k <= |siblings|
  {
    if k == 0 then Some(leaf)
    else
      match Fold(h, leaf, siblings, path, k - 1)
      case None => None
      case Some(current) => Step(h, current, siblings[k - 1], PathBit(path, k - 1))
  }

  method VerifyProof(h: Hash, proof: MerkleProof) returns (r: Option<bool>)
    ensures r == match Fold(h, proof.leaf, proof.siblings, proof.pathIndices, |proof.siblings|)
                 case None => None
                 case Some(top) => Some(top == proof.root)
  {
    var current := proof.leaf;
    for i := 0 to |proof.siblings|
      invariant Fold(h, proof.leaf, proof.siblings, proof.pathIndices, i) == Some(current)
    {
      var next: Option<bytes>;
      if i < |proof.pathIndices| && proof.pathIndices[i] == 0 {
        next := HashPair(h, current, proof.siblings[i]);
      } else {
        next := HashPair(h, proof.siblings[i], current);
      }
      if next == None {
        FoldStaysNone(h, proof.leaf, proof.siblings, proof.pathIndices, i + 1, |proof.siblings|);
        return None;
      }
      current := next.value;
    }
    HexInjective(current, proof.root);
    return Some(Hex(current) == Hex(proof.root));
  }

  lemma {:induction false} FoldStaysNone(h: Hash, leaf: bytes, siblings: seq<bytes>, path: seq<int>, j: nat, k: nat)
    requires j <= k <= |siblings| && Fold(h, leaf, siblings, path, j) == None
    ensures Fold(h, leaf, siblings, path, k) == None
  {
    if j < k {
      FoldStaysNone(h, leaf, siblings, path, j, k - 1);
    }
  }

  /** The number 0 puts the current value on the left; any other entry, or none, on the right. */
  lemma FoldTurns(h: Hash, leaf: bytes, siblings: seq<bytes>, path: seq<int>, k: nat)
    requires k < |siblings| && Fold(h, leaf, siblings, path, k).Some?
    ensures var current := Fold(h, leaf, siblings, path, k).value;
            Fold(h, leaf, siblings, path, k + 1)
            == if k < |path| && path[k] == 0 then HashPair(h, current, siblings[k])
               else HashPair(h, siblings[k], current)
  {}

  // --------------------------------------------------------------------------
  // What a proof for position i consists of
  // --------------------------------------------------------------------------

  /** The real siblings of position i below `depth`, and the binary digits of i. */
  ghost predicate IsProof(h: Hash, ids: seq<bytes>, pad: bytes, depth: nat, i: nat,
                          siblings: seq<bytes>, path: seq<int>)
  {
    && |siblings| == |path| == depth
    && forall k :: 0 <= k < depth ==>
         && Shr(i, k) >= 0
         && path[k] == Shr(i, k) % 2
         && siblings[k] == Node(h, ids, pad, k, SiblingIndex(Shr(i, k)))
  }

  /** One step from a node, with its real sibling, reaches its parent. */
  lemma {:induction false} StepToParent(h: Hash, ids: seq<bytes>, pad: bytes, level: nat, j: nat)
    ensures Step(h, Node(h, ids, pad, level, j), Node(h, ids, pad, level, SiblingIndex(j)), j % 2)
         == Some(Node(h, ids, pad, level + 1, j / 2))
  {
    var left, right := Node(h, ids, pad, level, 2 * (j / 2)), Node(h, ids, pad, level, 2 * (j / 2) + 1);
    HashPairOfDigests(h, left, right);
    assert j == 2 * (j / 2) + j % 2;
  }

  lemma {:induction false} ClimbOnce(h: Hash, ids: seq<bytes>, pad: bytes, leaf: bytes,
                                     siblings: seq<bytes>, path: seq<int>, k: nat, j: nat)
    requires k < |siblings| && Fold(h, leaf, siblings, path, k) == Some(Node(h, ids, pad, k, j))
    requires siblings[k] == Node(h, ids, pad, k, SiblingIndex(j)) && PathBit(path, k) == j % 2
    ensures Fold(h, leaf, siblings, path, k + 1) == Some(Node(h, ids, pad, k + 1, j / 2))
  {
    StepToParent(h, ids, pad, k, j);
  }

  lemma {:induction false} ProofClimbs(h: Hash, ids: seq<bytes>, pad: bytes, depth: nat, i: nat,
                                       siblings: seq<bytes>, path: seq<int>, k: nat)
    requires IsProof(h, ids, pad, depth, i, siblings, path) && k <= depth
    ensures Shr(i, k) >= 0
    ensures Fold(h, Node(h, ids, pad, 0, i), siblings, path, k) == Some(Node(h, ids, pad, k, Shr(i, k)))
  {
    if k > 0 {
      ProofClimbs(h, ids, pad, depth, i, siblings, path, k - 1);
      ShrStep(i, k - 1);
      ClimbOnce(h, ids, pad, Node(h, ids, pad, 0, i), siblings, path, k - 1, Shr(i, k - 1));
    }
  }

  lemma ProofExtends(h: Hash, ids: seq<bytes>, pad: bytes, level: nat, i: nat,
                     siblings: seq<bytes>, path: seq<int>, sibling: bytes, bit: int)
    requires IsProof(h, ids, pad, level, i, siblings, path) && Shr(i, level) >= 0
    requires sibling == Node(h, ids, pad, level, SiblingIndex(Shr(i, level))) && bit == Shr(i, level) % 2
    ensures IsProof(h, ids, pad, level + 1, i, siblings + [sibling], path + [bit])
  {}

  /** A proof made of the real siblings and the binary digits of i folds to the root. */
  lemma {:induction false} ProofFoldsToRoot(h: Hash, ids: seq<bytes>, pad: bytes, depth: nat, i: nat,
                                            siblings: seq<bytes>, path: seq<int>)
    requires IsProof(h, ids, pad, depth, i, siblings, path) && i < Pow2(depth)
    ensures Fold(h, Node(h, ids, pad, 0, i), siblings, path, depth) == Some(Node(h, ids, pad, depth, 0))
  {
    ProofClimbs(h, ids, pad, depth, i, siblings, path, depth);
    ShrZero(i, depth);
  }

  // --------------------------------------------------------------------------
  // The prover's sparse tree
  // --------------------------------------------------------------------------

  class SparseTree {
    const h: Hash
    const depth: nat
    const emptyLeaf: Digest
    var layers: seq<Option<seq<Digest>>>
    var leafCount: nat
    var emptyHashes: Option<seq<Digest>>
    /** The list the tree was last built from. */
    ghost var built: Option<seq<bytes>>

    ghost predicate Valid()
      reads this
    {
      && 1 <= depth <= 30
      && emptyLeaf == h(PROVER_PAD)
      && |layers| == depth + 1
      && (emptyHashes.Some? ==>
            && |emptyHashes.value| == depth + 1
            && forall l :: 0 <= l <= depth ==> emptyHashes.value[l] == Empty(h, PROVER_PAD, l))
      && (built.None? ==> leafCount == 0 && layers[depth] == None)
      && (built.Some? ==>
            && leafCount == |built.value| <= Pow2(depth)
            && forall l :: 0 <= l <= depth ==> layers[l].Some? && RowIs(layers[l].value, built.value, l))
    }

    /** `row` is the stored prefix of a level. */
    ghost predicate RowIs(row: seq<Digest>, ids: seq<bytes>, level: nat) {
      && |row| == Stored(|ids|, level)
      && forall i :: 0 <= i < |row| ==> row[i] == Node(h, ids, PROVER_PAD, level, i)
    }

    constructor (h: Hash, depth: nat)
      requires 1 <= depth <= 30
      ensures Valid() && built == None && this.h == h && this.depth == depth && emptyLeaf == h(Zeros(32))
    {
      this.h := h;
      this.depth := depth;
      this.emptyLeaf := h(PROVER_PAD);
      this.layers := [Some([])] + seq(depth, i => None);
      this.leafCount := 0;
      this.emptyHashes := None;
      this.built := None;
    }

    method GetEmptyHashes() returns (hashes: seq<Digest>)
      requires |layers| == depth + 1 && emptyLeaf == h(PROVER_PAD)
      requires emptyHashes.Some? ==>
                 && |emptyHashes.value| == depth + 1
                 && forall l :: 0 <= l <= depth ==> emptyHashes.value[l] == Empty(h, PROVER_PAD, l)
      modifies this`emptyHashes
      ensures emptyHashes == Some(hashes) && |hashes| == depth + 1
      ensures forall l :: 0 <= l <= depth ==> hashes[l] == Empty(h, PROVER_PAD, l)
    {
      hide HashPair, Empty;
      EmptyStep(h, PROVER_PAD, 0);
      if emptyHashes.Some? {
        return emptyHashes.value;
      }
      hashes := [emptyLeaf];
      for i := 1 to depth + 1
        invariant |hashes| == i
        invariant forall l :: 0 <= l < i ==> hashes[l] == Empty(h, PROVER_PAD, l)
      {
        HashPairOfDigests(h, hashes[i - 1], hashes[i - 1]);
        EmptyStep(h, PROVER_PAD, i - 1);
        hashes := hashes + [HashPair(h, hashes[i - 1], hashes[i - 1]).value];
      }
      emptyHashes := Some(hashes);
    }

    method BuildLayer(ids: seq<bytes>, prev: seq<Digest>, empty: Digest, level: nat) returns (row: seq<Digest>)
      requires level >= 1 && RowIs(prev, ids, level - 1) && empty == Empty(h, PROVER_PAD, level - 1)
      ensures RowIs(row, ids, level)
    {
      hide HashPair;
      var size := Max(1, (|prev| + 1) / 2);
      row := [];
      for i := 0 to size
        invariant |row| == i
        invariant forall k :: 0 <= k < i ==> row[k] == Node(h, ids, PROVER_PAD, level, k)
      {
        var l := if 2 * i < |prev| then prev[2 * i] else empty;
        var r := if 2 * i + 1 < |prev| then prev[2 * i + 1] else empty;
        if 2 * i >= |prev| { BeyondStoredIsEmpty(h, ids, PROVER_PAD, level - 1, 2 * i); }
        if 2 * i + 1 >= |prev| { BeyondStoredIsEmpty(h, ids, PROVER_PAD, level - 1, 2 * i + 1); }
        HashPairOfDigests(h, l, r);
        row := row + [HashPair(h, l, r).value];
      }
    }

    /** Refuses a list that is too long, and otherwise stores exactly the dense tree's prefix. */
    method BuildFromMessageIds(ids: seq<bytes>) returns (ok: bool)
      requires Valid()
      modifies this
      ensures Valid()
      ensures ok == (|ids| <= Pow2(depth))
      ensures built == if ok then Some(ids) else old(built)
    {
      if |ids| > Pow2(depth) {
        return false;
      }
      var empty := GetEmptyHashes();
      var row: seq<Digest> := [];
      for i := 0 to |ids|
        invariant emptyHashes == Some(empty) && |row| == i
        invariant forall k :: 0 <= k < i ==> row[k] == h([0] + ids[k])
      {
        row := row + [h([0] + ids[i])];
      }
      var rows := [Some(row)];
      for level := 1 to depth + 1
        invariant emptyHashes == Some(empty) && |rows| == level
        invariant forall l :: 0 <= l < level ==> rows[l].Some? && RowIs(rows[l].value, ids, l)
      {
        var next := BuildLayer(ids, rows[level - 1].value, empty[level - 1], level);
        rows := rows + [Some(next)];
      }
      leafCount := |ids|;
      layers := rows;
      built := Some(ids);
      return true;
    }

    /** Whether stored or implied, a node is the dense tree's node. */
    method NodeAt(level: nat, index: nat) returns (d: Digest)
      requires Valid() && built.Some? && level <= depth
      modifies this`emptyHashes
      ensures Valid()
      ensures d == Node(h, built.value, PROVER_PAD, level, index)
    {
      if layers[level].Some? && index < |layers[level].value| {
        return layers[level].value[index];
      }
      BeyondStoredIsEmpty(h, built.value, PROVER_PAD, level, index);
      var hashes := GetEmptyHashes();
      return hashes[level];
    }

    /** None is the "tree not built yet" error. */
    method GetRoot() returns (root: Option<Digest>)
      requires Valid()
      ensures root == if built.Some? then Some(Node(h, built.value, PROVER_PAD, depth, 0)) else None
    {
      if |layers| == 0 || layers[depth].None? {
        return None;
      }
      StoredPositive(|built.value|, depth);
      return Some(layers[depth].value[0]);
    }

    /** A proof that verifies, whose path is the binary expansion of the index; None out of range. */
    method GetProof(leafIndex: int) returns (proof: Option<MerkleProof>)
      requires Valid()
      modifies this`emptyHashes
      ensures Valid()
      ensures proof.Some? <==> 0 <= leafIndex < leafCount
      ensures proof.Some? ==>
                && built.Some?
                && IsProof(h, built.value, PROVER_PAD, depth, leafIndex, proof.value.siblings, proof.value.pathIndices)
                && proof.value.leaf == h([0] + built.value[leafIndex])
                && proof.value.root == Node(h, built.value, PROVER_PAD, depth, 0)
                && Fold(h, proof.value.leaf, proof.value.siblings, proof.value.pathIndices, depth)
                   == Some(proof.value.root)
    {
      hide Fold, Empty, Node, Stored;
      StoredLeaves(leafCount);
      if leafIndex < 0 || leafIndex >= leafCount {
        return None;
      }
      var siblings: seq<bytes> := [];
      var pathIndices: seq<int> := [];
      var currentIndex: nat := leafIndex;
      for level := 0 to depth
        invariant Valid()
        invariant currentIndex == Shr(leafIndex, level)
        invariant IsProof(h, built.value, PROVER_PAD, level, leafIndex, siblings, pathIndices)
      {
        var isRight := currentIndex % 2 == 1;
        var siblingIndex := if isRight then currentIndex - 1 else currentIndex + 1;
        var node := NodeAt(level, siblingIndex);
        ShrStep(leafIndex, level);
        ProofExtends(h, built.value, PROVER_PAD, level, leafIndex, siblings, pathIndices,
                     node, if isRight then 1 else 0);
        pathIndices := pathIndices + [if isRight then 1 else 0];
        siblings := siblings + [node];
        currentIndex := currentIndex / 2;
      }
      ProofFoldsToRoot(h, built.value, PROVER_PAD, depth, leafIndex, siblings, pathIndices);
      LeafNode(h, built.value, PROVER_PAD, leafIndex);
      var root := GetRoot();
      return Some(MerkleProof(layers[0].value[leafIndex], siblings, pathIndices, root.value));
    }
  }

  lemma StoredLeaves(n: nat)
    ensures Stored(n, 0) == n
  {}

  /** At the bottom the nodes are the hashed leaves. */
  lemma LeafNode(h: Hash, ids: seq<bytes>, pad: bytes, i: nat)
    requires i < |ids|
    ensures Node(h, ids, pad, 0, i) == h([0] + ids[i])
  {}

  lemma {:induction false} StoredPositive(n: nat, level: nat)
    requires level >= 1
    ensures Stored(n, level) >= 1
  {}

  // --------------------------------------------------------------------------
  // The validator's dense tree
  // --------------------------------------------------------------------------

  /**
   * The leaves of the dense tree: real ids, which fill the 33-byte leaf buffer behind its zero, then padding
   * up to 2^20.
   */
  method DenseLeaves(h: Hash, ids: seq<Digest>) returns (leaves: seq<Digest>)
    ensures |leaves| == Pow2(TREE_DEPTH)
    ensures forall i :: 0 <= i < |leaves| ==> leaves[i] == Node(h, ids, VALIDATOR_PAD, 0, i)
  {
    var maxLeaves := Pow2(TREE_DEPTH);
    leaves := [];
    for i := 0 to maxLeaves
      invariant |leaves| == i
      invariant forall k :: 0 <= k < i ==> leaves[k] == Node(h, ids, VALIDATOR_PAD, 0, k)
    {
      leaves := leaves + [if i < |ids| then h([0] + ids[i]) else h([0] + Zeros(32))];
    }
  }

  method NextLevel(h: Hash, ids: seq<Digest>, current: seq<Digest>, level: nat, size: nat) returns (next: seq<Digest>)
    requires |current| == 2 * size
    requires forall i :: 0 <= i < |current| ==> current[i] == Node(h, ids, VALIDATOR_PAD, level, i)
    ensures |next| == size
    ensures forall i :: 0 <= i < size ==> next[i] == Node(h, ids, VALIDATOR_PAD, level + 1, i)
  {
    next := [];
    var i := 0;
    while i < |current|
      invariant i == 2 * |next| && i <= |current|
      invariant forall k :: 0 <= k < |next| ==> next[k] == Node(h, ids, VALIDATOR_PAD, level + 1, k)
    {
      HashPairOfDigests(h, current[i], current[i + 1]);
      assert 2 * |next| == i && current[i + 1] == Node(h, ids, VALIDATOR_PAD, level, 2 * |next| + 1);
      next := next + [HashPair(h, current[i], current[i + 1]).value];
      i := i + 2;
    }
  }

  method BuildMerkleTree(h: Hash, ids: seq<Digest>) returns (root: Digest)
    ensures root == Node(h, ids, [0] + Zeros(32), 20, 0)
  {
    hide Pow2, Node;
    var current := DenseLeaves(h, ids);
    for level := 0 to TREE_DEPTH
      invariant |current| == Pow2(TREE_DEPTH - level)
      invariant forall i :: 0 <= i < |current| ==> current[i] == Node(h, ids, VALIDATOR_PAD, level, i)
    {
      Pow2Step(TREE_DEPTH - level - 1);
      current := NextLevel(h, ids, current, level, Pow2(TREE_DEPTH - level - 1));
    }
    return current[0];
  }

  /** The proof of position `eventIdx` folds to the root that `BuildMerkleTree` returns. */
  method GetMerkleProof(h: Hash, ids: seq<Digest>, eventIdx: nat) returns (siblings: seq<bytes>, pathIndices: seq<int>)
    requires eventIdx < Pow2(TREE_DEPTH)
    ensures IsProof(h, ids, VALIDATOR_PAD, TREE_DEPTH, eventIdx, siblings, pathIndices)
    ensures Fold(h, Node(h, ids, VALIDATOR_PAD, 0, eventIdx), siblings, pathIndices, TREE_DEPTH)
         == Some(Node(h, ids, VALIDATOR_PAD, TREE_DEPTH, 0))
  {
    hide Fold, Node, Pow2, Empty;
    var current := DenseLeaves(h, ids);
    siblings, pathIndices := [], [];
    var idx: nat := eventIdx;
    for level := 0 to TREE_DEPTH
      invariant idx == Shr(eventIdx, level) && idx < |current| == Pow2(TREE_DEPTH - level)
      invariant forall i :: 0 <= i < |current| ==> current[i] == Node(h, ids, VALIDATOR_PAD, level, i)
      invariant IsProof(h, ids, VALIDATOR_PAD, level, eventIdx, siblings, pathIndices)
    {
      var half := Pow2(TREE_DEPTH - level - 1);
      Pow2Step(TREE_DEPTH - level - 1);
      assert |current| == 2 * half && idx / 2 < half;
      var siblingIdx := if idx % 2 == 0 then idx + 1 else idx - 1;
      ProofExtends(h, ids, VALIDATOR_PAD, level, eventIdx, siblings, pathIndices, current[siblingIdx], idx % 2);
      siblings := siblings + [current[siblingIdx]];
      pathIndices := pathIndices + [idx % 2];
      current := NextLevel(h, ids, current, level, half);
      ShrStep(eventIdx, level);
      idx := idx / 2;
    }
    ProofFoldsToRoot(h, ids, VALIDATOR_PAD, TREE_DEPTH, eventIdx, siblings, pathIndices);
  }
}
