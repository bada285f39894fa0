/**
 * The deposit circuit as equations on bits, over a keccak that computes `h`, and what ties it to
 * the checkpoint windows: the input built for an event satisfies the equations, and whatever
 * satisfies them for a window's root speaks of a deposit of that window.
 */
module DepositCircuit {
  import opened Bytes
  import opened Options
  import opened Messages
  import opened MerkleTree
  import opened DepositEncoding
  import opened Base58
  import opened Checkpoints
  import opened CheckpointInvariants
  import opened CircuitBits
  import MerkleBinding

  // --------------------------------------------------------------------------
  // Hashing bits
  // --------------------------------------------------------------------------

  function BitsVal(bits: Bits): (v: nat)
    ensures v < Pow2(|bits|)
  {
    if bits == [] then 0 else bits[0] + 2 * BitsVal(bits[1..])
  }

  lemma {:induction false} BitsOfVal(bits: Bits)
    ensures NumberBits(BitsVal(bits), |bits|) == bits
  {
    if bits != [] {
      BitsOfVal(bits[1..]);
    }
  }

  lemma ByteRange()
    ensures Pow2(8) == 256
  {
    assert Pow2(4) == 16;
  }

  /** The bytes that a bit array spells, up to seven bits left over. */
  function BytesOf(bits: Bits): (b: bytes)
    ensures |b| == |bits| / 8
  {
    if |bits| < 8 then []
    else
      ByteRange();
      [BitsVal(bits[..8])] + BytesOf(bits[8..])
  }

  lemma {:induction false} BitsOfBytesOf(bits: Bits)
    requires |bits| % 8 == 0
    ensures ByteBits(BytesOf(bits)) == bits
  {
    hide NumberBits, BitsVal;
    if bits != [] {
      BitsOfVal(bits[..8]);
      BitsOfBytesOf(bits[8..]);
      assert bits == bits[..8] + bits[8..];
    }
  }

  lemma {:induction false} BytesOfByteBits(b: bytes)
    ensures BytesOf(ByteBits(b)) == b
  {
    hide ByteBits, BytesOf;
    BitsOfBytesOf(ByteBits(b));
    ByteBitsInjective(BytesOf(ByteBits(b)), b);
  }

  function HashBits(h: Hash, bits: Bits): (r: Bits)
    ensures |r| == 256
  {
    ByteBits(h(BytesOf(bits)))
  }

  // --------------------------------------------------------------------------
  // The circuit
  // --------------------------------------------------------------------------

  /** One level: the path bit selects the side, behind a 0x01 byte. */
  function LevelBits(h: Hash, current: Bits, sibling: Bits, pathIndex: int): (r: Bits)
    ensures |r| == 256
  {
    HashBits(h, NumberBits(1, 8) + if pathIndex == 0 then current + sibling else sibling + current)
  }

  predicate TreeShapes(siblings: seq<Bits>, path: seq<int>) {
    && |siblings| == |path| == TREE_DEPTH
    && (forall k :: 0 <= k < |siblings| ==> |siblings[k]| == 256)
    && forall k :: 0 <= k < |path| ==> path[k] == 0 || path[k] == 1
  }

  function RootBits(h: Hash, leaf: Bits, siblings: seq<Bits>, path: seq<int>, k: nat): Bits
    requires k <= |siblings| && k <= |path|
  {
    if k == 0 then leaf else LevelBits(h, RootBits(h, leaf, siblings, path, k - 1), siblings[k - 1], path[k - 1])
  }

  /** The constraints, step by step: decompositions, message id, leaf, inclusion, version. */
  predicate Accepts(h: Hash, c: CircuitInput) {
    && PrivateShapes(c) && TreeShapes(c.siblings, c.pathIndices) && Decomposes(c)
    && var id := HalvesBits(c.messageIdLo, c.messageIdHi);
    && HashBits(h, CircuitPreimage(c)) == id
    && var leaf := HashBits(h, NumberBits(0, 8) + id);
    && RootBits(h, leaf, c.siblings, c.pathIndices, TREE_DEPTH) == HalvesBits(c.checkpointRootLo, c.checkpointRootHi)
    && c.version == 1
  }

  lemma {:induction false} PrefixedBits(p: byte, b: bytes)
    ensures NumberBits(p, 8) + ByteBits(b) == ByteBits([p] + b)
  {
    hide NumberBits;
    assert ([p] + b)[1..] == b;
  }

  lemma {:induction false} HashOfBits(h: Hash, b: bytes)
    ensures HashBits(h, ByteBits(b)) == ByteBits(h(b))
  {
    hide BytesOf, ByteBits;
    BytesOfByteBits(b);
  }

  /** The circuit's tree levels compute, bit by bit, the fold over the bytes. */
  lemma {:induction false} LevelIsStep(h: Hash, current: Digest, sibling: Digest, pathIndex: int)
    requires pathIndex == 0 || pathIndex == 1
    ensures Step(h, current, sibling, pathIndex).Some?
    ensures LevelBits(h, ByteBits(current), ByteBits(sibling), pathIndex)
         == ByteBits(Step(h, current, sibling, pathIndex).value)
    ensures |Step(h, current, sibling, pathIndex).value| == 32
  {
    hide HashBits, NumberBits, ByteBits, HashPair;
    var left, right := if pathIndex == 0 then current else sibling, if pathIndex == 0 then sibling else current;
    HashPairOfDigests(h, left, right);
    BitsOfConcat(left, right);
    PrefixedBits(1, left + right);
    HashOfBits(h, [1] + (left + right));
    assert [1] + (left + right) == [1] + left + right;
  }

  lemma {:induction false} RootBitsFold(h: Hash, leaf: Digest, siblings: seq<Digest>, bits: seq<Bits>, path: seq<int>,
                                        k: nat)
    requires TreeShapes(bits, path) && AreBitsOf(bits, siblings) && k <= TREE_DEPTH
    ensures Fold(h, leaf, siblings, path, k).Some? && |Fold(h, leaf, siblings, path, k).value| == 32
    ensures RootBits(h, ByteBits(leaf), bits, path, k) == ByteBits(Fold(h, leaf, siblings, path, k).value)
  {
    hide LevelBits, ByteBits, Step;
    if k > 0 {
      RootBitsFold(h, leaf, siblings, bits, path, k - 1);
      LevelIsStep(h, Fold(h, leaf, siblings, path, k - 1).value, siblings[k - 1], path[k - 1]);
    }
  }

  // --------------------------------------------------------------------------
  // Inputs built for a window are accepted
  // --------------------------------------------------------------------------

  function EventPreimage(f: Fields): bytes { Preimage(Utf8(DOMAIN_SEP), FitFields(f)) }

  lemma {:induction false} RealPathHasShape(h: Hash, c: CircuitInput, ids: seq<Digest>, i: nat, siblings: seq<bytes>)
    requires IsProof(h, ids, VALIDATOR_PAD, TREE_DEPTH, i, siblings, c.pathIndices) && AreBitsOf(c.siblings, siblings)
    ensures TreeShapes(c.siblings, c.pathIndices) && forall k :: 0 <= k < |siblings| ==> |siblings[k]| == 32
  {
    hide Node, ByteBits;
  }

  /** The input of an event whose id is the hash of its own preimage is accepted exactly if its amount fits. */
  lemma {:induction false} BuiltInputIsAccepted(h: Hash, c: CircuitInput, f: Fields, ids: seq<Digest>, i: nat,
                                                root: Digest)
    requires i < |ids| && i < Pow2(TREE_DEPTH) && IsInputFor(c, h, f, ids, i, root)
    requires ids[i] == h(EventPreimage(f)) && root == Node(h, ids, VALIDATOR_PAD, TREE_DEPTH, 0)
    ensures Accepts(h, c) <==> IsU64(f.amount)
  {
    hide Pow2, Node, ByteBits, NumberBits, HalvesBits, HashBits, CircuitPreimage, Decomposes, PrivateShapes, Fold,
         IsProof, Preimage, FitFields, TreeShapes;
    var siblings :| IsProof(h, ids, VALIDATOR_PAD, TREE_DEPTH, i, siblings, c.pathIndices)
        && AreBitsOf(c.siblings, siblings);
    RealPathHasShape(h, c, ids, i, siblings);
    HashOfBits(h, EventPreimage(f));
    PrefixedBits(0, ids[i]);
    HashOfBits(h, [0] + ids[i]);
    LeafNode(h, ids, VALIDATOR_PAD, i);
    ProofFoldsToRoot(h, ids, VALIDATOR_PAD, TREE_DEPTH, i, siblings, c.pathIndices);
    RootBitsFold(h, h([0] + ids[i]), siblings, c.siblings, c.pathIndices, TREE_DEPTH);
  }

  /**
   * However long after a window closed, the input then built for one of its events satisfies the circuit,
   * against the root fixed at closing, exactly if the event's amount is a 64-bit number.
   */
  lemma {:induction false} LateInputIsAccepted(t: Trace, cfg: Config, run: seq<Action>, w: nat, i: nat, c: CircuitInput)
    requires Inv(t, cfg) && AllEnabled(t, cfg, run) && w in t.s.windows && t.s.windows[w].closed
    requires i < |t.s.windows[w].events| && i < Pow2(TREE_DEPTH)
    requires IsInputOf(Exec(t, cfg, run).s, cfg, w, i, c)
    ensures Accepts(cfg.h, c) <==> IsU64(t.s.windows[w].events[i].amount)
    ensures t.s.windows[w].merkleRoot.Some?
    ensures HalvesBits(c.checkpointRootLo, c.checkpointRootHi) == ByteBits(t.s.windows[w].merkleRoot.value)
  {
    hide Pow2, Node, Accepts, HalvesBits, CarriesProof, AllEnabled, Exec, RefsOk, SlotsOk, Preimage, FitFields,
         CircuitPreimage, PrivateShapes, Decomposes, Full, KeepFirst, ValidText;
    ClosedStaysFrozen(t, cfg, run, w);
    var window := t.s.windows[w];
    var f := EventFields(cfg, window.events[i]).value;
    BuiltInputIsAccepted(cfg.h, c, f, window.messageIds, i, window.merkleRoot.value);
  }

  /** The input of event i of window w, as `SingleProofInput` builds it. */
  ghost predicate IsInputOf(s: Service, cfg: Config, w: nat, i: nat, c: CircuitInput) {
    && w in s.windows && i < |s.windows[w].events| && i < |s.windows[w].messageIds| && s.windows[w].merkleRoot.Some?
    && EventFields(cfg, s.windows[w].events[i]).Some?
    && IsInputFor(c, cfg.h, EventFields(cfg, s.windows[w].events[i]).value, s.windows[w].messageIds, i,
                  s.windows[w].merkleRoot.value)
  }

  /** The first half of `generateAndSubmitSingleProof`; None is a decoding error or a recipient that is too short. */
  method SingleProofInput(service: ZkBridgeService, w: nat, eventIdx: nat) returns (r: Option<CircuitInput>)
    requires w in service.checkpointWindows && eventIdx < Pow2(TREE_DEPTH)
    requires var window := service.checkpointWindows[w];
             eventIdx < |window.events| && eventIdx < |window.messageIds| && window.merkleRoot.Some?
    ensures var f := EventFields(service.config, service.checkpointWindows[w].events[eventIdx]);
            r.Some? <==> f.Some? && |f.value.recipient| >= 32
    ensures r.Some? ==> IsInputOf(service.State(), service.config, w, eventIdx, r.value)
  {
    hide Pow2, Full, KeepFirst, ValidText, IsInputFor;
    var window := service.checkpointWindows[w];
    var event := window.events[eventIdx];
    var senderBytes := Base58ToBytes(event.sender, 32);
    if senderBytes.None? || event.recipient.None? {
      return None;
    }
    var srcProgramId := Base58ToBytes(service.config.programId, 32);
    if srcProgramId.None? {
      return None;
    }
    r := BuildCircuitInput(service.config.h,
                           Fields(1, 2, srcProgramId.value, event.slot, event.eventIndex, senderBytes.value,
                                  event.recipient.value, event.amount, event.nonce, Zeros(32)),
                           window.messageIds, eventIdx, window.merkleRoot.value);
  }

  // --------------------------------------------------------------------------
  // Whatever is accepted is a deposit of the window
  // --------------------------------------------------------------------------

  function BytesOfEach(bits: seq<Bits>): (r: seq<bytes>)
    ensures |r| == |bits|
  {
    seq(|bits|, k requires 0 <= k < |bits| => BytesOf(bits[k]))
  }

  lemma {:induction false} EachIsSpelled(bits: seq<Bits>)
    requires forall k :: 0 <= k < |bits| ==> |bits[k]| == 256
    ensures AreBitsOf(bits, BytesOfEach(bits)) && forall k :: 0 <= k < |bits| ==> |BytesOfEach(bits)[k]| == 32
  {
    hide ByteBits, BytesOf;
    forall k | 0 <= k < |bits| ensures bits[k] == ByteBits(BytesOfEach(bits)[k]) {
      BitsOfBytesOf(bits[k]);
    }
  }

  ghost function EventPreimages(cfg: Config, events: seq<Event>): set<bytes> {
    set i | 0 <= i < |events| && EventFields(cfg, events[i]).Some? :: EventPreimage(EventFields(cfg, events[i]).value)
  }

  /** Everything hashed for the window, and for checking the input. */
  ghost function Hashed(cfg: Config, window: Window, c: CircuitInput): set<bytes> {
    MerkleBinding.TreePreimages(cfg.h, window.messageIds, VALIDATOR_PAD, |c.siblings|, 0)
    + MerkleBinding.FoldPreimages(cfg.h, cfg.h(BytesOf(CircuitPreimage(c))), BytesOfEach(c.siblings), c.pathIndices,
                                  |c.siblings|)
    + EventPreimages(cfg, window.events) + {BytesOf(CircuitPreimage(c))}
  }

  /** The input has the fields of the deposit, bit for bit, the public amount and recipient included. */
  predicate SpeaksOf(c: CircuitInput, f: Fields) {
    && CircuitPreimage(c) == ByteBits(EventPreimage(f))
    && (IsU64(f.amount) ==> c.amount == f.amount)
    && Joined(c.recipientLo, c.recipientHi) == Fit(f.recipient, 32)
  }

  /** What the circuit accepts is a Merkle proof that verifies. */
  lemma {:induction false} AcceptedFolds(h: Hash, c: CircuitInput, root: Digest)
    requires Accepts(h, c) && HalvesBits(c.checkpointRootLo, c.checkpointRootHi) == ByteBits(root)
    ensures var id := h(BytesOf(CircuitPreimage(c)));
            && HalvesBits(c.messageIdLo, c.messageIdHi) == ByteBits(id)
            && |c.siblings| == TREE_DEPTH
            && Fold(h, h([0] + id), BytesOfEach(c.siblings), c.pathIndices, |c.siblings|) == Some(root)
  {
    hide NumberBits, ByteBits, BytesOf, BytesOfEach, HalvesBits, CircuitPreimage, PrivateShapes, Decomposes, Fold,
         RootBits;
    var id := h(BytesOf(CircuitPreimage(c)));
    PrefixedBits(0, id);
    HashOfBits(h, [0] + id);
    EachIsSpelled(c.siblings);
    var siblings := BytesOfEach(c.siblings);
    RootBitsFold(h, h([0] + id), siblings, c.siblings, c.pathIndices, TREE_DEPTH);
    ByteBitsInjective(Fold(h, h([0] + id), siblings, c.pathIndices, TREE_DEPTH).value, root);
  }

  lemma {:induction false} SamePreimageSpeaks(c: CircuitInput, f: Fields)
    requires PrivateShapes(c) && Decomposes(c) && CircuitPreimage(c) == ByteBits(EventPreimage(f))
    ensures SpeaksOf(c, f)
  {
    hide NumberBits, ByteBits, LE, Fit, Utf8;
    DomainLength();
    var g := FitFields(f);
    var front := Utf8(DOMAIN_SEP) + LE(g.srcChainId, 4) + LE(g.dstChainId, 4) + g.srcProgramId + LE(g.slot, 8)
                 + LE(g.eventIndex, 4) + g.sender;
    var back := LE(g.nonce, 8) + g.assetId;
    assert EventPreimage(f) == front + (g.recipient + (LE(g.amount, 8) + back));
    BitsOfConcat(front, g.recipient + (LE(g.amount, 8) + back));
    BitsOfConcat(g.recipient, LE(g.amount, 8) + back);
    BitsOfConcat(LE(g.amount, 8), back);
    assert ByteBits(g.recipient) == ByteBits(EventPreimage(f))[808..1064];
    assert ByteBits(LE(g.amount, 8)) == ByteBits(EventPreimage(f))[1064..1128];
    assert CircuitPreimage(c)[808..1064] == HalvesBits(c.recipientLo, c.recipientHi);
    assert CircuitPreimage(c)[1064..1128] == NumberBits(c.amount, 64);
    SameRecipient(c.recipientLo, c.recipientHi, g.recipient);
    BitsOfLE(c.amount, 8);
    ByteBitsInjective(LE(c.amount, 8), LE(g.amount, 8));
    PowU64();
    if IsU64(f.amount) {
      LEInjective(c.amount, f.amount, 8);
    }
  }

  lemma {:induction false} SameRecipient(lo: nat, hi: nat, recipient: bytes)
    requires HalvesBits(lo, hi) == ByteBits(recipient)
    ensures Joined(lo, hi) == recipient
  {
    hide NumberBits, ByteBits, LE;
    BitsOfLE(lo, 16);
    BitsOfLE(hi, 16);
    BitsOfConcat(LE(lo, 16), LE(hi, 16));
    ByteBitsInjective(Joined(lo, hi), recipient);
  }

  lemma AcceptedShapes(h: Hash, c: CircuitInput)
    requires Accepts(h, c)
    ensures PrivateShapes(c) && Decomposes(c) && |CircuitPreimage(c)| % 8 == 0
    ensures PublicInRange(c)
  {
    hide NumberBits, HashBits, RootBits;
  }

  lemma NoCollisionWithin(h: Hash, some: set<bytes>, all: set<bytes>)
    requires some <= all && MerkleBinding.NoCollision(h, all)
    ensures MerkleBinding.NoCollision(h, some)
  {}

  lemma IdOfEvent(cfg: Config, window: Window, i: nat)
    requires WindowOk(cfg, window) && i < |window.events|
    ensures i < |window.messageIds| && EventFields(cfg, window.events[i]).Some?
    ensures window.messageIds[i] == cfg.h(EventPreimage(EventFields(cfg, window.events[i]).value))
    ensures EventPreimage(EventFields(cfg, window.events[i]).value) in EventPreimages(cfg, window.events)
  {
    hide EventFields, Preimage, FitFields, RootOf;
    assert MessageId(cfg, window.events[i]) == Some(window.messageIds[i]);
  }

  lemma RootOfWindow(cfg: Config, window: Window)
    requires WindowOk(cfg, window) && window.merkleRoot.Some?
    ensures |window.messageIds| == |window.events|
    ensures window.merkleRoot.value == Node(cfg.h, window.messageIds, VALIDATOR_PAD, TREE_DEPTH, 0)
  {
    hide MessageId, Node;
  }

  /** Version 1, a 64-bit amount, and 128-bit halves. */
  predicate PublicInRange(c: CircuitInput) {
    var limit := 0x1_0000_0000_0000_0000_0000_0000_0000_0000;
    && c.version == 1 && 0 <= c.amount < 0x1_0000_0000_0000_0000
    && c.checkpointRootLo < limit && c.checkpointRootHi < limit && c.messageIdLo < limit && c.messageIdHi < limit
    && c.recipientLo < limit && c.recipientHi < limit
  }

  /** The id is that of the deposit at the path's position, whose fields the input has, or it is the padding. */
  ghost predicate NamesADeposit(cfg: Config, window: Window, c: CircuitInput) {
    var pos, id := MerkleBinding.Position(c.pathIndices, |c.siblings|, 0), cfg.h(BytesOf(CircuitPreimage(c)));
    && HalvesBits(c.messageIdLo, c.messageIdHi) == ByteBits(id)
    && PublicInRange(c)
    && if pos < |window.events| && pos < |window.messageIds| then
         && EventFields(cfg, window.events[pos]).Some? && window.messageIds[pos] == id
         && SpeaksOf(c, EventFields(cfg, window.events[pos]).value)
       else id == Zeros(32)
  }

  /**
   * Whoever built it: an input that the circuit accepts for the root of a window of deposits speaks of the
   * deposit at the position its path spells, amount and recipient included, unless its preimage hashes
   * to the 32 zero bytes with which the tree is padded.
   */
  lemma {:induction false} AcceptedInputIsADeposit(cfg: Config, window: Window, c: CircuitInput)
    requires WindowOk(cfg, window) && window.merkleRoot.Some?
    requires Accepts(cfg.h, c)
             && HalvesBits(c.checkpointRootLo, c.checkpointRootHi) == ByteBits(window.merkleRoot.value)
    requires MerkleBinding.NoCollision(cfg.h, Hashed(cfg, window, c))
    ensures NamesADeposit(cfg, window, c)
  {
    hide Accepts, PrivateShapes, Decomposes, HalvesBits, ByteBits, BytesOf, BytesOfEach, CircuitPreimage, Fold, Node,
         EventFields, EventPreimage, EventPreimages, SpeaksOf, WindowOk, Hashed, MerkleBinding.Position,
         MerkleBinding.NoCollision, MerkleBinding.TreePreimages, MerkleBinding.FoldPreimages;
    AcceptedShapes(cfg.h, c);
    AcceptedFolds(cfg.h, c, window.merkleRoot.value);
    RootOfWindow(cfg, window);
    TreeAndFoldAreHashed(cfg, window, c);
    MemberOrPadding(cfg.h, window.messageIds, |c.siblings|, cfg.h(BytesOf(CircuitPreimage(c))), BytesOfEach(c.siblings),
                    c.pathIndices, Hashed(cfg, window, c));
    var pos := MerkleBinding.Position(c.pathIndices, |c.siblings|, 0);
    if pos < |window.events| {
      IdOfEvent(cfg, window, pos);
      var f := EventFields(cfg, window.events[pos]).value;
      PreimagesAreHashed(cfg, window, c);
      SamePreimage(cfg.h, BytesOf(CircuitPreimage(c)), EventPreimage(f), Hashed(cfg, window, c));
      BitsOfBytesOf(CircuitPreimage(c));
      SamePreimageSpeaks(c, f);
    }
  }

  lemma PreimagesAreHashed(cfg: Config, window: Window, c: CircuitInput)
    ensures BytesOf(CircuitPreimage(c)) in Hashed(cfg, window, c)
    ensures EventPreimages(cfg, window.events) <= Hashed(cfg, window, c)
  {
    hide CircuitPreimage, BytesOf, BytesOfEach, EventPreimages, MerkleBinding.TreePreimages,
         MerkleBinding.FoldPreimages;
  }

  lemma TreeAndFoldAreHashed(cfg: Config, window: Window, c: CircuitInput)
    ensures MerkleBinding.TreePreimages(cfg.h, window.messageIds, VALIDATOR_PAD, |c.siblings|, 0)
            <= Hashed(cfg, window, c)
    ensures MerkleBinding.FoldPreimages(cfg.h, cfg.h(BytesOf(CircuitPreimage(c))), BytesOfEach(c.siblings),
                                        c.pathIndices, |c.siblings|) <= Hashed(cfg, window, c)
  {
    hide CircuitPreimage, BytesOf, BytesOfEach, EventPreimages, MerkleBinding.TreePreimages,
         MerkleBinding.FoldPreimages;
  }

  lemma {:induction false} MemberOrPadding(h: Hash, ids: seq<Digest>, depth: nat, id: Digest, siblings: seq<bytes>,
                                           path: seq<int>, all: set<bytes>)
    requires |siblings| == depth
             && Fold(h, h([0] + id), siblings, path, depth) == Some(Node(h, ids, VALIDATOR_PAD, depth, 0))
    requires MerkleBinding.NoCollision(h, all)
    requires MerkleBinding.TreePreimages(h, ids, VALIDATOR_PAD, depth, 0) <= all
    requires MerkleBinding.FoldPreimages(h, id, siblings, path, depth) <= all
    ensures var pos := MerkleBinding.Position(path, depth, 0); if pos < |ids| then ids[pos] == id else id == Zeros(32)
  {
    hide Fold, Node, MerkleBinding.TreePreimages, MerkleBinding.FoldPreimages, MerkleBinding.Position,
         MerkleBinding.NoCollision;
    NoCollisionWithin(h, MerkleBinding.TreePreimages(h, ids, VALIDATOR_PAD, depth, 0)
                         + MerkleBinding.FoldPreimages(h, id, siblings, path, depth), all);
    MerkleBinding.ValidatorMembership(h, ids, depth, id,
                                      MerkleProof(h([0] + id), siblings, path, Node(h, ids, VALIDATOR_PAD, depth, 0)));
  }

  lemma SamePreimage(h: Hash, x: bytes, y: bytes, all: set<bytes>)
    requires x in all && y in all && h(x) == h(y) && MerkleBinding.NoCollision(h, all)
    ensures x == y
  {
    assert !MerkleBinding.Collide(h, x, y) || !MerkleBinding.Collide(h, y, x);
  }
}
