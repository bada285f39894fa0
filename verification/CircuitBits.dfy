/**
 * The values handed to the proving circuit. A 32-byte hash travels as two 128-bit
 * numbers, other fields as arrays of bits, least significant first; put together in the
 * circuit's order they are the bits of the preimage that the message id is a hash of.
 * Also the 32-byte big-endian field elements of the serialised public inputs.
 */
module CircuitBits {
  import opened Bytes
  import opened Options
  import opened DepositEncoding
  import opened DepositParsing
  import opened Messages
  import opened MerkleTree

  type bit = x: int | 0 <= x < 2
  type Bits = seq<bit>

  // --------------------------------------------------------------------------
  // Bits of numbers and of bytes
  // --------------------------------------------------------------------------

  /** The n low bits of v, least significant first. */
  function NumberBits(v: int, n: nat): (r: Bits)
    ensures |r| == n
    decreases n
  {
    if n == 0 then [] else [v % 2] + NumberBits(v / 2, n - 1)
  }

  function ByteBits(b: bytes): (r: Bits)
    ensures |r| == 8 * |b|
  {
    if b == [] then [] else NumberBits(b[0], 8) + ByteBits(b[1..])
  }

  lemma {:induction false} BitAt(v: int, n: nat, i: nat)
    requires i < n
    ensures NumberBits(v, n)[i] == Shr(v, i) % 2
    decreases n
  {
    if i > 0 {
      BitAt(v / 2, n - 1, i - 1);
    }
  }

  lemma {:induction false} BitsOfConcat(a: bytes, b: bytes)
    ensures ByteBits(a + b) == ByteBits(a) + ByteBits(b)
  {
    hide NumberBits;
    if a == [] {
      assert a + b == b;
    } else {
      assert (a + b)[1..] == a[1..] + b;
      BitsOfConcat(a[1..], b);
    }
  }

  lemma {:induction false} SplitBits(v: int, m: nat, n: nat)
    ensures NumberBits(v, m + n) == NumberBits(v, m) + NumberBits(Shr(v, m), n)
    decreases m
  {
    if m > 0 {
      SplitBits(v / 2, m - 1, n);
    }
  }

  /** A multiple of 2^n does not show in the n low bits. */
  lemma {:induction false} HighPartHidden(v: int, k: int, n: nat)
    ensures NumberBits(v + k * Pow2(n), n) == NumberBits(v, n)
    decreases n
  {
    if n > 0 {
      var p := k * Pow2(n - 1);
      assert k * Pow2(n) == 2 * p;
      assert (v + 2 * p) / 2 == v / 2 + p && (v + 2 * p) % 2 == v % 2;
      HighPartHidden(v / 2, k, n - 1);
    }
  }

  /** The bits of a little-endian number are the number's bits. */
  lemma {:induction false} BitsOfLE(v: int, n: nat)
    ensures ByteBits(LE(v, n)) == NumberBits(v, 8 * n)
    decreases n
  {
    hide Shr, NumberBits;
    if n == 0 {
      assert NumberBits(v, 0) == [];
    } else {
      BitsOfLE(v / 256, n - 1);
      SplitBits(v, 8, 8 * (n - 1));
      assert Shr(v, 8) == v / 256 by { Shr8(v, 0); ShrNothing(v / 256); }
      LowBitsOfByte(v);
      assert LE(v, n)[1..] == LE(v / 256, n - 1);
      assert 8 + 8 * (n - 1) == 8 * n;
    }
  }

  lemma ShrNothing(v: int)
    ensures Shr(v, 0) == v
  {}

  lemma LowBitsOfByte(v: int)
    ensures NumberBits(v, 8) == NumberBits(v % 256, 8)
  {
    hide NumberBits;
    assert Pow2(4) == 16;
    HighPartHidden(v % 256, v / 256, 8);
  }

  lemma {:induction false} NumberBitsInjective(v: nat, w: nat, n: nat)
    requires v < Pow2(n) && w < Pow2(n) && NumberBits(v, n) == NumberBits(w, n)
    ensures v == w
    decreases n
  {
    if n > 0 {
      assert NumberBits(v, n)[0] == v % 2 && NumberBits(w, n)[0] == w % 2;
      assert NumberBits(v, n)[1..] == NumberBits(v / 2, n - 1);
      assert NumberBits(w, n)[1..] == NumberBits(w / 2, n - 1);
      NumberBitsInjective(v / 2, w / 2, n - 1);
    }
  }

  /** Different byte strings have different bits. */
  lemma {:induction false} ByteBitsInjective(a: bytes, b: bytes)
    requires ByteBits(a) == ByteBits(b)
    ensures a == b
  {
    hide NumberBits;
    assert 8 * |a| == 8 * |b|;
    if a != [] {
      SplitEqual(NumberBits(a[0], 8), ByteBits(a[1..]), NumberBits(b[0], 8), ByteBits(b[1..]));
      assert Pow2(4) == 16;
      NumberBitsInjective(a[0], b[0], 8);
      ByteBitsInjective(a[1..], b[1..]);
      assert a == [a[0]] + a[1..] && b == [b[0]] + b[1..];
    }
  }

  /** `bytesToBitsLE`, both copies. */
  method BytesToBitsLE(b: bytes) returns (bits: Bits)
    ensures bits == ByteBits(b)
  {
    hide NumberBits, Shr;
    bits := [];
    for i := 0 to |b|
      invariant bits == ByteBits(b[..i])
    {
      ghost var before := bits;
      for j := 0 to 8
        invariant bits == before + NumberBits(b[i], 8)[..j]
      {
        BitAt(b[i], 8, j);
        bits := bits + [Shr(b[i], j) % 2];
        assert NumberBits(b[i], 8)[..j + 1] == NumberBits(b[i], 8)[..j] + [NumberBits(b[i], 8)[j]];
      }
      assert NumberBits(b[i], 8)[..8] == NumberBits(b[i], 8);
      BitsOfConcat(b[..i], [b[i]]);
      assert ByteBits([b[i]]) == NumberBits(b[i], 8) + ByteBits([]);
      assert b[..i + 1] == b[..i] + [b[i]];
    }
    assert b[..|b|] == b;
  }

  /** `numberToBitsLE` as the validator has it: shift the number itself. */
  method NumberToBitsLE(value: int, numBits: nat) returns (bits: Bits)
    ensures bits == NumberBits(value, numBits)
  {
    hide Shr;
    bits := [];
    var v := value;
    ShrNothing(value);
    for i := 0 to numBits
      invariant v == Shr(value, i) && bits == NumberBits(value, numBits)[..i]
    {
      BitAt(value, numBits, i);
      bits := bits + [v % 2];
      ShrNext(value, i);
      v := v / 2;
    }
  }

  lemma {:induction false} ShrNext(v: int, i: nat)
    ensures Shr(v, i + 1) == Shr(v, i) / 2 && Shr(v, 0) == v
    decreases i
  {
    if i > 0 {
      ShrNext(v / 2, i - 1);
    }
  }

  /** `numberToBitsLE` as the prover has it: shift by the bit's position. */
  method ProverNumberToBitsLE(value: int, width: nat) returns (bits: Bits)
    ensures bits == NumberBits(value, width)
  {
    hide Shr;
    bits := [];
    for i := 0 to width
      invariant bits == NumberBits(value, width)[..i]
    {
      BitAt(value, width, i);
      bits := bits + [Shr(value, i) % 2];
    }
  }

  // --------------------------------------------------------------------------
  // Two 128-bit halves
  // --------------------------------------------------------------------------

  /** Accumulates from the last byte down: (v << 8) | byte. */
  method LittleEndian(b: bytes, from: nat, to: nat) returns (v: nat)
    requires from <= to <= |b|
    ensures v == LEVal(b[from..to])
  {
    v := 0;
    var i := to;
    assert b[to..to] == [];
    while i > from
      invariant from <= i <= to
      invariant v == LEVal(b[i..to])
    {
      i := i - 1;
      v := v * 256 + b[i];
      assert b[i..to][1..] == b[i + 1..to];
    }
  }

  /** `hashToFieldElements` of the validator: None is the error of reading past the end. */
  method HashToFieldElements(hash: bytes) returns (r: Option<(nat, nat)>)
    ensures r == if |hash| < 32 then None else Some((LEVal(hash[..16]), LEVal(hash[16..32])))
  {
    if |hash| < 32 {
      return None;
    }
    var lo := LittleEndian(hash, 0, 16);
    var hi := LittleEndian(hash, 16, 32);
    assert hash[0..16] == hash[..16];
    return Some((lo, hi));
  }

  /** `splitTo128` of the library and `hashToFieldElements` of the prover insist on 32 bytes. */
  method SplitTo128(hash: bytes) returns (r: Option<(nat, nat)>)
    ensures r == if |hash| != 32 then None else Some((LEVal(hash[..16]), LEVal(hash[16..])))
  {
    if |hash| != 32 {
      return None;
    }
    var lo := LittleEndian(hash, 0, 16);
    var hi := LittleEndian(hash, 16, 32);
    assert hash[0..16] == hash[..16] && hash[16..32] == hash[16..];
    return Some((lo, hi));
  }

  function Joined(lo: int, hi: int): bytes { LE(lo, 16) + LE(hi, 16) }

  const P128: int := 0x1_0000_0000_0000_0000_0000_0000_0000_0000

  lemma Pow128()
    ensures Pow256(16) == P128
  {
    PowU64();
    assert Pow256(10) == 0x1_0000 * U64;
    assert Pow256(12) == 0x1_0000_0000 * U64;
    assert Pow256(14) == 0x1_0000_0000_0000 * U64;
  }

  /** Splitting is a bijection from 32-byte strings onto pairs of numbers below 2^128. */
  lemma {:induction false} HalvesDetermineHash(hash: bytes, lo: nat, hi: nat)
    requires |hash| == 32
    ensures LEVal(hash[..16]) == lo && LEVal(hash[16..]) == hi <==> hash == Joined(lo, hi) && lo < P128 && hi < P128
  {
    hide LE, LEVal;
    Pow128();
    if LEVal(hash[..16]) == lo && LEVal(hash[16..]) == hi {
      ReadThenWrite(hash[..16]);
      ReadThenWrite(hash[16..]);
      assert hash == hash[..16] + hash[16..];
    }
    if hash == Joined(lo, hi) && lo < P128 && hi < P128 {
      assert hash[..16] == LE(lo, 16) && hash[16..] == LE(hi, 16);
      LERoundTrip(lo, 16);
      LERoundTrip(hi, 16);
    }
  }

  /** The two 128-bit expansions side by side are the bits of the hash. */
  lemma {:induction false} HalvesGiveBits(hash: bytes)
    requires |hash| == 32
    ensures NumberBits(LEVal(hash[..16]), 128) + NumberBits(LEVal(hash[16..]), 128) == ByteBits(hash)
  {
    hide NumberBits, LE, LEVal, ByteBits;
    ReadThenWrite(hash[..16]);
    ReadThenWrite(hash[16..]);
    BitsOfLE(LEVal(hash[..16]), 16);
    BitsOfLE(LEVal(hash[16..]), 16);
    BitsOfConcat(hash[..16], hash[16..]);
    assert hash == hash[..16] + hash[16..];
  }

  // --------------------------------------------------------------------------
  // The circuit's inputs
  // --------------------------------------------------------------------------

  datatype CircuitInput = CircuitInput(
    checkpointRootLo: nat, checkpointRootHi: nat, messageIdLo: nat, messageIdHi: nat, amount: int,
    recipientLo: nat, recipientHi: nat, version: nat, domainSep: Bits, srcChainId: Bits, dstChainId: Bits,
    srcProgramId: Bits, slotBits: Bits, eventIndexBits: Bits,
    sender: Bits, nonceBits: Bits, assetId: Bits, siblings: seq<Bits>, pathIndices: seq<int>)

  /** What the circuit hashes: the private arrays with the expansions of the public numbers in between. */
  function CircuitPreimage(c: CircuitInput): Bits {
    c.domainSep + c.srcChainId + c.dstChainId + c.srcProgramId + c.slotBits + c.eventIndexBits + c.sender
    + (NumberBits(c.recipientLo, 128) + NumberBits(c.recipientHi, 128))
    + NumberBits(c.amount, 64) + c.nonceBits + c.assetId
  }

  /** The circuit's decomposition of a number into n bits has a solution only below 2^n. */
  predicate Decomposes(c: CircuitInput) {
    && c.checkpointRootLo < P128 && c.checkpointRootHi < P128 && c.messageIdLo < P128 && c.messageIdHi < P128
    && c.recipientLo < P128 && c.recipientHi < P128 && IsU64(c.amount) && IsU32(c.version)
  }

  /** The bits of a hash as the circuit puts them together from its two halves. */
  function HalvesBits(lo: nat, hi: nat): Bits { NumberBits(lo, 128) + NumberBits(hi, 128) }

  predicate DecodedFields(f: Fields) {
    |f.srcProgramId| == |f.sender| == |f.assetId| == 32
  }

  method BitsOfEach(hashes: seq<bytes>) returns (r: seq<Bits>)
    ensures AreBitsOf(r, hashes)
  {
    hide ByteBits;
    r := [];
    for k := 0 to |hashes|
      invariant |r| == k && forall j :: 0 <= j < k ==> r[j] == ByteBits(hashes[j])
    {
      var bits := BytesToBitsLE(hashes[k]);
      r := r + [bits];
    }
  }

  /** The circuit gets the bits of the real siblings of a position, and the position's binary digits. */
  ghost predicate CarriesProof(c: CircuitInput, h: Hash, ids: seq<bytes>, i: nat) {
    exists siblings ::
      IsProof(h, ids, VALIDATOR_PAD, TREE_DEPTH, i, siblings, c.pathIndices) && AreBitsOf(c.siblings, siblings)
  }

  predicate AreBitsOf(bits: seq<Bits>, hashes: seq<bytes>) {
    |bits| == |hashes| && forall k :: 0 <= k < |bits| ==> bits[k] == ByteBits(hashes[k])
  }

  /** The lengths of the circuit's private arrays; the tree's are those of the proof. */
  predicate PrivateShapes(c: CircuitInput) {
    && |c.domainSep| == 136 && |c.srcProgramId| == |c.sender| == |c.assetId| == 256
    && |c.srcChainId| == |c.dstChainId| == |c.eventIndexBits| == 32 && |c.slotBits| == |c.nonceBits| == 64
  }

  /**
   * The private bits with the expansions of the public numbers are those of the preimage, the public
   * halves are those of the event's id and of the root, the siblings and path those of its position.
   */
  ghost predicate IsInputFor(c: CircuitInput, h: Hash, f: Fields, ids: seq<Digest>, i: nat, root: Digest)
    requires i < |ids|
  {
    && PrivateShapes(c)
    && CircuitPreimage(c) == ByteBits(Preimage(Utf8(DOMAIN_SEP), FitFields(f)))
    && HalvesBits(c.messageIdLo, c.messageIdHi) == ByteBits(ids[i])
    && HalvesBits(c.checkpointRootLo, c.checkpointRootHi) == ByteBits(root)
    && CarriesProof(c, h, ids, i)
    && (Decomposes(c) <==> IsU64(f.amount)) && c.version == 1
  }

  /**
   * Building the circuit input of one event (`generateAndSubmitSingleProof`). `f` holds the
   * event's decoded fields; only the recipient, decoded from hex, can have another length. `ids` and
   * `root` are those of the event's window.
   */
  method BuildCircuitInput(h: Hash, f: Fields, ids: seq<Digest>, eventIdx: nat, root: Digest)
    returns (r: Option<CircuitInput>)
    requires DecodedFields(f) && eventIdx < |ids| && eventIdx < Pow2(TREE_DEPTH)
    ensures r.Some? <==> |f.recipient| >= 32
    ensures r.Some? ==> IsInputFor(r.value, h, f, ids, eventIdx, root)
  {
    hide Utf8, NumberBits, ByteBits, LEVal, Preimage, CircuitPreimage, Fit, IsProof, Pow2, Node, Fold, HalvesBits;
    var siblings, path := GetMerkleProof(h, ids, eventIdx);
    var messageId := ids[eventIdx];
    var rootFE := HashToFieldElements(root);
    var msgIdFE := HashToFieldElements(messageId);
    var recipFE := HashToFieldElements(f.recipient);
    if recipFE.None? {
      return None;
    }
    var domainSep := BytesToBitsLE(Utf8(DOMAIN_SEP));
    var srcProgramId := BytesToBitsLE(f.srcProgramId);
    var slotBits := NumberToBitsLE(f.slot, 64);
    var eventIndexBits := NumberToBitsLE(f.eventIndex, 32);
    var sender := BytesToBitsLE(f.sender);
    var nonceBits := NumberToBitsLE(f.nonce, 64);
    var assetId := BytesToBitsLE(f.assetId);
    var srcChainId := NumberToBitsLE(f.srcChainId, 32);
    var dstChainId := NumberToBitsLE(f.dstChainId, 32);
    var siblingBits := BitsOfEach(siblings);
    var c := CircuitInput(rootFE.value.0, rootFE.value.1, msgIdFE.value.0, msgIdFE.value.1, f.amount,
                          recipFE.value.0, recipFE.value.1, 1, domainSep, srcChainId, dstChainId, srcProgramId,
                          slotBits, eventIndexBits, sender, nonceBits, assetId, siblingBits, path);
    DomainLength();
    FittedRecipient(f.recipient);
    HalvesOf(f.recipient[..32]);
    HalvesOf(messageId);
    HalvesOf(root);
    PreimageBits(FitFields(f), c);
    assert AreBitsOf(c.siblings, siblings);
    return Some(c);
  }

  /** Both halves of a hash fit 128 bits and expand to its bits. */
  lemma {:induction false} HalvesOf(hash: bytes)
    requires |hash| == 32
    ensures LEVal(hash[..16]) < P128 && LEVal(hash[16..32]) < P128
    ensures HalvesBits(LEVal(hash[..16]), LEVal(hash[16..32])) == ByteBits(hash)
  {
    hide NumberBits, ByteBits, LEVal;
    assert hash[16..32] == hash[16..];
    HalvesGiveBits(hash);
    HalvesBelow(hash);
  }

  lemma FittedRecipient(r: bytes)
    requires |r| >= 32
    ensures Fit(r, 32) == r[..32] && r[..32][..16] == r[..16] && r[..32][16..32] == r[16..32]
  {}

  lemma {:induction false} HalvesBelow(hash: bytes)
    requires |hash| == 32
    ensures LEVal(hash[..16]) < P128 && LEVal(hash[16..]) < P128
  {
    Pow128();
    LEValBound(hash[..16]);
    LEValBound(hash[16..]);
  }

  /** The eleven segments, in the circuit's order, are the bits of the preimage. */
  lemma {:induction false} PreimageBits(f: Fields, c: CircuitInput)
    requires c.domainSep == ByteBits(Utf8(DOMAIN_SEP))
    requires c.srcChainId == NumberBits(f.srcChainId, 32) && c.dstChainId == NumberBits(f.dstChainId, 32)
    requires c.srcProgramId == ByteBits(f.srcProgramId) && c.slotBits == NumberBits(f.slot, 64)
    requires c.eventIndexBits == NumberBits(f.eventIndex, 32) && c.sender == ByteBits(f.sender)
    requires HalvesBits(c.recipientLo, c.recipientHi) == ByteBits(f.recipient)
    requires c.amount == f.amount && c.nonceBits == NumberBits(f.nonce, 64) && c.assetId == ByteBits(f.assetId)
    ensures CircuitPreimage(c) == ByteBits(Preimage(Utf8(DOMAIN_SEP), f))
  {
    hide Utf8, NumberBits, ByteBits, LE;
    BitsOfLE(f.srcChainId, 4);
    BitsOfLE(f.dstChainId, 4);
    BitsOfLE(f.slot, 8);
    BitsOfLE(f.eventIndex, 4);
    BitsOfLE(f.amount, 8);
    BitsOfLE(f.nonce, 8);
    var p1 := Utf8(DOMAIN_SEP) + LE(f.srcChainId, 4);
    BitsOfConcat(Utf8(DOMAIN_SEP), LE(f.srcChainId, 4));
    var p2 := p1 + LE(f.dstChainId, 4);
    BitsOfConcat(p1, LE(f.dstChainId, 4));
    var p3 := p2 + f.srcProgramId;
    BitsOfConcat(p2, f.srcProgramId);
    var p4 := p3 + LE(f.slot, 8);
    BitsOfConcat(p3, LE(f.slot, 8));
    var p5 := p4 + LE(f.eventIndex, 4);
    BitsOfConcat(p4, LE(f.eventIndex, 4));
    var p6 := p5 + f.sender;
    BitsOfConcat(p5, f.sender);
    var p7 := p6 + f.recipient;
    BitsOfConcat(p6, f.recipient);
    var p8 := p7 + LE(f.amount, 8);
    BitsOfConcat(p7, LE(f.amount, 8));
    var p9 := p8 + LE(f.nonce, 8);
    BitsOfConcat(p8, LE(f.nonce, 8));
    BitsOfConcat(p9, f.assetId);
  }

  /** The circuit's preimage pins down the deposit: equal bits, equal deposits. */
  lemma {:induction false} CircuitPreimageInjective(f: Fields, f': Fields)
    requires Lengths32(f) && Lengths32(f') && InRange(f) && InRange(f')
    requires ByteBits(Preimage(Utf8(DOMAIN_SEP), f)) == ByteBits(Preimage(Utf8(DOMAIN_SEP), f'))
    ensures f == f'
  {
    hide *;
    DomainLength();
    ByteBitsInjective(Preimage(Utf8(DOMAIN_SEP), f), Preimage(Utf8(DOMAIN_SEP), f'));
    PreimageInjective(Utf8(DOMAIN_SEP), f, Utf8(DOMAIN_SEP), f');
  }

  // --------------------------------------------------------------------------
  // Field elements as 32 big-endian bytes
  // --------------------------------------------------------------------------

  function FieldBytes(v: int): (r: bytes)
    ensures |r| == 32
  {
    Reverse(LE(v, 32))
  }

  /** `fieldElementToBytes` and `fieldToBytes32BE`: fill from the last byte down. */
  method FieldElementToBytes(v: int) returns (r: bytes)
    ensures r == FieldBytes(v)
  {
    hide LE, Shr;
    var buf := new byte[32](i => 0);
    var n := v;
    ShrByte(v, 0);
    var i := 31;
    while i >= 0
      invariant -1 <= i <= 31
      invariant n == Shr(v, 8 * (31 - i))
      invariant forall k :: i < k < 32 ==> buf[k] == LE(v, 32)[31 - k]
    {
      LEByte(v, 32, 31 - i);
      buf[i] := n % 256;
      ShrByte(v, 8 * (31 - i));
      n := n / 256;
      i := i - 1;
    }
    return buf[..];
  }

  lemma {:induction false} ShrByte(v: int, k: nat)
    ensures Shr(v, k + 8) == Shr(v, k) / 256 && Shr(v, 0) == v
    decreases k
  {
    if k == 0 {
      Shr8(v, 0);
    } else {
      ShrByte(v / 2, k - 1);
    }
  }

  /** Reading a field element back gives the value exactly when it is below 2^256. */
  lemma {:induction false} FieldRoundTrip(v: int)
    ensures BEVal(FieldBytes(v)) == v <==> 0 <= v < Pow256(32)
  {
    hide LE, LEVal, BEVal, Reverse, Pow256;
    BEOfReverse(LE(v, 32));
    ReadBackExactly(v, 32);
  }

  function PackedInputs(signals: seq<int>): bytes {
    if signals == [] then [] else PackedInputs(signals[..|signals| - 1]) + FieldBytes(signals[|signals| - 1])
  }

  /** `serializeInputsForRIDE` of the prover: None is the wrong-count error. */
  method SerializeInputs(signals: seq<int>) returns (r: Option<bytes>)
    ensures r == if |signals| != 8 then None else Some(PackedInputs(signals))
  {
    hide FieldBytes, Written;
    if |signals| != 8 {
      return None;
    }
    var buf := NewBuffer(256);
    assert PackedInputs(signals[..0]) == [];
    for i := 0 to 8
      invariant |PackedInputs(signals[..i])| == 32 * i && Written(buf, PackedInputs(signals[..i]))
    {
      var b := FieldElementToBytes(signals[i]);
      assert signals[..i + 1][..i] == signals[..i];
      WriteBytes(buf, b, i * 32, PackedInputs(signals[..i]));
    }
    assert signals[..8] == signals;
    AllWritten(buf, PackedInputs(signals));
    return Some(buf[..]);
  }

  /** Signal i can be read back from bytes 32i to 32i + 32. */
  lemma {:induction false} InputsReadBack(signals: seq<int>, i: nat)
    requires i < |signals|
    ensures |PackedInputs(signals)| == 32 * |signals|
    ensures BEVal(PackedInputs(signals)[32 * i..32 * i + 32]) == signals[i] <==> 0 <= signals[i] < Pow256(32)
  {
    hide FieldBytes, BEVal, Pow256;
    PackedLength(signals);
    var n := |signals| - 1;
    PackedLength(signals[..n]);
    if i == n {
      FieldRoundTrip(signals[i]);
      assert PackedInputs(signals)[32 * i..32 * i + 32] == FieldBytes(signals[n]);
    } else {
      InputsReadBack(signals[..n], i);
      assert PackedInputs(signals)[32 * i..32 * i + 32] == PackedInputs(signals[..n])[32 * i..32 * i + 32];
    }
  }

  lemma {:induction false} PackedLength(signals: seq<int>)
    ensures |PackedInputs(signals)| == 32 * |signals|
  {
    if signals != [] {
      PackedLength(signals[..|signals| - 1]);
    }
  }

  const BN128_ORDER: int := 21888242871839275222246405745257275088548364400416034343698204186575808495617

  /** A checkpoint root that is not given counts as zero. */
  function RootOrZeros(root: Option<bytes>): bytes { if root.Some? then root.value else Zeros(32) }

  lemma {:induction false} ZeroHalves()
    ensures Zeros(32) == Joined(0, 0)
  {
    ZeroLE(16);
  }

  lemma {:induction false} ZeroLE(n: nat)
    ensures LE(0, n) == Zeros(n)
  {
    if n > 0 {
      ZeroLE(n - 1);
    }
  }

  /**
   * `derivePublicInputs`: None stands for a length error or a value outside the scalar field.
   * The halves are always inside it, so only the amount can be refused.
   */
  method DerivePublicInputs(messageId: bytes, amount: int, recipient: bytes, checkpointRoot: Option<bytes>)
    returns (r: Option<seq<int>>)
    ensures r.Some? <==> |messageId| == |recipient| == |RootOrZeros(checkpointRoot)| == 32
                             && amount < 21888242871839275222246405745257275088548364400416034343698204186575808495617
    ensures r.Some? ==>
              var s := r.value;
              && |s| == 8 && (forall k :: 0 <= k < 8 && k != 4 ==> 0 <= s[k] < P128) && s[4] == amount && s[7] == 1
              && RootOrZeros(checkpointRoot) == Joined(s[0], s[1])
              && messageId == Joined(s[2], s[3]) && recipient == Joined(s[5], s[6])
  {
    hide LE, LEVal;
    if |messageId| != 32 || |recipient| != 32 {
      return None;
    }
    var root: Option<(nat, nat)> := Some((0, 0));
    ZeroHalves();
    if checkpointRoot.Some? {
      root := SplitTo128(checkpointRoot.value);
      if root.None? {
        return None;
      }
      HalvesDetermineHash(checkpointRoot.value, root.value.0, root.value.1);
    }
    var msg := SplitTo128(messageId);
    var recip := SplitTo128(recipient);
    HalvesDetermineHash(messageId, msg.value.0, msg.value.1);
    HalvesDetermineHash(recipient, recip.value.0, recip.value.1);
    var values := [root.value.0, root.value.1, msg.value.0, msg.value.1, amount, recip.value.0, recip.value.1];
    for i := 0 to |values|
      invariant i > 4 ==> amount < BN128_ORDER
    {
      if values[i] >= BN128_ORDER {
        assert i == 4;
        return None;
      }
    }
    return Some(values + [1]);
  }
}
