/**
 * What the submitter sends to Solana for an unlock: one Ed25519 verification instruction
 * that packs all (key, signature) pairs around a single copy of the message, and the Borsh
 * parameters of the unlock call. Reading either back gives what was put in.
 */
module UnlockSubmission {
  import opened Buffers
  import opened Bytes
  import opened Options

  datatype Signed = Signed(publicKey: bytes, signature: bytes)

  // --------------------------------------------------------------------------
  // The packed instruction: layout
  // --------------------------------------------------------------------------

  const HEADER: nat := 2
  const OFFSETS: nat := 14

  function PubkeysAt(n: nat): nat { HEADER + n * OFFSETS }
  function SignaturesAt(n: nat): nat { PubkeysAt(n) + n * 32 }
  function MessageAt(n: nat): nat { SignaturesAt(n) + n * 64 }

  /** The index by which a record refers to the bytes of its own instruction. */
  const THIS_INSTRUCTION: int := 0xffff

  /** The 14-byte offset record of pair i among n. */
  function Record(i: nat, n: nat, messageLength: nat): (r: bytes)
    ensures |r| == OFFSETS
  {
    LE(SignaturesAt(n) + i * 64, 2) + LE(THIS_INSTRUCTION, 2) + LE(PubkeysAt(n) + i * 32, 2) + LE(THIS_INSTRUCTION, 2)
    + LE(MessageAt(n), 2) + LE(messageLength, 2) + LE(THIS_INSTRUCTION, 2)
  }

  function Records(k: nat, n: nat, messageLength: nat): (r: bytes)
    ensures |r| == k * OFFSETS
  {
    if k == 0 then [] else Records(k - 1, n, messageLength) + Record(k - 1, n, messageLength)
  }

  predicate WellSized(list: seq<Signed>) {
    forall i :: 0 <= i < |list| ==> |list[i].publicKey| == 32 && |list[i].signature| == 64
  }

  function Keys(list: seq<Signed>): bytes {
    if list == [] then [] else Keys(list[..|list| - 1]) + list[|list| - 1].publicKey
  }

  function Signatures(list: seq<Signed>): bytes {
    if list == [] then [] else Signatures(list[..|list| - 1]) + list[|list| - 1].signature
  }

  /** Five regions, one after the other: disjoint, and nothing between them. */
  function Packed(list: seq<Signed>, message: bytes): bytes
    requires |list| < 256
  {
    [|list|, 0] + Records(|list|, |list|, |message|) + Keys(list) + Signatures(list) + message
  }

  lemma {:induction false} RegionLengths(list: seq<Signed>)
    requires WellSized(list)
    ensures |Keys(list)| == 32 * |list| && |Signatures(list)| == 64 * |list|
  {
    if list != [] {
      RegionLengths(list[..|list| - 1]);
    }
  }

  lemma {:induction false} RecordAt(i: nat, k: nat, n: nat, messageLength: nat)
    requires i < k
    ensures Records(k, n, messageLength)[i * OFFSETS..i * OFFSETS + OFFSETS] == Record(i, n, messageLength)
    decreases k
  {
    hide Record;
    var front := Records(k - 1, n, messageLength);
    if i < k - 1 {
      RecordAt(i, k - 1, n, messageLength);
      assert Records(k, n, messageLength)[i * OFFSETS..i * OFFSETS + OFFSETS]
             == front[i * OFFSETS..i * OFFSETS + OFFSETS];
    }
  }

  lemma {:induction false} PairAt(list: seq<Signed>, i: nat)
    requires WellSized(list) && i < |list|
    ensures |Keys(list)| == 32 * |list| && Keys(list)[32 * i..32 * i + 32] == list[i].publicKey
    ensures |Signatures(list)| == 64 * |list| && Signatures(list)[64 * i..64 * i + 64] == list[i].signature
  {
    RegionLengths(list);
    var front := list[..|list| - 1];
    RegionLengths(front);
    if i < |list| - 1 {
      PairAt(front, i);
      assert Keys(list)[32 * i..32 * i + 32] == Keys(front)[32 * i..32 * i + 32];
      assert Signatures(list)[64 * i..64 * i + 64] == Signatures(front)[64 * i..64 * i + 64];
    }
  }

  /** Where everything is in the packed bytes. */
  lemma {:induction false} PackedParts(list: seq<Signed>, message: bytes, i: nat)
    requires |list| < 256 && WellSized(list) && i < |list|
    ensures var d, n := Packed(list, message), |list|;
            && |d| == MessageAt(n) + |message|
            && d[HEADER + i * OFFSETS..HEADER + i * OFFSETS + OFFSETS] == Record(i, n, |message|)
            && d[PubkeysAt(n) + i * 32..PubkeysAt(n) + i * 32 + 32] == list[i].publicKey
            && d[SignaturesAt(n) + i * 64..SignaturesAt(n) + i * 64 + 64] == list[i].signature
            && d[MessageAt(n)..] == message
  {
    hide Packed, Record;
    PackedEnds(list, message);
    PackedRecord(list, message, i);
    PackedPair(list, message, i);
  }

  lemma {:induction false} PackedRecord(list: seq<Signed>, message: bytes, i: nat)
    requires |list| < 256 && WellSized(list) && i < |list|
    ensures HEADER + i * OFFSETS + OFFSETS <= |Packed(list, message)|
    ensures Packed(list, message)[HEADER + i * OFFSETS..HEADER + i * OFFSETS + OFFSETS] == Record(i, |list|, |message|)
  {
    hide Record, Records, Keys, Signatures;
    var n := |list|;
    RecordAt(i, n, n, |message|);
    Sliced([n, 0], Records(n, n, |message|), Keys(list) + Signatures(list) + message, i * OFFSETS, OFFSETS);
    assert Packed(list, message) == [n, 0] + Records(n, n, |message|) + (Keys(list) + Signatures(list) + message);
  }

  lemma {:induction false} PackedPair(list: seq<Signed>, message: bytes, i: nat)
    requires |list| < 256 && WellSized(list) && i < |list|
    ensures var d, n := Packed(list, message), |list|;
            && SignaturesAt(n) + i * 64 + 64 <= |d|
            && d[PubkeysAt(n) + i * 32..PubkeysAt(n) + i * 32 + 32] == list[i].publicKey
            && d[SignaturesAt(n) + i * 64..SignaturesAt(n) + i * 64 + 64] == list[i].signature
  {
    hide Record, Records, Keys, Signatures;
    var n := |list|;
    PairAt(list, i);
    var front := [n, 0] + Records(n, n, |message|);
    Sliced(front, Keys(list), Signatures(list) + message, i * 32, 32);
    Sliced(front + Keys(list), Signatures(list), message, i * 64, 64);
    assert Packed(list, message) == front + Keys(list) + (Signatures(list) + message);
  }

  lemma Sliced(before: bytes, region: bytes, after: bytes, offset: nat, length: nat)
    requires offset + length <= |region|
    ensures (before + region + after)[|before| + offset..|before| + offset + length] == region[offset..offset + length]
  {}

  // --------------------------------------------------------------------------
  // The packed instruction: building it in place
  // --------------------------------------------------------------------------

  /** `buf` holds the bytes of `goal` from `from` to `to`. */
  ghost predicate Agrees(buf: array<byte>, goal: bytes, from: nat, to: nat)
    reads buf
  {
    from <= to <= buf.Length == |goal| && forall j :: from <= j < to ==> buf[j] == goal[j]
  }

  /** Nothing was written from `from` to `to`. */
  ghost predicate Blank(buf: array<byte>, from: nat, to: nat)
    reads buf
  {
    from <= to <= buf.Length && forall j :: from <= j < to ==> buf[j] == 0
  }

  /**
   * `Buffer.copy`: what does not fit the buffer is dropped. If the source fits its slot, up to `to`, whose
   * rest is still blank, then the slot becomes right, and nothing that was right is spoiled.
   */
  method CopyInto(buf: array<byte>, ghost goal: bytes, offset: nat, source: bytes, ghost from: nat,
                  ghost to: nat, ghost fits: bool)
    requires offset <= buf.Length
    requires fits ==> from <= offset && offset + |source| <= to <= buf.Length == |goal|
                      && goal[offset..to] == Fit(source, to - offset)
                      && Agrees(buf, goal, from, offset) && Blank(buf, offset + |source|, to)
    modifies buf
    ensures Over(old(buf[..]), buf[..], Piece(offset, source))
    ensures fits ==> Agrees(buf, goal, from, to)
    ensures forall x: nat, y: nat {:trigger Blank(buf, x, y)} ::
              old(Blank(buf, x, y)) && (y <= offset || offset + |source| <= x) ==> Blank(buf, x, y)
    ensures fits ==> forall x: nat, y: nat {:trigger Agrees(buf, goal, x, y)} ::
            old(Agrees(buf, goal, x, y)) ==> Agrees(buf, goal, x, y)
  {
    var copied := Min(|source|, buf.Length - offset);
    forall j | 0 <= j < copied {
      buf[offset + j] := source[j];
    }
    if fits {
      forall j | offset <= j < to ensures buf[j] == goal[j] {
        assert goal[j] == goal[offset..to][j - offset] == Fit(source, to - offset)[j - offset];
        if j < offset + |source| {
          assert buf[offset + (j - offset)] == source[j - offset];
        }
      }
    }
  }

  /** No key is longer than 32 bytes and no signature longer than 64. */
  predicate FitsIn(list: seq<Signed>) {
    forall i :: 0 <= i < |list| ==> |list[i].publicKey| <= 32 && |list[i].signature| <= 64
  }

  /** The pairs as the buffer can hold them: cut, or followed by zeros. */
  function Fitted(list: seq<Signed>): (r: seq<Signed>)
    ensures |r| == |list| && WellSized(r)
  {
    seq(|list|, i requires 0 <= i < |list| => Signed(Fit(list[i].publicKey, 32), Fit(list[i].signature, 64)))
  }

  /** The first a records, b keys and c signatures are in place and the rest of the latter two regions is blank. */
  ghost predicate PairsWritten(data: array<byte>, list: seq<Signed>, message: bytes, a: nat, b: nat, c: nat)
    requires |list| < 256
    reads data
  {
    var n, goal := |list|, Packed(Fitted(list), message);
    && Agrees(data, goal, 0, HEADER + a * OFFSETS)
    && Agrees(data, goal, PubkeysAt(n), PubkeysAt(n) + b * 32) && Blank(data, PubkeysAt(n) + b * 32, SignaturesAt(n))
    && Agrees(data, goal, SignaturesAt(n), SignaturesAt(n) + c * 64)
    && Blank(data, SignaturesAt(n) + c * 64, MessageAt(n))
    && Agrees(data, goal, MessageAt(n), MessageAt(n))
  }

  function RecordPiece(i: nat, n: nat, messageLength: nat): Piece {
    Piece(HEADER + i * OFFSETS, Record(i, n, messageLength))
  }

  function KeyPiece(list: seq<Signed>, i: nat): Piece
    requires i < |list|
  {
    Piece(PubkeysAt(|list|) + i * 32, list[i].publicKey)
  }

  function SignaturePiece(list: seq<Signed>, i: nat): Piece
    requires i < |list|
  {
    Piece(SignaturesAt(|list|) + i * 64, list[i].signature)
  }

  /** What is written for the header and the first k pairs, in order. */
  function PairPieces(list: seq<Signed>, messageLength: nat, k: nat): seq<Piece>
    requires k <= |list| < 256
  {
    if k == 0 then [Piece(0, [|list|, 0])]
    else PairPieces(list, messageLength, k - 1)
         + [RecordPiece(k - 1, |list|, messageLength), KeyPiece(list, k - 1), SignaturePiece(list, k - 1)]
  }

  /** One round of the loop puts three more pieces on the buffer. */
  lemma {:induction false} PairShown(b0: bytes, b1: bytes, b2: bytes, b3: bytes, list: seq<Signed>, messageLength: nat,
                                     i: nat)
    requires i < |list| < 256 && Shows(b0, PairPieces(list, messageLength, i))
    requires Over(b0, b1, RecordPiece(i, |list|, messageLength)) && Over(b1, b2, KeyPiece(list, i))
    requires Over(b2, b3, SignaturePiece(list, i))
    ensures Shows(b3, PairPieces(list, messageLength, i + 1))
  {
    hide Shows, Over, RecordPiece, KeyPiece, SignaturePiece;
    var pieces := PairPieces(list, messageLength, i);
    var p1, p2, p3 := RecordPiece(i, |list|, messageLength), KeyPiece(list, i), SignaturePiece(list, i);
    OneMore(b0, b1, pieces, p1);
    OneMore(b1, b2, pieces + [p1], p2);
    OneMore(b2, b3, pieces + [p1] + [p2], p3);
    assert pieces + [p1] + [p2] + [p3] == pieces + [p1, p2, p3];
  }

  /**
   * `buildPackedEd25519Instruction`: each position shows the last piece that covers it. None is the range
   * error of `writeUInt8` or `writeUInt16LE`; with no attestation the message length is never written, so
   * it cannot be refused.
   */
  method BuildPackedInstruction(list: seq<Signed>, message: bytes) returns (r: Option<bytes>)
    ensures r.Some? <==> |list| < 256 && (list == [] || |message| < 0x1_0000)
    ensures r.Some? ==> |r.value| == MessageAt(|list|) + |message|
    ensures r.Some? ==>
              Shows(r.value, PairPieces(list, |message|, |list|) + [Piece(MessageAt(|list|), message)])
    ensures r.Some? && FitsIn(list) ==> r.value == Packed(Fitted(list), message)
    ensures r.Some? && WellSized(list) ==> r.value == Packed(list, message)
  {
    hide Packed, Agrees, Fitted, FitsIn, Shows, Over, PairPieces;
    var n := |list|;
    var messageAt := MessageAt(n);
    if n > 255 {
      return None;
    }
    var data := new byte[messageAt + |message|](i => 0);
    ghost var goal := Packed(Fitted(list), message);
    PackedEnds(Fitted(list), message);
    data[0] := n;
    data[1] := 0;
    AgreesAtStart(data, goal, PubkeysAt(n), SignaturesAt(n), messageAt);
    HeaderShown(data[..], list, |message|);
    for i := 0 to n
      invariant i > 0 ==> |message| < 0x1_0000
      invariant Shows(data[..], PairPieces(list, |message|, i))
      invariant FitsIn(list) ==> PairsWritten(data, list, message, i, i, i)
    {
      if |message| >= 0x1_0000 {
        return None;
      }
      WritePair(data, list, message, i);
    }
    WriteMessage(data, list, message);
    if WellSized(list) {
      WellSizedFits(list);
    }
    return Some(data[..]);
  }

  lemma HeaderShown(b: bytes, list: seq<Signed>, messageLength: nat)
    requires HEADER <= |b| && |list| < 256 && b[0] == |list| && b[1] == 0 && forall j :: HEADER <= j < |b| ==> b[j] == 0
    ensures Shows(b, PairPieces(list, messageLength, 0))
  {
    assert PairPieces(list, messageLength, 0)[..0] == [];
  }

  lemma FitExactly(b: bytes)
    ensures Fit(b, |b|) == b
  {}

  lemma WellSizedFits(list: seq<Signed>)
    requires WellSized(list)
    ensures FitsIn(list) && Fitted(list) == list
  {}

  lemma AgreesAtStart(data: array<byte>, goal: bytes, a: nat, b: nat, c: nat)
    requires HEADER <= data.Length == |goal| && a <= |goal| && b <= |goal| && c <= |goal|
    requires data[0] == goal[0] && data[1] == goal[1]
    ensures Agrees(data, goal, 0, HEADER) && Agrees(data, goal, a, a) && Agrees(data, goal, b, b)
            && Agrees(data, goal, c, c)
  {}

  /** The message behind the pairs. */
  method WriteMessage(data: array<byte>, list: seq<Signed>, message: bytes)
    requires |list| < 256 && data.Length == MessageAt(|list|) + |message|
    requires FitsIn(list) ==> PairsWritten(data, list, message, |list|, |list|, |list|)
    requires Shows(data[..], PairPieces(list, |message|, |list|))
    modifies data
    ensures FitsIn(list) ==> data[..] == Packed(Fitted(list), message)
    ensures Shows(data[..], PairPieces(list, |message|, |list|) + [Piece(MessageAt(|list|), message)])
  {
    hide Packed, Agrees, Fitted, FitsIn, Shows, Over, PairPieces, Fit;
    var n := |list|;
    ghost var goal := Packed(Fitted(list), message);
    PackedEnds(Fitted(list), message);
    FitExactly(message);
    ghost var before := data[..];
    CopyInto(data, goal, MessageAt(n), message, MessageAt(n), |goal|, FitsIn(list));
    OneMore(before, data[..], PairPieces(list, |message|, n), Piece(MessageAt(n), message));
    if FitsIn(list) {
      JoinAgreement(data, goal, PubkeysAt(n), SignaturesAt(n), MessageAt(n));
    }
  }

  /** One round of the loop: record, key and signature of pair i. */
  method WritePair(data: array<byte>, list: seq<Signed>, message: bytes, i: nat)
    requires i < |list| < 256 && |message| < 0x1_0000 && data.Length == MessageAt(|list|) + |message|
    requires FitsIn(list) ==> PairsWritten(data, list, message, i, i, i)
    requires Shows(data[..], PairPieces(list, |message|, i))
    modifies data
    ensures FitsIn(list) ==> PairsWritten(data, list, message, i + 1, i + 1, i + 1)
    ensures Shows(data[..], PairPieces(list, |message|, i + 1))
  {
    hide PairsWritten, FitsIn, Shows, Over, PairPieces, MessageAt, RecordPiece, KeyPiece, SignaturePiece;
    ghost var b0 := data[..];
    WriteRecord(data, list, message, i);
    ghost var b1 := data[..];
    WriteKey(data, list, message, i);
    ghost var b2 := data[..];
    WriteSignature(data, list, message, i);
    PairShown(b0, b1, b2, data[..], list, |message|, i);
  }

  /** The offset record of pair i. */
  method WriteRecord(data: array<byte>, list: seq<Signed>, message: bytes, i: nat)
    requires i < |list| < 256 && |message| < 0x1_0000 && data.Length == MessageAt(|list|) + |message|
    requires FitsIn(list) ==> PairsWritten(data, list, message, i, i, i)
    modifies data
    ensures FitsIn(list) ==> PairsWritten(data, list, message, i + 1, i, i)
    ensures Over(old(data[..]), data[..], RecordPiece(i, |list|, |message|))
  {
    hide Packed, Agrees, Blank, Record, LE, PubkeysAt, SignaturesAt, MessageAt, Fitted, FitsIn, Fit;
    var n := |list|;
    Positions(i, n);
    var signature, pubkey := SignaturesAt(n) + i * 64, PubkeysAt(n) + i * 32;
    var o := HEADER + i * OFFSETS;
    var record := LE(signature, 2) + LE(0xffff, 2) + LE(pubkey, 2) + LE(0xffff, 2) + LE(MessageAt(n), 2)
                  + LE(|message|, 2) + LE(0xffff, 2);
    PackedParts(Fitted(list), message, i);
    RecordIs(i, n, |message|);
    FitExactly(record);
    BlankNowhere(data, o + OFFSETS);
    assert HEADER + (i + 1) * OFFSETS == o + OFFSETS;
    CopyInto(data, Packed(Fitted(list), message), o, record, 0, o + OFFSETS, FitsIn(list));
  }

  /** The key of pair i. */
  method WriteKey(data: array<byte>, list: seq<Signed>, message: bytes, i: nat)
    requires i < |list| < 256 && |message| < 0x1_0000 && data.Length == MessageAt(|list|) + |message|
    requires FitsIn(list) ==> PairsWritten(data, list, message, i + 1, i, i)
    modifies data
    ensures FitsIn(list) ==> PairsWritten(data, list, message, i + 1, i + 1, i)
    ensures Over(old(data[..]), data[..], KeyPiece(list, i))
  {
    hide Packed, Agrees, Blank, Record, PubkeysAt, SignaturesAt, MessageAt, Fitted, FitsIn, Fit;
    var n := |list|;
    Positions(i, n);
    var at, key := PubkeysAt(n) + i * 32, list[i].publicKey;
    PackedParts(Fitted(list), message, i);
    FittedAt(list, i);
    assert PubkeysAt(n) + (i + 1) * 32 == at + 32;
    if FitsIn(list) {
      FitLengths(list, i);
      BlankSplits(data, at, at + |key|, at + 32, SignaturesAt(n));
    }
    CopyInto(data, Packed(Fitted(list), message), at, key, PubkeysAt(n), at + 32, FitsIn(list));
  }

  /** The signature of pair i. */
  method WriteSignature(data: array<byte>, list: seq<Signed>, message: bytes, i: nat)
    requires i < |list| < 256 && |message| < 0x1_0000 && data.Length == MessageAt(|list|) + |message|
    requires FitsIn(list) ==> PairsWritten(data, list, message, i + 1, i + 1, i)
    modifies data
    ensures FitsIn(list) ==> PairsWritten(data, list, message, i + 1, i + 1, i + 1)
    ensures Over(old(data[..]), data[..], SignaturePiece(list, i))
  {
    hide Packed, Agrees, Blank, Record, PubkeysAt, SignaturesAt, MessageAt, Fitted, FitsIn, Fit;
    var n := |list|;
    Positions(i, n);
    var at, signature := SignaturesAt(n) + i * 64, list[i].signature;
    PackedParts(Fitted(list), message, i);
    FittedAt(list, i);
    assert SignaturesAt(n) + (i + 1) * 64 == at + 64;
    if FitsIn(list) {
      FitLengths(list, i);
      BlankSplits(data, at, at + |signature|, at + 64, MessageAt(n));
    }
    CopyInto(data, Packed(Fitted(list), message), at, signature, SignaturesAt(n), at + 64, FitsIn(list));
  }

  lemma FitLengths(list: seq<Signed>, i: nat)
    requires FitsIn(list) && i < |list|
    ensures |list[i].publicKey| <= 32 && |list[i].signature| <= 64
  {}

  lemma BlankSplits(buf: array<byte>, a: nat, b: nat, c: nat, d: nat)
    requires Blank(buf, a, d) && a <= b <= c <= d
    ensures Blank(buf, b, c) && Blank(buf, c, d)
  {}

  lemma BlankNowhere(buf: array<byte>, a: nat)
    requires a <= buf.Length
    ensures Blank(buf, a, a)
  {}

  lemma FittedAt(list: seq<Signed>, i: nat)
    requires i < |list|
    ensures Fitted(list)[i] == Signed(Fit(list[i].publicKey, 32), Fit(list[i].signature, 64))
  {}

  lemma Positions(i: nat, n: nat)
    requires i < n
    ensures HEADER + (i + 1) * OFFSETS <= PubkeysAt(n) && PubkeysAt(n) + (i + 1) * 32 <= SignaturesAt(n)
    ensures SignaturesAt(n) + (i + 1) * 64 <= MessageAt(n)
  {}

  lemma RecordIs(i: nat, n: nat, messageLength: nat)
    ensures Record(i, n, messageLength)
         == LE(SignaturesAt(n) + i * 64, 2) + LE(THIS_INSTRUCTION, 2) + LE(PubkeysAt(n) + i * 32, 2)
            + LE(THIS_INSTRUCTION, 2) + LE(MessageAt(n), 2) + LE(messageLength, 2) + LE(THIS_INSTRUCTION, 2)
  {}

  lemma PackedEnds(list: seq<Signed>, message: bytes)
    requires |list| < 256 && WellSized(list)
    ensures var d := Packed(list, message);
            |d| == MessageAt(|list|) + |message| && d[0] == |list| && d[1] == 0 && d[MessageAt(|list|)..] == message
  {
    hide Record, Records, Keys, Signatures;
    RegionLengths(list);
  }

  lemma JoinAgreement(buf: array<byte>, goal: bytes, a: nat, b: nat, c: nat)
    requires Agrees(buf, goal, 0, a) && Agrees(buf, goal, a, b) && Agrees(buf, goal, b, c)
             && Agrees(buf, goal, c, |goal|)
    ensures buf[..] == goal
  {}

  // --------------------------------------------------------------------------
  // The packed instruction: reading it through its own offsets
  // --------------------------------------------------------------------------

  datatype Checked = Checked(publicKey: bytes, signature: bytes, message: bytes)

  function U16At(d: bytes, o: nat): nat
    requires o + 2 <= |d|
  {
    LEVal(d[o..o + 2])
  }

  /** Bytes a record points at; None when it points outside or into another instruction. */
  function Region(d: bytes, offset: nat, length: nat, instruction: nat): Option<bytes> {
    if instruction != 0xffff || offset + length > |d| then None else Some(d[offset..offset + length])
  }

  function ReadRecord(d: bytes, r: bytes): Option<Checked>
    requires |r| == OFFSETS
  {
    var signature := Region(d, U16At(r, 0), 64, U16At(r, 2));
    var publicKey := Region(d, U16At(r, 4), 32, U16At(r, 6));
    var message := Region(d, U16At(r, 8), U16At(r, 10), U16At(r, 12));
    if signature.None? || publicKey.None? || message.None? then None
    else Some(Checked(publicKey.value, signature.value, message.value))
  }

  /** The first k triples the instruction asks to check. */
  function ReadRecords(d: bytes, k: nat): Option<seq<Checked>>
    requires HEADER + k * OFFSETS <= |d|
  {
    if k == 0 then Some([])
    else
      var front := ReadRecords(d, k - 1);
      var o := HEADER + (k - 1) * OFFSETS;
      var last := ReadRecord(d, d[o..o + OFFSETS]);
      if front.None? || last.None? then None else Some(front.value + [last.value])
  }

  function ReadInstruction(d: bytes): Option<seq<Checked>> {
    if |d| < HEADER || HEADER + d[0] * OFFSETS > |d| then None else ReadRecords(d, d[0])
  }

  function Triples(list: seq<Signed>, message: bytes): (r: seq<Checked>)
    ensures |r| == |list|
  {
    seq(|list|, i requires 0 <= i < |list| => Checked(list[i].publicKey, list[i].signature, message))
  }

  lemma {:induction false} ReadU16(v: nat)
    requires v < 0x1_0000
    ensures LEVal(LE(v, 2)) == v
  {
    assert Pow256(2) == 0x1_0000;
    LERoundTrip(v, 2);
  }

  lemma {:induction false} RecordReads(i: nat, n: nat, messageLength: nat)
    requires i < n < 256 && messageLength < 0x1_0000
    ensures var r := Record(i, n, messageLength);
            && U16At(r, 0) == SignaturesAt(n) + i * 64 && U16At(r, 4) == PubkeysAt(n) + i * 32
            && U16At(r, 8) == MessageAt(n) && U16At(r, 10) == messageLength
            && U16At(r, 2) == U16At(r, 6) == U16At(r, 12) == THIS_INSTRUCTION
  {
    hide LE, LEVal;
    ReadU16(SignaturesAt(n) + i * 64);
    ReadU16(THIS_INSTRUCTION);
    ReadU16(PubkeysAt(n) + i * 32);
    ReadU16(MessageAt(n));
    ReadU16(messageLength);
    var r := Record(i, n, messageLength);
    assert r[0..2] == LE(SignaturesAt(n) + i * 64, 2);
    assert r[2..4] == r[6..8] == r[12..14] == LE(THIS_INSTRUCTION, 2);
    assert r[4..6] == LE(PubkeysAt(n) + i * 32, 2);
    assert r[8..10] == LE(MessageAt(n), 2);
    assert r[10..12] == LE(messageLength, 2);
  }

  lemma {:induction false} ReadsRecordBack(list: seq<Signed>, message: bytes, i: nat)
    requires |list| < 256 && |message| < 0x1_0000 && WellSized(list) && i < |list|
    ensures |Packed(list, message)| == MessageAt(|list|) + |message|
    ensures ReadRecord(Packed(list, message), Record(i, |list|, |message|)) == Some(Triples(list, message)[i])
  {
    hide Packed, Record, U16At;
    PackedParts(list, message, i);
    RecordReads(i, |list|, |message|);
    var d := Packed(list, message);
    assert d[MessageAt(|list|)..MessageAt(|list|) + |message|] == message;
  }

  lemma {:induction false} ReadsFront(list: seq<Signed>, message: bytes, k: nat)
    requires |list| < 256 && |message| < 0x1_0000 && WellSized(list) && k <= |list|
    ensures HEADER + k * OFFSETS <= |Packed(list, message)|
    ensures ReadRecords(Packed(list, message), k) == Some(Triples(list, message)[..k])
    decreases k
  {
    hide Packed, Record, ReadRecord, Triples;
    PackedEnds(list, message);
    if k > 0 {
      ReadsFront(list, message, k - 1);
      PackedParts(list, message, k - 1);
      ReadsRecordBack(list, message, k - 1);
      assert Triples(list, message)[..k] == Triples(list, message)[..k - 1] + [Triples(list, message)[k - 1]];
    }
  }

  /** Through its own offsets the instruction asks to check exactly the given pairs on the one message. */
  lemma {:induction false} InstructionReadsBack(list: seq<Signed>, message: bytes)
    requires |list| < 256 && |message| < 0x1_0000 && WellSized(list)
    ensures ReadInstruction(Packed(list, message)) == Some(Triples(list, message))
    ensures list != [] ==> SignaturesAt(|list|) + (|list| - 1) * 64 < MessageAt(|list|) < 0x1_0000
  {
    hide Packed, ReadRecords, Triples;
    PackedEnds(list, message);
    ReadsFront(list, message, |list|);
    assert Triples(list, message)[..|list|] == Triples(list, message);
  }

  /** The pairs read back are the given ones exactly when all keys have 32 bytes and all signatures 64. */
  lemma {:induction false} PairsReadBackExactly(list: seq<Signed>, message: bytes)
    requires |list| < 256 && |message| < 0x1_0000
    ensures ReadInstruction(Packed(Fitted(list), message)) == Some(Triples(list, message)) <==> WellSized(list)
  {
    hide Packed, ReadInstruction, Fitted;
    InstructionReadsBack(Fitted(list), message);
    if WellSized(list) {
      WellSizedFits(list);
    } else {
      var i :| 0 <= i < |list| && !(|list[i].publicKey| == 32 && |list[i].signature| == 64);
      assert Triples(list, message)[i] != Triples(Fitted(list), message)[i];
    }
  }

  // --------------------------------------------------------------------------
  // Borsh parameters
  // --------------------------------------------------------------------------

  datatype UnlockParams = UnlockParams(
    transferId: bytes, recipient: bytes, amount: int, burnTxHash: bytes, dccChainId: int, expiration: int,
    attestations: seq<Signed>)

  function BorshPairs(list: seq<Signed>): bytes {
    if list == [] then []
    else Fit(list[0].publicKey, 32) + Fit(list[0].signature, 64) + BorshPairs(list[1..])
  }

  function Borsh(p: UnlockParams): bytes {
    Fit(p.transferId, 32) + p.recipient + LE(p.amount, 8) + Fit(p.burnTxHash, 32) + LE(p.dccChainId, 4)
    + LE(p.expiration, 8) + LE(|p.attestations|, 4) + BorshPairs(p.attestations)
  }

  predicate BorshInRange(p: UnlockParams) {
    IsU64(p.amount) && IsU32(p.dccChainId) && IsI64(p.expiration) && IsU32(|p.attestations|)
  }

  /** `Buffer.alloc(n)` with the start of `source` copied in. */
  method PaddedCopy(source: bytes, n: nat) returns (b: bytes)
    ensures b == Fit(source, n)
  {
    var copied := Min(n, |source|);
    b := source[..copied] + Zeros(n - copied);
  }

  lemma {:induction false} BorshPairsSnoc(list: seq<Signed>, a: Signed)
    ensures BorshPairs(list + [a]) == BorshPairs(list) + Fit(a.publicKey, 32) + Fit(a.signature, 64)
  {
    hide Fit;
    if list == [] {
      assert list + [a] == [a];
      assert BorshPairs([a]) == Fit(a.publicKey, 32) + Fit(a.signature, 64) + BorshPairs([]);
    } else {
      assert (list + [a])[1..] == list[1..] + [a];
      BorshPairsSnoc(list[1..], a);
    }
  }

  method SerializeAttestations(attestations: seq<Signed>) returns (r: Option<bytes>)
    ensures r == if IsU32(|attestations|) then Some(LE(|attestations|, 4) + BorshPairs(attestations)) else None
  {
    hide Concat, LE, Fit, BorshPairs;
    if !IsU32(|attestations|) {
      return None;
    }
    var parts: seq<bytes> := [LE(|attestations|, 4)];
    SingleConcat(LE(|attestations|, 4));
    assert BorshPairs(attestations[..0]) == [] by { NoPairs(attestations[..0]); }
    for i := 0 to |attestations|
      invariant Concat(parts) == LE(|attestations|, 4) + BorshPairs(attestations[..i])
    {
      var pkBuf := PaddedCopy(attestations[i].publicKey, 32);
      ConcatSnoc(parts, pkBuf);
      parts := parts + [pkBuf];
      var sigBuf := PaddedCopy(attestations[i].signature, 64);
      ConcatSnoc(parts, sigBuf);
      parts := parts + [sigBuf];
      BorshPairsSnoc(attestations[..i], attestations[i]);
      assert attestations[..i + 1] == attestations[..i] + [attestations[i]];
    }
    assert attestations[..|attestations|] == attestations;
    return Some(Concat(parts));
  }

  lemma NoPairs(list: seq<Signed>)
    requires list == []
    ensures BorshPairs(list) == []
  {}

  lemma SingleConcat(p: bytes)
    ensures Concat([p]) == p
  {
    assert Concat([p]) == p + Concat([]);
  }

  /** None is the range error of a fixed-width write. */
  method SerializeUnlockParams(p: UnlockParams) returns (r: Option<bytes>)
    requires |p.recipient| == 32
    ensures r == if BorshInRange(p) then Some(Borsh(p)) else None
    ensures r.Some? <==>
            && 0 <= p.amount < 0x1_0000_0000_0000_0000 && 0 <= p.dccChainId < 0x1_0000_0000
            && -0x8000_0000_0000_0000 <= p.expiration < 0x8000_0000_0000_0000 && |p.attestations| < 0x1_0000_0000
  {
    hide LE, Fit, BorshPairs;
    var tid := PaddedCopy(p.transferId, 32);
    var parts := tid + p.recipient;
    if !IsU64(p.amount) {
      return None;
    }
    parts := parts + LE(p.amount, 8);
    var bth := PaddedCopy(p.burnTxHash, 32);
    parts := parts + bth;
    if !IsU32(p.dccChainId) {
      return None;
    }
    parts := parts + LE(p.dccChainId, 4);
    if !IsI64(p.expiration) {
      return None;
    }
    parts := parts + LE(p.expiration, 8);
    var list := SerializeAttestations(p.attestations);
    if list == None {
      return None;
    }
    assert parts + (LE(|p.attestations|, 4) + BorshPairs(p.attestations)) == Borsh(p);
    return Some(parts + list.value);
  }

  /** A Borsh reader of n pairs that must consume everything. */
  function ReadPairs(b: bytes, n: nat): Option<seq<Signed>> {
    if n == 0 then if b == [] then Some([]) else None
    else if |b| < 96 then None
    else
      match ReadPairs(b[96..], n - 1)
      case None => None
      case Some(rest) => Some([Signed(b[..32], b[32..96])] + rest)
  }

  function ReadParams(b: bytes): Option<UnlockParams> {
    if |b| < 120 then None
    else
      match ReadPairs(b[120..], LEVal(b[116..120]))
      case None => None
      case Some(list) =>
        Some(UnlockParams(b[..32], b[32..64], LEVal(b[64..72]), b[72..104], LEVal(b[104..108]), I64(b[108..116]), list))
  }

  lemma {:induction false} PairsReadBack(list: seq<Signed>)
    requires WellSized(list)
    ensures ReadPairs(BorshPairs(list), |list|) == Some(list)
  {
    hide Fit;
    if list == [] {
      assert ReadPairs([], 0) == Some([]);
    } else {
      PairsReadBack(list[1..]);
      var b := BorshPairs(list);
      assert list == [list[0]] + list[1..];
      assert b[..32] == list[0].publicKey && b[32..96] == list[0].signature && b[96..] == BorshPairs(list[1..]);
    }
  }

  /** Decoding the parameters gives every field and the list of attestations back. */
  lemma {:induction false} ParamsReadBack(p: UnlockParams)
    requires BorshInRange(p) && |p.transferId| == |p.recipient| == |p.burnTxHash| == 32 && WellSized(p.attestations)
    ensures ReadParams(Borsh(p)) == Some(p)
  {
    hide LE, LEVal, Fit, BorshPairs, ReadPairs, I64;
    PowU64();
    PowU32();
    LERoundTrip(p.amount, 8);
    LERoundTrip(p.dccChainId, 4);
    LERoundTrip(|p.attestations|, 4);
    SignedReads(p.expiration);
    PairsReadBack(p.attestations);
    ParamSlices(p);
  }

  lemma ParamSlices(p: UnlockParams)
    requires |p.transferId| == |p.recipient| == |p.burnTxHash| == 32
    ensures var b := Borsh(p);
            && |b| >= 120 && b[..32] == p.transferId && b[32..64] == p.recipient && b[64..72] == LE(p.amount, 8)
            && b[72..104] == p.burnTxHash && b[104..108] == LE(p.dccChainId, 4) && b[108..116] == LE(p.expiration, 8)
            && b[116..120] == LE(|p.attestations|, 4) && b[120..] == BorshPairs(p.attestations)
  {
    hide LE, Fit, BorshPairs;
  }
}
