/**
 * The 181-byte deposit preimage and the unlock bytes as the encoders of the repository
 * write them: two TypeScript copies, the shared TypeScript library and the Rust library.
 * The TypeScript encoders fill a zeroed byte buffer at a moving offset.
 */
module DepositEncoding {
  import opened Buffers
  import opened Bytes
  import opened Options
  import opened Messages

  const DOMAIN_SEP: string := "DCC_SOL_BRIDGE_V1"
  const DEPOSIT_PREIMAGE_LENGTH: nat := 181

  datatype Fields = Fields(
    srcChainId: int, dstChainId: int, srcProgramId: bytes, slot: int, eventIndex: int,
    sender: bytes, recipient: bytes, amount: int, nonce: int, assetId: bytes)

  predicate Lengths32(f: Fields) {
    |f.srcProgramId| == |f.sender| == |f.recipient| == |f.assetId| == 32
  }

  predicate InRange(f: Fields) {
    && IsU32(f.srcChainId) && IsU32(f.dstChainId) && IsU32(f.eventIndex)
    && IsU64(f.slot) && IsU64(f.amount) && IsU64(f.nonce)
  }

  function Preimage(domain: bytes, f: Fields): bytes {
    domain + LE(f.srcChainId, 4) + LE(f.dstChainId, 4) + f.srcProgramId + LE(f.slot, 8) + LE(f.eventIndex, 4)
    + f.sender + f.recipient + LE(f.amount, 8) + LE(f.nonce, 8) + f.assetId
  }

  // --------------------------------------------------------------------------
  // Writing into a buffer
  // --------------------------------------------------------------------------

  /** The buffer holds `done` and is still zero after it. */
  ghost predicate Written(buf: array<byte>, done: bytes)
    reads buf
  {
    && |done| <= buf.Length && buf[..|done|] == done
    && forall i :: |done| <= i < buf.Length ==> buf[i] == 0
  }

  lemma AllWritten(buf: array<byte>, done: bytes)
    requires Written(buf, done) && |done| == buf.Length
    ensures buf[..] == done
  {
    assert buf[..|done|] == buf[..];
  }

  method NewBuffer(n: nat) returns (buf: array<byte>)
    ensures fresh(buf) && buf.Length == n && Written(buf, []) && Shows(buf[..], [])
  {
    buf := new byte[n](i => 0);
  }

  lemma {:induction false} LEMultiple(v: int, k: int, n: nat)
    ensures LE(v + k * Pow256(n), n) == LE(v, n)
    decreases if k < 0 then -k else k
  {
    hide LE, Pow256;
    var p := Pow256(n);
    if k > 0 {
      LEMultiple(v, k - 1, n);
      LEWraps(v + (k - 1) * p, n);
      assert v + k * p == v + (k - 1) * p + p;
    } else if k < 0 {
      LEMultiple(v, k + 1, n);
      LEWraps(v + k * p, n);
      assert v + (k + 1) * p == v + k * p + p;
    }
  }

  /** Neither JavaScript's signed nor its unsigned 32-bit reading changes the four low bytes. */
  lemma {:induction false} Same32Bits(v: int)
    ensures LE(ToInt32(v), 4) == LE(v, 4) == LE(ToUint32(v), 4)
  {
    PowU32();
    LEMultiple(v, -(v / U32), 4);
    LEMultiple(ToUint32(v), -1, 4);
  }

  lemma {:induction false} FourBytes(v: int)
    ensures LE(v, 4) == [v % 256, Shr(v, 8) % 256, Shr(v, 16) % 256, Shr(v, 24) % 256]
  {
    LEByte(v, 4, 0);
    LEByte(v, 4, 1);
    LEByte(v, 4, 2);
    LEByte(v, 4, 3);
  }

  /** The two copies shift with `>>`, on the signed reading. */
  method WriteU32Signed(buf: array<byte>, value: int, offset: nat, ghost done: bytes)
    requires offset + 4 <= buf.Length
    modifies buf
    ensures Over(old(buf[..]), buf[..], Piece(offset, LE(value, 4)))
    ensures offset == |done| && old(Written(buf, done)) ==> Written(buf, done + LE(value, 4))
  {
    hide LE, Shr, ToInt32;
    var v := ToInt32(value);
    buf[offset] := v % 256;
    buf[offset + 1] := Shr(v, 8) % 256;
    buf[offset + 2] := Shr(v, 16) % 256;
    buf[offset + 3] := Shr(v, 24) % 256;
    Same32Bits(value);
    FourBytes(v);
    if offset == |done| && old(Written(buf, done)) {
      assert buf[..offset] == done;
      assert buf[..offset + 4] == done + [buf[offset], buf[offset + 1], buf[offset + 2], buf[offset + 3]];
    }
  }

  /** The library shifts with `>>>`, on the unsigned reading. */
  method WriteU32Unsigned(buf: array<byte>, value: int, offset: nat, ghost done: bytes)
    requires offset + 4 <= buf.Length
    modifies buf
    ensures offset == |done| && old(Written(buf, done)) ==> Written(buf, done + LE(value, 4))
  {
    hide LE, Shr, ToUint32;
    var v := ToUint32(value);
    buf[offset] := v % 256;
    buf[offset + 1] := Shr(v, 8) % 256;
    buf[offset + 2] := Shr(v, 16) % 256;
    buf[offset + 3] := Shr(v, 24) % 256;
    Same32Bits(value);
    FourBytes(v);
    if offset == |done| && old(Written(buf, done)) {
      assert buf[..offset] == done;
      assert buf[..offset + 4] == done + [buf[offset], buf[offset + 1], buf[offset + 2], buf[offset + 3]];
    }
  }

  method WriteU64(buf: array<byte>, value: int, offset: nat, ghost done: bytes)
    requires offset + 8 <= buf.Length
    modifies buf
    ensures Over(old(buf[..]), buf[..], Piece(offset, LE(value, 8)))
    ensures offset == |done| && old(Written(buf, done)) ==> Written(buf, done + LE(value, 8))
  {
    hide LE, Shr;
    for i := 0 to 8
      invariant offset == |done| && old(Written(buf, done)) ==> Written(buf, done + LE(value, 8)[..i])
      invariant Over(old(buf[..]), buf[..], Piece(offset, LE(value, 8)[..i]))
    {
      LEByte(value, 8, i);
      assert LE(value, 8)[i] == Shr(value, i * 8) % 256;
      buf[offset + i] := Shr(value, i * 8) % 256;
      assert LE(value, 8)[..i + 1] == LE(value, 8)[..i] + [LE(value, 8)[i]];
      assert offset == |done| && old(Written(buf, done)) ==> buf[..offset + i] == done + LE(value, 8)[..i];
    }
    assert LE(value, 8)[..8] == LE(value, 8);
  }

  /** `buf.set(source, offset)`. */
  method WriteBytes(buf: array<byte>, source: bytes, offset: nat, ghost done: bytes)
    requires offset + |source| <= buf.Length && offset == |done| && Written(buf, done)
    modifies buf
    ensures Written(buf, done + source)
  {
    forall i | 0 <= i < |source| {
      buf[offset + i] := source[i];
    }
    assert buf[..offset] == done;
  }

  /** `buf.set(source.subarray(0, 32), offset)`: a short source leaves zeros behind it. */
  method WriteCut(buf: array<byte>, source: bytes, offset: nat, ghost done: bytes)
    requires offset + 32 <= buf.Length && offset == |done| && Written(buf, done)
    modifies buf
    ensures Written(buf, done + Fit(source, 32))
  {
    var cut := source[..Min(32, |source|)];
    WriteBytes(buf, cut, offset, done);
    var n := |done| + |cut|;
    assert forall k :: n <= k < |done| + 32 ==> buf[k] == 0;
    assert buf[..n] == done + cut;
    forall k | 0 <= k < |done| + 32 ensures buf[k] == (done + Fit(source, 32))[k] {
      if k < n {
        assert buf[k] == buf[..n][k] == (done + cut)[k];
      }
    }
  }

  /** `buf.set(source, offset)` for a field of 32 bytes; false is the range error. */
  method SetField(buf: array<byte>, source: bytes, offset: nat) returns (ok: bool)
    modifies buf
    ensures ok <==> offset + |source| <= buf.Length
    ensures ok ==> Over(old(buf[..]), buf[..], Piece(offset, source))
  {
    if offset + |source| > buf.Length {
      return false;
    }
    forall i | 0 <= i < |source| {
      buf[offset + i] := source[i];
    }
    return true;
  }

  // --------------------------------------------------------------------------
  // The encoders
  // --------------------------------------------------------------------------

  /** No byte field is longer than its 32 bytes. */
  predicate Short32(f: Fields) {
    |f.srcProgramId| <= 32 && |f.sender| <= 32 && |f.recipient| <= 32 && |f.assetId| <= 32
  }

  /** The fields at the offsets where they are set. */
  function FieldPieces(f: Fields): seq<Piece> {
    [Piece(0, Utf8(DOMAIN_SEP)), Piece(17, LE(f.srcChainId, 4)), Piece(21, LE(f.dstChainId, 4)),
     Piece(25, f.srcProgramId), Piece(57, LE(f.slot, 8)), Piece(65, LE(f.eventIndex, 4)), Piece(69, f.sender),
     Piece(101, f.recipient), Piece(133, LE(f.amount, 8)), Piece(141, LE(f.nonce, 8)), Piece(149, f.assetId)]
  }

  /** Fields that are no longer than their slots tile the preimage. */
  lemma {:induction false} ShortFieldsTile(f: Fields)
    requires Short32(f)
    ensures Tiled(FieldPieces(f), Preimage(Utf8(DOMAIN_SEP), FitFields(f)))
  {
    hide LE, Utf8, Fit, Tiled, Shown;
    DomainLength();
    var pieces, done: bytes := [], [];
    NothingTiled();
    pieces, done := NextTile(pieces, done, Piece(0, Utf8(DOMAIN_SEP)), 17);
    assert done == Utf8(DOMAIN_SEP);
    pieces, done := NextTile(pieces, done, Piece(17, LE(f.srcChainId, 4)), 4);
    pieces, done := NextTile(pieces, done, Piece(21, LE(f.dstChainId, 4)), 4);
    pieces, done := NextTile(pieces, done, Piece(25, f.srcProgramId), 32);
    pieces, done := NextTile(pieces, done, Piece(57, LE(f.slot, 8)), 8);
    pieces, done := NextTile(pieces, done, Piece(65, LE(f.eventIndex, 4)), 4);
    pieces, done := NextTile(pieces, done, Piece(69, f.sender), 32);
    pieces, done := NextTile(pieces, done, Piece(101, f.recipient), 32);
    pieces, done := NextTile(pieces, done, Piece(133, LE(f.amount, 8)), 8);
    pieces, done := NextTile(pieces, done, Piece(141, LE(f.nonce, 8)), 8);
    pieces, done := NextTile(pieces, done, Piece(149, f.assetId), 32);
    assert pieces == FieldPieces(f);
  }

  lemma NextTile(pieces: seq<Piece>, done: bytes, p: Piece, slot: nat) returns (more: seq<Piece>, next: bytes)
    requires Tiled(pieces, done) && p.at == |done| && |p.content| <= slot
    ensures more == pieces + [p] && next == done + Fit(p.content, slot) && Tiled(more, next)
  {
    more, next := pieces + [p], done + Fit(p.content, slot);
    Tile(pieces, done, p, slot);
  }

  lemma NothingTiled()
    ensures Tiled([], [])
  {}

  /** The prover's copy up to the event index. */
  method SetHead(buf: array<byte>, f: Fields) returns (ok: bool)
    requires buf.Length == DEPOSIT_PREIMAGE_LENGTH && Shows(buf[..], [])
    modifies buf
    ensures ok <==> |f.srcProgramId| <= 156
    ensures ok ==> Shows(buf[..], FieldPieces(f)[..6])
  {
    hide LE, Utf8, Written, Over, Shows;
    DomainLength();
    ghost var b, pieces: seq<Piece> := buf[..], [];
    var domainBytes := Utf8(DOMAIN_SEP);
    var o := 0;
    ok := SetField(buf, domainBytes, o);
    b, pieces := Put(b, buf[..], pieces, Piece(o, domainBytes));
    o := o + 17;
    WriteU32Signed(buf, f.srcChainId, o, []);
    b, pieces := Put(b, buf[..], pieces, Piece(o, LE(f.srcChainId, 4)));
    o := o + 4;
    WriteU32Signed(buf, f.dstChainId, o, []);
    b, pieces := Put(b, buf[..], pieces, Piece(o, LE(f.dstChainId, 4)));
    o := o + 4;
    ok := SetField(buf, f.srcProgramId, o);
    if !ok {
      return;
    }
    b, pieces := Put(b, buf[..], pieces, Piece(o, f.srcProgramId));
    o := o + 32;
    WriteU64(buf, f.slot, o, []);
    b, pieces := Put(b, buf[..], pieces, Piece(o, LE(f.slot, 8)));
    o := o + 8;
    WriteU32Signed(buf, f.eventIndex, o, []);
    b, pieces := Put(b, buf[..], pieces, Piece(o, LE(f.eventIndex, 4)));
    o := o + 4;
    assert pieces == FieldPieces(f)[..6];
  }

  /** The rest. */
  method SetTail(buf: array<byte>, f: Fields) returns (ok: bool)
    requires buf.Length == DEPOSIT_PREIMAGE_LENGTH && Shows(buf[..], FieldPieces(f)[..6])
    modifies buf
    ensures ok <==> |f.sender| <= 112 && |f.recipient| <= 80 && |f.assetId| <= 32
    ensures ok ==> Shows(buf[..], FieldPieces(f))
  {
    hide LE, Utf8, Written, Over, Shows;
    ghost var b, pieces: seq<Piece> := buf[..], FieldPieces(f)[..6];
    var o := 69;
    ok := SetField(buf, f.sender, o);
    if !ok {
      return;
    }
    b, pieces := Put(b, buf[..], pieces, Piece(o, f.sender));
    o := o + 32;
    ok := SetField(buf, f.recipient, o);
    if !ok {
      return;
    }
    b, pieces := Put(b, buf[..], pieces, Piece(o, f.recipient));
    o := o + 32;
    WriteU64(buf, f.amount, o, []);
    b, pieces := Put(b, buf[..], pieces, Piece(o, LE(f.amount, 8)));
    o := o + 8;
    WriteU64(buf, f.nonce, o, []);
    b, pieces := Put(b, buf[..], pieces, Piece(o, LE(f.nonce, 8)));
    o := o + 8;
    ok := SetField(buf, f.assetId, o);
    if !ok {
      return;
    }
    b, pieces := Put(b, buf[..], pieces, Piece(o, f.assetId));
    assert pieces == FieldPieces(f);
  }

  /**
   * The prover's copy (`message.ts`) sets whole fields: each position shows the last field that covers it,
   * so shorter ones leave zeros behind them and longer ones spill as far as what follows does not cover;
   * None is the range error of spilling over the end.
   */
  method ProverPreimage(f: Fields) returns (r: Option<bytes>)
    ensures r.None? <==> |f.srcProgramId| > 156 || |f.sender| > 112 || |f.recipient| > 80 || |f.assetId| > 32
    ensures r.Some? ==> |r.value| == DEPOSIT_PREIMAGE_LENGTH && Shows(r.value, FieldPieces(f))
    ensures Short32(f) ==> r == Some(Preimage(Utf8(DOMAIN_SEP), FitFields(f)))
    ensures Lengths32(f) ==> r == Some(Preimage(Utf8(DOMAIN_SEP), f))
  {
    hide LE, Utf8, Written, Over, Shows, Preimage, FitFields, FieldPieces;
    var buf := NewBuffer(181);
    var ok := SetHead(buf, f);
    if !ok {
      return None;
    }
    ok := SetTail(buf, f);
    if !ok {
      return None;
    }
    ShortFields(buf[..], f);
    return Some(buf[..]);
  }

  lemma ShortFields(buffer: bytes, f: Fields)
    requires |buffer| == DEPOSIT_PREIMAGE_LENGTH && Shows(buffer, FieldPieces(f))
    ensures Short32(f) ==> buffer == Preimage(Utf8(DOMAIN_SEP), FitFields(f))
    ensures Lengths32(f) ==> buffer == Preimage(Utf8(DOMAIN_SEP), f)
  {
    hide LE, Utf8, Tiled, Shows, FieldPieces;
    if Short32(f) {
      ShortFieldsTile(f);
      DomainLength();
      ShownTiles(buffer, FieldPieces(f), Preimage(Utf8(DOMAIN_SEP), FitFields(f)));
    }
  }

  function FitFields(f: Fields): Fields {
    f.(srcProgramId := Fit(f.srcProgramId, 32), sender := Fit(f.sender, 32),
       recipient := Fit(f.recipient, 32), assetId := Fit(f.assetId, 32))
  }

  /** The validator's copy (`zk-utils.ts`) takes fields of any length and cuts them. */
  method ValidatorPreimage(f: Fields) returns (preimage: bytes)
    ensures preimage == Preimage(Utf8(DOMAIN_SEP), FitFields(f)) && |preimage| == DEPOSIT_PREIMAGE_LENGTH
    ensures Lengths32(f) ==> preimage == Preimage(Utf8(DOMAIN_SEP), f)
  {
    hide LE, Utf8, Written, Fit;
    DomainLength();
    var buf := NewBuffer(181);
    var domainBytes := Utf8(DOMAIN_SEP);
    var o := 0;
    WriteBytes(buf, domainBytes, o, []);
    o := o + 17;
    ghost var w := domainBytes;
    assert [] + domainBytes == domainBytes;
    WriteU32Signed(buf, f.srcChainId, o, w);     o := o + 4;  w := w + LE(f.srcChainId, 4);
    WriteU32Signed(buf, f.dstChainId, o, w);     o := o + 4;  w := w + LE(f.dstChainId, 4);
    WriteCut(buf, f.srcProgramId, o, w);         o := o + 32; w := w + Fit(f.srcProgramId, 32);
    WriteU64(buf, f.slot, o, w);                 o := o + 8;  w := w + LE(f.slot, 8);
    WriteU32Signed(buf, f.eventIndex, o, w);     o := o + 4;  w := w + LE(f.eventIndex, 4);
    WriteCut(buf, f.sender, o, w);               o := o + 32; w := w + Fit(f.sender, 32);
    WriteCut(buf, f.recipient, o, w);            o := o + 32; w := w + Fit(f.recipient, 32);
    WriteU64(buf, f.amount, o, w);               o := o + 8;  w := w + LE(f.amount, 8);
    WriteU64(buf, f.nonce, o, w);                o := o + 8;  w := w + LE(f.nonce, 8);
    WriteCut(buf, f.assetId, o, w);                          w := w + Fit(f.assetId, 32);
    AllWritten(buf, w);
    return buf[..];
  }

  /** The shared library (`encodeDepositMessage`): None is the wrong-length error. */
  method LibraryPreimage(domainSep: string, f: Fields) returns (r: Option<bytes>)
    ensures r == if Lengths32(f)
                 then Some(Preimage(Utf8(if domainSep != "" then domainSep else DOMAIN_SEP), f)) else None
  {
    hide LE, Utf8, Written;
    var domainBytes := Utf8(if domainSep != "" then domainSep else DOMAIN_SEP);
    if |f.srcProgramId| != 32 || |f.sender| != 32 || |f.recipient| != 32 || |f.assetId| != 32 {
      return None;
    }
    var d := |domainBytes|;
    var buf := NewBuffer(d + 4 + 4 + 32 + 8 + 4 + 32 + 32 + 8 + 8 + 32);
    var o := 0;
    WriteBytes(buf, domainBytes, o, []);
    o := o + d;
    ghost var w := domainBytes;
    assert [] + domainBytes == domainBytes;
    WriteU32Unsigned(buf, f.srcChainId, o, w);   o := o + 4;  w := w + LE(f.srcChainId, 4);
    WriteU32Unsigned(buf, f.dstChainId, o, w);   o := o + 4;  w := w + LE(f.dstChainId, 4);
    WriteBytes(buf, f.srcProgramId, o, w);       o := o + 32; w := w + f.srcProgramId;
    WriteU64(buf, f.slot, o, w);                 o := o + 8;  w := w + LE(f.slot, 8);
    WriteU32Unsigned(buf, f.eventIndex, o, w);   o := o + 4;  w := w + LE(f.eventIndex, 4);
    WriteBytes(buf, f.sender, o, w);             o := o + 32; w := w + f.sender;
    WriteBytes(buf, f.recipient, o, w);          o := o + 32; w := w + f.recipient;
    WriteU64(buf, f.amount, o, w);               o := o + 8;  w := w + LE(f.amount, 8);
    WriteU64(buf, f.nonce, o, w);                o := o + 8;  w := w + LE(f.nonce, 8);
    WriteBytes(buf, f.assetId, o, w);            w := w + f.assetId;
    assert w == Preimage(domainBytes, f);
    AllWritten(buf, w);
    return Some(buf[..]);
  }

  /** The Rust library appends to a vector. */
  method RustPreimage(domain: bytes, f: Fields) returns (data: bytes)
    requires Lengths32(f) && InRange(f)
    ensures data == Preimage(domain, f)
  {
    hide LE;
    data := domain;
    data := data + LE(f.srcChainId, 4);
    data := data + LE(f.dstChainId, 4);
    data := data + f.srcProgramId;
    data := data + LE(f.slot, 8);
    data := data + LE(f.eventIndex, 4);
    data := data + f.sender;
    data := data + f.recipient;
    data := data + LE(f.amount, 8);
    data := data + LE(f.nonce, 8);
    data := data + f.assetId;
  }

  /** All four encoders give the same 181 bytes for the same well-formed deposit. */
  method FourEncodersAgree(f: Fields)
    returns (prover: Option<bytes>, validator: bytes, library: Option<bytes>, rust: bytes)
    requires Lengths32(f) && InRange(f)
    ensures prover == library == Some(rust) && validator == rust && |rust| == DEPOSIT_PREIMAGE_LENGTH
  {
    hide *;
    prover := ProverPreimage(f);
    validator := ValidatorPreimage(f);
    library := LibraryPreimage(DOMAIN_SEP, f);
    rust := RustPreimage(Utf8(DOMAIN_SEP), f);
  }

  lemma DomainLength()
    ensures |Utf8(DOMAIN_SEP)| == 17
  {
    Utf8Ascii(DOMAIN_SEP);
  }

  // --------------------------------------------------------------------------
  // Unlock encoder of the libraries
  // --------------------------------------------------------------------------

  /** `encodeUnlockMessage`; None is the wrong-length error. */
  method LibraryUnlock(domainSep: string, transferId: bytes, recipient: bytes, amount: int, burnTxHash: bytes,
                       dccChainId: int, expiration: int)
    returns (r: Option<bytes>)
    ensures r.Some? <==> |transferId| == |recipient| == |burnTxHash| == 32
    ensures r.Some? ==> r.value == UnlockBytesWith(Utf8(if domainSep != "" then domainSep else UNLOCK_PREFIX),
                                                   transferId, recipient, amount, burnTxHash, dccChainId, expiration)
    ensures r.Some? && domainSep == "" ==>
              r.value == UnlockBytes(transferId, recipient, amount, burnTxHash, dccChainId, expiration)
  {
    hide LE, Utf8, Written;
    if |transferId| != 32 || |recipient| != 32 || |burnTxHash| != 32 {
      return None;
    }
    var domainBytes := Utf8(if domainSep != "" then domainSep else UNLOCK_PREFIX);
    var d := |domainBytes|;
    var buf := NewBuffer(d + 32 + 32 + 8 + 32 + 4 + 8);
    var o := 0;
    WriteBytes(buf, domainBytes, o, []);
    o := o + d;
    ghost var w := domainBytes;
    assert [] + domainBytes == domainBytes;
    WriteBytes(buf, transferId, o, w);         o := o + 32; w := w + transferId;
    WriteBytes(buf, recipient, o, w);          o := o + 32; w := w + recipient;
    WriteU64(buf, amount, o, w);               o := o + 8;  w := w + LE(amount, 8);
    WriteBytes(buf, burnTxHash, o, w);         o := o + 32; w := w + burnTxHash;
    WriteU32Unsigned(buf, dccChainId, o, w);   o := o + 4;  w := w + LE(dccChainId, 4);
    var unsigned := if expiration < 0 then U64 + expiration else expiration;
    PowU64();
    LEWraps(expiration, 8);
    WriteU64(buf, unsigned, o, w);             w := w + LE(expiration, 8);
    AllWritten(buf, w);
    return Some(buf[..]);
  }

  /** The Rust library's `encode_unlock_message`; `expiration` is an i64 there. */
  method RustUnlock(domain: bytes, transferId: Bytes32, recipient: Bytes32, amount: int, burnTxHash: Bytes32,
                    dccChainId: int, expiration: int)
    returns (data: bytes)
    requires UnlockInRange(amount, dccChainId, expiration)
    ensures data == UnlockBytesWith(domain, transferId, recipient, amount, burnTxHash, dccChainId, expiration)
    ensures domain == Utf8(UNLOCK_PREFIX) ==>
              data == UnlockBytes(transferId, recipient, amount, burnTxHash, dccChainId, expiration)
  {
    hide LE, Utf8;
    data := domain;
    data := data + transferId;
    data := data + recipient;
    data := data + LE(amount, 8);
    data := data + burnTxHash;
    data := data + LE(dccChainId, 4);
    data := data + LE(expiration, 8);
  }
}
