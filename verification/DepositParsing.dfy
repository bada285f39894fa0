/**
 * Parsing the deposit preimage. The parser ors shifted bytes together, as signed 32-bit
 * numbers for the narrow fields and as big integers for the wide ones; parsing and
 * encoding are inverse to each other.
 */
module DepositParsing {
  import opened Bytes
  import opened Options
  import opened DepositEncoding
  import opened Messages
  import opened TextDecoding

  // --------------------------------------------------------------------------
  // Bitwise or
  // --------------------------------------------------------------------------

  /** The n low bits of a | b, as an unsigned number; negative operands read in two's complement. */
  function Or(a: int, b: int, n: nat): nat
    decreases n
  {
    if n == 0 then 0
    else (if a % 2 == 1 || b % 2 == 1 then 1 else 0) + 2 * Or(a / 2, b / 2, n - 1)
  }

  lemma {:induction false} OrZero(b: nat, n: nat)
    requires b < Pow2(n)
    ensures Or(0, b, n) == b
    decreases n
  {
    if n > 0 {
      OrZero(b / 2, n - 1);
    }
  }

  /** Where one operand ends the other begins: or is addition. */
  lemma {:induction false} OrIsSum(low: nat, high: nat, k: nat, n: nat)
    requires low < Pow2(k) && low + high * Pow2(k) < Pow2(n)
    ensures Or(low, high * Pow2(k), n) == low + high * Pow2(k)
    decreases n
  {
    if n > 0 && k == 0 {
      OrZero(high, n);
    } else if n > 0 {
      assert high * Pow2(k) == 2 * (high * Pow2(k - 1));
      OrIsSum(low / 2, high, k - 1, n - 1);
    }
  }

  lemma {:induction false} OrWraps(a: int, b: int, n: nat)
    ensures Or(a, b - Pow2(n), n) == Or(a, b, n)
    decreases n
  {
    if n > 0 {
      assert (b - 2 * Pow2(n - 1)) / 2 == b / 2 - Pow2(n - 1);
      OrWraps(a / 2, b / 2, n - 1);
    }
  }

  lemma Pow2Nibble(n: nat)
    ensures Pow2(n + 4) == 16 * Pow2(n)
  {
    Pow2Step(n);
    Pow2Step(n + 1);
    Pow2Step(n + 2);
    Pow2Step(n + 3);
  }

  lemma {:induction false} Pow2OfBytes(i: nat)
    ensures Pow2(8 * i) == Pow256(i)
  {
    if i > 0 {
      Pow2OfBytes(i - 1);
      Pow2Nibble(8 * i - 8);
      Pow2Nibble(8 * i - 4);
    }
  }

  /** JavaScript's `a | b`: the 32 low bits of both operands, read back as a signed number. */
  function Or32(a: int, b: int): int { ToInt32(Or(a, b, 32)) }

  /** Or-ing a shifted byte onto the lower ones adds it, though the shifted byte may read as negative. */
  lemma {:induction false} Or32Adds(low: nat, b: nat, i: nat)
    requires i < 4 && b < 256 && low < Pow256(i) && low + b * Pow256(i) < U32
    ensures Or32(low, ToInt32(b * Pow256(i))) == ToInt32(low + b * Pow256(i))
  {
    hide Or, Pow256, Pow2;
    PowU32();
    Pow2OfBytes(4);
    Pow2OfBytes(i);
    var x := b * Pow256(i);
    OrIsSum(low, b, 8 * i, 32);
    OrWraps(low, x, 32);
    assert ToInt32(x) == x || ToInt32(x) == x - Pow2(32);
    assert Or(low, ToInt32(x), 32) == low + x;
  }

  lemma {:induction false} Or64Adds(low: nat, b: nat, i: nat)
    requires low < Pow256(i) && low + b * Pow256(i) < U64
    ensures Or(low, b * Pow256(i), 64) == low + b * Pow256(i)
  {
    hide Or, Pow256, Pow2;
    PowU64();
    Pow2OfBytes(8);
    Pow2OfBytes(i);
    OrIsSum(low, b, 8 * i, 64);
  }

  // --------------------------------------------------------------------------
  // The parser
  // --------------------------------------------------------------------------

  /** The slices to parse, the separator as its bytes; None is the too-short error. */
  function Parsed(b: bytes): Option<(bytes, Fields)> {
    if |b| < DEPOSIT_PREIMAGE_LENGTH then None
    else Some((b[..17],
               Fields(LEVal(b[17..21]), LEVal(b[21..25]), b[25..57], LEVal(b[57..65]), LEVal(b[65..69]),
                      b[69..101], b[101..133], LEVal(b[133..141]), LEVal(b[141..149]), b[149..181])))
  }

  /** The next byte of a little-endian number. */
  lemma {:induction false} NextByte(b: bytes, offset: nat, i: nat)
    requires offset + i < |b|
    ensures LEVal(b[offset..offset + i]) < Pow256(i)
    ensures LEVal(b[offset..offset + i + 1]) == LEVal(b[offset..offset + i]) + b[offset + i] * Pow256(i) < Pow256(i + 1)
  {
    var s := b[offset..offset + i];
    LEValBound(s);
    LEValSnoc(s, b[offset + i]);
    assert b[offset..offset + i + 1] == s + [b[offset + i]];
    LEValBound(b[offset..offset + i + 1]);
  }

  lemma SmallPowers()
    ensures Pow256(0) == 1 && Pow256(1) == 256 && Pow256(2) == 0x1_0000 && Pow256(3) == 0x100_0000 && Pow256(4) == U32
  {
    PowU32();
    assert Pow256(2) == 65536;
  }

  /** One more byte or-ed onto the front of a 32-bit number. */
  lemma {:induction false} OrNextByte(b: bytes, offset: nat, i: nat)
    requires i < 4 && offset + i < |b|
    ensures Or32(ToInt32(LEVal(b[offset..offset + i])), ToInt32(b[offset + i] * Pow256(i)))
         == ToInt32(LEVal(b[offset..offset + i + 1]))
  {
    hide Or32, LEVal, Pow256;
    NextByte(b, offset, i);
    SmallPowers();
    var low := LEVal(b[offset..offset + i]);
    assert Pow256(i) <= 0x100_0000 && Pow256(i + 1) <= U32;
    assert ToInt32(low) == low;
    Or32Adds(low, b[offset + i], i);
  }

  /** Four bytes or-ed together as signed 32-bit numbers, then made unsigned. */
  method ReadU32(b: bytes, offset: nat) returns (v: int)
    requires offset + 4 <= |b|
    ensures v == LEVal(b[offset..offset + 4])
  {
    hide Pow256, Or32, LEVal, ToInt32;
    SmallPowers();
    var b0: int, b1: int, b2: int, b3: int := b[offset], b[offset + 1], b[offset + 2], b[offset + 3];
    var r := Or32(Or32(Or32(b0, ToInt32(b1 * 0x100)), ToInt32(b2 * 0x1_0000)), ToInt32(b3 * 0x100_0000));
    v := ToUint32(r);
    NextByte(b, offset, 0);
    EmptyValue(b[offset..offset]);
    ToInt32OfSmall(b0);
    OrNextByte(b, offset, 1);
    OrNextByte(b, offset, 2);
    OrNextByte(b, offset, 3);
    NextByte(b, offset, 3);
    BackToUnsigned(LEVal(b[offset..offset + 4]));
  }

  lemma EmptyValue(b: bytes)
    requires b == []
    ensures LEVal(b) == 0
  {}

  lemma ToInt32OfSmall(v: nat)
    requires v < U32 / 2
    ensures ToInt32(v) == v
  {}

  lemma BackToUnsigned(v: nat)
    requires v < U32
    ensures ToUint32(ToInt32(v)) == v
  {}

  /** `v |= BigInt(byte) << BigInt(8 * i)`, eight times. */
  method ReadU64(b: bytes, offset: nat) returns (v: nat)
    requires offset + 8 <= |b|
    ensures v == LEVal(b[offset..offset + 8])
  {
    hide Pow256, Or, LEVal;
    v := 0;
    EmptyValue(b[offset..offset]);
    for i := 0 to 8
      invariant v == LEVal(b[offset..offset + i])
    {
      NextByte(b, offset, i);
      BelowU64(i + 1);
      Or64Adds(v, b[offset + i], i);
      v := Or(v, b[offset + i] * Pow256(i), 64);
    }
  }

  lemma {:induction false} BelowU64(i: nat)
    requires i <= 8
    ensures Pow256(i) <= U64
    decreases 8 - i
  {
    if i == 8 {
      PowU64();
    } else {
      BelowU64(i + 1);
    }
  }

  /** What parsing should give: the separator is decoded to text. */
  function ParsedText(b: bytes): Option<(string, Fields)> {
    match Parsed(b)
    case None => None
    case Some((domain, f)) => Some((TextDecode(domain), f))
  }

  method ParseDepositMessage(b: bytes) returns (r: Option<(string, Fields)>)
    ensures r == ParsedText(b)
  {
    hide LEVal, TextDecode;
    if |b| < DEPOSIT_PREIMAGE_LENGTH {
      return None;
    }
    var domainSep := TextDecode(b[0..17]);
    var o := 17;
    var srcChainId := ReadU32(b, o);
    o := o + 4;
    var dstChainId := ReadU32(b, o);
    o := o + 4;
    var srcProgramId := b[o..o + 32];
    o := o + 32;
    var slot := ReadU64(b, o);
    o := o + 8;
    var eventIndex := ReadU32(b, o);
    o := o + 4;
    var sender := b[o..o + 32];
    o := o + 32;
    var recipient := b[o..o + 32];
    o := o + 32;
    var amount := ReadU64(b, o);
    o := o + 8;
    var nonce := ReadU64(b, o);
    o := o + 8;
    var assetId := b[o..o + 32];
    return Some((domainSep, Fields(srcChainId, dstChainId, srcProgramId, slot, eventIndex, sender, recipient,
                                   amount, nonce, assetId)));
  }

  // --------------------------------------------------------------------------
  // Parsing and encoding undo each other
  // --------------------------------------------------------------------------

  /** Reading back n bytes gives the value exactly when it fits in n bytes. */
  lemma {:induction false} ReadBackExactly(v: int, n: nat)
    ensures LEVal(LE(v, n)) == v <==> 0 <= v < Pow256(n)
  {
    LEValBound(LE(v, n));
    if 0 <= v < Pow256(n) {
      LERoundTrip(v, n);
    }
  }

  lemma SlicesOfPreimage(domain: bytes, f: Fields)
    requires |domain| == 17 && Lengths32(f)
    ensures var b := Preimage(domain, f);
            && |b| == 181 && b[..17] == domain
            && b[17..21] == LE(f.srcChainId, 4) && b[21..25] == LE(f.dstChainId, 4) && b[25..57] == f.srcProgramId
            && b[57..65] == LE(f.slot, 8) && b[65..69] == LE(f.eventIndex, 4) && b[69..101] == f.sender
            && b[101..133] == f.recipient && b[133..141] == LE(f.amount, 8) && b[141..149] == LE(f.nonce, 8)
            && b[149..181] == f.assetId
  {
    hide LE;
  }

  /**
   * Parsing gives back the separator and the fields exactly when the separator is 17 bytes
   * long and every number fits its width: the parser has the default separator's length built in.
   */
  lemma {:induction false} ParseUndoesEncode(domain: bytes, f: Fields)
    requires Lengths32(f)
    ensures Parsed(Preimage(domain, f)) == Some((domain, f)) <==> |domain| == 17 && InRange(f)
  {
    hide LE, LEVal, Preimage;
    if |domain| == 17 {
      SlicesOfPreimage(domain, f);
      PowU32();
      PowU64();
      ReadBackExactly(f.srcChainId, 4);
      ReadBackExactly(f.dstChainId, 4);
      ReadBackExactly(f.eventIndex, 4);
      ReadBackExactly(f.slot, 8);
      ReadBackExactly(f.amount, 8);
      ReadBackExactly(f.nonce, 8);
    }
  }

  /** Any 181 bytes are the encoding of what they parse to. */
  lemma {:induction false} EncodeUndoesParse(b: bytes)
    requires |b| >= DEPOSIT_PREIMAGE_LENGTH
    ensures var (domain, f) := Parsed(b).value;
            Lengths32(f) && InRange(f) && Preimage(domain, f) == b[..181]
  {
    hide LE, LEVal;
    PowU32();
    PowU64();
    ReadThenWrite(b[17..21]);
    ReadThenWrite(b[21..25]);
    ReadThenWrite(b[57..65]);
    ReadThenWrite(b[65..69]);
    ReadThenWrite(b[133..141]);
    ReadThenWrite(b[141..149]);
    assert b[..181] == b[..17] + b[17..21] + b[21..25] + b[25..57] + b[57..65] + b[65..69] + b[69..101] + b[101..133]
                       + b[133..141] + b[141..149] + b[149..181];
  }

  /**
   * For a separator of 17 bytes, parsing gives back its text and the fields exactly when it does not begin
   * with a byte-order mark and every number fits its width.
   */
  lemma {:induction false} ParseRestoresText(domainSep: string, f: Fields)
    requires Lengths32(f) && |Utf8(domainSep)| == 17
    ensures ParsedText(Preimage(Utf8(domainSep), f)) == Some((domainSep, f)) <==> domainSep[0] != MARK && InRange(f)
  {
    hide LE, LEVal, Preimage, Utf8, TextDecode;
    Utf8Empty(domainSep);
    ParseUndoesEncode(Utf8(domainSep), f);
    TextSurvives(domainSep);
    SlicesOfPreimage(Utf8(domainSep), f);
  }

  /** Encoding again what was parsed gives the bytes back exactly if the separator's are UTF-8 without a mark. */
  lemma {:induction false} EncodeRestoresBytes(b: bytes)
    requires |b| >= DEPOSIT_PREIMAGE_LENGTH
    ensures var (domainSep, f) := ParsedText(b).value;
            Lengths32(f) && (Preimage(Utf8(domainSep), f) == b[..181] <==> IsUtf8(b[..17]) && !HasMark(b[..17]))
  {
    hide LE, LEVal, Utf8, TextDecode, IsUtf8, HasMark;
    var (domainSep, f) := ParsedText(b).value;
    EncodeUndoesParse(b);
    BytesSurvive(b[..17]);
    if Preimage(Utf8(domainSep), f) == b[..181] {
      assert |Preimage(Utf8(domainSep), f)| == |Utf8(domainSep)| + 164;
      SlicesOfPreimage(Utf8(domainSep), f);
      assert b[..181][..17] == b[..17];
    }
  }

  lemma {:induction false} ReadThenWrite(b: bytes)
    ensures LE(LEVal(b), |b|) == b && LEVal(b) < Pow256(|b|)
  {
    LEOfVal(b);
    LEValBound(b);
  }

  /** No two deposits share a preimage. */
  lemma {:induction false} PreimageInjective(domain: bytes, f: Fields, domain': bytes, f': Fields)
    requires |domain| == |domain'| == 17 && Lengths32(f) && Lengths32(f') && InRange(f) && InRange(f')
    requires Preimage(domain, f) == Preimage(domain', f')
    ensures domain == domain' && f == f'
  {
    hide *;
    ParseUndoesEncode(domain, f);
    ParseUndoesEncode(domain', f');
  }
}
