/**
 * The messages a validator committee signs: the mint text and the unlock bytes.
 * Shows that the signed bytes determine the signed event, and that the two kinds
 * of message never coincide.
 */
module Messages {
  import opened Bytes
  import opened Options
  import Base58

  // --------------------------------------------------------------------------
  // UTF-8
  // --------------------------------------------------------------------------

  function Utf8Char(c: char): (r: bytes)
    ensures 1 <= |r| <= 4
  {
    var n := c as int;
    if n < 0x80 then [n]
    else if n < 0x800 then [0xC0 + n / 64, 0x80 + n % 64]
    else if n < 0x1_0000 then [0xE0 + n / 4096, 0x80 + n / 64 % 64, 0x80 + n % 64]
    else [0xF0 + n / 262144, 0x80 + n / 4096 % 64, 0x80 + n / 64 % 64, 0x80 + n % 64]
  }

  function Utf8(s: string): bytes {
    if s == "" then [] else Utf8Char(s[0]) + Utf8(s[1..])
  }

  /** Length of a character's encoding, from its first byte. */
  function Utf8Length(lead: byte): nat {
    if lead < 0x80 then 1 else if lead < 0xE0 then 2 else if lead < 0xF0 then 3 else 4
  }

  function Utf8Decode(u: seq<int>): int
    requires 1 <= |u| <= 4
  {
    if |u| == 1 then u[0]
    else if |u| == 2 then (u[0] - 0xC0) * 64 + (u[1] - 0x80)
    else if |u| == 3 then (u[0] - 0xE0) * 4096 + (u[1] - 0x80) * 64 + (u[2] - 0x80)
    else (u[0] - 0xF0) * 262144 + (u[1] - 0x80) * 4096 + (u[2] - 0x80) * 64 + (u[3] - 0x80)
  }

  lemma Utf8CharDecodes(c: char)
    ensures var u := Utf8Char(c); |u| == Utf8Length(u[0]) && Utf8Decode(u) == c as int
  {
    var n := c as int;
    assert n / 262144 == n / 64 / 4096 && n / 4096 == n / 64 / 64;
  }

  /** The first character can be read off the front of its encoding. */
  lemma Utf8Prefix(c: char, x: bytes, d: char, y: bytes)
    requires Utf8Char(c) + x == Utf8Char(d) + y
    ensures c == d && x == y
  {
    hide Utf8Char, Utf8Decode;
    var u, v := Utf8Char(c), Utf8Char(d);
    Utf8CharDecodes(c);
    Utf8CharDecodes(d);
    assert u[0] == (u + x)[0] == v[0];
    SplitEqual(u, x, v, y);
  }

  lemma Utf8Empty(s: string)
    ensures Utf8(s) == [] <==> s == ""
  {}

  lemma {:induction false} Utf8Injective(s: string, t: string)
    requires Utf8(s) == Utf8(t)
    ensures s == t
  {
    Utf8Empty(s);
    Utf8Empty(t);
    if s != "" {
      Utf8Prefix(s[0], Utf8(s[1..]), t[0], Utf8(t[1..]));
      Utf8Injective(s[1..], t[1..]);
      assert s == [s[0]] + s[1..] && t == [t[0]] + t[1..];
    }
  }

  // --------------------------------------------------------------------------
  // Decimal text
  // --------------------------------------------------------------------------

  function DecDigit(d: nat): char
    requires d < 10
  {
    ('0' as int + d) as char
  }

  function Decimal(n: nat): (s: string)
    ensures s != ""
  {
    if n < 10 then [DecDigit(n)] else Decimal(n / 10) + [DecDigit(n % 10)]
  }

  predicate NoBar(s: string) { forall i :: 0 <= i < |s| ==> s[i] != '|' }

  lemma {:induction false} DecimalNoBar(n: nat)
    ensures NoBar(Decimal(n))
  {
    if n >= 10 {
      DecimalNoBar(n / 10);
    }
  }

  lemma {:induction false} DecimalLonger(n: nat)
    ensures n >= 10 <==> |Decimal(n)| >= 2
  {
    if n >= 10 {
      assert |Decimal(n / 10)| >= 1;
    }
  }

  lemma {:induction false} DecimalInjective(m: nat, n: nat)
    requires Decimal(m) == Decimal(n)
    ensures m == n
  {
    DecimalLonger(m);
    DecimalLonger(n);
    var s, t := Decimal(m), Decimal(n);
    assert s[|s| - 1] == t[|t| - 1];
    if m >= 10 {
      assert s[..|s| - 1] == Decimal(m / 10) && t[..|t| - 1] == Decimal(n / 10);
      DecimalInjective(m / 10, n / 10);
    }
  }

  lemma {:induction false} Base58NoBar(b: bytes)
    requires b != []
    ensures NoBar(Base58.Encode(b))
  {
    Base58.FullOfEncode(b);
    var s := Base58.Encode(b);
    assert Base58.Digit('|') == -1;
    forall i | 0 <= i < |s| ensures s[i] != '|' {
      assert Base58.Digit(s[i]) >= 0;
    }
  }

  // --------------------------------------------------------------------------
  // Mint messages
  // --------------------------------------------------------------------------

  const MINT_PREFIX: string := "SOL_DCC_BRIDGE_V1|MINT|"

  /** `recipientField` is the 32-byte recipient of the deposit; `amount` is after fees. */
  datatype Deposit = Deposit(recipientField: bytes, amount: nat, slot: nat)

  function MintText(transferId: string, recipient: string, amount: nat, slot: nat, chainId: nat): string {
    MINT_PREFIX + transferId + "|" + recipient + "|" + Decimal(amount) + "|" + Decimal(slot) + "|" + Decimal(chainId)
  }

  /** None is the error of an empty recipient field. */
  function MintMessage(transferId: string, d: Deposit, chainId: nat): Option<bytes> {
    match Base58.RecipientText(d.recipientField)
    case None => None
    case Some(recipient) => Some(Utf8(MintText(transferId, recipient, d.amount, d.slot, chainId)))
  }

  method ConstructMintMessage(transferId: string, d: Deposit, chainId: nat) returns (r: Option<bytes>)
    ensures r == MintMessage(transferId, d, chainId)
  {
    var recipient := Base58.RecipientFromField(d.recipientField);
    if recipient.None? {
      return None;
    }
    var message := "SOL_DCC_BRIDGE_V1|MINT|" + transferId + "|" + recipient.value + "|";
    message := message + Decimal(d.amount) + "|" + Decimal(d.slot) + "|" + Decimal(chainId);
    assert message == MintText(transferId, recipient.value, d.amount, d.slot, chainId);
    return Some(Utf8(message));
  }

  lemma BarPosition(x: string, u: string)
    requires NoBar(u)
    ensures var s := x + "|" + u; s[|x|] == '|' && forall p :: |x| < p < |s| ==> s[p] != '|'
  {
    var s := x + "|" + u;
    forall p | |x| < p < |s| ensures s[p] != '|' {
      assert s[p] == u[p - |x| - 1];
    }
  }

  /** Text before and after the last bar. */
  lemma LastBar(x: string, u: string, y: string, v: string)
    requires NoBar(u) && NoBar(v) && x + "|" + u == y + "|" + v
    ensures x == y && u == v
  {
    BarPosition(x, u);
    BarPosition(y, v);
    assert |x| == |y|;
    SplitEqual(x + "|", u, y + "|", v);
    SplitEqual(x, "|", y, "|");
  }

  /** The five fields can be read back from the text, whatever the transfer id contains. */
  lemma {:induction false} MintTextReadable(id: string, r: string, a: nat, s: nat, c: nat,
                                            id': string, r': string, a': nat, s': nat, c': nat)
    requires NoBar(r) && NoBar(r')
    requires MintText(id, r, a, s, c) == MintText(id', r', a', s', c')
    ensures id == id' && r == r' && a == a' && s == s' && c == c'
  {
    DecimalNoBar(a); DecimalNoBar(s); DecimalNoBar(c);
    DecimalNoBar(a'); DecimalNoBar(s'); DecimalNoBar(c');
    var w, w' := MINT_PREFIX + id, MINT_PREFIX + id';
    var x, x' := w + "|" + r, w' + "|" + r';
    var y, y' := x + "|" + Decimal(a), x' + "|" + Decimal(a');
    var z, z' := y + "|" + Decimal(s), y' + "|" + Decimal(s');
    LastBar(z, Decimal(c), z', Decimal(c'));
    LastBar(y, Decimal(s), y', Decimal(s'));
    LastBar(x, Decimal(a), x', Decimal(a'));
    LastBar(w, r, w', r');
    SplitEqual(MINT_PREFIX, id, MINT_PREFIX, id');
    DecimalInjective(a, a'); DecimalInjective(s, s'); DecimalInjective(c, c');
  }

  /** Fields of equal length that trim to the same bytes are the same. */
  lemma TrimmedFieldsEqual(f: bytes, g: bytes)
    requires |f| == |g| && f[..Base58.Kept(f)] == g[..Base58.Kept(g)]
    ensures f == g
  {
    var n := Base58.Kept(f);
    assert n == |f[..n]| == Base58.Kept(g);
    forall i | 0 <= i < |f| ensures f[i] == g[i] {
      if i < n {
        assert f[i] == f[..n][i] == g[..n][i];
      }
    }
  }

  /** The number that a text of decimal digits spells. */
  function DecimalVal(s: string): nat
    requires forall i :: 0 <= i < |s| ==> '0' <= s[i] <= '9'
  {
    if s == "" then 0 else 10 * DecimalVal(s[..|s| - 1]) + (s[|s| - 1] as int - '0' as int)
  }

  /** Digits only, none of them a leading zero, spelling n. */
  ghost predicate Spells(s: string, n: nat) {
    && s != "" && (forall i :: 0 <= i < |s| ==> '0' <= s[i] <= '9')
    && DecimalVal(s) == n && (|s| > 1 ==> s[0] != '0')
  }

  lemma {:induction false} DecimalSpells(n: nat)
    ensures Spells(Decimal(n), n) && (n > 0 ==> Decimal(n)[0] != '0')
  {
    var s := Decimal(n);
    if n >= 10 {
      DecimalSpells(n / 10);
      assert s[..|s| - 1] == Decimal(n / 10);
    } else {
      assert s[..0] == "";
    }
  }

  /** The text that decodes to the field without its trailing zeros. */
  ghost predicate AddressOf(s: string, field: bytes) {
    && Base58.ValidText(s)
    && var full := Base58.Full(s);
       if (exists i :: 0 <= i < |field| && field[i] != 0)
       then full != [] && full[|full| - 1] != 0 && full <= field && forall i :: |full| <= i < |field| ==> field[i] == 0
       else s == "1"
  }

  lemma {:induction false} RecipientIsAddress(field: bytes)
    requires field != []
    ensures Base58.RecipientText(field).Some? && AddressOf(Base58.RecipientText(field).value, field)
  {
    var n := Base58.Kept(field);
    var kept := field[..n];
    Base58.FullOfEncode(kept);
    if exists i :: 0 <= i < |field| && field[i] != 0 {
      var i :| 0 <= i < |field| && field[i] != 0;
      assert kept[i] != 0;
    } else {
      assert n == 1 && kept == [0];
      Base58.EncodeOfZero();
    }
  }

  /**
   * What a mint message says: behind the fixed prefix and between bars, the transfer id, the recipient's
   * address, the amount, the slot and the chain id in decimal.
   */
  lemma {:induction false} MintMessageSays(id: string, d: Deposit, c: nat)
    ensures MintMessage(id, d, c).Some? <==> d.recipientField != []
    ensures d.recipientField != [] ==>
              exists r, a, s, k ::
                && AddressOf(r, d.recipientField) && Spells(a, d.amount) && Spells(s, d.slot) && Spells(k, c)
                && MintMessage(id, d, c)
                   == Some(Utf8("SOL_DCC_BRIDGE_V1|MINT|" + id + "|" + r + "|" + a + "|" + s + "|" + k))
  {
    hide Utf8, Decimal, AddressOf, Spells;
    if d.recipientField != [] {
      RecipientIsAddress(d.recipientField);
      DecimalSpells(d.amount);
      DecimalSpells(d.slot);
      DecimalSpells(c);
      var r, a, s, k := Base58.RecipientText(d.recipientField).value, Decimal(d.amount), Decimal(d.slot), Decimal(c);
      assert AddressOf(r, d.recipientField) && Spells(a, d.amount) && Spells(s, d.slot) && Spells(k, c);
      assert MintMessage(id, d, c)
          == Some(Utf8("SOL_DCC_BRIDGE_V1|MINT|" + id + "|" + r + "|" + a + "|" + s + "|" + k));
    }
  }

  /** A mint message determines the transfer, the deposit and the chain it was built from. */
  lemma {:induction false} MintMessageDeterminesDeposit(id: string, d: Deposit, c: nat, id': string, d': Deposit,
                                                        c': nat)
    requires MintMessage(id, d, c).Some? && MintMessage(id, d, c) == MintMessage(id', d', c')
    requires |d.recipientField| == |d'.recipientField|
    ensures id == id' && d == d' && c == c'
  {
    var f, g := d.recipientField, d'.recipientField;
    var r, r' := Base58.RecipientText(f).value, Base58.RecipientText(g).value;
    Base58NoBar(f[..Base58.Kept(f)]);
    Base58NoBar(g[..Base58.Kept(g)]);
    Utf8Injective(MintText(id, r, d.amount, d.slot, c), MintText(id', r', d'.amount, d'.slot, c'));
    MintTextReadable(id, r, d.amount, d.slot, c, id', r', d'.amount, d'.slot, c');
    Base58.EncodeInjective(f[..Base58.Kept(f)], g[..Base58.Kept(g)]);
    TrimmedFieldsEqual(f, g);
  }

  // --------------------------------------------------------------------------
  // Unlock messages
  // --------------------------------------------------------------------------

  const UNLOCK_PREFIX: string := "SOL_DCC_BRIDGE_UNLOCK_V1"

  type Bytes32 = b: bytes | |b| == 32 witness Zeros(32)

  /** `amount` is after fees; `timestampMs` is the burn's own on-chain time. */
  datatype Burn = Burn(recipient: Bytes32, amount: int, txId: string, timestampMs: int)

  /** `windowSeconds` is configurable, a day by default. */
  function UnlockExpiration(burnTimestampMs: int, windowSeconds: int): int { burnTimestampMs / 1000 + windowSeconds }

  /** An unlock behind any domain separator: six fixed-width fields. */
  function UnlockBytesWith(domain: bytes, transferId: Bytes32, recipient: Bytes32, amount: int, burnTx: Bytes32,
                           chainId: int, expiration: int): (r: bytes)
    ensures |r| == 116 + |domain|
  {
    domain + transferId + recipient + LE(amount, 8) + burnTx + LE(chainId, 4) + LE(expiration, 8)
  }

  /** The 140 bytes of an unlock. */
  function UnlockBytes(transferId: Bytes32, recipient: Bytes32, amount: int, burnTx: Bytes32,
                       chainId: int, expiration: int): (r: bytes)
    ensures |r| == 116 + |Utf8(UNLOCK_PREFIX)|
  {
    UnlockBytesWith(Utf8(UNLOCK_PREFIX), transferId, recipient, amount, burnTx, chainId, expiration)
  }

  predicate UnlockInRange(amount: int, chainId: int, expiration: int) {
    IsU64(amount) && IsU32(chainId) && IsI64(expiration)
  }

  function UnlockMessage(transferId: string, b: Burn, chainId: int, window: int): Option<bytes> {
    var expiration := UnlockExpiration(b.timestampMs, window);
    if UnlockInRange(b.amount, chainId, expiration)
    then Some(UnlockBytes(Base58.DccId(transferId), b.recipient, b.amount, Base58.DccId(b.txId), chainId, expiration))
    else None
  }

  /** The engine's version: None is the range error of a fixed-width write. */
  method ConstructUnlockMessage(transferId: string, b: Burn, chainId: int, window: int) returns (r: Option<bytes>)
    ensures r == UnlockMessage(transferId, b, chainId, window)
  {
    hide Concat, LE, Utf8;
    var parts: seq<bytes> := [Utf8("SOL_DCC_BRIDGE_UNLOCK_V1")];
    var id := Base58.DccIdToBytes32(transferId);
    parts := parts + [id];
    parts := parts + [b.recipient];
    if !IsU64(b.amount) {
      return None;
    }
    parts := parts + [LE(b.amount, 8)];
    var burnTxBytes := Base58.DccIdToBytes32(b.txId);
    var copied := Min(32, |burnTxBytes|);
    var burnTxBuf := burnTxBytes[..copied] + Zeros(32)[copied..];
    parts := parts + [burnTxBuf];
    if !IsU32(chainId) {
      return None;
    }
    parts := parts + [LE(chainId, 4)];
    var expiration := UnlockExpiration(b.timestampMs, window);
    if !IsI64(expiration) {
      return None;
    }
    parts := parts + [LE(expiration, 8)];
    assert burnTxBuf == burnTxBytes;
    Concat7(parts);
    r := Some(Concat(parts));
  }

  lemma Concat7(p: seq<bytes>)
    requires |p| == 7
    ensures Concat(p) == p[0] + p[1] + p[2] + p[3] + p[4] + p[5] + p[6]
  {
    hide Concat;
    Concat3(p[..3]);
    ConcatPrefix(p, 3);
    assert Concat(p[..4]) == p[0] + p[1] + p[2] + p[3];
    ConcatPrefix(p, 4);
    ConcatPrefix(p, 5);
    ConcatPrefix(p, 6);
    assert p[..7] == p;
  }

  lemma Concat3(p: seq<bytes>)
    requires |p| == 3
    ensures Concat(p) == p[0] + p[1] + p[2]
  {
    hide Concat;
    ConcatNothing(p[..0]);
    ConcatPrefix(p, 0);
    ConcatPrefix(p, 1);
    ConcatPrefix(p, 2);
    assert p[..3] == p;
  }

  lemma ConcatNothing(p: seq<bytes>)
    requires p == []
    ensures Concat(p) == []
  {}

  lemma ConcatPrefix(p: seq<bytes>, k: nat)
    requires k < |p|
    ensures Concat(p[..k + 1]) == Concat(p[..k]) + p[k]
  {
    assert p[..k + 1] == p[..k] + [p[k]];
    ConcatSnoc(p[..k], p[k]);
  }

  /**
   * The submitter's version: typed arrays wrap instead of throwing. Its fallback to
   * 32 zero bytes for an id of another length is dead code, ids always being 32 bytes.
   */
  method RebuildUnlockMessage(transferId: string, b: Burn, chainId: int, window: int) returns (message: bytes)
    ensures message == UnlockBytes(Base58.DccId(transferId), b.recipient, b.amount, Base58.DccId(b.txId), chainId,
                                   UnlockExpiration(b.timestampMs, window))
    ensures UnlockMessage(transferId, b, chainId, window).Some? ==>
              UnlockMessage(transferId, b, chainId, window) == Some(message)
  {
    hide Concat, LE, Utf8;
    var transferIdBytes := Base58.DccIdToBytes32(transferId);
    var burnTxHash := Base58.DccIdToBytes32(b.txId);
    var expiration := UnlockExpiration(b.timestampMs, window);
    message := Concat([
      Utf8("SOL_DCC_BRIDGE_UNLOCK_V1"),
      transferIdBytes,
      b.recipient,
      LE(b.amount, 8),
      burnTxHash,
      LE(chainId, 4),
      LE(expiration, 8)]);
    Concat7([Utf8("SOL_DCC_BRIDGE_UNLOCK_V1"), transferIdBytes, b.recipient, LE(b.amount, 8), burnTxHash,
             LE(chainId, 4), LE(expiration, 8)]);
  }

  /** The bytes of an unlock determine every field that is in range. */
  lemma {:induction false} UnlockBytesInjective(t: Bytes32, r: Bytes32, a: int, x: Bytes32, c: int, e: int,
                                                t': Bytes32, r': Bytes32, a': int, x': Bytes32, c': int, e': int)
    requires UnlockInRange(a, c, e) && UnlockInRange(a', c', e')
    requires UnlockBytes(t, r, a, x, c, e) == UnlockBytes(t', r', a', x', c', e')
    ensures t == t' && r == r' && a == a' && x == x' && c == c' && e == e'
  {
    hide LE, Utf8;
    var p := Utf8(UNLOCK_PREFIX);
    SplitEqual(p + t + r + LE(a, 8) + x + LE(c, 4), LE(e, 8), p + t' + r' + LE(a', 8) + x' + LE(c', 4), LE(e', 8));
    SplitEqual(p + t + r + LE(a, 8) + x, LE(c, 4), p + t' + r' + LE(a', 8) + x', LE(c', 4));
    SplitEqual(p + t + r + LE(a, 8), x, p + t' + r' + LE(a', 8), x');
    SplitEqual(p + t + r, LE(a, 8), p + t' + r', LE(a', 8));
    SplitEqual(p + t, r, p + t', r');
    SplitEqual(p, t, p, t');
    PowU64();
    PowU32();
    LEInjective(a, a', 8);
    LEInjective(c, c', 4);
    SignedInjective(e, e');
  }

  /** An id in 32 big-endian bytes: its base-58 value modulo 256^32, or zero when it is no base-58 text. */
  ghost predicate IdBytes(b: bytes, id: string) {
    |b| == 32 && BEVal(b) == if id != "" && Base58.ValidText(id) then Base58.Value(id) % Pow256(32) else 0
  }

  lemma {:induction false} DccIdIsIdBytes(id: string)
    ensures IdBytes(Base58.DccId(id), id)
  {
    if id != "" && Base58.ValidText(id) {
      Base58.DccIdValue(id);
    } else {
      Base58.BEValZeros(32);
    }
  }

  /** Reading the fields behind a separator at their places. */
  lemma {:induction false} UnlockReadsBack(p: bytes, t: Bytes32, r: Bytes32, a: int, x: Bytes32, c: int, e: int)
    requires UnlockInRange(a, c, e)
    ensures var m, n := UnlockBytesWith(p, t, r, a, x, c, e), |p|;
            && |m| == n + 116 && m[..n] == p && m[n..n + 32] == t && m[n + 32..n + 64] == r
            && LEVal(m[n + 64..n + 72]) == a && m[n + 72..n + 104] == x
            && LEVal(m[n + 104..n + 108]) == c && I64(m[n + 108..n + 116]) == e
  {
    hide LE, LEVal, I64;
    PowU64();
    PowU32();
    LERoundTrip(a, 8);
    LERoundTrip(c, 4);
    SignedReads(e);
    var m, n := UnlockBytesWith(p, t, r, a, x, c, e), |p|;
    assert m[n + 64..n + 72] == LE(a, 8) && m[n + 104..n + 108] == LE(c, 4) && m[n + 108..n + 116] == LE(e, 8);
  }

  predicate HasUnlockPrefix(m: bytes) {
    |m| >= 24 && forall i :: 0 <= i < 24 ==> m[i] == "SOL_DCC_BRIDGE_UNLOCK_V1"[i] as int
  }

  lemma UnlockPrefixText()
    ensures |Utf8(UNLOCK_PREFIX)| == 24 && HasUnlockPrefix(Utf8(UNLOCK_PREFIX))
  {
    hide Utf8;
    Utf8Ascii(UNLOCK_PREFIX);
  }

  lemma UnlockMessageExists(id: string, b: Burn, c: int, window: int)
    ensures UnlockMessage(id, b, c, window).Some? <==>
            && 0 <= b.amount < 0x1_0000_0000_0000_0000 && 0 <= c < 0x1_0000_0000
            && -0x8000_0000_0000_0000 <= b.timestampMs / 1000 + window < 0x8000_0000_0000_0000
    ensures UnlockMessage(id, b, c, window).Some? ==>
              && UnlockInRange(b.amount, c, b.timestampMs / 1000 + window)
              && UnlockMessage(id, b, c, window)
                 == Some(UnlockBytesWith(Utf8(UNLOCK_PREFIX), Base58.DccId(id), b.recipient, b.amount,
                                         Base58.DccId(b.txId), c, b.timestampMs / 1000 + window))
  {
    hide UnlockBytesWith, Base58.DccId, Utf8;
  }

  /**
   * 24 bytes of prefix, then at fixed places the transfer id, the recipient, the amount, the burn's id,
   * the chain and the expiration, which is the burn's second plus the window.
   */
  ghost predicate SaysUnlock(m: bytes, id: string, b: Burn, c: int, window: int) {
    && |m| == 140 && HasUnlockPrefix(m)
    && IdBytes(m[24..56], id) && m[56..88] == b.recipient && LEVal(m[88..96]) == b.amount
    && IdBytes(m[96..128], b.txId) && LEVal(m[128..132]) == c
    && 1000 * (I64(m[132..140]) - window) <= b.timestampMs < 1000 * (I64(m[132..140]) - window) + 1000
  }

  /** What an unlock message says; there is one exactly when the three numbers fit their widths. */
  lemma {:induction false} UnlockMessageSays(id: string, b: Burn, c: int, window: int)
    ensures UnlockMessage(id, b, c, window).Some? <==>
            && 0 <= b.amount < 0x1_0000_0000_0000_0000 && 0 <= c < 0x1_0000_0000
            && -0x8000_0000_0000_0000 <= b.timestampMs / 1000 + window < 0x8000_0000_0000_0000
    ensures UnlockMessage(id, b, c, window).Some? ==>
              SaysUnlock(UnlockMessage(id, b, c, window).value, id, b, c, window)
  {
    hide Utf8, I64, LEVal, Base58.DccId, UnlockBytesWith, IdBytes, UnlockInRange, UnlockMessage;
    UnlockPrefixText();
    UnlockMessageExists(id, b, c, window);
    if UnlockMessage(id, b, c, window).Some? {
      UnlockReadsBack(Utf8(UNLOCK_PREFIX), Base58.DccId(id), b.recipient, b.amount, Base58.DccId(b.txId), c,
                      b.timestampMs / 1000 + window);
      DccIdIsIdBytes(id);
      DccIdIsIdBytes(b.txId);
      var m := UnlockMessage(id, b, c, window).value;
      assert forall i :: 0 <= i < 24 ==> m[i] == m[..24][i];
    }
  }

  /** ASCII text encodes one byte a character. */
  lemma {:induction false} Utf8Ascii(s: string)
    requires forall k :: 0 <= k < |s| ==> s[k] as int < 0x80
    ensures |Utf8(s)| == |s| && forall k :: 0 <= k < |s| ==> Utf8(s)[k] == s[k] as int
  {
    if s != "" {
      Utf8Ascii(s[1..]);
      assert Utf8(s) == [s[0] as int] + Utf8(s[1..]);
    }
  }

  lemma SignedInjective(e: int, e': int)
    requires IsI64(e) && IsI64(e') && LE(e, 8) == LE(e', 8)
    ensures e == e'
  {
    PowU64();
    LEWraps(e, 8);
    LEWraps(e', 8);
    LEInjective(if e < 0 then e + U64 else e, if e' < 0 then e' + U64 else e', 8);
  }

  lemma MintStart(id: string, d: Deposit, c: nat)
    requires MintMessage(id, d, c).Some?
    ensures var m := MintMessage(id, d, c).value; |m| > 15 && m[15] == 'V' as int
  {
    hide Utf8, Decimal;
    var text := MintText(id, Base58.RecipientText(d.recipientField).value, d.amount, d.slot, c);
    assert "SOL_DCC_BRIDGE_V" <= text;
    Utf8AsciiPrefix(text, "SOL_DCC_BRIDGE_V");
  }

  lemma UnlockStart(id: string, b: Burn, c: int, window: int)
    requires UnlockMessage(id, b, c, window).Some?
    ensures var u := UnlockMessage(id, b, c, window).value; |u| > 15 && u[15] == 'U' as int
  {
    hide Utf8, LE;
    Utf8AsciiPrefix(UNLOCK_PREFIX, "SOL_DCC_BRIDGE_U");
  }

  /** No mint message is an unlock message: they differ at byte 15. */
  lemma MintIsNotUnlock(id: string, d: Deposit, c: nat, id': string, b: Burn, c': int, window: int)
    requires MintMessage(id, d, c).Some? && UnlockMessage(id', b, c', window).Some?
    ensures MintMessage(id, d, c) != UnlockMessage(id', b, c', window)
  {
    MintStart(id, d, c);
    UnlockStart(id', b, c', window);
  }

  lemma {:induction false} Utf8AsciiPrefix(s: string, p: string)
    requires p <= s && forall k :: 0 <= k < |p| ==> p[k] as int < 0x80
    ensures |Utf8(s)| >= |p| && forall k :: 0 <= k < |p| ==> Utf8(s)[k] == p[k] as int
  {
    if p != "" {
      Utf8AsciiPrefix(s[1..], p[1..]);
      assert Utf8Char(s[0]) == [p[0] as int];
      var t := Utf8(s[1..]);
      assert Utf8(s) == [p[0] as int] + t;
      forall k | 0 < k < |p| ensures Utf8(s)[k] == p[k] as int {
        assert Utf8(s)[k] == t[k - 1] && p[1..][k - 1] == p[k];
      }
    }
  }
}
