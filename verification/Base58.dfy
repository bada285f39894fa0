/**
 * Base58: the encoder written out in the consensus engine, the two decoders
 * (`dccIdToBytes32` and `base58ToBytes`), and the path a recipient address takes
 * from base58 text through 32 padded bytes back to base58 text.
 */
module Base58 {
  import opened Bytes
  import opened Options

  const ALPHABET: string := "123456789" + "ABCDEFGH" + "JKLMN" + "PQRSTUVWXYZ" + "abcdefghijk" + "mnopqrstuvwxyz"

  /** Character of a digit; see `AlphabetText`. */
  function Char(d: nat): char
    requires d < 58
  {
    if d < 9 then ('1' as int + d) as char
    else if d < 17 then ('A' as int + d - 9) as char
    else if d < 22 then ('J' as int + d - 17) as char
    else if d < 33 then ('P' as int + d - 22) as char
    else if d < 44 then ('a' as int + d - 33) as char
    else ('m' as int + d - 44) as char
  }

  /** Position of a character in the alphabet, -1 outside it. */
  function Digit(c: char): (d: int)
    ensures -1 <= d < 58
  {
    if '1' <= c <= '9' then c as int - '1' as int
    else if 'A' <= c <= 'H' then c as int - 'A' as int + 9
    else if 'J' <= c <= 'N' then c as int - 'J' as int + 17
    else if 'P' <= c <= 'Z' then c as int - 'P' as int + 22
    else if 'a' <= c <= 'k' then c as int - 'a' as int + 33
    else if 'm' <= c <= 'z' then c as int - 'm' as int + 44
    else -1
  }

  lemma AlphabetText()
    ensures |ALPHABET| == 58 && forall d :: 0 <= d < 58 ==> ALPHABET[d] == Char(d)
  {}

  lemma DigitInverse(c: char)
    ensures forall d: nat :: d < 58 ==> Digit(Char(d)) == d
    ensures Digit(c) >= 0 ==> Char(Digit(c)) == c
    ensures Digit(c) == 0 <==> c == '1'
  {}

  predicate ValidText(s: string) { forall i :: 0 <= i < |s| ==> Digit(s[i]) >= 0 }

  function Value(s: string): nat
    requires ValidText(s)
  {
    if s == "" then 0 else Value(s[..|s| - 1]) * 58 + Digit(s[|s| - 1])
  }

  /** Base-58 digits of n without leading zeros; empty for 0. */
  function Digits(n: nat): (s: string)
    ensures ValidText(s)
  {
    if n == 0 then "" else Digits(n / 58) + [Char(n % 58)]
  }

  /** Shortest big-endian bytes of n; one zero byte for 0. */
  function Body(n: nat): (b: bytes)
    ensures b != []
  {
    if n < 256 then [n] else Body(n / 256) + [n % 256]
  }

  function LeadingOnes(s: string): (k: nat)
    ensures k <= |s| && forall i :: 0 <= i < k ==> s[i] == '1'
    ensures k < |s| ==> s[k] != '1'
  {
    if s == "" || s[0] != '1' then 0 else 1 + LeadingOnes(s[1..])
  }

  function LeadingZeros(b: bytes): (k: nat)
    ensures k <= |b| && forall i :: 0 <= i < k ==> b[i] == 0
    ensures k < |b| ==> b[k] != 0
  {
    if b == [] || b[0] != 0 then 0 else 1 + LeadingZeros(b[1..])
  }

  function Ones(k: nat): (s: string)
    ensures |s| == k && forall i :: 0 <= i < k ==> s[i] == '1'
  {
    seq(k, i => '1')
  }

  function Encode(b: bytes): string { Ones(LeadingZeros(b)) + Digits(BEVal(b)) }

  /** The bytes both decoders build before fitting them to a length. */
  function Full(s: string): bytes
    requires ValidText(s)
  {
    Zeros(LeadingOnes(s)) + Body(Value(s))
  }

  /** Right-aligned in n bytes, losing high-order bytes. */
  function KeepLast(b: bytes, n: nat): (r: bytes)
    ensures |r| == n
  {
    if |b| >= n then b[|b| - n..] else Zeros(n - |b|) + b
  }

  /** Right-aligned in n bytes, losing low-order bytes. */
  function KeepFirst(b: bytes, n: nat): (r: bytes)
    ensures |r| == n
  {
    if |b| >= n then b[..n] else Zeros(n - |b|) + b
  }

  function DccId(id: string): (r: bytes)
    ensures |r| == 32
  {
    if id == "" || !ValidText(id) then Zeros(32) else KeepLast(Full(id), 32)
  }

  // --------------------------------------------------------------------------
  // The three routines
  // --------------------------------------------------------------------------

  /** Counts the characters '1' at the front. */
  method CountLeadingOnes(s: string) returns (k: nat)
    ensures k == LeadingOnes(s)
  {
    k := 0;
    while k < |s| && s[k] == '1'
      invariant k <= |s| && forall i :: 0 <= i < k ==> s[i] == '1'
    {
      k := k + 1;
    }
  }

  /** An unparseable or empty id decodes to 32 zero bytes. */
  method DccIdToBytes32(id: string) returns (out: bytes)
    ensures out == DccId(id)
  {
    hide Digit, Body;
    out := Zeros(32);
    if id == "" {
      return;
    }
    var n: nat := 0;
    for k := 0 to |id|
      invariant ValidText(id[..k]) && n == Value(id[..k])
    {
      var i := Digit(id[k]);
      if i < 0 {
        return;
      }
      assert id[..k + 1][..k] == id[..k];
      n := n * 58 + i;
    }
    assert id[..|id|] == id;
    var leadingZeros := CountLeadingOnes(id);
    var full := Zeros(leadingZeros) + Body(n);
    var at, from := Max(0, 32 - |full|), Max(0, |full| - 32);
    out := out[..at] + full[from..];
    hide Value, ValidText;
    assert full == Full(id) && out == KeepLast(full, 32);
  }

  /** None is the "Invalid base58 character" error. */
  method Base58ToBytes(b58: string, targetLen: nat) returns (r: Option<bytes>)
    ensures r == if ValidText(b58) then Some(KeepFirst(Full(b58), targetLen)) else None
  {
    hide Digit, Body;
    var num: nat := 0;
    for k := 0 to |b58|
      invariant ValidText(b58[..k]) && num == Value(b58[..k])
    {
      var idx := Digit(b58[k]);
      if idx < 0 {
        return None;
      }
      assert b58[..k + 1][..k] == b58[..k];
      num := num * 58 + idx;
    }
    assert b58[..|b58|] == b58;
    var rawBytes := Body(num);
    var leadingZeros := CountLeadingOnes(b58);
    var startOffset := Max(0, targetLen - (leadingZeros + |rawBytes|));
    var rawStart := startOffset + leadingZeros;
    var result := Zeros(targetLen);
    var i := 0;
    while i < |rawBytes| && rawStart + i < targetLen
      invariant i <= |rawBytes| && |result| == targetLen
      invariant i > 0 ==> rawStart + i <= targetLen
      invariant forall k :: 0 <= k < targetLen ==>
                  result[k] == if rawStart <= k < rawStart + i then rawBytes[k - rawStart] else 0
    {
      result := result[rawStart + i := rawBytes[i]];
      i := i + 1;
    }
    var full := Full(b58);
    assert forall k :: 0 <= k < |full| ==> full[k] == if k < leadingZeros then 0 else rawBytes[k - leadingZeros];
    assert result == KeepFirst(full, targetLen);
    return Some(result);
  }

  /** None is the error of parsing "0x" with no digits. */
  method EncodeBytes(b: bytes) returns (r: Option<string>)
    ensures r == if b == [] then None else Some(Encode(b))
  {
    if b == [] {
      return None;
    }
    var num := BEVal(b);
    var b58 := "";
    while num > 0
      invariant Digits(num) + b58 == Digits(BEVal(b))
    {
      assert Digits(num) + b58 == Digits(num / 58) + ([Char(num % 58)] + b58);
      b58 := [Char(num % 58)] + b58;
      num := num / 58;
    }
    var j := 0;
    while j < |b| && b[j] == 0
      invariant j <= |b| && forall i :: 0 <= i < j ==> b[i] == 0
      invariant b58 == Ones(j) + Digits(BEVal(b))
    {
      b58 := "1" + b58;
      j := j + 1;
    }
    assert j == LeadingZeros(b);
    EncodeNonEmpty(b);
    return Some(if b58 != "" then b58 else "1");
  }

  // --------------------------------------------------------------------------
  // Decoding undoes encoding
  // --------------------------------------------------------------------------

  lemma {:induction false} BEValSplit(a: bytes, b: bytes)
    ensures BEVal(a + b) == BEVal(a) * Pow256(|b|) + BEVal(b)
  {
    if b == [] {
      assert a + b == a;
    } else {
      var b' := b[..|b| - 1];
      assert (a + b)[..|a + b| - 1] == a + b';
      BEValSplit(a, b');
      assert 256 * (BEVal(a) * Pow256(|b'|)) == BEVal(a) * Pow256(|b|);
    }
  }

  lemma {:induction false} BEValZeros(k: nat)
    ensures BEVal(Zeros(k)) == 0
  {
    if k > 0 {
      BEValZeros(k - 1);
      assert Zeros(k)[..k - 1] == Zeros(k - 1);
    }
  }

  lemma {:induction false} BEValPositive(b: bytes)
    ensures BEVal(b) > 0 <==> LeadingZeros(b) < |b|
  {
    if LeadingZeros(b) == |b| {
      assert b == Zeros(|b|);
      BEValZeros(|b|);
    } else {
      var k := LeadingZeros(b);
      assert b == b[..k + 1] + b[k + 1..];
      BEValSplit(b[..k + 1], b[k + 1..]);
      assert BEVal(b[..k + 1]) >= b[k];
    }
  }

  lemma {:induction false} EncodeNonEmpty(b: bytes)
    requires b != []
    ensures Encode(b) != ""
  {
    BEValPositive(b);
  }

  /** A single zero byte is written as "1". */
  lemma EncodeOfZero()
    ensures Encode([0]) == "1"
  {
    BEValZeros(1);
    assert LeadingZeros([0][1..]) == 0;
    assert [0] == Zeros(1);
  }

  lemma {:induction false} ValueOfDigits(n: nat)
    ensures Value(Digits(n)) == n
  {
    DigitInverse('1');
    if n > 0 {
      ValueOfDigits(n / 58);
      assert Digits(n)[..|Digits(n)| - 1] == Digits(n / 58);
    }
  }

  lemma {:induction false} DigitsDoNotStartWithOne(n: nat)
    requires n > 0
    ensures Digits(n) != "" && Digits(n)[0] != '1'
  {
    if n >= 58 {
      DigitsDoNotStartWithOne(n / 58);
    } else {
      assert Digits(n) == [Char(n)];
    }
  }

  lemma {:induction false} ValueIgnoresOnes(k: nat, s: string)
    requires ValidText(s)
    ensures ValidText(Ones(k) + s) && Value(Ones(k) + s) == Value(s)
  {
    var t := Ones(k) + s;
    if s != "" {
      assert t[..|t| - 1] == Ones(k) + s[..|s| - 1];
      ValueIgnoresOnes(k, s[..|s| - 1]);
    } else if k > 0 {
      assert t[..|t| - 1] == Ones(k - 1) + s;
      ValueIgnoresOnes(k - 1, s);
    }
  }

  /** Bytes without a leading zero are the shortest bytes of their value. */
  lemma {:induction false} BodyOfValue(b: bytes)
    requires b != [] && (b[0] != 0 || |b| == 1)
    ensures Body(BEVal(b)) == b
  {
    var init := b[..|b| - 1];
    if |b| == 1 {
      assert BEVal(init) == 0;
      assert b == [b[0]];
    } else {
      BodyOfValue(init);
      BEValPositive(init);
      assert BEVal(b) >= 256 && BEVal(b) / 256 == BEVal(init) && BEVal(b) % 256 == b[|b| - 1];
      assert b == init + [b[|b| - 1]];
    }
  }

  lemma {:induction false} ValueOfBody(n: nat)
    ensures BEVal(Body(n)) == n
    ensures n > 0 ==> Body(n)[0] != 0
  {
    if n >= 256 {
      ValueOfBody(n / 256);
      assert Body(n)[..|Body(n)| - 1] == Body(n / 256);
    } else {
      assert BEVal([n][..0]) == 0;
    }
  }

  lemma {:induction false} OnesThenDigits(k: nat, n: nat)
    ensures LeadingOnes(Ones(k) + Digits(n)) == k
  {
    if n > 0 {
      DigitsDoNotStartWithOne(n);
      var s := Ones(k) + Digits(n);
      assert s[k] != '1';
    }
  }

  /** The decoded bytes are the encoded ones, with one extra zero when all are zero. */
  lemma {:induction false} FullOfEncode(b: bytes)
    requires b != []
    ensures ValidText(Encode(b))
    ensures Full(Encode(b)) == if LeadingZeros(b) == |b| then b + [0] else b
  {
    var k := LeadingZeros(b);
    ValueIgnoresOnes(k, Digits(BEVal(b)));
    ValueOfDigits(BEVal(b));
    OnesThenDigits(k, BEVal(b));
    BEValPositive(b);
    if k < |b| {
      assert b == Zeros(k) + b[k..];
      BEValSplit(Zeros(k), b[k..]);
      BEValZeros(k);
      BodyOfValue(b[k..]);
    }
  }

  lemma {:induction false} KeepLastOfZeroTail(b: bytes, n: nat)
    requires |b| <= n
    ensures KeepLast(b, n) == Zeros(n - |b|) + b
    ensures LeadingZeros(b) == |b| ==> KeepLast(b + [0], n) == Zeros(n - |b|) + b
  {
    if LeadingZeros(b) == |b| {
      assert b + [0] == Zeros(|b| + 1);
      assert b == Zeros(|b|);
      assert KeepLast(b + [0], n) == Zeros(n);
      assert Zeros(n - |b|) + b == Zeros(n);
    }
  }

  lemma {:induction false} KeepFirstOfZeroTail(b: bytes, n: nat)
    requires |b| <= n
    ensures KeepFirst(b, n) == Zeros(n - |b|) + b
    ensures LeadingZeros(b) == |b| ==> KeepFirst(b + [0], n) == Zeros(n - |b|) + b
  {
    if LeadingZeros(b) == |b| {
      assert b + [0] == Zeros(|b| + 1);
      assert b == Zeros(|b|);
      assert KeepFirst(b + [0], n) == Zeros(n);
      assert Zeros(n - |b|) + b == Zeros(n);
    }
  }

  lemma {:induction false} DccIdDecodesEncoding(b: bytes)
    requires 1 <= |b| <= 32
    ensures DccId(Encode(b)) == Zeros(32 - |b|) + b
  {
    hide Encode, Full, LeadingZeros;
    FullOfEncode(b);
    EncodeNonEmpty(b);
    KeepLastOfZeroTail(b, 32);
  }

  /** Decoding to at least the original length gives the original bytes, leading zeros included. */
  lemma {:induction false} Base58ToBytesDecodesEncoding(b: bytes, targetLen: nat)
    requires 1 <= |b| <= targetLen
    ensures ValidText(Encode(b)) && KeepFirst(Full(Encode(b)), targetLen) == Zeros(targetLen - |b|) + b
  {
    hide Encode, Full, LeadingZeros;
    FullOfEncode(b);
    KeepFirstOfZeroTail(b, targetLen);
  }

  lemma {:induction false} EncodeInjective(a: bytes, b: bytes)
    requires a != [] && b != [] && Encode(a) == Encode(b)
    ensures a == b
  {
    FullOfEncode(a);
    FullOfEncode(b);
    BEValPositive(a);
    BEValPositive(b);
    var f := Full(Encode(a));
    if LeadingZeros(a) == |a| {
      assert a == f[..|f| - 1];
      assert f == Zeros(|f|);
      assert LeadingZeros(b) == |b|;
      assert b == f[..|f| - 1];
    }
  }

  /** Encoding undoes decoding exactly on the texts whose value is not zero. */
  lemma {:induction false} EncodeOfFull(s: string)
    requires ValidText(s)
    ensures Encode(Full(s)) == s <==> Value(s) > 0
  {
    if Value(s) > 0 {
      EncodeOfPositive(s);
    } else {
      AllOnes(s);
      assert Full(s) == Zeros(|s| + 1);
      AllZerosLonger(|s| + 1);
    }
  }

  lemma {:induction false} AllZerosLonger(n: nat)
    ensures |Encode(Zeros(n))| >= n
  {
    var z := Zeros(n);
    if LeadingZeros(z) < n {
      assert z[LeadingZeros(z)] == 0;
    }
  }

  lemma {:induction false} EncodeOfPositive(s: string)
    requires ValidText(s) && Value(s) > 0
    ensures Encode(Full(s)) == s
  {
    var k := LeadingOnes(s);
    FullValue(s);
    ValueOfBody(Value(s));
    assert Full(s)[k] != 0;
    assert LeadingZeros(Full(s)) == k;
    assert s == Ones(k) + s[k..];
    ValueIgnoresOnes(k, s[k..]);
    assert s[k..] != "";
    DigitsOfValue(s[k..]);
  }

  lemma DigitsSnoc(m: nat, d: nat)
    requires d < 58 && (m > 0 || d > 0)
    ensures Digits(m * 58 + d) == Digits(m) + [Char(d)]
  {
    assert (m * 58 + d) / 58 == m && (m * 58 + d) % 58 == d;
  }

  lemma DigitsOfZero()
    ensures Digits(0) == "" && Value("") == 0
  {}

  lemma ValueSnoc(s: string, c: char)
    requires ValidText(s) && Digit(c) >= 0
    ensures ValidText(s + [c]) && Value(s + [c]) == Value(s) * 58 + Digit(c)
  {
    assert (s + [c])[..|s|] == s;
  }

  lemma {:induction false} DigitsOfValue(s: string)
    requires ValidText(s) && s != "" && s[0] != '1'
    ensures Digits(Value(s)) == s && Value(s) > 0
  {
    hide Digit, Char, Value, Digits;
    var init, last := s[..|s| - 1], s[|s| - 1];
    DigitInverse(last);
    assert s == init + [last];
    if |s| > 1 {
      DigitsOfValue(init);
    } else {
      assert init == "" && Digit(last) != 0;
      DigitsOfZero();
    }
    ValueSnoc(init, last);
    DigitsSnoc(Value(init), Digit(last));
  }

  // --------------------------------------------------------------------------
  // What an id decodes to
  // --------------------------------------------------------------------------

  lemma MulAtLeast(k: int, p: int)
    requires p > 0 && k >= 1
    ensures k * p >= p
  {}

  lemma MulSmall(k: int, p: int)
    requires -p < k * p < p
    ensures k == 0
  {
    if k >= 1 {
      MulAtLeast(k, p);
    } else if k <= -1 {
      MulAtLeast(-k, p);
    }
  }

  lemma RemainderUnique(q: int, r: int, q': int, r': int, p: int)
    requires 0 <= r < p && 0 <= r' < p && q * p + r == q' * p + r'
    ensures r == r'
  {
    assert (q - q') * p == r' - r;
    MulSmall(q - q', p);
  }

  lemma DivMod(x: int, p: int)
    requires p > 0
    ensures x == (x / p) * p + x % p
  {}

  lemma ModOfSum(q: nat, p: nat, r: nat)
    requires r < p
    ensures (q * p + r) % p == r
  {
    var x := q * p + r;
    DivMod(x, p);
    RemainderUnique(q, r, x / p, x % p, p);
  }

  lemma {:induction false} KeepLastValue(b: bytes, n: nat)
    ensures BEVal(KeepLast(b, n)) == BEVal(b) % Pow256(n)
  {
    BEValBound(KeepLast(b, n));
    if |b| >= n {
      var cut := |b| - n;
      assert b == b[..cut] + b[cut..];
      BEValSplit(b[..cut], b[cut..]);
      ModOfSum(BEVal(b[..cut]), Pow256(n), BEVal(b[cut..]));
    } else {
      BEValSplit(Zeros(n - |b|), b);
      BEValZeros(n - |b|);
      ModOfSum(0, Pow256(n), BEVal(b));
    }
  }

  lemma {:induction false} FullValue(s: string)
    requires ValidText(s)
    ensures BEVal(Full(s)) == Value(s)
  {
    BEValSplit(Zeros(LeadingOnes(s)), Body(Value(s)));
    BEValZeros(LeadingOnes(s));
    ValueOfBody(Value(s));
  }

  /** The 32 bytes are the base-58 value modulo 256^32, for every valid text. */
  lemma {:induction false} DccIdValue(s: string)
    requires s != "" && ValidText(s)
    ensures BEVal(DccId(s)) == Value(s) % Pow256(32)
  {
    FullValue(s);
    KeepLastValue(Full(s), 32);
  }

  /** The two decoders agree on an id exactly when cutting it to 32 bytes loses nothing either way. */
  lemma DecodersAgree(s: string)
    requires s != "" && ValidText(s)
    ensures |Full(s)| <= 32 ==> KeepFirst(Full(s), 32) == DccId(s)
    ensures |Full(s)| > 32 ==> (KeepFirst(Full(s), 32) == DccId(s) <==> Full(s)[..32] == Full(s)[|Full(s)| - 32..])
  {
    assert |Full(s)| == 32 ==> Full(s)[..32] == Full(s)[0..];
  }

  /** Distinct ids of exactly 32 bytes never share an encoding. */
  lemma {:induction false} DccIdInjective(s: string, t: string)
    requires ValidText(s) && ValidText(t) && |Full(s)| == |Full(t)| == 32
    requires DccId(s) == DccId(t)
    ensures s == t
  {
    assert Full(s) == Full(t);
    FullValue(s);
    FullValue(t);
    if Value(s) > 0 {
      EncodeOfFull(s);
      EncodeOfFull(t);
    } else {
      AllOnes(s);
      AllOnes(t);
    }
  }

  lemma {:induction false} AllOnes(s: string)
    requires ValidText(s) && Value(s) == 0
    ensures s == Ones(|s|) && LeadingOnes(s) == |s|
  {
    var k := LeadingOnes(s);
    if k < |s| {
      assert s == Ones(k) + s[k..];
      ValueIgnoresOnes(k, s[k..]);
      DigitsOfValue(s[k..]);
    }
  }

  // --------------------------------------------------------------------------
  // A recipient address through its 32-byte field
  // --------------------------------------------------------------------------

  /** The 32-byte field the deposit stores: decoded bytes, zero-filled on the right. */
  function PadRight(d: bytes): bytes
    requires |d| <= 32
  {
    d + Zeros(32 - |d|)
  }

  /** Index after the last byte kept: trailing zeros go, but one byte always stays. */
  function Kept(b: bytes): (n: nat)
    ensures n <= |b| && (b != [] ==> n >= 1)
    ensures n > 1 ==> b[n - 1] != 0
    ensures forall i :: n <= i < |b| ==> b[i] == 0
  {
    if |b| <= 1 || b[|b| - 1] != 0 then |b| else Kept(b[..|b| - 1])
  }

  /** The recipient text that goes into a mint message; None when the field is empty. */
  function RecipientText(field: bytes): Option<string> {
    if field == [] then None else Some(Encode(field[..Kept(field)]))
  }

  method RecipientFromField(field: bytes) returns (r: Option<string>)
    ensures r == RecipientText(field)
  {
    var lastNonZero := |field| - 1;
    while lastNonZero > 0 && field[lastNonZero] == 0
      invariant -1 <= lastNonZero < |field| && (field != [] ==> lastNonZero >= 0)
      invariant forall i :: lastNonZero < i < |field| ==> field[i] == 0
    {
      lastNonZero := lastNonZero - 1;
    }
    KeptUnique(field, lastNonZero + 1);
    r := EncodeBytes(field[..lastNonZero + 1]);
  }

  lemma KeptUnique(b: bytes, n: nat)
    requires n <= |b| && (b != [] ==> n >= 1) && (n > 1 ==> b[n - 1] != 0)
    requires forall i :: n <= i < |b| ==> b[i] == 0
    ensures n == Kept(b)
  {
    if b != [] {
      assert b[Kept(b) - 1] == 0 ==> Kept(b) == 1;
      assert b[n - 1] == 0 ==> n == 1;
    }
  }

  /** The address survives exactly when its last decoded byte is not zero, or it is the single byte 0. */
  lemma {:induction false} AddressSurvives(d: bytes)
    requires 1 <= |d| <= 32
    ensures RecipientText(PadRight(d)) == Some(Encode(d)) <==> d[|d| - 1] != 0 || d == [0]
  {
    var field := PadRight(d);
    var kept := field[..Kept(field)];
    if d[|d| - 1] != 0 || d == [0] {
      KeptUnique(field, |d|);
      assert kept == d;
    } else {
      assert field[|d| - 1] == 0;
      assert Kept(field) != |d|;
      if Encode(kept) == Encode(d) {
        EncodeInjective(kept, d);
      }
    }
  }
}
