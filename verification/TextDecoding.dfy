/**
 * `TextDecoder`, the platform's UTF-8 decoder (section 8.1.1 of the WHATWG Encoding Standard): it drops
 * a leading byte-order mark and puts U+FFFD in the place of what is not UTF-8.
 */
module TextDecoding {
  import opened Bytes
  import opened Messages

  const REPLACEMENT: char := '\U{FFFD}'
  const MARK: char := '\U{FEFF}'
  const MARK_BYTES: bytes := [0xEF, 0xBB, 0xBF]

  predicate Continues(b: byte) { 0x80 <= b <= 0xBF }

  function Sextet(b: byte): int {
    var v: int := b;
    v - 0x80
  }

  /** What may follow a lead byte: no overlong forms, no surrogates, nothing above U+10FFFF. */
  predicate Follows(lead: byte, second: byte) {
    && Continues(second)
    && (lead == 0xE0 ==> second >= 0xA0) && (lead == 0xED ==> second <= 0x9F)
    && (lead == 0xF0 ==> second >= 0x90) && (lead == 0xF4 ==> second <= 0x8F)
  }

  /** The next character and the bytes it takes. */
  function TakeChar(b: bytes): (r: (char, nat))
    requires b != []
    ensures 1 <= r.1 <= |b|
  {
    var lead: int := b[0];
    if lead < 0x80 then (lead as char, 1)
    else if lead < 0xC2 || lead > 0xF4 || |b| < 2 || !Follows(lead, b[1]) then (REPLACEMENT, 1)
    else if lead < 0xE0 then (((lead - 0xC0) * 64 + Sextet(b[1])) as char, 2)
    else if |b| < 3 || !Continues(b[2]) then (REPLACEMENT, 2)
    else if lead < 0xF0 then (((lead - 0xE0) * 4096 + Sextet(b[1]) * 64 + Sextet(b[2])) as char, 3)
    else if |b| < 4 || !Continues(b[3]) then (REPLACEMENT, 3)
    else (((lead - 0xF0) * 262144 + Sextet(b[1]) * 4096 + Sextet(b[2]) * 64 + Sextet(b[3])) as char, 4)
  }

  function DecodeAll(b: bytes): string {
    if b == [] then ""
    else
      var (c, n) := TakeChar(b);
      [c] + DecodeAll(b[n..])
  }

  predicate HasMark(b: bytes) { |b| >= 3 && b[..3] == MARK_BYTES }

  function TextDecode(b: bytes): string { DecodeAll(if HasMark(b) then b[3..] else b) }

  lemma {:induction false} CharTaken(c: char, rest: bytes)
    ensures TakeChar(Utf8Char(c) + rest) == (c, |Utf8Char(c)|)
  {
    var n, u := c as int, Utf8Char(c);
    hide Utf8Decode;
    assert (u + rest)[..|u|] == u;
    if n >= 0x1_0000 {
      assert n == n / 262144 * 262144 + n / 4096 % 64 * 4096 + n / 64 % 64 * 64 + n % 64 by { Sextets(n); }
    } else if n >= 0x800 {
      assert n == n / 4096 * 4096 + n / 64 % 64 * 64 + n % 64 by { Sextets(n); }
    }
  }

  /** A well-formed character at the front. */
  predicate Complete(b: bytes) {
    && b != []
    && (b[0] < 0x80
        || (0xC2 <= b[0] <= 0xF4 && |b| >= 2 && Follows(b[0], b[1])
            && (b[0] < 0xE0 || (|b| >= 3 && Continues(b[2]) && (b[0] < 0xF0 || (|b| >= 4 && Continues(b[3])))))))
  }

  lemma {:induction false} CompleteIsEncoded(b: bytes)
    requires Complete(b)
    ensures var (c, n) := TakeChar(b); Utf8Char(c) == b[..n]
  {
    var lead: int := b[0];
    if lead >= 0x80 {
      var x := Sextet(b[1]);
      if lead < 0xE0 {
        Digits64(lead - 0xC0, x);
      } else {
        var y := Sextet(b[2]);
        Digits64((lead - (if lead < 0xF0 then 0xE0 else 0xF0)) * 64 + x, y);
        Digits64(lead - (if lead < 0xF0 then 0xE0 else 0xF0), x);
        if lead >= 0xF0 {
          Digits64((lead - 0xF0) * 4096 + x * 64 + y, Sextet(b[3]));
        }
      }
    }
  }

  lemma Digits64(q: nat, r: nat)
    requires r < 64
    ensures (q * 64 + r) / 64 == q && (q * 64 + r) % 64 == r
  {}

  /** How an encoded character looks. */
  lemma EncodedIsComplete(c: char)
    ensures Complete(Utf8Char(c))
  {
    var n := c as int;
    assert n / 4096 == n / 64 / 64 && n / 262144 == n / 4096 / 64;
  }

  /** Bytes with which no character's encoding begins. */
  ghost predicate Malformed(b: bytes) { forall c: char :: !(Utf8Char(c) <= b) }

  /** Bytes with which the encoding of some character begins. */
  ghost predicate Begins(b: bytes) { exists c: char :: b <= Utf8Char(c) }

  /**
   * Exactly what is not UTF-8 is replaced, by U+FFFD, which stands for the longest stretch that begins some
   * character, or for one byte that begins none.
   */
  lemma {:induction false} MalformedIsReplaced(b: bytes)
    requires b != []
    ensures var (c, n) := TakeChar(b);
            if Malformed(b)
            then c == '\U{FFFD}' && (n == 1 || Begins(b[..n])) && (n < |b| ==> !Begins(b[..n + 1]))
            else Utf8Char(c) <= b && n == |Utf8Char(c)|
  {
    hide Utf8Char;
    var (c, n) := TakeChar(b);
    if !Malformed(b) {
      var d: char :| Utf8Char(d) <= b;
      CharTaken(d, b[|Utf8Char(d)|..]);
      assert b == Utf8Char(d) + b[|Utf8Char(d)|..];
    } else {
      if Complete(b) {
        CompleteIsEncoded(b);
        assert false;
      }
      if n > 1 {
        var full := b[..n] + [0x80, 0x80, 0x80];
        CompleteIsEncoded(full);
        assert b[..n] <= Utf8Char(TakeChar(full).0);
      }
      if n < |b| {
        forall d: char ensures !(b[..n + 1] <= Utf8Char(d)) {
          EncodedIsComplete(d);
        }
      }
    }
  }

  lemma Sextets(n: nat)
    ensures n == n / 64 * 64 + n % 64 && n / 64 == n / 4096 * 64 + n / 64 % 64
    ensures n / 4096 == n / 262144 * 64 + n / 4096 % 64
  {
    assert n / 4096 == n / 64 / 64 && n / 262144 == n / 4096 / 64;
  }

  lemma {:induction false} DecodeUndoesEncode(s: string)
    ensures DecodeAll(Utf8(s)) == s
  {
    hide TakeChar, Utf8Char;
    if s != "" {
      CharTaken(s[0], Utf8(s[1..]));
      assert Utf8(s)[|Utf8Char(s[0])|..] == Utf8(s[1..]);
      DecodeUndoesEncode(s[1..]);
    }
  }

  lemma MarkTaken(b: bytes)
    requires HasMark(b)
    ensures DecodeAll(b) == [MARK] + DecodeAll(b[3..])
  {
    assert Utf8Char(MARK) == MARK_BYTES && b == MARK_BYTES + b[3..];
    CharTaken(MARK, b[3..]);
  }

  /** Encoding and decoding a text gives it back exactly unless it begins with a byte-order mark. */
  lemma {:induction false} TextSurvives(s: string)
    ensures TextDecode(Utf8(s)) == s <==> s == "" || s[0] != MARK
  {
    hide TakeChar;
    var b := Utf8(s);
    DecodeUndoesEncode(s);
    if s != "" && s[0] == MARK {
      assert Utf8Char(MARK) == MARK_BYTES;
      assert b[..3] == MARK_BYTES;
    }
    if HasMark(b) {
      MarkTaken(b);
      assert s[0] == MARK && |DecodeAll(b[3..])| == |s| - 1;
    }
  }

  ghost predicate IsUtf8(b: bytes) { exists s :: Utf8(s) == b }

  /** Decoding and encoding bytes gives them back exactly if they are UTF-8 without a byte-order mark. */
  lemma {:induction false} BytesSurvive(b: bytes)
    ensures Utf8(TextDecode(b)) == b <==> IsUtf8(b) && !HasMark(b)
  {
    hide Utf8, DecodeAll;
    if IsUtf8(b) && !HasMark(b) {
      var s :| Utf8(s) == b;
      DecodeUndoesEncode(s);
    }
    if Utf8(TextDecode(b)) == b && HasMark(b) {
      var s := DecodeAll(b[3..]);
      DecodeUndoesEncode(s);
      MarkTaken(b);
      assert false;
    }
  }
}
