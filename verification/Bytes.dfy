/** Byte strings, fixed-width integers, shifts and hexadecimal text. */
module Bytes {

  type byte = x: int | 0 <= x < 256
  type bytes = seq<byte>

  const U32: int := 0x1_0000_0000
  const U64: int := 0x1_0000_0000_0000_0000

  predicate IsU32(v: int) { 0 <= v < U32 }
  predicate IsU64(v: int) { 0 <= v < U64 }
  predicate IsI64(v: int) { -U64 / 2 <= v < U64 / 2 }

  function Zeros(n: nat): (r: bytes)
    ensures |r| == n && forall i :: 0 <= i < n ==> r[i] == 0
  {
    seq(n, i => 0)
  }

  /** The first n bytes, zero-filled when there are fewer. */
  function Fit(b: bytes, n: nat): (r: bytes)
    ensures |r| == n && (|b| == n ==> r == b)
  {
    (b + Zeros(n))[..n]
  }

  function Min(a: nat, b: nat): nat { if a < b then a else b }
  function Max(a: int, b: int): int { if a < b then b else a }

  // --------------------------------------------------------------------------
  // Integers as byte strings
  // --------------------------------------------------------------------------

  function Pow2(n: nat): (p: nat)
    ensures p >= 1
  {
    if n == 0 then 1 else 2 * Pow2(n - 1)
  }

  lemma Pow2Step(n: nat)
    ensures Pow2(0) == 1 && Pow2(n + 1) == 2 * Pow2(n)
  {}

  function Pow256(n: nat): (p: nat)
    ensures p >= 1
  {
    if n == 0 then 1 else 256 * Pow256(n - 1)
  }

  /** The n low-order bytes of v, least significant first: two's complement when v is negative. */
  function LE(v: int, n: nat): (r: bytes)
    ensures |r| == n
    decreases n
  {
    if n == 0 then [] else [v % 256] + LE(v / 256, n - 1)
  }

  function LEVal(b: bytes): nat {
    if b == [] then 0 else b[0] + 256 * LEVal(b[1..])
  }

  /** Eight bytes as a signed number. */
  function I64(b: bytes): int
    requires |b| == 8
  {
    if b[7] < 128 then LEVal(b) else LEVal(b) - 0x1_0000_0000_0000_0000
  }

  function BEVal(b: bytes): nat {
    if b == [] then 0 else 256 * BEVal(b[..|b| - 1]) + b[|b| - 1]
  }

  function Reverse<T>(s: seq<T>): (r: seq<T>)
    ensures |r| == |s| && forall i :: 0 <= i < |s| ==> r[i] == s[|s| - 1 - i]
  {
    if s == [] then [] else Reverse(s[1..]) + [s[0]]
  }

  lemma {:induction false} LEValBound(b: bytes)
    ensures LEVal(b) < Pow256(|b|)
  {
    if b != [] {
      LEValBound(b[1..]);
    }
  }

  lemma {:induction false} BEValBound(b: bytes)
    ensures BEVal(b) < Pow256(|b|)
  {
    if b != [] {
      BEValBound(b[..|b| - 1]);
    }
  }

  /** Reading back what was written gives the value again when it fits. */
  lemma {:induction false} LERoundTrip(v: nat, n: nat)
    requires v < Pow256(n)
    ensures LEVal(LE(v, n)) == v
    decreases n
  {
    if n > 0 {
      LERoundTrip(v / 256, n - 1);
    }
  }

  /** Adding 256^n, as the writers of signed integers do, does not change the n low bytes. */
  lemma {:induction false} LEWraps(v: int, n: nat)
    ensures LE(v + Pow256(n), n) == LE(v, n)
    decreases n
  {
    if n > 0 {
      var p := Pow256(n - 1);
      assert (v + 256 * p) / 256 == v / 256 + p && (v + 256 * p) % 256 == v % 256;
      LEWraps(v / 256, n - 1);
    }
  }

  lemma {:induction false} LEOfVal(b: bytes)
    ensures LE(LEVal(b), |b|) == b
  {
    if b != [] {
      LEOfVal(b[1..]);
      var low: int := b[0];
      DivideOff(low, LEVal(b[1..]));
      assert LE(LEVal(b), |b|) == [low] + LE(LEVal(b[1..]), |b| - 1);
    }
  }

  /** The last digit in base 256 and the rest. */
  lemma DivideOff(low: nat, rest: nat)
    requires low < 256
    ensures (low + 256 * rest) % 256 == low && (low + 256 * rest) / 256 == rest
  {}

  lemma {:induction false} LEInjective(v: nat, w: nat, n: nat)
    requires v < Pow256(n) && w < Pow256(n) && LE(v, n) == LE(w, n)
    ensures v == w
  {
    LERoundTrip(v, n);
    LERoundTrip(w, n);
  }

  lemma {:induction false} BEOfReverse(b: bytes)
    ensures BEVal(Reverse(b)) == LEVal(b)
  {
    if b != [] {
      BEOfReverse(b[1..]);
      assert Reverse(b)[..|b| - 1] == Reverse(b[1..]);
    }
  }

  lemma PowU32()
    ensures Pow256(4) == U32
  {
    assert Pow256(2) == 65536;
    assert Pow256(3) == 0x100_0000;
  }

  lemma PowU64()
    ensures Pow256(8) == U64
  {
    PowU32();
    assert Pow256(6) == 65536 * U32;
  }

  lemma {:induction false} SignedReads(v: int)
    requires IsI64(v)
    ensures I64(LE(v, 8)) == v
  {
    hide LE, LEVal;
    PowU64();
    LEWraps(v, 8);
    var w := if v < 0 then v + U64 else v;
    LERoundTrip(w, 8);
    TopByte(LE(w, 8));
  }

  /** The last of eight bytes tells on which side of 2^63 the number is. */
  lemma {:induction false} TopByte(b: bytes)
    requires |b| == 8
    ensures b[7] < 128 <==> LEVal(b) < U64 / 2
  {
    hide LEVal;
    LEValSnoc(b[..7], b[7]);
    assert b == b[..7] + [b[7]];
    LEValBound(b[..7]);
    PowU32();
    assert Pow256(6) == 65536 * U32;
    assert Pow256(7) == 0x100_0000_0000_0000;
  }

  lemma {:induction false} LEValSnoc(b: bytes, x: byte)
    ensures LEVal(b + [x]) == LEVal(b) + x * Pow256(|b|)
  {
    if b == [] {
      assert LEVal([x][1..]) == 0;
    } else {
      assert (b + [x])[1..] == b[1..] + [x];
      LEValSnoc(b[1..], x);
      var y: int := x;
      assert 256 * (y * Pow256(|b| - 1)) == y * Pow256(|b|);
    }
  }

  // --------------------------------------------------------------------------
  // Shifts. An arithmetic right shift halves and rounds down, so it is defined
  // on negative numbers as well; `x & 0xff` is the Euclidean x % 256.
  // --------------------------------------------------------------------------

  function Shr(v: int, k: nat): int
    decreases k
  {
    if k == 0 then v else Shr(v / 2, k - 1)
  }

  /** JavaScript's ToInt32: the signed 32-bit reading of a number. */
  function ToInt32(v: int): (r: int)
    ensures -U32 / 2 <= r < U32 / 2
  {
    var m := v % U32;
    if m < U32 / 2 then m else m - U32
  }

  /** JavaScript's `>>> 0`. */
  function ToUint32(v: int): (r: int)
    ensures IsU32(r)
  {
    v % U32
  }

  lemma {:induction false} Shr8(v: int, k: nat)
    ensures Shr(v, k + 8) == Shr(v / 256, k)
  {
    var a := v / 2;
    var b := a / 2;
    var c := b / 2;
    var d := c / 2;
    assert Shr(v, k + 8) == Shr(a, k + 7) == Shr(b, k + 6) == Shr(c, k + 5) == Shr(d, k + 4);
    var e := d / 2;
    var f := e / 2;
    var g := f / 2;
    assert Shr(d, k + 4) == Shr(e, k + 3) == Shr(f, k + 2) == Shr(g, k + 1) == Shr(g / 2, k);
  }

  /** Byte i of an integer, as the encoders compute it: shift right by 8i, mask. */
  lemma {:induction false} LEByte(v: int, n: nat, i: nat)
    requires i < n
    ensures LE(v, n)[i] == Shr(v, 8 * i) % 256
    decreases i
  {
    if i == 0 {
      assert LE(v, n)[0] == v % 256 && Shr(v, 0) == v;
    } else {
      hide Shr;
      Shr8(v, 8 * (i - 1));
      LEByte(v / 256, n - 1, i - 1);
      assert LE(v, n)[i] == LE(v / 256, n - 1)[i - 1];
      assert 8 * (i - 1) + 8 == 8 * i;
    }
  }

  // --------------------------------------------------------------------------
  // Concatenation
  // --------------------------------------------------------------------------

  lemma SplitEqual<T>(a: seq<T>, b: seq<T>, c: seq<T>, d: seq<T>)
    requires |a| == |c| && a + b == c + d
    ensures a == c && b == d
  {
    assert a == (a + b)[..|a|];
    assert c == (c + d)[..|c|];
    assert b == (a + b)[|a|..];
    assert d == (c + d)[|c|..];
  }

  function Concat<T>(parts: seq<seq<T>>): seq<T> {
    if parts == [] then [] else parts[0] + Concat(parts[1..])
  }

  lemma {:induction false} ConcatSnoc<T>(parts: seq<seq<T>>, p: seq<T>)
    ensures Concat(parts + [p]) == Concat(parts) + p
  {
    if parts == [] {
      assert parts + [p] == [p];
      assert Concat([p]) == p + Concat([]);
    } else {
      assert (parts + [p])[1..] == parts[1..] + [p];
      ConcatSnoc(parts[1..], p);
    }
  }

  // --------------------------------------------------------------------------
  // Hexadecimal text
  // --------------------------------------------------------------------------

  function HexDigit(d: nat): char
    requires d < 16
  {
    if d < 10 then ('0' as int + d) as char else ('a' as int + d - 10) as char
  }

  /** The text of a byte string: two lower-case digits a byte, the high one first. */
  lemma {:induction false} HexText(b: bytes, i: nat)
    requires i < |b|
    ensures var digits := "0123456789abcdef";
            Hex(b)[2 * i] == digits[b[i] / 16] && Hex(b)[2 * i + 1] == digits[b[i] % 16]
  {
    if i > 0 {
      HexText(b[1..], i - 1);
    } else {
      HexDigitText(b[0] / 16);
      HexDigitText(b[0] % 16);
    }
  }

  lemma HexDigitText(d: nat)
    requires d < 16
    ensures HexDigit(d) == "0123456789abcdef"[d]
  {}

  lemma HexDigitInjective(d: nat, e: nat)
    requires d < 16 && e < 16 && HexDigit(d) == HexDigit(e)
    ensures d == e
  {}

  function Hex(b: bytes): (s: string)
    ensures |s| == 2 * |b|
  {
    if b == [] then "" else [HexDigit(b[0] / 16), HexDigit(b[0] % 16)] + Hex(b[1..])
  }

  /** Two byte strings print the same hex exactly when they are the same. */
  lemma {:induction false} HexInjective(a: bytes, b: bytes)
    ensures Hex(a) == Hex(b) <==> a == b
  {
    if Hex(a) == Hex(b) && a != [] {
      assert |a| == |b|;
      var ha, hb := Hex(a), Hex(b);
      assert ha[0] == hb[0] && ha[1] == hb[1];
      HexDigitInjective(a[0] / 16, b[0] / 16);
      HexDigitInjective(a[0] % 16, b[0] % 16);
      assert ha[2..] == Hex(a[1..]) && hb[2..] == Hex(b[1..]);
      HexInjective(a[1..], b[1..]);
      assert a == [a[0]] + a[1..];
      assert b == [b[0]] + b[1..];
    }
  }
}
