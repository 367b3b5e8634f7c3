/**
 * Well-formed UTF-8: the byte grammar of section 4 of RFC 3629, and its agreement with the bit table
 * of section 3.
 */
module Utf8 {
  import opened Bytes

  predicate Continuation(b: byte) { 0x80 <= b <= 0xBF }

  /** The number of bytes of the well-formed character at the front of `s`, or 0. */
  function CharLength(s: seq<byte>): (n: nat)
    ensures n <= |s| && n <= 4
  {
    if s == [] then 0
    else if s[0] <= 0x7F then 1
    else if |s| >= 2 && 0xC2 <= s[0] <= 0xDF && Continuation(s[1]) then 2
    else if |s| >= 3 && Continuation(s[2]) &&
      (|| (s[0] == 0xE0 && 0xA0 <= s[1] <= 0xBF)
       || (0xE1 <= s[0] <= 0xEC && Continuation(s[1]))
       || (s[0] == 0xED && 0x80 <= s[1] <= 0x9F)
       || (0xEE <= s[0] <= 0xEF && Continuation(s[1]))) then 3
    else if |s| >= 4 && Continuation(s[2]) && Continuation(s[3]) &&
      (|| (s[0] == 0xF0 && 0x90 <= s[1] <= 0xBF)
       || (0xF1 <= s[0] <= 0xF3 && Continuation(s[1]))
       || (s[0] == 0xF4 && 0x80 <= s[1] <= 0x8F)) then 4
    else 0
  }

  predicate ValidUtf8(s: seq<byte>) {
    s == [] || (CharLength(s) > 0 && ValidUtf8(s[CharLength(s)..]))
  }

  // ---------------------------------------------------------------------------------------
  // The encoder

  /** Unicode scalar values: all code points but the surrogates. */
  predicate Scalar(cp: int) { 0 <= cp <= 0x10FFFF && !(0xD800 <= cp <= 0xDFFF) }

  /** The bit table: the leading byte says how many follow, each of which carries six bits. */
  function EncodeChar(cp: int): (s: seq<byte>)
    requires Scalar(cp)
    ensures 1 <= |s| <= 4
  {
    if cp < 0x80 then [cp]
    else if cp < 0x800 then [0xC0 + cp / 64, 0x80 + cp % 64]
    else if cp < 0x1_0000 then [0xE0 + cp / 4096, 0x80 + cp / 64 % 64, 0x80 + cp % 64]
    else [0xF0 + cp / 0x4_0000, 0x80 + cp / 4096 % 64, 0x80 + cp / 64 % 64, 0x80 + cp % 64]
  }

  predicate AllScalar(cps: seq<int>) { forall i :: 0 <= i < |cps| ==> Scalar(cps[i]) }

  function Encode(cps: seq<int>): seq<byte>
    requires AllScalar(cps)
  {
    if cps == [] then [] else EncodeChar(cps[0]) + Encode(cps[1..])
  }

  /** The value carried by a character of `n` bytes. */
  function CodeOf(s: seq<byte>, n: nat): int
    requires 1 <= n <= 4 && n <= |s|
  {
    if n == 1 then s[0]
    else if n == 2 then Join(s[0] as int - 0xC0, s[1])
    else if n == 3 then Join(Join(s[0] as int - 0xE0, s[1]), s[2])
    else Join(Join(Join(s[0] as int - 0xF0, s[1]), s[2]), s[3])
  }

  /** Six more bits, from a continuation byte. */
  function Join(high: int, b: byte): int { high * 64 + (b as int - 0x80) }

  /** Six bits at a time. */
  lemma Sixes(cp: nat)
    ensures cp == cp / 64 * 64 + cp % 64 && cp / 64 == cp / 4096 * 64 + cp / 64 % 64
    ensures cp / 4096 == cp / 0x4_0000 * 64 + cp / 4096 % 64
  {
  }

  /** An encoded scalar value is a character of the grammar, and carries that value. */
  lemma EncodedIsChar(cp: int, t: seq<byte>)
    requires Scalar(cp)
    ensures var s := EncodeChar(cp) + t;
      CharLength(s) == |EncodeChar(cp)| && CodeOf(s, CharLength(s)) == cp && s[CharLength(s)..] == t
  {
    Sixes(cp);
  }

  lemma Joined(high: nat, b: byte)
    requires Continuation(b)
    ensures Join(high, b) / 64 == high && Join(high, b) % 64 == b as int - 0x80
  {
  }

  /** Every character of the grammar is an encoded scalar value. */
  lemma CharIsEncoded(s: seq<byte>)
    requires CharLength(s) > 0
    ensures var n := CharLength(s); Scalar(CodeOf(s, n)) && EncodeChar(CodeOf(s, n)) == s[..n]
  {
    match CharLength(s) {
      case 1 =>
      case 2 => Joined(s[0] as int - 0xC0, s[1]);
      case 3 => ThreeBytes(s);
      case 4 => FourBytes(s);
    }
  }

  lemma ThreeBytes(s: seq<byte>)
    requires CharLength(s) == 3
    ensures Scalar(CodeOf(s, 3)) && EncodeChar(CodeOf(s, 3)) == s[..3]
  {
    var high := Join(s[0] as int - 0xE0, s[1]);
    Joined(s[0] as int - 0xE0, s[1]);
    Joined(high, s[2]);
    Sixes(CodeOf(s, 3));
  }

  lemma FourBytes(s: seq<byte>)
    requires CharLength(s) == 4
    ensures Scalar(CodeOf(s, 4)) && EncodeChar(CodeOf(s, 4)) == s[..4]
  {
    var top := Join(s[0] as int - 0xF0, s[1]);
    var high := Join(top, s[2]);
    Joined(s[0] as int - 0xF0, s[1]);
    Joined(top, s[2]);
    Joined(high, s[3]);
    Sixes(CodeOf(s, 4));
  }

  /** Encoded text is well-formed. */
  lemma {:induction false} EncodedIsValid(cps: seq<int>)
    requires AllScalar(cps)
    ensures ValidUtf8(Encode(cps))
  {
    if cps != [] {
      EncodedIsChar(cps[0], Encode(cps[1..]));
      EncodedIsValid(cps[1..]);
    }
  }

  lemma EncodeCons(cp: int, rest: seq<int>)
    requires Scalar(cp) && AllScalar(rest)
    ensures AllScalar([cp] + rest) && Encode([cp] + rest) == EncodeChar(cp) + Encode(rest)
  {
    assert ([cp] + rest)[1..] == rest;
  }

  lemma FirstChar(s: seq<byte>) returns (cp: int, tail: seq<byte>)
    requires ValidUtf8(s) && s != []
    ensures Scalar(cp) && s == EncodeChar(cp) + tail && ValidUtf8(tail) && |tail| < |s|
  {
    var n := CharLength(s);
    CharIsEncoded(s);
    cp, tail := CodeOf(s, n), s[n..];
    assert s == s[..n] + tail;
  }

  /** Well-formed text is encoded. */
  lemma {:induction false} ValidIsEncoded(s: seq<byte>) returns (cps: seq<int>)
    requires ValidUtf8(s)
    ensures AllScalar(cps) && Encode(cps) == s
    decreases |s|
  {
    if s == [] {
      cps := [];
    } else {
      var cp, tail := FirstChar(s);
      var rest := ValidIsEncoded(tail);
      EncodeCons(cp, rest);
      cps := [cp] + rest;
    }
  }

  /** No two texts have the same encoding. */
  lemma {:induction false} EncodingUnique(a: seq<int>, b: seq<int>)
    requires AllScalar(a) && AllScalar(b) && Encode(a) == Encode(b)
    ensures a == b
  {
    if a == [] || b == [] {
    } else {
      EncodedIsChar(a[0], Encode(a[1..]));
      EncodedIsChar(b[0], Encode(b[1..]));
      EncodingUnique(a[1..], b[1..]);
      assert a == [a[0]] + a[1..] && b == [b[0]] + b[1..];
    }
  }

  /** The string test of the parser accepts exactly the encodings of text, and each of one text only. */
  lemma ValidExactly(s: seq<byte>)
    ensures ValidUtf8(s) <==> exists cps :: AllScalar(cps) && Encode(cps) == s
    ensures forall a, b :: AllScalar(a) && AllScalar(b) && Encode(a) == s && Encode(b) == s ==> a == b
  {
    if ValidUtf8(s) { var cps := ValidIsEncoded(s); }
    if cps :| AllScalar(cps) && Encode(cps) == s { EncodedIsValid(cps); }
    forall a, b | AllScalar(a) && AllScalar(b) && Encode(a) == s && Encode(b) == s ensures a == b {
      EncodingUnique(a, b);
    }
  }
}
