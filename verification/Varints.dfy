/** Base 128 varints (Protocol Buffers Encoding, "Base 128 Varints") and their predicted size. */
module Varints {
  import opened Bytes

  const POW28 := 0x1000_0000
  const POW31 := 0x8000_0000
  const POW32 := 0x1_0000_0000
  const POW35 := 0x8_0000_0000
  const POW64 := 0x1_0000_0000_0000_0000

  /** A value read from the front of a byte string, or a failure. */
  datatype Read<+T> = Fail | Ok(value: T, rest: seq<byte>)

  /** Seven bits a byte, low groups first, the high bit set on all but the last byte. */
  function Varint(v: nat): (s: seq<byte>)
    ensures |s| >= 1
  {
    if v < 128 then [v] else [v % 128 + 128] + Varint(v / 128)
  }

  /** Reads a varint of at most `max` bytes; bits beyond the caller's width are the caller's to drop. */
  function ReadVarint(s: seq<byte>, max: nat): (r: Read<nat>)
    ensures r.Ok? ==> |r.rest| < |s|
  {
    if max == 0 || s == [] then Fail
    else if s[0] < 128 then Ok(s[0], s[1..])
    else
      match ReadVarint(s[1..], max - 1)
      case Fail => Fail
      case Ok(v, rest) => Ok(s[0] as int - 128 + 128 * v, rest)
  }

  /** What was written is read back, and no more is consumed. */
  lemma {:induction false} VarintReadsBack(v: nat, t: seq<byte>, max: nat)
    requires |Varint(v)| <= max
    ensures ReadVarint(Varint(v) + t, max) == Ok(v, t)
  {
    var s := Varint(v) + t;
    if v < 128 {
      assert s[1..] == t;
    } else {
      VarintReadsBack(v / 128, t, max - 1);
      assert s[1..] == Varint(v / 128) + t;
    }
  }

  /** A successful read does not depend on what follows. */
  lemma {:induction false} ReadVarintStable(s: seq<byte>, t: seq<byte>, max: nat)
    requires ReadVarint(s, max).Ok?
    ensures var r := ReadVarint(s, max); ReadVarint(s + t, max) == Ok(r.value, r.rest + t)
  {
    assert (s + t)[1..] == s[1..] + t;
    if s[0] >= 128 { ReadVarintStable(s[1..], t, max - 1); }
  }

  /** The varints of the format, minimal or not: continuation bits on all bytes but the last. */
  predicate IsVarint(g: seq<byte>) {
    g != [] && g[|g| - 1] < 128 && forall i :: 0 <= i < |g| - 1 ==> g[i] >= 128
  }

  /** The value of the groups, low groups first. */
  function ValueOf(g: seq<byte>): nat {
    if g == [] then 0 else g[0] as int % 128 + 128 * ValueOf(g[1..])
  }

  lemma VarintCons(b: byte, g: seq<byte>)
    requires b >= 128 && IsVarint(g)
    ensures IsVarint([b] + g) && ValueOf([b] + g) == b as int - 128 + 128 * ValueOf(g)
  {
    assert ([b] + g)[1..] == g;
  }

  /** The reader takes every varint of at most `max` bytes, with its value. */
  lemma {:induction false} VarintRead(g: seq<byte>, t: seq<byte>, max: nat)
    requires IsVarint(g)
    ensures ReadVarint(g + t, max) == if |g| <= max then Ok(ValueOf(g), t) else Fail
  {
    if max > 0 {
      assert (g + t)[1..] == g[1..] + t;
      if |g| == 1 {
        assert g[1..] + t == t && ValueOf(g[1..]) == 0;
      } else {
        VarintRead(g[1..], t, max - 1);
      }
    }
  }

  /** And nothing else. */
  lemma {:induction false} ReadIsVarint(s: seq<byte>, max: nat) returns (g: seq<byte>)
    requires ReadVarint(s, max).Ok?
    ensures IsVarint(g) && |g| <= max
    ensures s == g + ReadVarint(s, max).rest && ReadVarint(s, max).value == ValueOf(g)
  {
    if s[0] < 128 {
      g := [s[0]];
      assert ValueOf(g[1..]) == 0;
    } else {
      var rest := ReadIsVarint(s[1..], max - 1);
      VarintCons(s[0], rest);
      g := [s[0]] + rest;
    }
  }

  /** What the writer puts is the varint of its value. */
  lemma {:induction false} WrittenIsVarint(v: nat)
    ensures IsVarint(Varint(v)) && ValueOf(Varint(v)) == v
  {
    if v < 128 {
      assert ValueOf(Varint(v)[1..]) == 0;
    } else {
      WrittenIsVarint(v / 128);
      VarintCons(v % 128 + 128, Varint(v / 128));
    }
  }

  function Pow128(k: nat): nat { if k == 0 then 1 else 128 * Pow128(k - 1) }

  lemma {:induction false} VarintAtMost(v: nat, k: nat)
    requires k >= 1 && v < Pow128(k)
    ensures |Varint(v)| <= k
  {
    if v >= 128 {
      assert Pow128(1) == 128;
      VarintAtMost(v / 128, k - 1);
    }
  }

  lemma {:induction false} VarintAtLeast(v: nat, k: nat)
    requires v >= Pow128(k)
    ensures |Varint(v)| > k
  {
    if k > 0 { VarintAtLeast(v / 128, k - 1); }
  }

  lemma Pow128Values()
    ensures Pow128(9) == POW64 / 2 && Pow128(4) == POW28 && Pow128(5) == POW35 && Pow128(10) == 1180591620717411303424
  {
    assert Pow128(2) == 16384 && Pow128(4) == 268435456;
    assert Pow128(6) == 4398046511104 && Pow128(8) == 72057594037927936;
  }

  /** Lengths the readers rely on: 32-bit values take at most five bytes, 64-bit values ten. */
  lemma VarintLengths(v: nat)
    ensures v < POW32 ==> |Varint(v)| <= 5
    ensures v < POW64 ==> |Varint(v)| <= 10
  {
    Pow128Values();
    if v < POW32 { VarintAtMost(v, 5); }
    if v < POW64 { VarintAtMost(v, 10); }
  }

  // ---------------------------------------------------------------------------------------
  // Predicted size (coded_stream.h): floor(log2(v | 1)) times 9 plus 73, over 64

  function Log2Floor(v: nat): nat
    requires v >= 1
  {
    if v == 1 then 0 else 1 + Log2Floor(v / 2)
  }

  function Or1(v: nat): nat { if v % 2 == 0 then v + 1 else v }

  function VarintSize(v: nat): nat { (Log2Floor(Or1(v)) * 9 + 73) / 64 }

  lemma Log2Or1(v: nat)
    ensures Log2Floor(Or1(v)) == if v == 0 then 0 else Log2Floor(v)
  {
    if v >= 2 && v % 2 == 0 { assert (v + 1) / 2 == v / 2; }
  }

  lemma Log2By8(v: nat)
    requires v >= 8
    ensures Log2Floor(v) == 3 + Log2Floor(v / 8)
  {
    var half, quarter, eighth := v / 2, v / 4, v / 8;
    Log2Half(v, half);
    Log2Half(half, quarter);
    Log2Half(quarter, eighth);
  }

  lemma Log2Half(v: nat, half: nat)
    requires v >= 2 && half == v / 2
    ensures Log2Floor(v) == 1 + Log2Floor(half)
  {
  }

  lemma Log2By128(v: nat)
    requires v >= 128
    ensures Log2Floor(v) == 7 + Log2Floor(v / 128)
  {
    Log2By8(v);
    Log2By8(v / 8);
    assert v / 8 / 8 == v / 64;
    assert Log2Floor(v / 64) == 1 + Log2Floor(v / 128);
  }

  lemma Log2Small(v: nat)
    requires 1 <= v < 128
    ensures Log2Floor(v) <= 6
  {
    assert v / 2 < 64 && v / 4 < 32 && v / 8 < 16 && v / 16 < 8 && v / 32 < 4 && v / 64 < 2;
    if v >= 64 { assert Log2Floor(v / 64) == 0; }
    if v >= 32 { assert Log2Floor(v / 32) <= 1; }
    if v >= 16 { assert Log2Floor(v / 16) <= 2; }
    if v >= 8 { assert Log2Floor(v / 8) <= 3; }
    if v >= 4 { assert Log2Floor(v / 4) <= 4; }
    if v >= 2 { assert Log2Floor(v / 2) <= 5; }
  }

  lemma {:induction false} VarintGroups(v: nat)
    requires v >= 1
    ensures |Varint(v)| == Log2Floor(v) / 7 + 1
  {
    if v < 128 {
      Log2Small(v);
    } else {
      Log2By128(v);
      VarintGroups(v / 128);
    }
  }

  /** The branch-free size formula is exact for every 64-bit value. */
  lemma VarintSizeExact(v: nat)
    requires v < POW64
    ensures VarintSize(v) == |Varint(v)|
  {
    Log2Or1(v);
    if v >= 1 {
      VarintGroups(v);
      VarintLengths(v);
      var l := Log2Floor(v);
      assert l <= 69;
    }
  }

  /** Lengths whose prefix is as long as that of their low 32 bits. */
  predicate PrefixFits(n: nat) { n < POW32 || (n < POW35 && n % POW32 >= POW28) }

  lemma FiveBytes(v: nat)
    ensures |Varint(v)| >= 5 <==> v >= POW28
    ensures |Varint(v)| <= 5 <==> v < POW35
  {
    Pow128Values();
    if v < POW28 { VarintAtMost(v, 4); } else { VarintAtLeast(v, 4); }
    if v < POW35 { VarintAtMost(v, 5); } else { VarintAtLeast(v, 5); }
  }

  lemma PrefixLengths(n: nat, low: nat)
    requires low < POW32 && (n < POW32 ==> low == n)
    ensures |Varint(low)| <= |Varint(n)|
    ensures |Varint(low)| == |Varint(n)| <==> n < POW32 || (n < POW35 && low >= POW28)
  {
    FiveBytes(low);
    FiveBytes(n);
  }

  lemma PrefixSize(n: nat)
    ensures VarintSize(n % POW32) <= |Varint(n)|
    ensures VarintSize(n % POW32) == |Varint(n)| <==> PrefixFits(n)
  {
    var low := n % POW32;
    VarintSizeExact(low);
    PrefixLengths(n, low);
  }
}
