/** Laws of the codec: round trip, exact size, concatenation is merging, last one wins. */
module CodecLaws {
  import opened Bytes
  import opened Varints
  import opened Utf8
  import opened Codec

  lemma {:induction false} VarintTooLong(v: nat, t: seq<byte>, max: nat)
    requires |Varint(v)| > max
    ensures ReadVarint(Varint(v) + t, max) == Fail
  {
    var s := Varint(v) + t;
    if max > 0 && v >= 128 {
      VarintTooLong(v / 128, t, max - 1);
      assert s[1..] == Varint(v / 128) + t;
    }
  }

  /** Strings the reader takes back: well-formed UTF-8 of a length it accepts. */
  predicate Readable(v: Value) {
    v.Text? ==> |v.s| <= MAX_LENGTH && ValidUtf8(v.s)
  }

  /** Sign extension and truncation cancel, also for negative 32-bit values in ten bytes. */
  lemma WireNumber(k: Kind, n: int)
    requires HasKind(Num(n), k)
    ensures ToWire(n) < POW64 && FromWire(k, ToWire(n)) == n
  {
    if n < 0 {
      assert n + POW64 == (n + POW32) + POW32 * (POW32 - 1);
      assert (n + POW64) % POW32 == n + POW32;
    }
  }

  /** A negative number goes out as ten bytes: its residue modulo 2^64. */
  lemma NegativeTakesTen(n: int)
    requires -POW31 <= n < 0
    ensures ToWire(n) == n + POW64 && |Varint(ToWire(n))| == 10
  {
    VarintLengths(ToWire(n));
    Pow128Values();
    VarintAtLeast(ToWire(n), 9);
  }

  /**
   * What a numeric field makes of any varint: the value of its type that agrees with it modulo 2^32,
   * or 2^64 for 64 bits, and for a bool whether the low 64 bits are not all zero.
   */
  lemma NumberRead(k: Kind, u: nat)
    requires k != KString
    ensures HasKind(Num(FromWire(k, u)), k)
    ensures k == KBool ==> (FromWire(k, u) == 0 <==> u % POW64 == 0)
    ensures k == KUInt64 ==> FromWire(k, u) % POW64 == u % POW64
    ensures k != KBool && k != KUInt64 ==> FromWire(k, u) % POW32 == u % POW32
  {
  }

  lemma SizeReadsBack(n: nat, t: seq<byte>)
    ensures ReadSize(Varint(n) + t) == if n <= MAX_LENGTH then Ok(n, t) else Fail
  {
    if |Varint(n)| <= 5 {
      VarintReadsBack(n, t, 5);
    } else {
      VarintTooLong(n, t, 5);
      VarintLengths(n);
    }
  }

  lemma TextReadsBack(text: seq<byte>, t: seq<byte>)
    ensures ReadBytes(Varint(|text|) + text + t) == if |text| <= MAX_LENGTH then Ok(text, t) else Fail
  {
    Assoc(Varint(|text|), text, t);
    SizeReadsBack(|text|, text + t);
    assert (text + t)[..|text|] == text && (text + t)[|text|..] == t;
  }

  lemma FieldReadsBack(k: Kind, v: Value, t: seq<byte>)
    requires HasKind(v, k)
    ensures ReadField(k, Body(v) + t) == if Readable(v) then Ok(v, t) else Fail
  {
    match v {
      case Num(n) =>
        WireNumber(k, n);
        VarintLengths(ToWire(n));
        VarintReadsBack(ToWire(n), t, 10);
      case Text(text) =>
        TextReadsBack(text, t);
    }
  }

  lemma TagReads(tag: byte, s: seq<byte>)
    requires tag < 128
    ensures ReadTag([tag] + s) == Ok(tag, s)
  {
    assert ([tag] + s)[1..] == s;
  }

  lemma FieldOfTag(sch: Schema, i: nat)
    requires i < |sch|
    ensures Tag(i, sch[i]) < 128 && FieldOf(sch, Tag(i, sch[i])) == Some(i)
  {
    assert Tag(i, sch[i]) / 8 == i + 1;
  }

  /** One turn of the parse loop undoes one written field. */
  lemma ParseField(sch: Schema, m: Message, i: nat, v: Value, t: seq<byte>, depth: nat)
    requires Typed(sch, m) && i < |sch| && HasKind(v, sch[i]) && !IsDefault(v)
    ensures Parse(sch, m, Field(i, sch[i], v) + t, depth)
         == if Readable(v) then Parse(sch, m[i := v], t, depth) else None
  {
    var tag := Tag(i, sch[i]);
    var s := Field(i, sch[i], v) + t;
    FieldOfTag(sch, i);
    assert s == [tag] + (Body(v) + t);
    TagReads(tag, Body(v) + t);
    FieldReadsBack(sch[i], v, t);
    assert TurnOf(sch, s, depth) == if Readable(v) then Set(i, v, t) else Bad;
  }

  ghost predicate ReadableFrom(m: Message, i: nat) {
    forall j :: i <= j < |m| ==> Readable(m[j])
  }

  /** `Merge` of the fields from `i` on, one field at a time. */
  ghost function MergeFrom(sch: Schema, to: Message, from: Message, i: nat): (m: Message)
    requires Typed(sch, to) && Typed(sch, from) && i <= |sch|
    ensures Typed(sch, m)
    decreases |sch| - i
  {
    if i == |sch| then to
    else MergeFrom(sch, if IsDefault(from[i]) then to else to[i := from[i]], from, i + 1)
  }

  lemma {:induction false} MergeFromIs(sch: Schema, to: Message, from: Message, i: nat)
    requires Typed(sch, to) && Typed(sch, from) && i <= |sch|
    ensures forall j :: 0 <= j < |sch| ==>
      MergeFrom(sch, to, from, i)[j] == if j < i || IsDefault(from[j]) then to[j] else from[j]
    decreases |sch| - i
  {
    if i < |sch| { MergeFromIs(sch, if IsDefault(from[i]) then to else to[i := from[i]], from, i + 1); }
  }

  /** Parsing the fields from `i` on is merging them, whatever follows. */
  lemma {:induction false} ParseAfterFrom(sch: Schema, to: Message, m: Message, y: seq<byte>, depth: nat, i: nat)
    requires Typed(sch, to) && Typed(sch, m) && i <= |sch|
    ensures Parse(sch, to, SerializeFrom(sch, m, i) + y, depth)
         == if ReadableFrom(m, i) then Parse(sch, MergeFrom(sch, to, m, i), y, depth) else None
    decreases |sch| - i
  {
    if i == |sch| {
      assert SerializeFrom(sch, m, i) + y == y;
    } else {
      var field, rest := Field(i, sch[i], m[i]), SerializeFrom(sch, m, i + 1) + y;
      Assoc(field, SerializeFrom(sch, m, i + 1), y);
      if IsDefault(m[i]) {
        assert field + rest == rest;
        ParseAfterFrom(sch, to, m, y, depth, i + 1);
      } else {
        ParseField(sch, to, i, m[i], rest, depth);
        ParseAfterFrom(sch, to[i := m[i]], m, y, depth, i + 1);
      }
    }
  }

  /**
   * The central law: parsing a serialized message followed by any bytes, on top of any message,
   * is merging and then parsing those bytes; it fails exactly when a string is not readable.
   */
  lemma ParseAfter(sch: Schema, to: Message, m: Message, y: seq<byte>, depth: nat)
    requires Typed(sch, to) && Typed(sch, m)
    ensures Typed(sch, Merge(to, m))
    ensures Parse(sch, to, Serialize(sch, m) + y, depth)
         == if ReadableFrom(m, 0) then Parse(sch, Merge(to, m), y, depth) else None
  {
    ParseAfterFrom(sch, to, m, y, depth, 0);
    MergeFromIs(sch, to, m, 0);
    assert MergeFrom(sch, to, m, 0) == Merge(to, m);
  }

  /** Round trip: `parse(serialize(m))` is m for exactly the messages whose strings are readable. */
  lemma RoundTrip(sch: Schema, m: Message, depth: nat)
    requires Typed(sch, m)
    ensures Parse(sch, Defaults(sch), Serialize(sch, m), depth) == if ReadableFrom(m, 0) then Some(m) else None
  {
    ParseAfter(sch, Defaults(sch), m, [], depth);
    assert Serialize(sch, m) + [] == Serialize(sch, m);
    assert Merge(Defaults(sch), m) == m;
  }

  /** Parsing two serialized messages in a row is merging the second into the first. */
  lemma ConcatenationMerges(sch: Schema, a: Message, b: Message)
    requires Typed(sch, a) && Typed(sch, b) && ReadableFrom(a, 0) && ReadableFrom(b, 0)
    ensures Parse(sch, Defaults(sch), Serialize(sch, a) + Serialize(sch, b), DEPTH) == Some(Merge(a, b))
  {
    ParseAfter(sch, Defaults(sch), a, Serialize(sch, b), DEPTH);
    assert Merge(Defaults(sch), a) == a;
    ParseAfter(sch, a, b, [], DEPTH);
    assert Serialize(sch, b) + [] == Serialize(sch, b);
  }

  function FieldSize(v: Value): nat
    requires v.Num? ==> -POW64 <= v.n
  {
    if IsDefault(v) then 0 else 1 + BodySize(v)
  }

  /** The size is exact unless the length prefix of a string is sized too short. */
  predicate SizeFits(v: Value) { v.Text? ==> PrefixFits(|v.s|) }

  lemma FieldSizeExact(i: nat, k: Kind, v: Value)
    requires i < 15 && HasKind(v, k)
    ensures FieldSize(v) <= |Field(i, k, v)|
    ensures FieldSize(v) == |Field(i, k, v)| <==> SizeFits(v)
    ensures !SizeFits(v) ==> FieldSize(v) >= POW32
  {
    match v {
      case Num(n) => WireNumber(k, n); VarintSizeExact(ToWire(n));
      case Text(s) => PrefixSize(|s|);
    }
  }

  lemma SizesFrom(sch: Schema, m: Message, i: nat)
    requires Typed(sch, m) && i < |sch|
    ensures |SerializeFrom(sch, m, i)| == |Field(i, sch[i], m[i])| + |SerializeFrom(sch, m, i + 1)|
    ensures SizeFrom(sch, m, i) == FieldSize(m[i]) + SizeFrom(sch, m, i + 1)
  {
  }

  ghost predicate SizesFit(m: Message, i: nat) { forall j :: i <= j < |m| ==> SizeFits(m[j]) }

  /**
   * `ByteSizeLong` never exceeds the serialized length, and is it exactly when every string is
   * below 4 GB, or its length needs five prefix bytes like its low 32 bits.
   */
  lemma {:induction false} SizeExact(sch: Schema, m: Message, i: nat)
    requires Typed(sch, m) && i <= |sch|
    ensures SizeFrom(sch, m, i) <= |SerializeFrom(sch, m, i)|
    ensures SizeFrom(sch, m, i) == |SerializeFrom(sch, m, i)| <==> SizesFit(m, i)
    ensures !SizesFit(m, i) ==> SizeFrom(sch, m, i) >= POW32
    decreases |sch| - i
  {
    if i < |sch| {
      SizeExact(sch, m, i + 1);
      SizesFrom(sch, m, i);
      FieldSizeExact(i, sch[i], m[i]);
      assert SizesFit(m, i) <==> SizeFits(m[i]) && SizesFit(m, i + 1);
    }
  }

  /** A message without strings is short. */
  lemma {:induction false} NumbersSmall(sch: Schema, m: Message, i: nat)
    requires Typed(sch, m) && i <= |sch| && forall j :: 0 <= j < |m| ==> m[j].Num? || IsDefault(m[j])
    ensures |SerializeFrom(sch, m, i)| <= 11 * (|sch| - i)
    decreases |sch| - i
  {
    if i < |sch| {
      NumbersSmall(sch, m, i + 1);
      SizesFrom(sch, m, i);
      if m[i].Num? { NumberSmall(i, sch[i], m[i].n); }
    }
  }

  lemma NumberSmall(i: nat, k: Kind, n: int)
    requires i < 15 && HasKind(Num(n), k)
    ensures |Field(i, k, Num(n))| <= 11
  {
    WireNumber(k, n);
    VarintLengths(ToWire(n));
  }
}
