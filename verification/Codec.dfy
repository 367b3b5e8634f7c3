/**
 * The wire codec of the generated messages, once for every message made of scalar and string
 * fields numbered 1, 2, 3, ...: parsing, serializing, predicted size and merging, after the
 * Protocol Buffers Encoding specification.
 */
module Codec {
  import opened Bytes
  import opened Varints
  import opened Utf8

  datatype Kind = KString | KInt32 | KUInt32 | KUInt64 | KBool | KEnum

  datatype Value = Num(n: int) | Text(s: seq<byte>)

  /** The kinds of fields 1, 2, ...; at most fifteen, so that every tag is one byte. */
  type Schema = s: seq<Kind> | |s| <= 15 witness []

  type Message = seq<Value>

  /** The longest length prefix the reader accepts: INT_MAX less 16 slop bytes. */
  const MAX_LENGTH := POW31 - 1 - 16

  /** The recursion limit a parse starts with. */
  const DEPTH := 100

  predicate HasKind(v: Value, k: Kind) {
    match k
    case KString => v.Text?
    case KInt32 => v.Num? && -POW31 <= v.n < POW31
    case KEnum => v.Num? && -POW31 <= v.n < POW31
    case KUInt32 => v.Num? && 0 <= v.n < POW32
    case KUInt64 => v.Num? && 0 <= v.n < POW64
    case KBool => v.Num? && 0 <= v.n <= 1
  }

  predicate Typed(sch: Schema, m: Message) {
    |m| == |sch| && forall i :: 0 <= i < |sch| ==> HasKind(m[i], sch[i])
  }

  function Default(k: Kind): Value { if k == KString then Text([]) else Num(0) }

  predicate IsDefault(v: Value) { v == Num(0) || v == Text([]) }

  function Defaults(sch: Schema): (m: Message)
    ensures Typed(sch, m)
  {
    seq(|sch|, i requires 0 <= i < |sch| => Default(sch[i]))
  }

  function WireType(k: Kind): nat { if k == KString then 2 else 0 }

  function Tag(i: nat, k: Kind): nat { (i + 1) * 8 + WireType(k) }

  // ---------------------------------------------------------------------------------------
  // Parsing

  function ReadTag(s: seq<byte>): (r: Read<nat>)
    ensures r.Ok? ==> |r.rest| < |s|
  {
    match ReadVarint(s, 5)
    case Fail => Fail
    case Ok(v, rest) => Ok(v % POW32, rest)
  }

  function ReadSize(s: seq<byte>): (r: Read<nat>)
    ensures r.Ok? ==> |r.rest| < |s|
  {
    match ReadVarint(s, 5)
    case Fail => Fail
    case Ok(v, rest) => if v > MAX_LENGTH then Fail else Ok(v, rest)
  }

  /** A length-delimited record. */
  function ReadBytes(s: seq<byte>): (r: Read<seq<byte>>)
    ensures r.Ok? ==> |r.rest| < |s|
  {
    match ReadSize(s)
    case Fail => Fail
    case Ok(n, rest) => if n > |rest| then Fail else Ok(rest[..n], rest[n..])
  }

  /** Truncation of a 64-bit varint to the field's own type. */
  function FromWire(k: Kind, u: nat): int {
    match k
    case KUInt64 => u % POW64
    case KUInt32 => u % POW32
    case KBool => if u % POW64 != 0 then 1 else 0
    case _ => var t := u % POW32; if t < POW31 then t else t - POW32
  }

  function ReadField(k: Kind, s: seq<byte>): (r: Read<Value>)
    ensures r.Ok? ==> |r.rest| < |s| && HasKind(r.value, k)
  {
    if k == KString then
      match ReadBytes(s)
      case Fail => Fail
      case Ok(text, rest) => if ValidUtf8(text) then Ok(Text(text), rest) else Fail
    else
      match ReadVarint(s, 10)
      case Fail => Fail
      case Ok(u, rest) => Ok(Num(FromWire(k, u)), rest)
  }

  /** The bytes after an unknown field, if it is well formed. */
  function Skip(tag: nat, s: seq<byte>, depth: nat): (r: Option<seq<byte>>)
    ensures r.Some? ==> |r.value| <= |s|
    decreases |s|, 1
  {
    if tag / 8 == 0 then None
    else match tag % 8
      case 0 => (match ReadVarint(s, 10) case Fail => None case Ok(_, rest) => Some(rest))
      case 1 => if |s| < 8 then None else Some(s[8..])
      case 2 => (match ReadBytes(s) case Fail => None case Ok(_, rest) => Some(rest))
      case 3 => if depth == 0 then None else SkipGroup(tag, s, depth - 1)
      case 5 => if |s| < 4 then None else Some(s[4..])
      case _ => None
  }

  /** The bytes after the end tag that closes the group opened by `start`. */
  function SkipGroup(start: nat, s: seq<byte>, depth: nat): (r: Option<seq<byte>>)
    ensures r.Some? ==> |r.value| <= |s|
    decreases |s|, 0
  {
    match ReadTag(s)
    case Fail => None
    case Ok(tag, rest) =>
      if tag == 0 || tag % 8 == 4 then (if tag == start + 1 then Some(rest) else None)
      else match Skip(tag, rest, depth)
        case None => None
        case Some(more) => SkipGroup(start, more, depth)
  }

  /** The index of the known field a tag belongs to. */
  function FieldOf(sch: Schema, tag: nat): (i: Option<nat>)
    ensures i.Some? ==> i.value < |sch|
  {
    var f := tag / 8;
    if 1 <= f <= |sch| && tag == Tag(f - 1, sch[f - 1]) then Some(f - 1) else None
  }

  /** What one turn of the parse loop makes of the front of `s`: a field, something skipped, or a failure. */
  datatype Turn = Bad | Set(i: nat, v: Value, rest: seq<byte>) | Skipped(rest: seq<byte>)

  function TurnOf(sch: Schema, s: seq<byte>, depth: nat): (t: Turn)
    ensures !t.Bad? ==> |t.rest| < |s|
    ensures t.Set? ==> t.i < |sch| && HasKind(t.v, sch[t.i])
  {
    match ReadTag(s)
    case Fail => Bad
    case Ok(tag, rest) =>
      match FieldOf(sch, tag)
      case Some(i) =>
        (match ReadField(sch[i], rest)
         case Fail => Bad
         case Ok(v, more) => Set(i, v, more))
      case None =>
        if tag == 0 || tag % 8 == 4 then Bad
        else match Skip(tag, rest, depth)
          case None => Bad
          case Some(more) => Skipped(more)
  }

  /** Parsing on top of `m`, as `ParseFromArray` and the nested parse do: all of `s` or nothing. */
  function Parse(sch: Schema, m: Message, s: seq<byte>, depth: nat): (r: Option<Message>)
    requires Typed(sch, m)
    ensures r.Some? ==> Typed(sch, r.value)
    decreases |s|
  {
    if s == [] then Some(m)
    else match TurnOf(sch, s, depth)
      case Bad => None
      case Set(i, v, rest) => Parse(sch, m[i := v], rest, depth)
      case Skipped(rest) => Parse(sch, m, rest, depth)
  }

  // ---------------------------------------------------------------------------------------
  // Serializing, size, merging

  /** Sign extension to 64 bits. */
  function ToWire(n: int): nat
    requires -POW64 <= n
  {
    if n < 0 then n + POW64 else n
  }

  function Body(v: Value): seq<byte>
    requires v.Num? ==> -POW64 <= v.n
  {
    match v
    case Num(n) => Varint(ToWire(n))
    case Text(s) => Varint(|s|) + s
  }

  function Field(i: nat, k: Kind, v: Value): seq<byte>
    requires i < 15 && HasKind(v, k)
  {
    if IsDefault(v) then [] else [Tag(i, k)] + Body(v)
  }

  function SerializeFrom(sch: Schema, m: Message, i: nat): seq<byte>
    requires Typed(sch, m) && i <= |sch|
    decreases |sch| - i
  {
    if i == |sch| then [] else Field(i, sch[i], m[i]) + SerializeFrom(sch, m, i + 1)
  }

  function Serialize(sch: Schema, m: Message): seq<byte>
    requires Typed(sch, m)
  {
    SerializeFrom(sch, m, 0)
  }

  /** The length prefix is sized on 32 bits, whatever the length. */
  function LengthDelimitedSize(length: nat): nat { length + VarintSize(length % POW32) }

  function BodySize(v: Value): nat
    requires v.Num? ==> -POW64 <= v.n
  {
    match v
    case Num(n) => VarintSize(ToWire(n))
    case Text(s) => LengthDelimitedSize(|s|)
  }

  function SizeFrom(sch: Schema, m: Message, i: nat): nat
    requires Typed(sch, m) && i <= |sch|
    decreases |sch| - i
  {
    if i == |sch| then 0
    else (if IsDefault(m[i]) then 0 else 1 + BodySize(m[i])) + SizeFrom(sch, m, i + 1)
  }

  /** `MergeImpl`: a field of `from` that is not its default replaces the one of `to`. */
  function Merge(to: Message, from: Message): (m: Message)
    requires |to| == |from|
    ensures |m| == |to|
  {
    seq(|to|, i requires 0 <= i < |to| => if IsDefault(from[i]) then to[i] else from[i])
  }
}
