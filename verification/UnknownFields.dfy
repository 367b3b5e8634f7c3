/** Fields a parser does not know, groups within groups included, and how it gets past them. */
module UnknownFields {
  import opened Bytes
  import opened Varints
  import opened Codec
  import opened CodecLaws
  import opened WireLaws

  /** The content of one field of each wire type; varints need not be minimal, a group holds fields. */
  datatype Unknown =
    | UVarint(g: seq<byte>)
    | UFixed64(bytes: seq<byte>)
    | UBytes(g: seq<byte>, bytes: seq<byte>)
    | UGroup(fields: Fields, end: seq<byte>)
    | UFixed32(bytes: seq<byte>)

  datatype Fields = End | More(tag: seq<byte>, first: Unknown, rest: Fields)

  predicate IsTag(g: seq<byte>) { IsVarint(g) && |g| <= 5 }

  function TagIn(g: seq<byte>): nat { ValueOf(g) % POW32 }

  function WireTypeOf(u: Unknown): nat {
    match u
    case UVarint(_) => 0
    case UFixed64(_) => 1
    case UBytes(_, _) => 2
    case UGroup(_, _) => 3
    case UFixed32(_) => 5
  }

  /** `u` is a well-formed content behind `tag`. */
  ghost predicate Well(tag: nat, u: Unknown)
    decreases u
  {
    && tag / 8 > 0 && tag % 8 == WireTypeOf(u)
    && match u
       case UVarint(g) => IsVarint(g) && |g| <= 10
       case UFixed64(bytes) => |bytes| == 8
       case UBytes(g, bytes) => IsVarint(g) && |g| <= 5 && ValueOf(g) == |bytes| <= MAX_LENGTH
       case UGroup(fields, end) => WellAll(fields) && IsTag(end) && TagIn(end) == tag + 1
       case UFixed32(bytes) => |bytes| == 4
  }

  ghost predicate WellAll(fs: Fields)
    decreases fs
  {
    fs.More? ==> IsTag(fs.tag) && Well(TagIn(fs.tag), fs.first) && WellAll(fs.rest)
  }

  /** The groups nest no deeper than the recursion limit left. */
  ghost predicate Fits(u: Unknown, depth: nat) {
    u.UGroup? ==> depth > 0 && FitAll(u.fields, depth - 1)
  }

  ghost predicate FitAll(fs: Fields, depth: nat) { fs.More? ==> Fits(fs.first, depth) && FitAll(fs.rest, depth) }

  ghost function Content(u: Unknown): seq<byte> {
    match u
    case UVarint(g) => g
    case UFixed64(bytes) => bytes
    case UBytes(g, bytes) => g + bytes
    case UGroup(fields, end) => EncodeAll(fields) + end
    case UFixed32(bytes) => bytes
  }

  ghost function EncodeAll(fs: Fields): seq<byte> {
    match fs case End => [] case More(tag, first, rest) => tag + (Content(first) + EncodeAll(rest))
  }

  lemma TagRead(g: seq<byte>, t: seq<byte>)
    requires IsTag(g)
    ensures ReadTag(g + t) == Ok(TagIn(g), t)
  {
    VarintRead(g, t, 5);
  }

  lemma BytesRead(g: seq<byte>, bytes: seq<byte>, t: seq<byte>)
    requires IsVarint(g) && |g| <= 5 && ValueOf(g) == |bytes| <= MAX_LENGTH
    ensures ReadBytes(g + bytes + t) == Ok(bytes, t)
  {
    Assoc(g, bytes, t);
    VarintRead(g, bytes + t, 5);
    assert (bytes + t)[..|bytes|] == bytes && (bytes + t)[|bytes|..] == t;
  }

  // ---------------------------------------------------------------------------------------
  // Skipping what is well formed

  lemma SkipPlain(tag: nat, u: Unknown, t: seq<byte>, depth: nat)
    requires Well(tag, u) && !u.UGroup?
    ensures Skip(tag, Content(u) + t, depth) == Some(t)
  {
    match u {
      case UVarint(g) => VarintRead(g, t, 10);
      case UFixed64(bytes) => assert (bytes + t)[8..] == t;
      case UBytes(g, bytes) => BytesRead(g, bytes, t);
      case UFixed32(bytes) => assert (bytes + t)[4..] == t;
    }
  }

  lemma SkipIntoGroup(tag: nat, s: seq<byte>, depth: nat)
    requires tag / 8 > 0 && tag % 8 == 3
    ensures Skip(tag, s, depth) == if depth == 0 then None else SkipGroup(tag, s, depth - 1)
  {
  }

  lemma GroupEnds(tag: nat, end: seq<byte>, t: seq<byte>, depth: nat)
    requires tag % 8 == 3 && IsTag(end) && TagIn(end) == tag + 1
    ensures SkipGroup(tag, end + t, depth) == Some(t)
  {
    TagRead(end, t);
  }

  lemma SkipWholeGroup(tag: nat, fs: Fields, end: seq<byte>, t: seq<byte>, depth: nat)
    requires tag / 8 > 0 && tag % 8 == 3 && WellAll(fs) && IsTag(end) && TagIn(end) == tag + 1
    ensures Skip(tag, EncodeAll(fs) + end + t, depth)
         == if depth > 0 && FitAll(fs, depth - 1) then Some(t) else None
    decreases fs, 1
  {
    SkipIntoGroup(tag, EncodeAll(fs) + end + t, depth);
    Assoc(EncodeAll(fs), end, t);
    if depth > 0 {
      GroupEnds(tag, end, t, depth - 1);
      SkipAll(tag, fs, end + t, t, depth - 1);
    }
  }

  /** An unknown field is skipped to its last byte, exactly when its groups fit the recursion limit. */
  lemma {:induction false} SkipExact(tag: nat, u: Unknown, t: seq<byte>, depth: nat)
    requires Well(tag, u)
    ensures Skip(tag, Content(u) + t, depth) == if Fits(u, depth) then Some(t) else None
    decreases u, 2
  {
    if u.UGroup? { SkipWholeGroup(tag, u.fields, u.end, t, depth); } else { SkipPlain(tag, u, t, depth); }
  }

  /** The fields of a group whose end tag, at the front of `end`, is followed by `t`. */
  lemma {:induction false} SkipAll(start: nat, fs: Fields, end: seq<byte>, t: seq<byte>, depth: nat)
    requires WellAll(fs) && SkipGroup(start, end, depth) == Some(t)
    ensures SkipGroup(start, EncodeAll(fs) + end, depth) == if FitAll(fs, depth) then Some(t) else None
    decreases fs, 0
  {
    match fs {
      case End => assert EncodeAll(fs) + end == end;
      case More(tag, u, rest) =>
        var more := EncodeAll(rest) + end;
        EncodeMore(tag, u, rest, end);
        SkipExact(TagIn(tag), u, more, depth);
        SkipAll(start, rest, end, t, depth);
        GroupTurn(start, tag, u, more, depth);
    }
  }

  lemma EncodeMore(tag: seq<byte>, u: Unknown, rest: Fields, end: seq<byte>)
    ensures EncodeAll(More(tag, u, rest)) + end == tag + (Content(u) + (EncodeAll(rest) + end))
  {
    Assoc(tag, Content(u) + EncodeAll(rest), end);
    Assoc(Content(u), EncodeAll(rest), end);
  }

  lemma GroupTurn(start: nat, tag: seq<byte>, u: Unknown, more: seq<byte>, depth: nat)
    requires IsTag(tag) && Well(TagIn(tag), u)
    ensures var skipped := Skip(TagIn(tag), Content(u) + more, depth);
      SkipGroup(start, tag + (Content(u) + more), depth)
      == if skipped.None? then None else SkipGroup(start, skipped.value, depth)
  {
    TagRead(tag, Content(u) + more);
  }

  // ---------------------------------------------------------------------------------------
  // Skipping nothing else

  lemma BytesReadBack(s: seq<byte>) returns (g: seq<byte>)
    requires ReadBytes(s).Ok?
    ensures IsVarint(g) && |g| <= 5 && ValueOf(g) == |ReadBytes(s).value| <= MAX_LENGTH
    ensures s == g + ReadBytes(s).value + ReadBytes(s).rest
  {
    g := ReadIsVarint(s, 5);
    var rest := ReadSize(s).rest;
    assert rest == ReadBytes(s).value + ReadBytes(s).rest;
    Assoc(g, ReadBytes(s).value, ReadBytes(s).rest);
  }

  lemma SkippedPlain(tag: nat, s: seq<byte>, depth: nat) returns (u: Unknown)
    requires Skip(tag, s, depth).Some? && tag % 8 != 3
    ensures Well(tag, u) && Fits(u, depth) && s == Content(u) + Skip(tag, s, depth).value
  {
    match tag % 8 {
      case 0 => var g := ReadIsVarint(s, 10); u := UVarint(g);
      case 1 => u := UFixed64(s[..8]);
      case 2 => var g := BytesReadBack(s); u := UBytes(g, ReadBytes(s).value);
      case 5 => u := UFixed32(s[..4]);
    }
  }

  /** Whatever is skipped was a well-formed field within the recursion limit. */
  lemma {:induction false} SkipSound(tag: nat, s: seq<byte>, depth: nat) returns (u: Unknown)
    requires Skip(tag, s, depth).Some?
    ensures Well(tag, u) && Fits(u, depth) && s == Content(u) + Skip(tag, s, depth).value
    decreases |s|, 1
  {
    if tag % 8 == 3 {
      SkipIntoGroup(tag, s, depth);
      var fs, end := GroupSound(tag, s, depth - 1);
      u := UGroup(fs, end);
      Assoc(EncodeAll(fs), end, Skip(tag, s, depth).value);
    } else {
      u := SkippedPlain(tag, s, depth);
    }
  }

  lemma {:induction false} GroupSound(start: nat, s: seq<byte>, depth: nat) returns (fs: Fields, end: seq<byte>)
    requires SkipGroup(start, s, depth).Some? && start % 8 == 3
    ensures WellAll(fs) && FitAll(fs, depth) && IsTag(end) && TagIn(end) == start + 1
    ensures s == EncodeAll(fs) + (end + SkipGroup(start, s, depth).value)
    decreases |s|, 0
  {
    var g := ReadIsVarint(s, 5);
    var tag, rest := ReadTag(s).value, ReadTag(s).rest;
    if tag == 0 || tag % 8 == 4 {
      fs, end := End, g;
      assert EncodeAll(End) + s == s;
    } else {
      var more := Skip(tag, rest, depth).value;
      var u := SkipSound(tag, rest, depth);
      var later;
      later, end := GroupSound(start, more, depth);
      fs := More(g, u, later);
      EncodeMore(g, u, later, end + SkipGroup(start, s, depth).value);
    }
  }

  /** Skipping succeeds with `t` left exactly when a well-formed field within the limit stands in front of `t`. */
  lemma SkipExactly(tag: nat, s: seq<byte>, t: seq<byte>, depth: nat)
    ensures Skip(tag, s, depth) == Some(t) <==> exists u :: Well(tag, u) && Fits(u, depth) && s == Content(u) + t
  {
    if Skip(tag, s, depth) == Some(t) { var u := SkipSound(tag, s, depth); }
    if u :| Well(tag, u) && Fits(u, depth) && s == Content(u) + t { SkipExact(tag, u, t, depth); }
  }

  /**
   * A field the schema does not know, be it a new number or a known one with another wire type,
   * changes nothing in front of any further bytes, unless its groups nest beyond the limit, in
   * which case the parse fails.
   */
  lemma UnknownIgnored(sch: Schema, m: Message, tag: seq<byte>, u: Unknown, t: seq<byte>, depth: nat)
    requires Typed(sch, m) && IsTag(tag) && Well(TagIn(tag), u) && FieldOf(sch, TagIn(tag)) == None
    ensures Parse(sch, m, tag + (Content(u) + t), depth) == if Fits(u, depth) then Parse(sch, m, t, depth) else None
  {
    TagRead(tag, Content(u) + t);
    SkipExact(TagIn(tag), u, t, depth);
    assert TurnOf(sch, tag + (Content(u) + t), depth) == if Fits(u, depth) then Skipped(t) else Bad;
  }
}
