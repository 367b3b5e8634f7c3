/**
 * A message whose field 1 is a repeated nested message, with the fast inner loop of its generated
 * parser; ACK_GET_ROOM_INFO is the instance whose nested schema is that of RoomInfo.
 */
module RoomLists {
  import opened Bytes
  import opened Varints
  import opened Codec
  import opened CodecLaws
  import opened WireLaws
  import opened Messages

  const RECORD_TAG: byte := 10

  /** One nested record after its tag: length prefix, then a whole message one level deeper. */
  function ReadNested(sch: Schema, s: seq<byte>, depth: nat): (r: Read<Message>)
    ensures r.Ok? ==> |r.rest| < |s| && Typed(sch, r.value)
  {
    match ReadBytes(s)
    case Fail => Fail
    case Ok(body, rest) =>
      if depth == 0 then Fail
      else match Parse(sch, Defaults(sch), body, depth - 1)
        case None => Fail
        case Some(m) => Ok(m, rest)
  }

  /** One turn of the tag switch: a record, an unknown field skipped, or a failure. */
  datatype ListTurn = BadTurn | Record(m: Message, rest: seq<byte>) | Other(rest: seq<byte>)

  function ListTurnOf(sch: Schema, s: seq<byte>, depth: nat): (t: ListTurn)
    ensures !t.BadTurn? ==> |t.rest| < |s|
  {
    match ReadTag(s)
    case Fail => BadTurn
    case Ok(tag, rest) =>
      if tag == RECORD_TAG then
        match ReadNested(sch, rest, depth) case Fail => BadTurn case Ok(m, more) => Record(m, more)
      else if tag == 0 || tag % 8 == 4 then BadTurn
      else match Skip(tag, rest, depth) case None => BadTurn case Some(more) => Other(more)
  }

  /** The plain parser: one record, or one unknown field, per turn of the tag switch. */
  function ParseList(sch: Schema, items: seq<Message>, s: seq<byte>, depth: nat): Option<seq<Message>>
    decreases |s|
  {
    if s == [] then Some(items)
    else match ListTurnOf(sch, s, depth)
      case BadTurn => None
      case Record(m, rest) => ParseList(sch, items + [m], rest, depth)
      case Other(rest) => ParseList(sch, items, rest, depth)
  }

  /** The plain parser just after a record's tag. */
  ghost function FromRecord(sch: Schema, items: seq<Message>, s: seq<byte>, depth: nat): Option<seq<Message>> {
    match ReadNested(sch, s, depth)
    case Fail => None
    case Ok(m, more) => ParseList(sch, items + [m], more, depth)
  }

  lemma AtRecord(sch: Schema, items: seq<Message>, s: seq<byte>, depth: nat)
    requires ReadTag(s).Ok? && ReadTag(s).value == RECORD_TAG
    ensures ParseList(sch, items, s, depth) == FromRecord(sch, items, ReadTag(s).rest, depth)
  {
    assert ListTurnOf(sch, s, depth) == match ReadNested(sch, ReadTag(s).rest, depth)
      case Fail => BadTurn
      case Ok(m, more) => Record(m, more);
  }

  lemma AtOther(sch: Schema, items: seq<Message>, s: seq<byte>, depth: nat)
    requires ReadTag(s).Ok? && ReadTag(s).value != RECORD_TAG
    ensures var tag, rest := ReadTag(s).value, ReadTag(s).rest;
      ParseList(sch, items, s, depth)
        == if tag == 0 || tag % 8 == 4 || Skip(tag, rest, depth).None? then None
           else ParseList(sch, items, Skip(tag, rest, depth).value, depth)
  {
    var tag, rest := ReadTag(s).value, ReadTag(s).rest;
    assert ListTurnOf(sch, s, depth)
      == if tag == 0 || tag % 8 == 4 || Skip(tag, rest, depth).None? then BadTurn
         else Other(Skip(tag, rest, depth).value);
  }

  lemma RecordTag(tag: nat)
    ensures tag / 8 == 1 && tag % 256 == RECORD_TAG <==> tag == RECORD_TAG
  {
  }

  /** Consecutive records without going back to the tag switch. */
  method FastRecords(sch: Schema, start: seq<Message>, s: seq<byte>, depth: nat, seams: set<nat>)
    returns (ok: bool, items: seq<Message>, ptr: seq<byte>)
    ensures ok ==> |ptr| < |s|
    ensures FromRecord(sch, start, s, depth) == if ok then ParseList(sch, items, ptr, depth) else None
  {
    items, ptr := start, s;
    while true
      invariant |ptr| <= |s|
      invariant FromRecord(sch, items, ptr, depth) == FromRecord(sch, start, s, depth)
      decreases |ptr|
    {
      var r := ReadNested(sch, ptr, depth);
      if r.Fail? { return false, items, ptr; }
      items, ptr := items + [r.value], r.rest;
      // DataAvailable: false at the end, and possibly at the seams of the input buffer
      if ptr == [] || |ptr| in seams { return true, items, ptr; }
      if ptr[0] != RECORD_TAG { return true, items, ptr; }
      assert ptr == [RECORD_TAG] + ptr[1..];
      TagReads(RECORD_TAG, ptr[1..]);
      AtRecord(sch, items, ptr, depth);
      ptr := ptr[1..];
    }
  }

  /**
   * The generated parser, with its inner loop, computes the plain one on top of every list and on
   * every input, success or failure, wherever the input buffer has its seams.
   */
  method ParseFast(sch: Schema, start: seq<Message>, s: seq<byte>, depth: nat, seams: set<nat>)
    returns (ok: bool, items: seq<Message>)
    ensures (if ok then Some(items) else None) == ParseList(sch, start, s, depth)
  {
    items := start;
    var ptr := s;
    while ptr != []
      invariant ParseList(sch, items, ptr, depth) == ParseList(sch, start, s, depth)
      decreases |ptr|
    {
      var tagRead := ReadTag(ptr);
      if tagRead.Fail? { return false, items; }
      var tag := tagRead.value;
      var isRecord := tag / 8 == 1 && tag % 256 == RECORD_TAG;
      RecordTag(tag);
      if isRecord {
        AtRecord(sch, items, ptr, depth);
        var more, list, rest := FastRecords(sch, items, tagRead.rest, depth, seams);
        if !more { return false, items; }
        items, ptr := list, rest;
      } else {
        AtOther(sch, items, ptr, depth);
        if tag == 0 || tag % 8 == 4 { return false, items; }
        var skipped := Skip(tag, tagRead.rest, depth);
        if skipped.None? { return false, items; }
        ptr := skipped.value;
      }
    }
    return true, items;
  }

  // ---------------------------------------------------------------------------------------
  // Arbitrary wire bytes

  lemma NestedStable(sch: Schema, s: seq<byte>, t: seq<byte>, depth: nat)
    requires ReadNested(sch, s, depth).Ok?
    ensures ReadNested(sch, s + t, depth) == Ok(ReadNested(sch, s, depth).value, ReadNested(sch, s, depth).rest + t)
  {
    ReadBytesStable(s, t);
  }

  /** A turn that succeeds does not depend on what follows. */
  lemma ListTurnStable(sch: Schema, s: seq<byte>, t: seq<byte>, depth: nat)
    requires !ListTurnOf(sch, s, depth).BadTurn?
    ensures ListTurnOf(sch, s + t, depth)
         == ListTurnOf(sch, s, depth).(rest := ListTurnOf(sch, s, depth).rest + t)
  {
    ReadVarintStable(s, t, 5);
    var tag, rest := ReadTag(s).value, ReadTag(s).rest;
    if tag == RECORD_TAG { NestedStable(sch, rest, t, depth); } else { SkipStable(tag, rest, t, depth); }
  }

  /** Parsing is sequential: after any accepted bytes, the rest is parsed on top of their list. */
  lemma {:induction false} ListConcat(sch: Schema, items: seq<Message>, x: seq<byte>, y: seq<byte>, depth: nat)
    requires ParseList(sch, items, x, depth).Some?
    ensures ParseList(sch, items, x + y, depth) == ParseList(sch, ParseList(sch, items, x, depth).value, y, depth)
    decreases |x|
  {
    if x == [] {
      assert x + y == y;
    } else {
      ListTurnStable(sch, x, y, depth);
      var t := ListTurnOf(sch, x, depth);
      ListConcat(sch, if t.Record? then items + [t.m] else items, t.rest, y, depth);
    }
  }

  /** The list that is parsed onto stays in front, and decides nothing. */
  lemma {:induction false} ListOnto(sch: Schema, front: seq<Message>, items: seq<Message>, s: seq<byte>, depth: nat)
    ensures ParseList(sch, front + items, s, depth)
         == match ParseList(sch, items, s, depth) case None => None case Some(list) => Some(front + list)
    decreases |s|
  {
    if s != [] {
      match ListTurnOf(sch, s, depth) {
        case BadTurn =>
        case Record(m, rest) =>
          assert front + items + [m] == front + (items + [m]);
          ListOnto(sch, front, items + [m], rest, depth);
        case Other(rest) => ListOnto(sch, front, items, rest, depth);
      }
    }
  }

  /** For any two accepted byte strings, parsing the concatenation is `MergeFrom`: the lists appended. */
  lemma AnyBytesMerge(sch: Schema, x: seq<byte>, y: seq<byte>, depth: nat)
    requires ParseList(sch, [], x, depth).Some? && ParseList(sch, [], y, depth).Some?
    ensures ParseList(sch, [], x + y, depth)
         == Some(ParseList(sch, [], x, depth).value + ParseList(sch, [], y, depth).value)
  {
    var a := ParseList(sch, [], x, depth).value;
    ListConcat(sch, [], x, y, depth);
    ListOnto(sch, a, [], y, depth);
    assert a + [] == a;
  }

  // ---------------------------------------------------------------------------------------
  // Serializing

  /** Nested messages the reader takes back. */
  ghost predicate AllReadable(sch: Schema, items: seq<Message>) {
    forall i :: 0 <= i < |items| ==>
      Typed(sch, items[i]) && ReadableFrom(items[i], 0) && |Serialize(sch, items[i])| <= MAX_LENGTH
  }

  function SerializeRecord(sch: Schema, m: Message): seq<byte>
    requires Typed(sch, m)
  {
    var body := Serialize(sch, m);
    [RECORD_TAG] + (Varint(|body|) + body)
  }

  function SerializeList(sch: Schema, items: seq<Message>): seq<byte>
    requires forall i :: 0 <= i < |items| ==> Typed(sch, items[i])
  {
    if items == [] then [] else SerializeRecord(sch, items[0]) + SerializeList(sch, items[1..])
  }

  /** The body parses to the message, at every recursion limit. */
  ghost predicate ReadsBack(sch: Schema, body: seq<byte>, m: Message) {
    forall depth: nat :: Parse(sch, Defaults(sch), body, depth) == Some(m)
  }

  lemma SerializedReadsBack(sch: Schema, m: Message)
    requires Typed(sch, m) && ReadableFrom(m, 0)
    ensures ReadsBack(sch, Serialize(sch, m), m)
  {
    forall depth: nat ensures Parse(sch, Defaults(sch), Serialize(sch, m), depth) == Some(m) {
      RoundTrip(sch, m, depth);
    }
  }

  lemma RecordReads(sch: Schema, body: seq<byte>, m: Message, y: seq<byte>, depth: nat)
    requires |body| <= MAX_LENGTH && depth > 0 && ReadsBack(sch, body, m)
    ensures ReadNested(sch, Varint(|body|) + body + y, depth) == Ok(m, y)
  {
    TextReadsBack(body, y);
  }

  /** In front of any bytes and on top of any list, `x` is parsed by appending `list`. */
  ghost predicate Appends(sch: Schema, x: seq<byte>, list: seq<Message>, depth: nat) {
    forall items, y :: ParseList(sch, items, x + y, depth) == ParseList(sch, items + list, y, depth)
  }

  /** One turn of the parser undoes one written record. */
  lemma RecordAppends(sch: Schema, body: seq<byte>, m: Message, depth: nat)
    requires |body| <= MAX_LENGTH && depth > 0 && ReadsBack(sch, body, m)
    ensures Appends(sch, [RECORD_TAG] + (Varint(|body|) + body), [m], depth)
  {
    var record := Varint(|body|) + body;
    forall items, y ensures ParseList(sch, items, [RECORD_TAG] + record + y, depth) == ParseList(sch, items + [m], y, depth) {
      Assoc([RECORD_TAG], record, y);
      TagReads(RECORD_TAG, record + y);
      AtRecord(sch, items, [RECORD_TAG] + record + y, depth);
      RecordReads(sch, body, m, y, depth);
    }
  }

  lemma AppendsBoth(sch: Schema, x: seq<byte>, a: seq<Message>, y: seq<byte>, b: seq<Message>, depth: nat)
    requires Appends(sch, x, a, depth) && Appends(sch, y, b, depth)
    ensures Appends(sch, x + y, a + b, depth)
  {
    forall items, z ensures ParseList(sch, items, x + y + z, depth) == ParseList(sch, items + (a + b), z, depth) {
      Assoc(x, y, z);
      assert items + a + b == items + (a + b);
      assert ParseList(sch, items, x + (y + z), depth) == ParseList(sch, items + a, y + z, depth);
    }
  }

  lemma AppendsNothing(sch: Schema, depth: nat)
    ensures Appends(sch, [], [], depth)
  {
    forall items: seq<Message>, y: seq<byte>
      ensures ParseList(sch, items, [] + y, depth) == ParseList(sch, items + [], y, depth)
    {
      assert [] + y == y && items + [] == items;
    }
  }

  /** Parsing a serialized list on top of another, with anything after it: the records are appended. */
  lemma {:induction false} ListAppends(sch: Schema, list: seq<Message>, depth: nat)
    requires AllReadable(sch, list) && depth > 0
    ensures Appends(sch, SerializeList(sch, list), list, depth)
    decreases |list|
  {
    if list == [] {
      AppendsNothing(sch, depth);
    } else {
      var m, rest := list[0], list[1..];
      SerializedReadsBack(sch, m);
      RecordAppends(sch, Serialize(sch, m), m, depth);
      ListAppends(sch, rest, depth);
      AppendsBoth(sch, SerializeRecord(sch, m), [m], SerializeList(sch, rest), rest, depth);
      assert list == [m] + rest;
    }
  }

  /** Round trip for every list, and concatenation is `MergeFrom`: the second list is appended. */
  lemma ListLaws(sch: Schema, a: seq<Message>, b: seq<Message>)
    requires AllReadable(sch, a) && AllReadable(sch, b)
    ensures ParseList(sch, [], SerializeList(sch, a), DEPTH) == Some(a)
    ensures ParseList(sch, [], SerializeList(sch, a) + SerializeList(sch, b), DEPTH) == Some(a + b)
  {
    ListAppends(sch, a, DEPTH);
    ListAppends(sch, b, DEPTH);
    WholeList(sch, SerializeList(sch, a), a, DEPTH);
    AppendsBoth(sch, SerializeList(sch, a), a, SerializeList(sch, b), b, DEPTH);
    WholeList(sch, SerializeList(sch, a) + SerializeList(sch, b), a + b, DEPTH);
  }

  lemma WholeList(sch: Schema, x: seq<byte>, list: seq<Message>, depth: nat)
    requires Appends(sch, x, list, depth)
    ensures ParseList(sch, [], x, depth) == Some(list)
  {
    assert x + [] == x && [] + list == list;
    assert ParseList(sch, [], x + [], depth) == ParseList(sch, [] + list, [], depth);
  }

  /** Three optional varints of at most ten bytes and their tags: every RoomInfo is read back. */
  lemma RoomsReadable(rooms: seq<Message>)
    requires forall i :: 0 <= i < |rooms| ==> Typed(ROOM_INFO, rooms[i])
    ensures AllReadable(ROOM_INFO, rooms)
  {
    forall i | 0 <= i < |rooms| ensures |Serialize(ROOM_INFO, rooms[i])| <= 33 && ReadableFrom(rooms[i], 0) {
      NumbersSmall(ROOM_INFO, rooms[i], 0);
    }
  }

  lemma PrefixOfLength(n: nat)
    requires n < POW32
    ensures LengthDelimitedSize(n) == |Varint(n)| + n
  {
    PrefixSize(n);
  }

  lemma RecordSize(sch: Schema, m: Message)
    requires Typed(sch, m) && ReadableFrom(m, 0) && |Serialize(sch, m)| <= MAX_LENGTH
    ensures |SerializeRecord(sch, m)| == 1 + LengthDelimitedSize(SizeFrom(sch, m, 0))
  {
    SizeExact(sch, m, 0);
    PrefixOfLength(|Serialize(sch, m)|);
  }

  /** `ByteSizeLong`: one tag per record, then length prefix and nested size of each. */
  method ByteSizeLong(sch: Schema, items: seq<Message>) returns (size: nat)
    requires AllReadable(sch, items)
    ensures size == |SerializeList(sch, items)|
  {
    size := |items|;
    var i := 0;
    while i < |items|
      invariant 0 <= i <= |items|
      invariant size + |SerializeList(sch, items[i..])| == |SerializeList(sch, items)| + |items| - i
    {
      var nested := SizeFrom(sch, items[i], 0);
      RecordSize(sch, items[i]);
      assert items[i..][0] == items[i] && items[i..][1..] == items[i + 1..];
      size := size + LengthDelimitedSize(nested);
      i := i + 1;
    }
    assert items[|items|..] == [];
  }
}
