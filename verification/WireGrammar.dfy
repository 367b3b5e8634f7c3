/** The parsers accept exactly the byte strings of the wire format, with exactly their meaning. */
module WireGrammar {
  import opened Bytes
  import opened Varints
  import opened Utf8
  import opened Codec
  import opened CodecLaws
  import opened UnknownFields
  import opened RoomLists

  /** One field on the wire: a number, a string, or something the schema does not know. */
  datatype Item =
    | Number(tag: seq<byte>, i: nat, g: seq<byte>)
    | String(tag: seq<byte>, i: nat, g: seq<byte>, text: seq<byte>)
    | Foreign(tag: seq<byte>, u: Unknown)

  /** The item is well formed; varints need not be minimal, strings must be UTF-8. */
  ghost predicate WellItem(sch: Schema, x: Item, depth: nat) {
    && IsTag(x.tag)
    && match x
       case Number(tag, i, g) =>
         i < |sch| && sch[i] != KString && TagIn(tag) == Tag(i, sch[i]) && IsVarint(g) && |g| <= 10
       case String(tag, i, g, text) =>
         && i < |sch| && sch[i] == KString && TagIn(tag) == Tag(i, sch[i])
         && IsVarint(g) && |g| <= 5 && ValueOf(g) == |text| <= MAX_LENGTH && ValidUtf8(text)
       case Foreign(tag, u) => FieldOf(sch, TagIn(tag)) == None && Well(TagIn(tag), u) && Fits(u, depth)
  }

  ghost function OnWire(x: Item): seq<byte> {
    match x
    case Number(tag, _, g) => tag + g
    case String(tag, _, g, text) => tag + (g + text)
    case Foreign(tag, u) => tag + Content(u)
  }

  /** What the item does to a message. */
  ghost function Apply(sch: Schema, m: Message, x: Item): Message
    requires |m| == |sch|
  {
    match x
    case Number(_, i, g) => if i < |sch| then m[i := Num(FromWire(sch[i], ValueOf(g)))] else m
    case String(_, i, _, text) => if i < |sch| then m[i := Text(text)] else m
    case Foreign(_, _) => m
  }

  ghost predicate WellItems(sch: Schema, xs: seq<Item>, depth: nat) {
    forall k :: 0 <= k < |xs| ==> WellItem(sch, xs[k], depth)
  }

  ghost function AllBytes(xs: seq<Item>): seq<byte> {
    if xs == [] then [] else OnWire(xs[0]) + AllBytes(xs[1..])
  }

  ghost function ApplyAll(sch: Schema, m: Message, xs: seq<Item>): (r: Message)
    requires |m| == |sch|
    decreases |xs|
  {
    if xs == [] then m else ApplyAll(sch, Apply(sch, m, xs[0]), xs[1..])
  }

  // ---------------------------------------------------------------------------------------
  // One turn

  /** The turn of the parse loop that an item calls for. */
  ghost function Calls(sch: Schema, x: Item, rest: seq<byte>): Turn
    requires !x.Foreign? ==> x.i < |sch|
  {
    match x
    case Number(_, i, g) => Set(i, Num(FromWire(sch[i], ValueOf(g))), rest)
    case String(_, i, _, text) => Set(i, Text(text), rest)
    case Foreign(_, _) => Skipped(rest)
  }

  lemma KnownTag(sch: Schema, i: nat)
    requires i < |sch|
    ensures FieldOf(sch, Tag(i, sch[i])) == Some(i)
  {
    FieldOfTag(sch, i);
  }

  lemma ItemTurn(sch: Schema, x: Item, t: seq<byte>, depth: nat)
    requires WellItem(sch, x, depth)
    ensures TurnOf(sch, OnWire(x) + t, depth) == Calls(sch, x, t)
  {
    match x {
      case Number(tag, i, g) =>
        Assoc(tag, g, t);
        TagRead(tag, g + t);
        KnownTag(sch, i);
        VarintRead(g, t, 10);
      case String(tag, i, g, text) =>
        Assoc(tag, g + text, t);
        TagRead(tag, g + text + t);
        KnownTag(sch, i);
        BytesRead(g, text, t);
      case Foreign(tag, u) =>
        Assoc(tag, Content(u), t);
        TagRead(tag, Content(u) + t);
        SkipExact(TagIn(tag), u, t, depth);
    }
  }

  /** A turn that succeeds has read an item. */
  lemma TurnItem(sch: Schema, s: seq<byte>, depth: nat) returns (x: Item)
    requires !TurnOf(sch, s, depth).Bad?
    ensures WellItem(sch, x, depth) && s == OnWire(x) + TurnOf(sch, s, depth).rest
    ensures TurnOf(sch, s, depth) == Calls(sch, x, TurnOf(sch, s, depth).rest)
  {
    var tag := ReadIsVarint(s, 5);
    var rest := ReadTag(s).rest;
    match FieldOf(sch, TagIn(tag)) {
      case Some(i) =>
        x := FieldItem(sch, i, tag, rest);
      case None =>
        var u := SkipSound(TagIn(tag), rest, depth);
        x := Foreign(tag, u);
        Assoc(tag, Content(u), TurnOf(sch, s, depth).rest);
    }
  }

  lemma FieldItem(sch: Schema, i: nat, tag: seq<byte>, s: seq<byte>) returns (x: Item)
    requires i < |sch| && IsTag(tag) && TagIn(tag) == Tag(i, sch[i]) && ReadField(sch[i], s).Ok?
    ensures !x.Foreign? && x.i == i && WellItem(sch, x, 0)
    ensures forall depth :: WellItem(sch, x, 0) ==> WellItem(sch, x, depth)
    ensures tag + s == OnWire(x) + ReadField(sch[i], s).rest
    ensures Calls(sch, x, ReadField(sch[i], s).rest) == Set(i, ReadField(sch[i], s).value, ReadField(sch[i], s).rest)
  {
    var rest := ReadField(sch[i], s).rest;
    if sch[i] == KString {
      var g := BytesReadBack(s);
      var text := ReadBytes(s).value;
      x := String(tag, i, g, text);
      Assoc(tag, g + text, rest);
    } else {
      var g := ReadIsVarint(s, 10);
      x := Number(tag, i, g);
      Assoc(tag, g, rest);
    }
  }

  // ---------------------------------------------------------------------------------------
  // Whole messages

  lemma ApplyKeeps(sch: Schema, m: Message, x: Item, depth: nat)
    requires Typed(sch, m) && WellItem(sch, x, depth)
    ensures Typed(sch, Apply(sch, m, x))
  {
    if x.Number? { NumberRead(sch[x.i], ValueOf(x.g)); }
  }

  /** Items in a row are accepted, and mean what they say one after the other. */
  lemma {:induction false} ItemsParse(sch: Schema, m: Message, xs: seq<Item>, depth: nat)
    requires Typed(sch, m) && WellItems(sch, xs, depth)
    ensures Parse(sch, m, AllBytes(xs), depth) == Some(ApplyAll(sch, m, xs))
    decreases |xs|
  {
    if xs != [] {
      var x, rest := xs[0], AllBytes(xs[1..]);
      ItemTurn(sch, x, rest, depth);
      ApplyKeeps(sch, m, x, depth);
      ParseTurn(sch, m, OnWire(x) + rest, x, rest, depth);
      ItemsParse(sch, Apply(sch, m, x), xs[1..], depth);
    }
  }

  lemma ParseTurn(sch: Schema, m: Message, s: seq<byte>, x: Item, rest: seq<byte>, depth: nat)
    requires Typed(sch, m) && s != [] && (!x.Foreign? ==> x.i < |sch|) && Typed(sch, Apply(sch, m, x))
    requires TurnOf(sch, s, depth) == Calls(sch, x, rest)
    ensures Parse(sch, m, s, depth) == Parse(sch, Apply(sch, m, x), rest, depth)
  {
  }

  /** Whatever is accepted is items in a row, and the result is their meaning. */
  lemma {:induction false} ParsedItems(sch: Schema, m: Message, s: seq<byte>, depth: nat) returns (xs: seq<Item>)
    requires Typed(sch, m) && Parse(sch, m, s, depth).Some?
    ensures WellItems(sch, xs, depth) && AllBytes(xs) == s
    ensures Parse(sch, m, s, depth) == Some(ApplyAll(sch, m, xs))
    decreases |s|
  {
    if s == [] {
      xs := [];
    } else {
      var x := TurnItem(sch, s, depth);
      var rest := TurnOf(sch, s, depth).rest;
      ApplyKeeps(sch, m, x, depth);
      ParseTurn(sch, m, s, x, rest, depth);
      var later := ParsedItems(sch, Apply(sch, m, x), rest, depth);
      xs := [x] + later;
      assert xs[1..] == later;
    }
  }

  /** The parser gives `r` exactly when the bytes are well-formed items that mean `r` on top of `m`. */
  lemma ParseExactly(sch: Schema, m: Message, s: seq<byte>, r: Message, depth: nat)
    requires Typed(sch, m)
    ensures Parse(sch, m, s, depth) == Some(r)
       <==> exists xs :: WellItems(sch, xs, depth) && AllBytes(xs) == s && ApplyAll(sch, m, xs) == r
  {
    if Parse(sch, m, s, depth) == Some(r) { var xs := ParsedItems(sch, m, s, depth); }
    if xs :| WellItems(sch, xs, depth) && AllBytes(xs) == s && ApplyAll(sch, m, xs) == r {
      ItemsParse(sch, m, xs, depth);
    }
  }

  // ---------------------------------------------------------------------------------------
  // Lists of nested messages

  /** One record of the list, or something that is not one. */
  datatype Entry =
    | Nested(tag: seq<byte>, g: seq<byte>, body: seq<byte>)
    | Stray(tag: seq<byte>, u: Unknown)

  /** A nested message is parsed on its own, one level deeper. */
  ghost predicate WellEntry(sch: Schema, x: Entry, depth: nat) {
    && IsTag(x.tag)
    && match x
       case Nested(tag, g, body) =>
         && TagIn(tag) == RECORD_TAG && IsVarint(g) && |g| <= 5 && ValueOf(g) == |body| <= MAX_LENGTH
         && depth > 0 && Parse(sch, Defaults(sch), body, depth - 1).Some?
       case Stray(tag, u) => TagIn(tag) != RECORD_TAG && Well(TagIn(tag), u) && Fits(u, depth)
  }

  ghost function EntryOnWire(x: Entry): seq<byte> {
    match x case Nested(tag, g, body) => tag + (g + body) case Stray(tag, u) => tag + Content(u)
  }

  /** The message an entry adds to the list, if any. */
  ghost function Adds(sch: Schema, x: Entry, depth: nat): seq<Message>
    requires WellEntry(sch, x, depth)
  {
    if x.Nested? then [Parse(sch, Defaults(sch), x.body, depth - 1).value] else []
  }

  ghost predicate WellEntries(sch: Schema, xs: seq<Entry>, depth: nat) {
    forall k :: 0 <= k < |xs| ==> WellEntry(sch, xs[k], depth)
  }

  ghost function EntriesOnWire(xs: seq<Entry>): seq<byte> {
    if xs == [] then [] else EntryOnWire(xs[0]) + EntriesOnWire(xs[1..])
  }

  ghost function AddAll(sch: Schema, xs: seq<Entry>, depth: nat): seq<Message>
    requires WellEntries(sch, xs, depth)
  {
    if xs == [] then [] else Adds(sch, xs[0], depth) + AddAll(sch, xs[1..], depth)
  }

  ghost function EntryCalls(sch: Schema, x: Entry, rest: seq<byte>, depth: nat): ListTurn
    requires WellEntry(sch, x, depth)
  {
    if x.Nested? then Record(Parse(sch, Defaults(sch), x.body, depth - 1).value, rest) else ListTurn.Other(rest)
  }

  lemma EntryTurn(sch: Schema, x: Entry, t: seq<byte>, depth: nat)
    requires WellEntry(sch, x, depth)
    ensures ListTurnOf(sch, EntryOnWire(x) + t, depth) == EntryCalls(sch, x, t, depth)
  {
    match x {
      case Nested(tag, g, body) =>
        Assoc(tag, g + body, t);
        TagRead(tag, g + body + t);
        BytesRead(g, body, t);
      case Stray(tag, u) =>
        Assoc(tag, Content(u), t);
        TagRead(tag, Content(u) + t);
        SkipExact(TagIn(tag), u, t, depth);
    }
  }

  lemma TurnEntry(sch: Schema, s: seq<byte>, depth: nat) returns (x: Entry)
    requires !ListTurnOf(sch, s, depth).BadTurn?
    ensures WellEntry(sch, x, depth) && s == EntryOnWire(x) + ListTurnOf(sch, s, depth).rest
    ensures ListTurnOf(sch, s, depth) == EntryCalls(sch, x, ListTurnOf(sch, s, depth).rest, depth)
  {
    var tag := ReadIsVarint(s, 5);
    var rest, left := ReadTag(s).rest, ListTurnOf(sch, s, depth).rest;
    if TagIn(tag) == RECORD_TAG {
      var g := BytesReadBack(rest);
      x := Nested(tag, g, ReadBytes(rest).value);
      Assoc(tag, g + ReadBytes(rest).value, left);
    } else {
      var u := SkipSound(TagIn(tag), rest, depth);
      x := Stray(tag, u);
      Assoc(tag, Content(u), left);
    }
  }

  lemma EntryTaken(sch: Schema, items: seq<Message>, s: seq<byte>, x: Entry, rest: seq<byte>, depth: nat)
    requires s != [] && WellEntry(sch, x, depth) && ListTurnOf(sch, s, depth) == EntryCalls(sch, x, rest, depth)
    ensures ParseList(sch, items, s, depth) == ParseList(sch, items + Adds(sch, x, depth), rest, depth)
  {
    assert x.Stray? ==> items + [] == items;
  }

  lemma {:induction false} EntriesParse(sch: Schema, items: seq<Message>, xs: seq<Entry>, depth: nat)
    requires WellEntries(sch, xs, depth)
    ensures ParseList(sch, items, EntriesOnWire(xs), depth) == Some(items + AddAll(sch, xs, depth))
    decreases |xs|
  {
    if xs == [] {
      assert items + [] == items;
    } else {
      var x, rest := xs[0], EntriesOnWire(xs[1..]);
      EntryTurn(sch, x, rest, depth);
      EntryTaken(sch, items, EntryOnWire(x) + rest, x, rest, depth);
      EntriesParse(sch, items + Adds(sch, x, depth), xs[1..], depth);
      Assoc(items, Adds(sch, x, depth), AddAll(sch, xs[1..], depth));
    }
  }

  lemma {:induction false} ParsedEntries(sch: Schema, items: seq<Message>, s: seq<byte>, depth: nat) returns (xs: seq<Entry>)
    requires ParseList(sch, items, s, depth).Some?
    ensures WellEntries(sch, xs, depth) && EntriesOnWire(xs) == s
    ensures ParseList(sch, items, s, depth) == Some(items + AddAll(sch, xs, depth))
    decreases |s|
  {
    if s == [] {
      xs := [];
      assert items + [] == items;
    } else {
      var x := TurnEntry(sch, s, depth);
      var rest := ListTurnOf(sch, s, depth).rest;
      EntryTaken(sch, items, s, x, rest, depth);
      var later := ParsedEntries(sch, items + Adds(sch, x, depth), rest, depth);
      xs := [x] + later;
      assert xs[1..] == later;
      Assoc(items, Adds(sch, x, depth), AddAll(sch, later, depth));
    }
  }

  /** The list parser gives `r` exactly when the bytes are well-formed entries that add up to `r` behind `items`. */
  lemma ListExactly(sch: Schema, items: seq<Message>, s: seq<byte>, r: seq<Message>, depth: nat)
    ensures ParseList(sch, items, s, depth) == Some(r)
       <==> exists xs :: WellEntries(sch, xs, depth) && EntriesOnWire(xs) == s && items + AddAll(sch, xs, depth) == r
  {
    if ParseList(sch, items, s, depth) == Some(r) { var xs := ParsedEntries(sch, items, s, depth); }
    if xs :| WellEntries(sch, xs, depth) && EntriesOnWire(xs) == s && items + AddAll(sch, xs, depth) == r {
      EntriesParse(sch, items, xs, depth);
    }
  }
}
