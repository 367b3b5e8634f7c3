/**
 * Generated messages in the form of the generated code: an object whose parse loop assigns its
 * fields, a serializer that advances through a byte array, a size accumulator and a merge.
 */
module Messages {
  import opened Bytes
  import opened Varints
  import opened Codec

  const REQ_CHAT: Schema := [KString, KEnum, KInt32, KString]
  const REQ_LOGIN: Schema := [KBool, KString, KString, KString]
  const ROOM_INFO: Schema := [KInt32, KInt32, KInt32]

  // ---------------------------------------------------------------------------------------
  // Writing into an array

  /** The array contents `t` with `bytes` written at `at`. */
  ghost function Put(t: seq<byte>, at: nat, bytes: seq<byte>): (r: seq<byte>)
    requires at + |bytes| <= |t|
    ensures |r| == |t|
  {
    t[..at] + bytes + t[at + |bytes|..]
  }

  lemma PutPut(t: seq<byte>, at: nat, a: seq<byte>, b: seq<byte>)
    requires at + |a| + |b| <= |t|
    ensures Put(Put(t, at, a), at + |a|, b) == Put(t, at, a + b)
  {
  }

  lemma PutNothing(t: seq<byte>, at: nat)
    requires at <= |t|
    ensures Put(t, at, []) == t
  {
  }

  method WriteRaw(target: array<byte>, at: nat, bytes: seq<byte>) returns (end: nat)
    requires at + |bytes| <= target.Length
    modifies target
    ensures end == at + |bytes| && target[..] == Put(old(target[..]), at, bytes)
  {
    forall i | 0 <= i < |bytes| { target[at + i] := bytes[i]; }
    end := at + |bytes|;
  }

  lemma VarintGroup(done: seq<byte>, left: nat, all: seq<byte>)
    requires left >= 128 && done + Varint(left) == all
    ensures done + [left % 128 + 128] + Varint(left / 128) == all
    ensures |done| + 1 < |all|
  {
    Assoc(done, [left % 128 + 128], Varint(left / 128));
  }

  /** One more byte behind `done`, which was written at `at` over the contents `t`. */
  method AppendByte(target: array<byte>, at: nat, ghost t: seq<byte>, ghost done: seq<byte>, end: nat, b: byte)
    requires end == at + |done| < target.Length == |t| && target[..] == Put(t, at, done)
    modifies target
    ensures target[..] == Put(t, at, done + [b])
  {
    PutPut(t, at, done, [b]);
    target[end] := b;
  }

  method WriteVarint(target: array<byte>, at: nat, v: nat) returns (end: nat)
    requires at + |Varint(v)| <= target.Length
    modifies target
    ensures end == at + |Varint(v)| && target[..] == Put(old(target[..]), at, Varint(v))
  {
    end := at;
    var left := v;
    ghost var t, all, done: seq<byte> := target[..], Varint(v), [];
    PutNothing(t, at);
    while left >= 128
      invariant end == at + |done| && done + Varint(left) == all
      invariant target[..] == Put(t, at, done)
      decreases left
    {
      VarintGroup(done, left, all);
      AppendByte(target, at, t, done, end, left % 128 + 128);
      done := done + [left % 128 + 128];
      left, end := left / 128, end + 1;
    }
    assert all == done + [left];
    AppendByte(target, at, t, done, end, left);
    end := end + 1;
  }

  /** A varint behind `done`. */
  method AppendVarint(target: array<byte>, at: nat, ghost t: seq<byte>, ghost done: seq<byte>, end: nat, v: nat)
    returns (next: nat)
    requires at + |done| == end && end + |Varint(v)| <= target.Length == |t| && target[..] == Put(t, at, done)
    modifies target
    ensures next == at + |done + Varint(v)| && target[..] == Put(t, at, done + Varint(v))
  {
    PutPut(t, at, done, Varint(v));
    next := WriteVarint(target, end, v);
  }

  /** Raw bytes behind `done`. */
  method AppendRaw(target: array<byte>, at: nat, ghost t: seq<byte>, ghost done: seq<byte>, end: nat, bytes: seq<byte>)
    returns (next: nat)
    requires at + |done| == end && end + |bytes| <= target.Length == |t| && target[..] == Put(t, at, done)
    modifies target
    ensures next == at + |done + bytes| && target[..] == Put(t, at, done + bytes)
  {
    PutPut(t, at, done, bytes);
    next := WriteRaw(target, end, bytes);
  }

  /** A string field: nothing when empty, else tag, length and bytes. */
  method WriteString(target: array<byte>, at: nat, i: nat, s: seq<byte>) returns (end: nat)
    requires i < 15 && at + |Field(i, KString, Text(s))| <= target.Length
    modifies target
    ensures end == at + |Field(i, KString, Text(s))|
    ensures target[..] == Put(old(target[..]), at, Field(i, KString, Text(s)))
  {
    end := at;
    ghost var t := target[..];
    PutNothing(t, at);
    if s == [] { return; }
    ghost var tag, length: seq<byte> := [Tag(i, KString)], Varint(|s|);
    Assoc(tag, length, s);
    assert [] + tag == tag;
    AppendByte(target, at, t, [], end, Tag(i, KString));
    end := AppendVarint(target, at, t, tag, end + 1, |s|);
    end := AppendRaw(target, at, t, tag + length, end, s);
  }

  /** A numeric field: nothing when zero, else tag and sign-extended varint. */
  method WriteNumber(target: array<byte>, at: nat, i: nat, k: Kind, n: int) returns (end: nat)
    requires i < 15 && HasKind(Num(n), k) && at + |Field(i, k, Num(n))| <= target.Length
    modifies target
    ensures end == at + |Field(i, k, Num(n))|
    ensures target[..] == Put(old(target[..]), at, Field(i, k, Num(n)))
  {
    end := at;
    ghost var t := target[..];
    PutNothing(t, at);
    if n == 0 { return; }
    ghost var tag: seq<byte> := [Tag(i, k)];
    assert [] + tag == tag;
    AppendByte(target, at, t, [], end, Tag(i, k));
    end := AppendVarint(target, at, t, tag, end + 1, ToWire(n));
  }

  lemma SerializeFrom4(sch: Schema, m: Message)
    requires Typed(sch, m) && |sch| == 4
    ensures Serialize(sch, m)
         == (Field(0, sch[0], m[0]) + Field(1, sch[1], m[1])) + (Field(2, sch[2], m[2]) + Field(3, sch[3], m[3]))
  {
    var f0, f1, f2, f3 := Field(0, sch[0], m[0]), Field(1, sch[1], m[1]), Field(2, sch[2], m[2]), Field(3, sch[3], m[3]);
    assert SerializeFrom(sch, m, 4) == [];
    assert SerializeFrom(sch, m, 3) == f3;
    assert SerializeFrom(sch, m, 2) == f2 + f3;
    assert SerializeFrom(sch, m, 1) == f1 + (f2 + f3);
    Assoc(f0, f1, f2 + f3);
  }

  lemma SizeFrom4(sch: Schema, m: Message)
    requires Typed(sch, m) && |sch| == 4
    ensures SizeFrom(sch, m, 0) == SizeFrom(sch, m, 2)
      + (if IsDefault(m[0]) then 0 else 1 + BodySize(m[0])) + (if IsDefault(m[1]) then 0 else 1 + BodySize(m[1]))
    ensures SizeFrom(sch, m, 2)
      == (if IsDefault(m[2]) then 0 else 1 + BodySize(m[2])) + (if IsDefault(m[3]) then 0 else 1 + BodySize(m[3]))
  {
    assert SizeFrom(sch, m, 1) == (if IsDefault(m[1]) then 0 else 1 + BodySize(m[1])) + SizeFrom(sch, m, 2);
    assert SizeFrom(sch, m, 3) == if IsDefault(m[3]) then 0 else 1 + BodySize(m[3]);
  }

  // ---------------------------------------------------------------------------------------
  // REQ_CHAT

  method WriteField(target: array<byte>, at: nat, i: nat, k: Kind, v: Value) returns (end: nat)
    requires i < 15 && HasKind(v, k) && at + |Field(i, k, v)| <= target.Length
    modifies target
    ensures end == at + |Field(i, k, v)|
    ensures target[..] == Put(old(target[..]), at, Field(i, k, v))
  {
    if v.Text? { end := WriteString(target, at, i, v.s); } else { end := WriteNumber(target, at, i, k, v.n); }
  }

  /** Field `i` of a message whose fields before it are written as `done`. */
  method AppendField(target: array<byte>, at: nat, ghost t: seq<byte>, ghost done: seq<byte>, end: nat,
                     sch: Schema, m: Message, i: nat) returns (next: nat, ghost longer: seq<byte>)
    requires Typed(sch, m) && i < |sch| && at + |done| == end
    requires end + |SerializeFrom(sch, m, i)| <= target.Length == |t| && target[..] == Put(t, at, done)
    modifies target
    ensures longer + SerializeFrom(sch, m, i + 1) == done + SerializeFrom(sch, m, i)
    ensures next == at + |longer| <= target.Length && target[..] == Put(t, at, longer)
  {
    ghost var field := Field(i, sch[i], m[i]);
    Assoc(done, field, SerializeFrom(sch, m, i + 1));
    PutPut(t, at, done, field);
    longer := done + field;
    next := WriteField(target, end, i, sch[i], m[i]);
  }

  lemma LengthOfSum(a: seq<byte>, b: seq<byte>, c: seq<byte>)
    requires a + b == c
    ensures |a| + |b| == |c|
  {
  }

  /** `SerializeToArray` for a message of any schema: the fields one after the other. */
  method WriteMessage(target: array<byte>, at: nat, sch: Schema, m: Message) returns (end: nat)
    requires Typed(sch, m) && at + |Serialize(sch, m)| <= target.Length
    modifies target
    ensures end == at + |Serialize(sch, m)| && target[..] == Put(old(target[..]), at, Serialize(sch, m))
  {
    end := at;
    ghost var t, all, done: seq<byte> := target[..], Serialize(sch, m), [];
    PutNothing(t, at);
    for i := 0 to |sch|
      invariant end == at + |done| && done + SerializeFrom(sch, m, i) == all
      invariant target[..] == Put(t, at, done)
    {
      LengthOfSum(done, SerializeFrom(sch, m, i), all);
      end, done := AppendField(target, at, t, done, end, sch, m, i);
    }
    assert done == all;
  }

  /** The switch on field number and low tag byte finds exactly the known fields. */
  lemma ChatFields(tag: nat)
    ensures (tag / 8 == 1 && tag % 256 == 10 <==> tag == 10) && (tag / 8 == 2 && tag % 256 == 16 <==> tag == 16)
    ensures (tag / 8 == 3 && tag % 256 == 24 <==> tag == 24) && (tag / 8 == 4 && tag % 256 == 34 <==> tag == 34)
    ensures FieldOf(REQ_CHAT, tag)
         == if tag == 10 then Some(0) else if tag == 16 then Some(1)
            else if tag == 24 then Some(2) else if tag == 34 then Some(3) else None
  {
  }

  lemma MergeFour(to: Message, from: Message)
    requires |to| == |from| == 4
    ensures Merge(to, from)
         == [if IsDefault(from[0]) then to[0] else from[0], if IsDefault(from[1]) then to[1] else from[1],
             if IsDefault(from[2]) then to[2] else from[2], if IsDefault(from[3]) then to[3] else from[3]]
  {
  }

  lemma TurnCases(sch: Schema, s: seq<byte>, depth: nat)
    requires ReadTag(s).Ok?
    ensures var tag, rest := ReadTag(s).value, ReadTag(s).rest;
      match FieldOf(sch, tag)
      case Some(i) =>
        TurnOf(sch, s, depth)
        == (match ReadField(sch[i], rest) case Fail => Bad case Ok(v, more) => Set(i, v, more))
      case None =>
        TurnOf(sch, s, depth)
        == if tag == 0 || tag % 8 == 4 || Skip(tag, rest, depth).None? then Bad
           else Skipped(Skip(tag, rest, depth).value)
  {
  }

  class ReqChat {
    var message: seq<byte>
    var chatState: int
    var roomId: int
    var targetName: seq<byte>

    ghost predicate Valid()
      reads this
    {
      -POW31 <= chatState < POW31 && -POW31 <= roomId < POW31
    }

    ghost function View(): (m: Message)
      requires Valid()
      reads this
      ensures Typed(REQ_CHAT, m)
    {
      [Text(message), Num(chatState), Num(roomId), Text(targetName)]
    }

    constructor ()
      ensures Valid() && View() == Defaults(REQ_CHAT)
    {
      message, chatState, roomId, targetName := [], 0, 0, [];
    }

    /** The case of one known field: its value is read from `s` and assigned. */
    method ReadInto(i: nat, s: seq<byte>) returns (ok: bool, rest: seq<byte>)
      requires Valid() && i < 4
      modifies this
      ensures Valid() && (ok <==> ReadField(REQ_CHAT[i], s).Ok?)
      ensures ok ==> var r := ReadField(REQ_CHAT[i], s); rest == r.rest && View() == old(View())[i := r.value]
    {
      rest := [];
      if i == 0 || i == 3 {
        var r := ReadField(KString, s);
        if r.Fail? { return false, []; }
        if i == 0 { message := r.value.s; } else { targetName := r.value.s; }
        return true, r.rest;
      }
      var r := ReadVarint(s, 10);
      if r.Fail? { return false, []; }
      if i == 1 { chatState := FromWire(KEnum, r.value); } else { roomId := FromWire(KInt32, r.value); }
      return true, r.rest;
    }

    /** One turn of the parse loop: the switch on the field number, then the unusual tags. */
    method ParseTurn(s: seq<byte>, depth: nat) returns (ok: bool, rest: seq<byte>)
      requires Valid() && s != []
      modifies this
      ensures Valid()
      ensures ok <==> !TurnOf(REQ_CHAT, s, depth).Bad?
      ensures ok ==> var t := TurnOf(REQ_CHAT, s, depth);
        rest == t.rest && View() == if t.Set? then old(View())[t.i := t.v] else old(View())
    {
      rest := [];
      var tagRead := ReadTag(s);
      if tagRead.Fail? { return false, []; }
      var tag := tagRead.value;
      var number, low := tag / 8, tag % 256;
      ChatFields(tag);
      TurnCases(REQ_CHAT, s, depth);
      if number == 1 && low == 10 {
        ok, rest := ReadInto(0, tagRead.rest);
      } else if number == 2 && low == 16 {
        ok, rest := ReadInto(1, tagRead.rest);
      } else if number == 3 && low == 24 {
        ok, rest := ReadInto(2, tagRead.rest);
      } else if number == 4 && low == 34 {
        ok, rest := ReadInto(3, tagRead.rest);
      } else {
        if tag == 0 || tag % 8 == 4 { return false, []; }
        var skipped := Skip(tag, tagRead.rest, depth);
        if skipped.None? { return false, []; }
        return true, skipped.value;
      }
    }

    /** The parse loop, on top of the present field values. */
    method Parse(s: seq<byte>, depth: nat) returns (ok: bool)
      requires Valid()
      modifies this
      ensures Valid()
      ensures ok <==> Codec.Parse(REQ_CHAT, old(View()), s, depth).Some?
      ensures ok ==> Some(View()) == Codec.Parse(REQ_CHAT, old(View()), s, depth)
    {
      var ptr := s;
      while ptr != []
        invariant Valid()
        invariant Codec.Parse(REQ_CHAT, View(), ptr, depth) == Codec.Parse(REQ_CHAT, old(View()), s, depth)
        decreases |ptr|
      {
        var more, rest := ParseTurn(ptr, depth);
        if !more { return false; }
        ptr := rest;
      }
      return true;
    }

    /** The size accumulator, in the order of the generated code. */
    method ByteSizeLong() returns (size: nat)
      requires Valid()
      ensures size == SizeFrom(REQ_CHAT, View(), 0)
    {
      size := 0;
      if message != [] { size := size + 1 + LengthDelimitedSize(|message|); }
      if targetName != [] { size := size + 1 + LengthDelimitedSize(|targetName|); }
      if chatState != 0 { size := size + 1 + VarintSize(ToWire(chatState)); }
      if roomId != 0 { size := size + 1 + VarintSize(ToWire(roomId)); }
      SizeFrom4(REQ_CHAT, View());
    }

    /** Writes the fields one after the other and returns the end; the rest of the array is untouched. */
    method SerializeTo(target: array<byte>, at: nat) returns (end: nat)
      requires Valid() && at + |Serialize(REQ_CHAT, View())| <= target.Length
      modifies target
      ensures Valid() && View() == old(View())
      ensures end == at + |Serialize(REQ_CHAT, View())|
      ensures target[..] == Put(old(target[..]), at, Serialize(REQ_CHAT, View()))
    {
      var m := [Text(message), Num(chatState), Num(roomId), Text(targetName)];
      end := WriteMessage(target, at, REQ_CHAT, m);
    }

    method MergeFrom(from: ReqChat)
      requires Valid() && from.Valid() && from != this
      modifies this
      ensures Valid() && View() == Merge(old(View()), from.View())
    {
      MergeFour(View(), from.View());
      if from.message != [] { message := from.message; }
      if from.targetName != [] { targetName := from.targetName; }
      if from.chatState != 0 { chatState := from.chatState; }
      if from.roomId != 0 { roomId := from.roomId; }
    }
  }
}
