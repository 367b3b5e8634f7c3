/** Packet buffers: the checked framer of the client, the unchecked one of the server. */
module Packets {
  import opened Bytes
  import opened Varints
  import opened Codec
  import opened CodecLaws
  import opened Framing
  import opened Messages

  const MAX_PAYLOAD := UINT16_MAX - HEADER_SIZE

  /** The size test is exact for every message, however long its strings. */
  lemma SizeTestExact(sch: Schema, m: Message)
    requires Typed(sch, m)
    ensures SizeFrom(sch, m, 0) > MAX_PAYLOAD <==> |Serialize(sch, m)| > MAX_PAYLOAD
    ensures SizeFrom(sch, m, 0) <= MAX_PAYLOAD ==> SizeFrom(sch, m, 0) == |Serialize(sch, m)|
  {
    SizeExact(sch, m, 0);
  }

  /** A fresh buffer that begins with the header. */
  method HeaderBuffer(packetSize: nat, pktId: nat) returns (buffer: array<byte>)
    requires HEADER_SIZE <= packetSize <= UINT16_MAX && pktId <= UINT16_MAX
    ensures fresh(buffer) && buffer.Length == packetSize && buffer[..HEADER_SIZE] == Header(packetSize, pktId)
  {
    buffer := new byte[packetSize](_ => 0);
    buffer[0], buffer[1] := packetSize % 256, packetSize / 256;
    buffer[2], buffer[3] := pktId % 256, pktId / 256;
  }

  /** Header and payload in one fresh buffer, each written in place. */
  method FillBuffer(sch: Schema, pkt: Message, dataSize: nat, pktId: nat) returns (buffer: array<byte>)
    requires Typed(sch, pkt) && pktId <= UINT16_MAX
    requires dataSize == |Serialize(sch, pkt)| <= MAX_PAYLOAD
    ensures buffer[..] == MakeFrame(Serialize(sch, pkt), pktId)
  {
    buffer := HeaderBuffer(dataSize + HEADER_SIZE, pktId);
    ghost var t, header, payload := buffer[..], buffer[..HEADER_SIZE], Serialize(sch, pkt);
    assert t[..HEADER_SIZE] == header;
    var end := WriteMessage(buffer, HEADER_SIZE, sch, pkt);
    PutBehind(t, header, payload);
  }

  lemma PutBehind(t: seq<byte>, header: seq<byte>, payload: seq<byte>)
    requires |t| == |header| + |payload| && t[..|header|] == header
    ensures Put(t, |header|, payload) == header + payload
  {
  }

  /**
   * The client's `MakeSendBuffer`, for a packet of any schema: refuses exactly the payloads over
   * 65531 bytes; otherwise the buffer is the packet whose 16-bit size is payload plus 4.
   */
  method MakeSendBuffer(sch: Schema, pkt: Message, pktId: nat) returns (r: Option<seq<byte>>)
    requires Typed(sch, pkt) && pktId <= UINT16_MAX
    ensures var payload := Serialize(sch, pkt);
      r == if |payload| > MAX_PAYLOAD then None else Some(MakeFrame(payload, pktId))
  {
    var dataSize := SizeFrom(sch, pkt, 0);
    SizeTestExact(sch, pkt);
    if dataSize > MAX_PAYLOAD { return None; }
    var buffer := FillBuffer(sch, pkt, dataSize, pktId);
    return Some(buffer[..]);
  }

  /**
   * The server's `MakeSendBuffer`: both sizes are cut to 16 bits without a test, the buffer is
   * zeroed, and `SerializeToArray` writes nothing when it is given less than it needs.  None
   * stands for a buffer too small for its own header.
   */
  function ServerBuffer(payload: seq<byte>, pktId: nat): Option<seq<byte>>
    requires pktId <= UINT16_MAX
  {
    var dataSize := |payload| % (UINT16_MAX + 1);
    var packetSize := (dataSize + HEADER_SIZE) % (UINT16_MAX + 1);
    if packetSize < HEADER_SIZE then None
    else
      var zeros := seq(packetSize - HEADER_SIZE, _ => 0);
      Some(Header(packetSize, pktId) + if dataSize < |payload| then zeros else payload)
  }

  /** The server's packet carries its payload exactly when the payload is at most 65531 bytes. */
  lemma ServerBufferExact(payload: seq<byte>, pktId: nat)
    requires pktId <= UINT16_MAX
    ensures (ServerBuffer(payload, pktId).Some?
             && IsFrame(ServerBuffer(payload, pktId).value)
             && Payload(ServerBuffer(payload, pktId).value) == payload)
        <==> |payload| <= MAX_PAYLOAD
    ensures |payload| <= MAX_PAYLOAD ==> ServerBuffer(payload, pktId) == Some(MakeFrame(payload, pktId))
  {
    if |payload| > UINT16_MAX {
      assert |payload| % (UINT16_MAX + 1) < |payload|;
    }
  }

  lemma OversizeBuffer(payload: seq<byte>, pktId: nat)
    requires pktId <= UINT16_MAX && |payload| > MAX_PAYLOAD
    ensures var r, low := ServerBuffer(payload, pktId), |payload| % (UINT16_MAX + 1);
      && (r.None? <==> low > MAX_PAYLOAD)
      && (r.Some? ==> IsFrame(r.value) && ReadU16(r.value, 2) == pktId && Payload(r.value) == seq(low, _ => 0))
  {
    var low := |payload| % (UINT16_MAX + 1);
    if low <= MAX_PAYLOAD { assert low < |payload|; }
  }

  /**
   * Above the limit the receiver never sees any of the payload: the buffer is too small for its own
   * header, or it is a packet of zeros, which no message type parses unless it is empty.
   */
  lemma OversizeIsLost(payload: seq<byte>, pktId: nat, sch: Schema)
    requires pktId <= UINT16_MAX && |payload| > MAX_PAYLOAD
    ensures var r, low := ServerBuffer(payload, pktId), |payload| % (UINT16_MAX + 1);
      && (r.None? <==> low > MAX_PAYLOAD)
      && (r.Some? ==> IsFrame(r.value) && ReadU16(r.value, 2) == pktId && Payload(r.value) == seq(low, _ => 0))
      && (r.Some? && low > 0 ==> Parse(sch, Defaults(sch), Payload(r.value), DEPTH) == None)
  {
    OversizeBuffer(payload, pktId);
    var r := ServerBuffer(payload, pktId);
    if r.Some? && |Payload(r.value)| > 0 { ZeroTag(sch, Payload(r.value)); }
  }

  lemma ZeroTag(sch: Schema, s: seq<byte>)
    requires s != [] && s[0] == 0
    ensures Parse(sch, Defaults(sch), s, DEPTH) == None
  {
    assert s == [0] + s[1..];
    TagReads(0, s[1..]);
    assert TurnOf(sch, s, DEPTH) == Bad;
  }

  /** Every chat request that passes the length test of the session is framed, never refused. */
  lemma ChatFits(m: Message)
    requires Typed(REQ_CHAT, m) && |m[0].s| <= 256 && |m[3].s| <= 32
    ensures |Serialize(REQ_CHAT, m)| <= 322 < MAX_PAYLOAD
  {
    SerializeFrom4(REQ_CHAT, m);
    VarintLengths(|m[0].s|);
    VarintLengths(|m[3].s|);
    VarintLengths(ToWire(m[1].n));
    VarintLengths(ToWire(m[2].n));
  }

  /** A string field of the generated serializer: its tag, the length and the bytes, or nothing. */
  function StringBytes(tag: byte, s: seq<byte>): seq<byte> {
    if s == [] then [] else [tag] + (Varint(|s|) + s)
  }

  /** A numeric field: its tag and the varint of the number modulo 2^64, or nothing. */
  function NumberBytes(tag: byte, n: int): seq<byte> {
    if n == 0 then [] else [tag] + Varint(n % POW64)
  }

  lemma StringField(i: nat, tag: byte, s: seq<byte>)
    requires i < 15 && tag as int == Tag(i, KString)
    ensures Field(i, KString, Text(s)) == StringBytes(tag, s)
  {
  }

  lemma NumberField(i: nat, k: Kind, tag: byte, n: int)
    requires i < 15 && HasKind(Num(n), k) && tag as int == Tag(i, k)
    ensures Field(i, k, Num(n)) == NumberBytes(tag, n)
  {
    Residue(n);
  }

  lemma Residue(n: int)
    requires -POW64 <= n < POW64
    ensures ToWire(n) == n % POW64
  {
  }

  /** The bytes of a chat request, field by field with the tags of the generated code. */
  lemma ChatLayout(m: Message)
    requires Typed(REQ_CHAT, m)
    ensures Serialize(REQ_CHAT, m)
         == (StringBytes(10, m[0].s) + NumberBytes(16, m[1].n)) + (NumberBytes(24, m[2].n) + StringBytes(34, m[3].s))
  {
    SerializeFrom4(REQ_CHAT, m);
    StringField(0, 10, m[0].s);
    NumberField(1, KEnum, 16, m[1].n);
    NumberField(2, KInt32, 24, m[2].n);
    StringField(3, 34, m[3].s);
  }

  /** The bytes of a login request. */
  lemma LoginLayout(m: Message)
    requires Typed(REQ_LOGIN, m)
    ensures Serialize(REQ_LOGIN, m)
         == (NumberBytes(8, m[0].n) + StringBytes(18, m[1].s)) + (StringBytes(26, m[2].s) + StringBytes(34, m[3].s))
  {
    SerializeFrom4(REQ_LOGIN, m);
    NumberField(0, KBool, 8, m[0].n);
    StringField(1, 18, m[1].s);
    StringField(2, 26, m[2].s);
    StringField(3, 34, m[3].s);
  }

  /** The length test of `login`: the name is only looked at when an account is created. */
  predicate LoginTest(m: Message)
    requires Typed(REQ_LOGIN, m)
  {
    1 <= |m[1].s| <= 32 && 1 <= |m[2].s| <= 32 && (m[0].n != 0 ==> 1 <= |m[3].s| <= 32)
  }

  lemma TextSize(i: nat, s: seq<byte>)
    requires i < 15
    ensures |Field(i, KString, Text(s))| == if s == [] then 0 else 1 + |Varint(|s|)| + |s|
  {
  }

  /** One length byte below 128, three from 16384 on up to 2^21. */
  lemma PrefixBytes(n: nat)
    ensures n < 128 ==> |Varint(n)| == 1
    ensures n < 16384 ==> |Varint(n)| <= 2
    ensures 16384 <= n < 2097152 ==> |Varint(n)| == 3
    ensures n >= 2097152 ==> |Varint(n)| > 3
  {
    assert Pow128(1) == 128 && Pow128(2) == 16384 && Pow128(3) == 2097152;
    if n < 16384 { VarintAtMost(n, 2); } else { VarintAtLeast(n, 2); }
    if n < 2097152 { VarintAtMost(n, 3); } else { VarintAtLeast(n, 3); }
  }

  lemma LoginSize(m: Message)
    requires Typed(REQ_LOGIN, m) && LoginTest(m)
    ensures |Serialize(REQ_LOGIN, m)|
         == 2 * m[0].n + (2 + |m[1].s|) + (2 + |m[2].s|) + |Field(3, KString, m[3])|
  {
    SerializeFrom4(REQ_LOGIN, m);
    TextSize(1, m[1].s);
    TextSize(2, m[2].s);
    PrefixBytes(|m[1].s|);
    PrefixBytes(|m[2].s|);
    PrefixBytes(m[0].n);
  }

  /**
   * A login request that passes the length test is refused by the framer if and only if it does
   * not create an account and its strings come to more than 65523 bytes.
   */
  lemma LoginRefused(m: Message)
    requires Typed(REQ_LOGIN, m) && LoginTest(m)
    ensures |Serialize(REQ_LOGIN, m)| > MAX_PAYLOAD
       <==> m[0].n == 0 && |m[1].s| + |m[2].s| + |m[3].s| > MAX_PAYLOAD - 8
  {
    LoginSize(m);
    TextSize(3, m[3].s);
    PrefixBytes(|m[3].s|);
  }

  /** Such a request: no account is created, and the name has 70000 bytes. */
  lemma LongNameRefused() returns (m: Message)
    ensures Typed(REQ_LOGIN, m) && LoginTest(m) && |Serialize(REQ_LOGIN, m)| > MAX_PAYLOAD
  {
    m := [Num(0), Text([97]), Text([97]), Text(seq(70000, _ => 97))];
    LoginRefused(m);
  }

  /** With a name the test looks at, or the empty name of a plain login, 104 bytes are enough. */
  lemma LoginFits(m: Message)
    requires Typed(REQ_LOGIN, m) && LoginTest(m) && (m[0].n != 0 || m[3].s == [])
    ensures |Serialize(REQ_LOGIN, m)| <= 104 < MAX_PAYLOAD
  {
    LoginSize(m);
    TextSize(3, m[3].s);
    PrefixBytes(|m[3].s|);
  }
}
