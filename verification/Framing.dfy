/**
 * Packets on the byte stream: a 4-byte header (16-bit size, 16-bit id, little endian) and a
 * payload.  `Cut` is the reference reading of a whole stream; `Process` is what one receive
 * callback does with the unread bytes; the lemmas relate the two for every chunking.
 */
module Framing {
  import opened Bytes

  const HEADER_SIZE := 4
  const UINT16_MAX := 0xFFFF
  const MAX_PACKET_SIZE := 0x10000

  function ReadU16(s: seq<byte>, at: nat): (v: nat)
    requires at + 1 < |s|
    ensures v <= UINT16_MAX
  {
    s[at] as int + 256 * (s[at + 1] as int)
  }

  /** The header that `MakeSendBuffer` writes in place. */
  function Header(size: nat, id: nat): (h: seq<byte>)
    requires size <= UINT16_MAX && id <= UINT16_MAX
    ensures |h| == HEADER_SIZE && ReadU16(h, 0) == size && ReadU16(h, 2) == id
  {
    [size % 256, size / 256, id % 256, id / 256]
  }

  /** A packet whose header announces its own length. */
  ghost predicate IsFrame(f: seq<byte>) {
    HEADER_SIZE <= |f| <= UINT16_MAX && ReadU16(f, 0) == |f|
  }

  ghost predicate AllFrames(fs: seq<seq<byte>>) {
    forall i :: 0 <= i < |fs| ==> IsFrame(fs[i])
  }

  /** Bytes that are a proper beginning of some packet: the loop waits for more. */
  ghost predicate Incomplete(s: seq<byte>) {
    |s| < HEADER_SIZE || (HEADER_SIZE <= ReadU16(s, 0) && |s| < ReadU16(s, 0))
  }

  function Payload(f: seq<byte>): seq<byte>
    requires |f| >= HEADER_SIZE
  {
    f[HEADER_SIZE..]
  }

  function MakeFrame(payload: seq<byte>, id: nat): (f: seq<byte>)
    requires |payload| <= UINT16_MAX - HEADER_SIZE && id <= UINT16_MAX
    ensures IsFrame(f) && Payload(f) == payload && ReadU16(f, 2) == id
  {
    Header(|payload| + HEADER_SIZE, id) + payload
  }

  /** What the loop of `process_recv` finds at the head of the unread bytes. */
  datatype Next = Wait | Malformed | Packet(size: nat)

  function Examine(s: seq<byte>): (n: Next)
    ensures n.Packet? ==> HEADER_SIZE <= n.size <= |s| && n.size == ReadU16(s, 0)
  {
    if |s| < HEADER_SIZE then Wait
    else
      var size := ReadU16(s, 0);
      if size < HEADER_SIZE || size > MAX_PACKET_SIZE then Malformed
      else if |s| < size then Wait
      else Packet(size)
  }

  /** A header is malformed exactly when its size is below 4: the test against MAX_PACKET_SIZE is dead. */
  lemma MalformedExactly(s: seq<byte>)
    ensures Examine(s) == Malformed <==> |s| >= HEADER_SIZE && ReadU16(s, 0) < HEADER_SIZE
    ensures |s| >= HEADER_SIZE ==> !(ReadU16(s, 0) > MAX_PACKET_SIZE)
  {
  }

  /** The reading of a whole stream: packets, what is left over, and whether a header was malformed. */
  datatype Cutting = Cutting(frames: seq<seq<byte>>, rest: seq<byte>, bad: bool)

  function Cut(s: seq<byte>): Cutting {
    match Examine(s)
    case Wait => Cutting([], s, false)
    case Malformed => Cutting([], s, true)
    case Packet(size) =>
      var c := Cut(s[size..]);
      Cutting([s[..size]] + c.frames, c.rest, c.bad)
  }

  /** Cutting loses nothing. */
  lemma {:induction false} CutComplete(s: seq<byte>)
    ensures Flat(Cut(s).frames) + Cut(s).rest == s
  {
    if Examine(s).Packet? {
      var size := Examine(s).size;
      CutComplete(s[size..]);
      FlatCons(s[..size], Cut(s[size..]).frames, Cut(s[size..]).rest);
    }
  }

  /** Cutting yields only packets. */
  lemma {:induction false} CutSound(s: seq<byte>)
    ensures AllFrames(Cut(s).frames)
  {
    if Examine(s).Packet? {
      var size := Examine(s).size;
      CutSound(s[size..]);
      assert IsFrame(s[..size]);
    }
  }

  /** Cutting stops only at an incomplete packet, which is short, or at a malformed header. */
  lemma {:induction false} CutStops(s: seq<byte>)
    ensures Examine(Cut(s).rest) == if Cut(s).bad then Malformed else Wait
    ensures !Cut(s).bad ==> |Cut(s).rest| <= UINT16_MAX - 1
  {
    if Examine(s).Packet? { CutStops(s[Examine(s).size..]); }
  }

  lemma CutFirst(f: seq<byte>, t: seq<byte>)
    requires IsFrame(f)
    ensures Cut(f + t) == Cutting([f] + Cut(t).frames, Cut(t).rest, Cut(t).bad)
  {
    var s := f + t;
    assert ReadU16(s, 0) == ReadU16(f, 0);
    assert s[..|f|] == f && s[|f|..] == t;
  }

  /** A stream of packets followed by anything is cut at exactly those packets. */
  lemma {:induction false} CutPackets(fs: seq<seq<byte>>, r: seq<byte>)
    requires AllFrames(fs)
    ensures Cut(Flat(fs) + r) == Cutting(fs + Cut(r).frames, Cut(r).rest, Cut(r).bad)
  {
    if fs == [] {
      assert Flat(fs) + r == r && fs + Cut(r).frames == Cut(r).frames;
    } else {
      var f, rest, c := fs[0], fs[1..], Cut(r);
      assert fs == [f] + rest;
      FlatCons(f, rest, r);
      CutFirst(f, Flat(rest) + r);
      CutPackets(rest, r);
      Assoc([f], rest, c.frames);
    }
  }

  /** Unique framing: there is one way to read a stream as packets and an incomplete rest. */
  lemma CutUnique(fs: seq<seq<byte>>, r: seq<byte>)
    requires AllFrames(fs) && Incomplete(r)
    ensures Cut(Flat(fs) + r) == Cutting(fs, r, false)
  {
    CutPackets(fs, r);
    assert fs + [] == fs;
  }

  /** Cutting a longer stream continues where the shorter one stopped. */
  lemma CutExtend(a: seq<byte>, b: seq<byte>)
    ensures var c, d := Cut(a), Cut(Cut(a).rest + b);
      Cut(a + b) == Cutting(c.frames + d.frames, d.rest, d.bad)
  {
    CutSound(a);
    CutComplete(a);
    var c := Cut(a);
    assert a + b == Flat(c.frames) + (c.rest + b);
    CutPackets(c.frames, c.rest + b);
  }

  lemma BadStaysBad(s: seq<byte>, b: seq<byte>)
    requires Examine(s) == Malformed
    ensures Cut(s + b) == Cutting([], s + b, true)
  {
    assert ReadU16(s + b, 0) == ReadU16(s, 0);
  }

  /** Any beginning of a packet stream reads as a beginning of the packet list. */
  lemma {:induction false} CutPrefix(fs: seq<seq<byte>>, s: seq<byte>)
    requires AllFrames(fs) && s <= Flat(fs)
    ensures !Cut(s).bad && Cut(s).frames <= fs
  {
    if fs != [] {
      var f := fs[0];
      if |f| <= |s| {
        var t := s[|f|..];
        assert s == f + t by { assert Flat(fs)[..|f|] == f; }
        assert t <= Flat(fs[1..]) by { assert Flat(fs)[|f|..] == Flat(fs[1..]); }
        CutPrefix(fs[1..], t);
        CutFirst(f, t);
        assert fs == [f] + fs[1..];
      } else if |s| >= HEADER_SIZE {
        assert ReadU16(s, 0) == ReadU16(f, 0);
      }
    }
  }

  // ---------------------------------------------------------------------------------------
  // One receive callback

  /** What `HandlePacket` answers, and whether the session is still connected afterwards. */
  datatype Verdict = Accept | Refuse | AcceptAndClose

  /** The answer to the next packet; an exhausted list of answers goes on accepting. */
  function Answer(v: seq<Verdict>): Verdict { if v == [] then Accept else v[0] }

  function LaterAnswers(v: seq<Verdict>): seq<Verdict> { if v == [] then [] else v[1..] }

  /**
   * The outcome of the loop over the unread bytes: packets handed to the handler, bytes
   * consumed, and whether the callback goes on to re-arm (`keep`) or disconnects.
   */
  datatype Outcome = Outcome(handed: seq<seq<byte>>, len: nat, keep: bool)

  function Process(s: seq<byte>, v: seq<Verdict>): (o: Outcome)
    ensures o.len <= |s|
    decreases |s|
  {
    match Examine(s)
    case Wait => Outcome([], 0, true)
    case Malformed => Outcome([], 0, false)
    case Packet(size) =>
      match Answer(v)
      case Refuse => Outcome([s[..size]], 0, false)
      case AcceptAndClose => Outcome([s[..size]], size, true)
      case Accept =>
        var o := Process(s[size..], LaterAnswers(v));
        Outcome([s[..size]] + o.handed, size + o.len, o.keep)
  }

  /**
   * Whatever the handlers answer, only packets of the reference reading are handed over, in
   * order and from the first; a callback that re-arms has consumed exactly what it handed over.
   */
  lemma {:induction false} ProcessHandsPackets(s: seq<byte>, v: seq<Verdict>)
    ensures Process(s, v).handed <= Cut(s).frames
    ensures Process(s, v).keep ==> Flat(Process(s, v).handed) == s[..Process(s, v).len]
    decreases |s|
  {
    if Examine(s).Packet? {
      var size := Examine(s).size;
      var f, t := s[..size], s[size..];
      assert Flat([f]) == f;
      if Answer(v) == Accept {
        ProcessHandsPackets(t, LaterAnswers(v));
        var o := Process(t, LaterAnswers(v));
        FlatCons(f, o.handed, []);
        assert o.keep ==> s[..size + o.len] == f + t[..o.len];
      }
    }
  }

  /** With handlers that accept, one callback computes the reference reading of its bytes. */
  lemma {:induction false} ProcessRefinesCut(s: seq<byte>, v: seq<Verdict>)
    requires forall i :: 0 <= i < |v| ==> v[i] == Accept
    ensures var o, c := Process(s, v), Cut(s);
      o.handed == c.frames && o.keep == !c.bad && (o.keep ==> s[o.len..] == c.rest)
    decreases |s|
  {
    if Examine(s).Packet? {
      var size := Examine(s).size;
      ProcessRefinesCut(s[size..], LaterAnswers(v));
      var o := Process(s[size..], LaterAnswers(v));
      assert s[size + o.len..] == s[size..][o.len..];
    }
  }

  /** The number of answers before the first that does not simply accept. */
  function Stop(v: seq<Verdict>): (k: nat)
    ensures k <= |v| && (k < |v| ==> v[k] != Accept) && forall i :: 0 <= i < k ==> v[i] == Accept
  {
    if v == [] || v[0] != Accept then 0 else 1 + Stop(v[1..])
  }

  /** What a callback does when packet `k` is the first whose handler does not simply accept. */
  ghost predicate StopsAt(o: Outcome, fs: seq<seq<byte>>, k: nat, answer: Verdict)
    requires k < |fs|
  {
    && o.handed == fs[..k + 1]
    && o.keep == (answer == AcceptAndClose)
    && o.len == |Flat(if answer == Refuse then fs[..k] else fs[..k + 1])|
  }

  lemma FlatLength(f: seq<byte>, fs: seq<seq<byte>>)
    ensures |Flat([f] + fs)| == |f| + |Flat(fs)|
  {
    FlatCons(f, fs, []);
  }

  lemma StopsCons(o: Outcome, fs: seq<seq<byte>>, k: nat, answer: Verdict, f: seq<byte>)
    requires k < |fs| && StopsAt(o, fs, k, answer)
    ensures StopsAt(Outcome([f] + o.handed, |f| + o.len, o.keep), [f] + fs, k + 1, answer)
  {
    assert ([f] + fs)[..k + 2] == [f] + fs[..k + 1] && ([f] + fs)[..k + 1] == [f] + fs[..k];
    FlatLength(f, fs[..k + 1]);
    FlatLength(f, fs[..k]);
  }

  lemma StopsFirst(o: Outcome, f: seq<byte>, fs: seq<seq<byte>>, answer: Verdict)
    requires o == if answer == Refuse then Outcome([f], 0, false) else Outcome([f], |f|, true)
    requires answer != Accept
    ensures StopsAt(o, [f] + fs, 0, answer)
  {
    assert ([f] + fs)[..1] == [f] && Flat([f]) == f;
  }

  /**
   * The outcome of a callback for all answers.  It ends with the first packet whose handler refuses,
   * which disconnects, or closes, which still consumes what was handed over; if there is none, all
   * packets are handed over and consumed, and a malformed header disconnects.
   */
  lemma {:induction false} ProcessExact(s: seq<byte>, v: seq<Verdict>)
    ensures var k, c, o := Stop(v), Cut(s), Process(s, v);
      if k < |v| && k < |c.frames| then StopsAt(o, c.frames, k, v[k])
      else o == Outcome(c.frames, |Flat(c.frames)|, !c.bad)
    decreases |s|
  {
    if Examine(s).Packet? {
      var size := Examine(s).size;
      var f, fs := s[..size], Cut(s[size..]).frames;
      if Answer(v) == Accept {
        var w := LaterAnswers(v);
        ProcessExact(s[size..], w);
        FlatLength(f, fs);
        if Stop(w) < |w| && Stop(w) < |fs| { StopsCons(Process(s[size..], w), fs, Stop(w), w[Stop(w)], f); }
      } else {
        StopsFirst(Process(s, v), f, fs, v[0]);
      }
    }
  }

  // ---------------------------------------------------------------------------------------
  // Any number of receive callbacks

  datatype Receiver = Receiver(unread: seq<byte>, handed: seq<seq<byte>>, open: bool)

  /** One callback for a chunk: a zero-byte completion closes, as does a malformed header. */
  function Receive(r: Receiver, chunk: seq<byte>, v: seq<Verdict>): Receiver {
    if !r.open then r
    else if chunk == [] then r.(open := false)
    else
      var s := r.unread + chunk;
      var o := Process(s, v);
      Receiver(if o.keep then s[o.len..] else s, r.handed + o.handed, o.keep)
  }

  /** The callbacks for a list of chunks, with handlers that accept. */
  function ReceiveAll(chunks: seq<seq<byte>>): Receiver {
    if chunks == [] then Receiver([], [], true)
    else Receive(ReceiveAll(chunks[..|chunks| - 1]), chunks[|chunks| - 1], [])
  }

  /**
   * Chunking independence.  However the stream is cut into non-empty chunks, the packets handed
   * over are those of the whole stream, the connection survives exactly when no header is
   * malformed, and what stays unread is what the whole stream leaves over.
   */
  lemma {:induction false} ChunkingIndependence(chunks: seq<seq<byte>>)
    requires forall i :: 0 <= i < |chunks| ==> chunks[i] != []
    ensures var r, c := ReceiveAll(chunks), Cut(Flat(chunks));
      && r.handed == c.frames
      && r.open == !c.bad
      && (r.open ==> r.unread == c.rest)
  {
    if chunks != [] {
      var before, chunk := chunks[..|chunks| - 1], chunks[|chunks| - 1];
      assert chunks == before + [chunk];
      FlatSnoc(before, chunk);
      var a := Flat(before);
      CutExtend(a, chunk);
      ChunkingIndependence(before);
      CutStops(a);
      if Cut(a).bad {
        BadStaysBad(Cut(a).rest, chunk);
      } else {
        ProcessRefinesCut(Cut(a).rest + chunk, []);
      }
    }
  }

  /** A completion without bytes is the end: it closes the connection, and later chunks are not looked at. */
  lemma {:induction false} EmptyChunkEnds(before: seq<seq<byte>>, after: seq<seq<byte>>)
    ensures ReceiveAll(before + [[]] + after) == ReceiveAll(before).(open := false)
    decreases |after|
  {
    var chunks := before + [[]] + after;
    var n := |chunks| - 1;
    if after == [] {
      assert chunks[..n] == before && chunks[n] == [];
    } else {
      var rest := after[..|after| - 1];
      EmptyChunkEnds(before, rest);
      assert chunks[..n] == before + [[]] + rest;
    }
  }

  /** Every stream of well-formed packets arrives as those packets, under every chunking. */
  lemma PacketsArrive(fs: seq<seq<byte>>, chunks: seq<seq<byte>>)
    requires AllFrames(fs) && Flat(chunks) == Flat(fs)
    requires forall i :: 0 <= i < |chunks| ==> chunks[i] != []
    ensures ReceiveAll(chunks) == Receiver([], fs, true)
  {
    CutUnique(fs, []);
    assert Flat(fs) + [] == Flat(fs);
    ChunkingIndependence(chunks);
  }
}
