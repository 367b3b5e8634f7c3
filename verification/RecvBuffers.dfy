/** The receive buffer (Buffer/RecvBuffer.cpp) and the framing loop of `process_recv` over it. */
module RecvBuffers {
  import opened Bytes
  import opened Framing

  /** The session asks for 0x10000 and the buffer reserves ten times as much. */
  const BUFFER_SIZE := 0x10000

  /** The buffer as a value: `unit` is the requested size, the capacity is ten times that. */
  datatype RecvBuf = RecvBuf(unit: nat, data: seq<byte>, readPos: int, writePos: int) {

    ghost predicate Valid() {
      0 <= readPos <= writePos <= |data| && |data| == 10 * unit
    }

    ghost function Unread(): seq<byte>
      requires Valid()
    {
      data[readPos..writePos]
    }

    function DataSize(): nat
      requires Valid()
    {
      writePos - readPos
    }

    function FreeSize(): nat
      requires Valid()
    {
      |data| - writePos
    }

    /** The kernel stores received bytes from position `at` on; no cursor moves. */
    ghost function Store(at: nat, bytes: seq<byte>): (b: RecvBuf)
      requires Valid() && at + |bytes| <= |data|
      ensures b.Valid() && b.unit == unit && |b.data| == |data|
      ensures b.readPos == readPos && b.writePos == writePos
      ensures writePos <= at ==> b.Unread() == Unread()
      ensures at == writePos ==> b.data[readPos..writePos + |bytes|] == Unread() + bytes
    {
      this.(data := data[..at] + bytes + data[at + |bytes|..])
    }

    /** The test only looks at the upper end: a negative count moves the cursor back. */
    ghost function OnWrite(n: int): (b: RecvBuf)
      requires Valid() && n <= FreeSize()
      ensures b.Valid() <==> DataSize() + n >= 0
      ensures b.Valid() ==> b.Unread() == data[readPos..writePos + n]
    {
      this.(writePos := writePos + n)
    }

    ghost function OnRead(n: int): (b: RecvBuf)
      requires Valid() && n <= DataSize()
      ensures b.Valid() <==> -readPos <= n
      ensures b.Valid() ==> b.Unread() == data[readPos + n..writePos]
      ensures n >= 0 ==> b.Unread() == Unread()[n..]
    {
      this.(readPos := readPos + n)
    }

    /**
     * Compaction keeps every unread byte in order, and leaves room for a whole further unit as
     * long as at most nine units are unread.
     */
    ghost function Clean(): (b: RecvBuf)
      requires Valid()
      ensures b.Valid() && b.unit == unit && b.Unread() == Unread()
      ensures |Unread()| <= 9 * unit ==> b.FreeSize() >= unit
    {
      if DataSize() == 0 then this.(readPos := 0, writePos := 0)
      else if FreeSize() < unit then
        this.(data := Unread() + data[DataSize()..], readPos := 0, writePos := DataSize())
      else this
    }
  }

  /** The `memmove` of `clean`. */
  method MoveToFront(data: array<byte>, from: nat, size: nat)
    requires from + size <= data.Length
    modifies data
    ensures data[..] == old(data[..])[from..from + size] + old(data[..])[size..]
  {
    forall i | 0 <= i < size { data[i] := data[from + i]; }
  }

  class RecvBuffer {
    const unit: nat
    var data: array<byte>
    var readPos: int
    var writePos: int

    ghost function Abs(): RecvBuf
      reads this, data
    {
      RecvBuf(unit, data[..], readPos, writePos)
    }

    ghost predicate Valid()
      reads this, data
    {
      Abs().Valid()
    }

    ghost function Unread(): seq<byte>
      requires Valid()
      reads this, data
    {
      Abs().Unread()
    }

    constructor (size: nat)
      ensures Valid() && unit == size && fresh(data) && readPos == writePos == 0
    {
      unit := size;
      data := new byte[10 * size];
      readPos, writePos := 0, 0;
    }

    method OnWrite(n: int) returns (ok: bool)
      requires Valid()
      modifies this
      ensures ok <==> n <= old(Abs().FreeSize())
      ensures data == old(data) && Abs() == if ok then old(Abs()).OnWrite(n) else old(Abs())
    {
      if n > data.Length - writePos { return false; }
      writePos := writePos + n;
      return true;
    }

    method OnRead(n: int) returns (ok: bool)
      requires Valid()
      modifies this
      ensures ok <==> n <= old(Abs().DataSize())
      ensures data == old(data) && Abs() == if ok then old(Abs()).OnRead(n) else old(Abs())
    {
      if n > writePos - readPos { return false; }
      readPos := readPos + n;
      return true;
    }

    method Clean()
      requires Valid()
      modifies this, data
      ensures data == old(data) && Abs() == old(Abs()).Clean()
    {
      var size := writePos - readPos;
      if size == 0 {
        readPos, writePos := 0, 0;
      } else if data.Length - writePos < unit {
        MoveToFront(data, readPos, size);
        readPos, writePos := 0, size;
      }
    }
  }

  lemma SliceInside(t: seq<byte>, from: nat, to: nat, len: nat, size: nat)
    requires from + len + size <= to <= |t|
    ensures t[from..to][len..][..size] == t[from + len..from + len + size]
  {
  }

  /** Reading the next packet in place, at offset `len` of the unread bytes. */
  method ExamineAt(rb: RecvBuffer, len: nat, ghost rest: seq<byte>) returns (next: Next, packet: seq<byte>)
    requires rb.Valid() && len <= |rb.Unread()| && rest == rb.Unread()[len..]
    ensures next == Examine(rest)
    ensures next.Packet? ==> packet == rest[..next.size]
  {
    var dataSize := rb.writePos - rb.readPos - len;
    if dataSize < HEADER_SIZE { return Wait, []; }
    var at := rb.readPos + len;
    var size := rb.data[at] as int + 256 * (rb.data[at + 1] as int);
    assert size == ReadU16(rest, 0);
    if size < HEADER_SIZE { return Malformed, []; }
    if size > MAX_PACKET_SIZE { return Malformed, []; }
    if dataSize < size { return Wait, []; }
    packet := rb.data[at..at + size];
    SliceInside(rb.data[..], rb.readPos, rb.writePos, len, size);
    return Packet(size), packet;
  }

  /** The loop's own form: `Process` with the packets handed over and the offset carried along. */
  ghost function Loop(rest: seq<byte>, v: seq<Verdict>, handed: seq<seq<byte>>, len: nat): Outcome
    decreases |rest|
  {
    match Examine(rest)
    case Wait => Outcome(handed, len, true)
    case Malformed => Outcome(handed, len, false)
    case Packet(size) =>
      match Answer(v)
      case Refuse => Outcome(handed + [rest[..size]], len, false)
      case AcceptAndClose => Outcome(handed + [rest[..size]], len + size, true)
      case Accept => Loop(rest[size..], LaterAnswers(v), handed + [rest[..size]], len + size)
  }

  lemma {:induction false} LoopIsProcess(rest: seq<byte>, v: seq<Verdict>, handed: seq<seq<byte>>, len: nat)
    ensures var o := Process(rest, v);
      Loop(rest, v, handed, len) == Outcome(handed + o.handed, len + o.len, o.keep)
    decreases |rest|
  {
    match Examine(rest) {
      case Wait => assert handed + [] == handed;
      case Malformed => assert handed + [] == handed;
      case Packet(size) =>
        var packet, t := rest[..size], Process(rest[size..], LaterAnswers(v));
        LoopIsProcess(rest[size..], LaterAnswers(v), handed + [packet], len + size);
        assert handed + [packet] + t.handed == handed + ([packet] + t.handed);
    }
  }

  /** What follows from the packet found and the handler's answer: the end, or one more packet handed over. */
  method FramingTurn(head: Next, packet: seq<byte>, v: seq<Verdict>, before: seq<seq<byte>>, len: nat,
                     ghost rest: seq<byte>)
    returns (ended: bool, keep: bool, handed: seq<seq<byte>>, next: nat)
    requires head == Examine(rest) && (head.Packet? ==> packet == rest[..head.size])
    ensures ended ==> Loop(rest, v, before, len) == Outcome(handed, next, keep)
    ensures !ended ==> len < next <= len + |rest|
    ensures !ended ==> Loop(rest, v, before, len) == Loop(rest[next - len..], LaterAnswers(v), handed, next)
  {
    if head.Wait? { return true, true, before, len; }
    if head.Malformed? { return true, false, before, len; }
    var verdict := Answer(v);
    if verdict == Refuse { return true, false, before + [packet], len; }
    return verdict == AcceptAndClose, true, before + [packet], len + head.size;
  }

  lemma LoopWhole(s: seq<byte>, v: seq<Verdict>)
    ensures Loop(s, v, [], 0) == Process(s, v)
  {
    LoopIsProcess(s, v, [], 0);
    assert [] + Process(s, v).handed == Process(s, v).handed;
  }

  /** The `while (true)` loop of `process_recv`: terminates, stays in bounds, computes `Process`. */
  method FramingLoop(rb: RecvBuffer, answers: seq<Verdict>)
    returns (handed: seq<seq<byte>>, len: nat, keep: bool)
    requires rb.Valid()
    ensures Outcome(handed, len, keep) == Process(rb.Unread(), answers)
  {
    handed, len, keep := [], 0, true;
    var v, ended := answers, false;
    ghost var s, rest := rb.Unread(), rb.Unread();
    LoopWhole(s, v);
    while !ended
      invariant len <= |s| && !ended ==> rest == s[len..]
      invariant !ended ==> len <= |s| && Loop(rest, v, handed, len) == Process(s, answers)
      invariant ended ==> Outcome(handed, len, keep) == Process(s, answers)
      decreases !ended, |rest|
    {
      ghost var from := len;
      var head, packet := ExamineAt(rb, len, rest);
      ended, keep, handed, len := FramingTurn(head, packet, v, handed, len, rest);
      if !ended {
        DropDrop(s, from, len - from);
        rest := rest[len - from..];
        v := LaterAnswers(v);
      }
    }
  }

  /**
   * One receive callback, with the answers of the packet handlers given by `v`.  It closes on an
   * empty or oversized completion without touching the packets; otherwise it hands over, consumes
   * and keeps exactly what `Process` says of all unread bytes.  Whenever it goes on to re-arm and
   * every handler accepted, a full 0x10000 bytes are free for the next receive.
   */
  method ProcessRecv(rb: RecvBuffer, n: nat, v: seq<Verdict>)
    returns (handed: seq<seq<byte>>, keep: bool)
    requires rb.Valid() && rb.unit == BUFFER_SIZE && n < 0x8000_0000
    modifies rb, rb.data
    ensures rb.Valid() && rb.data == old(rb.data)
    ensures n == 0 || n > old(rb.Abs().FreeSize()) ==> handed == [] && !keep && rb.Unread() == old(rb.Unread())
    ensures 0 < n <= old(rb.Abs().FreeSize()) ==>
      var s := old(rb.data[rb.readPos..rb.writePos + n]);
      var o := Process(s, v);
      && handed == o.handed && keep == o.keep
      && (keep ==> rb.Unread() == s[o.len..])
      && (keep && (forall i :: 0 <= i < |v| ==> v[i] == Accept) ==> rb.Abs().FreeSize() >= BUFFER_SIZE)
  {
    if n == 0 { return [], false; }
    var written := rb.OnWrite(n);
    if !written { return [], false; }
    ghost var s := rb.Unread();
    var len;
    handed, len, keep := FramingLoop(rb, v);
    if !keep { return; }
    keep := rb.OnRead(len);
    if keep { rb.Clean(); }
    if forall i :: 0 <= i < |v| ==> v[i] == Accept {
      ProcessRefinesCut(s, v);
      CutStops(s);
    }
  }
}
