/** What every step keeps of the receive path: one user of the buffer, and intact packets. */
module RecvSafety {
  import opened Bytes
  import opened Frames = Framing
  import opened RecvBuffers
  import opened Protocol
  import S = Sessions

  /** The hold a thread has on the receive buffer. */
  datatype Hold =
    | NoHold
    | MayStart            // saw the session connected, has not claimed the receive path yet
    | Arrived(n: nat)     // n bytes are stored behind the write position
    | CutTo(len: nat)     // len unread bytes are handed over
    | Ending(len: nat)    // the framing loop is over
    | ToArm               // about to post the next receive

  function OriginHold(who: Origin): Hold {
    match who case App => NoHold case Handler(len, size) => CutTo(len + size)
  }

  function HoldOf(p: Point): Hold {
    match p
    case Sending(_, _, who) => OriginHold(who)
    case Registering(after) => if after.FromSend? then OriginHold(after.who) else NoHold
    case Undo(_, who) => OriginHold(who)
    case Clearing(who) => OriginHold(who)
    case RecvDone(n) => Arrived(n)
    case Framing(len) => CutTo(len)
    case Handling(len, size) => CutTo(len + size)
    case Drained(len) => Ending(len)
    case Arming(_) => ToArm
    case Starting => MayStart
    case Closing(_, next) => HoldOf(next)
    case _ => NoHold
  }

  /** The threads that may touch the receive buffer: arming, framing, or inside a handler. */
  predicate RecvOwner(p: Point) {
    !HoldOf(p).NoHold? && !HoldOf(p).MayStart?
  }

  /** Core invariant, given how many threads use the buffer and how many are about to disconnect. */
  ghost predicate RecvInv(c: Core, owners: nat, closers: nat) {
    var rx := c.s.rx;
    && rx.Valid() && rx.unit == BUFFER_SIZE
    && owners + |c.recvs| <= 1
    && AllFrames(c.handed) && Flat(c.handed) <= c.inbound
    && (!c.s.started ==> owners + |c.recvs| == 0 && c.inbound == [] && c.handed == [] && rx.readPos == rx.writePos == 0)
    && (c.s.started ==> c.s.life.connected || c.s.life.closed)
    && (c.s.started && c.s.life.connected ==> owners + |c.recvs| + closers >= 1)
    && (c.recvs != [] ==>
          && c.recvs[0] == PostedRecv(rx.writePos, rx.FreeSize()) && rx.FreeSize() >= BUFFER_SIZE
          && c.inbound == Flat(c.handed) + rx.Unread() && Incomplete(rx.Unread()))
  }

  /** `len` unread bytes are dealt with, the others are still to be cut. */
  ghost predicate CutUpTo(c: Core, len: nat)
    requires c.s.rx.Valid()
  {
    var unread := c.s.rx.Unread();
    len <= |unread| && c.inbound == Flat(c.handed) + unread[len..]
  }

  /** What holds of the core while a thread has hold `h`. */
  ghost predicate HoldInv(c: Core, h: Hold)
    requires c.s.rx.Valid()
  {
    var rx := c.s.rx;
    match h
    case NoHold => true
    case MayStart => c.s.life.connected || c.s.life.closed
    case Arrived(n) =>
      rx.writePos + n <= |rx.data| && c.inbound == Flat(c.handed) + rx.data[rx.readPos..rx.writePos + n]
    case CutTo(len) => CutUpTo(c, len)
    case Ending(len) => CutUpTo(c, len) && (c.s.life.connected ==> Incomplete(rx.Unread()[len..]))
    case ToArm =>
      && CutUpTo(c, 0)
      && (c.s.life.connected ==> Incomplete(rx.Unread()) && rx.FreeSize() >= BUFFER_SIZE)
  }

  /** The invariant with a thread at `q` beside `owners` other owners and `closers` other closers. */
  ghost predicate Kept(d: Core, q: Point, owners: nat, closers: nat) {
    RecvInv(d, owners + One(RecvOwner(q)), closers + One(q.Closing?)) && HoldInv(d, HoldOf(q))
  }

  /** The receive path is untouched, and the session did not come back to life. */
  ghost predicate SameRecv(c: Core, d: Core) {
    && d.s.rx == c.s.rx && d.s.started == c.s.started
    && d.recvs == c.recvs && d.inbound == c.inbound && d.handed == c.handed
    && (c.s.life.connected || c.s.life.closed ==> d.s.life.connected || d.s.life.closed)
    && (c.s.life.closed ==> d.s.life.closed)
    && (d.s.life.connected ==> c.s.life.connected || !c.s.life.closed)
  }

  predicate TouchesRecv(p: Point, a: Action) {
    || (a.Continue? && (p.RecvDone? || p.Framing? || p.Drained? || p.Arming? || p.Starting?))
    || a.CallStart? || a.TakeRecv? || a.HandlerReturn?
  }

  /** A step beside the receive path: the thread keeps the hold it has on the buffer, if any. */
  ghost predicate Aside(c: Core, p: Point, d: Core, q: Point) {
    && SameRecv(c, d)
    && HoldOf(q) == HoldOf(p)
    && (d.s.life.connected ==> !p.Closing?)
  }

  lemma PushAside(c: Core, p: Point, d: Core, q: Point)
    requires p.Sending? && (d, q) == DoPush(c, p)
    ensures Aside(c, p, d, q)
  {
  }

  lemma RegisterAside(c: Core, p: Point, d: Core, q: Point, ok: bool)
    requires p.Registering? && (d, q) == DoRegister(c, p, ok)
    ensures Aside(c, p, d, q)
  {
  }

  lemma OtherAside(c: Core, p: Point, d: Core, q: Point)
    requires p.Undo? || p.Clearing? || p.Closing? || p.Tail?
    requires c.s.life.connected ==> !c.s.life.closed
    requires (d, q) == ContinueOther(c, p)
    ensures Aside(c, p, d, q)
  {
  }

  lemma SimpleAside(s: S.Session, a: Action)
    requires IsSimple(a) && (s.life.connected ==> !s.life.closed)
    ensures var t := Simple(s, a);
      && t.rx == s.rx && t.started == s.started && (s.life.closed ==> t.life.closed)
      && (s.life.connected || s.life.closed ==> t.life.connected || t.life.closed)
      && (t.life.connected ==> s.life.connected || !s.life.closed)
  {
  }

  lemma ReserveAside(s: S.Session, a: Action)
    requires IsRequest(a)
    ensures var t := Reserve(s, a).0; t.rx == s.rx && t.started == s.started && t.life == s.life
  {
  }

  lemma CallAside(c: Core, p: Point, a: Action, d: Core, q: Point)
    requires IsCaller(p) && Call(c, p, a) == Some((d, q))
    requires c.s.life.connected ==> !c.s.life.closed
    ensures Aside(c, p, d, q)
  {
    if IsSimple(a) {
      SimpleAside(c.s, a);
    } else if IsRequest(a) {
      ReserveAside(c.s, a);
    }
  }

  lemma StepAside(c: Core, p: Point, a: Action, d: Core, q: Point)
    requires c.s.rx.Valid() && Act(c, p, a) == Some((d, q)) && !TouchesRecv(p, a)
    requires c.s.life.connected ==> !c.s.life.closed
    ensures Aside(c, p, d, q)
  {
    if a.Continue? {
      if p.Sending? {
        PushAside(c, p, d, q);
      } else if p.Registering? {
        RegisterAside(c, p, d, q, a.ok);
      } else if !p.SendDone? {
        OtherAside(c, p, d, q);
      }
    } else if a.TakeSend? {
      assert Wake(c, a) == Some((d, q));
    } else {
      CallAside(c, p, a, d, q);
    }
  }

  lemma HoldKept(c: Core, d: Core, h: Hold)
    requires c.s.rx.Valid() && SameRecv(c, d) && HoldInv(c, h)
    requires h.NoHold? || c.s.life.connected || c.s.life.closed
    ensures HoldInv(d, h)
  {
  }

  lemma ArriveKeeps(c: Core, d: Core, q: Point, k: nat, bytes: seq<byte>, owners: nat, closers: nat)
    requires RecvInv(c, owners, closers)
    requires Wake(c, TakeRecv(k, bytes)) == Some((d, q))
    ensures owners == 0 && Kept(d, q, 0, closers) && RecvOwner(q) && !q.Closing?
  {
    var rx := c.s.rx;
    assert c.recvs == [PostedRecv(rx.writePos, rx.FreeSize())];
    assert d.s.rx == rx.Store(rx.writePos, bytes);
    Assoc(Flat(c.handed), rx.Unread(), bytes);
  }

  lemma WriteKeeps(c: Core, d: Core, p: Point, q: Point, owners: nat, closers: nat)
    requires owners == 1 && RecvInv(c, owners, closers) && p.RecvDone? && HoldInv(c, HoldOf(p))
    requires (d, q) == DoWrite(c, p.n)
    ensures Kept(d, q, 0, closers)
  {
    if q.Framing? {
      assert d.s.rx.Unread()[0..] == d.s.rx.Unread();
    }
  }

  /** Handing over the next packet moves the cut by its size. */
  lemma HandOver(inbound: seq<byte>, handed: seq<seq<byte>>, unread: seq<byte>, len: nat, size: nat)
    requires len <= |unread| && inbound == Flat(handed) + unread[len..]
    requires Examine(unread[len..]) == Packet(size)
    ensures len + size <= |unread| && IsFrame(unread[len..len + size])
    ensures inbound == Flat(handed + [unread[len..len + size]]) + unread[len + size..]
    ensures Flat(handed + [unread[len..len + size]]) <= inbound
  {
    var rest, packet := unread[len..], unread[len..len + size];
    assert packet == rest[..size] && rest[size..] == unread[len + size..];
    FlatSnoc(handed, packet);
    Assoc(Flat(handed), packet, unread[len + size..]);
    assert rest == packet + unread[len + size..];
  }

  lemma HandedKeeps(c: Core, d: Core, len: nat, size: nat, closers: nat)
    requires RecvInv(c, 1, closers) && len + size <= c.s.rx.DataSize()
    requires var packet := c.s.rx.Unread()[len..len + size];
      && IsFrame(packet) && d == c.(handed := c.handed + [packet])
      && c.inbound == Flat(c.handed + [packet]) + c.s.rx.Unread()[len + size..]
      && Flat(c.handed + [packet]) <= c.inbound
    ensures RecvInv(d, 1, closers) && CutUpTo(d, len + size)
  {
  }

  lemma FrameKeeps(c: Core, d: Core, p: Point, q: Point, owners: nat, closers: nat)
    requires owners == 1 && RecvInv(c, owners, closers) && p.Framing? && HoldInv(c, HoldOf(p))
    requires (d, q) == DoFrame(c, p.len)
    ensures Kept(d, q, 0, closers)
  {
    var unread := c.s.rx.Unread();
    var rest := unread[p.len..];
    match Examine(rest) {
      case Packet(size) =>
        HandOver(c.inbound, c.handed, unread, p.len, size);
        HandedKeeps(c, d, p.len, size, closers);
      case Wait => assert d == c && q == Drained(p.len);
      case Malformed => assert d == c && q == Closing(Other, Tail);
    }
  }

  lemma DrainKeeps(c: Core, d: Core, p: Point, q: Point, owners: nat, closers: nat)
    requires owners == 1 && RecvInv(c, owners, closers) && p.Drained? && HoldInv(c, HoldOf(p))
    requires (d, q) == DoDrain(c, p.len)
    ensures Kept(d, q, 0, closers)
  {
    var b := c.s.rx.OnRead(p.len);
    assert d.s.rx == b.Clean();
    assert d.s.rx.Unread()[0..] == d.s.rx.Unread() == c.s.rx.Unread()[p.len..];
  }

  lemma ArmKeeps(c: Core, d: Core, p: Point, q: Point, ok: bool, owners: nat, closers: nat)
    requires owners == 1 && RecvInv(c, owners, closers) && p.Arming? && HoldInv(c, HoldOf(p))
    requires (d, q) == DoArm(c, p.callback, ok)
    ensures Kept(d, q, 0, closers)
  {
    assert c.s.rx.Unread()[0..] == c.s.rx.Unread();
  }

  lemma StartKeeps(c: Core, d: Core, p: Point, q: Point, owners: nat, closers: nat)
    requires RecvInv(c, owners, closers) && p.Starting? && HoldInv(c, HoldOf(p))
    requires (d, q) == DoStart(c)
    ensures Kept(d, q, owners, closers)
  {
    assert Flat(c.handed) + [] == Flat(c.handed);
  }

  lemma AsideKeeps(c: Core, p: Point, d: Core, q: Point, owners: nat, closers: nat)
    requires RecvInv(c, owners, closers) && HoldInv(c, HoldOf(p)) && Aside(c, p, d, q)
    requires (RecvOwner(p) ==> owners == 1) && (p.Closing? ==> closers >= 1)
    ensures Kept(d, q, owners - One(RecvOwner(p)), closers - One(p.Closing?))
  {
    HoldKept(c, d, HoldOf(p));
  }

  lemma ContinueKept(c: Core, p: Point, ok: bool, d: Core, q: Point, owners: nat, closers: nat)
    requires RecvInv(c, owners, closers) && HoldInv(c, HoldOf(p))
    requires p.RecvDone? || p.Framing? || p.Drained? || p.Arming? || p.Starting?
    requires (d, q) == ContinueRecv(c, p, ok) && (!p.Starting? ==> owners == 1)
    ensures Kept(d, q, if p.Starting? then owners else 0, closers)
  {
    if p.RecvDone? {
      WriteKeeps(c, d, p, q, owners, closers);
    } else if p.Framing? {
      FrameKeeps(c, d, p, q, owners, closers);
    } else if p.Drained? {
      DrainKeeps(c, d, p, q, owners, closers);
    } else if p.Arming? {
      ArmKeeps(c, d, p, q, ok, owners, closers);
    } else {
      StartKeeps(c, d, p, q, owners, closers);
    }
  }

  lemma KeptAs(d: Core, q: Point, owners: nat, others: nat, closers: nat)
    requires Kept(d, q, owners, closers) && others == owners
    ensures Kept(d, q, others, closers)
  {
  }

  lemma ContinueKeeps(c: Core, p: Point, ok: bool, d: Core, q: Point, owners: nat, closers: nat)
    requires RecvInv(c, owners, closers) && HoldInv(c, HoldOf(p))
    requires p.RecvDone? || p.Framing? || p.Drained? || p.Arming? || p.Starting?
    requires (d, q) == ContinueRecv(c, p, ok) && (RecvOwner(p) ==> owners == 1)
    ensures Kept(d, q, owners - One(RecvOwner(p)), closers)
  {
    ContinueKept(c, p, ok, d, q, owners, closers);
    KeptAs(d, q, if p.Starting? then owners else 0, owners - One(RecvOwner(p)), closers);
  }

  lemma HandledKeeps(c: Core, p: Point, ok: bool, owners: nat, closers: nat)
    requires p.Handling? && RecvInv(c, owners, closers) && HoldInv(c, HoldOf(p)) && owners == 1
    ensures Kept(c, Handled(c, p, ok), 0, closers)
  {
  }

  lemma CalledKeeps(c: Core, d: Core, q: Point, owners: nat, closers: nat)
    requires RecvInv(c, owners, closers) && Act(c, Idle, CallStart) == Some((d, q))
    ensures Kept(d, q, owners, closers)
  {
  }

  /** One action of one thread keeps the core invariant and the promise of its own hold. */
  lemma RecvStep(c: Core, p: Point, a: Action, d: Core, q: Point, owners: nat, closers: nat)
    requires RecvInv(c, owners, closers) && HoldInv(c, HoldOf(p)) && Act(c, p, a) == Some((d, q))
    requires c.s.life.connected ==> !c.s.life.closed
    requires (RecvOwner(p) ==> owners == 1) && (p.Closing? ==> closers >= 1)
    ensures Kept(d, q, owners - One(RecvOwner(p)), closers - One(p.Closing?))
  {
    if !TouchesRecv(p, a) {
      StepAside(c, p, a, d, q);
      AsideKeeps(c, p, d, q, owners, closers);
    } else if a.TakeRecv? {
      ArriveKeeps(c, d, q, a.k, a.bytes, owners, closers);
    } else if a.Continue? {
      ContinueKeeps(c, p, a.ok, d, q, owners, closers);
    } else if a.HandlerReturn? {
      HandledKeeps(c, p, a.ok, owners, closers);
    } else {
      CalledKeeps(c, d, q, owners, closers);
    }
  }

  /** It also keeps the promise of every other thread's hold. */
  lemma RecvFrame(c: Core, p: Point, a: Action, d: Core, q: Point, other: Point, owners: nat, closers: nat)
    requires RecvInv(c, owners, closers) && HoldInv(c, HoldOf(other)) && Act(c, p, a) == Some((d, q))
    requires c.s.life.connected ==> !c.s.life.closed
    requires RecvOwner(other) ==> !RecvOwner(p) && owners == 1
    ensures d.s.rx.Valid() && HoldInv(d, HoldOf(other))
  {
    if !TouchesRecv(p, a) {
      StepAside(c, p, a, d, q);
      HoldKept(c, d, HoldOf(other));
    } else if a.TakeRecv? {
      ArriveKeeps(c, d, q, a.k, a.bytes, owners, closers);
    }
  }
}
