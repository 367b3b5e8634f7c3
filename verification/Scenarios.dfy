/**
 * Runs the client can make: packets that arrive, are cut, and whose handlers call back into the
 * session, while an application thread sends requests.
 */
module Scenarios {
  import opened Bytes
  import opened Codec
  import opened CodecLaws
  import Frames = Framing
  import opened RecvBuffers
  import opened Protocol
  import S = Sessions
  import opened AccountSafety
  import opened Safety

  // ---------------------------------------------------------------------------------------
  // What the packet handlers do with a reply

  const ACK_LOGIN: Schema := [KUInt64, KString, KEnum]
  const ACK_ENTER_ROOM: Schema := [KInt32, KEnum]
  const ACK_EXIT_ROOM: Schema := [KEnum]
  const ACK_SERVER_FULL: Schema := [KUInt32]

  const PKT_ACK_LOGIN := 1001
  const PKT_ACK_ENTER_ROOM := 1009
  const PKT_ACK_EXIT_ROOM := 1011
  const PKT_ACK_SERVER_FULL := 1017

  const LOGIN_SUCCESS := 8
  const ENTER_ROOM_SUCCESS := 2
  const EXIT_ROOM_SUCCESS := 2

  /** The call into the session that the handler of a packet makes, if it parses. */
  function CallOf(packet: seq<byte>, depth: nat): Option<Action> {
    if |packet| < Frames.HEADER_SIZE then None
    else CallFor(Frames.ReadU16(packet, 2), Frames.Payload(packet), depth)
  }

  /** The packet makes its handler do `a`, whatever the recursion limit of the parser. */
  ghost predicate Means(packet: seq<byte>, a: Action) {
    Frames.IsFrame(packet) && forall depth: nat :: CallOf(packet, depth) == Some(a)
  }

  function CallFor(id: nat, payload: seq<byte>, depth: nat): Option<Action> {
    if id == PKT_ACK_LOGIN then
      match Parse(ACK_LOGIN, Defaults(ACK_LOGIN), payload, depth)
      case None => None
      case Some(m) => Some(ReplyLogin(m[2].n == LOGIN_SUCCESS, m[0].n))
    else if id == PKT_ACK_ENTER_ROOM then
      match Parse(ACK_ENTER_ROOM, Defaults(ACK_ENTER_ROOM), payload, depth)
      case None => None
      case Some(m) => Some(ReplyEnter(m[1].n == ENTER_ROOM_SUCCESS, m[0].n))
    else if id == PKT_ACK_EXIT_ROOM then
      match Parse(ACK_EXIT_ROOM, Defaults(ACK_EXIT_ROOM), payload, depth)
      case None => None
      case Some(m) => Some(ReplyExit(m[0].n == EXIT_ROOM_SUCCESS))
    else if id == PKT_ACK_SERVER_FULL then
      match Parse(ACK_SERVER_FULL, Defaults(ACK_SERVER_FULL), payload, depth)
      case None => None
      case Some(m) => Some(ReplyFull)
    else None
  }

  ghost predicate Numbers(sch: Schema, m: Message) {
    Typed(sch, m) && forall j :: 0 <= j < |m| ==> m[j].Num? || IsDefault(m[j])
  }

  /** The packet of a short reply. */
  lemma ReplyPacket(sch: Schema, m: Message, id: nat) returns (packet: seq<byte>)
    requires Numbers(sch, m) && id <= Frames.UINT16_MAX
    ensures Frames.IsFrame(packet) && Frames.ReadU16(packet, 2) == id
    ensures forall depth: nat :: Parse(sch, Defaults(sch), Frames.Payload(packet), depth) == Some(m)
  {
    NumbersSmall(sch, m, 0);
    packet := Frames.MakeFrame(Serialize(sch, m), id);
    forall depth: nat ensures Parse(sch, Defaults(sch), Frames.Payload(packet), depth) == Some(m) {
      RoundTrip(sch, m, depth);
    }
  }

  lemma LoginPacket(success: bool) returns (packet: seq<byte>)
    ensures Means(packet, ReplyLogin(success, 1))
  {
    packet := ReplyPacket(ACK_LOGIN, [Num(1), Text([]), Num(if success then LOGIN_SUCCESS else 0)], PKT_ACK_LOGIN);
  }

  lemma EnterPacket(success: bool, room: nat) returns (packet: seq<byte>)
    requires room < 10
    ensures Means(packet, ReplyEnter(success, room))
  {
    packet := ReplyPacket(ACK_ENTER_ROOM, [Num(room), Num(if success then ENTER_ROOM_SUCCESS else 1)], PKT_ACK_ENTER_ROOM);
  }

  lemma ExitPacket(success: bool) returns (packet: seq<byte>)
    ensures Means(packet, ReplyExit(success))
  {
    packet := ReplyPacket(ACK_EXIT_ROOM, [Num(if success then EXIT_ROOM_SUCCESS else 1)], PKT_ACK_EXIT_ROOM);
  }

  lemma FullPacket() returns (packet: seq<byte>)
    ensures Means(packet, ReplyFull)
  {
    packet := ReplyPacket(ACK_SERVER_FULL, [Num(1000)], PKT_ACK_SERVER_FULL);
  }

  // ---------------------------------------------------------------------------------------
  // Pieces of runs

  /** The worker, at `p`, takes one action. */
  lemma WorkerStep(w: World, p: Point, a: Action, d: Core, q: Point) returns (next: World)
    requires Reachable(w) && w.threads == [Idle, p] && w.core.s.rx.Valid() && Act(w.core, p, a) == Some((d, q))
    ensures next == World(d, [Idle, q]) && Reachable(next) && Leads(w, next)
    ensures StepBy(w, next, 1, a)
  {
    next := World(d, [Idle, q]);
    assert StepBy(w, next, 1, a);
    StepReachable(w, next);
    StepLeads(w, next);
  }

  /** The application thread, at `p`, takes one action. */
  lemma AppStep(w: World, p: Point, a: Action, d: Core, q: Point) returns (next: World)
    requires Reachable(w) && w.threads == [p, Idle] && w.core.s.rx.Valid() && Act(w.core, p, a) == Some((d, q))
    ensures next == World(d, [q, Idle]) && Reachable(next)
  {
    next := World(d, [q, Idle]);
    assert StepBy(w, next, 0, a);
    StepReachable(w, next);
  }

  /** Nothing but traffic differs: the login and room state, and the send side. */
  ghost predicate SameState(c: Core, d: Core) {
    d.s.life == c.s.life && d.s.account == c.s.account && d.s.tx == c.s.tx && d.s.started == c.s.started
  }

  /** Connected, an application thread and a worker idle, and a receive outstanding on an empty buffer. */
  ghost predicate Waiting(w: World) {
    && w.threads == [Idle, Idle] && w.core.s.life.connected
    && w.core.s.rx.Valid() && w.core.s.rx.unit == BUFFER_SIZE && w.core.s.rx.readPos == w.core.s.rx.writePos == 0
    && w.core.recvs == [PostedRecv(0, 10 * BUFFER_SIZE)]
  }

  /** The worker is in the handler of `packet`, which is all that was received. */
  ghost predicate InHandler(w: World, packet: seq<byte>) {
    && w.threads == [Idle, Handling(0, |packet|)] && w.core.s.life.connected
    && w.core.s.rx.Valid() && w.core.s.rx.unit == BUFFER_SIZE
    && w.core.s.rx.readPos == 0 && w.core.s.rx.writePos == |packet|
    && w.core.recvs == []
  }

  lemma TakeActs(c: Core, packet: seq<byte>)
    requires c.s.rx.Valid() && c.s.rx.unit == BUFFER_SIZE && c.s.rx.readPos == c.s.rx.writePos == 0
    requires c.recvs == [PostedRecv(0, 10 * BUFFER_SIZE)] && Frames.IsFrame(packet)
    ensures Act(c, Idle, TakeRecv(0, packet))
         == Some((c.(recvs := [], inbound := c.inbound + packet, s := c.s.(rx := c.s.rx.Store(0, packet))), RecvDone(|packet|)))
  {
    assert c.recvs[..0] + c.recvs[1..] == [];
  }

  lemma WriteActs(c: Core, n: nat)
    requires c.s.rx.Valid() && c.s.life.connected && 0 < n <= c.s.rx.FreeSize()
    ensures Act(c, RecvDone(n), Continue(true)) == Some((c.(s := c.s.(rx := c.s.rx.OnWrite(n))), Framing(0)))
  {
  }

  lemma PacketActs(c: Core, packet: seq<byte>)
    requires c.s.rx.Valid() && c.s.rx.Unread() == packet && Frames.IsFrame(packet)
    ensures Act(c, Framing(0), Continue(true)) == Some((c.(handed := c.handed + [packet]), Handling(0, |packet|)))
  {
    assert packet[0..] == packet && packet[0..|packet|] == packet;
  }

  lemma HandledActs(c: Core, n: nat)
    requires c.s.rx.Valid() && c.s.life.connected
    ensures Act(c, Handling(0, n), HandlerReturn(true)) == Some((c, Framing(n)))
  {
  }

  lemma WaitActs(c: Core, len: nat)
    requires c.s.rx.Valid() && c.s.rx.DataSize() == len
    ensures Act(c, Framing(len), Continue(true)) == Some((c, Drained(len)))
  {
    assert c.s.rx.Unread()[len..] == [];
  }

  lemma DrainedActs(c: Core, len: nat)
    requires c.s.rx.Valid() && c.s.rx.DataSize() == len
    ensures Act(c, Drained(len), Continue(true))
         == Some((c.(s := c.s.(rx := c.s.rx.(readPos := 0, writePos := 0))), Arming(true)))
  {
  }

  lemma ArmingActs(c: Core, callback: bool)
    requires c.s.rx.Valid() && c.s.life.connected && c.s.rx.writePos == 0 && c.recvs == []
    ensures Act(c, Arming(callback), Continue(true))
         == Some((c.(s := c.s.(pendingIo := c.s.pendingIo + 1), recvs := [PostedRecv(0, |c.s.rx.data|)]),
                  if callback then Tail else Idle))
  {
    assert [] + [PostedRecv(0, |c.s.rx.data|)] == [PostedRecv(0, |c.s.rx.data|)];
  }

  lemma FinishActs(c: Core)
    requires c.s.rx.Valid()
    ensures Act(c, Tail, Continue(true)) == Some((c.(s := S.FinishIo(c.s)), Idle))
  {
  }

  /** A packet arrives in one piece: completion, `on_write`, and the first turn of the framing loop. */
  lemma Receive(w: World, packet: seq<byte>) returns (next: World)
    requires Reachable(w) && Waiting(w) && Frames.IsFrame(packet)
    ensures Reachable(next) && Leads(w, next) && InHandler(next, packet) && SameState(w.core, next.core)
    ensures next.core.handed == w.core.handed + [packet]
  {
    var c := w.core;
    TakeActs(c, packet);
    var c1 := c.(recvs := [], inbound := c.inbound + packet, s := c.s.(rx := c.s.rx.Store(0, packet)));
    var w1 := WorkerStep(w, Idle, TakeRecv(0, packet), c1, RecvDone(|packet|));
    WriteActs(c1, |packet|);
    var c2 := c1.(s := c1.s.(rx := c1.s.rx.OnWrite(|packet|)));
    var w2 := WorkerStep(w1, RecvDone(|packet|), Continue(true), c2, Framing(0));
    PacketActs(c2, packet);
    next := WorkerStep(w2, Framing(0), Continue(true), c2.(handed := c2.handed + [packet]), Handling(0, |packet|));
    LeadsOn(w, w1, w2);
    LeadsOn(w, w2, next);
  }

  /** The handler returns, the loop waits for more, and the next receive is posted. */
  lemma LeaveHandler(w: World, packet: seq<byte>) returns (next: World)
    requires Reachable(w) && InHandler(w, packet)
    ensures Reachable(next) && Leads(w, next) && Waiting(next) && SameState(w.core, next.core)
    ensures next.core.handed == w.core.handed
  {
    var c, n := w.core, |packet|;
    HandledActs(c, n);
    var w1 := WorkerStep(w, Handling(0, n), HandlerReturn(true), c, Framing(n));
    WaitActs(c, n);
    var w2 := WorkerStep(w1, Framing(n), Continue(true), c, Drained(n));
    next := Rearm(w2, n);
    LeadsOn(w, w1, w2);
    LeadsOn(w, w2, next);
  }

  lemma Rearm(w: World, len: nat) returns (next: World)
    requires Reachable(w) && w.core.s.life.connected && w.core.s.rx.Valid() && w.core.recvs == []
    requires w.core.s.rx.unit == BUFFER_SIZE && w.core.s.rx.DataSize() == len && w.threads == [Idle, Drained(len)]
    ensures Reachable(next) && Leads(w, next) && Waiting(next) && SameState(w.core, next.core)
    ensures next.core.handed == w.core.handed
  {
    var c := w.core;
    DrainedActs(c, len);
    var c1 := c.(s := c.s.(rx := c.s.rx.(readPos := 0, writePos := 0)));
    var w1 := WorkerStep(w, Drained(len), Continue(true), c1, Arming(true));
    ArmingActs(c1, true);
    var c2 := c1.(s := c1.s.(pendingIo := c1.s.pendingIo + 1), recvs := [PostedRecv(0, |c1.s.rx.data|)]);
    var w2 := WorkerStep(w1, Arming(true), Continue(true), c2, Tail);
    FinishActs(c2);
    next := WorkerStep(w2, Tail, Continue(true), c2.(s := S.FinishIo(c2.s)), Idle);
    LeadsOn(w, w1, w2);
    LeadsOn(w, w2, next);
  }

  /** The handler of a room or login reply runs its one critical section. */
  lemma Answer(w: World, packet: seq<byte>, a: Action) returns (next: World)
    requires Reachable(w) && InHandler(w, packet) && IsSimple(a) && Simple(w.core.s, a).life == w.core.s.life
    ensures Reachable(next) && InHandler(next, packet)
    ensures next.core == w.core.(s := Simple(w.core.s, a)) && StepBy(w, next, 1, a)
  {
    var c := w.core;
    next := WorkerStep(w, Handling(0, |packet|), a, c.(s := Simple(c.s, a)), Handling(0, |packet|));
  }

  /** The application asks to enter a room while a send is under way: its packet is queued. */
  lemma AskEnter(w: World, buf: Buffer) returns (next: World)
    requires Reachable(w) && Waiting(w) && w.core.s.tx.registered && w.core.s.account == LOGGED_IN
    ensures Reachable(next) && Waiting(next) && next.core.s.tx.registered
    ensures next.core.s.account == LOGGED_IN.(request := S.ENTER) && next.core.handed == w.core.handed
  {
    var c := w.core;
    var c1 := c.(s := S.BeginEnter(c.s).0);
    next := AppStep(w, Idle, CallEnter(buf), c1, Sending(buf, EnterRequest, App));
    var c2 := c1.(s := S.Push(c1.s, buf).0, accepted := c1.accepted + [buf]);
    next := AppStep(next, Sending(buf, EnterRequest, App), Continue(true), c2, Idle);
  }

  // ---------------------------------------------------------------------------------------
  // Connected, started, logged in

  const LOGGED_IN := S.FRESH_ACCOUNT.(phase := S.LOGIN, isLogin := true, idx := 1)

  lemma Connected() returns (w: World)
    ensures Reachable(w) && Waiting(w) && w.core.handed == [] && w.core.s.tx == S.Tx([], false, [])
    ensures w.core.s.account == S.FRESH_ACCOUNT.(phase := S.CONNECTED)
  {
    var rx := RecvBuf(BUFFER_SIZE, seq(10 * BUFFER_SIZE, _ => 0), 0, 0);
    var c := Core(S.Fresh(rx), [], [], [], [], [], []);
    w := World(c, [Idle, Idle]);
    assert IsRun(Start(w));
    var c1 := c.(s := S.Connect(c.s, true));
    w := AppStep(w, Idle, CallConnect(true), c1, Idle);
    w := AppStep(w, Idle, CallStart, c1, Starting);
    w := Started(w);
  }

  lemma Started(w: World) returns (next: World)
    requires Reachable(w) && w.threads == [Starting, Idle] && !w.core.s.started
    requires w.core.s.life.connected && w.core.recvs == []
    requires w.core.s.rx.Valid() && w.core.s.rx.unit == BUFFER_SIZE && w.core.s.rx.readPos == w.core.s.rx.writePos == 0
    ensures Reachable(next) && Waiting(next) && next.core.handed == w.core.handed
    ensures next.core.s.account == w.core.s.account && next.core.s.tx == w.core.s.tx
  {
    var c := w.core;
    var c1 := c.(s := c.s.(started := true));
    next := AppStep(w, Starting, Continue(true), c1, Arming(false));
    ArmingActs(c1, false);
    var c2 := c1.(s := c1.s.(pendingIo := c1.s.pendingIo + 1), recvs := [PostedRecv(0, |c1.s.rx.data|)]);
    next := AppStep(next, Arming(false), Continue(true), c2, Idle);
  }

  /** The login request goes out: reserved, queued, registered. */
  lemma AskLogin(w: World, buf: Buffer) returns (next: World)
    requires Reachable(w) && Waiting(w) && w.core.s.tx == S.Tx([], false, [])
    requires !w.core.s.account.isLogin && !w.core.s.account.pending
    ensures Reachable(next) && Waiting(next) && next.core.s.tx.registered && next.core.handed == w.core.handed
    ensures next.core.s.account == w.core.s.account.(pending := true, phase := S.LOGIN_SEND)
  {
    var c := w.core;
    var c1 := c.(s := S.BeginLogin(c.s).0);
    next := AppStep(w, Idle, CallLogin(buf), c1, Sending(buf, LoginRequest, App));
    var c2 := c1.(s := S.Push(c1.s, buf).0, accepted := c1.accepted + [buf]);
    next := AppStep(next, Sending(buf, LoginRequest, App), Continue(true), c2, Registering(FromSend(LoginRequest, App)));
    assert Flat([buf]) == buf && c2.s.tx.queue == [buf];
    var c3 := c2.(s := S.RegisterSend(c2.s, true).0, sends := c2.sends + [buf]);
    next := AppStep(next, Registering(FromSend(LoginRequest, App)), Continue(true), c3, Idle);
  }

  lemma LoggedIn(buf: Buffer) returns (w: World)
    ensures Reachable(w) && Waiting(w) && w.core.s.tx.registered && w.core.s.account == LOGGED_IN
  {
    w := Connected();
    w := AskLogin(w, buf);
    var login := LoginPacket(true);
    w := Receive(w, login);
    w := Answer(w, login, ReplyLogin(true, 1));
    w := LeaveHandler(w, login);
  }

  /** Logged in, an enter request sent, and the worker in the handler of `packet`. */
  lemma AskedToEnter(w: World, buf: Buffer, packet: seq<byte>) returns (asked: World)
    requires Reachable(w) && Waiting(w) && w.core.s.tx.registered
    requires w.core.s.account == LOGGED_IN && Frames.IsFrame(packet)
    ensures Reachable(asked) && InHandler(asked, packet) && asked.core.s.tx.registered
    ensures asked.core.s.account == LOGGED_IN.(request := S.ENTER)
    ensures asked.core.handed == w.core.handed + [packet]
  {
    asked := AskEnter(w, buf);
    asked := Receive(asked, packet);
  }

  // ---------------------------------------------------------------------------------------
  // The runs

  /** The last `n` packets handed over are copies of `packet`. */
  ghost predicate CopiesHanded(c: Core, packet: seq<byte>, n: nat) {
    |c.handed| >= n && forall k :: |c.handed| - n <= k < |c.handed| ==> c.handed[k] == packet
  }

  /**
   * A logged-in session is told that the server is full: between the handler's unlocked store and
   * its disconnect the session is connected, in phase LOGIN, and not logged in.
   */
  lemma FullNoticeBreaksLogin(buf: Buffer) returns (w: World, packet: seq<byte>)
    ensures Reachable(w) && w.core.s.life.connected && !Coherent(w.core.s.account)
    ensures Means(packet, ReplyFull) && CopiesHanded(w.core, packet, 1)
    ensures w.threads == [Idle, Closing(FullNotice, Handling(0, |packet|))]
  {
    w := LoggedIn(buf);
    packet := FullPacket();
    w := Receive(w, packet);
    w := ClearLogin(w, packet);
  }

  lemma FullActs(c: Core, n: nat)
    requires c.s.rx.Valid()
    ensures Act(c, Handling(0, n), ReplyFull)
         == Some((c.(s := c.s.(account := c.s.account.(idx := 0))), Clearing(Handler(0, n))))
    ensures Act(c, Clearing(Handler(0, n)), Continue(true))
         == Some((c.(s := c.s.(account := c.s.account.(isLogin := false))), Closing(FullNotice, Handling(0, n))))
  {
  }

  lemma ClearLogin(w: World, packet: seq<byte>) returns (next: World)
    requires Reachable(w) && InHandler(w, packet)
    ensures Reachable(next) && next.core.s.life.connected && next.core.handed == w.core.handed
    ensures next.core.s.account == w.core.s.account.(idx := 0, isLogin := false)
    ensures next.threads == [Idle, Closing(FullNotice, Handling(0, |packet|))]
  {
    var c := w.core;
    FullActs(c, |packet|);
    var c1 := c.(s := c.s.(account := c.s.account.(idx := 0)));
    next := WorkerStep(w, Handling(0, |packet|), ReplyFull, c1, Clearing(Handler(0, |packet|)));
    FullActs(c1, |packet|);
    var c2 := c1.(s := c1.s.(account := c1.s.account.(isLogin := false)));
    next := WorkerStep(next, Clearing(Handler(0, |packet|)), Continue(true), c2, Closing(FullNotice, Handling(0, |packet|)));
  }

  /** With no request pending, an enter reply is handled and changes nothing. */
  lemma AnswerIgnored(w: World, answer: seq<byte>, room: nat) returns (late: World, ignored: World)
    requires Reachable(w) && Waiting(w) && w.core.s.account == LOGGED_IN && Frames.IsFrame(answer)
    ensures Reachable(late) && Leads(w, late) && late.core.handed == w.core.handed + [answer]
    ensures StepBy(late, ignored, 1, ReplyEnter(true, room))
    ensures ignored.core == late.core && ignored.core.s.account == LOGGED_IN
  {
    late := Receive(w, answer);
    ignored := Answer(late, answer, ReplyEnter(true, room));
  }

  lemma FirstRefused(buf: Buffer, packet: seq<byte>) returns (w: World)
    requires Frames.IsFrame(packet)
    ensures Reachable(w) && Waiting(w) && w.core.s.tx.registered && w.core.s.account == LOGGED_IN
    ensures CopiesHanded(w.core, packet, 1)
  {
    w := LoggedIn(buf);
    w := AskedToEnter(w, buf, packet);
    w := Answer(w, packet, ReplyEnter(false, 3));
    w := LeaveHandler(w, packet);
  }

  /** Two enter requests in a row, each settled by a copy of the same failed reply. */
  lemma SameReplyTwice(buf: Buffer, packet: seq<byte>) returns (asked: World, cancelled: World, w: World)
    requires Frames.IsFrame(packet)
    ensures Reachable(asked) && asked.core.s.account.request == S.ENTER && CopiesHanded(asked.core, packet, 2)
    ensures StepBy(asked, cancelled, 1, ReplyEnter(false, 3)) && cancelled.core.s.account == LOGGED_IN
    ensures Reachable(w) && Leads(cancelled, w) && Waiting(w) && w.core.s.account == LOGGED_IN
    ensures w.core.handed == asked.core.handed
  {
    w := FirstRefused(buf, packet);
    asked := AskedToEnter(w, buf, packet);
    cancelled := Answer(asked, packet, ReplyEnter(false, 3));
    w := LeaveHandler(cancelled, packet);
  }

  /**
   * A second copy of a failed enter reply arrives while the next enter request is pending: it
   * cancels that request, and the server's answer to it, which comes later, changes nothing.
   */
  lemma DuplicateCancels(buf: Buffer)
    returns (packet: seq<byte>, answer: seq<byte>, asked: World, cancelled: World, late: World, ignored: World)
    ensures Means(packet, ReplyEnter(false, 3)) && Means(answer, ReplyEnter(true, 5))
    ensures Reachable(asked) && asked.core.s.account.request == S.ENTER && CopiesHanded(asked.core, packet, 2)
    ensures StepBy(asked, cancelled, 1, ReplyEnter(false, 3)) && cancelled.core.s.account.request == S.NO_REQUEST
    ensures Leads(cancelled, late) && late.core.handed == asked.core.handed + [answer]
    ensures StepBy(late, ignored, 1, ReplyEnter(true, 5))
    ensures ignored.core == late.core && ignored.core.s.account.room == -1
  {
    var w;
    packet := EnterPacket(false, 3);
    answer := EnterPacket(true, 5);
    asked, cancelled, w := SameReplyTwice(buf, packet);
    late, ignored := AnswerIgnored(w, answer, 5);
    LeadsOn(cancelled, w, late);
  }

  lemma InRoomThree(buf: Buffer) returns (w: World)
    ensures Reachable(w) && Waiting(w) && w.core.s.tx.registered && w.core.s.account == LOGGED_IN.(room := 3)
  {
    w := LoggedIn(buf);
    var enter := EnterPacket(true, 3);
    w := AskedToEnter(w, buf, enter);
    w := Answer(w, enter, ReplyEnter(true, 3));
    w := LeaveHandler(w, enter);
  }

  /**
   * A failed login reply that arrives in a room: the session is connected and its login state is
   * coherent, but it is in the room without being logged in, and can neither enter nor exit.
   */
  lemma LateLoginReply(buf: Buffer) returns (w: World, packet: seq<byte>)
    ensures Reachable(w) && w.core.s.life.connected && Coherent(w.core.s.account)
    ensures Means(packet, ReplyLogin(false, 1)) && CopiesHanded(w.core, packet, 1)
    ensures w.core.s.account.room == 3 && !w.core.s.account.isLogin
    ensures !S.BeginEnter(w.core.s).1 && !S.BeginExit(w.core.s).1
  {
    w := InRoomThree(buf);
    packet := LoginPacket(false);
    w := Receive(w, packet);
    w := Answer(w, packet, ReplyLogin(false, 1));
  }

  /** The application asks to leave its room. */
  lemma AskExit(w: World, buf: Buffer) returns (next: World)
    requires Reachable(w) && Waiting(w) && w.core.s.tx.registered && w.core.s.account == LOGGED_IN.(room := 3)
    ensures Reachable(next) && Waiting(next)
    ensures next.core.s.account == LOGGED_IN.(room := 3, request := S.EXIT)
  {
    var c := w.core;
    var c1 := c.(s := S.BeginExit(c.s).0);
    next := AppStep(w, Idle, CallExit(buf), c1, Sending(buf, ExitRequest, App));
    var c2 := c1.(s := S.Push(c1.s, buf).0, accepted := c1.accepted + [buf]);
    next := AppStep(next, Sending(buf, ExitRequest, App), Continue(true), c2, Idle);
  }

  /** In and out: a session enters a room, asks to leave, and is out once the reply is handled. */
  lemma EnterAndExit(buf: Buffer) returns (inside: World, asked: World, outside: World)
    ensures Reachable(inside) && inside.core.s.account == LOGGED_IN.(room := 3)
    ensures Reachable(asked) && asked.core.s.account == LOGGED_IN.(room := 3, request := S.EXIT)
    ensures StepBy(asked, outside, 1, ReplyExit(true)) && outside.core.s.account == LOGGED_IN
  {
    inside := InRoomThree(buf);
    asked := AskExit(inside, buf);
    var reply := ExitPacket(true);
    asked := Receive(asked, reply);
    outside := Answer(asked, reply, ReplyExit(true));
  }
}
