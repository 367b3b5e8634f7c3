/**
 * The session as a step system: any number of threads, each parked between two critical
 * sections, a kernel that holds posted operations, and a record of what was accepted, put on
 * the wire, received and handed over.  Every interleaving is a sequence of `Step`s.
 */
module Protocol {
  import opened Bytes
  import Frames = Framing
  import opened RecvBuffers
  import S = Sessions

  /** Who called into the session: an application thread, or the handler of the packet at `len`. */
  datatype Origin = App | Handler(len: nat, size: nat)

  /** What has to be undone when `send` returns false. */
  datatype Request = Plain | LoginRequest | EnterRequest | ExitRequest

  datatype After = FromSend(req: Request, who: Origin) | FromCompletion

  datatype Reason = SendError | FullNotice | Other

  /** Where a thread is parked: the critical section named here is the one it runs next. */
  datatype Point =
    | Idle                                              // outside the session
    | Sending(buf: Buffer, req: Request, who: Origin)    // first half of send
    | Registering(after: After)                         // register_send
    | Undo(req: Request, who: Origin)                    // complete_*(false) after a failed send
    | SendDone(n: nat)                                  // process_send(n), callback
    | RecvDone(n: nat)                                  // process_recv(n), callback
    | Framing(len: nat)                                 // next turn of the framing loop
    | Handling(len: nat, size: nat)                     // inside the handler of one packet
    | Drained(len: nat)                                 // on_read and clean
    | Arming(callback: bool)                            // register_recv
    | Starting                                          // start, connected, before the exchange
    | Clearing(who: Origin)                              // server-full handler, account cleared
    | Closing(why: Reason, next: Point)                 // disconnect, then go on
    | Tail                                              // finish_io at the end of dispatch

  datatype PostedRecv = PostedRecv(at: nat, len: nat)

  /** Everything but the threads: session, operations the kernel holds, and the record of the run. */
  datatype Core = Core(
    s: S.Session,
    sends: seq<seq<byte>>,        // outstanding WSASend operations: the bytes they expose
    recvs: seq<PostedRecv>,       // outstanding WSARecv operations
    accepted: seq<Buffer>,        // buffers queued by send, in order
    wire: seq<byte>,              // bytes the kernel reported as sent
    inbound: seq<byte>,           // bytes the kernel delivered
    handed: seq<seq<byte>>)       // packets given to HandlePacket

  datatype World = World(core: Core, threads: seq<Point>)

  datatype Action =
    | CallConnect(ok: bool)
    | CallDisconnect
    | CallSend(buf: seq<byte>)
    | CallLogin(buf: seq<byte>)
    | CallEnter(buf: seq<byte>)
    | CallExit(buf: seq<byte>)
    | ReplyLogin(success: bool, idx: nat)
    | ReplyEnter(success: bool, room: int)
    | ReplyExit(success: bool)
    | ReplyFull
    | CallStart
    | HandlerReturn(ok: bool)
    | TakeSend(k: nat, n: nat)
    | TakeRecv(k: nat, bytes: seq<byte>)
    | Continue(ok: bool)          // next section of a parked thread; ok answers WSASend and WSARecv

  function Return(who: Origin): Point {
    match who case App => Idle case Handler(len, size) => Handling(len, size)
  }

  /** Leaving `send`: a request whose packet was not accepted is undone. */
  function SendReturns(ok: bool, req: Request, who: Origin): Point {
    if ok || req == Plain then Return(who) else Undo(req, who)
  }

  /** Entering `send`: a null or empty buffer is refused before any lock is taken. */
  function SendCalled(buf: seq<byte>, req: Request, who: Origin): Point {
    if buf == [] then SendReturns(false, req, who) else Sending(buf, req, who)
  }

  predicate IsCaller(p: Point) { p.Idle? || p.Handling? }

  function OriginOf(p: Point): Origin
    requires IsCaller(p)
  {
    if p.Idle? then App else Handler(p.len, p.size)
  }

  /** Calls that run one critical section and return. */
  predicate IsSimple(a: Action) {
    a.CallConnect? || a.CallDisconnect? || a.ReplyLogin? || a.ReplyEnter? || a.ReplyExit?
  }

  function Simple(s: S.Session, a: Action): S.Session
    requires IsSimple(a)
  {
    match a
    case CallConnect(ok) => S.Connect(s, ok)
    case CallDisconnect => S.Disconnect(s)
    case ReplyLogin(success, idx) => S.CompleteLogin(s, success, idx)
    case ReplyEnter(success, room) => S.CompleteEnter(s, success, room)
    case ReplyExit(success) => S.CompleteExit(s, success)
  }

  /** Calls that reserve a request, if any, and then go on to `send`. */
  predicate IsRequest(a: Action) {
    a.CallSend? || a.CallLogin? || a.CallEnter? || a.CallExit?
  }

  function Reserve(s: S.Session, a: Action): (S.Session, bool)
    requires IsRequest(a)
  {
    match a
    case CallSend(_) => (s, true)
    case CallLogin(_) => S.BeginLogin(s)
    case CallEnter(_) => S.BeginEnter(s)
    case CallExit(_) => S.BeginExit(s)
  }

  function RequestOf(a: Action): Request
    requires IsRequest(a)
  {
    match a
    case CallSend(_) => Plain
    case CallLogin(_) => LoginRequest
    case CallEnter(_) => EnterRequest
    case CallExit(_) => ExitRequest
  }

  /** A call into the session by an application thread or by a packet handler. */
  function Call(c: Core, p: Point, a: Action): Option<(Core, Point)>
    requires IsCaller(p)
  {
    if IsSimple(a) then Some((c.(s := Simple(c.s, a)), p))
    else if IsRequest(a) then
      var (s, ok) := Reserve(c.s, a);
      Some((c.(s := s), if ok then SendCalled(a.buf, RequestOf(a), OriginOf(p)) else p))
    else if a.ReplyFull? then
      Some((c.(s := c.s.(account := c.s.account.(idx := 0))), Clearing(OriginOf(p))))
    else None
  }

  /** An idle thread calls `start`, or takes a completion off the port. */
  ghost function Wake(c: Core, a: Action): Option<(Core, Point)>
    requires c.s.rx.Valid()
  {
    match a
    case CallStart => Some((c, if c.s.life.connected then Starting else Closing(Other, Idle)))
    case TakeSend(k, n) =>
      if k < |c.sends| then
        var sent := c.sends[k][..Min(n, |c.sends[k]|)];
        Some((c.(sends := c.sends[..k] + c.sends[k + 1..], wire := c.wire + sent), SendDone(n)))
      else None
    case TakeRecv(k, bytes) =>
      if k < |c.recvs| && |bytes| <= c.recvs[k].len && c.recvs[k].at + |bytes| <= |c.s.rx.data| then
        Some((c.(recvs := c.recvs[..k] + c.recvs[k + 1..], inbound := c.inbound + bytes,
                 s := c.s.(rx := c.s.rx.Store(c.recvs[k].at, bytes))), RecvDone(|bytes|)))
      else None
    case _ => None
  }

  /** The first half of `send`. */
  function DoPush(c: Core, p: Point): (Core, Point)
    requires p.Sending?
  {
    var (s, r) := S.Push(c.s, p.buf);
    if r == S.Refused then (c.(s := s), SendReturns(false, p.req, p.who))
    else (c.(s := s, accepted := c.accepted + [p.buf]),
          if r == S.Queued then SendReturns(true, p.req, p.who) else Registering(FromSend(p.req, p.who)))
  }

  /** Where a thread goes on once `register_send` has answered. */
  function Registered(after: After, ok: bool): Point {
    match after
    case FromSend(req, who) => SendReturns(ok, req, who)
    case FromCompletion => Tail
  }

  function DoRegister(c: Core, p: Point, ok: bool): (Core, Point)
    requires p.Registering?
  {
    var (s, r) := S.RegisterSend(c.s, ok);
    match r
    case SendRefused => (c.(s := s), Registered(p.after, false))
    case NothingToSend => (c.(s := s), Registered(p.after, true))
    case Posted(bytes) => (c.(s := s, sends := c.sends + [bytes]), Registered(p.after, true))
    case PostFailed => (c.(s := s), Closing(SendError, Registered(p.after, false)))
  }

  function DoProcess(c: Core, p: Point): (Core, Point)
    requires p.SendDone?
  {
    var (s, r) := S.ProcessSend(c.s, p.n);
    (c.(s := s), match r
                 case Quiet => Tail
                 case Again => Registering(FromCompletion)
                 case BadCompletion => Closing(SendError, Tail))
  }

  /** The beginning of `process_recv`, up to `on_write`. */
  ghost function DoWrite(c: Core, n: nat): (Core, Point)
    requires c.s.rx.Valid()
  {
    if !c.s.life.connected then (c, Tail)
    else if n == 0 || n > c.s.rx.FreeSize() then (c, Closing(Other, Tail))
    else (c.(s := c.s.(rx := c.s.rx.OnWrite(n))), Framing(0))
  }

  /** One turn of the framing loop, up to the handler. */
  ghost function DoFrame(c: Core, len: nat): (Core, Point)
    requires c.s.rx.Valid()
  {
    var unread := c.s.rx.Unread();
    if len > |unread| then (c, Closing(Other, Tail))
    else match Frames.Examine(unread[len..])
      case Wait => (c, Drained(len))
      case Malformed => (c, Closing(Other, Tail))
      case Packet(size) => (c.(handed := c.handed + [unread[len..len + size]]), Handling(len, size))
  }

  /** `on_read` and `clean`. */
  ghost function DoDrain(c: Core, len: nat): (Core, Point)
    requires c.s.rx.Valid()
  {
    if len > c.s.rx.DataSize() then (c, Closing(Other, Tail))
    else (c.(s := c.s.(rx := c.s.rx.OnRead(len).Clean())), Arming(true))
  }

  /** `register_recv`, from a callback or from `start`. */
  function DoArm(c: Core, callback: bool, ok: bool): (Core, Point)
    requires c.s.rx.Valid()
  {
    var (s, r) := S.RegisterRecv(c.s, ok);
    var (good, bad) := if callback then (Tail, Tail) else (Idle, Closing(Other, Idle));
    match r
    case RecvRefused => (c.(s := s), bad)
    case Armed(at, len) => (c.(s := s, recvs := c.recvs + [PostedRecv(at, len)]), good)
    case ArmFailed => (c.(s := s), Closing(Other, bad))
  }

  /** Where the framing loop goes on after a handler. */
  function Handled(c: Core, p: Point, ok: bool): Point
    requires p.Handling?
  {
    if !ok then Closing(Other, Tail)
    else if c.s.life.connected then Framing(p.len + p.size)
    else Drained(p.len + p.size)
  }

  /** The exchange in `start`: only the first caller goes on to arm. */
  function DoStart(c: Core): (Core, Point) {
    (c.(s := c.s.(started := true)), if c.s.started then Idle else Arming(false))
  }

  /** The next step of the receive path. */
  ghost function ContinueRecv(c: Core, p: Point, ok: bool): (Core, Point)
    requires c.s.rx.Valid()
    requires p.RecvDone? || p.Framing? || p.Drained? || p.Arming? || p.Starting?
  {
    match p
    case RecvDone(n) => DoWrite(c, n)
    case Framing(len) => DoFrame(c, len)
    case Drained(len) => DoDrain(c, len)
    case Arming(callback) => DoArm(c, callback, ok)
    case Starting => DoStart(c)
  }

  /** The remaining parked points. */
  function ContinueOther(c: Core, p: Point): (Core, Point)
    requires p.Undo? || p.Clearing? || p.Closing? || p.Tail?
  {
    match p
    case Undo(req, who) =>
      (c.(s := match req
               case LoginRequest => S.CompleteLogin(c.s, false, 0)
               case EnterRequest => S.CompleteEnter(c.s, false, -1)
               case ExitRequest => S.CompleteExit(c.s, false)
               case Plain => c.s), Return(who))
    case Clearing(who) =>
      (c.(s := c.s.(account := c.s.account.(isLogin := false))), Closing(FullNotice, Return(who)))
    case Closing(why, next) => (c.(s := S.Disconnect(c.s)), next)
    case Tail => (c.(s := S.FinishIo(c.s)), Idle)
  }

  /** What one thread at `p` does to the core, and where it is parked next; None if it cannot. */
  ghost function Act(c: Core, p: Point, a: Action): Option<(Core, Point)>
    requires c.s.rx.Valid()
  {
    if a.Continue? then
      if p.Sending? then Some(DoPush(c, p))
      else if p.Registering? then Some(DoRegister(c, p, a.ok))
      else if p.SendDone? then Some(DoProcess(c, p))
      else if p.RecvDone? || p.Framing? || p.Drained? || p.Arming? || p.Starting? then
        Some(ContinueRecv(c, p, a.ok))
      else if p.Undo? || p.Clearing? || p.Closing? || p.Tail? then Some(ContinueOther(c, p))
      else None
    else if a.HandlerReturn? then
      if p.Handling? then Some((c, Handled(c, p, a.ok))) else None
    else if a.CallStart? || a.TakeSend? || a.TakeRecv? then
      if p.Idle? then Wake(c, a) else None
    else if IsCaller(p) then Call(c, p, a)
    else None
  }

  ghost predicate Step(w: World, w': World) {
    exists i, a :: StepBy(w, w', i, a)
  }

  /** Thread `i` takes action `a`. */
  ghost predicate StepBy(w: World, w': World, i: nat, a: Action) {
    && i < |w.threads|
    && w.core.s.rx.Valid()
    && var r := Act(w.core, w.threads[i], a);
       r.Some? && w' == World(r.value.0, w.threads[i := r.value.1])
  }

  /** A new session, any number of idle threads. */
  ghost predicate Init(w: World) {
    && (forall i :: 0 <= i < |w.threads| ==> w.threads[i].Idle?)
    && w.core == Core(S.Fresh(w.core.s.rx), [], [], [], [], [], [])
    && w.core.s.rx.Valid() && w.core.s.rx.unit == BUFFER_SIZE
    && w.core.s.rx.readPos == w.core.s.rx.writePos == 0
  }

  /** A run and the world it has reached. */
  datatype Run = Start(world: World) | Then(before: Run, world: World)

  /** A run starts anew, and consecutive worlds are related by a step. */
  ghost predicate IsRun(run: Run) {
    match run
    case Start(w) => Init(w)
    case Then(before, w) => IsRun(before) && Step(before.world, w)
  }

  /** `run` is a continuation of `early`. */
  ghost predicate Continues(run: Run, early: Run) {
    run == early || (run.Then? && Continues(run.before, early))
  }
}
