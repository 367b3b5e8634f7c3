/** What each call, reply and completion does, in every reachable state and in every case. */
module StepEffects {
  import opened Bytes
  import opened Counting
  import Frames = Framing
  import opened RecvBuffers
  import opened Protocol
  import S = Sessions
  import opened SendSafety
  import opened RecvSafety
  import opened AccountSafety
  import opened Safety
  import opened SessionTheorems

  // ---------------------------------------------------------------------------------------
  // Requests

  /** When a request may be made: a plain send always, the others from a fitting state with nothing pending. */
  predicate MayAsk(s: S.Session, a: Action)
    requires IsRequest(a)
  {
    var x := s.account;
    match a
    case CallSend(_) => true
    case CallLogin(_) => s.life.connected && !x.isLogin && !x.pending
    case CallEnter(_) => s.life.connected && x.isLogin && x.room < 0 && x.request == S.NO_REQUEST
    case CallExit(_) => s.life.connected && x.isLogin && x.room >= 0 && x.request == S.NO_REQUEST
  }

  /** The mark a request leaves. */
  function Marked(x: S.Account, a: Action): S.Account
    requires IsRequest(a)
  {
    match a
    case CallSend(_) => x
    case CallLogin(_) => x.(pending := true, phase := S.LOGIN_SEND)
    case CallEnter(_) => x.(request := S.ENTER)
    case CallExit(_) => x.(request := S.EXIT)
  }

  /** Back to the caller, through the undo of a request if there is one. */
  function Refused(req: Request, who: Origin): Point {
    if req != Plain then Undo(req, who)
    else match who case App => Idle case Handler(len, size) => Handling(len, size)
  }

  /**
   * A request goes on to `send` if and only if it may be made; it then leaves exactly its mark, and
   * a packet that could not be built is undone.  Otherwise nothing changes.
   */
  lemma RequestsGranted(w: World, w': World, i: nat, a: Action)
    requires Reachable(w) && StepBy(w, w', i, a) && IsRequest(a)
    ensures var s, req, who := w.core.s, RequestOf(a), OriginOf(w.threads[i]);
      if MayAsk(s, a) then
        && w'.core == w.core.(s := s.(account := Marked(s.account, a)))
        && w'.threads == w.threads[i := if a.buf != [] then Sending(a.buf, req, who) else Refused(req, who)]
      else w' == w
  {
    assert w.threads[i := w.threads[i]] == w.threads;
  }

  /**
   * The undo of a request whose packet was not accepted: the pending login ends, a pending enter or
   * exit of its kind is settled without touching the room, and the thread returns to its caller.
   */
  lemma UndoSettles(w: World, w': World, i: nat)
    requires Reachable(w) && StepBy(w, w', i, Continue(true)) && w.threads[i].Undo?
    ensures var x, y, req := w.core.s.account, w'.core.s.account, w.threads[i].req;
      && w'.core == w.core.(s := w.core.s.(account := y)) && IsCaller(w'.threads[i])
      && (req == LoginRequest ==>
            y == if w.core.s.life.connected then x.(idx := 0, isLogin := false, phase := S.CONNECTED, pending := false) else x)
      && (req == EnterRequest ==> y == if x.request == S.ENTER then x.(request := S.NO_REQUEST) else x)
      && (req == ExitRequest ==> y == if x.request == S.EXIT then x.(request := S.NO_REQUEST) else x)
  {
    ReachableAccount(w);
    assert (w'.core, w'.threads[i]) == ContinueOther(w.core, w.threads[i]);
  }

  // ---------------------------------------------------------------------------------------
  // Replies

  /**
   * A login reply ends the pending login.  While connected: on success the session is logged in to
   * the account of the reply, on failure it is back to CONNECTED and may ask again; nothing else
   * changes.  Without a connection nothing changes at all.
   */
  lemma LoginReplies(w: World, w': World, i: nat, success: bool, idx: nat)
    requires Reachable(w) && StepBy(w, w', i, ReplyLogin(success, idx))
    ensures w'.threads == w.threads
    ensures !w.core.s.life.connected ==> w'.core == w.core
    ensures w.core.s.life.connected ==>
      var x := w.core.s.account;
      w'.core.s == w.core.s.(account :=
        if success then x.(idx := idx, isLogin := true, phase := S.LOGIN, pending := false)
        else x.(idx := 0, isLogin := false, phase := S.CONNECTED, pending := false))
    ensures w.core.s.life.connected && !success ==> forall buf :: MayAsk(w'.core.s, CallLogin(buf))
    ensures w'.core == w.core.(s := w'.core.s)
  {
    ReachableAccount(w);
    assert w.threads[i := w.threads[i]] == w.threads;
  }

  /**
   * The server-full handler: two unlocked stores, of the account and then of the login flag, each
   * alone, and then the thread disconnects and goes back to where it was.
   */
  lemma FullNoticeSteps(w: World, w': World, i: nat)
    requires Reachable(w)
    ensures StepBy(w, w', i, ReplyFull) ==>
      && IsCaller(w.threads[i]) && w'.threads[i] == Clearing(OriginOf(w.threads[i]))
      && w'.core == w.core.(s := w.core.s.(account := w.core.s.account.(idx := 0)))
    ensures StepBy(w, w', i, Continue(true)) && w.threads[i].Clearing? ==>
      && w'.threads[i] == Closing(FullNotice, Return(w.threads[i].who))
      && w'.core == w.core.(s := w.core.s.(account := w.core.s.account.(isLogin := false)))
  {
  }

  // ---------------------------------------------------------------------------------------
  // Sending

  /**
   * `send` accepts every non-empty buffer of a connected session, at the end of the queue, and has
   * to register exactly when nobody else is sending; without a connection it refuses.
   */
  lemma SendAccepts(w: World, w': World, i: nat)
    requires Reachable(w) && StepBy(w, w', i, Continue(true)) && w.threads[i].Sending?
    ensures var s, p := w.core.s, w.threads[i];
      if s.life.connected then
        && w'.core == w.core.(accepted := w.core.accepted + [p.buf],
                              s := s.(tx := s.tx.(queue := s.tx.queue + [p.buf], registered := true)))
        && w'.threads[i] == if s.tx.registered then Return(p.who) else Registering(FromSend(p.req, p.who))
      else w'.core == w.core && w'.threads[i] == Refused(p.req, p.who)
  {
    ReachableBasics(w);
    assert (w'.core, w'.threads[i]) == DoPush(w.core, w.threads[i]);
  }

  /**
   * `register_send`: while connected it posts exactly the leftovers, or else the whole queue; if
   * WSASend fails nothing stays held and the thread is about to disconnect.  Without a connection
   * everything held is released.  A caller of `send` then gets its answer, through the undo of a
   * request that failed.
   */
  lemma RegisterPosts(w: World, w': World, i: nat, ok: bool)
    requires Reachable(w) && StepBy(w, w', i, Continue(ok)) && w.threads[i].Registering?
    ensures var s, t, after := w.core.s, w'.core.s, w.threads[i].after;
      var bytes := if s.tx.unsent != [] then s.tx.unsent else Flat(s.tx.queue);
      var failed := if after.FromCompletion? then Tail else Refused(after.req, after.who);
      if !s.life.connected then
        t.tx.unsent == [] && !t.tx.registered && w'.core.sends == w.core.sends && w'.threads[i] == failed
      else if ok then
        && bytes != [] && w'.core.sends == [bytes] && t.tx.unsent == bytes
        && w'.threads[i] == if after.FromCompletion? then Tail else Return(after.who)
      else
        t.tx.unsent == [] && w'.core.sends == [] && w'.threads[i] == Closing(SendError, failed)
  {
    ReachableRegistering(w, i);
    FlatEmpty(w.core.s.tx.queue);
    assert (w'.core, w'.threads[i]) == DoRegister(w.core, w.threads[i], ok);
  }

  lemma ReachableRegistering(w: World, i: nat)
    requires Reachable(w) && i < |w.threads| && w.threads[i].Registering?
    ensures w.core.sends == []
    ensures w.core.s.life.connected ==> w.core.s.tx.unsent != [] || w.core.s.tx.queue != []
  {
    ReachableInv(w);
    assert ThreadInv(w.core, w.threads[i]);
    CountMember(w.threads, i, SendOwner);
  }

  /**
   * `process_send`: a report of no bytes, or of more than was given, disconnects; a short one keeps
   * exactly the rest and sends on; a full one sends on while the queue is not empty and otherwise
   * clears the flag.  Without a connection everything held is released.
   */
  lemma ReportsProcessed(w: World, w': World, i: nat)
    requires Reachable(w) && StepBy(w, w', i, Continue(true)) && w.threads[i].SendDone?
    ensures var s, tx, n := w.core.s, w'.core.s.tx, w.threads[i].n;
      && w'.core == w.core.(s := s.(tx := tx)) && tx.queue == s.tx.queue
      && if !s.life.connected then tx.unsent == [] && !tx.registered && w'.threads[i] == Tail
         else if n == 0 || n > |s.tx.unsent| then tx.unsent == [] && w'.threads[i] == Closing(SendError, Tail)
         else
           && tx.unsent == s.tx.unsent[n..]
           && tx.registered == (n < |s.tx.unsent| || s.tx.queue != [])
           && w'.threads[i] == if tx.registered then Registering(FromCompletion) else Tail
  {
    ReachableReport(w, i);
    assert (w'.core, w'.threads[i]) == DoProcess(w.core, w.threads[i]);
  }

  lemma ReachableReport(w: World, i: nat)
    requires Reachable(w) && i < |w.threads| && w.threads[i].SendDone?
    ensures w.core.s.life.connected ==> w.core.s.tx.registered
  {
    ReachableInv(w);
    CountMember(w.threads, i, SendOwner);
  }

  /** Without an owner or an operation no buffer is held; a closed session has neither queue nor flag. */
  lemma BuffersReleased(w: World)
    requires Reachable(w)
    ensures SendOwners(w) == 0 && w.core.sends == [] ==> w.core.s.tx.unsent == []
    ensures w.core.s.life.closed ==> w.core.s.tx.queue == [] && !w.core.s.tx.registered
  {
    ReachableInv(w);
  }

  // ---------------------------------------------------------------------------------------
  // Receiving

  /**
   * The report of a receive: a completion without bytes disconnects, any other makes the bytes the
   * kernel stored unread, behind those that were; without a connection nothing is looked at.
   */
  lemma ReceiveReport(w: World, w': World, i: nat)
    requires Reachable(w) && StepBy(w, w', i, Continue(true)) && w.threads[i].RecvDone?
    ensures var c, n := w.core, w.threads[i].n;
      if !c.s.life.connected then w'.core == c && w'.threads[i] == Tail
      else if n == 0 then w'.core == c && w'.threads[i] == Closing(Other, Tail)
      else
        && c.s.rx.Valid() && c.s.rx.writePos + n <= |c.s.rx.data|
        && w'.core == c.(s := c.s.(rx := c.s.rx.(writePos := c.s.rx.writePos + n))) && w'.threads[i] == Framing(0)
  {
    OverflowExitsDead(w, i);
    assert (w'.core, w'.threads[i]) == DoWrite(w.core, w.threads[i].n);
  }

  /**
   * After a handler: one that refuses leaves its thread about to disconnect, with nothing consumed;
   * otherwise the loop goes on behind the packet, or ends there if the session was closed meanwhile.
   */
  lemma HandlerReturns(w: World, w': World, i: nat, ok: bool)
    requires Reachable(w) && StepBy(w, w', i, HandlerReturn(ok))
    ensures w'.core == w.core && w.threads[i].Handling?
    ensures var after := w.threads[i].len + w.threads[i].size;
      w'.threads == w.threads[i :=
        if !ok then Closing(Other, Tail) else if w.core.s.life.connected then Framing(after) else Drained(after)]
  {
  }

  /** The receive path was started and is given up: nobody uses it and nothing is posted. */
  ghost predicate GaveUp(w: World) {
    w.core.s.started && RecvOwners(w) == 0 && w.core.recvs == []
  }

  /** A handler that refuses ends receiving. */
  lemma RefusalEndsReceiving(w: World, w': World, i: nat)
    requires Reachable(w) && StepBy(w, w', i, HandlerReturn(false))
    ensures GaveUp(w')
  {
    HandlerReturns(w, w', i, false);
    OwnerLeaves(w, i);
  }

  lemma OwnerLeaves(w: World, i: nat)
    requires Reachable(w) && i < |w.threads| && w.threads[i].Handling?
    ensures GaveUp(World(w.core, w.threads[i := Closing(Other, Tail)]))
  {
    ReachableOwner(w, i);
    LastOwner(w.threads, i);
  }

  lemma LastOwner(threads: seq<Point>, i: nat)
    requires i < |threads| && RecvOwner(threads[i]) && Count(threads, RecvOwner) == 1
    ensures Count(threads[i := Closing(Other, Tail)], RecvOwner) == 0
  {
    CountUpdate(threads, i, Closing(Other, Tail), RecvOwner);
  }

  lemma ReachableOwner(w: World, i: nat)
    requires Reachable(w) && i < |w.threads| && RecvOwner(w.threads[i])
    ensures RecvOwners(w) == 1 && w.core.recvs == [] && w.core.s.started
  {
    ReachableInv(w);
    CountMember(w.threads, i, RecvOwner);
  }

  lemma GaveUpStep(w: World, w': World, i: nat, a: Action)
    requires Reachable(w) && GaveUp(w) && StepBy(w, w', i, a)
    ensures GaveUp(w') && w'.core.handed == w.core.handed && w'.core.inbound == w.core.inbound
  {
    ReachableBasics(w);
    NoOwner(w.threads, i);
    GaveUpAct(w.core, w.threads[i], a, w'.core, w'.threads[i]);
    CountUpdate(w.threads, i, w'.threads[i], RecvOwner);
  }

  lemma NoOwner(threads: seq<Point>, i: nat)
    requires i < |threads| && Count(threads, RecvOwner) == 0
    ensures !RecvOwner(threads[i])
  {
    if RecvOwner(threads[i]) { CountMember(threads, i, RecvOwner); }
  }

  lemma GaveUpAct(c: Core, p: Point, a: Action, d: Core, q: Point)
    requires c.s.rx.Valid() && LifeInv(c.s.life) && Act(c, p, a) == Some((d, q))
    requires c.s.started && c.recvs == [] && !RecvOwner(p)
    ensures d.s.started && d.recvs == [] && !RecvOwner(q) && d.handed == c.handed && d.inbound == c.inbound
  {
    if !TouchesRecv(p, a) {
      RecvSafety.StepAside(c, p, a, d, q);
    } else if a.Continue? {
      assert (d, q) == DoStart(c);
    }
  }

  /** Given up, receiving is never taken up again: no byte arrives and no packet is handed over any more. */
  lemma {:induction false} NoMoreReceiving(run: Run, early: Run)
    requires IsRun(run) && Continues(run, early) && GaveUp(early.world)
    ensures GaveUp(run.world) && run.world.core.handed == early.world.core.handed
    ensures run.world.core.inbound == early.world.core.inbound
  {
    if run != early {
      NoMoreReceiving(run.before, early);
      var i, a :| StepBy(run.before.world, run.world, i, a);
      assert Reachable(run.before.world);
      GaveUpStep(run.before.world, run.world, i, a);
    }
  }

  /** `start`: without a connection it disconnects; of all callers exactly the first posts the receive. */
  lemma StartCalls(w: World, w': World, i: nat)
    requires Reachable(w)
    ensures StepBy(w, w', i, CallStart) ==>
      w'.core == w.core && w'.threads[i] == if w.core.s.life.connected then Starting else Closing(Other, Idle)
    ensures StepBy(w, w', i, Continue(true)) && w.threads[i].Starting? ==>
      && w'.core == w.core.(s := w.core.s.(started := true))
      && w'.threads[i] == if w.core.s.started then Idle else Arming(false)
  {
  }

  /**
   * `register_recv`: while connected it posts one receive over all free bytes, or disconnects if that
   * fails; without a connection it posts nothing, and `start` then disconnects.
   */
  lemma ReceivePosts(w: World, w': World, i: nat, ok: bool)
    requires Reachable(w) && StepBy(w, w', i, Continue(ok)) && w.threads[i].Arming?
    ensures var c, callback := w.core, w.threads[i].callback;
      var failed := if callback then Tail else Closing(Other, Idle);
      && c.s.rx.Valid()
      && if !c.s.life.connected then w'.core == c && w'.threads[i] == failed
         else if ok then
           && w'.core == c.(s := c.s.(pendingIo := c.s.pendingIo + 1),
                            recvs := [PostedRecv(c.s.rx.writePos, c.s.rx.FreeSize())])
           && w'.threads[i] == if callback then Tail else Idle
         else w'.core == c && w'.threads[i] == Closing(Other, failed)
  {
    ReachableOwner(w, i);
    assert (w'.core, w'.threads[i]) == DoArm(w.core, w.threads[i].callback, ok);
  }

  // ---------------------------------------------------------------------------------------
  // Life

  /** `connect` succeeds exactly once: never before a socket connects, never again afterwards. */
  lemma ConnectCalls(w: World, w': World, i: nat, ok: bool)
    requires Reachable(w) && StepBy(w, w', i, CallConnect(ok))
    ensures var life := w.core.s.life;
      if ok && !life.connected && !life.closed then
        w'.core.s == w.core.s.(life := S.Life(true, false, 1, 0), account := S.FRESH_ACCOUNT.(phase := S.CONNECTED))
      else w' == w
  {
    ReachableAccount(w);
    ReachableBasics(w);
    assert w.threads[i := w.threads[i]] == w.threads;
  }

  /**
   * `disconnect`: the first call on a connected session closes it, clears login and room state, drops
   * the queue and keeps the bytes of an operation in flight; any other call changes nothing.
   */
  lemma DisconnectCalls(w: World, w': World, i: nat, a: Action)
    requires Reachable(w) && StepBy(w, w', i, a)
    requires a.CallDisconnect? || (a.Continue? && w.threads[i].Closing?)
    ensures var s := w.core.s;
      if s.life.connected then
        w'.core == w.core.(s := s.(life := S.Life(false, true, 1, 1), account := S.CLOSED_ACCOUNT,
                                   tx := S.Tx([], false, s.tx.unsent)))
      else w'.core == w.core
    ensures w'.threads[i] == if a.CallDisconnect? then w.threads[i] else w.threads[i].next
  {
    ReachableBasics(w);
  }
}
