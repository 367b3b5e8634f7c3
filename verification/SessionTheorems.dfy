/** The promises of the session, for every reachable state and every run. */
module SessionTheorems {
  import opened Bytes
  import opened Counting
  import opened Frames = Framing
  import opened RecvBuffers
  import opened Protocol
  import S = Sessions
  import opened SendSafety
  import opened RecvSafety
  import opened AccountSafety
  import opened Safety

  // ---------------------------------------------------------------------------------------
  // Sending

  /**
   * One owner of the send path in every interleaving, although `disconnect` resets the flag while
   * a send may be in flight; and while an operation is outstanding, no thread is at a point that
   * may release its buffers, which the send event still holds.
   */
  lemma SingleSendOwner(w: World)
    requires Reachable(w)
    ensures SendOwners(w) + |w.core.sends| <= 1
    ensures w.core.sends != [] ==>
      && w.core.s.tx.unsent == w.core.sends[0]
      && forall i :: 0 <= i < |w.threads| ==> !SendOwner(w.threads[i])
  {
    ReachableInv(w);
    if w.core.sends != [] {
      forall i | 0 <= i < |w.threads| ensures !SendOwner(w.threads[i]) {
        if SendOwner(w.threads[i]) { CountMember(w.threads, i, SendOwner); }
      }
    }
  }

  /** A failed send is about to disconnect the session. */
  ghost predicate SendBroken(w: World) {
    exists i :: 0 <= i < |w.threads| && w.threads[i].Closing? && w.threads[i].why == SendError
  }

  /** The kernel has reported bytes that `process_send` has not looked at yet. */
  ghost predicate SendReported(w: World) {
    exists i :: 0 <= i < |w.threads| && w.threads[i].SendDone?
  }

  /**
   * Conservation and order: until a send fails, sent, unsent and queued bytes are all the accepted
   * bytes in push order; a report that is not processed yet covers the first `n` unsent bytes.
   */
  lemma ByteConservation(w: World)
    requires Reachable(w) && w.core.s.life.connected && !SendBroken(w)
    ensures !SendReported(w) ==>
      w.core.wire + w.core.s.tx.unsent + Flat(w.core.s.tx.queue) == Flat(w.core.accepted)
    ensures forall i :: 0 <= i < |w.threads| && w.threads[i].SendDone? ==>
      var unsent := w.core.s.tx.unsent;
      w.core.wire + unsent[Min(w.threads[i].n, |unsent|)..] + Flat(w.core.s.tx.queue) == Flat(w.core.accepted)
  {
    ReachableInv(w);
    forall i | 0 <= i < |w.threads| ensures SendPoint(w.core, w.threads[i]) { assert ThreadInv(w.core, w.threads[i]); }
    if SendOwners(w) == 1 {
      var i := CountWitness(w.threads, SendOwner);
    } else if w.core.sends == [] {
      assert Flat([]) == [];
    }
  }

  /** Whatever the completion sizes, failures and disconnects: the wire never shows anything else. */
  lemma WireIsPrefix(w: World)
    requires Reachable(w)
    ensures w.core.wire <= Flat(w.core.accepted)
    ensures AllFrames(w.core.accepted) ==>
      !Cut(w.core.wire).bad && Cut(w.core.wire).frames <= w.core.accepted
  {
    ReachableInv(w);
    if AllFrames(w.core.accepted) { CutPrefix(w.core.accepted, w.core.wire); }
  }

  /**
   * Nothing is stranded: while connected, unsent data means that the flag is set and that an
   * operation is outstanding or a thread is on its way to send on or to disconnect; with the flag
   * clear, every accepted byte is on the wire.
   */
  lemma NothingStranded(w: World)
    requires Reachable(w) && w.core.s.life.connected
    ensures w.core.s.tx.registered <==> w.core.sends != [] || exists i :: 0 <= i < |w.threads| && SendOwner(w.threads[i])
    ensures !w.core.s.tx.registered ==> w.core.s.tx.queue == [] && w.core.wire == Flat(w.core.accepted)
  {
    ReachableInv(w);
    if SendOwners(w) == 1 {
      var i := CountWitness(w.threads, SendOwner);
    } else {
      forall i | 0 <= i < |w.threads| ensures !SendOwner(w.threads[i]) {
        if SendOwner(w.threads[i]) { CountMember(w.threads, i, SendOwner); }
      }
    }
  }

  /** The "no buffers to send" exit of `register_send` is never taken. */
  lemma AlwaysSomethingToSend(w: World, i: nat, ok: bool)
    requires Reachable(w) && i < |w.threads| && w.threads[i].Registering?
    ensures S.RegisterSend(w.core.s, ok).1 != S.NothingToSend
  {
    ReachableInv(w);
    assert ThreadInv(w.core, w.threads[i]);
    FlatEmpty(w.core.s.tx.queue);
  }

  // ---------------------------------------------------------------------------------------
  // Pending I/O

  /** `_pending_io` counts exactly the outstanding operations and the callbacks still running. */
  lemma PendingIoExact(w: World)
    requires Reachable(w)
    ensures w.core.s.pendingIo == |w.core.sends| + |w.core.recvs| + Callbacks(w)
    // the assertion in finish_io never fails
    ensures forall i :: 0 <= i < |w.threads| && w.threads[i].Tail? ==> w.core.s.pendingIo > 0
  {
    ReachableInv(w);
    forall i | 0 <= i < |w.threads| && w.threads[i].Tail? ensures w.core.s.pendingIo > 0 {
      CountMember(w.threads, i, InCallback);
    }
  }

  lemma ClosesNext(run: Run)
    requires IsRun(run) && run.Then?
    ensures Closes(run.before.world, run.world)
  {
    RunInv(run.before);
    StepInv(run.before.world, run.world);
  }

  /** After disconnection the count never rises, and the session stays closed. */
  lemma {:induction false} PendingIoFalls(run: Run, early: Run)
    requires IsRun(run) && Continues(run, early) && early.world.core.s.life.closed
    ensures Closes(early.world, run.world)
  {
    if run != early {
      PendingIoFalls(run.before, early);
      ClosesNext(run);
    }
  }

  /**
   * `wait_for_io` is sound: once a closed session has counted down to zero, it stays at zero, and
   * neither the kernel nor any callback touches the session again.
   */
  lemma ZeroIsFinal(run: Run, early: Run)
    requires IsRun(run) && Continues(run, early)
    requires early.world.core.s.life.closed && early.world.core.s.pendingIo == 0
    ensures var end := run.world;
      && end.core.s.pendingIo == 0 && end.core.sends == [] && end.core.recvs == []
      && forall i :: 0 <= i < |end.threads| ==> !InCallback(end.threads[i])
  {
    PendingIoFalls(run, early);
    RunInv(run);
    var end := run.world;
    forall i | 0 <= i < |end.threads| ensures !InCallback(end.threads[i]) {
      if InCallback(end.threads[i]) { CountMember(end.threads, i, InCallback); }
    }
  }

  // ---------------------------------------------------------------------------------------
  // Receiving

  /**
   * The receive buffer has a single user however often and from wherever `start` is called, the
   * posted receive never overlaps unread bytes, and it always offers at least 0x10000 bytes.
   */
  lemma SingleReceiver(w: World)
    requires Reachable(w)
    ensures RecvOwners(w) + |w.core.recvs| <= 1
    ensures w.core.recvs != [] ==>
      && w.core.s.rx.Valid() && w.core.recvs[0].at == w.core.s.rx.writePos
      && w.core.recvs[0].at + w.core.recvs[0].len == |w.core.s.rx.data|
      && w.core.recvs[0].len >= BUFFER_SIZE
  {
    ReachableInv(w);
  }

  /** A started, connected session is never deaf: it is receiving, processing, or about to disconnect. */
  lemma NeverDeaf(w: World)
    requires Reachable(w) && w.core.s.started && w.core.s.life.connected
    ensures w.core.recvs != []
         || exists i :: 0 <= i < |w.threads| && (RecvOwner(w.threads[i]) || w.threads[i].Closing?)
  {
    ReachableInv(w);
    if w.core.recvs == [] {
      if RecvOwners(w) >= 1 {
        var i := CountWitness(w.threads, RecvOwner);
      } else {
        var i := CountWitness(w.threads, IsClosing);
      }
    }
  }

  /**
   * The overflow exits of `process_recv` are dead: a report never exceeds the free bytes, and the
   * bytes dealt with never exceed the unread ones.
   */
  lemma OverflowExitsDead(w: World, i: nat)
    requires Reachable(w) && i < |w.threads|
    ensures w.core.s.rx.Valid()
    ensures w.threads[i].RecvDone? ==> w.threads[i].n <= w.core.s.rx.FreeSize()
    ensures w.threads[i].Framing? || w.threads[i].Drained? ==> w.threads[i].len <= w.core.s.rx.DataSize()
  {
    ReachableHold(w, i);
    HoldBounds(w.core, w.threads[i]);
  }

  lemma ReachableHold(w: World, i: nat)
    requires Reachable(w) && i < |w.threads|
    ensures w.core.s.rx.Valid() && HoldInv(w.core, HoldOf(w.threads[i]))
  {
    ReachableInv(w);
    assert ThreadInv(w.core, w.threads[i]);
  }

  lemma HoldBounds(c: Core, p: Point)
    requires c.s.rx.Valid() && HoldInv(c, HoldOf(p))
    ensures p.RecvDone? ==> p.n <= c.s.rx.FreeSize()
    ensures p.Framing? || p.Drained? ==> p.len <= c.s.rx.DataSize()
  {
  }

  /**
   * In every interleaving, the packets handed to the handlers are the first packets of what the
   * kernel delivered; whenever the next receive is outstanding they are all of them, and the
   * unread bytes are exactly the incomplete rest.
   */
  lemma HandedInOrder(w: World)
    requires Reachable(w)
    ensures w.core.handed <= Cut(w.core.inbound).frames
    ensures w.core.recvs != [] ==>
      w.core.s.rx.Valid() && Cut(w.core.inbound) == Cutting(w.core.handed, w.core.s.rx.Unread(), false)
  {
    ReachableInv(w);
    var rest := w.core.inbound[|Flat(w.core.handed)|..];
    assert w.core.inbound == Flat(w.core.handed) + rest;
    CutPackets(w.core.handed, rest);
    if w.core.recvs != [] { CutUnique(w.core.handed, w.core.s.rx.Unread()); }
  }

  // ---------------------------------------------------------------------------------------
  // Life, login and rooms

  /**
   * One life: at most one connection and one disconnection are ever counted, the counters say
   * which of them happened, and the second early return of `disconnect` is never taken.
   */
  lemma OneLife(w: World)
    requires Reachable(w)
    ensures !(w.core.s.life.connected && w.core.s.life.closed)
    ensures w.core.s.life.connects <= 1 && w.core.s.life.disconnects <= 1
    ensures w.core.s.life.connects - w.core.s.life.disconnects == One(w.core.s.life.connected)
  {
    ReachableInv(w);
  }

  ghost function Connects(ws: seq<World>): nat {
    if ws == [] then 0 else ws[0].core.s.life.connects + Connects(ws[1..])
  }

  ghost function Disconnects(ws: seq<World>): nat {
    if ws == [] then 0 else ws[0].core.s.life.disconnects + Disconnects(ws[1..])
  }

  predicate IsUp(w: World) { w.core.s.life.connected }

  /** Over any sessions, `connect_success` minus `disconnect` is the number connected. */
  lemma {:induction false} FleetConservation(ws: seq<World>)
    requires forall i :: 0 <= i < |ws| ==> Reachable(ws[i])
    ensures Connects(ws) - Disconnects(ws) == Count(ws, IsUp)
  {
    if ws != [] {
      OneLife(ws[0]);
      FleetConservation(ws[1..]);
    }
  }

  /**
   * Login and room state are coherent in every reachable state: connected means exactly one of
   * the three phases, matching the flags, as long as no thread stands between the unlocked store
   * of the server-full handler and its disconnect; a pending enter or exit fits the room; and a
   * closed session has all of it cleared.
   */
  lemma LoginCoherence(w: World)
    requires Reachable(w)
    ensures var s := w.core.s;
      && (s.life.connected && (forall i :: 0 <= i < |w.threads| ==> !InWindow(w.threads[i])) ==> Coherent(s.account))
      && (s.account.request == S.ENTER ==> s.account.room < 0)
      && (s.account.request == S.EXIT ==> s.account.room >= 0)
      && (s.life.closed ==> s.account == S.CLOSED_ACCOUNT)
  {
    ReachableInv(w);
    if forall i :: 0 <= i < |w.threads| ==> !InWindow(w.threads[i]) { CountNone(w.threads, InWindow); }
  }

  /**
   * While the session stays connected, one step only makes login state incoherent: the unlocked
   * store of the server-full handler, taken when the session is logged in.
   */
  lemma CoherenceBreaks(w: World, w': World, i: nat, a: Action)
    requires Reachable(w) && StepBy(w, w', i, a) && w'.core.s.life.connected
    requires w.core.s.life.connected ==> Coherent(w.core.s.account)
    ensures Coherent(w'.core.s.account) <==> !(w.threads[i].Clearing? && w.core.s.account.isLogin)
  {
    ReachableAccount(w);
    var p, q := w.threads[i], w'.threads[i];
    if !p.Clearing? && !p.Closing? {
      WindowOpens(w.core, p, a, w'.core, q);
      GoodStep(w.core, p, a, w'.core, q, 0);
    }
  }

  /** Only the server-full handler opens the window. */
  lemma WindowOpens(c: Core, p: Point, a: Action, d: Core, q: Point)
    requires c.s.rx.Valid() && Act(c, p, a) == Some((d, q)) && !p.Clearing? && !p.Closing?
    ensures !InWindow(q)
  {
  }

  lemma ReachableAccount(w: World)
    requires Reachable(w)
    ensures LifeInv(w.core.s.life)
    ensures w.core.s.life.connected && Coherent(w.core.s.account) ==> AccountInv(w.core.s, 0)
    ensures !w.core.s.life.connected ==> AccountInv(w.core.s, 0) && !w.core.s.account.isLogin
  {
    ReachableInv(w);
  }

  /** A closed session stays closed, with cleared login and room state, to the end of the run. */
  lemma ClosedForever(run: Run, early: Run)
    requires IsRun(run) && Continues(run, early) && early.world.core.s.life.closed
    ensures !run.world.core.s.life.connected && run.world.core.s.account == S.CLOSED_ACCOUNT
  {
    PendingIoFalls(run, early);
    RunInv(run);
  }

  /** Most parked sections leave login and room state alone. */
  lemma ContinueKeepsAccount(c: Core, p: Point, ok: bool, d: Core, q: Point)
    requires c.s.rx.Valid() && Act(c, p, Continue(ok)) == Some((d, q))
    requires !(p.Undo? || p.Clearing? || p.Closing? || p.Tail?)
    ensures d.s.account == c.s.account
  {
    if p.Sending? {
      assert (d, q) == DoPush(c, p);
    } else if p.Registering? {
      assert (d, q) == DoRegister(c, p, ok);
    } else if p.SendDone? {
      assert (d, q) == DoProcess(c, p);
    } else {
      assert (d, q) == ContinueRecv(c, p, ok);
    }
  }

  /** Of the parked sections, only a disconnect changes the room, and none logs in. */
  lemma ContinueKeeps(c: Core, p: Point, ok: bool, d: Core, q: Point)
    requires c.s.rx.Valid() && Act(c, p, Continue(ok)) == Some((d, q))
    requires LifeInv(c.s.life) && d.s.life.connected
    ensures d.s.account.room == c.s.account.room
    ensures d.s.account.isLogin ==> c.s.account.isLogin && d.s.account.idx == c.s.account.idx
  {
    if p.Undo? || p.Clearing? || p.Closing? || p.Tail? {
      assert (d, q) == ContinueOther(c, p);
    } else {
      ContinueKeepsAccount(c, p, ok, d, q);
    }
  }

  lemma CallKeeps(c: Core, p: Point, a: Action, d: Core, q: Point)
    requires IsCaller(p) && Call(c, p, a) == Some((d, q)) && !IsSimple(a)
    ensures d.s.account.room == c.s.account.room && d.s.account.isLogin == c.s.account.isLogin
    ensures d.s.account.idx == if a.ReplyFull? then 0 else c.s.account.idx
  {
    if IsRequest(a) {
      var t := Reserve(c.s, a).0.account;
      assert t.room == c.s.account.room && t.isLogin == c.s.account.isLogin && t.idx == c.s.account.idx;
    }
  }

  /** While connected, only a reply changes the room, logs in or changes the account. */
  lemma RepliesOnly(c: Core, p: Point, a: Action, d: Core, q: Point)
    requires c.s.rx.Valid() && LifeInv(c.s.life) && Act(c, p, a) == Some((d, q)) && d.s.life.connected
    ensures IsSimple(a) ==> d.s == Simple(c.s, a)
    ensures !IsSimple(a) ==> d.s.account.room == c.s.account.room
    ensures !IsSimple(a) && d.s.account.isLogin ==>
      c.s.account.isLogin && d.s.account.idx == if a.ReplyFull? then 0 else c.s.account.idx
  {
    if a.Continue? {
      ContinueKeeps(c, p, a.ok, d, q);
    } else if a.CallStart? || a.TakeSend? || a.TakeRecv? {
      assert Wake(c, a) == Some((d, q));
    } else if !a.HandlerReturn? && !IsSimple(a) {
      CallKeeps(c, p, a, d, q);
    }
  }

  lemma ReachableBasics(w: World)
    requires Reachable(w)
    ensures w.core.s.rx.Valid() && LifeInv(w.core.s.life)
  {
    ReachableInv(w);
  }

  /** While the session stays connected, the room changes only as the answer to the pending request. */
  lemma RoomChangesOnRequest(w: World, w': World, i: nat, a: Action)
    requires Reachable(w) && StepBy(w, w', i, a) && w'.core.s.life.connected
    requires w'.core.s.account.room != w.core.s.account.room
    ensures w'.core.s.account.request == S.NO_REQUEST
    ensures || (w.core.s.account.request == S.ENTER && a == ReplyEnter(true, w'.core.s.account.room))
            || (w.core.s.account.request == S.EXIT && a == ReplyExit(true) && w'.core.s.account.room == -1)
  {
    ReachableBasics(w);
    RepliesOnly(w.core, w.threads[i], a, w'.core, w'.threads[i]);
  }

  /** The kind of request a room reply answers. */
  function Answers(a: Action): S.RoomRequest {
    if a.ReplyEnter? then S.ENTER else if a.ReplyExit? then S.EXIT else S.NO_REQUEST
  }

  /**
   * A room reply changes nothing if and only if a request of its kind is not pending.  Otherwise it
   * settles that request, whichever it was sent for: the room becomes the reply's if it is a
   * success and stays if it is not.
   */
  lemma RoomReplies(w: World, w': World, i: nat, a: Action)
    requires Reachable(w) && StepBy(w, w', i, a) && (a.ReplyEnter? || a.ReplyExit?)
    ensures w'.core == w.core <==> w.core.s.account.request != Answers(a)
    ensures w.core.s.account.request == Answers(a) ==>
      var before, after := w.core.s.account, w'.core.s.account;
      && w.core.s.life.connected && after.request == S.NO_REQUEST
      && after.room == if !a.success then before.room else if a.ReplyEnter? then a.room else -1
  {
    ReachableAccount(w);
    assert w'.core == w.core.(s := Simple(w.core.s, a));
  }

  /** In a room, or about to be, means logged in. */
  ghost predicate RoomFits(a: S.Account) { a.room >= 0 || a.request == S.ENTER ==> a.isLogin }

  /** A failed login reply, the undo of a login that was not sent, or the server-full handler. */
  predicate LogsOut(p: Point, a: Action) {
    || (a.ReplyLogin? && !a.success)
    || (a.Continue? && (p.Clearing? || (p.Undo? && p.req == LoginRequest)))
  }

  /**
   * While the session stays connected, a step out of a state in which rooms fit logins breaks that
   * if and only if it logs out with a room or a pending enter, neither of which it clears.
   */
  lemma RoomNeedsLogin(w: World, w': World, i: nat, a: Action)
    requires Reachable(w) && StepBy(w, w', i, a) && w'.core.s.life.connected
    requires w.core.s.life.connected ==> RoomFits(w.core.s.account)
    ensures RoomFits(w'.core.s.account)
       <==> !(LogsOut(w.threads[i], a) && (w.core.s.account.room >= 0 || w.core.s.account.request == S.ENTER))
  {
    ReachableAccount(w);
    RoomFitsStep(w.core, w.threads[i], a, w'.core, w'.threads[i]);
  }

  lemma RoomFitsStep(c: Core, p: Point, a: Action, d: Core, q: Point)
    requires c.s.rx.Valid() && Act(c, p, a) == Some((d, q)) && LifeInv(c.s.life) && d.s.life.connected
    requires RoomFits(c.s.account)
    ensures RoomFits(d.s.account) <==> !(LogsOut(p, a) && (c.s.account.room >= 0 || c.s.account.request == S.ENTER))
  {
    if a.Continue? {
      if p.Undo? || p.Clearing? || p.Closing? || p.Tail? {
        assert (d, q) == ContinueOther(c, p);
      } else {
        ContinueKeepsAccount(c, p, a.ok, d, q);
      }
    } else if a.CallStart? || a.TakeSend? || a.TakeRecv? {
      assert Wake(c, a) == Some((d, q));
    } else if !a.HandlerReturn? {
      CallRooms(c, p, a, d, q);
    }
  }

  lemma CallRooms(c: Core, p: Point, a: Action, d: Core, q: Point)
    requires IsCaller(p) && Call(c, p, a) == Some((d, q)) && d.s.life.connected
    requires RoomFits(c.s.account)
    ensures RoomFits(d.s.account) <==> !(LogsOut(p, a) && (c.s.account.room >= 0 || c.s.account.request == S.ENTER))
  {
    if IsRequest(a) { assert RoomFits(Reserve(c.s, a).0.account); }
  }

  /**
   * A session is logged in as what the server said: it becomes logged in, or its account changes
   * while it is, only by a successful login reply carrying that account, or by the server-full
   * handler, which clears it.
   */
  lemma LoginChangesOnReply(w: World, w': World, i: nat, a: Action)
    requires Reachable(w) && StepBy(w, w', i, a) && w'.core.s.life.connected && w'.core.s.account.isLogin
    requires w.core.s.account.isLogin ==> w'.core.s.account.idx != w.core.s.account.idx
    ensures a == ReplyLogin(true, w'.core.s.account.idx) || (a == ReplyFull && w'.core.s.account.idx == 0)
  {
    ReachableBasics(w);
    RepliesOnly(w.core, w.threads[i], a, w'.core, w'.threads[i]);
  }
}
