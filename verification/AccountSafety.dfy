/** What every step keeps of the session's life, its login and room state, and the I/O counter. */
module AccountSafety {
  import opened Bytes
  import opened Protocol
  import S = Sessions

  /** One connection, one disconnection, and counters that say which happened. */
  ghost predicate LifeInv(life: S.Life) {
    && (life.connected ==> !life.closed)
    && life.connects == One(life.connected || life.closed)
    && life.disconnects == One(life.closed)
  }

  /** Between the unlocked store of the server-full handler and its disconnect. */
  predicate InWindow(p: Point) { p.Closing? && p.why == FullNotice }

  /** Exactly one of the three connected phases, matching the pending and login flags. */
  ghost predicate Coherent(a: S.Account) {
    && (a.phase == S.CONNECTED <==> !a.pending && !a.isLogin)
    && (a.phase == S.LOGIN_SEND <==> a.pending)
    && (a.phase == S.LOGIN <==> a.isLogin)
    && !(a.pending && a.isLogin)
    && (!a.isLogin ==> a.idx == 0)
  }

  ghost predicate AccountInv(s: S.Session, window: nat) {
    && (s.account.request == S.ENTER ==> s.account.room < 0)
    && (s.account.request == S.EXIT ==> s.account.room >= 0)
    && (s.life.closed ==> s.account == S.CLOSED_ACCOUNT)
    && (!s.life.connected && !s.life.closed ==> s.account == S.FRESH_ACCOUNT)
    && (s.life.connected && window == 0 ==> Coherent(s.account))
  }

  /** The threads between taking a completion and `finish_io`. */
  predicate InCallback(p: Point) {
    match p
    case Sending(_, _, who) => who.Handler?
    case Registering(after) => after.FromCompletion? || after.who.Handler?
    case Undo(_, who) => who.Handler?
    case Clearing(who) => who.Handler?
    case Arming(callback) => callback
    case Closing(_, next) => InCallback(next)
    case Idle => false
    case Starting => false
    case _ => true
  }

  /** What a step may do to life, account and counter. */
  ghost predicate Good(c: Core, p: Point, d: Core, q: Point, window: nat) {
    && window + One(InWindow(q)) >= One(InWindow(p))
    && LifeInv(d.s.life)
    && (c.s.life.closed ==> d.s.life.closed && d.s.pendingIo <= c.s.pendingIo)
    && AccountInv(d.s, window - One(InWindow(p)) + One(InWindow(q)))
    && d.s.pendingIo - |d.sends| - |d.recvs| - One(InCallback(q))
    == c.s.pendingIo - |c.sends| - |c.recvs| - One(InCallback(p))
  }

  lemma PushGood(c: Core, p: Point, d: Core, q: Point, window: nat)
    requires LifeInv(c.s.life) && AccountInv(c.s, window)
    requires p.Sending? && (d, q) == DoPush(c, p)
    ensures Good(c, p, d, q, window)
  {
  }

  lemma RegisterGood(c: Core, p: Point, d: Core, q: Point, ok: bool, window: nat)
    requires LifeInv(c.s.life) && AccountInv(c.s, window)
    requires p.Registering? && (d, q) == DoRegister(c, p, ok)
    ensures Good(c, p, d, q, window)
  {
    assert d.s.life == c.s.life && d.s.account == c.s.account && d.recvs == c.recvs;
    assert !InWindow(p) && !InWindow(q);
    assert InCallback(q) == InCallback(p);
  }

  lemma ProcessGood(c: Core, p: Point, d: Core, q: Point, window: nat)
    requires LifeInv(c.s.life) && AccountInv(c.s, window)
    requires p.SendDone? && (d, q) == DoProcess(c, p)
    ensures Good(c, p, d, q, window)
  {
  }

  /** Life, account and sends untouched; the counter follows the receives; in a callback as before. */
  ghost predicate Alike(c: Core, p: Point, d: Core, q: Point) {
    && d.s.life == c.s.life && d.s.account == c.s.account && d.sends == c.sends
    && d.s.pendingIo - |d.recvs| == c.s.pendingIo - |c.recvs|
    && (c.s.life.closed && !c.s.life.connected ==> d.s.pendingIo <= c.s.pendingIo)
    && !InWindow(p) && !InWindow(q) && InCallback(q) == InCallback(p)
  }

  lemma ArmAlike(c: Core, p: Point, d: Core, q: Point, ok: bool)
    requires c.s.rx.Valid() && p.Arming? && (d, q) == DoArm(c, p.callback, ok)
    ensures Alike(c, p, d, q)
  {
  }

  lemma FrameAlike(c: Core, p: Point, d: Core, q: Point)
    requires c.s.rx.Valid() && p.Framing? && (d, q) == DoFrame(c, p.len)
    ensures Alike(c, p, d, q)
  {
  }

  lemma BufferAlike(c: Core, p: Point, d: Core, q: Point)
    requires c.s.rx.Valid()
    requires (p.RecvDone? && (d, q) == DoWrite(c, p.n)) || (p.Drained? && (d, q) == DoDrain(c, p.len))
    ensures Alike(c, p, d, q)
  {
  }

  lemma RecvGood(c: Core, p: Point, d: Core, q: Point, ok: bool, window: nat)
    requires c.s.rx.Valid() && LifeInv(c.s.life) && AccountInv(c.s, window)
    requires p.RecvDone? || p.Framing? || p.Drained? || p.Arming? || p.Starting?
    requires (d, q) == ContinueRecv(c, p, ok)
    ensures Good(c, p, d, q, window)
  {
    match p {
      case Arming(_) => ArmAlike(c, p, d, q, ok);
      case Framing(_) => FrameAlike(c, p, d, q);
      case Starting => assert (d, q) == DoStart(c);
      case _ => BufferAlike(c, p, d, q);
    }
  }

  lemma OtherGood(c: Core, p: Point, d: Core, q: Point, window: nat)
    requires LifeInv(c.s.life) && AccountInv(c.s, window)
    requires p.Undo? || p.Clearing? || p.Closing? || p.Tail?
    requires InWindow(p) ==> window >= 1
    requires (d, q) == ContinueOther(c, p)
    ensures Good(c, p, d, q, window)
  {
  }

  lemma SimpleGood(s: S.Session, a: Action, window: nat)
    requires LifeInv(s.life) && AccountInv(s, window) && IsSimple(a)
    ensures var t := Simple(s, a);
      && LifeInv(t.life) && AccountInv(t, window) && t.pendingIo == s.pendingIo
      && (s.life.closed ==> t.life.closed)
  {
  }

  lemma ReserveGood(s: S.Session, a: Action, window: nat)
    requires LifeInv(s.life) && AccountInv(s, window) && IsRequest(a)
    ensures var t := Reserve(s, a).0;
      t.life == s.life && AccountInv(t, window) && t.pendingIo == s.pendingIo
  {
  }

  lemma CallGood(c: Core, p: Point, a: Action, d: Core, q: Point, window: nat)
    requires LifeInv(c.s.life) && AccountInv(c.s, window)
    requires IsCaller(p) && Call(c, p, a) == Some((d, q))
    ensures Good(c, p, d, q, window)
  {
    if IsSimple(a) {
      SimpleGood(c.s, a, window);
    } else if IsRequest(a) {
      ReserveGood(c.s, a, window);
    }
  }

  lemma WakeGood(c: Core, a: Action, d: Core, q: Point, window: nat)
    requires c.s.rx.Valid() && LifeInv(c.s.life) && AccountInv(c.s, window)
    requires Wake(c, a) == Some((d, q))
    ensures Good(c, Idle, d, q, window)
  {
  }

  lemma GoodStep(c: Core, p: Point, a: Action, d: Core, q: Point, window: nat)
    requires c.s.rx.Valid() && Act(c, p, a) == Some((d, q))
    requires LifeInv(c.s.life) && AccountInv(c.s, window)
    requires InWindow(p) ==> window >= 1
    ensures Good(c, p, d, q, window)
  {
    if a.Continue? {
      if p.Sending? {
        PushGood(c, p, d, q, window);
      } else if p.Registering? {
        RegisterGood(c, p, d, q, a.ok, window);
      } else if p.SendDone? {
        ProcessGood(c, p, d, q, window);
      } else if p.RecvDone? || p.Framing? || p.Drained? || p.Arming? || p.Starting? {
        RecvGood(c, p, d, q, a.ok, window);
      } else {
        OtherGood(c, p, d, q, window);
      }
    } else if a.HandlerReturn? {
    } else if a.CallStart? || a.TakeSend? || a.TakeRecv? {
      WakeGood(c, a, d, q, window);
    } else {
      CallGood(c, p, a, d, q, window);
    }
  }
}
