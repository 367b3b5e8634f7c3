/** What every step keeps of the send path: one owner, byte order, nothing stranded or released early. */
module SendSafety {
  import opened Bytes
  import opened Protocol
  import S = Sessions

  /** The threads that may touch the send event: about to register, process or give up a send. */
  predicate SendOwner(p: Point) {
    p.Registering? || p.SendDone? || (p.Closing? && p.why == SendError)
  }

  /** After disconnecting, a thread never goes on to the send path. */
  predicate Settled(p: Point) {
    p.Closing? ==> !SendOwner(p.next) && Settled(p.next)
  }

  /** Core invariant, given how many threads own the send path. */
  ghost predicate SendInv(c: Core, owners: nat) {
    var tx, all := c.s.tx, Flat(c.accepted);
    && owners + |c.sends| <= 1
    // everything the kernel reported is a beginning of what was accepted
    && c.wire <= all
    // the bytes of an outstanding operation are still held by the send event
    && (c.sends != [] ==> c.sends[0] == tx.unsent != [] && c.wire + tx.unsent <= all)
    && (c.s.life.connected ==>
          && (tx.registered <==> owners + |c.sends| == 1)
          && (c.sends != [] ==> c.wire + tx.unsent + Flat(tx.queue) == all)
          && (owners + |c.sends| == 0 ==> tx.unsent == [] && tx.queue == [] && c.wire == all))
    && (!c.s.life.connected ==> tx.queue == [] && !tx.registered)
    // no buffer is held without an owner or an operation
    && (owners + |c.sends| == 0 ==> tx.unsent == [])
    && (!c.s.life.connected && !c.s.life.closed ==>
          owners + |c.sends| == 0 && c.accepted == [] && tx == S.Tx([], false, []))
  }

  /** What holds of the core while a thread is parked at `p`. */
  ghost predicate SendPoint(c: Core, p: Point) {
    var tx, all := c.s.tx, Flat(c.accepted);
    && Settled(p)
    && (p.Closing? && p.why == SendError ==> tx.unsent == [])
    && (c.s.life.connected ==>
      && (p.Registering? ==>
            c.wire + tx.unsent + Flat(tx.queue) == all && (tx.unsent != [] || tx.queue != []))
      && (p.SendDone? ==>
            tx.unsent != [] && c.wire + tx.unsent[Min(p.n, |tx.unsent|)..] + Flat(tx.queue) == all))
  }

  /** The part of the core the send path depends on. */
  ghost predicate SameSend(c: Core, d: Core) {
    && d.s.life == c.s.life && d.s.tx == c.s.tx
    && d.sends == c.sends && d.accepted == c.accepted && d.wire == c.wire
  }

  lemma CloseKeeps(c: Core, d: Core, owners: nat, left: nat)
    requires SendInv(c, owners) && left <= owners
    requires c.s.life.connected ==> !c.s.life.closed
    requires d == c.(s := S.Disconnect(c.s))
    requires left == owners || c.s.life.connected || c.s.life.closed
    requires left < owners ==> c.s.tx.unsent == []
    ensures SendInv(d, left)
  {
    if c.s.life.connected && c.sends != [] {
      assert c.wire + c.s.tx.unsent <= Flat(c.accepted);
    }
  }

  lemma PushKeeps(c: Core, d: Core, p: Point, q: Point, owners: nat)
    requires SendInv(c, owners) && p.Sending?
    requires (d, q) == DoPush(c, p)
    ensures SendInv(d, owners + One(SendOwner(q))) && SendPoint(d, q)
  {
    if c.s.life.connected {
      FlatSnoc(c.accepted, p.buf);
      FlatSnoc(c.s.tx.queue, p.buf);
      Assoc(c.wire + c.s.tx.unsent, Flat(c.s.tx.queue), p.buf);
    }
  }

  lemma RegisterKeeps(c: Core, d: Core, p: Point, q: Point, ok: bool, owners: nat)
    requires SendInv(c, owners) && SendPoint(c, p) && p.Registering? && owners == 1
    requires (d, q) == DoRegister(c, p, ok)
    ensures SendInv(d, One(SendOwner(q))) && SendPoint(d, q)
  {
    var tx, all := c.s.tx, Flat(c.accepted);
    if c.s.life.connected {
      FlatEmpty(tx.queue);
      assert Flat([]) == [];
      assert c.wire + d.s.tx.unsent + Flat(d.s.tx.queue) == all || d.s.tx.unsent == [];
      assert c.wire + [] == c.wire;
    }
  }

  lemma ProcessKeeps(c: Core, d: Core, p: Point, q: Point, owners: nat)
    requires SendInv(c, owners) && SendPoint(c, p) && p.SendDone? && owners == 1
    requires (d, q) == DoProcess(c, p)
    ensures SendInv(d, One(SendOwner(q))) && SendPoint(d, q)
  {
    if c.s.life.connected && 0 < p.n <= |c.s.tx.unsent| {
      assert Flat([]) == [];
      assert p.n == |c.s.tx.unsent| ==> c.s.tx.unsent[p.n..] == [] && c.wire + [] == c.wire;
    }
  }

  lemma TakeSendKeeps(c: Core, d: Core, q: Point, k: nat, n: nat, owners: nat)
    requires SendInv(c, owners) && c.s.rx.Valid()
    requires Wake(c, TakeSend(k, n)) == Some((d, q))
    ensures SendInv(d, owners + 1) && SendPoint(d, q) && d.sends == [] && owners == 0
  {
    var u := c.s.tx.unsent;
    var m := Min(n, |u|);
    assert c.sends == [u];
    assert u == u[..m] + u[m..];
    Assoc(c.wire, u[..m], u[m..]);
    assert d.wire == c.wire + u[..m];
    assert d.wire + u[m..] == c.wire + u;
  }

  lemma ConnectKeeps(c: Core, d: Core, ok: bool, owners: nat)
    requires SendInv(c, owners) && d == c.(s := S.Connect(c.s, ok))
    ensures SendInv(d, owners)
  {
    assert c.accepted == [] ==> Flat(c.accepted) == [];
  }

  /** The actions that read or write the send path; all others leave it alone. */
  predicate TouchesSend(p: Point, a: Action) {
    || (a.Continue? && (p.Sending? || p.Registering? || p.SendDone? || p.Closing?))
    || a.TakeSend? || a.CallConnect? || a.CallDisconnect?
  }

  ghost predicate Aside(c: Core, p: Point, d: Core, q: Point) {
    SameSend(c, d) && !SendOwner(p) && !SendOwner(q) && (Settled(p) ==> Settled(q))
  }

  lemma RecvAside(c: Core, p: Point, ok: bool, d: Core, q: Point)
    requires c.s.rx.Valid()
    requires p.RecvDone? || p.Framing? || p.Drained? || p.Arming? || p.Starting?
    requires (d, q) == ContinueRecv(c, p, ok)
    ensures Aside(c, p, d, q)
  {
  }

  lemma CallAside(c: Core, p: Point, a: Action, d: Core, q: Point)
    requires IsCaller(p) && Call(c, p, a) == Some((d, q)) && !a.CallConnect? && !a.CallDisconnect?
    ensures Aside(c, p, d, q)
  {
    if IsSimple(a) {
      assert d.s.life == c.s.life && d.s.tx == c.s.tx;
    } else if IsRequest(a) {
      assert Reserve(c.s, a).0.life == c.s.life && Reserve(c.s, a).0.tx == c.s.tx;
    }
  }

  lemma StepAside(c: Core, p: Point, a: Action, d: Core, q: Point)
    requires c.s.rx.Valid() && Act(c, p, a) == Some((d, q)) && !TouchesSend(p, a)
    ensures Aside(c, p, d, q)
  {
    if a.Continue? {
      if p.RecvDone? || p.Framing? || p.Drained? || p.Arming? || p.Starting? {
        RecvAside(c, p, a.ok, d, q);
      } else {
        assert (d, q) == ContinueOther(c, p);
      }
    } else if a.CallStart? || a.TakeRecv? {
      assert Wake(c, a) == Some((d, q));
    } else if !a.HandlerReturn? {
      CallAside(c, p, a, d, q);
    }
  }

  lemma SameKeeps(c: Core, d: Core, owners: nat)
    requires SameSend(c, d) && SendInv(c, owners)
    ensures SendInv(d, owners)
    ensures forall p :: SendPoint(c, p) ==> SendPoint(d, p)
  {
  }

  /** One action of one thread keeps the core invariant and what its own parking point promises. */
  lemma SendStep(c: Core, p: Point, a: Action, d: Core, q: Point, owners: nat)
    requires c.s.rx.Valid() && Act(c, p, a) == Some((d, q))
    requires c.s.life.connected ==> !c.s.life.closed
    requires SendInv(c, owners) && SendPoint(c, p)
    requires SendOwner(p) ==> owners == 1
    ensures SendInv(d, owners - One(SendOwner(p)) + One(SendOwner(q))) && SendPoint(d, q)
  {
    if !TouchesSend(p, a) {
      StepAside(c, p, a, d, q);
      SameKeeps(c, d, owners);
    } else if a.TakeSend? {
      TakeSendKeeps(c, d, q, a.k, a.n, owners);
    } else if a.CallConnect? {
      ConnectKeeps(c, d, a.ok, owners);
    } else if a.CallDisconnect? {
      CloseKeeps(c, d, owners, owners);
    } else if p.Sending? {
      PushKeeps(c, d, p, q, owners);
    } else if p.Registering? {
      RegisterKeeps(c, d, p, q, a.ok, owners);
    } else if p.SendDone? {
      ProcessKeeps(c, d, p, q, owners);
    } else {
      CloseKeeps(c, d, owners, owners - One(SendOwner(p)));
    }
  }

  lemma PushFrame(c: Core, d: Core, p: Point, q: Point, other: Point)
    requires SendPoint(c, other) && p.Sending?
    requires (d, q) == DoPush(c, p)
    ensures SendPoint(d, other)
  {
    if c.s.life.connected {
      FlatSnoc(c.accepted, p.buf);
      FlatSnoc(c.s.tx.queue, p.buf);
      Assoc(c.wire + c.s.tx.unsent, Flat(c.s.tx.queue), p.buf);
      if other.SendDone? {
        Assoc(c.wire + c.s.tx.unsent[Min(other.n, |c.s.tx.unsent|)..], Flat(c.s.tx.queue), p.buf);
      }
    }
  }

  /** It also keeps what the parking point of any other thread promises. */
  lemma SendFrame(c: Core, p: Point, a: Action, d: Core, q: Point, other: Point, owners: nat)
    requires c.s.rx.Valid() && Act(c, p, a) == Some((d, q))
    requires SendInv(c, owners) && SendPoint(c, other)
    requires SendOwner(other) ==> !SendOwner(p) && owners == 1
    ensures SendPoint(d, other)
  {
    if SendOwner(other) {
      if !TouchesSend(p, a) {
        StepAside(c, p, a, d, q);
        SameKeeps(c, d, owners);
      } else if a.Continue? && p.Sending? {
        PushFrame(c, d, p, q, other);
      }
    }
  }
}
