/** Every accepted byte reaches the wire: the send path on its own always makes progress and ends. */
module Draining {
  import opened Bytes
  import opened Counting
  import opened Protocol
  import opened SendSafety
  import opened Safety
  import opened SessionTheorems

  /**
   * The actions of the send path alone, with a kernel that takes between 1 and `chunk` of the
   * bytes it was given, and sends that do not fail.
   */
  predicate Drains(c: Core, p: Point, a: Action, chunk: nat) {
    match a
    case TakeSend(k, n) => p.Idle? && k < |c.sends| && 0 < n <= chunk && n <= |c.sends[k]|
    case Continue(ok) => ok && (p.Registering? || p.SendDone? || p.Tail?)
    case _ => false
  }

  ghost predicate DrainStep(w: World, w': World, chunk: nat) {
    exists i: nat, a :: StepBy(w, w', i, a) && Drains(w.core, w.threads[i], a, chunk)
  }

  /** A thread that is, or will come back to, waiting for completions. */
  predicate Worker(p: Point) {
    p.Idle? || p.SendDone? || p.Tail? || (p.Registering? && p.after.FromCompletion?)
  }

  /** Every report that is not processed yet is one the kernel may make. */
  ghost predicate InRange(w: World) {
    forall i :: 0 <= i < |w.threads| && w.threads[i].SendDone? ==> 0 < w.threads[i].n <= |w.core.s.tx.unsent|
  }

  /** Connected, no send failed, and some thread to wait for completions. */
  ghost predicate Sound(w: World) {
    && w.core.s.life.connected && !SendBroken(w) && InRange(w)
    && exists i :: 0 <= i < |w.threads| && Worker(w.threads[i])
  }

  /** Everything accepted is on the wire. */
  ghost predicate Delivered(w: World) { w.core.wire == Flat(w.core.accepted) }

  // ---------------------------------------------------------------------------------------
  // What goes down with every step

  function Rank(p: Point): nat {
    if p.SendDone? then 3 else if p.Registering? then 2 else if p.Tail? then 1 else 0
  }

  ghost function Ranks(threads: seq<Point>): nat {
    if threads == [] then 0 else Rank(threads[0]) + Ranks(threads[1..])
  }

  lemma {:induction false} RanksUpdate(threads: seq<Point>, i: nat, q: Point)
    requires i < |threads|
    ensures Ranks(threads[i := q]) == Ranks(threads) - Rank(threads[i]) + Rank(q)
  {
    if i == 0 {
      assert threads[0 := q][1..] == threads[1..];
    } else {
      RanksUpdate(threads[1..], i - 1, q);
      assert threads[i := q][1..] == threads[1..][i - 1 := q];
    }
  }

  /** Four for every byte still to be reported, and what is left of the callbacks. */
  ghost function Measure(w: World): int {
    4 * (|Flat(w.core.accepted)| - |w.core.wire|) + Ranks(w.threads)
  }

  /** What one thread does on the send path: nothing breaks, and it comes closer to its end. */
  ghost predicate Progress(c: Core, p: Point, d: Core, q: Point) {
    && d.s.life == c.s.life && d.accepted == c.accepted && c.wire <= d.wire
    && Rank(q) < Rank(p) + 4 * (|d.wire| - |c.wire|)
    && !(q.Closing? && q.why == SendError)
    && (q.SendDone? ==> 0 < q.n <= |d.s.tx.unsent|)
    && (Worker(p) ==> Worker(q))
    && (SendOwner(p) || d.s.tx == c.s.tx)
  }

  lemma TakeProgress(c: Core, p: Point, k: nat, n: nat, chunk: nat, d: Core, q: Point)
    requires c.s.rx.Valid() && SendInv(c, 0) && Act(c, p, TakeSend(k, n)) == Some((d, q))
    requires Drains(c, p, TakeSend(k, n), chunk)
    ensures Progress(c, p, d, q)
  {
    assert c.sends[k] == c.s.tx.unsent;
  }

  lemma RegisterProgress(c: Core, p: Point, d: Core, q: Point)
    requires c.s.rx.Valid() && c.s.life.connected && p.Registering? && SendPoint(c, p)
    requires Act(c, p, Continue(true)) == Some((d, q))
    ensures Progress(c, p, d, q)
  {
    FlatEmpty(c.s.tx.queue);
    assert (d, q) == DoRegister(c, p, true);
  }

  lemma ProcessProgress(c: Core, p: Point, d: Core, q: Point)
    requires c.s.rx.Valid() && c.s.life.connected && p.SendDone? && 0 < p.n <= |c.s.tx.unsent|
    requires Act(c, p, Continue(true)) == Some((d, q))
    ensures Progress(c, p, d, q)
  {
    assert (d, q) == DoProcess(c, p);
  }

  lemma ThreadProgress(w: World, w': World, i: nat, a: Action, chunk: nat)
    requires Reachable(w) && Sound(w) && StepBy(w, w', i, a) && Drains(w.core, w.threads[i], a, chunk)
    ensures Progress(w.core, w.threads[i], w'.core, w'.threads[i])
  {
    ReachableInv(w);
    var p := w.threads[i];
    assert ThreadInv(w.core, p);
    if a.TakeSend? {
      TakeProgress(w.core, p, a.k, a.n, chunk, w'.core, w'.threads[i]);
    } else if p.Registering? {
      RegisterProgress(w.core, p, w'.core, w'.threads[i]);
    } else if p.SendDone? {
      ProcessProgress(w.core, p, w'.core, w'.threads[i]);
    }
  }

  lemma NoOtherOwner(w: World, i: nat, j: nat)
    requires Reachable(w) && i < |w.threads| && j < |w.threads| && i != j && SendOwner(w.threads[j])
    ensures !SendOwner(w.threads[i])
  {
    ReachableInv(w);
    Exclusive(w.threads, i, j, SendOwner);
  }

  lemma StaysSound(w: World, i: nat, d: Core, q: Point)
    requires Reachable(w) && Sound(w) && i < |w.threads| && Progress(w.core, w.threads[i], d, q)
    ensures Sound(World(d, w.threads[i := q]))
  {
    var w' := World(d, w.threads[i := q]);
    var j :| 0 <= j < |w.threads| && Worker(w.threads[j]);
    assert Worker(w'.threads[j]);
    forall h | 0 <= h < |w'.threads| && w'.threads[h].SendDone?
      ensures 0 < w'.threads[h].n <= |w'.core.s.tx.unsent|
    {
      if h != i { NoOtherOwner(w, i, h); }
    }
  }

  /** Every step of the send path keeps the session sound and lowers the measure. */
  lemma StepLowers(w: World, w': World, chunk: nat)
    requires Reachable(w) && Sound(w) && DrainStep(w, w', chunk)
    ensures Reachable(w') && Sound(w') && w'.core.accepted == w.core.accepted && Measure(w') < Measure(w)
  {
    var i: nat, a :| StepBy(w, w', i, a) && Drains(w.core, w.threads[i], a, chunk);
    StepReachable(w, w');
    ThreadProgress(w, w', i, a, chunk);
    RanksUpdate(w.threads, i, w'.threads[i]);
    StaysSound(w, i, w'.core, w'.threads[i]);
  }

  /** As long as something is left, the send path can go on, whatever the bound on a completion. */
  lemma CanGoOn(w: World, chunk: nat)
    requires Reachable(w) && Sound(w) && chunk > 0
    ensures Delivered(w) || exists w' :: DrainStep(w, w', chunk)
  {
    ReachableInv(w);
    var j :| 0 <= j < |w.threads| && Worker(w.threads[j]);
    if !w.threads[j].Idle? {
      GoOn(w, j, Continue(true), chunk);
    } else if w.core.sends != [] {
      GoOn(w, j, TakeSend(0, 1), chunk);
    } else if SendOwners(w) > 0 {
      var i := CountWitness(w.threads, SendOwner);
      GoOn(w, i, Continue(true), chunk);
    }
  }

  lemma GoOn(w: World, i: nat, a: Action, chunk: nat)
    requires w.core.s.rx.Valid() && i < |w.threads| && Drains(w.core, w.threads[i], a, chunk)
    ensures exists w' :: DrainStep(w, w', chunk)
  {
    var (d, q) := Act(w.core, w.threads[i], a).value;
    var w' := World(d, w.threads[i := q]);
    assert StepBy(w, w', i, a);
    assert DrainStep(w, w', chunk);
  }

  // ---------------------------------------------------------------------------------------
  // Every run of the send path, and one that exists

  ghost predicate IsDrain(path: seq<World>, chunk: nat) {
    path != [] && forall k :: 0 <= k < |path| - 1 ==> DrainStep(path[k], path[k + 1], chunk)
  }

  /**
   * From every reachable sound state, every run of the send path alone is at most as long as the
   * measure says, and one that cannot go on has put every accepted byte on the wire.
   */
  lemma {:induction false} EveryDrainDelivers(path: seq<World>, chunk: nat)
    requires IsDrain(path, chunk) && Reachable(path[0]) && Sound(path[0]) && chunk > 0
    ensures var end := path[|path| - 1];
      && Reachable(end) && Sound(end) && end.core.accepted == path[0].core.accepted
      && |path| - 1 + Measure(end) <= Measure(path[0])
      && (Delivered(end) || exists w' :: DrainStep(end, w', chunk))
    decreases |path|
  {
    if |path| == 1 {
      CanGoOn(path[0], chunk);
    } else {
      assert DrainStep(path[0], path[1], chunk);
      StepLowers(path[0], path[1], chunk);
      EveryDrainDelivers(path[1..], chunk);
    }
  }

  lemma MeasureNatural(w: World)
    requires Reachable(w)
    ensures Measure(w) >= 0
  {
    ReachableInv(w);
  }

  /** And such a run exists. */
  lemma {:induction false} SomeDrainDelivers(w: World, chunk: nat) returns (path: seq<World>)
    requires Reachable(w) && Sound(w) && chunk > 0
    ensures IsDrain(path, chunk) && path[0] == w && Delivered(path[|path| - 1])
    decreases Measure(w)
  {
    if Delivered(w) {
      path := [w];
    } else {
      CanGoOn(w, chunk);
      var w' :| DrainStep(w, w', chunk);
      StepLowers(w, w', chunk);
      MeasureNatural(w');
      MeasureNatural(w);
      path := SomeDrainDelivers(w', chunk);
      path := DrainCons(w, path, chunk);
    }
  }

  lemma DrainCons(w: World, rest: seq<World>, chunk: nat) returns (path: seq<World>)
    requires IsDrain(rest, chunk) && DrainStep(w, rest[0], chunk)
    ensures IsDrain(path, chunk) && path[0] == w && path[|path| - 1] == rest[|rest| - 1]
  {
    path := [w] + rest;
    forall k | 0 <= k < |path| - 1 ensures DrainStep(path[k], path[k + 1], chunk) {
      if k > 0 { assert path[k] == rest[k - 1] && path[k + 1] == rest[k]; }
    }
  }

  /**
   * Every accepted byte drains.  From any reachable connected state in which no send failed, every
   * report is one the kernel may make and some thread waits for completions, and for every bound
   * on a completion: every run of the send path alone keeps the session so, is bounded in length,
   * and can be continued until everything accepted is on the wire; and one that gets there exists.
   */
  lemma AcceptedBytesDrain(path: seq<World>, chunk: nat) returns (drained: seq<World>)
    requires IsDrain(path, chunk) && Reachable(path[0]) && Sound(path[0]) && chunk > 0
    ensures var end := path[|path| - 1];
      && Sound(end) && end.core.accepted == path[0].core.accepted && |path| - 1 <= Measure(path[0])
      && (Delivered(end) || exists w' :: DrainStep(end, w', chunk))
      && IsDrain(drained, chunk) && drained[0] == end && Delivered(drained[|drained| - 1])
  {
    EveryDrainDelivers(path, chunk);
    MeasureNatural(path[|path| - 1]);
    drained := SomeDrainDelivers(path[|path| - 1], chunk);
  }
}
