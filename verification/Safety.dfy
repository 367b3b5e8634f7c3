/** Safety of every run of the step system, and what it means for a user of the session. */
module Safety {
  import opened Counting
  import opened Protocol
  import opened SendSafety
  import opened RecvSafety
  import opened AccountSafety

  predicate IsClosing(p: Point) { p.Closing? }

  ghost function SendOwners(w: World): nat { Count(w.threads, SendOwner) }
  ghost function RecvOwners(w: World): nat { Count(w.threads, RecvOwner) }
  ghost function Callbacks(w: World): nat { Count(w.threads, InCallback) }

  /** The whole invariant: core parts with their thread counts, and what each parked thread promises. */
  ghost predicate Inv(w: World) {
    var c := w.core;
    && LifeInv(c.s.life)
    && SendInv(c, SendOwners(w))
    && RecvInv(c, RecvOwners(w), Count(w.threads, IsClosing))
    && AccountInv(c.s, Count(w.threads, InWindow))
    && c.s.pendingIo == |c.sends| + |c.recvs| + Callbacks(w)
    && forall i :: 0 <= i < |w.threads| ==> ThreadInv(c, w.threads[i])
  }

  ghost predicate ThreadInv(c: Core, p: Point)
    requires c.s.rx.Valid()
  {
    SendPoint(c, p) && HoldInv(c, HoldOf(p))
  }

  lemma InitInv(w: World)
    requires Init(w)
    ensures Inv(w)
  {
    CountNone(w.threads, SendOwner);
    CountNone(w.threads, RecvOwner);
    CountNone(w.threads, IsClosing);
    CountNone(w.threads, InWindow);
    CountNone(w.threads, InCallback);
  }

  /** Two different threads never own the same path, and the count says so. */
  lemma Exclusive(threads: seq<Point>, i: nat, j: nat, owner: Point -> bool)
    requires i < |threads| && j < |threads| && i != j && Count(threads, owner) <= 1
    ensures owner(threads[j]) ==> !owner(threads[i]) && Count(threads, owner) == 1
  {
    if owner(threads[j]) {
      CountMember(threads, j, owner);
      if owner(threads[i]) { CountPair(threads, if i < j then i else j, if i < j then j else i, owner); }
    }
  }

  lemma StepSend(w: World, w': World, i: nat, a: Action)
    requires Inv(w) && StepBy(w, w', i, a)
    ensures SendInv(w'.core, SendOwners(w')) && SendPoint(w'.core, w'.threads[i])
  {
    var p, q := w.threads[i], w'.threads[i];
    assert ThreadInv(w.core, p);
    CountUpdate(w.threads, i, q, SendOwner);
    if SendOwner(p) { CountMember(w.threads, i, SendOwner); }
    SendStep(w.core, p, a, w'.core, q, SendOwners(w));
  }

  lemma StepRecv(w: World, w': World, i: nat, a: Action)
    requires Inv(w) && StepBy(w, w', i, a)
    ensures RecvInv(w'.core, RecvOwners(w'), Count(w'.threads, IsClosing))
    ensures HoldInv(w'.core, HoldOf(w'.threads[i]))
  {
    var p, q := w.threads[i], w'.threads[i];
    assert ThreadInv(w.core, p);
    CountUpdate(w.threads, i, q, RecvOwner);
    CountUpdate(w.threads, i, q, IsClosing);
    if RecvOwner(p) { CountMember(w.threads, i, RecvOwner); }
    if IsClosing(p) { CountMember(w.threads, i, IsClosing); }
    RecvStep(w.core, p, a, w'.core, q, RecvOwners(w), Count(w.threads, IsClosing));
  }

  lemma StepGood(w: World, w': World, i: nat, a: Action)
    requires Inv(w) && StepBy(w, w', i, a)
    ensures Good(w.core, w.threads[i], w'.core, w'.threads[i], Count(w.threads, InWindow))
    ensures AccountInv(w'.core.s, Count(w'.threads, InWindow))
    ensures w'.core.s.pendingIo == |w'.core.sends| + |w'.core.recvs| + Callbacks(w')
  {
    var p, q := w.threads[i], w'.threads[i];
    CountUpdate(w.threads, i, q, InWindow);
    CountUpdate(w.threads, i, q, InCallback);
    if InWindow(p) { CountMember(w.threads, i, InWindow); }
    GoodStep(w.core, p, a, w'.core, q, Count(w.threads, InWindow));
  }

  lemma StepOthers(w: World, w': World, i: nat, a: Action, j: nat)
    requires Inv(w) && StepBy(w, w', i, a) && j < |w.threads| && j != i
    ensures w'.core.s.rx.Valid() && ThreadInv(w'.core, w'.threads[j])
  {
    var c, p, d, q, other := w.core, w.threads[i], w'.core, w'.threads[i], w.threads[j];
    assert ThreadInv(c, other);
    Exclusive(w.threads, i, j, SendOwner);
    Exclusive(w.threads, i, j, RecvOwner);
    SendFrame(c, p, a, d, q, other, SendOwners(w));
    RecvFrame(c, p, a, d, q, other, RecvOwners(w), Count(w.threads, IsClosing));
  }

  /** A closed session stays closed, and starts no further operation. */
  ghost predicate Closes(w: World, w': World) {
    w.core.s.life.closed ==> w'.core.s.life.closed && w'.core.s.pendingIo <= w.core.s.pendingIo
  }

  /** Every step of every thread keeps the invariant. */
  lemma StepInv(w: World, w': World)
    requires Inv(w) && Step(w, w')
    ensures Inv(w') && Closes(w, w')
  {
    var i, a :| StepBy(w, w', i, a);
    StepSend(w, w', i, a);
    StepRecv(w, w', i, a);
    StepGood(w, w', i, a);
    forall j | 0 <= j < |w'.threads| ensures ThreadInv(w'.core, w'.threads[j]) {
      if j != i { StepOthers(w, w', i, a, j); }
    }
  }

  lemma {:induction false} RunInv(run: Run)
    requires IsRun(run)
    ensures Inv(run.world)
  {
    match run {
      case Start(w) => InitInv(w);
      case Then(before, w) =>
        RunInv(before);
        StepInv(before.world, w);
    }
  }

  ghost predicate Reachable(w: World) {
    exists run :: IsRun(run) && run.world == w
  }

  lemma ReachableInv(w: World)
    requires Reachable(w)
    ensures Inv(w)
  {
    var run :| IsRun(run) && run.world == w;
    RunInv(run);
  }

  lemma StepReachable(w: World, w': World)
    requires Reachable(w) && Step(w, w')
    ensures Reachable(w')
  {
    var run :| IsRun(run) && run.world == w;
    assert IsRun(Then(run, w'));
  }

  /** Some steps lead from `a` to `b`. */
  ghost predicate Leads(a: World, b: World) {
    exists path: seq<World> :: IsPath(path) && path[0] == a && path[|path| - 1] == b
  }

  ghost predicate IsPath(path: seq<World>) {
    path != [] && forall k :: 0 <= k < |path| - 1 ==> Step(path[k], path[k + 1])
  }

  lemma StepLeads(a: World, b: World)
    requires Step(a, b)
    ensures Leads(a, b)
  {
    var path := [a, b];
    assert IsPath(path) && path[0] == a && path[|path| - 1] == b;
  }

  lemma LeadsOn(a: World, b: World, c: World)
    requires Leads(a, b) && Leads(b, c)
    ensures Leads(a, c)
  {
    var p :| IsPath(p) && p[0] == a && p[|p| - 1] == b;
    var q :| IsPath(q) && q[0] == b && q[|q| - 1] == c;
    var path := p + q[1..];
    forall k | 0 <= k < |path| - 1 ensures Step(path[k], path[k + 1]) {
      if k >= |p| - 1 { assert path[k] == q[k - |p| + 1] && path[k + 1] == q[k - |p| + 2]; }
    }
    assert IsPath(path) && path[0] == a && path[|path| - 1] == c;
  }
}
