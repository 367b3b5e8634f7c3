/** One round of the load test: thread `i` of `k` visits sessions i, i + k, i + 2k and so on. */
module Striding {

  function Nth(i: nat, k: nat, j: nat): nat { i + k * j }

  /** The sessions thread `i` visits: every one of its stride that exists. */
  method Visit(i: nat, k: nat, sessions: nat) returns (visited: seq<nat>)
    requires i < k
    ensures forall j: nat :: j < |visited| <==> Nth(i, k, j) < sessions
    ensures forall j :: 0 <= j < |visited| ==> visited[j] == Nth(i, k, j)
  {
    visited := [];
    var index := i;
    while index < sessions
      invariant index == Nth(i, k, |visited|)
      invariant forall j :: 0 <= j < |visited| ==> visited[j] == Nth(i, k, j) < sessions
      decreases sessions - index
    {
      visited := visited + [index];
      index := index + k;
    }
    forall j: nat | |visited| <= j ensures Nth(i, k, j) >= sessions { Grows(i, k, |visited|, j); }
  }

  lemma Grows(i: nat, k: nat, a: nat, b: nat)
    requires a <= b
    ensures Nth(i, k, a) + k * (b - a) == Nth(i, k, b) && k * (b - a) >= 0
  {
  }

  /** Every session belongs to one thread and one turn of its loop, and to no other. */
  lemma VisitedOnce(x: nat, k: nat, i: nat, j: nat)
    requires i < k
    ensures x == Nth(i, k, j) <==> i == x % k && j == x / k
  {
    if x == Nth(i, k, j) {
      var d := x / k - j;
      assert k * d == i - x % k;
      if d != 0 { Apart(k, d); }
    }
  }

  lemma Apart(k: nat, d: int)
    requires d != 0
    ensures k * d >= k || k * d + k <= 0
  {
    var e := if d > 0 then d - 1 else -d - 1;
    assert k * e >= 0;
    assert k * d == if d > 0 then k + k * e else 0 - k - k * e;
  }

  /** One round of all `k` threads visits each of the sessions exactly once, and nothing else. */
  method Round(k: nat, sessions: nat) returns (visits: seq<seq<nat>>)
    requires k > 0
    ensures |visits| == k
    ensures forall i, j :: 0 <= i < k && 0 <= j < |visits[i]| ==> visits[i][j] < sessions
    ensures forall x: nat :: x < sessions ==>
      x % k < k && x / k < |visits[x % k]| && visits[x % k][x / k] == x
    ensures forall i, j :: 0 <= i < k && 0 <= j < |visits[i]| ==> visits[i][j] % k == i && visits[i][j] / k == j
  {
    visits := [];
    for i := 0 to k
      invariant |visits| == i
      invariant forall h: nat, j: nat :: h < i ==> (j < |visits[h]| <==> Nth(h, k, j) < sessions)
      invariant forall h, j :: 0 <= h < i && 0 <= j < |visits[h]| ==> visits[h][j] == Nth(h, k, j)
    {
      var visited := Visit(i, k, sessions);
      visits := visits + [visited];
    }
    forall x: nat | x < sessions
      ensures x % k < k && x / k < |visits[x % k]| && visits[x % k][x / k] == x
    {
      VisitedOnce(x, k, x % k, x / k);
    }
    forall i, j | 0 <= i < k && 0 <= j < |visits[i]| ensures visits[i][j] % k == i && visits[i][j] / k == j {
      VisitedOnce(visits[i][j], k, i, j);
    }
  }
}
