/** Bytes, byte buffers and the sequence facts that every other module builds on. */
module Bytes {

  type byte = b: int | 0 <= b < 256

  /** A non-empty byte buffer: `send` refuses null and empty ones. */
  type Buffer = b: seq<byte> | b != [] witness [0]

  datatype Option<+T> = None | Some(value: T)

  function One(b: bool): nat { if b then 1 else 0 }

  function Min(a: nat, b: nat): nat { if a < b then a else b }

  /** Concatenation of a list of byte strings. */
  function Flat(bs: seq<seq<byte>>): seq<byte> {
    if bs == [] then [] else bs[0] + Flat(bs[1..])
  }

  lemma Assoc<T>(a: seq<T>, b: seq<T>, c: seq<T>)
    ensures (a + b) + c == a + (b + c)
  {
  }

  lemma DropFront<T>(a: seq<T>, b: seq<T>, k: nat)
    requires k <= |a|
    ensures (a + b)[k..] == a[k..] + b
  {
  }

  lemma DropDrop<T>(s: seq<T>, a: nat, b: nat)
    requires a + b <= |s|
    ensures s[a..][b..] == s[a + b..]
  {
  }

  lemma {:induction false} FlatAppend(a: seq<seq<byte>>, b: seq<seq<byte>>)
    ensures Flat(a + b) == Flat(a) + Flat(b)
  {
    if a == [] {
      assert a + b == b;
    } else {
      FlatAppend(a[1..], b);
      assert (a + b)[1..] == a[1..] + b;
      Assoc(a[0], Flat(a[1..]), Flat(b));
    }
  }

  lemma FlatSnoc(a: seq<seq<byte>>, x: seq<byte>)
    ensures Flat(a + [x]) == Flat(a) + x
  {
    FlatAppend(a, [x]);
    assert Flat([x]) == x;
  }

  lemma FlatCons(x: seq<byte>, a: seq<seq<byte>>, r: seq<byte>)
    ensures Flat([x] + a) + r == x + (Flat(a) + r)
  {
    assert ([x] + a)[1..] == a;
  }

  /** A list of non-empty byte strings is empty exactly when its concatenation is. */
  lemma FlatEmpty(bs: seq<seq<byte>>)
    requires forall i :: 0 <= i < |bs| ==> bs[i] != []
    ensures Flat(bs) == [] <==> bs == []
  {
    if bs != [] {
      assert |Flat(bs)| >= |bs[0]| > 0;
    }
  }
}

/** How many elements of a sequence satisfy a predicate. */
module Counting {

  ghost function Count<T>(s: seq<T>, p: T -> bool): nat {
    if s == [] then 0 else (if p(s[0]) then 1 else 0) + Count(s[1..], p)
  }

  /** Replacing one element changes the count by what it did to that element. */
  lemma {:induction false} CountUpdate<T>(s: seq<T>, i: nat, x: T, p: T -> bool)
    requires i < |s|
    ensures Count(s[i := x], p)
         == Count(s, p) - (if p(s[i]) then 1 else 0) + (if p(x) then 1 else 0)
  {
    if i == 0 {
      assert s[0 := x][1..] == s[1..];
    } else {
      CountUpdate(s[1..], i - 1, x, p);
      assert s[i := x][1..] == s[1..][i - 1 := x];
    }
  }

  lemma {:induction false} CountMember<T>(s: seq<T>, i: nat, p: T -> bool)
    requires i < |s| && p(s[i])
    ensures Count(s, p) >= 1
  {
    if i > 0 { CountMember(s[1..], i - 1, p); }
  }

  lemma {:induction false} CountPair<T>(s: seq<T>, i: nat, j: nat, p: T -> bool)
    requires i < j < |s| && p(s[i]) && p(s[j])
    ensures Count(s, p) >= 2
  {
    if i == 0 { CountMember(s[1..], j - 1, p); } else { CountPair(s[1..], i - 1, j - 1, p); }
  }

  /** A positive count has a witness. */
  lemma {:induction false} CountWitness<T>(s: seq<T>, p: T -> bool) returns (i: nat)
    requires Count(s, p) >= 1
    ensures i < |s| && p(s[i])
  {
    if p(s[0]) { i := 0; } else { var k := CountWitness(s[1..], p); i := k + 1; }
  }

  lemma {:induction false} CountNone<T>(s: seq<T>, p: T -> bool)
    requires forall i :: 0 <= i < |s| ==> !p(s[i])
    ensures Count(s, p) == 0
  {
    if s != [] { CountNone(s[1..], p); }
  }
}
