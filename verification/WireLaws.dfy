/** Laws for arbitrary wire bytes, unknown fields and non-minimal encodings included. */
module WireLaws {
  import opened Bytes
  import opened Varints
  import opened Codec
  import opened CodecLaws

  lemma ReadBytesStable(s: seq<byte>, t: seq<byte>)
    requires ReadBytes(s).Ok?
    ensures ReadBytes(s + t) == Ok(ReadBytes(s).value, ReadBytes(s).rest + t)
  {
    ReadVarintStable(s, t, 5);
    var n, rest := ReadSize(s).value, ReadSize(s).rest;
    assert (rest + t)[..n] == rest[..n] && (rest + t)[n..] == rest[n..] + t;
  }

  lemma {:induction false} SkipStable(tag: nat, s: seq<byte>, t: seq<byte>, depth: nat)
    requires Skip(tag, s, depth).Some?
    ensures Skip(tag, s + t, depth) == Some(Skip(tag, s, depth).value + t)
    decreases |s|, 1
  {
    match tag % 8 {
      case 0 => ReadVarintStable(s, t, 10);
      case 1 => assert (s + t)[8..] == s[8..] + t;
      case 2 => ReadBytesStable(s, t);
      case 3 => SkipGroupStable(tag, s, t, depth - 1);
      case 5 => assert (s + t)[4..] == s[4..] + t;
    }
  }

  lemma {:induction false} SkipGroupStable(start: nat, s: seq<byte>, t: seq<byte>, depth: nat)
    requires SkipGroup(start, s, depth).Some?
    ensures SkipGroup(start, s + t, depth) == Some(SkipGroup(start, s, depth).value + t)
    decreases |s|, 0
  {
    ReadVarintStable(s, t, 5);
    var tag, rest := ReadTag(s).value, ReadTag(s).rest;
    if !(tag == 0 || tag % 8 == 4) {
      SkipStable(tag, rest, t, depth);
      SkipGroupStable(start, Skip(tag, rest, depth).value, t, depth);
    }
  }

  lemma ReadFieldStable(k: Kind, s: seq<byte>, t: seq<byte>)
    requires ReadField(k, s).Ok?
    ensures ReadField(k, s + t) == Ok(ReadField(k, s).value, ReadField(k, s).rest + t)
  {
    if k == KString { ReadBytesStable(s, t); } else { ReadVarintStable(s, t, 10); }
  }

  /** A turn of the loop that succeeds does not depend on what follows. */
  lemma TurnStable(sch: Schema, s: seq<byte>, t: seq<byte>, depth: nat)
    requires !TurnOf(sch, s, depth).Bad?
    ensures TurnOf(sch, s + t, depth) == TurnOf(sch, s, depth).(rest := TurnOf(sch, s, depth).rest + t)
  {
    ReadVarintStable(s, t, 5);
    var tag, rest := ReadTag(s).value, ReadTag(s).rest;
    match FieldOf(sch, tag) {
      case Some(i) => ReadFieldStable(sch[i], rest, t);
      case None => SkipStable(tag, rest, t, depth);
    }
  }

  /** Parsing is sequential: after any accepted bytes, the rest is parsed on top of their message. */
  lemma {:induction false} ParseConcat(sch: Schema, m: Message, x: seq<byte>, y: seq<byte>, depth: nat)
    requires Typed(sch, m) && Parse(sch, m, x, depth).Some?
    ensures Parse(sch, m, x + y, depth) == Parse(sch, Parse(sch, m, x, depth).value, y, depth)
    decreases |x|
  {
    if x == [] {
      assert x + y == y;
    } else {
      TurnStable(sch, x, y, depth);
      var t := TurnOf(sch, x, depth);
      ParseConcat(sch, if t.Set? then m[t.i := t.v] else m, t.rest, y, depth);
    }
  }

  /** The fields a byte string assigns. */
  function Present(sch: Schema, s: seq<byte>, depth: nat): set<nat>
    decreases |s|
  {
    if s == [] then {}
    else match TurnOf(sch, s, depth)
      case Bad => {}
      case Set(i, _, rest) => {i} + Present(sch, rest, depth)
      case Skipped(rest) => Present(sch, rest, depth)
  }

  /** What a byte string says does not depend on the message it is parsed onto. */
  lemma {:induction false} ParseOnto(sch: Schema, a: Message, b: Message, y: seq<byte>, depth: nat)
    requires Typed(sch, a) && Typed(sch, b)
    ensures Parse(sch, a, y, depth).Some? <==> Parse(sch, b, y, depth).Some?
    ensures Parse(sch, a, y, depth).Some? ==>
      var p, q := Parse(sch, a, y, depth).value, Parse(sch, b, y, depth).value;
      forall i :: 0 <= i < |sch| ==>
        if i in Present(sch, y, depth) then p[i] == q[i] else p[i] == a[i] && q[i] == b[i]
    decreases |y|
  {
    if y != [] {
      match TurnOf(sch, y, depth) {
        case Bad =>
        case Set(i, v, rest) => ParseOnto(sch, a[i := v], b[i := v], rest, depth);
        case Skipped(rest) => ParseOnto(sch, a, b, rest, depth);
      }
    }
  }

  /**
   * Last one wins, for any two accepted byte strings: the concatenation is accepted, a field that
   * the second assigns has the second's value, every other field the first's.  That is
   * `MergeFrom` exactly when the second never spells out a default over a value that is not one.
   */
  lemma LastOneWins(sch: Schema, x: seq<byte>, y: seq<byte>)
    requires Parse(sch, Defaults(sch), x, DEPTH).Some? && Parse(sch, Defaults(sch), y, DEPTH).Some?
    ensures var a, b := Parse(sch, Defaults(sch), x, DEPTH).value, Parse(sch, Defaults(sch), y, DEPTH).value;
      var r := Parse(sch, Defaults(sch), x + y, DEPTH);
      && r.Some? && |r.value| == |sch|
      && (forall i :: 0 <= i < |sch| ==> r.value[i] == if i in Present(sch, y, DEPTH) then b[i] else a[i])
      && (r.value == Merge(a, b) <==>
            forall i :: 0 <= i < |sch| && i in Present(sch, y, DEPTH) && IsDefault(b[i]) ==> a[i] == b[i])
  {
    var a, b := Parse(sch, Defaults(sch), x, DEPTH).value, Parse(sch, Defaults(sch), y, DEPTH).value;
    ParseConcat(sch, Defaults(sch), x, y, DEPTH);
    ParseOnto(sch, a, Defaults(sch), y, DEPTH);
    var m, merged := Parse(sch, a, y, DEPTH).value, Merge(a, b);
    forall i | 0 <= i < |sch|
      ensures m[i] == merged[i] <==> (i in Present(sch, y, DEPTH) && IsDefault(b[i]) ==> a[i] == b[i])
    {
      if i !in Present(sch, y, DEPTH) { assert b[i] == Default(sch[i]); }
    }
    if m == merged {
    } else {
      assert exists i :: 0 <= i < |sch| && m[i] != merged[i];
    }
  }

  lemma OneByteField(sch: Schema, n: byte)
    requires sch == [KInt32] && n < 128
    ensures Parse(sch, Defaults(sch), [8, n], DEPTH) == Some([Num(n)]) && Present(sch, [8, n], DEPTH) == {0}
  {
    var s: seq<byte> := [8, n];
    TagReads(8, [n]);
    assert s == [8] + [n] && [n][1..] == [];
    assert TurnOf(sch, s, DEPTH) == Set(0, Num(n), []);
    assert Defaults(sch)[0 := Num(n)] == [Num(n)];
    assert Parse(sch, [Num(n)], [], DEPTH) == Some([Num(n)]);
    assert Present(sch, [], DEPTH) == {};
  }

  /** A default spelled out on the wire: concatenation and merging part ways. */
  lemma ExplicitDefaultDiffers() returns (sch: Schema, x: seq<byte>, y: seq<byte>)
    ensures sch == [KInt32] && x == [8, 5] && y == [8, 0]
    ensures Parse(sch, Defaults(sch), x, DEPTH) == Some([Num(5)])
    ensures Parse(sch, Defaults(sch), y, DEPTH) == Some([Num(0)])
    ensures Parse(sch, Defaults(sch), x + y, DEPTH) != Some(Merge([Num(5)], [Num(0)]))
  {
    sch, x, y := [KInt32], [8, 5], [8, 0];
    OneByteField(sch, 5);
    OneByteField(sch, 0);
    LastOneWins(sch, x, y);
  }
}
