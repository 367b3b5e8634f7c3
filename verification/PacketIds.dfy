/**
 * The packet-id generator: packets are numbered in file order and split by prefix.  Client and
 * server run it on the same file with the prefixes swapped.  The case mapping is a parameter.
 */
module PacketIds {

  datatype Packet = Packet(name: string, id: int)

  /** `recv_pkt`, `send_pkt`, `total_pkt` and the next id. */
  datatype Lists = Lists(recv: seq<Packet>, send: seq<Packet>, total: seq<Packet>, id: int)

  /** The white space of Python's `str.split`. */
  predicate IsSpace(c: char) {
    var n := c as int;
    || 0x09 <= n <= 0x0d || 0x1c <= n <= 0x20 || n == 0x85 || n == 0xa0 || n == 0x1680
    || 0x2000 <= n <= 0x200a || n == 0x2028 || n == 0x2029 || n == 0x202f || n == 0x205f || n == 0x3000
  }

  /** The words of a line: maximal runs without white space, from `word` onwards. */
  function Words(word: string, line: string): (ws: seq<string>)
    requires forall c :: c in word ==> !IsSpace(c)
    ensures forall i :: 0 <= i < |ws| ==> ws[i] != [] && forall c :: c in ws[i] ==> !IsSpace(c)
    decreases |line|
  {
    if line == [] then if word == [] then [] else [word]
    else if !IsSpace(line[0]) then Words(word + [line[0]], line[1..])
    else (if word == [] then [] else [word]) + Words([], line[1..])
  }

  datatype Line = Skipped | Broken | Name(name: string)

  /** What one line declares; a message line without a second word raises an index error. */
  function ReadLine(line: string, upper: string -> string): Line {
    if !("message" <= line) then Skipped
    else if |Words([], line)| < 2 then Broken
    else Name(upper(Words([], line)[1]))
  }

  class ProtoParser {
    const recvPrefix: string
    const sendPrefix: string
    var recvPkt: seq<Packet>
    var sendPkt: seq<Packet>
    var totalPkt: seq<Packet>
    var id: int

    ghost function View(): Lists
      reads this
    {
      Lists(recvPkt, sendPkt, totalPkt, id)
    }

    constructor (startId: int, recvPrefix: string, sendPrefix: string)
      ensures this.recvPrefix == recvPrefix && this.sendPrefix == sendPrefix
      ensures View() == Lists([], [], [], startId)
    {
      this.recvPrefix, this.sendPrefix := recvPrefix, sendPrefix;
      recvPkt, sendPkt, totalPkt, id := [], [], [], startId;
    }

    /** The line loop; false stands for the index error, with the lists as they were left. */
    method ParseProto(lines: seq<string>, upper: string -> string) returns (ok: bool)
      modifies this
      ensures ok == Declared(lines, upper).1
      ensures View() == Assign(old(View()), Declared(lines, upper).0, recvPrefix, sendPrefix)
    {
      var i := 0;
      while i < |lines|
        invariant 0 <= i <= |lines|
        invariant Declared(lines[i..], upper).1 == Declared(lines, upper).1
        invariant Assign(View(), Declared(lines[i..], upper).0, recvPrefix, sendPrefix)
               == Assign(old(View()), Declared(lines, upper).0, recvPrefix, sendPrefix)
      {
        assert lines[i..][0] == lines[i] && lines[i..][1..] == lines[i + 1..];
        var line := ReadLine(lines[i], upper);
        i := i + 1;
        if line.Broken? { return false; }
        if line.Skipped? { continue; }
        ghost var rest := Declared(lines[i..], upper).0;
        assert ([line.name] + rest)[1..] == rest;
        if recvPrefix <= line.name {
          recvPkt := recvPkt + [Packet(line.name, id)];
        } else if sendPrefix <= line.name {
          sendPkt := sendPkt + [Packet(line.name, id)];
        } else {
          continue;
        }
        totalPkt := totalPkt + [Packet(line.name, id)];
        id := id + 1;
      }
      return true;
    }
  }

  /** The declared names up to the first broken line, and whether there is none. */
  function Declared(lines: seq<string>, upper: string -> string): (seq<string>, bool) {
    if lines == [] then ([], true)
    else match ReadLine(lines[0], upper)
      case Broken => ([], false)
      case Skipped => Declared(lines[1..], upper)
      case Name(name) => var (names, ok) := Declared(lines[1..], upper); ([name] + names, ok)
  }

  /** Numbers the names that have one of the prefixes; the first prefix decides the list. */
  function Assign(l: Lists, names: seq<string>, recv: string, send: string): Lists
    decreases |names|
  {
    if names == [] then l
    else
      var p := Packet(names[0], l.id);
      var next :=
        if recv <= names[0] then Lists(l.recv + [p], l.send, l.total + [p], l.id + 1)
        else if send <= names[0] then Lists(l.recv, l.send + [p], l.total + [p], l.id + 1)
        else l;
      Assign(next, names[1..], recv, send)
  }

  // ---------------------------------------------------------------------------------------
  // What the lists are

  /** The packets of `s` with the prefix, or without it, in order. */
  function Select(s: seq<Packet>, prefix: string, with: bool): seq<Packet> {
    if s == [] then []
    else Select(s[..|s| - 1], prefix, with)
         + if (prefix <= s[|s| - 1].name) == with then [s[|s| - 1]] else []
  }

  lemma SelectSnoc(s: seq<Packet>, p: Packet, prefix: string, with: bool)
    ensures Select(s + [p], prefix, with)
         == Select(s, prefix, with) + if (prefix <= p.name) == with then [p] else []
  {
    assert (s + [p])[..|s|] == s;
  }

  /** Ids consecutive, every name with a prefix, and the two lists the two halves of the total. */
  ghost predicate Sorted(l: Lists, start: int, recv: string, send: string) {
    && l.id == start + |l.total|
    && (forall k :: 0 <= k < |l.total| ==> l.total[k].id == start + k)
    && (forall k :: 0 <= k < |l.total| ==> recv <= l.total[k].name || send <= l.total[k].name)
    && l.recv == Select(l.total, recv, true)
    && l.send == Select(l.total, recv, false)
  }

  lemma {:induction false} AssignSorts(l: Lists, names: seq<string>, start: int, recv: string, send: string)
    requires Sorted(l, start, recv, send)
    ensures Sorted(Assign(l, names, recv, send), start, recv, send)
    decreases |names|
  {
    if names != [] {
      var p := Packet(names[0], l.id);
      SelectSnoc(l.total, p, recv, true);
      SelectSnoc(l.total, p, recv, false);
      if recv <= p.name {
        AssignSorts(Lists(l.recv + [p], l.send, l.total + [p], l.id + 1), names[1..], start, recv, send);
      } else if send <= p.name {
        AssignSorts(Lists(l.recv, l.send + [p], l.total + [p], l.id + 1), names[1..], start, recv, send);
      } else {
        AssignSorts(l, names[1..], start, recv, send);
      }
    }
  }

  // ---------------------------------------------------------------------------------------
  // Two runs

  /** Both sides number the same packets alike, whatever the prefixes: only the split differs. */
  lemma {:induction false} SameTotal(l: Lists, m: Lists, names: seq<string>, a: string, b: string)
    requires l.total == m.total && l.id == m.id
    ensures Assign(l, names, a, b).total == Assign(m, names, b, a).total
    decreases |names|
  {
    if names != [] {
      var p := Packet(names[0], l.id);
      if a <= p.name || b <= p.name {
        var t := l.total + [p];
        SameTotal(if a <= p.name then Lists(l.recv + [p], l.send, t, l.id + 1) else Lists(l.recv, l.send + [p], t, l.id + 1),
                  if b <= p.name then Lists(m.recv + [p], m.send, t, m.id + 1) else Lists(m.recv, m.send + [p], t, m.id + 1),
                  names[1..], a, b);
      } else {
        SameTotal(l, m, names[1..], a, b);
      }
    }
  }

  predicate Overlaps(p: Packet, a: string, b: string) { a <= p.name && b <= p.name }

  ghost predicate NoOverlap(s: seq<Packet>, a: string, b: string) {
    forall k :: 0 <= k < |s| ==> !Overlaps(s[k], a, b)
  }

  /** With `a` or `b` on every name: the names with `a` are those without `b`, exactly when none has both. */
  lemma {:induction false} SelectSwaps(s: seq<Packet>, a: string, b: string)
    requires forall k :: 0 <= k < |s| ==> a <= s[k].name || b <= s[k].name
    ensures |Select(s, a, true)| >= |Select(s, b, false)|
    ensures NoOverlap(s, a, b) ==> Select(s, a, true) == Select(s, b, false)
    ensures !NoOverlap(s, a, b) ==> |Select(s, a, true)| > |Select(s, b, false)|
  {
    if s != [] {
      var before, p := s[..|s| - 1], s[|s| - 1];
      SelectSwaps(before, a, b);
      assert s == before + [p];
      assert NoOverlap(s, a, b) <==> NoOverlap(before, a, b) && !Overlaps(p, a, b);
    }
  }

  /**
   * Two generators on the same file with swapped prefixes: identical totals always; one side's
   * receive list is the other's send list, both ways, exactly when no packet has both prefixes.
   */
  lemma TwoRuns(names: seq<string>, start: int, a: string, b: string)
    ensures var empty := Lists([], [], [], start);
      var x, y := Assign(empty, names, a, b), Assign(empty, names, b, a);
      && x.total == y.total && x.id == y.id
      && (x.recv == y.send <==> NoOverlap(x.total, a, b))
      && (x.send == y.recv <==> NoOverlap(x.total, a, b))
  {
    var empty := Lists([], [], [], start);
    var x, y := Assign(empty, names, a, b), Assign(empty, names, b, a);
    SameTotal(empty, empty, names, a, b);
    AssignSorts(empty, names, start, a, b);
    AssignSorts(empty, names, start, b, a);
    SelectSwaps(x.total, a, b);
    SelectSwaps(x.total, b, a);
    assert NoOverlap(x.total, a, b) <==> NoOverlap(x.total, b, a) by {
      assert forall k :: 0 <= k < |x.total| ==> Overlaps(x.total[k], a, b) == Overlaps(x.total[k], b, a);
    }
  }

  lemma CommonExtension(name: string, a: string, b: string)
    requires a <= name && b <= name
    ensures a <= b || b <= a
  {
    assert a == name[..|a|] && b == name[..|b|];
  }

  /** Some packet could have both prefixes exactly when one is a prefix of the other; REQ_ and ACK_ are not. */
  lemma PrefixesOverlap(a: string, b: string)
    ensures (exists p :: Overlaps(p, a, b)) <==> a <= b || b <= a
  {
    if p :| Overlaps(p, a, b) { CommonExtension(p.name, a, b); }
    if a <= b { assert Overlaps(Packet(b, 0), a, b); }
    if b <= a { assert Overlaps(Packet(a, 0), a, b); }
  }

  // ---------------------------------------------------------------------------------------
  // Nothing is missed

  /** The names with one of the prefixes, in order. */
  function Matching(names: seq<string>, a: string, b: string): seq<string> {
    if names == [] then []
    else (if a <= names[0] || b <= names[0] then [names[0]] else []) + Matching(names[1..], a, b)
  }

  /** Names numbered from `start`. */
  function Numbered(names: seq<string>, start: int): seq<Packet> {
    seq(|names|, k requires 0 <= k < |names| => Packet(names[k], start + k))
  }

  lemma NumberedCons(name: string, names: seq<string>, start: int)
    ensures Numbered([name] + names, start) == [Packet(name, start)] + Numbered(names, start + 1)
  {
  }

  /** The total holds exactly the declared names with a prefix, in order, numbered from the next id. */
  lemma {:induction false} TotalComplete(l: Lists, names: seq<string>, a: string, b: string)
    ensures Assign(l, names, a, b).total == l.total + Numbered(Matching(names, a, b), l.id)
    decreases |names|
  {
    if names == [] {
      assert l.total + Numbered([], l.id) == l.total;
    } else {
      var name, rest := names[0], names[1..];
      var p := Packet(name, l.id);
      if a <= name || b <= name {
        var t := l.total + [p];
        var next := if a <= name then Lists(l.recv + [p], l.send, t, l.id + 1) else Lists(l.recv, l.send + [p], t, l.id + 1);
        TotalComplete(next, rest, a, b);
        NumberedCons(name, Matching(rest, a, b), l.id);
        assert t + Numbered(Matching(rest, a, b), l.id + 1) == l.total + ([p] + Numbered(Matching(rest, a, b), l.id + 1));
      } else {
        TotalComplete(l, rest, a, b);
        assert [] + Matching(rest, a, b) == Matching(rest, a, b);
      }
    }
  }

  /** Reading stops at the first broken line and otherwise goes on: what follows adds its own names. */
  lemma {:induction false} DeclaredInOrder(x: seq<string>, y: seq<string>, upper: string -> string)
    ensures var (first, ok) := Declared(x, upper);
      Declared(x + y, upper) == if ok then (first + Declared(y, upper).0, Declared(y, upper).1) else (first, false)
    decreases |x|
  {
    if x == [] {
      assert x + y == y && [] + Declared(y, upper).0 == Declared(y, upper).0;
    } else {
      assert (x + y)[1..] == x[1..] + y;
      DeclaredInOrder(x[1..], y, upper);
      var line, d, e := ReadLine(x[0], upper), Declared(x[1..], upper).0, Declared(y, upper).0;
      if line.Name? { assert [line.name] + (d + e) == [line.name] + d + e; }
    }
  }

  /** What one line adds: nothing, its name, or the end of the run. */
  lemma DeclaredLine(line: string, upper: string -> string)
    ensures Declared([line], upper)
         == match ReadLine(line, upper)
            case Skipped => ([], true)
            case Broken => ([], false)
            case Name(name) => ([name], true)
  {
    assert Declared([line][1..], upper) == ([], true);
    var read := ReadLine(line, upper);
    if read.Name? { assert [read.name] + [] == [read.name]; }
  }

  predicate NoSpace(s: string) { forall i :: 0 <= i < |s| ==> !IsSpace(s[i]) }

  predicate AllSpace(s: string) { forall i :: 0 <= i < |s| ==> IsSpace(s[i]) }

  lemma {:induction false} WordsOfWord(word: string, w: string, t: string)
    requires NoSpace(word) && NoSpace(w)
    ensures Words(word, w + t) == Words(word + w, t)
    decreases |w|
  {
    if w == [] {
      assert w + t == t && word + w == word;
    } else {
      assert (w + t)[1..] == w[1..] + t && (w + t)[0] == w[0];
      WordsOfWord(word + [w[0]], w[1..], t);
      assert word + [w[0]] + w[1..] == word + w;
    }
  }

  lemma {:induction false} WordsOfGap(gap: string, t: string)
    requires AllSpace(gap)
    ensures Words([], gap + t) == Words([], t)
    decreases |gap|
  {
    if gap == [] {
      assert gap + t == t;
    } else {
      assert (gap + t)[1..] == gap[1..] + t;
      WordsOfGap(gap[1..], t);
    }
  }

  /** A word, a gap, and what follows. */
  lemma FirstWord(first: string, gap: string, t: string)
    requires first != [] && NoSpace(first) && AllSpace(gap) && (gap == [] ==> t == [])
    ensures Words([], first + (gap + t)) == [first] + Words([], t)
  {
    WordsOfWord([], first, gap + t);
    assert [] + first == first;
    if gap == [] {
      assert gap + t == [];
    } else {
      assert (gap + t)[1..] == gap[1..] + t;
      WordsOfGap(gap[1..], t);
    }
  }

  /**
   * A message line declares its second word: whatever stands between the first word and it, and
   * whatever follows it.
   */
  lemma SecondWordDeclared(first: string, gap: string, word: string, tail: string, upper: string -> string)
    requires "message" <= first && NoSpace(first) && gap != [] && AllSpace(gap)
    requires word != [] && NoSpace(word) && (tail != [] ==> IsSpace(tail[0]))
    ensures ReadLine(first + (gap + (word + tail)), upper) == Name(upper(word))
  {
    FirstWord(first, gap, word + tail);
    var cut := if tail == [] then [] else [tail[0]];
    var t := if tail == [] then [] else tail[1..];
    assert tail == cut + t;
    FirstWord(word, cut, t);
  }

  /** Without a second word the line breaks the run. */
  lemma NoSecondWord(first: string, gap: string, upper: string -> string)
    requires "message" <= first && NoSpace(first) && AllSpace(gap)
    ensures ReadLine(first + gap, upper) == Broken
  {
    FirstWord(first, gap, []);
    assert gap + [] == gap && [first] + Words([], []) == [first];
  }

  /** The white space at the front, and the rest. */
  lemma {:induction false} LeadingSpace(s: string) returns (gap: string, t: string)
    ensures s == gap + t && AllSpace(gap) && (t != [] ==> !IsSpace(t[0]))
  {
    if s == [] || !IsSpace(s[0]) {
      gap, t := [], s;
    } else {
      gap, t := LeadingSpace(s[1..]);
      gap := [s[0]] + gap;
    }
  }

  lemma {:induction false} LeadingWord(s: string) returns (word: string, t: string)
    ensures s == word + t && NoSpace(word) && (t != [] ==> IsSpace(t[0]))
    ensures s != [] && !IsSpace(s[0]) ==> word != []
  {
    if s == [] || IsSpace(s[0]) {
      word, t := [], s;
    } else {
      word, t := LeadingWord(s[1..]);
      word := [s[0]] + word;
    }
  }

  /** Every line is skipped, broken for want of a second word, or declares its second word. */
  lemma EveryLine(line: string, upper: string -> string)
    returns (first: string, gap: string, word: string, tail: string)
    ensures line == first + (gap + (word + tail)) && NoSpace(first) && AllSpace(gap) && NoSpace(word)
    ensures ReadLine(line, upper)
         == if !("message" <= line) then Skipped else if word == [] then Broken else Name(upper(word))
    ensures tail != [] ==> IsSpace(tail[0])
  {
    var rest, more;
    first, rest := LeadingWord(line);
    gap, more := LeadingSpace(rest);
    word, tail := LeadingWord(more);
    if "message" <= line {
      MessageFirst(line, first, rest);
      if word == [] {
        assert more == [] && gap + more == gap;
        NoSecondWord(first, gap, upper);
      } else {
        SecondWordDeclared(first, gap, word, tail, upper);
      }
    }
  }

  lemma MessageHasNoSpace(line: string, k: nat)
    requires "message" <= line && k < 7
    ensures !IsSpace(line[k])
  {
    assert line[k] == "message"[k];
  }

  lemma MessageFirst(line: string, first: string, rest: string)
    requires "message" <= line && line == first + rest && (rest != [] ==> IsSpace(rest[0]))
    ensures "message" <= first
  {
    if |first| < 7 { MessageHasNoSpace(line, |first|); }
  }
}
