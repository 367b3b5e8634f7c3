/** The overlapped send event (NetWork/IocpEvent.h): a list of buffers and a cursor into it. */
module SendEvents {
  import opened Bytes

  /** The bytes of `bs` from offset `off` of buffer `i` on. */
  ghost function Rest(bs: seq<Buffer>, i: nat, off: nat): seq<byte>
    requires i <= |bs| && (i < |bs| ==> off <= |bs[i]|)
  {
    if i == |bs| then [] else bs[i][off..] + Flat(bs[i + 1..])
  }

  lemma RestStep(bs: seq<Buffer>, i: nat, off: nat)
    requires i < |bs| && off <= |bs[i]|
    ensures Rest(bs, i, off) == bs[i][off..] + Rest(bs, i + 1, 0)
  {
    if i + 1 < |bs| {
      assert bs[i + 1..][0] == bs[i + 1] && bs[i + 1..][1..] == bs[i + 2..];
      assert bs[i + 1][0..] == bs[i + 1];
    }
  }

  lemma RestAdvance(bs: seq<Buffer>, i: nat, off: nat, k: nat)
    requires i < |bs| && off + k <= |bs[i]|
    ensures k <= |Rest(bs, i, off)|
    ensures Rest(bs, i, off)[k..] == if off + k < |bs[i]| then Rest(bs, i, off + k) else Rest(bs, i + 1, 0)
  {
    var b, rest := bs[i], Rest(bs, i + 1, 0);
    RestStep(bs, i, off);
    RestStep(bs, i, off + k);
    DropDrop(b, off, k);
    DropFront(b[off..], rest, k);
    if off + k == |b| { assert b[off + k..] + rest == rest; }
  }

  class SendEvent {
    var buffers: seq<Buffer>
    var index: nat
    var offset: nat

    ghost predicate Valid()
      reads this
    {
      && index <= |buffers|
      && (index < |buffers| ==> offset < |buffers[index]|)
      && (index == |buffers| ==> offset == 0)
    }

    /** The bytes the kernel has not acknowledged yet, in order. */
    ghost function Remaining(): (r: seq<byte>)
      requires Valid()
      reads this
    {
      Rest(buffers, index, offset)
    }

    constructor ()
      ensures Valid() && Remaining() == []
    {
      buffers, index, offset := [], 0, 0;
    }

    method Clear()
      modifies this
      ensures Valid() && Remaining() == []
    {
      buffers, index, offset := [], 0, 0;
    }

    method Push(b: Buffer)
      requires Valid()
      modifies this
      ensures Valid() && Remaining() == old(Remaining()) + b
    {
      ghost var before := buffers;
      buffers := buffers + [b];
      if index < |before| {
        FlatSnoc(before[index + 1..], b);
        assert buffers[index + 1..] == before[index + 1..] + [b];
      } else {
        assert buffers[index + 1..] == [];
      }
    }

    method HasPendingData() returns (pending: bool)
      requires Valid()
      ensures pending <==> Remaining() != []
    {
      pending := index < |buffers|;
      assert pending ==> Remaining()[0] == buffers[index][offset];
    }

    /** One descriptor per unfinished buffer; together they expose exactly the remaining bytes. */
    method BuildWsabufs() returns (wsabufs: seq<seq<byte>>)
      requires Valid()
      ensures Flat(wsabufs) == Remaining()
      ensures |wsabufs| == |buffers| - index
      ensures forall k :: 0 <= k < |wsabufs| ==> wsabufs[k] != []
    {
      wsabufs := [];
      var i := index;
      while i < |buffers|
        invariant index <= i <= |buffers|
        invariant |wsabufs| == i - index
        invariant forall k :: 0 <= k < |wsabufs| ==>
          wsabufs[k] == if k == 0 then buffers[index][offset..] else buffers[index + k]
      {
        var from := if i == index then offset else 0;
        wsabufs := wsabufs + [buffers[i][from..]];
        i := i + 1;
      }
      if wsabufs != [] {
        assert wsabufs[1..] == buffers[index + 1..];
      }
    }

    /** The 64-bit sum of lines 80-84: the number of bytes still to acknowledge. */
    method CountRemaining() returns (remaining: nat)
      requires Valid()
      ensures remaining == |Remaining()|
    {
      var sum := 0;
      var i := index;
      while i < |buffers|
        invariant index <= i <= |buffers|
        invariant sum + |Rest(buffers, i, 0)| == |Rest(buffers, index, 0)|
      {
        RestStep(buffers, i, 0);
        sum := sum + |buffers[i]|;
        i := i + 1;
      }
      remaining := sum - offset;
    }

    /** One turn of the loop of lines 90-101: `left` bytes to acknowledge, in this buffer or past it. */
    method AdvanceCursor(left: nat) returns (rest: nat)
      requires Valid() && 0 < left <= |Remaining()|
      modifies this`index, this`offset
      ensures Valid() && rest < left
      ensures Remaining() == old(Remaining())[left - rest..]
    {
      var available := |buffers[index]| - offset;
      RestAdvance(buffers, index, offset, Min(left, available));
      if left < available {
        offset := offset + left;
        return 0;
      }
      rest := left - available;
      index, offset := index + 1, 0;
    }

    /**
     * Acknowledge `n` bytes: refused exactly when n is zero or more than what remains, and
     * otherwise the first n remaining bytes are gone, across as many buffer borders as it takes.
     */
    method ConsumeSentBytes(n: nat) returns (ok: bool)
      requires Valid()
      modifies this
      ensures Valid() && buffers == old(buffers)
      ensures ok <==> 0 < n <= |old(Remaining())|
      ensures Remaining() == if ok then old(Remaining())[n..] else old(Remaining())
    {
      if n == 0 { return false; }
      var remaining := CountRemaining();
      if n > remaining { return false; }

      ghost var all := Remaining();
      var left := n;
      while left > 0
        invariant Valid() && buffers == old(buffers)
        invariant 0 <= left <= n <= |all|
        invariant Remaining() == all[n - left..]
      {
        ghost var before := left;
        left := AdvanceCursor(left);
        DropDrop(all, n - before, before - left);
      }
      return true;
    }
  }
}
