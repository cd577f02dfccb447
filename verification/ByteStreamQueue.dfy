/** The ring buffer that carries a byte stream between two file descriptors. */
module ByteStreamQueue {

  datatype Result = Success | EndOfFile

  /** The unread bytes of a ring: from the read position up to the write position, around the
      end if need be. */
  function Ring(s: string, push: nat, pop: nat): string
    requires push <= |s| && pop <= |s|
  {
    if pop <= push then s[pop..push] else s[pop..] + s[..push]
  }

  function Wrap(i: nat, size: nat): nat
  {
    if i == size then 0 else i
  }

  /** Writing into the free span after the write position appends to the unread bytes. */
  lemma RingPush(s: string, t: string, push: nat, pop: nat, chunk: string)
    requires push < |s| && pop < |s| && |t| == |s| && push + |chunk| <= |s|
    requires pop <= push ==> push + |chunk| < |s| || pop > 0
    requires push < pop ==> push + |chunk| < pop
    requires t == s[..push] + chunk + s[push + |chunk|..]
    ensures Ring(t, Wrap(push + |chunk|, |s|), pop) == Ring(s, push, pop) + chunk
  {
    var end := push + |chunk|;
    assert t[push..end] == chunk;
    assert t[..push] == s[..push];
    if pop <= push {
      assert t[pop..end] == s[pop..push] + chunk;
      if end == |s| {
        assert t[pop..] + t[..0] == t[pop..end];
      }
    } else {
      assert t[pop..] == s[pop..];
      assert t[..end] == t[..push] + t[push..end];
      assert t[pop..] + t[..end] == s[pop..] + s[..push] + chunk;
    }
  }

  /** Reading from the read position takes the unread bytes off their front. */
  lemma RingPop(s: string, push: nat, pop: nat, count: nat)
    requires push < |s| && pop < |s| && pop + count <= |s| && count <= |Ring(s, push, pop)|
    ensures s[pop..pop + count] == Ring(s, push, pop)[..count]
    ensures Ring(s, push, Wrap(pop + count, |s|)) == Ring(s, push, pop)[count..]
  {
    var r, end := Ring(s, push, pop), pop + count;
    if pop <= push {
      assert r[..count] == s[pop..end] && r[count..] == s[end..push];
    } else {
      assert s[pop..] == s[pop..end] + s[end..];
      assert r == s[pop..end] + (s[end..] + s[..push]);
      if end == |s| {
        assert s[end..] + s[..push] == s[0..push];
      }
    }
  }

  class ByteStreamQueue {
    const buffer: array<char>
    var nextByteToPush: nat
    var nextByteToPop: nat
    ghost var pushed: string    // every byte ever pushed
    ghost var popped: string    // every byte ever popped

    /** The bytes pushed but not yet popped. */
    ghost function Contents(): (s: string)
      reads this, buffer
      requires nextByteToPush <= buffer.Length && nextByteToPop <= buffer.Length
    {
      Ring(buffer[..], nextByteToPush, nextByteToPop)
    }

    /** Bytes come out as they went in: those pushed are those popped and the contents. */
    ghost predicate Valid()
      reads this, buffer
    {
      && buffer.Length > 1
      && nextByteToPush < buffer.Length && nextByteToPop < buffer.Length
      && pushed == popped + Contents()
    }

    constructor (size: nat)
      requires size > 1
      ensures Valid() && fresh(buffer) && buffer.Length == size
      ensures pushed == "" && popped == "" && Contents() == ""
    {
      buffer := new char[size](_ => '\0');
      nextByteToPush, nextByteToPop := 0, 0;
      pushed, popped := "", "";
    }

    /** available_to_pop */
    function AvailableToPop(): (n: nat)
      requires Valid()
      reads this, buffer
      ensures n == |Contents()|
    {
      nextByteToPush - nextByteToPop + (if nextByteToPop > nextByteToPush then buffer.Length else 0)
    }

    /** available_to_push: one byte always stays free. */
    function AvailableToPush(): (n: nat)
      requires Valid()
      reads this, buffer
      ensures n + |Contents()| == buffer.Length - 1
    {
      nextByteToPop - nextByteToPush - 1 + (if nextByteToPop > nextByteToPush then 0 else buffer.Length)
    }

    /** How many bytes `push` asks the descriptor for. */
    function ContiguousSpaceToPush(): (n: nat)
      requires Valid()
      reads this, buffer
      ensures n <= AvailableToPush() && nextByteToPush + n <= buffer.Length
      ensures AvailableToPush() > 0 ==> n > 0
    {
      if nextByteToPush + AvailableToPush() >= buffer.Length then buffer.Length - nextByteToPush
      else AvailableToPush()
    }

    /** How many bytes `pop` offers the descriptor. */
    function ContiguousSpaceToPop(): (n: nat)
      requires Valid()
      reads this, buffer
      ensures n <= AvailableToPop() && nextByteToPop + n <= buffer.Length
      ensures AvailableToPop() > 0 ==> n > 0
    {
      if nextByteToPop + AvailableToPop() >= buffer.Length then buffer.Length - nextByteToPop
      else AvailableToPop()
    }

    /** push, where the read returned `newChunk`: anything up to what was asked for, and nothing
        at the end of the file. */
    method Push(newChunk: string) returns (r: Result)
      requires Valid() && AvailableToPush() > 0 && |newChunk| <= ContiguousSpaceToPush()
      modifies this, buffer
      ensures Valid() && Contents() == old(Contents()) + newChunk
      ensures pushed == old(pushed) + newChunk && popped == old(popped)
      ensures r == EndOfFile <==> newChunk == ""
      ensures r == Success ==> AvailableToPop() > 0
    {
      if newChunk == "" {
        return EndOfFile;
      }
      hide Ring;
      ghost var before := buffer[..];
      CopyIn(newChunk);
      RingPush(before, buffer[..], nextByteToPush, nextByteToPop, newChunk);
      nextByteToPush := nextByteToPush + |newChunk|;
      if nextByteToPush == buffer.Length {
        nextByteToPush := 0;
      }
      pushed := pushed + newChunk;
      assert Contents() == Ring(before, old(nextByteToPush), nextByteToPop) + newChunk;
      assert pushed == popped + Contents();
      r := Success;
    }

    /** memcpy into the free span, which overruns neither the array nor unread bytes. */
    method CopyIn(newChunk: string)
      requires nextByteToPush + |newChunk| <= buffer.Length
      modifies buffer
      ensures buffer[..] == old(buffer[..nextByteToPush]) + newChunk + old(buffer[nextByteToPush + |newChunk|..])
    {
      forall i | 0 <= i < |newChunk| {
        buffer[nextByteToPush + i] := newChunk[i];
      }
    }

    /** pop, where the write took `count` of the bytes offered: at least one. */
    method Pop(count: nat) returns (output: string)
      requires Valid() && AvailableToPop() > 0 && 1 <= count <= ContiguousSpaceToPop()
      modifies this
      ensures Valid() && output + Contents() == old(Contents()) && |output| == count
      ensures popped == old(popped) + output && pushed == old(pushed)
    {
      hide Ring;
      RingPop(buffer[..], nextByteToPush, nextByteToPop, count);
      output := buffer[nextByteToPop..nextByteToPop + count];
      assert output == buffer[..][nextByteToPop..nextByteToPop + count];
      nextByteToPop := nextByteToPop + count;
      if nextByteToPop == buffer.Length {
        nextByteToPop := 0;
      }
      popped := popped + output;
      assert output + Contents() == old(Contents());
    }
  }
}
