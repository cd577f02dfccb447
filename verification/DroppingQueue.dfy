/** DroppingPacketQueue with the admission rules of its drop-tail and drop-head subclasses,
    and the plain queue that never drops. */
module DroppingQueue {
  import opened Packets

  /** What drop-tail keeps: the new packet if it fits, the old queue otherwise. */
  function DropTail(l: Limits, q: seq<Packet>, p: Packet): seq<Packet>
  {
    if Good(l, q + [p]) then q + [p] else q
  }

  /** What popping until the limits are met keeps. */
  function DropUntilGood(l: Limits, q: seq<Packet>): seq<Packet>
  {
    if Good(l, q) || q == [] then q else DropUntilGood(l, q[1..])
  }

  /** r is the longest suffix of q within the limits. */
  ghost predicate LongestGoodSuffix(l: Limits, q: seq<Packet>, r: seq<Packet>)
  {
    exists k: nat :: k <= |q| && r == q[k..] && Good(l, r) && forall j: nat :: j < k ==> !Good(l, q[j..])
  }

  lemma {:induction false} DropKeepsLongestSuffix(l: Limits, q: seq<Packet>)
    ensures LongestGoodSuffix(l, q, DropUntilGood(l, q))
  {
    if Good(l, q) || q == [] {
      assert q == q[0..];
    } else {
      var r := DropUntilGood(l, q[1..]);
      DropKeepsLongestSuffix(l, q[1..]);
      var k: nat :| k <= |q[1..]| && r == q[1..][k..] && Good(l, r) && forall j: nat :: j < k ==> !Good(l, q[1..][j..]);
      assert r == q[k + 1..];
      forall j: nat | j < k + 1 ensures !Good(l, q[j..])
      {
        if j == 0 {
          assert q[0..] == q;
        } else {
          assert q[1..][j - 1..] == q[j..];
        }
      }
    }
  }

  /** Popping the one packet that does not fit is enough, or none has to be popped. */
  predicate OneDropSuffices(l: Limits, q: seq<Packet>)
  {
    Good(l, q) || (q != [] && Good(l, q[1..]))
  }

  /** Without a byte limit, a queue within its limits never needs more than one pop. */
  lemma PacketLimitOneDrop(l: Limits, q: seq<Packet>, p: Packet)
    requires l.bytes == 0 && Good(l, q)
    ensures OneDropSuffices(l, q + [p])
  {
    assert |(q + [p])[1..]| == |q|;
  }

  function Filler(n: nat): Packet
  {
    Packet(seq(n, _ => 'x'), 0)
  }

  /** With one, a large packet may need several: under a limit of 1514 bytes, a full-sized packet
      behind three acknowledgements of 60 bytes fails the assertion after the first pop. */
  lemma LargePacketNeedsTwoDrops()
    ensures var l := Limits(0, 1514); var q := [Filler(60), Filler(60), Filler(60)];
      Good(l, q) && !OneDropSuffices(l, q + [Filler(1500)])
  {
    var small, large := Filler(60), Filler(1500);
    var q := [small, small, small];
    BytesOne(small);
    BytesOne(large);
    assert q == [small] + ([small] + [small]);
    BytesAppend([small], [small]);
    BytesAppend([small], [small] + [small]);
    BytesAppend(q, [large]);
    assert (q + [large])[1..] == [small] + [small] + [large];
    BytesAppend([small] + [small], [large]);
  }

  lemma BytesOne(p: Packet)
    ensures Bytes([p]) == |p.contents|
  {
    assert [p][1..] == [];
  }

  class InfinitePacketQueue {
    var internalQueue: seq<Packet>

    constructor ()
      ensures internalQueue == []
    {
      internalQueue := [];
    }

    method Enqueue(p: Packet)
      modifies this
      ensures internalQueue == old(internalQueue) + [p]
    {
      internalQueue := internalQueue + [p];
    }

    method Dequeue() returns (p: Packet)
      requires internalQueue != []
      modifies this
      ensures old(internalQueue) == [p] + internalQueue
    {
      p := internalQueue[0];
      internalQueue := internalQueue[1..];
    }
  }

  class DroppingPacketQueue {
    const limits: Limits
    var queueSizeInBytes: int
    var queueSizeInPackets: int
    var internalQueue: seq<Packet>

    /** The counters always equal what they count. */
    ghost predicate Valid()
      reads this
    {
      queueSizeInBytes == Bytes(internalQueue) && queueSizeInPackets == |internalQueue|
    }

    constructor (limits: Limits)
      requires limits.packets != 0 || limits.bytes != 0
      ensures Valid() && internalQueue == [] && this.limits == limits
    {
      this.limits := limits;
      queueSizeInBytes, queueSizeInPackets, internalQueue := 0, 0, [];
    }

    function SizeBytes(): (r: nat)
      requires Valid()
      reads this
      ensures r == Bytes(internalQueue)
    {
      queueSizeInBytes
    }

    function SizePackets(): (r: nat)
      requires Valid()
      reads this
      ensures r == |internalQueue|
    {
      queueSizeInPackets
    }

    predicate IsGood()
      requires Valid()
      reads this
      ensures IsGood() <==> Good(limits, internalQueue)
    {
      GoodWith(limits, SizeBytes(), SizePackets())
    }

    method Accept(p: Packet)
      requires Valid()
      modifies this
      ensures Valid() && internalQueue == old(internalQueue) + [p]
    {
      BytesAppend(internalQueue, [p]);
      BytesOne(p);
      queueSizeInBytes := queueSizeInBytes + |p.contents|;
      queueSizeInPackets := queueSizeInPackets + 1;
      internalQueue := internalQueue + [p];
    }

    /** dequeue; `good` is the outcome of the assertion that ends it. */
    method Dequeue() returns (p: Packet, good: bool)
      requires Valid() && internalQueue != []
      modifies this
      ensures Valid() && old(internalQueue) == [p] + internalQueue
      ensures good <==> Good(limits, internalQueue)
    {
      p := internalQueue[0];
      internalQueue := internalQueue[1..];
      queueSizeInBytes := queueSizeInBytes - |p.contents|;
      queueSizeInPackets := queueSizeInPackets - 1;
      good := IsGood();
    }

    /** DropTailPacketQueue::enqueue, which is also the enqueue of CoDel. */
    method EnqueueDropTail(p: Packet)
      requires Valid() && Good(limits, internalQueue)
      modifies this
      ensures Valid() && internalQueue == DropTail(limits, old(internalQueue), p)
      ensures Good(limits, internalQueue)
    {
      BytesAppend(internalQueue, [p]);
      BytesOne(p);
      if GoodWith(limits, SizeBytes() + |p.contents|, SizePackets() + 1) {
        Accept(p);
      }
      assert IsGood();
    }

    /** DropHeadPacketQueue::enqueue. Each pop ends in an assertion that the limits are met, so
        the call survives exactly when at most one packet has to go. */
    method EnqueueDropHead(p: Packet) returns (survives: bool)
      requires Valid()
      modifies this
      ensures Valid()
      ensures survives <==> OneDropSuffices(limits, old(internalQueue) + [p])
      ensures survives ==> internalQueue == DropUntilGood(limits, old(internalQueue) + [p])
      ensures survives ==> Good(limits, internalQueue)
    {
      Accept(p);
      ghost var all := internalQueue;
      while !IsGood()
        invariant Valid()
        invariant internalQueue == all 
          || (all != [] && !Good(limits, all) && internalQueue == all[1..] && Good(limits, internalQueue))
        decreases |internalQueue|
      {
        var dropped, good := Dequeue();
        if !good {
          return false;
        }
      }
      survives := true;
    }

    /** The same enqueue in a build that compiles assertions out: however many packets have to
        go, the longest suffix within the limits stays. */
    method EnqueueDropHeadUnchecked(p: Packet)
      requires Valid()
      modifies this
      ensures Valid() && Good(limits, internalQueue)
      ensures internalQueue == DropUntilGood(limits, old(internalQueue) + [p])
    {
      Accept(p);
      ghost var all := internalQueue;
      while !IsGood()
        invariant Valid()
        invariant DropUntilGood(limits, internalQueue) == DropUntilGood(limits, all)
        decreases |internalQueue|
      {
        var dropped, good := Dequeue();
      }
    }
  }
}
