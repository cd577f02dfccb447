/** The limits of the dropping queues over whole runs: never exceeded, and reached. */
module QueueLimits {
  import opened Packets
  import opened DroppingQueue

  datatype Event = Arrive(p: Packet) | Depart

  /** At most that many packets and that many bytes; zero is no limit. */
  ghost predicate Within(l: Limits, q: seq<Packet>)
  {
    (l.packets != 0 ==> |q| <= l.packets) && (l.bytes != 0 ==> Bytes(q) <= l.bytes)
  }

  function Pop(q: seq<Packet>): seq<Packet>
  {
    if q == [] then q else q[1..]
  }

  /** A drop-tail queue, which CoDel's is too as far as arrivals are concerned. */
  function RunTail(l: Limits, q: seq<Packet>, events: seq<Event>): seq<Packet>
    decreases |events|
  {
    if events == [] then q
    else RunTail(l, if events[0].Arrive? then DropTail(l, q, events[0].p) else Pop(q), events[1..])
  }

  /** A drop-head queue whose assertions do not stop it. */
  function RunHead(l: Limits, q: seq<Packet>, events: seq<Event>): seq<Packet>
    decreases |events|
  {
    if events == [] then q
    else RunHead(l, if events[0].Arrive? then DropUntilGood(l, q + [events[0].p]) else Pop(q), events[1..])
  }

  lemma SuffixWithin(l: Limits, q: seq<Packet>, k: nat)
    requires k <= |q| && Within(l, q)
    ensures Within(l, q[k..])
  {
    SuffixGood(l, q, k);
  }

  /** Over every run neither queue exceeds its limits. */
  lemma {:induction false} RunWithin(l: Limits, q: seq<Packet>, events: seq<Event>)
    requires Within(l, q)
    ensures Within(l, RunTail(l, q, events)) && Within(l, RunHead(l, q, events))
    decreases |events|
  {
    hide DropUntilGood;
    if events != [] {
      if events[0].Arrive? {
        DropKeepsLongestSuffix(l, q + [events[0].p]);
        RunWithin(l, DropTail(l, q, events[0].p), events[1..]);
        RunWithin(l, DropUntilGood(l, q + [events[0].p]), events[1..]);
      } else {
        if q != [] {
          SuffixWithin(l, q, 1);
        }
        RunWithin(l, Pop(q), events[1..]);
      }
    }
  }

  /** What the queues test before and after is exactly that. */
  lemma GoodIsWithin(l: Limits, q: seq<Packet>)
    ensures Good(l, q) <==> Within(l, q)
  {
  }

  /** Drop-tail accepts a packet exactly when the limits, itself included, allow it. */
  lemma AcceptsExactly(l: Limits, q: seq<Packet>, p: Packet)
    ensures DropTail(l, q, p) == q + [p] <==> Within(l, q + [p])
    ensures !Within(l, q + [p]) ==> DropTail(l, q, p) == q
  {
  }

  function Arrivals(ps: seq<Packet>): (r: seq<Event>)
    ensures |r| == |ps| && forall i :: 0 <= i < |ps| ==> r[i] == Arrive(ps[i])
  {
    seq(|ps|, i requires 0 <= i < |ps| => Arrive(ps[i]))
  }

  lemma PrefixWithin(l: Limits, q: seq<Packet>, r: seq<Packet>)
    requires Within(l, q + r)
    ensures Within(l, q)
  {
    BytesAppend(q, r);
  }

  /** Packets that are together within the limits are all kept, by either queue. */
  lemma {:induction false} FillsUp(l: Limits, q: seq<Packet>, ps: seq<Packet>)
    requires Within(l, q + ps)
    ensures RunTail(l, q, Arrivals(ps)) == q + ps && RunHead(l, q, Arrivals(ps)) == q + ps
    decreases |ps|
  {
    if ps == [] {
      assert q + ps == q;
    } else {
      assert q + ps == (q + [ps[0]]) + ps[1..];
      PrefixWithin(l, q + [ps[0]], ps[1..]);
      assert Arrivals(ps)[1..] == Arrivals(ps[1..]);
      FillsUp(l, q + [ps[0]], ps[1..]);
    }
  }

  /** A limit of n bytes is reached: packets of n bytes in all fill the queue, and with a further one
      something has to go. */
  lemma ByteLimitReached(n: nat, ps: seq<Packet>, p: Packet)
    requires n > 0 && Bytes(ps) == n && p.contents != ""
    ensures RunTail(Limits(0, n), [], Arrivals(ps)) == ps && DropTail(Limits(0, n), ps, p) == ps
    ensures RunHead(Limits(0, n), [], Arrivals(ps)) == ps && DropUntilGood(Limits(0, n), ps + [p]) != ps + [p]
  {
    assert [] + ps == ps;
    FillsUp(Limits(0, n), [], ps);
    BytesAppend(ps, [p]);
    BytesOne(p);
    hide DropUntilGood;
    DropKeepsLongestSuffix(Limits(0, n), ps + [p]);
  }

  /** The last n packets, or all of them. */
  function Newest(n: nat, q: seq<Packet>): seq<Packet>
  {
    if |q| <= n then q else q[|q| - n..]
  }

  lemma NewestTwice(n: nat, q: seq<Packet>, r: seq<Packet>)
    ensures Newest(n, Newest(n, q) + r) == Newest(n, q + r)
  {
  }

  lemma OneOverDropped(n: nat, q: seq<Packet>)
    requires n > 0 && |q| <= n + 1
    ensures DropUntilGood(Limits(n, 0), q) == Newest(n, q)
  {
    if |q| == n + 1 {
      assert Good(Limits(n, 0), q[1..]) && !Good(Limits(n, 0), q);
    }
  }

  lemma FullRefuses(n: nat, q: seq<Packet>, p: Packet)
    requires n > 0 && |q| == n
    ensures DropTail(Limits(n, 0), q, p) == q
  {
  }

  lemma OldestGone(n: nat, q: seq<Packet>, p: Packet)
    requires n > 0 && |q| == n
    ensures Newest(n, q + [p]) == q[1..] + [p]
  {
  }

  /** A limit of n packets is reached: n arrivals fill the queue, and a further packet is refused by
      drop-tail and displaces the oldest in drop-head. */
  lemma LimitReached(n: nat, ps: seq<Packet>, p: Packet)
    requires n > 0 && |ps| == n
    ensures RunTail(Limits(n, 0), [], Arrivals(ps)) == ps && DropTail(Limits(n, 0), ps, p) == ps
    ensures RunHead(Limits(n, 0), [], Arrivals(ps)) == ps && DropUntilGood(Limits(n, 0), ps + [p]) == ps[1..] + [p]
  {
    hide RunTail;
    hide RunHead;
    hide DropTail;
    hide DropUntilGood;
    hide Newest;
    hide Bytes;
    assert [] + ps == ps;
    FillsUp(Limits(n, 0), [], ps);
    FullRefuses(n, ps, p);
    OneOverDropped(n, ps + [p]);
    OldestGone(n, ps, p);
  }

  /** Under a packet limit a drop-head queue holds the newest packets, in order. */
  lemma {:induction false} NewestKept(n: nat, q: seq<Packet>, ps: seq<Packet>)
    requires n > 0 && |q| <= n
    ensures RunHead(Limits(n, 0), q, Arrivals(ps)) == Newest(n, q + ps)
    decreases |ps|
  {
    hide DropUntilGood;
    if ps == [] {
      assert q + ps == q;
    } else {
      var next := q + [ps[0]];
      assert Arrivals(ps)[1..] == Arrivals(ps[1..]);
      assert q + ps == next + ps[1..];
      OneOverDropped(n, next);
      NewestKept(n, Newest(n, next), ps[1..]);
      hide Newest;
      NewestTwice(n, next, ps[1..]);
    }
  }
}
