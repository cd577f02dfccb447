/** What delivery opportunities do to the packets of a first-in first-out queue, and the
    closed form of it: a fluid of 1504 bytes per opportunity. */
module LinkService {
  import opened Packets

  datatype Departure = Departure(packet: Packet, time: nat)

  /** The packet being sent, the bytes of it still to send, those behind it, and those gone. */
  datatype Service = Service(transit: Packet, left: nat, queue: seq<Packet>, departed: seq<Departure>)

  ghost predicate Sizes(s: Service)
  {
    && s.left <= |s.transit.contents|
    && forall i :: 0 <= i < |s.queue| ==> s.queue[i].contents != ""
  }

  /** dequeue into the transit slot. */
  function Load(s: Service): Service
    requires s.queue != []
  {
    Service(s.queue[0], |s.queue[0].contents|, s.queue[1..], s.departed)
  }

  /** Send `amount` bytes; the packet departs when none is left. */
  function Send(s: Service, amount: nat, time: nat): Service
    requires amount <= s.left
  {
    s.(left := s.left - amount,
       departed := if s.left == amount then s.departed + [Departure(s.transit, time)] else s.departed)
  }

  function Min(a: nat, b: nat): nat
  {
    if a < b then a else b
  }

  /** The inner loop of rationalize, with `budget` bytes of the opportunity left. */
  function Fill(s: Service, budget: nat, time: nat): Service
    requires Sizes(s)
    decreases budget, |s.queue|
  {
    if budget == 0 then s
    else if s.left == 0 then
      if s.queue == [] then s else Fill(Load(s), budget, time)
    else
      var amount := Min(budget, s.left);
      Fill(Send(s, amount, time), budget - amount, time)
  }

  lemma FillLoads(s: Service, budget: nat, time: nat)
    requires Sizes(s) && budget > 0 && s.left == 0 && s.queue != []
    ensures Sizes(Load(s)) && Fill(s, budget, time) == Fill(Load(s), budget, time)
  {
  }

  lemma FillSends(s: Service, budget: nat, time: nat)
    requires Sizes(s) && budget > 0 && s.left > 0
    ensures var amount := Min(budget, s.left); var t := Send(s, amount, time);
      Sizes(t) && Fill(s, budget, time) == Fill(t, budget - amount, time)
  {
  }

  /** Opportunities at these times, one after the other. */
  function Serve(s: Service, times: seq<nat>): (t: Service)
    requires Sizes(s)
    ensures Sizes(t)
    decreases |times|
  {
    if times == [] then s
    else
      var t := Serve(s, times[..|times| - 1]);
      FillSizes(t, PACKET_SIZE, times[|times| - 1]);
      Fill(t, PACKET_SIZE, times[|times| - 1])
  }

  lemma {:induction false} FillSizes(s: Service, budget: nat, time: nat)
    requires Sizes(s)
    ensures Sizes(Fill(s, budget, time))
    decreases budget, |s.queue|
  {
    if budget > 0 {
      if s.left == 0 {
        if s.queue != [] {
          FillSizes(Load(s), budget, time);
        }
      } else {
        var amount := Min(budget, s.left);
        FillSizes(Send(s, amount, time), budget - amount, time);
      }
    }
  }

  /** ---- The fluid ---- */

  /** The packets still to depart, in order, and the bytes each still needs. */
  function Items(s: Service): seq<Packet>
  {
    (if s.left > 0 then [s.transit] else []) + s.queue
  }

  function QueueSizes(q: seq<Packet>): (r: seq<nat>)
    ensures |r| == |q| && forall i :: 0 <= i < |q| ==> r[i] == |q[i].contents|
  {
    seq(|q|, i requires 0 <= i < |q| => |q[i].contents|)
  }

  function Work(s: Service): (r: seq<nat>)
    ensures |r| == |Items(s)|
  {
    (if s.left > 0 then [s.left] else []) + QueueSizes(s.queue)
  }

  /** Bytes of the first n items. */
  function Sum(w: seq<nat>, n: nat): nat
    requires n <= |w|
  {
    if n == 0 then 0 else w[0] + Sum(w[1..], n - 1)
  }

  /** What `c` bytes of capacity leave of the work. */
  function Drain(w: seq<nat>, c: nat): (r: seq<nat>)
    ensures |r| <= |w|
    decreases |w|
  {
    if w == [] then []
    else if w[0] <= c then Drain(w[1..], c - w[0])
    else [w[0] - c] + w[1..]
  }

  /** Capacity may be spent in parts. */
  lemma {:induction false} DrainAdds(w: seq<nat>, a: nat, b: nat)
    ensures Drain(Drain(w, a), b) == Drain(w, a + b)
    decreases |w|
  {
    if w != [] {
      if w[0] <= a {
        DrainAdds(w[1..], a - w[0], b);
      } else {
        assert ([w[0] - a] + w[1..])[1..] == w[1..];
      }
    }
  }

  /** Exactly the longest prefix that fits is gone, and the next item lacks what the sum says. */
  lemma {:induction false} DrainExact(w: seq<nat>, c: nat)
    ensures var r := Drain(w, c); var n := |w| - |r|;
      && Sum(w, n) <= c
      && (n < |w| ==> c < Sum(w, n + 1) && r[0] == Sum(w, n + 1) - c && r[1..] == w[n + 1..])
    decreases |w|
  {
    if w != [] {
      if w[0] <= c {
        DrainExact(w[1..], c - w[0]);
        var n := |w[1..]| - |Drain(w[1..], c - w[0])|;
        if n < |w[1..]| {
          assert w[1..][n + 1..] == w[n + 2..];
        }
      } else {
        assert Sum(w, 0) == 0 && Sum(w, 1) == w[0] + Sum(w[1..], 0);
      }
    }
  }

  lemma {:induction false} SumMonotone(w: seq<nat>, i: nat, j: nat)
    requires i <= j <= |w|
    ensures Sum(w, i) <= Sum(w, j)
    decreases i
  {
    if i > 0 {
      SumMonotone(w[1..], i - 1, j - 1);
    }
  }

  /** What one opportunity does, as work: `more` departures at `time`, in order. */
  ghost predicate Served(s: Service, t: Service, capacity: nat, time: nat)
  {
    && Work(t) == Drain(Work(s), capacity)
    && Items(t) == Items(s)[|Items(s)| - |Items(t)|..]
    && |t.departed| == |s.departed| + |Items(s)| - |Items(t)|
    && t.departed[..|s.departed|] == s.departed
    && forall i :: |s.departed| <= i < |t.departed| ==>
         t.departed[i] == Departure(Items(s)[i - |s.departed|], time)
  }

  lemma LoadWork(s: Service)
    requires Sizes(s) && s.left == 0 && s.queue != []
    ensures Work(Load(s)) == Work(s) && Items(Load(s)) == Items(s) && Sizes(Load(s))
  {
    assert s.queue == [s.queue[0]] + s.queue[1..];
    assert QueueSizes(s.queue) == [|s.queue[0].contents|] + QueueSizes(s.queue[1..]);
  }

  lemma SendServed(s: Service, budget: nat, time: nat)
    requires Sizes(s) && s.left > 0 && budget > 0
    ensures var amount := Min(budget, s.left); var t := Send(s, amount, time);
      Sizes(t) && Served(s, t, amount, time) && (amount < budget ==> t.left == 0)
  {
    hide Served;
    if s.left <= budget {
      SendLast(s, time);
    } else {
      SendSome(s, budget, time);
    }
  }

  lemma SendLast(s: Service, time: nat)
    requires Sizes(s) && s.left > 0
    ensures Served(s, Send(s, s.left, time), s.left, time)
  {
    var t := Send(s, s.left, time);
    var w := Work(s);
    assert w[1..] == QueueSizes(s.queue);
    DrainNothing(QueueSizes(s.queue), s);
    assert Drain(w, s.left) == QueueSizes(s.queue);
    assert Items(s)[1..] == s.queue && Items(t) == s.queue;
  }

  lemma SendSome(s: Service, amount: nat, time: nat)
    requires Sizes(s) && amount < s.left
    ensures Served(s, Send(s, amount, time), amount, time)
  {
    var t := Send(s, amount, time);
    var w := Work(s);
    assert w[1..] == QueueSizes(s.queue);
    assert Drain(w, amount) == [s.left - amount] + QueueSizes(s.queue);
    assert Items(s)[0..] == Items(t);
  }

  lemma DrainNothing(w: seq<nat>, s: Service)
    requires Sizes(s) && w == QueueSizes(s.queue)
    ensures Drain(w, 0) == w
  {
    if w != [] {
      assert w == [w[0] - 0] + w[1..];
    }
  }

  lemma ServedTwice(s: Service, t: Service, u: Service, a: nat, b: nat, time: nat)
    requires Served(s, t, a, time) && Served(t, u, b, time)
    ensures Served(s, u, a + b, time)
  {
    hide Work;
    hide Items;
    hide Drain;
    DrainAdds(Work(s), a, b);
    var n := |Items(s)| - |Items(t)|;
    assert Items(s)[n..][|Items(t)| - |Items(u)|..] == Items(s)[|Items(s)| - |Items(u)|..];
    assert u.departed[..|s.departed|] == t.departed[..|s.departed|];
    forall i | |s.departed| <= i < |u.departed|
      ensures u.departed[i] == Departure(Items(s)[i - |s.departed|], time)
    {
      if i < |t.departed| {
        assert u.departed[..|t.departed|][i] == u.departed[i];
      } else {
        assert Items(t)[i - |t.departed|] == Items(s)[i - |s.departed|];
      }
    }
  }

  lemma ServedNothing(s: Service, time: nat)
    requires Work(s) == Drain(Work(s), 0)
    ensures Served(s, s, 0, time)
  {
    assert Items(s)[0..] == Items(s);
  }

  /** One opportunity is `budget` bytes of capacity. */
  lemma {:induction false} FillServed(s: Service, budget: nat, time: nat)
    requires Sizes(s)
    ensures Served(s, Fill(s, budget, time), budget, time)
    decreases budget, |s.queue|
  {
    hide Served;
    hide Work;
    hide Items;
    hide Sizes;
    var t := Fill(s, budget, time);
    if budget == 0 {
      IdleWork(s, 0);
      ServedNothing(s, time);
    } else if s.left == 0 {
      if s.queue == [] {
        EmptyServed(s, budget, time);
      } else {
        LoadWork(s);
        FillServed(Load(s), budget, time);
        SameItems(Load(s), s, t, budget, time);
      }
    } else {
      var amount := Min(budget, s.left);
      var u := Send(s, amount, time);
      SendServed(s, budget, time);
      FillServed(u, budget - amount, time);
      ServedTwice(s, u, t, amount, budget - amount, time);
    }
  }

  lemma IdleWork(s: Service, c: nat)
    requires Sizes(s)
    ensures Drain(Work(s), 0) == Work(s)
  {
    var w := Work(s);
    if w != [] {
      assert w == [w[0] - 0] + w[1..];
      if s.left == 0 {
        assert w[0] == |s.queue[0].contents|;
      }
    }
  }

  lemma EmptyServed(s: Service, budget: nat, time: nat)
    requires s.left == 0 && s.queue == []
    ensures Served(s, s, budget, time)
  {
    assert Work(s) == [] && Items(s) == [];
  }

  lemma SameItems(a: Service, b: Service, t: Service, c: nat, time: nat)
    requires Served(a, t, c, time)
    requires Work(a) == Work(b) && Items(a) == Items(b) && a.departed == b.departed
    ensures Served(b, t, c, time)
  {
    hide Work;
    hide Items;
    hide Drain;
  }

  /** ---- The closed form ---- */

  /** The opportunity, counted from one, at which cumulative byte number n leaves. */
  function Slot(n: nat): nat
  {
    (n + PACKET_SIZE - 1) / PACKET_SIZE
  }

  /** After |times| opportunities: the queue is drained of 1504 bytes for each, the i-th packet
      left at opportunity ceil( S_i / 1504 ), everything else is untouched. */
  ghost predicate ClosedForm(s: Service, times: seq<nat>, t: Service)
  {
    var w := Work(s);
    var n := |Items(s)| - |Items(t)|;
    && Work(t) == Drain(w, PACKET_SIZE * |times|)
    && n >= 0 && Items(t) == Items(s)[n..]
    && |t.departed| == |s.departed| + n
    && t.departed[..|s.departed|] == s.departed
    && forall i :: 0 <= i < n ==> LeftInSlot(s, times, t, i)
  }

  /** The i-th item left at the opportunity its cumulative size says. */
  ghost predicate LeftInSlot(s: Service, times: seq<nat>, t: Service, i: nat)
    requires i < |Items(s)| && |s.departed| + i < |t.departed|
  {
    var slot := Slot(Sum(Work(s), i + 1));
    1 <= slot <= |times| && t.departed[|s.departed| + i] == Departure(Items(s)[i], times[slot - 1])
  }

  lemma SlotIs(n: nat, k: nat)
    requires k >= 1 && PACKET_SIZE * (k - 1) < n <= PACKET_SIZE * k
    ensures Slot(n) == k
  {
  }

  lemma {:induction false} FifoClosedForm(s: Service, times: seq<nat>)
    requires Sizes(s)
    ensures ClosedForm(s, times, Serve(s, times))
    decreases |times|
  {
    hide Served;
    hide Slot;
    if times == [] {
      IdleWork(s, 0);
      assert Items(s)[0..] == Items(s);
    } else {
      var k := |times|;
      var before := times[..k - 1];
      var t := Serve(s, before);
      FifoClosedForm(s, before);
      FillServed(t, PACKET_SIZE, times[k - 1]);
      OneMoreSlot(s, times, t, Serve(s, times));
    }
  }

  lemma OneMoreSlot(s: Service, times: seq<nat>, t: Service, u: Service)
    requires times != [] && ClosedForm(s, times[..|times| - 1], t)
    requires Served(t, u, PACKET_SIZE, times[|times| - 1])
    ensures ClosedForm(s, times, u)
  {
    hide Slot;
    hide Work;
    hide Items;
    var k, w := |times|, Work(s);
    var n, m := |Items(s)| - |Items(t)|, |Items(s)| - |Items(u)|;
    DrainAdds(w, PACKET_SIZE * (k - 1), PACKET_SIZE);
    assert PACKET_SIZE * (k - 1) + PACKET_SIZE == PACKET_SIZE * k;
    assert Items(s)[n..][m - n..] == Items(s)[m..];
    assert u.departed[..|s.departed|] == t.departed[..|s.departed|];
    forall i | 0 <= i < m
      ensures LeftInSlot(s, times, u, i)
    {
      if i < n {
        assert LeftInSlot(s, times[..k - 1], t, i);
        assert u.departed[..|t.departed|][|s.departed| + i] == u.departed[|s.departed| + i];
      } else {
        LeavesLast(w, k, n, m, i);
        assert Items(t)[i - n] == Items(s)[i];
      }
    }
  }

  lemma LeavesLast(w: seq<nat>, k: nat, n: nat, m: nat, i: nat)
    requires k >= 1 && n <= i < m <= |w|
    requires n == |w| - |Drain(w, PACKET_SIZE * (k - 1))| && m == |w| - |Drain(w, PACKET_SIZE * k)|
    ensures Slot(Sum(w, i + 1)) == k
  {
    DrainExact(w, PACKET_SIZE * (k - 1));
    DrainExact(w, PACKET_SIZE * k);
    SumMonotone(w, n + 1, i + 1);
    SumMonotone(w, i + 1, m);
    SlotIs(Sum(w, i + 1), k);
  }

  /** The count in the closed form is the longest prefix that 1504 bytes for each opportunity
      can carry, and the next packet lacks exactly what the formula leaves. */
  lemma FifoLongestPrefix(s: Service, times: seq<nat>)
    requires Sizes(s)
    ensures var t := Serve(s, times); var n := |t.departed| - |s.departed|; var w := Work(s);
      && 0 <= n <= |w|
      && Sum(w, n) <= PACKET_SIZE * |times|
      && |Work(t)| == |w| - n
      && (n < |w| ==> PACKET_SIZE * |times| < Sum(w, n + 1)
                      && Work(t)[0] == Sum(w, n + 1) - PACKET_SIZE * |times|)
  {
    hide Serve;
    FifoClosedForm(s, times);
    DrainExact(Work(s), PACKET_SIZE * |times|);
  }
}
