/** What the link remembers of its run: which packets arrived, were taken from the queue and
    left, and how each of these records may grow. */
module LinkHistory {
  import opened Packets
  import opened LinkService
  import PacketQueue

  /** One delivery opportunity: when it fell, the bytes it carried, and the packets that were
      still waiting, in transit or in the queue, at its end. */
  datatype Opportunity = Opportunity(time: nat, carried: nat, waiting: seq<Packet>)

  /** `a` is `b` at the positions `f`, which rise. */
  ghost predicate Picks(a: seq<Packet>, b: seq<Packet>, f: seq<nat>)
  {
    && |f| == |a|
    && (forall i :: 0 <= i < |f| ==> f[i] < |b| && a[i] == b[f[i]])
    && (forall i, j :: 0 <= i < j < |f| ==> f[i] < f[j])
  }

  /** `a` is `b` without some of its packets: the rest keep their order, none is new and none
      appears twice. */
  ghost predicate Subsequence(a: seq<Packet>, b: seq<Packet>)
  {
    exists f: seq<nat> :: Picks(a, b, f)
  }

  lemma SubsequenceOfItself(a: seq<Packet>)
    ensures Subsequence(a, a)
  {
    assert Picks(a, a, seq<nat>(|a|, i => i));
  }

  lemma SubsequenceTransitive(a: seq<Packet>, b: seq<Packet>, c: seq<Packet>)
    requires Subsequence(a, b) && Subsequence(b, c)
    ensures Subsequence(a, c)
  {
    var f: seq<nat> :| Picks(a, b, f);
    var g: seq<nat> :| Picks(b, c, g);
    assert Picks(a, c, seq<nat>(|a|, i requires 0 <= i < |a| => g[f[i]]));
  }

  /** Both grow by the same packet. */
  lemma SubsequenceGrows(a: seq<Packet>, b: seq<Packet>, p: Packet)
    requires Subsequence(a, b)
    ensures Subsequence(a + [p], b + [p])
  {
    var f: seq<nat> :| Picks(a, b, f);
    assert Picks(a + [p], b + [p], f + [|b|]);
  }

  /** Behind what was taken, packets are lost from the front of the queue only. */
  lemma SuffixSubsequence(taken: seq<Packet>, after: seq<Packet>, before: seq<Packet>)
    requires PacketQueue.SuffixOf(after, before)
    ensures Subsequence(taken + after, taken + before)
  {
    var k, n := |before| - |after|, |taken|;
    var f := seq<nat>(n + |after|, i requires 0 <= i < n + |after| => if i < n then i else i + k);
    assert Picks(taken + after, taken + before, f);
  }

  /** The packets taken from the queue and those in it are packets that arrived, in the order
      in which they arrived; all of them, if the queue never drops one. */
  ghost predicate Drawn(lossless: bool, line: seq<Packet>, arrived: seq<Packet>)
  {
    Subsequence(line, arrived) && (lossless ==> line == arrived)
  }

  lemma DrawnProgress(lossless: bool, line: seq<Packet>, after: seq<Packet>, arrived: seq<Packet>)
    requires Drawn(lossless, line, arrived) && Subsequence(after, line) && (lossless ==> after == line)
    ensures Drawn(lossless, after, arrived)
  {
    SubsequenceTransitive(after, line, arrived);
  }

  /** A packet arrives; the queue may refuse it, or drop packets from its front. */
  lemma DrawnArrive(lossless: bool, taken: seq<Packet>, q: seq<Packet>, after: seq<Packet>,
                    p: Packet, arrived: seq<Packet>)
    requires Drawn(lossless, taken + q, arrived) && (lossless ==> after == q + [p])
    requires after == q || PacketQueue.SuffixOf(after, q + [p])
    ensures Drawn(lossless, taken + after, arrived + [p])
  {
    SubsequenceGrows(taken + q, arrived, p);
    assert (taken + q) + [p] == taken + (q + [p]);
    if after == q {
      assert Picks(taken + q, taken + (q + [p]), seq<nat>(|taken + q|, i => i));
    } else {
      SuffixSubsequence(taken, after, q + [p]);
    }
    SubsequenceTransitive(taken + after, taken + (q + [p]), arrived + [p]);
  }

  /** What was taken from the queue, what left, what is ready to be written, and the queue. */
  datatype History = History(taken: seq<Packet>, departed: seq<Departure>, output: seq<string>, queue: seq<Packet>)

  /** Serving only adds to the records, and takes packets off the front of the queue or drops
      them. */
  ghost predicate Progress(a: History, b: History)
  {
    && a.taken <= b.taken && a.departed <= b.departed && a.output <= b.output
    && Subsequence(b.taken + b.queue, a.taken + a.queue)
  }

  lemma NoProgress(a: History)
    ensures Progress(a, a)
  {
    SubsequenceOfItself(a.taken + a.queue);
  }

  lemma ProgressTransitive(a: History, b: History, c: History)
    requires Progress(a, b) && Progress(b, c)
    ensures Progress(a, c)
  {
    SubsequenceTransitive(c.taken + c.queue, b.taken + b.queue, a.taken + a.queue);
  }

  /** The head of the queue is taken, whatever else the queue drops behind it. */
  lemma DrawnLoad(lossless: bool, a: History, rest: seq<Packet>, arrived: seq<Packet>)
    requires Drawn(lossless, a.taken + a.queue, arrived) && a.queue != []
    requires PacketQueue.SuffixOf(rest, a.queue[1..]) && (lossless ==> rest == a.queue[1..])
    ensures var b := a.(taken := a.taken + [a.queue[0]], queue := rest);
      Progress(a, b) && Drawn(lossless, b.taken + rest, arrived)
  {
    hide Subsequence;
    var taken := a.taken + [a.queue[0]];
    SuffixSubsequence(taken, rest, a.queue[1..]);
    assert taken + a.queue[1..] == a.taken + a.queue;
    DrawnProgress(lossless, a.taken + a.queue, taken + rest, arrived);
  }

  /** The departures from the one numbered `from` on are at `time`. */
  ghost predicate Stamped(d: seq<Departure>, from: nat, time: nat)
  {
    forall i :: from <= i < |d| ==> d[i].time == time
  }

  lemma StampedNone(d: seq<Departure>, time: nat)
    ensures Stamped(d, |d|, time)
  {
  }

  lemma StampedOn(a: History, b: History, c: History, time: nat)
    requires Progress(a, b) && Progress(b, c)
    requires Stamped(b.departed, |a.departed|, time) && Stamped(c.departed, |b.departed|, time)
    ensures Stamped(c.departed, |a.departed|, time)
  {
  }

  /** A delivery opportunity fell then. */
  ghost predicate Fell(time: nat, slots: seq<Opportunity>)
  {
    exists k :: 0 <= k < |slots| && slots[k].time == time
  }

  /** Packets leave only at delivery opportunities. */
  ghost predicate OnTime(d: seq<Departure>, slots: seq<Opportunity>)
  {
    forall i :: 0 <= i < |d| ==> Fell(d[i].time, slots)
  }

  lemma OnTimeMore(d: seq<Departure>, e: seq<Departure>, slots: seq<Opportunity>, slot: Opportunity)
    requires OnTime(d, slots) && d <= e && Stamped(e, |d|, slot.time)
    ensures OnTime(e, slots + [slot])
  {
    var more := slots + [slot];
    forall i | 0 <= i < |e| ensures Fell(e[i].time, more)
    {
      if i < |d| {
        assert Fell(d[i].time, slots);
        var k :| 0 <= k < |slots| && slots[k].time == d[i].time;
        assert more[k].time == e[i].time;
      } else {
        assert more[|slots|].time == e[i].time;
      }
    }
  }

  ghost predicate DepartedBy(d: seq<Departure>, time: nat)
  {
    forall i :: 0 <= i < |d| ==> d[i].time <= time
  }

  ghost predicate SlotsBy(slots: seq<Opportunity>, time: nat)
  {
    forall i :: 0 <= i < |slots| ==> slots[i].time <= time
  }

  /** Those that left are the first of those taken. */
  ghost predicate Leading(a: History)
  {
    |a.departed| <= |a.taken| && forall i :: 0 <= i < |a.departed| ==> a.departed[i].packet == a.taken[i]
  }

  /** Whatever is still to leave, and whatever left after `time`, had not arrived before it. */
  ghost predicate NothingOlder(a: History, time: nat)
  {
    var line := a.taken + a.queue;
    && (forall i :: |a.departed| <= i < |line| ==> line[i].arrivalTime >= time)
    && (forall i :: 0 <= i < |a.departed| && a.departed[i].time > time ==> a.departed[i].packet.arrivalTime >= time)
  }

  /** An opportunity that carried less than it could left no packet behind that had arrived
      before it. */
  ghost predicate Conserving(slots: seq<Opportunity>, a: History)
  {
    forall i :: 0 <= i < |slots| && slots[i].carried < PACKET_SIZE ==> NothingOlder(a, slots[i].time)
  }

  lemma {:induction false} PicksBehind(a: seq<Packet>, b: seq<Packet>, f: seq<nat>, i: nat)
    requires Picks(a, b, f) && i < |f|
    ensures f[i] >= i
  {
    if i > 0 {
      PicksBehind(a, b, f, i - 1);
    }
  }

  /** Every packet beyond those that had left was there before. */
  lemma BehindDeparted(a: History, b: History, i: nat) returns (j: nat)
    requires Progress(a, b) && |a.departed| <= i < |b.taken + b.queue|
    ensures |a.departed| <= j < |a.taken + a.queue|
    ensures (b.taken + b.queue)[i] == (a.taken + a.queue)[j]
  {
    var f: seq<nat> :| Picks(b.taken + b.queue, a.taken + a.queue, f);
    PicksBehind(b.taken + b.queue, a.taken + a.queue, f, i);
    j := f[i];
  }

  lemma NothingOlderProgress(a: History, b: History, time: nat)
    requires Progress(a, b) && Leading(b) && NothingOlder(a, time)
    ensures NothingOlder(b, time)
  {
    var line := b.taken + b.queue;
    forall i | |a.departed| <= i < |line| ensures line[i].arrivalTime >= time
    {
      var j := BehindDeparted(a, b, i);
    }
    forall i | 0 <= i < |b.departed| && b.departed[i].time > time
      ensures b.departed[i].packet.arrivalTime >= time
    {
      if i < |a.departed| {
        assert b.departed[i] == a.departed[i];
      } else {
        assert b.departed[i].packet == line[i];
      }
    }
  }

  /** One more opportunity, during which `a` became `b`. */
  lemma ConservingMore(slots: seq<Opportunity>, slot: Opportunity, a: History, b: History)
    requires Conserving(slots, a) && Progress(a, b) && Leading(b) && DepartedBy(b.departed, slot.time)
    requires slot.carried < PACKET_SIZE ==> |b.departed| == |b.taken| && b.queue == []
    ensures Conserving(slots + [slot], b)
  {
    hide Progress;
    var more := slots + [slot];
    forall i | 0 <= i < |more| && more[i].carried < PACKET_SIZE ensures NothingOlder(b, more[i].time)
    {
      if i < |slots| {
        assert NothingOlder(a, slots[i].time);
        NothingOlderProgress(a, b, slots[i].time);
      }
    }
  }

  /** A packet that arrives after every opportunity used. */
  lemma ConservingArrive(slots: seq<Opportunity>, a: History, q: seq<Packet>, p: Packet)
    requires Conserving(slots, a) && SlotsBy(slots, p.arrivalTime) && Leading(a)
    requires q == a.queue || PacketQueue.SuffixOf(q, a.queue + [p])
    ensures Conserving(slots, a.(queue := q))
  {
    if q != a.queue {
      forall i | 0 <= i < |slots| && slots[i].carried < PACKET_SIZE
        ensures NothingOlder(a.(queue := q), slots[i].time)
      {
        assert NothingOlder(a, slots[i].time);
        NothingOlderArrive(a, q, p, slots[i].time);
      }
    }
  }

  lemma NothingOlderArrive(a: History, q: seq<Packet>, p: Packet, time: nat)
    requires NothingOlder(a, time) && p.arrivalTime >= time && Leading(a)
    requires PacketQueue.SuffixOf(q, a.queue + [p])
    ensures NothingOlder(a.(queue := q), time)
  {
    var line, all := a.taken + q, (a.taken + a.queue) + [p];
    var k := |a.queue| + 1 - |q|;
    forall i | |a.departed| <= i < |line| ensures line[i].arrivalTime >= time
    {
      var j := if i < |a.taken| then i else i + k;
      assert line[i] == all[j];
    }
  }

  lemma SlotsLater(slots: seq<Opportunity>, time: nat)
    ensures forall later: nat :: SlotsBy(slots, time) && time <= later ==> SlotsBy(slots, later)
  {
  }

  lemma SlotsMore(slots: seq<Opportunity>, slot: Opportunity)
    ensures forall time: nat :: SlotsBy(slots, time) && slot.time <= time ==> SlotsBy(slots + [slot], time)
  {
  }

  lemma ConservingWritten(slots: seq<Opportunity>, a: History, output: seq<string>)
    requires Conserving(slots, a)
    ensures Conserving(slots, a.(output := output))
  {
    forall i | 0 <= i < |slots| && slots[i].carried < PACKET_SIZE
      ensures NothingOlder(a.(output := output), slots[i].time)
    {
      assert NothingOlder(a, slots[i].time);
    }
  }

  lemma RecordsBegin(lossless: bool, a: History, now: nat)
    requires a.taken == [] && a.queue == [] && a.departed == []
    ensures Drawn(lossless, a.taken + a.queue, []) && OnTime(a.departed, []) && Conserving([], a) && SlotsBy([], now)
  {
    SubsequenceOfItself([]);
  }
}
