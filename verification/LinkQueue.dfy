/** The link emulator: replays the schedule lazily, whenever it is asked the time, and sends
    packets of any queue discipline through its delivery opportunities. */
module LinkQueue {
  import opened Strings
  import opened Packets
  import PacketQueue
  import opened LinkSchedule
  import opened LinkService
  import opened LinkHistory
  import opened Machine

  function PacketsOf(d: seq<Departure>): (r: seq<Packet>)
    ensures |r| == |d| && forall i :: 0 <= i < |d| ==> r[i] == d[i].packet
  {
    seq(|d|, i requires 0 <= i < |d| => d[i].packet)
  }

  function ContentsOf(d: seq<Departure>): (r: seq<string>)
    ensures |r| == |d| && forall i :: 0 <= i < |d| ==> r[i] == d[i].packet.contents
  {
    seq(|d|, i requires 0 <= i < |d| => d[i].packet.contents)
  }

  /** The bytes sent so far: those of the packets gone, and of the one in transit. */
  function SentBytes(s: Service): nat
    requires s.left <= |s.transit.contents|
  {
    Bytes(PacketsOf(s.departed)) + if s.left > 0 then |s.transit.contents| - s.left else 0
  }

  function Carried(slots: seq<Opportunity>): nat
  {
    if slots == [] then 0 else Carried(slots[..|slots| - 1]) + slots[|slots| - 1].carried
  }

  /** Packets are never empty and never larger than an opportunity. */
  ghost predicate Sendable(p: Packet)
  {
    1 <= |p.contents| <= PACKET_SIZE
  }

  ghost predicate AllSendable(q: seq<Packet>)
  {
    forall i :: 0 <= i < |q| ==> Sendable(q[i])
  }

  ghost predicate ArrivedBy(q: seq<Packet>, time: nat)
  {
    forall i :: 0 <= i < |q| ==> q[i].arrivalTime <= time
  }

  /** In order of arrival. */
  ghost predicate InOrder(q: seq<Packet>)
  {
    forall i, j :: 0 <= i < j < |q| ==> q[i].arrivalTime <= q[j].arrivalTime
  }

  /** Departures never go back in time, and no packet leaves before it arrived. */
  ghost predicate Causal(d: seq<Departure>)
  {
    && (forall i :: 0 <= i < |d| ==> d[i].packet.arrivalTime <= d[i].time)
    && (forall i, j :: 0 <= i < j < |d| ==> d[i].time <= d[j].time)
  }

  /** The opportunities used so far are those of the schedule; none carried more than a packet's
      worth, and none wasted capacity unless nothing was waiting. */
  ghost predicate Recorded(slots: seq<Opportunity>, schedule: seq<nat>, base: nat)
    requires schedule != []
  {
    forall i :: 0 <= i < |slots| ==>
      && slots[i].time == OpportunityTime(schedule, base, i)
      && slots[i].carried <= PACKET_SIZE
      && (slots[i].carried < PACKET_SIZE ==> slots[i].waiting == [])
  }

  /** The cursor and the record after `used` opportunities. */
  ghost predicate Scheduled(schedule: seq<nat>, repeating: bool, base: nat, used: nat, c: Cursor,
                            slots: seq<Opportunity>)
  {
    && IsSchedule(schedule) && (!repeating ==> used <= |schedule|)
    && c == CursorAt(schedule, repeating, base, used)
    && c.next < |schedule|
    && |slots| == used && Recorded(slots, schedule, base)
  }

  /** The times of opportunities a up to b. */
  function Times(schedule: seq<nat>, base: nat, a: nat, b: nat): (r: seq<nat>)
    requires schedule != [] && a <= b
    ensures |r| == b - a && forall i :: 0 <= i < b - a ==> r[i] == OpportunityTime(schedule, base, a + i)
  {
    seq<nat>(b - a, i requires 0 <= i < b - a => OpportunityTime(schedule, base, a + i))
  }

  /** Removing a run of packets from a line keeps its order, its sizes and its arrivals. */
  lemma LineKept(before: seq<Packet>, q: seq<Packet>, r: seq<Packet>, time: nat)
    requires PacketQueue.SuffixOf(r, q)
    ensures InOrder(before + q) ==> InOrder(before + r)
    ensures AllSendable(q) ==> AllSendable(r)
    ensures ArrivedBy(q, time) ==> ArrivedBy(r, time)
  {
    var k := |q| - |r|;
    assert forall i :: 0 <= i < |r| ==> r[i] == q[i + k];
    var a, b := before + q, before + r;
    assert forall i :: 0 <= i < |before| ==> b[i] == a[i];
    assert forall i :: |before| <= i < |b| ==> b[i] == a[i + k];
  }

  lemma LineGrows(line: seq<Packet>, p: Packet)
    requires InOrder(line) && ArrivedBy(line, p.arrivalTime)
    ensures InOrder(line + [p]) && ArrivedBy(line + [p], p.arrivalTime)
  {
  }

  lemma SendBytes(s: Service, amount: nat, time: nat)
    requires s.left <= |s.transit.contents| && 0 < amount <= s.left
    ensures SentBytes(Send(s, amount, time)) == SentBytes(s) + amount
  {
    var t := Send(s, amount, time);
    if amount == s.left {
      assert PacketsOf(t.departed) == PacketsOf(s.departed) + [s.transit];
      BytesAppend(PacketsOf(s.departed), [s.transit]);
      assert [s.transit][1..] == [];
      assert Bytes([s.transit]) == |s.transit.contents|;
    }
  }

  /** The queue, the transit slot, what was dequeued, what left and what was written fit
      together. */
  ghost predicate Flow(s: Service, dequeued: seq<Packet>, output: seq<string>, latest: nat)
  {
    && s.left <= |s.transit.contents| <= PACKET_SIZE
    && AllSendable(s.queue)
    && dequeued == PacketsOf(s.departed) + (if s.left > 0 then [s.transit] else [])
    && InOrder(dequeued + s.queue) && ArrivedBy(dequeued + s.queue, latest)
    && Causal(s.departed)
    && output == ContentsOf(s.departed)
  }

  /** Everything still to be sent had arrived by then, and everything gone had left. */
  ghost predicate Ready(s: Service, time: nat)
  {
    ArrivedBy(s.queue, time) && (s.left > 0 ==> s.transit.arrivalTime <= time) && DepartedBy(s.departed, time)
  }

  /** Taking the head of the queue, whatever else the queue drops behind it. */
  lemma FlowLoad(s: Service, rest: seq<Packet>, dequeued: seq<Packet>, output: seq<string>, latest: nat, time: nat)
    requires Flow(s, dequeued, output, latest) && Ready(s, time) && s.left == 0 && s.queue != []
    requires PacketQueue.SuffixOf(rest, s.queue[1..])
    ensures var t := Service(s.queue[0], |s.queue[0].contents|, rest, s.departed);
      Flow(t, dequeued + [s.queue[0]], output, latest) && t.left > 0 && Ready(t, time)
  {
    var p, tail := s.queue[0], s.queue[1..];
    assert dequeued + s.queue == (dequeued + [p]) + tail;
    var k := |tail| - |rest|;
    assert forall i :: 0 <= i < |rest| ==> rest[i] == s.queue[i + k + 1];
    assert Sendable(s.queue[0]);
    LineKept(dequeued + [p], tail, rest, latest);
    forall i | 0 <= i < |dequeued + [p] + rest| ensures (dequeued + [p] + rest)[i].arrivalTime <= latest
    {
      var j := if i <= |dequeued| then i else i + k;
      assert (dequeued + [p] + rest)[i] == (dequeued + s.queue)[j];
    }
  }

  lemma FlowHead(s: Service, dequeued: seq<Packet>, output: seq<string>, latest: nat)
    requires Flow(s, dequeued, output, latest) && s.queue != []
    ensures |s.queue[0].contents| > 0
  {
    assert Sendable(s.queue[0]);
  }

  /** Sending part of the packet in transit. */
  lemma FlowSend(s: Service, amount: nat, time: nat, dequeued: seq<Packet>, output: seq<string>, latest: nat)
    requires Flow(s, dequeued, output, latest) && Ready(s, time) && 0 < amount <= s.left
    ensures var t := Send(s, amount, time);
      Flow(t, dequeued, if t.left == 0 then output + [s.transit.contents] else output, latest) && Ready(t, time)
  {
    var t := Send(s, amount, time);
    if t.left == 0 {
      assert PacketsOf(t.departed) == PacketsOf(s.departed) + [s.transit];
      assert ContentsOf(t.departed) == ContentsOf(s.departed) + [s.transit.contents];
    }
  }

  /** A packet arriving now, in a queue that may drop from its front or refuse it. */
  lemma FlowArrive(s: Service, q: seq<Packet>, p: Packet, dequeued: seq<Packet>, output: seq<string>, latest: nat)
    requires Flow(s, dequeued, output, latest) && Sendable(p) && p.arrivalTime == latest
    requires q == s.queue || PacketQueue.SuffixOf(q, s.queue + [p])
    ensures Flow(s.(queue := q), dequeued, output, latest)
  {
    hide Causal;
    hide ContentsOf;
    hide PacketsOf;
    hide InOrder;
    hide ArrivedBy;
    hide AllSendable;
    hide PacketQueue.SuffixOf;
    if q != s.queue {
      ArriveInOrder(s.queue, q, p, dequeued, latest);
    }
  }

  lemma ArriveInOrder(before: seq<Packet>, q: seq<Packet>, p: Packet, dequeued: seq<Packet>, latest: nat)
    requires InOrder(dequeued + before) && ArrivedBy(dequeued + before, latest) && AllSendable(before)
    requires Sendable(p) && p.arrivalTime == latest && PacketQueue.SuffixOf(q, before + [p])
    ensures InOrder(dequeued + q) && ArrivedBy(dequeued + q, latest) && AllSendable(q)
  {
    var all := before + [p];
    assert dequeued + all == (dequeued + before) + [p];
    LineGrows(dequeued + before, p);
    LineKept(dequeued, all, q, latest);
    var k := |all| - |q|;
    forall i | 0 <= i < |dequeued + q| ensures (dequeued + q)[i].arrivalTime <= latest
    {
      assert (dequeued + q)[i] == (dequeued + all)[if i < |dequeued| then i else i + k];
    }
  }

  lemma ReadyArrive(s: Service, q: seq<Packet>, p: Packet, time: nat)
    requires Ready(s, time) && p.arrivalTime <= time
    requires q == s.queue || PacketQueue.SuffixOf(q, s.queue + [p])
    ensures Ready(s.(queue := q), time)
  {
    hide PacketQueue.SuffixOf;
    hide DepartedBy;
    if q != s.queue {
      LineKept([], s.queue + [p], q, time);
    }
  }

  lemma FlowSizes(s: Service, dequeued: seq<Packet>, output: seq<string>, latest: nat)
    requires Flow(s, dequeued, output, latest)
    ensures Sizes(s) && s.left <= PACKET_SIZE
  {
    assert forall i :: 0 <= i < |s.queue| ==> Sendable(s.queue[i]);
  }

  class Link {
    const schedule: seq<nat>
    const repeating: bool
    const packetQueue: PacketQueue.AbstractPacketQueue
    var nextDelivery: nat
    var baseTimestamp: nat
    var finished: bool
    var packetInTransit: Packet
    var bytesLeft: nat                    // packet_in_transit_bytes_left_
    var outputQueue: seq<string>
    var clock: nat                        // the last value timestamp() returned
    ghost const start: nat                // base_timestamp_ at the beginning
    ghost var used: nat                   // opportunities used so far
    ghost var slots: seq<Opportunity>
    ghost var departed: seq<Departure>
    ghost var arrived: seq<Packet>        // every packet offered to the queue
    ghost var dequeued: seq<Packet>       // every packet the queue ever returned
    ghost var lastArrival: nat            // no packet arrived later
    ghost var written: seq<string>        // every packet write_packets has written

    ghost function Repr(): set<object>
    {
      {this} + PacketQueue.Repr(packetQueue)
    }

    function Queue(): seq<Packet>
      reads PacketQueue.Repr(packetQueue)
    {
      PacketQueue.Contents(packetQueue)
    }

    ghost function ServiceState(): Service
      reads this`packetInTransit, this`bytesLeft, this`departed, PacketQueue.Repr(packetQueue)
    {
      Service(packetInTransit, bytesLeft, Queue(), departed)
    }

    /** The packets taken from the queue and those in it. */
    ghost function Line(): seq<Packet>
      reads this`dequeued, PacketQueue.Repr(packetQueue)
    {
      dequeued + Queue()
    }

    ghost function Past(): History
      reads this`dequeued, this`departed, this`outputQueue, PacketQueue.Repr(packetQueue)
    {
      History(dequeued, departed, outputQueue, Queue())
    }

    function TheCursor(): Cursor
      reads this`nextDelivery, this`baseTimestamp, this`finished
    {
      Cursor(nextDelivery, baseTimestamp, finished)
    }

    ghost predicate Coherent()
      reads this`packetInTransit, this`bytesLeft, this`outputQueue, this`clock
      reads this`departed, this`dequeued, this`arrived, this`lastArrival, this`written
      reads PacketQueue.Repr(packetQueue)
    {
      && this !in PacketQueue.Repr(packetQueue)
      && PacketQueue.Valid(packetQueue) && PacketQueue.Latest(packetQueue) <= clock
      && lastArrival <= clock && Flow(ServiceState(), dequeued, written + outputQueue, lastArrival)
      && Drawn(packetQueue.Infinite?, Line(), arrived)
    }

    /** What holds however far the schedule has been replayed. */
    ghost predicate Replayed()
      reads this, PacketQueue.Repr(packetQueue)
    {
      && Coherent()
      && Scheduled(schedule, repeating, start, used, TheCursor(), slots)
      && nextDelivery < |schedule|
      && (NextTime(schedule, TheCursor()).Some? ==> Ready(ServiceState(), NextTime(schedule, TheCursor()).value))
      && SentBytes(ServiceState()) == Carried(slots)
      && OnTime(departed, slots)
      && Conserving(slots, Past())
    }

    /** It has not been replayed ahead of the clock. */
    ghost predicate Valid()
      reads this, PacketQueue.Repr(packetQueue)
    {
      Replayed() && SlotsBy(slots, clock)
    }

    constructor (schedule: seq<nat>, repeating: bool, packetQueue: PacketQueue.AbstractPacketQueue, now: nat)
      requires IsSchedule(schedule)
      requires PacketQueue.Valid(packetQueue) && PacketQueue.Contents(packetQueue) == []
      requires PacketQueue.Latest(packetQueue) <= now
      ensures Valid() && used == 0 && start == now && clock == now && Queue() == [] && arrived == []
      ensures this.schedule == schedule && this.repeating == repeating && this.packetQueue == packetQueue
    {
      hide PacketQueue.Valid;
      hide PacketQueue.Latest;
      hide Flow;
      hide Ready;
      hide SentBytes;
      hide Scheduled;
      hide Carried;
      hide Drawn;
      hide OnTime;
      hide Conserving;
      hide SlotsBy;
      this.schedule, this.repeating, this.packetQueue := schedule, repeating, packetQueue;
      nextDelivery, baseTimestamp, finished := 0, now, false;
      packetInTransit, bytesLeft, outputQueue := Packet("", 0), 0, [];
      clock, start, used := now, now, 0;
      slots, departed, dequeued, arrived, written, lastArrival := [], [], [], [], [], now;
      new;
      RecordsBegin(packetQueue.Infinite?, Past(), now);
      Beginning(schedule, repeating, now, Service(packetInTransit, 0, Queue(), []));
    }

    /** timestamp(): the clock never goes back. */
    method Timestamp() returns (now: nat)
      modifies this`clock
      ensures now == clock >= old(clock)
    {
      now := *;
      if now < clock {
        now := clock;
      }
      clock := now;
    }

    /** packet_queue_->dequeue(), which reads the clock itself. */
    method PopNext() returns (p: Packet)
      requires this !in PacketQueue.Repr(packetQueue) && PacketQueue.Valid(packetQueue)
      requires PacketQueue.Latest(packetQueue) <= clock && Queue() != []
      modifies this`clock, PacketQueue.Repr(packetQueue)
      ensures PacketQueue.Valid(packetQueue) && PacketQueue.Latest(packetQueue) <= clock && clock >= old(clock)
      ensures p == old(Queue())[0] && PacketQueue.SuffixOf(Queue(), old(Queue())[1..])
      ensures |Queue()| < |old(Queue())|
      ensures PacketQueue.PlainDequeue(packetQueue) ==> Queue() == old(Queue())[1..]
    {
      var now := Timestamp();
      var later := Timestamp();
      p := PacketQueue.Dequeue(packetQueue, now, later);
    }

    /** Take the next packet from the queue. */
    method LoadPacket(ghost time: nat)
      requires Coherent() && Ready(ServiceState(), time) && bytesLeft == 0 && Queue() != []
      modifies this`packetInTransit, this`bytesLeft, this`clock, this`dequeued, PacketQueue.Repr(packetQueue)
      ensures Coherent() && Ready(ServiceState(), time) && bytesLeft > 0 && |Queue()| < old(|Queue()|)
      ensures bytesLeft == |packetInTransit.contents| && clock >= old(clock)
      ensures packetInTransit == old(Queue())[0] && dequeued == old(dequeued) + [packetInTransit]
      ensures PacketQueue.SuffixOf(Queue(), old(Queue())[1..])
      ensures Progress(old(Past()), Past())
      ensures PacketQueue.PlainDequeue(packetQueue) ==> ServiceState() == Load(old(ServiceState()))
    {
      hide Flow;
      hide Ready;
      hide PacketQueue.Valid;
      hide PacketQueue.Contents;
      hide PacketQueue.Latest;
      hide PacketQueue.Repr;
      hide PacketQueue.SuffixOf;
      hide Drawn;
      hide Progress;
      FlowHead(ServiceState(), dequeued, written + outputQueue, lastArrival);
      ghost var before, past := ServiceState(), Past();
      var p := PopNext();
      FlowLoad(before, Queue(), dequeued, written + outputQueue, lastArrival, time);
      DrawnLoad(packetQueue.Infinite?, past, Queue(), arrived);
      PutInTransit(p);
    }

    /** The packet just taken becomes the one in transit, with all of its bytes to send. */
    method PutInTransit(p: Packet)
      requires this !in PacketQueue.Repr(packetQueue)
      requires PacketQueue.Valid(packetQueue) && PacketQueue.Latest(packetQueue) <= clock && lastArrival <= clock
      requires Flow(Service(p, |p.contents|, Queue(), departed), dequeued + [p], written + outputQueue, lastArrival)
      requires Drawn(packetQueue.Infinite?, dequeued + [p] + Queue(), arrived)
      modifies this`packetInTransit, this`bytesLeft, this`dequeued
      ensures Coherent() && packetInTransit == p && dequeued == old(dequeued) + [p]
      ensures ServiceState() == Service(p, |p.contents|, old(Queue()), old(departed))
    {
      hide Flow;
      hide Drawn;
      hide PacketQueue.Valid;
      hide PacketQueue.Contents;
      hide PacketQueue.Latest;
      packetInTransit, bytesLeft, dequeued := p, |p.contents|, dequeued + [p];
    }

    /** Send part of the packet in transit; it is ready to go when nothing of it is left. */
    method SendPart(amount: nat, time: nat)
      requires Coherent() && Ready(ServiceState(), time) && 0 < amount <= bytesLeft
      modifies this`bytesLeft, this`outputQueue, this`departed
      ensures Coherent() && Ready(ServiceState(), time)
      ensures ServiceState() == Send(old(ServiceState()), amount, time)
      ensures outputQueue == old(outputQueue) + (if bytesLeft == 0 then [packetInTransit.contents] else [])
      ensures Progress(old(Past()), Past()) && Stamped(departed, |old(departed)|, time)
    {
      hide Drawn;
      hide Subsequence;
      NoProgress(Past());
      hide Flow;
      hide Ready;
      hide PacketQueue.Valid;
      FlowSend(ServiceState(), amount, time, dequeued, written + outputQueue, lastArrival);
      bytesLeft := bytesLeft - amount;
      if bytesLeft == 0 {
        departed := departed + [Departure(packetInTransit, time)];
        ghost var output := written + outputQueue;
        outputQueue := outputQueue + [packetInTransit.contents];
        assert written + outputQueue == output + [packetInTransit.contents];
      }
    }

    /** The inner loop of rationalize: one delivery opportunity at `time`. */
    method ServeOpportunity(time: nat) returns (ghost carried: nat)
      requires Coherent() && Ready(ServiceState(), time)
      modifies this`packetInTransit, this`bytesLeft, this`clock, this`dequeued, this`outputQueue, this`departed
      modifies PacketQueue.Repr(packetQueue)
      ensures Coherent() && Ready(ServiceState(), time) && clock >= old(clock)
      ensures carried <= PACKET_SIZE && SentBytes(ServiceState()) == old(SentBytes(ServiceState())) + carried
      ensures carried < PACKET_SIZE ==> bytesLeft == 0 && Queue() == []
      ensures Progress(old(Past()), Past()) && Stamped(departed, |old(departed)|, time)
      ensures PacketQueue.PlainDequeue(packetQueue) ==>
        Sizes(old(ServiceState())) && ServiceState() == Fill(old(ServiceState()), PACKET_SIZE, time)
    {
      hide SentBytes;
      hide Coherent;
      hide PacketQueue.Contents;
      hide PacketQueue.PlainDequeue;
      hide Progress;
      hide Stamped;
      var budget: nat := PACKET_SIZE;
      ghost var past := Past();
      CoherentSizes();
      NoProgress(past);
      StampedNone(departed, time);
      while budget > 0
        invariant Coherent() && Ready(ServiceState(), time) && clock >= old(clock) && budget <= PACKET_SIZE
        invariant Sizes(ServiceState())
        invariant Progress(past, Past()) && Stamped(departed, |past.departed|, time)
        invariant SentBytes(ServiceState()) == old(SentBytes(ServiceState())) + (PACKET_SIZE - budget)
        invariant PacketQueue.PlainDequeue(packetQueue) ==>
          Fill(ServiceState(), budget, time) == Fill(old(ServiceState()), PACKET_SIZE, time)
        decreases budget
      {
        if bytesLeft == 0 && Queue() == [] {
          break;
        }
        ghost var now := Past();
        var amountSent := SendNext(budget, time);
        ProgressTransitive(past, now, Past());
        StampedOn(past, now, Past(), time);
        budget := budget - amountSent;
      }
      carried := PACKET_SIZE - budget;
    }

    /** One turn of the inner loop, with `budget` bytes of the opportunity left. */
    method SendNext(budget: nat, time: nat) returns (amountToSend: nat)
      requires Coherent() && Ready(ServiceState(), time) && budget > 0 && (bytesLeft > 0 || Queue() != [])
      modifies this`packetInTransit, this`bytesLeft, this`clock, this`dequeued, this`outputQueue, this`departed
      modifies PacketQueue.Repr(packetQueue)
      ensures Coherent() && Ready(ServiceState(), time) && clock >= old(clock) && Sizes(ServiceState())
      ensures 0 < amountToSend <= budget && Sizes(old(ServiceState()))
      ensures SentBytes(ServiceState()) == old(SentBytes(ServiceState())) + amountToSend
      ensures Progress(old(Past()), Past()) && Stamped(departed, |old(departed)|, time)
      ensures PacketQueue.PlainDequeue(packetQueue) ==>
        Fill(ServiceState(), budget - amountToSend, time) == Fill(old(ServiceState()), budget, time)
    {
      hide SentBytes;
      hide Coherent;
      hide PacketQueue.Contents;
      hide PacketQueue.PlainDequeue;
      hide Progress;
      hide Fill;
      hide Stamped;
      hide DepartedBy;
      hide ArrivedBy;
      ghost var past := Past();
      CoherentSizes();
      LoadIfEmpty(budget, time);
      CoherentSizes();
      assert packetInTransit.arrivalTime <= time;
      assert bytesLeft <= PACKET_SIZE;
      assert bytesLeft > 0;
      assert bytesLeft <= |packetInTransit.contents|;
      amountToSend := Min(budget, bytesLeft);
      SendBytes(ServiceState(), amountToSend, time);
      ghost var loaded := Past();
      FillSends(ServiceState(), budget, time);
      SendPart(amountToSend, time);
      ProgressTransitive(past, loaded, Past());
      CoherentSizes();
    }

    /** The packet in transit, or else the next from the queue. */
    method LoadIfEmpty(ghost budget: nat, ghost time: nat)
      requires Coherent() && Ready(ServiceState(), time) && budget > 0 && (bytesLeft > 0 || Queue() != [])
      modifies this`packetInTransit, this`bytesLeft, this`clock, this`dequeued, PacketQueue.Repr(packetQueue)
      ensures Coherent() && Ready(ServiceState(), time) && clock >= old(clock) && bytesLeft > 0
      ensures old(bytesLeft) > 0 ==> ServiceState() == old(ServiceState())
      ensures SentBytes(ServiceState()) == old(SentBytes(ServiceState()))
      ensures Progress(old(Past()), Past()) && Sizes(ServiceState()) && Sizes(old(ServiceState()))
      ensures PacketQueue.PlainDequeue(packetQueue) ==>
        Fill(ServiceState(), budget, time) == Fill(old(ServiceState()), budget, time)
    {
      hide SentBytes;
      hide Coherent;
      hide Ready;
      hide PacketQueue.Contents;
      hide PacketQueue.PlainDequeue;
      hide Progress;
      hide Fill;
      CoherentSizes();
      NoProgress(Past());
      if bytesLeft == 0 {
        FillLoads(ServiceState(), budget, time);
        LoadBytes(ServiceState());
        LoadPacket(time);
        LoadedBytes(ServiceState());
        CoherentSizes();
      }
    }

    /** Those that left are the first of those taken from the queue. */
    lemma DequeuedDeparted()
      requires Coherent()
      ensures Leading(Past())
    {
    }

    lemma Departures(time: nat)
      requires Coherent() && Ready(ServiceState(), time)
      ensures Leading(Past()) && DepartedBy(departed, time)
      ensures bytesLeft == 0 ==> |dequeued| == |departed|
    {
    }

    lemma CoherentSizes()
      requires Coherent()
      ensures Sizes(ServiceState()) && bytesLeft <= PACKET_SIZE
    {
      FlowSizes(ServiceState(), dequeued, written + outputQueue, lastArrival);
    }

    /** use_a_delivery_opportunity */
    method UseADeliveryOpportunity()
      requires nextDelivery < |schedule|
      modifies this`nextDelivery, this`baseTimestamp, this`finished
      ensures TheCursor() == Use(schedule, repeating, old(TheCursor()))
    {
      nextDelivery := (nextDelivery + 1) % |schedule|;
      if nextDelivery == 0 {
        if repeating {
          baseTimestamp := baseTimestamp + schedule[|schedule| - 1];
        } else {
          finished := true;
        }
      }
    }

    /** Enter an opportunity in the record. */
    ghost method NoteSlot(slot: Opportunity)
      requires Coherent() && nextDelivery < |schedule|
      requires Scheduled(schedule, repeating, start, used + 1, TheCursor(), slots + [slot])
      requires NextTime(schedule, TheCursor()).Some? ==> Ready(ServiceState(), NextTime(schedule, TheCursor()).value)
      requires SentBytes(ServiceState()) == Carried(slots + [slot]) && OnTime(departed, slots + [slot])
      requires Conserving(slots + [slot], Past())
      modifies this`slots, this`used
      ensures Replayed() && used == old(used) + 1 && slots == old(slots) + [slot]
      ensures ServiceState() == old(ServiceState()) && Past() == old(Past())
    {
      hide Coherent;
      hide Scheduled;
      hide Ready;
      hide SentBytes;
      hide Carried;
      hide OnTime;
      hide Conserving;
      Apart();
      slots, used := slots + [slot], used + 1;
    }

    lemma Apart()
      requires Coherent()
      ensures this !in PacketQueue.Repr(packetQueue)
    {
    }

    /** The first lines of a turn: note the time and burn the opportunity. */
    method TakeOpportunity() returns (thisDeliveryTime: nat)
      requires Replayed() && !finished
      modifies this`nextDelivery, this`baseTimestamp, this`finished
      ensures thisDeliveryTime == OpportunityTime(schedule, start, used)
      ensures TheCursor() == Use(schedule, repeating, old(TheCursor()))
      ensures Coherent() && ServiceState() == old(ServiceState()) && Ready(ServiceState(), thisDeliveryTime)
    {
      hide Coherent;
      hide Ready;
      hide Use;
      hide OpportunityTime;
      hide Scheduled;
      hide SentBytes;
      hide Carried;
      Apart();
      ScheduledNow(schedule, repeating, start, used, TheCursor(), slots);
      thisDeliveryTime := schedule[nextDelivery] + baseTimestamp;
      UseADeliveryOpportunity();
    }

    /** One turn of the outer loop of rationalize: burn an opportunity, then serve it. */
    method BurnOpportunity() returns (ghost carried: nat)
      requires Replayed() && !finished
      modifies this, PacketQueue.Repr(packetQueue)
      ensures Replayed() && clock >= old(clock) && used == old(used) + 1
      ensures TheCursor() == Use(schedule, repeating, old(TheCursor()))
      ensures var time := OpportunityTime(schedule, start, old(used));
        slots == old(slots) + [Opportunity(time, carried, Items(ServiceState()))]
        && Stamped(departed, |old(departed)|, time)
      ensures SentBytes(ServiceState()) == old(SentBytes(ServiceState())) + carried
      ensures written == old(written) && lastArrival == old(lastArrival) && arrived == old(arrived)
      ensures Progress(old(Past()), Past())
      ensures PacketQueue.PlainDequeue(packetQueue) ==>
        Sizes(old(ServiceState()))
        && ServiceState() == Fill(old(ServiceState()), PACKET_SIZE, OpportunityTime(schedule, start, old(used)))
    {
      hide PacketQueue.PlainDequeue;
      hide PacketQueue.Contents;
      hide PacketQueue.Repr;
      hide PacketQueue.Latest;
      hide PacketQueue.Valid;
      hide NextTime;
      hide Sizes;
      hide Coherent;
      hide Ready;
      hide SentBytes;
      hide Fill;
      hide OpportunityTime;
      hide Scheduled;
      hide Use;
      hide Carried;
      hide OnTime;
      hide Conserving;
      hide Subsequence;
      ghost var cursor := TheCursor();
      Apart();
      var thisDeliveryTime := TakeOpportunity();
      ghost var past := Past();
      carried := ServeOpportunity(thisDeliveryTime);
      ghost var slot := Opportunity(thisDeliveryTime, carried, Items(ServiceState()));
      OnTimeMore(past.departed, departed, slots, slot);
      Departures(thisDeliveryTime);
      ConservingMore(slots, slot, past, Past());
      ScheduledNext(schedule, repeating, start, used, cursor, slots, slot);
      CarriedMore(slots, slot);
      if NextTime(schedule, TheCursor()).Some? {
        ReadyLater(ServiceState(), thisDeliveryTime, NextTime(schedule, TheCursor()).value);
      }
      NoteSlot(slot);
    }

    /** rationalize: every opportunity up to `now` is used, and none after it. */
    method Rationalize(now: nat)
      requires Replayed()
      modifies this, PacketQueue.Repr(packetQueue)
      ensures Replayed() && clock >= old(clock) && old(used) <= used
      ensures SlotsBy(old(slots), now) ==> SlotsBy(slots, now)
      ensures old(Valid()) && now <= clock ==> Valid()
      ensures NextTime(schedule, TheCursor()).Some? ==> NextTime(schedule, TheCursor()).value > now
      ensures forall k :: old(used) <= k < used ==> OpportunityTime(schedule, start, k) <= now
      ensures old(slots) <= slots && (old(slots) < slots ==> slots[|slots| - 1].waiting == Items(ServiceState()))
      ensures written == old(written) && lastArrival == old(lastArrival) && arrived == old(arrived)
      ensures Progress(old(Past()), Past())
      ensures PacketQueue.PlainDequeue(packetQueue) ==>
        Sizes(old(ServiceState()))
        && ServiceState() == Serve(old(ServiceState()), Times(schedule, start, old(used), used))
    {
      hide Fill;
      hide OpportunityTime;
      hide Scheduled;
      hide Coherent;
      hide Ready;
      hide SentBytes;
      hide Carried;
      hide OnTime;
      hide Progress;
      hide Conserving;
      hide SlotsBy;
      hide Items;
      hide Use;
      hide Stamped;
      hide IsSchedule;
      ghost var before, past := ServiceState(), Past();
      ghost var later := if now <= clock then clock else now;
      CoherentSizes();
      NoProgress(past);
      SlotsLater(slots, clock);
      while !finished && schedule[nextDelivery] + baseTimestamp <= now
        invariant Replayed() && clock >= old(clock) && old(used) <= used
        invariant forall k :: old(used) <= k < used ==> OpportunityTime(schedule, start, k) <= now
        invariant old(slots) <= slots && (old(slots) < slots ==> slots[|slots| - 1].waiting == Items(ServiceState()))
        invariant written == old(written) && lastArrival == old(lastArrival) && arrived == old(arrived)
        invariant Progress(past, Past())
        invariant SlotsBy(old(slots), now) ==> SlotsBy(slots, now)
        invariant SlotsBy(old(slots), later) ==> SlotsBy(slots, later)
        invariant PacketQueue.PlainDequeue(packetQueue) ==>
          ServiceState() == Serve(before, Times(schedule, start, old(used), used))
        decreases !finished, now - baseTimestamp, |schedule| - nextDelivery
      {
        ghost var cursor, k, recorded := TheCursor(), used, slots;
        ScheduledNow(schedule, repeating, start, used, cursor, slots);
        CursorMoves(schedule, repeating, cursor);
        ghost var sofar := Past();
        ghost var carried := BurnOpportunity();
        ProgressTransitive(past, sofar, Past());
        SlotsMore(recorded, Opportunity(OpportunityTime(schedule, start, k), carried, Items(ServiceState())));
        ServeOneMore(before, Times(schedule, start, old(used), k), Times(schedule, start, old(used), used));
      }
      SlotsLater(slots, later);
      assert old(Valid()) ==> SlotsBy(old(slots), old(clock));
    }

    /** read_packet: None when the packet is too large; otherwise whether the queue survived
        taking it. The packet is stamped with the time it was read. The link first serves the
        opportunities up to then, which leaves it in the state `served` and the queue with the
        rule `rule`; the queue itself reads the clock at `at`. */
    method ReadPacket(contents: string, random: real)
      returns (survives: Option<bool>, now: nat,
               ghost served: Service, ghost rule: PacketQueue.Discipline, ghost at: nat)
      requires Valid() && contents != ""
      modifies this, PacketQueue.Repr(packetQueue)
      ensures now >= old(clock)
      ensures survives.None? <==> |contents| > PACKET_SIZE
      ensures survives.None? ==>
        Valid() && ServiceState() == old(ServiceState()) && used == old(used) && arrived == old(arrived)
      ensures survives.Some? ==> old(used) <= used && old(slots) <= slots
      ensures survives == Some(true) ==> Valid()
      ensures survives == Some(true) && NextTime(schedule, TheCursor()).Some? ==>
        now < NextTime(schedule, TheCursor()).value
      ensures survives.Some? ==> PacketQueue.RuleOf(packetQueue, rule) && now <= at <= clock
      ensures survives.Some? ==>
        (survives == Some(true) <==> PacketQueue.Survives(rule, served.queue, Packet(contents, now)))
      ensures survives.Some? && PacketQueue.PlainDequeue(packetQueue) ==>
        Sizes(old(ServiceState()))
        && served == Serve(old(ServiceState()), Times(schedule, start, old(used), used))
      ensures survives == Some(true) ==>
        ServiceState() == served.(queue := PacketQueue.Admitted(rule, served.queue, Packet(contents, now), at, random))
      ensures survives == Some(true) ==> arrived == old(arrived) + [Packet(contents, now)]
      ensures survives == Some(true) ==>
        Progress(old(Past()), Past().(queue := served.queue)) && written == old(written)
    {
      hide Serve;
      hide Coherent;
      hide Scheduled;
      hide Progress;
      hide Carried;
      hide SentBytes;
      hide OnTime;
      hide PacketQueue.Survives;
      hide PacketQueue.Admitted;
      hide PacketQueue.RuleOf;
      now := ReadClock();
      at, served, rule := now, ServiceState(), PacketQueue.DisciplineOf(packetQueue);
      if |contents| > PACKET_SIZE {
        return None, now, served, rule, at;
      }
      Rationalize(now);
      served := ServiceState();
      var ok: bool;
      ok, rule, at := Admit(Packet(contents, now), random);
      survives := Some(ok);
    }

    /** A reading of the clock between packets. */
    method ReadClock() returns (now: nat)
      requires Valid()
      modifies this`clock
      ensures Valid() && now == clock >= old(clock) && lastArrival <= now
    {
      hide Flow;
      hide Ready;
      now := Timestamp();
    }

    /** packet_queue_->enqueue(), which may read the clock itself. */
    method Offer(p: Packet, random: real)
      returns (survives: bool, ghost rule: PacketQueue.Discipline, ghost at: nat)
      requires this !in PacketQueue.Repr(packetQueue) && PacketQueue.Valid(packetQueue)
      requires PacketQueue.Latest(packetQueue) <= clock
      modifies this`clock, PacketQueue.Repr(packetQueue)
      ensures PacketQueue.RuleOf(packetQueue, rule) && old(clock) <= at <= clock
      ensures survives <==> PacketQueue.Survives(rule, old(Queue()), p)
      ensures survives ==> PacketQueue.Valid(packetQueue) && PacketQueue.Latest(packetQueue) <= clock
      ensures survives ==> Queue() == PacketQueue.Admitted(rule, old(Queue()), p, at, random)
    {
      hide PacketQueue.Admitted;
      hide PacketQueue.Survives;
      rule := PacketQueue.DisciplineOf(packetQueue);
      PacketQueue.RuleHolds(packetQueue);
      var now := Timestamp();
      at := now;
      survives := PacketQueue.Enqueue(packetQueue, p, now, random);
    }

    /** packet_queue_->enqueue() of a packet read before the next opportunity. */
    method Admit(p: Packet, random: real)
      returns (survives: bool, ghost rule: PacketQueue.Discipline, ghost at: nat)
      requires Valid() && Sendable(p) && lastArrival <= p.arrivalTime <= clock
      requires SlotsBy(slots, p.arrivalTime)
      requires NextTime(schedule, TheCursor()).Some? ==> p.arrivalTime <= NextTime(schedule, TheCursor()).value
      modifies this`clock, this`lastArrival, this`arrived, PacketQueue.Repr(packetQueue)
      ensures PacketQueue.RuleOf(packetQueue, rule) && old(clock) <= at <= clock
      ensures survives <==> PacketQueue.Survives(rule, old(Queue()), p)
      ensures survives ==> Valid() && arrived == old(arrived) + [p]
      ensures survives ==>
        ServiceState() == old(ServiceState()).(queue := PacketQueue.Admitted(rule, old(Queue()), p, at, random))
    {
      hide Flow;
      hide Ready;
      hide SentBytes;
      hide OnTime;
      hide Conserving;
      hide SlotsBy;
      hide Drawn;
      hide PacketQueue.Valid;
      hide PacketQueue.SuffixOf;
      hide PacketQueue.Admitted;
      hide PacketQueue.Survives;
      hide PacketQueue.Contents;
      hide PacketQueue.Latest;
      hide PacketQueue.Repr;
      CoherentSizes();
      ghost var before, past := ServiceState(), Past();
      DequeuedDeparted();
      SlotsLater(slots, p.arrivalTime);
      survives, rule, at := Offer(p, random);
      if survives {
        PacketQueue.AdmittedAtBack(rule, before.queue, p, at, random);
        FlowLater(before, dequeued, written + outputQueue, lastArrival, p.arrivalTime);
        FlowArrive(before, Queue(), p, dequeued, written + outputQueue, p.arrivalTime);
        if NextTime(schedule, TheCursor()).Some? {
          ReadyArrive(before, Queue(), p, NextTime(schedule, TheCursor()).value);
        }
        ConservingArrive(slots, past, Queue(), p);
        SameSent(before, ServiceState());
        DrawnArrive(packetQueue.Infinite?, dequeued, before.queue, Queue(), p, arrived);
        lastArrival, arrived := p.arrivalTime, arrived + [p];
      }
    }

    /** wait_time: the 32-bit distance to the next opportunity, which lies in the future. */
    method WaitTime() returns (wait: int, now: nat)
      requires Valid()
      modifies this, PacketQueue.Repr(packetQueue)
      ensures Valid() && now >= old(clock) && old(used) <= used && old(slots) <= slots
      ensures Progress(old(Past()), Past()) && written == old(written) && arrived == old(arrived)
      ensures match NextTime(schedule, TheCursor())
        case None => wait == (UINT64 - 1 - now) % UINT32
        case Some(t) => now < t && wait == (t - now) % UINT32
      ensures PacketQueue.PlainDequeue(packetQueue) ==>
        Sizes(old(ServiceState()))
        && ServiceState() == Serve(old(ServiceState()), Times(schedule, start, old(used), used))
    {
      hide Serve;
      hide Coherent;
      hide Progress;
      hide OnTime;
      hide Ready;
      hide SentBytes;
      hide Carried;
      hide Recorded;
      hide CursorAt;
      hide Items;
      now := ReadClock();
      Rationalize(now);
      var next := if finished then UINT64 - 1 else schedule[nextDelivery] + baseTimestamp;
      if !finished && next <= now {
        wait := 0;
      } else {
        wait := (next - now) % UINT32;
      }
    }

    /** write_packets: everything ready to go is written, in order. */
    method WritePackets() returns (output: seq<string>)
      requires Valid()
      modifies this`outputQueue, this`written
      ensures Valid() && outputQueue == [] && output == old(outputQueue) && written == old(written) + output
    {
      hide Flow;
      hide Ready;
      hide SentBytes;
      hide Scheduled;
      hide Carried;
      hide PacketQueue.Valid;
      hide PacketQueue.Contents;
      hide PacketQueue.Latest;
      hide OnTime;
      hide Drawn;
      hide Conserving;
      hide SlotsBy;
      ConservingWritten(slots, Past(), []);
      hide NextTime;
      hide Progress;
      output := [];
      while outputQueue != []
        invariant output + outputQueue == old(outputQueue) && written == old(written)
        decreases |outputQueue|
      {
        output := output + [outputQueue[0]];
        outputQueue := outputQueue[1..];
      }
      written := written + output;
      assert old(written) + old(outputQueue) == written + [] == written;
    }
  }

  /** The closed form in terms of the schedule: served by opportunities a up to b, the i-th
      packet of a first-in first-out queue leaves at opportunity a + ceil( S_i / 1504 ) - 1. */
  lemma DepartureTimes(schedule: seq<nat>, base: nat, a: nat, b: nat, s: Service, i: nat)
    requires schedule != [] && a <= b && Sizes(s)
    requires var t := Serve(s, Times(schedule, base, a, b)); i < |Items(s)| - |Items(t)|
    ensures var t := Serve(s, Times(schedule, base, a, b)); var slot := Slot(Sum(Work(s), i + 1));
      1 <= slot <= b - a && |s.departed| + i < |t.departed|
      && t.departed[|s.departed| + i] == Departure(Items(s)[i], OpportunityTime(schedule, base, a + slot - 1))
  {
    hide Serve;
    hide Slot;
    hide Work;
    hide Items;
    hide OpportunityTime;
    var times := Times(schedule, base, a, b);
    FifoClosedForm(s, times);
    assert LeftInSlot(s, times, Serve(s, times), i);
  }

  lemma LoadBytes(s: Service)
    requires s.left == 0
    ensures SentBytes(s) == Bytes(PacketsOf(s.departed))
  {
  }

  lemma LoadedBytes(s: Service)
    requires s.left == |s.transit.contents|
    ensures SentBytes(s) == Bytes(PacketsOf(s.departed))
  {
  }

  lemma Beginning(schedule: seq<nat>, repeating: bool, now: nat, s: Service)
    requires IsSchedule(schedule) && s == Service(Packet("", 0), 0, [], [])
    ensures Scheduled(schedule, repeating, now, 0, Cursor(0, now, false), [])
    ensures Flow(s, [], [] + [], now) && SentBytes(s) == Carried([])
    ensures forall time: nat :: Ready(s, time)
  {
    hide OpportunityTime;
    hide NextTime;
    ScheduleClosedForm(schedule, repeating, now, 0);
    hide IsSchedule;
    hide CursorAt;
    assert PacketsOf([]) == [];
  }

  lemma FlowLater(s: Service, dequeued: seq<Packet>, output: seq<string>, a: nat, b: nat)
    requires Flow(s, dequeued, output, a) && a <= b
    ensures Flow(s, dequeued, output, b)
  {
  }

  /** The loop of rationalize terminates: each use moves on in the schedule, or, when it wraps
      around, moves the base by the last entry, or finishes. */
  lemma CursorMoves(schedule: seq<nat>, repeating: bool, c: Cursor)
    requires IsSchedule(schedule) && c.next < |schedule| && !c.finished
    ensures var d := Use(schedule, repeating, c);
      d.finished || d.base > c.base || (d.base == c.base && d.next > c.next)
    ensures Use(schedule, repeating, c).next < |schedule|
  {
    if c.next + 1 < |schedule| {
      Quotient(c.next + 1, |schedule|, 0, c.next + 1);
    }
  }

  lemma ServeOneMore(s: Service, times: seq<nat>, more: seq<nat>)
    requires Sizes(s) && |more| == |times| + 1 && forall i :: 0 <= i < |times| ==> more[i] == times[i]
    ensures Serve(s, more) == Fill(Serve(s, times), PACKET_SIZE, more[|times|])
  {
    hide Fill;
    assert more[..|times|] == times;
  }

  lemma ScheduledNow(schedule: seq<nat>, repeating: bool, base: nat, used: nat, c: Cursor, slots: seq<Opportunity>)
    requires Scheduled(schedule, repeating, base, used, c, slots) && !c.finished
    ensures IsSchedule(schedule) && c.next < |schedule|
    ensures NextTime(schedule, c) == Some(OpportunityTime(schedule, base, used))
  {
    hide OpportunityTime;
    NotFinished(schedule, repeating, base, used);
    CursorAdvances(schedule, repeating, base, used);
  }

  /** One more opportunity used. */
  lemma ScheduledNext(schedule: seq<nat>, repeating: bool, base: nat, used: nat, c: Cursor,
                      slots: seq<Opportunity>, slot: Opportunity)
    requires Scheduled(schedule, repeating, base, used, c, slots) && !c.finished
    requires slot.carried <= PACKET_SIZE && (slot.carried < PACKET_SIZE ==> slot.waiting == [])
    requires slot.time == OpportunityTime(schedule, base, used)
    ensures Use(schedule, repeating, c).next < |schedule|
    ensures Scheduled(schedule, repeating, base, used + 1, Use(schedule, repeating, c), slots + [slot])
    ensures var next := NextTime(schedule, Use(schedule, repeating, c));
      next.Some? ==> slot.time <= next.value
  {
    hide OpportunityTime;
    NotFinished(schedule, repeating, base, used);
    CursorAdvances(schedule, repeating, base, used);
    TimesNondecreasing(schedule, base, used);
    NextAt(schedule, repeating, base, used + 1);
    hide CursorAt;
    hide Use;
    hide NextTime;
  }

  lemma CarriedMore(slots: seq<Opportunity>, slot: Opportunity)
    ensures Carried(slots + [slot]) == Carried(slots) + slot.carried
  {
    assert (slots + [slot])[..|slots|] == slots;
  }

  lemma SameSent(s: Service, t: Service)
    requires s.left <= |s.transit.contents| && t == s.(queue := t.queue)
    ensures SentBytes(s) == SentBytes(t)
  {
  }

  lemma ReadyLater(s: Service, a: nat, b: nat)
    requires Ready(s, a) && a <= b
    ensures Ready(s, b)
  {
  }

  lemma NotFinished(schedule: seq<nat>, repeating: bool, base: nat, k: nat)
    requires schedule != [] && (!repeating ==> k <= |schedule|)
    requires !CursorAt(schedule, repeating, base, k).finished
    ensures !repeating ==> k < |schedule|
  {
  }

  /** The next opportunity after k are used is the k-th. */
  lemma NextAt(schedule: seq<nat>, repeating: bool, base: nat, k: nat)
    requires schedule != [] && (!repeating ==> k <= |schedule|)
    ensures var c := CursorAt(schedule, repeating, base, k);
      c.next < |schedule|
      && (NextTime(schedule, c).Some? ==> NextTime(schedule, c).value == OpportunityTime(schedule, base, k))
  {
    if repeating || k < |schedule| {
      CursorAdvances(schedule, repeating, base, k);
    }
  }
}
