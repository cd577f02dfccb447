/** The Controlled Delay queue: drop decisions taken when packets leave. */
module CodelQueue {
  import opened Arithmetic
  import opened Packets
  import opened DroppingQueue
  import opened Machine

  /** floor( interval / sqrt( count ) ), characterised without the root. */
  ghost predicate IsGap(interval: nat, count: nat, g: nat)
  {
    g * g * count <= interval * interval < (g + 1) * (g + 1) * count
  }

  function GapFrom(interval: nat, count: nat, g: nat): (r: nat)
    requires count >= 1 && g * g * count <= interval * interval
    ensures IsGap(interval, count, r)
    decreases interval - g
  {
    GapAbove(interval, count, g + 1);
    if (g + 1) * (g + 1) * count <= interval * interval then GapFrom(interval, count, g + 1) else g
  }

  lemma GapAbove(interval: nat, count: nat, g: nat)
    requires count >= 1
    ensures g > interval ==> g * g * count > interval * interval
  {
    if g > interval {
      MulMono(interval + 1, g);
      MulAtLeast(g * g, count);
      assert (interval + 1) * (interval + 1) == interval * interval + 2 * interval + 1;
    }
  }

  /** The time between drops number count and count + 1 of an episode. */
  function Gap(interval: nat, count: nat): (r: nat)
    requires count >= 1
    ensures IsGap(interval, count, r)
  {
    GapFrom(interval, count, 0)
  }

  /** Successive gaps never grow. */
  lemma GapsShrink(interval: nat, c: nat, d: nat)
    requires 1 <= c <= d
    ensures Gap(interval, d) <= Gap(interval, c)
  {
    var g, h := Gap(interval, c), Gap(interval, d);
    if h > g {
      assert h * h >= (g + 1) * (g + 1) by { MulMono(g + 1, h); }
      ProductMono((g + 1) * (g + 1), h * h, c, d);
    }
  }

  datatype Codel = Codel(
    target: nat, interval: nat,
    firstAbove: nat,     // first_above_time_
    dropNext: nat,       // drop_next_
    count: nat, lastCount: nat, dropping: bool)

  /** control_law */
  function ControlLaw(s: Codel, t: nat, count: nat): nat
    requires count >= 1
  {
    t + Gap(s.interval, count)
  }

  datatype Popped = Popped(state: Codel, okToDrop: bool)

  /** dodequeue: the packet it returns is the head of the queue. */
  function DoDequeue(s: Codel, q: seq<Packet>, now: nat): (r: Popped)
    requires q != []
    ensures r.okToDrop ==> q[1..] != []
    ensures r.state == s.(firstAbove := r.state.firstAbove)
  {
    var rest := q[1..];
    if rest == [] then Popped(s.(firstAbove := 0), false)
    else
      var sojourn := (now - q[0].arrivalTime) % UINT64;
      if sojourn < s.target || Bytes(rest) <= PACKET_SIZE then Popped(s.(firstAbove := 0), false)
      else if s.firstAbove == 0 then Popped(s.(firstAbove := now + s.interval), false)
      else Popped(s, now >= s.firstAbove)
  }

  datatype State = State(codel: Codel, queue: seq<Packet>)

  /** The drop loop of dequeue. */
  function DropLoop(s: Codel, q: seq<Packet>, now: nat): State
    requires s.dropping ==> q != []
    decreases |q|
  {
    if !s.dropping || now < s.dropNext then State(s, q)
    else
      var r := DoDequeue(s, q, now);
      var t := r.state.(count := s.count + 1);
      if !r.okToDrop then State(t.(dropping := false), q[1..])
      else DropLoop(t.(dropNext := ControlLaw(t, s.dropNext, t.count)), q[1..], now)
  }

  /** Invariant of every run. */
  ghost predicate Counted(c: Codel)
  {
    c.lastCount <= c.count && (c.dropping ==> c.count >= 1)
  }

  /** The first drop of an episode, resuming the count of a recent one. */
  function EnterEpisode(c: Codel, q: seq<Packet>, now: nat): (t: State)
    requires q != [] && c.lastCount <= c.count
    ensures t.queue == q[1..] && Counted(t.codel) && t.codel.interval == c.interval
  {
    var c2 := DoDequeue(c, q, now).state;
    var delta := c.count - c.lastCount;
    var count := if delta > 1 && (now - c.dropNext) % UINT64 < 16 * c.interval % UINT32 then delta else 1;
    State(c2.(dropping := true, count := count, dropNext := ControlLaw(c2, now, count), lastCount := count), q[1..])
  }

  /** dequeue: the packet returned is the first one popped, the head of the queue. */
  function AfterDequeue(s: State, now: nat): State
    requires s.queue != [] && s.codel.lastCount <= s.codel.count
  {
    var r := DoDequeue(s.codel, s.queue, now);
    var c, q := r.state, s.queue[1..];
    if c.dropping then
      DropLoop(if r.okToDrop then c else c.(dropping := false), q, now)
    else if r.okToDrop then EnterEpisode(c, q, now)
    else State(c, q)
  }

  /** The total of the gaps number a + 1 up to number b. */
  function SumGaps(interval: nat, a: nat, b: nat): nat
    requires a <= b
    decreases b - a
  {
    if a == b then 0 else Gap(interval, a + 1) + SumGaps(interval, a + 1, b)
  }

  lemma {:induction false} SumGapsSplit(interval: nat, a: nat, b: nat, c: nat)
    requires a <= b <= c
    ensures SumGaps(interval, a, c) == SumGaps(interval, a, b) + SumGaps(interval, b, c)
    decreases b - a
  {
    if a < b {
      SumGapsSplit(interval, a + 1, b, c);
    }
  }

  /** Where one loop or call leaves the queue and the control law. */
  ghost predicate Advanced(s: State, t: State, now: nat)
  {
    && |t.queue| <= |s.queue| && t.queue == s.queue[|s.queue| - |t.queue|..]
    && t.codel.lastCount == s.codel.lastCount && s.codel.count <= t.codel.count
    && t.codel.interval == s.codel.interval
    && (!t.codel.dropping || t.codel.dropNext > now)
    && (t.codel.dropping ==> s.codel.dropping)
    && (t.codel.dropping ==>
          t.codel.dropNext == s.codel.dropNext + SumGaps(s.codel.interval, s.codel.count, t.codel.count))
  }

  lemma {:induction false} DropLoopAdvances(s: Codel, q: seq<Packet>, now: nat)
    requires s.dropping ==> q != []
    ensures Advanced(State(s, q), DropLoop(s, q, now), now)
    ensures s.dropping && now >= s.dropNext ==> |DropLoop(s, q, now).queue| < |q|
    decreases |q|
  {
    hide Gap;
    hide DoDequeue;
    hide SumGaps;
    hide Advanced;
    if s.dropping && now >= s.dropNext {
      var r := DoDequeue(s, q, now);
      if r.okToDrop {
        var t := r.state.(count := s.count + 1, dropNext := ControlLaw(s, s.dropNext, s.count + 1));
        DropLoopAdvances(t, q[1..], now);
        OneDropAdvances(s, q, t, DropLoop(t, q[1..], now), now);
      } else {
        LastDropAdvances(s, q, r.state, now);
      }
    } else {
      NoDropAdvances(s, q, now);
    }
  }

  lemma NoDropAdvances(s: Codel, q: seq<Packet>, now: nat)
    requires !s.dropping || now < s.dropNext
    ensures Advanced(State(s, q), State(s, q), now)
  {
    assert q[0..] == q;
  }

  lemma LastDropAdvances(s: Codel, q: seq<Packet>, t: Codel, now: nat)
    requires q != [] && t == s.(firstAbove := t.firstAbove)
    ensures Advanced(State(s, q), State(t.(count := s.count + 1, dropping := false), q[1..]), now)
  {
  }

  lemma OneDropAdvances(s: Codel, q: seq<Packet>, t: Codel, u: State, now: nat)
    requires q != [] && s.dropping && Advanced(State(t, q[1..]), u, now)
    requires t == s.(firstAbove := t.firstAbove, count := s.count + 1,
                     dropNext := ControlLaw(s, s.dropNext, s.count + 1))
    ensures Advanced(State(s, q), u, now) && |u.queue| < |q|
  {
    hide Gap;
    hide SumGaps;
    SumGapsHead(s.interval, s.count, u.codel.count);
    assert q[1..][|q[1..]| - |u.queue|..] == q[|q| - |u.queue|..];
  }

  lemma SumGapsHead(interval: nat, a: nat, b: nat)
    requires a <= b
    ensures SumGaps(interval, a, b) == if a == b then 0 else Gap(interval, a + 1) + SumGaps(interval, a + 1, b)
  {
  }

  /** What every dequeue does: removes a non-empty prefix, keeps the rest untouched, keeps the
      counters in order, and leaves a dropping episode with dropping_ cleared or drop_next_ in
      the future. Within an episode drop_next_ advances by exactly the gaps of its drops. */
  lemma DequeueSafe(s: State, now: nat)
    requires s.queue != [] && Counted(s.codel)
    ensures SafelyDequeued(s, AfterDequeue(s, now), now)
  {
    hide Gap;
    hide DoDequeue;
    hide DropLoop;
    hide SumGaps;
    hide EnterEpisode;
    hide SafelyDequeued;
    var r := DoDequeue(s.codel, s.queue, now);
    var q := s.queue[1..];
    if s.codel.dropping {
      DroppingSafe(s, if r.okToDrop then r.state else r.state.(dropping := false), now);
    } else if r.okToDrop {
      EnteringSafe(s, r.state, now);
    } else {
      OnePopSafe(s, r.state, now);
    }
  }

  ghost predicate SafelyDequeued(s: State, t: State, now: nat)
  {
    && Counted(t.codel)
    && |t.queue| < |s.queue| && t.queue == s.queue[|s.queue| - |t.queue|..]
    && (s.codel.dropping ==> !t.codel.dropping || t.codel.dropNext > now)
    && (s.codel.dropping && t.codel.dropping ==>
          s.codel.count <= t.codel.count
          && t.codel.dropNext == s.codel.dropNext + SumGaps(s.codel.interval, s.codel.count, t.codel.count))
    && t.codel.interval == s.codel.interval
  }

  lemma DroppingSafe(s: State, c: Codel, now: nat)
    requires s.queue != [] && Counted(s.codel) && s.codel.dropping
    requires c == s.codel.(firstAbove := c.firstAbove, dropping := c.dropping)
    requires c.dropping ==> s.queue[1..] != []
    ensures SafelyDequeued(s, DropLoop(c, s.queue[1..], now), now)
  {
    hide DropLoop;
    hide SumGaps;
    var q := s.queue[1..];
    DropLoopAdvances(c, q, now);
    var t := DropLoop(c, q, now);
    assert q[|q| - |t.queue|..] == s.queue[|s.queue| - |t.queue|..];
  }

  lemma EnteringSafe(s: State, c: Codel, now: nat)
    requires s.queue != [] && s.queue[1..] != [] && Counted(s.codel) && !s.codel.dropping
    requires c == s.codel.(firstAbove := c.firstAbove)
    ensures SafelyDequeued(s, EnterEpisode(c, s.queue[1..], now), now)
  {
    hide EnterEpisode;
    hide SumGaps;
    assert s.queue[1..][1..] == s.queue[2..];
  }

  lemma OnePopSafe(s: State, c: Codel, now: nat)
    requires s.queue != [] && Counted(s.codel) && !s.codel.dropping
    requires c == s.codel.(firstAbove := c.firstAbove)
    ensures SafelyDequeued(s, State(c, s.queue[1..]), now)
  {
    hide SumGaps;
  }

  /** Packets are dropped behind the one returned when the first pop allows it and, in an
      episode, the next drop is due. */
  lemma DropsOnVerdict(s: State, now: nat)
    requires s.queue != [] && Counted(s.codel)
    ensures |AfterDequeue(s, now).queue| < |s.queue| - 1
       <==> DoDequeue(s.codel, s.queue, now).okToDrop && (s.codel.dropping ==> now >= s.codel.dropNext)
  {
    hide Gap;
    hide DoDequeue;
    hide SumGaps;
    var r := DoDequeue(s.codel, s.queue, now);
    if s.codel.dropping {
      DropLoopAdvances(if r.okToDrop then r.state else r.state.(dropping := false), s.queue[1..], now);
    }
  }

  datatype Event = Arrive(p: Packet) | Depart(now: nat)

  /** The link only asks a queue that is not empty. */
  function Apply(l: Limits, s: State, e: Event): State
    requires s.codel.lastCount <= s.codel.count
  {
    match e
    case Arrive(p) => s.(queue := DropTail(l, s.queue, p))
    case Depart(now) => if s.queue == [] then s else AfterDequeue(s, now)
  }

  function Run(l: Limits, s: State, events: seq<Event>): (t: State)
    requires Counted(s.codel)
    ensures Counted(t.codel)
    decreases |events|
  {
    if events == [] then s
    else
      var u := Apply(l, s, events[0]);
      (if events[0].Depart? && s.queue != [] then DequeueSafe(s, events[0].now); Run(l, u, events[1..])
       else Run(l, u, events[1..]))
  }

  /** Some dropping episode lasts through the whole run. */
  ghost predicate OneEpisode(l: Limits, s: State, events: seq<Event>)
    requires Counted(s.codel)
    decreases |events|
  {
    s.codel.dropping && (events != [] ==>
      var u := Apply(l, s, events[0]);
      Counted(u.codel) && OneEpisode(l, u, events[1..]))
  }

  /** Over any run: the queue stays within its limits, and throughout an episode drop_next_
      only moves forward, by the gaps of the drops in it. */
  lemma {:induction false} RunSafe(l: Limits, s: State, events: seq<Event>)
    requires Counted(s.codel) && Good(l, s.queue)
    ensures Good(l, Run(l, s, events).queue)
    ensures OneEpisode(l, s, events) ==> Forward(s, Run(l, s, events))
    decreases |events|
  {
    hide Gap;
    hide AfterDequeue;
    hide SumGaps;
    hide Good;
    hide DropTail;
    if events == [] {
      ForwardStays(s);
    } else {
      var u := Apply(l, s, events[0]);
      EventSafe(l, s, events[0]);
      RunSafe(l, u, events[1..]);
      if OneEpisode(l, s, events) {
        EpisodeContinues(l, s, events);
        ForwardTwice(s, u, Run(l, s, events));
      }
    }
  }

  lemma EpisodeContinues(l: Limits, s: State, events: seq<Event>)
    requires Counted(s.codel) && events != [] && OneEpisode(l, s, events)
    ensures var u := Apply(l, s, events[0]); Counted(u.codel) && u.codel.dropping && OneEpisode(l, u, events[1..])
  {
    hide AfterDequeue;
    hide DropTail;
  }

  /** drop_next_ has moved forward by exactly the gaps of the drops in between. */
  ghost predicate Forward(s: State, t: State)
  {
    && s.codel.interval == t.codel.interval && s.codel.count <= t.codel.count
    && t.codel.dropNext == s.codel.dropNext + SumGaps(s.codel.interval, s.codel.count, t.codel.count)
  }

  lemma ForwardStays(s: State)
    ensures Forward(s, s)
  {
  }

  lemma ForwardTwice(s: State, t: State, u: State)
    requires Forward(s, t) && Forward(t, u)
    ensures Forward(s, u)
  {
    hide SumGaps;
    SumGapsSplit(s.codel.interval, s.codel.count, t.codel.count, u.codel.count);
  }

  /** Any single event keeps the limits and, within an episode, the control law. */
  lemma EventSafe(l: Limits, s: State, e: Event)
    requires Counted(s.codel) && Good(l, s.queue)
    ensures var u := Apply(l, s, e);
      Counted(u.codel) && Good(l, u.queue) && (s.codel.dropping && u.codel.dropping ==> Forward(s, u))
  {
    hide Gap;
    hide AfterDequeue;
    hide Good;
    hide SumGaps;
    var u := Apply(l, s, e);
    ForwardStays(s);
    match e
    case Arrive(p) => ArriveGood(l, s.queue, p);
    case Depart(now) =>
      if s.queue != [] {
        DequeueSafe(s, now);
        SuffixGood(l, s.queue, |s.queue| - |u.queue|);
      }
  }

  lemma ArriveGood(l: Limits, q: seq<Packet>, p: Packet)
    requires Good(l, q)
    ensures Good(l, DropTail(l, q, p))
  {
    hide Good;
  }

  class CodelPacketQueue {
    const base: DroppingPacketQueue
    const target: nat
    const interval: nat
    var firstAboveTime: nat
    var dropNext: nat
    var count: nat
    var lastCount: nat
    var dropping: bool

    function Model(): State
      reads this, base
    {
      State(Codel(target, interval, firstAboveTime, dropNext, count, lastCount, dropping), base.internalQueue)
    }

    ghost predicate Valid()
      reads this, base
    {
      base.Valid() && Good(base.limits, base.internalQueue) && Counted(Model().codel)
    }

    constructor (limits: Limits, target: nat, interval: nat)
      requires (limits.packets != 0 || limits.bytes != 0) && target != 0 && interval != 0
      ensures Valid() && fresh(base) && base.limits == limits
      ensures Model() == State(Codel(target, interval, 0, 0, 0, 0, false), [])
    {
      this.target, this.interval := target, interval;
      firstAboveTime, dropNext, count, lastCount, dropping := 0, 0, 0, 0, false;
      base := new DroppingPacketQueue(limits);
    }

    method Enqueue(p: Packet)
      requires Valid()
      modifies base
      ensures Valid() && Model() == Apply(base.limits, old(Model()), Arrive(p))
    {
      base.EnqueueDropTail(p);
    }

    /** dodequeue */
    method PopOne(now: nat) returns (p: Packet, okToDrop: bool)
      requires base.Valid() && Good(base.limits, base.internalQueue) && base.internalQueue != []
      modifies this`firstAboveTime, base
      ensures base.Valid() && Good(base.limits, base.internalQueue)
      ensures p == old(base.internalQueue)[0]
      ensures var r := DoDequeue(old(Model()).codel, old(base.internalQueue), now);
        okToDrop == r.okToDrop && Model() == State(r.state, old(base.internalQueue)[1..])
    {
      SuffixGood(base.limits, base.internalQueue, 1);
      var good: bool;
      p, good := base.Dequeue();
      assert good;
      okToDrop := false;
      if base.internalQueue == [] {
        firstAboveTime := 0;
        return;
      }
      var sojourn := (now - p.arrivalTime) % UINT64;
      if sojourn < target || base.SizeBytes() <= PACKET_SIZE {
        firstAboveTime := 0;
      } else if firstAboveTime == 0 {
        firstAboveTime := now + interval;
      } else if now >= firstAboveTime {
        okToDrop := true;
      }
    }

    /** The drop loop of dequeue. */
    method DropWhileDue(now: nat)
      requires base.Valid() && Good(base.limits, base.internalQueue)
      requires dropping ==> base.internalQueue != []
      modifies this, base
      ensures base.Valid() && Good(base.limits, base.internalQueue)
      ensures Model() == DropLoop(old(Model()).codel, old(base.internalQueue), now)
    {
      hide Gap;
      hide DoDequeue;
      ghost var before := Model();
      while now >= dropNext && dropping
        invariant base.Valid() && Good(base.limits, base.internalQueue)
        invariant dropping ==> base.internalQueue != []
        invariant DropLoop(Model().codel, base.internalQueue, now) == DropLoop(before.codel, before.queue, now)
        decreases |base.internalQueue|
      {
        var dropped, ok := PopOne(now);
        count := count + 1;
        if !ok {
          dropping := false;
        } else {
          dropNext := dropNext + Gap(interval, count);
        }
      }
    }

    /** The start of a dropping episode. */
    method StartDropping(now: nat)
      requires base.Valid() && Good(base.limits, base.internalQueue) && base.internalQueue != [] && lastCount <= count
      modifies this, base
      ensures base.Valid() && Good(base.limits, base.internalQueue)
      ensures Model() == EnterEpisode(old(Model()).codel, old(base.internalQueue), now)
    {
      hide Gap;
      hide DoDequeue;
      var dropped, ok := PopOne(now);
      dropping := true;
      var delta := count - lastCount;
      count := if delta > 1 && (now - dropNext) % UINT64 < 16 * interval % UINT32 then delta else 1;
      dropNext := now + Gap(interval, count);
      lastCount := count;
    }

    /** dequeue: `r` of the outer scope is returned, whatever is popped after it. */
    method Dequeue(now: nat) returns (p: Packet)
      requires Valid() && base.internalQueue != []
      modifies this, base
      ensures Valid() && p == old(base.internalQueue)[0]
      ensures Model() == AfterDequeue(old(Model()), now)
    {
      hide DoDequeue;
      hide DropLoop;
      hide EnterEpisode;
      DequeueSafe(Model(), now);
      var okToDrop: bool;
      p, okToDrop := PopOne(now);
      if dropping {
        if !okToDrop {
          dropping := false;
        }
        DropWhileDue(now);
      } else if okToDrop {
        StartDropping(now);
      }
    }
  }
}
