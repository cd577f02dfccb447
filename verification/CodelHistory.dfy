/** What CoDel's state says about the past: a drop is allowed when the delay has been above
    target, with more than a packet's worth waiting, for at least an interval. */
module CodelHistory {
  import opened Packets
  import opened DroppingQueue
  import opened Machine
  import opened CodelQueue

  /** One packet taken off the queue: when, and whether it had waited for the target or longer
      with more than one full-sized packet's worth of bytes behind it. */
  datatype Pop = Pop(time: nat, above: bool)

  predicate Above(c: Codel, q: seq<Packet>, now: nat)
    requires q != []
  {
    q[1..] != [] && (now - q[0].arrivalTime) % UINT64 >= c.target && Bytes(q[1..]) > PACKET_SIZE
  }

  function PopOf(c: Codel, q: seq<Packet>, now: nat): Pop
    requires q != []
  {
    Pop(now, Above(c, q, now))
  }

  /** Every pop from number j on was above target. */
  ghost predicate AboveSince(h: seq<Pop>, j: nat)
  {
    j < |h| && forall i :: j <= i < |h| ==> h[i].above
  }

  /** The pops have been above target without a break for at least this long. */
  ghost predicate AboveForInterval(h: seq<Pop>, interval: nat)
  {
    exists j: nat :: AboveSince(h, j) && h[j].time + interval <= h[|h| - 1].time
  }

  ghost predicate Timed(h: seq<Pop>, now: nat)
  {
    && (forall i, j :: 0 <= i < j < |h| ==> h[i].time <= h[j].time)
    && (forall i :: 0 <= i < |h| ==> h[i].time <= now)
  }

  /** Pop number j began the present stretch of pops above target. */
  ghost predicate Began(h: seq<Pop>, j: nat)
  {
    AboveSince(h, j) && (j > 0 ==> !h[j - 1].above)
  }

  /** first_above_time_ is an interval after the stretch began, or 0 when there is none. */
  ghost predicate Explains(h: seq<Pop>, c: Codel)
  {
    && c.interval > 0
    && (h == [] || !h[|h| - 1].above ==> c.firstAbove == 0)
    && (h != [] && h[|h| - 1].above ==>
        exists j: nat :: j < |h| && Began(h, j) && c.firstAbove == h[j].time + c.interval)
  }

  lemma BelowTarget(h: seq<Pop>, interval: nat)
    requires h != [] && !h[|h| - 1].above
    ensures !AboveForInterval(h, interval)
  {
  }

  lemma StretchBegins(h: seq<Pop>, now: nat, interval: nat)
    requires interval > 0 && (h == [] || !h[|h| - 1].above)
    ensures Began(h + [Pop(now, true)], |h|) && !AboveForInterval(h + [Pop(now, true)], interval)
  {
    var g := h + [Pop(now, true)];
    forall j: nat | AboveSince(g, j) ensures j == |h|
    {
      assert h != [] ==> !g[|h| - 1].above;
    }
  }

  lemma StretchGoesOn(h: seq<Pop>, now: nat, interval: nat, j: nat)
    requires h != [] && Began(h, j) && Timed(h, now)
    ensures Began(h + [Pop(now, true)], j)
    ensures AboveForInterval(h + [Pop(now, true)], interval) <==> h[j].time + interval <= now
  {
    var g := h + [Pop(now, true)];
    assert AboveSince(g, j) && g[j] == h[j] && g[|g| - 1].time == now;
    forall k: nat | AboveSince(g, k) ensures k >= j && g[j].time <= g[k].time
    {
      assert j > 0 ==> !g[j - 1].above;
    }
  }

  /** One pop: the verdict is what the history says, and the state keeps explaining it. */
  lemma PopExplained(c: Codel, q: seq<Packet>, now: nat, h: seq<Pop>)
    requires q != [] && Explains(h, c) && Timed(h, now)
    ensures var r := DoDequeue(c, q, now); var g := h + [PopOf(c, q, now)];
      && Explains(g, r.state) && Timed(g, now)
      && (r.okToDrop <==> AboveForInterval(g, c.interval))
  {
    hide AboveForInterval;
    hide Began;
    var g := h + [PopOf(c, q, now)];
    var r := DoDequeue(c, q, now);
    if !Above(c, q, now) {
      BelowTarget(g, c.interval);
    } else if h == [] || !h[|h| - 1].above {
      StretchBegins(h, now, c.interval);
      assert g[|h|].time == now;
    } else {
      var j: nat :| j < |h| && Began(h, j) && c.firstAbove == h[j].time + c.interval;
      StretchGoesOn(h, now, c.interval, j);
      assert g[j] == h[j];
    }
  }

  /** The state but for the fields the control law uses. */
  lemma SameHistory(h: seq<Pop>, c: Codel, d: Codel)
    requires Explains(h, c) && c.firstAbove == d.firstAbove && c.interval == d.interval
    ensures Explains(h, d)
  {
  }

  /** The pops of the drop loop. */
  function LoopPops(c: Codel, q: seq<Packet>, now: nat): seq<Pop>
    requires c.dropping ==> q != []
    decreases |q|
  {
    if !c.dropping || now < c.dropNext then []
    else
      var r := DoDequeue(c, q, now);
      [PopOf(c, q, now)]
      + (if r.okToDrop then
           LoopPops(NextDrop(c, q, now), q[1..], now)
         else [])
  }

  /** The pops of one dequeue. */
  function DequeuePops(s: State, now: nat): seq<Pop>
    requires s.queue != [] && s.codel.lastCount <= s.codel.count
  {
    var r := DoDequeue(s.codel, s.queue, now);
    [PopOf(s.codel, s.queue, now)]
    + (if s.codel.dropping && r.okToDrop then LoopPops(r.state, s.queue[1..], now)
       else if r.okToDrop then [PopOf(r.state, s.queue[1..], now)]
       else [])
  }

  function NextDrop(c: Codel, q: seq<Packet>, now: nat): Codel
    requires q != []
  {
    DoDequeue(c, q, now).state.(count := c.count + 1, dropNext := ControlLaw(c, c.dropNext, c.count + 1))
  }

  lemma LoopTurn(c: Codel, q: seq<Packet>, now: nat)
    requires c.dropping && q != [] && now >= c.dropNext
    ensures var r := DoDequeue(c, q, now);
      if r.okToDrop then
        && DropLoop(c, q, now) == DropLoop(NextDrop(c, q, now), q[1..], now)
        && LoopPops(c, q, now) == [PopOf(c, q, now)] + LoopPops(NextDrop(c, q, now), q[1..], now)
      else
        && DropLoop(c, q, now).codel == r.state.(count := c.count + 1, dropping := false)
        && LoopPops(c, q, now) == [PopOf(c, q, now)]
  {
    hide DoDequeue;
    hide PopOf;
    hide ControlLaw;
    LoopDrops(c, q, now);
    hide DropLoop;
    hide NextDrop;
  }

  lemma LoopDrops(c: Codel, q: seq<Packet>, now: nat)
    requires c.dropping && q != [] && now >= c.dropNext
    ensures var r := DoDequeue(c, q, now);
      DropLoop(c, q, now) ==
      if r.okToDrop then DropLoop(NextDrop(c, q, now), q[1..], now)
      else State(r.state.(count := c.count + 1, dropping := false), q[1..])
  {
    hide Gap;
    hide DoDequeue;
  }

  lemma LoopNotDue(c: Codel, q: seq<Packet>, now: nat)
    requires c.dropping && q != [] && now < c.dropNext
    ensures DropLoop(c, q, now).codel == c && LoopPops(c, q, now) == []
  {
  }

  /** The loop goes on dropping as long as the history allows. */
  lemma {:induction false} LoopExplained(c: Codel, q: seq<Packet>, now: nat, h: seq<Pop>)
    requires c.dropping && q != [] && Explains(h, c) && Timed(h, now) && AboveForInterval(h, c.interval)
    ensures var t := DropLoop(c, q, now).codel; var g := h + LoopPops(c, q, now);
      && Explains(g, t) && Timed(g, now) && t.interval == c.interval
      && (t.dropping <==> AboveForInterval(g, c.interval))
    decreases |q|
  {
    hide Gap;
    hide DoDequeue;
    hide Explains;
    hide Timed;
    hide AboveForInterval;
    hide PopOf;
    hide DropLoop;
    hide LoopPops;
    if now < c.dropNext {
      LoopNotDue(c, q, now);
      assert h + [] == h;
    } else {
      var r := DoDequeue(c, q, now);
      var g := h + [PopOf(c, q, now)];
      PopExplained(c, q, now, h);
      LoopTurn(c, q, now);
      if r.okToDrop {
        var d := NextDrop(c, q, now);
        SameHistory(g, r.state, d);
        LoopExplained(d, q[1..], now, g);
        assert g + LoopPops(d, q[1..], now) == h + LoopPops(c, q, now);
      } else {
        SameHistory(g, r.state, r.state.(count := c.count + 1, dropping := false));
      }
    }
  }

  /** One dequeue: the state keeps explaining the history, and an episode goes on exactly as long
      as the history allows drops. */
  lemma DequeueExplained(s: State, now: nat, h: seq<Pop>)
    requires s.queue != [] && Counted(s.codel) && Explains(h, s.codel) && Timed(h, now)
    ensures var t := AfterDequeue(s, now).codel; var g := h + DequeuePops(s, now);
      && Explains(g, t) && Timed(g, now) && t.interval == s.codel.interval
      && (s.codel.dropping ==> (t.dropping <==> AboveForInterval(g, s.codel.interval)))
  {
    hide Gap;
    hide DoDequeue;
    hide Explains;
    hide Timed;
    hide AboveForInterval;
    hide PopOf;
    hide DropLoop;
    hide LoopPops;
    var c := s.codel;
    var r := DoDequeue(c, s.queue, now);
    var first := h + [PopOf(c, s.queue, now)];
    PopExplained(c, s.queue, now, h);
    if c.dropping && r.okToDrop {
      LoopExplained(r.state, s.queue[1..], now, first);
      assert first + LoopPops(r.state, s.queue[1..], now) == h + DequeuePops(s, now);
    } else if r.okToDrop {
      PopExplained(r.state, s.queue[1..], now, first);
      var second := first + [PopOf(r.state, s.queue[1..], now)];
      assert second == h + DequeuePops(s, now);
      SameHistory(second, DoDequeue(r.state, s.queue[1..], now).state, AfterDequeue(s, now).codel);
    } else {
      LoopStops(r.state.(dropping := false), s.queue[1..], now);
      assert first == h + DequeuePops(s, now);
      SameHistory(first, r.state, AfterDequeue(s, now).codel);
    }
  }

  lemma LoopStops(c: Codel, q: seq<Packet>, now: nat)
    requires !c.dropping
    ensures DropLoop(c, q, now) == State(c, q)
  {
  }

  /** The pops of a run. */
  function Pops(l: Limits, s: State, events: seq<Event>): seq<Pop>
    requires Counted(s.codel)
    decreases |events|
  {
    if events == [] then []
    else
      EventCounted(l, s, events[0]);
      (if events[0].Depart? && s.queue != [] then DequeuePops(s, events[0].now) else [])
      + Pops(l, Apply(l, s, events[0]), events[1..])
  }

  lemma EventCounted(l: Limits, s: State, e: Event)
    requires Counted(s.codel)
    ensures Counted(Apply(l, s, e).codel)
  {
    hide AfterDequeue;
    if e.Depart? && s.queue != [] {
      DequeueSafe(s, e.now);
    }
  }

  /** The clock does not go back from one dequeue to the next. */
  ghost predicate Clocked(events: seq<Event>, from: nat, till: nat)
    decreases |events|
  {
    if events == [] then from <= till
    else if events[0].Depart? then from <= events[0].now && Clocked(events[1..], events[0].now, till)
    else Clocked(events[1..], from, till)
  }

  lemma {:induction false} RunExplained(l: Limits, s: State, events: seq<Event>, h: seq<Pop>, from: nat, till: nat)
    requires Counted(s.codel) && Explains(h, s.codel) && Timed(h, from) && Clocked(events, from, till)
    ensures var t := Run(l, s, events).codel; var g := h + Pops(l, s, events);
      Explains(g, t) && Timed(g, till) && t.interval == s.codel.interval
    decreases |events|
  {
    hide AfterDequeue;
    hide DequeuePops;
    hide Explains;
    hide Timed;
    hide DropTail;
    if events == [] {
      assert h + [] == h;
      LaterTimed(h, from, till);
    } else {
      var e, u := events[0], Apply(l, s, events[0]);
      EventCounted(l, s, e);
      var more: seq<Pop> := if e.Depart? && s.queue != [] then DequeuePops(s, e.now) else [];
      if e.Depart? {
        LaterTimed(h, from, e.now);
        if s.queue != [] {
          DequeueExplained(s, e.now, h);
        }
      }
      assert h + [] == h;
      RunExplained(l, u, events[1..], h + more, if e.Depart? then e.now else from, till);
      assert h + more + Pops(l, u, events[1..]) == h + Pops(l, s, events);
    }
  }

  lemma LaterTimed(h: seq<Pop>, a: nat, b: nat)
    requires Timed(h, a) && a <= b
    ensures Timed(h, b)
  {
  }

  /** The queue as constructed. */
  function Fresh(target: nat, interval: nat): State
  {
    State(Codel(target, interval, 0, 0, 0, 0, false), [])
  }

  /** After any run with a clock that does not go back, a dequeue drops packets behind the one it
      returns exactly when the pops, that one included, have been above target without a break
      for at least an interval and, in an episode, the next drop is due. */
  lemma DropsExactlyWhen(l: Limits, target: nat, interval: nat, events: seq<Event>, now: nat)
    requires interval > 0 && Clocked(events, 0, now)
    requires Run(l, Fresh(target, interval), events).queue != []
    ensures var s := Run(l, Fresh(target, interval), events);
      var h := Pops(l, Fresh(target, interval), events) + [PopOf(s.codel, s.queue, now)];
      |AfterDequeue(s, now).queue| < |s.queue| - 1
      <==> AboveForInterval(h, interval) && (s.codel.dropping ==> now >= s.codel.dropNext)
  {
    hide Run;
    hide Pops;
    hide AfterDequeue;
    hide DoDequeue;
    hide AboveForInterval;
    hide PopOf;
    var start := Fresh(target, interval);
    var s := Run(l, start, events);
    RunExplained(l, start, events, [], 0, now);
    assert [] + Pops(l, start, events) == Pops(l, start, events);
    PopExplained(s.codel, s.queue, now, Pops(l, start, events));
    DropsOnVerdict(s, now);
  }

  /** A dropping episode goes on after a dequeue exactly when the same is true of all the pops up
      to the last one the dequeue made. */
  lemma EpisodeGoesOn(l: Limits, target: nat, interval: nat, events: seq<Event>, now: nat)
    requires interval > 0 && Clocked(events, 0, now)
    requires var s := Run(l, Fresh(target, interval), events); s.queue != [] && s.codel.dropping
    ensures var s := Run(l, Fresh(target, interval), events);
      var h := Pops(l, Fresh(target, interval), events) + DequeuePops(s, now);
      AfterDequeue(s, now).codel.dropping <==> AboveForInterval(h, interval)
  {
    hide Run;
    hide Pops;
    hide AfterDequeue;
    hide DequeuePops;
    hide AboveForInterval;
    var start := Fresh(target, interval);
    RunExplained(l, start, events, [], 0, now);
    assert [] + Pops(l, start, events) == Pops(l, start, events);
    DequeueExplained(Run(l, start, events), now, Pops(l, start, events));
  }
}
