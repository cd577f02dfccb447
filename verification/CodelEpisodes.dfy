/** How CoDel's dropping episodes begin: the count they resume, the gap to the second drop, and
    that nothing is dropped before it has passed. */
module CodelEpisodes {
  import opened Packets
  import opened DroppingQueue
  import opened Machine
  import opened CodelQueue
  import opened CodelHistory

  /** The packets one dequeue drops: all those it takes but the one it returns. */
  function Lost(s: State, now: nat): int
    requires s.queue != [] && s.codel.lastCount <= s.codel.count
  {
    |s.queue| - 1 - |AfterDequeue(s, now).queue|
  }

  /** The drop loop counts the packets it drops. */
  lemma {:induction false} LoopCounts(c: Codel, q: seq<Packet>, now: nat)
    requires c.dropping ==> q != []
    ensures var t := DropLoop(c, q, now);
      && |t.queue| <= |q| && t.codel.count == c.count + |q| - |t.queue|
      && t.codel.lastCount == c.lastCount
      && (t.queue == q ==> t.codel == c)
    decreases |q|
  {
    hide Gap;
    hide DoDequeue;
    if c.dropping && now >= c.dropNext {
      LoopDrops(c, q, now);
      if DoDequeue(c, q, now).okToDrop {
        LoopCounts(NextDrop(c, q, now), q[1..], now);
      }
    }
  }

  /** A dequeue at `now` that begins an episode. */
  ghost predicate Begins(s: State, now: nat)
    requires s.queue != [] && s.codel.lastCount <= s.codel.count
  {
    !s.codel.dropping && AfterDequeue(s, now).codel.dropping
  }

  /** The end of the last episode, `was`, lies less than sixteen intervals back. */
  predicate Recent(was: Codel, now: nat)
  {
    (now - was.dropNext) % UINT64 < 16 * was.interval % UINT32
  }

  lemma RecentMeans(was: Codel, now: nat)
    requires now < UINT64 && was.dropNext < UINT64 && 16 * was.interval < UINT32
    requires was.dropNext + UINT32 <= now + UINT64
    ensures Recent(was, now) <==> was.dropNext <= now < was.dropNext + 16 * was.interval
  {
    if now < was.dropNext {
      assert (now - was.dropNext) % UINT64 == now - was.dropNext + UINT64;
    } else {
      assert (now - was.dropNext) % UINT64 == now - was.dropNext;
    }
  }

  /** What a dequeue does to the counts, in each of the three cases. */
  lemma DequeueCounts(s: State, now: nat)
    requires s.queue != [] && Counted(s.codel)
    ensures var t := AfterDequeue(s, now).codel;
      && (s.codel.dropping ==> t.count == s.codel.count + Lost(s, now) && t.lastCount == s.codel.lastCount)
      && (!s.codel.dropping && !t.dropping ==>
            Lost(s, now) == 0 && t.count == s.codel.count && t.lastCount == s.codel.lastCount
            && t.dropNext == s.codel.dropNext)
      && (Begins(s, now) ==>
            && Lost(s, now) == 1 && t.lastCount == t.count && t.dropNext >= now
            && IsGap(s.codel.interval, t.count, t.dropNext - now)
            && t.count == (var n := s.codel.count - s.codel.lastCount; if n > 1 && Recent(s.codel, now) then n else 1))
  {
    hide Gap;
    hide DoDequeue;
    hide DropLoop;
    hide IsGap;
    var r := DoDequeue(s.codel, s.queue, now);
    if s.codel.dropping {
      LoopCounts(if r.okToDrop then r.state else r.state.(dropping := false), s.queue[1..], now);
    }
  }

  /** The packets dropped since the second one of the last episode, when `n` had been before the
      event. */
  function DroppedSince(s: State, e: Event, n: int): int
    requires Counted(s.codel)
  {
    if e.Arrive? || s.queue == [] then n
    else if s.codel.dropping then n + Lost(s, e.now)
    else if AfterDequeue(s, e.now).codel.dropping then 0
    else n
  }

  /** The packets dropped in the last episode after the first. */
  function EpisodeDrops(l: Limits, s: State, events: seq<Event>, n: int): int
    requires Counted(s.codel)
    decreases |events|
  {
    if events == [] then n
    else
      EventCounted(l, s, events[0]);
      EpisodeDrops(l, Apply(l, s, events[0]), events[1..], DroppedSince(s, events[0], n))
  }

  /** count_ - lastcount_ is their number, over every run. */
  lemma {:induction false} CountsDrops(l: Limits, s: State, events: seq<Event>)
    requires Counted(s.codel)
    ensures var t := Run(l, s, events).codel;
      t.count - t.lastCount == EpisodeDrops(l, s, events, s.codel.count - s.codel.lastCount)
    decreases |events|
  {
    hide AfterDequeue;
    hide DropTail;
    hide Lost;
    hide IsGap;
    if events != [] {
      EventCounted(l, s, events[0]);
      if events[0].Depart? && s.queue != [] {
        DequeueCounts(s, events[0].now);
      }
      CountsDrops(l, Apply(l, s, events[0]), events[1..]);
    }
  }

  /** After any run, a dequeue that begins an episode drops one packet, sets the next drop one gap
      ahead of now, and counts from the number of drops the last episode made after its first, if
      that is more than one and that episode is recent, and otherwise from one. */
  lemma EpisodeBegins(l: Limits, target: nat, interval: nat, events: seq<Event>, now: nat)
    requires var s := Run(l, Fresh(target, interval), events); s.queue != [] && Begins(s, now)
    ensures var s := Run(l, Fresh(target, interval), events); var t := AfterDequeue(s, now).codel;
      var n := EpisodeDrops(l, Fresh(target, interval), events, 0);
      && |AfterDequeue(s, now).queue| == |s.queue| - 2
      && t.count == (if n > 1 && Recent(s.codel, now) then n else 1) && t.lastCount == t.count
      && t.dropNext >= now && IsGap(interval, t.count, t.dropNext - now)
  {
    hide AfterDequeue;
    hide Run;
    hide EpisodeDrops;
    hide IsGap;
    hide Recent;
    var start := Fresh(target, interval);
    CountsDrops(l, start, events);
    DequeueCounts(Run(l, start, events), now);
    RunInterval(l, start, events);
  }

  lemma {:induction false} RunInterval(l: Limits, s: State, events: seq<Event>)
    requires Counted(s.codel)
    ensures Run(l, s, events).codel.interval == s.codel.interval
    decreases |events|
  {
    hide AfterDequeue;
    hide DropTail;
    if events != [] {
      EventCounted(l, s, events[0]);
      if events[0].Depart? && s.queue != [] {
        DequeueSafe(s, events[0].now);
      }
      RunInterval(l, Apply(l, s, events[0]), events[1..]);
    }
  }

  /** All the packets the dequeues of a run drop. */
  function Dropped(l: Limits, s: State, events: seq<Event>): int
    requires Counted(s.codel)
    decreases |events|
  {
    if events == [] then 0
    else
      EventCounted(l, s, events[0]);
      (if events[0].Depart? && s.queue != [] then Lost(s, events[0].now) else 0)
      + Dropped(l, Apply(l, s, events[0]), events[1..])
  }

  ghost predicate AllBefore(events: seq<Event>, time: nat)
  {
    forall i :: 0 <= i < |events| && events[i].Depart? ==> events[i].now < time
  }

  /** Through an episode nothing is dropped before drop_next_. */
  lemma {:induction false} NothingBefore(l: Limits, s: State, events: seq<Event>)
    requires Counted(s.codel) && OneEpisode(l, s, events) && AllBefore(events, s.codel.dropNext)
    ensures Dropped(l, s, events) == 0 && Run(l, s, events).codel.dropNext == s.codel.dropNext
    decreases |events|
  {
    hide AfterDequeue;
    hide DropTail;
    hide Lost;
    if events != [] {
      var u := Apply(l, s, events[0]);
      EventCounted(l, s, events[0]);
      EpisodeContinues(l, s, events);
      if events[0].Depart? && s.queue != [] {
        NotDue(s, events[0].now);
      }
      assert forall i :: 1 <= i < |events| ==> events[i] == events[1..][i - 1];
      NothingBefore(l, u, events[1..]);
    }
  }

  lemma NotDue(s: State, now: nat)
    requires s.queue != [] && Counted(s.codel) && s.codel.dropping && now < s.codel.dropNext
    requires AfterDequeue(s, now).codel.dropping
    ensures Lost(s, now) == 0 && AfterDequeue(s, now).codel.dropNext == s.codel.dropNext
  {
    hide DoDequeue;
    hide Gap;
    var r := DoDequeue(s.codel, s.queue, now);
    LoopStays(if r.okToDrop then r.state else r.state.(dropping := false), s.queue[1..], now);
  }

  lemma LoopStays(c: Codel, q: seq<Packet>, now: nat)
    requires (c.dropping ==> q != []) && (!c.dropping || now < c.dropNext)
    ensures DropLoop(c, q, now) == State(c, q)
  {
  }

  /** An episode that begins at `now` drops no second packet before its first gap has passed: the
      integer part of the interval over the root of the count. */
  lemma GapRespected(l: Limits, target: nat, interval: nat, before: seq<Event>, now: nat, after: seq<Event>, gap: nat)
    requires var s := Run(l, Fresh(target, interval), before); s.queue != [] && Begins(s, now)
    requires var s := Run(l, Fresh(target, interval), before); var t := AfterDequeue(s, now);
      IsGap(interval, t.codel.count, gap) && Counted(t.codel) && OneEpisode(l, t, after)
    requires AllBefore(after, now + gap)
    ensures var s := Run(l, Fresh(target, interval), before); Dropped(l, AfterDequeue(s, now), after) == 0
  {
    hide AfterDequeue;
    hide Run;
    hide EpisodeDrops;
    hide IsGap;
    hide Recent;
    hide OneEpisode;
    hide Dropped;
    EpisodeBegins(l, target, interval, before, now);
    var t := AfterDequeue(Run(l, Fresh(target, interval), before), now);
    GapUnique(interval, t.codel.count, gap, t.codel.dropNext - now);
    NothingBefore(l, t, after);
  }

  /** There is only one such integer. */
  lemma GapUnique(interval: nat, count: nat, g: nat, h: nat)
    requires IsGap(interval, count, g) && IsGap(interval, count, h)
    ensures g == h
  {
    if g < h {
      GapLess(interval, count, g, h);
    } else if h < g {
      GapLess(interval, count, h, g);
    }
  }

  lemma GapLess(interval: nat, count: nat, g: nat, h: nat)
    requires g < h
    ensures !(IsGap(interval, count, g) && IsGap(interval, count, h))
  {
    assert (g + 1) * (g + 1) <= h * h;
    ProductAtMost((g + 1) * (g + 1), h * h, count);
  }

  lemma ProductAtMost(a: nat, b: nat, c: nat)
    requires a <= b
    ensures a * c <= b * c
  {
  }
}
