/** The Proportional Integral controller Enhanced queue, with its timer simulated by catching
    up on the periods missed. Probabilities are real numbers. */
module PieQueue {
  import opened Arithmetic
  import opened Packets
  import opened DroppingQueue
  import opened Machine

  const DQ_COUNT_INVALID: nat := UINT32 - 1
  const T_UPDATE: nat := 30
  const DQ_THRESHOLD: nat := 16384
  const ALPHA: real := 0.125
  const BETA: real := 1.25

  datatype Pie = Pie(
    qdelayRef: uint32, maxBurst: uint32,
    dropProb: real,
    burstAllowance: uint32,
    qdelayOld: nat, currentQdelay: nat,
    dqCount: uint32, dqTstamp: uint32,
    avgDqRate: uint32,
    lastUpdate: nat)

  /** Conversion of an unsigned 32-bit difference to int. */
  function ToInt32(x: int): int
  {
    var m := x % UINT32;
    if m < UINT32 / 2 then m else m - UINT32
  }

  function Qdelay(s: Pie, bytes: nat): nat
  {
    if s.avgDqRate > 0 then bytes / s.avgDqRate else 0
  }

  /** The change of probability of one period, scaled by its present size. */
  function Adjustment(s: Pie, delay: nat): real
  {
    var p := ALPHA * (ToInt32(delay - s.qdelayRef) as real) + BETA * (ToInt32(delay - s.currentQdelay) as real);
    if s.dropProb < 0.01 then p / 128.0 else if s.dropProb < 0.1 then p / 32.0 else p / 16.0
  }

  function NewProbability(s: Pie, bytes: nat): real
  {
    var delay := Qdelay(s, bytes);
    var d := s.dropProb + Adjustment(s, delay);
    var clamped := if d < 0.0 then 0.0 else if d > 1.0 then 1.0 else d;
    var decays := delay == 0 && s.currentQdelay == 0 && bytes == 0 && d <= 1.0;
    if decays then clamped * 0.98 else clamped
  }

  /** One turn of the loop of calculate_drop_prob. */
  function Update(s: Pie, bytes: nat): Pie
  {
    var delay := Qdelay(s, bytes);
    var probability := NewProbability(s, bytes);
    var burst := ToInt32(s.burstAllowance) - T_UPDATE;
    var t := s.(qdelayOld := s.currentQdelay, currentQdelay := delay, dropProb := probability,
                burstAllowance := if burst > 0 then burst else 0, lastUpdate := s.lastUpdate + T_UPDATE);
    if probability == 0.0 && delay < s.qdelayRef / 2 && s.currentQdelay < s.qdelayRef / 2 && s.avgDqRate > 0 then
      t.(dqCount := DQ_COUNT_INVALID, avgDqRate := 0, burstAllowance := s.maxBurst)
    else t
  }

  /** calculate_drop_prob at time `now`. */
  function CatchUp(s: Pie, bytes: nat, now: nat): Pie
    decreases now - s.lastUpdate
  {
    if now - s.lastUpdate > T_UPDATE then CatchUp(Update(s, bytes), bytes, now) else s
  }

  /** n updates in a row. */
  function Repeat(s: Pie, bytes: nat, n: nat): Pie
    decreases n
  {
    if n == 0 then s else Repeat(Update(s, bytes), bytes, n - 1)
  }

  lemma {:induction false} RepeatClock(s: Pie, bytes: nat, n: nat)
    ensures Repeat(s, bytes, n).lastUpdate == s.lastUpdate + n * T_UPDATE
    decreases n
  {
    hide NewProbability;
    hide Qdelay;
    if n > 0 {
      RepeatClock(Update(s, bytes), bytes, n - 1);
    }
  }

  /** The updates a call makes when `elapsed` milliseconds have gone by: one for every period
      that ended strictly before now. */
  function Missed(elapsed: nat): nat
  {
    if elapsed == 0 then 0 else (elapsed - 1) / T_UPDATE
  }

  /** Catching up is a fixed number of periodic updates, and leaves less than a period plus one
      millisecond to go. */
  lemma {:induction false} CatchUpRepeats(s: Pie, bytes: nat, now: nat)
    requires s.lastUpdate <= now
    ensures CatchUp(s, bytes, now) == Repeat(s, bytes, Missed(now - s.lastUpdate))
    ensures CatchUp(s, bytes, now).lastUpdate <= now <= CatchUp(s, bytes, now).lastUpdate + T_UPDATE
    decreases now - s.lastUpdate
  {
    hide NewProbability;
    hide Qdelay;
    if now - s.lastUpdate > T_UPDATE {
      CatchUpRepeats(Update(s, bytes), bytes, now);
      assert Missed(now - s.lastUpdate) == Missed(now - s.lastUpdate - T_UPDATE) + 1;
    }
  }

  /** With an unchanged queue, calls in between make no difference. */
  lemma {:induction false} CatchUpComposes(s: Pie, bytes: nat, t1: nat, t2: nat)
    requires s.lastUpdate <= t1 <= t2
    ensures CatchUp(CatchUp(s, bytes, t1), bytes, t2) == CatchUp(s, bytes, t2)
    decreases t1 - s.lastUpdate
  {
    hide NewProbability;
    hide Qdelay;
    if t1 - s.lastUpdate > T_UPDATE {
      CatchUpComposes(Update(s, bytes), bytes, t1, t2);
    }
  }

  /** Any number of calls in between make no difference. */
  function CatchUpAll(s: Pie, bytes: nat, times: seq<nat>): Pie
    decreases |times|
  {
    if times == [] then s else CatchUpAll(CatchUp(s, bytes, times[0]), bytes, times[1..])
  }

  ghost predicate Rising(times: seq<nat>, from: nat)
  {
    times == [] || (from <= times[0] && Rising(times[1..], times[0]))
  }

  lemma {:induction false} IntermediateCalls(s: Pie, bytes: nat, times: seq<nat>, first: nat)
    requires times != [] && s.lastUpdate <= first && Rising(times, first)
    ensures CatchUpAll(s, bytes, times) == CatchUp(s, bytes, times[|times| - 1])
    decreases |times|
  {
    hide CatchUp;
    if |times| > 1 {
      CatchUpRepeats(s, bytes, times[0]);
      IntermediateCalls(CatchUp(s, bytes, times[0]), bytes, times[1..], times[0]);
      RisingLast(times, first);
      CatchUpComposes(s, bytes, times[0], times[|times| - 1]);
    }
  }

  lemma {:induction false} RisingLast(times: seq<nat>, from: nat)
    requires times != [] && Rising(times, from)
    ensures from <= times[0] <= times[|times| - 1]
    decreases |times|
  {
    if |times| > 1 {
      RisingLast(times[1..], times[0]);
    }
  }

  /** The state a timer firing every 30 ms would have produced, as the code comment promises:
      reached except at the very millisecond a period ends. */
  lemma TimerRefined(s: Pie, bytes: nat, now: nat)
    requires s.lastUpdate <= now
    ensures CatchUp(s, bytes, now) == Repeat(s, bytes, (now - s.lastUpdate) / T_UPDATE)
       <==> now == s.lastUpdate || (now - s.lastUpdate) % T_UPDATE != 0
  {
    hide CatchUp;
    var elapsed := now - s.lastUpdate;
    CatchUpRepeats(s, bytes, now);
    RepeatClock(s, bytes, Missed(elapsed));
    RepeatClock(s, bytes, elapsed / T_UPDATE);
  }

  /** At 30 ms sharp the update is still missing. */
  lemma TimerLate(s: Pie, bytes: nat)
    ensures CatchUp(s, bytes, s.lastUpdate + 30) != Repeat(s, bytes, 1)
  {
    hide CatchUp;
    TimerRefined(s, bytes, s.lastUpdate + 30);
  }

  /** Not only the clock differs: with a queue built up in the last period, the timer's
      probability of a drop is already 1, the caught-up one still a half. */
  lemma TimerLateProbability()
    ensures var s := Pie(20, 100, 0.5, 0, 0, 0, 0, 0, 1, 0);
      CatchUp(s, 4000, 30).dropProb == 0.5 && Repeat(s, 4000, 1).dropProb == 1.0
  {
    var s := Pie(20, 100, 0.5, 0, 0, 0, 0, 0, 1, 0);
    assert Qdelay(s, 4000) == 4000;
    assert Adjustment(s, 4000) == (0.125 * 3980.0 + 1.25 * 4000.0) / 16.0;
    assert NewProbability(s, 4000) == 1.0;
    assert Repeat(s, 4000, 1) == Repeat(Update(s, 4000), 4000, 0) == Update(s, 4000);
  }

  /** ---- Numbers ---- */

  ghost predicate Bounded(s: Pie)
  {
    0.0 <= s.dropProb <= 1.0 && s.burstAllowance <= s.maxBurst
  }

  lemma {:induction false} CatchUpBounded(s: Pie, bytes: nat, now: nat)
    requires Bounded(s)
    ensures var t := CatchUp(s, bytes, now);
      Bounded(t) && t.avgDqRate <= s.avgDqRate && t.maxBurst == s.maxBurst
    decreases now - s.lastUpdate
  {
    hide Adjustment;
    hide Qdelay;
    if now - s.lastUpdate > T_UPDATE {
      CatchUpBounded(Update(s, bytes), bytes, now);
    }
  }

  /** A rate sample, when the dequeue of `size` bytes leaving `bytes` in the queue takes one. */
  datatype Measured = NoSample(state: Pie) | Sample(state: Pie, rate: uint32, dtime: uint32)

  function Measure(s: Pie, bytes: nat, size: nat, now: nat): Measured
  {
    var now32: uint32 := now % UINT32;
    var t := if bytes >= DQ_THRESHOLD && s.dqCount == DQ_COUNT_INVALID then s.(dqTstamp := now32, dqCount := 0) else s;
    if t.dqCount == DQ_COUNT_INVALID then NoSample(t)
    else
      var count: uint32 := (t.dqCount + size) % UINT32;
      var dtime: uint32 := (now32 - t.dqTstamp) % UINT32;
      var u := t.(dqCount := count);
      if count > DQ_THRESHOLD && dtime > 0 then Sample(u, Rate(count, dtime), dtime) else NoSample(u)
  }

  function Rate(count: uint32, dtime: uint32): uint32
    requires dtime > 0
  {
    QuotientSmall(count, dtime);
    count / dtime
  }

  /** The shift-based average never exceeds what it averages. */
  function Average(avg: uint32, sample: uint32): (r: uint32)
    ensures r <= avg || r <= sample
  {
    if avg == 0 then sample else avg - avg / 8 + sample / 8
  }

  /** The rate estimator of dequeue. */
  function Estimate(s: Pie, bytes: nat, size: nat, now: nat): Pie
  {
    match Measure(s, bytes, size, now)
    case NoSample(t) => t
    case Sample(t, rate, dtime) =>
      t.(avgDqRate := Average(t.avgDqRate, rate),
         dqCount := if bytes < DQ_THRESHOLD then DQ_COUNT_INVALID else 0,
         dqTstamp := if bytes < DQ_THRESHOLD then t.dqTstamp else now % UINT32,
         burstAllowance := if t.burstAllowance > dtime then t.burstAllowance - dtime else 0)
  }

  /** drop_early; `random` is the number drawn. */
  predicate DropEarly(s: Pie, bytes: nat, random: real)
  {
    s.burstAllowance == 0
    && !(s.qdelayOld < s.qdelayRef / 2 && s.dropProb < 0.2)
    && bytes >= 2 * PACKET_SIZE
    && random < s.dropProb
  }

  datatype State = State(pie: Pie, queue: seq<Packet>)

  datatype Event = Arrive(p: Packet, now: nat, random: real) | Depart(now: nat, later: nat)

  function AfterEnqueue(l: Limits, s: State, p: Packet, now: nat, random: real): State
  {
    var pie := CatchUp(s.pie, Bytes(s.queue), now);
    State(pie,
      if !Good(l, s.queue + [p]) || DropEarly(pie, Bytes(s.queue), random) then s.queue else s.queue + [p])
  }

  /** The clock is read once for the estimator and again for the catching up. */
  function AfterDequeue(s: State, now: nat, later: nat): State
    requires s.queue != []
  {
    var q := s.queue[1..];
    State(CatchUp(Estimate(s.pie, Bytes(q), |s.queue[0].contents|, now), Bytes(q), later), q)
  }

  function Apply(l: Limits, s: State, e: Event): State
  {
    match e
    case Arrive(p, now, random) => AfterEnqueue(l, s, p, now, random)
    case Depart(now, later) => if s.queue == [] then s else AfterDequeue(s, now, later)
  }

  function Run(l: Limits, s: State, events: seq<Event>): State
    decreases |events|
  {
    if events == [] then s else Run(l, Apply(l, s, events[0]), events[1..])
  }

  /** The rate samples a run takes. */
  function Samples(l: Limits, s: State, events: seq<Event>): seq<nat>
    decreases |events|
  {
    if events == [] then []
    else
      (match events[0]
       case Arrive(_, _, _) => []
       case Depart(now, _) =>
         if s.queue == [] then []
         else match Measure(s.pie, Bytes(s.queue[1..]), |s.queue[0].contents|, now)
           case NoSample(_) => []
           case Sample(_, rate, _) => [rate])
      + Samples(l, Apply(l, s, events[0]), events[1..])
  }

  ghost predicate AllAtMost(samples: seq<nat>, m: nat)
  {
    forall i :: 0 <= i < |samples| ==> samples[i] <= m
  }

  lemma EstimateBounded(s: Pie, bytes: nat, size: nat, now: nat)
    requires Bounded(s)
    ensures Bounded(Estimate(s, bytes, size, now)) && Estimate(s, bytes, size, now).lastUpdate == s.lastUpdate
    ensures match Measure(s, bytes, size, now)
      case NoSample(_) => Estimate(s, bytes, size, now).avgDqRate == s.avgDqRate
      case Sample(_, rate, _) => Estimate(s, bytes, size, now).avgDqRate == Average(s.avgDqRate, rate)
  {
    hide Average;
  }

  /** Over every run: the probability stays in [0, 1], the burst allowance below its maximum,
      the queue within its limits, and the average rate below the largest sample seen. */
  lemma {:induction false} RunBounded(l: Limits, s: State, events: seq<Event>, m: nat)
    requires Bounded(s.pie) && Good(l, s.queue)
    requires s.pie.avgDqRate <= m && AllAtMost(Samples(l, s, events), m)
    ensures var t := Run(l, s, events);
      Bounded(t.pie) && Good(l, t.queue) && t.pie.avgDqRate <= m
    decreases |events|
  {
    hide CatchUp;
    hide Estimate;
    hide Measure;
    hide Average;
    if events != [] {
      var u := Apply(l, s, events[0]);
      match events[0] {
        case Arrive(p, now, random) =>
          CatchUpBounded(s.pie, Bytes(s.queue), now);
          assert Samples(l, s, events) == [] + Samples(l, u, events[1..]) == Samples(l, u, events[1..]);
        case Depart(now, later) =>
          if s.queue != [] {
            var bytes, size := Bytes(s.queue[1..]), |s.queue[0].contents|;
            var e := Estimate(s.pie, bytes, size, now);
            EstimateBounded(s.pie, bytes, size, now);
            CatchUpBounded(e, bytes, later);
            SuffixGood(l, s.queue, 1);
            var taken := Measure(s.pie, bytes, size, now);
            var rest := Samples(l, u, events[1..]);
            assert Samples(l, s, events) == (if taken.Sample? then [taken.rate] else []) + rest;
            assert taken.Sample? ==> taken.rate == [taken.rate][0];
            TailAtMost(if taken.Sample? then [taken.rate] else [], rest, m);
          } else {
            assert Samples(l, s, events) == [] + Samples(l, u, events[1..]) == Samples(l, u, events[1..]);
          }
      }
      RunBounded(l, u, events[1..], m);
    }
  }

  function TimeOf(e: Event): nat
  {
    match e
    case Arrive(_, now, _) => now
    case Depart(_, later) => later
  }

  /** The clock does not go back over the events. */
  ghost predicate Timely(events: seq<Event>, from: nat)
    decreases |events|
  {
    events == [] ||
    (from <= TimeOf(events[0]) && (events[0].Depart? ==> from <= events[0].now <= events[0].later)
     && Timely(events[1..], TimeOf(events[0])))
  }

  function LastTime(events: seq<Event>, from: nat): nat
  {
    if events == [] then from else TimeOf(events[|events| - 1])
  }

  /** Over every run with a clock that does not go back, the last update is never ahead of it. */
  lemma {:induction false} RunNeverAhead(l: Limits, s: State, events: seq<Event>, from: nat)
    requires s.pie.lastUpdate <= from && Bounded(s.pie) && Timely(events, from)
    ensures Run(l, s, events).pie.lastUpdate <= LastTime(events, from)
    decreases |events|
  {
    hide CatchUp;
    hide Estimate;
    hide Good;
    if events != [] {
      var e, u := events[0], Apply(l, s, events[0]);
      if e.Arrive? {
        CatchUpRepeats(s.pie, Bytes(s.queue), e.now);
        CatchUpBounded(s.pie, Bytes(s.queue), e.now);
      } else if s.queue != [] {
        var bytes, size := Bytes(s.queue[1..]), |s.queue[0].contents|;
        EstimateBounded(s.pie, bytes, size, e.now);
        CatchUpRepeats(Estimate(s.pie, bytes, size, e.now), bytes, e.later);
        CatchUpBounded(Estimate(s.pie, bytes, size, e.now), bytes, e.later);
      }
      RunNeverAhead(l, u, events[1..], TimeOf(e));
    }
  }

  lemma TailAtMost(a: seq<nat>, b: seq<nat>, m: nat)
    requires AllAtMost(a + b, m)
    ensures AllAtMost(a, m) && AllAtMost(b, m)
  {
    assert forall i :: 0 <= i < |a| ==> a[i] == (a + b)[i];
    assert forall i :: 0 <= i < |b| ==> b[i] == (a + b)[|a| + i];
  }

  class PiePacketQueue {
    const base: DroppingPacketQueue
    const qdelayRef: uint32
    const maxBurst: uint32
    var dropProb: real
    var burstAllowance: uint32
    var qdelayOld: nat
    var currentQdelay: nat
    var dqCount: uint32
    var dqTstamp: uint32
    var avgDqRate: uint32
    var lastUpdate: nat

    function PieModel(): Pie
      reads this
    {
      Pie(qdelayRef, maxBurst, dropProb, burstAllowance, qdelayOld, currentQdelay,
        dqCount, dqTstamp, avgDqRate, lastUpdate)
    }

    function Model(): State
      reads this, base
    {
      State(PieModel(), base.internalQueue)
    }

    ghost predicate Valid()
      reads this, base
    {
      base.Valid() && Good(base.limits, base.internalQueue) && Bounded(PieModel())
    }

    constructor (limits: Limits, qdelayRef: uint32, maxBurst: uint32, now: nat)
      requires (limits.packets != 0 || limits.bytes != 0) && qdelayRef != 0 && maxBurst != 0
      ensures Valid() && fresh(base) && base.limits == limits
      ensures Model() == State(Pie(qdelayRef, maxBurst, 0.0, 0, 0, 0, DQ_COUNT_INVALID, 0, 0, now), [])
    {
      this.qdelayRef, this.maxBurst := qdelayRef, maxBurst;
      dropProb, burstAllowance, qdelayOld, currentQdelay := 0.0, 0, 0, 0;
      dqCount, dqTstamp, avgDqRate, lastUpdate := DQ_COUNT_INVALID, 0, 0, now;
      base := new DroppingPacketQueue(limits);
    }

    /** calculate_drop_prob */
    method CalculateDropProb(now: nat)
      requires Valid() && lastUpdate <= now
      modifies this
      ensures Valid() && PieModel() == CatchUp(old(PieModel()), Bytes(base.internalQueue), now)
    {
      ghost var bytes := Bytes(base.internalQueue);
      while now - lastUpdate > T_UPDATE
        invariant Valid() && lastUpdate <= now
        invariant CatchUp(PieModel(), bytes, now) == CatchUp(old(PieModel()), bytes, now)
        decreases now - lastUpdate
      {
        CatchUpBounded(PieModel(), bytes, lastUpdate + T_UPDATE + 1);
        OneUpdate();
      }
    }

    /** The probability after one period with the queueing delay `delay`. */
    method UpdateProbability(delay: nat, bytes: nat)
      requires delay == Qdelay(PieModel(), bytes)
      modifies this`dropProb, this`qdelayOld, this`currentQdelay
      ensures qdelayOld == old(currentQdelay) && currentQdelay == delay
      ensures dropProb == NewProbability(old(PieModel()), bytes)
    {
      hide Qdelay;
      var updateProb := true;
      qdelayOld := currentQdelay;
      currentQdelay := delay;
      if currentQdelay == 0 && bytes != 0 {
        updateProb := false;
      }
      var p := ALPHA * (ToInt32(currentQdelay - qdelayRef) as real)
             + BETA * (ToInt32(currentQdelay - qdelayOld) as real);
      if dropProb < 0.01 {
        p := p / 128.0;
      } else if dropProb < 0.1 {
        p := p / 32.0;
      } else {
        p := p / 16.0;
      }
      dropProb := dropProb + p;
      if dropProb < 0.0 {
        dropProb := 0.0;
      } else if dropProb > 1.0 {
        dropProb := 1.0;
        updateProb := false;
      }
      if currentQdelay == 0 && qdelayOld == 0 && updateProb {
        dropProb := dropProb * 0.98;
      }
    }

    /** The body of the loop. */
    method OneUpdate()
      requires base.Valid()
      modifies this
      ensures PieModel() == Update(old(PieModel()), Bytes(base.internalQueue))
    {
      ghost var before := PieModel();
      var bytes := base.SizeBytes();
      var delay := if avgDqRate > 0 then bytes / avgDqRate else 0;
      assert delay == Qdelay(before, bytes);
      UpdateProbability(delay, bytes);
      hide Qdelay;
      hide NewProbability;
      var burst := ToInt32(burstAllowance) - T_UPDATE;
      burstAllowance := if burst > 0 then burst else 0;
      lastUpdate := lastUpdate + T_UPDATE;
      if dropProb == 0.0 && currentQdelay < qdelayRef / 2 && qdelayOld < qdelayRef / 2 && avgDqRate > 0 {
        dqCount := DQ_COUNT_INVALID;
        avgDqRate := 0;
        burstAllowance := maxBurst;
      }
    }

    /** enqueue */
    method Enqueue(p: Packet, now: nat, random: real)
      requires Valid() && lastUpdate <= now
      modifies this, base
      ensures Valid() && Model() == AfterEnqueue(base.limits, old(Model()), p, now, random)
    {
      hide CatchUp;
      CalculateDropProb(now);
      BytesAppend(base.internalQueue, [p]);
      BytesOne(p);
      if !GoodWith(base.limits, base.SizeBytes() + |p.contents|, base.SizePackets() + 1) {
        return;
      }
      if !DropEarly(PieModel(), base.SizeBytes(), random) {
        base.Accept(p);
      }
      assert base.IsGood();
    }

    /** dequeue */
    method Dequeue(now: nat, later: nat) returns (p: Packet)
      requires Valid() && base.internalQueue != [] && lastUpdate <= now <= later
      modifies this, base
      ensures Valid() && p == old(base.internalQueue)[0]
      ensures Model() == AfterDequeue(old(Model()), now, later)
    {
      hide CatchUp;
      hide Update;
      SuffixGood(base.limits, base.internalQueue, 1);
      var good: bool;
      p, good := base.Dequeue();
      assert good;
      EstimateBounded(PieModel(), base.SizeBytes(), |p.contents|, now);
      EstimateRate(|p.contents|, now);
      CalculateDropProb(later);
    }

    /** The rate estimator. */
    method EstimateRate(size: nat, now: nat)
      requires base.Valid()
      modifies this
      ensures PieModel() == Estimate(old(PieModel()), Bytes(base.internalQueue), size, now)
    {
      hide Average;
      hide Rate;
      hide Bytes;
      var now32: uint32 := now % UINT32;
      if base.SizeBytes() >= DQ_THRESHOLD && dqCount == DQ_COUNT_INVALID {
        dqTstamp := now32;
        dqCount := 0;
      }
      if dqCount != DQ_COUNT_INVALID {
        dqCount := (dqCount + size) % UINT32;
        if dqCount > DQ_THRESHOLD {
          var dtime: uint32 := (now32 - dqTstamp) % UINT32;
          if dtime > 0 {
            var rateSample := Rate(dqCount, dtime);
            avgDqRate := Average(avgDqRate, rateSample);
            if base.SizeBytes() < DQ_THRESHOLD {
              dqCount := DQ_COUNT_INVALID;
            } else {
              dqCount := 0;
              dqTstamp := now32;
            }
            if burstAllowance > 0 {
              burstAllowance := if burstAllowance > dtime then burstAllowance - dtime else 0;
            }
          }
        }
      }
    }
  }
}
