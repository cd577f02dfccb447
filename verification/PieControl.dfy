/** What PIE's formulas amount to: which way the probability moves and how far, when a packet is
    refused early, and what the departure rate measures. */
module PieControl {
  import opened Packets
  import opened DroppingQueue
  import opened Machine
  import opened PieQueue
  import QueueLimits

  /** Half the range of an unsigned 32-bit number. */
  const HALF: int := 0x8000_0000

  /** The difference survives the conversion to int. */
  predicate Close(a: int, b: int)
  {
    -HALF <= a - b < HALF
  }

  lemma DifferenceKept(x: int)
    ensures ToInt32(x) == x <==> -HALF <= x < HALF
  {
    if x < 0 {
      assert -HALF <= x ==> x % UINT32 == x + UINT32;
    } else {
      assert x < HALF ==> x % UINT32 == x;
    }
  }

  /** No queue, and none at the last update. */
  predicate Idle(s: Pie, bytes: nat)
  {
    Qdelay(s, bytes) == 0 && s.currentQdelay == 0 && bytes == 0
  }

  /** The size of a step: an eighth of the whole below 0.01, a half below 0.1. */
  function Scale(p: real): real
  {
    if p < 0.01 then 1024.0 else if p < 0.1 then 256.0 else 128.0
  }

  /** One update in whole milliseconds: the excess over the reference and ten times the growth, over
      the scale, kept within [0, 1], and less a fiftieth of itself when idle. */
  lemma Law(s: Pie, bytes: nat)
    requires Close(Qdelay(s, bytes), s.qdelayRef) && Close(Qdelay(s, bytes), s.currentQdelay)
    ensures var delay := Qdelay(s, bytes);
      var d := s.dropProb
             + ((delay - s.qdelayRef) + 10 * (delay - s.currentQdelay)) as real / Scale(s.dropProb);
      NewProbability(s, bytes)
      == if d < 0.0 then 0.0 else if d > 1.0 then 1.0 else if Idle(s, bytes) then 0.98 * d else d
  {
    hide Qdelay;
    hide ToInt32;
    var delay := Qdelay(s, bytes);
    DifferenceKept(delay - s.qdelayRef);
    DifferenceKept(delay - s.currentQdelay);
    var x, y := (delay - s.qdelayRef) as real, (delay - s.currentQdelay) as real;
    assert ((delay - s.qdelayRef) + 10 * (delay - s.currentQdelay)) as real == x + 10.0 * y;
    assert Adjustment(s, delay) == (x + 10.0 * y) / Scale(s.dropProb);
  }

  /** A delay that is neither above the reference nor above the last one never raises the
      probability, and lowers it unless both are equal or it is zero already. */
  lemma Relieves(s: Pie, bytes: nat)
    requires Bounded(s) && Qdelay(s, bytes) <= s.qdelayRef && Qdelay(s, bytes) <= s.currentQdelay
    requires Close(Qdelay(s, bytes), s.qdelayRef) && Close(Qdelay(s, bytes), s.currentQdelay)
    ensures NewProbability(s, bytes) <= s.dropProb
    ensures s.dropProb > 0.0 && (Qdelay(s, bytes) < s.qdelayRef || Qdelay(s, bytes) < s.currentQdelay) ==>
      NewProbability(s, bytes) < s.dropProb
  {
    hide Qdelay;
    hide NewProbability;
    Law(s, bytes);
    StepSign(s, bytes);
  }

  /** A delay that is neither below the reference nor below the last one never lowers it, and raises
      it unless both are equal or it is one already. */
  lemma Presses(s: Pie, bytes: nat)
    requires Bounded(s) && s.qdelayRef > 0
    requires Qdelay(s, bytes) >= s.qdelayRef && Qdelay(s, bytes) >= s.currentQdelay
    requires Close(Qdelay(s, bytes), s.qdelayRef) && Close(Qdelay(s, bytes), s.currentQdelay)
    ensures NewProbability(s, bytes) >= s.dropProb
    ensures s.dropProb < 1.0 && (Qdelay(s, bytes) > s.qdelayRef || Qdelay(s, bytes) > s.currentQdelay) ==>
      NewProbability(s, bytes) > s.dropProb
  {
    hide Qdelay;
    hide NewProbability;
    Law(s, bytes);
    StepSign(s, bytes);
  }

  /** The sign of a step is that of its numerator, and it is at least a 1024th when not zero. */
  lemma StepSign(s: Pie, bytes: nat)
    ensures var e := (Qdelay(s, bytes) - s.qdelayRef) + 10 * (Qdelay(s, bytes) - s.currentQdelay);
      var step := e as real / Scale(s.dropProb);
      && (e == 0 ==> step == 0.0) && (e >= 1 ==> step >= 1.0 / 1024.0) && (e <= -1 ==> step <= -1.0 / 1024.0)
  {
    hide Qdelay;
    var e := (Qdelay(s, bytes) - s.qdelayRef) + 10 * (Qdelay(s, bytes) - s.currentQdelay);
    var r := e as real;
    assert e >= 1 ==> r >= 1.0;
    assert e <= -1 ==> r <= -1.0;
    if s.dropProb < 0.01 {
      assert r / Scale(s.dropProb) == r / 1024.0;
    } else if s.dropProb < 0.1 {
      assert r / Scale(s.dropProb) == r / 256.0;
    } else {
      assert r / Scale(s.dropProb) == r / 128.0;
    }
  }

  /** A positive delay equal to the reference and to the last one leaves it as it is. */
  lemma Steady(s: Pie, bytes: nat)
    requires Bounded(s) && s.qdelayRef > 0
    requires Qdelay(s, bytes) == s.qdelayRef == s.currentQdelay
    ensures NewProbability(s, bytes) == s.dropProb
  {
    hide Qdelay;
    hide NewProbability;
    Law(s, bytes);
    StepSign(s, bytes);
  }

  /** With the same delays, a step taken from below 0.01 is an eighth, and one from below 0.1 a half,
      of the step taken from 0.1 or above. */
  lemma StepSizes(s: Pie, low: real, middle: real, bytes: nat)
    requires 0.0 <= low < 0.01 <= middle < 0.1 <= s.dropProb <= 1.0
    requires Close(Qdelay(s, bytes), s.qdelayRef) && Close(Qdelay(s, bytes), s.currentQdelay) && !Idle(s, bytes)
    ensures var p := NewProbability(s, bytes);
      var q := NewProbability(s.(dropProb := low), bytes);
      var r := NewProbability(s.(dropProb := middle), bytes);
      && (0.0 < p < 1.0 && 0.0 < q < 1.0 ==> p - s.dropProb == 8.0 * (q - low))
      && (0.0 < p < 1.0 && 0.0 < r < 1.0 ==> p - s.dropProb == 2.0 * (r - middle))
  {
    hide NewProbability;
    Law(s, bytes);
    Law(s.(dropProb := low), bytes);
    Law(s.(dropProb := middle), bytes);
  }

  /** A reference of more than half the range reverses the control: an empty queue, however far
      below the reference, is given the probability one. */
  lemma HugeReference()
    ensures var s := Pie(HALF + 1, 100, 0.0, 0, 0, 0, 0, 0, 0, 0);
      Qdelay(s, 0) < s.qdelayRef && NewProbability(s, 0) == 1.0
  {
    var s := Pie(HALF + 1, 100, 0.0, 0, 0, 0, 0, 0, 0, 0);
    assert ToInt32(0 - s.qdelayRef) == HALF - 1;
    assert ToInt32(0 - s.currentQdelay) == 0;
  }

  /** The delay is the number of whole milliseconds the bytes waiting take at the average rate. */
  lemma DelayMeans(s: Pie, bytes: nat)
    ensures if s.avgDqRate == 0 then Qdelay(s, bytes) == 0
      else Qdelay(s, bytes) * s.avgDqRate <= bytes < (Qdelay(s, bytes) + 1) * s.avgDqRate
  {
    if s.avgDqRate > 0 {
      var q, r := bytes / s.avgDqRate, bytes % s.avgDqRate;
      assert bytes == q * s.avgDqRate + r && 0 <= r < s.avgDqRate;
      assert (q + 1) * s.avgDqRate == q * s.avgDqRate + s.avgDqRate;
    }
  }

  /** The two delays kept are those of the present period and of the one before it. */
  lemma DelaysKept(s: Pie, before: nat, bytes: nat)
    ensures var t := Update(s, before); var u := Update(t, bytes);
      u.currentQdelay == Qdelay(t, bytes) && u.qdelayOld == Qdelay(s, before) && u.lastUpdate == s.lastUpdate + 60
  {
    hide NewProbability;
    hide Qdelay;
  }

  /** ---- Over many periods ---- */

  /** Delays and reference below half the range. */
  predicate Modest(s: Pie, bytes: nat)
  {
    s.qdelayRef < HALF && s.currentQdelay < HALF && Qdelay(s, bytes) < HALF
  }

  /** A queue that stays above the reference: its probability rises to one, within 1024 periods
      from wherever it was, and remains there. */
  lemma {:induction false} Saturates(s: Pie, bytes: nat, n: nat)
    requires Bounded(s) && Modest(s, bytes) && s.qdelayRef > 0
    requires Qdelay(s, bytes) > s.qdelayRef && Qdelay(s, bytes) >= s.currentQdelay
    ensures var p := Repeat(s, bytes, n).dropProb; p >= s.dropProb && (p == 1.0 || p >= s.dropProb + n as real / 1024.0)
    ensures n >= 1024 ==> Repeat(s, bytes, n).dropProb == 1.0
    decreases n
  {
    hide Update;
    if n > 0 {
      var t := Update(s, bytes);
      Pressed(s, bytes);
      Saturates(t, bytes, n - 1);
      RepeatBounded(s, bytes, n);
      Thousandths(n);
    }
  }

  lemma Thousandths(n: nat)
    requires n > 0
    ensures n as real / 1024.0 == (n - 1) as real / 1024.0 + 1.0 / 1024.0
    ensures n >= 1024 ==> n as real / 1024.0 >= 1.0
  {
  }

  /** One period above the reference. */
  lemma Pressed(s: Pie, bytes: nat)
    requires Bounded(s) && Modest(s, bytes) && s.qdelayRef > 0
    requires Qdelay(s, bytes) > s.qdelayRef && Qdelay(s, bytes) >= s.currentQdelay
    ensures var t := Update(s, bytes);
      && Bounded(t) && Modest(t, bytes) && t.qdelayRef == s.qdelayRef
      && Qdelay(t, bytes) == t.currentQdelay == Qdelay(s, bytes)
      && t.dropProb >= s.dropProb && (t.dropProb == 1.0 || t.dropProb >= s.dropProb + 1.0 / 1024.0)
  {
    hide NewProbability;
    hide Scale;
    Law(s, bytes);
    StepSign(s, bytes);
    UpdateBounded(s, bytes);
  }

  /** One period below it. */
  lemma Relieved(s: Pie, bytes: nat)
    requires Bounded(s) && Modest(s, bytes)
    requires Qdelay(s, bytes) < s.qdelayRef && Qdelay(s, bytes) <= s.currentQdelay
    ensures var t := Update(s, bytes);
      && Bounded(t) && Modest(t, bytes) && t.qdelayRef == s.qdelayRef
      && Qdelay(t, bytes) <= t.currentQdelay == Qdelay(s, bytes)
      && t.dropProb <= s.dropProb && (t.dropProb == 0.0 || t.dropProb <= s.dropProb - 1.0 / 1024.0)
  {
    hide NewProbability;
    hide Scale;
    Law(s, bytes);
    StepSign(s, bytes);
    UpdateBounded(s, bytes);
  }

  lemma UpdateBounded(s: Pie, bytes: nat)
    requires Bounded(s)
    ensures Bounded(Update(s, bytes))
  {
    hide Adjustment;
    hide Qdelay;
  }

  lemma {:induction false} RepeatBounded(s: Pie, bytes: nat, n: nat)
    requires Bounded(s)
    ensures Bounded(Repeat(s, bytes, n))
    decreases n
  {
    hide Update;
    if n > 0 {
      UpdateBounded(s, bytes);
      RepeatBounded(Update(s, bytes), bytes, n - 1);
    }
  }

  /** A queue that stays below it: the probability falls to zero within 1024 periods, and stays. */
  lemma {:induction false} Vanishes(s: Pie, bytes: nat, n: nat)
    requires Bounded(s) && Modest(s, bytes)
    requires Qdelay(s, bytes) < s.qdelayRef && Qdelay(s, bytes) <= s.currentQdelay
    ensures var p := Repeat(s, bytes, n).dropProb; p <= s.dropProb && (p == 0.0 || p <= s.dropProb - n as real / 1024.0)
    ensures n >= 1024 ==> Repeat(s, bytes, n).dropProb == 0.0
    decreases n
  {
    hide Update;
    if n > 0 {
      var t := Update(s, bytes);
      Relieved(s, bytes);
      Vanishes(t, bytes, n - 1);
      RepeatBounded(s, bytes, n);
      Thousandths(n);
    }
  }

  /** An idle queue without drop probability keeps it at zero, whenever it is asked. */
  lemma {:induction false} IdleStaysZero(s: Pie, times: seq<nat>)
    requires s.dropProb == 0.0 && s.qdelayRef <= HALF && s.currentQdelay <= HALF
    ensures CatchUpAll(s, 0, times).dropProb == 0.0
    decreases |times|
  {
    hide CatchUp;
    if times != [] {
      IdleCatchUp(s, times[0]);
      IdleStaysZero(CatchUp(s, 0, times[0]), times[1..]);
    }
  }

  lemma {:induction false} IdleCatchUp(s: Pie, now: nat)
    requires s.dropProb == 0.0 && s.qdelayRef <= HALF && s.currentQdelay <= HALF
    ensures var t := CatchUp(s, 0, now); t.dropProb == 0.0 && t.qdelayRef == s.qdelayRef && t.currentQdelay <= HALF
    decreases now - s.lastUpdate
  {
    hide NewProbability;
    hide Scale;
    if now - s.lastUpdate > T_UPDATE {
      NoDelay(s);
      Law(s, 0);
      StepSign(s, 0);
      IdleCatchUp(Update(s, 0), now);
    }
  }

  lemma NoDelay(s: Pie)
    ensures Qdelay(s, 0) == 0
  {
  }

  /** ---- Bursts ---- */

  /** An update takes a period off the burst allowance, or, when the queue has been short and the
      probability zero, restores it and abandons the measurement of the rate. */
  lemma BurstLaw(s: Pie, bytes: nat)
    requires s.burstAllowance < HALF
    ensures var t := Update(s, bytes);
      var short := Qdelay(s, bytes) < s.qdelayRef / 2 && s.currentQdelay < s.qdelayRef / 2;
      if NewProbability(s, bytes) == 0.0 && short && s.avgDqRate > 0
      then t.burstAllowance == s.maxBurst && t.dqCount == DQ_COUNT_INVALID && t.avgDqRate == 0
      else t.burstAllowance == (if s.burstAllowance > 30 then s.burstAllowance - 30 else 0)
           && t.dqCount == s.dqCount && t.avgDqRate == s.avgDqRate
  {
    hide NewProbability;
    hide Qdelay;
    DifferenceKept(s.burstAllowance);
  }

  /** So an allowance lasts as long as it says. */
  lemma {:induction false} BurstLasts(s: Pie, bytes: nat, n: nat)
    requires Bounded(s) && s.maxBurst < HALF && 30 * n <= s.burstAllowance
    ensures Repeat(s, bytes, n).burstAllowance >= s.burstAllowance - 30 * n
    decreases n
  {
    hide NewProbability;
    hide Qdelay;
    if n > 0 {
      BurstLaw(s, bytes);
      UpdateBounded(s, bytes);
      BurstLasts(Update(s, bytes), bytes, n - 1);
    }
  }

  /** ---- Early drops ---- */

  /** A packet is not refused early: within the burst allowance, at a small delay and probability,
      with less than two full-sized packets waiting, or by the number drawn. */
  ghost predicate Protected(s: Pie, bytes: nat, random: real)
  {
    || s.burstAllowance > 0
    || (s.qdelayOld < s.qdelayRef / 2 && s.dropProb < 0.2)
    || bytes < 3008
    || random >= s.dropProb
  }

  /** A packet is kept exactly when it fits and is so protected. */
  lemma AcceptedExactly(l: Limits, s: State, p: Packet, now: nat, random: real)
    ensures var t := AfterEnqueue(l, s, p, now, random);
      t.queue == if QueueLimits.Within(l, s.queue + [p]) && Protected(t.pie, Bytes(s.queue), random)
                 then s.queue + [p] else s.queue
  {
    hide CatchUp;
    hide Bytes;
    QueueLimits.GoodIsWithin(l, s.queue + [p]);
  }

  /** Every packet offered in the run is protected. */
  ghost predicate AllProtected(l: Limits, s: State, events: seq<Event>)
    decreases |events|
  {
    events != [] ==>
      && (events[0].Arrive? ==>
            Protected(Apply(l, s, events[0]).pie, Bytes(s.queue), events[0].random))
      && AllProtected(l, Apply(l, s, events[0]), events[1..])
  }

  /** The run as a drop-tail queue sees it. */
  function AsTail(events: seq<Event>): (r: seq<QueueLimits.Event>)
    ensures |r| == |events|
    decreases |events|
  {
    if events == [] then []
    else [match events[0] case Arrive(p, _, _) => QueueLimits.Arrive(p) case Depart(_, _) => QueueLimits.Depart]
         + AsTail(events[1..])
  }

  /** Where every packet is protected, the queue is exactly that of drop-tail. */
  lemma {:induction false} ActsAsDropTail(l: Limits, s: State, events: seq<Event>)
    requires AllProtected(l, s, events)
    ensures Run(l, s, events).queue == QueueLimits.RunTail(l, s.queue, AsTail(events))
    decreases |events|
  {
    hide CatchUp;
    hide Estimate;
    hide Protected;
    hide Bytes;
    if events != [] {
      var e := events[0];
      if e.Arrive? {
        AcceptedExactly(l, s, e.p, e.now, e.random);
        QueueLimits.AcceptsExactly(l, s.queue, e.p);
      }
      hide DropTail;
      hide Good;
      hide AfterEnqueue;
      ActsAsDropTail(l, Apply(l, s, e), events[1..]);
      assert AsTail(events)[1..] == AsTail(events[1..]);
    }
  }

  /** With a byte limit below two full-sized packets PIE never drops early. */
  lemma {:induction false} SmallQueueProtected(l: Limits, s: State, events: seq<Event>)
    requires 0 < l.bytes < 3008 && QueueLimits.Within(l, s.queue)
    ensures AllProtected(l, s, events)
    decreases |events|
  {
    hide CatchUp;
    hide Estimate;
    if events != [] {
      var e := events[0];
      if e.Arrive? {
        AcceptedExactly(l, s, e.p, e.now, e.random);
      } else if s.queue != [] {
        QueueLimits.SuffixWithin(l, s.queue, 1);
      }
      SmallQueueProtected(l, Apply(l, s, e), events[1..]);
    }
  }

  /** ---- The departure rate ---- */

  /** The average after n equal samples. */
  function Averaged(avg: uint32, sample: uint32, n: nat): uint32
    decreases n
  {
    if n == 0 then avg else Averaged(Average(avg, sample), sample, n - 1)
  }

  /** Under equal samples the average comes to within seven of the sample, in no more steps than
      it was away from it, and stays there. */
  lemma {:induction false} AverageConverges(avg: uint32, sample: uint32, n: nat)
    requires n >= (if avg > sample then avg - sample else sample - avg)
    ensures Averaged(avg, sample, n) / 8 == sample / 8
    ensures -7 <= Averaged(avg, sample, n) - sample <= 7
    decreases n
  {
    var next := Average(avg, sample);
    if n > 0 {
      if avg / 8 == sample / 8 {
        AverageStays(avg, sample, n);
      } else {
        AverageConverges(next, sample, n - 1);
      }
    }
  }

  lemma {:induction false} AverageStays(avg: uint32, sample: uint32, n: nat)
    requires avg / 8 == sample / 8
    ensures Averaged(avg, sample, n) / 8 == sample / 8
    decreases n
  {
    if n > 0 {
      AverageStays(Average(avg, sample), sample, n - 1);
    }
  }

  /** The first sample is taken as it is. */
  lemma FirstSample(sample: uint32)
    ensures Averaged(0, sample, 1) == sample
  {
    assert Averaged(sample, sample, 0) == sample;
  }

  /** One packet leaving: what it left in the queue, its size, and when. */
  datatype Leaving = Leaving(bytes: nat, size: nat, now: nat)

  function TotalSize(ds: seq<Leaving>): nat
  {
    if ds == [] then 0 else ds[0].size + TotalSize(ds[1..])
  }

  /** The fields of the estimator. */
  predicate SameMeasurement(s: Pie, t: Pie)
  {
    s.dqCount == t.dqCount && s.dqTstamp == t.dqTstamp && s.avgDqRate == t.avgDqRate
  }

  /** The states before, between and after these packets left, with catching up in between that
      does not abandon the measurement. */
  ghost predicate Chain(states: seq<Pie>, ds: seq<Leaving>)
  {
    && |states| == |ds| + 1
    && forall i :: 0 <= i < |ds| ==>
         SameMeasurement(Estimate(states[i], ds[i].bytes, ds[i].size, ds[i].now), states[i + 1])
  }

  /** A measurement under way since `start`, with `total` bytes: the clock does not go back, no
      sample is due before the last packet, and no counter wraps around. */
  ghost predicate UnderWay(total: nat, start: nat, ds: seq<Leaving>)
  {
    && total + TotalSize(ds) < UINT32 - 1
    && (forall i :: 0 <= i < |ds| ==> start <= ds[i].now < start + UINT32)
    && (forall k :: 0 <= k < |ds| - 1 ==> !(total + TotalSize(ds[..k + 1]) > 16384 && ds[k].now > start))
  }

  function PerMillisecond(total: nat, elapsed: nat): uint32
    requires total < UINT32 && elapsed > 0
  {
    RateFits(total, elapsed);
    total / elapsed
  }

  /** The outcome when the last packet has left: a sample of all the bytes since the start over the
      time since then, if that is more than 16384 bytes and not zero; the totals otherwise. */
  ghost predicate Outcome(s: Pie, t: Pie, total: nat, start: nat, last: Leaving)
    requires total < UINT32
  {
    if total > 16384 && last.now > start then
      && t.avgDqRate == Average(s.avgDqRate, PerMillisecond(total, last.now - start))
      && (if last.bytes < 16384 then t.dqCount == DQ_COUNT_INVALID
          else t.dqCount == 0 && t.dqTstamp == last.now % UINT32)
    else
      t.avgDqRate == s.avgDqRate && t.dqCount == total && t.dqTstamp == start % UINT32
  }

  lemma TotalCons(ds: seq<Leaving>, k: nat)
    requires 0 < k <= |ds|
    ensures TotalSize(ds[..k]) == ds[0].size + TotalSize(ds[1..][..k - 1])
  {
    assert ds[..k][1..] == ds[1..][..k - 1];
  }

  lemma RateFits(total: nat, elapsed: nat)
    requires 0 < elapsed && total < UINT32
    ensures 0 <= total / elapsed < UINT32
  {
  }

  lemma OneLeaves(s: Pie, t: Pie, d: Leaving, total: nat, start: nat)
    requires s.dqCount == total && s.dqTstamp == start % UINT32
    requires start <= d.now < start + UINT32 && total + d.size < UINT32 - 1
    requires SameMeasurement(Estimate(s, d.bytes, d.size, d.now), t)
    ensures Outcome(s, t, total + d.size, start, d)
  {
    hide Average;
    assert (d.now % UINT32 - start % UINT32) % UINT32 == d.now - start by { Elapsed(start, d.now); }
    assert (total + d.size) % UINT32 == total + d.size;
  }

  /** A sample takes the time it was measured over off the burst allowance. */
  lemma SampleSpendsBurst(s: Pie, d: Leaving, total: nat, start: nat)
    requires s.dqCount == total && s.dqTstamp == start % UINT32
    requires start <= d.now < start + UINT32 && total + d.size < UINT32 - 1
    ensures var t := Estimate(s, d.bytes, d.size, d.now); var elapsed := d.now - start;
      t.burstAllowance == if total + d.size <= 16384 || elapsed == 0 then s.burstAllowance
                          else if s.burstAllowance > elapsed then s.burstAllowance - elapsed else 0
  {
    hide Average;
    hide Rate;
    assert (d.now % UINT32 - start % UINT32) % UINT32 == d.now - start by { Elapsed(start, d.now); }
    assert (total + d.size) % UINT32 == total + d.size;
  }

  lemma Elapsed(a: nat, b: nat)
    requires a <= b < a + UINT32
    ensures (b % UINT32 - a % UINT32) % UINT32 == b - a
  {
    var x, y := a % UINT32, b % UINT32;
    assert y - x == (b - a) - UINT32 * (b / UINT32 - a / UINT32);
  }

  lemma {:induction false} MeasurementGoesOn(states: seq<Pie>, ds: seq<Leaving>, total: nat, start: nat)
    requires ds != [] && Chain(states, ds) && UnderWay(total, start, ds)
    requires states[0].dqCount == total && states[0].dqTstamp == start % UINT32
    ensures Outcome(states[0], states[|ds|], total + TotalSize(ds), start, ds[|ds| - 1])
    decreases |ds|
  {
    hide Estimate;
    var d, rest := ds[0], ds[1..];
    assert TotalSize(ds) == d.size + TotalSize(rest);
    OneLeaves(states[0], states[1], d, total, start);
    if rest != [] {
      TotalCons(ds, 1);
      assert TotalSize(ds[1..][..0]) == 0;
      assert !(total + TotalSize(ds[..1]) > 16384 && ds[0].now > start);
      ChainTail(states, ds);
      UnderWayTail(total, start, ds);
      MeasurementGoesOn(states[1..], rest, total + d.size, start);
    } else {
      assert TotalSize(rest) == 0;
    }
  }

  lemma ChainTail(states: seq<Pie>, ds: seq<Leaving>)
    requires ds != [] && Chain(states, ds)
    ensures Chain(states[1..], ds[1..])
  {
    hide Estimate;
    forall i | 0 <= i < |ds| - 1
      ensures var d := ds[1..][i];
        SameMeasurement(Estimate(states[1..][i], d.bytes, d.size, d.now), states[1..][i + 1])
    {
      assert states[1..][i] == states[i + 1] && ds[1..][i] == ds[i + 1] && states[1..][i + 1] == states[i + 2];
    }
  }

  lemma UnderWayTail(total: nat, start: nat, ds: seq<Leaving>)
    requires ds != [] && UnderWay(total, start, ds)
    ensures UnderWay(total + ds[0].size, start, ds[1..])
  {
    var rest := ds[1..];
    forall k | 0 <= k < |rest| - 1
      ensures !(total + ds[0].size + TotalSize(rest[..k + 1]) > 16384 && rest[k].now > start)
    {
      TotalCons(ds, k + 2);
      assert rest[k] == ds[k + 1];
    }
  }

  /** A measurement begins with a packet that leaves at least 16384 bytes behind, counts that packet
      and those after it, and ends as `Outcome` says. */
  lemma {:induction false} MeasurementBegins(states: seq<Pie>, ds: seq<Leaving>)
    requires ds != [] && Chain(states, ds) && UnderWay(0, ds[0].now, ds)
    requires states[0].dqCount == DQ_COUNT_INVALID && ds[0].bytes >= 16384
    ensures Outcome(states[0], states[|ds|], TotalSize(ds), ds[0].now, ds[|ds| - 1])
  {
    hide Estimate;
    hide Average;
    var s := states[0].(dqCount := 0, dqTstamp := ds[0].now % UINT32);
    var others := [s] + states[1..];
    Started(states[0], ds[0]);
    assert Chain(others, ds) by { ChainStart(states, ds, s); }
    MeasurementGoesOn(others, ds, 0, ds[0].now);
    assert others[|ds|] == states[|ds|];
    SameRate(s, states[0], states[|ds|], TotalSize(ds), ds[0].now, ds[|ds| - 1]);
  }

  lemma Started(s: Pie, d: Leaving)
    requires s.dqCount == DQ_COUNT_INVALID && d.bytes >= 16384
    ensures Estimate(s, d.bytes, d.size, d.now)
         == Estimate(s.(dqCount := 0, dqTstamp := d.now % UINT32), d.bytes, d.size, d.now)
  {
    hide Average;
    hide Rate;
  }

  lemma ChainStart(states: seq<Pie>, ds: seq<Leaving>, s: Pie)
    requires ds != [] && Chain(states, ds)
    requires Estimate(s, ds[0].bytes, ds[0].size, ds[0].now) == Estimate(states[0], ds[0].bytes, ds[0].size, ds[0].now)
    ensures Chain([s] + states[1..], ds)
  {
    hide Estimate;
    var others := [s] + states[1..];
    forall i | 0 <= i < |ds|
      ensures SameMeasurement(Estimate(others[i], ds[i].bytes, ds[i].size, ds[i].now), others[i + 1])
    {
      assert others[i + 1] == states[i + 1];
    }
  }

  lemma SameRate(s: Pie, u: Pie, t: Pie, total: nat, start: nat, last: Leaving)
    requires total < UINT32 && s.avgDqRate == u.avgDqRate && Outcome(s, t, total, start, last)
    ensures Outcome(u, t, total, start, last)
  {
    hide Average;
  }

  /** With fewer bytes left nothing is measured. */
  lemma NotMeasured(s: Pie, d: Leaving)
    requires s.dqCount == DQ_COUNT_INVALID && d.bytes < 16384
    ensures Estimate(s, d.bytes, d.size, d.now) == s
  {
  }

  /** A dequeue measures the packet it takes against the bytes left without it, unless catching up
      afterwards abandons the measurement. */
  lemma PacketMeasured(s: State, now: nat, later: nat)
    requires s.queue != []
    ensures var p := s.queue[0]; var t := AfterDequeue(s, now, later).pie;
      || SameMeasurement(Estimate(s.pie, Bytes(s.queue) - |p.contents|, |p.contents|, now), t)
      || (t.dqCount == DQ_COUNT_INVALID && t.avgDqRate == 0)
  {
    hide CatchUp;
    hide Estimate;
    var bytes := Bytes(s.queue[1..]);
    assert Bytes(s.queue) - |s.queue[0].contents| == bytes;
    CatchUpMeasurement(Estimate(s.pie, bytes, |s.queue[0].contents|, now), bytes, later);
  }

  /** Catching up leaves a measurement alone or abandons it, rate and all. */
  lemma {:induction false} CatchUpMeasurement(s: Pie, bytes: nat, now: nat)
    ensures var t := CatchUp(s, bytes, now);
      SameMeasurement(s, t) || (t.dqCount == DQ_COUNT_INVALID && t.avgDqRate == 0)
    decreases now - s.lastUpdate
  {
    hide NewProbability;
    hide Qdelay;
    if now - s.lastUpdate > T_UPDATE {
      CatchUpMeasurement(Update(s, bytes), bytes, now);
    }
  }
}
