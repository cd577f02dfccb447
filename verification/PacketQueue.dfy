/** AbstractPacketQueue: the five disciplines behind one interface, and what the link may rely
    on whichever it was given. */
module PacketQueue {
  import opened Packets
  import opened DroppingQueue
  import opened CodelQueue
  import opened PieQueue

  datatype AbstractPacketQueue =
    | Infinite(infinite: InfinitePacketQueue)
    | DropTailQueue(tail: DroppingPacketQueue)
    | DropHeadQueue(head: DroppingPacketQueue)
    | CodelDelay(codel: CodelPacketQueue)
    | PieEnhanced(pie: PiePacketQueue)

  function Repr(q: AbstractPacketQueue): set<object>
  {
    match q
    case Infinite(x) => {x}
    case DropTailQueue(x) => {x}
    case DropHeadQueue(x) => {x}
    case CodelDelay(x) => {x, x.base}
    case PieEnhanced(x) => {x, x.base}
  }

  function Contents(q: AbstractPacketQueue): seq<Packet>
    reads Repr(q)
  {
    match q
    case Infinite(x) => x.internalQueue
    case DropTailQueue(x) => x.internalQueue
    case DropHeadQueue(x) => x.internalQueue
    case CodelDelay(x) => x.base.internalQueue
    case PieEnhanced(x) => x.base.internalQueue
  }

  ghost predicate Valid(q: AbstractPacketQueue)
    reads Repr(q)
  {
    match q
    case Infinite(x) => true
    case DropTailQueue(x) => x.Valid() && Good(x.limits, x.internalQueue)
    case DropHeadQueue(x) => x.Valid() && Good(x.limits, x.internalQueue)
    case CodelDelay(x) => x.Valid()
    case PieEnhanced(x) => x.Valid()
  }

  /** The latest clock reading the queue depends on. */
  function Latest(q: AbstractPacketQueue): nat
    reads Repr(q)
  {
    if q.PieEnhanced? then q.pie.lastUpdate else 0
  }

  /** Every discipline but CoDel takes one packet off the front and nothing else. */
  predicate PlainDequeue(q: AbstractPacketQueue)
  {
    !q.CodelDelay?
  }

  /** `after` is a suffix of `before`. */
  ghost predicate SuffixOf(after: seq<Packet>, before: seq<Packet>)
  {
    |after| <= |before| && after == before[|before| - |after|..]
  }

  /** What decides, besides the queue itself, whether a packet offered is kept. */
  datatype Discipline =
    | Unlimited
    | RefuseNewest(limits: Limits)
    | DropOldest(limits: Limits)
    | RefuseEarly(limits: Limits, pie: Pie)

  function DisciplineOf(q: AbstractPacketQueue): Discipline
    reads Repr(q)
  {
    match q
    case Infinite(x) => Unlimited
    case DropTailQueue(x) => RefuseNewest(x.limits)
    case DropHeadQueue(x) => DropOldest(x.limits)
    case CodelDelay(x) => RefuseNewest(x.base.limits)
    case PieEnhanced(x) => RefuseEarly(x.base.limits, x.PieModel())
  }

  /** The discipline of `q`, whatever state its controller is in. */
  ghost predicate RuleOf(q: AbstractPacketQueue, d: Discipline)
  {
    match q
    case Infinite(x) => d == Unlimited
    case DropTailQueue(x) => d == RefuseNewest(x.limits)
    case DropHeadQueue(x) => d == DropOldest(x.limits)
    case CodelDelay(x) => d == RefuseNewest(x.base.limits)
    case PieEnhanced(x) => d.RefuseEarly? && d.limits == x.base.limits && Bounded(d.pie)
  }

  lemma RuleHolds(q: AbstractPacketQueue)
    requires Valid(q)
    ensures RuleOf(q, DisciplineOf(q))
  {
  }

  /** The queue `q` once `p` has been offered, discipline by discipline. */
  function Admitted(d: Discipline, q: seq<Packet>, p: Packet, now: nat, random: real): seq<Packet>
  {
    match d
    case Unlimited => q + [p]
    case RefuseNewest(limits) => DropTail(limits, q, p)
    case DropOldest(limits) => DropUntilGood(limits, q + [p])
    case RefuseEarly(limits, pie) => AfterEnqueue(limits, PieQueue.State.State(pie, q), p, now, random).queue
  }

  /** Whether the assertions of enqueue hold. */
  predicate Survives(d: Discipline, q: seq<Packet>, p: Packet)
  {
    d.DropOldest? ==> OneDropSuffices(d.limits, q + [p])
  }

  /** A packet offered goes to the back, or is refused; at most packets at the front are lost. */
  lemma AdmittedAtBack(d: Discipline, q: seq<Packet>, p: Packet, now: nat, random: real)
    ensures var r := Admitted(d, q, p, now, random); r == q || SuffixOf(r, q + [p])
    ensures d.Unlimited? ==> Admitted(d, q, p, now, random) == q + [p]
  {
    hide CatchUp;
    hide DropEarly;
    var all := q + [p];
    assert all[0..] == all;
    if d.DropOldest? {
      DropKeepsLongestSuffix(d.limits, all);
    }
  }

  /** enqueue, at time `now` and with the number PIE draws. False stands for the failed
      assertion of a drop-head queue that would need a second drop. */
  method Enqueue(q: AbstractPacketQueue, p: Packet, now: nat, random: real) returns (survives: bool)
    requires Valid(q) && Latest(q) <= now
    modifies Repr(q)
    ensures survives ==> Valid(q) && Latest(q) <= now
    ensures survives <==> Survives(old(DisciplineOf(q)), old(Contents(q)), p)
    ensures survives ==> Contents(q) == Admitted(old(DisciplineOf(q)), old(Contents(q)), p, now, random)
  {
    hide CatchUp;
    ghost var all := Contents(q) + [p];
    survives := true;
    match q
    case Infinite(x) => x.Enqueue(p);
    case DropTailQueue(x) => x.EnqueueDropTail(p);
    case DropHeadQueue(x) =>
      DropKeepsLongestSuffix(x.limits, all);
      survives := x.EnqueueDropHead(p);
    case CodelDelay(x) => x.Enqueue(p);
    case PieEnhanced(x) =>
      CatchUpClock(x.PieModel(), Bytes(x.base.internalQueue), now);
      x.Enqueue(p, now, random);
  }

  lemma CatchUpClock(s: Pie, bytes: nat, now: nat)
    requires s.lastUpdate <= now
    ensures CatchUp(s, bytes, now).lastUpdate <= now
  {
    hide CatchUp;
    CatchUpRepeats(s, bytes, now);
  }

  /** dequeue: whatever the discipline, the packet returned is the one at the front. */
  method Dequeue(q: AbstractPacketQueue, now: nat, later: nat) returns (p: Packet)
    requires Valid(q) && Contents(q) != [] && Latest(q) <= now <= later
    modifies Repr(q)
    ensures Valid(q) && Latest(q) <= later
    ensures p == old(Contents(q))[0]
    ensures SuffixOf(Contents(q), old(Contents(q))[1..])
    ensures PlainDequeue(q) ==> Contents(q) == old(Contents(q))[1..]
    ensures q.CodelDelay? ==> q.codel.Model() == CodelQueue.AfterDequeue(old(q.codel.Model()), now)
    ensures q.PieEnhanced? ==> q.pie.Model() == PieQueue.AfterDequeue(old(q.pie.Model()), now, later)
  {
    hide CodelQueue.AfterDequeue;
    hide PieQueue.AfterDequeue;
    ghost var rest := Contents(q)[1..];
    assert rest[0..] == rest;
    match q
    case Infinite(x) => p := x.Dequeue();
    case DropTailQueue(x) => p := DequeueWithin(x);
    case DropHeadQueue(x) => p := DequeueWithin(x);
    case CodelDelay(x) => p := DequeueCodel(x, now);
    case PieEnhanced(x) => p := DequeuePie(x, now, later);
  }

  method DequeueCodel(x: CodelPacketQueue, now: nat) returns (p: Packet)
    requires x.Valid() && x.base.internalQueue != []
    modifies x, x.base
    ensures x.Valid() && p == old(x.base.internalQueue)[0]
    ensures SuffixOf(x.base.internalQueue, old(x.base.internalQueue)[1..])
    ensures x.Model() == CodelQueue.AfterDequeue(old(x.Model()), now)
  {
    hide CodelQueue.AfterDequeue;
    ghost var before := x.base.internalQueue;
    DequeueSafe(x.Model(), now);
    p := x.Dequeue(now);
    ghost var n := |before| - |x.base.internalQueue|;
    assert before[n..] == before[1..][n - 1..];
  }

  method DequeuePie(x: PiePacketQueue, now: nat, later: nat) returns (p: Packet)
    requires x.Valid() && x.base.internalQueue != [] && x.lastUpdate <= now <= later
    modifies x, x.base
    ensures x.Valid() && p == old(x.base.internalQueue)[0] && x.lastUpdate <= later
    ensures x.base.internalQueue == old(x.base.internalQueue)[1..]
    ensures x.Model() == PieQueue.AfterDequeue(old(x.Model()), now, later)
  {
    hide CatchUp;
    hide Estimate;
    ghost var before := x.base.internalQueue;
    ghost var bytes, size := Bytes(before[1..]), |before[0].contents|;
    EstimateBounded(x.PieModel(), bytes, size, now);
    CatchUpClock(Estimate(x.PieModel(), bytes, size, now), bytes, later);
    p := x.Dequeue(now, later);
  }

  /** The assertion that ends dequeue holds in a queue within its limits. */
  method DequeueWithin(x: DroppingPacketQueue) returns (p: Packet)
    requires x.Valid() && Good(x.limits, x.internalQueue) && x.internalQueue != []
    modifies x
    ensures x.Valid() && Good(x.limits, x.internalQueue)
    ensures p == old(x.internalQueue)[0] && x.internalQueue == old(x.internalQueue)[1..]
  {
    SuffixGood(x.limits, x.internalQueue, 1);
    var good: bool;
    p, good := x.Dequeue();
    assert good;
  }
}
