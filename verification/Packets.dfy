/** Packets, and the limits a dropping queue keeps to. */
module Packets {

  /** The bytes of one delivery opportunity: the default largest payload of a TUN device. */
  const PACKET_SIZE: nat := 1504

  datatype Packet = Packet(contents: string, arrivalTime: nat)

  /** The payload bytes of a queue. */
  function Bytes(q: seq<Packet>): nat
  {
    if q == [] then 0 else |q[0].contents| + Bytes(q[1..])
  }

  lemma {:induction false} BytesAppend(q: seq<Packet>, r: seq<Packet>)
    ensures Bytes(q + r) == Bytes(q) + Bytes(r)
    decreases |q|
  {
    if q == [] {
      assert q + r == r;
    } else {
      assert (q + r)[1..] == q[1..] + r;
      BytesAppend(q[1..], r);
    }
  }

  /** A zero limit is no limit. */
  datatype Limits = Limits(packets: nat, bytes: nat)

  /** good_with */
  predicate GoodWith(l: Limits, bytes: nat, packets: nat)
  {
    (l.bytes != 0 ==> bytes <= l.bytes) && (l.packets != 0 ==> packets <= l.packets)
  }

  /** good */
  predicate Good(l: Limits, q: seq<Packet>)
  {
    GoodWith(l, Bytes(q), |q|)
  }

  /** Anything taken off the front leaves a queue within its limits. */
  lemma {:induction false} SuffixGood(l: Limits, q: seq<Packet>, k: nat)
    requires k <= |q|
    ensures Bytes(q[k..]) <= Bytes(q)
    ensures Good(l, q) ==> Good(l, q[k..])
    decreases k
  {
    if k > 0 {
      assert q[1..][k - 1..] == q[k..];
      SuffixGood(l, q[1..], k - 1);
    } else {
      assert q[k..] == q;
    }
  }
}
