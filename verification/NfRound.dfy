/** One round of a network function on the data plane: receive from every port, treat, send on the next. */
module NfRound {
  import opened HighLevel
  import opened Options

  const THRESHOLD: nat := 200

  /** What a function does with a packet from a port: forward it, possibly changed, or drop it. */
  type Treatment = (nat, Packet) -> Option<Packet>

  /** The example function overwrites the destination address. */
  function Touched(packet: Packet): Packet {
    if |packet| < 6 then packet else [10, 10, 10, 10, 10, 10] + packet[6..]
  }

  /** The six bytes of the address are 0x0a, and the rest is as it was. */
  lemma TouchedBytes(packet: Packet, i: nat)
    requires i < |packet|
    ensures |Touched(packet)| == |packet| && Touched(packet)[i] == if |packet| >= 6 && i < 6 then 0x0a else packet[i]
  {
  }

  const EXAMPLE: Treatment := (p, packet) => Some(Touched(packet))

  /** The inspecting function drops what it refuses, but only from its first port. */
  function Dpi(drop: Packet -> bool): Treatment {
    (p, packet) => if p == 0 && drop(packet) then None else Some(packet)
  }

  // ----- what a round should do -----

  /** A burst takes at most the threshold, from the head of the queue. */
  function Burst(queue: seq<Packet>): seq<Packet> {
    if |queue| <= THRESHOLD then queue else queue[..THRESHOLD]
  }

  lemma BurstIsHead(queue: seq<Packet>)
    ensures Burst(queue) + queue[|Burst(queue)|..] == queue
    ensures |Burst(queue)| <= 200 && (|Burst(queue)| < 200 ==> Burst(queue) == queue)
  {
  }

  /** The packets of a burst that are forwarded, in order. */
  function Kept(treat: Treatment, p: nat, burst: seq<Packet>): (r: seq<Packet>)
    ensures |r| <= |burst|
  {
    if burst == [] then []
    else
      var most, last := Kept(treat, p, burst[..|burst| - 1]), treat(p, burst[|burst| - 1]);
      if last.Some? then most + [last.value] else most
  }

  /** The packets of a burst that are dropped, in order. */
  function Dropped(treat: Treatment, p: nat, burst: seq<Packet>): (r: seq<Packet>)
  {
    if burst == [] then []
    else
      var most, last := Dropped(treat, p, burst[..|burst| - 1]), burst[|burst| - 1];
      if treat(p, last).None? then most + [last] else most
  }

  lemma KeptOne(treat: Treatment, p: nat, packet: Packet)
    ensures Kept(treat, p, [packet]) == if treat(p, packet).Some? then [treat(p, packet).value] else []
    ensures Dropped(treat, p, [packet]) == if treat(p, packet).Some? then [] else [packet]
  {
    assert [packet][..0] == [];
  }

  /** What is kept of a burst is what is kept of its beginning, then what is kept of its rest. */
  lemma {:induction false} KeptInOrder(treat: Treatment, p: nat, first: seq<Packet>, rest: seq<Packet>)
    ensures Kept(treat, p, first + rest) == Kept(treat, p, first) + Kept(treat, p, rest)
  {
    if rest == [] {
      assert first + rest == first;
    } else {
      var n := |rest| - 1;
      KeptInOrder(treat, p, first, rest[..n]);
      assert (first + rest)[..|first + rest| - 1] == first + rest[..n];
    }
  }

  lemma {:induction false} DroppedInOrder(treat: Treatment, p: nat, first: seq<Packet>, rest: seq<Packet>)
    ensures Dropped(treat, p, first + rest) == Dropped(treat, p, first) + Dropped(treat, p, rest)
  {
    if rest == [] {
      assert first + rest == first;
    } else {
      var n := |rest| - 1;
      DroppedInOrder(treat, p, first, rest[..n]);
      assert (first + rest)[..|first + rest| - 1] == first + rest[..n];
    }
  }

  /** Every packet received is kept or dropped, never both, never twice. */
  lemma {:induction false} KeptOrDropped(treat: Treatment, p: nat, burst: seq<Packet>)
    ensures |Kept(treat, p, burst)| + |Dropped(treat, p, burst)| == |burst|
  {
    if burst != [] {
      KeptOrDropped(treat, p, burst[..|burst| - 1]);
    }
  }

  lemma OneMore(kept: seq<Packet>, dropped: seq<Packet>, most: seq<Packet>, last: Packet)
    requires multiset(kept) + multiset(dropped) == multiset(most)
    ensures multiset(kept + [last]) + multiset(dropped) == multiset(most + [last])
    ensures multiset(kept) + multiset(dropped + [last]) == multiset(most + [last])
  {
  }

  /** A packet is dropped exactly if the treatment drops it, and what is forwarded comes of one it does not. */
  lemma {:induction false} KeptAreTreated(treat: Treatment, p: nat, burst: seq<Packet>, x: Packet)
    ensures x in Dropped(treat, p, burst) <==> x in burst && treat(p, x).None?
    ensures x in Kept(treat, p, burst) <==> exists packet :: packet in burst && treat(p, packet) == Some(x)
  {
    if burst != [] {
      var most, last := burst[..|burst| - 1], burst[|burst| - 1];
      KeptAreTreated(treat, p, most, x);
      assert forall packet :: packet in burst <==> packet in most || packet == last;
    }
  }

  /** Treatments that change nothing keep the packets themselves. */
  lemma {:induction false} KeptAreReceived(treat: Treatment, p: nat, burst: seq<Packet>)
    requires forall packet :: treat(p, packet).Some? ==> treat(p, packet).value == packet
    ensures multiset(Kept(treat, p, burst)) + multiset(Dropped(treat, p, burst)) == multiset(burst)
  {
    if burst != [] {
      var most, last := burst[..|burst| - 1], burst[|burst| - 1];
      KeptAreReceived(treat, p, most);
      assert burst == most + [last];
      OneMore(Kept(treat, p, most), Dropped(treat, p, most), most, last);
    }
  }

  /** The port a port's packets go to, and where a port's packets come from: a bijection. */
  function Out(p: nat, n: nat): nat
    requires p < n
  {
    if p + 1 == n then 0 else p + 1
  }

  function From(q: nat, n: nat): nat
    requires q < n
  {
    if q == 0 then n - 1 else q - 1
  }

  lemma OutFrom(p: nat, q: nat, n: nat)
    requires p < n && q < n
    ensures Out(p, n) == q <==> p == From(q, n)
    ensures (p + 1) % n == Out(p, n)
  {
  }

  lemma OutFromAll(p: nat, n: nat)
    requires p < n
    ensures forall q :: 0 <= q < n ==> (Out(p, n) == q <==> p == From(q, n))
  {
    forall q | 0 <= q < n {
      OutFrom(p, q, n);
    }
  }

  // ----- the buffers -----

  /** What a send buffer holds. */
  ghost function Row(slots: array2<Packet>, q: nat, count: nat): seq<Packet>
    requires q < slots.Length0 && count <= slots.Length1
    reads slots
  {
    seq(count, i requires 0 <= i < count reads slots => slots[q, i])
  }

  /** The buffers of a round over `n` ports, each of as many slots as the threshold. */
  class Buffers {
    const n: nat
    const slots: array2<Packet>
    const counts: array<nat>

    ghost predicate Valid()
      reads this, counts
    {
      && slots.Length0 == n && slots.Length1 == THRESHOLD && counts.Length == n
      && forall q :: 0 <= q < n ==> counts[q] <= THRESHOLD
    }

    ghost function Contents(q: nat): seq<Packet>
      requires Valid() && q < n
      reads this, counts, slots
    {
      Row(slots, q, counts[q])
    }

    constructor (n: nat)
      ensures this.n == n && Valid() && fresh(slots) && fresh(counts) && forall q :: 0 <= q < n ==> Contents(q) == []
    {
      this.n := n;
      slots := new Packet[n, THRESHOLD]((i, j) => []);
      counts := new nat[n](i => 0);
    }

    /** Appends to a buffer that has room. */
    method Put(q: nat, packet: Packet)
      requires Valid() && q < n && |Contents(q)| < THRESHOLD
      modifies slots, counts
      ensures Valid() && Contents(q) == old(Contents(q)) + [packet]
      ensures forall k :: 0 <= k < n && k != q ==> Contents(k) == old(Contents(k))
    {
      slots[q, counts[q]] := packet;
      counts[q] := counts[q] + 1;
    }

    method Empty(q: nat)
      requires Valid() && q < n
      modifies counts
      ensures Valid() && Contents(q) == []
      ensures forall k :: 0 <= k < n && k != q ==> Contents(k) == old(Contents(k))
    {
      counts[q] := 0;
    }
  }

  // ----- a round -----

  /** Receives one burst and puts what is kept into the buffer of the next port, which is empty. */
  method ReceivePort(b: Buffers, p: nat, burst: seq<Packet>, treat: Treatment) returns (freed: seq<Packet>)
    requires b.Valid() && p < b.n && |burst| <= THRESHOLD && b.Contents(Out(p, b.n)) == []
    modifies b.slots, b.counts
    ensures b.Valid() && freed == Dropped(treat, p, burst) && b.Contents(Out(p, b.n)) == Kept(treat, p, burst)
    ensures forall q :: 0 <= q < b.n && q != Out(p, b.n) ==> b.Contents(q) == old(b.Contents(q))
  {
    freed := [];
    for i := 0 to |burst|
      invariant b.Valid() && freed == Dropped(treat, p, burst[..i])
      invariant b.Contents(Out(p, b.n)) == Kept(treat, p, burst[..i])
      invariant forall q :: 0 <= q < b.n && q != Out(p, b.n) ==> b.Contents(q) == old(b.Contents(q))
    {
      assert burst[..i + 1][..i] == burst[..i];
      var packet := treat(p, burst[i]);
      if packet.None? {
        freed := freed + [burst[i]];
      } else {
        OutFrom(p, Out(p, b.n), b.n);
        b.Put((p + 1) % b.n, packet.value);
      }
    }
    assert burst[..|burst|] == burst;
  }

  ghost predicate Received(b: Buffers, queues: seq<seq<Packet>>, treat: Treatment, q: nat)
    requires b.Valid() && |queues| == b.n && q < b.n
    reads b, b.counts, b.slots
  {
    b.Contents(q) == Kept(treat, From(q, b.n), Burst(queues[From(q, b.n)]))
  }

  /** What each port is to send. */
  ghost function KeptAll(treat: Treatment, queues: seq<seq<Packet>>): (kept: seq<seq<Packet>>)
    ensures |kept| == |queues|
    ensures forall q :: 0 <= q < |queues| ==>
      kept[q] == Kept(treat, From(q, |queues|), Burst(queues[From(q, |queues|)]))
  {
    seq(|queues|, q requires 0 <= q < |queues| => Kept(treat, From(q, |queues|), Burst(queues[From(q, |queues|)])))
  }

  /** The first `p` ports have been received from, and the other buffers are empty. */
  ghost predicate ReceivedUntil(b: Buffers, queues: seq<seq<Packet>>, treat: Treatment, p: nat)
    requires b.Valid() && |queues| == b.n
    reads b, b.counts, b.slots
  {
    forall q :: 0 <= q < b.n ==> if From(q, b.n) < p then Received(b, queues, treat, q) else b.Contents(q) == []
  }

  /** What stays in the queue of a port and what the function dropped of its burst. */
  ghost predicate PortDone(queue: seq<Packet>, treat: Treatment, p: nat, left: seq<Packet>, dropped: seq<Packet>) {
    Burst(queue) + left == queue && dropped == Dropped(treat, p, Burst(queue))
  }

  /** One port of the round. */
  method ReceiveNext(b: Buffers, queues: seq<seq<Packet>>, treat: Treatment, p: nat)
      returns (dropped: seq<Packet>, left: seq<Packet>)
    requires b.Valid() && |queues| == b.n && p < b.n && ReceivedUntil(b, queues, treat, p)
    modifies b.slots, b.counts
    ensures b.Valid() && ReceivedUntil(b, queues, treat, p + 1)
    ensures PortDone(queues[p], treat, p, left, dropped)
  {
    var burst := Burst(queues[p]);
    OutFromAll(p, b.n);
    BurstIsHead(queues[p]);
    dropped := ReceivePort(b, p, burst, treat);
    left := queues[p][|burst|..];
  }

  /** All the ports: no buffer ever exceeds its slots, because no two ports send to the same one. */
  method Receive(b: Buffers, queues: seq<seq<Packet>>, treat: Treatment)
      returns (rest: seq<seq<Packet>>, freed: seq<seq<Packet>>)
    requires b.Valid() && |queues| == b.n && forall q :: 0 <= q < b.n ==> b.Contents(q) == []
    modifies b.slots, b.counts
    ensures b.Valid() && forall q :: 0 <= q < b.n ==> Received(b, queues, treat, q)
    ensures |freed| == b.n && |rest| == b.n
    ensures forall p :: 0 <= p < b.n ==> PortDone(queues[p], treat, p, rest[p], freed[p])
  {
    rest, freed := [], [];
    for p := 0 to b.n
      invariant b.Valid() && |freed| == p && |rest| == p && ReceivedUntil(b, queues, treat, p)
      invariant forall k :: 0 <= k < p ==> PortDone(queues[k], treat, k, rest[k], freed[k])
    {
      var dropped, left := ReceiveNext(b, queues, treat, p);
      freed, rest := freed + [dropped], rest + [left];
    }
  }

  function Fit(room: nat, packets: seq<Packet>): (k: nat)
    ensures k <= |packets|
  {
    if room < |packets| then room else |packets|
  }

  /** The ring takes what it has room for, from the front; the rest is freed. */
  ghost predicate SentFrom(packets: seq<Packet>, room: nat, sent: seq<Packet>, late: seq<Packet>) {
    sent == packets[..Fit(room, packets)] && late == packets[Fit(room, packets)..]
  }

  lemma SentAll(packets: seq<Packet>, room: nat, sent: seq<Packet>, late: seq<Packet>)
    requires SentFrom(packets, room, sent, late)
    ensures sent + late == packets && |sent| <= room && (late != [] ==> |sent| == room)
  {
  }

  method Send(b: Buffers, room: seq<nat>) returns (sent: seq<seq<Packet>>, freed: seq<seq<Packet>>)
    requires b.Valid() && |room| == b.n
    modifies b.counts
    ensures b.Valid() && forall q :: 0 <= q < b.n ==> b.Contents(q) == []
    ensures |sent| == b.n && |freed| == b.n
    ensures forall q :: 0 <= q < b.n ==> SentFrom(old(b.Contents(q)), room[q], sent[q], freed[q])
  {
    sent, freed := [], [];
    for p := 0 to b.n
      invariant b.Valid() && |sent| == p && |freed| == p
      invariant forall q :: 0 <= q < b.n ==> b.Contents(q) == if q < p then [] else old(b.Contents(q))
      invariant forall q :: 0 <= q < p ==> SentFrom(old(b.Contents(q)), room[q], sent[q], freed[q])
    {
      var out, lost := SendPort(b, p, room[p]);
      sent, freed := sent + [out], freed + [lost];
      b.Empty(p);
    }
  }

  method SendPort(b: Buffers, p: nat, room: nat) returns (out: seq<Packet>, lost: seq<Packet>)
    requires b.Valid() && p < b.n
    ensures SentFrom(b.Contents(p), room, out, lost)
  {
    out, lost := [], [];
    var ret := if room < b.counts[p] then room else b.counts[p];
    for i := 0 to ret
      invariant out == b.Contents(p)[..i]
    {
      out := out + [b.slots[p, i]];
    }
    for i := ret to b.counts[p]
      invariant lost == b.Contents(p)[ret..i]
    {
      lost := lost + [b.slots[p, i]];
    }
    assert b.Contents(p)[ret..|b.Contents(p)|] == b.Contents(p)[ret..];
  }

  /** What leaves the function on port `q`, and what is freed there for lack of room, is what was kept of
      the burst of the port before it, in order; what the function drops is freed where it came in. */
  method DoRound(b: Buffers, queues: seq<seq<Packet>>, room: seq<nat>, treat: Treatment)
      returns (rest: seq<seq<Packet>>, sent: seq<seq<Packet>>, dropped: seq<seq<Packet>>, late: seq<seq<Packet>>)
    requires b.Valid() && |queues| == b.n && |room| == b.n && forall q :: 0 <= q < b.n ==> b.Contents(q) == []
    modifies b.slots, b.counts
    ensures b.Valid() && forall q :: 0 <= q < b.n ==> b.Contents(q) == []
    ensures |rest| == b.n && |sent| == b.n && |dropped| == b.n && |late| == b.n
    ensures forall p :: 0 <= p < b.n ==> PortDone(queues[p], treat, p, rest[p], dropped[p])
    ensures forall q :: 0 <= q < b.n ==> sent[q] + late[q] == Kept(treat, From(q, b.n), Burst(queues[From(q, b.n)]))
    ensures forall q :: 0 <= q < b.n ==> |sent[q]| <= room[q] && (late[q] != [] ==> |sent[q]| == room[q])
  {
    rest, dropped := Receive(b, queues, treat);
    ghost var kept := KeptAll(treat, queues);
    forall q | 0 <= q < b.n
      ensures b.Contents(q) == kept[q]
    {
      assert Received(b, queues, treat, q);
    }
    sent, late := Send(b, room);
    forall q | 0 <= q < b.n
      ensures sent[q] + late[q] == kept[q] && |sent[q]| <= room[q] && (late[q] != [] ==> |sent[q]| == room[q])
    {
      SentAll(kept[q], room[q], sent[q], late[q]);
    }
  }

  // ----- conservation -----

  /** Nothing is lost or duplicated: a function that changes no packet sends, frees for lack of room or
      drops each packet of a burst exactly once. */
  lemma PortConserves(treat: Treatment, p: nat, burst: seq<Packet>, sent: seq<Packet>, late: seq<Packet>)
    requires sent + late == Kept(treat, p, burst)
    requires forall packet :: treat(p, packet).Some? ==> treat(p, packet).value == packet
    ensures multiset(sent) + multiset(late) + multiset(Dropped(treat, p, burst)) == multiset(burst)
  {
    KeptAreReceived(treat, p, burst);
    assert multiset(sent + late) == multiset(sent) + multiset(late);
  }

  /** The example function forwards every packet, with its destination address overwritten. */
  lemma {:induction false} ExampleForwardsAll(p: nat, burst: seq<Packet>, i: nat)
    requires i < |burst|
    ensures Dropped(EXAMPLE, p, burst) == [] && |Kept(EXAMPLE, p, burst)| == |burst|
    ensures Kept(EXAMPLE, p, burst)[i] == Touched(burst[i])
  {
    var n := |burst| - 1;
    if i < n {
      ExampleForwardsAll(p, burst[..n], i);
    } else if n > 0 {
      ExampleForwardsAll(p, burst[..n], 0);
    }
  }

  /** Of what comes in at its first port, the inspecting function drops exactly what it refuses. */
  lemma DpiDropsExactly(drop: Packet -> bool, burst: seq<Packet>, x: Packet)
    ensures x in Dropped(Dpi(drop), 0, burst) <==> x in burst && drop(x)
    ensures x in Kept(Dpi(drop), 0, burst) <==> x in burst && !drop(x)
    ensures multiset(Kept(Dpi(drop), 0, burst)) + multiset(Dropped(Dpi(drop), 0, burst)) == multiset(burst)
  {
    KeptAreTreated(Dpi(drop), 0, burst, x);
    KeptAreReceived(Dpi(drop), 0, burst);
  }

  /** The inspecting function forwards everything that does not come in at its first port. */
  lemma {:induction false} DpiForwardsRest(drop: Packet -> bool, p: nat, burst: seq<Packet>)
    requires p != 0
    ensures Kept(Dpi(drop), p, burst) == burst && Dropped(Dpi(drop), p, burst) == []
  {
    if burst != [] {
      DpiForwardsRest(drop, p, burst[..|burst| - 1]);
      assert burst == burst[..|burst| - 1] + [burst[|burst| - 1]];
    }
  }
}
