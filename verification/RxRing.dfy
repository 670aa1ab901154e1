/** The e1000 receive ring: the driver and the network card, taking turns on thirty-two descriptors. */
module RxRings {
  import opened Bytes

  const COUNT := 32
  const BUF_SIZE := 2048

  type Packet = p: seq<byte> | 0 < |p| <= 2048 witness [0]

  /** How many slots after `h` slot `s` comes, going around. */
  function Behind(h: nat, s: nat): nat
    requires h < COUNT && s < COUNT
  {
    if h <= s then s - h else s + COUNT - h
  }

  function After(s: nat): nat { if s + 1 == COUNT then 0 else s + 1 }

  datatype Event = Arrive(packet: Packet) | Receive(maxLen: nat)

  /** What came of an event: whether the card took the packet, or the bytes the caller got. */
  datatype Result = Arrived(taken: bool) | Received(data: seq<byte>)

  // ---- what a run should do ----

  function Cut(p: Packet, maxLen: nat): seq<byte> {
    if |p| > maxLen then p[..maxLen] else p
  }

  /** One event at a queue of at most thirty-one packets. */
  function ServeOne(q: seq<Packet>, e: Event): (seq<Packet>, Result) {
    match e
    case Arrive(p) => if |q| < 31 then (q + [p], Arrived(true)) else (q, Arrived(false))
    case Receive(maxLen) => if q == [] then (q, Received([])) else (q[1..], Received(Cut(q[0], maxLen)))
  }

  /** The queue and the results after all the events. */
  function Serve(q: seq<Packet>, events: seq<Event>): (r: (seq<Packet>, seq<Result>))
    ensures |r.1| == |events|
  {
    if events == [] then (q, []) else
      var before := Serve(q, events[..|events| - 1]);
      var last := ServeOne(before.0, events[|events| - 1]);
      (last.0, before.1 + [last.1])
  }

  /** The packets the card took. */
  function Took(q: seq<Packet>, events: seq<Event>): seq<Packet> {
    if events == [] then [] else
      var i := |events| - 1;
      Took(q, events[..i])
      + if events[i].Arrive? && |Serve(q, events[..i]).0| < 31 then [events[i].packet] else []
  }

  /** How many packets the caller got. */
  function Gave(q: seq<Packet>, events: seq<Event>): nat {
    if events == [] then 0 else
      var i := |events| - 1;
      Gave(q, events[..i]) + if events[i].Receive? && Serve(q, events[..i]).0 != [] then 1 else 0
  }

  /** No packet the card took is lost, repeated or out of order: with all packets in the order of arrival, the first
      ones have been given out and the rest are in the ring. */
  lemma {:induction false} Conserved(q: seq<Packet>, events: seq<Event>)
    ensures Gave(q, events) <= |q + Took(q, events)|
    ensures Serve(q, events).0 == (q + Took(q, events))[Gave(q, events)..]
  {
    if events != [] {
      var i := |events| - 1;
      Conserved(q, events[..i]);
      var all, n, now := q + Took(q, events[..i]), Gave(q, events[..i]), Serve(q, events[..i]).0;
      if events[i].Arrive? && |now| < 31 {
        assert q + Took(q, events) == all + [events[i].packet];
        assert (all + [events[i].packet])[n..] == now + [events[i].packet];
      } else {
        assert q + Took(q, events) == all;
      }
    }
  }

  /** Each event's result: the card drops a packet exactly when thirty-one are unread, and a call gets the next packet
      in the order of arrival, cut to its buffer, and nothing exactly when none is unread. */
  lemma {:induction false} ResultIs(q: seq<Packet>, events: seq<Event>, i: nat)
    requires i < |events|
    ensures var now, n := Serve(q, events[..i]).0, Gave(q, events[..i]);
            && (now != [] ==> n < |q + Took(q, events)|)
            && Serve(q, events).1[i] == match events[i]
                                        case Arrive(_) => Arrived(|now| < 31)
                                        case Receive(maxLen) =>
                                          Received(if now == [] then [] else Cut((q + Took(q, events))[n], maxLen))
    decreases |events|
  {
    var m := |events| - 1;
    Conserved(q, events[..i]);
    if i < m {
      ResultIs(q, events[..m], i);
      assert events[..m][..i] == events[..i];
    }
  }

  class RxRing {
    const done: array<bool>        // the DD bit of each descriptor
    const length: array<nat>
    const bufs: array<seq<byte>>
    var rxTail: nat                // the driver's next slot
    var rdh: nat                   // the card's next slot
    var rdt: nat                   // where the card must stop
    ghost var pending: seq<Packet> // in the ring and not yet received, oldest first

    /** The descriptor bits mark exactly the packets not yet received; the card stops one slot before the driver's. */
    ghost predicate Valid()
      reads this, done, length, bufs
    {
      && done.Length == length.Length == bufs.Length == COUNT
      && rxTail < COUNT && rdh < COUNT && rdt < COUNT && |pending| < COUNT
      && Behind(rxTail, rdh) == |pending| && After(rdt) == rxTail
      && (forall s | 0 <= s < COUNT :: done[s] <==> Behind(rxTail, s) < |pending|)
      && (forall s | 0 <= s < COUNT && done[s] ::
          length[s] <= |bufs[s]| && bufs[s][..length[s]] == pending[Behind(rxTail, s)])
    }

    /** `rx_init`. */
    constructor ()
      ensures Valid() && pending == [] && fresh(done) && fresh(length) && fresh(bufs)
    {
      done := new bool[COUNT](_ => false);
      length := new nat[COUNT](_ => 0);
      bufs := new seq<byte>[COUNT](_ => []);
      rdh, rdt, rxTail, pending := 0, COUNT - 1, 0, [];
    }

    /** The card has a packet: it fills the slot at its head, unless the head has reached the tail register. */
    method Fill(p: Packet) returns (taken: bool)
      requires Valid()
      modifies this`rdh, this`pending, done, length, bufs
      ensures Valid() && pending == (if taken then old(pending) + [p] else old(pending))
      ensures taken <==> |old(pending)| < 31
      ensures taken ==> !old(done[rdh])
      ensures forall s | 0 <= s < COUNT && old(done[s]) ::
        bufs[s] == old(bufs[s]) && length[s] == old(length[s]) && done[s]
    {
      if rdh == rdt {
        return false;
      }
      bufs[rdh] := p;
      length[rdh] := |p|;
      done[rdh] := true;
      rdh := After(rdh);
      pending := pending + [p];
      taken := true;
    }

    /** `e1000_recv`: the oldest packet, cut to the caller's buffer; nothing when there is none. */
    method Recv(buf: array<byte>, maxLen: nat) returns (n: nat)
      requires Valid() && maxLen <= buf.Length
      modifies this`rxTail, this`rdt, this`pending, done, buf
      ensures Valid()
      ensures old(pending) == [] ==> n == 0 && pending == [] && buf[..] == old(buf[..])
      ensures old(pending) != [] ==>
        && pending == old(pending)[1..]
        && n == (if |old(pending)[0]| > maxLen then maxLen else |old(pending)[0]|)
        && buf[..] == Splice(old(buf[..]), 0, old(pending)[0][..n])
        && rdt == old(rxTail)
    {
      var head := rxTail;
      if !done[head] {
        return 0;
      }
      n := length[head];
      if n > maxLen {
        n := maxLen;
      }
      Memcpy(buf, 0, bufs[head][..n]);
      done[head] := false;
      rdt := head;
      rxTail := After(head);
      pending := pending[1..];
    }

    /** Over any interleaving of arrivals and calls, every packet, every result and what is left in the ring are those
        of the queue. */
    method Run(events: seq<Event>, buf: array<byte>) returns (log: seq<Result>)
      requires Valid() && buf.Length >= BUF_SIZE
      modifies this, done, length, bufs, buf
      ensures Valid() && (pending, log) == Serve(old(pending), events)
    {
      log := [];
      assert events[..0] == [];
      for i := 0 to |events|
        invariant Valid() && (pending, log) == Serve(old(pending), events[..i])
      {
        assert events[..i + 1][..i] == events[..i];
        match events[i] {
          case Arrive(p) =>
            var taken := Fill(p);
            log := log + [Arrived(taken)];
          case Receive(maxLen) =>
            ghost var was := pending;
            var n := Recv(buf, if maxLen < BUF_SIZE then maxLen else BUF_SIZE);
            assert was != [] ==> buf[..n] == Cut(was[0], maxLen);
            log := log + [Received(buf[..n])];
        }
      }
      assert events[..|events|] == events;
    }
  }
}
