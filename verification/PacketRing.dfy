/** The send path of a gateway: a ring of message sizes beside the buffer that holds the messages. */
module PacketRing {

  import opened Common

  const RING_SIZE: nat := 16
  const HEADER_SIZE: nat := 36
  const GET_TAG_LABELS: int := 0x1d

  type Byte = bv8

  // A slot of the ring: what is left to send of a packet, and its type.
  datatype Message = Message(size: int, kind: int)

  datatype Packet = Packet(bytes: seq<Byte>, kind: int)

  // One write on the socket: bytes from..to of a packet, counted from the first one ever accepted.
  datatype Datagram = Datagram(packet: nat, from: nat, to: nat)

  function Bytes(ps: seq<Packet>): seq<Byte> {
    if ps == [] then [] else ps[0].bytes + Bytes(ps[1..])
  }

  lemma {:induction false} BytesAppend(ps: seq<Packet>, qs: seq<Packet>)
    ensures Bytes(ps + qs) == Bytes(ps) + Bytes(qs)
  {
    if ps == [] {
      assert ps + qs == qs;
    } else {
      assert (ps + qs)[1..] == ps[1..] + qs;
      BytesAppend(ps[1..], qs);
      assert ps[0].bytes + (Bytes(ps[1..]) + Bytes(qs)) == ps[0].bytes + Bytes(ps[1..]) + Bytes(qs);
    }
  }

  lemma BytesOne(p: Packet)
    ensures Bytes([p]) == p.bytes
  {}

  // The slot of the k-th packet of the queue.
  function Slot(tail: int, k: int): int {
    if tail + k < RING_SIZE then tail + k else tail + k - RING_SIZE
  }

  // How many slots are in use.
  function Used(head: int, tail: int, full: bool): int {
    if full then RING_SIZE else if head < tail then head - tail + RING_SIZE else head - tail
  }

  // The slots from tail on tell what is left of the queue, sent bytes of its first packet being gone.
  ghost predicate RingHolds(ring: seq<Message>, head: int, tail: int, full: bool, queue: seq<Packet>, sent: nat) {
    && |ring| == RING_SIZE && 0 <= head < RING_SIZE && 0 <= tail < RING_SIZE && (full ==> head == tail)
    && |queue| == Used(head, tail, full)
    && (forall k | 0 <= k < |queue| ::
          ring[Slot(tail, k)] == Message(|queue[k].bytes| - (if k == 0 then sent else 0), queue[k].kind))
    && (forall k | 0 <= k < |queue| :: |queue[k].bytes| >= HEADER_SIZE)
    && if queue == [] then sent == 0 else sent < |queue[0].bytes|
  }

  lemma NextSlot(head: int, tail: int, used: nat)
    requires 0 <= head < RING_SIZE && 0 <= tail < RING_SIZE && used == Used(head, tail, false)
    ensures Slot(tail, used) == head && forall k | 0 <= k < used :: Slot(tail, k) != head
    ensures var head' := (head + 1) % RING_SIZE; 0 <= head' < RING_SIZE && Used(head', tail, head' == tail) == used + 1
  {}

  lemma RingAdd(ring: seq<Message>, head: int, tail: int, queue: seq<Packet>, sent: nat, p: Packet)
    requires RingHolds(ring, head, tail, false, queue, sent) && |p.bytes| >= HEADER_SIZE
    ensures var head' := (head + 1) % RING_SIZE;
      RingHolds(ring[head := Message(|p.bytes|, p.kind)], head', tail, head' == tail, queue + [p], sent)
  {
    NextSlot(head, tail, |queue|);
    hide Slot, Used;
  }

  lemma NextTail(head: int, tail: int, full: bool, next: int)
    requires 0 <= head < RING_SIZE && 0 <= tail < RING_SIZE && (full ==> head == tail) && Used(head, tail, full) > 0
    requires next == (tail + 1) % RING_SIZE
    ensures 0 <= next < RING_SIZE && Used(head, next, false) == Used(head, tail, full) - 1
    ensures forall k | 0 <= k < Used(head, tail, full) - 1 :: Slot(next, k) == Slot(tail, k + 1) && Slot(next, k) != tail
  {}

  lemma RingTake(ring: seq<Message>, head: int, tail: int, full: bool, queue: seq<Packet>, sent: nat)
    requires RingHolds(ring, head, tail, full, queue, sent) && queue != []
    ensures RingHolds(ring[tail := Message(0, 0)], head, (tail + 1) % RING_SIZE, false, queue[1..], 0)
  {
    NextTail(head, tail, full, (tail + 1) % RING_SIZE);
    hide Slot, Used;
    assert forall k | 0 <= k < |queue[1..]| :: queue[1..][k] == queue[k + 1];
  }

  lemma SentBound(ring: seq<Message>, head: int, tail: int, full: bool, queue: seq<Packet>, sent: nat)
    requires RingHolds(ring, head, tail, full, queue, sent)
    ensures if queue == [] then sent == 0 else sent < |queue[0].bytes|
  {}

  lemma RingShrink(ring: seq<Message>, head: int, tail: int, full: bool, queue: seq<Packet>, sent: nat, n: nat)
    requires RingHolds(ring, head, tail, full, queue, sent) && queue != [] && sent + n < |queue[0].bytes|
    ensures RingHolds(ring[tail := Message(ring[tail].size - n, ring[tail].kind)], head, tail, full, queue, sent + n)
  {
    assert Slot(tail, 0) == tail;
    assert forall k | 0 < k < |queue| :: Slot(tail, k) != tail;
  }

  // ---------------------------------------------------------------- what went on the socket

  // Where the next write starts: a packet and how much of it is gone.
  function After(d: Datagram, accepted: seq<Packet>): (nat, nat)
    requires d.packet < |accepted|
  {
    if d.to == |accepted[d.packet].bytes| then (d.packet + 1, 0) else (d.packet, d.to)
  }

  // The writes cover the accepted packets in order, without a gap, each within one packet, up to byte sent of packet
  // done.
  ghost predicate Covers(ds: seq<Datagram>, accepted: seq<Packet>, done: nat, sent: nat) {
    if ds == [] then done == 0 && sent == 0
    else
      var d := ds[|ds| - 1];
      && d.packet < |accepted| && d.from <= d.to <= |accepted[d.packet].bytes|
      && After(d, accepted) == (done, sent)
      && Covers(ds[..|ds| - 1], accepted, d.packet, d.from)
  }

  ghost function OnTheWire(ds: seq<Datagram>, accepted: seq<Packet>): seq<Byte>
    requires forall d <- ds :: d.packet < |accepted| && d.from <= d.to <= |accepted[d.packet].bytes|
  {
    if ds == [] then []
    else
      var d := ds[|ds| - 1];
      OnTheWire(ds[..|ds| - 1], accepted) + accepted[d.packet].bytes[d.from..d.to]
  }

  lemma {:induction false} CoversMore(ds: seq<Datagram>, accepted: seq<Packet>, done: nat, sent: nat, p: Packet)
    requires Covers(ds, accepted, done, sent)
    ensures Covers(ds, accepted + [p], done, sent)
  {
    if ds != [] {
      var d := ds[|ds| - 1];
      assert (accepted + [p])[d.packet] == accepted[d.packet];
      CoversMore(ds[..|ds| - 1], accepted, d.packet, d.from, p);
    }
  }

  lemma CoversNext(ds: seq<Datagram>, accepted: seq<Packet>, done: nat, sent: nat, n: nat)
    requires Covers(ds, accepted, done, sent) && done < |accepted| && sent + n <= |accepted[done].bytes|
    ensures var d := Datagram(done, sent, sent + n);
      Covers(ds + [d], accepted, After(d, accepted).0, After(d, accepted).1)
  {
    var d := Datagram(done, sent, sent + n);
    assert (ds + [d])[..|ds|] == ds;
  }

  lemma {:induction false} CoversBounds(ds: seq<Datagram>, accepted: seq<Packet>, done: nat, sent: nat)
    requires Covers(ds, accepted, done, sent)
    ensures forall d <- ds :: d.packet < |accepted| && d.from <= d.to <= |accepted[d.packet].bytes|
    ensures done <= |accepted| && (done == |accepted| ==> sent == 0) && (done < |accepted| ==> sent <= |accepted[done].bytes|)
  {
    if ds != [] {
      var d := ds[|ds| - 1];
      assert ds == ds[..|ds| - 1] + [d];
      CoversBounds(ds[..|ds| - 1], accepted, d.packet, d.from);
    }
  }

  // One more write within a packet.
  lemma WrittenMore(before: seq<Byte>, d: Datagram, accepted: seq<Packet>)
    requires d.packet < |accepted| && d.from <= d.to <= |accepted[d.packet].bytes|
    requires before == Bytes(accepted[..d.packet]) + accepted[d.packet].bytes[..d.from]
    ensures before + accepted[d.packet].bytes[d.from..d.to] == Bytes(accepted[..d.packet]) + accepted[d.packet].bytes[..d.to]
    ensures Bytes(accepted[..d.packet + 1]) == Bytes(accepted[..d.packet]) + accepted[d.packet].bytes
  {
    hide Bytes;
    var all, front := accepted[d.packet].bytes, Bytes(accepted[..d.packet]);
    assert all[..d.from] + all[d.from..d.to] == all[..d.to];
    assert front + all[..d.from] + all[d.from..d.to] == front + (all[..d.from] + all[d.from..d.to]);
    assert accepted[..d.packet + 1] == accepted[..d.packet] + [accepted[d.packet]];
    BytesAppend(accepted[..d.packet], [accepted[d.packet]]);
    BytesOne(accepted[d.packet]);
  }

  // All that was written is the packets that are done, and the beginning of the next one.
  lemma {:induction false} WrittenInOrder(ds: seq<Datagram>, accepted: seq<Packet>, done: nat, sent: nat)
    requires Covers(ds, accepted, done, sent)
    requires done <= |accepted| && (done < |accepted| ==> sent <= |accepted[done].bytes|)
    requires forall d <- ds :: d.packet < |accepted| && d.from <= d.to <= |accepted[d.packet].bytes|
    ensures OnTheWire(ds, accepted) == Bytes(accepted[..done]) + if done < |accepted| then accepted[done].bytes[..sent] else []
  {
    if ds == [] {
      assert accepted[..0] == [];
    } else {
      var d := ds[|ds| - 1];
      var front := ds[..|ds| - 1];
      CoversBounds(front, accepted, d.packet, d.from);
      WrittenInOrder(front, accepted, d.packet, d.from);
      WrittenMore(OnTheWire(front, accepted), d, accepted);
      hide Covers, Bytes;
    }
  }

  // ---------------------------------------------------------------- the gateway

  // The buffer holds the rest of the first packet of the queue, and the others.
  function Buffered(queue: seq<Packet>, sent: nat): seq<Byte> {
    if sent <= |Bytes(queue)| then Bytes(queue)[sent..] else []
  }

  lemma BufferedAdd(queue: seq<Packet>, sent: nat, p: Packet)
    requires if queue == [] then sent == 0 else sent < |queue[0].bytes|
    ensures Buffered(queue + [p], sent) == Buffered(queue, sent) + p.bytes
  {
    BytesAppend(queue, [p]);
    assert Bytes([p]) == p.bytes;
    assert Bytes(queue + [p])[sent..] == Bytes(queue)[sent..] + p.bytes;
  }

  lemma BufferedDrop(queue: seq<Packet>, sent: nat, n: nat)
    requires queue != [] && sent + n <= |queue[0].bytes|
    ensures n <= |Buffered(queue, sent)| && queue[0].bytes[sent..sent + n] == Buffered(queue, sent)[..n]
    ensures Buffered(queue, sent)[n..] ==
            if sent + n == |queue[0].bytes| then Buffered(queue[1..], 0) else Buffered(queue, sent + n)
  {
    var all := Bytes(queue);
    assert all[sent..][n..] == all[sent + n..];
    assert all[|queue[0].bytes|..] == Bytes(queue[1..]);
    assert all[sent..][..n] == queue[0].bytes[sent..sent + n];
  }

  lemma BufferedEmpty(queue: seq<Packet>, sent: nat)
    requires if queue == [] then sent == 0 else sent < |queue[0].bytes|
    ensures Buffered(queue, sent) == [] <==> queue == []
  {}

  // The ring, the buffer and the event agree with the packets that were accepted and not sent yet.
  ghost predicate Consistent(ring: seq<Message>, head: int, tail: int, full: bool, writeBuf: seq<Byte>, eventPending: bool,
                             accepted: seq<Packet>, done: nat, sent: nat, ds: seq<Datagram>)
  {
    && done <= |accepted|
    && RingHolds(ring, head, tail, full, accepted[done..], sent)
    && writeBuf == Buffered(accepted[done..], sent)
    && (eventPending <==> done < |accepted|)
    && Covers(ds, accepted, done, sent)
  }

  lemma InBounds(ring: seq<Message>, head: int, tail: int, full: bool, writeBuf: seq<Byte>, eventPending: bool,
                 accepted: seq<Packet>, done: nat, sent: nat, ds: seq<Datagram>)
    requires Consistent(ring, head, tail, full, writeBuf, eventPending, accepted, done, sent, ds)
    ensures |ring| == RING_SIZE && 0 <= head < RING_SIZE && 0 <= tail < RING_SIZE
    ensures full <==> |accepted| - done == RING_SIZE
    ensures eventPending ==>
      ring[tail].size == |accepted[done].bytes| - sent > 0 && ring[tail].kind == accepted[done].kind && done < |accepted|
  {
    if eventPending {
      assert ring[Slot(tail, 0)].size == |accepted[done..][0].bytes| - sent;
    }
  }

  lemma EnqueueConsistent(ring: seq<Message>, head: int, tail: int, writeBuf: seq<Byte>, eventPending: bool,
                          accepted: seq<Packet>, done: nat, sent: nat, ds: seq<Datagram>, p: Packet)
    requires Consistent(ring, head, tail, false, writeBuf, eventPending, accepted, done, sent, ds) && |p.bytes| >= HEADER_SIZE
    ensures |ring| == RING_SIZE && 0 <= head < RING_SIZE
    ensures var head' := (head + 1) % RING_SIZE;
      Consistent(ring[head := Message(|p.bytes|, p.kind)], head', tail, head' == tail, writeBuf + p.bytes, true,
                 accepted + [p], done, sent, ds)
  {
    RingAdd(ring, head, tail, accepted[done..], sent, p);
    BufferedAdd(accepted[done..], sent, p);
    CoversMore(ds, accepted, done, sent, p);
    assert (accepted + [p])[done..] == accepted[done..] + [p];
    hide Slot, Used, Covers, Buffered;
  }

  // Part of a packet is written.
  lemma PartConsistent(ring: seq<Message>, head: int, tail: int, full: bool, writeBuf: seq<Byte>,
                       accepted: seq<Packet>, done: nat, sent: nat, ds: seq<Datagram>, n: nat)
    requires Consistent(ring, head, tail, full, writeBuf, true, accepted, done, sent, ds)
    requires 0 <= tail < |ring| && n < ring[tail].size && done < |accepted| && sent + n < |accepted[done].bytes|
    ensures 0 < |writeBuf[n..]| && n <= |writeBuf| && accepted[done].bytes[sent..sent + n] == writeBuf[..n]
    ensures Consistent(ring[tail := Message(ring[tail].size - n, ring[tail].kind)], head, tail, full, writeBuf[n..], true,
                       accepted, done, sent + n, ds + [Datagram(done, sent, sent + n)])
  {
    hide Used, Covers, Slot;
    var q := accepted[done..];
    BufferedDrop(q, sent, n);
    BufferedEmpty(q, sent + n);
    CoversNext(ds, accepted, done, sent, n);
    RingShrink(ring, head, tail, full, q, sent, n);
    hide Buffered;
  }

  // The rest of a packet is written.
  lemma LastConsistent(ring: seq<Message>, head: int, tail: int, full: bool, writeBuf: seq<Byte>,
                       accepted: seq<Packet>, done: nat, sent: nat, ds: seq<Datagram>, n: nat)
    requires Consistent(ring, head, tail, full, writeBuf, true, accepted, done, sent, ds)
    requires done < |accepted| && n == |accepted[done].bytes| - sent
    ensures 0 <= tail < |ring| == RING_SIZE && n <= |writeBuf| && accepted[done].bytes[sent..sent + n] == writeBuf[..n]
    ensures Consistent(ring[tail := Message(0, 0)], head, (tail + 1) % RING_SIZE, false, writeBuf[n..], writeBuf[n..] != [],
                       accepted, done + 1, 0, ds + [Datagram(done, sent, sent + n)])
  {
    hide RingHolds, Covers, Buffered, Slot, Used, Bytes;
    InBounds(ring, head, tail, full, writeBuf, true, accepted, done, sent, ds);
    var q := accepted[done..];
    assert accepted[done + 1..] == q[1..];
    BufferedDrop(q, sent, n);
    RingTake(ring, head, tail, full, q, sent);
    SentBound(ring[tail := Message(0, 0)], head, (tail + 1) % RING_SIZE, false, q[1..], 0);
    BufferedEmpty(q[1..], 0);
    CoversNext(ds, accepted, done, sent, n);
  }

  lemma WriteConsistent(ring: seq<Message>, head: int, tail: int, full: bool, writeBuf: seq<Byte>,
                        accepted: seq<Packet>, done: nat, sent: nat, ds: seq<Datagram>, n: nat)
    requires Consistent(ring, head, tail, full, writeBuf, true, accepted, done, sent, ds)
    requires 0 <= tail < |ring| && n <= ring[tail].size
    ensures done < |accepted| && sent + n <= |accepted[done].bytes| && n <= |writeBuf|
    ensures accepted[done].bytes[sent..sent + n] == writeBuf[..n] && ring[tail].kind == accepted[done].kind
    ensures var last, d := n == ring[tail].size, Datagram(done, sent, sent + n);
      && After(d, accepted) == (if last then (done + 1, 0) else (done, sent + n))
      && Consistent(ring[tail := if last then Message(0, 0) else Message(ring[tail].size - n, ring[tail].kind)], head,
                    if last then (tail + 1) % RING_SIZE else tail, full && !last, writeBuf[n..], writeBuf[n..] != [],
                    accepted, After(d, accepted).0, After(d, accepted).1, ds + [d])
  {
    hide Consistent;
    InBounds(ring, head, tail, full, writeBuf, true, accepted, done, sent, ds);
    if n == ring[tail].size {
      LastConsistent(ring, head, tail, full, writeBuf, accepted, done, sent, ds, n);
    } else {
      PartConsistent(ring, head, tail, full, writeBuf, accepted, done, sent, ds, n);
    }
  }

  // What the ring says is left of the packets from slot k of the queue on.
  ghost function SizesFrom(ring: seq<Message>, tail: int, k: nat, n: nat): int
    requires |ring| == RING_SIZE && k <= n <= RING_SIZE && 0 <= tail < RING_SIZE
    decreases n - k
  {
    if k == n then 0 else ring[Slot(tail, k)].size + SizesFrom(ring, tail, k + 1, n)
  }

  lemma {:induction false} SizesAre(ring: seq<Message>, tail: int, k: nat, queue: seq<Packet>)
    requires |ring| == RING_SIZE && 0 < k <= |queue| <= RING_SIZE && 0 <= tail < RING_SIZE
    requires forall j | k <= j < |queue| :: ring[Slot(tail, j)].size == |queue[j].bytes|
    ensures SizesFrom(ring, tail, k, |queue|) == |Bytes(queue[k..])|
    decreases |queue| - k
  {
    if k < |queue| {
      SizesAre(ring, tail, k + 1, queue);
      assert queue[k..][1..] == queue[k + 1..];
    }
  }

  // The sizes in the ring add up to the length of the buffer.
  lemma SizesAddUp(ring: seq<Message>, head: int, tail: int, full: bool, writeBuf: seq<Byte>, eventPending: bool,
                   accepted: seq<Packet>, done: nat, sent: nat, ds: seq<Datagram>)
    requires Consistent(ring, head, tail, full, writeBuf, eventPending, accepted, done, sent, ds)
    ensures |ring| == RING_SIZE && 0 <= tail < RING_SIZE && 0 <= Used(head, tail, full) <= RING_SIZE
    ensures SizesFrom(ring, tail, 0, Used(head, tail, full)) == |writeBuf|
  {
    hide Covers;
    var q := accepted[done..];
    if q != [] {
      SizesAre(ring, tail, 1, q);
    }
  }

  // No packets, sent so far in any way, are behind this state.
  ghost predicate NoHistory(ring: seq<Message>, head: int, tail: int, full: bool, writeBuf: seq<Byte>) {
    forall eventPending, accepted, done, sent, ds ::
      !Consistent(ring, head, tail, full, writeBuf, eventPending, accepted, done, sent, ds)
  }

  lemma {:induction false} SizesElsewhere(ring: seq<Message>, tail: int, m: Message, k: nat, n: nat)
    requires |ring| == RING_SIZE && 0 < k <= n <= RING_SIZE && 0 <= tail < RING_SIZE
    ensures SizesFrom(ring[tail := m], tail, k, n) == SizesFrom(ring, tail, k, n)
    decreases n - k
  {
    if k < n { SizesElsewhere(ring, tail, m, k + 1, n); }
  }

  // After a write that the socket was not ready for, the ring claims one byte more than the buffer has, and no
  // history fits.
  lemma StuckInconsistent(ring: seq<Message>, head: int, tail: int, full: bool, writeBuf: seq<Byte>,
                          accepted: seq<Packet>, done: nat, sent: nat, ds: seq<Datagram>)
    requires Consistent(ring, head, tail, full, writeBuf, true, accepted, done, sent, ds)
    ensures |ring| == RING_SIZE && 0 <= tail < RING_SIZE && 0 <= Used(head, tail, full) <= RING_SIZE
      && writeBuf != [] && ring[tail].size > 0
    ensures var stuck := ring[tail := Message(ring[tail].size + 1, ring[tail].kind)];
      && SizesFrom(stuck, tail, 0, Used(head, tail, full)) == |writeBuf| + 1
      && NoHistory(stuck, head, tail, full, writeBuf)
  {
    hide Consistent;
    SizesAddUp(ring, head, tail, full, writeBuf, true, accepted, done, sent, ds);
    StuckHead(ring, head, tail, full, writeBuf, accepted, done, sent, ds);
    InBounds(ring, head, tail, full, writeBuf, true, accepted, done, sent, ds);
    var n, m := Used(head, tail, full), Message(ring[tail].size + 1, ring[tail].kind);
    var stuck := ring[tail := m];
    hide Used;
    SizesElsewhere(ring, tail, m, 1, n);
    assert Slot(tail, 0) == tail;
    forall e, a, d, s, gs ensures !Consistent(stuck, head, tail, full, writeBuf, e, a, d, s, gs) {
      if Consistent(stuck, head, tail, full, writeBuf, e, a, d, s, gs) {
        SizesAddUp(stuck, head, tail, full, writeBuf, e, a, d, s, gs);
      }
    }
  }

  lemma StuckHead(ring: seq<Message>, head: int, tail: int, full: bool, writeBuf: seq<Byte>,
                  accepted: seq<Packet>, done: nat, sent: nat, ds: seq<Datagram>)
    requires Consistent(ring, head, tail, full, writeBuf, true, accepted, done, sent, ds)
    ensures writeBuf != [] && Used(head, tail, full) >= 1
  {
    BufferedEmpty(accepted[done..], sent);
    hide Buffered, Covers;
  }

  // Every byte of the accepted packets is on the wire or in the buffer, in order.
  lemma Conservation(ring: seq<Message>, head: int, tail: int, full: bool, writeBuf: seq<Byte>, eventPending: bool,
                     accepted: seq<Packet>, done: nat, sent: nat, ds: seq<Datagram>)
    requires Consistent(ring, head, tail, full, writeBuf, eventPending, accepted, done, sent, ds)
    ensures forall d <- ds :: d.packet < |accepted| && d.from <= d.to <= |accepted[d.packet].bytes|
    ensures OnTheWire(ds, accepted) + writeBuf == Bytes(accepted)
  {
    hide RingHolds, Covers, OnTheWire, Bytes, Buffered;
    CoversBounds(ds, accepted, done, sent);
    WrittenInOrder(ds, accepted, done, sent);
    var q := accepted[done..];
    SentBound(ring, head, tail, full, q, sent);
    assert accepted == accepted[..done] + q;
    BytesAppend(accepted[..done], q);
    BufferedSplit(q, sent);
    if q != [] {
      var front, gone := Bytes(accepted[..done]), q[0].bytes[..sent];
      assert front + gone + writeBuf == front + (gone + writeBuf);
    }
  }

  lemma BufferedSplit(queue: seq<Packet>, sent: nat)
    requires if queue == [] then sent == 0 else sent < |queue[0].bytes|
    ensures Bytes(queue) == (if queue == [] then [] else queue[0].bytes[..sent]) + Buffered(queue, sent)
  {
    if queue != [] {
      assert Bytes(queue)[..sent] == queue[0].bytes[..sent];
    }
  }

  lemma NoHistoryMeans(ring: seq<Message>, head: int, tail: int, full: bool, writeBuf: seq<Byte>,
                       accepted: seq<Packet>, done: nat, sent: nat, ds: seq<Datagram>)
    requires NoHistory(ring, head, tail, full, writeBuf)
    ensures !Consistent(ring, head, tail, full, writeBuf, true, accepted, done, sent, ds)
  {}

  class Gateway {
    const ring: array<Message>
    var head: int
    var tail: int
    var full: bool
    var writeBuf: seq<Byte>
    var eventPending: bool
    var pendingRefreshReq: bool
    var lastReqAt: nat
    var nextReqAt: nat
    // every packet that was not dropped, how many of them are done, and what is gone of the next one
    ghost var accepted: seq<Packet>
    ghost var done: nat
    ghost var sent: nat
    ghost var datagrams: seq<Datagram>

    ghost predicate Valid()
      reads this, ring
    {
      Consistent(ring[..], head, tail, full, writeBuf, eventPending, accepted, done, sent, datagrams)
    }

    // lgtd_lifx_gateway_open()
    constructor (receivedAt: nat)
      ensures Valid() && accepted == [] && datagrams == [] && fresh(ring)
      ensures lastReqAt == receivedAt && nextReqAt == receivedAt && !pendingRefreshReq && !eventPending
    {
      ring := new Message[RING_SIZE](_ => Message(0, 0));
      head, tail, full := 0, 0, false;
      writeBuf, eventPending, pendingRefreshReq := [], false, false;
      lastReqAt, nextReqAt := receivedAt, receivedAt;
      accepted, done, sent, datagrams := [], 0, 0, [];
    }

    // lgtd_lifx_gateway_enqueue_packet(): the packet is dropped only when sixteen are waiting.
    method Enqueue(hdr: seq<Byte>, payload: Option<seq<Byte>>, size: nat, kind: int)
      requires Valid() && |hdr| == HEADER_SIZE
      requires size == if payload.Some? then |payload.value| else 0
      modifies this, ring
      ensures Valid() && done == old(done) && sent == old(sent) && datagrams == old(datagrams)
      ensures pendingRefreshReq == old(pendingRefreshReq) && lastReqAt == old(lastReqAt) && nextReqAt == old(nextReqAt)
      ensures accepted == if |old(accepted)| - done == RING_SIZE then old(accepted)
                          else old(accepted) + [Packet(hdr + if payload.Some? then payload.value else [], kind)]
    {
      hide Consistent;
      InBounds(ring[..], head, tail, full, writeBuf, eventPending, accepted, done, sent, datagrams);
      if full {
        return;
      }
      ghost var p := Packet(hdr + if payload.Some? then payload.value else [], kind);
      EnqueueConsistent(ring[..], head, tail, writeBuf, eventPending, accepted, done, sent, datagrams, p);
      ghost var before, buf := ring[..], writeBuf;
      writeBuf := writeBuf + hdr;
      if payload.Some? {
        writeBuf := writeBuf + payload.value;
      }
      assert writeBuf == buf + p.bytes;
      ring[head] := Message(HEADER_SIZE + size, kind);
      assert ring[..] == before[head := Message(|p.bytes|, kind)];
      head := (head + 1) % RING_SIZE;
      if head == tail {
        full := true;
      }
      eventPending := true;
      accepted := accepted + [p];
    }

    // nbytes less to send of the packet at the tail, which is done when nothing is left.
    method Advance(nbytes: int)
      requires 0 <= tail < ring.Length
      modifies ring, `tail, `full, `pendingRefreshReq
      ensures var size, kind := old(ring[tail].size) - nbytes, old(ring[tail].kind);
        && ring[..] == old(ring[..])[old(tail) := if size == 0 then Message(0, 0) else Message(size, kind)]
        && tail == (if size == 0 then (old(tail) + 1) % RING_SIZE else old(tail)) && full == (old(full) && size != 0)
        && pendingRefreshReq == (old(pendingRefreshReq) && !(size == 0 && kind == GET_TAG_LABELS))
    {
      ring[tail] := Message(ring[tail].size - nbytes, ring[tail].kind);
      if ring[tail].size == 0 {
        if ring[tail].kind == GET_TAG_LABELS {
          pendingRefreshReq := false;
        }
        ring[tail] := Message(0, 0);
        tail := (tail + 1) % RING_SIZE;
        full := false;
      }
    }

    // evbuffer_write_atmost(): n bytes leave the buffer. The ring is to follow.
    method Take(n: nat)
      requires Valid() && eventPending && 0 <= tail < ring.Length && n <= ring[tail].size
      modifies `writeBuf, `datagrams, `done, `sent
      ensures var d := Datagram(old(done), old(sent), old(sent) + n);
        && datagrams == old(datagrams) + [d] && d.packet < |accepted| && (done, sent) == After(d, accepted)
        && d.to <= |accepted[d.packet].bytes| && old(writeBuf) == accepted[d.packet].bytes[d.from..d.to] + writeBuf
        && ring[tail].kind == accepted[d.packet].kind && (done > old(done) <==> n == ring[tail].size)
      ensures var left := ring[tail].size - n;
        Consistent(ring[..][tail := if left == 0 then Message(0, 0) else Message(left, ring[tail].kind)], head,
                   if left == 0 then (tail + 1) % RING_SIZE else tail, full && left != 0, writeBuf, writeBuf != [],
                   accepted, done, sent, datagrams)
    {
      hide Consistent, After;
      WriteConsistent(ring[..], head, tail, full, writeBuf, accepted, done, sent, datagrams, n);
      writeBuf := writeBuf[n..];
      ghost var d := Datagram(done, sent, sent + n);
      datagrams, done, sent := datagrams + [d], After(d, accepted).0, After(d, accepted).1;
    }

    // The write half of lgtd_lifx_gateway_event_callback(): nbytes is what the socket took, -1 when it was not ready.
    method Write(nbytes: int, now: nat)
      requires Valid() && eventPending && 0 <= tail < ring.Length && -1 <= nbytes <= ring[tail].size
      modifies this, ring
      ensures Valid() <==> nbytes != -1
      ensures nbytes == -1 ==> NoHistory(ring[..], head, tail, full, writeBuf)
      ensures nbytes == -1 ==>
        && ring[..] == old(ring[..][tail := Message(ring[tail].size + 1, ring[tail].kind)])
        && (head, tail, full, writeBuf, eventPending) == old((head, tail, full, writeBuf, eventPending))
        && (pendingRefreshReq, datagrams, done, sent) == old((pendingRefreshReq, datagrams, done, sent))
      ensures accepted == old(accepted) && lastReqAt == old(nextReqAt) && nextReqAt == now
      ensures nbytes != -1 ==>
        var d := Datagram(old(done), old(sent), old(sent) + nbytes);
        && datagrams == old(datagrams) + [d] && d.packet < |accepted| && (done, sent) == After(d, accepted)
        && d.to <= |accepted[d.packet].bytes| && old(writeBuf) == accepted[d.packet].bytes[d.from..d.to] + writeBuf
        && pendingRefreshReq == (old(pendingRefreshReq) && !(done > old(done) && accepted[d.packet].kind == GET_TAG_LABELS))
    {
      hide Consistent, After, NoHistory, SizesFrom, Used;
      ghost var before, t := ring[..], tail;
      if nbytes == -1 {
        StuckInconsistent(before, head, tail, full, writeBuf, accepted, done, sent, datagrams);
        NoHistoryMeans(before[tail := Message(before[tail].size + 1, before[tail].kind)], head, tail, full, writeBuf,
                       accepted, done, sent, datagrams);
      } else {
        Take(nbytes);
      }
      lastReqAt := nextReqAt;
      nextReqAt := now;
      Advance(nbytes);
      ghost var left := before[t].size - nbytes;
      assert ring[..] == before[t := if left == 0 then Message(0, 0) else Message(left, before[t].kind)];
      if writeBuf == [] {
        eventPending := false;
      }
    }
  }
}
