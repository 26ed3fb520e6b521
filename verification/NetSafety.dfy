/** Safety of the shared rings in every reachable state: no slot is written while it can be read, packets
    arrive whole and in order, and the counters account for every packet. */
module NetSafety {
  import opened BitFields
  import opened RingBuffer
  import opened NetRings

  /** A slot that carries packet p. */
  ghost predicate Holds(slot: Slot, p: Packet)
  {
    |p| <= MAX_PACKET_SIZE && slot.len == |p| && slot.data[..|p|] == p
  }

  /** The readable slots carry, in order, exactly the packets published and not yet given back. */
  ghost predicate LaneInv(l: Lane)
  {
    && IsRing(l.ring) && |l.ring.slots| == NUM_PACKETS
    && l.taken + |Contents(l.ring)| == |l.sent|
    && forall k :: 0 <= k < |Contents(l.ring)| ==> Holds(Contents(l.ring)[k], l.sent[l.taken + k])
  }

  ghost predicate ProducerInv(l: Lane, p: Producer)
    requires IsRing(l.ring)
  {
    var n, slot := |l.ring.slots|, l.ring.slots[l.ring.head];
    match p
    case Rest => true
    case Check(pkt) => |pkt| <= MAX_PACKET_SIZE
    case Len(pkt, next) => |pkt| <= MAX_PACKET_SIZE && next == Next(l.ring.head, n) && Used(l.ring) < n - 1
    case Data(pkt, next, i) =>
      && |pkt| <= MAX_PACKET_SIZE && next == Next(l.ring.head, n) && Used(l.ring) < n - 1
      && slot.len == |pkt| && i <= |pkt| && slot.data[..i] == pkt[..i]
    case Head(pkt, next) => next == Next(l.ring.head, n) && Used(l.ring) < n - 1 && Holds(slot, pkt)
  }

  // ----- Lanes -----

  lemma WriteKeeps(l: Lane, v: Slot)
    requires LaneInv(l)
    ensures LaneInv(WriteSlot(l, v))
    ensures Used(WriteSlot(l, v).ring) == Used(l.ring)
    ensures l.ring.head != l.ring.tail ==> Front(WriteSlot(l, v)) == Front(l)
  {
    hide Holds;
    WriteIsHidden(l.ring, v);
  }

  lemma PublishKeeps(l: Lane, pkt: Packet)
    requires LaneInv(l) && Used(l.ring) < NUM_PACKETS - 1 && Holds(l.ring.slots[l.ring.head], pkt)
    ensures LaneInv(Lane(l.ring.(head := Next(l.ring.head, NUM_PACKETS)), l.sent + [pkt], l.taken))
  {
    hide Holds;
    PublishAppends(l.ring);
  }

  lemma FrontHolds(l: Lane)
    requires LaneInv(l) && l.ring.head != l.ring.tail
    ensures l.taken < |l.sent| && Holds(Front(l), l.sent[l.taken])
  {
    hide Holds;
    EmptyOrFull(l.ring);
    assert Contents(l.ring)[0] == Front(l);
  }

  lemma AdvanceKeeps(l: Lane, p: Producer)
    requires LaneInv(l) && l.ring.head != l.ring.tail && ProducerInv(l, p)
    ensures LaneInv(Advance(l)) && ProducerInv(Advance(l), p)
  {
    hide Holds;
    AdvanceRemoves(l.ring);
    var c, c' := Contents(l.ring), Contents(Advance(l).ring);
    forall k | 0 <= k < |c'|
      ensures Holds(c'[k], l.sent[l.taken + 1 + k])
    {
      assert c'[k] == c[k + 1];
    }
  }

  /** The producer's steps keep the lane right and never disturb the slot a consumer is reading. */
  lemma ProducerKeeps(l: Lane, p: Producer)
    requires LaneInv(l) && ProducerInv(l, p)
    ensures var (l', p') := ProducerStep(l, p);
      && LaneInv(l') && ProducerInv(l', p')
      && l'.taken == l.taken && l'.ring.tail == l.ring.tail
      && l'.sent == (if p.Head? then l.sent + [p.pkt] else l.sent)
      && (p.Head? ==> p'.Rest?) && (!p'.Rest? ==> p'.pkt == p.pkt)
      && (l.ring.head != l.ring.tail ==> l'.ring.head != l'.ring.tail && Front(l') == Front(l))
  {
    match p
    case Rest =>
    case Check(pkt) => EmptyOrFull(l.ring);
    case Len(pkt, next) =>
      hide Contents, LaneInv;
      WriteKeeps(l, l.ring.slots[l.ring.head].(len := |pkt| % TWO32));
      LaneShape(l);
    case Data(pkt, next, i) =>
      LaneShape(l);
      hide Contents, LaneInv;
      if i < |pkt| {
        var slot := l.ring.slots[l.ring.head];
        WriteKeeps(l, slot.(data := slot.data[i := pkt[i]]));
        assert slot.data[i := pkt[i]][..i + 1] == slot.data[..i] + [pkt[i]];
        assert pkt[..i + 1] == pkt[..i] + [pkt[i]];
      } else {
        assert pkt[..i] == pkt;
      }
    case Head(pkt, next) =>
      LaneShape(l);
      hide Contents, LaneInv;
      PublishKeeps(l, pkt);
  }

  lemma LaneShape(l: Lane)
    requires LaneInv(l)
    ensures IsRing(l.ring) && |l.ring.slots| == NUM_PACKETS
  {
  }

  // ----- Consumers -----

  /** Poll has looked at the slot at rx tail and has not yet given it back. */
  predicate PollHolds(p: Poll) { !(p.Asleep? || p.Loop? || p.Complete?) }

  /** Every read of pkt->len within an iteration gives the same value, and the bytes taken so far are the
      first bytes of the slot. */
  ghost predicate PollInv(l: Lane, p: Poll)
    requires IsRing(l.ring)
  {
    && (PollHolds(p) ==> l.ring.head != l.ring.tail && p.j.work < p.j.budget)
    && match p
       case PutSkb(_, size) => size == Front(l).len
       case CopyLen(_, size, put) => size == put == Front(l).len
       case Copying(_, size, put, n, buf) =>
         size == put == n == Front(l).len && |buf| <= n && |buf| <= MAX_PACKET_SIZE && buf == Front(l).data[..|buf|]
       case _ => true
  }

  predicate HostHolds(h: Host) { !(h.Select? || h.Produce? || h.Doorbell? || h.Drain?) }

  ghost predicate HostInv(l: Lane, h: Host)
    requires IsRing(l.ring)
  {
    && (HostHolds(h) ==> l.ring.head != l.ring.tail)
    && match h
       case TestBounded => Front(l).len > 0
       case WriteLen => Front(l).len > 0
       case Copy(n, buf) =>
         n == Front(l).len > 0 && |buf| <= n && |buf| <= MAX_PACKET_SIZE && buf == Front(l).data[..|buf|]
       case _ => true
  }

  function HostProducer(h: Host): Producer { if h.Produce? then h.p else Rest }

  function XmitProducer(x: Xmit): Producer { if x.Enqueue? then x.p else Rest }

  /** 1 when the packet in the slot being read has already been handed over. */
  function PollAhead(p: Poll): nat { if p.CountPacket? || p.AddLen? || p.StoreRxTail? then 1 else 0 }

  function HostAhead(h: Host): nat { if h.StoreTail? then 1 else 0 }

  function NonEmpty(ps: seq<Packet>): seq<Packet>
  {
    if ps == [] then []
    else NonEmpty(ps[..|ps| - 1]) + if ps[|ps| - 1] == [] then [] else [ps[|ps| - 1]]
  }

  function Bytes(ps: seq<Packet>): nat
  {
    if ps == [] then 0 else Bytes(ps[..|ps| - 1]) + |ps[|ps| - 1]|
  }

  function CountedAhead(p: Poll): nat { if p.AddLen? || p.StoreRxTail? then 1 else 0 }

  function BytesAhead(p: Poll): nat { if p.StoreRxTail? then 1 else 0 }

  /** Packets received on the X280 are a prefix of those the host enqueued; rx_packets and rx_bytes are their
      number and total length, each up to the step that separates it from the index update. */
  ghost predicate RxDelivered(r: RxPart)
  {
    var l := r.lane;
    && l.taken + PollAhead(r.poll) <= |l.sent| && r.got == l.sent[..l.taken + PollAhead(r.poll)]
    && r.packets == l.taken + CountedAhead(r.poll)
    && l.taken + BytesAhead(r.poll) <= |l.sent| && r.bytes == Bytes(l.sent[..l.taken + BytesAhead(r.poll)])
  }

  /** Packets the host tried to write to TAP are a prefix of those xmit enqueued, zero-length ones left out. */
  ghost predicate TxDelivered(l: Lane, h: Host, got: seq<Packet>)
  {
    l.taken + HostAhead(h) <= |l.sent| && got == NonEmpty(l.sent[..l.taken + HostAhead(h)])
  }

  /** Every packet offered was dropped as oversize, returned busy, or enqueued; tx_packets and tx_bytes are
      those enqueued, up to the step between the index and the counter. */
  ghost predicate TxAccounted(sent: seq<Packet>, x: Xmit, st: TxStats)
  {
    var inHand, uncounted := if x.Enqueue? then 1 else 0, if x.Count? then 1 else 0;
    && st.offered == st.dropped + st.busy + |sent| + inHand
    && st.packets + uncounted == |sent|
    && st.bytes == Bytes(sent[..st.packets])
    && (x.Count? ==> x.skb == sent[st.packets])
  }

  /** All that concerns the host-to-X280 ring. */
  ghost predicate RxSide(r: RxPart, p: Producer)
  {
    LaneInv(r.lane) && ProducerInv(r.lane, p) && PollInv(r.lane, r.poll) && RxDelivered(r)
  }

  /** All that concerns the X280-to-host ring. */
  ghost predicate TxSide(t: TxPart, h: Host)
  {
    && LaneInv(t.lane) && ProducerInv(t.lane, XmitProducer(t.xmit)) && HostInv(t.lane, h)
    && TxDelivered(t.lane, h, t.got) && TxAccounted(t.lane.sent, t.xmit, t.stats)
    && (t.xmit.Enqueue? ==> !t.xmit.p.Rest?)
  }

  ghost predicate NetInv(s: Net)
  {
    RxSide(s.rx, HostProducer(s.host)) && TxSide(s.tx, s.host) && (s.host.Produce? ==> !s.host.p.Rest?)
  }

  // ----- Every step keeps the invariant -----

  lemma Prefix(ps: seq<Packet>, n: nat)
    requires n < |ps|
    ensures ps[..n + 1] == ps[..n] + [ps[n]]
    ensures Bytes(ps[..n + 1]) == Bytes(ps[..n]) + |ps[n]|
    ensures NonEmpty(ps[..n + 1]) == NonEmpty(ps[..n]) + if ps[n] == [] then [] else [ps[n]]
  {
    assert ps[..n + 1][..n] == ps[..n];
  }

  lemma HoldsLen(slot: Slot, p: Packet)
    requires Holds(slot, p)
    ensures slot.len == |p| <= MAX_PACKET_SIZE && slot.data[..|p|] == p
  {
  }

  /** The packet in the slot that a consumer is reading. */
  lemma Current(l: Lane) returns (p: Packet)
    requires LaneInv(l) && l.ring.head != l.ring.tail
    ensures l.taken < |l.sent| && p == l.sent[l.taken]
    ensures Front(l).len == |p| <= MAX_PACKET_SIZE && Front(l).data[..|p|] == p
    ensures l.sent[..l.taken + 1] == l.sent[..l.taken] + [p]
    ensures Bytes(l.sent[..l.taken + 1]) == Bytes(l.sent[..l.taken]) + |p|
    ensures NonEmpty(l.sent[..l.taken + 1]) == NonEmpty(l.sent[..l.taken]) + if p == [] then [] else [p]
  {
    hide LaneInv, Holds;
    LaneShape(l);
    FrontHolds(l);
    p := l.sent[l.taken];
    HoldsLen(Front(l), p);
    Prefix(l.sent, l.taken);
  }

  lemma OneMoreByte(data: Buffer, n: nat)
    requires n < MAX_PACKET_SIZE
    ensures data[..n + 1] == data[..n] + [data[n]]
  {
  }

  lemma PollKeeps(r: RxPart, w: Wake, budget: nat, allocOk: bool, p: Producer)
    requires RxSide(r, p)
    ensures IsRing(r.lane.ring) && RxSide(PollStep(r, w, budget, allocOk).0, p)
  {
    hide LaneInv, ProducerInv, Bytes, Receive;
    LaneShape(r.lane);
    if PollHolds(r.poll) {
      ReceiveKeeps(r, p);
    }
  }

  lemma ReceiveKeeps(r: RxPart, p: Producer)
    requires RxSide(r, p) && PollHolds(r.poll)
    ensures IsRing(r.lane.ring) && RxSide(Receive(r), p)
  {
    hide LaneInv, ProducerInv, Bytes, NonEmpty;
    LaneShape(r.lane);
    if r.poll.StoreRxTail? {
      AdvanceKeeps(r.lane, p);
    } else if r.poll.Copying? {
      CopyKeeps(r, p);
    } else {
      var pkt := Current(r.lane);
    }
  }

  lemma CopyKeeps(r: RxPart, p: Producer)
    requires RxSide(r, p) && r.poll.Copying?
    ensures IsRing(r.lane.ring) && RxSide(Receive(r), p)
  {
    hide LaneInv, ProducerInv, Bytes, NonEmpty;
    LaneShape(r.lane);
    var pkt := Current(r.lane);
    if |r.poll.buf| < r.poll.n {
      OneMoreByte(Front(r.lane).data, |r.poll.buf|);
    }
  }

  lemma HostConsumes(t: TxPart, h: Host)
    requires TxSide(t, h)
    ensures IsRing(t.lane.ring) && TxSide(HostConsume(t, h).0, HostConsume(t, h).1)
  {
    hide LaneInv, ProducerInv, Bytes, NonEmpty;
    LaneShape(t.lane);
    if HostHolds(h) {
      var pkt := Current(t.lane);
      if h.StoreTail? {
        AdvanceKeeps(t.lane, XmitProducer(t.xmit));
      } else if h.Copy? && |h.buf| < h.n {
        OneMoreByte(Front(t.lane).data, |h.buf|);
      }
    }
  }

  lemma SentGrows(a: seq<Packet>, b: seq<Packet>)
    requires |a| <= |b| && b[..|a|] == a
    ensures forall n :: 0 <= n <= |a| ==> b[..n] == a[..n]
  {
    forall n | 0 <= n <= |a|
      ensures b[..n] == a[..n]
    {
      assert b[..n] == b[..|a|][..n];
    }
  }

  lemma RxProduces(r: RxPart, p: Producer)
    requires RxSide(r, p)
    ensures IsRing(r.lane.ring)
    ensures var (lane, p') := ProducerStep(r.lane, p); RxSide(r.(lane := lane), p')
  {
    hide LaneInv, ProducerInv, Bytes, NonEmpty, ProducerStep;
    LaneShape(r.lane);
    ProducerKeeps(r.lane, p);
    SentGrows(r.lane.sent, ProducerStep(r.lane, p).0.sent);
  }

  lemma XmitKeeps(t: TxPart, h: Host, skb: Packet)
    requires TxSide(t, h)
    ensures IsRing(t.lane.ring) && TxSide(XmitStep(t, skb).0, h)
  {
    hide TxSide, XmitStep;
    if t.xmit.Enqueue? {
      XmitEnqueues(t, h, skb);
    } else {
      XmitBeginsOrCounts(t, h, skb);
    }
  }

  lemma XmitBeginsOrCounts(t: TxPart, h: Host, skb: Packet)
    requires TxSide(t, h) && !t.xmit.Enqueue?
    ensures IsRing(t.lane.ring) && TxSide(XmitStep(t, skb).0, h)
  {
    hide LaneInv, Bytes, NonEmpty, ProducerStep, HostInv, TxDelivered;
    LaneShape(t.lane);
    if t.xmit.Count? {
      Prefix(t.lane.sent, t.stats.packets);
      OneMoreCounted(t.lane.sent, t.stats.packets);
    }
  }

  lemma OneMoreCounted(sent: seq<Packet>, n: nat)
    requires n < |sent|
    ensures Bytes(sent[..n + 1]) == Bytes(sent[..n]) + |sent[n]|
  {
    assert sent[..n + 1][..n] == sent[..n];
  }

  lemma XmitEnqueues(t: TxPart, h: Host, skb: Packet)
    requires TxSide(t, h) && t.xmit.Enqueue?
    ensures IsRing(t.lane.ring) && TxSide(XmitStep(t, skb).0, h)
  {
    LaneShape(t.lane);
    assert ProducerInv(t.lane, Rest);
    hide LaneInv, Bytes, ProducerStep, ProducerInv, HostInv, TxDelivered, TxAccounted;
    var p := t.xmit.p;
    var (lane, p') := ProducerStep(t.lane, p);
    ProducerKeeps(t.lane, p);
    LaneShape(lane);
    HostUnmoved(t.lane, lane, h, t.got);
    Accounted(t, lane, p');
  }

  /** A producer's step does not disturb the host's reading. */
  lemma HostUnmoved(l: Lane, l': Lane, h: Host, got: seq<Packet>)
    requires IsRing(l.ring) && IsRing(l'.ring) && HostInv(l, h) && TxDelivered(l, h, got)
    requires l'.taken == l.taken && |l.sent| <= |l'.sent| && l'.sent[..|l.sent|] == l.sent
    requires l.ring.head != l.ring.tail ==> l'.ring.head != l'.ring.tail && Front(l') == Front(l)
    ensures HostInv(l', h) && TxDelivered(l', h, got)
  {
    hide NonEmpty;
    SentGrows(l.sent, l'.sent);
  }

  lemma Accounted(t: TxPart, lane: Lane, p': Producer)
    requires t.xmit.Enqueue? && TxAccounted(t.lane.sent, t.xmit, t.stats)
    requires lane.sent == t.lane.sent + (if t.xmit.p.Head? then [t.xmit.p.pkt] else [])
    ensures if t.xmit.p.Head? then TxAccounted(lane.sent, Count(t.xmit.p.pkt), t.stats)
            else && TxAccounted(lane.sent, Enqueue(p'), t.stats)
                 && TxAccounted(t.lane.sent, Idle, t.stats.(busy := t.stats.busy + 1))
  {
    assert lane.sent[..|t.lane.sent|] == t.lane.sent;
    SentGrows(t.lane.sent, lane.sent);
  }

  /** A producer at rest may take a packet to check, and the consumer's part does not mind. */
  lemma HostStarts(r: RxPart, pkt: Packet)
    requires RxSide(r, Rest) && |pkt| <= MAX_PACKET_SIZE
    ensures RxSide(r, Check(pkt))
  {
    hide LaneInv, PollInv, RxDelivered;
    LaneShape(r.lane);
  }

  lemma TxSideOutside(t: TxPart, h: Host, h': Host)
    requires TxSide(t, h) && !HostHolds(h) && !HostHolds(h')
    ensures TxSide(t, h')
  {
    LaneShape(t.lane);
    hide LaneInv, ProducerInv, TxAccounted;
  }

  lemma HostKeeps(s: Net, tap: seq<Packet>)
    requires NetInv(s)
    ensures Rings(s) && NetInv(HostStep(s, tap))
  {
    assert Rings(s) by { LaneShape(s.rx.lane); LaneShape(s.tx.lane); }
    hide RxSide, TxSide, ProducerStep, HostConsume;
    match s.host
    case Select =>
      TxSideOutside(s.tx, s.host, HostStep(s, tap).host);
      if tap != [] && |tap[0]| <= MAX_PACKET_SIZE {
        HostStarts(s.rx, tap[0]);
      }
    case Produce(p) =>
      RxProduces(s.rx, p);
      TxSideOutside(s.tx, s.host, HostStep(s, tap).host);
    case Doorbell => TxSideOutside(s.tx, s.host, Drain);
    case _ =>
      HostConsumes(s.tx, s.host);
      HostConsumeRests(s.tx, s.host);
  }

  lemma HostConsumeRests(t: TxPart, h: Host)
    requires IsRing(t.lane.ring) && !h.Produce?
    ensures !HostConsume(t, h).1.Produce?
  {
  }

  lemma StepKeeps(s: Net, e: Event)
    requires NetInv(s)
    ensures NetInv(Step(s, e))
  {
    hide RxSide, TxSide, HostStep, XmitStep, PollStep, IrqStep;
    if Rings(s) {
      match e
      case HostGo(tap) => HostKeeps(s, tap);
      case XmitGo(skb) => XmitKeeps(s.tx, s.host, skb);
      case PollGo(budget, allocOk) => PollKeeps(s.rx, s.wake, budget, allocOk, HostProducer(s.host));
      case IrqGo(shared) =>
      case LinkGo =>
    }
  }

  lemma InitHolds(s: Net)
    requires Init(s)
    ensures NetInv(s)
  {
  }

  lemma {:induction false} RunKeeps(s: Net, es: seq<Event>)
    requires NetInv(s)
    ensures NetInv(Run(s, es))
    decreases |es|
  {
    hide NetInv, Step;
    if es != [] {
      RunKeeps(s, es[..|es| - 1]);
      StepKeeps(Run(s, es[..|es| - 1]), es[|es| - 1]);
    }
  }

  /** Safety in every reachable state, under every interleaving. */
  lemma NetSafe(s: Net, es: seq<Event>)
    requires Init(s)
    ensures NetInv(Run(s, es))
  {
    InitHolds(s);
    RunKeeps(s, es);
  }

  lemma NetRingsOk(s: Net)
    requires NetInv(s)
    ensures Rings(s)
  {
    LaneShape(s.rx.lane);
    LaneShape(s.tx.lane);
  }

  // ----- The promises, read off the invariant -----

  /** At most 649 packets are in flight; their slots carry them, and no slot but the free one at head changes. */
  ghost predicate SlotsKept(l: Lane, l': Lane)
  {
    && IsRing(l.ring) && |l.ring.slots| == |l'.ring.slots| == NUM_PACKETS
    && l.taken <= |l.sent| && |l.sent| - l.taken <= 649
    && (forall k :: 0 <= k < |l.sent| - l.taken ==>
          && k < Used(l.ring) && Holds(l.ring.slots[SlotIndex(l.ring, k)], l.sent[l.taken + k])
          && l'.ring.slots[SlotIndex(l.ring, k)] == l.ring.slots[SlotIndex(l.ring, k)])
    && forall i :: 0 <= i < NUM_PACKETS && l'.ring.slots[i] != l.ring.slots[i] ==> i == l.ring.head
  }

  lemma OnlyHeadWritten(l: Lane, l': Lane)
    requires LaneInv(l) && |l'.ring.slots| == NUM_PACKETS
    requires forall i :: 0 <= i < NUM_PACKETS && i != l.ring.head ==> l'.ring.slots[i] == l.ring.slots[i]
    ensures SlotsKept(l, l')
  {
    hide Holds;
    forall k | 0 <= k < |l.sent| - l.taken
      ensures k < Used(l.ring) && Holds(l.ring.slots[SlotIndex(l.ring, k)], l.sent[l.taken + k])
    {
      assert Holds(Contents(l.ring)[k], l.sent[l.taken + k]);
    }
  }

  lemma ProducerWritesHead(l: Lane, p: Producer)
    requires IsRing(l.ring)
    ensures var l' := ProducerStep(l, p).0;
      && |l'.ring.slots| == |l.ring.slots|
      && forall i :: 0 <= i < |l.ring.slots| && i != l.ring.head ==> l'.ring.slots[i] == l.ring.slots[i]
  {
  }

  lemma StepWritesHeads(s: Net, e: Event)
    requires NetInv(s)
    ensures SlotsKept(s.rx.lane, Step(s, e).rx.lane) && SlotsKept(s.tx.lane, Step(s, e).tx.lane)
  {
    LaneShape(s.rx.lane);
    LaneShape(s.tx.lane);
    ProducerWritesHead(s.rx.lane, HostProducer(s.host));
    ProducerWritesHead(s.tx.lane, XmitProducer(s.tx.xmit));
    hide SlotsKept, ProducerStep, Breaks, LaneInv, ProducerInv, TxDelivered, RxDelivered, TxAccounted, HostInv, PollInv;
    OnlyHeadWritten(s.rx.lane, Step(s, e).rx.lane);
    OnlyHeadWritten(s.tx.lane, Step(s, e).tx.lane);
  }

  /** In every run and at every next step: no slot of a packet in flight is written, and there are at most 649. */
  lemma NoSlotShared(s: Net, es: seq<Event>, e: Event)
    requires Init(s)
    ensures var t := Run(s, es);
      SlotsKept(t.rx.lane, Step(t, e).rx.lane) && SlotsKept(t.tx.lane, Step(t, e).tx.lane)
  {
    NetSafe(s, es);
    hide Run, Step, NetInv, SlotsKept;
    StepWritesHeads(Run(s, es), e);
  }

  lemma {:induction false} NonEmptyPrefix(ps: seq<Packet>, n: nat)
    requires n <= |ps|
    ensures NonEmpty(ps[..n]) <= NonEmpty(ps)
    decreases |ps|
  {
    if n == |ps| {
      assert ps[..n] == ps;
    } else {
      NonEmptyPrefix(ps[..|ps| - 1], n);
      assert ps[..|ps| - 1][..n] == ps[..n];
    }
  }

  /** Delivery is a prefix of what was sent, in both directions: exactly the packets whose slots were given back,
      and the one in hand once it has been passed on. */
  lemma DeliveredInOrder(s: Net, es: seq<Event>)
    requires Init(s)
    ensures var t := Run(s, es);
      && t.rx.got <= t.rx.lane.sent && |t.rx.got| == t.rx.lane.taken + PollAhead(t.rx.poll)
      && t.tx.got <= NonEmpty(t.tx.lane.sent)
      && t.tx.lane.taken + HostAhead(t.host) <= |t.tx.lane.sent|
      && t.tx.got == NonEmpty(t.tx.lane.sent[..t.tx.lane.taken + HostAhead(t.host)])
  {
    NetSafe(s, es);
    hide Run, LaneInv, NonEmpty, Bytes;
    var t := Run(s, es);
    NonEmptyPrefix(t.tx.lane.sent, t.tx.lane.taken + HostAhead(t.host));
  }

  /** All reads of pkt->len in one iteration of poll agree: the skb is allocated, extended, filled and counted
      with the same length, and the copied bytes are those of the packet at the front. */
  lemma LengthsAgree(s: Net, es: seq<Event>)
    requires Init(s)
    ensures var r := Run(s, es).rx;
      r.poll.Copying? ==>
        && r.lane.taken < |r.lane.sent|
        && r.poll.size == r.poll.put == r.poll.n == |r.lane.sent[r.lane.taken]|
        && r.poll.buf <= r.lane.sent[r.lane.taken]
  {
    NetSafe(s, es);
    hide Run, TxSide;
    if Run(s, es).rx.poll.Copying? {
      CopyAgrees(Run(s, es).rx, HostProducer(Run(s, es).host));
    }
  }

  lemma CopyAgrees(r: RxPart, p: Producer)
    requires RxSide(r, p) && r.poll.Copying?
    ensures && r.lane.taken < |r.lane.sent|
            && r.poll.size == r.poll.put == r.poll.n == |r.lane.sent[r.lane.taken]|
            && r.poll.buf <= r.lane.sent[r.lane.taken]
  {
    hide LaneInv, ProducerInv, NonEmpty, Bytes, RxDelivered;
    LaneShape(r.lane);
    var pkt := Current(r.lane);
    var n := |r.poll.buf|;
    assert pkt[..n] == Front(r.lane).data[..|pkt|][..n];
  }

  /** Conservation: what xmit was offered is dropped, returned busy, counted as sent, or still in its hands; and
      sent packets are either taken by the host or in the ring. The same for the other direction. */
  lemma Conserved(s: Net, es: seq<Event>)
    requires Init(s)
    ensures var t := Run(s, es);
      var st := t.tx.stats;
      && Rings(t)
      && st.offered == st.dropped + st.busy + st.packets + (if t.tx.xmit.Idle? then 0 else 1)
      && st.packets + (if t.tx.xmit.Count? then 1 else 0) == t.tx.lane.taken + Used(t.tx.lane.ring)
      && st.packets <= |t.tx.lane.sent| && st.bytes == Bytes(t.tx.lane.sent[..st.packets])
      && t.rx.packets + Used(t.rx.lane.ring) == |t.rx.lane.sent| + CountedAhead(t.rx.poll)
      && t.rx.lane.taken + BytesAhead(t.rx.poll) <= |t.rx.lane.sent|
      && t.rx.bytes == Bytes(t.rx.lane.sent[..t.rx.lane.taken + BytesAhead(t.rx.poll)])
  {
    NetSafe(s, es);
    hide Run, NonEmpty, Bytes, Holds;
  }
}
