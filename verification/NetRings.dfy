/** The network device shared by the host and the X280: two rings of packet slots in shared memory, a
    doorbell bit, an interrupt handler, and a NAPI poll. Every shared read or write is a step of its own,
    down to single bytes, and the four actors interleave freely. */
module NetRings {
  import opened BitFields
  import opened RingBuffer

  const NUM_PACKETS: nat := 650
  const MAX_PACKET_SIZE: nat := 1514

  type Packet = seq<u8>

  type Buffer = b: seq<u8> | |b| == MAX_PACKET_SIZE witness seq(MAX_PACKET_SIZE, _ => 0)

  /** struct packet. */
  datatype Slot = Slot(len: u32, data: Buffer)

  /** One direction: its ring, and the history of it: all packets published, and how many slots the
      consumer has given back. */
  datatype Lane = Lane(ring: Ring<Slot>, sent: seq<Packet>, taken: nat)

  // ----- The producer's program, the same on both sides -----

  /** Rest; about to compare next head and tail; to write len; to write byte i; to store head. */
  datatype Producer =
    | Rest
    | Check(pkt: Packet)
    | Len(pkt: Packet, next: nat)
    | Data(pkt: Packet, next: nat, i: nat)
    | Head(pkt: Packet, next: nat)

  function Front(l: Lane): Slot
    requires IsRing(l.ring)
  {
    l.ring.slots[l.ring.tail]
  }

  function WriteSlot(l: Lane, v: Slot): Lane
    requires IsRing(l.ring)
  {
    l.(ring := l.ring.(slots := l.ring.slots[l.ring.head := v]))
  }

  /** One step of the producer; at rest, nothing. A full ring is found in Check and ends the attempt. */
  function ProducerStep(l: Lane, p: Producer): (Lane, Producer)
    requires IsRing(l.ring)
  {
    match p
    case Rest => (l, Rest)
    case Check(pkt) =>
      var next := Next(l.ring.head, |l.ring.slots|);
      if next == l.ring.tail then (l, Rest) else (l, Len(pkt, next))
    case Len(pkt, next) =>
      (WriteSlot(l, l.ring.slots[l.ring.head].(len := |pkt| % TWO32)), Data(pkt, next, 0))
    case Data(pkt, next, i) =>
      if i >= |pkt| || i >= MAX_PACKET_SIZE then (l, Head(pkt, next))
      else
        var slot := l.ring.slots[l.ring.head];
        (WriteSlot(l, slot.(data := slot.data[i := pkt[i]])), Data(pkt, next, i + 1))
    case Head(pkt, next) =>
      if next < |l.ring.slots| then (Lane(l.ring.(head := next), l.sent + [pkt], l.taken), Rest) else (l, Rest)
  }

  function Advance(l: Lane): Lane
    requires IsRing(l.ring)
  {
    l.(ring := l.ring.(tail := Next(l.ring.tail, |l.ring.slots|)), taken := l.taken + 1)
  }

  // ----- The four actors -----

  /** The host's main loop. */
  datatype Host =
    | Select                          // at the top of the loop
    | Produce(p: Producer)            // filling a slot of the rx ring
    | Doorbell                        // rx head stored, doorbell not yet written
    | Drain                           // while (tail != head) on the tx ring
    | TestPositive | TestBounded      // the two reads of pkt->len in the condition
    | WriteLen                        // the read of pkt->len for write()
    | Copy(n: u32, buf: Packet)       // write() taking the bytes
    | StoreTail

  /** x280_net_xmit. */
  datatype Xmit =
    | Idle
    | Enqueue(p: Producer)
    | Count(skb: Packet)              // head stored, statistics not yet updated

  datatype Job = Job(budget: nat, work: nat)

  /** x280_net_poll. Each state from TestZero to AddLen is one read of pkt->len, except Copying. */
  datatype Poll =
    | Asleep
    | Loop(j: Job)                    // the while condition
    | TestZero(j: Job) | TestMax(j: Job)
    | AllocSkb(j: Job)
    | PutSkb(j: Job, size: u32)
    | CopyLen(j: Job, size: u32, put: u32)
    | Copying(j: Job, size: u32, put: u32, n: u32, buf: Packet)
    | CountPacket(j: Job)             // delivered; rx_packets++ to do
    | AddLen(j: Job)                  // rx_bytes += pkt->len to do
    | StoreRxTail(j: Job)
    | Complete(j: Job)

  /** x280_irq_handler: read status, write it back without the bit, wake the queue, schedule. */
  datatype Irq = Masked | ReadStatus | ClearBit | WakeQueue | Schedule

  /** The X280's receiving side: packets passed up the stack, rx_packets and rx_bytes. */
  datatype RxPart = RxPart(lane: Lane, poll: Poll, got: seq<Packet>, packets: nat, bytes: nat)

  /** Packets offered to xmit, dropped as oversize, returned busy; tx_packets and tx_bytes. */
  datatype TxStats = TxStats(offered: nat, dropped: nat, busy: nat, packets: nat, bytes: nat)

  /** The X280's sending side, and the packets the host tried to write to TAP. */
  datatype TxPart = TxPart(lane: Lane, xmit: Xmit, got: seq<Packet>, stats: TxStats)

  /** The interface: NAPI is enabled by open; stop disables it, and waits for a poll under way. */
  datatype Link = Down | Up | Closing

  /** Who is to run next: the handler, bit 27 of the doorbell register, the NAPI state bits SCHED and MISSED, and
      the stopped queue. gaveUp is history: the last poll left its loop by break, and nothing has been
      scheduled since. */
  datatype Wake = Wake(irq: Irq, bell: bool, sched: bool, missed: bool, stopped: bool, gaveUp: bool, link: Link)

  datatype Net = Net(rx: RxPart, tx: TxPart, host: Host, wake: Wake)

  datatype Event =
    | HostGo(tap: seq<Packet>)        // what a read of TAP yields at Select: nothing, or its first element
    | XmitGo(skb: Packet)
    | PollGo(budget: nat, allocOk: bool)
    | IrqGo(shared: bool)             // shared: raised by another device on the line
    | LinkGo                          // the next step of x280_net_open or x280_net_stop

  function HostStep(s: Net, tap: seq<Packet>): Net
    requires IsRing(s.rx.lane.ring) && IsRing(s.tx.lane.ring)
  {
    match s.host
    case Select =>
      s.(host := if tap == [] || |tap[0]| > MAX_PACKET_SIZE then Drain else Produce(Check(tap[0])))
    case Produce(p) =>
      var (lane, p') := ProducerStep(s.rx.lane, p);
      s.(rx := s.rx.(lane := lane),
         host := if !p'.Rest? then Produce(p') else if p.Head? then Doorbell else Drain)
    case Doorbell => s.(wake := s.wake.(bell := true), host := Drain)
    case _ =>
      var (tx, host) := HostConsume(s.tx, s.host);
      s.(tx := tx, host := host)
  }

  /** The inner loop of the host. */
  function HostConsume(t: TxPart, h: Host): (TxPart, Host)
    requires IsRing(t.lane.ring)
  {
    match h
    case Drain => (t, if t.lane.ring.tail != t.lane.ring.head then TestPositive else Select)
    case TestPositive => (t, if Front(t.lane).len > 0 then TestBounded else StoreTail)
    case TestBounded => (t, if Front(t.lane).len <= MAX_PACKET_SIZE then WriteLen else StoreTail)
    case WriteLen => (t, Copy(Front(t.lane).len, []))
    case Copy(n, buf) =>
      if |buf| < n && |buf| < MAX_PACKET_SIZE then (t, Copy(n, buf + [Front(t.lane).data[|buf|]]))
      else (t.(got := t.got + [buf]), StoreTail)
    case StoreTail => (t.(lane := Advance(t.lane)), Drain)
    case _ => (t, h)
  }

  /** The flag asks for the queue to be stopped. */
  function XmitStep(t: TxPart, skb: Packet): (TxPart, bool)
    requires IsRing(t.lane.ring)
  {
    var st := t.stats;
    match t.xmit
    case Idle =>
      if |skb| > MAX_PACKET_SIZE then
        (t.(stats := st.(offered := st.offered + 1, dropped := st.dropped + 1)), false)
      else (t.(stats := st.(offered := st.offered + 1), xmit := Enqueue(Check(skb))), false)
    case Enqueue(p) =>
      var (lane, p') := ProducerStep(t.lane, p);
      if !p'.Rest? then (t.(lane := lane, xmit := Enqueue(p')), false)
      else if p.Head? then (t.(lane := lane, xmit := Count(p.pkt)), false)
      else (t.(xmit := Idle, stats := st.(busy := st.busy + 1)), true)
    case Count(pkt) =>
      (t.(xmit := Idle, stats := st.(packets := st.packets + 1, bytes := st.bytes + |pkt|)), false)
  }

  /** Leaving the loop: complete if the budget was not used up, else stay scheduled and be polled again; a poll that
      is being waited for is completed in any case. */
  function AfterLoop(j: Job, w: Wake): Poll { if j.work < j.budget || w.link.Closing? then Complete(j) else Asleep }

  function PollStep(r: RxPart, w: Wake, budget: nat, allocOk: bool): (RxPart, Wake)
    requires IsRing(r.lane.ring)
  {
    match r.poll
    case Asleep => (if w.sched then r.(poll := Loop(Job(budget, 0))) else r, w)
    case Loop(j) =>
      if j.work < j.budget && r.lane.ring.tail != r.lane.ring.head then (r.(poll := TestZero(j)), w)
      else (r.(poll := AfterLoop(j, w)), w.(gaveUp := false))
    case Complete(j) => (r.(poll := Asleep), w.(sched := w.missed, missed := false))
    case _ =>
      if Breaks(r, allocOk) then (r.(poll := AfterLoop(r.poll.j, w)), w.(gaveUp := true))
      else (Receive(r), w)
  }

  /** The three breaks of the loop. */
  predicate Breaks(r: RxPart, allocOk: bool)
    requires IsRing(r.lane.ring)
  {
    || (r.poll.TestZero? && Front(r.lane).len == 0)
    || (r.poll.TestMax? && Front(r.lane).len > MAX_PACKET_SIZE)
    || (r.poll.AllocSkb? && !allocOk)
  }

  /** One step of the loop body. */
  function Receive(r: RxPart): RxPart
    requires IsRing(r.lane.ring)
  {
    var slot := Front(r.lane);
    match r.poll
    case TestZero(j) => r.(poll := TestMax(j))
    case TestMax(j) => r.(poll := AllocSkb(j))
    case AllocSkb(j) => r.(poll := PutSkb(j, slot.len))
    case PutSkb(j, size) => r.(poll := CopyLen(j, size, slot.len))
    case CopyLen(j, size, put) => r.(poll := Copying(j, size, put, slot.len, []))
    case Copying(j, size, put, n, buf) =>
      if |buf| < n && |buf| < MAX_PACKET_SIZE then r.(poll := Copying(j, size, put, n, buf + [slot.data[|buf|]]))
      else r.(got := r.got + [buf], poll := CountPacket(j))
    case CountPacket(j) => r.(poll := AddLen(j), packets := r.packets + 1)
    case AddLen(j) => r.(poll := StoreRxTail(j), bytes := r.bytes + slot.len)
    case StoreRxTail(j) => r.(lane := Advance(r.lane), poll := Loop(j.(work := j.work + 1)))
    case _ => r
  }

  function IrqStep(w: Wake, shared: bool): Wake
  {
    match w.irq
    case Masked => if w.bell || shared then w.(irq := ReadStatus) else w
    case ReadStatus => w.(irq := ClearBit)
    case ClearBit => w.(irq := WakeQueue, bell := false)
    case WakeQueue => w.(irq := Schedule, stopped := false)
    case Schedule =>
      if w.link.Up? then w.(irq := Masked, sched := true, missed := w.missed || w.sched, gaveUp := false)
      else w.(irq := Masked)
  }

  /** x280_net_open enables NAPI and starts the queue; x280_net_stop stops the queue and disables NAPI, which takes
      effect at once for scheduling and ends when no poll is scheduled. */
  function LinkStep(w: Wake, poll: Poll): Wake
  {
    match w.link
    case Down => w.(link := Up, stopped := false, gaveUp := false)
    case Up => w.(link := Closing, stopped := true)
    case Closing => if poll.Asleep? && !w.sched then w.(link := Down) else w
  }

  ghost predicate EmptyLane(l: Lane)
  {
    |l.ring.slots| == NUM_PACKETS && l.ring.head == 0 && l.ring.tail == 0 && l.sent == [] && l.taken == 0
  }

  /** After probe: both rings empty, whatever the slots and the doorbell hold, and the interface down. */
  ghost predicate Init(s: Net)
  {
    && EmptyLane(s.rx.lane) && EmptyLane(s.tx.lane)
    && s.rx.poll == Asleep && s.rx.got == [] && s.rx.packets == 0 && s.rx.bytes == 0
    && s.tx.xmit == Idle && s.tx.got == [] && s.tx.stats == TxStats(0, 0, 0, 0, 0)
    && s.host == Select && s.wake.irq == Masked && s.wake.link == Down
    && !s.wake.sched && !s.wake.missed && !s.wake.gaveUp
  }

  predicate Rings(s: Net) { IsRing(s.rx.lane.ring) && IsRing(s.tx.lane.ring) }

  function Step(s: Net, e: Event): Net
  {
    if !Rings(s) then s
    else
      match e
      case HostGo(tap) => HostStep(s, tap)
      case XmitGo(skb) =>
        var (tx, stop) := XmitStep(s.tx, skb);
        s.(tx := tx, wake := s.wake.(stopped := s.wake.stopped || stop))
      case PollGo(budget, allocOk) =>
        var (rx, wake) := PollStep(s.rx, s.wake, budget, allocOk);
        s.(rx := rx, wake := wake)
      case IrqGo(shared) => s.(wake := IrqStep(s.wake, shared))
      case LinkGo => s.(wake := LinkStep(s.wake, s.rx.poll))
  }

  function Run(s: Net, es: seq<Event>): Net
    decreases |es|
  {
    if es == [] then s else Step(Run(s, es[..|es| - 1]), es[|es| - 1])
  }
}
