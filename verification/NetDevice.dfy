/** The network code itself, each call taken without interference: the rings as arrays that xmit, poll and
    the host's loop update in place. NetSafety and NetWakeup cover every interleaving of the same steps. */
module NetDevice {
  import opened RingBuffer
  import opened NetRings
  import opened NetSteps

  // ----- The rings -----

  /** One direction of the shared memory. */
  class PacketRing {
    const slots: array<Slot>
    var head: nat
    var tail: nat

    ghost function View(): Ring<Slot>
      reads this, slots
    {
      Ring(slots[..], head, tail)
    }

    ghost predicate Valid()
      reads this, slots
    {
      slots.Length == NUM_PACKETS && IsRing(View())
    }

    /** The readable slots, oldest first. */
    ghost function Readable(): seq<Slot>
      requires Valid()
      reads this, slots
    {
      Contents(View())
    }

    lemma EmptyTest()
      requires Valid()
      ensures head == tail <==> Readable() == []
    {
      EmptyOrFull(View());
    }

    /** The part of probe that empties the ring. */
    constructor (memory: array<Slot>)
      requires memory.Length == NUM_PACKETS
      ensures Valid() && slots == memory && slots[..] == memory[..] && Readable() == []
    {
      slots := memory;
      head, tail := 0, 0;
    }

    /** The length, then the bytes one by one. */
    method FillSlot(pkt: Packet)
      requires Valid() && |pkt| <= MAX_PACKET_SIZE
      modifies slots
      ensures slots[..] == old(slots[..])[head := Filled(old(slots[head]), pkt)]
    {
      ghost var was := slots[..];
      slots[head] := slots[head].(len := |pkt|);
      assert slots[head] == PartlyFilled(was[head], pkt, 0);
      for i := 0 to |pkt|
        invariant slots[..] == was[head := PartlyFilled(was[head], pkt, i)]
      {
        slots[head] := slots[head].(data := slots[head].data[i := pkt[i]]);
        PartlyNext(was[head], pkt, i);
      }
      assert pkt[..|pkt|] == pkt;
    }

    /** What the producer's single steps do when nothing comes between them. */
    method Put(pkt: Packet) returns (ok: bool)
      requires Valid() && |pkt| <= MAX_PACKET_SIZE
      modifies this`head, slots
      ensures Valid()
      ensures ok <==> |old(Readable())| < NUM_PACKETS - 1
      ensures View() == ProducerRun(Lane(old(View()), [], 0), Check(pkt)).ring
      ensures Readable() == old(Readable()) + if ok then [Filled(old(slots[head]), pkt)] else []
    {
      PutIsProducerRun(Lane(View(), [], 0), pkt);
      EmptyOrFull(View());
      hide ProducerRun, Filled, Contents;
      var next := (head + 1) % NUM_PACKETS;
      if next == tail {
        return false;
      }
      PublishedAppends(View(), pkt);
      FillSlot(pkt);
      head := next;
      return true;
    }

    method Oldest() returns (s: Slot)
      requires Valid() && head != tail
      ensures Readable() != [] && s == Readable()[0]
    {
      EmptyOrFull(View());
      s := slots[tail];
    }

    /** Gives the oldest slot back. */
    method Drop()
      requires Valid() && head != tail
      modifies this`tail
      ensures Valid() && old(Readable()) != [] && Readable() == old(Readable())[1..]
      ensures View() == Taken(old(View()), 1)
    {
      hide Contents, Used, SlotIndex;
      AdvanceRemoves(View());
      assert Taken(View(), 1) == View().(tail := Next(tail, NUM_PACKETS)) by {
        TakenOne(View());
      }
      tail := (tail + 1) % NUM_PACKETS;
    }
  }

  // ----- The X280's driver -----

  class X280Net {
    const tx: PacketRing
    const rx: PacketRing
    var txPackets: nat
    var txBytes: nat
    var txDropped: nat
    var rxPackets: nat
    var rxBytes: nat
    var stopped: bool

    ghost predicate Valid()
      reads this, tx, rx, tx.slots, rx.slots
    {
      tx.Valid() && rx.Valid() && tx != rx && tx.slots != rx.slots
    }

    constructor (tx: PacketRing, rx: PacketRing)
      requires tx.Valid() && rx.Valid() && tx != rx && tx.slots != rx.slots
      ensures Valid() && this.tx == tx && this.rx == rx && !stopped
      ensures txPackets == txBytes == txDropped == rxPackets == rxBytes == 0
    {
      this.tx, this.rx, stopped := tx, rx, false;
      txPackets, txBytes, txDropped, rxPackets, rxBytes := 0, 0, 0, 0, 0;
    }

    /** Exactly one of: dropped, refused as busy with the queue stopped, enqueued and counted. */
    method Xmit(skb: Packet) returns (busy: bool)
      requires Valid()
      modifies this`txPackets, this`txBytes, this`txDropped, this`stopped, tx`head, tx.slots
      ensures Valid()
      ensures var fits, room := |skb| <= 1514, |old(tx.Readable())| < 649;
        && busy == (fits && !room) && stopped == (busy || old(stopped))
        && txDropped == old(txDropped) + (if fits then 0 else 1)
        && txPackets == old(txPackets) + (if fits && room then 1 else 0)
        && txBytes == old(txBytes) + (if fits && room then |skb| else 0)
        && (if fits && room then
              && |tx.Readable()| == |old(tx.Readable())| + 1
              && tx.Readable()[..|old(tx.Readable())|] == old(tx.Readable())
              && tx.Readable()[|old(tx.Readable())|].len == |skb|
              && Payload(tx.Readable()[|old(tx.Readable())|]) == skb
            else tx.View() == old(tx.View()))
        && (fits ==> tx.View() == ProducerRun(Lane(old(tx.View()), [], 0), Check(skb)).ring)
    {
      hide ProducerRun, Contents, Payload;
      if |skb| > MAX_PACKET_SIZE {
        txDropped := txDropped + 1;
        return false;
      }
      PutIsProducerRun(Lane(tx.View(), [], 0), skb);
      var ok := tx.Put(skb);
      if !ok {
        stopped := true;
        return true;
      }
      txPackets := txPackets + 1;
      txBytes := txBytes + |skb|;
      return false;
    }

    /** The loop's body: a packet of good length for which there is memory is passed up, counted and its slot given
        back; otherwise nothing changes. */
    method ReceiveOne(allocFails: bool) returns (passed: seq<Packet>)
      requires Valid() && rx.head != rx.tail
      modifies this`rxPackets, this`rxBytes, rx`tail
      ensures Valid()
      ensures var was := old(rx.Readable());
        && was != []
        && if 1 <= was[0].len <= 1514 && !allocFails then
             && passed == [Payload(was[0])] && rx.Readable() == was[1..] && rx.View() == Taken(old(rx.View()), 1)
             && rxPackets == old(rxPackets) + 1 && rxBytes == old(rxBytes) + was[0].len
           else passed == [] && rx.View() == old(rx.View()) && rxPackets == old(rxPackets) && rxBytes == old(rxBytes)
    {
      hide Contents, Payload, Used, Next;
      var pkt := rx.Oldest();
      if pkt.len == 0 || pkt.len > MAX_PACKET_SIZE {
        return [];
      }
      if allocFails {
        return [];
      }
      passed := [Payload(pkt)];
      rxPackets := rxPackets + 1;
      rxBytes := rxBytes + pkt.len;
      rx.Drop();
    }

    /** work is the first index at which the budget is used up, the ring is empty, the length is bad, or the
        allocation fails (the one numbered failAt); the packets before it are passed up in order. */
    method Poll(budget: nat, failAt: nat) returns (work: nat, got: seq<Packet>, completed: bool)
      requires Valid()
      modifies this`rxPackets, this`rxBytes, rx`tail
      ensures Valid()
      ensures work <= budget && work <= failAt && completed == (work < budget)
      ensures rxPackets == old(rxPackets) + work && rxBytes >= old(rxBytes)
      ensures Progress(old(rx.Readable()), rx.Readable(), work, got, rxBytes - old(rxBytes))
      ensures Stops(rx.Readable(), work, budget, failAt)
      ensures PollLeads(RxPart(Lane(old(rx.View()), [], 0), Loop(Job(budget, 0)), [], 0, 0), failAt,
                        RxPart(Lane(rx.View(), [], work), AfterLoop(Job(budget, work), POLLING), got, work,
                               rxBytes - old(rxBytes)))
    {
      hide PacketRing.View, IsRing, Progress, Payload, PollLeads, Taken, Contents;
      work, got := 0, [];
      NoProgress(rx.Readable());
      TakenNone(rx.View());
      while work < budget && rx.tail != rx.head
        invariant Valid() && work <= budget && work <= failAt
        invariant rxPackets == old(rxPackets) + work && rxBytes >= old(rxBytes)
        invariant Progress(old(rx.Readable()), rx.Readable(), work, got, rxBytes - old(rxBytes))
        invariant rx.View() == Taken(old(rx.View()), work)
        decreases budget - work
      {
        ghost var rest, bytes := rx.Readable(), rxBytes - old(rxBytes);
        var passed := ReceiveOne(work == failAt);
        if passed == [] {
          break;
        }
        ProgressNext(old(rx.Readable()), rest, work, got, bytes);
        TakenNext(old(rx.View()), work);
        got := got + passed;
        work := work + 1;
      }
      rx.EmptyTest();
      PollIsItsSteps(old(rx.View()), budget, failAt, work, got, rxBytes - old(rxBytes));
      completed := work < budget;
    }
  }

  // ----- The host -----

  /** The first half of the main loop's body: a packet read from TAP goes into the ring and rings the doorbell, or
      is lost when the ring is full. */
  method FromTap(rx: PacketRing, pkt: Packet) returns (doorbell: bool)
    requires rx.Valid() && |pkt| <= MAX_PACKET_SIZE
    modifies rx`head, rx.slots
    ensures rx.Valid() && doorbell == (|old(rx.Readable())| < 649)
    ensures rx.View() == ProducerRun(Lane(old(rx.View()), [], 0), Check(pkt)).ring
    ensures Payloads(rx.Readable()) == Payloads(old(rx.Readable())) + if doorbell then [pkt] else []
  {
    hide ProducerRun, Contents;
    doorbell := rx.Put(pkt);
  }

  /** The second half: the ring is emptied, every packet of good length written to TAP in order. */
  method ToTap(tx: PacketRing) returns (written: seq<Packet>)
    requires tx.Valid()
    modifies tx`tail
    ensures tx.Valid() && tx.Readable() == [] && written == Written(old(tx.Readable()))
    ensures DrainLeads(TxPart(Lane(old(tx.View()), [], 0), Idle, [], NOTHING), Drain,
                       TxPart(Lane(tx.View(), [], |old(tx.Readable())|), Idle, written, NOTHING), Select)
  {
    hide Contents, Written, Payload, DrainLeads, Taken;
    written := [];
    TakenNone(tx.View());
    ghost var was, k := tx.Readable(), 0;
    assert was[..0] == [] && Written([]) == [] by { NoSlots(); }
    while tx.tail != tx.head
      invariant tx.Valid() && k <= |was| && tx.Readable() == was[k..]
      invariant written == Written(was[..k]) && tx.View() == Taken(old(tx.View()), k)
      decreases |was| - k
    {
      var pkt := tx.Oldest();
      WrittenNext(was, k);
      TakenNext(old(tx.View()), k);
      if pkt.len > 0 && pkt.len <= MAX_PACKET_SIZE {
        written := written + [Payload(pkt)];
      }
      tx.Drop();
      k := k + 1;
    }
    EmptyOrFull(tx.View());
    assert was[..k] == was;
    DrainIsItsSteps(old(tx.View()));
  }
}
