/** What each actor's single steps come to when nothing comes between them. */
module NetSteps {
  import opened RingBuffer
  import opened NetRings
  import opened NetSafety

  // ----- What the calls compute -----

  function Payload(s: Slot): Packet { if s.len <= MAX_PACKET_SIZE then s.data[..s.len] else s.data }

  predicate GoodLength(s: Slot) { 0 < s.len <= MAX_PACKET_SIZE }

  predicate AllGoodLengths(ss: seq<Slot>) { forall k :: 0 <= k < |ss| ==> GoodLength(ss[k]) }

  function Payloads(ss: seq<Slot>): (ps: seq<Packet>)
    ensures |ps| == |ss|
  {
    seq(|ss|, i requires 0 <= i < |ss| => Payload(ss[i]))
  }

  function TotalBytes(ss: seq<Slot>): nat
  {
    if ss == [] then 0 else TotalBytes(ss[..|ss| - 1]) + ss[|ss| - 1].len
  }

  /** The packets that the host writes to TAP. */
  function Written(ss: seq<Slot>): seq<Packet>
  {
    if ss == [] then []
    else
      var n := |ss| - 1;
      Written(ss[..n]) + if GoodLength(ss[n]) then [Payload(ss[n])] else []
  }

  function Rank(p: Producer): nat
  {
    match p
    case Rest => 0
    case Head(_, _) => 1
    case Data(pkt, _, i) => if i < |pkt| then 2 + |pkt| - i else 2
    case Len(pkt, _) => 3 + |pkt|
    case Check(pkt) => 4 + |pkt|
  }

  /** The producer's steps taken one after another until it rests. */
  function ProducerRun(l: Lane, p: Producer): Lane
    requires IsRing(l.ring)
    decreases Rank(p)
  {
    if p.Rest? then l
    else
      var (l', p') := ProducerStep(l, p);
      ProducerRun(l', p')
  }

  /** A slot that holds a packet, with what was there before behind it. */
  function Filled(s: Slot, pkt: Packet): (f: Slot)
    requires |pkt| <= MAX_PACKET_SIZE
    ensures f.len == |pkt| && Payload(f) == pkt
  {
    Slot(|pkt|, pkt + s.data[|pkt|..])
  }

  function PartlyFilled(s: Slot, pkt: Packet, i: nat): Slot
    requires i <= |pkt| <= MAX_PACKET_SIZE
  {
    Slot(|pkt|, pkt[..i] + s.data[i..])
  }

  lemma PartlyNext(s: Slot, pkt: Packet, i: nat)
    requires i < |pkt| <= MAX_PACKET_SIZE
    ensures var p := PartlyFilled(s, pkt, i); p.(data := p.data[i := pkt[i]]) == PartlyFilled(s, pkt, i + 1)
  {
  }

  function Published(r: Ring<Slot>, pkt: Packet): Ring<Slot>
    requires IsRing(r) && |pkt| <= MAX_PACKET_SIZE
  {
    Ring(r.slots[r.head := Filled(r.slots[r.head], pkt)], Next(r.head, |r.slots|), r.tail)
  }

  /** From byte i on, the byte steps complete the slot and the last step publishes it. */
  lemma {:induction false} DataRun(l: Lane, pkt: Packet, i: nat)
    requires IsRing(l.ring) && i <= |pkt| <= MAX_PACKET_SIZE
    requires l.ring.slots[l.ring.head].len == |pkt| && l.ring.slots[l.ring.head].data[..i] == pkt[..i]
    ensures ProducerRun(l, Data(pkt, Next(l.ring.head, |l.ring.slots|), i))
            == Lane(Published(l.ring, pkt), l.sent + [pkt], l.taken)
    decreases |pkt| - i
  {
    var slot, next := l.ring.slots[l.ring.head], Next(l.ring.head, |l.ring.slots|);
    if i == |pkt| {
      assert Filled(slot, pkt).data == slot.data;
      assert ProducerRun(l, Data(pkt, next, i)) == ProducerRun(l, Head(pkt, next));
    } else {
      var slot' := slot.(data := slot.data[i := pkt[i]]);
      var l' := WriteSlot(l, slot');
      assert ProducerRun(l, Data(pkt, next, i)) == ProducerRun(l', Data(pkt, next, i + 1));
      DataRun(l', pkt, i + 1);
      assert Filled(slot', pkt) == Filled(slot, pkt);
      assert Published(l'.ring, pkt).slots == Published(l.ring, pkt).slots;
    }
  }

  /** The producer run to its end publishes the packet, or finds the ring full and leaves it. */
  lemma PutIsProducerRun(l: Lane, pkt: Packet)
    requires IsRing(l.ring) && |pkt| <= MAX_PACKET_SIZE
    ensures ProducerRun(l, Check(pkt))
            == if Used(l.ring) == |l.ring.slots| - 1 then l
               else Lane(Published(l.ring, pkt), l.sent + [pkt], l.taken)
  {
    hide Contents, ProducerRun, Published;
    EmptyOrFull(l.ring);
    RunOne(l, Check(pkt));
    if Next(l.ring.head, |l.ring.slots|) != l.ring.tail {
      LenRun(l, pkt);
    }
  }

  lemma LenRun(l: Lane, pkt: Packet)
    requires IsRing(l.ring) && |pkt| <= MAX_PACKET_SIZE
    ensures ProducerRun(l, Len(pkt, Next(l.ring.head, |l.ring.slots|)))
            == Lane(Published(l.ring, pkt), l.sent + [pkt], l.taken)
  {
    hide ProducerRun, ProducerStep, Published, Filled, WriteSlot, Next;
    LenStep(l, pkt);
    RunOne(l, Len(pkt, Next(l.ring.head, |l.ring.slots|)));
    DataRun(WriteSlot(l, l.ring.slots[l.ring.head].(len := |pkt|)), pkt, 0);
  }

  lemma LenStep(l: Lane, pkt: Packet)
    requires IsRing(l.ring) && |pkt| <= MAX_PACKET_SIZE
    ensures var l', next := WriteSlot(l, l.ring.slots[l.ring.head].(len := |pkt|)), Next(l.ring.head, |l.ring.slots|);
            && ProducerStep(l, Len(pkt, next)) == (l', Data(pkt, next, 0))
            && IsRing(l'.ring) && l'.ring.head == l.ring.head && |l'.ring.slots| == |l.ring.slots|
            && l'.sent == l.sent && l'.taken == l.taken
            && l'.ring.slots[l.ring.head].len == |pkt| && l'.ring.slots[l.ring.head].data[..0] == pkt[..0]
            && Published(l'.ring, pkt) == Published(l.ring, pkt)
  {
    hide Payload;
    var slot := l.ring.slots[l.ring.head];
    assert Filled(slot.(len := |pkt|), pkt) == Filled(slot, pkt);
    assert l.ring.slots[l.ring.head := slot.(len := |pkt|)][l.ring.head := Filled(slot, pkt)]
        == l.ring.slots[l.ring.head := Filled(slot, pkt)];
  }

  lemma RunOne(l: Lane, p: Producer)
    requires IsRing(l.ring)
    ensures ProducerRun(l, Rest) == l
    ensures IsRing(ProducerStep(l, p).0.ring)
    ensures ProducerRun(l, p) == ProducerRun(ProducerStep(l, p).0, ProducerStep(l, p).1)
  {
  }

  lemma PublishedAppends(r: Ring<Slot>, pkt: Packet)
    requires IsRing(r) && |pkt| <= MAX_PACKET_SIZE && Used(r) < |r.slots| - 1
    ensures IsRing(Published(r, pkt))
    ensures Contents(Published(r, pkt)) == Contents(r) + [Filled(r.slots[r.head], pkt)]
  {
    var v := Filled(r.slots[r.head], pkt);
    WriteIsHidden(r, v);
    PublishAppends(r.(slots := r.slots[r.head := v]));
  }

  // ----- Slot by slot -----

  lemma NoSlots()
    ensures Payloads([]) == [] && TotalBytes([]) == 0 && Written([]) == [] && AllGoodLengths([])
  {
  }

  lemma TotalNext(ss: seq<Slot>, k: nat)
    requires k < |ss|
    ensures TotalBytes(ss[..k + 1]) == TotalBytes(ss[..k]) + ss[k].len
  {
    assert ss[..k + 1][..k] == ss[..k];
  }

  lemma PayloadsNext(ss: seq<Slot>, k: nat)
    requires k < |ss|
    ensures Payloads(ss[..k + 1]) == Payloads(ss[..k]) + [Payload(ss[k])]
  {
  }

  lemma GoodNext(ss: seq<Slot>, k: nat)
    requires k < |ss| && AllGoodLengths(ss[..k]) && GoodLength(ss[k])
    ensures AllGoodLengths(ss[..k + 1])
  {
  }

  /** A poll has dealt with the first k slots and has the rest before it: it passed up their packets in order, all
      of good length, and counted their bytes. */
  ghost predicate Progress(was: seq<Slot>, rest: seq<Slot>, k: nat, got: seq<Packet>, bytes: nat)
  {
    && k <= |was| && rest == was[k..]
    && got == Payloads(was[..k]) && bytes == TotalBytes(was[..k]) && AllGoodLengths(was[..k])
  }

  /** Why it ends there: the ring is empty, the budget used up, the next length bad, or the allocation fails. */
  predicate Stops(rest: seq<Slot>, k: nat, budget: nat, failAt: nat)
  {
    rest == [] || k == budget || !GoodLength(rest[0]) || k == failAt
  }

  lemma NoProgress(was: seq<Slot>)
    ensures Progress(was, was, 0, [], 0)
  {
    assert was[..0] == [];
    NoSlots();
  }

  lemma ProgressNext(was: seq<Slot>, rest: seq<Slot>, k: nat, got: seq<Packet>, bytes: nat)
    requires Progress(was, rest, k, got, bytes) && rest != [] && GoodLength(rest[0])
    ensures Progress(was, rest[1..], k + 1, got + [Payload(rest[0])], bytes + rest[0].len)
  {
    hide Payloads, TotalBytes, AllGoodLengths;
    TotalNext(was, k);
    PayloadsNext(was, k);
    GoodNext(was, k);
  }

  lemma WrittenNext(ss: seq<Slot>, k: nat)
    requires k < |ss|
    ensures Written(ss[..k + 1]) == Written(ss[..k]) + if GoodLength(ss[k]) then [Payload(ss[k])] else []
  {
    assert ss[..k + 1][..k] == ss[..k];
  }

  /** Packets that a producer filled in come out as they went in, all but the empty ones. */
  lemma {:induction false} WrittenIsSent(ss: seq<Slot>, sent: seq<Packet>)
    requires |ss| == |sent|
    requires forall i :: 0 <= i < |ss| ==>
      |sent[i]| <= MAX_PACKET_SIZE && ss[i].len == |sent[i]| && Payload(ss[i]) == sent[i]
    ensures Written(ss) == NonEmpty(sent)
    ensures TotalBytes(ss) == Bytes(sent)
    ensures Payloads(ss) == sent
  {
    if ss != [] {
      var n := |ss| - 1;
      WrittenIsSent(ss[..n], sent[..n]);
    }
  }

  // ----- Poll -----

  /** Any state in which the interface is up and poll scheduled. */
  const POLLING: Wake := Wake(Masked, false, true, false, false, false, Up)

  /** n steps of one call of poll; the allocation numbered failAt fails. */
  function PollSteps(r: RxPart, failAt: nat, n: nat): (r': RxPart)
    requires IsRing(r.lane.ring)
    ensures IsRing(r'.lane.ring)
  {
    if n == 0 then r
    else
      var q := PollSteps(r, failAt, n - 1);
      PollStep(q, POLLING, 0, !(q.poll.AllocSkb? && q.poll.j.work == failAt)).0
  }

  ghost predicate PollLeads(r: RxPart, failAt: nat, r': RxPart)
    requires IsRing(r.lane.ring)
  {
    exists n: nat :: PollSteps(r, failAt, n) == r'
  }

  lemma {:induction false} PollAdd(r: RxPart, failAt: nat, m: nat, n: nat)
    requires IsRing(r.lane.ring)
    ensures PollSteps(PollSteps(r, failAt, m), failAt, n) == PollSteps(r, failAt, m + n)
  {
    hide PollStep;
    if n != 0 {
      PollAdd(r, failAt, m, n - 1);
    }
  }

  lemma PollThen(a: RxPart, b: RxPart, c: RxPart, failAt: nat)
    requires IsRing(a.lane.ring) && IsRing(b.lane.ring) && PollLeads(a, failAt, b) && PollLeads(b, failAt, c)
    ensures PollLeads(a, failAt, c)
  {
    hide PollSteps;
    var m: nat :| PollSteps(a, failAt, m) == b;
    var n: nat :| PollSteps(b, failAt, n) == c;
    PollAdd(a, failAt, m, n);
    assert PollSteps(a, failAt, m + n) == c;
  }

  lemma PollOne(r: RxPart, failAt: nat)
    requires IsRing(r.lane.ring)
    ensures PollLeads(r, failAt, PollStep(r, POLLING, 0, !(r.poll.AllocSkb? && r.poll.j.work == failAt)).0)
    ensures PollLeads(r, failAt, r)
  {
    assert PollSteps(r, failAt, 0) == r;
    assert PollSteps(r, failAt, 1) == PollStep(r, POLLING, 0, !(r.poll.AllocSkb? && r.poll.j.work == failAt)).0;
  }

  lemma PollCopies(r: RxPart, failAt: nat)
    requires IsRing(r.lane.ring) && r.poll.Copying? && |r.poll.buf| <= r.poll.n <= MAX_PACKET_SIZE
    requires r.poll.buf == Front(r.lane).data[..|r.poll.buf|]
    ensures PollLeads(r, failAt, r.(got := r.got + [Front(r.lane).data[..r.poll.n]], poll := CountPacket(r.poll.j)))
    decreases MAX_PACKET_SIZE - |r.poll.buf|
  {
    hide PollLeads, PollSteps;
    PollOne(r, failAt);
    if |r.poll.buf| < r.poll.n {
      var r' := r.(poll := Copying(r.poll.j, r.poll.size, r.poll.put, r.poll.n,
                                   r.poll.buf + [Front(r.lane).data[|r.poll.buf|]]));
      assert r'.poll.buf == Front(r.lane).data[..|r'.poll.buf|];
      PollCopies(r', failAt);
      PollThen(r, r', r.(got := r.got + [Front(r.lane).data[..r.poll.n]], poll := CountPacket(r.poll.j)), failAt);
    }
  }

  /** The state after the loop's body has dealt with the packet at the front. */
  function Received(r: RxPart): RxPart
    requires IsRing(r.lane.ring) && r.poll.Loop?
  {
    RxPart(Advance(r.lane), Loop(r.poll.j.(work := r.poll.j.work + 1)), r.got + [Payload(Front(r.lane))],
           r.packets + 1, r.bytes + Front(r.lane).len)
  }

  lemma PollBody(r: RxPart, failAt: nat)
    requires IsRing(r.lane.ring) && r.poll.Loop? && r.lane.ring.head != r.lane.ring.tail
    requires r.poll.j.work < r.poll.j.budget && GoodLength(Front(r.lane)) && r.poll.j.work != failAt
    ensures PollLeads(r, failAt, Received(r))
  {
    hide PollLeads, PollSteps, Contents;
    var j, len := r.poll.j, Front(r.lane).len;
    PollTo(r, r.(poll := TestZero(j)), failAt, r);
    PollTo(r, r.(poll := TestMax(j)), failAt, r.(poll := TestZero(j)));
    PollTo(r, r.(poll := AllocSkb(j)), failAt, r.(poll := TestMax(j)));
    PollTo(r, r.(poll := PutSkb(j, len)), failAt, r.(poll := AllocSkb(j)));
    PollTo(r, r.(poll := CopyLen(j, len, len)), failAt, r.(poll := PutSkb(j, len)));
    var c := r.(poll := Copying(j, len, len, len, []));
    PollTo(r, c, failAt, r.(poll := CopyLen(j, len, len)));
    PollCopies(c, failAt);
    var d := c.(got := c.got + [Front(r.lane).data[..len]], poll := CountPacket(j));
    PollThen(r, c, d, failAt);
    var e := d.(poll := AddLen(j), packets := d.packets + 1);
    PollTo(r, e, failAt, d);
    var f := e.(poll := StoreRxTail(j), bytes := e.bytes + len);
    PollTo(r, f, failAt, e);
    PollTo(r, Received(r), failAt, f);
  }

  lemma PollTo(a: RxPart, c: RxPart, failAt: nat, b: RxPart)
    requires IsRing(a.lane.ring) && IsRing(b.lane.ring)
    requires a == b || PollLeads(a, failAt, b)
    requires c == PollStep(b, POLLING, 0, !(b.poll.AllocSkb? && b.poll.j.work == failAt)).0
    ensures PollLeads(a, failAt, c)
  {
    hide PollStep, PollSteps, PollLeads;
    PollOne(b, failAt);
    if a != b {
      PollThen(a, b, c, failAt);
    }
  }

  /** How a call of poll ends, from the top of its loop. */
  lemma PollEnds(r: RxPart, failAt: nat)
    requires IsRing(r.lane.ring) && r.poll.Loop?
    requires r.poll.j.work >= r.poll.j.budget || r.lane.ring.head == r.lane.ring.tail || !GoodLength(Front(r.lane))
             || r.poll.j.work == failAt
    ensures PollLeads(r, failAt, r.(poll := AfterLoop(r.poll.j, POLLING)))
  {
    hide PollLeads, PollSteps, Contents, Receive;
    var j, len := r.poll.j, Front(r.lane).len;
    var end := r.(poll := AfterLoop(j, POLLING));
    if j.work >= j.budget || r.lane.ring.head == r.lane.ring.tail {
      PollTo(r, end, failAt, r);
    } else {
      PollTo(r, r.(poll := TestZero(j)), failAt, r);
      if len == 0 {
        PollTo(r, end, failAt, r.(poll := TestZero(j)));
      } else {
        TestPassed(r.(poll := TestZero(j)));
        PollTo(r, r.(poll := TestMax(j)), failAt, r.(poll := TestZero(j)));
        if len > MAX_PACKET_SIZE {
          PollTo(r, end, failAt, r.(poll := TestMax(j)));
        } else {
          TestPassed(r.(poll := TestMax(j)));
          PollTo(r, r.(poll := AllocSkb(j)), failAt, r.(poll := TestMax(j)));
          PollTo(r, end, failAt, r.(poll := AllocSkb(j)));
        }
      }
    }
  }

  lemma TestPassed(r: RxPart)
    requires IsRing(r.lane.ring) && (r.poll.TestZero? || r.poll.TestMax?)
    ensures Receive(r) == r.(poll := if r.poll.TestZero? then TestMax(r.poll.j) else AllocSkb(r.poll.j))
  {
  }

  /** The ring with k slots given back. */
  function Taken(r: Ring<Slot>, k: nat): (t: Ring<Slot>)
    requires IsRing(r)
    ensures IsRing(t) && t.slots == r.slots && t.head == r.head
  {
    if k == 0 then r else var q := Taken(r, k - 1); q.(tail := Next(q.tail, |q.slots|))
  }

  lemma TakenNone(r: Ring<Slot>)
    requires IsRing(r)
    ensures Taken(r, 0) == r
  {
  }

  lemma TakenOne(r: Ring<Slot>)
    requires IsRing(r)
    ensures Taken(r, 1) == r.(tail := Next(r.tail, |r.slots|))
  {
    assert Taken(r, 0) == r;
  }

  lemma TakenNext(r: Ring<Slot>, k: nat)
    requires IsRing(r)
    ensures Taken(Taken(r, k), 1) == Taken(r, k + 1)
  {
    TakenOne(Taken(r, k));
  }

  lemma {:induction false} TakenContents(r: Ring<Slot>, k: nat)
    requires IsRing(r) && k <= |Contents(r)|
    ensures Contents(Taken(r, k)) == Contents(r)[k..]
    ensures k < |Contents(r)| ==> Taken(r, k).head != Taken(r, k).tail && Contents(r)[k] == r.slots[Taken(r, k).tail]
  {
    hide Contents;
    if k != 0 {
      TakenContents(r, k - 1);
      EmptyOrFull(Taken(r, k - 1));
      AdvanceRemoves(Taken(r, k - 1));
    }
    EmptyOrFull(Taken(r, k));
  }

  /** A call of poll before its loop, and at the top of its loop with k packets received. */
  function PollAt(r: Ring<Slot>, budget: nat, k: nat): RxPart
    requires IsRing(r) && k <= |Contents(r)|
  {
    RxPart(Lane(Taken(r, k), [], k), Loop(Job(budget, k)), Payloads(Contents(r)[..k]), k, TotalBytes(Contents(r)[..k]))
  }

  lemma {:induction false} PollComesTo(r: Ring<Slot>, budget: nat, failAt: nat, k: nat)
    requires IsRing(r) && k <= |Contents(r)| && k <= budget && k <= failAt && AllGoodLengths(Contents(r)[..k])
    ensures PollLeads(PollAt(r, budget, 0), failAt, PollAt(r, budget, k))
  {
    hide PollLeads, Contents, PollStep, PollSteps, Payload, TotalBytes, Payloads;
    if k == 0 {
      PollOne(PollAt(r, budget, 0), failAt);
    } else {
      var ss, q := Contents(r), PollAt(r, budget, k - 1);
      assert ss[..k][k - 1] == ss[k - 1] && ss[..k][..k - 1] == ss[..k - 1];
      PollComesTo(r, budget, failAt, k - 1);
      TakenContents(r, k - 1);
      PayloadsNext(ss, k - 1);
      TotalNext(ss, k - 1);
      PollBody(q, failAt);
      assert Received(q) == PollAt(r, budget, k);
      PollThen(PollAt(r, budget, 0), q, PollAt(r, budget, k), failAt);
    }
  }

  /** What a call of poll computes is what its single steps come to. */
  lemma PollIsItsSteps(r: Ring<Slot>, budget: nat, failAt: nat, k: nat, got: seq<Packet>, bytes: nat)
    requires IsRing(r) && k <= budget && k <= failAt && Progress(Contents(r), Contents(Taken(r, k)), k, got, bytes)
    requires Stops(Contents(Taken(r, k)), k, budget, failAt)
    ensures PollLeads(RxPart(Lane(r, [], 0), Loop(Job(budget, 0)), [], 0, 0), failAt,
                      RxPart(Lane(Taken(r, k), [], k), AfterLoop(Job(budget, k), POLLING), got, k, bytes))
  {
    hide PollLeads, Contents, PollStep, PollSteps, Payload, TotalBytes, Payloads;
    NoSlots();
    assert Contents(r)[..0] == [];
    PollComesTo(r, budget, failAt, k);
    TakenContents(r, k);
    var q := PollAt(r, budget, k);
    EmptyOrFull(q.lane.ring);
    PollEnds(q, failAt);
    PollThen(PollAt(r, budget, 0), q, q.(poll := AfterLoop(q.poll.j, POLLING)), failAt);
  }

  // ----- The host's inner loop -----

  /** n steps of it. */
  function DrainSteps(t: TxPart, h: Host, n: nat): (r: (TxPart, Host))
    requires IsRing(t.lane.ring)
    ensures IsRing(r.0.lane.ring)
  {
    if n == 0 then (t, h)
    else
      var (u, g) := DrainSteps(t, h, n - 1);
      HostConsume(u, g)
  }

  ghost predicate DrainLeads(t: TxPart, h: Host, u: TxPart, g: Host)
    requires IsRing(t.lane.ring)
  {
    exists n: nat :: DrainSteps(t, h, n) == (u, g)
  }

  lemma {:induction false} DrainAdd(t: TxPart, h: Host, m: nat, n: nat)
    requires IsRing(t.lane.ring)
    ensures var (u, g) := DrainSteps(t, h, m); DrainSteps(u, g, n) == DrainSteps(t, h, m + n)
  {
    hide HostConsume;
    if n != 0 {
      DrainAdd(t, h, m, n - 1);
    }
  }

  lemma DrainThen(t: TxPart, h: Host, u: TxPart, g: Host, v: TxPart, k: Host)
    requires IsRing(t.lane.ring) && IsRing(u.lane.ring) && DrainLeads(t, h, u, g) && DrainLeads(u, g, v, k)
    ensures DrainLeads(t, h, v, k)
  {
    hide DrainSteps;
    var m: nat :| DrainSteps(t, h, m) == (u, g);
    var n: nat :| DrainSteps(u, g, n) == (v, k);
    DrainAdd(t, h, m, n);
    assert DrainSteps(t, h, m + n) == (v, k);
  }

  lemma DrainOne(t: TxPart, h: Host)
    requires IsRing(t.lane.ring)
    ensures DrainLeads(t, h, HostConsume(t, h).0, HostConsume(t, h).1)
    ensures DrainLeads(t, h, t, h)
  {
    assert DrainSteps(t, h, 0) == (t, h);
    assert DrainSteps(t, h, 1) == HostConsume(t, h);
  }

  lemma DrainCopies(t: TxPart, h: Host)
    requires IsRing(t.lane.ring) && h.Copy? && |h.buf| <= h.n <= MAX_PACKET_SIZE
    requires h.buf == Front(t.lane).data[..|h.buf|]
    ensures DrainLeads(t, h, t.(got := t.got + [Front(t.lane).data[..h.n]]), StoreTail)
    decreases MAX_PACKET_SIZE - |h.buf|
  {
    hide DrainLeads, DrainSteps;
    DrainOne(t, h);
    if |h.buf| < h.n {
      var h' := Copy(h.n, h.buf + [Front(t.lane).data[|h.buf|]]);
      assert h'.buf == Front(t.lane).data[..|h'.buf|];
      DrainCopies(t, h');
      DrainThen(t, h, t, h', t.(got := t.got + [Front(t.lane).data[..h.n]]), StoreTail);
    }
  }

  /** The state after the inner loop's body has dealt with the packet at the front. */
  function Consumed(t: TxPart): TxPart
    requires IsRing(t.lane.ring)
  {
    t.(lane := Advance(t.lane),
       got := t.got + if GoodLength(Front(t.lane)) then [Payload(Front(t.lane))] else [])
  }

  lemma DrainBody(t: TxPart)
    requires IsRing(t.lane.ring) && t.lane.ring.head != t.lane.ring.tail
    ensures DrainLeads(t, Drain, Consumed(t), Drain)
  {
    hide DrainLeads, DrainSteps, Contents;
    var len := Front(t.lane).len;
    DrainOne(t, Drain);
    DrainOne(t, TestPositive);
    DrainThen(t, Drain, t, TestPositive, t, if len > 0 then TestBounded else StoreTail);
    if len > 0 {
      DrainOne(t, TestBounded);
      DrainThen(t, Drain, t, TestBounded, t, if len <= MAX_PACKET_SIZE then WriteLen else StoreTail);
    }
    var u := t;
    if GoodLength(Front(t.lane)) {
      DrainOne(t, WriteLen);
      DrainThen(t, Drain, t, WriteLen, t, Copy(len, []));
      DrainCopies(t, Copy(len, []));
      u := t.(got := t.got + [Front(t.lane).data[..len]]);
      DrainThen(t, Drain, t, Copy(len, []), u, StoreTail);
    }
    DrainOne(u, StoreTail);
    DrainThen(t, Drain, u, StoreTail, u.(lane := Advance(u.lane)), Drain);
    assert u.(lane := Advance(u.lane)) == Consumed(t);
  }

  const NOTHING: TxStats := TxStats(0, 0, 0, 0, 0)

  /** The host at the top of its inner loop with k packets dealt with. */
  function DrainAt(r: Ring<Slot>, k: nat): TxPart
    requires IsRing(r) && k <= |Contents(r)|
  {
    TxPart(Lane(Taken(r, k), [], k), Idle, Written(Contents(r)[..k]), NOTHING)
  }

  lemma {:induction false} DrainComesTo(r: Ring<Slot>, k: nat)
    requires IsRing(r) && k <= |Contents(r)|
    ensures DrainLeads(DrainAt(r, 0), Drain, DrainAt(r, k), Drain)
  {
    hide DrainLeads, Contents, HostConsume, DrainSteps, Payload, Written;
    if k == 0 {
      DrainOne(DrainAt(r, 0), Drain);
    } else {
      var ss, q := Contents(r), DrainAt(r, k - 1);
      DrainComesTo(r, k - 1);
      TakenContents(r, k - 1);
      WrittenNext(ss, k - 1);
      DrainBody(q);
      assert q.got + (if GoodLength(ss[k - 1]) then [Payload(ss[k - 1])] else []) == Written(ss[..k]);
      assert Consumed(q) == DrainAt(r, k);
      DrainThen(DrainAt(r, 0), Drain, q, Drain, DrainAt(r, k), Drain);
    }
  }

  /** What the inner loop computes is what its single steps come to. */
  lemma DrainIsItsSteps(r: Ring<Slot>)
    requires IsRing(r)
    ensures var n := |Contents(r)|;
      DrainLeads(TxPart(Lane(r, [], 0), Idle, [], NOTHING), Drain,
                 TxPart(Lane(Taken(r, n), [], n), Idle, Written(Contents(r)), NOTHING), Select)
  {
    hide DrainLeads, Contents, DrainSteps, Payload, Written;
    var n := |Contents(r)|;
    NoSlots();
    assert Contents(r)[..0] == [] && Contents(r)[..n] == Contents(r);
    DrainComesTo(r, n);
    TakenContents(r, n);
    EmptyOrFull(Taken(r, n));
    DrainOne(DrainAt(r, n), Drain);
    DrainThen(DrainAt(r, 0), Drain, DrainAt(r, n), Drain, DrainAt(r, n), Select);
  }

  // ----- Xmit -----

  /** n steps of one call of xmit; the flag says that one of them asked for the queue to be stopped. */
  function XmitSteps(t: TxPart, skb: Packet, n: nat): (r: (TxPart, bool))
    requires IsRing(t.lane.ring)
    ensures IsRing(r.0.lane.ring)
  {
    if n == 0 then (t, false)
    else
      var (u, stop) := XmitSteps(t, skb, n - 1);
      var (v, more) := XmitStep(u, skb);
      (v, stop || more)
  }

  /** A call of xmit from its start to its end. */
  ghost predicate XmitLeads(t: TxPart, skb: Packet, t': TxPart, stop: bool)
    requires IsRing(t.lane.ring)
  {
    exists n: nat :: n > 0 && XmitSteps(t, skb, n) == (t', stop)
  }

  /** The producer's part of it. */
  lemma {:induction false} XmitProduces(t: TxPart, skb: Packet, n: nat, u: TxPart, p: Producer)
    requires IsRing(t.lane.ring) && n > 0 && XmitSteps(t, skb, n) == (u, false)
    requires IsRing(u.lane.ring) && u.xmit == Enqueue(p) && !p.Rest? && p.pkt == skb
    ensures var l := ProducerRun(u.lane, p);
      exists stop, t' ::
        && XmitLeads(t, skb, t', stop)
        && t'.lane == l && t'.got == u.got && t'.xmit == Idle
        && (if p.Check? && Next(u.lane.ring.head, |u.lane.ring.slots|) == u.lane.ring.tail
            then stop && t'.stats == u.stats.(busy := u.stats.busy + 1)
            else !stop && t'.stats == u.stats.(packets := u.stats.packets + 1, bytes := u.stats.bytes + |skb|))
    decreases Rank(p)
  {
    hide ProducerStep, XmitLeads;
    RunOne(u.lane, p);
    ProducerGoes(u.lane, p);
    var (v, stop) := XmitStep(u, skb);
    assert XmitSteps(t, skb, n + 1) == (v, stop);
    if v.xmit.Enqueue? {
      XmitProduces(t, skb, n + 1, v, v.xmit.p);
    } else if v.xmit.Count? {
      var w := XmitStep(v, skb).0;
      assert XmitSteps(t, skb, n + 2) == (w, false);
      Leads(t, skb, n + 2, w, false);
    } else {
      Leads(t, skb, n + 1, v, stop);
    }
  }

  lemma Leads(t: TxPart, skb: Packet, n: nat, t': TxPart, stop: bool)
    requires IsRing(t.lane.ring) && n > 0 && XmitSteps(t, skb, n) == (t', stop)
    ensures XmitLeads(t, skb, t', stop)
  {
  }

  lemma ProducerGoes(l: Lane, p: Producer)
    requires IsRing(l.ring) && !p.Rest?
    ensures var (l', p') := ProducerStep(l, p);
      && Rank(p') < Rank(p) && (!p'.Rest? ==> p'.pkt == p.pkt && !p'.Check?)
      && (p'.Rest? <==> p.Head? || (p.Check? && Next(l.ring.head, |l.ring.slots|) == l.ring.tail))
      && (p.Check? ==> l' == l)
  {
  }

  /** A call of xmit with nothing in between: a packet over 1514 bytes is dropped; on a full ring the call is refused
      and the queue stopped; otherwise the packet is published and counted. */
  lemma XmitIsItsSteps(t: TxPart, skb: Packet)
    requires IsRing(t.lane.ring) && t.xmit == Idle
    ensures var st := t.stats.(offered := t.stats.offered + 1);
      if |skb| > 1514 then XmitLeads(t, skb, t.(stats := st.(dropped := st.dropped + 1)), false)
      else if Used(t.lane.ring) == |t.lane.ring.slots| - 1 then
        XmitLeads(t, skb, t.(stats := st.(busy := st.busy + 1)), true)
      else
        XmitLeads(t, skb,
                  t.(lane := Lane(Published(t.lane.ring, skb), t.lane.sent + [skb], t.lane.taken),
                     stats := st.(packets := st.packets + 1, bytes := st.bytes + |skb|)), false)
  {
    hide ProducerRun, XmitLeads, Published, Contents;
    var (u, stop) := XmitStep(t, skb);
    assert XmitSteps(t, skb, 0) == (t, false);
    assert XmitSteps(t, skb, 1) == (u, stop);
    if |skb| > 1514 {
      Leads(t, skb, 1, u, false);
    } else {
      EmptyOrFull(t.lane.ring);
      PutIsProducerRun(t.lane, skb);
      XmitProduces(t, skb, 1, u, Check(skb));
    }
  }

  /** The lengths that poll and the host's loop pass on. */
  lemma LengthTest(s: Slot)
    ensures GoodLength(s) <==> 1 <= s.len <= 1514
    ensures s.len <= 1514 ==> Payload(s) == s.data[..s.len]
  {
  }
}
