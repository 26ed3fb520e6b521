/** What keeps packets waiting, and for how long: empty packets, failed allocations, and a full ring that nobody will
    ring for again. */
module NetStalls {
  import opened RingBuffer
  import opened NetRings
  import opened NetSafety
  import opened NetWakeup

  // ----- Empty packets -----

  /** An empty packet at the front ends reception for good: whatever happens from then
      on, nothing more is received. */
  predicate Blocked(s: Net)
  {
    && Rings(s) && !RxEmpty(s) && Front(s.rx.lane).len == 0
    && (s.rx.poll.TestZero? || !PollHolds(s.rx.poll))
  }

  lemma BlockedStep(s: Net, e: Event)
    requires NetInv(s) && Blocked(s)
    ensures Blocked(Step(s, e)) && Step(s, e).rx.got == s.rx.got
  {
    match e
    case HostGo(tap) =>
      if s.host.Produce? {
        hide ProducerStep, TxSide;
        ProducerKeeps(s.rx.lane, s.host.p);
        HostRings(s, tap);
      } else {
        hide TxSide;
        HostRings(s, tap);
        hide HostConsume;
      }
    case XmitGo(skb) =>
      XmitKeeps(s.tx, s.host, skb);
      LaneShape(XmitStep(s.tx, skb).0.lane);
      hide XmitStep, TxSide, RxSide;
    case PollGo(budget, allocOk) => hide TxSide, RxSide, Receive;
    case IrqGo(shared) =>
    case LinkGo =>
  }

  lemma HostRings(s: Net, tap: seq<Packet>)
    requires NetInv(s)
    ensures Rings(s) && Rings(HostStep(s, tap))
  {
    hide RxSide, TxSide, HostStep;
    HostKeeps(s, tap);
    NetRingsOk(HostStep(s, tap));
  }

  lemma {:induction false} EmptyPacketBlocks(s: Net, es: seq<Event>)
    requires NetInv(s) && Blocked(s)
    ensures NetInv(Run(s, es)) && Blocked(Run(s, es)) && Run(s, es).rx.got == s.rx.got
    decreases |es|
  {
    hide Step, NetInv, Blocked;
    if es != [] {
      EmptyPacketBlocks(s, es[..|es| - 1]);
      StepKeeps(Run(s, es[..|es| - 1]), es[|es| - 1]);
      BlockedStep(Run(s, es[..|es| - 1]), es[|es| - 1]);
    }
  }

  // ----- Failed allocations -----

  /** What a failed allocation does: two steps later the packet is unattended, exactly unless the host is about to
      ring, an interrupt is due, or one came in during this poll. */
  lemma AllocFailureStalls(s: Net, budget: nat, allocOk: bool)
    requires NetInv(s) && WakeInv(s) && s.rx.poll.AllocSkb?
    ensures !Awake(Step(Step(s, PollGo(budget, false)), PollGo(budget, allocOk)))
            <==> !s.host.Doorbell? && !IrqDue(s.wake) && !s.wake.missed
  {
    NetRingsOk(s);
    hide TxSide, LaneInv, Receive;
  }

  // ----- For how long -----

  /** Nothing is scheduled, no interrupt is due, and the host is not past the test for room. */
  predicate Unattended(s: Net)
  {
    && Rings(s) && s.rx.poll.Asleep? && !s.wake.sched && !s.wake.bell && s.wake.irq.Masked?
    && !s.host.Doorbell? && (s.host.Produce? ==> s.host.p.Check? || s.host.p.Rest?)
  }

  predicate RxFull(s: Net) { IsRing(s.rx.lane.ring) && Used(s.rx.lane.ring) == |s.rx.lane.ring.slots| - 1 }

  /** No other device on the line interrupts. */
  ghost predicate Quiet(es: seq<Event>) { forall e <- es :: e != IrqGo(true) }

  lemma StalledStep(s: Net, e: Event)
    requires NetInv(s) && Unattended(s) && RxFull(s) && e != IrqGo(true)
    ensures var t := Step(s, e); Unattended(t) && RxFull(t) && t.rx == s.rx
  {
    EmptyOrFull(s.rx.lane.ring);
    StepKeeps(s, e);
    NetRingsOk(Step(s, e));
    hide NetInv, XmitStep, HostConsume, Breaks, Receive, Contents;
    if e.HostGo? && !s.host.Produce? {
      ConsumeGoesOn(s.tx, s.host);
    }
  }

  lemma ConsumeGoesOn(t: TxPart, h: Host)
    requires IsRing(t.lane.ring) && !h.Produce? && !h.Doorbell?
    ensures var h' := HostConsume(t, h).1; !h'.Produce? && !h'.Doorbell?
  {
  }

  /** On a full ring that is for good: the host rings only after it has enqueued a packet. */
  lemma {:induction false} StalledForever(s: Net, es: seq<Event>)
    requires NetInv(s) && Unattended(s) && RxFull(s) && Quiet(es)
    ensures var t := Run(s, es); NetInv(t) && Unattended(t) && RxFull(t) && t.rx == s.rx
    decreases |es|
  {
    hide Step, NetInv, Unattended, RxFull;
    if es != [] {
      var es' := es[..|es| - 1];
      assert es[|es| - 1] in es && forall e <- es' :: e in es;
      StalledForever(s, es');
      StepKeeps(Run(s, es'), es[|es| - 1]);
      StalledStep(Run(s, es'), es[|es| - 1]);
    }
  }

  /** A failed allocation on a full ring with no wakeup under way ends there. */
  lemma AllocFailureOnFullRing(s: Net, budget: nat, allocOk: bool)
    requires NetInv(s) && WakeInv(s) && s.rx.poll.AllocSkb? && RxFull(s)
    requires !s.host.Doorbell? && (s.host.Produce? ==> s.host.p.Check?) && !IrqDue(s.wake) && !s.wake.missed
    ensures var t := Step(Step(s, PollGo(budget, false)), PollGo(budget, allocOk));
      NetInv(t) && Unattended(t) && RxFull(t)
  {
    StepKeeps(s, PollGo(budget, false));
    StepKeeps(Step(s, PollGo(budget, false)), PollGo(budget, allocOk));
    NetRingsOk(s);
    hide TxSide, LaneInv, Receive;
  }

  // ----- With room left, the next packet wakes poll -----

  ghost predicate Reaches(s: Net, t: Net) { exists es :: Quiet(es) && Run(s, es) == t }

  lemma ReachesSelf(s: Net)
    ensures Reaches(s, s)
  {
    assert Quiet([]) && Run(s, []) == s;
  }

  lemma ReachesOne(s: Net, t: Net, e: Event)
    requires Reaches(s, t) && e != IrqGo(true)
    ensures Reaches(s, Step(t, e))
  {
    hide Step;
    var es :| Quiet(es) && Run(s, es) == t;
    assert (es + [e])[..|es|] == es;
    assert Quiet(es + [e]) && Run(s, es + [e]) == Step(t, e);
  }

  lemma {:induction false} ReachesMany(s: Net, t: Net, e: Event, n: nat)
    requires Reaches(s, t) && e != IrqGo(true)
    ensures Reaches(s, Repeat(t, e, n))
  {
    hide Step, Reaches;
    if n != 0 {
      ReachesMany(s, t, e, n - 1);
      ReachesOne(s, Repeat(t, e, n - 1), e);
    }
  }

  /** The host is at work on pkt, and nothing else has moved since b. */
  ghost predicate HostAt(b: Net, t: Net, pkt: Packet, host: Host)
  {
    && NetInv(t) && Rings(t) && t.host == host && t.tx == b.tx && t.wake == b.wake
    && t.rx.poll == b.rx.poll && t.rx.got == b.rx.got && t.rx.lane.taken == b.rx.lane.taken
    && t.rx.lane.sent == b.rx.lane.sent + if host.Doorbell? then [pkt] else []
  }

  function FillRank(p: Producer): int
  {
    match p
    case Check(_) => 2000
    case Len(_, _) => 1999
    case Data(_, _, i) => 1 + MAX_PACKET_SIZE - i
    case _ => 0
  }

  lemma HostOnward(b: Net, t: Net, pkt: Packet, p: Producer)
    requires HostAt(b, t, pkt, Produce(p)) && !p.Rest? && p.pkt == pkt && (p.Check? ==> !RxFull(t))
    ensures var u := Step(t, HostGo([]));
      if p.Head? then HostAt(b, u, pkt, Doorbell)
      else && u.host.Produce? && HostAt(b, u, pkt, u.host) && !u.host.p.Rest? && !u.host.p.Check? && u.host.p.pkt == pkt
           && 0 <= FillRank(u.host.p) < FillRank(p)
  {
    var u := Step(t, HostGo([]));
    StepKeeps(t, HostGo([]));
    NetRingsOk(u);
    EmptyOrFull(t.rx.lane.ring);
    ProducerKeeps(t.rx.lane, p);
    assert ProducerInv(t.rx.lane, p);
    hide NetInv, LaneInv, Contents, Used, Holds;
  }

  lemma HostFills(s: Net, b: Net, t: Net, pkt: Packet, p: Producer) returns (u: Net)
    requires Reaches(s, t) && HostAt(b, t, pkt, Produce(p)) && !p.Rest? && p.pkt == pkt && (p.Check? ==> !RxFull(t))
    ensures Reaches(s, u) && HostAt(b, u, pkt, Doorbell)
    decreases FillRank(p)
  {
    hide Reaches, HostAt, Step, RxFull;
    ReachesOne(s, t, HostGo([]));
    u := Step(t, HostGo([]));
    HostOnward(b, t, pkt, p);
    if !p.Head? {
      u := HostFills(s, b, u, pkt, u.host.p);
    }
  }

  /** With room in the ring a packet read from TAP is enqueued, and the host comes to ring. */
  lemma HostSends(s: Net, t: Net, pkt: Packet) returns (u: Net)
    requires Reaches(s, t) && NetInv(t) && t.host.Select? && !RxFull(t) && |pkt| <= MAX_PACKET_SIZE
    ensures Reaches(s, u) && HostAt(t, u, pkt, Doorbell)
  {
    ReachesOne(s, t, HostGo([pkt]));
    u := Step(t, HostGo([pkt]));
    StepKeeps(t, HostGo([pkt]));
    NetRingsOk(t);
    hide NetInv, Reaches;
    u := HostFills(s, t, u, pkt, Check(pkt));
  }

  /** While the interface is up, ringing leads to poll being scheduled. */
  lemma RingsAndWakes(s: Net, t: Net) returns (u: Net)
    requires Reaches(s, t) && Rings(t) && t.host.Doorbell? && t.wake.link.Up?
    ensures Reaches(s, u) && u.wake.sched
  {
    hide Reaches;
    ReachesOne(s, t, HostGo([]));
    u := Step(t, HostGo([]));
    ReachesMany(s, u, IrqGo(false), 5);
    HandlerSchedules(u);
    u := Repeat(u, IrqGo(false), 5);
  }

  /** What the host has left to do before it looks at TAP again. */
  function DrainRank(t: TxPart, h: Host): nat
    requires IsRing(t.lane.ring)
  {
    Used(t.lane.ring) * 5000 +
    match h
    case Drain => 4000
    case TestPositive => 3999
    case TestBounded => 3998
    case WriteLen => 3997
    case Copy(_, buf) => if |buf| <= MAX_PACKET_SIZE then 1 + MAX_PACKET_SIZE - |buf| else 0
    case _ => 0
  }

  lemma ConsumeDescends(t: TxPart, h: Host)
    requires TxSide(t, h) && !h.Select? && !h.Produce? && !h.Doorbell?
    ensures var (t', h') := HostConsume(t, h);
      && IsRing(t.lane.ring) && IsRing(t'.lane.ring)
      && (h'.Select? || (!h'.Produce? && !h'.Doorbell? && DrainRank(t', h') < DrainRank(t, h)))
  {
    LaneShape(t.lane);
    HostConsumes(t, h);
    LaneShape(HostConsume(t, h).0.lane);
    EmptyOrFull(t.lane.ring);
    if h.StoreTail? {
      AdvanceRemoves(t.lane.ring);
    }
    hide LaneInv, ProducerInv, TxDelivered, TxAccounted, Contents;
  }

  /** The host comes back to the top of its loop by itself. */
  lemma HostReturns(s: Net, t: Net) returns (u: Net)
    requires Reaches(s, t) && NetInv(t) && Rings(t) && !t.host.Produce? && !t.host.Doorbell?
    ensures Reaches(s, u) && NetInv(u) && u.host.Select? && u.rx == t.rx && u.wake == t.wake
    decreases if t.host.Select? then 0 else 1 + DrainRank(t.tx, t.host)
  {
    hide Reaches, TxSide, RxSide, HostConsume, DrainRank;
    if t.host.Select? {
      u := t;
    } else {
      ReachesOne(s, t, HostGo([]));
      StepKeeps(t, HostGo([]));
      ConsumeDescends(t.tx, t.host);
      u := Step(t, HostGo([]));
      NetRingsOk(u);
      hide NetInv, Step;
      u := HostReturns(s, u);
    }
  }

  /** An unattended packet on an open interface can be woken for without help from other devices if and only if the
      ring has room for one more. */
  lemma WakesExactly(s: Net)
    requires NetInv(s) && Unattended(s) && s.wake.link.Up?
    ensures (exists t :: Reaches(s, t) && t.wake.sched) <==> !RxFull(s)
  {
    hide NetInv, RxFull;
    if RxFull(s) {
      forall t | Reaches(s, t)
        ensures !t.wake.sched
      {
        var es :| Quiet(es) && Run(s, es) == t;
        StalledForever(s, es);
      }
    } else {
      ReachesSelf(s);
      var t := s;
      if s.host.Produce? {
        CheckAt(s);
        t := HostFills(s, s, s, s.host.p.pkt, s.host.p);
      } else {
        t := HostReturns(s, s);
        SameRx(s, t);
        t := HostSends(s, t, [0]);
      }
      NetRingsOk(t);
      var u := RingsAndWakes(s, t);
    }
  }

  lemma CheckAt(s: Net)
    requires NetInv(s) && Unattended(s) && s.host.Produce?
    ensures s.host.p.Check? && HostAt(s, s, s.host.p.pkt, s.host)
  {
  }

  lemma SameRx(s: Net, t: Net)
    requires s.rx == t.rx
    ensures RxFull(s) <==> RxFull(t)
  {
  }

  // ----- These states occur -----

  /** A read of no bytes from TAP blocks a device that has just been set up. */
  lemma EmptyPacketArrives(s: Net)
    requires Init(s)
    ensures exists es :: Blocked(Run(s, es))
  {
    InitHolds(s);
    ReachesSelf(s);
    EmptyOrFull(s.rx.lane.ring);
    var t := HostSends(s, s, []);
    FrontOf(t);
    var es :| Quiet(es) && Run(s, es) == t;
    assert Blocked(Run(s, es));
  }

  lemma FrontOf(t: Net)
    requires NetInv(t) && t.rx.lane.taken < |t.rx.lane.sent|
    ensures Rings(t) && !RxEmpty(t) && Front(t.rx.lane).len == |t.rx.lane.sent[t.rx.lane.taken]| <= MAX_PACKET_SIZE
  {
    NetRingsOk(t);
    EmptyOrFull(t.rx.lane.ring);
    FrontHolds(t.rx.lane);
  }

  /** One packet and one failed allocation leave an interface that has just been opened with a packet waiting and
      nothing to wake it. */
  lemma AllocFailureArrives(s: Net)
    requires Init(s)
    ensures exists es :: Run(s, es).wake.link.Up? && !Awake(Run(s, es))
  {
    InitHolds(s);
    ReachesSelf(s);
    ReachesOne(s, s, LinkGo);
    StepKeeps(s, LinkGo);
    EmptyOrFull(s.rx.lane.ring);
    var t := HostSends(s, Step(s, LinkGo), [0]);
    FrontOf(t);
    hide Reaches, NetInv;
    ReachesOne(s, t, HostGo([]));
    t := Step(t, HostGo([]));
    ReachesMany(s, t, IrqGo(false), 5);
    IrqAlone(t, 5);
    var w := IrqPass(t.wake);
    t := t.(wake := w);
    var u := PollRefused(s, t);
    var es := Witness(s, u);
    assert !Awake(Run(s, es));
  }

  lemma Witness(s: Net, t: Net) returns (es: seq<Event>)
    requires Reaches(s, t)
    ensures Quiet(es) && Run(s, es) == t
  {
    es :| Quiet(es) && Run(s, es) == t;
  }

  /** One pass of the handler, on an open interface and on a closed one. */
  lemma IrqPass(w: Wake) returns (w': Wake)
    requires w.bell && w.irq.Masked? && !w.sched && !w.missed && !w.link.Closing?
    ensures w' == IrqTimes(w, 5) && !w'.missed && !w'.bell && w'.irq.Masked? && w'.link == w.link
    ensures w'.sched == w.link.Up?
  {
    var w1 := IrqStep(w, false);
    var w2 := IrqStep(w1, false);
    var w3 := IrqStep(w2, false);
    var w4 := IrqStep(w3, false);
    w' := IrqStep(w4, false);
    assert IrqTimes(w, 1) == w1;
    assert IrqTimes(w, 2) == w2;
    assert IrqTimes(w, 3) == w3;
    assert IrqTimes(w, 4) == w4;
  }

  lemma PollRefused(s: Net, t: Net) returns (u: Net)
    requires Reaches(s, t) && Rings(t) && !RxEmpty(t) && 0 < Front(t.rx.lane).len <= MAX_PACKET_SIZE
    requires t.rx.poll.Asleep? && t.wake.sched && !t.wake.missed && !IrqDue(t.wake) && !t.host.Doorbell?
    ensures Reaches(s, u) && !Awake(u) && u.wake.link == t.wake.link
  {
    hide Reaches, HostStep, XmitStep, IrqStep;
    var go, fail := PollGo(64, true), PollGo(64, false);
    var j := Job(64, 0);
    ReachesOne(s, t, go);
    ReachesOne(s, PollWith(t, Loop(j)), go);
    assert Step(PollWith(t, Loop(j)), go).rx == PollWith(t, TestZero(j)).rx;
    var b := Step(PollWith(t, Loop(j)), go);
    ReachesOne(s, b, go);
    ReachesOne(s, PollWith(b, TestMax(j)), go);
    ReachesOne(s, PollWith(b, AllocSkb(j)), fail);
    ReachesOne(s, Step(PollWith(b, AllocSkb(j)), fail), go);
    u := Step(Step(PollWith(b, AllocSkb(j)), fail), go);
  }

  function PollWith(s: Net, p: Poll): Net { s.(rx := s.rx.(poll := p)) }

  // ----- Packets that arrive before the interface is opened -----

  /** The interface is down, n packets wait, and every doorbell for them has been answered in vain. */
  ghost predicate Waiting(s: Net, t: Net, n: nat)
  {
    && NetInv(t) && t.wake.link.Down? && t.host.Select? && t.tx == s.tx && RxEmptyLane(t.tx.lane)
    && t.rx.poll.Asleep? && !t.wake.sched && !t.wake.missed && t.wake.irq.Masked? && (n > 0 ==> !t.wake.bell)
    && t.rx.lane.taken == 0 && |t.rx.lane.sent| == n
  }

  predicate RxEmptyLane(l: Lane) { l.ring.head == l.ring.tail }

  lemma InFlight(t: Net)
    requires NetInv(t)
    ensures Rings(t) && t.rx.lane.taken + Used(t.rx.lane.ring) == |t.rx.lane.sent|
    ensures RxFull(t) <==> |t.rx.lane.sent| - t.rx.lane.taken == 649
  {
    NetRingsOk(t);
    hide Holds;
  }

  lemma OneMoreWaits(s: Net, t: Net, n: nat) returns (u: Net)
    requires Reaches(s, t) && Waiting(s, t, n) && n < 649
    ensures Reaches(s, u) && Waiting(s, u, n + 1)
  {
    hide Reaches, NetInv, RxFull;
    InFlight(t);
    var v := HostSends(s, t, [0]);
    ReachesOne(s, v, HostGo([]));
    StepKeeps(v, HostGo([]));
    v := Step(v, HostGo([]));
    NetRingsOk(v);
    ReachesMany(s, v, IrqGo(false), 5);
    IrqAlone(v, 5);
    IrqManyKeep(v, 5);
    var w := IrqPass(v.wake);
    v := v.(wake := w);
    ReachesOne(s, v, HostGo([]));
    StepKeeps(v, HostGo([]));
    u := Step(v, HostGo([]));
  }

  lemma {:induction false} IrqManyKeep(s: Net, n: nat)
    requires NetInv(s)
    ensures NetInv(Repeat(s, IrqGo(false), n))
  {
    hide NetInv, Step;
    if n != 0 {
      IrqManyKeep(s, n - 1);
      StepKeeps(Repeat(s, IrqGo(false), n - 1), IrqGo(false));
    }
  }

  lemma {:induction false} ManyWait(s: Net, n: nat) returns (t: Net)
    requires Init(s) && n <= 649
    ensures Reaches(s, t) && Waiting(s, t, n)
  {
    hide Reaches, NetInv;
    if n == 0 {
      InitHolds(s);
      ReachesSelf(s);
      t := s;
    } else {
      t := ManyWait(s, n - 1);
      hide Waiting, Init;
      t := OneMoreWaits(s, t, n - 1);
    }
  }

  /** If 649 packets arrive before the interface is opened, they wait for good: the host never rings again. */
  lemma OpenedTooLate(s: Net)
    requires Init(s)
    ensures exists es :: var t := Run(s, es); t.wake.link.Up? && NetInv(t) && Unattended(t) && RxFull(t)
  {
    hide Reaches, NetInv, RxFull;
    var t := ManyWait(s, 649);
    InFlight(t);
    ReachesOne(s, t, LinkGo);
    StepKeeps(t, LinkGo);
    var u := Step(t, LinkGo);
    InFlight(u);
    var es := Witness(s, u);
    assert Unattended(Run(s, es));
  }
}
