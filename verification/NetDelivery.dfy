/** Delivery: exactly when the packets in the ring reach the X280's network stack, by handler and poll alone and
    amid everything else. */
module NetDelivery {
  import opened RingBuffer
  import opened NetRings
  import opened NetSafety
  import opened NetWakeup

  // ----- Poll's progress towards a given number of packets -----

  function Phase(p: Poll): nat
  {
    match p
    case Complete(_) => 4004
    case Loop(j) => if j.work < j.budget then 4001 else 4003
    case Asleep => 4002
    case TestZero(_) => 4000
    case TestMax(_) => 3999
    case AllocSkb(_) => 3998
    case PutSkb(_, _) => 3997
    case CopyLen(_, _, _) => 3996
    case Copying(_, _, _, n, buf) => 1000 + if |buf| < n && |buf| < MAX_PACKET_SIZE then MAX_PACKET_SIZE - |buf| else 0
    case CountPacket(_) => 3
    case AddLen(_) => 2
    case StoreRxTail(_) => 1
  }

  /** What poll has left to do until n packets have been taken. */
  function Left(r: RxPart, n: nat): nat
    requires r.lane.taken <= n
  {
    (n - r.lane.taken) * 5000 + Phase(r.poll)
  }

  /** Poll is scheduled and will stay so until it has seen the ring empty. */
  predicate Draining(s: Net) { s.wake.link.Up? && s.wake.sched && (s.rx.poll.Complete? ==> s.wake.missed) }

  /** The interface stays up, allocation succeeds, and every poll may take a packet. */
  predicate Steady(e: Event) { !e.LinkGo? && (e.PollGo? ==> e.budget > 0 && e.allocOk) }

  ghost predicate AllSteady(es: seq<Event>) { forall e <- es :: Steady(e) }

  lemma Waiting(s: Net)
    requires NetInv(s)
    ensures Rings(s) && s.rx.lane.taken <= |s.rx.lane.sent|
    ensures RxEmpty(s) <==> s.rx.lane.taken == |s.rx.lane.sent|
  {
    NetRingsOk(s);
    hide Holds;
    EmptyOrFull(s.rx.lane.ring);
  }

  /** Whoever steps: poll stays at it and does not fall back, and its own steps bring it on. */
  lemma DrainStep(s: Net, e: Event, n: nat)
    requires NetInv(s) && NoEmptySent(s) && Draining(s) && Steady(e)
    requires s.rx.lane.taken < n <= |s.rx.lane.sent|
    ensures var u := Step(s, e);
      && s.rx.lane.taken <= u.rx.lane.taken
      && (u.rx.lane.taken < n ==>
            Draining(u) && Left(u.rx, n) + (if e.PollGo? then 1 else 0) <= Left(s.rx, n))
  {
    Waiting(s);
    match e
    case HostGo(tap) => HostTakesNothing(s, tap);
    case XmitGo(skb) => hide XmitStep;
    case PollGo(budget, allocOk) => PollDescends(s, budget, n);
    case IrqGo(shared) =>
  }

  lemma HostTakesNothing(s: Net, tap: seq<Packet>)
    requires NetInv(s) && Rings(s)
    ensures var u := HostStep(s, tap);
      u.rx.lane.taken == s.rx.lane.taken && u.rx.poll == s.rx.poll && u.wake.sched == s.wake.sched
      && u.wake.missed == s.wake.missed && u.wake.link == s.wake.link
  {
    if s.host.Produce? {
      ProducerKeeps(s.rx.lane, s.host.p);
    }
    hide ProducerStep, HostConsume, RxSide, TxSide;
  }

  lemma PollDescends(s: Net, budget: nat, n: nat)
    requires NetInv(s) && Rings(s) && NoEmptySent(s) && Draining(s) && budget > 0 && !RxEmpty(s)
    requires s.rx.lane.taken < n
    ensures var u := Step(s, PollGo(budget, true));
      && s.rx.lane.taken <= u.rx.lane.taken
      && (u.rx.lane.taken < n ==> Draining(u) && Left(u.rx, n) < Left(s.rx, n))
  {
    hide NetInv, NoEmptySent, HostStep, XmitStep, IrqStep;
    if PollHolds(s.rx.poll) {
      NoBadLength(s);
    }
  }

  // ----- Delivery by handler and poll alone -----

  /** After n poll steps the ring is empty and every packet sent so far has been received. */
  predicate Delivers(s: Net, budget: nat, n: nat)
  {
    var t := Repeat(s, PollGo(budget, true), n);
    RxEmpty(t) && t.rx.got == s.rx.lane.sent
  }

  lemma AllGot(s: Net)
    requires NetInv(s) && RxEmpty(s)
    ensures s.rx.got == s.rx.lane.sent
  {
    hide Bytes, NonEmpty, Holds;
    EmptyOrFull(s.rx.lane.ring);
  }

  lemma {:induction false} Drains(s: Net, budget: nat, left: nat)
    requires NetInv(s) && NoEmptySent(s) && budget > 0 && s.rx.lane.taken <= |s.rx.lane.sent|
    requires RxEmpty(s) || (Draining(s) && Left(s.rx, |s.rx.lane.sent|) <= left)
    ensures exists n: nat :: n <= left && Delivers(s, budget, n)
    decreases left
  {
    Waiting(s);
    if RxEmpty(s) {
      AllGot(s);
      assert Repeat(s, PollGo(budget, true), 0) == s;
      assert Delivers(s, budget, 0);
    } else {
      hide Step, NetInv, Draining, Phase;
      var e := PollGo(budget, true);
      var s' := Step(s, e);
      DrainStep(s, e, |s.rx.lane.sent|);
      StepKeeps(s, e);
      SentStep(s, e);
      Waiting(s');
      Drains(s', budget, left - 1);
      var n: nat :| n <= left - 1 && Delivers(s', budget, n);
      RepeatFirst(s, e, n);
      assert Delivers(s, budget, n + 1);
    }
  }

  /** Handler and poll by themselves can deliver what has been enqueued. */
  ghost predicate Deliverable(s: Net, budget: nat)
  {
    exists m, n :: Delivers(Repeat(s, IrqGo(false), m), budget, n)
  }

  lemma CanDeliver(t: Net, budget: nat)
    requires NetInv(t) && LinkInv(t) && NoEmptySent(t) && budget > 0 && t.wake.link.Up?
    requires RxEmpty(t) || IrqDue(t.wake) || Draining(t)
    ensures Deliverable(t, budget)
  {
    hide NetInv, NoEmptySent, IrqDue;
    Waiting(t);
    var u, m := t, 0;
    if !RxEmpty(t) && !Draining(t) {
      HandlerSchedules(t);
      u, m := Repeat(t, IrqGo(false), 5), 5;
    }
    assert u == Repeat(t, IrqGo(false), m);
    IrqRunKeeps(t, m);
    Waiting(u);
    hide Step, Repeat, Delivers;
    Drains(u, budget, Left(u.rx, |u.rx.lane.sent|));
    var n: nat :| n <= Left(u.rx, |u.rx.lane.sent|) && Delivers(u, budget, n);
    assert Delivers(Repeat(t, IrqGo(false), m), budget, n);
  }

  lemma {:induction false} IrqRunKeeps(s: Net, n: nat)
    requires NetInv(s) && NoEmptySent(s)
    ensures var t := Repeat(s, IrqGo(false), n); NetInv(t) && NoEmptySent(t)
  {
    hide Step, NetInv;
    if n != 0 {
      IrqRunKeeps(s, n - 1);
      StepKeeps(Repeat(s, IrqGo(false), n - 1), IrqGo(false));
      SentStep(Repeat(s, IrqGo(false), n - 1), IrqGo(false));
    }
  }

  // ----- Nothing empty is received -----

  /** Between the first length test and the end of the copy. */
  predicate Checked(p: Poll) { p.TestMax? || p.AllocSkb? || p.PutSkb? || p.CopyLen? || p.Copying? }

  ghost predicate GotNonEmpty(r: RxPart)
    requires IsRing(r.lane.ring)
  {
    (forall p <- r.got :: p != []) && (Checked(r.poll) ==> Front(r.lane).len > 0)
  }

  lemma GotStep(s: Net, e: Event)
    requires NetInv(s) && Rings(s) && GotNonEmpty(s.rx)
    ensures Rings(Step(s, e)) && GotNonEmpty(Step(s, e).rx)
  {
    StepKeeps(s, e);
    NetRingsOk(Step(s, e));
    match e
    case HostGo(tap) => GotHost(s, tap);
    case XmitGo(skb) =>
      hide XmitStep;
      assert Step(s, e).rx == s.rx;
    case PollGo(budget, allocOk) => GotPoll(s.rx, s.wake, budget, allocOk, HostProducer(s.host));
    case IrqGo(shared) =>
    case LinkGo =>
  }

  lemma GotHost(s: Net, tap: seq<Packet>)
    requires NetInv(s) && Rings(s) && GotNonEmpty(s.rx)
    ensures Rings(HostStep(s, tap)) && GotNonEmpty(HostStep(s, tap).rx)
  {
    HostKeeps(s, tap);
    NetRingsOk(HostStep(s, tap));
    if s.host.Produce? {
      ProducerKeeps(s.rx.lane, s.host.p);
    }
    hide ProducerStep, LaneInv, ProducerInv, TxSide, RxDelivered, HostConsume, Contents;
  }

  lemma GotPoll(r: RxPart, w: Wake, budget: nat, allocOk: bool, p: Producer)
    requires RxSide(r, p) && IsRing(r.lane.ring) && GotNonEmpty(r)
    ensures var r' := PollStep(r, w, budget, allocOk).0; IsRing(r'.lane.ring) && GotNonEmpty(r')
  {
    hide RxSide, Receive, Breaks;
    if PollHolds(r.poll) {
      PollKeeps(r, w, budget, allocOk, p);
      GotReceive(r, p);
      BreakStays(r, allocOk);
    }
  }

  lemma BreakStays(r: RxPart, allocOk: bool)
    requires IsRing(r.lane.ring) && PollHolds(r.poll)
    ensures r.poll.TestZero? && !Breaks(r, allocOk) ==> Front(r.lane).len > 0
  {
  }

  lemma GotReceive(r: RxPart, p: Producer)
    requires RxSide(r, p) && IsRing(r.lane.ring) && GotNonEmpty(r) && PollHolds(r.poll)
    ensures var r' := Receive(r);
      IsRing(r'.lane.ring) && ((r.poll.TestZero? && Front(r.lane).len == 0) || GotNonEmpty(r'))
  {
    hide LaneInv, ProducerInv, RxDelivered, Bytes, NonEmpty;
    var pkt := Current(r.lane);
  }

  lemma {:induction false} GotHolds(s: Net, es: seq<Event>)
    requires Init(s)
    ensures Rings(Run(s, es)) && GotNonEmpty(Run(s, es).rx)
    decreases |es|
  {
    hide Step, NetInv;
    if es != [] {
      NetSafe(s, es[..|es| - 1]);
      GotHolds(s, es[..|es| - 1]);
      hide Init, GotNonEmpty, Rings;
      GotStep(Run(s, es[..|es| - 1]), es[|es| - 1]);
    }
  }

  lemma {:induction false} RepeatKeeps(s: Net, e: Event, n: nat)
    requires NetInv(s) && Rings(s) && GotNonEmpty(s.rx)
    ensures var t := Repeat(s, e, n); NetInv(t) && Rings(t) && GotNonEmpty(t.rx)
  {
    hide Step, NetInv, GotNonEmpty, Rings;
    if n != 0 {
      RepeatKeeps(s, e, n - 1);
      StepKeeps(Repeat(s, e, n - 1), e);
      GotStep(Repeat(s, e, n - 1), e);
    }
  }

  lemma DeliveredNonEmpty(t: Net, budget: nat)
    requires NetInv(t) && Rings(t) && GotNonEmpty(t.rx) && Deliverable(t, budget)
    ensures NoEmptySent(t)
  {
    hide NetInv, Rings, Step;
    var m, n :| Delivers(Repeat(t, IrqGo(false), m), budget, n);
    RepeatKeeps(t, IrqGo(false), m);
    IrqAlone(t, m);
    RepeatKeeps(Repeat(t, IrqGo(false), m), PollGo(budget, true), n);
  }

  // ----- Exactly when everything is delivered -----

  /** Nothing is due: the handler has nothing to do, and poll is not scheduled or about to complete for good. */
  predicate Dormant(t: Net)
  {
    && !IrqDue(t.wake) && !RxEmpty(t)
    && ((t.rx.poll.Asleep? && !t.wake.sched) || (t.rx.poll.Complete? && t.wake.sched && !t.wake.missed))
  }

  lemma {:induction false} DormantPolls(t: Net, budget: nat, n: nat)
    requires Rings(t) && Dormant(t)
    ensures Rings(Repeat(t, PollGo(budget, true), n)) && Dormant(Repeat(t, PollGo(budget, true), n))
  {
    if n != 0 {
      DormantPolls(t, budget, n - 1);
      DormantStep(Repeat(t, PollGo(budget, true), n - 1), budget);
    }
  }

  lemma DormantStep(t: Net, budget: nat)
    requires Rings(t) && Dormant(t)
    ensures Rings(Step(t, PollGo(budget, true))) && Dormant(Step(t, PollGo(budget, true)))
  {
  }

  lemma {:induction false} DormantHandler(t: Net, n: nat)
    requires Rings(t) && !IrqDue(t.wake)
    ensures Repeat(t, IrqGo(false), n) == t
  {
    if n != 0 {
      DormantHandler(t, n - 1);
    }
  }

  /** In every reachable state in which the interface is up and the host is not about to ring, whatever happened before:
      handler and poll alone deliver every packet the host has published if and only if none is empty and there is
      nothing to deliver, an interrupt due, or a poll that has yet to see the ring empty. */
  lemma DeliverableExactly(s: Net, es: seq<Event>, budget: nat)
    requires Init(s) && budget > 0 && Run(s, es).wake.link.Up?
    ensures var t := Run(s, es);
      Deliverable(t, budget) <==> NoEmptySent(t) && (RxEmpty(t) || IrqDue(t.wake) || Draining(t))
  {
    var t := Run(s, es);
    NetSafe(s, es);
    GotHolds(s, es);
    LinkHolds(s, es);
    hide Run, Init, NetInv, GotNonEmpty, Rings;
    if Deliverable(t, budget) {
      DeliveredNonEmpty(t, budget);
      var m, n :| Delivers(Repeat(t, IrqGo(false), m), budget, n);
      if !RxEmpty(t) && !IrqDue(t.wake) && !Draining(t) {
        DormantHandler(t, m);
        DormantPolls(t, budget, n);
      }
    } else if NoEmptySent(t) && (RxEmpty(t) || IrqDue(t.wake) || Draining(t)) {
      CanDeliver(t, budget);
    }
  }

  /** After an opening that finds the ring empty or a wakeup to come, with successful allocations and whatever TAP
      yields, and from every state in which the host is not about to ring: handler and poll alone deliver every
      packet the host has published, if and only if none of them is empty. */
  lemma EverythingDelivered(s: Net, before: seq<Event>, after: seq<Event>, budget: nat)
    requires Init(s) && Run(s, before).wake.link.Down? && OpensAwake(Run(s, before)) && NoLink(after)
    requires AllocsSucceed(after) && budget > 0 && !Since(s, before, after).host.Doorbell?
    ensures var t := Since(s, before, after); Deliverable(t, budget) <==> NoEmptySent(t)
  {
    hide Init, NetInv, Deliverable, NoEmptySent, OpensAwake, Step;
    var t := Since(s, before, after);
    SinceIsRun(s, before, after);
    WakeSince(s, before, after);
    DeliverableExactly(s, before + [LinkGo] + after, budget);
    if NoEmptySent(t) {
      NoLostWakeup(s, before, after);
    }
  }

  lemma {:induction false} SinceIsRun(s: Net, before: seq<Event>, after: seq<Event>)
    ensures Since(s, before, after) == Run(s, before + [LinkGo] + after)
    decreases |after|
  {
    hide Step;
    var es := before + [LinkGo] + after;
    if after == [] {
      assert es[..|es| - 1] == before && es[|es| - 1] == LinkGo;
    } else {
      SinceIsRun(s, before, after[..|after| - 1]);
      assert es[..|es| - 1] == before + [LinkGo] + after[..|after| - 1];
    }
  }

  // ----- Delivery amid everything else -----

  function PollCount(es: seq<Event>): nat
  {
    if es == [] then 0 else PollCount(es[..|es| - 1]) + if es[|es| - 1].PollGo? then 1 else 0
  }

  function IrqCount(es: seq<Event>): nat
  {
    if es == [] then 0 else IrqCount(es[..|es| - 1]) + if es[|es| - 1].IrqGo? then 1 else 0
  }

  /** n packets have been taken, or poll is at it. */
  predicate OnTheWay(t: Net, n: nat) { n <= t.rx.lane.taken || Draining(t) }

  lemma {:induction false} PollsAmid(s: Net, es: seq<Event>, n: nat)
    requires NetInv(s) && n <= |s.rx.lane.sent| && OnTheWay(s, n) && AllSteady(es) && NoEmptySent(Run(s, es))
    ensures var t := Run(s, es);
      && NetInv(t) && OnTheWay(t, n) && s.rx.lane.sent <= t.rx.lane.sent
      && (t.rx.lane.taken < n ==> s.rx.lane.taken < n && Left(t.rx, n) + PollCount(es) <= Left(s.rx, n))
    decreases |es|
  {
    hide Step, NetInv, NoEmptySent, Draining, Phase;
    if es != [] {
      var es', e := es[..|es| - 1], es[|es| - 1];
      var t := Run(s, es');
      assert e in es && forall d <- es' :: d in es;
      RunKeeps(s, es');
      SentStep(t, e);
      NoEmptyBefore(t, Run(s, es));
      PollsAmid(s, es', n);
      StepKeeps(t, e);
      if t.rx.lane.taken < n {
        DrainStep(t, e, n);
      } else {
        TakenGrows(t, e);
      }
    }
  }

  lemma NoEmptyBefore(t: Net, u: Net)
    requires t.rx.lane.sent <= u.rx.lane.sent && NoEmptySent(u)
    ensures NoEmptySent(t)
  {
    PrefixMembers(t.rx.lane.sent, u.rx.lane.sent);
  }

  lemma TakenGrows(t: Net, e: Event)
    requires NetInv(t)
    ensures t.rx.lane.taken <= Step(t, e).rx.lane.taken
  {
    NetRingsOk(t);
    if e.HostGo? {
      HostTakesNothing(t, e.tap);
    }
    hide NetInv, HostStep, XmitStep, Breaks;
  }

  /** The handler's part: after five of its steps poll is at it, or has already been through. */
  lemma {:induction false} HandlerAmid(s: Net, es: seq<Event>, n: nat)
    requires NetInv(s) && LinkInv(s) && s.wake.link.Up? && n <= |s.rx.lane.sent|
    requires IrqDue(s.wake) || OnTheWay(s, n)
    requires AllSteady(es) && NoEmptySent(Run(s, es))
    ensures var t := Run(s, es);
      && NetInv(t) && LinkInv(t) && t.wake.link.Up? && s.rx.lane.sent <= t.rx.lane.sent
      && (OnTheWay(t, n) || (IrqDue(t.wake) && StepsLeft(t.wake.irq) + IrqCount(es) <= 5))
    decreases |es|
  {
    hide Step, NetInv, NoEmptySent, LinkInv, IrqDue, OnTheWay;
    if es == [] {
    } else {
      var es', e := es[..|es| - 1], es[|es| - 1];
      var t := Run(s, es');
      assert e in es && forall d <- es' :: d in es;
      RunKeeps(s, es');
      SentStep(t, e);
      NoEmptyBefore(t, Run(s, es));
      HandlerAmid(s, es', n);
      StepKeeps(t, e);
      LinkStepKeeps(t, e);
      HandlerOnward(t, e, n);
    }
  }

  lemma HandlerOnward(t: Net, e: Event, n: nat)
    requires NetInv(t) && LinkInv(t) && t.wake.link.Up? && NoEmptySent(t) && Steady(e) && n <= |t.rx.lane.sent|
    requires IrqDue(t.wake) || OnTheWay(t, n)
    ensures var u := Step(t, e);
      && u.wake.link.Up?
      && (OnTheWay(t, n) ==> OnTheWay(u, n))
      && (!OnTheWay(t, n) ==>
            || OnTheWay(u, n)
            || (IrqDue(u.wake) && StepsLeft(u.wake.irq) + (if e.IrqGo? then 1 else 0) <= StepsLeft(t.wake.irq)))
  {
    NetRingsOk(t);
    if OnTheWay(t, n) {
      if t.rx.lane.taken < n {
        DrainStep(t, e, n);
      } else {
        TakenGrows(t, e);
      }
    }
    StaysUp(t, e);
    hide NetInv, HostStep, XmitStep, Breaks, Receive, NoEmptySent;
  }

  lemma StaysUp(t: Net, e: Event)
    requires NetInv(t) && Rings(t) && t.wake.link.Up? && !e.LinkGo?
    ensures var w := Step(t, e).wake;
      && w.link.Up? && (!e.IrqGo? && IrqDue(t.wake) ==> IrqDue(w) && StepsLeft(w.irq) <= StepsLeft(t.wake.irq))
  {
    hide NetInv, XmitStep, HostConsume, ProducerStep, Breaks, Receive;
  }

  /** Whatever the host, the sending side and further interrupts do meanwhile: once the handler has had five steps and
      then poll as many as 650 packets may need, every packet that was in the ring has been received. */
  lemma ReceivedMeanwhile(s: Net, es: seq<Event>, irqs: seq<Event>, polls: seq<Event>)
    requires Init(s) && Run(s, es).wake.link.Up?
    requires var t := Run(s, es); RxEmpty(t) || IrqDue(t.wake) || Draining(t)
    requires AllSteady(irqs) && AllSteady(polls) && IrqCount(irqs) >= 5 && PollCount(polls) >= 650 * 5000
    requires NoEmptySent(Run(Run(Run(s, es), irqs), polls))
    ensures Run(s, es).rx.lane.sent <= Run(Run(Run(s, es), irqs), polls).rx.got
  {
    hide Init, NetInv, Run, NoEmptySent, LinkInv, Step, IrqDue, Phase;
    var t := Run(s, es);
    var n := |t.rx.lane.sent|;
    NetSafe(s, es);
    LinkHolds(s, es);
    Waiting(t);
    var u := Run(t, irqs);
    var v := Run(u, polls);
    RunKeeps(t, irqs);
    RunKeeps(u, polls);
    SentRun(u, polls);
    NoEmptyBefore(u, v);
    HandlerAmid(t, irqs, n);
    StepsLeftPositive(u.wake.irq);
    PollsAmid(u, polls, n);
    TakenAll(u, n);
    TakenAll(v, n);
    PhaseBound(u.rx.poll);
  }

  lemma {:induction false} SentRun(s: Net, es: seq<Event>)
    requires NetInv(s)
    ensures s.rx.lane.sent <= Run(s, es).rx.lane.sent
    decreases |es|
  {
    hide NetInv, Step;
    if es != [] {
      SentRun(s, es[..|es| - 1]);
      RunKeeps(s, es[..|es| - 1]);
      SentStep(Run(s, es[..|es| - 1]), es[|es| - 1]);
    }
  }

  lemma StepsLeftPositive(irq: Irq)
    ensures StepsLeft(irq) > 0
  {
  }

  lemma PhaseBound(p: Poll)
    ensures Phase(p) <= 4004
  {
  }

  lemma TakenAll(v: Net, n: nat)
    requires NetInv(v) && n <= |v.rx.lane.sent|
    ensures n <= v.rx.lane.taken ==> v.rx.lane.sent[..n] <= v.rx.got
    ensures |v.rx.lane.sent| <= v.rx.lane.taken + 649
  {
    NetRingsOk(v);
    hide Bytes, NonEmpty, Holds;
  }
}
