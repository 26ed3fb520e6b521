/** No wakeup is lost: while the interface is up, a packet in the rx ring has somebody who will look at it, if it
    had when the interface was opened. */
module NetWakeup {
  import opened RingBuffer
  import opened NetRings
  import opened NetSafety

  predicate RxEmpty(s: Net) { s.rx.lane.ring.head == s.rx.lane.ring.tail }

  /** The doorbell is set, or the handler is between its first read and its last step. */
  predicate IrqDue(w: Wake) { w.bell || !w.irq.Masked? }

  /** The ring is empty, or the host is about to ring, or the interrupt is due, or poll is scheduled. */
  predicate Awake(s: Net) { RxEmpty(s) || s.host.Doorbell? || IrqDue(s.wake) || s.wake.sched }

  /** Poll about to complete over a non-empty ring has been told to run again, or will be. */
  predicate CompletesAware(s: Net)
  {
    s.rx.poll.Complete? ==> RxEmpty(s) || s.host.Doorbell? || IrqDue(s.wake) || s.wake.missed || s.wake.gaveUp
  }

  /** A poll under way is scheduled, MISSED is set beside SCHED only, and nothing is scheduled while the interface is
      down. */
  predicate LinkInv(s: Net)
  {
    && (!s.rx.poll.Asleep? ==> s.wake.sched) && (s.wake.missed ==> s.wake.sched)
    && (s.wake.link.Down? ==> !s.wake.sched)
  }

  predicate WakeInv(s: Net) { s.wake.link.Up? && (Awake(s) || s.wake.gaveUp) && CompletesAware(s) && LinkInv(s) }

  lemma LinkStepKeeps(s: Net, e: Event)
    requires NetInv(s) && LinkInv(s)
    ensures LinkInv(Step(s, e))
  {
    hide NetInv, Breaks, Receive, XmitStep, HostConsume, ProducerStep;
    NetRingsOk(s);
    if PollHolds(s.rx.poll) {
      ReceiveStays(s.rx);
    }
  }

  lemma {:induction false} LinkHolds(s: Net, es: seq<Event>)
    requires Init(s)
    ensures LinkInv(Run(s, es))
    decreases |es|
  {
    hide Step, NetInv, LinkInv;
    if es == [] {
      InitLink(s);
    } else {
      NetSafe(s, es[..|es| - 1]);
      LinkHolds(s, es[..|es| - 1]);
      LinkStepKeeps(Run(s, es[..|es| - 1]), es[|es| - 1]);
    }
  }

  lemma InitLink(s: Net)
    requires Init(s)
    ensures LinkInv(s)
  {
  }

  lemma WakeStep(s: Net, e: Event)
    requires NetInv(s) && WakeInv(s) && !e.LinkGo?
    ensures WakeInv(Step(s, e))
  {
    hide NetInv, HostStep, PollStep, XmitStep;
    if Rings(s) {
      match e
      case HostGo(tap) => WakeHost(s, tap);
      case XmitGo(skb) =>
      case PollGo(budget, allocOk) => WakePoll(s, budget, allocOk);
      case IrqGo(shared) =>
    }
  }

  lemma WakeHost(s: Net, tap: seq<Packet>)
    requires NetInv(s) && WakeInv(s) && Rings(s)
    ensures WakeInv(HostStep(s, tap))
  {
    hide RxSide, TxSide, HostConsume;
    if s.host.Produce? {
      ProducerMoves(s.rx.lane, s.host.p);
    }
  }

  lemma ProducerMoves(l: Lane, p: Producer)
    requires IsRing(l.ring)
    ensures ProducerStep(l, p).0.ring.tail == l.ring.tail
    ensures !p.Head? ==> ProducerStep(l, p).0.ring.head == l.ring.head
    ensures p.Head? ==> ProducerStep(l, p).1.Rest?
  {
  }

  lemma WakePoll(s: Net, budget: nat, allocOk: bool)
    requires NetInv(s) && WakeInv(s) && Rings(s)
    ensures WakeInv(Step(s, PollGo(budget, allocOk)))
  {
    hide RxSide, TxSide, Breaks, Receive;
    if PollHolds(s.rx.poll) {
      ReceiveStays(s.rx);
    }
  }

  lemma ReceiveStays(r: RxPart)
    requires IsRing(r.lane.ring) && PollHolds(r.poll)
    ensures !Receive(r).poll.Complete? && !Receive(r).poll.Asleep?
  {
  }

  // ----- From one opening of the interface on -----

  /** The interface stays as it is. */
  ghost predicate NoLink(es: seq<Event>) { forall e <- es :: !e.LinkGo? }

  /** The state after some events, then an opening of the interface, then more events. */
  function Since(s: Net, before: seq<Event>, after: seq<Event>): Net { Run(Step(Run(s, before), LinkGo), after) }

  /** What an opening finds: nothing in the ring, or a wakeup still to come. */
  predicate OpensAwake(t: Net) { RxEmpty(t) || t.host.Doorbell? || IrqDue(t.wake) }

  lemma OpensWell(t: Net)
    requires NetInv(t) && LinkInv(t) && t.wake.link.Down?
    ensures var u := Step(t, LinkGo);
      && NetInv(u) && u.wake.link.Up? && !u.wake.gaveUp
      && u.rx == t.rx && (Awake(u) <==> OpensAwake(t)) && (OpensAwake(t) ==> WakeInv(u))
  {
    hide NetInv;
    StepKeeps(t, LinkGo);
    NetRingsOk(t);
  }

  lemma {:induction false} WakeHolds(u: Net, es: seq<Event>)
    requires NetInv(u) && WakeInv(u) && NoLink(es)
    ensures NetInv(Run(u, es)) && WakeInv(Run(u, es))
    decreases |es|
  {
    hide Step, NetInv, WakeInv;
    if es != [] {
      var es' := es[..|es| - 1];
      assert !es[|es| - 1].LinkGo? && forall e <- es' :: e in es;
      WakeHolds(u, es');
      StepKeeps(Run(u, es'), es[|es| - 1]);
      WakeStep(Run(u, es'), es[|es| - 1]);
    }
  }

  lemma WakeSince(s: Net, before: seq<Event>, after: seq<Event>)
    requires Init(s) && Run(s, before).wake.link.Down? && OpensAwake(Run(s, before)) && NoLink(after)
    ensures NetInv(Since(s, before, after)) && WakeInv(Since(s, before, after))
  {
    hide Init, NetInv, WakeInv, LinkInv, Step;
    NetSafe(s, before);
    LinkHolds(s, before);
    OpensWell(Run(s, before));
    WakeHolds(Step(Run(s, before), LinkGo), after);
  }

  /** After an opening with a wakeup to come or an empty ring, a packet can lie unattended only after poll left its
      loop by a break. */
  lemma AwakeOrGaveUp(s: Net, before: seq<Event>, after: seq<Event>)
    requires Init(s) && Run(s, before).wake.link.Down? && OpensAwake(Run(s, before)) && NoLink(after)
    ensures var t := Since(s, before, after); Awake(t) || t.wake.gaveUp
  {
    WakeSince(s, before, after);
  }

  // ----- Runs in which nothing makes poll give up -----

  predicate AllocOk(e: Event) { e.PollGo? ==> e.allocOk }

  ghost predicate AllocsSucceed(es: seq<Event>) { forall e <- es :: AllocOk(e) }

  /** No empty packet has been enqueued. */
  ghost predicate NoEmptySent(s: Net) { forall p <- s.rx.lane.sent :: p != [] }

  /** Only the host adds packets, at the end. */
  lemma SentStep(s: Net, e: Event)
    requires NetInv(s)
    ensures s.rx.lane.sent <= Step(s, e).rx.lane.sent
    ensures !e.HostGo? ==> Step(s, e).rx.lane.sent == s.rx.lane.sent
  {
    hide RxSide, TxSide;
    if Rings(s) {
      match e
      case HostGo(tap) =>
        hide HostConsume;
        if s.host.Produce? {
          ProducerSends(s.rx.lane, s.host.p);
        }
      case XmitGo(skb) => hide XmitStep;
      case PollGo(budget, allocOk) => hide Breaks;
      case IrqGo(shared) =>
      case LinkGo =>
    }
  }

  /** TAP never yields an empty packet, and allocation may fail. */
  predicate GoodTap(e: Event) { e.HostGo? && e.tap != [] ==> e.tap[0] != [] }

  function Pending(p: Producer): Packet
    requires !p.Rest?
  {
    p.pkt
  }

  ghost predicate NoEmptyPacket(s: Net)
  {
    (forall p <- s.rx.lane.sent :: p != []) && (s.host.Produce? && !s.host.p.Rest? ==> Pending(s.host.p) != [])
  }

  lemma NoEmptyStep(s: Net, e: Event)
    requires NetInv(s) && NoEmptyPacket(s) && GoodTap(e)
    ensures NoEmptyPacket(Step(s, e))
  {
    hide RxSide, TxSide;
    if Rings(s) {
      match e
      case HostGo(tap) =>
        hide HostConsume;
        if s.host.Produce? {
          ProducerSends(s.rx.lane, s.host.p);
        }
      case XmitGo(skb) => hide XmitStep;
      case PollGo(budget, allocOk) => hide Breaks;
      case IrqGo(shared) =>
      case LinkGo =>
    }
  }

  lemma ProducerSends(l: Lane, p: Producer)
    requires IsRing(l.ring)
    ensures var (l', p') := ProducerStep(l, p);
      && (l'.sent == l.sent || (p.Head? && l'.sent == l.sent + [p.pkt]))
      && (!p'.Rest? ==> !p.Rest? && p'.pkt == p.pkt)
  {
  }

  /** With no empty packet in the ring, neither length test of poll can fail. */
  lemma NoBadLength(s: Net)
    requires NetInv(s) && NoEmptySent(s) && PollHolds(s.rx.poll)
    ensures Rings(s) && 0 < Front(s.rx.lane).len <= MAX_PACKET_SIZE
  {
    hide NonEmpty, Bytes;
    LaneShape(s.rx.lane);
    LaneShape(s.tx.lane);
    var pkt := Current(s.rx.lane);
    assert pkt in s.rx.lane.sent;
  }

  lemma {:induction false} NoEmptyHolds(s: Net, es: seq<Event>)
    requires Init(s) && forall e <- es :: GoodTap(e)
    ensures NoEmptyPacket(Run(s, es))
    decreases |es|
  {
    hide Step, NetInv, GoodTap;
    if es != [] {
      NetSafe(s, es[..|es| - 1]);
      NoEmptyHolds(s, es[..|es| - 1]);
      hide NoEmptyPacket, Init;
      NoEmptyStep(Run(s, es[..|es| - 1]), es[|es| - 1]);
    }
  }

  /** If every TAP read yields between 1 and MAX_PACKET_SIZE bytes, the bad-length break of poll is
      unreachable, even when allocation fails at times. */
  lemma BadLengthUnreachable(s: Net, es: seq<Event>)
    requires Init(s) && forall e <- es :: GoodTap(e)
    ensures var t := Run(s, es);
      Rings(t) && (PollHolds(t.rx.poll) ==> 0 < Front(t.rx.lane).len <= MAX_PACKET_SIZE)
  {
    NetSafe(s, es);
    NoEmptyHolds(s, es);
    hide Run, NonEmpty, Bytes;
    var t := Run(s, es);
    LaneShape(t.rx.lane);
    LaneShape(t.tx.lane);
    if PollHolds(t.rx.poll) {
      NoBadLength(t);
    }
  }

  /** If allocation succeeds and no empty packet has been enqueued, poll has not left its loop by a break. */
  lemma {:induction false} NeverGivesUp(u: Net, es: seq<Event>)
    requires NetInv(u) && !u.wake.gaveUp && AllocsSucceed(es) && NoEmptySent(Run(u, es))
    ensures !Run(u, es).wake.gaveUp
    decreases |es|
  {
    hide Step, NetInv;
    if es != [] {
      var es' := es[..|es| - 1];
      RunKeeps(u, es');
      SentStep(Run(u, es'), es[|es| - 1]);
      assert es[|es| - 1] in es && forall e <- es' :: e in es;
      PrefixMembers(Run(u, es').rx.lane.sent, Run(u, es).rx.lane.sent);
      NeverGivesUp(u, es');
      GivesUpStep(Run(u, es'), es[|es| - 1]);
    }
  }

  lemma PrefixMembers(a: seq<Packet>, b: seq<Packet>)
    requires a <= b
    ensures forall p <- a :: p in b
  {
    assert forall i :: 0 <= i < |a| ==> a[i] == b[i];
  }

  lemma GivesUpStep(s: Net, e: Event)
    requires NetInv(s) && NoEmptySent(s) && AllocOk(e) && !s.wake.gaveUp
    ensures !Step(s, e).wake.gaveUp
  {
    if PollHolds(s.rx.poll) {
      NoBadLength(s);
    }
    hide RxSide, TxSide, NoEmptySent, HostConsume, ProducerStep, XmitStep, Receive;
  }

  /** No lost wakeup: after an opening that finds the ring empty or a wakeup to come, and as long as allocation succeeds
      and no empty packet has been enqueued, whenever the rx ring is non-empty and the host is not between storing
      head and ringing, the bell is set, or the handler has yet to schedule, or poll is scheduled. */
  lemma NoLostWakeup(s: Net, before: seq<Event>, after: seq<Event>)
    requires Init(s) && Run(s, before).wake.link.Down? && OpensAwake(Run(s, before)) && NoLink(after)
    requires AllocsSucceed(after) && NoEmptySent(Since(s, before, after))
    ensures Awake(Since(s, before, after)) && WakeInv(Since(s, before, after)) && !Since(s, before, after).wake.gaveUp
  {
    hide Init, NetInv, LinkInv, Step;
    WakeSince(s, before, after);
    NetSafe(s, before);
    LinkHolds(s, before);
    OpensWell(Run(s, before));
    NeverGivesUp(Step(Run(s, before), LinkGo), after);
  }

  /** Only such an opening will do: every run from it on stays awake if and only if it found the ring empty, the host
      about to ring, or the interrupt due. */
  lemma OpeningDecides(s: Net, before: seq<Event>)
    requires Init(s) && Run(s, before).wake.link.Down? && NoEmptySent(Run(s, before))
    ensures OpensAwake(Run(s, before)) <==>
      forall after :: NoLink(after) && AllocsSucceed(after) && NoEmptySent(Since(s, before, after)) ==>
        Awake(Since(s, before, after))
  {
    hide Init, NetInv, LinkInv, Step, Awake, OpensAwake;
    if OpensAwake(Run(s, before)) {
      forall after | NoLink(after) && AllocsSucceed(after) && NoEmptySent(Since(s, before, after))
        ensures Awake(Since(s, before, after))
      {
        NoLostWakeup(s, before, after);
      }
    } else {
      NetSafe(s, before);
      LinkHolds(s, before);
      OpensWell(Run(s, before));
      assert Since(s, before, []) == Step(Run(s, before), LinkGo);
      assert NoLink([]) && AllocsSucceed([]);
    }
  }

  // ----- The handler -----

  function Repeat(s: Net, e: Event, n: nat): Net
  {
    if n == 0 then s else Step(Repeat(s, e, n - 1), e)
  }

  lemma {:induction false} RepeatFirst(s: Net, e: Event, n: nat)
    ensures Repeat(Step(s, e), e, n) == Repeat(s, e, n + 1)
  {
    hide Step;
    if n != 0 {
      RepeatFirst(s, e, n - 1);
    }
  }

  /** The handler, once due, schedules poll within five of its own steps, or leaves word if it was scheduled. */
  lemma HandlerSchedules(s: Net)
    requires Rings(s) && IrqDue(s.wake) && s.wake.link.Up?
    ensures var t := Repeat(s, IrqGo(false), 5);
      && t.rx == s.rx && t.tx == s.tx && t.host == s.host
      && (s.wake.irq.Masked? || s.wake.irq.ReadStatus? || s.wake.irq.ClearBit? ==> !t.wake.stopped && !t.wake.bell)
      && t.wake.link.Up? && t.wake.sched && (s.wake.sched ==> t.wake.missed)
  {
    IrqAlone(s, 5);
    HandlerPass(s.wake, 5);
    HandlerClears(s.wake);
  }

  /** A pass from its start answers the doorbell and lets the queue go on. */
  lemma HandlerClears(w: Wake)
    requires w.bell || !w.irq.Masked?
    ensures var w' := IrqTimes(w, 5);
      w.irq.Masked? || w.irq.ReadStatus? || w.irq.ClearBit? ==> !w'.stopped && !w'.bell
  {
    hide IrqTimes, IrqStep;
    FiveSteps(w);
    var w1 := IrqStep(w, false);
    var w2 := IrqStep(w1, false);
    var w3 := IrqStep(w2, false);
    var w4 := IrqStep(w3, false);
    StepClears(w);
    StepClears(w1);
    StepClears(w2);
    StepClears(w3);
    StepClears(w4);
  }

  /** Past the clearing of the bit and the waking of the queue. */
  predicate Cleared(w: Wake) { (w.irq.Schedule? || w.irq.Masked?) && !w.bell && !w.stopped }

  lemma StepClears(w: Wake)
    ensures var w' := IrqStep(w, false);
      && (w.irq.Masked? && w.bell ==> w'.irq.ReadStatus?) && (w.irq.ReadStatus? ==> w'.irq.ClearBit?)
      && (w.irq.ClearBit? ==> w'.irq.WakeQueue? && !w'.bell) && (w.irq.WakeQueue? && !w.bell ==> Cleared(w'))
      && (Cleared(w) ==> Cleared(w'))
  {
  }

  lemma FiveSteps(w: Wake)
    ensures IrqTimes(w, 5)
            == IrqStep(IrqStep(IrqStep(IrqStep(IrqStep(w, false), false), false), false), false)
  {
    hide IrqStep;
    var w1 := IrqStep(w, false);
    var w2 := IrqStep(w1, false);
    var w3 := IrqStep(w2, false);
    var w4 := IrqStep(w3, false);
    assert IrqTimes(w4, 1) == IrqStep(w4, false);
    assert IrqTimes(w3, 2) == IrqTimes(w4, 1);
    assert IrqTimes(w2, 3) == IrqTimes(w3, 2);
    assert IrqTimes(w1, 4) == IrqTimes(w2, 3);
  }

  /** Opening starts the queue and enables scheduling; stopping stops it and refuses scheduling from then on, and ends
      when no poll is scheduled. */
  lemma LinkExactly(s: Net)
    requires Rings(s)
    ensures var t := Step(s, LinkGo);
      && t.rx == s.rx && t.tx == s.tx && t.host == s.host && t.wake.irq == s.wake.irq && t.wake.bell == s.wake.bell
      && t.wake.sched == s.wake.sched && t.wake.missed == s.wake.missed
      && (s.wake.link.Down? ==> t.wake.link.Up? && !t.wake.stopped)
      && (s.wake.link.Up? ==> t.wake.link.Closing? && t.wake.stopped)
      && (s.wake.link.Closing? ==> (t.wake.link.Down? <==> s.rx.poll.Asleep? && !s.wake.sched))
    ensures s.wake.link.Closing? && s.wake.irq.Schedule? ==> Step(s, IrqGo(false)).wake.sched == s.wake.sched
  {
  }

  /** n steps of the handler. */
  function IrqTimes(w: Wake, n: nat): Wake
    decreases n
  {
    if n == 0 then w else IrqTimes(IrqStep(w, false), n - 1)
  }

  lemma {:induction false} IrqAlone(s: Net, n: nat)
    requires Rings(s)
    ensures Repeat(s, IrqGo(false), n) == s.(wake := IrqTimes(s.wake, n))
    decreases n
  {
    hide IrqStep;
    if n != 0 {
      RepeatFirst(s, IrqGo(false), n - 1);
      IrqAlone(Step(s, IrqGo(false)), n - 1);
    }
  }

  /** How many steps until the handler has scheduled. */
  function StepsLeft(irq: Irq): nat
  {
    match irq
    case Masked => 5
    case ReadStatus => 4
    case ClearBit => 3
    case WakeQueue => 2
    case Schedule => 1
  }

  lemma {:induction false} HandlerPass(w: Wake, n: nat)
    requires IrqDue(w) && w.link.Up? && StepsLeft(w.irq) <= n
    ensures var w' := IrqTimes(w, n); w'.link.Up? && w'.sched && (w.sched ==> w'.missed)
    decreases n
  {
    if w.irq.Schedule? {
      SchedStays(IrqStep(w, false), n - 1);
    } else {
      HandlerPass(IrqStep(w, false), n - 1);
    }
  }

  lemma {:induction false} SchedStays(w: Wake, n: nat)
    requires w.sched && w.link.Up?
    ensures IrqTimes(w, n).link.Up? && IrqTimes(w, n).sched && (w.missed ==> IrqTimes(w, n).missed)
    decreases n
  {
    if n != 0 {
      SchedStays(IrqStep(w, false), n - 1);
    }
  }
}
