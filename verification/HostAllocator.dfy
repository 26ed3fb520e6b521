/** Runs of the host's window allocator: maps and destructions in any order. */
module HostAllocator {
  import opened Wrappers
  import opened BitFields
  import opened HostTlb

  // ----- Runs -----

  /** The free stacks (top at the end), the registers, and the windows that exist. */
  datatype Host = Host(wc: seq<nat>, uc: seq<nat>, big: seq<nat>, regs: seq<u32>, live: seq<Tlb>)

  function Free(h: Host, p: Pool): seq<nat> { if p.WC? then h.wc else if p.UC? then h.uc else h.big }

  function SetFree(h: Host, p: Pool, s: seq<nat>): Host
  {
    if p.WC? then h.(wc := s) else if p.UC? then h.(uc := s) else h.(big := s)
  }

  function Iota(first: nat, n: nat): (s: seq<nat>)
    ensures |s| == n && forall i :: 0 <= i < n ==> s[i] == first + i
  {
    seq(n, i => first + i)
  }

  function Reversed(s: seq<nat>): (r: seq<nat>)
    ensures |r| == |s| && forall i :: 0 <= i < |s| ==> r[i] == s[|s| - 1 - i]
  {
    if s == [] then [] else [s[|s| - 1]] + Reversed(s[..|s| - 1])
  }

  function FreshHost(regs: seq<u32>): Host
  {
    Host(Reversed(Iota(First(WC), Capacity(WC))), Iota(First(UC), Capacity(UC)), Iota(First(Big), Capacity(Big)),
         regs, [])
  }

  function SetRegister(regs: seq<u32>, index: nat, words: seq<u32>): (r: seq<u32>)
    requires |regs| == 3 * NUM_REGISTERS && index < NUM_REGISTERS && |words| == 3
    ensures |r| == |regs| && RegisterAt(r, index) == words
    ensures forall j :: 0 <= j < NUM_REGISTERS && j != index ==> RegisterAt(r, j) == RegisterAt(regs, j)
  {
    regs[3 * index := words[0]][3 * index + 1 := words[1]][3 * index + 2 := words[2]]
  }

  datatype Event = Map(q: Request) | Destroy(k: nat)

  /** map_tlb_*: an empty stack throws. */
  function MapTlb(h: Host, q: Request): Host
    requires |h.regs| == 3 * NUM_REGISTERS && InPool(h)
  {
    var s := Free(h, q.pool);
    if s == [] then h
    else
      var index := s[|s| - 1];
      SetFree(h, q.pool, s[..|s| - 1])
      .(regs := SetRegister(h.regs, index, Words(q.pool, Values(q))), live := h.live + [Opened(q, index)])
  }

  /** Destroying the k-th window runs its release closure. */
  function DestroyTlb(h: Host, k: nat): Host
  {
    if k < |h.live| then
      var w := h.live[k];
      SetFree(h, w.request.pool, Free(h, w.request.pool) + [w.index]).(live := h.live[..k] + h.live[k + 1..])
    else h
  }

  predicate InPool(h: Host)
  {
    forall p: Pool, i :: 0 <= i < |Free(h, p)| ==> First(p) <= Free(h, p)[i] < First(p) + Capacity(p)
  }

  /** How often each index of the pool is held by a window. */
  function Held(live: seq<Tlb>, p: Pool): multiset<nat>
  {
    if live == [] then multiset{}
    else
      var w := live[|live| - 1];
      Held(live[..|live| - 1], p) + One(w, p)
  }

  function One(w: Tlb, p: Pool): multiset<nat> { if w.request.pool == p then multiset{w.index} else multiset{} }

  ghost predicate Whole(free: seq<nat>, live: seq<Tlb>, p: Pool)
  {
    multiset(free) + Held(live, p) == multiset(Iota(First(p), Capacity(p)))
  }

  /** Free and held indices together are the pool, each once; every window is as its request asked. */
  ghost predicate HostInv(h: Host)
  {
    && |h.regs| == 3 * NUM_REGISTERS
    && InPool(h)
    && (forall p: Pool :: Whole(Free(h, p), h.live, p))
    && (forall i :: 0 <= i < |h.live| ==> Good(h.regs, h.live[i]))
  }

  predicate Good(regs: seq<u32>, w: Tlb)
    requires |regs| == 3 * NUM_REGISTERS
  {
    && First(w.request.pool) <= w.index < First(w.request.pool) + Capacity(w.request.pool)
    && w == Opened(w.request, w.index)
    && RegisterAt(regs, w.index) == Words(w.request.pool, Values(w.request))
  }

  function Step(h: Host, e: Event): Host
    requires |h.regs| == 3 * NUM_REGISTERS && InPool(h)
  {
    match e
    case Map(q) => MapTlb(h, q)
    case Destroy(k) => DestroyTlb(h, k)
  }

  // ----- The invariant -----

  lemma {:induction false} ReversedSame(s: seq<nat>)
    ensures multiset(Reversed(s)) == multiset(s)
  {
    if s != [] {
      ReversedSame(s[..|s| - 1]);
      assert s == s[..|s| - 1] + [s[|s| - 1]];
    }
  }

  lemma FreshInv(regs: seq<u32>)
    requires |regs| == 3 * NUM_REGISTERS
    ensures HostInv(FreshHost(regs))
  {
    var h := FreshHost(regs);
    hide Reversed, Iota;
    ReversedSame(Iota(First(WC), Capacity(WC)));
    assert Held([], WC) == Held([], UC) == Held([], Big) == multiset{};
    assert Whole(h.wc, [], WC) && Whole(h.uc, [], UC) && Whole(h.big, [], Big);
  }

  lemma {:induction false} HeldRemove(live: seq<Tlb>, k: nat, p: Pool)
    requires k < |live|
    ensures Held(live, p) == Held(live[..k] + live[k + 1..], p) + One(live[k], p)
  {
    hide One;
    var n, w := |live| - 1, live[|live| - 1];
    if k == n {
      assert live[..k] + live[k + 1..] == live[..n];
    } else {
      HeldRemove(live[..n], k, p);
      assert live[..k] + live[k + 1..] == live[..n][..k] + live[..n][k + 1..] + [w];
      HeldAppend(live[..n][..k] + live[..n][k + 1..], w, p);
    }
  }

  lemma HeldAppend(live: seq<Tlb>, w: Tlb, p: Pool)
    ensures Held(live + [w], p) == Held(live, p) + One(w, p)
  {
    hide One;
    assert (live + [w])[..|live|] == live;
  }

  lemma HeldHas(live: seq<Tlb>, i: nat)
    requires i < |live|
    ensures live[i].index in Held(live, live[i].request.pool)
  {
    HeldRemove(live, i, live[i].request.pool);
  }

  lemma IotaOnce(first: nat, n: nat, v: nat)
    ensures multiset(Iota(first, n))[v] == if first <= v < first + n then 1 else 0
    decreases n
  {
    if n != 0 {
      IotaOnce(first, n - 1, v);
      assert Iota(first, n) == Iota(first, n - 1) + [first + n - 1];
    }
  }

  /** In a state of the invariant an index is free or held, once in all, if it belongs to the pool. */
  lemma FreeOrHeld(h: Host, p: Pool, v: nat)
    requires HostInv(h)
    ensures multiset(Free(h, p))[v] + Held(h.live, p)[v]
            == if First(p) <= v < First(p) + Capacity(p) then 1 else 0
  {
    IotaOnce(First(p), Capacity(p), v);
    assert Whole(Free(h, p), h.live, p);
    assert (multiset(Free(h, p)) + Held(h.live, p))[v] == multiset(Iota(First(p), Capacity(p)))[v];
  }

  /** Moving an index from a stack to a new window, or back, keeps the pool whole. */
  lemma PopKeeps(s: seq<nat>, live: seq<Tlb>, w: Tlb)
    requires s != [] && w.index == s[|s| - 1] && Whole(s, live, w.request.pool)
    ensures Whole(s[..|s| - 1], live + [w], w.request.pool)
  {
    hide Iota, Held;
    assert s == s[..|s| - 1] + [s[|s| - 1]];
    HeldAppend(live, w, w.request.pool);
  }

  lemma PushKeeps(s: seq<nat>, live: seq<Tlb>, k: nat)
    requires k < |live| && Whole(s, live, live[k].request.pool)
    ensures Whole(s + [live[k].index], live[..k] + live[k + 1..], live[k].request.pool)
  {
    hide Iota, Held;
    HeldRemove(live, k, live[k].request.pool);
  }

  /** The index on top of a stack belongs to no window. */
  lemma TopUnused(h: Host, p: Pool, i: nat)
    requires HostInv(h) && Free(h, p) != [] && i < |h.live|
    ensures h.live[i].index != Free(h, p)[|Free(h, p)| - 1]
  {
    var q, v := h.live[i].request.pool, h.live[i].index;
    assert Good(h.regs, h.live[i]);
    HeldHas(h.live, i);
    FreeOrHeld(h, p, v);
  }

  lemma MapKeepsWhole(h: Host, q: Request, p: Pool)
    requires HostInv(h)
    ensures Whole(Free(MapTlb(h, q), p), MapTlb(h, q).live, p)
  {
    hide Words, RegisterAt, SetRegister, Whole, Held, Iota, Good;
    assert Whole(Free(h, p), h.live, p);
    var s := Free(h, q.pool);
    if s != [] {
      if p == q.pool {
        PopKeeps(s, h.live, Opened(q, s[|s| - 1]));
      } else {
        OtherPool(Free(h, p), h.live, Opened(q, s[|s| - 1]), p);
      }
    }
  }

  lemma MapKeepsGood(h: Host, q: Request, i: nat)
    requires HostInv(h) && i < |MapTlb(h, q).live|
    ensures Good(MapTlb(h, q).regs, MapTlb(h, q).live[i])
  {
    hide Words, RegisterAt, Whole, Held, Iota;
    if i < |h.live| {
      assert Good(h.regs, h.live[i]);
      if Free(h, q.pool) != [] {
        TopUnused(h, q.pool, i);
      }
    }
  }

  lemma MapKeepsPools(h: Host, q: Request)
    requires HostInv(h)
    ensures InPool(MapTlb(h, q)) && |MapTlb(h, q).regs| == 3 * NUM_REGISTERS
  {
    hide Words, RegisterAt, Whole, Held, Iota, Good;
    var t := MapTlb(h, q);
    forall p: Pool, i | 0 <= i < |Free(t, p)|
      ensures First(p) <= Free(t, p)[i] < First(p) + Capacity(p)
    {
      assert Free(t, p)[i] == Free(h, p)[i];
    }
  }

  lemma MapKeeps(h: Host, q: Request)
    requires HostInv(h)
    ensures HostInv(MapTlb(h, q))
  {
    hide Words, Whole, Held, Iota, Good, MapTlb, InPool;
    var t := MapTlb(h, q);
    MapKeepsPools(h, q);
    forall p: Pool
      ensures Whole(Free(t, p), t.live, p)
    {
      MapKeepsWhole(h, q, p);
    }
    forall i | 0 <= i < |t.live|
      ensures Good(t.regs, t.live[i])
    {
      MapKeepsGood(h, q, i);
    }
  }

  lemma OtherPool(s: seq<nat>, live: seq<Tlb>, w: Tlb, p: Pool)
    requires p != w.request.pool
    ensures Whole(s, live + [w], p) <==> Whole(s, live, p)
  {
    hide Iota, Held;
    HeldAppend(live, w, p);
  }

  lemma DestroyKeepsWhole(h: Host, k: nat, p: Pool)
    requires HostInv(h)
    ensures Whole(Free(DestroyTlb(h, k), p), DestroyTlb(h, k).live, p)
  {
    hide Words, RegisterAt, Whole, Held, Iota, Good;
    assert Whole(Free(h, p), h.live, p);
    if k < |h.live| {
      if p == h.live[k].request.pool {
        PushKeeps(Free(h, p), h.live, k);
      } else {
        OtherPoolRemove(Free(h, p), h.live, k, p);
      }
    }
  }

  lemma DestroyKeepsPools(h: Host, k: nat)
    requires HostInv(h)
    ensures InPool(DestroyTlb(h, k))
  {
    hide Words, RegisterAt, Whole, Held, Iota;
    var t := DestroyTlb(h, k);
    if k < |h.live| {
      assert Good(h.regs, h.live[k]);
      forall p: Pool, i | 0 <= i < |Free(t, p)|
        ensures First(p) <= Free(t, p)[i] < First(p) + Capacity(p)
      {
        if i < |Free(h, p)| {
          assert Free(t, p)[i] == Free(h, p)[i];
        }
      }
    }
  }

  lemma DestroyKeeps(h: Host, k: nat)
    requires HostInv(h)
    ensures HostInv(DestroyTlb(h, k))
  {
    hide Words, RegisterAt, Whole, Held, Iota, Good, InPool;
    var t := DestroyTlb(h, k);
    DestroyKeepsPools(h, k);
    forall p: Pool
      ensures Whole(Free(t, p), t.live, p)
    {
      DestroyKeepsWhole(h, k, p);
    }
    if k < |h.live| {
      forall i | 0 <= i < |t.live|
        ensures Good(t.regs, t.live[i])
      {
        assert t.live[i] == if i < k then h.live[i] else h.live[i + 1];
      }
    }
  }

  lemma OtherPoolRemove(s: seq<nat>, live: seq<Tlb>, k: nat, p: Pool)
    requires k < |live| && p != live[k].request.pool
    ensures Whole(s, live[..k] + live[k + 1..], p) <==> Whole(s, live, p)
  {
    hide Iota, Held;
    HeldRemove(live, k, p);
  }

  /** The allocator after any sequence of maps and destructions. */
  function Run(found: seq<u32>, events: seq<Event>): (h: Host)
    requires |found| == 3 * NUM_REGISTERS
    ensures HostInv(h)
  {
    if events == [] then FreshInv(found); FreshHost(found)
    else
      var h := Run(found, events[..|events| - 1]);
      var e := events[|events| - 1];
      StepKeeps(h, e);
      Step(h, e)
  }

  lemma StepKeeps(h: Host, e: Event)
    requires HostInv(h)
    ensures HostInv(Step(h, e))
  {
    match e
    case Map(q) => MapKeeps(h, q);
    case Destroy(k) => DestroyKeeps(h, k);
  }

  // ----- What holds in every run -----

  /** Free and live indices partition 0..200 and 202..209: no index is in two places, none is lost. */
  lemma Partition(found: seq<u32>, events: seq<Event>, p: Pool, v: nat)
    requires |found| == 3 * NUM_REGISTERS
    ensures var h := Run(found, events);
            multiset(Free(h, p))[v] + Held(h.live, p)[v]
            == if First(p) <= v < First(p) + Capacity(p) then 1 else 0
  {
    FreeOrHeld(Run(found, events), p, v);
  }

  /** Two live windows never share an index, and none has the kernel's. */
  lemma LiveDistinct(found: seq<u32>, events: seq<Event>, i: nat, j: nat)
    requires |found| == 3 * NUM_REGISTERS
    requires var h := Run(found, events); i < j < |h.live|
    ensures var live := Run(found, events).live;
            live[i].index != live[j].index && live[i].index != KERNEL_WINDOW && live[j].index != KERNEL_WINDOW
  {
    var h := Run(found, events);
    var p, v := h.live[i].request.pool, h.live[i].index;
    assert Good(h.regs, h.live[i]) && Good(h.regs, h.live[j]);
    if h.live[j].index == v {
      HeldRemove(h.live, j, p);
      HeldHas(h.live[..j] + h.live[j + 1..], i);
      FreeOrHeld(h, p, v);
    }
  }

  /** Live windows occupy disjoint ranges of their BAR, inside it and below the configuration registers. */
  lemma RangesDisjoint(found: seq<u32>, events: seq<Event>, i: nat, j: nat)
    requires |found| == 3 * NUM_REGISTERS
    requires i < j < |Run(found, events).live|
    ensures var a, b := Run(found, events).live[i], Run(found, events).live[j];
            && (a.request.pool.Big? == b.request.pool.Big? ==> a.base + a.size <= b.base || b.base + b.size <= a.base)
            && a.base + a.size <= (if a.request.pool.Big? then BAR4_SIZE else REGISTERS_START)
            && b.base + b.size <= (if b.request.pool.Big? then BAR4_SIZE else REGISTERS_START)
            && REGISTERS_START + 12 * NUM_REGISTERS <= BAR0_SIZE
  {
    var h := Run(found, events);
    LiveDistinct(found, events, i, j);
    assert Good(h.regs, h.live[i]) && Good(h.regs, h.live[j]);
  }

  /** Whatever was mapped and destroyed before or since, each offset of a live window reaches the requested tile
      at the requested address plus the offset. */
  lemma WindowsTranslate(found: seq<u32>, events: seq<Event>, i: nat, a: nat)
    requires |found| == 3 * NUM_REGISTERS
    requires i < |Run(found, events).live| && a < Run(found, events).live[i].size
    ensures var h := Run(found, events);
            var w := h.live[i];
            && w.request.address + a < TWO64
            && w.base + a < (if w.request.pool.Big? then BAR4_SIZE else REGISTERS_START)
            && Reaches(h.regs, w.request.pool.Big?, w.base + a)
               == Some(Target(w.request.x % 64, w.request.y % 64, w.request.address + a))
  {
    hide Reaches, Words, Run, Held, Iota, RegisterAt;
    var h := Run(found, events);
    var w := h.live[i];
    assert Good(h.regs, w);
    WindowReaches(h.regs, w.request, w.index, a);
  }

  /** In every run a live window extends from the requested address to the end of its page, and its register holds the
      requested page and tile and zero in every other field. */
  lemma WindowExtent(found: seq<u32>, events: seq<Event>, i: nat)
    requires |found| == 3 * NUM_REGISTERS && i < |Run(found, events).live|
    ensures var h := Run(found, events);
            var w := h.live[i];
            var q := w.request;
            && (if q.pool.Big? then
                  && 202 <= w.index <= 209 && w.size == 0x1_0000_0000 - q.address % 0x1_0000_0000
                  && w.base == 0x1_0000_0000 * (w.index - 202) + q.address % 0x1_0000_0000
                else
                  && w.index <= 200 && (q.pool.WC? <==> w.index < 188)
                  && w.size == 0x20_0000 - q.address % 0x20_0000
                  && w.base == 0x20_0000 * w.index + q.address % 0x20_0000)
            && Fields(q.pool, RegisterAt(h.regs, w.index))
               == [if q.pool.Big? then q.address / 0x1_0000_0000 else q.address / 0x20_0000, q.x % 64, q.y % 64,
                   0, 0, 0, 0, 0, 0, 0, 0, 0, 0]
  {
    hide Run, Held, Iota, Words, Fields, RegisterAt, Values;
    var h := Run(found, events);
    assert Good(h.regs, h.live[i]);
    RequestFields(h.live[i].request);
  }

  /** The register of the window kept for the kernel is never written. */
  lemma {:induction false} KernelWindowUntouched(found: seq<u32>, events: seq<Event>)
    requires |found| == 3 * NUM_REGISTERS
    ensures RegisterAt(Run(found, events).regs, KERNEL_WINDOW) == RegisterAt(found, KERNEL_WINDOW)
  {
    hide Step, HostInv, RegisterAt, FreshHost;
    if events == [] {
      assert FreshHost(found).regs == found by { FreshRegs(found); }
    } else {
      KernelWindowUntouched(found, events[..|events| - 1]);
      StepSparesKernel(Run(found, events[..|events| - 1]), events[|events| - 1]);
    }
  }

  lemma FreshRegs(found: seq<u32>)
    ensures FreshHost(found).regs == found
  {
  }

  lemma StepSparesKernel(h: Host, e: Event)
    requires HostInv(h)
    ensures |Step(h, e).regs| == 3 * NUM_REGISTERS
    ensures RegisterAt(Step(h, e).regs, KERNEL_WINDOW) == RegisterAt(h.regs, KERNEL_WINDOW)
  {
    hide Whole, Good, RegisterAt, Words;
    if e.Map? && Free(h, e.q.pool) != [] {
      MapTakesTop(h, e.q);
    }
  }

  /** A map fails exactly when the pool's windows are all in use. */
  lemma ThrowsWhenExhausted(found: seq<u32>, events: seq<Event>, p: Pool)
    requires |found| == 3 * NUM_REGISTERS
    ensures var h := Run(found, events);
            |Free(h, p)| + |Held(h.live, p)| == Capacity(p) && (Free(h, p) == [] <==> |Held(h.live, p)| == Capacity(p))
  {
    var h := Run(found, events);
    assert Whole(Free(h, p), h.live, p);
    assert |multiset(Free(h, p)) + Held(h.live, p)| == |multiset(Iota(First(p), Capacity(p)))|;
  }

  /** Destroying a window just mapped restores the free lists and the set of windows; mapping again in that pool
      after any destruction reuses the index destroyed last. */
  lemma DestroyUndoesMap(h: Host, q: Request)
    requires HostInv(h) && Free(h, q.pool) != []
    ensures DestroyTlb(MapTlb(h, q), |h.live|) == h.(regs := MapTlb(h, q).regs)
  {
    hide Words, SetRegister, Whole, Good;
    MapTakesTop(h, q);
    var s, t := Free(h, q.pool), MapTlb(h, q);
    assert s == s[..|s| - 1] + [s[|s| - 1]];
    assert t.live[..|h.live|] + t.live[|h.live| + 1..] == h.live;
  }

  lemma ReusesLast(h: Host, k: nat, q: Request)
    requires HostInv(h) && k < |h.live| && q.pool == h.live[k].request.pool
    ensures InPool(DestroyTlb(h, k))
    ensures var t := MapTlb(DestroyTlb(h, k), q);
            && t.live == h.live[..k] + h.live[k + 1..] + [Opened(q, h.live[k].index)]
            && Free(t, q.pool) == Free(h, q.pool)
  {
    DestroyKeeps(h, k);
    var s := Free(h, q.pool);
    assert (s + [h.live[k].index])[..|s|] == s;
  }

  /** The n-th window mapped from a pool of a fresh device: WC indices ascend, the others descend. */
  function Nth(p: Pool, n: nat): (index: nat)
    requires n < Capacity(p)
    ensures First(p) <= index < First(p) + Capacity(p)
  {
    if p.WC? then n else First(p) + Capacity(p) - 1 - n
  }

  lemma {:induction false} FreshOrder(found: seq<u32>, p: Pool, events: seq<Event>)
    requires |found| == 3 * NUM_REGISTERS && |events| <= Capacity(p)
    requires forall i :: 0 <= i < |events| ==> events[i].Map? && events[i].q.pool == p
    ensures var h := Run(found, events);
            && |h.live| == |events|
            && (forall i :: 0 <= i < |events| ==> h.live[i] == Opened(events[i].q, Nth(p, i)))
            && Free(h, p) == Free(FreshHost(found), p)[..Capacity(p) - |events|]
  {
    hide HostInv, InPool, MapTlb, FreshHost, Free, Opened, Nth, First;
    var n := |events|;
    FreshFree(found, p);
    if n == 0 {
      assert Free(FreshHost(found), p)[..Capacity(p)] == Free(FreshHost(found), p);
    } else {
      var h := Run(found, events[..n - 1]);
      FreshOrder(found, p, events[..n - 1]);
      MapTakesTop(h, events[n - 1].q);
      var s := Free(FreshHost(found), p);
      assert s[..Capacity(p) - (n - 1)][..Capacity(p) - n] == s[..Capacity(p) - n];
    }
  }

  lemma FreshFree(found: seq<u32>, p: Pool)
    ensures FreshHost(found).live == [] && |Free(FreshHost(found), p)| == Capacity(p)
    ensures forall i :: 0 <= i < Capacity(p) ==> Free(FreshHost(found), p)[i] == Nth(p, Capacity(p) - 1 - i)
  {
  }

  lemma MapTakesTop(h: Host, q: Request)
    requires HostInv(h) && Free(h, q.pool) != []
    ensures var s := Free(h, q.pool);
            && First(q.pool) <= s[|s| - 1]
            && MapTlb(h, q).live == h.live + [Opened(q, s[|s| - 1])]
            && Free(MapTlb(h, q), q.pool) == s[..|s| - 1]
  {
    hide Words, Held, Whole, Iota;
  }
}
