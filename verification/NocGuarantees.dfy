/** What the NOC driver promises in every state that a run can reach. */
module NocGuarantees {
  import opened BitFields
  import opened NocRegisters
  import opened NocDriver
  import opened NocSystem

  // ----- Restoration -----

  /** Since the probe that found regs0: reserved windows are untouched, and every window that is not
      allocated shows what it showed then, up to the reserved0 bits of a 128G register. */
  ghost predicate Kept(regs0: RegFile, dev: Dev)
  {
    && dev.reserved == Scan(regs0)
    && (forall w: Window :: IsWindow(w) && w in dev.reserved ==> RegAt(dev.regs, w) == RegAt(regs0, w))
    && (forall w: Window :: IsWindow(w) && w !in dev.taken ==> SameWords(w.kind, RegAt(regs0, w), RegAt(dev.regs, w)))
  }

  lemma {:induction false} KeptAlways(regs: RegFile, remapFails: bool, dev: Dev, es: seq<Event>)
    requires Probe(regs, remapFails) == Ok(dev)
    ensures Kept(regs, Run(Boot(dev), es).dev)
    decreases |es|
  {
    if es == [] {
      forall w: Window | IsWindow(w)
        ensures SameWords(w.kind, RegAt(regs, w), RegAt(regs, w))
      {
      }
    } else {
      var es' := es[..|es| - 1];
      KeptAlways(regs, remapFails, dev, es');
      InvariantHolds(regs, remapFails, dev, es');
      KeptStep(regs, Run(Boot(dev), es'), es[|es| - 1]);
    }
  }

  lemma KeptStep(regs0: RegFile, s: Sys, e: Event)
    requires Inv(s) && Kept(regs0, s.dev)
    ensures Kept(regs0, Step(s, e).dev)
  {
    hide Kept, DecodeOffset, Deallocate, DeallocateSet, Encode, SetReg, Balanced, FreeIdle;
    if Enabled(s, e) {
      match e
      case AllocCall(f, k, fault) =>
        var id := FirstZero(k, s.dev.reserved + s.dev.taken, 0);
        if id < Count(k) {
          KeptGrant(regs0, s.dev, Window(k, id));
          if fault {
            KeptReturn(regs0, s.dev.(taken := s.dev.taken + {Window(k, id)}), Window(k, id));
          }
        }
      case ConfigCall(f, k, c, fault, stray) =>
        if c.windowId < Count(k) && Window(k, c.windowId) in s.files[f].fd.owned {
          OwnersFacts(s, f, Window(k, c.windowId));
          KeptWrite(regs0, s.dev, Window(k, c.windowId), Encode(k, c));
        }
      case DeallocCall(f, k, id, fault) =>
        if id < Count(k) && Window(k, id) in s.files[f].fd.owned {
          OwnersFacts(s, f, Window(k, id));
          KeptReturn(regs0, s.dev, Window(k, id));
        }
      case Release(f) =>
        forall w <- s.files[f].fd.owned
          ensures w in s.dev.taken && w !in s.dev.reserved
        {
          OwnersFacts(s, f, w);
        }
        KeptReturnAll(regs0, s.dev, s.files[f].fd.owned);
      case Telemetry(addr) =>
        KeptWrite(regs0, s.dev, DriverWindow(s.dev), Encode(W2M, TelemetryConfig(s.dev.driver, addr)));
      case _ =>
    }
  }

  lemma KeptGrant(regs0: RegFile, dev: Dev, w: Window)
    requires Kept(regs0, dev)
    ensures Kept(regs0, dev.(taken := dev.taken + {w}))
  {
    hide SameWords, RegAt;
  }

  lemma KeptWrite(regs0: RegFile, dev: Dev, w: Window, ws: seq<u32>)
    requires Kept(regs0, dev) && IsWindow(w) && w in dev.taken && w !in dev.reserved && |ws| == RegWords(w.kind)
    ensures Kept(regs0, dev.(regs := SetReg(dev.regs, w, ws)))
  {
    hide SetReg, RegAt, SameWords, Scan;
    forall v: Window | IsWindow(v)
      ensures v != w ==> RegAt(SetReg(dev.regs, w, ws), v) == RegAt(dev.regs, v)
    {
      SetRegAt(dev.regs, w, ws, v);
    }
  }

  lemma KeptReturn(regs0: RegFile, dev: Dev, w: Window)
    requires Kept(regs0, dev) && IsWindow(w) && w in dev.taken && w !in dev.reserved
    ensures Kept(regs0, Deallocate(dev, w))
  {
    var d := Deallocate(dev, w);
    assert d.reserved == dev.reserved;
    hide RegAt, IdentityWords, SameWords, Deallocate, Scan, IsConfigured;
    forall v: Window | IsWindow(v)
      ensures v in d.taken <==> v in dev.taken && v !in {w}
      ensures RegAt(d.regs, v) == if v in {w} then IdentityWords(v) else RegAt(dev.regs, v)
    {
      DeallocateExact(dev, w, v);
    }
    KeptIdentity(regs0, dev, d, {w});
  }

  lemma KeptReturnAll(regs0: RegFile, dev: Dev, ws: set<Window>)
    requires Kept(regs0, dev) && forall w <- ws :: w in dev.taken && w !in dev.reserved
    ensures Kept(regs0, DeallocateSet(dev, ws))
  {
    hide RegAt, IdentityWords, SameWords, DeallocateSet, Scan, IsConfigured;
    var d := DeallocateSet(dev, ws);
    DeallocateSetExact(dev, ws, Window(W2M, 0));
    forall v: Window | IsWindow(v)
      ensures v in d.taken <==> v in dev.taken && v !in ws
      ensures RegAt(d.regs, v) == if v in ws then IdentityWords(v) else RegAt(dev.regs, v)
    {
      DeallocateSetExact(dev, ws, v);
    }
    KeptIdentity(regs0, dev, d, ws);
  }

  lemma KeptIdentity(regs0: RegFile, dev: Dev, d: Dev, ws: set<Window>)
    requires Kept(regs0, dev) && d.reserved == dev.reserved && forall w <- ws :: w !in dev.reserved
    requires forall v: Window :: IsWindow(v) ==>
      && (v in d.taken <==> v in dev.taken && v !in ws)
      && RegAt(d.regs, v) == if v in ws then IdentityWords(v) else RegAt(dev.regs, v)
    ensures Kept(regs0, d)
  {
    hide RegAt, IdentityWords, SameWords, Scan, IsConfigured;
    forall v: Window | IsWindow(v) && v !in d.taken
      ensures SameWords(v.kind, RegAt(regs0, v), RegAt(d.regs, v))
    {
      if v in ws {
        ScanExact(regs0, v);
        UnconfiguredExact(regs0, v);
      }
    }
  }

  /** Probe, any run, then remove: every reserved window and every 2M window shows word for word what the
      probe found; a 128G window may differ in the unchecked reserved0 bits only; and probing again would
      find exactly the same windows reserved. */
  lemma RemoveRestores(regs: RegFile, remapFails: bool, dev: Dev, es: seq<Event>, w: Window)
    requires Probe(regs, remapFails) == Ok(dev) && IsWindow(w)
    ensures var s := Run(Boot(dev), es);
      var final := DeallocateSet(s.dev, s.dev.taken);
      && w !in final.taken
      && SameWords(w.kind, RegAt(regs, w), RegAt(final.regs, w))
      && (w in dev.reserved ==> RegAt(final.regs, w) == RegAt(regs, w))
      && (w in Scan(final.regs) <==> w in dev.reserved)
  {
    var s := Run(Boot(dev), es);
    InvariantHolds(regs, remapFails, dev, es);
    KeptAlways(regs, remapFails, dev, es);
    hide Run, DeallocateSet, RegAt, Encode;
    var final := DeallocateSet(s.dev, s.dev.taken);
    KeptReturnAll(regs, s.dev, s.dev.taken);
    DeallocateSetExact(s.dev, s.dev.taken, w);
    ScanExact(regs, w);
    ScanExact(final.regs, w);
    UnconfiguredExact(regs, w);
    UnconfiguredExact(final.regs, w);
  }

  // ----- Free windows -----

  function Ids(k: Kind, ws: set<Window>): set<nat> { set id | 0 <= id < Count(k) && Window(k, id) in ws }

  function FreeIds(dev: Dev, k: Kind): set<nat>
  {
    set id | 0 <= id < Count(k) && Window(k, id) !in dev.reserved + dev.taken
  }

  function Below(n: nat): (r: set<nat>)
    ensures |r| == n && forall i: nat :: i in r <==> i < n
  {
    if n == 0 then {} else Below(n - 1) + {n - 1}
  }

  /** Free, allocated and reserved windows of a kind always add up to all of them: the three numbers that
      the statistics file shows. */
  lemma WindowsAddUp(regs: RegFile, remapFails: bool, dev: Dev, es: seq<Event>, k: Kind)
    requires Probe(regs, remapFails) == Ok(dev)
    ensures var d := Run(Boot(dev), es).dev;
      |FreeIds(d, k)| == Count(k) - |Ids(k, d.taken)| - |Ids(k, d.reserved)|
  {
    InvariantHolds(regs, remapFails, dev, es);
    var d := Run(Boot(dev), es).dev;
    IdsAddUp(d, k);
  }

  lemma IdsAddUp(d: Dev, k: Kind)
    requires d.reserved !! d.taken
    ensures |FreeIds(d, k)| == Count(k) - |Ids(k, d.taken)| - |Ids(k, d.reserved)|
  {
    assert Ids(k, d.taken) !! Ids(k, d.reserved);
    assert FreeIds(d, k) !! (Ids(k, d.taken) + Ids(k, d.reserved));
    assert Below(Count(k)) == FreeIds(d, k) + (Ids(k, d.taken) + Ids(k, d.reserved));
  }

  /** n allocations of a kind in a row by one file. */
  function AllocMany(dev: Dev, fd: Fd, k: Kind, n: nat): (r: (Dev, Fd, seq<Result<Handle>>))
    ensures |r.2| == n
    decreases n
  {
    if n == 0 then (dev, fd, [])
    else
      var (dev1, fd1, r) := Alloc(dev, fd, k, false);
      var (dev2, fd2, rs) := AllocMany(dev1, fd1, k, n - 1);
      (dev2, fd2, [r] + rs)
  }

  /** The i-th call succeeds exactly while free ids remain, and then hands out a free id. */
  ghost predicate ExactlyTheFree(rs: seq<Result<Handle>>, free: set<nat>)
  {
    forall i :: 0 <= i < |rs| ==>
      if i < |free| then rs[i].Ok? && rs[i].value.windowId in free else rs[i] == Err(ENOSPC)
  }

  /** Every free id below one that is handed out was handed out before it. */
  ghost predicate LowestFirst(rs: seq<Result<Handle>>, free: set<nat>)
  {
    forall i, id :: 0 <= i < |rs| && rs[i].Ok? && id in free && id < rs[i].value.windowId ==> GivenBefore(rs, i, id)
  }

  ghost predicate GivenBefore(rs: seq<Result<Handle>>, i: nat, id: nat)
    requires i <= |rs|
  {
    exists j :: 0 <= j < i && rs[j].Ok? && rs[j].value.windowId == id
  }

  /** With m windows of a kind free, exactly the next m allocations succeed, lowest free id first. */
  lemma {:induction false} AllocatesLowestFirst(dev: Dev, fd: Fd, k: Kind, n: nat)
    ensures var rs := AllocMany(dev, fd, k, n).2;
      ExactlyTheFree(rs, FreeIds(dev, k)) && LowestFirst(rs, FreeIds(dev, k))
    decreases n
  {
    hide Alloc, FreeIds, ExactlyTheFree, LowestFirst;
    if n == 0 {
      GivenNothing(FreeIds(dev, k));
    } else {
      var (dev1, fd1, r) := Alloc(dev, fd, k, false);
      var rs := AllocMany(dev1, fd1, k, n - 1).2;
      AllocatesLowestFirst(dev1, fd1, k, n - 1);
      AllocTakesLeast(dev, fd, k);
      assert AllocMany(dev, fd, k, n).2 == [r] + rs;
      if r.Ok? {
        GivenFirst(r, rs, FreeIds(dev, k));
      } else {
        GivenNone(rs, FreeIds(dev, k));
      }
    }
  }

  lemma GivenNothing(free: set<nat>)
    ensures ExactlyTheFree([], free) && LowestFirst([], free)
  {
  }

  lemma AllocTakesLeast(dev: Dev, fd: Fd, k: Kind)
    ensures var (dev1, _, r) := Alloc(dev, fd, k, false);
      match r
      case Ok(h) =>
        && h.windowId in FreeIds(dev, k) && (forall id <- FreeIds(dev, k) :: h.windowId <= id)
        && FreeIds(dev1, k) == FreeIds(dev, k) - {h.windowId}
      case Err(e) => e == ENOSPC && dev1 == dev && FreeIds(dev, k) == {}
  {
    FirstIsLeast(dev, k);
  }

  lemma GivenNone(rs: seq<Result<Handle>>, free: set<nat>)
    requires free == {} && ExactlyTheFree(rs, free)
    ensures ExactlyTheFree([Err(ENOSPC)] + rs, free) && LowestFirst([Err(ENOSPC)] + rs, free)
  {
  }

  lemma GivenFirst(r: Result<Handle>, rs: seq<Result<Handle>>, free: set<nat>)
    requires r.Ok? && r.value.windowId in free && forall id <- free :: r.value.windowId <= id
    requires ExactlyTheFree(rs, free - {r.value.windowId}) && LowestFirst(rs, free - {r.value.windowId})
    ensures ExactlyTheFree([r] + rs, free) && LowestFirst([r] + rs, free)
  {
    var all := [r] + rs;
    forall i, id | 0 <= i < |all| && all[i].Ok? && id in free && id < all[i].value.windowId
      ensures GivenBefore(all, i, id)
    {
      if id == r.value.windowId {
        assert all[0].value.windowId == id;
      } else {
        assert GivenBefore(rs, i - 1, id);
        var j :| 0 <= j < i - 1 && rs[j].Ok? && rs[j].value.windowId == id;
        assert all[j + 1] == rs[j];
      }
    }
  }

  lemma FirstIsLeast(dev: Dev, k: Kind)
    ensures var id := FirstZero(k, dev.reserved + dev.taken, 0);
      && (id == Count(k) ==> FreeIds(dev, k) == {})
      && (id < Count(k) ==> id in FreeIds(dev, k))
      && forall j <- FreeIds(dev, k) :: id <= j
  {
    var id := FirstZero(k, dev.reserved + dev.taken, 0);
    forall j <- FreeIds(dev, k)
      ensures id <= j
    {
      assert j < id ==> Window(k, j) in dev.reserved + dev.taken;
    }
  }

  /** One file asks n times for a window. */
  function AskMany(k: Kind, n: nat): (es: seq<Event>)
    ensures |es| == n + 1
  {
    if n == 0 then [Open(0)] else AskMany(k, n - 1) + [AllocCall(0, k, false)]
  }

  /** Of the ids free at the start, each is the first file's or still free, and every answered call took one. */
  ghost predicate TakenOrFree(free: set<nat>, s: Sys, k: Kind, n: nat)
  {
    && 0 in s.files
    && (forall id <- free :: Window(k, id) in s.files[0].fd.owned || id in FreeIds(s.dev, k))
    && (|FreeIds(s.dev, k)| + n <= |free| || FreeIds(s.dev, k) == {})
  }

  lemma {:induction false} Asked(dev: Dev, k: Kind, n: nat)
    ensures TakenOrFree(FreeIds(dev, k), Run(Boot(dev), AskMany(k, n)), k, n)
  {
    hide FreeIds, Step, TakenOrFree;
    var es := AskMany(k, n);
    if n == 0 {
      assert es[..0] == [] && Run(Boot(dev), es[..0]) == Boot(dev);
      OpensFirst(dev);
      OpensWithAll(dev, k);
    } else {
      Asked(dev, k, n - 1);
      assert es[..n] == AskMany(k, n - 1);
      AskStep(FreeIds(dev, k), Run(Boot(dev), es[..n]), k, n - 1);
    }
  }

  lemma OpensWithAll(dev: Dev, k: Kind)
    ensures TakenOrFree(FreeIds(dev, k), Step(Boot(dev), Open(0)), k, 0)
  {
    hide FreeIds;
  }

  lemma OpensFirst(dev: Dev)
    ensures Step(Boot(dev), Open(0)) == Sys(dev, map[0 := File(Fd({}, map[]), map[])], map[])
  {
  }

  lemma AskStep(free: set<nat>, s: Sys, k: Kind, n: nat)
    requires TakenOrFree(free, s, k, n)
    ensures TakenOrFree(free, Step(s, AllocCall(0, k, false)), k, n + 1)
  {
    hide Alloc, FreeIds;
    AllocTakesLeast(s.dev, s.files[0].fd, k);
    AllocOwns(s.dev, s.files[0].fd, k);
  }

  lemma AllocOwns(dev: Dev, fd: Fd, k: Kind)
    ensures var (_, fd1, r) := Alloc(dev, fd, k, false);
      fd1.owned == if r.Ok? then fd.owned + {Window(k, r.value.windowId)} else fd.owned
  {
    hide Deallocate, WindowAddr;
  }

  /** Whatever is free after a probe can be had: some run hands it out. */
  lemma FreeIsHandedOut(dev: Dev, k: Kind, id: nat)
    requires id in FreeIds(dev, k)
    ensures exists es, f :: f in Run(Boot(dev), es).files && Window(k, id) in Run(Boot(dev), es).files[f].fd.owned
  {
    hide Run, FreeIds;
    var n := |FreeIds(dev, k)| + 1;
    Asked(dev, k, n);
    assert 0 in Run(Boot(dev), AskMany(k, n)).files;
  }

  /** A window that the probe finds configured is out of reach of every run: nobody gets it and its register
      stays as it was. */
  lemma ReservedProtected(regs: RegFile, remapFails: bool, dev: Dev, es: seq<Event>, w: Window)
    requires Probe(regs, remapFails) == Ok(dev) && IsWindow(w) && IsConfigured(regs, w)
    ensures var s := Run(Boot(dev), es);
      && w in s.dev.reserved && w !in s.dev.taken && RegAt(s.dev.regs, w) == RegAt(regs, w)
      && forall f <- s.files :: w !in s.files[f].fd.owned
  {
    hide Run, RegAt, IsConfigured;
    ScanExact(regs, w);
    InvariantHolds(regs, remapFails, dev, es);
    KeptAlways(regs, remapFails, dev, es);
    var s := Run(Boot(dev), es);
    forall f <- s.files
      ensures w !in s.files[f].fd.owned
    {
      if w in s.files[f].fd.owned {
        OwnersFacts(s, f, w);
      }
    }
  }
}
