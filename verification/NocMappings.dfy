/** What a mapping shows and whose windows those are, in every state that a run of the driver can reach. The
    driver compares the size of a mapping with the size of a window, but not where it ends. */
module NocMappings {
  import opened Wrappers
  import opened BitFields
  import opened NocRegisters
  import opened NocDriver
  import opened NocSystem

  predicate InWindow(w: Window, a: nat) { IsWindow(w) && WindowAddr(w) <= a < WindowAddr(w) + SizeOf(w.kind) }

  predicate Shows(m: Vma, a: nat) { m.offset <= a < m.offset + m.size }

  ghost predicate CoversWindow(m: Vma, w: Window) { exists a: nat :: Shows(m, a) && InWindow(w, a) }

  /** The bound that the driver leaves to its callers: the mapping ends no later than the window it starts in. */
  predicate Fits(offset: u64, size: nat)
  {
    match DecodeOffset(offset)
    case Some(w) => IsWindow(w) && offset + size <= WindowAddr(w) + SizeOf(w.kind)
    case None => false
  }

  // ----- The bound is exact -----

  lemma StartsInside(offset: u64)
    requires DecodeOffset(offset).Some?
    ensures InWindow(Decoded(offset), offset)
  {
    DecodeExact(offset, Decoded(offset));
  }

  /** An accepted mapping shows addresses of the window it starts in only, if and only if it keeps to the bound. */
  lemma FitsExactly(fd: Fd, offset: u64, size: nat, remapFails: bool)
    requires Mmap(fd, offset, size, remapFails).1.Ok?
    ensures (forall a: nat :: offset <= a < offset + size ==> InWindow(Decoded(offset), a)) <==> Fits(offset, size)
  {
    hide DecodeOffset;
    StartsInside(offset);
    OnlyItsWindow(Vma(0, offset, size));
  }

  lemma OnlyItsWindow(m: Vma)
    requires DecodeOffset(m.offset).Some?
    ensures (forall a: nat :: Shows(m, a) ==> InWindow(Decoded(m.offset), a)) <==> Fits(m.offset, m.size)
  {
    hide DecodeOffset, WindowAddr, SizeOf;
    StartsInside(m.offset);
    var w := Decoded(m.offset);
    var end := WindowAddr(w) + SizeOf(w.kind);
    if m.offset + m.size > end {
      assert Shows(m, end) && !InWindow(w, end);
    }
  }

  /** No address lies in two windows. */
  lemma OneWindow(w: Window, x: Window, a: nat)
    requires InWindow(w, a) && InWindow(x, a)
    ensures w == x
  {
    assert a < TWO64;
    DecodeExact(a, w);
    DecodeExact(a, x);
  }

  lemma FitsCoversOne(m: Vma, w: Window)
    requires Fits(m.offset, m.size) && CoversWindow(m, w)
    ensures w == Decoded(m.offset)
  {
    hide DecodeOffset, InWindow;
    var a: nat :| Shows(m, a) && InWindow(w, a);
    OnlyItsWindow(m);
    OneWindow(w, Decoded(m.offset), a);
  }

  // ----- Safety of mappings that keep to it -----

  /** The window is file f's alone, neither reserved nor the driver's, and nobody can deallocate it. */
  ghost predicate Secured(s: Sys, f: nat, w: Window)
  {
    && IsWindow(w) && f in s.files && w in s.files[f].fd.owned
    && w in s.dev.taken && w !in s.dev.reserved && w != DriverWindow(s.dev)
    && (forall g <- s.files :: w in s.files[g].fd.owned ==> g == f)
    && forall g <- s.files, fault ::
         Dealloc(s.dev, s.files[g].fd, w.kind, w.id, fault)
         == (s.dev, s.files[g].fd, Err(if fault then EFAULT else if g == f then EBUSY else EPERM))
  }

  lemma CountedSecured(s: Sys, f: nat, w: Window)
    requires Inv(s) && f in s.files && CountOf(s.files[f].fd.mapped, w) > 0
    ensures Secured(s, f, w)
  {
    hide DecodeOffset, FreeIdle;
    assert FileBalanced(s.files[f], s.vmas, f);
    assert Counted(s.files[f], |Mappings(s.vmas, f, w)|, w);
    OwnersFacts(s, f, w);
  }

  /** The window a live mapping starts in is secured, and closing the mapping never underflows. Every window that
      the mapping shows any part of is secured too, if it keeps to the bound. */
  lemma MappingSafety(regs: RegFile, remapFails: bool, dev: Dev, es: seq<Event>, v: nat)
    requires Probe(regs, remapFails) == Ok(dev) && v in Run(Boot(dev), es).vmas
    ensures var s := Run(Boot(dev), es);
      var m := s.vmas[v];
      && DecodeOffset(m.offset) == Some(Decoded(m.offset)) && Secured(s, m.file, Decoded(m.offset))
      && !VmaClose(s.files[m.file].fd, m.offset).1
      && (Fits(m.offset, m.size) <==> forall a: nat :: Shows(m, a) ==> InWindow(Decoded(m.offset), a))
      && (Fits(m.offset, m.size) ==> forall w: Window :: CoversWindow(m, w) ==> Secured(s, m.file, w))
  {
    InvariantHolds(regs, remapFails, dev, es);
    var s := Run(Boot(dev), es);
    var m, w := s.vmas[v], Decoded(s.vmas[v].offset);
    hide Run, DecodeOffset, FreeIdle, Decoded, Secured, Partition, FileBalanced, CoversWindow, InWindow, Fits;
    assert m.file in s.files && DecodeOffset(m.offset) == Some(w);
    MappedPositive(s.files, s.vmas, v, w);
    CountedSecured(s, m.file, w);
    OnlyItsWindow(m);
    if Fits(m.offset, m.size) {
      forall x: Window | CoversWindow(m, x)
        ensures x == w
      {
        FitsCoversOne(m, x);
      }
    }
  }

  /** Two live mappings that keep to the bound and show parts of one window belong to one file. */
  lemma MappedByOneFile(regs: RegFile, remapFails: bool, dev: Dev, es: seq<Event>, u: nat, v: nat, w: Window)
    requires Probe(regs, remapFails) == Ok(dev)
    requires var vmas := Run(Boot(dev), es).vmas;
      && u in vmas && v in vmas && CoversWindow(vmas[u], w) && CoversWindow(vmas[v], w)
      && Fits(vmas[u].offset, vmas[u].size) && Fits(vmas[v].offset, vmas[v].size)
    ensures var vmas := Run(Boot(dev), es).vmas; vmas[u].file == vmas[v].file
  {
    hide Run, DecodeOffset, CoversWindow, Fits;
    MappingSafety(regs, remapFails, dev, es, u);
    MappingSafety(regs, remapFails, dev, es, v);
  }

  /** Exactly when two live mappings of different files show a common address: the one that starts lower runs on to
      where the other starts, and for that it must break the bound. */
  lemma SharedExactly(regs: RegFile, remapFails: bool, dev: Dev, es: seq<Event>, u: nat, v: nat)
    requires Probe(regs, remapFails) == Ok(dev)
    requires var vmas := Run(Boot(dev), es).vmas;
      u in vmas && v in vmas && vmas[u].file != vmas[v].file && vmas[u].offset <= vmas[v].offset
    ensures var m, n := Run(Boot(dev), es).vmas[u], Run(Boot(dev), es).vmas[v];
      && ((exists a: nat :: Shows(m, a) && Shows(n, a)) <==> n.size > 0 && n.offset < m.offset + m.size)
      && (Fits(m.offset, m.size) ==> !exists a: nat :: Shows(m, a) && Shows(n, a))
  {
    MappingSafety(regs, remapFails, dev, es, u);
    MappingSafety(regs, remapFails, dev, es, v);
    hide Run, DecodeOffset, Decoded, CoversWindow, Fits, WindowAddr, SizeOf;
    var m, n := Run(Boot(dev), es).vmas[u], Run(Boot(dev), es).vmas[v];
    if n.size > 0 && n.offset < m.offset + m.size {
      assert Shows(m, n.offset) && Shows(n, n.offset);
      StartsInside(n.offset);
      if Fits(m.offset, m.size) {
        OneWindow(Decoded(m.offset), Decoded(n.offset), n.offset);
      }
    }
  }

  // ----- A mapping that breaks the bound -----

  /** Two files take neighbouring windows n and n + 1; the first maps 2M from the middle of its window on, the second
      its whole window. */
  function Overrun(n: nat): seq<Event>
    requires n + 1 < Count(W2M)
  {
    [Open(0), Open(1), AllocCall(0, W2M, false), AllocCall(1, W2M, false),
     MmapCall(0, 0, WindowAddr(Window(W2M, n)) + 0x10_0000, 0x20_0000, false),
     MmapCall(1, 1, WindowAddr(Window(W2M, n + 1)), 0x20_0000, false)]
  }

  lemma RunNext(s: Sys, es: seq<Event>, k: nat)
    requires k < |es|
    ensures Run(s, es[..k + 1]) == Step(Run(s, es[..k]), es[k])
  {
    hide Step;
    assert es[..k + 1][..k] == es[..k];
  }

  lemma AllocStep(s: Sys, f: nat, n: nat)
    requires f in s.files && FirstZero(W2M, s.dev.reserved + s.dev.taken, 0) == n < Count(W2M)
    ensures var w, file := Window(W2M, n), s.files[f];
      Step(s, AllocCall(f, W2M, false))
      == Sys(s.dev.(taken := s.dev.taken + {w}),
             s.files[f := file.(fd := file.fd.(owned := file.fd.owned + {w}))], s.vmas)
  {
    hide Deallocate, WindowAddr;
  }

  lemma MapStep(s: Sys, f: nat, v: nat, offset: u64, w: Window)
    requires f in s.files && v !in s.vmas && DecodeOffset(offset) == Some(w) && w.kind == W2M
    requires w in s.files[f].fd.owned && CountOf(s.files[f].fd.mapped, w) == 0 && offset < Base(W128G)
    ensures var t := Step(s, MmapCall(f, v, offset, 0x20_0000, false));
      && t.vmas == s.vmas[v := Vma(f, offset, 0x20_0000)]
      && f in t.files && t.files == s.files[f := t.files[f]]
  {
    hide DecodeOffset;
  }

  lemma AllocatedTwo(dev: Dev, n: nat)
    requires FirstZero(W2M, dev.reserved + dev.taken, 0) == n && n + 1 < Count(W2M)
    requires Window(W2M, n + 1) !in dev.reserved + dev.taken
    ensures var s := Run(Boot(dev), Overrun(n)[..4]);
      && s.vmas == map[] && 0 in s.files && 1 in s.files
      && s.files[0].fd == Fd({Window(W2M, n)}, map[]) && s.files[1].fd == Fd({Window(W2M, n + 1)}, map[])
  {
    hide Run, WindowAddr, FirstZero;
    var es, w := Overrun(n), Window(W2M, n);
    var empty := File(Fd({}, map[]), map[]);
    RunNone(Boot(dev));
    assert es[..0] == [];
    RunNext(Boot(dev), es, 0);
    RunNext(Boot(dev), es, 1);
    var two := Sys(dev, map[0 := empty, 1 := empty], map[]);
    assert Step(Step(Boot(dev), es[0]), es[1]) == two;
    hide Step;
    RunNext(Boot(dev), es, 2);
    AllocStep(two, 0, n);
    var three := Step(two, es[2]);
    FirstAfter(W2M, dev.reserved + dev.taken, n);
    assert three.dev.reserved + three.dev.taken == dev.reserved + dev.taken + {w};
    RunNext(Boot(dev), es, 3);
    AllocStep(three, 1, n + 1);
  }

  lemma RunNone(s: Sys)
    ensures Run(s, []) == s
  {
  }

  lemma FirstAfter(k: Kind, used: set<Window>, n: nat)
    requires FirstZero(k, used, 0) == n && n + 1 < Count(k) && Window(k, n + 1) !in used
    ensures FirstZero(k, used + {Window(k, n)}, 0) == n + 1
  {
    assert Window(k, n + 1) !in used + {Window(k, n)};
  }

  /** Two files have live mappings that show one address. */
  ghost predicate SharedByFiles(s: Sys)
  {
    exists u, v, a: nat ::
      u in s.vmas && v in s.vmas && s.vmas[u].file != s.vmas[v].file && Shows(s.vmas[u], a) && Shows(s.vmas[v], a)
  }

  /** Both calls succeed, and the files share the first address of the second one's window. */
  lemma OverrunShares(dev: Dev, n: nat)
    requires FirstZero(W2M, dev.reserved + dev.taken, 0) == n && n + 1 < Count(W2M)
    requires Window(W2M, n + 1) !in dev.reserved + dev.taken
    ensures SharedByFiles(Run(Boot(dev), Overrun(n)))
  {
    hide DecodeOffset, Run, Step;
    AllocatedTwo(dev, n);
    var es := Overrun(n);
    var s := Run(Boot(dev), es[..4]);
    RunNext(Boot(dev), es, 4);
    RunNext(Boot(dev), es, 5);
    assert es[..6] == es;
    DecodeExact(es[4].offset, Window(W2M, n));
    DecodeExact(es[5].offset, Window(W2M, n + 1));
    MapStep(s, 0, 0, es[4].offset, Window(W2M, n));
    var s5 := Step(s, es[4]);
    MapStep(s5, 1, 1, es[5].offset, Window(W2M, n + 1));
    var s6 := Step(s5, es[5]);
    assert s6.vmas[0].file != s6.vmas[1].file && Shows(s6.vmas[0], es[5].offset) && Shows(s6.vmas[1], es[5].offset);
  }

  /** Registers as a reset leaves them: every window at its identity configuration. */
  function IdleRegs(): RegFile
  {
    seq(REG_BLOCK, i => if i < 896 then (if i % 4 == 0 then i / 4 else 0)
                        else if (i - 896) % 3 == 0 then (i - 896) / 3 else 0)
  }

  lemma IdleRegAt(w: Window)
    requires IsWindow(w)
    ensures !IsConfigured(IdleRegs(), w)
  {
    hide IdleRegs, IsConfigured, RegAt;
    IdleWord(w, 0);
    IdleWord(w, 1);
    IdleWord(w, 2);
    if w.kind.W2M? {
      IdleWord(w, 3);
    }
    assert RegAt(IdleRegs(), w) == IdentityWords(w);
    IdentityIsIdle(IdleRegs(), w);
  }

  lemma IdleWord(w: Window, i: nat)
    requires IsWindow(w) && i < RegWords(w.kind)
    ensures RegAt(IdleRegs(), w)[i] == if i == 0 then w.id else 0
  {
    assert RegAt(IdleRegs(), w)[i] == IdleRegs()[RegOffset(w) + i];
  }

  /** And such a state is reached: a probe on idle registers, then those six calls. */
  lemma OverrunReached()
    ensures exists dev, es :: Probe(IdleRegs(), false) == Ok(dev) && SharedByFiles(Run(Boot(dev), es))
  {
    hide IdleRegs, IsConfigured, Run, SharedByFiles;
    forall w
      ensures w !in Scan(IdleRegs())
    {
      ScanExact(IdleRegs(), w);
      if IsWindow(w) {
        IdleRegAt(w);
      }
    }
    assert Scan(IdleRegs()) == {};
    var dev := Dev({}, {Window(W2M, 0)}, IdleRegs(), 0);
    assert Probe(IdleRegs(), false) == Ok(dev);
    assert FirstZero(W2M, dev.reserved + dev.taken, 0) == 1;
    OverrunShares(dev, 1);
    assert SharedByFiles(Run(Boot(dev), Overrun(1)));
  }

  // ----- Failed remaps -----

  /** The owner can deallocate a window exactly when it has no mapping of it and no remap of it ever failed. */
  lemma DeallocExactly(regs: RegFile, remapFails: bool, dev: Dev, es: seq<Event>, f: nat, w: Window, fault: bool)
    requires Probe(regs, remapFails) == Ok(dev)
    requires var s := Run(Boot(dev), es); f in s.files && w in s.files[f].fd.owned && IsWindow(w)
    ensures var s := Run(Boot(dev), es);
      Dealloc(s.dev, s.files[f].fd, w.kind, w.id, fault).2.Ok?
      <==> !fault && Mappings(s.vmas, f, w) == {} && CountOf(s.files[f].failed, w) == 0
  {
    InvariantHolds(regs, remapFails, dev, es);
    var s := Run(Boot(dev), es);
    hide Run, DecodeOffset, FreeIdle, Partition, Mappings;
    assert FileBalanced(s.files[f], s.vmas, f);
    assert Counted(s.files[f], |Mappings(s.vmas, f, w)|, w);
  }

  ghost predicate Stuck(s: Sys, f: nat, w: Window) { f in s.files && CountOf(s.files[f].failed, w) > 0 }

  lemma StuckStep(s: Sys, f: nat, w: Window, e: Event)
    requires Stuck(s, f, w) && e != Release(f)
    ensures Stuck(Step(s, e), f, w)
  {
    hide DecodeOffset, Alloc, ConfigIoctl, Dealloc, Mmap, VmaClose, DeallocateSet;
  }

  /** After a failed remap the window stays with its file and cannot be deallocated, whatever happens, until the file
      is released. */
  lemma {:induction false} FailedRemapSticks(s: Sys, f: nat, v: nat, offset: u64, size: nat, es: seq<Event>)
    requires Inv(s) && Enabled(s, MmapCall(f, v, offset, size, true))
    requires Mmap(s.files[f].fd, offset, size, true).1 == Err(EAGAIN)
    requires forall e <- es :: e != Release(f)
    ensures var w, t := Decoded(offset), Run(Step(s, MmapCall(f, v, offset, size, true)), es);
      Inv(t) && Stuck(t, f, w) && Secured(t, f, w)
    decreases |es|
  {
    hide DecodeOffset, Decoded, Secured, Inv, Mmap;
    var w, s1 := Decoded(offset), Step(s, MmapCall(f, v, offset, size, true));
    var t := Run(s1, es);
    if es == [] {
      StepInv(s, MmapCall(f, v, offset, size, true));
    } else {
      var es' := es[..|es| - 1];
      assert es[|es| - 1] in es && forall e <- es' :: e in es;
      FailedRemapSticks(s, f, v, offset, size, es');
      StuckStep(Run(s1, es'), f, w, es[|es| - 1]);
      StepInv(Run(s1, es'), es[|es| - 1]);
    }
    StuckSecured(t, f, w);
  }

  lemma StuckSecured(s: Sys, f: nat, w: Window)
    requires Inv(s) && Stuck(s, f, w)
    ensures Secured(s, f, w)
  {
    hide DecodeOffset, FreeIdle, Partition, Secured;
    assert FileBalanced(s.files[f], s.vmas, f);
    assert Counted(s.files[f], |Mappings(s.vmas, f, w)|, w);
    CountedSecured(s, f, w);
  }

  /** Releasing the file does return it. */
  lemma ReleaseReturns(s: Sys, f: nat, w: Window)
    requires Inv(s) && Enabled(s, Release(f)) && w in s.files[f].fd.owned
    ensures var t := Step(s, Release(f)); w !in t.dev.taken && IsWindow(w) && RegAt(t.dev.regs, w) == IdentityWords(w)
  {
    hide Balanced, FreeIdle, DeallocateSet, RegAt, IdentityWords;
    OwnersFacts(s, f, w);
    DeallocateSetExact(s.dev, s.files[f].fd.owned, w);
  }
}
