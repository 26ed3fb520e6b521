/** Whole runs of the NOC driver: any number of open files, their system calls, their mappings and the
    driver's own telemetry reads, in any order. */
module NocSystem {
  import opened Wrappers
  import opened BitFields
  import opened NocRegisters
  import opened NocDriver

  /** An open file, with the history of the mmap calls whose remap failed after the window was found:
      each left its count raised, and no close callback will lower it. */
  datatype File = File(fd: Fd, failed: Counts)

  /** A live mapping of a file. */
  datatype Vma = Vma(file: nat, offset: u64, size: nat)

  datatype Sys = Sys(dev: Dev, files: map<nat, File>, vmas: map<nat, Vma>)

  datatype Event =
    | Open(f: nat)
    | AllocCall(f: nat, k: Kind, fault: bool)
    | ConfigCall(f: nat, k: Kind, c: Config, fault: bool, stray: bool)
    | DeallocCall(f: nat, k: Kind, id: u32, fault: bool)
    | MmapCall(f: nat, v: nat, offset: u64, size: nat, remapFails: bool)
    | Munmap(v: nat)
    | Release(f: nat)
    | Telemetry(addr: u64)

  function DriverWindow(dev: Dev): Window { Window(W2M, dev.driver) }

  /** noc_read32 aims the driver's window at the ARC tile (8, 0). */
  function TelemetryAim(dev: Dev, addr: u64): Dev
    requires dev.driver < Count(W2M)
  {
    Configure(dev, W2M, TelemetryConfig(dev.driver, addr)).0
  }

  function TelemetryConfig(driver: u32, addr: u64): (c: Config)
    ensures Aligned(W2M, c.addr) && c.windowId == driver
  {
    Config(driver, addr / 0x20_0000 * 0x20_0000, 8, 0, 0, 0, 0, 0, 0, 0, 0, 0, 0, 0)
  }

  function SetFd(s: Sys, f: nat, fd: Fd): Sys
    requires f in s.files
  {
    s.(files := s.files[f := s.files[f].(fd := fd)])
  }

  /** A file number is free to open when no file has it; a file is released only when no mapping holds it;
      a new mapping has a new name. An event that cannot happen leaves the state alone. */
  predicate Enabled(s: Sys, e: Event)
  {
    match e
    case Open(f) => f !in s.files
    case AllocCall(f, _, _) => f in s.files
    case ConfigCall(f, _, _, _, _) => f in s.files
    case DeallocCall(f, _, _, _) => f in s.files
    case MmapCall(f, v, _, _, _) => f in s.files && v !in s.vmas
    case Munmap(v) => v in s.vmas && s.vmas[v].file in s.files
    case Release(f) => f in s.files && forall v <- s.vmas :: s.vmas[v].file != f
    case Telemetry(_) => s.dev.driver < Count(W2M)
  }

  function Step(s: Sys, e: Event): Sys
  {
    if !Enabled(s, e) then s
    else
      match e
      case Open(f) => s.(files := s.files[f := File(Fd({}, map[]), map[])])
      case AllocCall(f, k, fault) =>
        var (dev, fd, _) := Alloc(s.dev, s.files[f].fd, k, fault);
        SetFd(s.(dev := dev), f, fd)
      case ConfigCall(f, k, c, fault, stray) =>
        s.(dev := ConfigIoctl(s.dev, s.files[f].fd, k, c, fault, stray).0)
      case DeallocCall(f, k, id, fault) =>
        var (dev, fd, _) := Dealloc(s.dev, s.files[f].fd, k, id, fault);
        SetFd(s.(dev := dev), f, fd)
      case MmapCall(f, v, offset, size, remapFails) => MmapStep(s, f, v, offset, size, remapFails)
      case Munmap(v) =>
        var f := s.vmas[v].file;
        SetFd(s, f, VmaClose(s.files[f].fd, s.vmas[v].offset).0).(vmas := s.vmas - {v})
      case Release(f) =>
        s.(dev := DeallocateSet(s.dev, s.files[f].fd.owned), files := s.files - {f})
      case Telemetry(addr) => s.(dev := TelemetryAim(s.dev, addr))
  }

  function MmapStep(s: Sys, f: nat, v: nat, offset: u64, size: nat, remapFails: bool): Sys
    requires f in s.files
  {
    var file := s.files[f];
    var (fd, r) := Mmap(file.fd, offset, size, remapFails);
    var s' := SetFd(s, f, fd);
    match r
    case Ok(_) => s'.(vmas := s.vmas[v := Vma(f, offset, size)])
    case Err(e) =>
      if e != EAGAIN then s'
      else
        var w := Decoded(offset);
        s'.(files := s'.files[f := File(fd, file.failed[w := CountOf(file.failed, w) + 1])])
  }

  function Decoded(offset: u64): (w: Window)
    ensures DecodeOffset(offset).Some? ==> DecodeOffset(offset) == Some(w)
  {
    match DecodeOffset(offset)
    case Some(w) => w
    case None => Window(W2M, 0)
  }

  function Run(s: Sys, es: seq<Event>): Sys
    decreases |es|
  {
    if es == [] then s else Step(Run(s, es[..|es| - 1]), es[|es| - 1])
  }

  /** The state in which a successful probe leaves the driver. */
  function Boot(dev: Dev): Sys { Sys(dev, map[], map[]) }

  // ----- Ownership -----

  type Owners = map<nat, set<Window>>

  function OwnersOf(files: map<nat, File>): Owners { map f | f in files :: files[f].fd.owned }

  ghost predicate OwnedBySome(owners: Owners, w: Window)
  {
    exists f :: f in owners && w in owners[f]
  }

  /** The allocated windows are the disjoint union of the files' windows and the driver's window d. */
  ghost predicate Partition(reserved: set<Window>, taken: set<Window>, d: Window, owners: Owners)
  {
    && (forall w <- reserved + taken :: IsWindow(w))
    && reserved !! taken && d in taken
    && (forall f <- owners :: owners[f] <= taken && d !in owners[f])
    && (forall f <- owners, g <- owners :: f != g ==> owners[f] !! owners[g])
    && (forall w <- taken :: w == d || OwnedBySome(owners, w))
  }

  lemma PartitionOpen(reserved: set<Window>, taken: set<Window>, d: Window, owners: Owners, f: nat)
    requires Partition(reserved, taken, d, owners) && f !in owners
    ensures Partition(reserved, taken, d, owners[f := {}])
  {
    hide IsWindow;
    forall w <- taken | w != d
      ensures OwnedBySome(owners[f := {}], w)
    {
      var g :| g in owners && w in owners[g];
      assert w in owners[f := {}][g];
    }
  }

  lemma PartitionGrant(reserved: set<Window>, taken: set<Window>, d: Window, owners: Owners, f: nat, w: Window)
    requires Partition(reserved, taken, d, owners) && f in owners
    requires IsWindow(w) && w !in reserved && w !in taken
    ensures Partition(reserved, taken + {w}, d, owners[f := owners[f] + {w}])
  {
    hide IsWindow;
    var owners' := owners[f := owners[f] + {w}];
    forall v <- taken + {w} | v != d
      ensures OwnedBySome(owners', v)
    {
      var g :| g in owners && (if v == w then g == f else v in owners[g]);
      assert v in owners'[g];
    }
  }

  /** File f gives back ws. */
  lemma PartitionReturn(reserved: set<Window>, taken: set<Window>, d: Window, owners: Owners, f: nat, ws: set<Window>)
    requires Partition(reserved, taken, d, owners) && f in owners && ws <= owners[f]
    ensures Partition(reserved, taken - ws, d, owners[f := owners[f] - ws])
  {
    hide IsWindow;
    var owners' := owners[f := owners[f] - ws];
    forall v <- taken - ws | v != d
      ensures OwnedBySome(owners', v)
    {
      var g :| g in owners && v in owners[g];
      assert v in owners'[g];
    }
  }

  lemma PartitionClose(reserved: set<Window>, taken: set<Window>, d: Window, owners: Owners, f: nat)
    requires Partition(reserved, taken, d, owners) && f in owners && owners[f] == {}
    ensures Partition(reserved, taken, d, owners - {f})
  {
    hide IsWindow;
    forall v <- taken | v != d
      ensures OwnedBySome(owners - {f}, v)
    {
      var g :| g in owners && v in owners[g];
      assert v in (owners - {f})[g];
    }
  }

  // ----- Mapping counts -----

  function Mappings(vmas: map<nat, Vma>, f: nat, w: Window): set<nat>
  {
    set v | v in vmas && vmas[v].file == f && DecodeOffset(vmas[v].offset) == Some(w)
  }

  /** A count is the live mappings plus the failed remaps, and a counted window is owned. */
  ghost predicate Counted(file: File, live: nat, w: Window)
  {
    && CountOf(file.fd.mapped, w) == live + CountOf(file.failed, w)
    && (CountOf(file.fd.mapped, w) > 0 ==> w in file.fd.owned)
  }

  ghost predicate FileBalanced(file: File, vmas: map<nat, Vma>, f: nat)
  {
    forall w :: Counted(file, |Mappings(vmas, f, w)|, w)
  }

  ghost predicate Balanced(files: map<nat, File>, vmas: map<nat, Vma>)
  {
    && (forall f <- files :: FileBalanced(files[f], vmas, f))
    && (forall v <- vmas :: vmas[v].file in files && DecodeOffset(vmas[v].offset).Some?)
  }

  /** Every window that nobody holds shows its identity configuration. */
  ghost predicate FreeIdle(dev: Dev)
  {
    forall w: Window :: IsWindow(w) && w !in dev.reserved && w !in dev.taken ==> !IsConfigured(dev.regs, w)
  }

  ghost predicate Inv(s: Sys)
  {
    && Partition(s.dev.reserved, s.dev.taken, DriverWindow(s.dev), OwnersOf(s.files))
    && Balanced(s.files, s.vmas)
    && FreeIdle(s.dev)
  }

  // ----- Every event keeps the invariant -----

  lemma {:induction false} InvariantHolds(regs: RegFile, remapFails: bool, dev: Dev, es: seq<Event>)
    requires Probe(regs, remapFails) == Ok(dev)
    ensures Inv(Run(Boot(dev), es))
    decreases |es|
  {
    if es == [] {
      BootInv(regs, remapFails, dev);
    } else {
      InvariantHolds(regs, remapFails, dev, es[..|es| - 1]);
      StepInv(Run(Boot(dev), es[..|es| - 1]), es[|es| - 1]);
    }
  }

  lemma BootInv(regs: RegFile, remapFails: bool, dev: Dev)
    requires Probe(regs, remapFails) == Ok(dev)
    ensures Inv(Boot(dev))
  {
    hide IsConfigured, DecodeOffset;
    forall w: Window | IsWindow(w) && w !in dev.reserved
      ensures !IsConfigured(regs, w)
    {
      ScanExact(regs, w);
    }
    forall w <- dev.reserved
      ensures IsWindow(w)
    {
      ScanExact(regs, w);
    }
  }

  lemma StepInv(s: Sys, e: Event)
    requires Inv(s)
    ensures Inv(Step(s, e))
  {
    hide Inv;
    if Enabled(s, e) {
      match e
      case Open(f) => OpenInv(s, f);
      case AllocCall(f, k, fault) => AllocInv(s, f, k, fault);
      case ConfigCall(f, k, c, fault, stray) => ConfigInv(s, f, k, c, fault, stray);
      case DeallocCall(f, k, id, fault) => DeallocInv(s, f, k, id, fault);
      case MmapCall(f, v, offset, size, remapFails) => MmapInv(s, f, v, offset, size, remapFails);
      case Munmap(v) => MunmapInv(s, v);
      case Release(f) => ReleaseInv(s, f);
      case Telemetry(addr) => TelemetryInv(s, addr);
    }
  }

  lemma OpenInv(s: Sys, f: nat)
    requires Inv(s) && f !in s.files
    ensures Inv(Step(s, Open(f)))
  {
    hide DecodeOffset, FreeIdle, Partition;
    var s' := Step(s, Open(f));
    PartitionOpen(s.dev.reserved, s.dev.taken, DriverWindow(s.dev), OwnersOf(s.files), f);
    assert OwnersOf(s'.files) == OwnersOf(s.files)[f := {}];
    forall w: Window
      ensures Counted(s'.files[f], |Mappings(s.vmas, f, w)|, w)
    {
      assert Mappings(s.vmas, f, w) == {};
    }
  }

  lemma SameRegister(r1: RegFile, r2: RegFile, v: Window)
    requires IsWindow(v) && RegAt(r1, v) == RegAt(r2, v)
    ensures IsConfigured(r1, v) <==> IsConfigured(r2, v)
  {
  }

  lemma IdentityIsIdle(regs: RegFile, w: Window)
    requires IsWindow(w) && RegAt(regs, w) == IdentityWords(w)
    ensures !IsConfigured(regs, w)
  {
  }

  /** Writing the register of a held window leaves the free windows idle. */
  lemma WrittenIdle(dev: Dev, w: Window, ws: seq<u32>)
    requires FreeIdle(dev) && IsWindow(w) && w in dev.taken && |ws| == RegWords(w.kind)
    ensures FreeIdle(dev.(regs := SetReg(dev.regs, w, ws)))
  {
    hide SetReg, RegAt, IsConfigured;
    forall v: Window | IsWindow(v) && v !in dev.reserved && v !in dev.taken
      ensures !IsConfigured(SetReg(dev.regs, w, ws), v)
    {
      SetRegAt(dev.regs, w, ws, v);
      SameRegister(dev.regs, SetReg(dev.regs, w, ws), v);
    }
  }

  /** Returning ws, whose registers became identity, leaves the free windows idle. */
  lemma ReturnedIdle(dev: Dev, dev': Dev, ws: set<Window>)
    requires FreeIdle(dev) && dev'.reserved == dev.reserved && dev.taken <= dev'.taken + ws
    requires forall v: Window :: IsWindow(v) ==>
      RegAt(dev'.regs, v) == if v in ws then IdentityWords(v) else RegAt(dev.regs, v)
    ensures FreeIdle(dev')
  {
    hide RegAt, IdentityWords, IsConfigured;
    forall v: Window | IsWindow(v) && v !in dev'.reserved && v !in dev'.taken
      ensures !IsConfigured(dev'.regs, v)
    {
      if v in ws {
        IdentityIsIdle(dev'.regs, v);
      } else {
        SameRegister(dev.regs, dev'.regs, v);
      }
    }
  }

  lemma DeallocatedIdle(dev: Dev, w: Window)
    requires FreeIdle(dev) && IsWindow(w)
    ensures FreeIdle(Deallocate(dev, w))
    ensures Deallocate(dev, w).taken == dev.taken - {w} && Deallocate(dev, w).reserved == dev.reserved
    ensures Deallocate(dev, w).driver == dev.driver
  {
    var d := Deallocate(dev, w);
    assert d.taken == dev.taken - {w} && d.reserved == dev.reserved && d.driver == dev.driver;
    hide RegAt, IdentityWords, IsConfigured, Deallocate;
    forall v: Window | IsWindow(v)
      ensures RegAt(d.regs, v) == if v in {w} then IdentityWords(v) else RegAt(dev.regs, v)
    {
      DeallocateExact(dev, w, v);
    }
    ReturnedIdle(dev, d, {w});
  }

  lemma AllocInv(s: Sys, f: nat, k: Kind, fault: bool)
    requires Inv(s) && f in s.files
    ensures Inv(Step(s, AllocCall(f, k, fault)))
  {
    hide DecodeOffset, Partition, FreeIdle, Balanced, Deallocate;
    var id := FirstZero(k, s.dev.reserved + s.dev.taken, 0);
    var s' := Step(s, AllocCall(f, k, fault));
    if id < Count(k) {
      var w := Window(k, id);
      var dev := s.dev.(taken := s.dev.taken + {w});
      GrantedIdle(s.dev, w);
      if fault {
        DeallocatedIdle(dev, w);
        assert s'.dev.taken == s.dev.taken;
        SameFiles(s, s'.dev, f);
      } else {
        PartitionGrant(s.dev.reserved, s.dev.taken, DriverWindow(s.dev), OwnersOf(s.files), f, w);
        GrantFiles(s.files, s.vmas, f, w);
      }
    } else {
      SameFiles(s, s'.dev, f);
    }
  }

  lemma GrantedIdle(dev: Dev, w: Window)
    requires FreeIdle(dev)
    ensures FreeIdle(dev.(taken := dev.taken + {w}))
  {
    hide IsConfigured;
  }

  lemma SameFiles(s: Sys, dev: Dev, f: nat)
    requires f in s.files
    ensures SetFd(s.(dev := dev), f, s.files[f].fd) == s.(dev := dev)
  {
    assert s.files[f := s.files[f]] == s.files;
  }

  lemma GrantFiles(files: map<nat, File>, vmas: map<nat, Vma>, f: nat, w: Window)
    requires Balanced(files, vmas) && f in files
    ensures var file := files[f];
      var files' := files[f := file.(fd := file.fd.(owned := file.fd.owned + {w}))];
      && Balanced(files', vmas)
      && OwnersOf(files') == OwnersOf(files)[f := OwnersOf(files)[f] + {w}]
  {
    hide DecodeOffset, Mappings;
    assert FileBalanced(files[f], vmas, f);
  }

  lemma ReturnFiles(files: map<nat, File>, vmas: map<nat, Vma>, f: nat, w: Window)
    requires Balanced(files, vmas) && f in files && CountOf(files[f].fd.mapped, w) == 0
    ensures var file := files[f];
      var files' := files[f := file.(fd := file.fd.(owned := file.fd.owned - {w}))];
      && Balanced(files', vmas)
      && OwnersOf(files') == OwnersOf(files)[f := OwnersOf(files)[f] - {w}]
  {
    hide DecodeOffset, Mappings;
    assert FileBalanced(files[f], vmas, f);
  }

  lemma ConfigInv(s: Sys, f: nat, k: Kind, c: Config, fault: bool, stray: bool)
    requires Inv(s) && f in s.files
    ensures Inv(Step(s, ConfigCall(f, k, c, fault, stray)))
  {
    hide DecodeOffset, SetReg, Encode, FreeIdle, Balanced;
    if c.windowId < Count(k) && Window(k, c.windowId) in s.files[f].fd.owned {
      assert Window(k, c.windowId) in OwnersOf(s.files)[f];
      WrittenIdle(s.dev, Window(k, c.windowId), Encode(k, c));
    }
  }

  lemma TelemetryInv(s: Sys, addr: u64)
    requires Inv(s) && s.dev.driver < Count(W2M)
    ensures Inv(Step(s, Telemetry(addr)))
  {
    hide DecodeOffset, SetReg, Encode, FreeIdle, Balanced, TelemetryConfig, Aligned;
    WrittenIdle(s.dev, DriverWindow(s.dev), Encode(W2M, TelemetryConfig(s.dev.driver, addr)));
  }

  lemma DeallocInv(s: Sys, f: nat, k: Kind, id: u32, fault: bool)
    requires Inv(s) && f in s.files
    ensures Inv(Step(s, DeallocCall(f, k, id, fault)))
  {
    hide DecodeOffset, Partition, FreeIdle, Balanced, Deallocate;
    var w, fd := Window(k, id), s.files[f].fd;
    if !fault && id < Count(k) && w in fd.owned && CountOf(fd.mapped, w) == 0 {
      DeallocatedIdle(s.dev, w);
      PartitionReturn(s.dev.reserved, s.dev.taken, DriverWindow(s.dev), OwnersOf(s.files), f, {w});
      ReturnFiles(s.files, s.vmas, f, w);
    } else {
      SameFiles(s, s.dev, f);
    }
  }

  lemma ReleasedDev(dev: Dev, ws: set<Window>)
    requires FreeIdle(dev) && (forall v <- dev.taken :: IsWindow(v))
    ensures var d := DeallocateSet(dev, ws);
      && FreeIdle(d) && d.taken == dev.taken - ws && d.reserved == dev.reserved && d.driver == dev.driver
  {
    hide RegAt, IdentityWords, FreeIdle, DeallocateSet;
    var d := DeallocateSet(dev, ws);
    forall v: Window | IsWindow(v)
      ensures d.reserved == dev.reserved && d.driver == dev.driver && d.taken <= dev.taken
      ensures v in d.taken <==> v in dev.taken && v !in ws
      ensures RegAt(d.regs, v) == if v in ws then IdentityWords(v) else RegAt(dev.regs, v)
    {
      DeallocateSetExact(dev, ws, v);
    }
    assert IsWindow(Window(W2M, 0));
    ReturnedIdle(dev, d, ws);
  }

  lemma ReleaseInv(s: Sys, f: nat)
    requires Inv(s) && Enabled(s, Release(f))
    ensures Inv(Step(s, Release(f)))
  {
    hide DecodeOffset, DeallocateSet, FreeIdle;
    var d, owners, owned := DriverWindow(s.dev), OwnersOf(s.files), s.files[f].fd.owned;
    ReleasedDev(s.dev, owned);
    hide Partition, FileBalanced;
    PartitionReturn(s.dev.reserved, s.dev.taken, d, owners, f, owned);
    assert owners[f] - owned == {};
    PartitionClose(s.dev.reserved, s.dev.taken - owned, d, owners[f := {}], f);
    assert owners[f := {}] - {f} == OwnersOf(s.files - {f});
  }

  // ----- Mappings come and go -----

  function Counting(files: map<nat, File>, f: nat, w: Window, up: nat, down: nat, failed: nat): map<nat, File>
    requires f in files && CountOf(files[f].fd.mapped, w) + up >= down
  {
    var file := files[f];
    files[f := File(file.fd.(mapped := file.fd.mapped[w := CountOf(file.fd.mapped, w) + up - down]),
                    if failed == 0 then file.failed else file.failed[w := CountOf(file.failed, w) + failed])]
  }

  lemma MappingsAdd(vmas: map<nat, Vma>, v: nat, m: Vma, g: nat, w: Window)
    requires v !in vmas
    ensures |Mappings(vmas[v := m], g, w)| == |Mappings(vmas, g, w)|
      + if g == m.file && DecodeOffset(m.offset) == Some(w) then 1 else 0
  {
    hide DecodeOffset;
    var before := Mappings(vmas, g, w);
    assert Mappings(vmas[v := m], g, w) ==
      if g == m.file && DecodeOffset(m.offset) == Some(w) then before + {v} else before;
  }

  lemma MappingsRemove(vmas: map<nat, Vma>, v: nat, g: nat, w: Window)
    requires v in vmas
    ensures |Mappings(vmas - {v}, g, w)| == |Mappings(vmas, g, w)|
      - if g == vmas[v].file && DecodeOffset(vmas[v].offset) == Some(w) then 1 else 0
  {
    hide DecodeOffset;
    var before := Mappings(vmas, g, w);
    assert Mappings(vmas - {v}, g, w) == before - {v};
    assert v in before <==> g == vmas[v].file && DecodeOffset(vmas[v].offset) == Some(w);
  }

  lemma MappingAdded(files: map<nat, File>, vmas: map<nat, Vma>, f: nat, w: Window, v: nat, m: Vma)
    requires Balanced(files, vmas) && f in files && v !in vmas
    requires w in files[f].fd.owned && m.file == f && DecodeOffset(m.offset) == Some(w)
    ensures Balanced(Counting(files, f, w, 1, 0, 0), vmas[v := m])
  {
    hide DecodeOffset, Mappings;
    var files', vmas' := Counting(files, f, w, 1, 0, 0), vmas[v := m];
    forall g <- files'
      ensures FileBalanced(files'[g], vmas', g)
    {
      assert FileBalanced(files[g], vmas, g);
      forall x: Window
        ensures Counted(files'[g], |Mappings(vmas', g, x)|, x)
      {
        assert Counted(files[g], |Mappings(vmas, g, x)|, x);
        MappingsAdd(vmas, v, m, g, x);
      }
    }
  }

  lemma RemapFailed(files: map<nat, File>, vmas: map<nat, Vma>, f: nat, w: Window)
    requires Balanced(files, vmas) && f in files && w in files[f].fd.owned
    ensures Balanced(Counting(files, f, w, 1, 0, 1), vmas)
  {
    hide DecodeOffset, Mappings;
    var files' := Counting(files, f, w, 1, 0, 1);
    assert FileBalanced(files[f], vmas, f);
    forall x: Window
      ensures Counted(files'[f], |Mappings(vmas, f, x)|, x)
    {
      assert Counted(files[f], |Mappings(vmas, f, x)|, x);
    }
  }

  lemma MappingRemoved(files: map<nat, File>, vmas: map<nat, Vma>, v: nat, w: Window)
    requires Balanced(files, vmas) && v in vmas && DecodeOffset(vmas[v].offset) == Some(w)
    ensures CountOf(files[vmas[v].file].fd.mapped, w) > 0
    ensures Balanced(Counting(files, vmas[v].file, w, 0, 1, 0), vmas - {v})
  {
    hide DecodeOffset, Mappings;
    var f := vmas[v].file;
    MappedPositive(files, vmas, v, w);
    var files' := Counting(files, f, w, 0, 1, 0);
    forall g <- files'
      ensures FileBalanced(files'[g], vmas - {v}, g)
    {
      assert FileBalanced(files[g], vmas, g);
      forall x: Window
        ensures Counted(files'[g], |Mappings(vmas - {v}, g, x)|, x)
      {
        assert Counted(files[g], |Mappings(vmas, g, x)|, x);
        MappingsRemove(vmas, v, g, x);
      }
    }
  }

  /** A window with a live mapping is counted and owned by the file that mapped it. */
  lemma MappedPositive(files: map<nat, File>, vmas: map<nat, Vma>, v: nat, w: Window)
    requires Balanced(files, vmas) && v in vmas && DecodeOffset(vmas[v].offset) == Some(w)
    ensures CountOf(files[vmas[v].file].fd.mapped, w) > 0
    ensures w in files[vmas[v].file].fd.owned
  {
    hide DecodeOffset;
    var f := vmas[v].file;
    var m := Mappings(vmas, f, w);
    assert v in m && |m - {v}| == |m| - 1;
    assert FileBalanced(files[f], vmas, f);
    assert Counted(files[f], |Mappings(vmas, f, w)|, w);
  }

  lemma OwnersSame(files: map<nat, File>, f: nat, file: File)
    requires f in files && file.fd.owned == files[f].fd.owned
    ensures OwnersOf(files[f := file]) == OwnersOf(files)
  {
  }

  /** The count goes up exactly when the window is found and owned, whether or not the remap succeeds. */
  lemma MmapCases(fd: Fd, offset: u64, size: nat, remapFails: bool)
    ensures var (fd', r) := Mmap(fd, offset, size, remapFails);
      var w := Decoded(offset);
      if r.Ok? || r == Err(EAGAIN) then
        && DecodeOffset(offset) == Some(w) && w in fd.owned && (r.Ok? <==> !remapFails)
        && fd' == fd.(mapped := fd.mapped[w := CountOf(fd.mapped, w) + 1])
      else fd' == fd
  {
    hide DecodeOffset;
  }

  lemma MmapInv(s: Sys, f: nat, v: nat, offset: u64, size: nat, remapFails: bool)
    requires Inv(s) && f in s.files && v !in s.vmas
    ensures Inv(MmapStep(s, f, v, offset, size, remapFails))
  {
    var s' := MmapStep(s, f, v, offset, size, remapFails);
    var (fd, r) := Mmap(s.files[f].fd, offset, size, remapFails);
    var w := Decoded(offset);
    hide DecodeOffset, FreeIdle, Partition, Balanced, Decoded, Mmap, OwnersOf;
    MmapCases(s.files[f].fd, offset, size, remapFails);
    OwnersSame(s.files, f, s'.files[f]);
    if r.Ok? {
      MappingAdded(s.files, s.vmas, f, w, v, Vma(f, offset, size));
      assert s'.files == Counting(s.files, f, w, 1, 0, 0);
    } else if r == Err(EAGAIN) {
      RemapFailed(s.files, s.vmas, f, w);
      assert s'.files == Counting(s.files, f, w, 1, 0, 1);
    } else {
      SameFiles(s, s.dev, f);
    }
  }

  lemma MunmapInv(s: Sys, v: nat)
    requires Inv(s) && v in s.vmas
    ensures Inv(Step(s, Munmap(v)))
  {
    var f, w := s.vmas[v].file, Decoded(s.vmas[v].offset);
    assert f in s.files && DecodeOffset(s.vmas[v].offset) == Some(w);
    MappedPositive(s.files, s.vmas, v, w);
    hide DecodeOffset, FreeIdle, Partition, Balanced, Decoded, OwnersOf;
    var files' := Counting(s.files, f, w, 0, 1, 0);
    MappingRemoved(s.files, s.vmas, v, w);
    OwnersSame(s.files, f, files'[f]);
    assert Step(s, Munmap(v)) == s.(files := files', vmas := s.vmas - {v});
  }

  lemma OwnersFacts(s: Sys, f: nat, w: Window)
    requires Partition(s.dev.reserved, s.dev.taken, DriverWindow(s.dev), OwnersOf(s.files))
    requires f in s.files && w in s.files[f].fd.owned
    ensures w in s.dev.taken && w !in s.dev.reserved && w != DriverWindow(s.dev) && IsWindow(w)
    ensures forall g <- s.files :: w in s.files[g].fd.owned ==> g == f
  {
    var owners := OwnersOf(s.files);
    assert w in owners[f];
    forall g <- s.files
      ensures w in s.files[g].fd.owned ==> g == f
    {
      if g != f {
        assert owners[f] !! owners[g] && w in owners[f];
      }
    }
  }
}
