/** NocWindow and SmartNocWindow objects on top of the driver: any number of them on any number of open
    files, constructed, used byte by byte and destroyed in any interleaving with each other, with foreign
    users of the driver, with its telemetry reads and with other agents that store to chip memory.
    The result is a refinement: the objects act on one flat memory per tile. */
module NocClients {
  import opened Wrappers
  import opened BitFields
  import opened NocRegisters
  import opened NocDriver
  import opened NocSystem
  import NocMappings

  /** A byte of chip memory: a tile and an address within it. */
  datatype Loc = Loc(x: nat, y: nat, addr: nat)

  /** Memory, zero where nothing is recorded. */
  type Mem = map<Loc, u8>

  function At(mem: Mem, loc: Loc): u8 { if loc in mem then mem[loc] else 0 }

  // ----- The hardware's path from a physical address to chip memory -----

  function HwWindow(phys: u64): Option<Window>
  {
    if Base(W2M) <= phys < Base(W2M) + 224 * 0x20_0000 then Some(Window(W2M, (phys - Base(W2M)) / 0x20_0000))
    else if Base(W128G) <= phys < Base(W128G) + 32 * 0x20_0000_0000
      then Some(Window(W128G, (phys - Base(W128G)) / 0x20_0000_0000))
    else None
  }

  /** The byte that an access at a physical address reaches; a window set to multicast has no one such byte. */
  function HwTarget(regs: RegFile, phys: u64): Option<Loc>
  {
    match HwWindow(phys)
    case None => None
    case Some(w) =>
      var ws := RegAt(regs, w);
      var page := HwAddr(w.kind, ws);
      if HwMulticast(w.kind, ws) then None
      else
        Some(Loc(HwX(w.kind, ws), HwY(w.kind, ws),
                 (if w.kind.W2M? then page * 0x20_0000 else page * 0x20_0000_0000) + (phys - WindowAddr(w))))
  }

  lemma HwWindowInside(w: Window, i: nat)
    requires IsWindow(w) && i < SizeOf(w.kind)
    ensures HwWindow(WindowAddr(w) + i) == Some(w)
  {
  }

  lemma PageTimesSize(k: Kind, addr: u64)
    requires Aligned(k, addr)
    ensures (if k.W2M? then Page(k, addr) * 0x20_0000 else Page(k, addr) * 0x20_0000_0000) == addr
  {
  }

  /** Translation through a configured window: byte i of a unicast window is byte addr + i of tile
      (x mod 64, y mod 64). */
  lemma Translation(regs: RegFile, w: Window, c: Config, i: nat)
    requires IsWindow(w) && i < SizeOf(w.kind) && Aligned(w.kind, c.addr)
    requires RegAt(regs, w) == Encode(w.kind, c)
    ensures HwTarget(regs, WindowAddr(w) + i)
            == if c.multicastEn % 2 == 1 then None else Some(Loc(c.xEnd % 64, c.yEnd % 64, c.addr + i))
  {
    hide RegAt, Encode, Page, Aligned, HwX, HwY, HwAddr, HwMulticast;
    HwWindowInside(w, i);
    EncodeTarget(w.kind, c);
    PageTimesSize(w.kind, c.addr);
  }

  // ----- Clients -----

  datatype Op =
    | Quiet
    | Transfer(write: bool, x: u32, y: u32, addr: u64, data: seq<u8>, done: nat)

  /** Where a NocWindow is in its life: after the alloc ioctl, after the config ioctl, mapped, or with only
      the dealloc ioctl left to do. */
  datatype Phase =
    | Allocated
    | Configured(config: Config)
    | Live(config: Config, vma: nat, op: Op)
    | Closing

  datatype Client = Client(file: nat, kind: Kind, handle: Handle, size: u64, initial: Config, phase: Phase)

  datatype World = World(sys: Sys, clients: map<nat, Client>, mem: Mem)

  function ClientWindow(c: Client): Window { Window(c.kind, c.handle.windowId) }

  function KindFor(size: u64): Kind { if size <= 0x20_0000 then W2M else W128G }

  /** mmap works on whole pages. */
  function RoundUp(size: nat): nat { (size + 0xFFF) / 0x1000 * 0x1000 }

  const FOUR_GIGS: nat := 0x1_0000_0000

  function MinusOne(n: u64): u64 { if n == 0 then TWO64 - 1 else n - 1 }

  /** The size, boundary and alignment checks of read_block and write_block. */
  predicate Checks(write: bool, windowSize: u64, addr: u64, size: u64)
  {
    && size <= (if write then FOUR_GIGS else windowSize)
    && size + And(addr, MinusOne(windowSize)) <= windowSize
    && (size <= 8 ==> And(addr, MinusOne(size)) == 0)
  }

  /** The configuration that an access asks for. */
  function AimConfig(c: Client, x: u32, y: u32, addr: u64): (config: Config)
    ensures config.windowId == c.handle.windowId
  {
    MaskSplit(addr, MinusOne(c.size));
    c.initial.(windowId := c.handle.windowId, addr := AndNot(addr, MinusOne(c.size)), xEnd := x, yEnd := y)
  }

  datatype Act =
    | Kernel(e: Event)
    | Construct(c: nat, f: nat, size: u64, initial: Config, fault: bool)
    | Configure(c: nat, fault: bool)
    | Map(c: nat, v: nat, remapFails: bool)
    | Aim(c: nat, write: bool, x: u32, y: u32, addr: u64, data: seq<u8>, samePadding: bool, fault: bool)
    | Byte(c: nat)
    | Return(c: nat)
    | Unmap(c: nat)
    | Destroy(c: nat, fault: bool)
    | ChipStore(loc: Loc, value: u8)

  /** Whether an event names a window that file f holds through a client, or closes f itself. */
  predicate Touches(e: Event, f: nat, w: Window)
  {
    match e
    case ConfigCall(g, k, c, _, _) => g == f && Window(k, c.windowId) == w
    case DeallocCall(g, k, id, _) => g == f && Window(k, id) == w
    case Release(g) => g == f
    case _ => false
  }

  predicate Unmaps(e: Event, v: nat) { e == Munmap(v) }

  /** Driver calls made outside the objects leave the objects' windows and mappings alone; which other
      calls they make, on which files, is free. */
  predicate Foreign(s: World, e: Event)
  {
    forall c <- s.clients ::
      var o := s.clients[c];
      !Touches(e, o.file, ClientWindow(o)) && !(o.phase.Live? && Unmaps(e, o.phase.vma))
  }

  predicate Possible(s: World, a: Act)
  {
    match a
    case Kernel(e) => Foreign(s, e)
    case Construct(c, f, _, initial, _) => c !in s.clients && f in s.sys.files && initial.multicastEn % 2 == 0
    case Configure(c, _) => c in s.clients && s.clients[c].phase.Allocated?
    case Map(c, v, _) => c in s.clients && s.clients[c].phase.Configured? && v !in s.sys.vmas
    case Aim(c, _, _, _, _, data, _, _) =>
      c in s.clients && s.clients[c].phase.Live? && s.clients[c].phase.op.Quiet? && |data| < TWO64
    case Byte(c) =>
      c in s.clients && s.clients[c].phase.Live? && s.clients[c].phase.op.Transfer?
      && s.clients[c].phase.op.done < |s.clients[c].phase.op.data| && s.clients[c].phase.vma in s.sys.vmas
    case Return(c) =>
      c in s.clients && s.clients[c].phase.Live? && s.clients[c].phase.op.Transfer?
      && s.clients[c].phase.op.done == |s.clients[c].phase.op.data|
    case Unmap(c) => c in s.clients && s.clients[c].phase.Live? && s.clients[c].phase.op.Quiet?
    case Destroy(c, _) => c in s.clients && s.clients[c].phase.Closing?
    case ChipStore(_, _) => true
  }

  function SetPhase(s: World, c: nat, phase: Phase): World
    requires c in s.clients
  {
    s.(clients := s.clients[c := s.clients[c].(phase := phase)])
  }

  /** The result of a config ioctl that client c's file makes now. */
  function ConfigResult(s: World, c: nat, config: Config, fault: bool): Result<()>
    requires c in s.clients
  {
    var o := s.clients[c];
    if o.file in s.sys.files then ConfigIoctl(s.sys.dev, s.sys.files[o.file].fd, o.kind, config, fault, false).1
    else Err(EINVAL)
  }

  function Do(s: World, a: Act): World
  {
    if !Possible(s, a) then s
    else
      match a
      case Kernel(e) => s.(sys := Step(s.sys, e))
      case Construct(c, f, size, initial, fault) => ConstructStep(s, c, f, size, initial, fault)
      case Configure(c, fault) =>
        var o := s.clients[c];
        var config := o.initial.(windowId := o.handle.windowId);
        var s' := s.(sys := Step(s.sys, ConfigCall(o.file, o.kind, config, fault, false)));
        SetPhase(s', c, if ConfigResult(s, c, config, fault).Ok? then Configured(config) else Closing)
      case Map(c, v, remapFails) => MapStep(s, c, v, remapFails)
      case Aim(c, write, x, y, addr, data, samePadding, fault) =>
        AimStep(s, c, write, x, y, addr, data, samePadding, fault)
      case Byte(c) => ByteStep(s, c)
      case Return(c) => SetPhase(s, c, s.clients[c].phase.(op := Quiet))
      case Unmap(c) => SetPhase(s.(sys := Step(s.sys, Munmap(s.clients[c].phase.vma))), c, Closing)
      case Destroy(c, fault) =>
        var o := s.clients[c];
        s.(sys := Step(s.sys, DeallocCall(o.file, o.kind, o.handle.windowId, fault)), clients := s.clients - {c})
      case ChipStore(loc, value) => s.(mem := s.mem[loc := value])
  }

  function ConstructStep(s: World, c: nat, f: nat, size: u64, initial: Config, fault: bool): World
    requires f in s.sys.files
  {
    var k := KindFor(size);
    var s' := s.(sys := Step(s.sys, AllocCall(f, k, fault)));
    match Alloc(s.sys.dev, s.sys.files[f].fd, k, fault).2
    case Err(_) => s'
    case Ok(h) =>
      var phase := if size > h.mmapSize then Closing else Allocated;
      s'.(clients := s.clients[c := Client(f, k, h, size, initial, phase)])
  }

  /** mmap of no bytes fails before it reaches the driver. */
  function MapStep(s: World, c: nat, v: nat, remapFails: bool): World
    requires c in s.clients && s.clients[c].phase.Configured?
  {
    var o := s.clients[c];
    if o.size == 0 || o.file !in s.sys.files then SetPhase(s, c, Closing)
    else
      var offset := o.handle.mmapOffset;
      var s' := s.(sys := Step(s.sys, MmapCall(o.file, v, offset, RoundUp(o.size), remapFails)));
      SetPhase(s', c, if NocDriver.Mmap(s.sys.files[o.file].fd, offset, RoundUp(o.size), remapFails).1.Ok?
                      then Live(o.phase.config, v, Quiet) else Closing)
  }

  /** The part of read_block and write_block before the bytes move. The comparison with the cached
      configuration is a memcmp, so it also sees padding: samePadding. */
  function AimStep(s: World, c: nat, write: bool, x: u32, y: u32, addr: u64, data: seq<u8>,
                   samePadding: bool, fault: bool): World
    requires c in s.clients && s.clients[c].phase.Live? && |data| < TWO64
  {
    var o := s.clients[c];
    var config := AimConfig(o, x, y, addr);
    var op := Transfer(write, x, y, addr, data, 0);
    if !Checks(write, o.size, addr, |data|) then s
    else if config == o.phase.config && samePadding then SetPhase(s, c, o.phase.(op := op))
    else
      var s' := s.(sys := Step(s.sys, ConfigCall(o.file, o.kind, config, fault, false)));
      if ConfigResult(s, c, config, fault).Ok? then SetPhase(s', c, Live(config, o.phase.vma, op)) else s'
  }

  /** The physical address of byte i of the object's mapping. */
  function BytePhys(s: World, o: Client, i: nat): nat
    requires o.phase.Live? && o.phase.vma in s.sys.vmas
  {
    s.sys.vmas[o.phase.vma].offset + i
  }

  function ByteStep(s: World, c: nat): World
    requires Possible(s, Byte(c))
  {
    var o := s.clients[c];
    var op := o.phase.op;
    var i := And(op.addr, MinusOne(o.size)) + op.done;
    var phys := BytePhys(s, o, i);
    if i >= s.sys.vmas[o.phase.vma].size || phys >= TWO64 || HwTarget(s.sys.dev.regs, phys).None? then s
    else
      var loc := HwTarget(s.sys.dev.regs, phys).value;
      if op.write then
        SetPhase(s.(mem := s.mem[loc := op.data[op.done]]), c, o.phase.(op := op.(done := op.done + 1)))
      else
        SetPhase(s, c, o.phase.(op := op.(data := op.data[op.done := At(s.mem, loc)], done := op.done + 1)))
  }

  function Play(s: World, acts: seq<Act>): World
    decreases |acts|
  {
    if acts == [] then s else Do(Play(s, acts[..|acts| - 1]), acts[|acts| - 1])
  }

  // ----- What holds for one object, whatever the others do -----

  /** The mapping of a whole object, at the offset its handle gives. */
  function MappingOf(o: Client): Vma
  {
    Vma(o.file, o.handle.mmapOffset, RoundUp(o.size))
  }

  /** The cached configuration is the one in the register, and differs from the initial one in the target only. */
  ghost predicate Agrees(sys: Sys, o: Client, config: Config)
    requires IsWindow(ClientWindow(o))
  {
    && config == o.initial.(windowId := o.handle.windowId, addr := config.addr,
                            xEnd := config.xEnd, yEnd := config.yEnd)
    && Aligned(o.kind, config.addr)
    && RegAt(sys.dev.regs, ClientWindow(o)) == Encode(o.kind, config)
    && o.size <= SizeOf(o.kind)
  }

  ghost predicate Aimed(o: Client, config: Config, op: Op)
  {
    op.Transfer? ==>
      && config == AimConfig(o, op.x, op.y, op.addr)
      && And(op.addr, MinusOne(o.size)) + |op.data| <= o.size
      && op.done <= |op.data|
  }

  ghost predicate Held(sys: Sys, o: Client)
  {
    var w := ClientWindow(o);
    && IsWindow(w) && o.file in sys.files && w in sys.files[o.file].fd.owned
    && o.handle.mmapOffset == WindowAddr(w)
    && (o.kind == W2M <==> o.size <= 0x20_0000)
    && o.initial.multicastEn % 2 == 0
  }

  ghost predicate Good(sys: Sys, o: Client)
  {
    && Held(sys, o)
    && match o.phase
       case Allocated => o.size <= SizeOf(o.kind)
       case Configured(config) => Agrees(sys, o, config)
       case Live(config, v, op) =>
         && Agrees(sys, o, config) && Aimed(o, config, op) && o.size > 0
         && v in sys.vmas && sys.vmas[v] == MappingOf(o)
       case Closing => true
  }

  ghost predicate Apart(o: Client, p: Client)
  {
    && ClientWindow(o) != ClientWindow(p)
    && (o.phase.Live? && p.phase.Live? ==> o.phase.vma != p.phase.vma)
  }

  ghost predicate WorldInv(s: World)
  {
    && Inv(s.sys)
    && (forall c <- s.clients :: Good(s.sys, s.clients[c]))
    && (forall c <- s.clients, d <- s.clients :: c != d ==> Apart(s.clients[c], s.clients[d]))
  }

  // ----- A window is beyond the reach of every driver call that does not name it -----

  lemma StepKeepsWindow(s: Sys, e: Event, f: nat, w: Window)
    requires Inv(s) && f in s.files && IsWindow(w) && w in s.files[f].fd.owned && !Touches(e, f, w)
    ensures f in Step(s, e).files && w in Step(s, e).files[f].fd.owned
    ensures RegAt(Step(s, e).dev.regs, w) == RegAt(s.dev.regs, w)
  {
    hide Inv, DecodeOffset, Alloc, ConfigIoctl, Dealloc, DeallocateSet, SetReg, RegAt, Encode;
    OwnersHeld(s, f, w);
    if Enabled(s, e) {
      match e
      case AllocCall(g, k, fault) => AllocKeeps(s.dev, s.files[g].fd, k, fault, w);
      case ConfigCall(g, k, c, fault, stray) => ConfigKeeps(s.dev, s.files[g].fd, k, c, fault, stray, w);
      case DeallocCall(g, k, id, fault) => DeallocKeeps(s.dev, s.files[g].fd, k, id, fault, w);
      case Release(g) => DeallocateSetExact(s.dev, s.files[g].fd.owned, w);
      case Telemetry(addr) =>
        hide Encode;
        SetRegAt(s.dev.regs, DriverWindow(s.dev), Encode(W2M, TelemetryConfig(s.dev.driver, addr)), w);
      case _ =>
    }
  }

  lemma AllocKeeps(dev: Dev, fd: Fd, k: Kind, fault: bool, w: Window)
    requires IsWindow(w) && w in dev.taken
    ensures var (dev', fd', _) := Alloc(dev, fd, k, fault);
      RegAt(dev'.regs, w) == RegAt(dev.regs, w) && fd.owned <= fd'.owned
  {
    hide RegAt, Deallocate;
    var id := FirstZero(k, dev.reserved + dev.taken, 0);
    if id < Count(k) && fault {
      DeallocateExact(dev.(taken := dev.taken + {Window(k, id)}), Window(k, id), w);
    }
  }

  lemma ConfigKeeps(dev: Dev, fd: Fd, k: Kind, c: Config, fault: bool, stray: bool, w: Window)
    requires IsWindow(w) && !(Window(k, c.windowId) == w && w in fd.owned)
    ensures RegAt(ConfigIoctl(dev, fd, k, c, fault, stray).0.regs, w) == RegAt(dev.regs, w)
  {
    hide RegAt, SetReg, Encode;
    if c.windowId < Count(k) {
      SetRegAt(dev.regs, Window(k, c.windowId), Encode(k, c), w);
    }
  }

  lemma DeallocKeeps(dev: Dev, fd: Fd, k: Kind, id: u32, fault: bool, w: Window)
    requires IsWindow(w) && !(Window(k, id) == w && w in fd.owned)
    ensures var (dev', fd', _) := Dealloc(dev, fd, k, id, fault);
      RegAt(dev'.regs, w) == RegAt(dev.regs, w) && (w in fd.owned ==> w in fd'.owned)
  {
    hide RegAt, Deallocate;
    if id < Count(k) {
      DeallocateExact(dev, Window(k, id), w);
    }
  }

  lemma StepKeepsVma(s: Sys, e: Event, v: nat)
    requires v in s.vmas && !Unmaps(e, v)
    ensures v in Step(s, e).vmas && Step(s, e).vmas[v] == s.vmas[v]
  {
    hide DecodeOffset, Deallocate, DeallocateSet, Encode, SetReg;
  }

  lemma GoodKept(s: Sys, e: Event, o: Client)
    requires Inv(s) && Good(s, o) && !Touches(e, o.file, ClientWindow(o))
    requires o.phase.Live? ==> !Unmaps(e, o.phase.vma)
    ensures Good(Step(s, e), o)
  {
    hide Step, Inv, Encode, RegAt, Aimed;
    StepKeepsWindow(s, e, o.file, ClientWindow(o));
    if o.phase.Live? {
      StepKeepsVma(s, e, o.phase.vma);
    }
  }

  /** An event that concerns object c alone keeps the other objects good. */
  lemma OthersKept(s: World, c: nat, e: Event)
    requires WorldInv(s) && c in s.clients
    requires forall f, w :: Touches(e, f, w) ==> w == ClientWindow(s.clients[c])
    requires forall v :: Unmaps(e, v) ==> s.clients[c].phase.Live? && v == s.clients[c].phase.vma
    ensures forall d <- s.clients :: d != c ==> Good(Step(s.sys, e), s.clients[d])
    ensures Inv(Step(s.sys, e))
  {
    hide Good, Inv, Step, Touches, Unmaps;
    StepInv(s.sys, e);
    forall d <- s.clients | d != c
      ensures Good(Step(s.sys, e), s.clients[d])
    {
      assert Apart(s.clients[d], s.clients[c]);
      GoodKept(s.sys, e, s.clients[d]);
    }
  }

  /** Replacing one object by a good one on the same window and mapping, or with no mapping. */
  lemma Replaced(s: World, sys: Sys, c: nat, o: Client, mem: Mem)
    requires WorldInv(s) && c in s.clients && Inv(sys) && Good(sys, o)
    requires forall d <- s.clients :: d != c ==> Good(sys, s.clients[d])
    requires ClientWindow(o) == ClientWindow(s.clients[c])
    requires o.phase.Live? ==>
      || o.phase.vma !in s.sys.vmas
      || (s.clients[c].phase.Live? && o.phase.vma == s.clients[c].phase.vma)
    ensures WorldInv(World(sys, s.clients[c := o], mem))
  {
    hide Inv, Agrees, Aimed;
    var clients := s.clients[c := o];
    forall d <- clients, e <- clients | d != e
      ensures Apart(clients[d], clients[e])
    {
      assert d in s.clients && e in s.clients && Apart(s.clients[d], s.clients[e]);
    }
  }

  /** What an object holds and what its register shows do not depend on its phase. */
  lemma PhaseFree(sys: Sys, sys': Sys, o: Client, phase: Phase, config: Config)
    requires Held(sys, o) && o.file in sys'.files && ClientWindow(o) in sys'.files[o.file].fd.owned
    requires RegAt(sys'.dev.regs, ClientWindow(o)) == RegAt(sys.dev.regs, ClientWindow(o))
    ensures var o' := o.(phase := phase);
      && Held(sys', o') && MappingOf(o') == MappingOf(o) && ClientWindow(o') == ClientWindow(o)
      && (Agrees(sys, o, config) ==> Agrees(sys', o', config))
  {
    hide RegAt, Encode, Aligned, RoundUp, WindowAddr;
  }

  lemma ConfigOutcome(s: World, c: nat, config: Config, fault: bool)
    requires WorldInv(s) && c in s.clients && config.windowId == s.clients[c].handle.windowId
    ensures var o := s.clients[c];
      var e := ConfigCall(o.file, o.kind, config, fault, false);
      && (ConfigResult(s, c, config, fault).Ok? <==> !fault && Aligned(o.kind, config.addr))
      && Step(s.sys, e) == if ConfigResult(s, c, config, fault).Ok?
           then s.sys.(dev := s.sys.dev.(regs := SetReg(s.sys.dev.regs, ClientWindow(o), Encode(o.kind, config))))
           else s.sys
  {
    hide Inv, Aimed, Encode, SetReg, RegAt, Aligned, Agrees;
    assert Good(s.sys, s.clients[c]);
  }

  function ConfiguredPhase(s: World, c: nat, config: Config, fault: bool): Phase
    requires c in s.clients
  {
    if ConfigResult(s, c, config, fault).Ok? then Configured(config) else Closing
  }

  lemma ConfigureGood(s: World, c: nat, config: Config, fault: bool)
    requires WorldInv(s) && c in s.clients && s.clients[c].phase.Allocated?
    requires config == s.clients[c].initial.(windowId := s.clients[c].handle.windowId)
    ensures var o := s.clients[c];
      Good(Step(s.sys, ConfigCall(o.file, o.kind, config, fault, false)),
           o.(phase := ConfiguredPhase(s, c, config, fault)))
  {
    hide Inv, Encode, SetReg, RegAt, Aligned, Step, Aimed, ConfigResult;
    var o := s.clients[c];
    assert Good(s.sys, o);
    ConfigOutcome(s, c, config, fault);
    SetRegAt(s.sys.dev.regs, ClientWindow(o), Encode(o.kind, config), ClientWindow(o));
  }

  lemma ConfigureInv(s: World, c: nat, fault: bool)
    requires WorldInv(s) && Possible(s, Configure(c, fault))
    ensures WorldInv(Do(s, Configure(c, fault)))
  {
    hide Step, ConstructStep, MapStep, AimStep, ByteStep, WorldInv, ConfigResult, Good, Inv;
    var o := s.clients[c];
    var config := o.initial.(windowId := o.handle.windowId);
    var e := ConfigCall(o.file, o.kind, config, fault, false);
    OthersKept(s, c, e);
    ConfigureGood(s, c, config, fault);
    Replaced(s, Step(s.sys, e), c, o.(phase := ConfiguredPhase(s, c, config, fault)), s.mem);
  }

  /** An accepted access leaves the object aimed; a rejected one leaves cache and register as they were. */
  lemma AimInv(s: World, c: nat, write: bool, x: u32, y: u32, addr: u64, data: seq<u8>, same: bool, fault: bool)
    requires WorldInv(s) && Possible(s, Aim(c, write, x, y, addr, data, same, fault))
    ensures WorldInv(Do(s, Aim(c, write, x, y, addr, data, same, fault)))
  {
    hide Step, ConstructStep, MapStep, ByteStep, ConfigResult, AimConfig, Checks, Good, Inv;
    var o := s.clients[c];
    var config, op := AimConfig(o, x, y, addr), Transfer(write, x, y, addr, data, 0);
    var e := ConfigCall(o.file, o.kind, config, fault, false);
    if Checks(write, o.size, addr, |data|) {
      if config == o.phase.config && same {
        AimedSkip(s, c, op);
        hide WorldInv, Possible;
        Replaced(s, s.sys, c, o.(phase := o.phase.(op := op)), s.mem);
      } else {
        var phase := if ConfigResult(s, c, config, fault).Ok? then Live(config, o.phase.vma, op) else o.phase;
        AimedReconfigured(s, c, op, fault);
        OthersKept(s, c, e);
        hide WorldInv, Possible;
        Replaced(s, Step(s.sys, e), c, o.(phase := phase), s.mem);
        assert s.clients[c := o] == s.clients;
      }
    }
  }

  lemma ChecksAim(o: Client, op: Op)
    requires op.Transfer? && op.done == 0 && |op.data| < TWO64
    requires Checks(op.write, o.size, op.addr, |op.data|)
    ensures Aimed(o, AimConfig(o, op.x, op.y, op.addr), op)
  {
    hide And, AimConfig;
  }

  lemma AimedSkip(s: World, c: nat, op: Op)
    requires WorldInv(s) && c in s.clients && s.clients[c].phase.Live?
    requires op.Transfer? && op.done == 0 && |op.data| < TWO64
    requires Checks(op.write, s.clients[c].size, op.addr, |op.data|)
    requires s.clients[c].phase.config == AimConfig(s.clients[c], op.x, op.y, op.addr)
    ensures Good(s.sys, s.clients[c].(phase := s.clients[c].phase.(op := op)))
  {
    hide Inv, Checks, Aimed, AimConfig, Agrees, MappingOf;
    var o := s.clients[c];
    assert Good(s.sys, o);
    ChecksAim(o.(phase := o.phase.(op := op)), op);
    AimSame(o, o.phase.(op := op), op);
    PhaseFree(s.sys, s.sys, o, o.phase.(op := op), o.phase.config);
  }

  lemma AimSame(o: Client, phase: Phase, op: Op)
    requires op.Transfer?
    ensures AimConfig(o.(phase := phase), op.x, op.y, op.addr) == AimConfig(o, op.x, op.y, op.addr)
  {
  }

  lemma AimedReconfigured(s: World, c: nat, op: Op, fault: bool)
    requires WorldInv(s) && c in s.clients && s.clients[c].phase.Live?
    requires op.Transfer? && op.done == 0 && |op.data| < TWO64
    requires Checks(op.write, s.clients[c].size, op.addr, |op.data|)
    ensures var o := s.clients[c];
      var config := AimConfig(o, op.x, op.y, op.addr);
      var phase := if ConfigResult(s, c, config, fault).Ok? then Live(config, o.phase.vma, op) else o.phase;
      Good(Step(s.sys, ConfigCall(o.file, o.kind, config, fault, false)), o.(phase := phase))
  {
    var o := s.clients[c];
    var config := AimConfig(o, op.x, op.y, op.addr);
    hide Inv, Checks, Aimed, Step, SetReg, RegAt, Encode, AndNot, MinusOne, Aligned;
    assert Good(s.sys, o);
    ConfigOutcome(s, c, config, fault);
    SetRegAt(s.sys.dev.regs, ClientWindow(o), Encode(o.kind, config), ClientWindow(o));
    var phase := Live(config, o.phase.vma, op);
    AimSame(o, phase, op);
    ChecksAim(o.(phase := phase), op);
    hide ConfigResult, WorldInv;
  }

  lemma ByteInv(s: World, c: nat)
    requires WorldInv(s) && Possible(s, Byte(c))
    ensures WorldInv(Do(s, Byte(c)))
  {
    hide Step, ConstructStep, MapStep, AimStep, ConfigResult, HwTarget, At, WorldInv, Good, Inv;
    var o, s' := s.clients[c], Do(s, Byte(c));
    if s' != s {
      var phase := s'.clients[c].phase;
      assert s'.sys == s.sys && s'.clients == s.clients[c := o.(phase := phase)];
      hide Do;
      ByteAimed(s, c);
      ByteGood(s, c, phase);
      AllGood(s);
      Replaced(s, s.sys, c, o.(phase := phase), s'.mem);
    }
  }

  lemma ByteGood(s: World, c: nat, phase: Phase)
    requires WorldInv(s) && c in s.clients && s.clients[c].phase.Live? && phase.Live?
    requires phase.config == s.clients[c].phase.config && phase.vma == s.clients[c].phase.vma
    requires var o := s.clients[c];
      Aimed(o, o.phase.config, o.phase.op) ==> Aimed(o.(phase := phase), o.phase.config, phase.op)
    ensures Good(s.sys, s.clients[c].(phase := phase))
  {
    hide Inv, Agrees, MappingOf, RegAt, Aimed;
    var o := s.clients[c];
    assert Good(s.sys, o);
    PhaseFree(s.sys, s.sys, o, phase, o.phase.config);
  }

  lemma ByteAimed(s: World, c: nat)
    requires Possible(s, Byte(c)) && Do(s, Byte(c)) != s
    ensures var o, s' := s.clients[c], Do(s, Byte(c));
      && s'.clients[c].phase.Live? && s'.clients[c].phase.config == o.phase.config
      && s'.clients[c].phase.vma == o.phase.vma
      && (Aimed(o, o.phase.config, o.phase.op) ==> Aimed(s'.clients[c], o.phase.config, s'.clients[c].phase.op))
  {
    hide Step, ConstructStep, MapStep, AimStep, ConfigResult;
    hide HwTarget, At, And, AndNot;
  }

  lemma ReturnInv(s: World, c: nat)
    requires WorldInv(s) && Possible(s, Return(c))
    ensures WorldInv(Do(s, Return(c)))
  {
    hide Step, ConstructStep, MapStep, AimStep, ByteStep, ConfigResult, Inv, WorldInv, Good;
    ReturnGood(s, c);
    AllGood(s);
    Replaced(s, s.sys, c, s.clients[c].(phase := s.clients[c].phase.(op := Quiet)), s.mem);
  }

  lemma AllGood(s: World)
    requires WorldInv(s)
    ensures Inv(s.sys) && forall d <- s.clients :: Good(s.sys, s.clients[d])
  {
  }

  lemma ReturnGood(s: World, c: nat)
    requires WorldInv(s) && c in s.clients && s.clients[c].phase.Live?
    ensures Good(s.sys, s.clients[c].(phase := s.clients[c].phase.(op := Quiet)))
  {
    hide Inv, Agrees, MappingOf, RegAt;
    var o := s.clients[c];
    assert Good(s.sys, o);
    PhaseFree(s.sys, s.sys, o, o.phase.(op := Quiet), o.phase.config);
  }

  lemma UnmapInv(s: World, c: nat)
    requires WorldInv(s) && Possible(s, Unmap(c))
    ensures WorldInv(Do(s, Unmap(c)))
  {
    hide Step, ConstructStep, MapStep, AimStep, ByteStep, ConfigResult, Inv, WorldInv, Good;
    var o := s.clients[c];
    var e := Munmap(o.phase.vma);
    OthersKept(s, c, e);
    UnmapGood(s, c);
    Replaced(s, Step(s.sys, e), c, o.(phase := Closing), s.mem);
  }

  lemma UnmapGood(s: World, c: nat)
    requires WorldInv(s) && c in s.clients && s.clients[c].phase.Live?
    ensures var o := s.clients[c]; Good(Step(s.sys, Munmap(o.phase.vma)), o.(phase := Closing))
  {
    hide Inv, Step, Agrees, Aimed, Held, MappingOf, RegAt;
    var o := s.clients[c];
    assert Good(s.sys, o);
    KeptHeld(s.sys, Munmap(o.phase.vma), o);
    PhaseFree(s.sys, Step(s.sys, Munmap(o.phase.vma)), o, Closing, o.initial);
  }

  lemma KeptHeld(s: Sys, e: Event, o: Client)
    requires Inv(s) && Held(s, o) && !Touches(e, o.file, ClientWindow(o))
    ensures var s' := Step(s, e);
      && o.file in s'.files && ClientWindow(o) in s'.files[o.file].fd.owned
      && RegAt(s'.dev.regs, ClientWindow(o)) == RegAt(s.dev.regs, ClientWindow(o))
  {
    StepKeepsWindow(s, e, o.file, ClientWindow(o));
  }

  /** The mapping that a successful Map makes. */
  lemma MapOutcome(s: World, c: nat, v: nat, remapFails: bool)
    requires Possible(s, Map(c, v, remapFails)) && s.clients[c].size != 0
    requires s.clients[c].file in s.sys.files && IsWindow(ClientWindow(s.clients[c]))
    ensures var o, s' := s.clients[c], Do(s, Map(c, v, remapFails));
      var offset := o.handle.mmapOffset;
      && s'.sys == Step(s.sys, MmapCall(o.file, v, offset, RoundUp(o.size), remapFails)) && s'.mem == s.mem
      && s'.clients == s.clients[c := s'.clients[c]]
      && (s'.clients[c] == o.(phase := Closing)
          || (s'.clients[c] == o.(phase := Live(o.phase.config, v, Quiet))
              && v in s'.sys.vmas && s'.sys.vmas[v] == MappingOf(o)))
  {
    hide ConstructStep, AimStep, ByteStep, ConfigResult;
    hide NocDriver.Mmap, WindowAddr;
  }

  lemma MapGood(s: World, c: nat, v: nat, remapFails: bool)
    requires WorldInv(s) && Possible(s, Map(c, v, remapFails)) && s.clients[c].size != 0
    ensures var s' := Do(s, Map(c, v, remapFails)); Good(s'.sys, s'.clients[c])
  {
    var o, s' := s.clients[c], Do(s, Map(c, v, remapFails));
    hide Inv, Step, Do, RegAt, WindowAddr, Agrees, MappingOf;
    assert Good(s.sys, o);
    var e := MmapCall(o.file, v, o.handle.mmapOffset, RoundUp(o.size), remapFails);
    MapOutcome(s, c, v, remapFails);
    KeptHeld(s.sys, e, o);
    PhaseFree(s.sys, s'.sys, o, s'.clients[c].phase, o.phase.config);
  }

  lemma MapInv(s: World, c: nat, v: nat, remapFails: bool)
    requires WorldInv(s) && Possible(s, Map(c, v, remapFails))
    ensures WorldInv(Do(s, Map(c, v, remapFails)))
  {
    hide Step, Inv, Agrees, Aimed;
    var o := s.clients[c];
    assert Good(s.sys, o);
    if o.size == 0 {
      Replaced(s, s.sys, c, o.(phase := Closing), s.mem);
    } else {
      hide Do, WindowAddr, Good;
      var s' := Do(s, Map(c, v, remapFails));
      MapOutcome(s, c, v, remapFails);
      MapGood(s, c, v, remapFails);
      OthersKept(s, c, MmapCall(o.file, v, o.handle.mmapOffset, RoundUp(o.size), remapFails));
      hide WorldInv;
      Replaced(s, s'.sys, c, s'.clients[c], s.mem);
    }
  }

  lemma DestroyInv(s: World, c: nat, fault: bool)
    requires WorldInv(s) && Possible(s, Destroy(c, fault))
    ensures WorldInv(Do(s, Destroy(c, fault)))
  {
    hide Step, ConstructStep, MapStep, AimStep, ByteStep, ConfigResult, Inv, Good, WorldInv;
    var o := s.clients[c];
    OthersKept(s, c, DeallocCall(o.file, o.kind, o.handle.windowId, fault));
    Removed(s, Step(s.sys, DeallocCall(o.file, o.kind, o.handle.windowId, fault)), c);
  }

  lemma Removed(s: World, sys: Sys, c: nat)
    requires WorldInv(s) && Inv(sys) && forall d <- s.clients :: d != c ==> Good(sys, s.clients[d])
    ensures WorldInv(s.(sys := sys, clients := s.clients - {c}))
  {
    hide Inv, Good, Apart;
  }

  /** A new object holds a window that nobody held. */
  lemma AllocGives(s: Sys, f: nat, k: Kind, fault: bool)
    requires f in s.files && Alloc(s.dev, s.files[f].fd, k, fault).2.Ok?
    ensures var h := Alloc(s.dev, s.files[f].fd, k, fault).2.value;
      var w, s' := Window(k, h.windowId), Step(s, AllocCall(f, k, fault));
      && IsWindow(w) && w !in s.dev.taken && h.mmapOffset == WindowAddr(w) && h.mmapSize == SizeOf(k)
      && f in s'.files && w in s'.files[f].fd.owned
  {
    hide WindowAddr, Deallocate;
  }

  lemma ConstructInv(s: World, c: nat, f: nat, size: u64, initial: Config, fault: bool)
    requires WorldInv(s) && Possible(s, Construct(c, f, size, initial, fault))
    ensures WorldInv(Do(s, Construct(c, f, size, initial, fault)))
  {
    hide Step, MapStep, AimStep, ByteStep, ConfigResult, Inv, Alloc, Good, WorldInv;
    var k := KindFor(size);
    var e := AllocCall(f, k, fault);
    NothingTouched(s, e);
    var r := Alloc(s.sys.dev, s.sys.files[f].fd, k, fault).2;
    if r.Err? {
      Kept(s, Step(s.sys, e));
    } else {
      AllocGives(s.sys, f, k, fault);
      var phase := if size > r.value.mmapSize then Closing else Allocated;
      var o := Client(f, k, r.value, size, initial, phase);
      FreshGood(Step(s.sys, e), o);
      Added(s, Step(s.sys, e), c, o);
    }
  }

  lemma NothingTouched(s: World, e: Event)
    requires WorldInv(s) && e.AllocCall?
    ensures Inv(Step(s.sys, e)) && forall d <- s.clients :: Good(Step(s.sys, e), s.clients[d])
  {
    hide Inv, Step, Agrees, Aimed, Good;
    StepInv(s.sys, e);
    forall d <- s.clients
      ensures Good(Step(s.sys, e), s.clients[d])
    {
      GoodKept(s.sys, e, s.clients[d]);
    }
  }

  lemma Kept(s: World, sys: Sys)
    requires WorldInv(s) && Inv(sys) && forall d <- s.clients :: Good(sys, s.clients[d])
    ensures WorldInv(s.(sys := sys))
  {
    hide Inv, Good, Apart;
  }

  lemma FreshGood(sys: Sys, o: Client)
    requires Held(sys, o) && (o.phase.Closing? || (o.phase.Allocated? && o.size <= SizeOf(o.kind)))
    ensures Good(sys, o)
  {
  }

  /** A new object on a window that nobody had. */
  lemma Added(s: World, sys: Sys, c: nat, o: Client)
    requires WorldInv(s) && c !in s.clients && Inv(sys) && Good(sys, o) && !o.phase.Live?
    requires forall d <- s.clients :: Good(sys, s.clients[d])
    requires ClientWindow(o) !in s.sys.dev.taken
    ensures WorldInv(World(sys, s.clients[c := o], s.mem))
  {
    hide Inv, Agrees, Aimed;
    forall d <- s.clients
      ensures ClientWindow(s.clients[d]) in s.sys.dev.taken
    {
      assert Good(s.sys, s.clients[d]);
      OwnersHeld(s.sys, s.clients[d].file, ClientWindow(s.clients[d]));
    }
    hide Good;
  }

  lemma OwnersHeld(s: Sys, f: nat, w: Window)
    requires Inv(s) && f in s.files && w in s.files[f].fd.owned
    ensures w in s.dev.taken && w !in s.dev.reserved && w != DriverWindow(s.dev)
    ensures forall g <- s.files :: w in s.files[g].fd.owned ==> g == f
  {
    OwnersFacts(s, f, w);
  }

  lemma ActInv(s: World, a: Act)
    requires WorldInv(s)
    ensures WorldInv(Do(s, a))
  {
    if Possible(s, a) {
      match a
      case Kernel(e) => KernelInv(s, e);
      case Construct(c, f, size, initial, fault) => ConstructInv(s, c, f, size, initial, fault);
      case Configure(c, fault) => ConfigureInv(s, c, fault);
      case Map(c, v, remapFails) => MapInv(s, c, v, remapFails);
      case Aim(c, write, x, y, addr, data, same, fault) => AimInv(s, c, write, x, y, addr, data, same, fault);
      case Byte(c) => ByteInv(s, c);
      case Return(c) => ReturnInv(s, c);
      case Unmap(c) => UnmapInv(s, c);
      case Destroy(c, fault) => DestroyInv(s, c, fault);
      case ChipStore(loc, value) =>
    }
  }

  lemma KernelInv(s: World, e: Event)
    requires WorldInv(s) && Foreign(s, e)
    ensures WorldInv(s.(sys := Step(s.sys, e)))
  {
    hide Step, ConstructStep, MapStep, AimStep, ByteStep, ConfigResult;
    hide Inv, Step, Good, Touches, Unmaps;
    StepInv(s.sys, e);
    forall d <- s.clients
      ensures Good(Step(s.sys, e), s.clients[d])
    {
      GoodKept(s.sys, e, s.clients[d]);
    }
  }

  /** The world after a probe: no file open, no object, any memory. */
  function Start(dev: Dev, mem: Mem): World { World(Boot(dev), map[], mem) }

  lemma {:induction false} WorldInvHolds(regs: RegFile, remapFails: bool, dev: Dev, mem: Mem, acts: seq<Act>)
    requires Probe(regs, remapFails) == Ok(dev)
    ensures WorldInv(Play(Start(dev, mem), acts))
    decreases |acts|
  {
    hide Do, Inv;
    if acts == [] {
      BootInv(regs, remapFails, dev);
    } else {
      WorldInvHolds(regs, remapFails, dev, mem, acts[..|acts| - 1]);
      ActInv(Play(Start(dev, mem), acts[..|acts| - 1]), acts[|acts| - 1]);
    }
  }

  /** The mapping of an object never runs past its window. */
  lemma ObjectsFit(s: World, c: nat)
    requires WorldInv(s) && c in s.clients && s.clients[c].phase.Live?
    ensures var v := s.clients[c].phase.vma;
      v in s.sys.vmas && NocMappings.Fits(s.sys.vmas[v].offset, s.sys.vmas[v].size)
  {
    hide Inv, DecodeOffset, Agrees, Aimed;
    var o := s.clients[c];
    assert Good(s.sys, o);
    RoundedFits(s.sys, o, o.phase.config);
    DecodeInverts(ClientWindow(o));
  }

  lemma RoundedFits(sys: Sys, o: Client, config: Config)
    requires IsWindow(ClientWindow(o)) && Agrees(sys, o, config)
    ensures RoundUp(o.size) <= SizeOf(o.kind)
  {
    hide RegAt, Encode;
  }

  /** Whatever went on around it, an object being destroyed gives its window back, at its identity words, exactly when
      its file has no mapping of the window left and no remap of it ever failed; otherwise nothing changes. */
  lemma DestroyGivesBack(s: World, c: nat)
    requires WorldInv(s) && Possible(s, Destroy(c, false))
    ensures var o, t := s.clients[c], Do(s, Destroy(c, false)).sys;
      var f, w := o.file, ClientWindow(o);
      && f in s.sys.files && IsWindow(w) && w in s.sys.dev.taken && w in s.sys.files[f].fd.owned
      && if Mappings(s.sys.vmas, f, w) == {} && CountOf(s.sys.files[f].failed, w) == 0 then
           && t.dev.taken == s.sys.dev.taken - {w} && f in t.files && t.vmas == s.sys.vmas
           && t.files == s.sys.files[f := t.files[f]]
           && t.files[f].fd == s.sys.files[f].fd.(owned := s.sys.files[f].fd.owned - {w})
           && RegAt(t.dev.regs, w) == IdentityWords(w)
         else t == s.sys
  {
    hide Step, ConstructStep, MapStep, AimStep, ByteStep, ConfigResult, DecodeOffset, Mappings, Inv;
    var o := s.clients[c];
    assert Good(s.sys, o);
    OwnersHeld(s.sys, o.file, ClientWindow(o));
    DeallocOutcome(s.sys, o.file, ClientWindow(o));
  }

  lemma DeallocOutcome(s: Sys, f: nat, w: Window)
    requires Inv(s) && f in s.files && IsWindow(w) && w in s.files[f].fd.owned
    ensures var t := Step(s, DeallocCall(f, w.kind, w.id, false));
      if Mappings(s.vmas, f, w) == {} && CountOf(s.files[f].failed, w) == 0 then
        && t.dev.taken == s.dev.taken - {w} && f in t.files && t.vmas == s.vmas && t.files == s.files[f := t.files[f]]
        && t.files[f].fd == s.files[f].fd.(owned := s.files[f].fd.owned - {w})
        && RegAt(t.dev.regs, w) == IdentityWords(w)
      else t == s
  {
    hide DecodeOffset, Mappings, Deallocate, Partition, FreeIdle, RegAt, IdentityWords;
    assert FileBalanced(s.files[f], s.vmas, f);
    assert Counted(s.files[f], |Mappings(s.vmas, f, w)|, w);
    DeallocatedIdle(s.dev, w);
    DeallocateExact(s.dev, w, w);
    SameFiles(s, s.dev, f);
  }

  // ----- Refinement: the objects act on one flat memory per tile -----

  /** The machine that a user of the objects sees: memory, and the transfers under way. It has no windows,
      registers, files, mappings or caches. */
  datatype Flat = Flat(mem: Mem, ops: map<nat, Op>)

  predicate Transferring(o: Client) { o.phase.Live? && o.phase.op.Transfer? }

  function Abs(s: World): Flat
  {
    Flat(s.mem, map c | c in s.clients && Transferring(s.clients[c]) :: s.clients[c].phase.op)
  }

  /** Byte number done of a transfer, between the buffer and the addressed tile at exactly addr + done. */
  function FlatByte(f: Flat, c: nat): Flat
    requires c in f.ops && f.ops[c].Transfer? && f.ops[c].done < |f.ops[c].data|
  {
    var op := f.ops[c];
    var loc := Loc(op.x % 64, op.y % 64, op.addr + op.done);
    if op.write then
      Flat(f.mem[loc := op.data[op.done]], f.ops[c := op.(done := op.done + 1)])
    else
      f.(ops := f.ops[c := op.(data := op.data[op.done := At(f.mem, loc)], done := op.done + 1)])
  }

  /** The moves of the flat machine: a transfer may be accepted or refused, its bytes move one at a time in
      order, other agents store, and nothing else has any effect. */
  ghost predicate FlatNext(f: Flat, f': Flat, a: Act)
  {
    match a
    case Aim(c, write, x, y, addr, data, _, _) =>
      f' == f || (c !in f.ops && f' == f.(ops := f.ops[c := Transfer(write, x, y, addr, data, 0)]))
    case Byte(c) =>
      if c in f.ops && f.ops[c].Transfer? && f.ops[c].done < |f.ops[c].data| then f' == FlatByte(f, c) else f' == f
    case Return(c) =>
      if c in f.ops && f.ops[c].Transfer? && f.ops[c].done == |f.ops[c].data| then f' == f.(ops := f.ops - {c})
      else f' == f
    case ChipStore(loc, value) => f' == f.(mem := f.mem[loc := value])
    case _ => f' == f
  }

  /** The hardware takes the next byte of a transfer to the byte the caller addressed, whether or not the
      register was written for this transfer. */
  lemma ByteReaches(s: World, c: nat)
    requires WorldInv(s) && Possible(s, Byte(c))
    ensures var o := s.clients[c];
      var op := o.phase.op;
      var i := And(op.addr, MinusOne(o.size)) + op.done;
      var phys := BytePhys(s, o, i);
      && i < s.sys.vmas[o.phase.vma].size && phys < TWO64
      && HwTarget(s.sys.dev.regs, phys) == Some(Loc(op.x % 64, op.y % 64, op.addr + op.done))
  {
    hide Inv, HwTarget, Agrees, Aimed, WindowAddr, And, MinusOne, Foreign, RoundUp, Apart;
    var o := s.clients[c];
    assert Good(s.sys, o);
    RoundUpCovers(o.size);
    TransferTarget(s.sys, o, o.phase.config, o.phase.op);
  }

  lemma TransferTarget(sys: Sys, o: Client, config: Config, op: Op)
    requires IsWindow(ClientWindow(o)) && Agrees(sys, o, config) && Aimed(o, config, op)
    requires op.Transfer? && op.done < |op.data| && o.initial.multicastEn % 2 == 0
    requires o.handle.mmapOffset == WindowAddr(ClientWindow(o))
    ensures var phys := o.handle.mmapOffset + (And(op.addr, MinusOne(o.size)) + op.done);
      && And(op.addr, MinusOne(o.size)) + op.done < o.size && phys < TWO64
      && HwTarget(sys.dev.regs, phys) == Some(Loc(op.x % 64, op.y % 64, op.addr + op.done))
  {
    hide HwTarget, RegAt, Encode, Aligned, And, AndNot;
    var i := And(op.addr, MinusOne(o.size)) + op.done;
    MaskSplit(op.addr, MinusOne(o.size));
    assert i < o.size <= SizeOf(o.kind);
    Translation(sys.dev.regs, ClientWindow(o), config, i);
  }

  lemma RoundUpCovers(size: nat)
    ensures size <= RoundUp(size) < size + 0x1000 && RoundUp(size) % 0x1000 == 0
  {
  }

  /** What replacing one object does to the abstract view. */
  lemma AbsReplace(s: World, s': World, c: nat, o: Client)
    requires c in s.clients && s'.clients == s.clients[c := o]
    ensures Abs(s').ops == if Transferring(o) then Abs(s).ops[c := o.phase.op] else Abs(s).ops - {c}
    ensures !Transferring(s.clients[c]) ==> c !in Abs(s).ops && Abs(s).ops - {c} == Abs(s).ops
    ensures Transferring(s.clients[c]) ==> c in Abs(s).ops && Abs(s).ops[c] == s.clients[c].phase.op
  {
  }

  lemma RefinesByte(s: World, c: nat)
    requires WorldInv(s) && Possible(s, Byte(c))
    ensures FlatNext(Abs(s), Abs(Do(s, Byte(c))), Byte(c))
  {
    hide Step, ConstructStep, MapStep, AimStep, ConfigResult, HwTarget, And, MinusOne, WorldInv, At, BytePhys, Abs;
    ByteReaches(s, c);
    var s' := Do(s, Byte(c));
    AbsReplace(s, s', c, s'.clients[c]);
    AbsMem(s);
    AbsMem(s');
  }

  lemma AbsMem(s: World)
    ensures Abs(s).mem == s.mem
  {
  }

  lemma AbsSame(s: World, s': World)
    requires s'.clients == s.clients && s'.mem == s.mem
    ensures Abs(s') == Abs(s)
  {
  }

  /** Every act of the objects, and of everything around them, is a move of the flat machine. */
  lemma RefinesFlatMemory(s: World, a: Act)
    requires WorldInv(s)
    ensures FlatNext(Abs(s), Abs(Do(s, a)), a)
  {
    hide Step, ByteStep, Checks, AimConfig, ConfigResult, Alloc, Mmap, WorldInv, Foreign, Abs;
    if Possible(s, a) {
      var s' := Do(s, a);
      AbsMem(s);
      AbsMem(s');
      match a
      case Kernel(e) => AbsSame(s, s');
      case Construct(c, f, size, initial, fault) => RefinesConstruct(s, c, f, size, initial, fault);
      case Configure(c, fault) => AbsReplace(s, s', c, s'.clients[c]);
      case Map(c, v, remapFails) => AbsReplace(s, s', c, s'.clients[c]);
      case Aim(c, write, x, y, addr, data, same, fault) => RefinesAim(s, c, write, x, y, addr, data, same, fault);
      case Byte(c) => RefinesByte(s, c);
      case Return(c) => AbsReplace(s, s', c, s'.clients[c]);
      case Unmap(c) => AbsReplace(s, s', c, s'.clients[c]);
      case Destroy(c, fault) => AbsRemove(s, s', c);
      case ChipStore(loc, value) => AbsStore(s, loc, value);
    } else {
      RefinesNothing(s, a);
    }
  }

  /** The objects are never stuck in a transfer that the flat machine could go on with. */
  lemma RefinesNothing(s: World, a: Act)
    requires WorldInv(s) && !Possible(s, a)
    ensures FlatNext(Abs(s), Abs(s), a)
  {
    hide Inv, Foreign, Agrees, Aimed, Apart, MappingOf;
    if a.Byte? && a.c in s.clients && Transferring(s.clients[a.c]) {
      assert Good(s.sys, s.clients[a.c]);
    }
  }

  lemma AbsStore(s: World, loc: Loc, value: u8)
    ensures Abs(s.(mem := s.mem[loc := value])) == Flat(s.mem[loc := value], Abs(s).ops)
  {
    assert Abs(s.(mem := s.mem[loc := value])).ops == Abs(s).ops;
  }

  lemma AbsRemove(s: World, s': World, c: nat)
    requires c in s.clients && !Transferring(s.clients[c]) && s'.clients == s.clients - {c} && s'.mem == s.mem
    ensures Abs(s') == Abs(s)
  {
    assert Abs(s').ops == Abs(s).ops;
  }

  lemma RefinesConstruct(s: World, c: nat, f: nat, size: u64, initial: Config, fault: bool)
    requires Possible(s, Construct(c, f, size, initial, fault))
    ensures Abs(Do(s, Construct(c, f, size, initial, fault))) == Abs(s)
  {
    hide Step, Alloc;
    assert Abs(Do(s, Construct(c, f, size, initial, fault))).ops == Abs(s).ops;
  }

  lemma RefinesAim(s: World, c: nat, write: bool, x: u32, y: u32, addr: u64, data: seq<u8>, same: bool, fault: bool)
    requires Possible(s, Aim(c, write, x, y, addr, data, same, fault))
    ensures var a := Aim(c, write, x, y, addr, data, same, fault); FlatNext(Abs(s), Abs(Do(s, a)), a)
  {
    hide Step, Checks, AimConfig, ConfigResult, Abs;
    var s' := Do(s, Aim(c, write, x, y, addr, data, same, fault));
    AbsMem(s);
    AbsMem(s');
    if s'.clients == s.clients {
      AbsSame(s, s');
    } else {
      AbsReplace(s, s', c, s'.clients[c]);
    }
  }

  /** The refinement along every run from a probe. */
  lemma RunsRefineFlatMemory(regs: RegFile, remapFails: bool, dev: Dev, mem: Mem, acts: seq<Act>, a: Act)
    requires Probe(regs, remapFails) == Ok(dev)
    ensures var s := Play(Start(dev, mem), acts);
      FlatNext(Abs(s), Abs(Do(s, a)), a)
    ensures Abs(Start(dev, mem)) == Flat(mem, map[])
  {
    hide Do, WorldInv, FlatNext, Play;
    WorldInvHolds(regs, remapFails, dev, mem, acts);
    RefinesFlatMemory(Play(Start(dev, mem), acts), a);
  }

  // ----- When an access is accepted -----

  /** After the checks, an access is accepted or not by its address alone: by what the object did before,
      by the cache or by padding nothing changes. A refused access leaves the whole world as it was. */
  lemma AcceptedExactly(s: World, c: nat, write: bool, x: u32, y: u32, addr: u64, data: seq<u8>, same: bool)
    requires WorldInv(s) && Possible(s, Aim(c, write, x, y, addr, data, same, false))
    ensures var o, s' := s.clients[c], Do(s, Aim(c, write, x, y, addr, data, same, false));
      if Checks(write, o.size, addr, |data|) && Aligned(o.kind, AndNot(addr, MinusOne(o.size))) then
        s'.clients[c].phase.Live? && s'.clients[c].phase.op == Transfer(write, x, y, addr, data, 0)
      else s' == s
  {
    hide Step, ConstructStep, MapStep, ByteStep, Checks, And, AndNot, MinusOne, Aligned;
    var o := s.clients[c];
    assert Good(s.sys, o);
    ConfigOutcome(s, c, AimConfig(o, x, y, addr), false);
    hide WorldInv, ConfigResult, Encode, SetReg;
  }

  /** For the two sizes that NOC opens: a 2M object takes every address, a 4G object exactly those whose
      offset within a 128G page is below 4G. */
  lemma AcceptedSizes(addr: u64)
    ensures Aligned(W2M, AndNot(addr, MinusOne(0x20_0000)))
    ensures Aligned(W128G, AndNot(addr, MinusOne(FOUR_GIGS))) <==> addr % 0x20_0000_0000 < FOUR_GIGS
  {
    Pow2Table();
    MaskPow2(addr, 21);
    MaskPow2(addr, 32);
    AlignedParts(addr);
  }

  lemma AlignedParts(addr: u64)
    ensures (addr - addr % 0x20_0000) % 0x20_0000 == 0
    ensures (addr - addr % 0x1_0000_0000) % 0x20_0000_0000 == 0 <==> addr % 0x20_0000_0000 < 0x1_0000_0000
  {
  }

  /** The checks are the same for reads and writes as long as the object is no larger than 4G. */
  lemma ChecksAgree(windowSize: u64, addr: u64, size: u64)
    ensures windowSize <= FOUR_GIGS ==>
      (Checks(true, windowSize, addr, size) <==> Checks(false, windowSize, addr, size))
    ensures Checks(true, windowSize, addr, size) ==> size <= FOUR_GIGS
  {
  }
}
