/** The userspace objects themselves: NocWindow with its cached configuration, SmartNocWindow's block
    accesses, and NOC. Each call is taken without interference here; NocClients covers every interleaving. */
module NocUser {
  import opened Wrappers
  import opened BitFields
  import opened NocRegisters
  import opened NocDriver
  import opened NocDevice
  import opened NocClients
  import opened NocAccess

  /** What an exception says. */
  datatype Thrown =
    | CouldNotAllocate | SizeTooLarge | CouldNotConfigure | CouldNotMap | CouldNotReconfigure
    | BlockTooLarge | CrossesBoundary | Unaligned

  datatype Outcome<+T> = Done(value: T) | Throw(what: Thrown)

  class Chip {
    var mem: Mem

    constructor (m: Mem)
      ensures mem == m
    {
      mem := m;
    }
  }

  /** The bytes addr..addr+size-1 of one tile. */
  function FlatRead(mem: Mem, x: nat, y: nat, addr: nat, size: nat): (r: seq<u8>)
    ensures |r| == size && forall i :: 0 <= i < size ==> r[i] == At(mem, Loc(x, y, addr + i))
    decreases size
  {
    if size == 0 then [] else FlatRead(mem, x, y, addr, size - 1) + [At(mem, Loc(x, y, addr + (size - 1)))]
  }

  /** Whether a byte is one of addr..addr+n-1 of tile (x, y). */
  predicate Covers(x: nat, y: nat, addr: nat, n: nat, l: Loc) { l.x == x && l.y == y && addr <= l.addr < addr + n }

  /** Memory in which exactly those bytes are replaced. */
  function FlatWrite(mem: Mem, x: nat, y: nat, addr: nat, data: seq<u8>): (r: Mem)
    ensures forall l: Loc :: Covers(x, y, addr, |data|, l) ==> At(r, l) == data[l.addr - addr]
    ensures forall l: Loc :: !Covers(x, y, addr, |data|, l) ==> At(r, l) == At(mem, l)
    decreases |data|
  {
    if data == [] then mem
    else
      var n := |data| - 1;
      FlatWrite(mem, x, y, addr, data[..n])[Loc(x, y, addr + n) := data[n]]
  }

  class NocWindow {
    const dev: Device
    const file: OpenFile
    const kind: Kind
    const handle: Handle
    const mappedSize: u64
    var config: Config

    function Held(): Window { Window(kind, handle.windowId) }

    /** The object owns its window, is mapped, and its cache is what the register holds. */
    ghost predicate Valid()
      reads this, dev, dev.regs, file
    {
      && dev.Valid() && IsWindow(Held()) && Held() in file.owned && CountOf(file.mapped, Held()) > 0
      && 0 < mappedSize <= SizeOf(kind)
      && handle.mmapOffset == WindowAddr(Held()) && (kind == W2M <==> mappedSize <= 0x20_0000)
      && config.windowId == handle.windowId && Aligned(kind, config.addr)
      && RegAt(dev.regs[..], Held()) == Encode(kind, config)
    }

    constructor (dev: Device, file: OpenFile, kind: Kind, handle: Handle, size: u64, config: Config)
      ensures this.dev == dev && this.file == file && this.kind == kind && this.handle == handle
      ensures mappedSize == size && this.config == config
    {
      this.dev, this.file, this.kind, this.handle := dev, file, kind, handle;
      this.mappedSize, this.config := size, config;
    }

    /** reconfigure: the ioctl is skipped when the configuration, padding included, equals the cached one. */
    method Reconfigure(requested: Config, samePadding: bool) returns (r: Outcome<()>)
      requires Valid()
      modifies this`config, dev.regs
      ensures Valid()
      ensures r == if Aligned(kind, requested.addr) then Done(()) else Throw(CouldNotReconfigure)
      ensures config == if r.Done? then requested.(windowId := handle.windowId) else old(config)
      ensures forall v: Window :: IsWindow(v) && v != Held() ==> RegAt(dev.regs[..], v) == old(RegAt(dev.regs[..], v))
    {
      hide Encode, RegAt, SetReg, Aligned;
      var wanted := requested.(windowId := handle.windowId);
      if wanted == config && samePadding {
        return Done(());
      }
      var s := dev.IoctlConfig(file, kind, wanted, false, false);
      ConfigEffect(old(dev.regs[..]), Held(), wanted);
      if s.Err? {
        return Throw(CouldNotReconfigure);
      }
      config := wanted;
      r := Done(());
    }

    /** The destructor: munmap, then the dealloc ioctl. With one mapping counted, the window goes back to the
        driver in its identity configuration. */
    method Destroy()
      requires Valid()
      modifies file`mapped, file`owned, dev`taken, dev.regs
      ensures CountOf(file.mapped, Held()) == old(CountOf(file.mapped, Held())) - 1
      ensures old(CountOf(file.mapped, Held())) == 1 ==>
        && file.owned == old(file.owned) - {Held()} && dev.taken == old(dev.taken) - {Held()}
        && RegAt(dev.regs[..], Held()) == IdentityWords(Held())
      ensures old(CountOf(file.mapped, Held())) != 1 ==>
        file.owned == old(file.owned) && dev.taken == old(dev.taken) && dev.regs[..] == old(dev.regs[..])
      ensures forall v: Window :: IsWindow(v) && v != Held() ==> RegAt(dev.regs[..], v) == old(RegAt(dev.regs[..], v))
    {
      hide Encode, RegAt, SetReg, Deallocate, IdentityWords;
      DecodeInverts(Held());
      var underflow := dev.VmaClose(file, handle.mmapOffset);
      var r := dev.IoctlDealloc(file, kind, handle.windowId, false);
      DeallocEffect(old(dev.Value()), Held());
    }
  }

  lemma ConfigEffect(regs: RegFile, w: Window, c: Config)
    requires IsWindow(w)
    ensures forall v: Window :: IsWindow(v) ==>
      RegAt(SetReg(regs, w, Encode(w.kind, c)), v) == if v == w then Encode(w.kind, c) else RegAt(regs, v)
  {
    hide Encode, RegAt, SetReg;
    forall v: Window | IsWindow(v)
      ensures RegAt(SetReg(regs, w, Encode(w.kind, c)), v) == if v == w then Encode(w.kind, c) else RegAt(regs, v)
    {
      SetRegAt(regs, w, Encode(w.kind, c), v);
    }
  }

  lemma DeallocEffect(dev: Dev, w: Window)
    requires IsWindow(w)
    ensures Deallocate(dev, w).taken == dev.taken - {w}
    ensures forall v: Window :: IsWindow(v) ==>
      RegAt(Deallocate(dev, w).regs, v) == if v == w then IdentityWords(v) else RegAt(dev.regs, v)
  {
    assert Deallocate(dev, w).taken == dev.taken - {w};
    hide RegAt, Deallocate, IdentityWords;
    forall v: Window | IsWindow(v)
      ensures RegAt(Deallocate(dev, w).regs, v) == if v == w then IdentityWords(v) else RegAt(dev.regs, v)
    {
      DeallocateExact(dev, w, v);
    }
  }

  /** What the driver's invariant says about one file. */
  ghost predicate Sound(dev: Device, file: OpenFile)
    reads dev, file
  {
    && dev.Valid()
    && (forall w: Window :: CountOf(file.mapped, w) > 0 ==> w in file.owned)
    && (forall w: Window :: w in file.owned ==> w in dev.taken)
  }

  /** Which exception the constructor throws, if any. */
  function Refusal(inUse: set<Window>, size: u64, initial: Config, remapFails: bool): Option<Thrown>
  {
    var k := KindFor(size);
    if FirstZero(k, inUse, 0) == Count(k) then Some(CouldNotAllocate)
    else if size > SizeOf(k) then Some(SizeTooLarge)
    else if !Aligned(k, initial.addr) then Some(CouldNotConfigure)
    else if size == 0 || remapFails then Some(CouldNotMap)
    else None
  }

  /** A remap that failed after the count went up; the constructor then cannot give its window back. */
  predicate Leaks(what: Thrown, size: u64) { what == CouldNotMap && size > 0 }

  /** The window that the next allocation of this kind gets. */
  function NextWindow(inUse: set<Window>, k: Kind): Window { Window(k, FirstZero(k, inUse, 0)) }

  /** The NocWindow constructor. When it throws, the sets of allocated and owned windows and the counts are as before,
      and only the window that was tried can show a changed register, its identity configuration, exactly unless a
      remap failed: then the tried window stays allocated, owned, counted and configured. */
  method OpenWindow(dev: Device, file: OpenFile, size: u64, initial: Config, remapFails: bool)
      returns (r: Outcome<NocWindow>)
    requires Sound(dev, file)
    modifies dev`taken, dev.regs, file`owned, file`mapped
    ensures Sound(dev, file)
    ensures match Refusal(old(dev.reserved + dev.taken), size, initial, remapFails)
      case None =>
        && r.Done? && fresh(r.value) && r.value.dev == dev && r.value.file == file && r.value.mappedSize == size
        && r.value.kind == KindFor(size) && r.value.Valid()
        && r.value.config == initial.(windowId := r.value.handle.windowId)
        && r.value.Held() !in old(dev.reserved + dev.taken)
        && dev.taken == old(dev.taken) + {r.value.Held()} && file.owned == old(file.owned) + {r.value.Held()}
        && CountOf(file.mapped, r.value.Held()) == 1
        && (forall v: Window :: IsWindow(v) && v != r.value.Held() ==>
              RegAt(dev.regs[..], v) == old(RegAt(dev.regs[..], v)))
      case Some(what) =>
        && r == Throw(what)
        && (if Leaks(what, size) then
              var w := NextWindow(old(dev.reserved + dev.taken), KindFor(size));
              && IsWindow(w) && w !in old(dev.taken) && w !in old(file.owned)
              && dev.taken == old(dev.taken) + {w} && file.owned == old(file.owned) + {w}
              && file.mapped == old(file.mapped)[w := 1]
              && (forall v: Window :: IsWindow(v) ==>
                    RegAt(dev.regs[..], v)
                    == if v == w then Encode(w.kind, initial.(windowId := w.id)) else old(RegAt(dev.regs[..], v)))
            else
              && dev.taken == old(dev.taken) && file.owned == old(file.owned) && file.mapped == old(file.mapped)
              && KeptOrIdle(old(dev.reserved + dev.taken), old(dev.regs[..]), dev.regs[..], {}))
  {
    hide Encode, RegAt, SetReg, Deallocate, IdentityWords, Aligned;
    var k := KindFor(size);
    var h := dev.IoctlAlloc(file, k, false);
    if h.Err? {
      return Throw(CouldNotAllocate);
    }
    var id := h.value.windowId;
    var w := Window(k, id);
    label granted:
    if size > h.value.mmapSize {
      GiveBack(dev, file, w);
      return Throw(SizeTooLarge);
    }
    var config := initial.(windowId := id);
    var s := dev.IoctlConfig(file, k, config, false, false);
    ConfigEffect(old@granted(dev.regs[..]), w, config);
    if s.Err? {
      GiveBack(dev, file, w);
      return Throw(CouldNotConfigure);
    }
    if size == 0 {
      GiveBack(dev, file, w);
      return Throw(CouldNotMap);
    }
    DecodeInverts(w);
    var m := dev.Mmap(file, h.value.mmapOffset, RoundUp(size), remapFails);
    if m.Err? {
      var _ := dev.IoctlDealloc(file, k, id, false);
      return Throw(CouldNotMap);
    }
    var window := new NocWindow(dev, file, k, h.value, size, config);
    r := Done(window);
  }

  /** The dealloc ioctl of a window that was never mapped. */
  method GiveBack(dev: Device, file: OpenFile, w: Window)
    requires Sound(dev, file) && IsWindow(w) && w in file.owned && CountOf(file.mapped, w) == 0
    modifies dev`taken, dev.regs, file`owned
    ensures Sound(dev, file)
    ensures dev.taken == old(dev.taken) - {w} && file.owned == old(file.owned) - {w}
    ensures forall v: Window :: IsWindow(v) ==>
      RegAt(dev.regs[..], v) == if v == w then IdentityWords(v) else old(RegAt(dev.regs[..], v))
  {
    hide Encode, RegAt, SetReg, Deallocate, IdentityWords;
    var _ := dev.IoctlDealloc(file, w.kind, w.id, false);
    DeallocEffect(old(dev.Value()), w);
  }

  /** The exception that an access of size bytes at addr throws on a window of n mapped bytes, if any. */
  function BlockObjection(k: Kind, n: u64, write: bool, addr: u64, size: u64): Option<Thrown>
  {
    if size > (if write then FOUR_GIGS else n) then Some(BlockTooLarge)
    else if size + And(addr, MinusOne(n)) > n then Some(CrossesBoundary)
    else if size <= 8 && And(addr, MinusOne(size)) != 0 then Some(Unaligned)
    else if !Aligned(k, AndNot(addr, MinusOne(n))) then Some(CouldNotReconfigure)
    else None
  }

  /** Which exception an access of size bytes at addr throws on an object of 2M or 4G, if any, in plain arithmetic. */
  predicate Verdict(n: nat, write: bool, addr: nat, size: nat, thrown: Option<Thrown>)
    requires n > 0
  {
    var fits := addr % n + size <= n && size <= (if write then 0x1_0000_0000 else n);
    var natural := size <= 8 ==> NaturallyAligned(addr, size);
    var low := n == 0x20_0000 || addr % 0x20_0000_0000 < 0x1_0000_0000;
    match thrown
    case None => fits && natural && low
    case Some(BlockTooLarge) => size > (if write then 0x1_0000_0000 else n)
    case Some(CrossesBoundary) => size <= (if write then 0x1_0000_0000 else n) && addr % n + size > n
    case Some(Unaligned) => fits && !natural
    case Some(CouldNotReconfigure) => fits && natural && !low
    case Some(_) => false
  }

  lemma ObjectionPlain(k: Kind, n: u64, write: bool, addr: u64, size: u64)
    requires (n == 0x20_0000 && k == W2M) || (n == 0x1_0000_0000 && k == W128G)
    ensures Verdict(n, write, addr, size, BlockObjection(k, n, write, addr, size))
  {
    hide And, AndNot, NaturallyAligned, Aligned;
    Pow2Table();
    var e := if k.W2M? then 21 else 32;
    MaskPow2(addr, e);
    AlignedExactly(k, e, addr);
    FirstFourGigs(addr);
    if size <= 8 {
      AlignmentTest(addr, size);
    }
  }

  /** The same for one load or store, and for a longer block, with the natural alignment spelled out. */
  lemma VerdictPlain(n: nat, write: bool, addr: nat, size: nat, thrown: Option<Thrown>)
    requires (n == 0x20_0000 || n == 0x1_0000_0000) && Verdict(n, write, addr, size, thrown)
    ensures size == 1 || size == 2 || size == 4 || size == 8 ==>
      (thrown == None <==> addr % size == 0 && (if n == 0x20_0000 then addr % n else addr % 0x20_0000_0000) + size <= n)
    ensures size > 8 ==>
      (thrown == None <==> (if n == 0x20_0000 then addr % n else addr % 0x20_0000_0000) + size <= n)
  {
    FirstFourGigs(addr);
  }

  /** The tests of an access and the exceptions agree, save for the one that reconfiguring may add. */
  lemma ChecksAreObjections(k: Kind, n: u64, write: bool, addr: u64, size: u64)
    ensures Checks(write, n, addr, size)
            <==> BlockObjection(k, n, write, addr, size) == None
                 || BlockObjection(k, n, write, addr, size) == Some(CouldNotReconfigure)
  {
    hide And, AndNot, Aligned;
  }

  /** What the constructor's exceptions mean. */
  lemma RefusalMeans(dev: Dev, size: u64, initial: Config, remapFails: bool)
    ensures var k := if size <= 0x20_0000 then W2M else W128G;
      var page := if size <= 0x20_0000 then 0x20_0000 else 0x20_0000_0000;
      match Refusal(dev.reserved + dev.taken, size, initial, remapFails)
      case Some(CouldNotAllocate) => AllInUse(dev, k)
      case Some(SizeTooLarge) => !AllInUse(dev, k) && size > 0x20_0000_0000
      case Some(CouldNotConfigure) => !AllInUse(dev, k) && size <= 0x20_0000_0000 && initial.addr % page != 0
      case Some(CouldNotMap) =>
        !AllInUse(dev, k) && size <= 0x20_0000_0000 && initial.addr % page == 0 && (size == 0 || remapFails)
      case Some(_) => false
      case None => !AllInUse(dev, k) && 0 < size <= 0x20_0000_0000 && initial.addr % page == 0 && !remapFails
  {
    hide AllInUse;
    FirstFree(dev, if size <= 0x20_0000 then W2M else W128G);
  }

  /** NOC::read_block's choice of window. */
  function NocSize(size: u64): u64 { if size <= 0x20_0000 then 0x20_0000 else FOUR_GIGS }

  class SmartNocWindow {
    const window: NocWindow
    const initial: Config

    ghost predicate Valid()
      reads window, window.dev, window.dev.regs, window.file
    {
      && window.Valid() && initial.multicastEn % 2 == 0
      && window.config == initial.(windowId := window.handle.windowId, addr := window.config.addr,
                                   xEnd := window.config.xEnd, yEnd := window.config.yEnd)
    }

    constructor (window: NocWindow, initial: Config)
      requires window.Valid() && initial.multicastEn % 2 == 0
      requires window.config == initial.(windowId := window.handle.windowId)
      ensures this.window == window && this.initial == initial && Valid()
    {
      this.window, this.initial := window, initial;
    }

    function Objection(write: bool, addr: u64, size: u64): Option<Thrown>
    {
      BlockObjection(window.kind, window.mappedSize, write, addr, size)
    }

    /** The common part of read_block and write_block up to the copy. */
    method Prepare(write: bool, x: u32, y: u32, addr: u64, size: u64, samePadding: bool) returns (r: Outcome<()>)
      requires Valid()
      modifies window`config, window.dev.regs
      ensures Valid()
      ensures match Objection(write, addr, size)
        case Some(what) => r == Throw(what) && window.config == old(window.config)
        case None => r.Done? && window.config.xEnd == x && window.config.yEnd == y
                     && window.config.addr == AndNot(addr, MinusOne(window.mappedSize))
      ensures forall v: Window :: IsWindow(v) && v != window.Held() ==>
        RegAt(window.dev.regs[..], v) == old(RegAt(window.dev.regs[..], v))
    {
      hide Encode, RegAt, Aligned;
      var n := window.mappedSize;
      MaskSplit(addr, MinusOne(n));
      var windowAddr: u64 := AndNot(addr, MinusOne(n));
      var offset: u64 := And(addr, MinusOne(n));
      if size > (if write then FOUR_GIGS else n) {
        return Throw(BlockTooLarge);
      }
      if size + offset > n {
        return Throw(CrossesBoundary);
      }
      if size <= 8 && And(addr, MinusOne(size)) != 0 {
        return Throw(Unaligned);
      }
      var config := initial.(addr := windowAddr, xEnd := x, yEnd := y);
      r := window.Reconfigure(config, samePadding);
    }

    lemma Judge(write: bool, addr: u64, size: u64)
      requires Valid()
      ensures var n, o := window.mappedSize, Objection(write, addr, size);
        && (n == 0x20_0000 || n == 0x1_0000_0000 ==> Verdict(n, write, addr, size, o))
        && (n == 0x20_0000 && (size == 1 || size == 2 || size == 4 || size == 8) ==>
              (o == None <==> addr % size == 0 && addr % 0x20_0000 + size <= 0x20_0000))
        && (n == 0x20_0000 && size > 8 ==> (o == None <==> addr % 0x20_0000 + size <= 0x20_0000))
        && (n == 0x1_0000_0000 && (size == 1 || size == 2 || size == 4 || size == 8) ==>
              (o == None <==> addr % size == 0 && addr % 0x20_0000_0000 + size <= 0x1_0000_0000))
        && (n == 0x1_0000_0000 && size > 8 ==> (o == None <==> addr % 0x20_0000_0000 + size <= 0x1_0000_0000))
        && (o == None ==> And(addr, MinusOne(n)) + size <= n)
    {
      var n, o := window.mappedSize, Objection(write, addr, size);
      assert o == None ==> And(addr, MinusOne(n)) + size <= n;
      hide BlockObjection, Verdict, RegAt, Encode;
      if n == 0x20_0000 || n == 0x1_0000_0000 {
        ObjectionPlain(window.kind, n, write, addr, size);
        VerdictPlain(n, write, addr, size, o);
      }
    }

    /** Where byte i of an access lands. */
    lemma Lands(x: u32, y: u32, addr: u64, i: nat)
      requires Valid() && window.config.xEnd == x && window.config.yEnd == y
      requires window.config.addr == AndNot(addr, MinusOne(window.mappedSize))
      requires And(addr, MinusOne(window.mappedSize)) + i < window.mappedSize
      ensures HwTarget(window.dev.regs[..], window.handle.mmapOffset + (And(addr, MinusOne(window.mappedSize)) + i))
              == Some(Loc(x % 64, y % 64, addr + i))
    {
      hide HwTarget, RegAt, Encode, And, AndNot;
      MaskSplit(addr, MinusOne(window.mappedSize));
      Translation(window.dev.regs[..], window.Held(), window.config, And(addr, MinusOne(window.mappedSize)) + i);
    }

    /** read_block returns exactly the bytes of the addressed tile from addr on. */
    method ReadBlock(chip: Chip, x: u32, y: u32, addr: u64, size: u64, samePadding: bool) returns (r: Outcome<seq<u8>>)
      requires Valid()
      modifies window`config, window.dev.regs
      ensures Valid()
      ensures match Objection(false, addr, size)
        case Some(what) => r == Throw(what) && window.config == old(window.config)
        case None => r == Done(FlatRead(chip.mem, x % 64, y % 64, addr, size))
      ensures window.mappedSize == 0x20_0000 || window.mappedSize == 0x1_0000_0000 ==>
        Verdict(window.mappedSize, false, addr, size, if r.Throw? then Some(r.what) else None)
      ensures window.mappedSize == 0x20_0000 && (size == 1 || size == 2 || size == 4 || size == 8) ==>
        (r.Done? <==> addr % size == 0 && addr % 0x20_0000 + size <= 0x20_0000)
      ensures window.mappedSize == 0x20_0000 && size > 8 ==> (r.Done? <==> addr % 0x20_0000 + size <= 0x20_0000)
      ensures window.mappedSize == 0x1_0000_0000 && (size == 1 || size == 2 || size == 4 || size == 8) ==>
        (r.Done? <==> addr % size == 0 && addr % 0x20_0000_0000 + size <= 0x1_0000_0000)
      ensures window.mappedSize == 0x1_0000_0000 && size > 8 ==>
        (r.Done? <==> addr % 0x20_0000_0000 + size <= 0x1_0000_0000)
      ensures forall v: Window :: IsWindow(v) && v != window.Held() ==>
        RegAt(window.dev.regs[..], v) == old(RegAt(window.dev.regs[..], v))
    {
      hide HwTarget, RegAt, Encode, And, AndNot, Aligned, BlockObjection, Verdict;
      Judge(false, addr, size);
      var p := Prepare(false, x, y, addr, size, samePadding);
      if p.Throw? {
        return Throw(p.what);
      }
      ghost var regs := window.dev.regs[..];
      var data: seq<u8> := [];
      var src := window.handle.mmapOffset + And(addr, MinusOne(window.mappedSize));
      for i := 0 to size
        invariant data == FlatRead(chip.mem, x % 64, y % 64, addr, i)
        modifies {}
      {
        Lands(x, y, addr, i);
        data := data + [At(chip.mem, HwTarget(window.dev.regs[..], src + i).value)];
      }
      assert window.dev.regs[..] == regs;
      r := Done(data);
    }

    /** write_block replaces exactly the bytes of the addressed tile from addr on. */
    method WriteBlock(chip: Chip, x: u32, y: u32, addr: u64, data: seq<u8>, samePadding: bool) returns (r: Outcome<()>)
      requires Valid() && |data| < TWO64
      modifies window`config, window.dev.regs, chip
      ensures Valid()
      ensures match Objection(true, addr, |data|)
        case Some(what) => r == Throw(what) && window.config == old(window.config) && chip.mem == old(chip.mem)
        case None => r.Done? && chip.mem == FlatWrite(old(chip.mem), x % 64, y % 64, addr, data)
      ensures window.mappedSize == 0x20_0000 || window.mappedSize == 0x1_0000_0000 ==>
        Verdict(window.mappedSize, true, addr, |data|, if r.Throw? then Some(r.what) else None)
      ensures window.mappedSize == 0x20_0000 && (|data| == 1 || |data| == 2 || |data| == 4 || |data| == 8) ==>
        (r.Done? <==> addr % |data| == 0 && addr % 0x20_0000 + |data| <= 0x20_0000)
      ensures window.mappedSize == 0x20_0000 && |data| > 8 ==> (r.Done? <==> addr % 0x20_0000 + |data| <= 0x20_0000)
      ensures window.mappedSize == 0x1_0000_0000 && (|data| == 1 || |data| == 2 || |data| == 4 || |data| == 8) ==>
        (r.Done? <==> addr % |data| == 0 && addr % 0x20_0000_0000 + |data| <= 0x1_0000_0000)
      ensures window.mappedSize == 0x1_0000_0000 && |data| > 8 ==>
        (r.Done? <==> addr % 0x20_0000_0000 + |data| <= 0x1_0000_0000)
      ensures forall v: Window :: IsWindow(v) && v != window.Held() ==>
        RegAt(window.dev.regs[..], v) == old(RegAt(window.dev.regs[..], v))
    {
      hide HwTarget, RegAt, Encode, And, AndNot, Aligned, BlockObjection, Verdict;
      Judge(true, addr, |data|);
      var p := Prepare(true, x, y, addr, |data|, samePadding);
      if p.Throw? {
        return Throw(p.what);
      }
      ghost var regs := window.dev.regs[..];
      var dst := window.handle.mmapOffset + And(addr, MinusOne(window.mappedSize));
      for i := 0 to |data|
        invariant chip.mem == FlatWrite(old(chip.mem), x % 64, y % 64, addr, data[..i])
        modifies chip
      {
        Lands(x, y, addr, i);
        chip.mem := chip.mem[HwTarget(window.dev.regs[..], dst + i).value := data[i]];
        assert data[..i + 1][..i] == data[..i];
      }
      assert data[..|data|] == data && window.dev.regs[..] == regs;
      r := Done(());
    }
  }

  function NocKind(size: u64): Kind { KindFor(NocSize(size)) }

  /** The result of NOC::read_block: an exception of the constructor, one of the access, or the bytes. */
  function OneShotRead(inUse: set<Window>, mem: Mem, x: u32, y: u32, addr: u64, size: u64, remapFails: bool)
    : Outcome<seq<u8>>
  {
    match Refusal(inUse, NocSize(size), ZERO_CONFIG, remapFails)
    case Some(what) => Throw(what)
    case None =>
      match BlockObjection(NocKind(size), NocSize(size), false, addr, size)
      case Some(what) => Throw(what)
      case None => Done(FlatRead(mem, x % 64, y % 64, addr, size))
  }

  /** In plain arithmetic: up to 2M a 2M window serves, and no address is refused for the sake of its alignment;
      beyond, a 128G window, and only the first 4G of its pages. */
  lemma OneShotMeans(dev: Dev, mem: Mem, x: u32, y: u32, addr: u64, size: u64, remapFails: bool)
    ensures var r := OneShotRead(dev.reserved + dev.taken, mem, x, y, addr, size, remapFails);
      var k, n := if size <= 0x20_0000 then W2M else W128G, if size <= 0x20_0000 then 0x20_0000 else 0x1_0000_0000;
      && (AllInUse(dev, k) <==> r == Throw(CouldNotAllocate))
      && (!AllInUse(dev, k) && remapFails <==> r == Throw(CouldNotMap))
      && (!AllInUse(dev, k) && !remapFails ==> Verdict(n, false, addr, size, if r.Throw? then Some(r.what) else None))
      && (size <= 0x20_0000 ==> r != Throw(CouldNotReconfigure))
      && (r.Done? ==> r.value == FlatRead(mem, x % 64, y % 64, addr, size))
  {
    hide AllInUse, FlatRead, BlockObjection, Refusal;
    RefusalMeans(dev, NocSize(size), ZERO_CONFIG, remapFails);
    ObjectionPlain(NocKind(size), NocSize(size), false, addr, size);
  }

  /** Outside of ws every register is as it was, or is that of an unused window at its identity words. */
  ghost predicate KeptOrIdle(inUse: set<Window>, before: RegFile, after: RegFile, ws: set<Window>)
  {
    forall v: Window :: IsWindow(v) && v !in ws ==>
      RegAt(after, v) == RegAt(before, v) || (v !in inUse && RegAt(after, v) == IdentityWords(v))
  }

  /** The driver has every window back, or has kept the one that would have been next of the given kind, owned and
      counted once. */
  ghost predicate Settled(dev: Dev, dev': Dev, fd: Fd, fd': Fd, kept: Option<Kind>)
  {
    var inUse := dev.reserved + dev.taken;
    var ws := match kept { case Some(k) => {NextWindow(inUse, k)} case None => {} };
    && ws !! dev.taken && dev'.taken == dev.taken + ws && fd'.owned == fd.owned + ws
    && (forall w <- ws :: CountOf(fd'.mapped, w) == 1)
    && KeptOrIdle(inUse, dev.regs, dev'.regs, ws)
  }

  /** NOC::read_block opens a window, reads through it and destroys it: it throws only for want of a window or
      as the access on it would, otherwise it has read the addressed bytes; and the driver has every window back,
      exactly unless the remap failed. */
  method NocReadBlock(
      dev: Device, file: OpenFile, chip: Chip, x: u32, y: u32, addr: u64, size: u64, remapFails: bool)
      returns (r: Outcome<seq<u8>>)
    requires Sound(dev, file)
    modifies dev`taken, dev.regs, file`owned, file`mapped
    ensures r == OneShotRead(old(dev.reserved + dev.taken), chip.mem, x, y, addr, size, remapFails)
    ensures Settled(old(dev.Value()), dev.Value(), old(file.Value()), file.Value(),
                    if r == Throw(CouldNotMap) then Some(NocKind(size)) else None)
  {
    hide RegAt, Encode, And, AndNot, Aligned, IdentityWords, KeptOrIdle, FlatRead, MinusOne;
    ghost var inUse, before := dev.reserved + dev.taken, dev.regs[..];
    var made := OpenWindow(dev, file, NocSize(size), ZERO_CONFIG, remapFails);
    if made.Throw? {
      if made.what == CouldNotMap {
        OneChanged(inUse, NextWindow(inUse, NocKind(size)), before, dev.regs[..]);
      }
      return Throw(made.what);
    }
    ghost var w, atOpen := made.value.Held(), dev.regs[..];
    var smart := new SmartNocWindow(made.value, ZERO_CONFIG);
    r := smart.ReadBlock(chip, x, y, addr, size, true);
    ghost var atRead := dev.regs[..];
    smart.window.Destroy();
    BackToIdle(inUse, w, before, atOpen, atRead, dev.regs[..]);
  }

  lemma OneChanged(inUse: set<Window>, w: Window, before: RegFile, after: RegFile)
    requires forall v: Window :: IsWindow(v) && v != w ==> RegAt(after, v) == RegAt(before, v)
    ensures KeptOrIdle(inUse, before, after, {w})
  {
    hide RegAt, IdentityWords;
  }

  lemma BackToIdle(inUse: set<Window>, w: Window, a: RegFile, b: RegFile, c: RegFile, d: RegFile)
    requires w !in inUse && IsWindow(w) && RegAt(d, w) == IdentityWords(w)
    requires forall v: Window :: IsWindow(v) && v != w ==> RegAt(b, v) == RegAt(a, v)
    requires forall v: Window :: IsWindow(v) && v != w ==> RegAt(c, v) == RegAt(b, v)
    requires forall v: Window :: IsWindow(v) && v != w ==> RegAt(d, v) == RegAt(c, v)
    ensures KeptOrIdle(inUse, a, d, {})
  {
    hide RegAt, IdentityWords;
  }
}
