/** The driver's code, updating its bitmaps, counts and registers in place. Every method is proved
    against the function of the same purpose in NocDriver. */
module NocDevice {
  import opened BitFields
  import opened NocRegisters
  import Spec = NocDriver
  import opened NocDriver

  /** struct l2cpu_noc_fd. */
  class OpenFile {
    var owned: set<Window>
    var mapped: Counts

    ghost function Value(): Fd
      reads this
    {
      Fd(owned, mapped)
    }

    /** l2cpu_cdev_open, past the allocation of a zeroed struct. */
    constructor ()
      ensures Value() == Fd({}, map[])
    {
      owned, mapped := {}, map[];
    }
  }

  /** The windows of a kind below n that a scan finds. */
  ghost function ScanBelow(regs: RegFile, k: Kind, n: nat): set<Window>
  {
    set w | w in Scan(regs) && w.kind == k && w.id < n
  }

  lemma ScanNone(regs: RegFile, k: Kind)
    ensures ScanBelow(regs, k, 0) == {}
  {
  }

  lemma ScanNext(regs: RegFile, k: Kind, n: nat)
    requires n < Count(k)
    ensures ScanBelow(regs, k, n + 1)
            == ScanBelow(regs, k, n) + if IsConfigured(regs, Window(k, n)) then {Window(k, n)} else {}
  {
    ScanExact(regs, Window(k, n));
    hide Scan, IsConfigured;
  }

  lemma ScanBoth(regs: RegFile)
    ensures ScanBelow(regs, W2M, Count(W2M)) + ScanBelow(regs, W128G, Count(W128G)) == Scan(regs)
  {
    forall w | w in Scan(regs)
      ensures w in ScanBelow(regs, w.kind, Count(w.kind))
    {
      ScanExact(regs, w);
    }
  }

  /** struct l2cpu_noc_dev. */
  class Device {
    var reserved: set<Window>
    var taken: set<Window>
    var driverWindowId: nat
    const regs: array<u32>

    ghost predicate Valid()
    {
      regs.Length == REG_BLOCK
    }

    ghost function Value(): Dev
      requires Valid()
      reads this, regs
    {
      Dev(reserved, taken, regs[..], driverWindowId)
    }

    /** The zeroed struct with the register block mapped. */
    constructor (block: array<u32>)
      requires block.Length == REG_BLOCK
      ensures Valid() && regs == block && Value() == Dev({}, {}, block[..], 0)
    {
      reserved, taken, driverWindowId := {}, {}, 0;
      regs := block;
    }

    method ConfigureWindow(k: Kind, c: Config) returns (r: Result<()>)
      requires Valid()
      modifies regs
      ensures (Value(), r) == Spec.Configure(old(Value()), k, c)
    {
      if c.windowId >= Count(k) || !Aligned(k, c.addr) {
        return Err(EINVAL);
      }
      var ws := Encode(k, c);
      WriteReg(Window(k, c.windowId), ws);
      r := Ok(());
    }

    /** One iowrite32 per word. */
    method WriteReg(w: Window, ws: seq<u32>)
      requires Valid() && IsWindow(w) && |ws| == RegWords(w.kind)
      modifies regs
      ensures regs[..] == SetReg(old(regs[..]), w, ws)
    {
      var o := RegOffset(w);
      regs[o] := ws[0];
      regs[o + 1] := ws[1];
      regs[o + 2] := ws[2];
      if w.kind.W2M? {
        regs[o + 3] := ws[3];
      }
    }

    method IsWindowConfigured(w: Window) returns (r: bool)
      requires Valid() && IsWindow(w)
      ensures r <==> IsConfigured(regs[..], w)
    {
      var o := RegOffset(w);
      var ws := [regs[o], regs[o + 1], regs[o + 2]];
      if w.kind.W2M? {
        ws := ws + [regs[o + 3]];
      }
      assert ws == RegAt(regs[..], w);
      r := HwAddr(w.kind, ws) != w.id || ws[1] != 0 || ws[2] != 0 || (w.kind.W2M? && ws[3] != 0);
    }

    method ScanKind(k: Kind)
      requires Valid()
      modifies this`reserved
      ensures reserved == old(reserved) + ScanBelow(regs[..], k, Count(k))
    {
      hide Scan, IsConfigured, ScanBelow;
      ScanNone(regs[..], k);
      for id := 0 to Count(k)
        invariant reserved == old(reserved) + ScanBelow(regs[..], k, id)
      {
        var w := Window(k, id);
        ScanNext(regs[..], k, id);
        var configured := IsWindowConfigured(w);
        if configured {
          reserved := reserved + {w};
        }
      }
    }

    method ScanConfiguredWindows()
      requires Valid()
      modifies this`reserved
      ensures reserved == old(reserved) + Scan(regs[..])
    {
      ScanKind(W2M);
      ScanKind(W128G);
      ScanBoth(regs[..]);
    }

    method FindFirstZero(k: Kind, used: set<Window>) returns (id: nat)
      ensures id == FirstZero(k, used, 0)
    {
      id := 0;
      while id < Count(k) && Window(k, id) in used
        invariant id <= Count(k)
        invariant FirstZero(k, used, 0) == FirstZero(k, used, id)
      {
        id := id + 1;
      }
    }

    method InitializeDriverWindow(remapFails: bool) returns (r: Result<()>)
      requires Valid()
      modifies this`taken, this`driverWindowId
      ensures var id := FirstZero(W2M, reserved, 0);
        if id >= Count(W2M) then r == Err(ENOSPC) && Value() == old(Value())
        else if remapFails then r == Err(ENOMEM) && Value() == old(Value())
        else r == Ok(()) && Value() == old(Value()).(taken := old(taken) + {Window(W2M, id)}, driver := id)
    {
      var id := FindFirstZero(W2M, reserved);
      if id >= Count(W2M) {
        return Err(ENOSPC);
      }
      if remapFails {
        return Err(ENOMEM);
      }
      driverWindowId := id;
      taken := taken + {Window(W2M, id)};
      r := Ok(());
    }

    method DeallocateWindow(w: Window)
      requires Valid() && IsWindow(w)
      modifies this`taken, regs
      ensures Value() == Spec.Deallocate(old(Value()), w)
    {
      hide Encode, SetReg;
      taken := taken - {w};
      var c := ZERO_CONFIG.(windowId := w.id,
        addr := if w.kind.W2M? then w.id * 0x20_0000 else w.id * 0x20_0000_0000);
      var _ := ConfigureWindow(w.kind, c);
    }

    /** for_each_set_bit over one bitmap, and the identical loop of the remove callback. */
    method DeallocateKind(ws: set<Window>, k: Kind)
      requires Valid()
      modifies this`taken, regs
      ensures Value() == DeallocateAll(old(Value()), ws, k, Count(k))
    {
      for id := 0 to Count(k)
        invariant Value() == DeallocateAll(old(Value()), ws, k, id)
      {
        if Window(k, id) in ws {
          DeallocateWindow(Window(k, id));
        }
      }
    }

    /** l2cpu_cdev_release. */
    method Release(fd: OpenFile)
      requires Valid()
      modifies this`taken, regs
      ensures Value() == DeallocateSet(old(Value()), fd.owned)
    {
      DeallocateKind(fd.owned, W2M);
      DeallocateKind(fd.owned, W128G);
    }

    /** l2cpu_platform_remove. The loop tests the bitmap it is clearing, one bit behind itself. */
    method Remove()
      requires Valid()
      modifies this`taken, regs
      ensures Value() == DeallocateSet(old(Value()), old(taken))
    {
      RemoveKind(W2M, taken);
      RemoveKind(W128G, old(taken));
    }

    method RemoveKind(k: Kind, ghost start: set<Window>)
      requires Valid()
      requires forall w: Window :: w.kind == k ==> (w in taken <==> w in start)
      modifies this`taken, regs
      ensures Value() == DeallocateAll(old(Value()), start, k, Count(k))
      ensures forall w: Window :: w.kind != k ==> (w in taken <==> w in old(taken))
    {
      for id := 0 to Count(k)
        invariant Value() == DeallocateAll(old(Value()), start, k, id)
        invariant forall w: Window :: w.kind == k && w.id >= id ==> (w in taken <==> w in start)
        invariant forall w: Window :: w.kind != k ==> (w in taken <==> w in old(taken))
      {
        if Window(k, id) in taken {
          DeallocateWindow(Window(k, id));
        }
      }
    }

    method IoctlAlloc(fd: OpenFile, k: Kind, fault: bool) returns (r: Result<Handle>)
      requires Valid()
      modifies this`taken, regs, fd`owned
      ensures (Value(), fd.Value(), r) == Spec.Alloc(old(Value()), old(fd.Value()), k, fault)
    {
      var id := FindFirstZero(k, reserved + taken);
      if id >= Count(k) {
        return Err(ENOSPC);
      }
      var w := Window(k, id);
      taken := taken + {w};
      if fault {
        DeallocateWindow(w);
        return Err(EFAULT);
      }
      fd.owned := fd.owned + {w};
      r := Ok(Handle(id, WindowAddr(w), SizeOf(k)));
    }

    method IoctlConfig(fd: OpenFile, k: Kind, c: Config, fault: bool, stray: bool) returns (r: Result<()>)
      requires Valid()
      modifies regs
      ensures (Value(), r) == ConfigIoctl(old(Value()), fd.Value(), k, c, fault, stray)
    {
      if fault {
        return Err(EFAULT);
      }
      var bit := if c.windowId < Count(k) then Window(k, c.windowId) in fd.owned else stray;
      if !bit {
        return Err(EPERM);
      }
      r := ConfigureWindow(k, c);
    }

    method IoctlDealloc(fd: OpenFile, k: Kind, id: u32, fault: bool) returns (r: Result<()>)
      requires Valid()
      modifies this`taken, regs, fd`owned
      ensures (Value(), fd.Value(), r) == Spec.Dealloc(old(Value()), old(fd.Value()), k, id, fault)
    {
      if fault {
        return Err(EFAULT);
      }
      if id >= Count(k) {
        return Err(EINVAL);
      }
      var w := Window(k, id);
      if w !in fd.owned {
        return Err(EPERM);
      }
      if CountOf(fd.mapped, w) > 0 {
        return Err(EBUSY);
      }
      fd.owned := fd.owned - {w};
      DeallocateWindow(w);
      r := Ok(());
    }

    method Mmap(fd: OpenFile, offset: u64, size: nat, remapFails: bool) returns (r: Result<()>)
      modifies fd`mapped
      ensures (fd.Value(), r) == Spec.Mmap(old(fd.Value()), offset, size, remapFails)
    {
      if size > SizeOf(if offset < Base(W128G) then W2M else W128G) {
        return Err(EINVAL);
      }
      var decoded := DecodeOffset(offset);
      if decoded.None? {
        return Err(EINVAL);
      }
      var w := decoded.value;
      if w !in fd.owned {
        return Err(EPERM);
      }
      r := if remapFails then Err(EAGAIN) else Ok(());
      if ToInt(CountOf(fd.mapped, w) + 1) < 0 {
        return Err(EOVERFLOW);
      }
      fd.mapped := fd.mapped[w := CountOf(fd.mapped, w) + 1];
    }

    method VmaClose(fd: OpenFile, offset: u64) returns (underflow: bool)
      modifies fd`mapped
      ensures (fd.Value(), underflow) == Spec.VmaClose(old(fd.Value()), offset)
    {
      var decoded := DecodeOffset(offset);
      if decoded.None? {
        return false;
      }
      var w := decoded.value;
      if CountOf(fd.mapped, w) > 0 {
        fd.mapped := fd.mapped[w := CountOf(fd.mapped, w) - 1];
        underflow := false;
      } else {
        underflow := true;
      }
    }
  }

  /** l2cpu_platform_probe, from the mapped register block to the driver window. */
  method ProbeDevice(block: array<u32>, remapFails: bool) returns (r: Result<Device>)
    requires block.Length == REG_BLOCK
    ensures r.Ok? ==> r.value.Valid() && r.value.regs == block
    ensures match r
      case Ok(dev) => Probe(block[..], remapFails) == Ok(dev.Value())
      case Err(e) => Probe(block[..], remapFails) == Err(e)
  {
    var dev := new Device(block);
    dev.ScanConfiguredWindows();
    hide Scan, FirstZero, IsConfigured;
    assert dev.reserved == Scan(block[..]);
    var s := dev.InitializeDriverWindow(remapFails);
    if s.Err? {
      return Err(s.errno);
    }
    assert dev.taken == {Window(W2M, dev.driverWindowId)};
    r := Ok(dev);
  }
}
