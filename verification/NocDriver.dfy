/** The L2CPU NOC window driver: what each entry point does to the device and to one open file, as functions
    on values. */
module NocDriver {
  import opened Wrappers
  import opened BitFields
  import opened NocRegisters

  datatype Errno = EINVAL | EPERM | EBUSY | EFAULT | ENOSPC | ENOMEM | EAGAIN | EOVERFLOW | ENOTSUPP | EOPNOTSUPP

  datatype Result<+T> = Ok(value: T) | Err(errno: Errno)

  /** struct noc_window_handle. */
  datatype Handle = Handle(windowId: u32, mmapOffset: u64, mmapSize: u64)

  /** struct l2cpu_noc_dev, its two bitmaps of each name as one set of windows; taken is the
      pair allocated_2M and allocated_128G. */
  datatype Dev = Dev(reserved: set<Window>, taken: set<Window>, regs: RegFile, driver: nat)

  /** A zeroed array of counters, one for every window; an absent entry is a zero. */
  type Counts = map<Window, nat>

  function CountOf(m: Counts, w: Window): nat { if w in m then m[w] else 0 }

  /** struct l2cpu_noc_fd. */
  datatype Fd = Fd(owned: set<Window>, mapped: Counts)

  // ----- Addresses -----

  function WindowAddr(w: Window): (a: u64)
    requires IsWindow(w)
  {
    Base(w.kind) + (if w.kind.W2M? then 0x20_0000 * w.id else 0x20_0000_0000 * w.id)
  }

  /** Conversion of an unsigned long to a C int. */
  function ToInt(v: nat): int
  {
    if v % TWO32 < 0x8000_0000 then v % TWO32 else v % TWO32 - TWO32
  }

  /** The window that mmap and the close callback find for a file offset: an unsigned subtraction that
      may wrap, a shift, and a truncation to int. */
  function DecodeOffset(offset: u64): Option<Window>
  {
    var k := if offset < Base(W128G) then W2M else W128G;
    var delta: u64 := if offset >= Base(k) then offset - Base(k) else offset - Base(k) + TWO64;
    var id := ToInt(Page(k, delta));
    if id < 0 || id >= Count(k) then None else Some(Window(k, id))
  }

  /** Despite the wrap-around and the truncation, the decoder accepts exactly the union of the window
      intervals and names the one window that contains the offset. */
  lemma DecodeExact(offset: u64, w: Window)
    ensures DecodeOffset(offset) == Some(w) <==>
            IsWindow(w) && WindowAddr(w) <= offset < WindowAddr(w) + SizeOf(w.kind)
  {
    if offset < Base(W128G) {
      DecodeExact2M(offset, w);
    } else {
      var delta := offset - Base(W128G);
      assert ToInt(delta / 0x20_0000_0000) == delta / 0x20_0000_0000;
    }
  }

  lemma DecodeExact2M(offset: u64, w: Window)
    requires offset < Base(W128G)
    ensures DecodeOffset(offset) == Some(w) <==>
            IsWindow(w) && WindowAddr(w) <= offset < WindowAddr(w) + SizeOf(w.kind)
  {
    if offset >= Base(W2M) {
      var delta := offset - Base(W2M);
      assert delta / 0x20_0000 < TWO32 / 2;
      assert ToInt(delta / 0x20_0000) == delta / 0x20_0000;
    } else {
      var delta := offset - Base(W2M) + TWO64;
      var page := delta / 0x20_0000;
      assert 0x800_0000_0000 - 0x1_0000 <= page < 0x800_0000_0000;
      assert page % TWO32 >= 0x8000_0000;
      assert DecodeOffset(offset) == None;
    }
  }

  /** The offset handed out at allocation decodes to the window it was handed out for. */
  lemma DecodeInverts(w: Window)
    requires IsWindow(w)
    ensures DecodeOffset(WindowAddr(w)) == Some(w)
  {
    DecodeExact(WindowAddr(w), w);
  }

  // ----- Window allocation -----

  /** find_first_zero_bit from bit i on; Count(k) when there is none. */
  function FirstZero(k: Kind, used: set<Window>, i: nat): (id: nat)
    requires i <= Count(k)
    ensures i <= id <= Count(k)
    ensures id < Count(k) ==> Window(k, id) !in used
    ensures forall j :: i <= j < id ==> Window(k, j) in used
    decreases Count(k) - i
  {
    if i == Count(k) || Window(k, i) !in used then i else FirstZero(k, used, i + 1)
  }

  function Configure(dev: Dev, k: Kind, c: Config): (r: (Dev, Result<()>))
  {
    // A window_id of 2^31 or more turns negative as an int and is refused like any other bad id.
    if c.windowId >= Count(k) || !Aligned(k, c.addr) then (dev, Err(EINVAL))
    else (dev.(regs := SetReg(dev.regs, Window(k, c.windowId), Encode(k, c))), Ok(()))
  }

  function Deallocate(dev: Dev, w: Window): Dev
    requires IsWindow(w)
  {
    dev.(taken := dev.taken - {w},
         regs := SetReg(dev.regs, w, Encode(w.kind, IdentityConfig(w))))
  }

  /** Deallocates, in order of id, those of the first n windows of a kind that are in ws. */
  function DeallocateAll(dev: Dev, ws: set<Window>, k: Kind, n: nat): Dev
    requires n <= Count(k)
  {
    if n == 0 then dev
    else
      var d := DeallocateAll(dev, ws, k, n - 1);
      if Window(k, n - 1) in ws then Deallocate(d, Window(k, n - 1)) else d
  }

  function DeallocateSet(dev: Dev, ws: set<Window>): Dev
  {
    DeallocateAll(DeallocateAll(dev, ws, W2M, Count(W2M)), ws, W128G, Count(W128G))
  }

  /** ioctl_alloc_2M and ioctl_alloc_128G; fault says that copying the handle out failed. */
  function Alloc(dev: Dev, fd: Fd, k: Kind, fault: bool): (Dev, Fd, Result<Handle>)
  {
    var id := FirstZero(k, dev.reserved + dev.taken, 0);
    if id >= Count(k) then (dev, fd, Err(ENOSPC))
    else
      var w := Window(k, id);
      var dev' := dev.(taken := dev.taken + {w});
      if fault then (Deallocate(dev', w), fd, Err(EFAULT))
      else (dev', fd.(owned := fd.owned + {w}), Ok(Handle(id, WindowAddr(w), SizeOf(k))))
  }

  /** ioctl_config_2M and ioctl_config_128G. The ownership bit is tested before the range check, so for an
      id outside the bitmap the test reads whatever lies there: stray. */
  function ConfigIoctl(dev: Dev, fd: Fd, k: Kind, c: Config, fault: bool, stray: bool): (Dev, Result<()>)
  {
    if fault then (dev, Err(EFAULT))
    else if !(if c.windowId < Count(k) then Window(k, c.windowId) in fd.owned else stray) then (dev, Err(EPERM))
    else Configure(dev, k, c)
  }

  /** ioctl_dealloc_2M and ioctl_dealloc_128G. */
  function Dealloc(dev: Dev, fd: Fd, k: Kind, id: u32, fault: bool): (Dev, Fd, Result<()>)
  {
    if fault then (dev, fd, Err(EFAULT))
    else if id >= Count(k) then (dev, fd, Err(EINVAL))
    else
      var w := Window(k, id);
      if w !in fd.owned then (dev, fd, Err(EPERM))
      else if CountOf(fd.mapped, w) > 0 then (dev, fd, Err(EBUSY))
      else (Deallocate(dev, w), fd.(owned := fd.owned - {w}), Ok(()))
  }

  /** l2cpu_cdev_mmap; remapFails is the outcome of io_remap_pfn_range, which does not stop the count
      from going up. A count that would turn negative is put back. */
  function Mmap(fd: Fd, offset: u64, size: nat, remapFails: bool): (Fd, Result<()>)
  {
    if size > SizeOf(if offset < Base(W128G) then W2M else W128G) then (fd, Err(EINVAL))
    else
      match DecodeOffset(offset)
      case None => (fd, Err(EINVAL))
      case Some(w) =>
        if w !in fd.owned then (fd, Err(EPERM))
        else if ToInt(CountOf(fd.mapped, w) + 1) < 0 then (fd, Err(EOVERFLOW))
        else (fd.(mapped := fd.mapped[w := CountOf(fd.mapped, w) + 1]), if remapFails then Err(EAGAIN) else Ok(()))
  }

  /** l2cpu_vma_close; the flag is the refcount-underflow warning. */
  function VmaClose(fd: Fd, offset: u64): (Fd, bool)
  {
    match DecodeOffset(offset)
    case None => (fd, false)
    case Some(w) =>
      if CountOf(fd.mapped, w) > 0 then (fd.(mapped := fd.mapped[w := CountOf(fd.mapped, w) - 1]), false)
      else (fd, true)
  }

  function Scan(regs: RegFile): set<Window>
  {
    set w | w in AllWindows() && (AllWindowsAre(w); IsConfigured(regs, w))
  }

  lemma ScanExact(regs: RegFile, w: Window)
    ensures w in Scan(regs) <==> IsWindow(w) && IsConfigured(regs, w)
  {
    AllWindowsAre(w);
  }

  /** scan_configured_windows and initialize_driver_window, on a zeroed device. */
  function Probe(regs: RegFile, remapFails: bool): Result<Dev>
  {
    var reserved := Scan(regs);
    var id := FirstZero(W2M, reserved, 0);
    if id >= Count(W2M) then Err(ENOSPC)
    else if remapFails then Err(ENOMEM)
    else Ok(Dev(reserved, {Window(W2M, id)}, regs, id))
  }

  // ----- What the loops over windows amount to -----

  lemma {:induction false} DeallocateAllExact(dev: Dev, ws: set<Window>, k: Kind, n: nat, v: Window)
    requires n <= Count(k) && IsWindow(v)
    ensures var d := DeallocateAll(dev, ws, k, n);
      var hit := v in ws && v.kind == k && v.id < n;
      && d.reserved == dev.reserved && d.driver == dev.driver
      && (v in d.taken <==> v in dev.taken && !hit)
      && RegAt(d.regs, v) == if hit then IdentityWords(v) else RegAt(dev.regs, v)
  {
    if n != 0 {
      DeallocateAllExact(dev, ws, k, n - 1, v);
      var w := Window(k, n - 1);
      if w in ws {
        DeallocateExact(DeallocateAll(dev, ws, k, n - 1), w, v);
      }
    }
  }

  lemma DeallocateExact(dev: Dev, w: Window, v: Window)
    requires IsWindow(w) && IsWindow(v)
    ensures var d := Deallocate(dev, w);
      && (v in d.taken <==> v in dev.taken && v != w)
      && RegAt(d.regs, v) == if v == w then IdentityWords(v) else RegAt(dev.regs, v)
  {
    hide Encode, RegAt, SetReg, IdentityConfig, IdentityWords;
    IdentityEncodes(w);
    SetRegAt(dev.regs, w, Encode(w.kind, IdentityConfig(w)), v);
  }

  lemma {:induction false} DeallocateAllSubset(dev: Dev, ws: set<Window>, k: Kind, n: nat)
    requires n <= Count(k)
    ensures DeallocateAll(dev, ws, k, n).taken <= dev.taken
  {
    if n != 0 {
      DeallocateAllSubset(dev, ws, k, n - 1);
    }
  }

  /** Releasing a file, or removing the driver: exactly the windows in ws lose their allocation and go
      back to their identity configuration, and no other register changes. */
  lemma DeallocateSetExact(dev: Dev, ws: set<Window>, v: Window)
    requires IsWindow(v)
    ensures var d := DeallocateSet(dev, ws);
      && d.reserved == dev.reserved && d.driver == dev.driver && d.taken <= dev.taken
      && (v in d.taken <==> v in dev.taken && v !in ws)
      && RegAt(d.regs, v) == if v in ws then IdentityWords(v) else RegAt(dev.regs, v)
  {
    var d := DeallocateAll(dev, ws, W2M, Count(W2M));
    DeallocateAllExact(dev, ws, W2M, Count(W2M), v);
    DeallocateAllExact(d, ws, W128G, Count(W128G), v);
    DeallocateAllSubset(dev, ws, W2M, Count(W2M));
    DeallocateAllSubset(d, ws, W128G, Count(W128G));
  }
}
