/** What each entry point of the driver answers and when, in the numbers of the hardware. */
module NocAnswers {
  import opened Wrappers
  import opened BitFields
  import opened NocRegisters
  import opened NocDriver
  import opened NocAccess

  /** The probe reserves exactly the windows found configured and takes the lowest other 2M window for itself; it fails
      with ENOSPC if there is none and with ENOMEM if it cannot be mapped. */
  lemma ProbeAnswers(regs: RegFile, remapFails: bool)
    ensures var r := Probe(regs, remapFails);
      var full := forall id :: 0 <= id < 224 ==> IsConfigured(regs, Window(W2M, id));
      && (r == Err(ENOSPC) <==> full) && (r == Err(ENOMEM) <==> !full && remapFails)
      && (r.Ok? <==> !full && !remapFails)
      && (r.Ok? ==>
            && r.value.regs == regs && r.value.driver < 224 && r.value.taken == {Window(W2M, r.value.driver)}
            && (forall w: Window :: w in r.value.reserved <==> IsWindow(w) && IsConfigured(regs, w))
            && Window(W2M, r.value.driver) !in r.value.reserved
            && forall id :: 0 <= id < r.value.driver ==> Window(W2M, id) in r.value.reserved)
  {
    hide IsConfigured, Scan;
    var used := Scan(regs);
    forall w: Window
      ensures w in used <==> IsWindow(w) && IsConfigured(regs, w)
    {
      ScanExact(regs, w);
    }
    var id := FirstZero(W2M, used, 0);
    if id < 224 {
      assert !IsConfigured(regs, Window(W2M, id));
    } else {
      forall j | 0 <= j < 224
        ensures IsConfigured(regs, Window(W2M, j))
      {
        assert Window(W2M, j) in used;
      }
    }
  }

  /** ENOSPC with every window in use; EFAULT leaves the sets as they were; otherwise a window that nobody had. */
  lemma AllocAnswers(dev: Dev, fd: Fd, k: Kind, fault: bool)
    ensures var (dev', fd', r) := Alloc(dev, fd, k, fault);
      && (r == Err(ENOSPC) <==> AllInUse(dev, k)) && (r == Err(EFAULT) <==> !AllInUse(dev, k) && fault)
      && (r.Ok? <==> !AllInUse(dev, k) && !fault)
      && (r.Err? ==> dev'.taken == dev.taken && fd' == fd)
      && (r.Ok? ==>
            var w := Window(k, r.value.windowId);
            && w !in dev.reserved + dev.taken && dev' == dev.(taken := dev.taken + {w})
            && fd' == fd.(owned := fd.owned + {w}))
  {
    hide WindowAddr, AllInUse;
    FirstFree(dev, k);
    var id := FirstZero(k, dev.reserved + dev.taken, 0);
    if id < Count(k) {
      var d := dev.(taken := dev.taken + {Window(k, id)});
      assert Deallocate(d, Window(k, id)).taken == dev.taken;
    }
  }

  /** Only the owner configures, only a window there is, and only to a page boundary; then its register and no other
      takes the words, and else nothing changes. */
  lemma ConfigAnswers(dev: Dev, fd: Fd, k: Kind, c: Config, fault: bool, stray: bool, v: Window)
    requires IsWindow(v)
    ensures var (dev', r) := ConfigIoctl(dev, fd, k, c, fault, stray);
      var there := c.windowId < if k.W2M? then 224 else 32;
      var owned := if there then Window(k, c.windowId) in fd.owned else stray;
      var starts := c.addr % (if k.W2M? then 0x20_0000 else 0x20_0000_0000) == 0;
      && (r == Err(EFAULT) <==> fault)
      && (r == Err(EPERM) <==> !fault && !owned)
      && (r == Err(EINVAL) <==> !fault && owned && !(there && starts))
      && (r.Ok? <==> !fault && owned && there && starts)
      && dev' == dev.(regs := dev'.regs)
      && RegAt(dev'.regs, v)
         == if r.Ok? && v == Window(k, c.windowId) then Encode(k, c) else RegAt(dev.regs, v)
  {
    hide RegAt, Encode, SetReg;
    if c.windowId < Count(k) {
      SetRegAt(dev.regs, Window(k, c.windowId), Encode(k, c), v);
    }
  }

  lemma DeallocAnswers(dev: Dev, fd: Fd, k: Kind, id: u32, fault: bool, v: Window)
    requires IsWindow(v)
    ensures var (dev', fd', r) := Dealloc(dev, fd, k, id, fault);
      var w, n := Window(k, id), if k.W2M? then 224 else 32;
      && (r == Err(EFAULT) <==> fault)
      && (r == Err(EINVAL) <==> !fault && id >= n)
      && (r == Err(EPERM) <==> !fault && id < n && w !in fd.owned)
      && (r == Err(EBUSY) <==> !fault && id < n && w in fd.owned && CountOf(fd.mapped, w) > 0)
      && (r.Ok? <==> !fault && id < n && w in fd.owned && CountOf(fd.mapped, w) == 0)
      && (if r.Ok? then
            && dev'.taken == dev.taken - {w} && dev'.reserved == dev.reserved && fd' == fd.(owned := fd.owned - {w})
            && RegAt(dev'.regs, v) == (if v == w then IdentityWords(v) else RegAt(dev.regs, v))
          else dev' == dev && fd' == fd)
  {
    hide RegAt, IdentityWords;
    if id < Count(k) {
      assert Deallocate(dev, Window(k, id)).reserved == dev.reserved;
      hide Deallocate;
      DeallocateExact(dev, Window(k, id), v);
    }
  }

  /** mmap refuses what is larger than a window, what does not start in a window, what is not the caller's, and the
      mapping after 2^31 - 1 others; the count goes up by one for the rest, remapped or not. */
  lemma MmapAnswers(fd: Fd, offset: u64, size: nat, remapFails: bool, w: Window)
    ensures var (fd', r) := Mmap(fd, offset, size, remapFails);
      var large := size > if offset < 0x804_3000_0000 then 0x20_0000 else 0x20_0000_0000;
      && (large ==> r == Err(EINVAL) && fd' == fd)
      && (!large && (forall v: Window :: !InSpan(v, offset)) ==> r == Err(EINVAL) && fd' == fd)
      && (!large && InSpan(w, offset) ==>
            var n := CountOf(fd.mapped, w);
            && (w !in fd.owned ==> r == Err(EPERM) && fd' == fd)
            && (w in fd.owned && n == 0x7FFF_FFFF ==> r == Err(EOVERFLOW) && fd' == fd)
            && (w in fd.owned && n < 0x7FFF_FFFF ==>
                  && r == (if remapFails then Err(EAGAIN) else Ok(())) && fd' == fd.(mapped := fd.mapped[w := n + 1])))
  {
    hide DecodeOffset, WindowAddr;
    DecodeSpan(offset, w);
    if DecodeOffset(offset).Some? {
      DecodeSpan(offset, DecodeOffset(offset).value);
    }
    if CountOf(fd.mapped, w) < 0x7FFF_FFFF {
      SmallCount(CountOf(fd.mapped, w));
    }
  }

  /** The physical addresses of a window. */
  predicate InSpan(w: Window, a: nat)
  {
    if w.kind.W2M? then
      w.id < 224 && 0x4_3000_0000 + 0x20_0000 * w.id <= a < 0x4_3000_0000 + 0x20_0000 * w.id + 0x20_0000
    else
      w.id < 32
      && 0x804_3000_0000 + 0x20_0000_0000 * w.id <= a < 0x804_3000_0000 + 0x20_0000_0000 * w.id + 0x20_0000_0000
  }

  lemma DecodeSpan(offset: u64, w: Window)
    ensures DecodeOffset(offset) == Some(w) <==> InSpan(w, offset)
  {
    hide DecodeOffset;
    DecodeExact(offset, w);
  }

  /** Closing a mapping takes one off the count of the window it starts in; only a count of zero warns. */
  lemma CloseAnswers(fd: Fd, offset: u64, w: Window)
    requires InSpan(w, offset)
    ensures var (fd', underflow) := VmaClose(fd, offset);
      var n := CountOf(fd.mapped, w);
      if n > 0 then !underflow && fd' == fd.(mapped := fd.mapped[w := n - 1]) else underflow && fd' == fd
  {
    hide DecodeOffset;
    DecodeSpan(offset, w);
  }
}
