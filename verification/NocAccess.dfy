/** Which accesses an object takes, in plain arithmetic, and what the handle of a window stands for. */
module NocAccess {
  import opened Wrappers
  import opened BitFields
  import opened NocRegisters
  import opened NocDriver
  import opened NocClients

  // ----- The tests on an access -----

  /** What addr & (size - 1) == 0 comes to: on the sizes that one load or store can have, that size divides the
      address. */
  predicate NaturallyAligned(addr: nat, size: nat)
  {
    if size == 0 then addr == 0
    else if size == 3 then addr / 2 % 2 == 0
    else if size == 5 then addr / 4 % 2 == 0
    else if size == 6 then addr % 2 == 0 && addr / 4 % 2 == 0
    else if size == 7 then addr / 2 % 2 == 0 && addr / 4 % 2 == 0
    else addr % size == 0
  }

  lemma AndStep(a: nat, b: nat)
    ensures And(a, b) == 2 * And(a / 2, b / 2) + if a % 2 == 1 && b % 2 == 1 then 1 else 0
  {
    assert And(0, b / 2) == 0;
  }

  lemma AndZero(a: nat)
    ensures And(a, 0) == 0
  {
    MaskPow2(a, 0);
  }

  /** Masks of up to three bits. */
  lemma AndSmall(a: nat, b: nat)
    requires b < 8
    ensures And(a, b) == (if b % 2 == 1 then a % 2 else 0) + 2 * (if b / 2 % 2 == 1 then a / 2 % 2 else 0)
                         + 4 * (if b / 4 == 1 then a / 4 % 2 else 0)
  {
    AndStep(a, b);
    AndStep(a / 2, b / 2);
    AndStep(a / 2 / 2, b / 2 / 2);
    AndZero(a / 2 / 2 / 2);
    assert a / 2 / 2 == a / 4 && b / 2 / 2 == b / 4 && b / 4 / 2 == 0;
  }

  lemma AlignmentTest(addr: u64, size: u64)
    requires size <= 8
    ensures And(addr, MinusOne(size)) == 0 <==> NaturallyAligned(addr, size)
  {
    if size == 0 {
      Pow2Table();
      Pow2Add(32, 32);
      MaskPow2(addr, 64);
      SmallMod(addr, TWO64);
    } else {
      hide And;
      LowBits(addr);
      AndSmall(addr, size - 1);
    }
  }

  lemma LowBits(a: nat)
    ensures a % 4 == a % 2 + 2 * (a / 2 % 2) && a % 8 == a % 2 + 2 * (a / 2 % 2) + 4 * (a / 4 % 2)
  {
    DivModUnique(a, 4, a / 2 / 2, a % 2 + 2 * (a / 2 % 2));
    DivModUnique(a, 8, a / 4 / 2, a % 4 + 4 * (a / 4 % 2));
  }

  lemma PowerFits(e: nat)
    requires e <= 37
    ensures 1 <= Pow2(e) <= 0x20_0000_0000
  {
    Pow2Table();
    Pow2Add(e, 37 - e);
    MulMono(Pow2(e), 1, Pow2(37 - e));
  }

  /** On a window of 2^e bytes an access passes the tests if and only if it ends inside the window and, up to eight
      bytes, is naturally aligned; a write is also limited to 4G. */
  lemma ChecksExactly(write: bool, e: nat, addr: u64, size: u64)
    requires e <= 37 && Pow2(e) < TWO64
    ensures Checks(write, Pow2(e), addr, size) <==>
      && addr % Pow2(e) + size <= Pow2(e) && (write ==> size <= 0x1_0000_0000)
      && (size <= 8 ==> NaturallyAligned(addr, size))
  {
    PowerFits(e);
    MaskPow2(addr, e);
    DivMod(addr, Pow2(e));
    if size <= 8 {
      AlignmentTest(addr, size);
    }
  }

  /** The window address of such an access is aligned to a page of 2^k bytes if and only if the access lies in the first
      2^e bytes of its page. */
  lemma PageRule(addr: u64, e: nat, k: nat)
    requires e <= k
    ensures (addr - addr % Pow2(e)) % Pow2(k) == 0 <==> addr % Pow2(k) < Pow2(e)
  {
    hide Pow2;
    var m, n := Pow2(e), Pow2(k - e);
    Pow2Add(e, k - e);
    var q, v := High(addr, e), addr % m;
    DivMod(addr, m);
    DivMod(q, n);
    InMixedRadix(addr, m, n, q / n, q % n, v);
    InMixedRadix(addr - v, m, n, q / n, q % n, 0);
    MulMono(m, 0, q);
    if q % n >= 1 {
      MulMono(m, 1, q % n);
    }
  }

  lemma InMixedRadix(a: nat, m: nat, n: nat, t: nat, u: nat, v: nat)
    requires v < m && u < n && a == m * (n * t + u) + v
    ensures m * n >= 1 && a % (m * n) == v + m * u
  {
    MulAdd(m, n * t, u);
    MulAssoc(m, n, t);
    MulMono(m, 0, u);
    MixedRadixBound(m, n, v, u);
    DivModUnique(a, m * n, t, v + m * u);
  }

  lemma AlignedExactly(k: Kind, e: nat, addr: u64)
    requires e <= (if k.W2M? then 21 else 37) && Pow2(e) < TWO64
    ensures AndNot(addr, MinusOne(Pow2(e))) == addr - addr % Pow2(e) < TWO64
    ensures Aligned(k, AndNot(addr, MinusOne(Pow2(e)))) <==>
      (if k.W2M? then addr % 0x20_0000 else addr % 0x20_0000_0000) < Pow2(e)
  {
    Pow2Table();
    MaskPow2(addr, e);
    PageRule(addr, e, if k.W2M? then 21 else 37);
  }

  // ----- Objects -----

  /** From s to t the object starts the transfer if cond holds, and otherwise nothing changes. */
  ghost predicate StartsIff(s: World, t: World, c: nat, op: Op, cond: bool)
  {
    if cond then c in t.clients && t.clients[c].phase.Live? && t.clients[c].phase.op == op else t == s
  }

  /** The access stays inside the object's 2^e bytes and, up to eight bytes, is naturally aligned; and it lies in the
      first 2^e bytes of a page of the window. */
  predicate Takes(o: Client, e: nat, write: bool, addr: u64, n: nat)
  {
    && addr % Pow2(e) + n <= Pow2(e) && (write ==> n <= 0x1_0000_0000) && (n <= 8 ==> NaturallyAligned(addr, n))
    && (if o.size <= 0x20_0000 then addr % 0x20_0000 else addr % 0x20_0000_0000) < Pow2(e)
  }

  lemma StartsIn(s: World, c: nat, write: bool, x: u32, y: u32, addr: u64, data: seq<u8>, same: bool, e: nat)
    requires WorldInv(s) && Possible(s, Aim(c, write, x, y, addr, data, same, false))
    requires s.clients[c].size == Pow2(e) && e <= 37
    ensures StartsIff(s, Do(s, Aim(c, write, x, y, addr, data, same, false)), c,
                      Transfer(write, x, y, addr, data, 0), Takes(s.clients[c], e, write, addr, |data|))
  {
    hide WorldInv, Do, Checks, And, AndNot, Aligned, Takes, MinusOne, Foreign, Pow2;
    KindOf(s, c, e);
    TakesMeans(s.clients[c], e, write, addr, |data|);
    AcceptedExactly(s, c, write, x, y, addr, data, same);
    AimKeepsObjects(s, c, write, x, y, addr, data, same);
  }

  lemma AimKeepsObjects(s: World, c: nat, write: bool, x: u32, y: u32, addr: u64, data: seq<u8>, same: bool)
    requires Possible(s, Aim(c, write, x, y, addr, data, same, false))
    ensures c in Do(s, Aim(c, write, x, y, addr, data, same, false)).clients
  {
    hide Checks, ConfigResult, Foreign, And, AndNot;
  }

  lemma TakesMeans(o: Client, e: nat, write: bool, addr: u64, n: u64)
    requires o.size == Pow2(e) && e <= 37 && (o.kind == W2M <==> o.size <= 0x20_0000) && (o.kind == W2M ==> e <= 21)
    ensures Takes(o, e, write, addr, n)
            <==> Checks(write, o.size, addr, n) && Aligned(o.kind, AndNot(addr, MinusOne(o.size)))
  {
    hide Checks, And, AndNot, Aligned, NaturallyAligned, Pow2;
    ChecksExactly(write, e, addr, n);
    AlignedExactly(o.kind, e, addr);
  }

  /** In every run an object whose size is a power of two takes exactly such accesses; a refused one changes nothing. */
  lemma StartsExactly(
      regs: RegFile, remapFails: bool, dev: Dev, mem: Mem, acts: seq<Act>,
      c: nat, write: bool, x: u32, y: u32, addr: u64, data: seq<u8>, same: bool, e: nat)
    requires Probe(regs, remapFails) == Ok(dev) && e <= 37
    requires Possible(Play(Start(dev, mem), acts), Aim(c, write, x, y, addr, data, same, false))
    requires Play(Start(dev, mem), acts).clients[c].size == Pow2(e)
    ensures var s := Play(Start(dev, mem), acts);
      StartsIff(s, Do(s, Aim(c, write, x, y, addr, data, same, false)), c,
                Transfer(write, x, y, addr, data, 0), Takes(s.clients[c], e, write, addr, |data|))
  {
    hide WorldInv, Play, Do, StartsIff, Takes, Pow2;
    WorldInvHolds(regs, remapFails, dev, mem, acts);
    StartsIn(Play(Start(dev, mem), acts), c, write, x, y, addr, data, same, e);
  }

  /** In every run an object holds a 2M window if it has up to 2M and a 128G window otherwise, and its handle names the
      start of it. */
  lemma ObjectWindows(regs: RegFile, remapFails: bool, dev: Dev, mem: Mem, acts: seq<Act>, c: nat)
    requires Probe(regs, remapFails) == Ok(dev) && c in Play(Start(dev, mem), acts).clients
    ensures var s := Play(Start(dev, mem), acts);
      var o := s.clients[c];
      && o.file in s.sys.files && Window(o.kind, o.handle.windowId) in s.sys.files[o.file].fd.owned
      && (if o.size <= 0x20_0000
          then o.kind == W2M && o.handle.windowId < 224
               && o.handle.mmapOffset == 0x4_3000_0000 + 0x20_0000 * o.handle.windowId
          else o.kind == W128G && o.handle.windowId < 32
               && o.handle.mmapOffset == 0x804_3000_0000 + 0x20_0000_0000 * o.handle.windowId)
  {
    WorldInvHolds(regs, remapFails, dev, mem, acts);
    hide Play, NocSystem.Inv;
    assert Good(Play(Start(dev, mem), acts).sys, Play(Start(dev, mem), acts).clients[c]);
  }

  lemma KindOf(s: World, c: nat, e: nat)
    requires WorldInv(s) && c in s.clients && s.clients[c].size == Pow2(e) && e <= 37
    ensures s.clients[c].kind == W2M <==> s.clients[c].size <= 0x20_0000
    ensures s.clients[c].kind == W2M ==> e <= 21
  {
    assert Good(s.sys, s.clients[c]);
    Pow2Table();
    if e > 21 {
      Pow2Add(21, e - 21);
      Pow2Add(1, e - 22);
      assert Pow2(1) == 2;
      MulMono(0x20_0000, 2, Pow2(e - 21));
    }
  }

  /** In particular an object of 2M takes exactly the accesses that stay inside a 2M page and, in one load or store, are
      naturally aligned; one of 4G those that stay inside the first 4G of a 128G page. */
  lemma TakesTwoSizes(o: Client, write: bool, addr: u64, n: nat)
    ensures o.size == 0x20_0000 && (n == 1 || n == 2 || n == 4 || n == 8) ==>
      (Takes(o, 21, write, addr, n) <==> addr % n == 0 && addr % 0x20_0000 + n <= 0x20_0000)
    ensures o.size == 0x20_0000 && n > 8 ==>
      (Takes(o, 21, write, addr, n) <==> addr % 0x20_0000 + n <= 0x20_0000)
    ensures o.size == 0x1_0000_0000 && (n == 1 || n == 2 || n == 4 || n == 8) ==>
      (Takes(o, 32, write, addr, n) <==> addr % n == 0 && addr % 0x20_0000_0000 + n <= 0x1_0000_0000)
    ensures o.size == 0x1_0000_0000 && n > 8 ==>
      (Takes(o, 32, write, addr, n) <==> addr % 0x20_0000_0000 + n <= 0x1_0000_0000)
  {
    Pow2Table();
    FirstFourGigs(addr);
  }

  lemma FirstFourGigs(addr: nat)
    ensures addr % 0x20_0000_0000 < 0x1_0000_0000 ==> addr % 0x1_0000_0000 == addr % 0x20_0000_0000
    ensures addr % 0x20_0000 < 0x20_0000
  {
  }

  // ----- Handles -----

  /** The handle of an allocation names exactly the addresses of the window allocated. */
  lemma HandleNames(dev: Dev, fd: Fd, k: Kind, fault: bool, a: nat)
    requires Alloc(dev, fd, k, fault).2.Ok?
    ensures var h := Alloc(dev, fd, k, fault).2.value;
      && Window(k, h.windowId) !in dev.reserved + dev.taken
      && (k.W2M? ==> h.windowId < 224 && h.mmapOffset == 0x4_3000_0000 + 0x20_0000 * h.windowId
                     && h.mmapSize == 0x20_0000)
      && (k.W128G? ==> h.windowId < 32 && h.mmapOffset == 0x804_3000_0000 + 0x20_0000_0000 * h.windowId
                       && h.mmapSize == 0x20_0000_0000)
      && (h.mmapOffset <= a < h.mmapOffset + h.mmapSize <==> a < TWO64 && HwWindow(a) == Some(Window(k, h.windowId)))
  {
    hide Deallocate;
  }

  /** An access at this physical address goes there. */
  predicate Lands(regs: RegFile, phys: nat, loc: Loc) { phys < TWO64 && HwTarget(regs, phys) == Some(loc) }

  /** Some allocation gives this handle. */
  ghost predicate Given(k: Kind, h: Handle) { exists dev, fd, fault :: Alloc(dev, fd, k, fault).2 == Ok(h) }

  lemma GivenIs(k: Kind, h: Handle)
    requires Given(k, h)
    ensures IsWindow(Window(k, h.windowId)) && h.mmapOffset == WindowAddr(Window(k, h.windowId))
    ensures h.mmapSize == SizeOf(k)
  {
    hide Deallocate, WindowAddr;
  }

  /** Byte i of what a unicast configuration aims at. */
  function TargetOf(c: Config, i: nat): Loc { Loc(c.xEnd % 64, c.yEnd % 64, c.addr + i) }

  predicate Unicast(c: Config) { c.multicastEn % 2 == 0 }

  /** And through it one reaches what the window is aimed at, from its first byte to its last. */
  lemma HandleReaches(k: Kind, h: Handle, regs: RegFile, c: Config, i: nat)
    requires Given(k, h) && i < h.mmapSize && Aligned(k, c.addr) && Unicast(c)
    requires IsWindow(Window(k, h.windowId)) && RegAt(regs, Window(k, h.windowId)) == Encode(k, c)
    ensures Lands(regs, h.mmapOffset + i, TargetOf(c, i))
  {
    hide RegAt, Encode, Aligned, HwTarget, Given;
    GivenIs(k, h);
    Translation(regs, Window(k, h.windowId), c, i);
  }

  // ----- The life of an object -----

  predicate AllInUse(dev: Dev, k: Kind)
  {
    forall id :: 0 <= id < (if k.W2M? then 224 else 32) ==> Window(k, id) in dev.reserved + dev.taken
  }

  /** The alloc ioctl succeeds exactly while a window of the kind that the size asks for is free, and an object larger
      than its window is given up. */
  lemma ConstructExactly(s: World, c: nat, f: nat, size: u64, initial: Config)
    requires WorldInv(s) && Possible(s, Construct(c, f, size, initial, false))
    ensures var k, t := if size <= 0x20_0000 then W2M else W128G, Do(s, Construct(c, f, size, initial, false));
      if AllInUse(s.sys.dev, k) then t == s
      else
        && c in t.clients && t.clients == s.clients[c := t.clients[c]] && t.clients[c].file == f
        && t.clients[c].kind == k && t.clients[c].size == size && t.clients[c].initial == initial
        && t.clients[c].phase == (if size > 0x20_0000_0000 then Closing else Allocated)
        && ClientWindow(t.clients[c]) !in s.sys.dev.reserved + s.sys.dev.taken
  {
    hide WorldInv, NocSystem.Inv, WindowAddr, Deallocate;
    var k := if size <= 0x20_0000 then W2M else W128G;
    FirstFree(s.sys.dev, k);
  }

  lemma FirstFree(dev: Dev, k: Kind)
    ensures var id := FirstZero(k, dev.reserved + dev.taken, 0);
      && (AllInUse(dev, k) <==> id >= Count(k))
      && (id < Count(k) ==> Window(k, id) !in dev.reserved + dev.taken)
  {
    var id := FirstZero(k, dev.reserved + dev.taken, 0);
    if id < Count(k) {
      assert Window(k, id) !in dev.reserved + dev.taken;
    }
  }

  /** The config ioctl succeeds exactly for an address that starts a page of the window. */
  lemma ConfigureExactly(s: World, c: nat)
    requires WorldInv(s) && Possible(s, Configure(c, false))
    ensures var o, t := s.clients[c], Do(s, Configure(c, false));
      var config := o.initial.(windowId := o.handle.windowId);
      t.clients == s.clients[c := o.(phase :=
        if o.initial.addr % (if o.size <= 0x20_0000 then 0x20_0000 else 0x20_0000_0000) == 0 then Configured(config)
        else Closing)]
  {
    hide NocSystem.Inv, SetReg, Encode;
    var o := s.clients[c];
    assert Good(s.sys, o);
    ConfigOutcome(s, c, o.initial.(windowId := o.handle.windowId), false);
    hide WorldInv, ConfigResult, NocSystem.Step;
  }

  /** And the mmap call for every size but zero, unless the remap fails or the count is at its limit. */
  lemma MapExactly(s: World, c: nat, v: nat, remapFails: bool)
    requires WorldInv(s) && Possible(s, Map(c, v, remapFails))
    requires CountOf(s.sys.files[s.clients[c].file].fd.mapped, ClientWindow(s.clients[c])) < 0x7FFF_FFFF
    ensures var o, t := s.clients[c], Do(s, Map(c, v, remapFails));
      t.clients == s.clients[c := o.(phase :=
        if o.size > 0 && !remapFails then Live(o.phase.config, v, Quiet) else Closing)]
  {
    hide NocSystem.Inv, NocSystem.Step, Agrees, DecodeOffset;
    var o := s.clients[c];
    assert Good(s.sys, o);
    RoundedFits(s.sys, o, o.phase.config);
    DecodeInverts(ClientWindow(o));
    SmallCount(CountOf(s.sys.files[o.file].fd.mapped, ClientWindow(o)));
    StartsBelow(ClientWindow(o));
  }

  lemma SmallCount(n: nat)
    requires n < 0x7FFF_FFFF
    ensures ToInt(n + 1) == n + 1
  {
  }

  lemma StartsBelow(w: Window)
    requires IsWindow(w)
    ensures WindowAddr(w) < Base(W128G) <==> w.kind == W2M
  {
  }

  /** The destructor's munmap removes the mapping and takes it off the count. */
  lemma UnmapExactly(s: World, c: nat)
    requires WorldInv(s) && Possible(s, Unmap(c))
    ensures var o, t := s.clients[c], Do(s, Unmap(c));
      var v, w := o.phase.vma, ClientWindow(o);
      && t.clients == s.clients[c := o.(phase := Closing)] && v in s.sys.vmas && t.sys.vmas == s.sys.vmas - {v}
      && o.file in s.sys.files && o.file in t.sys.files && CountOf(s.sys.files[o.file].fd.mapped, w) > 0
      && CountOf(t.sys.files[o.file].fd.mapped, w) == CountOf(s.sys.files[o.file].fd.mapped, w) - 1
  {
    hide DecodeOffset, Agrees, NocSystem.FreeIdle, NocSystem.Partition, Apart;
    var o := s.clients[c];
    assert Good(s.sys, o);
    DecodeInverts(ClientWindow(o));
    NocSystem.MappedPositive(s.sys.files, s.sys.vmas, o.phase.vma, ClientWindow(o));
  }
}
