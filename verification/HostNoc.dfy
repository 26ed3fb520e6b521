/** The host's side of the L2CPU windows: it writes, over PCIe, the registers that the kernel driver scans. */
module HostNoc {
  import opened Wrappers
  import opened BitFields
  import opened NocRegisters
  import opened NocDriver
  import opened NocSystem
  import opened NocGuarantees
  import opened NocClients

  /** What configure_noc_tlb_2M asks for; strict_order is set. */
  function HostConfig2M(x: u32, y: u32, addr: u64): Config
  {
    ZERO_CONFIG.(addr := addr, xEnd := x, yEnd := y, strictOrder := 1)
  }

  /** What configure_noc_tlb_128G asks for. */
  function HostConfig128G(x: u32, y: u32, addr: u64): Config
  {
    ZERO_CONFIG.(addr := addr, xEnd := x, yEnd := y)
  }

  /** The 2M struct of the host, field by field as it declares it. */
  const TLB_2M: seq<nat> := [43, 21, 6, 6, 6, 6, 1, 1, 1, 1, 1, 1, 1, 1, 3, 8, 5, 4, 1, 1, 1, 1, 8]
  const TLB_128G: seq<nat> := [27, 5, 6, 6, 6, 6, 1, 1, 1, 1, 1, 1, 1, 1, 3, 8, 5, 4, 1, 1, 1, 1, 8]

  function Filled2M(x: u32, y: u32, address: u64): (vs: seq<nat>)
    ensures |vs| == 23
  {
    [address / 0x20_0000, 0, x, y, 0, 0, 0, 1, 0, 0, 0, 0, 0, 0, 0, 0, 0, 0, 0, 0, 0, 0, 0]
  }

  function Filled128G(x: u32, y: u32, address: u64): (vs: seq<nat>)
    ensures |vs| == 23
  {
    [address / 0x20_0000_0000, 0, x, y, 0, 0, 0, 0, 0, 0, 0, 0, 0, 0, 0, 0, 0, 0, 0, 0, 0, 0, 0]
  }

  /** The host's structs and the driver's are the same registers. */
  lemma SameLayout2M(x: u32, y: u32, address: u64)
    ensures ToWords(Pack(TLB_2M, Filled2M(x, y, address)), 4) == Encode(W2M, HostConfig2M(x, y, address))
  {
    hide Pack, ToWords;
    var c := HostConfig2M(x, y, address);
    assert TLB_2M == LowWidths(W2M) + (CONTROL_WIDTHS + TAIL_WIDTHS);
    assert Filled2M(x, y, address) == [Page(W2M, address), 0] + (ControlValues(c) + TailValues(c));
  }

  lemma SameLayout128G(x: u32, y: u32, address: u64)
    ensures ToWords(Pack(TLB_128G, Filled128G(x, y, address)), 3) == Encode(W128G, HostConfig128G(x, y, address))
  {
    hide Pack, ToWords;
    var d := HostConfig128G(x, y, address);
    assert TLB_128G == LowWidths(W128G) + (CONTROL_WIDTHS + TAIL_WIDTHS);
    assert Filled128G(x, y, address) == [Page(W128G, address), 0] + (ControlValues(d) + TailValues(d));
  }

  /** What words say to the hardware: the tile in the two end fields, the page, and for 2M the strict_order bit. */
  predicate Aims(k: Kind, ws: seq<u32>, x: u32, y: u32, address: u64)
    requires |ws| == RegWords(k)
  {
    && HwX(k, ws) == x % 64 && HwY(k, ws) == y % 64
    && if k.W2M? then
         HwAddr(k, ws) == address / 0x20_0000 && ws[2] == x % 64 + 0x40 * (y % 64) + 0x200_0000 && ws[3] == 0
       else HwAddr(k, ws) == address / 0x20_0000_0000 && ws[1] == x % 64 + 0x40 * (y % 64) && ws[2] == 0
  }

  lemma HostWords2M(x: u32, y: u32, address: u64)
    ensures Aims(W2M, Encode(W2M, HostConfig2M(x, y, address)), x, y, address)
  {
    var c := HostConfig2M(x, y, address);
    hide Encode, Control;
    EncodeWords(W2M, c);
    EncodeTarget(W2M, c);
    ControlIs(c);
    hide HwX, HwY, HwAddr;
  }

  lemma HostWords128G(x: u32, y: u32, address: u64)
    ensures Aims(W128G, Encode(W128G, HostConfig128G(x, y, address)), x, y, address)
  {
    var c := HostConfig128G(x, y, address);
    hide Encode, Control;
    EncodeWords(W128G, c);
    EncodeTarget(W128G, c);
    ControlIs(c);
    hide HwX, HwY, HwAddr;
  }

  /** The part of the address below the page is not in the register. */
  lemma PageOnly(k: Kind, c: Config, addr: u64)
    requires Page(k, addr) == Page(k, c.addr)
    ensures Encode(k, c.(addr := addr)) == Encode(k, c)
  {
    assert ControlValues(c.(addr := addr)) == ControlValues(c);
    hide Encode, Page;
    EncodeWords(k, c);
    EncodeWords(k, c.(addr := addr));
  }

  lemma PageStart(k: Kind, address: u64)
    ensures var a := if k.W2M? then address - address % 0x20_0000 else address - address % 0x20_0000_0000;
      a >= 0 && Page(k, a) == Page(k, address) && Aligned(k, a)
  {
  }

  /** Byte i of a window that the host set is byte i of the page that holds the address, on the tile it named. */
  ghost predicate Shows(regs: RegFile, start: nat, size: nat, x: nat, y: nat, page: int)
  {
    forall phys: u64 :: start <= phys < start + size ==>
      HwTarget(regs, phys).Some? && HwTarget(regs, phys).value.x == x && HwTarget(regs, phys).value.y == y
      && HwTarget(regs, phys).value.addr == page + phys - start
  }

  lemma HostReaches2M(regs: RegFile, index: nat, x: u32, y: u32, address: u64)
    requires index < 224 && RegAt(regs, Window(W2M, index)) == Encode(W2M, HostConfig2M(x, y, address))
    ensures Shows(regs, 0x4_3000_0000 + 0x20_0000 * index, 0x20_0000, x % 64, y % 64, address - address % 0x20_0000)
  {
    hide RegAt, Encode, HwTarget, Page, Aligned;
    var c, w := HostConfig2M(x, y, address), Window(W2M, index);
    PageStart(W2M, address);
    PageOnly(W2M, c, address - address % 0x20_0000);
    forall phys: u64 | WindowAddr(w) <= phys < WindowAddr(w) + 0x20_0000
      ensures HwTarget(regs, phys)
              == Some(Loc(x % 64, y % 64, address - address % 0x20_0000 + (phys - WindowAddr(w))))
    {
      Translation(regs, w, c.(addr := address - address % 0x20_0000), phys - WindowAddr(w));
    }
  }

  lemma HostReaches128G(regs: RegFile, index: nat, x: u32, y: u32, address: u64)
    requires index < 32 && RegAt(regs, Window(W128G, index)) == Encode(W128G, HostConfig128G(x, y, address))
    ensures Shows(regs, 0x804_3000_0000 + 0x20_0000_0000 * index, 0x20_0000_0000, x % 64, y % 64,
                  address - address % 0x20_0000_0000)
  {
    hide RegAt, Encode, HwTarget, Page, Aligned;
    var c, w := HostConfig128G(x, y, address), Window(W128G, index);
    PageStart(W128G, address);
    PageOnly(W128G, c, address - address % 0x20_0000_0000);
    forall phys: u64 | WindowAddr(w) <= phys < WindowAddr(w) + 0x20_0000_0000
      ensures HwTarget(regs, phys)
              == Some(Loc(x % 64, y % 64, address - address % 0x20_0000_0000 + (phys - WindowAddr(w))))
    {
      Translation(regs, w, c.(addr := address - address % 0x20_0000_0000), phys - WindowAddr(w));
    }
  }

  /** configure_noc_tlb_2M: four words at byte offset 0x10 * index of the register block. */
  method ConfigureNocTlb2M(regs: array<u32>, index: nat, x: u32, y: u32, address: u64)
    requires regs.Length == REG_BLOCK && index < Count(W2M)
    modifies regs
    ensures regs[..] == SetReg(old(regs[..]), Window(W2M, index), Encode(W2M, HostConfig2M(x, y, address)))
    ensures Aims(W2M, RegAt(regs[..], Window(W2M, index)), x, y, address)
    ensures Shows(regs[..], 0x4_3000_0000 + 0x20_0000 * index, 0x20_0000, x % 64, y % 64,
                  address - address % 0x20_0000)
  {
    hide Encode, Pack, ToWords, Filled2M, Filled128G, HostConfig2M, HostConfig128G, Shows, Aims, RegAt;
    var data := ToWords(Pack(TLB_2M, Filled2M(x, y, address)), 4);
    SameLayout2M(x, y, address);
    regs[0x10 * index / 4] := data[0];
    regs[(0x10 * index + 0x4) / 4] := data[1];
    regs[(0x10 * index + 0x8) / 4] := data[2];
    regs[(0x10 * index + 0xC) / 4] := data[3];
    assert regs[..] == SetReg(old(regs[..]), Window(W2M, index), Encode(W2M, HostConfig2M(x, y, address)));
    SetRegAt(old(regs[..]), Window(W2M, index), Encode(W2M, HostConfig2M(x, y, address)), Window(W2M, index));
    HostWords2M(x, y, address);
    HostReaches2M(regs[..], index, x, y, address);
  }

  /** configure_noc_tlb_128G: three words at byte offset 0xE00 + 0xC * index. */
  method ConfigureNocTlb128G(regs: array<u32>, index: nat, x: u32, y: u32, address: u64)
    requires regs.Length == REG_BLOCK && index < Count(W128G)
    modifies regs
    ensures regs[..] == SetReg(old(regs[..]), Window(W128G, index), Encode(W128G, HostConfig128G(x, y, address)))
    ensures Aims(W128G, RegAt(regs[..], Window(W128G, index)), x, y, address)
    ensures Shows(regs[..], 0x804_3000_0000 + 0x20_0000_0000 * index, 0x20_0000_0000, x % 64, y % 64,
                  address - address % 0x20_0000_0000)
  {
    hide Encode, Pack, ToWords, Filled2M, Filled128G, HostConfig2M, HostConfig128G, Shows, Aims, RegAt;
    var data := ToWords(Pack(TLB_128G, Filled128G(x, y, address)), 3);
    SameLayout128G(x, y, address);
    regs[(0xE00 + 0xC * index) / 4] := data[0];
    regs[(0xE00 + 0xC * index + 0x4) / 4] := data[1];
    regs[(0xE00 + 0xC * index + 0x8) / 4] := data[2];
    assert regs[..] == SetReg(old(regs[..]), Window(W128G, index), Encode(W128G, HostConfig128G(x, y, address)));
    SetRegAt(old(regs[..]), Window(W128G, index), Encode(W128G, HostConfig128G(x, y, address)), Window(W128G, index));
    HostWords128G(x, y, address);
    HostReaches128G(regs[..], index, x, y, address);
  }

  // ----- What the driver makes of such registers -----

  lemma HostWindow2MDetected(regs: RegFile, w: Window, c: Config)
    requires w.kind == W2M && IsWindow(w) && c.strictOrder % 2 == 1 && RegAt(regs, w) == Encode(W2M, c)
    ensures IsConfigured(regs, w)
  {
    hide Encode, RegAt, Control;
    EncodeWords(W2M, c);
    ControlBits(c);
  }

  /** Whatever its target, a 2M window that the host set is found configured, and no run of the driver ever allocates
      it or rewrites its register. */
  lemma HostWindowProtected(
      regs: RegFile, id: nat, x: u32, y: u32, addr: u64, remapFails: bool, dev: Dev, es: seq<Event>)
    requires id < Count(W2M) && RegAt(regs, Window(W2M, id)) == Encode(W2M, HostConfig2M(x, y, addr))
    requires Probe(regs, remapFails) == Ok(dev)
    ensures var w, s := Window(W2M, id), Run(Boot(dev), es);
      && w in s.dev.reserved && w !in s.dev.taken && RegAt(s.dev.regs, w) == RegAt(regs, w)
      && forall f <- s.files :: w !in s.files[f].fd.owned
  {
    hide Encode, Run, RegAt, IsConfigured;
    HostWindow2MDetected(regs, Window(W2M, id), HostConfig2M(x, y, addr));
    ReservedProtected(regs, remapFails, dev, es, Window(W2M, id));
  }

  /** The target that makes a 128G register look unused: tile (0, 0), at the very page that the idle register names. */
  predicate LooksIdle(id: nat, x: u32, y: u32, addr: u64)
  {
    x % 64 == 0 && y % 64 == 0 && addr / 0x20_0000_0000 == id
  }

  lemma HostWindow128GDetected(regs: RegFile, id: nat, x: u32, y: u32, addr: u64)
    requires id < Count(W128G) && RegAt(regs, Window(W128G, id)) == Encode(W128G, HostConfig128G(x, y, addr))
    ensures IsConfigured(regs, Window(W128G, id)) <==> !LooksIdle(id, x, y, addr)
  {
    var c := HostConfig128G(x, y, addr);
    HostControl(c);
    hide Encode, Control, RegAt, IsConfigured;
    EncodeWords(W128G, c);
    ControlBound(c);
    ConfiguredWords128G(regs, Window(W128G, id), Page(W128G, addr), Control(c));
  }

  /** A 128G window that the host set keeps its register through every run, and is never allocated in any, exactly
      unless it looks idle; then some run hands it out. */
  lemma HostWindow128GProtected(
      regs: RegFile, id: nat, x: u32, y: u32, addr: u64, remapFails: bool, dev: Dev, es: seq<Event>)
    requires id < Count(W128G) && RegAt(regs, Window(W128G, id)) == Encode(W128G, HostConfig128G(x, y, addr))
    requires Probe(regs, remapFails) == Ok(dev)
    ensures var w, s := Window(W128G, id), Run(Boot(dev), es);
      !LooksIdle(id, x, y, addr) ==>
        && w in s.dev.reserved && w !in s.dev.taken && RegAt(s.dev.regs, w) == RegAt(regs, w)
        && forall f <- s.files :: w !in s.files[f].fd.owned
    ensures var w := Window(W128G, id);
      LooksIdle(id, x, y, addr) <==>
        exists t, f :: f in Run(Boot(dev), t).files && w in Run(Boot(dev), t).files[f].fd.owned
  {
    hide Encode, Run, RegAt, IsConfigured, LooksIdle;
    var w := Window(W128G, id);
    HostWindow128GDetected(regs, id, x, y, addr);
    if LooksIdle(id, x, y, addr) {
      ScanExact(regs, w);
      assert id in FreeIds(dev, W128G);
      FreeIsHandedOut(dev, W128G, id);
    } else {
      forall t
        ensures forall f <- Run(Boot(dev), t).files :: w !in Run(Boot(dev), t).files[f].fd.owned
      {
        ReservedProtected(regs, remapFails, dev, t, w);
      }
      ReservedProtected(regs, remapFails, dev, es, w);
    }
  }

  lemma HostControl(c: Config)
    requires c == HostConfig128G(c.xEnd, c.yEnd, c.addr)
    ensures c.xEnd % 64 == 0 && c.yEnd % 64 == 0 <==> Control(c) == 0
  {
    hide Control;
    ControlBits(c);
    if c.xEnd % 64 == 0 && c.yEnd % 64 == 0 {
      ZeroControl(c);
    }
  }

  lemma ConfiguredWords128G(regs: RegFile, w: Window, page: u32, control: u32)
    requires w.kind == W128G && IsWindow(w) && page < 0x800_0000 && RegAt(regs, w) == [page, control, 0]
    ensures IsConfigured(regs, w) <==> !(control == 0 && page == w.id)
  {
    hide RegAt;
  }
}
