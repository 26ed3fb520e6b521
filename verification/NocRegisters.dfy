/** The NOC windows of the L2CPU and the TLB registers that aim them: the struct layouts, the words
    they occupy in the register block, and what the hardware does with those words. */
module NocRegisters {
  import opened BitFields

  /** The two window sizes. The driver's 2M and 128G code paths are one path here, indexed by kind. */
  datatype Kind = W2M | W128G

  datatype Window = Window(kind: Kind, id: nat)

  function Count(k: Kind): nat { if k.W2M? then 224 else 32 }

  function SizeOf(k: Kind): nat { if k.W2M? then 0x20_0000 else 0x20_0000_0000 }

  /** An address shifted right by the window's size, as the addr field holds it. */
  function Page(k: Kind, addr: u64): (p: nat)
    ensures p < if k.W2M? then 0x800_0000_0000 else 0x800_0000
  {
    if k.W2M? then addr / 0x20_0000 else addr / 0x20_0000_0000
  }

  predicate Aligned(k: Kind, addr: nat)
  {
    if k.W2M? then addr % 0x20_0000 == 0 else addr % 0x20_0000_0000 == 0
  }

  const SYSTEM_PORT: nat := 0x3000_0000

  function Base(k: Kind): nat
  {
    if k.W2M? then SYSTEM_PORT + 0x4_0000_0000 else SYSTEM_PORT + 0x804_0000_0000
  }

  predicate IsWindow(w: Window) { w.id < Count(w.kind) }

  function WindowsOf(k: Kind): set<Window> { set id | 0 <= id < Count(k) :: Window(k, id) }

  function AllWindows(): set<Window> { WindowsOf(W2M) + WindowsOf(W128G) }

  lemma AllWindowsAre(w: Window)
    ensures w in AllWindows() <==> IsWindow(w)
  {
  }

  /** struct noc_window_config. */
  datatype Config = Config(
    windowId: u32, addr: u64,
    xEnd: u32, yEnd: u32, xStart: u32, yStart: u32,
    multicastEn: u8, strictOrder: u8, posted: u8, linked: u8,
    staticEn: u8, streamHeader: u8, nocSelector: u8, staticVc: u8)

  const ZERO_CONFIG: Config := Config(0, 0, 0, 0, 0, 0, 0, 0, 0, 0, 0, 0, 0, 0)

  // ----- Register layout -----

  /** addr and reserved0; these fill whole words, so the control fields start on a word boundary. */
  function LowWidths(k: Kind): seq<nat> { if k.W2M? then [43, 21] else [27, 5] }

  /** x_end, y_end, x_start, y_start, multicast_en, strict_order, posted, linked, static_en,
      stream_header, reserved1, noc_selector. */
  const CONTROL_WIDTHS: seq<nat> := [6, 6, 6, 6, 1, 1, 1, 1, 1, 1, 1, 1]

  /** static_vc, strided, exclude_coord_x, exclude_coord_y, exclude_dir_x, exclude_dir_y,
      exclude_enable, exclude_routing_option, num_destinations. */
  const TAIL_WIDTHS: seq<nat> := [3, 8, 5, 4, 1, 1, 1, 1, 8]

  function RegWords(k: Kind): nat { if k.W2M? then 4 else 3 }

  function ControlValues(c: Config): (vs: seq<nat>)
    ensures |vs| == 12
  {
    [c.xEnd, c.yEnd, c.xStart, c.yStart, c.multicastEn, c.strictOrder, c.posted, c.linked,
     c.staticEn, c.streamHeader, 0, c.nocSelector]
  }

  function TailValues(c: Config): seq<nat> { [c.staticVc, 0, 0, 0, 0, 0, 0, 0, 0] }

  /** The words that configuring a window with c writes: the struct filled field by field, as data[]. */
  function Encode(k: Kind, c: Config): (ws: seq<u32>)
    ensures |ws| == RegWords(k)
  {
    ToWords(Pack(LowWidths(k) + (CONTROL_WIDTHS + TAIL_WIDTHS),
                 [Page(k, c.addr), 0] + (ControlValues(c) + TailValues(c))),
            RegWords(k))
  }

  function Control(c: Config): nat { Pack(CONTROL_WIDTHS, ControlValues(c)) }

  lemma ControlWidth()
    ensures Width(CONTROL_WIDTHS) == 32
  {
    assert CONTROL_WIDTHS[1..][1..][1..][1..] == [1, 1, 1, 1, 1, 1, 1, 1];
    assert Width([1, 1, 1, 1, 1, 1, 1, 1]) == 8;
  }

  lemma ControlBound(c: Config)
    ensures Control(c) < TWO32
  {
    PackBound(CONTROL_WIDTHS, ControlValues(c));
    ControlWidth();
    Pow2Table();
  }

  lemma TailWord(c: Config)
    ensures Pack(TAIL_WIDTHS, TailValues(c)) == c.staticVc % 8
  {
    PackFirst(TAIL_WIDTHS, TailValues(c));
    Pow2Table();
  }

  lemma LowWidth(k: Kind)
    ensures Pow2(Width(LowWidths(k))) == if k.W2M? then TWO64 else TWO32
  {
    assert Width(LowWidths(k)[1..]) == LowWidths(k)[1];
    Pow2Table();
    Pow2Add(32, 32);
  }

  lemma LowWords(k: Kind, page: nat)
    requires page < if k.W2M? then 0x800_0000_0000 else 0x800_0000
    ensures Pack(LowWidths(k), [page, 0]) == page
  {
    PackFirst(LowWidths(k), [page, 0]);
    assert page < Pow2(LowWidths(k)[0]) by { Pow2Table(); }
    SmallMod(page, Pow2(LowWidths(k)[0]));
  }

  /** The struct as one integer. */
  lemma EncodeInteger(k: Kind, c: Config)
    ensures Pack(LowWidths(k) + (CONTROL_WIDTHS + TAIL_WIDTHS),
                 [Page(k, c.addr), 0] + (ControlValues(c) + TailValues(c)))
            == Page(k, c.addr)
               + (if k.W2M? then TWO64 else TWO32) * (Control(c) + TWO32 * (c.staticVc % 8))
  {
    hide Pack, Width;
    LowWidth(k);
    LowWords(k, Page(k, c.addr));
    TailWord(c);
    PackAppend(LowWidths(k), [Page(k, c.addr), 0], CONTROL_WIDTHS + TAIL_WIDTHS,
               ControlValues(c) + TailValues(c));
    PackAppend(CONTROL_WIDTHS, ControlValues(c), TAIL_WIDTHS, TailValues(c));
    assert Pow2(Width(CONTROL_WIDTHS)) == TWO32 by {
      ControlWidth();
      Pow2Table();
    }
  }

  /** Each written word in closed form. */
  lemma EncodeWords(k: Kind, c: Config)
    ensures Encode(k, c) ==
      if k.W2M? then [Page(k, c.addr) % TWO32, Page(k, c.addr) / TWO32, Control(c), c.staticVc % 8]
      else [Page(k, c.addr), Control(c), c.staticVc % 8]
  {
    hide Pack, Width;
    ControlBound(c);
    EncodeInteger(k, c);
    if k.W2M? {
      WordsOf4(Page(k, c.addr), Control(c), c.staticVc % 8);
    } else {
      WordsOf3(Page(k, c.addr), Control(c), c.staticVc % 8);
    }
  }

  lemma WordsOf4(a: nat, ctl: nat, tail: nat)
    requires a < TWO64 && ctl < TWO32 && tail < TWO32
    ensures ToWords(a + TWO64 * (ctl + TWO32 * tail), 4) == [a % TWO32, a / TWO32, ctl, tail]
  {
    var v := a + TWO64 * (ctl + TWO32 * tail);
    assert v / TWO32 == a / TWO32 + TWO32 * (ctl + TWO32 * tail);
    WordsOf3(a / TWO32, ctl, tail);
  }

  lemma WordsOf3(a: nat, ctl: nat, tail: nat)
    requires a < TWO32 && ctl < TWO32 && tail < TWO32
    ensures ToWords(a + TWO32 * (ctl + TWO32 * tail), 3) == [a, ctl, tail]
  {
    var v := a + TWO32 * (ctl + TWO32 * tail);
    assert v / TWO32 == ctl + TWO32 * tail;
    assert ToWords(tail, 1) == [tail] + ToWords(0, 0);
    assert ToWords(v / TWO32, 2) == [ctl] + ToWords(tail, 1);
  }

  // ----- The hardware's reading of the words, by bit position -----

  function ControlWord(k: Kind, ws: seq<u32>): u32
    requires |ws| == RegWords(k)
  {
    if k.W2M? then ws[2] else ws[1]
  }

  function HwX(k: Kind, ws: seq<u32>): nat
    requires |ws| == RegWords(k)
  {
    ControlWord(k, ws) % 64
  }

  function HwY(k: Kind, ws: seq<u32>): nat
    requires |ws| == RegWords(k)
  {
    ControlWord(k, ws) / 64 % 64
  }

  predicate HwMulticast(k: Kind, ws: seq<u32>)
    requires |ws| == RegWords(k)
  {
    ControlWord(k, ws) / 0x100_0000 % 2 == 1
  }

  /** The addr field: 43 bits over two words for 2M, the low 27 bits of one word for 128G. */
  function HwAddr(k: Kind, ws: seq<u32>): nat
    requires |ws| == RegWords(k)
  {
    if k.W2M? then ws[0] + TWO32 * (ws[1] % 0x800) else ws[0] % 0x800_0000
  }

  /** What a configured window shows: coordinates modulo 64, unicast unless bit 0 of multicast_en is set,
      and the window-aligned part of the address. */
  lemma EncodeTarget(k: Kind, c: Config)
    ensures HwX(k, Encode(k, c)) == c.xEnd % 64
    ensures HwY(k, Encode(k, c)) == c.yEnd % 64
    ensures HwMulticast(k, Encode(k, c)) <==> c.multicastEn % 2 == 1
    ensures HwAddr(k, Encode(k, c)) == Page(k, c.addr)
  {
    hide Encode, Control, Page;
    EncodeWords(k, c);
    ControlBits(c);
  }

  lemma ControlBits(c: Config)
    ensures Control(c) % 64 == c.xEnd % 64
    ensures Control(c) / 64 % 64 == c.yEnd % 64
    ensures Control(c) / 0x100_0000 % 2 == c.multicastEn % 2
    ensures Control(c) / 0x200_0000 % 2 == c.strictOrder % 2
  {
    var ws := CONTROL_WIDTHS;
    assert ws[..0] == [] && ws[..1] == [6] && ws[..4] == [6, 6, 6, 6] && ws[..5] == [6, 6, 6, 6, 1];
    assert Width([6, 1]) == 7 && Width([6, 6]) == 12;
    assert [6, 6, 6, 6][1..][1..] == [6, 6] && [6, 6, 6, 6, 1][1..][1..][1..] == [6, 1];
    ControlField(c, 0, 0);
    ControlField(c, 1, 6);
    ControlField(c, 4, 24);
    ControlField(c, 5, 25);
    hide Width, Control, ControlValues, Pow2;
    Pow2Table();
  }

  /** All twelve control fields at their bit positions, each truncated to its width; bit 30, reserved1, is clear. */
  lemma ControlIs(c: Config)
    ensures Control(c)
            == c.xEnd % 64 + 0x40 * (c.yEnd % 64) + 0x1000 * (c.xStart % 64) + 0x4_0000 * (c.yStart % 64)
               + 0x100_0000 * (c.multicastEn % 2) + 0x200_0000 * (c.strictOrder % 2) + 0x400_0000 * (c.posted % 2)
               + 0x800_0000 * (c.linked % 2) + 0x1000_0000 * (c.staticEn % 2) + 0x2000_0000 * (c.streamHeader % 2)
               + 0x8000_0000 * (c.nocSelector % 2)
  {
    hide Pack;
    PackFrom(c, 0);
    PackFrom(c, 1);
    PackFrom(c, 2);
    PackFrom(c, 3);
    PackFrom(c, 4);
    PackFrom(c, 5);
    PackFrom(c, 6);
    PackFrom(c, 7);
    PackFrom(c, 8);
    PackFrom(c, 9);
    PackFrom(c, 10);
    PackFrom(c, 11);
    PackZeros(CONTROL_WIDTHS[12..], ControlValues(c)[12..]);
    assert CONTROL_WIDTHS[0..] == CONTROL_WIDTHS && ControlValues(c)[0..] == ControlValues(c);
  }

  lemma PackFrom(c: Config, i: nat)
    requires i < 12
    ensures Pack(CONTROL_WIDTHS[i..], ControlValues(c)[i..])
            == (if i < 4 then ControlValues(c)[i] % 64 + 64 * Pack(CONTROL_WIDTHS[i + 1..], ControlValues(c)[i + 1..])
                else ControlValues(c)[i] % 2 + 2 * Pack(CONTROL_WIDTHS[i + 1..], ControlValues(c)[i + 1..]))
  {
    Pow2Table();
    var ws, vs := CONTROL_WIDTHS[i..], ControlValues(c)[i..];
    assert ws[1..] == CONTROL_WIDTHS[i + 1..] && vs[1..] == ControlValues(c)[i + 1..];
    assert ws[0] == if i < 4 then 6 else 1;
    hide CONTROL_WIDTHS, ControlValues, Pow2;
    JoinIs(vs[0], ws[0], Pack(ws[1..], vs[1..]));
  }

  lemma JoinIs(x: nat, w: nat, v: nat)
    ensures Join(x, w, v) == x % Pow2(w) + Pow2(w) * v
  {
  }

  /** The bit position of a control field, from the declared widths. */
  lemma ControlField(c: Config, i: nat, lsb: nat)
    requires i < |CONTROL_WIDTHS| && lsb == Width(CONTROL_WIDTHS[..i])
    ensures Extract(Control(c), lsb, CONTROL_WIDTHS[i]) == ControlValues(c)[i] % Pow2(CONTROL_WIDTHS[i])
  {
    PackExtract(CONTROL_WIDTHS, ControlValues(c), i);
  }

  // ----- The register block: 224 four-word registers, then 32 three-word registers -----

  const REG_BLOCK: nat := 992

  type RegFile = rs: seq<u32> | |rs| == REG_BLOCK witness seq(REG_BLOCK, _ => 0)

  function RegOffset(w: Window): (o: nat)
    requires IsWindow(w)
    ensures o + RegWords(w.kind) <= REG_BLOCK
  {
    if w.kind.W2M? then 4 * w.id else 896 + 3 * w.id
  }

  function RegAt(regs: RegFile, w: Window): (ws: seq<u32>)
    requires IsWindow(w)
    ensures |ws| == RegWords(w.kind)
  {
    regs[RegOffset(w)..RegOffset(w) + RegWords(w.kind)]
  }

  function SetReg(regs: RegFile, w: Window, ws: seq<u32>): RegFile
    requires IsWindow(w) && |ws| == RegWords(w.kind)
  {
    regs[..RegOffset(w)] + ws + regs[RegOffset(w) + RegWords(w.kind)..]
  }

  /** Writing one window's register touches no other window's register. */
  lemma SetRegAt(regs: RegFile, w: Window, ws: seq<u32>, v: Window)
    requires IsWindow(w) && IsWindow(v) && |ws| == RegWords(w.kind)
    ensures RegAt(SetReg(regs, w, ws), v) == if v == w then ws else RegAt(regs, v)
  {
    var o, n, r := RegOffset(w), RegWords(w.kind), SetReg(regs, w, ws);
    if v == w {
      assert r[o..o + n] == ws;
    } else {
      var p, m := RegOffset(v), RegWords(v.kind);
      assert p + m <= o || o + n <= p;
      assert forall i :: p <= i < p + m ==> r[i] == regs[i];
      assert r[p..p + m] == regs[p..p + m];
    }
  }

  // ----- Idle windows -----

  function IdentityConfig(w: Window): Config
    requires IsWindow(w)
  {
    ZERO_CONFIG.(windowId := w.id, addr := if w.kind.W2M? then w.id * 0x20_0000 else w.id * 0x20_0000_0000)
  }

  function IdentityWords(w: Window): seq<u32>
    requires IsWindow(w)
  {
    if w.kind.W2M? then [w.id, 0, 0, 0] else [w.id, 0, 0]
  }

  lemma IdentityEncodes(w: Window)
    requires IsWindow(w)
    ensures Encode(w.kind, IdentityConfig(w)) == IdentityWords(w)
  {
    hide Encode, Page, Control, ControlValues;
    ZeroControl(IdentityConfig(w));
    PageOfIdentity(w);
    IdleEncodes(w.kind, IdentityConfig(w), w.id);
  }

  lemma IdleEncodes(k: Kind, c: Config, id: nat)
    requires Page(k, c.addr) == id < 224 && c.staticVc == 0 && Control(c) == 0
    ensures Encode(k, c) == if k.W2M? then [id, 0, 0, 0] else [id, 0, 0]
  {
    hide Encode, Control, Page;
    EncodeWords(k, c);
  }

  lemma PageOfIdentity(w: Window)
    requires IsWindow(w)
    ensures Page(w.kind, IdentityConfig(w).addr) == w.id && IdentityConfig(w).staticVc == 0
  {
  }

  lemma ZeroControl(c: Config)
    requires c.xEnd % 64 == 0 && c.yEnd % 64 == 0
    requires c == ZERO_CONFIG.(windowId := c.windowId, addr := c.addr, xEnd := c.xEnd, yEnd := c.yEnd)
    ensures Control(c) == 0
  {
    hide Pack;
    var vs := ControlValues(c);
    forall i | 0 <= i < 12
      ensures vs[i] % Pow2(CONTROL_WIDTHS[i]) == 0
    {
      if i < 2 {
        Pow2Table();
      } else {
        assert vs[i] == 0;
        SmallMod(0, Pow2(CONTROL_WIDTHS[i]));
      }
    }
    PackMultiples(CONTROL_WIDTHS, vs);
  }

  /** is_2M_window_configured and is_128G_window_configured. */
  predicate IsConfigured(regs: RegFile, w: Window)
    requires IsWindow(w)
  {
    var ws := RegAt(regs, w);
    HwAddr(w.kind, ws) != w.id || ws[1] != 0 || ws[2] != 0 || (w.kind.W2M? && ws[3] != 0)
  }

  /** Two register contents that differ at most in the reserved0 bits of a 128G register. */
  predicate SameWords(k: Kind, a: seq<u32>, b: seq<u32>)
    requires |a| == |b| == RegWords(k)
  {
    if k.W2M? then a == b else a[0] % 0x800_0000 == b[0] % 0x800_0000 && a[1..] == b[1..]
  }

  /** Exactly the contents that the driver takes for idle. */
  lemma UnconfiguredExact(regs: RegFile, w: Window)
    requires IsWindow(w)
    ensures !IsConfigured(regs, w) <==> SameWords(w.kind, RegAt(regs, w), IdentityWords(w))
  {
    var ws := RegAt(regs, w);
    if w.kind.W2M? {
      assert ws == [ws[0], ws[1], ws[2], ws[3]];
    } else {
      assert ws[1..] == [ws[1], ws[2]];
    }
  }
}
