/** The host's allocator of PCIe TLB windows: three stacks of free indices, the 96-bit configuration
    registers at the end of BAR0, and what the chip does with an access through a BAR. */
module HostTlb {
  import opened Wrappers
  import opened BitFields

  /** Write-combined 2M windows, uncached 2M windows, 4G windows. */
  datatype Pool = WC | UC | Big

  const NUM_REGISTERS: nat := 210
  const KERNEL_WINDOW: nat := 201
  const REGISTERS_START: nat := 0x1FC0_0000
  const BAR0_SIZE: nat := 0x2000_0000
  const BAR4_SIZE: nat := 0x8_0000_0000

  function First(p: Pool): nat { if p.WC? then 0 else if p.UC? then 188 else 202 }

  function Capacity(p: Pool): nat { if p.WC? then 188 else if p.UC? then 13 else 8 }

  function Span(p: Pool): nat { if p.Big? then 0x1_0000_0000 else 0x20_0000 }

  /** Where in its BAR the window with this index starts. */
  function Start(p: Pool, index: nat): nat
    requires First(p) <= index
  {
    if p.Big? then 0x1_0000_0000 * (index - 202) else 0x20_0000 * index
  }

  // ----- Registers -----

  /** address, x_end, y_end, x_start, y_start, noc, multicast, ordering, linked, use_static_vc,
      stream_header, static_vc, reserved. */
  function Layout(p: Pool): (ws: seq<nat>)
    ensures |ws| == 13
  {
    if p.Big? then [32, 6, 6, 6, 6, 2, 1, 2, 1, 1, 1, 3, 29]
    else [43, 6, 6, 6, 6, 2, 1, 2, 1, 1, 1, 3, 18]
  }

  /** What the three words of a register hold, field by field. */
  function Fields(p: Pool, words: seq<u32>): (vs: seq<nat>)
    ensures |vs| == 13
  {
    seq(13, i requires 0 <= i < 13 => Extract(FromWords(words), Width(Layout(p)[..i]), Layout(p)[i]))
  }

  function Words(p: Pool, values: seq<nat>): (ws: seq<u32>)
    requires |values| == 13
    ensures |ws| == 3
  {
    ToWords(Pack(Layout(p), values), 3)
  }

  /** The bit position of every field, as the hardware documents it. */
  lemma Positions(p: Pool)
    ensures Width(Layout(p)[..0]) == 0
    ensures Width(Layout(p)[..1]) == if p.Big? then 32 else 43
    ensures Width(Layout(p)[..2]) == if p.Big? then 38 else 49
    ensures Width(Layout(p)[..3]) == if p.Big? then 44 else 55
    ensures Width(Layout(p)[..4]) == if p.Big? then 50 else 61
    ensures Width(Layout(p)[..6]) == if p.Big? then 58 else 69
    ensures Width(Layout(p)) == 96
  {
    hide Width;
    var a, r := Layout(p)[0], Layout(p)[12];
    assert Layout(p)[..0] == [];
    assert Layout(p)[..1] == [a];
    assert Layout(p)[..2] == [a, 6];
    assert Layout(p)[..3] == [a, 6, 6];
    assert Layout(p)[..4] == [a, 6, 6, 6];
    SmallWidths(a, 6, 6, 6);
    SmallWidths(6, 2, 0, 0);
    assert Layout(p)[..6] == [a, 6, 6, 6] + [6, 2];
    WidthAppend([a, 6, 6, 6], [6, 2]);
    WholeWidth(a, r);
  }

  lemma SmallWidths(a: nat, b: nat, c: nat, d: nat)
    ensures Width([]) == 0 && Width([a]) == a && Width([a, b]) == a + b
    ensures Width([a, b, c]) == a + b + c && Width([a, b, c, d]) == a + b + c + d
  {
    assert Width([c]) == c && Width([d]) == d && Width([b]) == b;
    assert [c, d][1..] == [d] && [b, c][1..] == [c] && [a, b][1..] == [b];
    assert Width([c, d]) == c + d && Width([b, c]) == b + c;
    assert [b, c, d][1..] == [c, d] && [a, b, c][1..] == [b, c] && [a, b, c, d][1..] == [b, c, d];
  }

  lemma WholeWidth(a: nat, r: nat)
    ensures Width([a, 6, 6, 6, 6, 2, 1, 2, 1, 1, 1, 3, r]) == a + 35 + r
  {
    hide Width;
    SmallWidths(a, 6, 6, 6);
    SmallWidths(6, 2, 1, 2);
    SmallWidths(1, 1, 1, 3);
    SmallWidths(r, 0, 0, 0);
    var s := [1, 1, 1, 3] + [r];
    WidthAppend([1, 1, 1, 3], [r]);
    WidthAppend([6, 2, 1, 2], s);
    WidthAppend([a, 6, 6, 6], [6, 2, 1, 2] + s);
    assert [a, 6, 6, 6, 6, 2, 1, 2, 1, 1, 1, 3, r] == [a, 6, 6, 6] + ([6, 2, 1, 2] + s);
  }

  lemma {:induction false} WidthAppend(a: seq<nat>, b: seq<nat>)
    ensures Width(a + b) == Width(a) + Width(b)
  {
    if a == [] {
      assert a + b == b;
    } else {
      assert (a + b)[1..] == a[1..] + b;
      WidthAppend(a[1..], b);
    }
  }

  predicate InRange(p: Pool, values: seq<nat>)
  {
    |values| == 13 && forall i :: 0 <= i < 13 ==> values[i] < Pow2(Layout(p)[i])
  }

  lemma Register96(p: Pool, values: seq<nat>)
    requires |values| == 13
    ensures FromWords(Words(p, values)) == Pack(Layout(p), values)
  {
    Positions(p);
    PackBound(Layout(p), values);
    WordsRoundTrip(Pack(Layout(p), values), 3);
  }

  /** Writing a register and reading it back gives every field, truncated to its width. */
  lemma FieldsOfWords(p: Pool, values: seq<nat>, i: nat)
    requires |values| == 13 && i < 13
    ensures Fields(p, Words(p, values))[i] == values[i] % Pow2(Layout(p)[i])
  {
    Register96(p, values);
    PackExtract(Layout(p), values, i);
  }

  /** On in-range fields the round trip is the identity. */
  lemma RegisterRoundTrip(p: Pool, values: seq<nat>)
    requires InRange(p, values)
    ensures Fields(p, Words(p, values)) == values
  {
    forall i | 0 <= i < 13
      ensures Fields(p, Words(p, values))[i] == values[i]
    {
      FieldsOfWords(p, values, i);
      SmallMod(values[i], Pow2(Layout(p)[i]));
    }
  }

  /** Every three words are the register of their own fields. */
  lemma WordsOfFields(p: Pool, words: seq<u32>)
    requires |words| == 3
    ensures Words(p, Fields(p, words)) == words
  {
    Positions(p);
    FromWordsBound(words);
    PackFields(Layout(p), FromWords(words), Fields(p, words));
    ToFromWords(words);
  }

  /** y_start of a 2M register lies across the second and third word: three bits in each. */
  lemma YStartStraddles(values: seq<nat>)
    requires InRange(WC, values)
    ensures values[4] == Words(WC, values)[1] / 0x2000_0000 + 8 * (Words(WC, values)[2] % 8)
  {
    hide Pack, Extract, Width, Words;
    var v := FromWords(Words(WC, values));
    FieldsOfWords(WC, values, 4);
    Positions(WC);
    Pow2Table();
    SmallMod(values[4], 64);
    Bits61To66(v);
    Register96(WC, values);
    WordsOf(WC, values);
  }

  lemma WordsOf(p: Pool, values: seq<nat>)
    requires |values| == 13
    ensures var v := FromWords(Words(p, values));
            Words(p, values) == [v % TWO32, v / TWO32 % TWO32, v / TWO32 / TWO32 % TWO32]
  {
    Register96(p, values);
    ThreeWords(Pack(Layout(p), values));
  }

  lemma ThreeWords(v: nat)
    ensures ToWords(v, 3) == [v % TWO32, v / TWO32 % TWO32, v / TWO32 / TWO32 % TWO32]
  {
    assert ToWords(v, 3)[1..] == ToWords(v / TWO32, 2);
    assert ToWords(v / TWO32, 2)[1..] == ToWords(v / TWO32 / TWO32, 1);
  }

  lemma Bits61To66(v: nat)
    ensures Extract(v, 61, 6) == v / TWO32 % TWO32 / 0x2000_0000 + 8 * (v / TWO32 / TWO32 % TWO32 % 8)
  {
    Pow2Table();
    Pow2Add(24, 5);
    Pow2Add(32, 29);
    DivDiv(v, TWO32, 0x2000_0000);
    Straddle(v / TWO32, v / TWO32 / 0x2000_0000, v / TWO32 % 0x2000_0000);
  }

  lemma Straddle(u: nat, q: nat, r: nat)
    requires u == 0x2000_0000 * q + r && r < 0x2000_0000
    ensures q % 64 == u % TWO32 / 0x2000_0000 + 8 * (u / TWO32 % TWO32 % 8)
  {
    var a, b := q / 8, q % 8;
    DivModUnique(u, TWO32, a, 0x2000_0000 * b + r);
    DivModUnique(0x2000_0000 * b + r, 0x2000_0000, b, r);
    var c, d := a / TWO32, a % TWO32;
    DivModUnique(a, 8, 0x2000_0000 * c + d / 8, d % 8);
    DivModUnique(q, 64, a / 8, 8 * (a % 8) + b);
  }

  // ----- Requests and windows -----

  datatype Request = Request(pool: Pool, x: u32, y: u32, address: u64)

  function Values(q: Request): (vs: seq<nat>)
    ensures |vs| == 13
  {
    [if q.pool.Big? then q.address / 0x1_0000_0000 else q.address / 0x20_0000, q.x, q.y, 0, 0, 0, 0, 0, 0, 0, 0, 0, 0]
  }

  /** A TlbWindow: the index its release closure captured, its base as an offset in its BAR, and size(). */
  datatype Tlb = Tlb(request: Request, index: nat, base: nat, size: nat)

  function LocalOffset(q: Request): (o: nat)
    ensures o < Span(q.pool)
  {
    if q.pool.Big? then q.address % 0x1_0000_0000 else q.address % 0x20_0000
  }

  function Opened(q: Request, index: nat): Tlb
    requires First(q.pool) <= index
  {
    Tlb(q, index, Start(q.pool, index) + LocalOffset(q), Span(q.pool) - LocalOffset(q))
  }

  // ----- The chip's side of a BAR -----

  datatype Target = Target(x: nat, y: nat, address: nat)

  function RegisterAt(regs: seq<u32>, index: nat): seq<u32>
    requires |regs| == 3 * NUM_REGISTERS && index < NUM_REGISTERS
  {
    regs[3 * index..3 * index + 3]
  }

  /** Where an access at this offset of BAR0 (2M windows) or BAR4 (4G windows) goes; a window set to multicast has no
      one target. */
  function Reaches(regs: seq<u32>, bar4: bool, offset: nat): Option<Target>
    requires |regs| == 3 * NUM_REGISTERS
    requires if bar4 then offset < BAR4_SIZE else offset < NUM_2M * 0x20_0000
  {
    if bar4 then
      var v := FromWords(RegisterAt(regs, 202 + offset / 0x1_0000_0000));
      if Extract(v, 58, 1) == 1 then None
      else
        Some(Target(Extract(v, 32, 6), Extract(v, 38, 6),
                    Extract(v, 0, 32) * 0x1_0000_0000 + offset % 0x1_0000_0000))
    else
      var v := FromWords(RegisterAt(regs, offset / 0x20_0000));
      if Extract(v, 69, 1) == 1 then None
      else
        Some(Target(Extract(v, 43, 6), Extract(v, 49, 6), Extract(v, 0, 43) * 0x20_0000 + offset % 0x20_0000))
  }

  const NUM_2M: nat := 202

  /** The register of a request holds its page and its tile, and zero in every other field. */
  lemma RequestFields(q: Request)
    ensures Fields(q.pool, Words(q.pool, Values(q)))
            == [if q.pool.Big? then q.address / 0x1_0000_0000 else q.address / 0x20_0000, q.x % 64, q.y % 64,
                0, 0, 0, 0, 0, 0, 0, 0, 0, 0]
  {
    hide Words, Width, Extract;
    Pow2Table();
    forall i | 0 <= i < 13
      ensures Fields(q.pool, Words(q.pool, Values(q)))[i] == Values(q)[i] % Pow2(Layout(q.pool)[i])
    {
      FieldsOfWords(q.pool, Values(q), i);
    }
    SmallMod(Values(q)[0], Pow2(Layout(q.pool)[0]));
    forall i | 3 <= i < 13
      ensures Values(q)[i] % Pow2(Layout(q.pool)[i]) == 0
    {
      SmallMod(0, Pow2(Layout(q.pool)[i]));
    }
  }

  /** Reading one request's register back at the hardware's positions. */
  lemma HardwareReads(q: Request)
    ensures var v := FromWords(Words(q.pool, Values(q)));
            if q.pool.Big? then Extract(v, 32, 6) == q.x % 64 && Extract(v, 38, 6) == q.y % 64
                                && Extract(v, 0, 32) == q.address / 0x1_0000_0000 && Extract(v, 58, 1) == 0
            else Extract(v, 43, 6) == q.x % 64 && Extract(v, 49, 6) == q.y % 64
                 && Extract(v, 0, 43) == q.address / 0x20_0000 && Extract(v, 69, 1) == 0
  {
    hide Words, Width, Extract, Values;
    RequestFields(q);
    Positions(q.pool);
    var fs := Fields(q.pool, Words(q.pool, Values(q)));
    assert fs[0] == Extract(FromWords(Words(q.pool, Values(q))), Width(Layout(q.pool)[..0]), Layout(q.pool)[0]);
    assert fs[1] == Extract(FromWords(Words(q.pool, Values(q))), Width(Layout(q.pool)[..1]), Layout(q.pool)[1]);
    assert fs[2] == Extract(FromWords(Words(q.pool, Values(q))), Width(Layout(q.pool)[..2]), Layout(q.pool)[2]);
    assert fs[6] == Extract(FromWords(Words(q.pool, Values(q))), Width(Layout(q.pool)[..6]), Layout(q.pool)[6]);
  }

  /** Every offset of a window whose register is in place denotes the address requested plus the offset, and
      that sum fits in 64 bits. */
  lemma WindowReaches(regs: seq<u32>, q: Request, index: nat, a: nat)
    requires |regs| == 3 * NUM_REGISTERS
    requires First(q.pool) <= index < First(q.pool) + Capacity(q.pool)
    requires RegisterAt(regs, index) == Words(q.pool, Values(q))
    requires a < Opened(q, index).size
    ensures q.address + a < TWO64
    ensures Reaches(regs, q.pool.Big?, Opened(q, index).base + a)
            == Some(Target(q.x % 64, q.y % 64, q.address + a))
  {
    hide Words, Extract, FromWords, RegisterAt;
    HardwareReads(q);
    var offset := Opened(q, index).base + a;
    if q.pool.Big? {
      assert offset / 0x1_0000_0000 == index - 202;
    } else {
      assert offset / 0x20_0000 == index;
    }
  }

  /** write_block and read_block compare address + size, a 64-bit sum, with the window size. */
  predicate BlockAccepted(w: Tlb, address: u64, size: u64) { (address + size) % TWO64 <= w.size }

  /** An access inside the window is accepted, and an accepted one is inside exactly when the sum does not wrap. */
  lemma BlockInside(w: Tlb, address: u64, size: u64)
    requires w.size <= 0x1_0000_0000
    ensures address + size <= w.size ==> BlockAccepted(w, address, size)
    ensures BlockAccepted(w, address, size) ==> (address + size <= w.size <==> address + size < TWO64)
  {
  }

  /** A wrapping sum: one byte at the last address is accepted by every window and lies in none of this size. */
  lemma BlockCheckWraps(w: Tlb)
    requires w.size <= 0x1_0000_0000
    ensures BlockAccepted(w, TWO64 - 1, 1) && TWO64 - 1 + 1 > w.size
  {
  }
}
