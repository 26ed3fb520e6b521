/** Fixed-width integers, bitwise AND on naturals, and C bit-field packing into 32-bit words. */
module BitFields {

  type u8 = x: int | 0 <= x < 0x100
  type u32 = x: int | 0 <= x < 0x1_0000_0000
  type u64 = x: int | 0 <= x < 0x1_0000_0000_0000_0000

  const TWO32: nat := 0x1_0000_0000
  const TWO64: nat := 0x1_0000_0000_0000_0000

  function Pow2(n: nat): (r: nat)
    ensures r >= 1
  {
    if n == 0 then 1 else 2 * Pow2(n - 1)
  }

  // ----- Nonlinear arithmetic, kept in lemmas small enough for the solver -----

  lemma MulAssoc(a: int, b: int, c: int)
    ensures a * (b * c) == (a * b) * c
  {
  }

  lemma MulAdd(m: int, a: int, b: int)
    ensures m * (a + b) == m * a + m * b
    ensures m * (a - b) == m * a - m * b
  {
  }

  lemma MulAtLeast(m: int, d: int)
    requires m > 0 && d >= 1
    ensures m * d >= m && m * (-d) <= -m
  {
  }

  lemma MulMono(m: nat, a: int, b: int)
    requires a <= b
    ensures m * a <= m * b
  {
  }

  lemma DivMod(a: nat, m: nat)
    requires m > 0
    ensures a == m * (a / m) + a % m && 0 <= a % m < m && a / m >= 0
  {
  }

  lemma DivModUnique(a: nat, m: nat, q: nat, r: nat)
    requires r < m && a == r + m * q
    ensures a / m == q && a % m == r
  {
    var d := q - a / m;
    DivMod(a, m);
    MulAdd(m, q, a / m);
    if d >= 1 {
      MulAtLeast(m, d);
    } else if d <= -1 {
      MulAtLeast(m, -d);
    }
  }

  lemma SmallMod(a: nat, m: nat)
    requires a < m
    ensures a % m == a && a / m == 0
  {
  }

  /** Two remainders in mixed radix m, n stay below m * n. */
  lemma MixedRadixBound(m: nat, n: nat, r1: nat, r2: nat)
    requires r1 < m && r2 < n
    ensures r1 + m * r2 < m * n
  {
    MulMono(m, r2, n - 1);
    MulAdd(m, n, 1);
  }

  lemma DivDiv(a: nat, m: nat, n: nat)
    requires m >= 1 && n >= 1
    ensures m * n >= 1 && a / m / n == a / (m * n)
  {
    var q, r1, r2 := a / m / n, a % m, a / m % n;
    DivMod(a, m);
    DivMod(a / m, n);
    MulAdd(m, n * q, r2);
    MulAssoc(m, n, q);
    MixedRadixBound(m, n, r1, r2);
    MulMono(m, 0, r2);
    DivModUnique(a, m * n, q, r1 + m * r2);
  }

  lemma {:induction false} Pow2Add(a: nat, b: nat)
    ensures Pow2(a + b) == Pow2(a) * Pow2(b)
  {
    if a != 0 {
      Pow2Add(a - 1, b);
      MulAssoc(2, Pow2(a - 1), Pow2(b));
    }
  }

  /** The powers that appear as literals in register layouts and window sizes. */
  lemma Pow2Table()
    ensures Pow2(0) == 1 && Pow2(1) == 2 && Pow2(3) == 8 && Pow2(5) == 0x20 && Pow2(6) == 0x40
    ensures Pow2(12) == 0x1000 && Pow2(18) == 0x4_0000 && Pow2(21) == 0x20_0000
    ensures Pow2(24) == 0x100_0000 && Pow2(25) == 0x200_0000 && Pow2(27) == 0x800_0000
    ensures Pow2(32) == TWO32 && Pow2(37) == 0x20_0000_0000 && Pow2(43) == 0x800_0000_0000
  {
    assert Pow2(6) == 0x40;
    assert Pow2(12) == 0x1000;
    assert Pow2(18) == 0x4_0000;
    assert Pow2(24) == 0x100_0000;
    assert Pow2(30) == 0x4000_0000;
    assert Pow2(36) == 0x10_0000_0000;
    assert Pow2(42) == 0x400_0000_0000;
  }

  // ----- Bitwise AND and AND-NOT, bit by bit -----

  function And(a: nat, b: nat): nat
  {
    if a == 0 then 0
    else 2 * And(a / 2, b / 2) + (if a % 2 == 1 && b % 2 == 1 then 1 else 0)
  }

  /** a & ~b, for b taken at a width no smaller than a's. */
  function AndNot(a: nat, b: nat): nat
  {
    if a == 0 then 0
    else 2 * AndNot(a / 2, b / 2) + (if a % 2 == 1 && b % 2 == 0 then 1 else 0)
  }

  /** A mask splits an address into two parts that add up again, whatever the mask. */
  lemma {:induction false} MaskSplit(a: nat, b: nat)
    ensures And(a, b) + AndNot(a, b) == a
    ensures And(a, b) <= b
  {
    if a != 0 {
      MaskSplit(a / 2, b / 2);
    }
  }

  /** With a mask of k ones, AND is remainder. */
  lemma {:induction false} MaskPow2(a: nat, k: nat)
    ensures And(a, Pow2(k) - 1) == a % Pow2(k)
    ensures AndNot(a, Pow2(k) - 1) == a - a % Pow2(k)
  {
    MaskSplit(a, Pow2(k) - 1);
    if a != 0 && k != 0 {
      MaskPow2(a / 2, k - 1);
      HalvedMod(a, Pow2(k - 1));
    }
  }

  lemma HalvedMod(a: nat, m: nat)
    requires m >= 1
    ensures a % (2 * m) == 2 * (a / 2 % m) + a % 2
  {
    var q, r := a / 2 / m, a / 2 % m;
    DivMod(a / 2, m);
    MulAssoc(2, m, q);
    DivModUnique(a, 2 * m, q, 2 * r + a % 2);
  }

  // ----- C bit-fields: the first declared field sits in the lowest bits -----

  function Width(widths: seq<nat>): nat
  {
    if widths == [] then 0 else widths[0] + Width(widths[1..])
  }

  /** Puts v above a field of w bits that holds x, truncated. */
  function Join(x: nat, w: nat, v: nat): (r: nat)
    ensures r / Pow2(w) == v && r % Pow2(w) == x % Pow2(w)
  {
    DivModUnique(x % Pow2(w) + Pow2(w) * v, Pow2(w), v, x % Pow2(w));
    x % Pow2(w) + Pow2(w) * v
  }

  /** The integer that a struct of bit-fields denotes; every value is truncated to its field's width. */
  function Pack(widths: seq<nat>, values: seq<nat>): nat
    requires |widths| == |values|
  {
    if widths == [] then 0
    else Join(values[0], widths[0], Pack(widths[1..], values[1..]))
  }

  /** Bits lsb..lsb+width-1 of v, read without knowing the struct. */
  function Extract(v: nat, lsb: nat, width: nat): nat
  {
    v / Pow2(lsb) % Pow2(width)
  }

  lemma {:induction false} PackBound(widths: seq<nat>, values: seq<nat>)
    requires |widths| == |values|
    ensures Pack(widths, values) < Pow2(Width(widths))
  {
    if widths != [] {
      PackBound(widths[1..], values[1..]);
      JoinBound(values[0], widths[0], Pack(widths[1..], values[1..]), Width(widths[1..]));
    }
  }

  lemma JoinBound(x: nat, w: nat, v: nat, n: nat)
    requires v < Pow2(n)
    ensures Join(x, w, v) < Pow2(w + n)
  {
    Pow2Add(w, n);
    MixedRadixBound(Pow2(w), Pow2(n), x % Pow2(w), v);
  }

  /** Round trip for any struct: a field is found again at the bit position its predecessors leave it,
      including a field that straddles a word boundary. */
  lemma {:induction false} PackExtract(widths: seq<nat>, values: seq<nat>, i: nat)
    requires |widths| == |values| && i < |widths|
    ensures Extract(Pack(widths, values), Width(widths[..i]), widths[i]) == values[i] % Pow2(widths[i])
  {
    if i == 0 {
      assert widths[..0] == [] && Pow2(0) == 1;
    } else {
      PackExtract(widths[1..], values[1..], i - 1);
      assert widths[1..][..i - 1] == widths[..i][1..];
      ExtractAbove(values[0], widths[0], Pack(widths[1..], values[1..]), Width(widths[..i][1..]), widths[i]);
    }
  }

  /** Conversely, an integer is the struct of its own fields. */
  lemma {:induction false} PackFields(widths: seq<nat>, v: nat, values: seq<nat>)
    requires |widths| == |values| && v < Pow2(Width(widths))
    requires forall i :: 0 <= i < |widths| ==> values[i] == Extract(v, Width(widths[..i]), widths[i])
    ensures Pack(widths, values) == v
  {
    if widths != [] {
      hide Pow2, Join, Extract, High;
      var w, rest := widths[0], widths[1..];
      SplitJoin(v, w, Width(rest));
      forall i | 0 <= i < |rest|
        ensures values[1..][i] == Extract(High(v, w), Width(rest[..i]), rest[i])
      {
        assert widths[..i + 1][1..] == rest[..i];
        ExtractAbove(v, w, High(v, w), Width(rest[..i]), rest[i]);
      }
      PackFields(rest, High(v, w), values[1..]);
      assert widths[..0] == [];
    }
  }

  /** The bits of v above the lowest w. */
  function High(v: nat, w: nat): (h: nat)
    ensures v == v % Pow2(w) + Pow2(w) * h
  {
    DivMod(v, Pow2(w));
    v / Pow2(w)
  }

  lemma SplitJoin(v: nat, w: nat, n: nat)
    requires v < Pow2(w + n)
    ensures High(v, w) < Pow2(n)
    ensures Join(v, w, High(v, w)) == v && Join(Extract(v, 0, w), w, High(v, w)) == v
  {
    hide High;
    Pow2Add(w, n);
    DivMod(v, Pow2(w));
    if High(v, w) >= Pow2(n) {
      MulMono(Pow2(w), Pow2(n), High(v, w));
    }
    assert Pow2(0) == 1;
    SmallMod(v % Pow2(w), Pow2(w));
  }

  lemma ExtractAbove(x: nat, w: nat, v: nat, lsb: nat, width: nat)
    ensures Extract(Join(x, w, v), w + lsb, width) == Extract(v, lsb, width)
  {
    Pow2Add(w, lsb);
    DivDiv(Join(x, w, v), Pow2(w), Pow2(lsb));
  }

  /** A struct declared in two groups is the second group placed above the first. */
  lemma {:induction false} PackAppend(w1: seq<nat>, v1: seq<nat>, w2: seq<nat>, v2: seq<nat>)
    requires |w1| == |v1| && |w2| == |v2|
    ensures Pack(w1 + w2, v1 + v2) == Pack(w1, v1) + Pow2(Width(w1)) * Pack(w2, v2)
  {
    if w1 == [] {
      assert w1 + w2 == w2 && v1 + v2 == v2;
    } else {
      PackAppend(w1[1..], v1[1..], w2, v2);
      assert (w1 + w2)[1..] == w1[1..] + w2 && (v1 + v2)[1..] == v1[1..] + v2;
      JoinAdd(v1[0], w1[0], Pack(w1[1..], v1[1..]), Width(w1[1..]), Pack(w2, v2));
    }
  }

  lemma JoinAdd(x: nat, w: nat, v: nat, n: nat, t: nat)
    ensures Join(x, w, v + Pow2(n) * t) == Join(x, w, v) + Pow2(w + n) * t
  {
    Pow2Add(w, n);
    MulAdd(Pow2(w), v, Pow2(n) * t);
    MulAssoc(Pow2(w), Pow2(n), t);
  }

  lemma {:induction false} PackZeros(widths: seq<nat>, values: seq<nat>)
    requires |widths| == |values|
    requires forall i :: 0 <= i < |values| ==> values[i] == 0
    ensures Pack(widths, values) == 0
  {
    if widths != [] {
      PackZeros(widths[1..], values[1..]);
      JoinZero(widths[0]);
    }
  }

  /** Fields that truncate to zero leave nothing either. */
  lemma {:induction false} PackMultiples(widths: seq<nat>, values: seq<nat>)
    requires |widths| == |values|
    requires forall i :: 0 <= i < |values| ==> values[i] % Pow2(widths[i]) == 0
    ensures Pack(widths, values) == 0
  {
    if widths != [] {
      PackMultiples(widths[1..], values[1..]);
      assert Join(values[0], widths[0], 0) == values[0] % Pow2(widths[0]) + Pow2(widths[0]) * 0;
    }
  }

  lemma JoinZero(w: nat)
    ensures Join(0, w, 0) == 0
  {
    DivModUnique(0, Pow2(w), 0, 0);
  }

  /** A struct whose fields after the first are all zero is its first field. */
  lemma PackFirst(widths: seq<nat>, values: seq<nat>)
    requires |widths| == |values| && |widths| > 0
    requires forall i :: 1 <= i < |values| ==> values[i] == 0
    ensures Pack(widths, values) == values[0] % Pow2(widths[0])
  {
    PackZeros(widths[1..], values[1..]);
    assert Join(values[0], widths[0], 0) == values[0] % Pow2(widths[0]) + Pow2(widths[0]) * 0;
  }

  // ----- Little-endian arrays of 32-bit words (the union's data[] member) -----

  function ToWords(v: nat, n: nat): (ws: seq<u32>)
    ensures |ws| == n
    decreases n
  {
    if n == 0 then [] else [v % TWO32] + ToWords(v / TWO32, n - 1)
  }

  function FromWords(ws: seq<u32>): nat
  {
    if ws == [] then 0 else ws[0] + TWO32 * FromWords(ws[1..])
  }

  lemma NextWord(n: nat)
    ensures Pow2(32 * (n + 1)) == TWO32 * Pow2(32 * n)
  {
    Pow2Table();
    Pow2Add(32, 32 * n);
  }

  lemma {:induction false} WordsRoundTrip(v: nat, n: nat)
    requires v < Pow2(32 * n)
    ensures FromWords(ToWords(v, n)) == v
    decreases n
  {
    if n != 0 {
      NextWord(n - 1);
      WordsRoundTrip(v / TWO32, n - 1);
      assert ToWords(v, n)[1..] == ToWords(v / TWO32, n - 1);
    }
  }

  lemma {:induction false} FromWordsBound(ws: seq<u32>)
    ensures FromWords(ws) < Pow2(32 * |ws|)
  {
    if ws != [] {
      FromWordsBound(ws[1..]);
      NextWord(|ws| - 1);
    }
  }

  lemma {:induction false} ToFromWords(ws: seq<u32>)
    ensures ToWords(FromWords(ws), |ws|) == ws
  {
    if ws != [] {
      ToFromWords(ws[1..]);
    }
  }
}
