/** The driver's own reads: one 2M window, re-aimed for every word, through which it finds the chip's
    telemetry table and serves sensor values. */
module Telemetry {
  import opened BitFields
  import opened NocRegisters
  import opened NocDriver
  import opened NocDevice
  import opened NocSystem
  import opened NocClients
  import opened NocUser

  const ARC_X: u32 := 8
  const ARC_Y: u32 := 0
  const TELEMETRY_PTR: u32 := 0x8003_0400 + 13 * 4
  const TELEMETRY_DATA: u32 := 0x8003_0400 + 12 * 4

  /** The little-endian word at addr of a tile. */
  function Word(mem: Mem, x: nat, y: nat, addr: nat): (w: u32)
  {
    At(mem, Loc(x, y, addr)) + 0x100 * At(mem, Loc(x, y, addr + 1)) + 0x1_0000 * At(mem, Loc(x, y, addr + 2))
    + 0x100_0000 * At(mem, Loc(x, y, addr + 3))
  }

  function ArcWord(mem: Mem, addr: nat): u32 { Word(mem, ARC_X, ARC_Y, addr) }

  /** What a load of one byte at a physical address returns; outside all windows, nothing of the chip. */
  function Load(mem: Mem, regs: RegFile, phys: u64): u8
  {
    match HwTarget(regs, phys)
    case Some(l) => At(mem, l)
    case None => 0
  }

  function Aim(driver: u32, x: u32, y: u32, addr: u64): Config { TelemetryConfig(driver, addr).(xEnd := x, yEnd := y) }

  lemma PageAndOffset(addr: nat)
    ensures addr / 0x20_0000 * 0x20_0000 + addr % 0x20_0000 == addr
  {
  }

  /** Where the driver's window shows addr, once aimed there. */
  function ShownAt(driver: u32, addr: u64): (phys: u64)
    requires driver < Count(W2M)
    ensures phys == WindowAddr(Window(W2M, driver)) + addr % 0x20_0000 && phys < 0x8000_0000_0000
  {
    WindowAddr(Window(W2M, driver)) + addr % 0x20_0000
  }

  lemma LoadLands(mem: Mem, regs: RegFile, driver: u32, x: u32, y: u32, addr: u64, i: nat)
    requires driver < Count(W2M) && addr % 0x20_0000 + i < 0x20_0000
    requires RegAt(regs, Window(W2M, driver)) == Encode(W2M, Aim(driver, x, y, addr))
    ensures Load(mem, regs, ShownAt(driver, addr) + i) == At(mem, Loc(x % 64, y % 64, addr + i))
  {
    hide HwTarget, RegAt, Encode, At, WindowAddr, Aligned;
    PageAndOffset(addr);
    Translation(regs, Window(W2M, driver), Aim(driver, x, y, addr), addr % 0x20_0000 + i);
  }

  /** Only the driver's window may differ. */
  ghost predicate OthersUntouched(dev: Device, before: RegFile, after: RegFile)
    reads dev
  {
    forall w: Window :: IsWindow(w) && w != Window(W2M, dev.driverWindowId) ==> RegAt(after, w) == RegAt(before, w)
  }

  /** Every word that lies in one 2M page, so every aligned word, is read whole; no other window is touched. */
  method NocRead32(dev: Device, chip: Chip, x: u32, y: u32, addr: u64) returns (val: u32)
    requires dev.Valid() && dev.driverWindowId < Count(W2M)
    modifies dev.regs
    ensures addr % 4 == 0 ==> val == Word(chip.mem, x % 64, y % 64, addr)
    ensures OthersUntouched(dev, old(dev.regs[..]), dev.regs[..])
    ensures x == ARC_X && y == ARC_Y ==> dev.Value() == TelemetryAim(old(dev.Value()), addr)
  {
    hide RegAt, Encode, Load, At, SetReg, And, AndNot;
    MaskPow2(addr, 21);
    Pow2Table();
    var id: u32 := dev.driverWindowId;
    var config := ZERO_CONFIG.(windowId := id, addr := AndNot(addr, 0x20_0000 - 1), xEnd := x, yEnd := y);
    PageAndOffset(addr);
    assert config == Aim(id, x, y, addr);
    var _ := dev.ConfigureWindow(W2M, config);
    ConfigEffect(old(dev.regs[..]), Window(W2M, id), config);
    var regs := dev.regs[..];
    var src := WindowAddr(Window(W2M, id)) + And(addr, 0x20_0000 - 1);
    val := Load(chip.mem, regs, src) + 0x100 * Load(chip.mem, regs, src + 1)
      + 0x1_0000 * Load(chip.mem, regs, src + 2) + 0x100_0000 * Load(chip.mem, regs, src + 3);
    if addr % 4 == 0 {
      LoadLands(chip.mem, regs, id, x, y, addr, 0);
      LoadLands(chip.mem, regs, id, x, y, addr, 1);
      LoadLands(chip.mem, regs, id, x, y, addr, 2);
      LoadLands(chip.mem, regs, id, x, y, addr, 3);
    }
  }

  // ----- Discovery -----

  datatype Sensor = Temp | In | Curr | Power | Other

  /** The rows of the sensor table: type and tag. Each row also holds an address, filled in by discovery. */
  const SENSORS: seq<Sensor> := [Temp, In, Curr, Power]
  const TAGS: seq<nat> := [11, 6, 8, 7]

  function TagOf(entry: u32): nat { entry % 0x1_0000 }

  /** The address an entry gives, in 32-bit arithmetic. */
  function AddrOf(entry: u32, data: u32): u32 { (data + entry / 0x1_0000 * 4) % TWO32 }

  /** The table of n entries that follows the version and the count. */
  function Entries(mem: Mem, base: u32, n: nat): (es: seq<u32>)
    ensures |es| == n
    ensures forall i :: 0 <= i < n ==> es[i] == ArcWord(mem, EntryAt(base, i))
    decreases n
  {
    if n == 0 then [] else Entries(mem, base, n - 1) + [ArcWord(mem, EntryAt(base, n - 1))]
  }

  function EntryAt(base: u32, i: nat): u32 { (base + 8 + i * 4) % TWO32 }

  lemma EntryAligned(base: u32, i: nat)
    requires base % 4 == 0
    ensures EntryAt(base, i) % 4 == 0
  {
  }

  /** The last entry with this tag, if any. */
  ghost predicate LastWith(tag: nat, entries: seq<u32>, k: nat)
  {
    k < |entries| && TagOf(entries[k]) == tag && forall i :: k < i < |entries| ==> TagOf(entries[i]) != tag
  }

  /** A sensor's address after the table has been gone through. */
  function Discovered(tag: nat, entries: seq<u32>, data: u32, before: u32): u32
  {
    if entries == [] then before
    else
      var n := |entries| - 1;
      if TagOf(entries[n]) == tag then AddrOf(entries[n], data) else Discovered(tag, entries[..n], data, before)
  }

  /** It is the address that the last entry with its tag gives. */
  lemma {:induction false} DiscoveredIsLast(tag: nat, entries: seq<u32>, data: u32, before: u32, k: nat)
    requires LastWith(tag, entries, k)
    ensures Discovered(tag, entries, data, before) == AddrOf(entries[k], data)
  {
    hide TagOf, AddrOf;
    var n := |entries| - 1;
    if k < n {
      assert LastWith(tag, entries[..n], k);
      DiscoveredIsLast(tag, entries[..n], data, before, k);
    }
  }

  /** And the previous one if there is no such entry. */
  lemma {:induction false} DiscoveredUnchanged(tag: nat, entries: seq<u32>, data: u32, before: u32)
    requires forall e <- entries :: TagOf(e) != tag
    ensures Discovered(tag, entries, data, before) == before
  {
    hide TagOf, AddrOf;
    if entries != [] {
      DiscoveredUnchanged(tag, entries[..|entries| - 1], data, before);
    }
  }

  lemma AddrAligned(entry: u32, data: u32)
    ensures data % 4 == 0 ==> AddrOf(entry, data) % 4 == 0
  {
  }

  lemma {:induction false} DiscoveredAligned(tag: nat, entries: seq<u32>, data: u32, before: u32)
    ensures data % 4 == 0 && before % 4 == 0 ==> Discovered(tag, entries, data, before) % 4 == 0
  {
    hide AddrOf;
    if entries != [] {
      AddrAligned(entries[|entries| - 1], data);
      DiscoveredAligned(tag, entries[..|entries| - 1], data, before);
    }
  }

  /** The inner loop: the one row with the entry's tag takes the address. */
  method Record(entry: u32, data: u32, addrs: array<u32>)
    requires addrs.Length == 4
    modifies addrs
    ensures forall j :: 0 <= j < 4 ==>
      addrs[j] == if TAGS[j] == TagOf(entry) then AddrOf(entry, data) else old(addrs[j])
  {
    var addr := AddrOf(entry, data);
    var j := 0;
    while j < 4 && TAGS[j] != TagOf(entry)
      invariant 0 <= j <= 4
      invariant forall i :: 0 <= i < j ==> TAGS[i] != TagOf(entry)
    {
      j := j + 1;
    }
    if j < 4 {
      addrs[j] := addr;
    }
  }

  lemma DiscoveredNext(tag: nat, seen: seq<u32>, entry: u32, data: u32, before: u32)
    ensures Discovered(tag, seen + [entry], data, before)
            == if TagOf(entry) == tag then AddrOf(entry, data) else Discovered(tag, seen, data, before)
  {
    assert (seen + [entry])[..|seen|] == seen;
  }

  /** The outer loop, over the n entries that follow base. */
  method GoThrough(dev: Device, chip: Chip, addrs: array<u32>, base: u32, data: u32, n: u32)
    requires dev.Valid() && dev.driverWindowId < Count(W2M) && addrs.Length == 4 && addrs != dev.regs
    modifies dev.regs, addrs
    ensures OthersUntouched(dev, old(dev.regs[..]), dev.regs[..])
    ensures base % 4 == 0 ==> forall j :: 0 <= j < 4 ==>
      addrs[j] == Discovered(TAGS[j], Entries(chip.mem, base, n), data, old(addrs[j]))
  {
    hide EntryAt, Word, TelemetryAim, Discovered, TagOf, AddrOf, RegAt;
    ghost var seen: seq<u32> := [];
    assert forall j :: 0 <= j < 4 ==> addrs[j] == Discovered(TAGS[j], seen, data, old(addrs[j])) by {
      DiscoveredNone(data);
    }
    for i := 0 to n
      invariant base % 4 == 0 ==> seen == Entries(chip.mem, base, i)
      invariant forall j :: 0 <= j < 4 ==> addrs[j] == Discovered(TAGS[j], seen, data, old(addrs[j]))
      invariant OthersUntouched(dev, old(dev.regs[..]), dev.regs[..])
    {
      if base % 4 == 0 {
        EntryAligned(base, i);
      }
      var entry := NocRead32(dev, chip, ARC_X, ARC_Y, EntryAt(base, i));
      Record(entry, data, addrs);
      forall j | 0 <= j < 4
        ensures addrs[j] == Discovered(TAGS[j], seen + [entry], data, old(addrs[j]))
      {
        DiscoveredNext(TAGS[j], seen, entry, data, old(addrs[j]));
      }
      seen := seen + [entry];
    }
  }

  lemma DiscoveredNone(data: u32)
    ensures forall tag: nat, before: u32 :: Discovered(tag, [], data, before) == before
  {
  }

  function TableBase(mem: Mem): u32 { ArcWord(mem, TELEMETRY_PTR) }

  function TableData(mem: Mem): u32 { ArcWord(mem, TELEMETRY_DATA) }

  /** A major version above 1. */
  predicate Unsupported(mem: Mem) { ArcWord(mem, TableBase(mem)) / 0x1_0000 % 0x100 > 1 }

  function Table(mem: Mem): seq<u32>
  {
    Entries(mem, TableBase(mem), ArcWord(mem, (TableBase(mem) + 4) % TWO32))
  }

  /** initialize_hwmon, with the result of registering the device as an input. */
  method InitializeHwmon(dev: Device, chip: Chip, addrs: array<u32>, registration: Result<()>) returns (r: Result<()>)
    requires dev.Valid() && dev.driverWindowId < Count(W2M) && addrs.Length == 4 && addrs != dev.regs
    modifies dev.regs, addrs
    ensures OthersUntouched(dev, old(dev.regs[..]), dev.regs[..])
    ensures TableBase(chip.mem) % 4 == 0 ==>
      if Unsupported(chip.mem) then r == Err(ENOTSUPP) && addrs[..] == old(addrs[..])
      else r == registration && forall j :: 0 <= j < 4 ==>
             addrs[j] == Discovered(TAGS[j], Table(chip.mem), TableData(chip.mem), old(addrs[j]))
  {
    hide RegAt, Word, TelemetryAim, Discovered, Entries;
    var base := NocRead32(dev, chip, ARC_X, ARC_Y, TELEMETRY_PTR);
    var data := NocRead32(dev, chip, ARC_X, ARC_Y, TELEMETRY_DATA);
    var version := NocRead32(dev, chip, ARC_X, ARC_Y, base);
    if version / 0x1_0000 % 0x100 > 1 {
      return Err(ENOTSUPP);
    }
    var n := NocRead32(dev, chip, ARC_X, ARC_Y, (base + 4) % TWO32);
    GoThrough(dev, chip, addrs, base, data, n);
    r := registration;
  }

  // ----- Sensor values -----

  /** Conversion in 32-bit arithmetic. */
  function Convert(s: Sensor, raw: u32): u32
  {
    match s
    case Temp => (raw / 0x1_0000 * 1000 % TWO32 + raw % 0x1_0000 * 1000 % TWO32 / 0x1_0000) % TWO32
    case Curr => raw * 1000 % TWO32
    case Power => raw * 1_000_000 % TWO32
    case _ => raw
  }

  /** A temperature in 16.16 fixed point comes out in thousandths, rounded down, and never overflows. */
  lemma TemperatureExact(raw: u32)
    ensures Convert(Temp, raw) == raw * 1000 / 0x1_0000
  {
    var hi, lo := raw / 0x1_0000, raw % 0x1_0000;
    assert raw * 1000 == 0x1_0000 * (hi * 1000) + lo * 1000;
  }

  /** Amperes and watts are converted exactly up to the largest value whose product fits 32 bits. */
  lemma ScaledExact(raw: u32)
    ensures Convert(Curr, raw) == raw * 1000 <==> raw <= 4_294_967
    ensures Convert(Power, raw) == raw * 1_000_000 <==> raw <= 4_294
    ensures Convert(In, raw) == raw
  {
    if raw > 4_294_967 {
      assert raw * 1000 >= TWO32;
    }
    if raw > 4_294 {
      assert raw * 1_000_000 >= TWO32;
    }
  }

  /** l2cpu_hwmon_read; input tells the _input attribute from all others. */
  method HwmonRead(dev: Device, chip: Chip, addrs: array<u32>, s: Sensor, input: bool) returns (r: Result<u32>)
    requires dev.Valid() && dev.driverWindowId < Count(W2M) && addrs.Length == 4 && addrs != dev.regs
    modifies dev.regs
    ensures OthersUntouched(dev, old(dev.regs[..]), dev.regs[..])
    ensures s.Other? || !input ==> r == Err(EOPNOTSUPP) && dev.regs[..] == old(dev.regs[..])
    ensures forall j :: 0 <= j < 4 && input && SENSORS[j] == s && addrs[j] % 4 == 0 ==>
      r == Ok(Convert(s, ArcWord(chip.mem, addrs[j])))
  {
    hide RegAt, Word, Convert, TelemetryAim;
    for i := 0 to 4
      invariant dev.regs[..] == old(dev.regs[..])
      invariant forall j :: 0 <= j < i ==> !(SENSORS[j] == s && input)
    {
      if SENSORS[i] == s && input {
        var raw := NocRead32(dev, chip, ARC_X, ARC_Y, addrs[i]);
        return Ok(Convert(s, raw));
      }
    }
    r := Err(EOPNOTSUPP);
  }

  /** Discovery and then a read: on an aligned table that points to aligned data, sensor j reads as the converted word
      at the address that the last entry with its tag gives, or at its previous address if there is none. */
  method DiscoverThenRead(dev: Device, chip: Chip, addrs: array<u32>, registration: Result<()>, j: nat)
      returns (r: Result<u32>)
    requires dev.Valid() && dev.driverWindowId < Count(W2M) && addrs.Length == 4 && addrs != dev.regs && j < 4
    modifies dev.regs, addrs
    ensures OthersUntouched(dev, old(dev.regs[..]), dev.regs[..])
    ensures TableBase(chip.mem) % 4 == 0 && Unsupported(chip.mem) ==> r == Err(ENOTSUPP)
    ensures TableBase(chip.mem) % 4 == 0 && TableData(chip.mem) % 4 == 0 && old(addrs[j]) % 4 == 0
            && !Unsupported(chip.mem) && registration.Ok? ==>
      && (forall k: nat :: LastWith(TAGS[j], Table(chip.mem), k) ==>
            r == Ok(Convert(SENSORS[j], ArcWord(chip.mem, AddrOf(Table(chip.mem)[k], TableData(chip.mem))))))
      && ((forall e <- Table(chip.mem) :: TagOf(e) != TAGS[j]) ==>
            r == Ok(Convert(SENSORS[j], ArcWord(chip.mem, old(addrs[j])))))
  {
    hide RegAt, Word, Convert, Discovered, Entries, AddrOf, TagOf, Unsupported;
    ghost var before := addrs[j];
    DiscoveredAligned(TAGS[j], Table(chip.mem), TableData(chip.mem), before);
    forall k: nat | LastWith(TAGS[j], Table(chip.mem), k)
      ensures Discovered(TAGS[j], Table(chip.mem), TableData(chip.mem), before)
              == AddrOf(Table(chip.mem)[k], TableData(chip.mem))
    {
      DiscoveredIsLast(TAGS[j], Table(chip.mem), TableData(chip.mem), before, k);
    }
    if forall e <- Table(chip.mem) :: TagOf(e) != TAGS[j] {
      DiscoveredUnchanged(TAGS[j], Table(chip.mem), TableData(chip.mem), before);
    }
    var s := InitializeHwmon(dev, chip, addrs, registration);
    if s.Err? {
      return Err(s.errno);
    }
    r := HwmonRead(dev, chip, addrs, SENSORS[j], true);
  }

  /** The numbers: the table's two pointers in the ARC's scratch registers, the version and count before the entries,
      tag and offset within an entry, and the tags of the four sensors. */
  lemma TelemetryNumbers(mem: Mem, a: nat, entry: u32, data: u32)
    ensures ArcWord(mem, a) % 0x100 == At(mem, Loc(8, 0, a))
    ensures ArcWord(mem, a) / 0x100 % 0x100 == At(mem, Loc(8, 0, a + 1))
    ensures ArcWord(mem, a) / 0x1_0000 % 0x100 == At(mem, Loc(8, 0, a + 2))
    ensures ArcWord(mem, a) / 0x100_0000 == At(mem, Loc(8, 0, a + 3))
    ensures TableBase(mem) == ArcWord(mem, 0x8003_0434) && TableData(mem) == ArcWord(mem, 0x8003_0430)
    ensures Unsupported(mem) <==> ArcWord(mem, TableBase(mem)) / 0x1_0000 % 0x100 >= 2
    ensures |Table(mem)| == ArcWord(mem, (TableBase(mem) + 4) % 0x1_0000_0000)
    ensures forall i :: 0 <= i < |Table(mem)| ==>
      Table(mem)[i] == ArcWord(mem, (TableBase(mem) + 8 + 4 * i) % 0x1_0000_0000)
    ensures TagOf(entry) == entry % 0x1_0000
    ensures AddrOf(entry, data) == (data + 4 * (entry / 0x1_0000)) % 0x1_0000_0000
    ensures SENSORS == [Temp, In, Curr, Power] && TAGS == [11, 6, 8, 7]
  {
    WordBytes(At(mem, Loc(8, 0, a)), At(mem, Loc(8, 0, a + 1)), At(mem, Loc(8, 0, a + 2)), At(mem, Loc(8, 0, a + 3)));
    hide At;
  }

  lemma WordBytes(a: u8, b: u8, c: u8, d: u8)
    ensures var w := a + 0x100 * b + 0x1_0000 * c + 0x100_0000 * d;
      && w % 0x100 == a && w / 0x100 % 0x100 == b && w / 0x1_0000 % 0x100 == c && w / 0x100_0000 == d
  {
    var w := a + 0x100 * b + 0x1_0000 * c + 0x100_0000 * d;
    DivModUnique(w, 0x100, b + 0x100 * c + 0x1_0000 * d, a);
    DivModUnique(b + 0x100 * c + 0x1_0000 * d, 0x100, c + 0x100 * d, b);
    DivModUnique(w, 0x1_0000, c + 0x100 * d, a + 0x100 * b);
    DivModUnique(c + 0x100 * d, 0x100, d, c);
    DivModUnique(w, 0x100_0000, d, a + 0x100 * b + 0x1_0000 * c);
  }
}
