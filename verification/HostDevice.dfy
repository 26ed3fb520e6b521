/** BlackholePciDevice as an object: free lists, registers written word by word, and windows that give their
    index back when destroyed. */
module HostDevice {
  import opened Wrappers
  import opened BitFields
  import opened HostTlb
  import opened HostAllocator

  class BlackholePciDevice {
    var freeWC: seq<nat>
    var freeUC: seq<nat>
    var free4G: seq<nat>
    const regs: array<u32>
    /** The windows handed out and not yet destroyed, oldest first. */
    ghost var live: seq<Tlb>

    ghost function State(): Host
      reads this, regs
    {
      Host(freeWC, freeUC, free4G, regs[..], live)
    }

    ghost predicate Valid()
      reads this, regs
    {
      HostInv(State())
    }

    constructor (registers: array<u32>)
      requires registers.Length == 3 * NUM_REGISTERS
      ensures Valid() && regs == registers && State() == FreshHost(registers[..])
    {
      freeWC := Reversed(Iota(0, 188));
      freeUC := Iota(188, 13);
      free4G := Iota(202, 8);
      regs := registers;
      live := [];
      new;
      FreshInv(registers[..]);
    }

    /** CHECK on the index, then three word writes. */
    method WriteTlbConfig(index: nat, words: seq<u32>)
      requires regs.Length == 3 * NUM_REGISTERS && index < NUM_REGISTERS && |words| == 3
      modifies regs
      ensures regs[..] == SetRegister(old(regs[..]), index, words)
    {
      regs[3 * index] := words[0];
      regs[3 * index + 1] := words[1];
      regs[3 * index + 2] := words[2];
    }

    /** The fields of a register. */
    method ReadTlbConfig(p: Pool, index: nat) returns (fields: seq<nat>)
      requires Valid() && index < NUM_REGISTERS
      ensures |fields| == 13 && Words(p, fields) == RegisterAt(regs[..], index)
    {
      var words := [regs[3 * index], regs[3 * index + 1], regs[3 * index + 2]];
      fields := Fields(p, words);
      assert words == RegisterAt(regs[..], index);
      WordsOfFields(p, words);
    }

    method MapTlb2MWC(x: u32, y: u32, address: u64) returns (r: Option<Tlb>)
      requires Valid()
      modifies this, regs
      ensures Valid() && State() == MapTlb(old(State()), Request(WC, x, y, address))
      ensures r == if old(freeWC) == [] then None else Some(live[|live| - 1])
      ensures r.Some? ==> r.value.request == Request(WC, x, y, address)
    {
      hide HostInv, InPool, Words, And, SetRegister;
      if freeWC == [] {
        return None;
      }
      ghost var q := Request(WC, x, y, address);
      Taken(State(), q);
      MapKeeps(State(), q);
      var index := freeWC[|freeWC| - 1];
      Mask21(address);
      var local := And(address, 0x20_0000 - 1);
      WriteTlbConfig(index, Words(WC, [address / 0x20_0000, x, y, 0, 0, 0, 0, 0, 0, 0, 0, 0, 0]));
      freeWC := freeWC[..|freeWC| - 1];
      var w := Tlb(Request(WC, x, y, address), index, 0x20_0000 * index + local, 0x20_0000 - local);
      live := live + [w];
      return Some(w);
    }

    method MapTlb2MUC(x: u32, y: u32, address: u64) returns (r: Option<Tlb>)
      requires Valid()
      modifies this, regs
      ensures Valid() && State() == MapTlb(old(State()), Request(UC, x, y, address))
      ensures r == if old(freeUC) == [] then None else Some(live[|live| - 1])
      ensures r.Some? ==> r.value.request == Request(UC, x, y, address)
    {
      hide HostInv, InPool, Words, And, SetRegister;
      if freeUC == [] {
        return None;
      }
      ghost var q := Request(UC, x, y, address);
      Taken(State(), q);
      MapKeeps(State(), q);
      var index := freeUC[|freeUC| - 1];
      Mask21(address);
      var local := And(address, 0x20_0000 - 1);
      WriteTlbConfig(index, Words(UC, [address / 0x20_0000, x, y, 0, 0, 0, 0, 0, 0, 0, 0, 0, 0]));
      freeUC := freeUC[..|freeUC| - 1];
      var w := Tlb(Request(UC, x, y, address), index, 0x20_0000 * index + local, 0x20_0000 - local);
      live := live + [w];
      return Some(w);
    }

    method MapTlb4G(x: u32, y: u32, address: u64) returns (r: Option<Tlb>)
      requires Valid()
      modifies this, regs
      ensures Valid() && State() == MapTlb(old(State()), Request(Big, x, y, address))
      ensures r == if old(free4G) == [] then None else Some(live[|live| - 1])
      ensures r.Some? ==> r.value.request == Request(Big, x, y, address)
    {
      hide HostInv, InPool, Words, And, SetRegister;
      if free4G == [] {
        return None;
      }
      ghost var q := Request(Big, x, y, address);
      Taken(State(), q);
      MapKeeps(State(), q);
      var index := free4G[|free4G| - 1];
      Mask32(address);
      var local := And(address, 0x1_0000_0000 - 1);
      WriteTlbConfig(index, Words(Big, [address / 0x1_0000_0000, x, y, 0, 0, 0, 0, 0, 0, 0, 0, 0, 0]));
      free4G := free4G[..|free4G| - 1];
      var w := Tlb(Request(Big, x, y, address), index, 0x1_0000_0000 * (index - 202) + local, 0x1_0000_0000 - local);
      live := live + [w];
      return Some(w);
    }

    /** The window's destructor: its closure pushes the captured index. */
    method Destroy(w: Tlb, ghost k: nat)
      requires Valid() && k < |live| && live[k] == w
      modifies this
      ensures Valid() && State() == DestroyTlb(old(State()), k)
    {
      DestroyKeeps(State(), k);
      match w.request.pool {
        case WC => freeWC := freeWC + [w.index];
        case UC => freeUC := freeUC + [w.index];
        case Big => free4G := free4G + [w.index];
      }
      live := live[..k] + live[k + 1..];
    }
  }

  lemma Mask21(address: u64)
    ensures And(address, 0x20_0000 - 1) == address % 0x20_0000
  {
    Pow2Table();
    MaskPow2(address, 21);
  }

  lemma Mask32(address: u64)
    ensures And(address, 0x1_0000_0000 - 1) == address % 0x1_0000_0000
  {
    Pow2Table();
    MaskPow2(address, 32);
  }

  /** The index a map takes passes the range check of the register write. */
  lemma Taken(h: Host, q: Request)
    requires HostInv(h) && Free(h, q.pool) != []
    ensures |h.regs| == 3 * NUM_REGISTERS && InPool(h)
    ensures var s := Free(h, q.pool); First(q.pool) <= s[|s| - 1] < First(q.pool) + Capacity(q.pool)
  {
  }
}
