# Verified models of the Blackhole X280 support code

Three parts of the software that runs Linux on the X280 cores of a Blackhole chip, modelled in Dafny and proved
correct for every input, every run and every interleaving of the model.

**The NOC window manager and its clients.** The kernel driver `l2cpu_noc.c` hands out 224 windows of 2M and 32 of 128G
to any number of open files. `NocRegisters` is the register layout and what the hardware does with it, `NocDriver`
says on values what each entry point does, `NocDevice` is the driver's code updating bitmaps, counts and registers in
place, proved against `NocDriver`. `NocSystem` is the state machine over all entry points, with its invariant;
`NocGuarantees` and, for mappings, `NocMappings` have what follows for every run. `NocAnswers` has every entry point's
answers in numbers. `NocClients` puts `SmartNocWindow` objects on top and proves that all of them together,
interleaved byte by byte with each other and with other users of the driver, act on one flat memory per tile.
`NocAccess` says in plain arithmetic which accesses an object takes and what a handle stands for. `NocUser` is the
code of the objects, `Telemetry` the driver's own use of a window, `HostNoc` the host code that writes the same
registers over PCIe.

**The shared-memory rings.** `RingBuffer` is the ring, for any number of slots. `NetRings` is the network device as a
machine of four actors (host loop, xmit, NAPI poll, interrupt handler) in which every shared read and write, down to
single bytes, is a step of its own, and the interface is opened and stopped. `NetSafety` has the safety of every run,
`NetWakeup` the wakeup protocol, `NetStalls` what defeats it, `NetDelivery` delivery, `NetSteps` what each actor's
steps come to when nothing comes between them, and `NetDevice` the code with its arrays and loops. `Console` is the
virtual UART's ring with its modulo indices.

**The host's TLB allocator.** `HostTlb` has the 96-bit registers and the translation, `HostAllocator` every run of
maps and destructions, `HostDevice` the class with its three free lists. `BitFields` is C bit-field packing for any
struct, used by both register models.

## Assumptions about the surroundings

- Memory accesses take effect one at a time in program order; the fences in the code are taken as honoured.
- TLB registers are plain words. A unicast access through a window goes to the tile and page in its register; tile
  coordinates are six bits wide, so a coordinate c stands for c mod 64.
- Probe ends before the first open, and remove comes when no file is open. A file is released only after its last
  mapping is closed. A mapping whose remap failed gets no close callback. Mappings are not split or duplicated.
- The driver raises a mapping count even when the remap fails, so a count is the live mappings plus the failed
  remaps. The ownership bit of an id outside the bitmap is an arbitrary value.
- Users of the driver other than the modelled objects may make any calls, but do not configure, deallocate, unmap or
  release what belongs to an object. Objects have a unicast initial configuration. Stores to chip memory by anybody
  else, through whatever mapping, are steps of their own.
- `napi_schedule` while scheduled sets MISSED, and completing while MISSED is set schedules again. It has no effect
  before `napi_enable` and from the start of `napi_disable` on, which returns when no poll is scheduled and makes a
  poll under way complete. The doorbell is level triggered.
- The chip's telemetry memory does not change during discovery; hardware monitor reads are made one at a time.
- System calls and allocations that can fail are inputs of the model (`fault`, `remapFails`, `allocOk`, `failAt`).

## Where the code falls short of the expected property

- A 128G window that the host aims at tile (0, 0), page `id`, is indistinguishable from an unused one; exactly those
  are missed by the scan and can be handed out (`HostWindow128GDetected`, `HostWindow128GProtected`). 2M windows are
  always found, because strict_order is set.
- A zero-length packet from TAP blocks reception for good (`EmptyPacketArrives`, `EmptyPacketBlocks`); with successful
  allocations everything enqueued is delivered if and only if no such packet is among it (`EverythingDelivered`). A
  failed allocation leaves packets waiting with nothing scheduled exactly when no wakeup is under way
  (`AllocFailureStalls`, `AllocFailureArrives`), and for good exactly when the ring is full as well (`StalledForever`,
  `WakesExactly`).
- A doorbell rung before the interface is opened is answered in vain. Packets then wait, from the opening on, exactly
  unless the host is about to ring or the interrupt is still due (`OpeningDecides`); 649 of them wait for good
  (`OpenedTooLate`), fewer until the next one.
- mmap compares the size of a mapping with that of a window but not its end with the window's end, so a mapping that
  starts inside a window can run on into another file's (`OverrunShares`, `OverrunReached`). A mapping shows
  nothing outside the window it starts in exactly when offset + size does not pass the end of that window
  (`FitsExactly`), and then all it shows is safe (`MappingSafety`, `SharedExactly`). The objects' mappings never pass
  it (`ObjectsFit`).
- A 4G object takes exactly the addresses with addr mod 2^37 below 2^32 (`AcceptedSizes`), though the size, boundary
  and alignment checks pass.
- The block check of the host's windows adds two 64-bit numbers and is right exactly when the sum does not wrap
  (`BlockInside`, `BlockCheckWraps`).
- Current and power readings are exact up to 4294967 A and 4294 W and wrap above (`ScaledExact`).
- After a failed remap the window cannot be deallocated before the file is released (`FailedRemapSticks`,
  `ReleaseReturns`, `DeallocExactly`); the constructor of an object then leaves it allocated (`OpenWindow`), and only
  then.

## Model

| member | source | states |
|---|---|---|
| `NocClients.RunsRefineFlatMemory` | x280-noc/include/uapi/uapi.hpp:127-215 | From probe on, whatever the objects and other driver users do in whatever order, every step is a step of a machine that has only flat per-tile memory and transfers, in which byte n of a transfer moves between the buffer and address addr + n of the named tile |
| `NocClients.RefinesFlatMemory` | x280-noc/include/uapi/uapi.hpp:127-215 | One step of that refinement from any state of the invariant, including steps that skip the ioctl because the cached configuration is unchanged |
| `NocClients.RefinesNothing` | x280-noc/include/uapi/uapi.hpp:127-170 | An object is never stuck in a transfer that the flat machine could go on with |
| `NocClients.WorldInvHolds` | x280-noc/include/uapi/uapi.hpp:66-79 | In every run each live object owns its window, has its whole mapping, and its cached configuration is what the register holds |
| `NocClients.ByteReaches` | x280-noc/include/uapi/uapi.hpp:127-170 | The hardware takes the next byte of a transfer to exactly the byte the caller addressed, whether or not the register was written for this transfer |
| `NocClients.Translation` | x280-noc/driver/l2cpu_noc.c:230-307 | A window configured at addr shows byte i of the window as byte addr + i of tile (x mod 64, y mod 64) if it is unicast, and as no one byte if it is multicast |
| `NocClients.StepKeepsWindow` | x280-noc/driver/l2cpu_noc.c:546-573 | No driver call that does not name a file's window changes its ownership or its register |
| `NocClients.AcceptedExactly` | x280-noc/include/uapi/uapi.hpp:127-151 | An access starts exactly when the bit tests pass and the window address is aligned, whatever happened before; otherwise cache, register and everything else are unchanged |
| `NocClients.AcceptedSizes` | x280-noc/driver/l2cpu_noc.c:272-283 | A 2M object takes every address, a 4G object exactly those with addr mod 2^37 < 2^32 |
| `NocAccess.AlignmentTest` | x280-noc/include/uapi/uapi.hpp:142-144 | For one to eight bytes the bit test is natural alignment: for 1, 2, 4 and 8 that the size divides the address |
| `NocAccess.ChecksExactly` | x280-noc/include/uapi/uapi.hpp:127-144 | On an object of 2^e bytes the tests pass if and only if addr mod 2^e + size <= 2^e, up to eight bytes the access is naturally aligned, and a write has at most 4G |
| `NocAccess.StartsExactly` | x280-noc/include/uapi/uapi.hpp:127-151 | In every run an object of 2^e bytes starts exactly those accesses that also lie in the first 2^e bytes of a page of its window; a refused one changes nothing |
| `NocAccess.TakesTwoSizes` | x280-noc/include/uapi/uapi.hpp:172-196 | For 2M: addr mod 2M + size <= 2M and, for 1, 2, 4 or 8 bytes, size divides addr; for 4G: addr mod 128G + size <= 4G and the same |
| `NocAccess.ObjectWindows` | x280-noc/include/uapi/uapi.hpp:36-40 | In every run an object of up to 2M owns a 2M window and any other a 128G window, and its handle names that window's first address |
| `NocAccess.HandleNames` | x280-noc/driver/l2cpu_noc.c:494-541 | The handle of an allocation covers exactly the physical addresses of the window allocated, given in numbers |
| `NocAccess.HandleReaches` | x280-noc/driver/l2cpu_noc.c:500-505 | An access at mmap_offset + i reaches byte i of what the window is aimed at |
| `NocAccess.ConstructExactly` | x280-noc/include/uapi/uapi.hpp:36-50 | Construction gets a window exactly while one of the 224 or 32 of its kind is free, of the kind its size asks for, and is given up only if larger than 128G |
| `NocAccess.ConfigureExactly` | x280-noc/include/uapi/uapi.hpp:51-55 | The first configuration succeeds exactly for an address on a page boundary |
| `NocAccess.MapExactly` | x280-noc/include/uapi/uapi.hpp:56-64 | The object comes alive exactly if it has bytes and the remap succeeds |
| `NocAccess.UnmapExactly` | x280-noc/include/uapi/uapi.hpp:84-90 | The destructor's munmap removes the mapping and takes it off the count |
| `NocAnswers.ProbeAnswers` | x280-noc/driver/l2cpu_noc.c:355-368 | Which windows a probe reserves, which it takes for the driver, and when it fails with which error |
| `NocAnswers.AllocAnswers` | x280-noc/driver/l2cpu_noc.c:494-541 | ENOSPC exactly with all 224 or 32 windows in use, EFAULT with the sets restored, else a free window |
| `NocAnswers.ConfigAnswers` | x280-noc/driver/l2cpu_noc.c:546-573 | Each error exactly when, in the order fault, ownership, range and alignment; success writes that register only |
| `NocAnswers.DeallocAnswers` | x280-noc/driver/l2cpu_noc.c:578-623 | Each error exactly when; success restores the identity words and clears both bits |
| `NocAnswers.MmapAnswers` | x280-noc/driver/l2cpu_noc.c:731-795 | EINVAL for a size over the window's or an offset in no window, EPERM, EOVERFLOW and EAGAIN exactly when, and the count in every case |
| `NocAnswers.CloseAnswers` | x280-noc/driver/l2cpu_noc.c:684-722 | The count goes down by one, and only a count of zero warns |
| `NocClients.ChecksAgree` | x280-noc/include/uapi/uapi.hpp:172-190 | The read and write checks agree for objects up to 4G, and an accepted write is at most 4G |
| `NocClients.ObjectsFit` | x280-noc/include/uapi/uapi.hpp:53-58 | The mapping of a live object ends within its window, whatever went on around it |
| `NocClients.DestroyGivesBack` | x280-noc/include/uapi/uapi.hpp:84-90 | In every interleaving a destroyed object gives its window back at its identity words if and only if its file has no mapping of it left and no remap of it failed; otherwise nothing changes |
| `NocSystem.StepInv` | x280-noc/driver/l2cpu_noc.c:355-795 | Open, alloc, config, dealloc, mmap, close, release and telemetry each keep: allocated is the disjoint union of the files' windows and the driver's, disjoint from reserved; every count is live mappings plus failed remaps; every free window holds its identity configuration |
| `NocSystem.InvariantHolds` | x280-noc/driver/l2cpu_noc.c:355-795 | That invariant in every state of every run after probe |
| `NocMappings.MappingSafety` | x280-noc/driver/l2cpu_noc.c:684-795 | In every run the window a live mapping starts in is its file's alone, deallocating it fails with the exact error from every file, and closing the mapping never underflows; the same holds of every window the mapping shows any part of if it ends within the window it starts in, which is exactly when it shows no address outside that window |
| `NocMappings.MappedByOneFile` | x280-noc/driver/l2cpu_noc.c:731-795 | Two live mappings that end within their windows and show parts of one window belong to one file |
| `NocMappings.FitsExactly` | x280-noc/driver/l2cpu_noc.c:740-776 | An accepted mapping shows addresses of the window it starts in only, if and only if offset + size does not pass the end of that window, which the driver does not check |
| `NocMappings.SharedExactly` | x280-noc/driver/l2cpu_noc.c:731-795 | Two live mappings of different files share an address if and only if the lower one runs on to the start of the other; it then passes the end of its window |
| `NocMappings.OverrunShares` | x280-noc/driver/l2cpu_noc.c:740-776 | With the lowest two free 2M windows neighbours, six calls by two files make them share an address |
| `NocMappings.OverrunReached` | x280-noc/driver/l2cpu_noc.c:740-776 | Such a state is reached from a probe on idle registers |
| `NocMappings.DeallocExactly` | x280-noc/driver/l2cpu_noc.c:578-623 | In every run the owner can deallocate a window if and only if it has no live mapping of it and no remap of it ever failed |
| `NocMappings.FailedRemapSticks` | x280-noc/driver/l2cpu_noc.c:769-790 | After a failed remap every run without the release of the file leaves the window with it, and deallocation fails with EBUSY |
| `NocMappings.ReleaseReturns` | x280-noc/driver/l2cpu_noc.c:471-489 | Releasing a file returns every window it owns at its identity words |
| `NocGuarantees.KeptAlways` | x280-noc/driver/l2cpu_noc.c:414-448 | Through every run reserved registers are as found and every window neither reserved nor allocated differs from what was found in the reserved0 bits of a 128G register at most |
| `NocGuarantees.RemoveRestores` | x280-noc/driver/l2cpu_noc.c:1102-1114 | Probe, any run, then remove: 2M registers are word for word as found, 128G registers up to reserved0, reserved ones exactly, and a second scan finds the same reserved set |
| `NocGuarantees.ReservedProtected` | x280-noc/driver/l2cpu_noc.c:355-388 | A window found configured at probe is never allocated and keeps its register through every run |
| `NocGuarantees.FreeIsHandedOut` | x280-noc/driver/l2cpu_noc.c:374-408 | A window left free by the probe is handed out by some run |
| `HostNoc.HostWindowProtected` | blackhole-thing/src/l2cpu_core.hpp:206-231 | A 2M window whose register the host set before probe, whatever its target, is never allocated and keeps its register through every run |
| `HostNoc.HostWindow2MDetected` | x280-noc/driver/l2cpu_noc.c:313-327 | A register with strict_order set is found configured |
| `HostNoc.HostWindow128GDetected` | x280-noc/driver/l2cpu_noc.c:333-350 | A 128G window set by the host is found exactly unless its target is tile (0, 0), page id |
| `HostNoc.HostWindow128GProtected` | blackhole-thing/src/l2cpu_core.hpp:264-290 | A found one is never allocated and keeps its register through every run; some run hands the window out if and only if its target is tile (0, 0), page id |
| `NocGuarantees.WindowsAddUp` | x280-noc/driver/l2cpu_noc.c:209-220 | Free, allocated and reserved add up to the number of windows in every run |
| `NocGuarantees.AllocatesLowestFirst` | x280-noc/driver/l2cpu_noc.c:374-408 | With m windows free exactly the next m allocations succeed, each with the lowest free id, and the rest fail with ENOSPC |
| `NocDriver.FirstZero` | x280-noc/driver/l2cpu_noc.c:374-408 | The first clear bit at or after i, or the bitmap's size if all are set |
| `NocDriver.DecodeExact` | x280-noc/driver/l2cpu_noc.c:697-762 | Despite unsigned wrap-around and truncation to int, the offset decoder accepts exactly the 256 window intervals and names the one that contains the offset |
| `NocDriver.DecodeInverts` | x280-noc/driver/l2cpu_noc.c:494-541 | Decoding the mmap_offset given at alloc finds that window |
| `NocDriver.DeallocateExact` | x280-noc/driver/l2cpu_noc.c:414-448 | Deallocation clears one bit, restores that window's identity words and leaves every other register alone |
| `NocDriver.DeallocateSetExact` | x280-noc/driver/l2cpu_noc.c:471-489 | Deallocating a set window by window does so for exactly that set |
| `NocRegisters.EncodeTarget` | x280-noc/driver/l2cpu_noc.c:230-307 | The hardware reads the requested tile and page out of the words written |
| `NocRegisters.EncodeWords` | x280-noc/driver/l2cpu_noc.c:127-192 | Which bits of a configuration end up in which word of a register |
| `NocRegisters.ControlIs` | x280-noc/driver/l2cpu_noc.c:127-192 | All twelve control fields at their bit positions, truncated to their widths |
| `NocRegisters.SetRegAt` | x280-noc/driver/l2cpu_noc.c:254-266 | Writing one window's register changes no other window's |
| `NocRegisters.IdentityEncodes` | x280-noc/driver/l2cpu_noc.c:414-448 | The configuration written at deallocation is the window's own number and zeros |
| `NocRegisters.UnconfiguredExact` | x280-noc/driver/l2cpu_noc.c:313-350 | A register is taken as unused exactly when it is the identity configuration up to reserved0 |
| `NocDevice.Device.constructor` | x280-noc/driver/l2cpu_noc.c:1028-1060 | The zeroed device with its register block |
| `NocDevice.Device.ConfigureWindow` | x280-noc/driver/l2cpu_noc.c:230-307 | Refuses a bad id or address unchanged, else writes the encoded words to that window's register only |
| `NocDevice.Device.IsWindowConfigured` | x280-noc/driver/l2cpu_noc.c:313-350 | True exactly for a configured window |
| `NocDevice.Device.ScanConfiguredWindows` | x280-noc/driver/l2cpu_noc.c:355-368 | The loops add exactly the configured windows to reserved |
| `NocDevice.Device.FindFirstZero` | x280-noc/driver/l2cpu_noc.c:374-408 | The loop finds the lowest clear bit |
| `NocDevice.Device.InitializeDriverWindow` | x280-noc/driver/l2cpu_noc.c:832-853 | Takes the lowest unreserved 2M window, or fails with no change |
| `NocDevice.Device.DeallocateWindow` | x280-noc/driver/l2cpu_noc.c:414-448 | The device becomes the specification's deallocation of it |
| `NocDevice.Device.Release` | x280-noc/driver/l2cpu_noc.c:471-489 | The loops give back exactly the windows the file owns |
| `NocDevice.Device.Remove` | x280-noc/driver/l2cpu_noc.c:1102-1114 | The loops give back every allocated window |
| `NocDevice.Device.IoctlAlloc` | x280-noc/driver/l2cpu_noc.c:494-541 | Device, file and handle are the specification's, with ENOSPC and the undo after a failed copy |
| `NocDevice.Device.IoctlConfig` | x280-noc/driver/l2cpu_noc.c:546-573 | Errors and register as specified; ownership looked at before the range |
| `NocDevice.Device.IoctlDealloc` | x280-noc/driver/l2cpu_noc.c:578-623 | EINVAL, EPERM and EBUSY in that order, else the window goes back |
| `NocDevice.Device.Mmap` | x280-noc/driver/l2cpu_noc.c:731-795 | Count and error as specified, count raised also when the remap fails, undone on overflow |
| `NocDevice.Device.VmaClose` | x280-noc/driver/l2cpu_noc.c:684-722 | Lowers the decoded window's count, or reports the underflow |
| `NocDevice.ProbeDevice` | x280-noc/driver/l2cpu_noc.c:1028-1075 | Scan, then the driver window: the device or the error that the specification gives |
| `NocUser.NocWindow.Reconfigure` | x280-noc/include/uapi/uapi.hpp:66-79 | Cache and register agree afterwards, skipped or not; a refused address leaves both as they were; no other register changes |
| `NocUser.NocWindow.Destroy` | x280-noc/include/uapi/uapi.hpp:84-90 | With one mapping counted the window returns to the driver at its identity configuration; otherwise it stays |
| `NocUser.OpenWindow` | x280-noc/include/uapi/uapi.hpp:36-64 | Which exception is thrown when; after a failed remap the tried window stays allocated, owned, counted once and configured; after any other exception the sets and counts are as before and at most the tried window shows its identity words; otherwise a valid object on a window nobody had |
| `NocUser.SmartNocWindow.Prepare` | x280-noc/include/uapi/uapi.hpp:127-151 | The exact exception, or the window aimed at the address |
| `NocUser.SmartNocWindow.ReadBlock` | x280-noc/include/uapi/uapi.hpp:127-170 | Returns exactly the addressed bytes of the tile, or the exact exception; for 2M and 4G objects success and each exception in plain arithmetic on addr and size |
| `NocUser.SmartNocWindow.WriteBlock` | x280-noc/include/uapi/uapi.hpp:172-215 | Replaces exactly the addressed bytes of the tile and no other, or throws with memory unchanged; for 2M and 4G objects success and each exception in plain arithmetic |
| `NocUser.ObjectionPlain` | x280-noc/include/uapi/uapi.hpp:127-151 | Which access to a 2M or 4G object throws which exception, in arithmetic on addr and size |
| `NocUser.ChecksAreObjections` | x280-noc/include/uapi/uapi.hpp:127-144 | The tests hold if and only if no exception is thrown but the one of the config ioctl |
| `NocUser.RefusalMeans` | x280-noc/include/uapi/uapi.hpp:36-64 | Which exception the constructor throws when, in terms of free windows, size, address and remap |
| `NocUser.OneShotMeans` | x280-noc/include/uapi/uapi.hpp:251-258 | A one-shot read of up to 2M takes a 2M window and is never refused for window alignment; a larger one takes a 128G window; each exception exactly when |
| `NocUser.NocReadBlock` | x280-noc/include/uapi/uapi.hpp:251-258 | Reads exactly the addressed bytes through a temporary window, throws exactly as opening or reading would, and gives the window back in every case but a failed remap |
| `Telemetry.NocRead32` | x280-noc/driver/l2cpu_noc.c:811-825 | An aligned word is read whole from the named tile and only the driver's window is re-aimed |
| `Telemetry.InitializeHwmon` | x280-noc/driver/l2cpu_noc.c:979-1020 | For an aligned table each sensor gets its discovered address; a major version above 1 fails and changes none; only the driver's window is re-aimed |
| `Telemetry.Record` | x280-noc/driver/l2cpu_noc.c:1000-1013 | An entry sets the address of the sensor with its tag and no other |
| `Telemetry.DiscoveredIsLast` | x280-noc/driver/l2cpu_noc.c:1000-1013 | The discovered address is the one of the last entry with the tag |
| `Telemetry.DiscoveredUnchanged` | x280-noc/driver/l2cpu_noc.c:1000-1013 | Without an entry of its tag a sensor keeps its address |
| `Telemetry.HwmonRead` | x280-noc/driver/l2cpu_noc.c:909-934 | The converted word at the sensor's address, or EOPNOTSUPP with nothing touched |
| `Telemetry.DiscoverThenRead` | x280-noc/driver/l2cpu_noc.c:909-1013 | After discovery on an aligned table with aligned data a sensor reads as the converted word at the address its last entry gives, or at its previous address if it has none |
| `Telemetry.TemperatureExact` | x280-noc/driver/l2cpu_noc.c:918-921 | A temperature is floor(raw * 1000 / 65536) with no 32-bit overflow |
| `Telemetry.ScaledExact` | x280-noc/driver/l2cpu_noc.c:922-927 | Exactly which current and power readings are not wrapped |
| `Telemetry.TelemetryNumbers` | x280-noc/driver/l2cpu_noc.c:979-1004 | The addresses, offsets, tags and fields of the telemetry table in numbers |
| `HostNoc.SameLayout2M` | blackhole-thing/src/l2cpu_core.hpp:20-51 | The host's 2M struct is the driver's register, bit for bit |
| `HostNoc.SameLayout128G` | blackhole-thing/src/l2cpu_core.hpp:54-86 | The host's 128G struct is the driver's register, bit for bit |
| `HostNoc.ConfigureNocTlb2M` | blackhole-thing/src/l2cpu_core.hpp:206-231 | The word writes set exactly that window's register: end fields x mod 64 and y mod 64, the page, strict_order; and every address of the window then reaches the page of the given address on that tile |
| `HostNoc.ConfigureNocTlb128G` | blackhole-thing/src/l2cpu_core.hpp:264-290 | The word writes set exactly that window's register: end fields x mod 64 and y mod 64, the page, nothing else; and every address of the window then reaches the page of the given address on that tile |
| `RingBuffer.WriteIsHidden` | x280-net/l2cpu_net.c:92-98 | Whatever is written to the slot at head, the readable contents stay as they are |
| `RingBuffer.PublishAppends` | x280-net/l2cpu_net.c:96-98 | Moving head appends the slot written |
| `RingBuffer.AdvanceRemoves` | x280-net/l2cpu_net.c:132-133 | Moving tail removes the oldest slot and no other |
| `RingBuffer.EmptyOrFull` | x280-net/l2cpu_net.c:84-90 | The index tests mean empty, and one slot short of all used |
| `NetSafety.StepKeeps` | x280-net/l2cpu_net.c:43-140 | Every step of every actor keeps the invariant that ties slots, indices, half-done copies, deliveries and statistics together |
| `NetSafety.NetSafe` | x280-net/l2cpu_net.c:43-140 | That invariant in every state of every interleaving, from the state after probe, through any openings and closings of the interface |
| `NetSafety.NoSlotShared` | x280-net/l2cpu_net.c:84-98 | In every run and at every next step, in both directions: at most 649 packets are sent and not given back, each is in a readable slot that carries it, and the step changes none of these slots, nor any other but the free one at head |
| `NetSafety.DeliveredInOrder` | blackhole-thing/x280-net.cpp:183-210 | Packets received are a prefix of those the host enqueued, packets written to TAP a prefix of those sent without the empty ones, and both are exactly as long as the slots given back say |
| `NetSafety.LengthsAgree` | x280-net/l2cpu_net.c:115-134 | The repeated reads of pkt->len within one iteration agree, and what is copied so far is a prefix of the packet |
| `NetSafety.Conserved` | x280-net/l2cpu_net.c:77-104 | Every packet offered is enqueued, dropped or refused; the counters equal what was consumed plus what the ring holds, up to the step between index and counter; tx_bytes and rx_bytes are the sums of the lengths counted |
| `NetWakeup.AwakeOrGaveUp` | x280-net/l2cpu_net.c:43-57 | After an opening that finds the ring empty or a wakeup to come, and until the interface is stopped, a non-empty ring is attended to or the last poll left its loop early |
| `NetWakeup.NoLostWakeup` | x280-net/l2cpu_net.c:107-148 | After such an opening, if allocation succeeds and no empty packet has been enqueued, a non-empty ring always has the host about to ring, the doorbell or handler pending, or NAPI scheduled |
| `NetWakeup.OpeningDecides` | x280-net/l2cpu_net.c:142-148 | Every run after an opening stays so if and only if the opening found the ring empty, the host about to ring, or the interrupt due |
| `NetWakeup.NeverGivesUp` | x280-net/l2cpu_net.c:115-124 | Under the same conditions poll never leaves its loop by break |
| `NetWakeup.BadLengthUnreachable` | x280-net/l2cpu_net.c:118-119 | If TAP never yields an empty packet, every length poll looks at is between 1 and 1514 |
| `NetStalls.EmptyPacketBlocks` | x280-net/l2cpu_net.c:118-119 | Once an empty packet is at the front nothing is ever received again |
| `NetStalls.EmptyPacketArrives` | blackhole-thing/x280-net.cpp:185-197 | From the state after probe, one read of no bytes from TAP leads to that blocked state |
| `NetStalls.AllocFailureStalls` | x280-net/l2cpu_net.c:121-137 | After a failed allocation the packets are left with nothing scheduled if and only if the host is not about to ring, no interrupt is due and none came in during the poll |
| `NetStalls.AllocFailureOnFullRing` | x280-net/l2cpu_net.c:121-137 | If moreover the ring is full, the state is one that lasts |
| `NetStalls.StalledForever` | blackhole-thing/x280-net.cpp:191-198 | With the ring full, nothing scheduled, no interrupt due and the host not past its test for room, nothing is ever received again unless another device shares the interrupt |
| `NetStalls.WakesExactly` | blackhole-thing/x280-net.cpp:191-198 | Unattended packets on an open interface can come to be polled, without other devices, if and only if the ring has room for one more packet |
| `NetStalls.AllocFailureArrives` | x280-net/l2cpu_net.c:121-137 | From the state after probe, an opening, one packet and one failed allocation leave the packet unattended |
| `NetStalls.OpenedTooLate` | x280-net/l2cpu_net.c:142-148 | From the state after probe, 649 packets that arrive before the opening lead to a full ring that waits for good on an open interface |
| `NetDelivery.GotHolds` | x280-net/l2cpu_net.c:118-128 | In every run no empty packet is received, so nothing behind one is |
| `NetWakeup.HandlerSchedules` | x280-net/l2cpu_net.c:43-57 | While the interface is up, a pending interrupt leads to NAPI being scheduled, or marked missed if it already was; a whole pass clears the doorbell and wakes the transmit queue |
| `NetWakeup.LinkExactly` | x280-net/l2cpu_net.c:142-156 | Opening starts the queue, stopping stops it and ends when no poll is scheduled, and neither touches rings or doorbell |
| `NetDelivery.DeliverableExactly` | x280-net/l2cpu_net.c:107-140 | In every reachable state with the interface up, whatever allocations failed before: handler and poll by themselves deliver every packet enqueued if and only if none is empty and the ring is empty, an interrupt is due, or poll is scheduled and not about to complete for good |
| `NetDelivery.EverythingDelivered` | x280-net/l2cpu_net.c:107-140 | After an opening that finds the ring empty or a wakeup to come, with successful allocations and whatever TAP yields, from every state outside publish-to-doorbell: they deliver everything enqueued if and only if no packet of it is empty |
| `NetDelivery.ReceivedMeanwhile` | x280-net/l2cpu_net.c:107-140 | Amid any further steps of host, xmit and interrupts: once the handler has had five steps and then poll as many as 650 packets may take, every packet that was in the ring has been received |
| `NetDevice.PacketRing.Put` | blackhole-thing/x280-net.cpp:191-197 | The array code publishes the packet, or finds the ring full; it is the single steps of the producer taken together |
| `NetSteps.PollIsItsSteps` | x280-net/l2cpu_net.c:107-140 | The single steps of one call of poll, run to their end, come to the packets, statistics, indices and stopping point that the loop computes |
| `NetSteps.DrainIsItsSteps` | blackhole-thing/x280-net.cpp:202-210 | The same for the host's inner loop |
| `NetSteps.PutIsProducerRun` | x280-net/l2cpu_net.c:84-98 | The producer's single steps, run to their end, publish exactly the packet |
| `NetSteps.XmitIsItsSteps` | x280-net/l2cpu_net.c:71-105 | The single steps of one call of xmit drop a packet over 1514 bytes, or refuse and stop the queue on a full ring, or publish and count |
| `NetSteps.LengthTest` | x280-net/l2cpu_net.c:118-119 | The lengths passed on are 1 to 1514 |
| `NetDevice.X280Net.Xmit` | x280-net/l2cpu_net.c:71-105 | Exactly one of dropped, busy with the queue stopped, or enqueued and counted |
| `NetDevice.X280Net.Poll` | x280-net/l2cpu_net.c:107-140 | How many packets are taken, that they are the oldest in order, the statistics, and when it completes; it is the single steps of poll taken together |
| `NetDevice.X280Net.ReceiveOne` | x280-net/l2cpu_net.c:116-134 | The oldest packet, if its length is good and memory is there, is passed up, counted and removed; otherwise nothing changes |
| `NetDevice.FromTap` | blackhole-thing/x280-net.cpp:183-199 | A packet from TAP is appended and the doorbell rung, or lost on a full ring |
| `NetDevice.ToTap` | blackhole-thing/x280-net.cpp:202-210 | The ring is emptied and every packet of good length written in order; it is the single steps of the inner loop taken together |
| `NetSteps.WrittenIsSent` | blackhole-thing/x280-net.cpp:202-210 | What is written is what was sent, without the empty packets |
| `Console.BumpIsNext` | blackhole-thing/console.cpp:50-67 | For all 32-bit values, an index kept reduced and one running freely through wraparound name the same next slot |
| `Console.BumpIs` | blackhole-thing/console.cpp:50-67 | A reduced index is the next one modulo 4096 and below it; a free-running one wraps at 2^32 |
| `Console.TestsExact` | blackhole-thing/console.cpp:33-48 | can_push means fewer than 4095 characters are queued, can_pop that there is one |
| `Console.PushAppends` | blackhole-thing/console.cpp:50-57 | The character shows when the index moves and not before, and is appended |
| `Console.PopRemoves` | blackhole-thing/console.cpp:59-67 | The oldest character is removed |
| `Console.ConsoleIsFifo` | blackhole-thing/console.cpp:33-67 | A FIFO of capacity 4095 in every interleaving, for every mix of index styles and from any agreeing start |
| `Console.PushGoes` | blackhole-thing/console.cpp:50-57 | Left to itself a push appends its character in three steps if there is room and changes nothing otherwise |
| `Console.PopGoes` | blackhole-thing/console.cpp:59-67 | Left to itself a pop takes the oldest character in three steps if there is one and changes nothing otherwise |
| `Console.SharedQueue.PushChar` | blackhole-thing/console.cpp:50-57 | With a peer that takes characters at any point of the call, the character goes in behind all others and the index stored is reduced; only a peer that takes nothing from a full queue keeps it waiting |
| `Console.SharedQueue.PopChar` | blackhole-thing/console.cpp:59-67 | With a peer that pushes at any point of the call, the oldest character comes out and the index stored is reduced; only a peer that pushes nothing to an empty queue keeps it waiting |
| `BitFields.PackExtract` | blackhole-thing/src/blackhole_pcie.cpp:51-99 | In any struct of bit-fields each field is found at the position its predecessors leave it, truncated to its width |
| `BitFields.PackFields` | blackhole-thing/src/blackhole_pcie.cpp:51-99 | Any integer of the struct's width is the struct of its own fields |
| `HostTlb.RegisterRoundTrip` | blackhole-thing/src/blackhole_pcie.cpp:444-501 | Writing and reading back a 96-bit register is the identity on in-range fields |
| `HostTlb.WordsOfFields` | blackhole-thing/src/blackhole_pcie.cpp:473-501 | Every three words are the register of the fields read from them |
| `HostTlb.YStartStraddles` | blackhole-thing/src/blackhole_pcie.cpp:51-73 | y_start of a 2M register has three bits in the second word and three in the third |
| `HostTlb.RequestFields` | blackhole-thing/src/blackhole_pcie.cpp:270-275 | The register of a request holds its page, x mod 64 and y mod 64, and zero in every other field |
| `HostTlb.WindowReaches` | blackhole-thing/src/blackhole_pcie.cpp:256-287 | Offset a below size() denotes address + a of the requested tile, with no 64-bit overflow |
| `HostTlb.BlockInside` | blackhole-thing/src/blackhole_pcie.cpp:208-228 | Accesses inside the window are accepted, and an accepted one is inside exactly if the sum does not wrap |
| `HostTlb.BlockCheckWraps` | blackhole-thing/src/blackhole_pcie.cpp:208-228 | A wrapping access that is accepted and lies outside |
| `HostAllocator.StepKeeps` | blackhole-thing/src/blackhole_pcie.cpp:256-351 | Each map and destruction keeps free and held indices a partition of the pool and every live window as requested |
| `HostAllocator.Partition` | blackhole-thing/src/blackhole_pcie.cpp:239-247 | After any sequence each of 0..200 and 202..209 is free or held by one window, once in all, and 201 is neither |
| `HostAllocator.LiveDistinct` | blackhole-thing/src/blackhole_pcie.cpp:256-351 | No two live windows share an index and none has 201 |
| `HostAllocator.RangesDisjoint` | blackhole-thing/src/blackhole_pcie.cpp:435-442 | Live windows' BAR ranges are disjoint, inside the BAR and below the configuration registers |
| `HostAllocator.WindowsTranslate` | blackhole-thing/src/blackhole_pcie.cpp:256-351 | In every run every offset of a live window reaches the requested tile at the requested address plus the offset |
| `HostAllocator.WindowExtent` | blackhole-thing/src/blackhole_pcie.cpp:264-287 | In every run a live window starts at its index's page plus the offset of the address, ends with the page, and its register holds the requested page and tile and zeros |
| `HostAllocator.KernelWindowUntouched` | blackhole-thing/src/blackhole_pcie.cpp:34-36 | The register of window 201 is never written |
| `HostAllocator.ThrowsWhenExhausted` | blackhole-thing/src/blackhole_pcie.cpp:256-262 | A map throws exactly when the pool's windows are all in use |
| `HostAllocator.DestroyUndoesMap` | blackhole-thing/src/blackhole_pcie.cpp:278-285 | Destroying a window just mapped restores free lists and windows |
| `HostAllocator.ReusesLast` | blackhole-thing/src/blackhole_pcie.cpp:278-285 | The next map of a pool reuses the index destroyed last |
| `HostAllocator.FreshOrder` | blackhole-thing/src/blackhole_pcie.cpp:239-247 | From a fresh device WC indices are issued upwards from 0, the others downwards from the last |
| `HostDevice.BlackholePciDevice.constructor` | blackhole-thing/src/blackhole_pcie.cpp:230-247 | The free lists hold their pools and no window is live |
| `HostDevice.BlackholePciDevice.MapTlb2MWC` | blackhole-thing/src/blackhole_pcie.cpp:256-287 | The device becomes the specification's; the window returned is the newest live one and is for the given tile and address |
| `HostDevice.BlackholePciDevice.MapTlb2MUC` | blackhole-thing/src/blackhole_pcie.cpp:289-319 | The device becomes the specification's; the window returned is the newest live one and is for the given tile and address |
| `HostDevice.BlackholePciDevice.MapTlb4G` | blackhole-thing/src/blackhole_pcie.cpp:321-351 | The device becomes the specification's; the window returned is the newest live one and is for the given tile and address |
| `HostDevice.BlackholePciDevice.Destroy` | blackhole-thing/src/blackhole_pcie.cpp:278-281 | The release closure gives the captured index back to its pool |
| `HostDevice.BlackholePciDevice.WriteTlbConfig` | blackhole-thing/src/blackhole_pcie.cpp:444-471 | Exactly the three words of one register change |
| `HostDevice.BlackholePciDevice.ReadTlbConfig` | blackhole-thing/src/blackhole_pcie.cpp:473-501 | The fields read are those whose register is there |

## Left out

- NetRings: the four actors are functions on values, because their steps interleave; the code in place, one call at a time, is NetDevice, which has no interrupt handler.
- NetDelivery.ReceivedMeanwhile: counts steps of handler and poll; that the kernel goes on taking them is not modelled.
- NetWakeup: progress of a stopped transmit queue, which only the receive interrupt wakes, is not claimed.
- The timer of X280_POLLING_MODE, which only schedules NAPI more often.
- NocUser: one call at a time, with failing ioctls only where the driver itself refuses; NocClients has failing copies and every interleaving.
- NocUser.NocReadBlock: stands for NOC's other one-shot calls, which differ in the access made.
- NocClients.Translation: the set of tiles that a multicast window reaches is not modelled; the objects' windows are unicast.
- NocGuarantees.KeptAlways: the reserved0 bits of unused 128G registers are not preserved, because the driver does not look at them.
- HostDevice.BlackholePciDevice: the mutex; calls are taken one after another, as it makes them.
- HostTlb.BlockInside: the scalar accessors of TlbWindow, whose check looks only at the start address, are not modelled.
- HostNoc: the X280 address that configure_noc_tlb_2M returns has another base than the driver's windows, so no translation is stated for it.
- Telemetry.InitializeHwmon: promises nothing about addresses when the table pointer is not word aligned.
- Telemetry.HwmonRead: promises no value for a sensor address that is not word aligned.
- BAR mapping, device-info ioctls, DMA pinning, iATU setup, ARC messaging: foreign calls, straight-line register writes or wall-clock polling.
- Terminal, TAP and socket set-up, file loading, benchmarks: input and output only.
- Kernel registration, probe error unwinding, debugfs and hwmon strings, coordinate tables and prefetcher settings: no state worth an invariant.
