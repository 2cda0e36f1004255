# gamerboy core in Dafny

A model of the deterministic core of the gamerboy Game Boy (DMG, LR35902)
emulator, with proofs of what that core promises:

- **Registers** (`registers.dfy`). The one-byte `Register` and its `set_bit`.
  The two-byte `DoubleRegister`, read as a big-endian word or as a high and a
  low byte, with its setters, its flag setter and its wrapping arithmetic
  operators. Both are classes whose methods update their fields in place.
- **Range keys** (`utility.dfy`). The `Mask` key of the dispatch tables and
  its three `<` overloads. The lemmas show how the overloads behave on the
  sixteen nibble-aligned keys the tables use. They also show that
  `addr < key` tests the same predicate as `key < addr`.
- **Memory map** (`memory.dfy`). The read and write dispatch tables, entry
  for entry. The transparent `Mask` comparator's `find` and `count` follow
  the algorithms of the GNU C++ library (libstdc++). `find` is `lower_bound`,
  followed by a check that the key found is not above the address. `count`
  walks forward from `lower_bound` while the key is not above the address.
  On these tables that walk counts exactly the keys equivalent to the
  address, i.e. the keys neither below nor above it. `read_memory`, `read_rom` and the six stub readers are modelled
  too. The main result is `ReadMemory`'s contract: under those algorithms,
  the table dispatch always reaches the handler that the address's 4 KiB
  range is routed to.
- **Cartridge** (`cartridge.dfy`). The header information: the RAM-size
  lookup at offset 0x149 and the version byte at 0x14C. Also the cartridge
  type enumeration and the bounds-checked `read`.
- **CPU front end** (`cpu.dfy`). The register indices and the flag masks.
  The `get_register` operand decoder. The opcode table, which binds 41
  opcodes. The fetch step, which reads the byte at `pc` and advances `pc`
  modulo 2^16.
- **PPU** (`ppu.dfy`). The four video modes and the timing constants with
  their arithmetic relations. The `cycle` switch, which leaves the state as
  it found it.

`results.dfy` holds the `Option` and `Result` wrappers. It also holds the
failure values that stand for the exceptions and undefined reads of the
C++ code.

Register words are `bv16`, so their `+`, `-`, `&` and `|` wrap exactly as
`uint16_t` does. The CPU's `pc` is an integer in `0..0xFFFF`, with its
wrap-around written out as `% 0x10000`.

## Model

| member | source | states |
|---|---|---|
| `Registers.ShiftedOne` | include/registers.h:16-18 | `1 << bit` stored into a byte has exactly bit `bit` set, and no bit when `bit` is 8 or more |
| `Registers.WithBit` | include/registers.h:16-20 | after `set_bit(bit, on)`, bit `bit` equals `on` and every other bit keeps its old value |
| `Registers.WithBitIdempotent` | include/registers.h:16-20 | setting or clearing the same bit twice equals doing it once |
| `Registers.WithBitBeyondByte` | include/registers.h:16-20 | a bit index from 8 to 31 leaves the byte unchanged |
| `Registers.WithFlag` | include/registers.h:45-48 | after `set_flag(flag, on)`, the bits of `flag` all equal `on` and the bits outside `flag` are kept |
| `Registers.WithFlagIdempotent` | include/registers.h:45-48 | applying the same flag update twice equals applying it once |
| `Registers.WithFlagNoOpWhenAlreadyThere` | include/registers.h:45-48 | setting a flag that is already set, or clearing one already clear, changes nothing |
| `Registers.WordValue` | include/registers.h:32-34 | the word built from a high and a low byte is `high * 256 + low` |
| `Registers.Register.constructor` | include/registers.h:10-23 | a default register holds 0 |
| `Registers.Register.FromValue` | include/registers.h:11 | a register built from `v` holds `v` |
| `Registers.Register.SetRegister` | include/registers.h:13 | the register holds the value stored |
| `Registers.Register.GetRegister` | include/registers.h:14 | the getter returns the held value |
| `Registers.Register.SetBit` | include/registers.h:16-20 | the new value is `WithBit` of the old one: only bit `bit` can change, and it becomes `on` |
| `Registers.DoubleRegister.constructor` | include/registers.h:104-105 | both bytes start at 0 |
| `Registers.DoubleRegister.GetWord` | include/registers.h:32-34 | the word's top eight bits are the high byte and its bottom eight bits the low byte |
| `Registers.DoubleRegister.GetUpperRegister` | include/registers.h:35 | the upper register is the word shifted right by 8 |
| `Registers.DoubleRegister.GetLowerRegister` | include/registers.h:36 | the lower register is the word's low byte |
| `Registers.DoubleRegister.SetUpperRegister` | include/registers.h:38 | only the high byte changes, and the word's low byte is kept |
| `Registers.DoubleRegister.SetLowerRegister` | include/registers.h:39 | only the low byte changes, and the word's high byte is kept |
| `Registers.DoubleRegister.SetWord` | include/registers.h:40-43 | reading the word back gives the word stored, and the two halves are its high and low bytes |
| `Registers.DoubleRegister.SetFlag` | include/registers.h:45-48 | the high byte is kept and the low byte becomes `WithFlag` of the old low byte |
| `Registers.DoubleRegister.SetBytes` | include/registers.h:50-53 | the pair holds the two bytes given, and its word is `upper * 256 + lower` |
| `Registers.DoubleRegister.PostIncrement` | include/registers.h:60-64 | the word grows by one modulo 2^16, so 0xFFFF wraps to 0 |
| `Registers.DoubleRegister.PostDecrement` | include/registers.h:66-70 | the word shrinks by one modulo 2^16, so 0 wraps to 0xFFFF |
| `Registers.DoubleRegister.AddAssign` | include/registers.h:72-77 | the new word is the old word plus `value`, modulo 2^16 |
| `Registers.DoubleRegister.SubAssign` | include/registers.h:79-84 | the new word is the old word minus `value`, modulo 2^16 |
| `Registers.DoubleRegister.AndAssign` | include/registers.h:86-91 | the new word is the bitwise and of the old word and `value` |
| `Registers.DoubleRegister.OrAssign` | include/registers.h:93-98 | the new word is the bitwise or of the old word and `value` |
| `Utility.KeyLess` | include/utility.h:20-22 | the key-key overload: `a.value < (a.mask & b.value)`. What it means on the table keys is stated by `KeyLessIsValueOrder` and `NibbleKeyOrder` |
| `Utility.KeyLessAddress` | include/utility.h:24-26 | the key-address overload: `key.value < (key.mask & addr)`. `KeyLessAddressByNibble` states its meaning |
| `Utility.AddressLessKey` | include/utility.h:28-30 | the address-key overload: `key.value < (key.mask & addr)`. `MixedComparisonsCoincide` proves it is the same test as the key-address overload |
| `Utility.KeyBelowAddressIsAlsoAbove` | include/utility.h:24-30 | every table key whose range lies below an address compares both below and above it. This breaks the C++ requirement that `key < addr` rule out `addr < key` in heterogeneous lookup |
| `Utility.KeyLessIsValueOrder` | include/utility.h:20-22 | between nibble-aligned keys, the key comparator is the order of the key values |
| `Utility.KeyLessIrreflexive` | include/utility.h:20-22 | no table key compares below itself |
| `Utility.NibbleKeyOrder` | include/utility.h:20-22 | the sixteen nibble keys are ordered by their index |
| `Utility.KeyLessAddressByNibble` | include/utility.h:24-26 | `key < addr` compares the key with the address's top nibble only |
| `Utility.NibbleKeyLessAddress` | include/utility.h:24-26 | the n-th nibble key is below an address exactly when n is below the address's top nibble |
| `Utility.MixedComparisonsIgnoreLowBits` | include/utility.h:24-30 | the low twelve bits of an address affect neither mixed comparison |
| `Utility.MixedComparisonsCoincide` | include/utility.h:24-30 | `addr < key` and `key < addr` are the same predicate |
| `Utility.AddressLessKeyIsNotMirror` | include/utility.h:28-30 | address 0x1000 compares both above and below key 0x0000, so `addr < key` is not the mirror of `key < addr` |
| `Utility.EquivalentIffAtOrAbove` | include/utility.h:24-30 | a key and an address are equivalent exactly when the key is at or above the address's nibble |
| `MemoryMap.LowerBound` | src/memory.cc:10 | the position found is the first key not below the address: every key before it is below the address |
| `MemoryMap.Find` | src/memory.cc:10 | a handler is found exactly when the key at `lower_bound(addr)` exists and is not above the address. The handler found is that entry's, and the entry is neither below nor above the address |
| `MemoryMap.CountEquivalent` | src/memory.cc:9 | the count of equivalent keys never exceeds the table size |
| `MemoryMap.EqualRangeWalk` | src/memory.cc:9 | the forward walk of `equal_range` takes a step exactly when the key it stands on is not above the address, and never runs past the table |
| `MemoryMap.Count` | src/memory.cc:9 | libstdc++'s `count(addr)`, the walk from `lower_bound`, is positive exactly when `find(addr)` succeeds |
| `MemoryMap.NibbleTableWalkFrom` | src/memory.cc:9 | on a nibble table, a walk that starts at or beyond the address's nibble runs to the end of the table |
| `MemoryMap.NibbleTableLowerBound` | include/memory.h:63-80 | on a nibble table, `lower_bound(addr)` is the address's top nibble |
| `MemoryMap.NibbleTableFind` | src/memory.cc:10 | on a nibble table, `find(addr)` returns the handler of the address's own nibble entry |
| `MemoryMap.NibbleTableExactlyOneMatch` | include/memory.h:63-80 | every address satisfies `addr & mask == value` for exactly one key of the table |
| `MemoryMap.NibbleTableStrictlyOrdered` | include/memory.h:63-80 | the sixteen keys are strictly increasing under the key comparator, as a `std::map` requires |
| `MemoryMap.NibbleTableCountFrom` | src/memory.cc:9 | from position i on, the equivalent keys number 16 minus the larger of i and the nibble |
| `MemoryMap.NibbleTableCount` | src/memory.cc:9 | on a nibble table, libstdc++'s `count(addr)` equals the number of keys equivalent to the address, and both are 16 minus the address's nibble, so never zero |
| `MemoryMap.ReadTable` | include/memory.h:63-80 | the sixteen `{Mask, reader}` entries of `m_read_map`, in key order. `ReadTableIsNibbleTable` and `ReadTableEntryForAddress` state their shape |
| `MemoryMap.WriteTable` | include/memory.h:89-106 | the sixteen `{Mask, writer}` entries of `m_write_map`, in key order. `WriteTableIsNibbleTable` and `WriteTableEntryForAddress` state their shape |
| `MemoryMap.ReadHandlerFor` | include/memory.h:48-61 | the reader each address range is routed to, at 4 KiB granularity. It is the independent reference that `ReadRouting` compares the table with |
| `MemoryMap.WriteHandlerFor` | include/memory.h:48-61 | the writer each address range is routed to, at 4 KiB granularity. It is the reference for `WriteRouting` |
| `MemoryMap.ReadTableIsNibbleTable` | include/memory.h:63-80 | the read table's n-th key covers the addresses whose top nibble is n |
| `MemoryMap.WriteTableIsNibbleTable` | include/memory.h:89-106 | the write table's n-th key covers the addresses whose top nibble is n |
| `MemoryMap.ReadTableEntryForAddress` | include/memory.h:63-80 | the read entry of an address's nibble holds the reader its range is routed to |
| `MemoryMap.WriteTableEntryForAddress` | include/memory.h:89-106 | the write entry of an address's nibble holds the writer its range is routed to |
| `MemoryMap.ReadRouting` | include/memory.h:63-80 | for every address, the read table's `count` is positive and `find` returns the reader its 4 KiB range is routed to |
| `MemoryMap.WriteRouting` | include/memory.h:89-106 | for every address, the write table's `count` is positive and `find` returns the writer its 4 KiB range is routed to |
| `MemoryMap.EchoTailRoutedToHighMemory` | include/memory.h:56-80 | the echo addresses 0xF000-0xFDFF find the high-memory reader and writer, not the work-RAM handlers they mirror |
| `MemoryMap.NewMemory` | include/memory.h:27-33 | a new bus has 0x2000 bytes of work RAM and a clear boot-ROM-disabled latch |
| `MemoryMap.ReadRomByte` | src/memory.cc:18-22 | below 0x100 the byte comes from the boot image, and from the cartridge otherwise. Each read fails exactly when its index is past the image |
| `MemoryMap.ReadStubByte` | src/memory.cc:24-29 | a stub reader returns the address truncated to its low byte |
| `MemoryMap.CallReadHandler` | src/memory.cc:11-12 | calling the member function an entry points to: `read_rom` for `ReadRom`, and the low-byte stub for the other six |
| `MemoryMap.ReadMemory` | src/memory.cc:8-16 | the table dispatch returns what the handler of the address's 4 KiB range returns: libstdc++'s `count` is positive, so the fallback 0 is never reached |
| `MemoryMap.ReadMemoryByRegion` | src/memory.cc:8-22 | a read yields the boot image below 0x100, the cartridge from 0x100 to 0x3FFF, and the low address byte from 0x4000 on |
| `MemoryMap.ReadMemoryIgnoresRamAndLatch` | src/memory.cc:8-29 | reads depend on neither work RAM nor the boot-ROM-disabled latch |
| `MemoryMap.BootRomLastByteUnreadable` | src/memory.cc:18-20 | with the 0xFF-byte boot image the loader builds, reading 0x00FF indexes past the image |
| `MemoryMap.BootOverlayComplete` | src/memory.cc:18-20 | with a 0x100-byte boot image, every address below 0x100 reads its image byte |
| `Cartridges.TypeCode` | include/cartridge.h:14-18 | the three cartridge types have underlying codes below 3 |
| `Cartridges.TypeFromCode` | include/cartridge.h:14-18 | a code names a cartridge type exactly when it is below 3 |
| `Cartridges.TypeCodeRoundTrip` | include/cartridge.h:14-18 | types and codes 0, 1 and 2 correspond one to one, in both directions |
| `Cartridges.ParseInformation` | include/cartridge.h:20-28 | the RAM size is the table entry the byte at 0x149 selects, at most 0x20000, and the version is the byte at 0x14C |
| `Cartridges.ParseReadsOnlyHeaderBytes` | include/cartridge.h:20-28 | two images that agree at 0x149 and 0x14C parse to the same information |
| `Cartridges.RamSizeDeterminesCode` | include/cartridge.h:12-13 | the RAM-size table has no repeats, so the parsed size determines the code |
| `Cartridges.NewCartridge` | include/cartridge.h:40-41 | a cartridge keeps the image and carries the information parsed from it |
| `Cartridges.Read` | src/cartridge.cc:5-7 | the read succeeds exactly when the address is inside the image, and returns the byte there. Otherwise it fails with the out-of-range fault |
| `Cpu.RegisterIndex` | include/cpu.h:13-21 | each register name's index is below the register count 5 |
| `Cpu.RegisterAt` | include/cpu.h:15-21 | each index below 5 names the register whose index it is |
| `Cpu.FlagMasksAreDistinctHighBits` | include/cpu.h:23-28 | each flag is a single bit of the high nibble, no two share a bit, and together they fill it |
| `Cpu.GetRegister` | include/cpu.h:38 | the result is the opcode's upper nibble plus one, between 1 and 16 |
| `Cpu.GetRegisterSelectsPair` | include/cpu.h:38 | for opcodes below 0x40, the result indexes BC, DE, HL or SP as the opcode's bits 5-4 select |
| `Cpu.GetRegisterBeyondRegisters` | include/cpu.h:38-43 | from opcode 0x40 on, the result is 5 or more and falls past the five registers |
| `Cpu.OpcodeHandler` | include/cpu.h:94-137 | the handler bound to each opcode, one arm per table entry, and none for every other opcode. Its shape is stated by the binding lemmas below |
| `Cpu.OpcodeMap` | include/cpu.h:94-137 | `opcode_map` as a finite map from opcode to handler, built from `OpcodeHandler` |
| `Cpu.LoadPairBindings` | include/cpu.h:94-137 | `op_ld_rr_d16` is bound at exactly 0x01, 0x11, 0x21 and 0x31 |
| `Cpu.IncrementPairBindings` | include/cpu.h:94-137 | `op_inc_rr` is bound at exactly 0x03, 0x13, 0x23 and 0x33 |
| `Cpu.DecrementPairBindings` | include/cpu.h:94-137 | `op_dec_rr` is bound at exactly 0x0B, 0x1B, 0x2B and 0x3B |
| `Cpu.PairInstructionsDecodeTheirPair` | include/cpu.h:94-137 | every opcode of a 16-bit pair instruction decodes through `get_register` to the pair its bits 5-4 name |
| `Cpu.BoundOpcodesListed` | include/cpu.h:94-137 | every bound opcode is among the listed keys |
| `Cpu.ListedOpcodesBound` | include/cpu.h:94-137 | every listed key is bound |
| `Cpu.OpcodeMapKeys` | include/cpu.h:94-137 | the table's key set is the listed opcodes |
| `Cpu.BoundOpcodesIncreasing` | include/cpu.h:94-137 | the keys are listed in strictly increasing order |
| `Cpu.OpcodeMapSize` | include/cpu.h:94-137 | the table binds exactly 41 opcodes |
| `Cpu.BoundOpcodesInFirstQuarter` | include/cpu.h:94-137 | every bound opcode except 0x78 and 0xE0 lies in 0x00-0x3F |
| `Cpu.UnboundOpcodes` | include/cpu.h:104 | 0x09 (commented out), 0x10, 0x15 and 0x18 are unbound, and `op_add_hl_rr` is bound nowhere |
| `Cpu.NextPc` | include/cpu.h:40 | the post-increment of the 16-bit `pc` adds one, and 0xFFFF wraps to 0 |
| `Cpu.PcAfter` | src/cpu.cc:9-17 | `pc` after n successive `cycle` calls, each applying `NextPc`. `PcAfterIsModular` states its value |
| `Cpu.PcAfterIsModular` | src/cpu.cc:9-17 | n fetches advance `pc` by n modulo 65536 |
| `Cpu.CPU.constructor` | src/cpu.cc:5-7 | a new CPU starts with `pc` at 0 and the five registers at zero |
| `Cpu.CPU.CycleRead` | src/cpu.cc:14-17 | the result is what the bus reads at the old `pc`, and `pc` advances by one modulo 2^16 |
| `Cpu.CPU.Cycle` | src/cpu.cc:9-12 | one cycle fetches the byte at the old `pc` and changes nothing but `pc`, which advances by one |
| `Ppu.ModeNumber` | include/ppu.h:9-25 | HBLANK, VBLANK, ACCESS_OAM and ACCESS_VRAM are modes 0, 1, 2 and 3 |
| `Ppu.ModeFromNumber` | include/ppu.h:9-25 | a number names a mode exactly when it is below 4 |
| `Ppu.ModeNumberRoundTrip` | include/ppu.h:9-25 | numbering a mode and reading the number back gives the same mode |
| `Ppu.ModeFromNumberRoundTrip` | include/ppu.h:9-25 | each number below 4 names a mode that numbers back to it |
| `Ppu.ModeNumberInjective` | include/ppu.h:9-25 | distinct modes have distinct numbers, so there are exactly four |
| `Ppu.LineIsOamVramHBlank` | include/ppu.h:28-33 | OAM search, VRAM transfer and horizontal blank together last one line: 80 + 172 + 204 = 456 |
| `Ppu.VBlankIsTenLines` | include/ppu.h:29-33 | vertical blank lasts ten lines |
| `Ppu.FrameIsVisibleLinesPlusVBlank` | include/ppu.h:33-34 | a frame is 154 lines: 144 visible lines followed by vertical blank |
| `Ppu.FrameNeedsWiderType` | include/ppu.h:34 | the frame length does not fit in 16 bits, hence its 32-bit type |
| `Ppu.InitialState` | include/ppu.h:44-45 | the state a new PPU holds: cycle 0, mode ACCESS_OAM |
| `Ppu.Step` | src/ppu.cc:9-24 | a `cycle` call keeps both the mode and the cycle counter, whatever the mode, and the switch needs no default arm |
| `Ppu.StepIgnoresCycles` | src/ppu.cc:9-24 | the result of `cycle` does not depend on the number of cycles passed |
| `Ppu.Run` | src/ppu.cc:9-24 | a sequence of `cycle` calls applied in order. `RunLeavesStateUnchanged` states its result |
| `Ppu.RunLeavesStateUnchanged` | src/ppu.cc:9-24 | any sequence of `cycle` calls leaves the state where it started |
| `Ppu.RunFromInitial` | include/ppu.h:44-45 | a fresh PPU stays at cycle 0 in ACCESS_OAM through any sequence of `cycle` calls |
| `Ppu.PPU.State` | include/ppu.h:44-45 | the two fields of the PPU as one state value |
| `Ppu.PPU.constructor` | include/ppu.h:44-45 | a new PPU is at cycle 0 in ACCESS_OAM |
| `Ppu.PPU.Cycle` | src/ppu.cc:9-24 | the mode switch leaves the cycle counter and the mode unchanged |

## Left out

- SDL windows, textures and the event loop are left out. So are the ROM
  and boot-ROM file loaders and the `driver`. They are I/O. The boot
  image and the ROM image enter the model as parameters.
- `utility::error` is left out. It prints and exits the process. The only
  `error` on a modelled path is the default arm of the PPU switch, which
  is unreachable (`Ppu.Step` and `Ppu.PPU.Cycle` match on all four modes).
- `Gameboy::run` is left out. It adds the result of `CPU::cycle`, which
  returns `void`, so there is no faithful value to model.
- The object wiring (`Gameboy`, and the references between CPU, Memory,
  PPU and cartridge) is left out. It is composition only. The CPU holds
  its bus as a value and only reads it, so aliasing is not modelled.
- The instruction handler bodies are left out; only the opcode table's
  bindings are modelled.
- Writes are left out: `write_memory`, the write handlers, the boot-ROM
  latch write at 0xFF50, `NoMbc::read`/`write` and MBC banking. Only the
  write table and its routing (`MemoryMap.WriteRouting`) are modelled.
- `DoubleRegister::operator=` and `operator uint16_t` are left out. They
  are aliases of `set_word` and `get_word`, which are modelled by `SetWord`
  and `GetWord`.
- The `find` and `count` of the transparent `Mask` comparator follow the
  algorithms of the GNU C++ library (libstdc++). `find` is `lower_bound`
  followed by rejecting the key when `addr < key`. `count` walks forward
  from `lower_bound` while `addr < key` is false. The C++ standard
  guarantees neither result here. Heterogeneous lookup requires that
  `key < addr` rule out `addr < key`, and the `Mask` overloads break this
  for every address from 0x1000 up (`Utility.KeyBelowAddressIsAlsoAbove`).
  A library that searches the tree differently, testing `addr < key` first,
  could report `count(addr) == 0` there, and `read_memory` would then return
  0. The model does not cover such libraries.
- `ReadRomByte` sends every read from 0x100 up to the body of
  `Cartridge::read` (src/cartridge.cc:5-7). The bus in the headers holds a
  `NoMbc &` (include/memory.h:25), and `NoMbc::read` has no body in the
  source. So on this path the model follows the revision whose bus holds a
  `Cartridge &` (src/memory.cc:4): `Cartridge::read`'s body stands in for
  the missing `NoMbc::read`.
- `Registers.DoubleRegister.PostIncrement` and
  `Registers.DoubleRegister.PostDecrement` do not return a value. The
  source's `operator++(int)` and `operator--(int)` return `*this`, the
  already updated pair, so `rr++` evaluates to the new word, unlike a usual
  postfix operator. The compound assignments also return `*this`. The
  model keeps only the update.
- The source's revisions disagree in places. Apart from the cartridge
  read above, the model follows the headers: addresses are 16 bits, although the `read_memory` definition
  takes a `uint8_t`. `cycle_read` takes no address parameter, as in its
  definition: it reads `pc`.
- `Cpu.CPU.Cycle` returns the fetched byte, where the source discards it.
  This keeps a failing read visible. `pc` is the only state it changes.
- `m_interrupt_enable` is never initialised in the source, so the CPU
  constructor says nothing about it. `m_registers` is modelled as five
  bytes rather than five `Register` objects.
- `read_rom` never consults `m_boot_rom_disabled`: the boot image overlays
  0x0000-0x00FF for as long as the bus exists. `MemoryMap.ReadMemoryIgnoresRamAndLatch`
  states this.
- `Cartridges.ParseInformation` requires the header to be readable: the
  image must reach 0x14C and the RAM-size code must index the table. The
  source indexes without a check, and an out-of-range index is undefined
  behaviour there. The bounds-checked `Cartridge::read` is modelled with
  its failure case instead.
- An out-of-range `std::vector::at` (cartridge) and an out-of-bounds boot
  image index are modelled as `Err` values of `Results.Fault`, not as
  exceptions or memory reads.
- `MemoryMap.CountEquivalent` says only that the count is bounded by the
  table size. Its value on the actual tables, 16 minus the address's top
  nibble, is stated by `MemoryMap.NibbleTableCount`, together with its
  agreement with libstdc++'s walk (`MemoryMap.Count`). That is more keys
  than the single one a reader of the table would expect, but
  `read_memory` only tests the count for being positive.
- `MemoryMap.ReadHandlerFor` and `MemoryMap.WriteHandlerFor` give the
  handler of each 4 KiB range, as the tables route it. They are not the
  regions of the memory-map comment. The 0xF nibble sends the echo
  addresses 0xF000-0xFDFF, which the comment calls a mirror of
  0xD000-0xDDFF, to the high-memory handlers
  (`MemoryMap.EchoTailRoutedToHighMemory`). Echo aliasing for that range is
  therefore not captured. On reads the difference does not show, because
  every handler involved is a stub that returns the address's low byte.
- `Registers.ShiftedOne` and `Registers.Register.SetBit` require `bit < 32`.
  A larger shift of an `int` is undefined behaviour in the source.

## Findings

| source | as written | input that shows it | evidently intended | confidence | as-written member | corrected member |
|---|---|---|---|---|---|---|
| include/utility.h:45-63 with src/memory.cc:18-20 | the boot image is a `std::array<uint8_t, 0xFF>`, but `read_rom` indexes it for every address below 0x100 | `read_memory(0x00FF)` indexes byte 0xFF of a 0xFF-byte image, one past its end. The DMG boot program's last instruction sits there, in the write to 0xFF50 that unmaps the boot ROM | a 0x100-byte (256-byte) boot image covering the whole overlay | not executed | `MemoryMap.BootRomLastByteUnreadable` | `MemoryMap.BootOverlayComplete` |
