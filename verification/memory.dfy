/** The address bus: the two range-keyed dispatch tables, the lookup a
    `std::map` with the `Mask` comparator performs on them, and the readers. */
module MemoryMap {
  import opened Results
  import opened Utility
  import Cartridges

  /** One `{Mask, handler}` pair of a dispatch table, in key order. */
  datatype Entry<H> = Entry(key: Mask, handler: H)

  /** `lower_bound(addr)`: the position of the first key that is not below `addr`
      (every key before it is below `addr`). */
  function LowerBound<H>(t: seq<Entry<H>>, addr: bv16): (i: nat)
    ensures i <= |t|
    ensures forall j :: 0 <= j < i ==> KeyLessAddress(t[j].key, addr)
    ensures i < |t| ==> !KeyLessAddress(t[i].key, addr)
  {
    if |t| == 0 || !KeyLessAddress(t[0].key, addr) then 0
    else 1 + LowerBound(t[1..], addr)
  }

  /** `find(addr)`: the handler at `lower_bound(addr)`, unless that key is above `addr`. */
  function Find<H>(t: seq<Entry<H>>, addr: bv16): (r: Option<H>)
    ensures r.Some? <==> LowerBound(t, addr) < |t| && !AddressLessKey(addr, t[LowerBound(t, addr)].key)
    ensures r.Some? ==> r.value == t[LowerBound(t, addr)].handler
    ensures r.Some? ==> exists j :: 0 <= j < |t| && t[j].handler == r.value && !KeyLessAddress(t[j].key, addr) && !AddressLessKey(addr, t[j].key)
  {
    var i := LowerBound(t, addr);
    if i < |t| && !AddressLessKey(addr, t[i].key) then Some(t[i].handler) else None
  }

  /** `count(addr)`: the number of keys equivalent to `addr`, i.e. neither below nor above it. */
  function CountEquivalent<H>(t: seq<Entry<H>>, addr: bv16): (n: nat)
    ensures n <= |t|
  {
    if |t| == 0 then 0
    else (if !KeyLessAddress(t[0].key, addr) && !AddressLessKey(addr, t[0].key) then 1 else 0)
         + CountEquivalent(t[1..], addr)
  }

  /** The walk of libstdc++'s `equal_range`: from position `i`, step forward while
      `addr < key` is false, and return the number of steps taken. */
  function EqualRangeWalk<H>(t: seq<Entry<H>>, addr: bv16, i: nat): (n: nat)
    requires i <= |t|
    ensures n <= |t| - i
    ensures n > 0 <==> i < |t| && !AddressLessKey(addr, t[i].key)
    decreases |t| - i
  {
    if i < |t| && !AddressLessKey(addr, t[i].key) then 1 + EqualRangeWalk(t, addr, i + 1) else 0
  }

  /** `count(addr)` as libstdc++ computes it: the length of the walk that starts
      at `lower_bound(addr)`. It is positive exactly when `find(addr)` succeeds. */
  function Count<H>(t: seq<Entry<H>>, addr: bv16): (n: nat)
    ensures n <= |t| - LowerBound(t, addr)
    ensures n > 0 <==> Find(t, addr).Some?
  {
    EqualRangeWalk(t, addr, LowerBound(t, addr))
  }

  /** A table of sixteen entries whose n-th key covers the addresses with top nibble n. */
  ghost predicate NibbleTable<H>(t: seq<Entry<H>>)
  {
    |t| == 16 && forall n :: 0 <= n < 16 ==> t[n].key == NibbleKey(n)
  }

  /** On a nibble table, `lower_bound` stops exactly at the address's nibble. */
  lemma NibbleTableLowerBound<H>(t: seq<Entry<H>>, addr: bv16)
    requires NibbleTable(t)
    ensures LowerBound(t, addr) == Nibble(addr)
  {
    var i, n := LowerBound(t, addr), Nibble(addr);
    if i < n {
      NibbleKeyLessAddress(i, addr);
    } else if i > n {
      NibbleKeyLessAddress(n, addr);
    }
  }

  /** On a nibble table, `find` returns the handler of the address's own nibble key. */
  lemma NibbleTableFind<H>(t: seq<Entry<H>>, addr: bv16)
    requires NibbleTable(t)
    ensures Find(t, addr) == Some(t[Nibble(addr)].handler)
  {
    NibbleTableLowerBound(t, addr);
    EquivalentIffAtOrAbove(t[Nibble(addr)].key, addr);
  }

  /** Every address matches (`addr & mask == value`) exactly one key of a nibble table. */
  lemma NibbleTableExactlyOneMatch<H>(t: seq<Entry<H>>, addr: bv16)
    requires NibbleTable(t)
    ensures forall n :: 0 <= n < 16 ==> (t[n].key.value == t[n].key.mask & addr <==> n == Nibble(addr))
  {
    forall n | 0 <= n < 16
      ensures t[n].key.value == t[n].key.mask & addr <==> n == Nibble(addr)
    {
      assert t[n].key == NibbleKey(n);
    }
  }

  /** The keys of a nibble table are strictly increasing under the key comparator. */
  lemma NibbleTableStrictlyOrdered<H>(t: seq<Entry<H>>)
    requires NibbleTable(t)
    ensures forall i, j :: 0 <= i < j < 16 ==> KeyLess(t[i].key, t[j].key) && !KeyLess(t[j].key, t[i].key)
  {
    forall i, j | 0 <= i < j < 16
      ensures KeyLess(t[i].key, t[j].key) && !KeyLess(t[j].key, t[i].key)
    {
      NibbleKeyOrder(i, j);
      NibbleKeyOrder(j, i);
    }
  }

  /** Counting the keys equivalent to `addr` from position `i` on in a nibble table. */
  lemma {:induction false} NibbleTableCountFrom<H>(t: seq<Entry<H>>, addr: bv16, i: nat)
    requires NibbleTable(t) && i <= 16
    ensures CountEquivalent(t[i..], addr) == 16 - (if i < Nibble(addr) then Nibble(addr) else i)
    decreases 16 - i
  {
    if i < 16 {
      assert t[i..][1..] == t[i + 1..];
      NibbleTableCountFrom(t, addr, i + 1);
      assert t[i].key == NibbleKey(i);
      EquivalentIffAtOrAbove(t[i].key, addr);
      NibbleKeyLessAddress(i, addr);
    }
  }

  /** On a nibble table, a walk that starts at or beyond the address's nibble
      runs to the end of the table. */
  lemma {:induction false} NibbleTableWalkFrom<H>(t: seq<Entry<H>>, addr: bv16, i: nat)
    requires NibbleTable(t) && Nibble(addr) <= i <= 16
    ensures EqualRangeWalk(t, addr, i) == 16 - i
    decreases 16 - i
  {
    if i < 16 {
      assert t[i].key == NibbleKey(i);
      NibbleKeyLessAddress(i, addr);
      MixedComparisonsCoincide(t[i].key, addr);
      NibbleTableWalkFrom(t, addr, i + 1);
    }
  }

  /** On a nibble table, libstdc++'s `count(addr)` and the number of keys
      equivalent to `addr` are both 16 minus the address's nibble, so neither
      is ever zero. */
  lemma NibbleTableCount<H>(t: seq<Entry<H>>, addr: bv16)
    requires NibbleTable(t)
    ensures CountEquivalent(t, addr) == 16 - Nibble(addr) >= 1
    ensures Count(t, addr) == CountEquivalent(t, addr)
  {
    NibbleTableCountFrom(t, addr, 0);
    assert t[0..] == t;
    NibbleTableLowerBound(t, addr);
    NibbleTableWalkFrom(t, addr, Nibble(addr));
  }

  datatype ReadHandler =
    | ReadRom | ReadMbcRom | ReadVram | ReadMbcRam | ReadRam | ReadBankedRam | ReadHighMemory

  datatype WriteHandler =
    | WriteMbc | WriteVram | WriteMbcRam | WriteRam | WriteBankedRam | WriteHighMemory

  /** `m_read_map`, entry for entry. */
  const ReadTable: seq<Entry<ReadHandler>> := [
    Entry(Mask(0x0000, 0xF000), ReadRom),
    Entry(Mask(0x1000, 0xF000), ReadRom),
    Entry(Mask(0x2000, 0xF000), ReadRom),
    Entry(Mask(0x3000, 0xF000), ReadRom),
    Entry(Mask(0x4000, 0xF000), ReadMbcRom),
    Entry(Mask(0x5000, 0xF000), ReadMbcRom),
    Entry(Mask(0x6000, 0xF000), ReadMbcRom),
    Entry(Mask(0x7000, 0xF000), ReadMbcRom),
    Entry(Mask(0x8000, 0xF000), ReadVram),
    Entry(Mask(0x9000, 0xF000), ReadVram),
    Entry(Mask(0xA000, 0xF000), ReadMbcRam),
    Entry(Mask(0xB000, 0xF000), ReadMbcRam),
    Entry(Mask(0xC000, 0xF000), ReadRam),
    Entry(Mask(0xD000, 0xF000), ReadBankedRam),
    Entry(Mask(0xE000, 0xF000), ReadRam),
    Entry(Mask(0xF000, 0xF000), ReadHighMemory)
  ]

  /** `m_write_map`, entry for entry. */
  const WriteTable: seq<Entry<WriteHandler>> := [
    Entry(Mask(0x0000, 0xF000), WriteMbc),
    Entry(Mask(0x1000, 0xF000), WriteMbc),
    Entry(Mask(0x2000, 0xF000), WriteMbc),
    Entry(Mask(0x3000, 0xF000), WriteMbc),
    Entry(Mask(0x4000, 0xF000), WriteMbc),
    Entry(Mask(0x5000, 0xF000), WriteMbc),
    Entry(Mask(0x6000, 0xF000), WriteMbc),
    Entry(Mask(0x7000, 0xF000), WriteMbc),
    Entry(Mask(0x8000, 0xF000), WriteVram),
    Entry(Mask(0x9000, 0xF000), WriteVram),
    Entry(Mask(0xA000, 0xF000), WriteMbcRam),
    Entry(Mask(0xB000, 0xF000), WriteMbcRam),
    Entry(Mask(0xC000, 0xF000), WriteRam),
    Entry(Mask(0xD000, 0xF000), WriteBankedRam),
    Entry(Mask(0xE000, 0xF000), WriteRam),
    Entry(Mask(0xF000, 0xF000), WriteHighMemory)
  ]

  /** The read handler each address range is routed to, at 4 KiB granularity
      (the whole 0xF nibble, echo addresses included, goes to high memory). */
  function ReadHandlerFor(addr: bv16): ReadHandler
  {
    if addr <= 0x3FFF then ReadRom
    else if addr <= 0x7FFF then ReadMbcRom
    else if addr <= 0x9FFF then ReadVram
    else if addr <= 0xBFFF then ReadMbcRam
    else if addr <= 0xCFFF then ReadRam
    else if addr <= 0xDFFF then ReadBankedRam
    else if addr <= 0xEFFF then ReadRam
    else ReadHighMemory
  }

  /** The write handler each address range is routed to, at 4 KiB granularity
      (the whole 0xF nibble, echo addresses included, goes to high memory). */
  function WriteHandlerFor(addr: bv16): WriteHandler
  {
    if addr <= 0x7FFF then WriteMbc
    else if addr <= 0x9FFF then WriteVram
    else if addr <= 0xBFFF then WriteMbcRam
    else if addr <= 0xCFFF then WriteRam
    else if addr <= 0xDFFF then WriteBankedRam
    else if addr <= 0xEFFF then WriteRam
    else WriteHighMemory
  }

  /** A sixteen-entry table whose keys are the nibble bases under mask 0xF000 is a nibble table. */
  lemma NibbleBasesMakeNibbleTable<H>(t: seq<Entry<H>>)
    requires |t| == 16
    requires forall n :: 0 <= n < 16 ==> t[n].key == Mask(NibbleBases[n], 0xF000)
    ensures NibbleTable(t)
  {
    forall n | 0 <= n < 16 ensures t[n].key == NibbleKey(n) {
      NibbleKeyBase(n);
    }
  }

  lemma ReadTableIsNibbleTable()
    ensures NibbleTable(ReadTable)
  {
    NibbleBasesMakeNibbleTable(ReadTable);
  }

  lemma WriteTableIsNibbleTable()
    ensures NibbleTable(WriteTable)
  {
    NibbleBasesMakeNibbleTable(WriteTable);
  }

  /** The entry of the address's nibble carries the handler its range is routed to. */
  lemma ReadTableEntryForAddress(addr: bv16)
    ensures ReadTable[Nibble(addr)].handler == ReadHandlerFor(addr)
  {
    var n := Nibble(addr);
    if n < 4 {} else if n < 8 {} else if n < 10 {} else if n < 12 {}
    else if n == 12 {} else if n == 13 {} else if n == 14 {} else {}
  }

  lemma WriteTableEntryForAddress(addr: bv16)
    ensures WriteTable[Nibble(addr)].handler == WriteHandlerFor(addr)
  {
    var n := Nibble(addr);
    if n < 8 {} else if n < 10 {} else if n < 12 {}
    else if n == 12 {} else if n == 13 {} else if n == 14 {} else {}
  }

  /** Every address finds exactly the read handler its range is routed to. */
  lemma ReadRouting(addr: bv16)
    ensures Find(ReadTable, addr) == Some(ReadHandlerFor(addr))
    ensures CountEquivalent(ReadTable, addr) >= 1
    ensures Count(ReadTable, addr) >= 1
  {
    ReadTableIsNibbleTable();
    NibbleTableFind(ReadTable, addr);
    ReadTableEntryForAddress(addr);
    NibbleTableCount(ReadTable, addr);
  }

  /** Every address finds exactly the write handler its range is routed to. */
  lemma WriteRouting(addr: bv16)
    ensures Find(WriteTable, addr) == Some(WriteHandlerFor(addr))
    ensures CountEquivalent(WriteTable, addr) >= 1
    ensures Count(WriteTable, addr) >= 1
  {
    WriteTableIsNibbleTable();
    NibbleTableFind(WriteTable, addr);
    WriteTableEntryForAddress(addr);
    NibbleTableCount(WriteTable, addr);
  }

  /** The echo addresses 0xF000-0xFDFF share the 0xF nibble with high memory,
      so both tables send them to the high-memory handlers rather than to the
      work RAM they mirror. */
  lemma EchoTailRoutedToHighMemory(addr: bv16)
    requires 0xF000 <= addr <= 0xFDFF
    ensures Find(ReadTable, addr) == Some(ReadHighMemory)
    ensures Find(WriteTable, addr) == Some(WriteHighMemory)
  {
    ReadRouting(addr);
    WriteRouting(addr);
  }

  /** Work RAM is 8 KiB. */
  const RamSize := 0x2000

  /** Addresses below this are overlaid by the boot ROM. */
  const BootOverlayEnd: bv16 := 0x100

  /** The boot image a DMG boot ROM needs to fill the whole overlay. */
  const BootRomSize := 0x100

  /** The size of the array the boot-ROM loader actually builds. */
  const BootRomSizeAsWritten := 0xFF

  /** The bus state: the cartridge it reads through, work RAM, the boot image
      and the boot-ROM-disabled latch. */
  datatype Memory = Memory(cartridge: Cartridges.Cartridge, ram: seq<bv8>, bootRom: seq<bv8>, bootRomDisabled: bool)

  /** A bus as constructed: work RAM of `RamSize` bytes with whatever contents
      it powers up with, the image the loader produced, and the latch clear. */
  function NewMemory(cartridge: Cartridges.Cartridge, ram: seq<bv8>, bootRom: seq<bv8>): (m: Memory)
    requires |ram| == RamSize
    ensures |m.ram| == 0x2000 && !m.bootRomDisabled
    ensures m.cartridge == cartridge && m.bootRom == bootRom
  {
    Memory(cartridge, ram, bootRom, false)
  }

  /** `read_rom`: the boot image below 0x100 (whatever the latch says),
      the cartridge from 0x100 on. */
  function ReadRomByte(m: Memory, addr: bv16): (r: Result<bv8, Fault>)
    ensures addr < BootOverlayEnd ==> (r.Ok? <==> addr as int < |m.bootRom|)
    ensures addr < BootOverlayEnd && r.Ok? ==> r.value == m.bootRom[addr]
    ensures addr >= BootOverlayEnd ==> (r.Ok? <==> addr as int < |m.cartridge.rom|)
    ensures addr >= BootOverlayEnd && r.Ok? ==> r.value == m.cartridge.rom[addr]
  {
    if addr < BootOverlayEnd then
      if addr as int < |m.bootRom| then Ok(m.bootRom[addr]) else Err(BootRomIndexOutOfRange(addr))
    else
      Cartridges.Read(m.cartridge, addr)
  }

  /** `read_ram`, `read_vram`, `read_mbc_rom`, `read_mbc_ram`, `read_high_memory`
      and `read_banked_ram` all return the address truncated to its low byte. */
  function ReadStubByte(addr: bv16): (b: bv8)
    ensures b as bv16 == addr & 0xFF
  {
    (addr & 0xFF) as bv8
  }

  /** Calling the member function a table entry points to. */
  function CallReadHandler(m: Memory, h: ReadHandler, addr: bv16): Result<bv8, Fault>
  {
    match h
    case ReadRom => ReadRomByte(m, addr)
    case ReadMbcRom => Ok(ReadStubByte(addr))
    case ReadVram => Ok(ReadStubByte(addr))
    case ReadMbcRam => Ok(ReadStubByte(addr))
    case ReadRam => Ok(ReadStubByte(addr))
    case ReadBankedRam => Ok(ReadStubByte(addr))
    case ReadHighMemory => Ok(ReadStubByte(addr))
  }

  /** `read_memory`: when `count(addr)` is positive, call the handler `find(addr)`
      locates; otherwise 0. The count is never zero (`ReadRouting`), so every
      read goes to the handler its range is routed to. */
  function ReadMemory(m: Memory, addr: bv16): (r: Result<bv8, Fault>)
    ensures r == CallReadHandler(m, ReadHandlerFor(addr), addr)
  {
    ReadRouting(addr);
    if Count(ReadTable, addr) > 0 then
      CallReadHandler(m, Find(ReadTable, addr).value, addr)
    else
      assert false; Ok(0)
  }

  /** What a read returns, region by region. */
  lemma ReadMemoryByRegion(m: Memory, addr: bv16)
    ensures addr < BootOverlayEnd ==>
      ReadMemory(m, addr) == if addr as int < |m.bootRom| then Ok(m.bootRom[addr]) else Err(BootRomIndexOutOfRange(addr))
    ensures BootOverlayEnd <= addr <= 0x3FFF ==> ReadMemory(m, addr) == Cartridges.Read(m.cartridge, addr)
    ensures 0x4000 <= addr ==> ReadMemory(m, addr) == Ok(ReadStubByte(addr))
  {
  }

  /** Reads depend on neither work RAM nor the boot-ROM-disabled latch. */
  lemma ReadMemoryIgnoresRamAndLatch(m: Memory, ram: seq<bv8>, disabled: bool, addr: bv16)
    ensures ReadMemory(m.(ram := ram, bootRomDisabled := disabled), addr) == ReadMemory(m, addr)
  {
  }

  /** As written, the loader's 0xFF-byte boot image leaves the last overlay
      address, 0x00FF, past the end of the image. */
  lemma BootRomLastByteUnreadable(m: Memory)
    requires |m.bootRom| == BootRomSizeAsWritten
    ensures ReadMemory(m, 0x00FF) == Err(BootRomIndexOutOfRange(0x00FF))
  {
    ReadMemoryByRegion(m, 0x00FF);
  }

  /** With a full 0x100-byte boot image, every overlay address reads its image byte. */
  lemma BootOverlayComplete(m: Memory)
    requires |m.bootRom| == BootRomSize
    ensures forall a: bv16 :: a < BootOverlayEnd ==> ReadMemory(m, a) == Ok(m.bootRom[a])
  {
    forall a: bv16 | a < BootOverlayEnd
      ensures ReadMemory(m, a) == Ok(m.bootRom[a])
    {
      ReadMemoryByRegion(m, a);
    }
  }
}
