/** The cartridge: its header information and the bounds-checked ROM read. */
module Cartridges {
  import opened Results

  /** The mapper kinds a cartridge can name; only the no-mapper kind is implemented. */
  datatype CartridgeType = GbNoMbc | GbMbc1 | GbMbc3

  /** The enum's underlying `uint8_t` values, in declaration order. */
  function TypeCode(t: CartridgeType): (c: bv8)
    ensures c < 3
  {
    match t
    case GbNoMbc => 0
    case GbMbc1 => 1
    case GbMbc3 => 2
  }

  function TypeFromCode(c: bv8): (t: Option<CartridgeType>)
    ensures t.Some? <==> c < 3
  {
    if c == 0 then Some(GbNoMbc)
    else if c == 1 then Some(GbMbc1)
    else if c == 2 then Some(GbMbc3)
    else None
  }

  /** The three variants and the codes 0, 1, 2 correspond one to one. */
  lemma TypeCodeRoundTrip(t: CartridgeType, c: bv8)
    ensures TypeFromCode(TypeCode(t)) == Some(t)
    ensures TypeFromCode(c).Some? ==> TypeCode(TypeFromCode(c).value) == c
  {
  }

  /** Header offset of the RAM-size code. */
  const RamSizeOffset := 0x149
  /** Header offset of the version byte. */
  const VersionOffset := 0x14C

  /** External RAM size in bytes for each RAM-size code. */
  const RamSizes: seq<nat> := [0x0, 0x800, 0x2000, 0x8000, 0x20000, 0x10000]

  /** What the constructor's two indexing operations need to stay in bounds:
      the image reaches offset 0x14C and the RAM-size code indexes the table. */
  predicate HeaderReadable(rom: seq<bv8>)
  {
    |rom| > VersionOffset && rom[RamSizeOffset] as int < |RamSizes|
  }

  datatype CartridgeInformation = CartridgeInformation(ramSize: nat, version: bv8)

  /** The `CartridgeInformation` constructor; the datatype's fields are its two getters. */
  function ParseInformation(rom: seq<bv8>): (info: CartridgeInformation)
    requires HeaderReadable(rom)
    ensures info.ramSize in RamSizes && info.ramSize <= 0x20000
    ensures info.ramSize == RamSizes[rom[RamSizeOffset]]
    ensures info.version == rom[VersionOffset]
  {
    CartridgeInformation(RamSizes[rom[RamSizeOffset]], rom[VersionOffset])
  }

  /** Only bytes 0x149 and 0x14C of the image influence the parsed information. */
  lemma ParseReadsOnlyHeaderBytes(rom1: seq<bv8>, rom2: seq<bv8>)
    requires HeaderReadable(rom1) && HeaderReadable(rom2)
    requires rom1[RamSizeOffset] == rom2[RamSizeOffset]
    requires rom1[VersionOffset] == rom2[VersionOffset]
    ensures ParseInformation(rom1) == ParseInformation(rom2)
  {
  }

  /** The size table has no repeated entry, so the parsed size recovers the code. */
  lemma RamSizeDeterminesCode(rom1: seq<bv8>, rom2: seq<bv8>)
    requires HeaderReadable(rom1) && HeaderReadable(rom2)
    requires ParseInformation(rom1).ramSize == ParseInformation(rom2).ramSize
    ensures rom1[RamSizeOffset] == rom2[RamSizeOffset]
  {
  }

  /** A cartridge: the ROM image it borrows and the information parsed from it. */
  datatype Cartridge = Cartridge(rom: seq<bv8>, info: CartridgeInformation)

  function NewCartridge(rom: seq<bv8>): (c: Cartridge)
    requires HeaderReadable(rom)
    ensures c.rom == rom
    ensures c.info.version == rom[VersionOffset]
    ensures c.info.ramSize == RamSizes[rom[RamSizeOffset]]
  {
    Cartridge(rom, ParseInformation(rom))
  }

  /** `Cartridge::read`: the ROM byte at `addr`, or the `out_of_range`
      failure of `vector::at` when the image is shorter. */
  function Read(c: Cartridge, addr: bv16): (r: Result<bv8, Fault>)
    ensures r.Ok? <==> addr as int < |c.rom|
    ensures r.Ok? ==> r.value == c.rom[addr]
    ensures r.Err? ==> r.error == RomIndexOutOfRange(addr)
  {
    if addr as int < |c.rom| then Ok(c.rom[addr]) else Err(RomIndexOutOfRange(addr))
  }
}
