/** The CPU front end: register indices, flag masks, the operand decoder,
    the opcode table and the fetch step. */
module Cpu {
  import opened Results
  import MemoryMap

  /** The word-register indices, in `m_registers` order. */
  datatype RegisterName = AF | BC | DE | HL | SP

  const WordRegisterLength := 5

  function RegisterIndex(r: RegisterName): (i: nat)
    ensures i < WordRegisterLength
  {
    match r
    case AF => 0
    case BC => 1
    case DE => 2
    case HL => 3
    case SP => 4
  }

  function RegisterAt(i: nat): (r: RegisterName)
    requires i < WordRegisterLength
    ensures RegisterIndex(r) == i
  {
    if i == 0 then AF else if i == 1 then BC else if i == 2 then DE else if i == 3 then HL else SP
  }

  /** The flag bits of the AF pair's low byte. */
  const CarryFlag: bv8 := 0x10
  const HalfCarryFlag: bv8 := 0x20
  const SubtractFlag: bv8 := 0x40
  const ZeroFlag: bv8 := 0x80

  /** A mask holding exactly one bit, and that bit in the high nibble. */
  predicate SingleHighBit(f: bv8)
  {
    f != 0 && f & (f - 1) == 0 && f & 0x0F == 0
  }

  /** Each flag is one bit of the high nibble, no two share a bit, and together they fill that nibble. */
  lemma FlagMasksAreDistinctHighBits()
    ensures SingleHighBit(CarryFlag) && SingleHighBit(HalfCarryFlag)
    ensures SingleHighBit(SubtractFlag) && SingleHighBit(ZeroFlag)
    ensures CarryFlag & HalfCarryFlag == 0 && CarryFlag & SubtractFlag == 0 && CarryFlag & ZeroFlag == 0
    ensures HalfCarryFlag & SubtractFlag == 0 && HalfCarryFlag & ZeroFlag == 0 && SubtractFlag & ZeroFlag == 0
    ensures CarryFlag | HalfCarryFlag | SubtractFlag | ZeroFlag == 0xF0
  {
  }

  /** `get_register`: the register index an opcode's upper nibble selects, plus one. */
  function GetRegister(opcode: bv8): (r: bv8)
    ensures r as int == opcode as int / 16 + 1
    ensures 1 <= r <= 16
  {
    (opcode >> 4) + 1
  }

  /** The pair an LR35902 opcode's bits 5-4 name in 16-bit instructions: BC, DE, HL, SP. */
  function PairInBits54(opcode: bv8): RegisterName
  {
    var sel := (opcode >> 4) & 3;
    if sel == 0 then BC else if sel == 1 then DE else if sel == 2 then HL else SP
  }

  /** For opcodes 0x00-0x3F, `get_register` is a valid index into the five
      word registers and names the pair the opcode's bits 5-4 select. */
  lemma GetRegisterSelectsPair(opcode: bv8)
    requires opcode < 0x40
    ensures 1 <= GetRegister(opcode) as int < WordRegisterLength
    ensures RegisterAt(GetRegister(opcode) as int) == PairInBits54(opcode)
  {
  }

  /** From 0x40 up, `get_register` runs past the end of `m_registers`. */
  lemma GetRegisterBeyondRegisters(opcode: bv8)
    requires opcode >= 0x40
    ensures GetRegister(opcode) as int >= WordRegisterLength
  {
  }

  /** The member functions the opcode table can point to. */
  datatype Instruction =
    | OpNop
    | OpLdDa8A | OpLdDa16Sp | OpLdAB | OpLdHrD8 | OpLdLrD8 | OpLdRrD16 | OpLdDrrA | OpLdADrr
    | OpIncRr | OpDecRr
    | OpIncHr | OpDecHr
    | OpIncLr | OpDecLr
    | OpRlca | OpRla | OpRrca | OpRra
    | OpAddHlRr

  /** An opcode byte as a table key. */
  type Opcode = x: int | 0 <= x < 0x100

  /** The entries of `opcode_map`, one arm per entry in the table's order
      (0x09 is commented out there, so it falls to the last arm). */
  function OpcodeHandler(op: Opcode): Option<Instruction>
  {
    match op
    case 0x00 => Some(OpNop)
    case 0x01 => Some(OpLdRrD16)
    case 0x02 => Some(OpLdDrrA)
    case 0x03 => Some(OpIncRr)
    case 0x04 => Some(OpIncHr)
    case 0x05 => Some(OpDecHr)
    case 0x06 => Some(OpLdHrD8)
    case 0x07 => Some(OpRlca)
    case 0x08 => Some(OpLdDa16Sp)
    case 0x0A => Some(OpLdADrr)
    case 0x0B => Some(OpDecRr)
    case 0x0C => Some(OpIncLr)
    case 0x0D => Some(OpDecLr)
    case 0x0E => Some(OpLdLrD8)
    case 0x0F => Some(OpRrca)
    case 0x11 => Some(OpLdRrD16)
    case 0x12 => Some(OpLdDrrA)
    case 0x13 => Some(OpIncRr)
    case 0x14 => Some(OpIncHr)
    case 0x16 => Some(OpLdHrD8)
    case 0x17 => Some(OpRla)
    case 0x1A => Some(OpLdADrr)
    case 0x1B => Some(OpDecRr)
    case 0x1C => Some(OpIncLr)
    case 0x1D => Some(OpDecLr)
    case 0x1E => Some(OpLdLrD8)
    case 0x1F => Some(OpRra)
    case 0x21 => Some(OpLdRrD16)
    case 0x23 => Some(OpIncRr)
    case 0x24 => Some(OpIncHr)
    case 0x26 => Some(OpLdHrD8)
    case 0x2B => Some(OpDecRr)
    case 0x2C => Some(OpIncLr)
    case 0x2D => Some(OpDecLr)
    case 0x2E => Some(OpLdLrD8)
    case 0x31 => Some(OpLdRrD16)
    case 0x33 => Some(OpIncRr)
    case 0x34 => Some(OpIncHr)
    case 0x3B => Some(OpDecRr)
    case 0x78 => Some(OpLdAB)
    case 0xE0 => Some(OpLdDa8A)
    case _ => None
  }

  /** `opcode_map` as a finite map: at most one handler per opcode. */
  const OpcodeMap: map<Opcode, Instruction> :=
    map op: Opcode | 0 <= op < 0x100 && OpcodeHandler(op).Some? :: OpcodeHandler(op).value

  /** The opcodes bound to one instruction. */
  function OpcodesOf(ins: Instruction): (s: set<Opcode>)
    ensures forall op :: op in s <==> op in OpcodeMap && OpcodeMap[op] == ins
  {
    set op | op in OpcodeMap && OpcodeMap[op] == ins
  }

  /** `op_ld_rr_d16` is bound at exactly one opcode per pair. */
  lemma LoadPairBindings()
    ensures OpcodesOf(OpLdRrD16) == {0x01, 0x11, 0x21, 0x31}
  {
    forall op: Opcode | op in OpcodeMap && OpcodeMap[op] == OpLdRrD16
      ensures op in {0x01, 0x11, 0x21, 0x31}
    {
    }
  }

  /** `op_inc_rr` is bound at exactly one opcode per pair. */
  lemma IncrementPairBindings()
    ensures OpcodesOf(OpIncRr) == {0x03, 0x13, 0x23, 0x33}
  {
    forall op: Opcode | op in OpcodeMap && OpcodeMap[op] == OpIncRr
      ensures op in {0x03, 0x13, 0x23, 0x33}
    {
    }
  }

  /** `op_dec_rr` is bound at exactly one opcode per pair. */
  lemma DecrementPairBindings()
    ensures OpcodesOf(OpDecRr) == {0x0B, 0x1B, 0x2B, 0x3B}
  {
    forall op: Opcode | op in OpcodeMap && OpcodeMap[op] == OpDecRr
      ensures op in {0x0B, 0x1B, 0x2B, 0x3B}
    {
    }
  }

  /** Every opcode of a pair instruction decodes through `get_register` to the
      pair its bits 5-4 select. */
  lemma PairInstructionsDecodeTheirPair(op: Opcode)
    requires op in OpcodeMap && OpcodeMap[op] in {OpLdRrD16, OpIncRr, OpDecRr}
    ensures 1 <= GetRegister(op as bv8) as int < WordRegisterLength
    ensures RegisterAt(GetRegister(op as bv8) as int) == PairInBits54(op as bv8)
  {
    GetRegisterSelectsPair(op as bv8);
  }

  /** The table's keys in the order the table lists them. */
  const BoundOpcodes: seq<Opcode> := [0x00, 0x01, 0x02, 0x03, 0x04, 0x05, 0x06, 0x07, 0x08, 0x0A, 0x0B, 0x0C, 0x0D, 0x0E, 0x0F, 0x11, 0x12, 0x13, 0x14, 0x16, 0x17, 0x1A, 0x1B, 0x1C, 0x1D, 0x1E, 0x1F, 0x21, 0x23, 0x24, 0x26, 0x2B, 0x2C, 0x2D, 0x2E, 0x31, 0x33, 0x34, 0x3B, 0x78, 0xE0]

  predicate StrictlyIncreasing(s: seq<int>)
  {
    forall i :: 0 < i < |s| ==> s[i - 1] < s[i]
  }

  /** The set of elements of a sequence. */
  function Elements(s: seq<int>): (e: set<int>)
    ensures forall x :: x in e <==> x in s
  {
    if s == [] then {} else {s[0]} + Elements(s[1..])
  }

  /** Every element after the head of a strictly increasing sequence exceeds the head. */
  lemma {:induction false} IncreasingTailAboveHead(s: seq<int>, x: int)
    requires StrictlyIncreasing(s) && |s| > 0
    requires x in s[1..]
    ensures s[0] < x
  {
    if |s| > 1 && x != s[1] {
      assert s[1..][0] == s[1];
      assert StrictlyIncreasing(s[1..]) by {
        forall i | 0 < i < |s[1..]| ensures s[1..][i - 1] < s[1..][i] {
          assert s[1..][i - 1] == s[i] && s[1..][i] == s[i + 1];
        }
      }
      assert s[1..][1..] == s[2..];
      IncreasingTailAboveHead(s[1..], x);
    }
  }

  /** A strictly increasing sequence has as many distinct elements as entries. */
  lemma {:induction false} IncreasingElementsCount(s: seq<int>)
    requires StrictlyIncreasing(s)
    ensures |Elements(s)| == |s|
  {
    if s != [] {
      assert StrictlyIncreasing(s[1..]) by {
        forall i | 0 < i < |s[1..]| ensures s[1..][i - 1] < s[1..][i] {
          assert s[1..][i - 1] == s[i] && s[1..][i] == s[i + 1];
        }
      }
      IncreasingElementsCount(s[1..]);
      if s[0] in s[1..] {
        IncreasingTailAboveHead(s, s[0]);
      }
    }
  }

  /** Every bound opcode is listed. */
  lemma BoundOpcodesListed(op: Opcode)
    requires OpcodeHandler(op).Some?
    ensures op in BoundOpcodes
  {
  }

  /** Every listed opcode is bound. */
  lemma ListedOpcodesBound(i: nat)
    requires i < |BoundOpcodes|
    ensures OpcodeHandler(BoundOpcodes[i]).Some?
  {
  }

  /** The table's keys are the listed opcodes. */
  lemma OpcodeMapKeys()
    ensures OpcodeMap.Keys == Elements(BoundOpcodes)
  {
    forall op | op in OpcodeMap.Keys ensures op in BoundOpcodes {
      BoundOpcodesListed(op);
    }
    forall op | op in BoundOpcodes ensures op in OpcodeMap.Keys {
      var i :| 0 <= i < |BoundOpcodes| && BoundOpcodes[i] == op;
      ListedOpcodesBound(i);
    }
  }

  /** The table lists its keys in increasing order, as a `std::map` keeps them. */
  lemma BoundOpcodesIncreasing()
    ensures StrictlyIncreasing(BoundOpcodes)
  {
  }

  /** The table binds exactly 41 opcodes, each once (a key holds one handler). */
  lemma OpcodeMapSize()
    ensures |OpcodeMap| == 41
  {
    OpcodeMapKeys();
    BoundOpcodesIncreasing();
    IncreasingElementsCount(BoundOpcodes);
    assert |OpcodeMap| == |OpcodeMap.Keys|;
  }

  /** All bound opcodes but 0x78 and 0xE0 lie in 0x00-0x3F. */
  lemma BoundOpcodesInFirstQuarter(op: Opcode)
    requires op in OpcodeMap && op != 0x78 && op != 0xE0
    ensures op < 0x40
  {
  }

  /** 0x09 (commented out), 0x10, 0x15 and 0x18 are unbound, and `op_add_hl_rr`
      is bound nowhere. */
  lemma UnboundOpcodes()
    ensures 0x09 !in OpcodeMap && 0x10 !in OpcodeMap && 0x15 !in OpcodeMap && 0x18 !in OpcodeMap
    ensures OpAddHlRr !in OpcodeMap.Values
  {
  }

  /** `m_pc`: a `uint16_t`, kept as an integer so that its wrap-around is explicit. */
  type ProgramCounter = x: int | 0 <= x < 0x10000

  /** The post-increment of `m_pc`, modulo 2^16. */
  function NextPc(pc: ProgramCounter): (n: ProgramCounter)
    ensures n == if pc == 0xFFFF then 0 else pc + 1
  {
    (pc + 1) % 0x10000
  }

  /** The program counter after `n` fetches. */
  function PcAfter(pc: ProgramCounter, n: nat): ProgramCounter
  {
    if n == 0 then pc else NextPc(PcAfter(pc, n - 1))
  }

  /** `n` calls of `cycle` advance the program counter by `n` modulo 65536. */
  lemma {:induction false} PcAfterIsModular(pc: ProgramCounter, n: nat)
    ensures PcAfter(pc, n) == (pc + n) % 0x10000
  {
    if n == 0 {
      assert pc == (pc + 0) % 0x10000;
    } else {
      PcAfterIsModular(pc, n - 1);
      NextPcOfResidue(pc + (n - 1));
    }
  }

  /** Incrementing a residue modulo 2^16 is taking the successor's residue. */
  lemma NextPcOfResidue(x: nat)
    ensures NextPc(x % 0x10000) == (x + 1) % 0x10000
  {
    var q, r := x / 0x10000, x % 0x10000;
    assert x == q * 0x10000 + r;
    if r == 0xFFFF {
      assert x + 1 == (q + 1) * 0x10000;
    } else {
      assert x + 1 == q * 0x10000 + (r + 1);
    }
  }

  class CPU {
    var pc: ProgramCounter
    var interruptEnable: bv8
    /** `m_registers`: five default-constructed one-byte registers. */
    var registers: seq<bv8>
    /** The bus the CPU reads through; fetching never changes it. */
    const memory: MemoryMap.Memory

    /** The constructor: `m_pc = 0`; the registers start at zero and the
        interrupt-enable byte is left uninitialised. */
    constructor (memory: MemoryMap.Memory)
      ensures pc == 0
      ensures registers == [0, 0, 0, 0, 0]
      ensures this.memory == memory
    {
      pc := 0;
      registers := [0, 0, 0, 0, 0];
      this.memory := memory;
    }

    /** `cycle_read`: the byte the bus yields at the current `pc`, which is
        then advanced by one (even when the read fails). */
    method CycleRead() returns (r: Result<bv8, Fault>)
      modifies this`pc
      ensures r == MemoryMap.ReadMemory(memory, old(pc) as bv16)
      ensures pc == NextPc(old(pc))
    {
      r := MemoryMap.ReadMemory(memory, pc as bv16);
      pc := NextPc(pc);
    }

    /** `cycle`: fetch one opcode byte; nothing else happens yet. The fetched
        byte is handed back so that a failing read stays visible. */
    method Cycle() returns (opcode: Result<bv8, Fault>)
      modifies this`pc
      ensures opcode == MemoryMap.ReadMemory(memory, old(pc) as bv16)
      ensures pc == NextPc(old(pc))
    {
      opcode := CycleRead();
    }
  }
}
