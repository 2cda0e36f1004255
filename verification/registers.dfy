/** The register file: a one-byte `Register` and a two-byte
    `DoubleRegister` viewed either as a word or as a high and a low byte. */
module Registers {

  /** Bit `i` of a byte, bit 0 being the least significant. */
  function Bit(v: bv8, i: bv8): bool
    requires i < 8
  {
    (v >> i) & 1 == 1
  }

  /** What `1 << bit` (computed in `int`) contributes to a `uint8_t`
      once the result is stored back: bits 8 and up fall off.
      Shifting an `int` by 32 or more is undefined, hence the bound. */
  function ShiftedOne(bit: bv8): (m: bv8)
    requires bit < 32
    ensures forall i: bv8 :: i < 8 ==> (Bit(m, i) <==> i == bit)
  {
    if bit < 8 then 1 << bit else 0
  }

  /** The byte `Register::set_bit(bit, on)` leaves behind. */
  function WithBit(v: bv8, bit: bv8, on: bool): (r: bv8)
    requires bit < 32
    ensures forall i: bv8 :: i < 8 ==> Bit(r, i) == (if i == bit then on else Bit(v, i))
  {
    if on then v | ShiftedOne(bit) else v & !ShiftedOne(bit)
  }

  /** Setting or clearing the same bit twice is the same as doing it once. */
  lemma WithBitIdempotent(v: bv8, bit: bv8, on: bool)
    requires bit < 32
    ensures WithBit(WithBit(v, bit, on), bit, on) == WithBit(v, bit, on)
  {
  }

  /** A bit index from 8 to 31 names no bit of the byte: nothing changes. */
  lemma WithBitBeyondByte(v: bv8, bit: bv8, on: bool)
    requires 8 <= bit < 32
    ensures WithBit(v, bit, on) == v
  {
  }

  /** The flag byte `DoubleRegister::set_flag(flag, on)` leaves behind:
      every bit of `flag` is forced to `on`, every other bit is kept. */
  function WithFlag(b: bv8, flag: bv8, on: bool): (r: bv8)
    ensures r & flag == (if on then flag else 0)
    ensures r & !flag == b & !flag
  {
    if on then b | flag else b & !flag
  }

  /** Setting (or clearing) a flag twice equals doing it once. */
  lemma WithFlagIdempotent(b: bv8, flag: bv8, on: bool)
    ensures WithFlag(WithFlag(b, flag, on), flag, on) == WithFlag(b, flag, on)
  {
  }

  /** Clearing a flag that is already clear, or setting one already set, is a no-op. */
  lemma WithFlagNoOpWhenAlreadyThere(b: bv8, flag: bv8, on: bool)
    requires if on then b & flag == flag else b & flag == 0
    ensures WithFlag(b, flag, on) == b
  {
  }

  /** Concatenating a high and a low byte gives high * 256 + low. */
  lemma WordValue(high: bv8, low: bv8)
    ensures (((high as bv16) << 8) | low as bv16) as int == high as int * 256 + low as int
  {
  }

  /** A single 8-bit register. */
  class Register {
    var value: bv8

    constructor ()
      ensures value == 0
    {
      value := 0;
    }

    constructor FromValue(v: bv8)
      ensures value == v
    {
      value := v;
    }

    method SetRegister(v: bv8)
      modifies this
      ensures value == v
    {
      value := v;
    }

    method GetRegister() returns (v: bv8)
      ensures v == value
    {
      v := value;
    }

    /** Sets (`on`) or clears bit `bit`; only that bit can change. */
    method SetBit(bit: bv8, on: bool)
      requires bit < 32
      modifies this
      ensures value == WithBit(old(value), bit, on)
    {
      if on {
        value := value | ShiftedOne(bit);
      } else {
        value := value & !ShiftedOne(bit);
      }
    }
  }

  /** A 16-bit register pair stored as two bytes. */
  class DoubleRegister {
    var high: bv8
    var low: bv8

    constructor ()
      ensures high == 0 && low == 0
    {
      high, low := 0, 0;
    }

    /** The pair read as one big-endian word: high byte times 256 plus low byte. */
    function GetWord(): (w: bv16)
      reads this
      ensures w >> 8 == high as bv16 && w & 0xFF == low as bv16
    {
      ((high as bv16) << 8) | low as bv16
    }

    /** The high byte is the word's top eight bits. */
    function GetUpperRegister(): (b: bv8)
      reads this
      ensures b as bv16 == GetWord() >> 8
    {
      high
    }

    /** The low byte is the word's bottom eight bits. */
    function GetLowerRegister(): (b: bv8)
      reads this
      ensures b as bv16 == GetWord() & 0xFF
    {
      low
    }

    method SetUpperRegister(upper: bv8)
      modifies this
      ensures high == upper && low == old(low)
      ensures GetWord() & 0xFF == old(GetWord()) & 0xFF
    {
      high := upper;
    }

    method SetLowerRegister(lower: bv8)
      modifies this
      ensures low == lower && high == old(high)
      ensures GetWord() >> 8 == old(GetWord()) >> 8
    {
      low := lower;
    }

    method SetWord(word: bv16)
      modifies this
      ensures GetWord() == word
      ensures GetUpperRegister() as bv16 == word >> 8
      ensures GetLowerRegister() as bv16 == word & 0xFF
    {
      high := ((word & 0xFF00) >> 8) as bv8;
      low := (word & 0x00FF) as bv8;
    }

    /** Only meaningful on AF: forces the bits of `flag` in the low byte. */
    method SetFlag(flag: bv8, on: bool)
      modifies this
      ensures high == old(high)
      ensures low == WithFlag(old(low), flag, on)
    {
      if on {
        low := low | flag;
      } else {
        low := low & !flag;
      }
    }

    /** The two-byte overload of `set_word`. */
    method SetBytes(upper: bv8, lower: bv8)
      modifies this
      ensures high == upper && low == lower
      ensures GetWord() as int == upper as int * 256 + lower as int
    {
      high := upper;
      low := lower;
      WordValue(upper, lower);
    }

    /** Postfix `++`: the word plus one, modulo 2^16. */
    method PostIncrement()
      modifies this
      ensures GetWord() == old(GetWord()) + 1
      ensures old(GetWord()) == 0xFFFF ==> GetWord() == 0
    {
      var word := GetWord();
      SetWord(word + 1);
    }

    /** Postfix `--`: the word minus one, modulo 2^16. */
    method PostDecrement()
      modifies this
      ensures GetWord() == old(GetWord()) - 1
      ensures old(GetWord()) == 0 ==> GetWord() == 0xFFFF
    {
      var word := GetWord();
      SetWord(word - 1);
    }

    method AddAssign(value: bv16)
      modifies this
      ensures GetWord() == old(GetWord()) + value
    {
      var word := GetWord();
      word := word + value;
      SetWord(word);
    }

    method SubAssign(value: bv16)
      modifies this
      ensures GetWord() == old(GetWord()) - value
    {
      var word := GetWord();
      word := word - value;
      SetWord(word);
    }

    method AndAssign(value: bv16)
      modifies this
      ensures GetWord() == old(GetWord()) & value
    {
      var word := GetWord();
      word := word & value;
      SetWord(word);
    }

    method OrAssign(value: bv16)
      modifies this
      ensures GetWord() == old(GetWord()) | value
    {
      var word := GetWord();
      word := word | value;
      SetWord(word);
    }
  }
}
