/** The `Mask` key of the address-range tables and its three `<` overloads. */
module Utility {

  /** A range key: an address belongs to it when `addr & mask` equals `value`. */
  datatype Mask = Mask(value: bv16, mask: bv16)

  /** `operator<(Mask, Mask)`, used to order the keys inside the map. */
  predicate KeyLess(a: Mask, b: Mask)
  {
    a.value < (a.mask & b.value)
  }

  /** `operator<(Mask, uint16_t)`: is the key below the address? */
  predicate KeyLessAddress(a: Mask, b: bv16)
  {
    a.value < (a.mask & b)
  }

  /** `operator<(uint16_t, Mask)`: is the address below the key? */
  predicate AddressLessKey(a: bv16, b: Mask)
  {
    b.value < (b.mask & a)
  }

  /** A key of the shape every table entry has: a multiple of 0x1000 under mask 0xF000. */
  predicate NibbleAligned(k: Mask)
  {
    k.mask == 0xF000 && k.value & 0x0FFF == 0
  }

  /** The top four bits of an address. */
  function Nibble(addr: bv16): (n: nat)
    ensures n < 16
    ensures (n as bv16) << 12 == addr & 0xF000
  {
    (addr >> 12) as int
  }

  /** The key of the table entry covering addresses `n * 0x1000` to `n * 0x1000 + 0xFFF`. */
  function NibbleKey(n: nat): (k: Mask)
    requires n < 16
    ensures NibbleAligned(k)
    ensures k.value >> 12 == n as bv16
  {
    Mask((n as bv16) << 12, 0xF000)
  }

  /** The sixteen multiples of 0x1000, in order: the values of the table keys. */
  const NibbleBases: seq<bv16> := [
    0x0000, 0x1000, 0x2000, 0x3000, 0x4000, 0x5000, 0x6000, 0x7000,
    0x8000, 0x9000, 0xA000, 0xB000, 0xC000, 0xD000, 0xE000, 0xF000
  ]

  /** The n-th nibble key, spelled out. */
  lemma NibbleKeyBase(n: nat)
    requires n < 16
    ensures NibbleKey(n) == Mask(NibbleBases[n], 0xF000)
  {
    if n < 4 {
      if n == 0 {} else if n == 1 {} else if n == 2 {} else {}
    } else if n < 8 {
      if n == 4 {} else if n == 5 {} else if n == 6 {} else {}
    } else if n < 12 {
      if n == 8 {} else if n == 9 {} else if n == 10 {} else {}
    } else {
      if n == 12 {} else if n == 13 {} else if n == 14 {} else {}
    }
  }

  /** Between nibble-aligned keys the comparator is the order of their values. */
  lemma KeyLessIsValueOrder(a: Mask, b: Mask)
    requires NibbleAligned(a) && NibbleAligned(b)
    ensures KeyLess(a, b) <==> a.value < b.value
  {
  }

  /** No nibble-aligned key is below itself. */
  lemma KeyLessIrreflexive(k: Mask)
    requires NibbleAligned(k)
    ensures !KeyLess(k, k)
  {
  }

  /** `key < addr` compares the key with the address's top nibble only. */
  lemma KeyLessAddressByNibble(k: Mask, addr: bv16)
    requires NibbleAligned(k)
    ensures KeyLessAddress(k, addr) <==> k.value < addr & 0xF000
  {
  }

  /** The low twelve bits of an address never affect either mixed comparison. */
  lemma MixedComparisonsIgnoreLowBits(k: Mask, a: bv16, b: bv16)
    requires k.mask == 0xF000
    requires a & 0xF000 == b & 0xF000
    ensures KeyLessAddress(k, a) == KeyLessAddress(k, b)
    ensures AddressLessKey(a, k) == AddressLessKey(b, k)
  {
  }

  /** `addr < key` tests exactly the same predicate as `key < addr`:
      it is not the mirror image of the other overload. */
  lemma MixedComparisonsCoincide(k: Mask, addr: bv16)
    ensures AddressLessKey(addr, k) == KeyLessAddress(k, addr)
  {
  }

  /** A witness that `addr < key` is not the numeric mirror: address 0x1000
      compares both "above" and "below" key 0x0000. */
  lemma AddressLessKeyIsNotMirror()
    ensures AddressLessKey(0x1000, NibbleKey(0)) && KeyLessAddress(NibbleKey(0), 0x1000)
  {
  }

  /** Every table key whose range lies below an address compares both below
      and above that address. A heterogeneous `find` or `count` requires that
      `key < addr` rule out `addr < key`; these overloads break that for every
      address from 0x1000 up. */
  lemma KeyBelowAddressIsAlsoAbove(n: nat, addr: bv16)
    requires n < 16 && n < Nibble(addr)
    ensures KeyLessAddress(NibbleKey(n), addr) && AddressLessKey(addr, NibbleKey(n))
  {
    NibbleKeyLessAddress(n, addr);
  }

  /** A key is equivalent to an address (neither compares below the other)
      exactly when the key is at or above the address's nibble. */
  lemma EquivalentIffAtOrAbove(k: Mask, addr: bv16)
    requires NibbleAligned(k)
    ensures (!KeyLessAddress(k, addr) && !AddressLessKey(addr, k)) <==> k.value >= addr & 0xF000
  {
  }

  /** The n-th nibble key is below an address exactly when n is below the address's nibble. */
  lemma NibbleKeyLessAddress(n: nat, addr: bv16)
    requires n < 16
    ensures KeyLessAddress(NibbleKey(n), addr) <==> n < Nibble(addr)
  {
  }

  /** Nibble keys are ordered by their index. */
  lemma NibbleKeyOrder(i: nat, j: nat)
    requires i < 16 && j < 16
    ensures KeyLess(NibbleKey(i), NibbleKey(j)) <==> i < j
  {
  }
}
