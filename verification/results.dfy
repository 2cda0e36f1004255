/** Failure-carrying values shared by the cartridge, the address bus and the CPU. */
module Results {

  datatype Option<+T> = None | Some(value: T)

  datatype Result<+T, +E> = Ok(value: T) | Err(error: E)

  /** The ways a read can fail instead of producing a byte.
      RomIndexOutOfRange: `std::vector::at` throws `std::out_of_range`
      (the exception propagates out of the bus and the CPU).
      BootRomIndexOutOfRange: the boot image is indexed past its end
      (undefined behaviour in C++, modelled as a failure outcome). */
  datatype Fault =
    | RomIndexOutOfRange(addr: bv16)
    | BootRomIndexOutOfRange(addr: bv16)
}
