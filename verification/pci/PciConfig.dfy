/** Configuration space as a fixed function from function, register and to bytes. */
module PciConfig {
  import opened ByteSeq

  /** A place on a bus where a function may answer. */
  datatype Slot = Slot(bus: nat, dev: nat, func: nat)

  type Config = (Slot, nat) -> Byte

  const VENDOR_ID := 0x00
  const HEADER_TYPE := 0x0e
  const SECONDARY_BUS := 0x19

  const NO_DEVICE := 0xffff_ffff

  /** A little-endian 16-bit register. */
  function Word(config: Config, s: Slot, pos: nat): (r: int)
    ensures 0 <= r < 0x1_0000
  {
    config(s, pos) + 0x100 * config(s, pos + 1)
  }

  /** A little-endian 32-bit register. */
  function Long(config: Config, s: Slot, pos: nat): (r: int)
    ensures 0 <= r < 0x1_0000_0000
  {
    Word(config, s, pos) + 0x1_0000 * Word(config, s, pos + 2)
  }
}
