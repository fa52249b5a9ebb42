/** The widths of the machine's unsigned words, and what is left of a number in them. */
module MachineWords {
  const TWO16: nat := 0x1_0000
  const TWO32: nat := 0x1_0000_0000
  const TWO64: nat := 0x1_0000_0000_0000_0000

  function U16(x: int): nat { x % TWO16 }

  function U32(x: int): nat { x % TWO32 }
}
