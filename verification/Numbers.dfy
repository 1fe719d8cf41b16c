/** The smaller of two numbers, and the bound of the 64-bit words. */
module Numbers {
  const U64_LIMIT: nat := 0x1_0000_0000_0000_0000

  function Min(a: nat, b: nat): nat {
    if a < b then a else b
  }
}
