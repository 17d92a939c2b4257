/** Word sizes and error numbers that several models use. */
module Machine {
  const TWO_32: nat := 0x1_0000_0000
  const TWO_64: nat := 0x1_0000_0000_0000_0000

  const PAGE_SIZE: nat := 4096

  const ENOMEM: int := -12
  const EINVAL: int := -22
  const ERANGE: int := -34
  const ETIMEDOUT: int := -110
}
