/** Signed machine integers. */
module Integers {
  const INT_RANGE := 0x1_0000_0000
  const INT_MAX := 0x7FFF_FFFF

  /** Narrowing to a 32-bit int keeps the value modulo 2^32. */
  function ToInt(n: int): (r: int)
    ensures -INT_MAX - 1 <= r <= INT_MAX
    ensures -INT_MAX - 1 <= n <= INT_MAX ==> r == n
    ensures (n - r) % INT_RANGE == 0
  {
    (n + INT_MAX + 1) % INT_RANGE - INT_MAX - 1
  }
}
