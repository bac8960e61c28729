/** The machine's pages and 64-bit addresses. */
module Machine {

  const PAGE := 4096
  const ADDRESSES := 0x1_0000_0000_0000_0000

  /** A 64-bit value. */
  function Wrap(x: nat): nat { x % ADDRESSES }

  function AlignDown(x: nat): nat { x - x % PAGE }

  predicate PowerOfTwo(n: nat) { n == 1 || (n > 1 && n % 2 == 0 && PowerOfTwo(n / 2)) }
}
