/** Word sizes, unsigned arithmetic and error codes of the C programs modelled here. */
module Machine {
  const U31: nat := 0x8000_0000
  const U32: nat := 0x1_0000_0000
  const U63: nat := 0x8000_0000_0000_0000
  const U64: nat := 0x1_0000_0000_0000_0000

  const ENOMEM: int := 12
  const EBUSY: int := 16
  const EINVAL: int := 22

  /** Unsigned 32-bit arithmetic. */
  function Wrap32(x: nat): (r: nat)
    ensures r < U32 && (x < U32 ==> r == x)
  {
    x % U32
  }

  /** Unsigned 64-bit arithmetic, also of what a negative number converts to. */
  function Wrap64(x: int): (r: nat)
    ensures r < U64 && (0 <= x < U64 ==> r == x)
    ensures (x < 0 <= x + U64 ==> r == x + U64) && (U64 <= x < 2 * U64 ==> r == x - U64)
  {
    x % U64
  }

  lemma Scale(a: int, b: int, s: nat)
    requires a <= b
    ensures a * s <= b * s
  {
    assert (b - a) * s >= 0;
  }
}
