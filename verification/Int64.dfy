/** Go's 64-bit integers. */
module Int64 {

  const MAX_INT64 := 0x7fff_ffff_ffff_ffff

  predicate IsInt64(x: int) {
    -0x8000_0000_0000_0000 <= x <= MAX_INT64
  }

  function Mod64(x: int): int {
    (x + 0x8000_0000_0000_0000) % 0x1_0000_0000_0000_0000 - 0x8000_0000_0000_0000
  }

  /** The value an operation leaves in 64 bits. */
  function Wrap64(x: int): int {
    if IsInt64(x) then x else Mod64(x)
  }

  /** Wrapping is reduction modulo 2^64 throughout. */
  lemma {:induction false} WrapIsMod(x: int)
    ensures Wrap64(x) == Mod64(x) && IsInt64(Wrap64(x))
  {
  }
}
