/** Small shared vocabulary. */
module Prelude {
  datatype Option<+T> = None | Some(value: T)

  newtype byte = x: int | 0 <= x < 256

  const PAGE_SIZE := 4096

  /** `n` rounded up to a multiple of `q`. */
  function RoundUp(n: nat, q: nat): nat
    requires q > 0
  {
    (n + q - 1) / q * q
  }
}
