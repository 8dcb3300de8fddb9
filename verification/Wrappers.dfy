/** Small shared types. */
module Wrappers {
  datatype Option<+T> = None | Some(value: T)
  datatype Result<+T, +E> = Ok(value: T) | Err(error: E)
}

/** Machine integers as bounded mathematical integers. */
module Integers {
  const TWO_TO_THE_64: int := 0x1_0000_0000_0000_0000

  lemma MulCancels(x: int, y: int, n: int)
    requires n > 0
    ensures x < y <==> x * n < y * n
  {
    assert (y - x) * n == y * n - x * n;
  }

  type byte = x: int | 0 <= x < 0x100
  type u64 = x: int | 0 <= x < TWO_TO_THE_64
}
