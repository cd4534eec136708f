/** What several of the models share. */
module Prelude {
  datatype Option<+T> = None | Some(value: T)

  datatype Result<+T, +E> = Ok(value: T) | Err(error: E)

  type Byte = b: int | 0 <= b < 256

  const U64_MAX := 0xFFFF_FFFF_FFFF_FFFF

  type U64 = n: int | 0 <= n <= U64_MAX

  function SaturatingAdd(a: U64, b: U64): U64 {
    if a + b <= U64_MAX then a + b else U64_MAX
  }

  function SaturatingSub(a: U64, b: U64): U64 {
    if a >= b then a - b else 0
  }

  lemma SubsetSize(a: set<nat>, b: set<nat>)
    requires a <= b
    ensures |a| <= |b|
  {
    assert b == a + (b - a);
  }

  /** `q` is `n / d` rounded up. */
  predicate IsCeilDiv(q: nat, n: nat, d: nat) {
    (q - 1) * d < n <= q * d
  }

  lemma CeilDivStep(q: nat, n: nat, d: nat)
    requires n > d && IsCeilDiv(q, n - d, d)
    ensures IsCeilDiv(q + 1, n, d)
  {
  }
}
