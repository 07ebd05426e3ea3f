/** What several modules need. */
module Common {

  datatype Option<T> = None | Some(value: T)

  type byte = x: int | 0 <= x < 256

  function Zeros(n: nat): seq<byte> {
    seq(n, _ => 0)
  }

  function Pow2(n: nat): (r: nat)
    ensures r >= 1
  {
    if n == 0 then 1 else 2 * Pow2(n - 1)
  }

  /** The least multiple of `a` that is not below `x`. */
  function Align(x: nat, a: nat): nat
    requires a > 0
  {
    (x + (a - 1)) / a * a
  }
}
