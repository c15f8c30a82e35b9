/** Result types and the power of two shared by every module of the model. */
module Outcomes {

  datatype Option<+T> = None | Some(value: T)

  datatype Result<+T, +E> = Ok(value: T) | Err(error: E)

  function Pow2(n: nat): (r: nat)
    ensures r >= 1
  {
    if n == 0 then 1 else 2 * Pow2(n - 1)
  }

  /** The number of times `width` can be halved, rounding up, before it is one. */
  function CeilLog2(width: nat): (r: nat) {
    if width <= 1 then 0 else 1 + CeilLog2((width + 1) / 2)
  }

  lemma {:induction false} CeilLog2IsTheLogarithm(width: nat)
    requires width >= 1
    ensures width <= Pow2(CeilLog2(width))
    ensures width > 1 ==> Pow2(CeilLog2(width) - 1) < width
  {
    if width > 2 { CeilLog2IsTheLogarithm((width + 1) / 2); }
  }

  lemma {:induction false} CeilLog2Monotone(a: nat, b: nat)
    requires a <= b
    ensures CeilLog2(a) <= CeilLog2(b)
  {
    if a > 1 { CeilLog2Monotone((a + 1) / 2, (b + 1) / 2); }
  }
}
