/** Types that several modules share. */
module Basics {

  datatype Option<+T> = None | Some(value: T)

  datatype Result<+T, +E> = Ok(value: T) | Err(error: E)

  type byte = x: int | 0 <= x < 256

  function Min(a: int, b: int): (r: int)
    ensures r <= a && r <= b && (r == a || r == b)
  {
    if a < b then a else b
  }

  /** p times n, by repeated addition. */
  function Times(p: nat, n: nat): nat {
    if p == 0 then 0 else Times(p - 1, n) + n
  }

  lemma {:induction false} TimesIsProduct(p: nat, n: nat)
    ensures Times(p, n) == p * n
  {
    if p > 0 {
      TimesIsProduct(p - 1, n);
      assert p * n == (p - 1) * n + n;
    }
  }

  /** A float64: an exact real, or one of the special values. */
  datatype Float = NaN | NegInf | PosInf | Finite(value: real)
}
