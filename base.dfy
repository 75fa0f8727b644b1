/** Small shared vocabulary: bytes, 16-bit counts, integer helpers and the
    outcome of an operation that Swift would abort at run time. */
module Base {

  /** An 8-bit byte, as `UInt8`. */
  newtype byte = x: int | 0 <= x < 256

  /** A 16-bit unsigned count, as `UInt16`. */
  newtype u16 = x: int | 0 <= x < 0x1_0000

  datatype Option<T> = None | Some(value: T)

  /** The result of a buffer operation: either the new value, or `Trap` when
      the operation indexes an array out of range, which Swift turns into a
      run-time crash. */
  datatype Outcome<T> = Ok(value: T) | Trap

  function Min(a: int, b: int): int { if a <= b then a else b }

  function Max(a: int, b: int): int { if a <= b then b else a }

  /** Swift's `/` on `Int`: the quotient rounded toward zero (Dafny's `/` is
      Euclidean, which differs for negative dividends). The remainder takes
      the sign of the dividend and is smaller than the divisor. */
  function TruncDiv(a: int, d: int): (q: int)
    requires d > 0
    ensures a >= 0 ==> 0 <= a - d * q < d
    ensures a < 0 ==> -d < a - d * q <= 0
  {
    if a >= 0 then a / d else -((-a) / d)
  }

  /** Rounding toward zero is symmetric: negating the dividend negates the
      quotient. */
  lemma TruncDivOdd(a: int, d: int)
    requires d > 0
    ensures TruncDiv(-a, d) == -TruncDiv(a, d)
  {
    var q, q' := TruncDiv(a, d), TruncDiv(-a, d);
    var r, r' := a - d * q, -a - d * q';
    assert d * (q + q') == d * q + d * q';
    assert d * (q + q') == -(r + r');
    if a != 0 {
      UniqueZeroMultiple(q + q', d);
    }
  }

  /** The only multiple of `d` strictly between `-d` and `d` is 0. */
  lemma UniqueZeroMultiple(k: int, d: int)
    requires d > 0 && -d < d * k < d
    ensures k == 0
  {
  }
}
