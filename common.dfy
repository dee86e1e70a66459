/** Values shared by every part of the retrieval core: the outcome of an operation
    that may throw, and two pieces of integer arithmetic the core relies on. */
module Common {

  /** A thrown JavaScript `Error`, identified by its message. */
  datatype Error = Error(message: string)

  /** The value of an expression that either returns or throws. */
  datatype Result<T> = Ok(value: T) | Err(error: Error)

  /** The settlement of an operation run for its effect only. */
  datatype Outcome = Pass | Fail(error: Error)

  function Min(a: int, b: int): int { if a <= b then a else b }

  function Max(a: int, b: int): int { if a >= b then a else b }

  /** The ceiling of m / s, taken as 0 when m is not positive. */
  function CeilDiv(m: int, s: nat): nat
    requires s > 0
    decreases if m > 0 then m else 0
  {
    if m <= 0 then 0 else 1 + CeilDiv(m - s, s)
  }

  /** CeilDiv(m, s) is the least c with c * s >= m. */
  lemma {:induction false} CeilDivIsCeiling(m: int, s: nat)
    requires s > 0
    ensures CeilDiv(m, s) * s >= m
    ensures m > 0 ==> (CeilDiv(m, s) - 1) * s < m
    decreases if m > 0 then m else 0
  {
    if m > 0 {
      CeilDivIsCeiling(m - s, s);
      var c := CeilDiv(m - s, s);
      assert CeilDiv(m, s) * s == c * s + s;
      if m - s > 0 {
        assert (c - 1) * s < m - s;
        assert (CeilDiv(m, s) - 1) * s == c * s;
        assert c * s == (c - 1) * s + s;
      } else {
        assert c == 0;
      }
    }
  }
}
