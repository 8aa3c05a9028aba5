/** Datatypes and 64-bit arithmetic shared by the whole project. */
module Prelude {
  datatype Option<+T> = None | Some(value: T)

  datatype Result<+T, +E> = Ok(value: T) | Err(error: E)

  const TWO_63: int := 0x8000_0000_0000_0000

  /** Two's-complement result of a 64-bit operation. */
  function Wrap64(n: int): int {
    (n + TWO_63) % (2 * TWO_63) - TWO_63
  }

  const INT64_MIN: int := -TWO_63
  const INT64_MAX: int := TWO_63 - 1
  const UINT64_MAX: int := 2 * TWO_63 - 1

  /** A witness that a set is not empty. */
  lemma Member<T>(s: set<T>) returns (x: T)
    requires s != {}
    ensures x in s
  {
    x :| x in s;
  }

  lemma TimesGrows(a: int, b: int, c: int)
    requires 0 < c
    ensures a <= b ==> a * c <= b * c
  {
    assert (b - a) * c == b * c - a * c;
    assert a <= b ==> (b - a) * c >= 0;
  }

  lemma DivisionIs(a: int, b: int, q: int)
    requires 0 < b && q * b <= a < (q + 1) * b
    ensures a / b == q
  {
    var d := a / b;
    assert d * b <= a < (d + 1) * b;
    TimesGrows(d + 1, q, b);
    TimesGrows(q + 1, d, b);
  }
}
