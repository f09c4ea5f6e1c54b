/** Small datatypes shared by the models. */
module Common {

  datatype Option<+T> = None | Some(value: T)

  datatype Result<+T, +E> = Ok(value: T) | Err(error: E)

  /** A byte. Go's shifts and masks on bytes are written as the quotients and remainders they equal. */
  type byte = b: int | 0 <= b < 256

  function Max(a: int, b: int): int {
    if a < b then b else a
  }

  function Min(a: int, b: int): int {
    if a < b then a else b
  }

  lemma TimesGrows(a: int, b: int, c: int)
    requires a <= b && 0 <= c
    ensures a * c <= b * c
  {
    assert (b - a) * c >= 0;
  }

  lemma QuotientIs(t: nat, n: nat, q: nat, r: nat)
    requires r < n && t == q * n + r
    ensures t / n == q && t % n == r
  {
    assert t == n * (t / n) + t % n;
    if t / n > q { TimesGrows(q + 1, t / n, n); }
    if t / n < q { TimesGrows(t / n + 1, q, n); }
  }
}
