/** Declarations that several parts of the model share. */
module Common {
  /** Bytes in a page. */
  const PAGE: int := 4096

  datatype Option<T> = None | Some(value: T)

  lemma Multiple(m: nat, e: int)
    requires m > 0
    ensures e >= 1 ==> m * e >= m
    ensures e <= -1 ==> m * e + m <= 0
  {
  }

  /** There is one remainder. */
  lemma Remainder(n: nat, m: nat, q: nat, r: nat)
    requires n == m * q + r && r < m
    ensures n % m == r
  {
    var e := n / m - q;
    assert m * e == r - n % m;
    Multiple(m, e);
  }
}
