/** Positions in a table of rows. */
module Arith {

  lemma MulGe(d: int, m: nat)
    requires d >= 1
    ensures d * m >= m
  {
    assert (d - 1) * m >= 0;
  }

  lemma MulMono(a: nat, b: nat, m: nat)
    requires a <= b
    ensures a * m <= b * m
  {
    assert (b - a) * m >= 0;
  }

  lemma Unique(i: int, k: int, q: int, r: int, m: nat)
    requires m > 0 && 0 <= k < m && 0 <= r < m
    requires i * m + k == q * m + r
    ensures i == q && k == r
  {
    assert (i - q) * m == i * m - q * m;
    assert (q - i) * m == q * m - i * m;
    if i > q {
      MulGe(i - q, m);
    } else if q > i {
      MulGe(q - i, m);
    }
  }

  /** Place k of row i, in rows of m. */
  function Place(i: int, k: int, m: int): int
  {
    i * m + k
  }

  lemma DivMod(i: int, k: int, m: nat)
    requires m > 0 && 0 <= k < m
    ensures Place(i, k, m) / m == i && Place(i, k, m) % m == k
  {
    var x := i * m + k;
    Unique(i, k, x / m, x % m, m);
  }

  /** Places of the first n rows come before Place(n, 0, m). */
  lemma PlaceFits(i: nat, k: nat, n: nat, m: nat)
    requires i < n && k < m
    ensures 0 <= Place(i, k, m) < Place(n, 0, m)
  {
    MulMono(i + 1, n, m);
  }

  lemma PlaceMono(i: nat, n: nat, m: nat)
    requires i <= n
    ensures 0 <= Place(i, 0, m) <= Place(n, 0, m)
  {
    MulMono(i, n, m);
    MulMono(0, i, m);
  }

  /** The words of n rows of m. */
  function RowWords(n: nat, m: nat): nat
  {
    PlaceMono(0, n, m);
    Place(n, 0, m)
  }

  /** Places in one row, and the step to the next. */
  lemma PlaceStep(i: int, k: int, d: int, m: int)
    ensures Place(i, k + d, m) == Place(i, k, m) + d
    ensures Place(i + 1, k, m) == Place(i, k, m) + m
    ensures Place(0, k, m) == k
  {
  }

  /** Place j of n rows of m is in one of the rows. */
  lemma RowOf(j: nat, n: nat, m: nat) returns (i: nat, k: nat)
    requires j < Place(n, 0, m)
    ensures i < n && k < m && j == Place(i, k, m)
    ensures m > 0 && i == j / m && k == j % m
  {
    assert m > 0;
    i, k := j / m, j % m;
    assert j == i * m + k;
    if i >= n {
      MulMono(n, i, m);
    }
  }
}
