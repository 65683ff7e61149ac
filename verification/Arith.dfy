// The few facts of non-linear arithmetic that nested loop indices need.
module Arith {

  // A pair of loop counters stays inside the flattened range.
  lemma FlatBound(i: nat, j: nat, n: nat, m: nat)
    requires i < n && j < m
    ensures i * m + j < n * m
    ensures i * m + m <= n * m
    ensures 0 <= i * m
  {
    assert n * m == (n - 1 - i) * m + i * m + m;
    assert 0 <= (n - 1 - i) * m;
  }

  lemma Positive(n: nat, m: nat)
    requires 0 < n && 0 < m
    ensures 0 < n * m
  {
  }

  lemma MulMono(i: nat, n: nat, m: nat)
    requires i <= n
    ensures i * m <= n * m
  {
    assert n * m == i * m + (n - i) * m;
  }

  // Quotient and remainder recover the pair of counters.
  lemma {:induction false} DivModUnique(i: nat, j: nat, m: nat)
    requires j < m
    ensures (i * m + j) / m == i && (i * m + j) % m == j
  {
    QuotientUnique(i * m + j, m, i, j);
  }

  lemma QuotientUnique(x: nat, m: nat, q: nat, r: nat)
    requires r < m && x == q * m + r
    ensures x / m == q && x % m == r
  {
    SameSplit(q, r, x / m, x % m, m);
  }

  lemma SameSplit(q: nat, r: nat, q': nat, r': nat, m: nat)
    requires r < m && r' < m && q * m + r == q' * m + r'
    ensures q == q' && r == r'
  {
    if q < q' {
      MulMono(q + 1, q', m);
    } else if q' < q {
      MulMono(q' + 1, q, m);
    }
  }

  lemma DivModBound(x: nat, n: nat, m: nat)
    requires m > 0 && x < n * m
    ensures x / m < n && x % m < m && x == (x / m) * m + x % m
  {
    if x / m >= n {
      MulMono(n, x / m, m);
    }
  }

  // Running offsets: the next multiple, and the next row of a table of `rows` rows.
  lemma OneMore(k: nat, w: nat)
    ensures (k + 1) * w == k * w + w
  {
  }

  lemma NextRow(h: nat, w: nat, rows: nat)
    requires h < rows
    ensures (h + 1) * w == h * w + w && h * w + w <= rows * w
  {
    MulMono(h + 1, rows, w);
  }

  lemma SignMul(i: nat, q: nat)
    ensures 0 <= i * q
  {
  }
}
