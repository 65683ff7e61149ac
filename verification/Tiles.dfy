// Tiles, the arithmetic the compute engine performs on them, and the left fold that a
// matrix product is. No algebraic law is assumed of `add` and `mul` here: whatever is
// proved in terms of `Dot` holds for rounding arithmetic as well.
module Tiles {

  datatype Alg<!T> = Alg(zero: T, add: (T, T) -> T, mul: (T, T) -> T)
  {
    // One `matmul_tiles` call: accumulate a product into a DST register.
    function Mac(acc: T, x: T, y: T): T {
      add(acc, mul(x, y))
    }
  }

  // A matrix of tiles, addressed by tile row and tile column.
  type Matrix<T> = (int, int) -> T

  // Entry (r, c) of the product, accumulated left to right over the first n inner tiles.
  function Dot<T>(g: Alg<T>, a: Matrix<T>, b: Matrix<T>, r: int, c: int, n: nat): T {
    if n == 0 then g.zero
    else g.Mac(Dot(g, a, b, r, c, n - 1), a(r, n - 1), b(n - 1, c))
  }

  // Dot looks only at the first n tiles of a row and of a column.
  lemma {:induction false} DotCongruent<T>(g: Alg<T>, a: Matrix<T>, b: Matrix<T>, r: int, c: int,
                          a': Matrix<T>, b': Matrix<T>, r': int, c': int, n: nat)
    requires forall k :: 0 <= k < n ==> a(r, k) == a'(r', k) && b(k, c) == b'(k, c')
    ensures Dot(g, a, b, r, c, n) == Dot(g, a', b', r', c', n)
  {
    if n > 0 {
      DotCongruent(g, a, b, r, c, a', b', r', c', n - 1);
      assert a(r, n - 1) == a'(r', n - 1) && b(n - 1, c) == b'(n - 1, c');
    }
  }
}
