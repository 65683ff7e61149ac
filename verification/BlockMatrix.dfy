// Tiles made of elements. In exact arithmetic the tile-level product of tilized matrices,
// untilized, is the element-level reference product.
module BlockMatrix {
  import opened Arith
  import opened Tiles
  import opened Layout
  import opened Host
  import opened Grid
  import opened Device
  import opened Product

  // ---------- exact arithmetic ----------

  ghost predicate Exact<E(!new)>(g: Alg<E>) {
    && (forall x :: g.add(x, g.zero) == x)
    && (forall x, y, z :: g.add(g.add(x, y), z) == g.add(x, g.add(y, z)))
  }

  // A tile is a function of the position inside it; tiles are added elementwise and
  // multiplied as 32 x 32 matrices.
  type Tile<!E> = (int, int) -> E

  function TileAlg<E>(g: Alg<E>): Alg<Tile<E>> {
    Alg((r, c) => g.zero,
        (x: Tile<E>, y: Tile<E>) => ((r, c) => g.add(x(r, c), y(r, c))),
        (x: Tile<E>, y: Tile<E>) => ((r, c) => Dot(g, x, y, r, c, TILE)))
  }

  // ---------- the reference product ----------

  // A row-major vector as a matrix.
  function Elements<E>(g: Alg<E>, m: seq<E>, cols: nat): Matrix<E> {
    (r, c) => if 0 <= r * cols + c < |m| then m[r * cols + c] else g.zero
  }

  function Entry<E>(g: Alg<E>, a: seq<E>, b: seq<E>, n: nat, k: nat, i: nat, j: nat, len: nat): E {
    Dot(g, Elements(g, a, k), Elements(g, b, n), i, j, len)
  }

  function Reference<E>(g: Alg<E>, a: seq<E>, b: seq<E>, m: nat, n: nat, k: nat): (s: seq<E>)
    ensures |s| == m * n
  {
    seq(m * n, t requires 0 <= t < m * n => NonZero(m, n, t); Entry(g, a, b, n, k, t / n, t % n, k))
  }

  lemma NonZero(m: nat, n: nat, t: nat)
    requires t < m * n
    ensures 0 < n && t / n < m && t % n < n
  {
    if n == 0 {
      assert false;
    }
    DivModBound(t, m, n);
  }

  // Row i after the first l of its k products are in; rows above are complete.
  ghost predicate Row<E>(g: Alg<E>, c: seq<E>, a: seq<E>, b: seq<E>, n: nat, k: nat, i: nat, lo: nat, hi: nat, len: nat) {
    forall j: nat :: lo <= j < hi ==> CellIs(g, c, a, b, n, k, i, j, len)
  }

  ghost predicate CellIs<E>(g: Alg<E>, c: seq<E>, a: seq<E>, b: seq<E>, n: nat, k: nat, i: nat, j: nat, len: nat) {
    0 <= i * n + j < |c| && c[i * n + j] == Entry(g, a, b, n, k, i, j, len)
  }

  ghost predicate RowsDone<E>(g: Alg<E>, c: seq<E>, a: seq<E>, b: seq<E>, n: nat, k: nat, rows: nat) {
    forall i: nat :: i < rows ==> Row(g, c, a, b, n, k, i, 0, n, k)
  }

  ghost predicate RowsFresh<E>(g: Alg<E>, c: seq<E>, a: seq<E>, b: seq<E>, n: nat, k: nat, from: nat, m: nat) {
    forall i: nat :: from <= i < m ==> Row(g, c, a, b, n, k, i, 0, n, 0)
  }

  // Changing one cell of row i leaves the others.
  lemma OtherCell<E>(g: Alg<E>, c: seq<E>, x: E, a: seq<E>, b: seq<E>, n: nat, k: nat, i: nat, j: nat, i': nat, j': nat, len: nat)
    requires CellIs(g, c, a, b, n, k, i', j', len) && j < n && j' < n && (i != i' || j != j') && 0 <= i * n + j < |c|
    ensures CellIs(g, c[i * n + j := x], a, b, n, k, i', j', len)
  {
    if i * n + j == i' * n + j' {
      SameSplit(i, j, i', j', n);
    }
  }

  lemma OtherRow<E>(g: Alg<E>, c: seq<E>, x: E, a: seq<E>, b: seq<E>, n: nat, k: nat, i: nat, j: nat, i': nat, len: nat)
    requires Row(g, c, a, b, n, k, i', 0, n, len) && j < n && i != i' && 0 <= i * n + j < |c|
    ensures Row(g, c[i * n + j := x], a, b, n, k, i', 0, n, len)
  {
    hide CellIs;
    var c' := c[i * n + j := x];
    forall j': nat | 0 <= j' < n
      ensures CellIs(g, c', a, b, n, k, i', j', len)
    {
      assert CellIs(g, c, a, b, n, k, i', j', len);
      OtherCell(g, c, x, a, b, n, k, i, j, i', j', len);
    }
  }

  // One pass of the inner loop at (i, kk, j).
  lemma Accumulate<E>(g: Alg<E>, c: seq<E>, a: seq<E>, b: seq<E>, m: nat, n: nat, k: nat, i: nat, kk: nat, j: nat)
    requires |a| == m * k && |b| == k * n && |c| == m * n && i < m && kk < k && j < n
    requires RowsDone(g, c, a, b, n, k, i) && RowsFresh(g, c, a, b, n, k, i + 1, m)
    requires Row(g, c, a, b, n, k, i, 0, j, kk + 1) && Row(g, c, a, b, n, k, i, j, n, kk)
    ensures 0 <= i * k + kk < |a| && 0 <= kk * n + j < |b| && 0 <= i * n + j < |c|
    ensures var c' := c[i * n + j := g.Mac(c[i * n + j], a[i * k + kk], b[kk * n + j])];
            && RowsDone(g, c', a, b, n, k, i) && RowsFresh(g, c', a, b, n, k, i + 1, m)
            && Row(g, c', a, b, n, k, i, 0, j + 1, kk + 1) && Row(g, c', a, b, n, k, i, j + 1, n, kk)
  {
    FlatBound(i, kk, m, k);
    FlatBound(kk, j, k, n);
    FlatBound(i, j, m, n);
    var x := g.Mac(c[i * n + j], a[i * k + kk], b[kk * n + j]);
    var c' := c[i * n + j := x];
    var next := kk + 1;
    assert CellIs(g, c, a, b, n, k, i, j, kk);
    NewCell(g, c, c', a, b, m, n, k, i, kk, j);
    hide CellIs, Entry;
    forall i': nat | i' < i ensures Row(g, c', a, b, n, k, i', 0, n, k) {
      OtherRow(g, c, x, a, b, n, k, i, j, i', k);
    }
    forall i': nat | i + 1 <= i' < m ensures Row(g, c', a, b, n, k, i', 0, n, 0) {
      OtherRow(g, c, x, a, b, n, k, i, j, i', 0);
    }
    forall j': nat | 0 <= j' < j + 1 ensures CellIs(g, c', a, b, n, k, i, j', next) {
      if j' < j {
        assert CellIs(g, c, a, b, n, k, i, j', next);
        OtherCell(g, c, x, a, b, n, k, i, j, i, j', next);
      }
    }
    forall j': nat | j + 1 <= j' < n ensures CellIs(g, c', a, b, n, k, i, j', kk) {
      assert CellIs(g, c, a, b, n, k, i, j', kk);
      OtherCell(g, c, x, a, b, n, k, i, j, i, j', kk);
    }
  }

  lemma NewCell<E>(g: Alg<E>, c: seq<E>, c': seq<E>, a: seq<E>, b: seq<E>, m: nat, n: nat, k: nat, i: nat, kk: nat, j: nat)
    requires 0 <= i * k + kk < |a| && 0 <= kk * n + j < |b| && 0 <= i * n + j < |c|
    requires CellIs(g, c, a, b, n, k, i, j, kk)
    requires c' == c[i * n + j := g.Mac(c[i * n + j], a[i * k + kk], b[kk * n + j])]
    ensures CellIs(g, c', a, b, n, k, i, j, kk + 1)
  {
  }

  lemma AllRows<E>(g: Alg<E>, c: seq<E>, a: seq<E>, b: seq<E>, m: nat, n: nat, k: nat)
    requires |c| == m * n && RowsDone(g, c, a, b, n, k, m)
    ensures c == Reference(g, a, b, m, n, k)
  {
    hide Entry, Reference, CellIs, Row;
    forall t: nat | t < |c|
      ensures c[t] == Reference(g, a, b, m, n, k)[t]
    {
      NonZero(m, n, t);
      assert Row(g, c, a, b, n, k, t / n, 0, n, k);
      CellOfRow(g, c, a, b, m, n, k, t, t / n, t % n);
    }
  }

  lemma CellOfRow<E>(g: Alg<E>, c: seq<E>, a: seq<E>, b: seq<E>, m: nat, n: nat, k: nat, t: nat, i: nat, j: nat)
    requires |c| == m * n && t < |c| && 0 < n && i == t / n && j == t % n && Row(g, c, a, b, n, k, i, 0, n, k)
    ensures c[t] == Reference(g, a, b, m, n, k)[t]
  {
    hide Entry;
    assert t == i * n + j;
    assert CellIs(g, c, a, b, n, k, i, j, k);
  }

  lemma NoneYet<E>(g: Alg<E>, c: seq<E>, a: seq<E>, b: seq<E>, m: nat, n: nat, k: nat)
    requires |c| == m * n && forall t | 0 <= t < |c| :: c[t] == g.zero
    ensures RowsFresh(g, c, a, b, n, k, 0, m)
  {
    forall i: nat, j: nat | i < m && 0 <= j < n
      ensures CellIs(g, c, a, b, n, k, i, j, 0)
    {
      FlatBound(i, j, m, n);
    }
  }

  // matmul_reference: the loops over i, k and j, updating c in place.
  method MatmulReference<E>(g: Alg<E>, a: seq<E>, b: seq<E>, m: nat, n: nat, k: nat) returns (c: array<E>)
    requires |a| == m * k && |b| == k * n
    ensures fresh(c) && c[..] == Reference(g, a, b, m, n, k)
  {
    hide CellIs, Entry, Row, RowsDone, RowsFresh, Reference;
    SignMul(m, n);
    c := new E[m * n](_ => g.zero);
    NoneYet(g, c[..], a, b, m, n, k);
    NoRows(g, c[..], a, b, n, k);
    for i := 0 to m
      invariant RowsDone(g, c[..], a, b, n, k, i) && RowsFresh(g, c[..], a, b, n, k, i, m)
    {
      TakeRow(g, c[..], a, b, n, k, i, m);
      for kk := 0 to k
        invariant RowsDone(g, c[..], a, b, n, k, i) && RowsFresh(g, c[..], a, b, n, k, i + 1, m)
        invariant Row(g, c[..], a, b, n, k, i, 0, n, kk)
      {
        NoCells(g, c[..], a, b, n, k, i, kk + 1);
        for j := 0 to n
          invariant RowsDone(g, c[..], a, b, n, k, i) && RowsFresh(g, c[..], a, b, n, k, i + 1, m)
          invariant Row(g, c[..], a, b, n, k, i, 0, j, kk + 1) && Row(g, c[..], a, b, n, k, i, j, n, kk)
        {
          Accumulate(g, c[..], a, b, m, n, k, i, kk, j);
          c[i * n + j] := g.Mac(c[i * n + j], a[i * k + kk], b[kk * n + j]);
        }
      }
      PutRow(g, c[..], a, b, n, k, i);
    }
    AllRows(g, c[..], a, b, m, n, k);
  }

  lemma NoRows<E>(g: Alg<E>, c: seq<E>, a: seq<E>, b: seq<E>, n: nat, k: nat)
    ensures RowsDone(g, c, a, b, n, k, 0)
  {
  }

  lemma NoCells<E>(g: Alg<E>, c: seq<E>, a: seq<E>, b: seq<E>, n: nat, k: nat, i: nat, len: nat)
    ensures Row(g, c, a, b, n, k, i, 0, 0, len)
  {
  }

  lemma TakeRow<E>(g: Alg<E>, c: seq<E>, a: seq<E>, b: seq<E>, n: nat, k: nat, i: nat, m: nat)
    requires RowsFresh(g, c, a, b, n, k, i, m) && i < m
    ensures RowsFresh(g, c, a, b, n, k, i + 1, m) && Row(g, c, a, b, n, k, i, 0, n, 0)
  {
    hide Row;
  }

  lemma PutRow<E>(g: Alg<E>, c: seq<E>, a: seq<E>, b: seq<E>, n: nat, k: nat, i: nat)
    requires RowsDone(g, c, a, b, n, k, i) && Row(g, c, a, b, n, k, i, 0, n, k)
    ensures RowsDone(g, c, a, b, n, k, i + 1)
  {
    hide Row;
  }

  // ---------- tile products are element products ----------

  // A fold may be cut: its tail can be summed on its own.
  lemma {:induction false} DotSplit<E(!new)>(g: Alg<E>, a: Matrix<E>, b: Matrix<E>, r: int, c: int, m: nat,
                                       a': Matrix<E>, b': Matrix<E>, r': int, c': int, len: nat)
    requires Exact(g)
    requires forall k: nat :: k < len ==> a(r, m + k) == a'(r', k) && b(m + k, c) == b'(k, c')
    ensures Dot(g, a, b, r, c, m + len) == g.add(Dot(g, a, b, r, c, m), Dot(g, a', b', r', c', len))
  {
    if len > 0 {
      DotSplit(g, a, b, r, c, m, a', b', r', c', len - 1);
      assert a(r, m + (len - 1)) == a'(r', len - 1) && b(m + (len - 1), c) == b'(len - 1, c');
    }
  }

  lemma TileMac<E>(g: Alg<E>, acc: Tile<E>, x: Tile<E>, y: Tile<E>, r: int, c: int)
    ensures TileAlg(g).Mac(acc, x, y)(r, c) == g.add(acc(r, c), Dot(g, x, y, r, c, TILE))
    ensures TileAlg(g).zero(r, c) == g.zero
  {
  }

  lemma DotStep<T>(g: Alg<T>, a: Matrix<T>, b: Matrix<T>, r: int, c: int, n: nat)
    ensures Dot(g, a, b, r, c, 0) == g.zero
    ensures 0 < n ==> Dot(g, a, b, r, c, n) == g.Mac(Dot(g, a, b, r, c, n - 1), a(r, n - 1), b(n - 1, c))
  {
  }

  // x holds the elements of m, tile by tile, for the first rt rows and ct columns of tiles.
  ghost predicate TilesOf<E>(x: Matrix<Tile<E>>, m: Matrix<E>, rt: nat, ct: nat) {
    forall i: nat, k: nat, r: nat, c: nat :: i < rt && k < ct && r < TILE && c < TILE ==>
      x(i, k)(r, c) == m(i * TILE + r, k * TILE + c)
  }

  // Entry (r, c) of a product tile is the entry of the element-level product.
  lemma {:induction false} TileDot<E(!new)>(g: Alg<E>, a: Matrix<E>, b: Matrix<E>, x: Matrix<Tile<E>>, y: Matrix<Tile<E>>,
                                            mt: nat, nt: nat, kt: nat, i: nat, j: nat, r: nat, c: nat, k: nat)
    requires Exact(g) && TilesOf(x, a, mt, kt) && TilesOf(y, b, kt, nt)
    requires i < mt && j < nt && r < TILE && c < TILE && k <= kt
    ensures Dot(TileAlg(g), x, y, i, j, k)(r, c) == Dot(g, a, b, i * TILE + r, j * TILE + c, k * TILE)
  {
    hide Dot, Alg.Mac, TileAlg, Exact;
    DotStep(TileAlg(g), x, y, i, j, k);
    if k == 0 {
      DotStep(g, a, b, i * TILE + r, j * TILE + c, 0);
      TileMac(g, x(i, j), x(i, j), y(i, j), r, c);
    } else {
      TileDot(g, a, b, x, y, mt, nt, kt, i, j, r, c, k - 1);
      TileMac(g, Dot(TileAlg(g), x, y, i, j, k - 1), x(i, k - 1), y(k - 1, j), r, c);
      DotSplit(g, a, b, i * TILE + r, j * TILE + c, (k - 1) * TILE, x(i, k - 1), y(k - 1, j), r, c, TILE);
    }
  }

  // ---------- from row-major inputs to row-major outputs ----------

  // Tile `id` of a tilized matrix in DRAM.
  function DramOf<E>(g: Alg<E>, store: seq<E>): Dram<Tile<E>> {
    id => ((r, c) => var at := (id * TILE + r) * TILE + c; if 0 <= at < |store| then store[at] else g.zero)
  }

  // The tiles of the output tensor read back one after the other.
  function ReadBack<E>(g: Alg<E>, out: map<int, Tile<E>>, rt: nat, ct: nat): (s: seq<E>)
    ensures Sized(s, rt, ct)
  {
    seq((rt * TILE) * (ct * TILE), t requires 0 <= t < (rt * TILE) * (ct * TILE) =>
      var id := t / TILE / TILE;
      if id in out then out[id](t / TILE % TILE, t % TILE) else g.zero)
  }

  lemma TilizedTiles<E>(g: Alg<E>, m: seq<E>, rt: nat, ct: nat, i: nat, k: nat, r: nat, c: nat)
    requires Sized(m, rt, ct) && i < rt && k < ct && r < TILE && c < TILE
    ensures DramOf(g, Tilized(m, rt, ct))(i * ct + k)(r, c) == Elements(g, m, ct * TILE)(i * TILE + r, k * TILE + c)
  {
    TilizedAt(m, rt, ct, i, k, r, c);
    hide Tilized;
  }

  lemma StoredTiles<E>(g: Alg<E>, a: seq<E>, b: seq<E>, mt: nat, nt: nat, kt: nat)
    requires Sized(a, mt, kt) && Sized(b, kt, nt)
    ensures TilesOf(GlobalA(DramOf(g, Tilized(a, mt, kt)), kt), Elements(g, a, kt * TILE), mt, kt)
    ensures TilesOf(GlobalB(DramOf(g, Tilized(b, kt, nt)), nt), Elements(g, b, nt * TILE), kt, nt)
  {
    hide DramOf, Elements, Tilized;
    var x, y := GlobalA(DramOf(g, Tilized(a, mt, kt)), kt), GlobalB(DramOf(g, Tilized(b, kt, nt)), nt);
    forall i: nat, k: nat, r: nat, c: nat | i < mt && k < kt && r < TILE && c < TILE
      ensures x(i, k)(r, c) == Elements(g, a, kt * TILE)(i * TILE + r, k * TILE + c)
    {
      TilizedTiles(g, a, mt, kt, i, k, r, c);
    }
    forall k: nat, j: nat, r: nat, c: nat | k < kt && j < nt && r < TILE && c < TILE
      ensures y(k, j)(r, c) == Elements(g, b, nt * TILE)(k * TILE + r, j * TILE + c)
    {
      TilizedTiles(g, b, kt, nt, k, j, r, c);
    }
  }

  lemma ReadBackAt<E>(g: Alg<E>, out: map<int, Tile<E>>, mt: nat, nt: nat, i: nat, j: nat, r: nat, c: nat)
    requires i < mt && j < nt && r < TILE && c < TILE && i * nt + j in out
    ensures TiledIndex(nt, i, j, r, c) < |ReadBack(g, out, mt, nt)|
    ensures ReadBack(g, out, mt, nt)[TiledIndex(nt, i, j, r, c)] == out[i * nt + j](r, c)
  {
    IndexBounds(mt, nt, i, j, r, c);
    DivModUnique((i * nt + j) * TILE + r, c, TILE);
    DivModUnique(i * nt + j, r, TILE);
  }

  lemma ReferenceAt<E>(g: Alg<E>, a: seq<E>, b: seq<E>, mt: nat, nt: nat, kt: nat, i: nat, j: nat, r: nat, c: nat)
    requires i < mt && j < nt && r < TILE && c < TILE
    ensures RowMajorIndex(nt, i, j, r, c) < (mt * TILE) * (nt * TILE)
    ensures Reference(g, a, b, mt * TILE, nt * TILE, kt * TILE)[RowMajorIndex(nt, i, j, r, c)]
         == Entry(g, a, b, nt * TILE, kt * TILE, i * TILE + r, j * TILE + c, kt * TILE)
  {
    hide Entry;
    IndexBounds(mt, nt, i, j, r, c);
    FlatBound(j, c, nt, TILE);
    DivModUnique(i * TILE + r, j * TILE + c, nt * TILE);
  }

  // The block-matrix theorem: an output tensor that holds the tile-level product of two
  // tilized matrices, read back and untilized, is the reference product of the two.
  lemma BlockMatrixProduct<E(!new)>(g: Alg<E>, a: seq<E>, b: seq<E>, s: Shape,
                                    before: map<int, Tile<E>>, after: map<int, Tile<E>>)
    requires Exact(g) && Sized(a, s.mt, s.kt) && Sized(b, s.kt, s.nt)
    requires HoldsProduct(TileAlg(g), DramOf(g, Tilized(a, s.mt, s.kt)), DramOf(g, Tilized(b, s.kt, s.nt)), s, before, after)
    ensures Untilized(ReadBack(g, after, s.mt, s.nt), s.mt, s.nt)
         == Reference(g, a, b, s.mt * TILE, s.nt * TILE, s.kt * TILE)
  {
    hide Exact, Untilized, Reference, ReadBack, DramOf, Tilized, TileAlg, Entry, RowMajorIndex, TiledIndex, ProductAt;
    var da, db := DramOf(g, Tilized(a, s.mt, s.kt)), DramOf(g, Tilized(b, s.kt, s.nt));
    var result, want := Untilized(ReadBack(g, after, s.mt, s.nt), s.mt, s.nt), Reference(g, a, b, s.mt * TILE, s.nt * TILE, s.kt * TILE);
    forall t: nat | t < |result|
      ensures result[t] == want[t]
    {
      var i, j, r, c := RowMajorPlace(s.mt, s.nt, t);
      assert ProductAt(TileAlg(g), da, db, s, after, i, j);
      EntryOfProduct(g, a, b, s, after, i, j, r, c);
    }
  }

  lemma EntryOfProduct<E(!new)>(g: Alg<E>, a: seq<E>, b: seq<E>, s: Shape, after: map<int, Tile<E>>, i: nat, j: nat, r: nat, c: nat)
    requires Exact(g) && Sized(a, s.mt, s.kt) && Sized(b, s.kt, s.nt)
    requires i < s.mt && j < s.nt && r < TILE && c < TILE
    requires ProductAt(TileAlg(g), DramOf(g, Tilized(a, s.mt, s.kt)), DramOf(g, Tilized(b, s.kt, s.nt)), s, after, i, j)
    ensures var t := RowMajorIndex(s.nt, i, j, r, c);
            && t < (s.mt * TILE) * (s.nt * TILE)
            && Untilized(ReadBack(g, after, s.mt, s.nt), s.mt, s.nt)[t]
            == Reference(g, a, b, s.mt * TILE, s.nt * TILE, s.kt * TILE)[t]
  {
    hide Exact, Untilized, Reference, ReadBack, DramOf, Tilized, TileAlg, RowMajorIndex, TiledIndex, Elements,
         TilesOf, GlobalA, GlobalB, Dot;
    StoredTiles(g, a, b, s.mt, s.nt, s.kt);
    ReferenceAt(g, a, b, s.mt, s.nt, s.kt, i, j, r, c);
    ReadBackAt(g, after, s.mt, s.nt, i, j, r, c);
    TilizedAt(ReadBack(g, after, s.mt, s.nt), s.mt, s.nt, i, j, r, c);
    TileDot(g, Elements(g, a, s.kt * TILE), Elements(g, b, s.nt * TILE),
            GlobalA(DramOf(g, Tilized(a, s.mt, s.kt)), s.kt), GlobalB(DramOf(g, Tilized(b, s.kt, s.nt)), s.nt),
            s.mt, s.nt, s.kt, i, j, r, c, s.kt);
  }

  // From end to end: tilize two matrices, run the device on them in any interleaving until it
  // can go no further, read the output tensor back and untilize it. The result is exactly what
  // matmul_reference computes.
  lemma EndToEnd<E(!new)>(g: Alg<E>, a: seq<E>, b: seq<E>, s: Shape, ds: seq<Machines<Tile<E>>>)
    requires Exact(g) && Sized(a, s.mt, s.kt) && Sized(b, s.kt, s.nt)
    requires s.Valid() && RowsFit(s) && ColsFit(s)
    requires var nets := GridNets(TileAlg(g), DramOf(g, Tilized(a, s.mt, s.kt)), DramOf(g, Tilized(b, s.kt, s.nt)), s);
             IsDeviceRun(nets, ds) && Stuck(nets, ds[|ds| - 1])
    ensures Untilized(ReadBack(g, ds[|ds| - 1].out, s.mt, s.nt), s.mt, s.nt)
         == Reference(g, a, b, s.mt * TILE, s.nt * TILE, s.kt * TILE)
  {
    hide Exact, Untilized, Reference, ReadBack, DramOf, Tilized, TileAlg, GridNets, RowsFit, ColsFit, AllDone,
         AllValid, AllInit, MoveStep, HoldsProduct, CanMove, TotalSteps, Sized, Shape.Valid;
    var da, db := DramOf(g, Tilized(a, s.mt, s.kt)), DramOf(g, Tilized(b, s.kt, s.nt));
    DeviceComputesProduct(TileAlg(g), da, db, s, ds);
    BlockMatrixProduct(g, a, b, s, ds[0].out, ds[|ds| - 1].out);
  }

  // ---------- integers ----------

  function Integers(): Alg<int> { Alg(0, (x, y) => x + y, (x, y) => x * y) }

  // The sum over l < len of a[i, l] * b[l, j], for an m x k and a k x n matrix in row-major order.
  function SumOfProducts(a: seq<int>, b: seq<int>, m: nat, n: nat, k: nat, i: nat, j: nat, len: nat): int
    requires |a| == m * k && |b| == k * n && i < m && j < n && len <= k
  {
    if len == 0 then 0
    else
      FlatBound(i, len - 1, m, k);
      FlatBound(len - 1, j, k, n);
      SumOfProducts(a, b, m, n, k, i, j, len - 1) + a[i * k + (len - 1)] * b[(len - 1) * n + j]
  }

  lemma {:induction false} EntryIsSum(a: seq<int>, b: seq<int>, m: nat, n: nat, k: nat, i: nat, j: nat, len: nat)
    requires |a| == m * k && |b| == k * n && i < m && j < n && len <= k
    ensures Entry(Integers(), a, b, n, k, i, j, len) == SumOfProducts(a, b, m, n, k, i, j, len)
  {
    if len > 0 {
      EntryIsSum(a, b, m, n, k, i, j, len - 1);
      FlatBound(i, len - 1, m, k);
      FlatBound(len - 1, j, k, n);
    }
  }

  lemma IntegersAreExact()
    ensures Exact(Integers())
  {
  }

  // For integers, then, the device delivers the matrix product: no hypothesis on the
  // arithmetic is left.
  lemma IntegerProduct(a: seq<int>, b: seq<int>, s: Shape, ds: seq<Machines<Tile<int>>>, i: nat, j: nat)
    requires Sized(a, s.mt, s.kt) && Sized(b, s.kt, s.nt) && s.Valid() && RowsFit(s) && ColsFit(s)
    requires var nets := GridNets(TileAlg(Integers()), DramOf(Integers(), Tilized(a, s.mt, s.kt)),
                                  DramOf(Integers(), Tilized(b, s.kt, s.nt)), s);
             IsDeviceRun(nets, ds) && Stuck(nets, ds[|ds| - 1])
    requires i < s.mt * TILE && j < s.nt * TILE
    ensures var m, n, k := s.mt * TILE, s.nt * TILE, s.kt * TILE;
            var c := Untilized(ReadBack(Integers(), ds[|ds| - 1].out, s.mt, s.nt), s.mt, s.nt);
            && 0 <= i * n + j < |c| == m * n
            && c[i * n + j] == SumOfProducts(a, b, m, n, k, i, j, k)
  {
    hide *;
    var m, n, k := s.mt * TILE, s.nt * TILE, s.kt * TILE;
    IntegersAreExact();
    EndToEnd(Integers(), a, b, s, ds);
    FlatBound(i, j, m, n);
    SizedIs(a, s.mt, s.kt);
    SizedIs(b, s.kt, s.nt);
    ReferenceEntry(a, b, m, n, k, i, j);
  }

  lemma SizedIs<T>(x: seq<T>, rt: nat, ct: nat)
    requires Sized(x, rt, ct)
    ensures |x| == (rt * TILE) * (ct * TILE)
  {
  }

  lemma ReferenceEntry(a: seq<int>, b: seq<int>, m: nat, n: nat, k: nat, i: nat, j: nat)
    requires |a| == m * k && |b| == k * n && i < m && j < n && 0 <= i * n + j < m * n
    ensures Reference(Integers(), a, b, m, n, k)[i * n + j] == SumOfProducts(a, b, m, n, k, i, j, k)
  {
    hide Entry;
    DivModUnique(i, j, n);
    EntryIsSum(a, b, m, n, k, i, j, k);
  }
}
