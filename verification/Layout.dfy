// Tile layout: the order in which 32 x 32 tiles are stored, and the conversions between it
// and row-major order.
module Layout {
  import opened Arith

  const TILE := 32

  datatype Result<T> = Ok(value: T) | WrongDimensions | WrongSize

  // Element (r, c) of tile (a, b), in tile order and in row-major order, for ct tiles per row.
  function TiledIndex(ct: nat, a: nat, b: nat, r: nat, c: nat): nat {
    ((a * ct + b) * TILE + r) * TILE + c
  }

  function RowMajorIndex(ct: nat, a: nat, b: nat, r: nat, c: nat): nat {
    (a * TILE + r) * (ct * TILE) + (b * TILE + c)
  }

  // From a place in tile order to the place of the same element in row-major order, and back.
  function ToRowMajor(ct: nat, t: nat): nat
    requires 0 < ct
  {
    RowMajorIndex(ct, t / TILE / TILE / ct, t / TILE / TILE % ct, t / TILE % TILE, t % TILE)
  }

  function ToTiled(ct: nat, i: nat): nat
    requires 0 < ct
  {
    Positive(ct, TILE);
    var row, col := i / (ct * TILE), i % (ct * TILE);
    TiledIndex(ct, row / TILE, col / TILE, row % TILE, col % TILE)
  }

  lemma ToRowMajorAt(ct: nat, a: nat, b: nat, r: nat, c: nat)
    requires b < ct && r < TILE && c < TILE
    ensures ToRowMajor(ct, TiledIndex(ct, a, b, r, c)) == RowMajorIndex(ct, a, b, r, c)
  {
    hide RowMajorIndex;
    DivModUnique((a * ct + b) * TILE + r, c, TILE);
    DivModUnique(a * ct + b, r, TILE);
    DivModUnique(a, b, ct);
  }

  lemma ToTiledAt(ct: nat, a: nat, b: nat, r: nat, c: nat)
    requires b < ct && r < TILE && c < TILE
    ensures ToTiled(ct, RowMajorIndex(ct, a, b, r, c)) == TiledIndex(ct, a, b, r, c)
  {
    hide TiledIndex;
    FlatBound(b, c, ct, TILE);
    DivModUnique(a * TILE + r, b * TILE + c, ct * TILE);
    DivModUnique(a, r, TILE);
    DivModUnique(b, c, TILE);
  }

  // Every place in tile order is some element of some tile; likewise in row-major order.
  lemma TiledPlace(rt: nat, ct: nat, t: nat) returns (a: nat, b: nat, r: nat, c: nat)
    requires t < (rt * TILE) * (ct * TILE)
    ensures a < rt && b < ct && r < TILE && c < TILE && t == TiledIndex(ct, a, b, r, c)
  {
    assert (rt * TILE) * (ct * TILE) == ((rt * ct) * TILE) * TILE;
    DivModBound(t, (rt * ct) * TILE, TILE);
    DivModBound(t / TILE, rt * ct, TILE);
    if ct == 0 {
      assert false;
    }
    DivModBound(t / TILE / TILE, rt, ct);
    a, b, r, c := t / TILE / TILE / ct, t / TILE / TILE % ct, t / TILE % TILE, t % TILE;
  }

  lemma RowMajorPlace(rt: nat, ct: nat, i: nat) returns (a: nat, b: nat, r: nat, c: nat)
    requires i < (rt * TILE) * (ct * TILE)
    ensures a < rt && b < ct && r < TILE && c < TILE && i == RowMajorIndex(ct, a, b, r, c)
  {
    if ct == 0 {
      assert false;
    }
    DivModBound(i, rt * TILE, ct * TILE);
    var row, col := i / (ct * TILE), i % (ct * TILE);
    DivModBound(row, rt, TILE);
    DivModBound(col, ct, TILE);
    a, b, r, c := row / TILE, col / TILE, row % TILE, col % TILE;
  }

  lemma IndexBounds(rt: nat, ct: nat, a: nat, b: nat, r: nat, c: nat)
    requires a < rt && b < ct && r < TILE && c < TILE
    ensures TiledIndex(ct, a, b, r, c) < (rt * TILE) * (ct * TILE)
    ensures RowMajorIndex(ct, a, b, r, c) < (rt * TILE) * (ct * TILE)
  {
    FlatBound(a, b, rt, ct);
    FlatBound(a * ct + b, r, rt * ct, TILE);
    FlatBound((a * ct + b) * TILE + r, c, (rt * ct) * TILE, TILE);
    assert (rt * TILE) * (ct * TILE) == ((rt * ct) * TILE) * TILE;
    FlatBound(a, r, rt, TILE);
    FlatBound(b, c, ct, TILE);
    FlatBound(a * TILE + r, b * TILE + c, rt * TILE, ct * TILE);
  }

  // The two index maps are inverse bijections on the elements of the matrix.
  lemma IndexBijection(rt: nat, ct: nat, t: nat)
    requires t < (rt * TILE) * (ct * TILE)
    ensures 0 < ct
    ensures ToRowMajor(ct, t) < (rt * TILE) * (ct * TILE) && ToTiled(ct, ToRowMajor(ct, t)) == t
    ensures ToTiled(ct, t) < (rt * TILE) * (ct * TILE) && ToRowMajor(ct, ToTiled(ct, t)) == t
  {
    hide ToRowMajor, ToTiled, TiledIndex, RowMajorIndex;
    var a, b, r, c := TiledPlace(rt, ct, t);
    ToRowMajorAt(ct, a, b, r, c);
    ToTiledAt(ct, a, b, r, c);
    IndexBounds(rt, ct, a, b, r, c);
    var a', b', r', c' := RowMajorPlace(rt, ct, t);
    ToRowMajorAt(ct, a', b', r', c');
    ToTiledAt(ct, a', b', r', c');
    IndexBounds(rt, ct, a', b', r', c');
  }

  // ---------- whole matrices ----------

  predicate Sized<T>(m: seq<T>, rt: nat, ct: nat) { |m| == (rt * TILE) * (ct * TILE) }

  function Tilized<T>(m: seq<T>, rt: nat, ct: nat): (s: seq<T>)
    requires Sized(m, rt, ct)
    ensures |s| == |m|
  {
    seq(|m|, t requires 0 <= t < |m| => IndexBijection(rt, ct, t); m[ToRowMajor(ct, t)])
  }

  function Untilized<T>(m: seq<T>, rt: nat, ct: nat): (s: seq<T>)
    requires Sized(m, rt, ct)
    ensures |s| == |m|
  {
    seq(|m|, i requires 0 <= i < |m| => IndexBijection(rt, ct, i); m[ToTiled(ct, i)])
  }

  // The two conversions undo each other, in both orders.
  lemma TilizeRoundTrip<T>(m: seq<T>, rt: nat, ct: nat)
    requires Sized(m, rt, ct)
    ensures Untilized(Tilized(m, rt, ct), rt, ct) == m
    ensures Tilized(Untilized(m, rt, ct), rt, ct) == m
  {
    hide ToRowMajor, ToTiled;
    forall t: nat | t < |m|
      ensures Untilized(Tilized(m, rt, ct), rt, ct)[t] == m[t]
      ensures Tilized(Untilized(m, rt, ct), rt, ct)[t] == m[t]
    {
      IndexBijection(rt, ct, t);
    }
  }

  // Tilizing rearranges the elements: element (row, col) of a matrix of ct tiles per row goes to
  // tile (row / 32, col / 32), tiles being stored row by row in 1024 places each, and there to
  // row row % 32 and column col % 32; untilizing takes it back.
  lemma TilizedAt<T>(m: seq<T>, rt: nat, ct: nat, a: nat, b: nat, r: nat, c: nat)
    requires Sized(m, rt, ct) && a < rt && b < ct && r < 32 && c < 32
    ensures var t, i := (a * ct + b) * 1024 + r * 32 + c, (32 * a + r) * (32 * ct) + (32 * b + c);
            && 0 <= t < |m| && 0 <= i < |m|
            && Tilized(m, rt, ct)[t] == m[i] && Untilized(m, rt, ct)[i] == m[t]
    ensures TiledIndex(ct, a, b, r, c) == (a * ct + b) * 1024 + r * 32 + c
    ensures RowMajorIndex(ct, a, b, r, c) == (32 * a + r) * (32 * ct) + (32 * b + c)
  {
    IndexForms(ct, a, b, r, c);
    hide ToRowMajor, ToTiled, TiledIndex, RowMajorIndex;
    IndexBounds(rt, ct, a, b, r, c);
    ToRowMajorAt(ct, a, b, r, c);
    ToTiledAt(ct, a, b, r, c);
  }

  lemma IndexForms(ct: nat, a: nat, b: nat, r: nat, c: nat)
    ensures TiledIndex(ct, a, b, r, c) == (a * ct + b) * 1024 + r * 32 + c
    ensures RowMajorIndex(ct, a, b, r, c) == (32 * a + r) * (32 * ct) + (32 * b + c)
  {
  }

  // ---------- the conversions as they are written ----------

  lemma Steps(ct: nat, a: nat, b: nat, r: nat, c: nat)
    ensures TiledIndex(ct, a, b, r, c + 1) == TiledIndex(ct, a, b, r, c) + 1
    ensures TiledIndex(ct, a, b, r + 1, 0) == TiledIndex(ct, a, b, r, TILE)
    ensures TiledIndex(ct, a, b + 1, 0, 0) == TiledIndex(ct, a, b, TILE, 0)
    ensures TiledIndex(ct, a + 1, 0, 0, 0) == TiledIndex(ct, a, ct, 0, 0)
    ensures TiledIndex(ct, 0, 0, 0, 0) == 0
  {
    assert (a + 1) * ct == a * ct + ct;
  }

  lemma LastIndex(rt: nat, ct: nat)
    ensures TiledIndex(ct, rt, 0, 0, 0) == (rt * TILE) * (ct * TILE)
  {
    assert (rt * TILE) * (ct * TILE) == ((rt * ct) * TILE) * TILE;
  }

  lemma MulDiv(x: nat)
    requires x % TILE == 0
    ensures (x / TILE) * TILE == x
  {
  }

  method TilizeCompat<T>(input: seq<T>, rows: nat, cols: nat) returns (res: Result<seq<T>>)
    ensures rows % TILE != 0 || cols % TILE != 0 ==> res == WrongDimensions
    ensures rows % TILE == 0 && cols % TILE == 0 && |input| != rows * cols ==> res == WrongSize
    ensures rows % TILE == 0 && cols % TILE == 0 && |input| == rows * cols ==>
              Sized(input, rows / TILE, cols / TILE) && res == Ok(Tilized(input, rows / TILE, cols / TILE))
  {
    if rows % TILE != 0 || cols % TILE != 0 {
      return WrongDimensions;
    }
    if |input| != rows * cols {
      return WrongSize;
    }
    hide Tilized, TiledIndex, RowMajorIndex;
    MulDiv(rows);
    MulDiv(cols);
    ghost var rt, ct := rows / TILE, cols / TILE;
    ghost var want := Tilized(input, rt, ct);
    var output: seq<T> := [];
    var tr := 0;
    ghost var a := 0;
    Steps(ct, 0, 0, 0, 0);
    LastIndex(rt, ct);
    while tr < rows
      invariant tr == a * TILE && a <= rt
      invariant |output| == TiledIndex(ct, a, 0, 0, 0) && output <= want
    {
      var tc := 0;
      ghost var b := 0;
      while tc < cols
        invariant tc == b * TILE && b <= ct
        invariant |output| == TiledIndex(ct, a, b, 0, 0) && output <= want
      {
        for r := 0 to TILE
          invariant |output| == TiledIndex(ct, a, b, r, 0) && output <= want
        {
          for c := 0 to TILE
            invariant |output| == TiledIndex(ct, a, b, r, c) && output <= want
          {
            TilizedAt(input, rt, ct, a, b, r, c);
            SourceIndex(ct, a, b, r, c, cols);
            PrefixPush(output, want);
            output := output + [input[(tr + r) * cols + (tc + c)]];
            Steps(ct, a, b, r, c);
          }
          Steps(ct, a, b, r, 0);
        }
        Steps(ct, a, b, 0, 0);
        tc := tc + TILE;
        b := b + 1;
      }
      Steps(ct, a, 0, 0, 0);
      tr := tr + TILE;
      a := a + 1;
    }
    WholePrefix(output, want);
    res := Ok(output);
  }

  lemma WholePrefix<T>(s: seq<T>, whole: seq<T>)
    requires s <= whole && |s| == |whole|
    ensures s == whole
  {
  }

  lemma PrefixPush<T>(s: seq<T>, whole: seq<T>)
    requires s <= whole && |s| < |whole|
    ensures s + [whole[|s|]] <= whole
  {
  }

  lemma SourceIndex(ct: nat, a: nat, b: nat, r: nat, c: nat, cols: nat)
    requires cols == ct * TILE
    ensures (a * TILE + r) * cols + (b * TILE + c) == RowMajorIndex(ct, a, b, r, c)
  {
  }

  // Row-major places that have been written when `src` elements have been moved.
  ghost predicate Written<T>(output: seq<T>, input: seq<T>, rt: nat, ct: nat, src: nat)
    requires Sized(input, rt, ct) && |output| == |input| && src <= |input|
  {
    forall t: nat :: t < src ==> Moved(output, input, rt, ct, t)
  }

  ghost predicate Moved<T>(output: seq<T>, input: seq<T>, rt: nat, ct: nat, t: nat)
    requires Sized(input, rt, ct) && |output| == |input| && t < |input|
  {
    IndexBijection(rt, ct, t);
    output[ToRowMajor(ct, t)] == input[t]
  }

  lemma WriteNext<T>(output: seq<T>, input: seq<T>, rt: nat, ct: nat, src: nat, dst: nat)
    requires Sized(input, rt, ct) && |output| == |input| && src < |input| && Written(output, input, rt, ct, src)
    requires 0 < ct && dst == ToRowMajor(ct, src) && dst < |input|
    ensures Written(output[dst := input[src]], input, rt, ct, src + 1)
  {
    hide ToRowMajor, ToTiled;
    var output' := output[dst := input[src]];
    forall t: nat | t < src + 1
      ensures Moved(output', input, rt, ct, t)
    {
      IndexBijection(rt, ct, t);
      IndexBijection(rt, ct, src);
      if t < src {
        assert Moved(output, input, rt, ct, t);
      }
    }
  }

  lemma AllWritten<T>(output: seq<T>, input: seq<T>, rt: nat, ct: nat)
    requires Sized(input, rt, ct) && |output| == |input| && Written(output, input, rt, ct, |input|)
    ensures output == Untilized(input, rt, ct)
  {
    hide ToRowMajor, ToTiled;
    forall i: nat | i < |output|
      ensures output[i] == Untilized(input, rt, ct)[i]
    {
      IndexBijection(rt, ct, i);
      assert Moved(output, input, rt, ct, ToTiled(ct, i));
    }
  }

  method UntilizeCompat<T(0)>(input: seq<T>, rows: nat, cols: nat) returns (res: Result<seq<T>>)
    ensures rows % TILE != 0 || cols % TILE != 0 ==> res == WrongDimensions
    ensures rows % TILE == 0 && cols % TILE == 0 && |input| != rows * cols ==> res == WrongSize
    ensures rows % TILE == 0 && cols % TILE == 0 && |input| == rows * cols ==>
              Sized(input, rows / TILE, cols / TILE) && res == Ok(Untilized(input, rows / TILE, cols / TILE))
  {
    if rows % TILE != 0 || cols % TILE != 0 {
      return WrongDimensions;
    }
    if |input| != rows * cols {
      return WrongSize;
    }
    hide Untilized, TiledIndex, RowMajorIndex, Written, ToRowMajor;
    MulDiv(rows);
    MulDiv(cols);
    ghost var rt, ct := rows / TILE, cols / TILE;
    var output := new T[|input|];
    var src, tr := 0, 0;
    ghost var a := 0;
    Steps(ct, 0, 0, 0, 0);
    LastIndex(rt, ct);
    NoneWritten(output[..], input, rt, ct);
    while tr < rows
      invariant tr == a * TILE && a <= rt
      invariant src == TiledIndex(ct, a, 0, 0, 0) <= |input| && Written(output[..], input, rt, ct, src)
    {
      var tc := 0;
      ghost var b := 0;
      while tc < cols
        invariant tc == b * TILE && b <= ct
        invariant src == TiledIndex(ct, a, b, 0, 0) <= |input| && Written(output[..], input, rt, ct, src)
      {
        for r := 0 to TILE
          invariant src == TiledIndex(ct, a, b, r, 0) <= |input| && Written(output[..], input, rt, ct, src)
        {
          for c := 0 to TILE
            invariant src == TiledIndex(ct, a, b, r, c) <= |input| && Written(output[..], input, rt, ct, src)
          {
            IndexBounds(rt, ct, a, b, r, c);
            ToRowMajorAt(ct, a, b, r, c);
            SourceIndex(ct, a, b, r, c, cols);
            var dst := (tr + r) * cols + (tc + c);
            WriteNext(output[..], input, rt, ct, src, dst);
            output[dst] := input[src];
            src := src + 1;
            Steps(ct, a, b, r, c);
          }
          Steps(ct, a, b, r, 0);
        }
        Steps(ct, a, b, 0, 0);
        tc := tc + TILE;
        b := b + 1;
      }
      Steps(ct, a, 0, 0, 0);
      tr := tr + TILE;
      a := a + 1;
    }
    AllWritten(output[..], input, rt, ct);
    res := Ok(output[..]);
  }

  lemma NoneWritten<T>(output: seq<T>, input: seq<T>, rt: nat, ct: nat)
    requires Sized(input, rt, ct) && |output| == |input|
    ensures Written(output, input, rt, ct, 0)
  {
  }
}
