// The host side of the kernels: the argument lists that create_program_compute_mm builds
// for each core of a grid, and why they make the kernels' assumptions true.
module Host {
  import opened Arith
  import opened Tiles
  import opened CoreNet
  import opened Output

  // A tiled problem, a grid of cores, and a choice of block sizes.
  datatype Shape = Shape(
    mt: nat, nt: nat, kt: nat,       // tiles of M, N and K
    coresY: nat, coresX: nat,
    obh: nat, obw: nat, kw: nat,     // output block, K block width
    sh: nat, sw: nat)                // output sub-block
  {
    function PerCoreM(): int
      requires 0 < coresY
    {
      (mt - 1) / coresY + 1
    }

    function PerCoreN(): int
      requires 0 < coresX
    {
      (nt - 1) / coresX + 1
    }

    // What the block searches deliver.
    ghost predicate Valid() {
      && 0 < mt && 0 < nt && 0 < kt && 0 < coresY && 0 < coresX
      && 0 < obh && 0 < obw && 0 < kw && 0 < sh && 0 < sw
      && PerCoreM() % obh == 0 && PerCoreN() % obw == 0 && kt % kw == 0
      && obh % sh == 0 && obw % sw == 0
    }
  }

  // x % m, with m itself in place of 0: the size of the last piece when x is cut into m's.
  function LastPiece(x: int, m: int): int
    requires 0 < m
  {
    if x % m == 0 then m else x % m
  }

  // Number of pieces of size m needed to cover x.
  function PieceCount(x: int, m: int): int
    requires 0 < m
  {
    (x - 1) / m + 1
  }

  lemma PiecesOf(x: int, m: int)
    requires 0 < x && 0 < m
    ensures 0 < LastPiece(x, m) <= m
    ensures 0 < PieceCount(x, m)
    ensures (PieceCount(x, m) - 1) * m + LastPiece(x, m) == x
  {
    SplitAt(x, m, x / m, x % m);
  }

  lemma SplitAt(x: int, m: int, q: int, r: int)
    requires 0 < x && 0 <= r < m && x == q * m + r
    ensures (x - 1) / m == (if r == 0 then q - 1 else q) && 0 <= (x - 1) / m
    ensures ((x - 1) / m) * m + (if r == 0 then m else r) == x
  {
    if q < 0 {
      MulMono(1, -q, m);
    }
    if r == 0 {
      assert (q - 1) * m == q * m - m;
      QuotientUnique(x - 1, m, q - 1, m - 1);
    } else {
      QuotientUnique(x - 1, m, q, r - 1);
    }
  }

  lemma PiecesFit(x: int, y: int, m: int)
    requires 0 < x <= y && 0 < m && y % m == 0
    ensures PieceCount(x, m) <= y / m && 0 < y / m && (y / m) * m == y
  {
    PiecesOf(x, m);
    var c := PieceCount(x, m);
    assert y == (y / m) * m;
    if c > y / m {
      MulMono(y / m, c - 1, m);
    }
  }

  // ---------- argument lists ----------

  // Reader arguments 1..15 (tile-id arithmetic and loop bounds; addresses and NoC left out).
  datatype ReaderArgs = ReaderArgs(
    startTileId: int, strideW: int, strideH: int, nextBlockStride: int,
    blockW: int, blockH: int, blockNumTiles: int, numBlocks: int,
    lastBlockH: int, numBlocksH: int, numBlocksW: int, hDimStride: int)

  // Writer arguments 1..35.
  datatype WriterArgs = WriterArgs(
    in1StartTileId: int, in1StrideW: int, in1StrideH: int, in1NextBlockStride: int,
    in1BlockW: int, in1BlockH: int, in1BlockNumTiles: int, numBlocks: int,
    outStartTileId: int, outStrideW: int, outStrideH: int, outNextSubW: int, outNextSubH: int,
    subW: int, subH: int, subTiles: int, numSubW: int, numSubH: int,
    lastBlockW: int,
    nonzeroSubH: int, lastSubH: int, hSkip: int,
    nonzeroSubW: int, lastSubW: int, rowSkip: int, wSkip: int,
    numBlocksH: int, numBlocksW: int, in1WDimStride: int, outHDimStride: int, outWDimStride: int)

  // Compile-time arguments of the compute kernel.
  datatype ComputeArgs = ComputeArgs(
    in0BlockW: int, in0NumSub: int, in0BlockTiles: int, in0SubTiles: int,
    in1NumSub: int, in1BlockTiles: int, in1PerCoreW: int, numBlocks: int,
    subH: int, subW: int, subTiles: int, batch: int, numBlocksW: int, numBlocksH: int)

  function LastCoreRows(s: Shape): int
    requires s.Valid()
  {
    PerCorePositive(s);
    LastPiece(s.mt, s.PerCoreM())
  }

  function LastCoreCols(s: Shape): int
    requires s.Valid()
  {
    PerCorePositive(s);
    LastPiece(s.nt, s.PerCoreN())
  }

  lemma PerCorePositive(s: Shape)
    requires 0 < s.mt && 0 < s.nt && 0 < s.coresY && 0 < s.coresX
    ensures 0 < s.PerCoreM() && 0 < s.PerCoreN()
  {
  }

  function ValidM(s: Shape, y: nat): int
    requires s.Valid()
  {
    if y == s.coresY - 1 then LastCoreRows(s) else s.PerCoreM()
  }

  function ValidN(s: Shape, x: nat): int
    requires s.Valid()
  {
    if x == s.coresX - 1 then LastCoreCols(s) else s.PerCoreN()
  }

  function LastOuterH(s: Shape, y: nat): int
    requires s.Valid()
  {
    LastPiece(ValidM(s, y), s.obh)
  }

  function LastOuterW(s: Shape, x: nat): int
    requires s.Valid()
  {
    LastPiece(ValidN(s, x), s.obw)
  }

  function BuildReaderArgs(s: Shape, y: nat): ReaderArgs
    requires s.Valid()
  {
    ReaderArgs(
      y * s.PerCoreM() * s.kt, 1, s.kt, s.kw,
      s.kw, s.obh, s.kw * s.obh, s.kt / s.kw,
      LastOuterH(s, y), s.PerCoreM() / s.obh, s.PerCoreN() / s.obw, s.obh * s.kt)
  }

  function BuildComputeArgs(s: Shape): ComputeArgs
    requires s.Valid()
  {
    var n0, n1 := s.obh / s.sh, s.obw / s.sw;
    ComputeArgs(
      s.kw, n0, s.sh * s.kw * n0, s.sh * s.kw,
      n1, s.sw * s.kw * n1, s.sw * n1, s.kt / s.kw,
      s.sh, s.sw, s.sh * s.sw, 1, s.PerCoreN() / s.obw, s.PerCoreM() / s.obh)
  }

  // Address skips are in tiles here; the kernel's are multiplied by the tile size.
  function BuildWriterArgs(s: Shape, y: nat, x: nat): WriterArgs
    requires s.Valid()
  {
    var h, w := LastOuterH(s, y), LastOuterW(s, x);
    var n0, n1 := s.obh / s.sh, s.obw / s.sw;
    var nzH, nzW := PieceCount(h, s.sh), PieceCount(w, s.sw);
    WriterArgs(
      x * s.PerCoreN(), 1, s.nt, s.kw * s.nt,
      s.obw, s.kw, s.obw * s.kw, s.kt / s.kw,
      y * s.PerCoreM() * s.nt + x * s.PerCoreN(), 1, s.nt, s.sw, s.sh * s.nt,
      s.sw, s.sh, s.sh * s.sw, n1, n0,
      w,
      nzH, LastPiece(h, s.sh), (n0 - nzH) * (s.obw * s.sh),
      nzW, LastPiece(w, s.sw), s.sw - LastPiece(w, s.sw), s.sh * s.sw * (n1 - nzW),
      s.PerCoreM() / s.obh, s.PerCoreN() / s.obw, s.obw, s.obh * s.nt, s.obw)
  }

  // ---------- the core that these arguments describe ----------

  // The tensors in DRAM: tile id to tile.
  type Dram<T> = int -> T

  function RowsRead(ra: ReaderArgs): int { (ra.numBlocksH - 1) * ra.blockH + ra.lastBlockH }
  function ColsRead(wa: WriterArgs): int { (wa.numBlocksW - 1) * wa.in1BlockW + wa.lastBlockW }

  // Local row r and inner tile k of A, as the in0 reader delivers it: zero below the last
  // valid row. Likewise for B.
  function LocalA<T>(g: Alg<T>, a: Dram<T>, ra: ReaderArgs): Matrix<T> {
    (r, k) => if r < RowsRead(ra) then a(ra.startTileId + r * ra.strideH + k) else g.zero
  }

  function LocalB<T>(g: Alg<T>, b: Dram<T>, wa: WriterArgs): Matrix<T> {
    (k, c) => if c < ColsRead(wa) then b(wa.in1StartTileId + k * wa.in1StrideH + c) else g.zero
  }

  lemma Quotients(s: Shape)
    requires s.Valid()
    ensures 0 < s.PerCoreM() && 0 < s.PerCoreN()
    ensures 0 < s.PerCoreM() / s.obh && 0 < s.PerCoreN() / s.obw && 0 < s.kt / s.kw
    ensures 0 < s.obh / s.sh && 0 < s.obw / s.sw
    ensures (s.PerCoreM() / s.obh) * s.obh == s.PerCoreM() && (s.PerCoreN() / s.obw) * s.obw == s.PerCoreN()
    ensures (s.obh / s.sh) * s.sh == s.obh && (s.obw / s.sw) * s.sw == s.obw
    ensures (s.kt / s.kw) * s.kw == s.kt
  {
    PerCorePositive(s);
    PiecesFit(1, s.PerCoreM(), s.obh);
    PiecesFit(1, s.PerCoreN(), s.obw);
    PiecesFit(1, s.kt, s.kw);
    PiecesFit(1, s.obh, s.sh);
    PiecesFit(1, s.obw, s.sw);
  }

  lemma ValidSizes(s: Shape, y: nat, x: nat)
    requires s.Valid()
    ensures 0 < ValidM(s, y) <= s.PerCoreM() && 0 < ValidN(s, x) <= s.PerCoreN()
    ensures 0 < LastOuterH(s, y) <= s.obh && 0 < LastOuterW(s, x) <= s.obw
  {
    PerCorePositive(s);
    hide Shape.PerCoreM, Shape.PerCoreN, LastPiece;
    PiecesOf(s.mt, s.PerCoreM());
    PiecesOf(s.nt, s.PerCoreN());
    PiecesOf(ValidM(s, y), s.obh);
    PiecesOf(ValidN(s, x), s.obw);
  }

  // The numbers the kernels get from a host's argument lists.
  function CoreOf<T>(g: Alg<T>, a: Dram<T>, b: Dram<T>, s: Shape, y: nat, x: nat): Net<T>
    requires s.Valid()
  {
    Quotients(s);
    ValidSizes(s, y, x);
    var ra, wa, ca := BuildReaderArgs(s, y), BuildWriterArgs(s, y, x), BuildComputeArgs(s);
    WriterCounts(s, y, x);
    Net(g, LocalA(g, a, ra), LocalB(g, b, wa),
        ca.numBlocksH, ca.numBlocksW, ca.numBlocks, ca.in0BlockW,
        ca.in0NumSub, ca.in1NumSub, ca.subH, ca.subW,
        Edge(wa.nonzeroSubH, wa.lastSubH, wa.hSkip, wa.nonzeroSubW, wa.lastSubW, wa.rowSkip, wa.wSkip),
        wa.outStartTileId, wa.outStrideH)
  }

  lemma WriterCounts(s: Shape, y: nat, x: nat)
    requires s.Valid()
    ensures var wa := BuildWriterArgs(s, y, x);
            && 0 < wa.nonzeroSubH <= s.obh / s.sh && 0 < wa.nonzeroSubW <= s.obw / s.sw
            && 0 < wa.lastSubH <= s.sh && 0 < wa.lastSubW <= s.sw
            && 0 <= wa.hSkip && 0 <= wa.wSkip && 0 <= wa.rowSkip
            && (wa.nonzeroSubH - 1) * s.sh + wa.lastSubH == LastOuterH(s, y)
            && (wa.nonzeroSubW - 1) * s.sw + wa.lastSubW == LastOuterW(s, x)
  {
    ValidSizes(s, y, x);
    var h, w := LastOuterH(s, y), LastOuterW(s, x);
    PiecesOf(h, s.sh);
    PiecesOf(w, s.sw);
    PiecesFit(h, s.obh, s.sh);
    PiecesFit(w, s.obw, s.sw);
    SkipSigns(s.obh / s.sh, PieceCount(h, s.sh), s.obw * s.sh);
    SkipSigns(s.obw / s.sw, PieceCount(w, s.sw), s.sh * s.sw);
  }

  lemma SkipSigns(n: int, m: int, k: int)
    requires m <= n && 0 <= k
    ensures 0 <= (n - m) * k && 0 <= k * (n - m)
  {
  }

  // The host's numbers have the relations the kernels rely on.
  lemma CoreIsValid<T>(g: Alg<T>, a: Dram<T>, b: Dram<T>, s: Shape, y: nat, x: nat)
    requires s.Valid()
    ensures var n := CoreOf(g, a, b, s, y, x);
            && n.Valid()
            && n.Obh() == s.obh && n.Obw() == s.obw && n.nb * n.kw == s.kt
            && n.kw == s.kw && n.sh == s.sh && n.sw == s.sw
            && n.nbh * s.obh == s.PerCoreM() && n.nbw * s.obw == s.PerCoreN()
            && CoreRows(n) == (n.nbh - 1) * s.obh + LastOuterH(s, y)
            && CoreCols(n) == (n.nbw - 1) * s.obw + LastOuterW(s, x)
  {
    Quotients(s);
    ValidSizes(s, y, x);
    WriterCounts(s, y, x);
    var wa := BuildWriterArgs(s, y, x);
    SkipForms(s.obh / s.sh - wa.nonzeroSubH, s.obw / s.sw, s.sw, s.sh, s.obw);
    SkipForms(s.obw / s.sw - wa.nonzeroSubW, 1, s.sw, s.sh, s.sw);
    hide LastPiece, PieceCount, Shape.PerCoreM, Shape.PerCoreN, LastOuterH, LastOuterW, LocalA, LocalB;
  }

  lemma SkipForms(d: int, n: int, sw: int, sh: int, w: int)
    requires n * sw == w
    ensures d * (w * sh) == d * (n * (sh * sw))
    ensures sh * sw * d == d * (sh * sw)
  {
    assert n * (sh * sw) == (n * sw) * sh;
  }
}
