// The two reader kernels of DRAM mode as they are written: nested loops over running tile
// ids and write addresses.
// Line numbers refer to kernels_common/in0_reader_bmm_tile_layout_dram.cpp and
// kernels_common/in1_reader_writer_bmm_tile_layout_dram.cpp.
module Readers {
  import opened Arith
  import opened Tiles
  import opened CoreNet
  import opened Channels
  import opened Host

  // ---------- in0 ----------

  // What the in0 reader's arguments must have to do with a core.
  ghost predicate ReaderMatches<T>(ra: ReaderArgs, a: Dram<T>, n: Net<T>) {
    && n.Valid()
    && ra.strideW == 1 && ra.nextBlockStride == ra.blockW
    && ra.blockW == n.kw && ra.blockH == n.Obh() && ra.blockNumTiles == n.N0()
    && ra.numBlocks == n.nb && ra.numBlocksH == n.nbh && ra.numBlocksW == n.nbw
    && ra.hDimStride == ra.blockH * ra.strideH
    && 0 < ra.lastBlockH <= ra.blockH
    && n.a == LocalA(n.g, a, ra)
  }

  lemma HostReaderMatches<T>(g: Alg<T>, a: Dram<T>, b: Dram<T>, s: Shape, y: nat, x: nat)
    requires s.Valid()
    ensures ReaderMatches(BuildReaderArgs(s, y), a, CoreOf(g, a, b, s, y, x))
  {
    Quotients(s);
    ValidSizes(s, y, x);
    CoreIsValid(g, a, b, s, y, x);
    hide Shape.PerCoreM, Shape.PerCoreN, LastOuterH, LastOuterW, LastPiece, PieceCount, LocalA, LocalB, Net.Valid;
    assert s.kw * s.obh == s.obh * s.kw;
  }

  // Start of block (bh, blk): where the running ids stand at the top of the loops.
  function In0BlockStart(ra: ReaderArgs, bh: nat, blk: nat): int {
    ra.startTileId + bh * ra.hDimStride + blk * ra.nextBlockStride
  }

  // One tile of the block, by row and column.
  lemma In0Tile<T>(ra: ReaderArgs, a: Dram<T>, n: Net<T>, bh: nat, blk: nat, h: nat, w: nat, t: nat)
    requires ReaderMatches(ra, a, n) && bh < n.nbh && h < n.Obh() && w < n.kw && t == h * n.kw + w
    ensures t < n.N0()
    ensures n.In0Block(bh, blk)[t] ==
              if bh < ra.numBlocksH - 1 || h < ra.lastBlockH
              then a(In0BlockStart(ra, bh, blk) + h * ra.strideH + w * ra.strideW)
              else n.g.zero
  {
    n.Sizes();
    hide Net.Valid, Net.Obh, Net.Obw;
    FlatBound(h, w, n.Obh(), n.kw);
    DivModUnique(h, w, n.kw);
    In0Row(ra, bh, h);
    assert n.In0Block(bh, blk)[t] == n.a(bh * n.Obh() + h, blk * n.kw + w);
  }

  lemma In0Row(ra: ReaderArgs, bh: nat, h: nat)
    requires bh < ra.numBlocksH && h < ra.blockH && 0 < ra.lastBlockH <= ra.blockH
    requires ra.hDimStride == ra.blockH * ra.strideH
    ensures bh * ra.blockH + h < RowsRead(ra) <==> bh < ra.numBlocksH - 1 || h < ra.lastBlockH
    ensures bh * ra.hDimStride + h * ra.strideH == (bh * ra.blockH + h) * ra.strideH
  {
    if bh < ra.numBlocksH - 1 {
      MulMono(bh + 1, ra.numBlocksH - 1, ra.blockH);
      assert (bh + 1) * ra.blockH == bh * ra.blockH + ra.blockH;
    }
    assert bh * (ra.blockH * ra.strideH) == (bh * ra.blockH) * ra.strideH;
  }

  lemma N0Is<T>(n: Net<T>, h: nat)
    requires h == n.Obh()
    ensures n.N0() == h * n.kw
  {
  }

  // Lines 57 to 74: fill the reserved block.
  method FillIn0Block<T>(ra: ReaderArgs, a: Dram<T>, zero: T, block: array<T>, bh: nat, blockStart: int,
                         ghost n: Net<T>, ghost blk: nat)
    requires ReaderMatches(ra, a, n) && zero == n.g.zero && block.Length == ra.blockNumTiles
    requires bh < n.nbh && blockStart == In0BlockStart(ra, bh, blk)
    modifies block
    ensures block[..] == n.In0Block(bh, blk)
  {
    hide Net.Valid, Net.Obh, Net.Obw, Net.N0, Net.In0Block, LocalA, In0BlockStart;
    n.Sizes();
    ghost var want := n.In0Block(bh, blk);
    N0Is(n, n.Obh());
    var addr := 0;
    var rowStart := blockStart;
    for h := 0 to ra.blockH
      invariant addr == h * n.kw && addr <= block.Length && 0 <= addr
      invariant rowStart == blockStart + h * ra.strideH
      invariant block[..addr] == want[..addr]
    {
      var tileId := rowStart;
      var validH := bh < ra.numBlocksH - 1 || h < ra.lastBlockH;
      for w := 0 to ra.blockW
        invariant addr == h * n.kw + w && addr <= block.Length
        invariant tileId == rowStart + w * ra.strideW
        invariant block[..addr] == want[..addr]
      {
        In0Tile(ra, a, n, bh, blk, h, w, addr);
        assert want[..addr + 1] == want[..addr] + [want[addr]];
        block[addr] := if validH then a(tileId) else zero;
        addr := addr + 1;
        tileId := tileId + ra.strideW;
      }
      NextRow(h, n.kw, n.Obh());
      rowStart := rowStart + ra.strideH;
    }
  }

  // The whole kernel.
  method In0ReaderKernel<T>(ra: ReaderArgs, a: Dram<T>, zero: T, cb0: CircularBuffer<T>, ghost n: Net<T>)
    requires ReaderMatches(ra, a, n) && zero == n.g.zero
    modifies cb0
    ensures cb0.tiles == old(cb0.tiles) + Stream(n, In0)
  {
    hide Net.Valid, Net.Obh, Net.Obw, Net.N0, Net.In0Block, LocalA, Upto;
    n.Sizes();
    var start := ra.startTileId;
    ghost var before := cb0.tiles;
    PushExtends(n, In0, 0, 0, 0, before);
    for bh := 0 to ra.numBlocksH
      invariant start == ra.startTileId + bh * ra.hDimStride
      invariant cb0.tiles == before + Upto(n, In0, bh, 0, 0)
    {
      for bw := 0 to ra.numBlocksW
        invariant cb0.tiles == before + Upto(n, In0, bh, bw, 0)
      {
        var blockStart := start;
        for blk := 0 to ra.numBlocks
          invariant blockStart == In0BlockStart(ra, bh, blk)
          invariant cb0.tiles == before + Upto(n, In0, bh, bw, blk)
        {
          var block := new T[ra.blockNumTiles](_ => zero);
          FillIn0Block(ra, a, zero, block, bh, blockStart, n, blk);
          blockStart := blockStart + ra.nextBlockStride;
          cb0.PushBack(block);
          PushExtends(n, In0, bh, bw, blk, before);
        }
        PushExtends(n, In0, bh, bw, 0, before);
      }
      start := start + ra.hDimStride;
      PushExtends(n, In0, bh, 0, 0, before);
    }
  }

  // ---------- in1 ----------

  ghost predicate In1Matches<T>(wa: WriterArgs, b: Dram<T>, n: Net<T>) {
    && n.Valid()
    && wa.in1StrideW == 1 && wa.in1NextBlockStride == wa.in1BlockH * wa.in1StrideH
    && wa.in1BlockW == n.Obw() && wa.in1BlockH == n.kw && wa.in1BlockNumTiles == n.N1()
    && wa.numBlocks == n.nb && wa.numBlocksH == n.nbh && wa.numBlocksW == n.nbw
    && wa.in1WDimStride == wa.in1BlockW
    && 0 < wa.lastBlockW <= wa.in1BlockW
    && n.b == LocalB(n.g, b, wa)
  }

  lemma HostIn1Matches<T>(g: Alg<T>, a: Dram<T>, b: Dram<T>, s: Shape, y: nat, x: nat)
    requires s.Valid()
    ensures In1Matches(BuildWriterArgs(s, y, x), b, CoreOf(g, a, b, s, y, x))
  {
    Quotients(s);
    ValidSizes(s, y, x);
    CoreIsValid(g, a, b, s, y, x);
    hide Shape.PerCoreM, Shape.PerCoreN, LastOuterH, LastOuterW, LastPiece, PieceCount, LocalA, LocalB, Net.Valid;
    assert s.obw * s.kw == s.kw * s.obw;
  }

  function In1BlockStart(wa: WriterArgs, bw: nat, blk: nat): int {
    wa.in1StartTileId + bw * wa.in1WDimStride + blk * wa.in1NextBlockStride
  }

  lemma In1Tile<T>(wa: WriterArgs, b: Dram<T>, n: Net<T>, bw: nat, blk: nat, h: nat, w: nat, t: nat)
    requires In1Matches(wa, b, n) && bw < n.nbw && h < n.kw && w < n.Obw() && t == h * n.Obw() + w
    ensures t < n.N1()
    ensures n.In1Block(bw, blk)[t] ==
              if bw < wa.numBlocksW - 1 || w < wa.lastBlockW
              then b(In1BlockStart(wa, bw, blk) + h * wa.in1StrideH + w * wa.in1StrideW)
              else n.g.zero
  {
    n.Sizes();
    hide Net.Valid, Net.Obh, Net.Obw;
    FlatBound(h, w, n.kw, n.Obw());
    DivModUnique(h, w, n.Obw());
    In1Column(wa, bw, w);
    In1Rows(blk, wa.in1BlockH, wa.in1StrideH, h);
    assert n.In1Block(bw, blk)[t] == n.b(blk * n.kw + h, bw * n.Obw() + w);
  }

  lemma In1Rows(blk: nat, k: nat, stride: int, h: nat)
    ensures blk * (k * stride) + h * stride == (blk * k + h) * stride
  {
    assert blk * (k * stride) == (blk * k) * stride;
  }

  lemma In1Column(wa: WriterArgs, bw: nat, w: nat)
    requires bw < wa.numBlocksW && w < wa.in1BlockW && 0 < wa.lastBlockW <= wa.in1BlockW
    ensures bw * wa.in1BlockW + w < ColsRead(wa) <==> bw < wa.numBlocksW - 1 || w < wa.lastBlockW
  {
    if bw < wa.numBlocksW - 1 {
      MulMono(bw + 1, wa.numBlocksW - 1, wa.in1BlockW);
      assert (bw + 1) * wa.in1BlockW == bw * wa.in1BlockW + wa.in1BlockW;
    }
  }

  lemma N1Is<T>(n: Net<T>, w: nat)
    requires w == n.Obw()
    ensures n.N1() == n.kw * w
  {
  }

  // Lines 119 to 134, with lastBlockW as chosen on line 109.
  method FillIn1Block<T>(wa: WriterArgs, b: Dram<T>, zero: T, block: array<T>, bw: nat, blockStart: int, lastBlockW: int,
                         ghost n: Net<T>, ghost blk: nat)
    requires In1Matches(wa, b, n) && zero == n.g.zero && block.Length == wa.in1BlockNumTiles
    requires bw < n.nbw && blockStart == In1BlockStart(wa, bw, blk)
    requires lastBlockW == if bw == wa.numBlocksW - 1 then wa.lastBlockW else wa.in1BlockW
    modifies block
    ensures block[..] == n.In1Block(bw, blk)
  {
    hide Net.Valid, Net.Obh, Net.Obw, Net.N1, Net.In1Block, LocalB, In1BlockStart;
    n.Sizes();
    ghost var want := n.In1Block(bw, blk);
    N1Is(n, n.Obw());
    var addr := 0;
    var rowStart := blockStart;
    for h := 0 to wa.in1BlockH
      invariant addr == h * n.Obw() && addr <= block.Length && 0 <= addr
      invariant rowStart == blockStart + h * wa.in1StrideH
      invariant block[..addr] == want[..addr]
    {
      var tileId := rowStart;
      for w := 0 to wa.in1BlockW
        invariant addr == h * n.Obw() + w && addr <= block.Length
        invariant tileId == rowStart + w * wa.in1StrideW
        invariant block[..addr] == want[..addr]
      {
        In1Tile(wa, b, n, bw, blk, h, w, addr);
        assert want[..addr + 1] == want[..addr] + [want[addr]];
        block[addr] := if w < lastBlockW then b(tileId) else zero;
        addr := addr + 1;
        tileId := tileId + wa.in1StrideW;
      }
      NextRow(h, n.Obw(), n.kw);
      rowStart := rowStart + wa.in1StrideH;
    }
  }

  // Lines 113 to 139: the in1 blocks of one outer block.
  method PushIn1Blocks<T>(wa: WriterArgs, b: Dram<T>, zero: T, cb1: CircularBuffer<T>, bw: nat, bwStart: int, lastBlockW: int,
                          ghost n: Net<T>, ghost bh: nat, ghost before: seq<T>)
    requires In1Matches(wa, b, n) && zero == n.g.zero
    requires bw < n.nbw && bwStart == wa.in1StartTileId + bw * wa.in1WDimStride
    requires lastBlockW == if bw == wa.numBlocksW - 1 then wa.lastBlockW else wa.in1BlockW
    requires cb1.tiles == before + Upto(n, In1, bh, bw, 0)
    modifies cb1
    ensures cb1.tiles == before + Upto(n, In1, bh, bw + 1, 0)
  {
    hide Net.Valid, Net.Obh, Net.Obw, Net.N1, Net.In1Block, LocalB, Upto;
    n.Sizes();
    var blockStart := bwStart;
    for blk := 0 to wa.numBlocks
      invariant blockStart == In1BlockStart(wa, bw, blk)
      invariant cb1.tiles == before + Upto(n, In1, bh, bw, blk)
    {
      var block := new T[wa.in1BlockNumTiles](_ => zero);
      FillIn1Block(wa, b, zero, block, bw, blockStart, lastBlockW, n, blk);
      blockStart := blockStart + wa.in1NextBlockStride;
      cb1.PushBack(block);
      PushExtends(n, In1, bh, bw, blk, before);
    }
    PushExtends(n, In1, bh, bw, 0, before);
  }
}
