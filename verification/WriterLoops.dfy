// The in1 reader and output writer as it is written: per outer block it first pushes its in1
// blocks and then drains one output block, with running tile ids throughout.
// Line numbers refer to kernels_common/in1_reader_writer_bmm_tile_layout_dram.cpp.
module WriterLoops {
  import opened Arith
  import opened Tiles
  import opened CoreNet
  import opened Machine
  import opened Protocol
  import opened Runs
  import opened Output
  import opened Channels
  import opened Host
  import opened Readers

  // The output tensor in DRAM.
  class Tensor<T> {
    var tiles: map<int, T>

    constructor (initial: map<int, T>)
      ensures tiles == initial
    {
      tiles := initial;
    }

    method WriteTile(id: int, tile: T)
      modifies this
      ensures tiles == old(tiles)[id := tile]
    {
      tiles := tiles[id := tile];
    }
  }

  ghost predicate OutputMatches<T>(wa: WriterArgs, n: Net<T>) {
    && n.Valid()
    && wa.outStartTileId == n.outStart && wa.outStrideW == 1 && wa.outStrideH == n.outStride
    && wa.outNextSubW == n.sw && wa.outNextSubH == n.sh * n.outStride
    && wa.subW == n.sw && wa.subH == n.sh && wa.subTiles == n.Sub() && wa.numSubW == n.nsw && wa.numSubH == n.nsh
    && wa.nonzeroSubH == n.edge.nonzeroH && wa.lastSubH == n.edge.lastSubH && wa.hSkip == n.edge.hSkip
    && wa.nonzeroSubW == n.edge.nonzeroW && wa.lastSubW == n.edge.lastSubW && wa.wSkip == n.edge.wSkip
    && wa.rowSkip == n.edge.rowSkip
    && wa.numBlocksH == n.nbh && wa.numBlocksW == n.nbw
    && wa.outHDimStride == n.Obh() * n.outStride && wa.outWDimStride == n.Obw()
  }

  lemma HostOutputMatches<T>(g: Alg<T>, a: Dram<T>, b: Dram<T>, s: Shape, y: nat, x: nat)
    requires s.Valid()
    ensures OutputMatches(BuildWriterArgs(s, y, x), CoreOf(g, a, b, s, y, x))
  {
    Quotients(s);
    ValidSizes(s, y, x);
    WriterCounts(s, y, x);
    CoreIsValid(g, a, b, s, y, x);
    hide Shape.PerCoreM, Shape.PerCoreN, LastOuterH, LastOuterW, LastPiece, PieceCount, LocalA, LocalB, Net.Valid;
  }

  // ---------- one sub-block ----------

  lemma RowFits(h: nat, rows: nat, w: nat, skip: nat, size: nat)
    requires h < rows && rows * (w + skip) <= size
    ensures h * (w + skip) + w <= size && (h + 1) * (w + skip) == h * (w + skip) + (w + skip) <= size
  {
    MulMono(h + 1, rows, w + skip);
  }

  // Lines 161 to 173: subH rows of subW tiles, the read address skipping `skip` tiles per row.
  method WriteSubBlock<T>(wa: WriterArgs, out: Tensor<T>, tiles: seq<T>, start: int, subH: nat, subW: nat, skip: nat,
                          ghost stride: nat)
    requires subH * (subW + skip) <= |tiles| && wa.outStrideW == 1 && wa.outStrideH == stride
    modifies out
    ensures out.tiles == WriteRows(old(out.tiles), start, stride, tiles, subH, subW, skip)
  {
    ghost var before := out.tiles;
    var readAddr := 0;
    var rowStart := start;
    for h := 0 to subH
      invariant readAddr == h * (subW + skip) <= |tiles|
      invariant rowStart == start + h * stride
      invariant out.tiles == WriteRows(before, start, stride, tiles, h, subW, skip)
    {
      RowFits(h, subH, subW, skip, |tiles|);
      ghost var row, at := out.tiles, readAddr;
      var tileId := rowStart;
      for w := 0 to subW
        invariant readAddr == at + w && tileId == rowStart + w
        invariant out.tiles == WriteRow(row, rowStart, tiles, at, w)
      {
        out.WriteTile(tileId, tiles[readAddr]);
        readAddr := readAddr + 1;
        tileId := tileId + wa.outStrideW;
      }
      readAddr := readAddr + skip;
      rowStart := rowStart + wa.outStrideH;
    }
  }

  // ---------- the running ids and the machine's writer ----------

  lemma RunningId<T>(n: Net<T>, bh: nat, bw: nat, sbh: nat, sbw: nat, w: Writer)
    requires w.pos.bh == bh && w.pos.bw == bw && w.sbh == sbh && w.sbw == sbw
    ensures SubStart(n, w) == n.outStart + bh * (n.Obh() * n.outStride) + bw * n.Obw()
                                + sbh * (n.sh * n.outStride) + sbw * n.sw
  {
    hide Net.Obh, Net.Obw;
    assert (bh * n.Obh() + sbh * n.sh) * n.outStride
        == bh * (n.Obh() * n.outStride) + sbh * (n.sh * n.outStride);
  }

  // One visited sub-block: three steps of the machine's writer.
  lemma DrainsSub<T>(n: Net<T>, w: Writer, out: map<int, T>)
    requires n.Valid() && WriterOk(n, w) && w.ph == WWait && w.pos != End(n)
    ensures var w1 := w.(ph := WWrite);
            && WriterOk(n, w1)
            && var w3 := AdvanceW(n, w.(ph := WPop));
            && WriterOk(n, w3)
            && Finish(n, w, out) == Finish(n, w3, WriteSub(n, w1, out, FinishedSub(n, w1)))
            && Popped(n, w3) == Popped(n, w) + n.Sub() <= n.Cap()
            && Popped(n, w) == n.Base(w.sbh, w.sbw)
  {
    hide WriteSub, FinishedSub, Net.Valid, Finish, Net.Base, Net.Sub, Net.Cap, NonzeroH, NonzeroW, InRange;
    var w1, w2 := w.(ph := WWrite), w.(ph := WPop);
    FinishStep(n, w, out);
    FinishStep(n, w1, out);
    FinishStep(n, w2, WriteSub(n, w1, out, FinishedSub(n, w1)));
    WriterConserves(n, w);
    WriterConserves(n, w2);
  }

  // The padded sub-blocks of a row, and the padded rows.
  lemma DrainsRow<T>(n: Net<T>, w: Writer, out: map<int, T>)
    requires n.Valid() && WriterOk(n, w) && w.pos != End(n) && (w.ph == WWaitW || w.ph == WWaitH)
    ensures var w1 := w.(ph := if w.ph == WWaitW then WPopW else WPopH);
            && WriterOk(n, w1) && WriterOk(n, AdvanceW(n, w1))
            && Finish(n, w, out) == Finish(n, AdvanceW(n, w1), out)
            && (w.ph == WWaitW ==> Popped(n, AdvanceW(n, w1)) == Popped(n, w) + WSkip(n, w.pos.bw) <= n.Cap())
            && (w.ph == WWaitH ==> Popped(n, w) + HSkip(n, w.pos.bh) == n.Cap())
  {
    hide Net.Valid, Finish, Net.Base, Net.Sub, Net.Cap, NonzeroH, NonzeroW, InRange, WSkip, HSkip;
    var w1 := w.(ph := if w.ph == WWaitW then WPopW else WPopH);
    FinishStep(n, w, out);
    FinishStep(n, w1, out);
    WriterConserves(n, w);
    WriterConserves(n, w1);
  }

  // The tiles at the front of CB16 are the sub-block the writer is at.
  lemma FrontSub<T>(n: Net<T>, w: Writer, later: seq<T>, queue: seq<T>, popped: nat)
    requires n.Valid() && WriterOk(n, w) && w.ph == WWrite && w.pos != End(n)
    requires popped == n.Base(w.sbh, w.sbw) && popped + n.Sub() <= n.Cap()
    requires queue == n.Partial(w.pos.bh, w.pos.bw, n.nb - 1)[popped..] + later
    ensures n.Sub() <= |queue| && queue[..n.Sub()] == FinishedSub(n, w)
  {
    hide Net.Partial, Net.Valid, Net.Sub, Net.Cap, Net.Base, WriterOk;
    n.Sizes();
    var block := n.Partial(w.pos.bh, w.pos.bw, n.nb - 1);
    assert (block[popped..] + later)[..n.Sub()] == block[popped..][..n.Sub()];
    assert block[popped..][..n.Sub()] == block[popped..popped + n.Sub()];
  }

  lemma PopFromFront<T>(block: seq<T>, later: seq<T>, popped: nat, k: nat)
    requires popped + k <= |block|
    ensures (block[popped..] + later)[k..] == block[popped + k..] + later
  {
    assert block[popped..][k..] == block[popped + k..];
  }

  // ---------- one output block ----------

  // Lines 145 to 178: sub-block sbw of a row of sub-blocks.
  method DrainSubBlock<T>(wa: WriterArgs, cb16: CircularBuffer<T>, out: Tensor<T>, start: int, subH: nat, subW: nat, skip: nat,
                          ghost n: Net<T>, ghost w: Writer, ghost later: seq<T>)
    requires OutputMatches(wa, n) && WriterOk(n, w) && w.ph == WWait && w.pos != End(n)
    requires start == SubStart(n, w) && subH == SubRows(n, w) && subW == SubCols(n, w) && skip == RowSkip(n, w)
    requires Popped(n, w) <= n.Cap()
    requires cb16.tiles == n.Partial(w.pos.bh, w.pos.bw, n.nb - 1)[Popped(n, w)..] + later
    modifies cb16, out
    ensures var w3 := AdvanceW(n, w.(ph := WPop));
            && WriterOk(n, w3)
            && Popped(n, w3) <= n.Cap()
            && Finish(n, w3, out.tiles) == Finish(n, w, old(out.tiles))
            && cb16.tiles == n.Partial(w.pos.bh, w.pos.bw, n.nb - 1)[Popped(n, w3)..] + later
  {
    hide Net.Partial, Net.Valid, Net.Sub, Net.Cap, Net.Base, WriterOk, Finish, FinishedSub, WriteRows, SubStart,
         SubRows, SubCols, RowSkip, AdvanceW, Popped, Net.Obh, Net.Obw;
    n.Sizes();
    DrainsSub(n, w, out.tiles);
    SubFits(n, w);
    SubSizes(n, w);
    FrontSub(n, w.(ph := WWrite), later, cb16.tiles, Popped(n, w));
    PopFromFront(n.Partial(w.pos.bh, w.pos.bw, n.nb - 1), later, Popped(n, w), n.Sub());
    WriteSubBlock(wa, out, cb16.tiles[..wa.subTiles], start, subH, subW, skip, n.outStride);
    cb16.PopFront(wa.subTiles);
  }

  lemma SubSizes<T>(n: Net<T>, w: Writer)
    ensures SubRows(n, w.(ph := WWrite)) == SubRows(n, w) && SubCols(n, w.(ph := WWrite)) == SubCols(n, w)
    ensures RowSkip(n, w.(ph := WWrite)) == RowSkip(n, w) && SubStart(n, w.(ph := WWrite)) == SubStart(n, w)
  {
  }

  // Lines 144 to 181: one row of sub-blocks.
  method DrainRow<T>(wa: WriterArgs, cb16: CircularBuffer<T>, out: Tensor<T>, sbhStart: int, bh: nat, bw: nat, sbh: nat,
                     ghost n: Net<T>, ghost w0: Writer, ghost later: seq<T>)
    requires OutputMatches(wa, n) && WriterOk(n, w0) && bh < n.nbh && bw < n.nbw
    requires w0 == Writer(Pos(bh, bw, n.nb - 1), sbh, 0, WWait) && w0.pos != End(n)
    requires sbhStart == n.outStart + bh * (n.Obh() * n.outStride) + bw * n.Obw() + sbh * (n.sh * n.outStride)
    requires Popped(n, w0) <= n.Cap()
    requires cb16.tiles == n.Partial(bh, bw, n.nb - 1)[Popped(n, w0)..] + later
    modifies cb16, out
    ensures var w1 := AdvanceW(n, Writer(Pos(bh, bw, n.nb - 1), sbh, NonzeroW(n, bw) - 1, WPopW));
            && 0 < NonzeroW(n, bw) && WriterOk(n, w1) && Popped(n, w1) <= n.Cap()
            && Finish(n, w1, out.tiles) == Finish(n, w0, old(out.tiles))
            && cb16.tiles == n.Partial(bh, bw, n.nb - 1)[Popped(n, w1)..] + later
  {
    hide Net.Partial, Net.Valid, Net.Sub, Net.Cap, Net.Base, WriterOk, Finish, SubStart, Popped, Net.Obh, Net.Obw;
    n.Sizes();
    Visits(n, Pos(bh, bw, n.nb - 1));
    ghost var pos := Pos(bh, bw, n.nb - 1);
    var nonzeroW := if bw == wa.numBlocksW - 1 then wa.nonzeroSubW else wa.numSubW;
    var nonzeroH := if bh == wa.numBlocksH - 1 then wa.nonzeroSubH else wa.numSubH;
    var lastSubH := if bh == wa.numBlocksH - 1 then wa.lastSubH else wa.subH;
    var lastSubW := if bw == wa.numBlocksW - 1 then wa.lastSubW else wa.subW;
    var rowSkip := if bw == wa.numBlocksW - 1 then wa.rowSkip else 0;
    var wSkip := if bw == wa.numBlocksW - 1 then wa.wSkip else 0;
    ghost var w := w0;
    var sbwStart := sbhStart;
    for sbw := 0 to nonzeroW
      invariant w == if sbw < nonzeroW then Writer(pos, sbh, sbw, WWait) else Writer(pos, sbh, nonzeroW - 1, WWaitW)
      invariant WriterOk(n, w) && Popped(n, w) <= n.Cap()
      invariant Finish(n, w, out.tiles) == Finish(n, w0, old(out.tiles))
      invariant cb16.tiles == n.Partial(bh, bw, n.nb - 1)[Popped(n, w)..] + later
      invariant sbwStart == sbhStart + sbw * n.sw
    {
      var subH := if sbh == nonzeroH - 1 then lastSubH else wa.subH;
      var subW, skip := wa.subW, 0;
      if sbw == nonzeroW - 1 {
        subW, skip := lastSubW, rowSkip;
      }
      RunningId(n, bh, bw, sbh, sbw, w);
      DrainSubBlock(wa, cb16, out, sbwStart, subH, subW, skip, n, w, later);
      w := AdvanceW(n, w.(ph := WPop));
      OneMore(sbw, n.sw);
      sbwStart := sbwStart + wa.outNextSubW;
    }
    DrainsRow(n, w, out.tiles);
    PopFromFront(n.Partial(bh, bw, n.nb - 1), later, Popped(n, w), wSkip);
    cb16.PopFront(wSkip);
  }

  lemma AfterRow<T>(n: Net<T>, bh: nat, bw: nat, sbh: nat)
    requires bh < n.nbh && bw < n.nbw && 0 < n.nb
    ensures AdvanceW(n, Writer(Pos(bh, bw, n.nb - 1), sbh, if 0 < NonzeroW(n, bw) then NonzeroW(n, bw) - 1 else 0, WPopW))
         == if sbh + 1 < NonzeroH(n, bh) then Writer(Pos(bh, bw, n.nb - 1), sbh + 1, 0, WWait)
            else Writer(Pos(bh, bw, n.nb - 1), sbh, if 0 < NonzeroW(n, bw) then NonzeroW(n, bw) - 1 else 0, WWaitH)
  {
  }

  lemma StartOfBlock<T>(n: Net<T>, bh: nat, bw: nat)
    requires n.Valid() && bh < n.nbh && bw < n.nbw
    ensures WriterOk(n, Writer(Pos(bh, bw, n.nb - 1), 0, 0, WWait)) && Popped(n, Writer(Pos(bh, bw, n.nb - 1), 0, 0, WWait)) == 0
    ensures Pos(bh, bw, n.nb - 1) != End(n)
    ensures WriterOk(n, Writer(Pos(bh, bw, 0), 0, 0, WReserve))
    ensures WriterOk(n, Writer(NextOuter(n, Pos(bh, bw, n.nb - 1)), 0, 0, WReserve))
  {
    Visits(n, Pos(bh, bw, n.nb - 1));
    n.BaseNext(0, 0);
    hide Net.Base, Net.Valid;
  }

  // Lines 141 to 186: the whole output block.
  method DrainBlock<T>(wa: WriterArgs, cb16: CircularBuffer<T>, out: Tensor<T>, bwStart: int, bh: nat, bw: nat,
                       ghost n: Net<T>, ghost later: seq<T>)
    requires OutputMatches(wa, n) && bh < n.nbh && bw < n.nbw
    requires bwStart == n.outStart + bh * (n.Obh() * n.outStride) + bw * n.Obw()
    requires cb16.tiles == n.Partial(bh, bw, n.nb - 1) + later
    modifies cb16, out
    ensures var w0, w1 := Writer(Pos(bh, bw, n.nb - 1), 0, 0, WWait), Writer(NextOuter(n, Pos(bh, bw, n.nb - 1)), 0, 0, WReserve);
            && WriterOk(n, w0) && WriterOk(n, w1)
            && Finish(n, w1, out.tiles) == Finish(n, w0, old(out.tiles))
    ensures cb16.tiles == later
  {
    hide Net.Partial, Net.Valid, Net.Sub, Net.Cap, Net.Base, WriterOk, Finish, Popped, Net.Obh, Net.Obw, NextOuter;
    n.Sizes();
    StartOfBlock(n, bh, bw);
    Visits(n, Pos(bh, bw, n.nb - 1));
    ghost var pos := Pos(bh, bw, n.nb - 1);
    ghost var block := n.Partial(bh, bw, n.nb - 1);
    ghost var w0 := Writer(pos, 0, 0, WWait);
    assert block[0..] == block;
    var nonzeroH := if bh == wa.numBlocksH - 1 then wa.nonzeroSubH else wa.numSubH;
    var hSkip := if bh == wa.numBlocksH - 1 then wa.hSkip else 0;
    ghost var w := w0;
    var sbhStart := bwStart;
    for sbh := 0 to nonzeroH
      invariant w == if sbh < nonzeroH then Writer(pos, sbh, 0, WWait) else Writer(pos, nonzeroH - 1, NonzeroW(n, bw) - 1, WWaitH)
      invariant WriterOk(n, w) && Popped(n, w) <= n.Cap()
      invariant Finish(n, w, out.tiles) == Finish(n, w0, old(out.tiles))
      invariant cb16.tiles == block[Popped(n, w)..] + later
      invariant sbhStart == bwStart + sbh * (n.sh * n.outStride)
    {
      DrainRow(wa, cb16, out, sbhStart, bh, bw, sbh, n, w, later);
      AfterRow(n, bh, bw, sbh);
      w := AdvanceW(n, Writer(pos, sbh, NonzeroW(n, bw) - 1, WPopW));
      OneMore(sbh, n.sh * n.outStride);
      sbhStart := sbhStart + wa.outNextSubH;
    }
    DrainsRow(n, w, out.tiles);
    PopFromFront(block, later, Popped(n, w), hSkip);
    cb16.PopFront(hSkip);
    assert block[n.Cap()..] + later == later;
  }

  // ---------- the whole kernel ----------

  // Pushing in1 blocks leaves the output alone.
  lemma {:induction false} FeedingWritesNothing<T>(n: Net<T>, bh: nat, bw: nat, blk: nat, out: map<int, T>)
    requires n.Valid() && bh < n.nbh && bw < n.nbw && blk < n.nb
    ensures WriterOk(n, Writer(Pos(bh, bw, blk), 0, 0, WReserve)) && WriterOk(n, Writer(Pos(bh, bw, n.nb - 1), 0, 0, WWait))
    ensures Finish(n, Writer(Pos(bh, bw, blk), 0, 0, WReserve), out) == Finish(n, Writer(Pos(bh, bw, n.nb - 1), 0, 0, WWait), out)
    decreases n.nb - blk
  {
    hide Finish, WriteSub, FinishedSub, Net.Sub, Net.Base;
    Visits(n, Pos(bh, bw, blk));
    hide Net.Valid;
    var w := Writer(Pos(bh, bw, blk), 0, 0, WReserve);
    FinishStep(n, w, out);
    FinishStep(n, w.(ph := WFill), out);
    FinishStep(n, w.(ph := WPush), out);
    if blk + 1 < n.nb {
      FeedingWritesNothing(n, bh, bw, blk + 1, out);
    }
  }

  // The whole kernel: it pushes the in1 stream, drains the output stream, and leaves the
  // product in the core's tiles of the tensor.
  method In1ReaderWriterKernel<T>(wa: WriterArgs, b: Dram<T>, zero: T, cb1: CircularBuffer<T>, cb16: CircularBuffer<T>,
                                  out: Tensor<T>, ghost n: Net<T>)
    requires In1Matches(wa, b, n) && OutputMatches(wa, n) && zero == n.g.zero && cb1 != cb16
    requires cb16.tiles == OutStream(n)
    modifies cb1, cb16, out
    ensures cb1.tiles == old(cb1.tiles) + Stream(n, In1)
    ensures cb16.tiles == []
    ensures out.tiles == FinalOut(n, old(out.tiles))
    ensures 0 < n.outStride && CoreCols(n) <= n.outStride ==> CoreResult(n, old(out.tiles), out.tiles)
  {
    hide Net.Partial, Net.Valid, Net.Sub, Net.Cap, WriterOk, Finish, Net.Obh, Net.Obw, Net.N1, Upto, OutUpto,
         CoreResult, CoreCols, LocalB, OutStream, FinalOut;
    n.Sizes();
    StartFacts(n, old(out.tiles), cb1.tiles);
    ghost var before := cb1.tiles;
    var outStart := wa.outStartTileId;
    for bh := 0 to wa.numBlocksH
      invariant outStart == n.outStart + bh * (n.Obh() * n.outStride)
      invariant cb1.tiles == before + Upto(n, In1, bh, 0, 0)
      invariant OutStream(n) == OutUpto(n, bh, 0) + cb16.tiles
      invariant WriterOk(n, Writer(Pos(bh, 0, 0), 0, 0, WReserve))
      invariant Finish(n, Writer(Pos(bh, 0, 0), 0, 0, WReserve), out.tiles) == FinalOut(n, old(out.tiles))
    {
      var in1BwStart := wa.in1StartTileId;
      var outBwStart := outStart;
      for bw := 0 to wa.numBlocksW
        invariant in1BwStart == wa.in1StartTileId + bw * wa.in1WDimStride
        invariant outBwStart == outStart + bw * n.Obw()
        invariant cb1.tiles == before + Upto(n, In1, bh, bw, 0)
        invariant OutStream(n) == OutUpto(n, bh, bw) + cb16.tiles
        invariant WriterOk(n, Writer(if bw < n.nbw then Pos(bh, bw, 0) else Pos(bh + 1, 0, 0), 0, 0, WReserve))
        invariant Finish(n, Writer(if bw < n.nbw then Pos(bh, bw, 0) else Pos(bh + 1, 0, 0), 0, 0, WReserve), out.tiles)
               == FinalOut(n, old(out.tiles))
      {
        var lastBlockW := if bw == wa.numBlocksW - 1 then wa.lastBlockW else wa.in1BlockW;
        PushIn1Blocks(wa, b, zero, cb1, bw, in1BwStart, lastBlockW, n, bh, before);
        FeedingWritesNothing(n, bh, bw, 0, out.tiles);
        FrontOutput(n, bh, bw, cb16.tiles);
        SplitFront(n.Partial(bh, bw, n.nb - 1), cb16.tiles);
        DrainBlock(wa, cb16, out, outBwStart, bh, bw, n, cb16.tiles[n.Cap()..]);
        OneMore(bw, wa.in1WDimStride);
        OneMore(bw, n.Obw());
        in1BwStart := in1BwStart + wa.in1WDimStride;
        outBwStart := outBwStart + wa.outWDimStride;
      }
      EndOfRow(n, bh, before);
      OneMore(bh, n.Obh() * n.outStride);
      outStart := outStart + wa.outHDimStride;
    }
    EndFacts(n, cb16.tiles, out.tiles);
    if 0 < n.outStride && CoreCols(n) <= n.outStride {
      FinalOutIsProduct(n, old(out.tiles));
    }
  }

  lemma SplitFront<T>(block: seq<T>, all: seq<T>)
    requires block <= all
    ensures all == block + all[|block|..]
  {
  }

  lemma StartFacts<T>(n: Net<T>, out: map<int, T>, before: seq<T>)
    requires n.Valid()
    ensures 0 < n.kw && 0 < n.nsw && 0 < n.sw && 0 < n.nb && 0 < n.sh
    ensures before == before + Upto(n, In1, 0, 0, 0)
    ensures OutStream(n) == OutUpto(n, 0, 0) + OutStream(n)
    ensures WriterOk(n, Writer(Pos(0, 0, 0), 0, 0, WReserve))
    ensures Finish(n, Writer(Pos(0, 0, 0), 0, 0, WReserve), out) == FinalOut(n, out)
  {
    hide Finish, Net.Obw, Net.Sub, Net.Cap, Net.Partial, OutStream;
    n.Sizes();
  }

  lemma EndOfRow<T>(n: Net<T>, bh: nat, before: seq<T>)
    requires 0 < n.kw && 0 < n.nb && 0 < n.nsw && 0 < n.sh && 0 < n.sw
    ensures Upto(n, In1, bh + 1, 0, 0) == Upto(n, In1, bh, n.nbw, 0)
    ensures OutUpto(n, bh + 1, 0) == OutUpto(n, bh, n.nbw)
  {
  }

  lemma EndFacts<T>(n: Net<T>, rest: seq<T>, out: map<int, T>)
    requires n.Valid() && OutStream(n) == OutUpto(n, n.nbh, 0) + rest
    ensures rest == []
    ensures WriterOk(n, Writer(Pos(n.nbh, 0, 0), 0, 0, WReserve))
    ensures Finish(n, Writer(Pos(n.nbh, 0, 0), 0, 0, WReserve), out) == out
  {
    n.Sizes();
    hide OutUpto, Net.Valid;
    assert |OutStream(n)| == |OutUpto(n, n.nbh, 0)| + |rest|;
  }
}
