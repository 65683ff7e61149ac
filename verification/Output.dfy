// Which tile ids the writer writes, how often, and what ends up in the output tensor.
module Output {
  import opened Arith
  import opened Tiles
  import opened CoreNet
  import opened Machine
  import opened Protocol
  import opened Runs

  // ---------- boxes of tile ids, with multiplicity ----------

  function Id(start: int, stride: nat, r: int, c: int): int { start + r * stride + c }

  ghost function RowIds(start: int, stride: nat, r: int, c0: int, c1: int): multiset<int>
    decreases c1 - c0
  {
    if c1 <= c0 then multiset{} else RowIds(start, stride, r, c0, c1 - 1) + multiset{Id(start, stride, r, c1 - 1)}
  }

  // The ids of the tiles in rows r0..r1 and columns c0..c1, each as often as it occurs.
  ghost function Box(start: int, stride: nat, r0: int, r1: int, c0: int, c1: int): multiset<int>
    decreases r1 - r0
  {
    if r1 <= r0 then multiset{} else Box(start, stride, r0, r1 - 1, c0, c1) + RowIds(start, stride, r1 - 1, c0, c1)
  }

  lemma {:induction false} RowSplit(start: int, stride: nat, r: int, c0: int, m: int, c1: int)
    requires c0 <= m <= c1
    ensures RowIds(start, stride, r, c0, c1) == RowIds(start, stride, r, c0, m) + RowIds(start, stride, r, m, c1)
    decreases c1 - m
  {
    hide Id;
    if m < c1 {
      RowSplit(start, stride, r, c0, m, c1 - 1);
      Reassociate(RowIds(start, stride, r, c0, m), RowIds(start, stride, r, m, c1 - 1),
                  multiset{Id(start, stride, r, c1 - 1)}, multiset{});
    }
  }

  lemma {:induction false} BoxSplitRows(start: int, stride: nat, r0: int, m: int, r1: int, c0: int, c1: int)
    requires r0 <= m <= r1
    ensures Box(start, stride, r0, r1, c0, c1) == Box(start, stride, r0, m, c0, c1) + Box(start, stride, m, r1, c0, c1)
    decreases r1 - m
  {
    hide RowIds;
    if m < r1 {
      BoxSplitRows(start, stride, r0, m, r1 - 1, c0, c1);
      Reassociate(Box(start, stride, r0, m, c0, c1), Box(start, stride, m, r1 - 1, c0, c1),
                  RowIds(start, stride, r1 - 1, c0, c1), multiset{});
    }
  }

  lemma Reassociate<X>(a: multiset<X>, b: multiset<X>, c: multiset<X>, d: multiset<X>)
    ensures (a + b) + c == a + (b + c)
    ensures (a + b) + (c + d) == (a + c) + (b + d)
  {
  }

  lemma {:induction false} BoxSplitCols(start: int, stride: nat, r0: int, r1: int, c0: int, m: int, c1: int)
    requires c0 <= m <= c1
    ensures Box(start, stride, r0, r1, c0, c1) == Box(start, stride, r0, r1, c0, m) + Box(start, stride, r0, r1, m, c1)
    decreases r1 - r0
  {
    hide RowIds;
    if r0 < r1 {
      BoxSplitCols(start, stride, r0, r1 - 1, c0, m, c1);
      RowSplit(start, stride, r1 - 1, c0, m, c1);
      Reassociate(Box(start, stride, r0, r1 - 1, c0, m), Box(start, stride, r0, r1 - 1, m, c1),
                  RowIds(start, stride, r1 - 1, c0, m), RowIds(start, stride, r1 - 1, m, c1));
    }
  }

  lemma {:induction false} BoxNoCols(start: int, stride: nat, r0: int, r1: int, c0: int, c1: int)
    requires c1 <= c0
    ensures Box(start, stride, r0, r1, c0, c1) == multiset{}
    decreases r1 - r0
  {
    if r0 < r1 {
      BoxNoCols(start, stride, r0, r1 - 1, c0, c1);
    }
  }

  // ---------- the writer's log ----------

  ghost function Rows<T>(n: Net<T>, r0: int, r1: int, c0: int, c1: int): multiset<int> {
    Box(n.outStart, n.outStride, r0, r1, c0, c1)
  }

  // The ids written for the current sub-block.
  ghost function SubIds<T>(n: Net<T>, w: Writer): multiset<int> {
    Rows(n, SubRow(n, w), SubRow(n, w) + SubRows(n, w), SubCol(n, w), SubCol(n, w) + SubCols(n, w))
  }

  // All ids still to be written, in the order of the writer's loops.
  ghost function Log<T>(n: Net<T>, w: Writer): multiset<int>
    requires n.Valid() && WriterOk(n, w)
    decreases n.nbh - w.pos.bh, n.nbw - w.pos.bw, BlocksLeft(n, w), RowsLeft(n, w), ColsLeft(n, w), RankW(w.ph)
  {
    if w.pos == End(n) then multiset{}
    else
      WriterStepKeepsOk(n, w);
      Visits(n, w.pos);
      (if w.ph == WWrite then SubIds(n, w) else multiset{}) + Log(n, AdvanceW(n, w))
  }

  // Valid rows and columns of outer block bh (bw), and of the whole core.
  function BlockRows<T>(n: Net<T>, bh: int): int {
    if bh == n.nbh - 1 then (n.edge.nonzeroH - 1) * n.sh + n.edge.lastSubH else n.Obh()
  }
  function BlockCols<T>(n: Net<T>, bw: int): int {
    if bw == n.nbw - 1 then (n.edge.nonzeroW - 1) * n.sw + n.edge.lastSubW else n.Obw()
  }
  function CoreRows<T>(n: Net<T>): int { (n.nbh - 1) * n.Obh() + BlockRows(n, n.nbh - 1) }
  function CoreCols<T>(n: Net<T>): int { (n.nbw - 1) * n.Obw() + BlockCols(n, n.nbw - 1) }

  // Where a piece starts: named so that proofs need not look inside the product.
  function At(i: int, k: int): int { i * k }

  // What is left, as boxes: the rest of this row of sub-blocks, the sub-block rows below it,
  // the outer blocks to the right, the outer blocks below.
  ghost function Rest<T>(n: Net<T>, w: Writer): multiset<int>
    requires n.Valid()
  {
    if w.pos.bh >= n.nbh then multiset{}
    else if Feeding(w.ph) then Right(n, w.pos, 0) + Below(n, w.pos)
    else RestOfBlock(n, w) + (Right(n, w.pos, n.Obw()) + Below(n, w.pos))
  }

  // The rows of outer block p from `skip` columns after its left edge on.
  ghost function Right<T>(n: Net<T>, p: Pos, skip: int): multiset<int> {
    Rows(n, At(p.bh, n.Obh()), At(p.bh, n.Obh()) + BlockRows(n, p.bh), At(p.bw, n.Obw()) + skip, CoreCols(n))
  }

  ghost function Below<T>(n: Net<T>, p: Pos): multiset<int> {
    Rows(n, At(p.bh, n.Obh()) + n.Obh(), CoreRows(n), 0, CoreCols(n))
  }

  ghost function RestOfBlock<T>(n: Net<T>, w: Writer): multiset<int> {
    RestOfRow(n, w) + RowsBelow(n, w)
  }

  ghost function RestOfRow<T>(n: Net<T>, w: Writer): multiset<int> {
    if !InSub(w.ph) then multiset{}
    else
      var r, c0 := At(w.pos.bh, n.Obh()) + At(w.sbh, n.sh), At(w.pos.bw, n.Obw());
      Rows(n, r, r + SubRows(n, w), c0 + At(if w.ph == WPop then w.sbw + 1 else w.sbw, n.sw), c0 + BlockCols(n, w.pos.bw))
  }

  ghost function RowsBelow<T>(n: Net<T>, w: Writer): multiset<int> {
    if w.ph == WWaitH || w.ph == WPopH then multiset{}
    else
      var r0, c0 := At(w.pos.bh, n.Obh()), At(w.pos.bw, n.Obw());
      Rows(n, r0 + At(w.sbh + 1, n.sh), r0 + BlockRows(n, w.pos.bh), c0, c0 + BlockCols(n, w.pos.bw))
  }

  // ---------- the sizes line up ----------

  // A run of `count` pieces of size k, the last one cut to `last`, in a block of size <= cap.
  lemma Pieces(i: nat, count: nat, k: nat, last: nat)
    requires i < count && 0 < last <= k
    ensures i + 1 < count ==> (i + 1) * k + last <= (count - 1) * k + last
    ensures i + 1 == count ==> (i + 1) * k >= (count - 1) * k + last
    ensures (i + 1) * k == i * k + k
  {
    assert (i + 1) * k == i * k + k;
    if i + 1 < count {
      MulMono(i + 1, count - 1, k);
    }
  }

  lemma RowPieces<T>(n: Net<T>, w: Writer)
    requires n.Valid() && WriterOk(n, w) && !Feeding(w.ph)
    ensures w.sbh + 1 < NonzeroH(n, w.pos.bh) ==>
              SubRows(n, w) == n.sh && At(w.sbh + 1, n.sh) < BlockRows(n, w.pos.bh)
    ensures w.sbh + 1 == NonzeroH(n, w.pos.bh) ==>
              At(w.sbh, n.sh) + SubRows(n, w) == BlockRows(n, w.pos.bh) <= At(w.sbh + 1, n.sh)
    ensures At(w.sbh + 1, n.sh) == At(w.sbh, n.sh) + n.sh && At(0, n.sh) == 0
  {
    var count := NonzeroH(n, w.pos.bh);
    var last := if w.pos.bh == n.nbh - 1 then n.edge.lastSubH else n.sh;
    Pieces(w.sbh, count, n.sh, last);
    assert BlockRows(n, w.pos.bh) == (count - 1) * n.sh + last;
  }

  lemma ColPieces<T>(n: Net<T>, w: Writer)
    requires n.Valid() && WriterOk(n, w) && InSub(w.ph)
    ensures w.sbw + 1 < NonzeroW(n, w.pos.bw) ==>
              SubCols(n, w) == n.sw && At(w.sbw + 1, n.sw) < BlockCols(n, w.pos.bw)
    ensures w.sbw + 1 == NonzeroW(n, w.pos.bw) ==>
              At(w.sbw, n.sw) + SubCols(n, w) == BlockCols(n, w.pos.bw) <= At(w.sbw + 1, n.sw)
    ensures At(w.sbw + 1, n.sw) == At(w.sbw, n.sw) + n.sw && At(0, n.sw) == 0
  {
    var count := NonzeroW(n, w.pos.bw);
    var last := if w.pos.bw == n.nbw - 1 then n.edge.lastSubW else n.sw;
    Pieces(w.sbw, count, n.sw, last);
    assert BlockCols(n, w.pos.bw) == (count - 1) * n.sw + last;
  }

  // The outer blocks tile the core in the same way.
  lemma OuterPieces<T>(n: Net<T>, p: Pos)
    requires n.Valid() && p.bh < n.nbh && p.bw < n.nbw
    ensures At(p.bh + 1, n.Obh()) == At(p.bh, n.Obh()) + n.Obh() && At(0, n.Obh()) == 0
    ensures At(p.bw + 1, n.Obw()) == At(p.bw, n.Obw()) + n.Obw() && At(0, n.Obw()) == 0
    ensures 0 < BlockRows(n, p.bh) <= n.Obh() && 0 < BlockCols(n, p.bw) <= n.Obw()
    ensures p.bh + 1 < n.nbh ==> BlockRows(n, p.bh) == n.Obh() && At(p.bh + 1, n.Obh()) < CoreRows(n)
    ensures p.bw + 1 < n.nbw ==> BlockCols(n, p.bw) == n.Obw() && At(p.bw + 1, n.Obw()) < CoreCols(n)
    ensures p.bh + 1 == n.nbh ==> At(p.bh, n.Obh()) + BlockRows(n, p.bh) == CoreRows(n)
    ensures p.bw + 1 == n.nbw ==> At(p.bw, n.Obw()) + BlockCols(n, p.bw) == CoreCols(n)
  {
    CutBlock(n.edge.nonzeroH, n.nsh, n.sh, n.edge.lastSubH);
    CutBlock(n.edge.nonzeroW, n.nsw, n.sw, n.edge.lastSubW);
    n.Sizes();
    hide Net.Obh, Net.Obw, Net.Valid;
    if p.bh + 1 < n.nbh {
      MulMono(p.bh + 1, n.nbh - 1, n.Obh());
    }
    if p.bw + 1 < n.nbw {
      MulMono(p.bw + 1, n.nbw - 1, n.Obw());
    }
  }

  lemma CutBlock(nz: nat, count: nat, k: nat, last: nat)
    requires 0 < nz <= count && 0 < last <= k
    ensures 0 < (nz - 1) * k + last <= count * k
  {
    MulMono(nz, count, k);
    assert nz * k == (nz - 1) * k + k;
  }

  // ---------- one step of the writer, in boxes ----------

  lemma RestStep<T>(n: Net<T>, w: Writer)
    requires n.Valid() && WriterOk(n, w) && w.pos != End(n)
    ensures Rest(n, w) == (if w.ph == WWrite then SubIds(n, w) else multiset{}) + Rest(n, AdvanceW(n, w))
  {
    hide Net.Valid, Rest, SubIds;
    match w.ph
    case WPush => RestPush(n, w);
    case WWrite => RestWrite(n, w);
    case WPop => RestPop(n, w);
    case WPopW => RestPopW(n, w);
    case WPopH => RestPopH(n, w);
    case _ => RestSame(n, w);
  }

  // The steps that change neither the sub-block nor the outer block.
  lemma RestSame<T>(n: Net<T>, w: Writer)
    requires n.Valid() && WriterOk(n, w) && w.pos != End(n)
    requires w.ph == WReserve || w.ph == WFill || w.ph == WWait || w.ph == WWaitW || w.ph == WWaitH
    ensures Rest(n, w) == Rest(n, AdvanceW(n, w))
  {
    hide Net.Valid, Right, Below, RestOfRow, RowsBelow, Net.Obw, Net.Sub, NonzeroH, NonzeroW, WriterOk;
    RowSame(n, w);
  }

  lemma RowSame<T>(n: Net<T>, w: Writer)
    ensures w.ph == WWait || w.ph == WWaitW || w.ph == WWaitH ==>
              RestOfRow(n, w) == RestOfRow(n, AdvanceW(n, w)) && RowsBelow(n, w) == RowsBelow(n, AdvanceW(n, w))
  {
    hide Rows, BlockRows, BlockCols, Net.Obh, Net.Obw, Net.Sub, At, SubRows, SubCols;
    SubSame(n, w, AdvanceW(n, w));
  }

  lemma SubSame<T>(n: Net<T>, w: Writer, w': Writer)
    ensures w.pos == w'.pos && w.sbh == w'.sbh ==> SubRows(n, w) == SubRows(n, w')
    ensures w.pos == w'.pos && w.sbw == w'.sbw ==> SubCols(n, w) == SubCols(n, w')
  {
  }

  lemma BoxEmpty(start: int, stride: nat, r0: int, r1: int, c0: int, c1: int)
    ensures r1 <= r0 ==> Box(start, stride, r0, r1, c0, c1) == multiset{}
  {
  }

  lemma BoxNoColsIf(start: int, stride: nat, r0: int, r1: int, c0: int, c1: int)
    ensures c1 <= c0 ==> Box(start, stride, r0, r1, c0, c1) == multiset{}
  {
    if c1 <= c0 {
      BoxNoCols(start, stride, r0, r1, c0, c1);
    }
  }

  // The same facts about a core's boxes, with `cut` a cut that may lie outside the box.
  lemma CutRows<T>(n: Net<T>, r0: int, h: int, step: int, r1: int, c0: int, c1: int)
    requires r0 + h <= r1 && (step == h || (r1 <= r0 + step && r1 == r0 + h)) && 0 <= h
    ensures Rows(n, r0, r1, c0, c1) == Rows(n, r0, r0 + h, c0, c1) + Rows(n, r0 + step, r1, c0, c1)
  {
    hide Box;
    BoxSplitRows(n.outStart, n.outStride, r0, r0 + h, r1, c0, c1);
    BoxEmpty(n.outStart, n.outStride, r0 + step, r1, c0, c1);
    BoxEmpty(n.outStart, n.outStride, r0 + h, r1, c0, c1);
  }

  lemma CutCols<T>(n: Net<T>, r0: int, r1: int, c0: int, h: int, step: int, c1: int)
    requires c0 + h <= c1 && (step == h || (c1 <= c0 + step && c1 == c0 + h)) && 0 <= h
    ensures Rows(n, r0, r1, c0, c1) == Rows(n, r0, r1, c0, c0 + h) + Rows(n, r0, r1, c0 + step, c1)
  {
    hide Box;
    BoxSplitCols(n.outStart, n.outStride, r0, r1, c0, c0 + h, c1);
    BoxNoColsIf(n.outStart, n.outStride, r0, r1, c0 + step, c1);
    BoxNoColsIf(n.outStart, n.outStride, r0, r1, c0 + h, c1);
  }

  lemma NoRows<T>(n: Net<T>, r0: int, r1: int, c0: int, c1: int)
    requires r1 <= r0 || c1 <= c0
    ensures Rows(n, r0, r1, c0, c1) == multiset{}
  {
    hide Box;
    BoxEmpty(n.outStart, n.outStride, r0, r1, c0, c1);
    BoxNoColsIf(n.outStart, n.outStride, r0, r1, c0, c1);
  }

  // After its last in1 block the writer turns to the output block.
  lemma RestPush<T>(n: Net<T>, w: Writer)
    requires n.Valid() && WriterOk(n, w) && w.pos != End(n) && w.ph == WPush
    ensures Rest(n, w) == Rest(n, AdvanceW(n, w))
  {
    hide Net.Valid, Rows, BlockRows, BlockCols, CoreRows, CoreCols, Net.Obh, Net.Obw, Net.Sub, At, NonzeroH, NonzeroW,
         RestOfBlock, WriterOk, Succ;
    InRangeBounds(n, w);
    if w.pos.blk + 1 == n.nb {
      StartBlock(n, w, AdvanceW(n, w));
    } else {
      SuccInBlock(n, w.pos);
    }
  }

  lemma SuccInBlock<T>(n: Net<T>, p: Pos)
    ensures p.blk + 1 < n.nb ==> Succ(n, p).bh == p.bh && Succ(n, p).bw == p.bw
  {
  }

  lemma StartBlock<T>(n: Net<T>, w: Writer, w': Writer)
    requires n.Valid() && WriterOk(n, w) && w.pos != End(n) && w.ph == WPush && w.pos.blk + 1 == n.nb
    requires w' == AdvanceW(n, w)
    ensures Rest(n, w) == Rest(n, w')
  {
    hide Net.Valid, Rows, BlockRows, BlockCols, CoreRows, CoreCols, Net.Obh, Net.Obw, Net.Sub, At, NonzeroH, NonzeroW,
         RestOfBlock, WriterOk, Below;
    InRangeBounds(n, w);
    OuterPieces(n, w.pos);
    WholeBlock(n, w, w');
    var r0, c0 := At(w.pos.bh, n.Obh()), At(w.pos.bw, n.Obw());
    CutCols(n, r0, r0 + BlockRows(n, w.pos.bh), c0, BlockCols(n, w.pos.bw), n.Obw(), CoreCols(n));
    Reassociate(RestOfBlock(n, w'), Right(n, w.pos, n.Obw()), Below(n, w.pos), multiset{});
  }

  lemma InRangeBounds<T>(n: Net<T>, w: Writer)
    requires WriterOk(n, w) && w.pos != End(n)
    ensures w.pos.bh < n.nbh && w.pos.bw < n.nbw && w.pos.blk < n.nb
  {
  }

  lemma WholeBlock<T>(n: Net<T>, w: Writer, w': Writer)
    requires n.Valid() && WriterOk(n, w) && w.pos != End(n) && w.ph == WPush && w.pos.blk + 1 == n.nb
    requires w' == AdvanceW(n, w)
    ensures var r0, c0 := At(w.pos.bh, n.Obh()), At(w.pos.bw, n.Obw());
            RestOfBlock(n, w') == Rows(n, r0, r0 + BlockRows(n, w.pos.bh), c0, c0 + BlockCols(n, w.pos.bw))
  {
    hide Net.Valid, Rows, BlockRows, BlockCols, Net.Obh, Net.Obw, Net.Sub, At, NonzeroH, NonzeroW, SubRows, SubCols,
         WriterOk;
    WriterStepKeepsOk(n, w);
    Visits(n, w.pos);
    InRangeBounds(n, w);
    OuterPieces(n, w.pos);
    RowPieces(n, w');
    ColPieces(n, w');
    var r0, c0 := At(w.pos.bh, n.Obh()), At(w.pos.bw, n.Obw());
    CutRows(n, r0, SubRows(n, w'), n.sh, r0 + BlockRows(n, w.pos.bh), c0, c0 + BlockCols(n, w.pos.bw));
  }

  // Writing a sub-block takes it off the front of its row.
  lemma RestWrite<T>(n: Net<T>, w: Writer)
    requires n.Valid() && WriterOk(n, w) && w.pos != End(n) && w.ph == WWrite
    ensures Rest(n, w) == SubIds(n, w) + Rest(n, AdvanceW(n, w))
  {
    hide Net.Valid, Right, Below, Net.Obw, Net.Sub, NonzeroH, NonzeroW, SubIds, RestOfRow, RowsBelow, WriterOk;
    var w' := AdvanceW(n, w);
    InRangeBounds(n, w);
    WriteTakesSub(n, w);
    BelowSame(n, w, w');
    Reassociate(SubIds(n, w), RestOfRow(n, w'), RowsBelow(n, w), multiset{});
    Reassociate(SubIds(n, w), RestOfBlock(n, w'), Right(n, w.pos, n.Obw()) + Below(n, w.pos), multiset{});
  }

  lemma BelowSame<T>(n: Net<T>, w: Writer, w': Writer)
    requires w.pos == w'.pos && w.sbh == w'.sbh
    requires !Feeding(w.ph) && w.ph != WWaitH && w.ph != WPopH && w'.ph != WWaitH && w'.ph != WPopH
    ensures RowsBelow(n, w) == RowsBelow(n, w')
  {
    hide Rows, BlockRows, BlockCols, Net.Obh, Net.Obw, At;
  }

  lemma WriteTakesSub<T>(n: Net<T>, w: Writer)
    requires n.Valid() && WriterOk(n, w) && w.pos != End(n) && w.ph == WWrite
    ensures RestOfRow(n, w) == SubIds(n, w) + RestOfRow(n, AdvanceW(n, w))
  {
    hide Net.Valid, Rows, BlockRows, BlockCols, Net.Obh, Net.Obw, Net.Sub, At, NonzeroH, NonzeroW, SubRows, SubCols,
         SubRow, SubCol, WriterOk;
    ColPieces(n, w);
    SubAt(n, w);
    SubSame(n, w, AdvanceW(n, w));
    var r, c := SubRow(n, w), SubCol(n, w);
    SubNonEmpty(n, w);
    CutCols(n, r, r + SubRows(n, w), c, SubCols(n, w), n.sw, At(w.pos.bw, n.Obw()) + BlockCols(n, w.pos.bw));
  }

  lemma SubNonEmpty<T>(n: Net<T>, w: Writer)
    requires n.Valid() && WriterOk(n, w) && InSub(w.ph)
    ensures 0 < SubCols(n, w) <= n.sw && 0 < SubRows(n, w) <= n.sh
    ensures w.sbw + 1 <= NonzeroW(n, w.pos.bw)
  {
    hide Net.Sub;
  }

  lemma SubAt<T>(n: Net<T>, w: Writer)
    ensures SubRow(n, w) == At(w.pos.bh, n.Obh()) + At(w.sbh, n.sh)
    ensures SubCol(n, w) == At(w.pos.bw, n.Obw()) + At(w.sbw, n.sw)
  {
    hide Net.Obh, Net.Obw;
  }

  lemma RestPop<T>(n: Net<T>, w: Writer)
    requires n.Valid() && WriterOk(n, w) && w.pos != End(n) && w.ph == WPop
    ensures Rest(n, w) == Rest(n, AdvanceW(n, w))
  {
    hide Net.Valid, Right, Below, Net.Obw, Net.Sub, NonzeroH, NonzeroW, RestOfRow, RowsBelow, WriterOk;
    NextInRow(n, w);
    BelowSame(n, w, AdvanceW(n, w));
  }

  lemma NextInRow<T>(n: Net<T>, w: Writer)
    requires n.Valid() && WriterOk(n, w) && w.pos != End(n) && w.ph == WPop
    ensures RestOfRow(n, w) == RestOfRow(n, AdvanceW(n, w))
  {
    hide Net.Valid, Rows, BlockRows, BlockCols, Net.Obh, Net.Obw, Net.Sub, At, NonzeroH, NonzeroW, WriterOk, SubRows,
         SubCols;
    ColPieces(n, w);
    SubNonEmpty(n, w);
    RowSubSame(n, w, AdvanceW(n, w));
    var r, c0 := At(w.pos.bh, n.Obh()) + At(w.sbh, n.sh), At(w.pos.bw, n.Obw());
    if w.sbw + 1 == NonzeroW(n, w.pos.bw) {
      NoRows(n, r, r + SubRows(n, w), c0 + At(w.sbw + 1, n.sw), c0 + BlockCols(n, w.pos.bw));
    }
  }

  lemma RowSubSame<T>(n: Net<T>, w: Writer, w': Writer)
    requires w.pos == w'.pos && w.sbh == w'.sbh
    ensures SubRows(n, w) == SubRows(n, w')
  {
  }

  // The next row of sub-blocks comes off the top of the block.
  lemma RestPopW<T>(n: Net<T>, w: Writer)
    requires n.Valid() && WriterOk(n, w) && w.pos != End(n) && w.ph == WPopW
    ensures Rest(n, w) == Rest(n, AdvanceW(n, w))
  {
    hide Net.Valid, Right, Below, Net.Obw, Net.Sub, NonzeroH, NonzeroW, RestOfRow, RowsBelow, WriterOk, RestOfBlock;
    NextRow(n, w);
  }

  lemma NextRow<T>(n: Net<T>, w: Writer)
    requires n.Valid() && WriterOk(n, w) && w.pos != End(n) && w.ph == WPopW
    ensures RestOfBlock(n, w) == RestOfBlock(n, AdvanceW(n, w))
  {
    hide Net.Valid, Rows, BlockRows, BlockCols, Net.Obh, Net.Obw, Net.Sub, At, NonzeroH, NonzeroW, WriterOk, SubRows,
         SubCols;
    RowBound(n, w);
    var r0, c0 := At(w.pos.bh, n.Obh()), At(w.pos.bw, n.Obw());
    if w.sbh + 1 < NonzeroH(n, w.pos.bh) {
      RowOnTop(n, w, AdvanceW(n, w));
    } else {
      RowPieces(n, w);
      NoRows(n, r0 + At(w.sbh + 1, n.sh), r0 + BlockRows(n, w.pos.bh), c0, c0 + BlockCols(n, w.pos.bw));
    }
  }

  lemma RowOnTop<T>(n: Net<T>, w: Writer, w': Writer)
    requires n.Valid() && WriterOk(n, w) && w.pos != End(n) && w.ph == WPopW
    requires w.sbh + 1 < NonzeroH(n, w.pos.bh) && w' == Writer(w.pos, w.sbh + 1, 0, WWait)
    ensures RowsBelow(n, w) == RestOfRow(n, w') + RowsBelow(n, w')
  {
    hide Net.Valid, Rows, BlockRows, BlockCols, Net.Obh, Net.Obw, Net.Sub, At, NonzeroH, NonzeroW, SubRows, SubCols;
    Visits(n, w.pos);
    RowPieces(n, w');
    ColPieces(n, w');
    SubNonEmpty(n, w');
    var r0, c0 := At(w.pos.bh, n.Obh()), At(w.pos.bw, n.Obw());
    CutRows(n, r0 + At(w'.sbh, n.sh), SubRows(n, w'), n.sh, r0 + BlockRows(n, w.pos.bh), c0, c0 + BlockCols(n, w.pos.bw));
  }

  lemma RowBound<T>(n: Net<T>, w: Writer)
    requires WriterOk(n, w) && !Feeding(w.ph)
    ensures w.sbh + 1 <= NonzeroH(n, w.pos.bh)
  {
    hide NonzeroH;
  }

  // The next outer block comes off the right, or off the top of what is below.
  lemma RestPopH<T>(n: Net<T>, w: Writer)
    requires n.Valid() && WriterOk(n, w) && w.pos != End(n) && w.ph == WPopH
    ensures Rest(n, w) == Rest(n, AdvanceW(n, w))
  {
    hide Net.Valid, Rows, BlockRows, BlockCols, CoreRows, CoreCols, Net.Obh, Net.Obw, Net.Sub, At, WriterOk, NonzeroH,
         NonzeroW;
    InRangeBounds(n, w);
    OuterPieces(n, w.pos);
    n.Sizes();
    var r0, c0 := At(w.pos.bh, n.Obh()), At(w.pos.bw, n.Obw());
    if w.pos.bw + 1 == n.nbw {
      NoRows(n, r0, r0 + BlockRows(n, w.pos.bh), c0 + n.Obw(), CoreCols(n));
      if w.pos.bh + 1 < n.nbh {
        OuterPieces(n, Pos(w.pos.bh + 1, 0, 0));
        CutRows(n, r0 + n.Obh(), BlockRows(n, w.pos.bh + 1), n.Obh(), CoreRows(n), 0, CoreCols(n));
      } else {
        NoRows(n, r0 + n.Obh(), CoreRows(n), 0, CoreCols(n));
      }
    }
  }

  lemma LogStep<T>(n: Net<T>, w: Writer)
    requires n.Valid() && WriterOk(n, w) && w.pos != End(n)
    ensures WriterOk(n, AdvanceW(n, w)) && LeftW(n, AdvanceW(n, w)) < LeftW(n, w)
    ensures Log(n, w) == (if w.ph == WWrite then SubIds(n, w) else multiset{}) + Log(n, AdvanceW(n, w))
  {
    hide Net.Valid, WriterOk, AdvanceW, SubIds;
    WriterStepKeepsOk(n, w);
  }

  lemma {:induction false} LogIsRest<T>(n: Net<T>, w: Writer)
    requires n.Valid() && WriterOk(n, w)
    ensures Log(n, w) == Rest(n, w)
    decreases LeftW(n, w)
  {
    hide Net.Valid, WriterOk, AdvanceW, SubIds, Log, RestOfBlock, Right, Below, LeftW;
    if w.pos != End(n) {
      LogStep(n, w);
      RestStep(n, w);
      LogIsRest(n, AdvanceW(n, w));
    } else {
      NothingLeft(n, w);
    }
  }

  lemma NothingLeft<T>(n: Net<T>, w: Writer)
    requires n.Valid() && WriterOk(n, w) && w.pos == End(n)
    ensures Log(n, w) == multiset{} && Rest(n, w) == multiset{}
  {
    hide Net.Valid;
  }

  // The writer writes every tile of the core's valid rows and columns, and each once.
  lemma WriterCoversCore<T>(n: Net<T>)
    requires n.Valid()
    ensures WriterOk(n, Writer(Pos(0, 0, 0), 0, 0, WReserve))
    ensures Log(n, Writer(Pos(0, 0, 0), 0, 0, WReserve)) == Rows(n, 0, CoreRows(n), 0, CoreCols(n))
  {
    hide Net.Valid, BlockRows, BlockCols, CoreRows, CoreCols, Net.Obh, Net.Obw, Net.Sub, Rows, Log, At;
    var w := Writer(Pos(0, 0, 0), 0, 0, WReserve);
    n.Sizes();
    LogIsRest(n, w);
    OuterPieces(n, w.pos);
    CutRows(n, 0, BlockRows(n, 0), n.Obh(), CoreRows(n), 0, CoreCols(n));
  }

  // ---------- the values written ----------

  // The product entry that belongs at a tile id.
  ghost function Value<T>(n: Net<T>, id: int): T
    requires 0 < n.outStride
  {
    Dot(n.g, n.a, n.b, (id - n.outStart) / n.outStride, (id - n.outStart) % n.outStride, n.nb * n.kw)
  }

  lemma ValueAt<T>(n: Net<T>, r: nat, c: nat)
    requires 0 < n.outStride && c < n.outStride
    ensures Value(n, Id(n.outStart, n.outStride, r, c)) == Dot(n.g, n.a, n.b, r, c, n.nb * n.kw)
  {
    DivModUnique(r, c, n.outStride);
    assert Id(n.outStart, n.outStride, r, c) - n.outStart == r * n.outStride + c;
  }

  // after is before with the entries at ids replaced by the product, and nothing else changed.
  ghost predicate Painted<T>(n: Net<T>, before: map<int, T>, after: map<int, T>, ids: multiset<int>)
    requires 0 < n.outStride
  {
    && (forall id :: id in ids ==> id in after && after[id] == Value(n, id))
    && (forall id :: id !in ids ==> (id in after <==> id in before) && (id in before ==> after[id] == before[id]))
  }

  lemma PaintTwice<T>(n: Net<T>, out0: map<int, T>, out1: map<int, T>, out2: map<int, T>,
                      ids1: multiset<int>, ids2: multiset<int>)
    requires 0 < n.outStride && Painted(n, out0, out1, ids1) && Painted(n, out1, out2, ids2)
    ensures Painted(n, out0, out2, ids1 + ids2)
  {
    hide Value;
  }

  lemma PaintNothing<T>(n: Net<T>, out: map<int, T>)
    requires 0 < n.outStride
    ensures Painted(n, out, out, multiset{})
  {
  }

  // Tile (i, j) of a sub-block stored with `pitch` tiles per row is the entry that belongs at
  // its id, when the sub-block's first tile goes to row r, column c.
  ghost predicate Holds<T>(n: Net<T>, r: int, c: int, tiles: seq<T>, pitch: nat, i: nat, j: nat)
    requires 0 < n.outStride
  {
    0 <= At(i, pitch) + j < |tiles| && tiles[At(i, pitch) + j] == Value(n, Id(n.outStart, n.outStride, r + i, c + j))
  }

  ghost predicate RowsHold<T>(n: Net<T>, r: int, c: int, tiles: seq<T>, h: nat, w: nat, pitch: nat)
    requires 0 < n.outStride
  {
    forall i: nat, j: nat :: i < h && j < w ==> Holds(n, r, c, tiles, pitch, i, j)
  }

  lemma {:induction false} RowPainted<T>(n: Net<T>, out: map<int, T>, r: int, c: int, tiles: seq<T>,
                                         pitch: nat, i: nat, at: nat, id: int, k: nat)
    requires 0 < n.outStride && at == At(i, pitch) && at + k <= |tiles| && id == Id(n.outStart, n.outStride, r + i, c)
    requires forall j: nat :: j < k ==> Holds(n, r, c, tiles, pitch, i, j)
    ensures Painted(n, out, WriteRow(out, id, tiles, at, k), RowIds(n.outStart, n.outStride, r + i, c, c + k))
  {
    hide Value, At, Painted, RowIds, Holds, Id;
    if k > 0 {
      RowPainted(n, out, r, c, tiles, pitch, i, at, id, k - 1);
      var out1 := WriteRow(out, id, tiles, at, k - 1);
      TileHeld(n, r, c, tiles, pitch, i, at, id, k - 1);
      OnePainted(n, out1, id + k - 1, tiles[at + k - 1]);
      PaintTwice(n, out, out1, out1[id + k - 1 := tiles[at + k - 1]],
                 RowIds(n.outStart, n.outStride, r + i, c, c + k - 1), multiset{id + k - 1});
      LastId(n, r + i, c, k, id);
    } else {
      PaintNothing(n, out);
      NoIds(n, r + i, c);
    }
  }

  lemma NoIds<T>(n: Net<T>, r: int, c: int)
    ensures RowIds(n.outStart, n.outStride, r, c, c) == multiset{}
  {
  }

  lemma TileHeld<T>(n: Net<T>, r: int, c: int, tiles: seq<T>, pitch: nat, i: nat, at: nat, id: int, j: nat)
    requires 0 < n.outStride && at == At(i, pitch) && at + j < |tiles| && id == Id(n.outStart, n.outStride, r + i, c)
    requires Holds(n, r, c, tiles, pitch, i, j)
    ensures tiles[at + j] == Value(n, id + j)
  {
    hide Value, At;
  }

  lemma LastId<T>(n: Net<T>, r: int, c: int, k: nat, id: int)
    requires 0 < k && id == Id(n.outStart, n.outStride, r, c)
    ensures RowIds(n.outStart, n.outStride, r, c, c + k)
         == RowIds(n.outStart, n.outStride, r, c, c + k - 1) + multiset{id + k - 1}
  {
  }

  lemma OnePainted<T>(n: Net<T>, out: map<int, T>, id: int, t: T)
    requires 0 < n.outStride && t == Value(n, id)
    ensures Painted(n, out, out[id := t], multiset{id})
  {
    hide Value;
  }

  lemma {:induction false} RowsPainted<T>(n: Net<T>, out: map<int, T>, r: int, c: int, tiles: seq<T>,
                                          h: nat, w: nat, skip: nat)
    requires 0 < n.outStride && h * (w + skip) <= |tiles|
    requires RowsHold(n, r, c, tiles, h, w, w + skip)
    ensures Painted(n, out, WriteRows(out, Id(n.outStart, n.outStride, r, c), n.outStride, tiles, h, w, skip),
                    Box(n.outStart, n.outStride, r, r + h, c, c + w))
    decreases h
  {
    hide Value, Painted, RowIds, Holds, WriteRow;
    if h == 0 {
      PaintNothing(n, out);
    } else {
      OneRowLess(h, w + skip);
      var out1 := WriteRows(out, Id(n.outStart, n.outStride, r, c), n.outStride, tiles, h - 1, w, skip);
      RowsPainted(n, out, r, c, tiles, h - 1, w, skip);
      IdBelow(n, r, c, h - 1);
      RowPainted(n, out1, r, c, tiles, w + skip, h - 1, (h - 1) * (w + skip),
                 Id(n.outStart, n.outStride, r, c) + (h - 1) * n.outStride, w);
      PaintTwice(n, out, out1, WriteRows(out, Id(n.outStart, n.outStride, r, c), n.outStride, tiles, h, w, skip),
                 Box(n.outStart, n.outStride, r, r + h - 1, c, c + w), RowIds(n.outStart, n.outStride, r + h - 1, c, c + w));
    }
  }

  lemma IdBelow<T>(n: Net<T>, r: int, c: int, i: nat)
    ensures Id(n.outStart, n.outStride, r, c) + i * n.outStride == Id(n.outStart, n.outStride, r + i, c)
  {
  }

  lemma OneRowLess(h: nat, pitch: nat)
    requires 0 < h
    ensures h * pitch == (h - 1) * pitch + pitch && 0 <= (h - 1) * pitch == At(h - 1, pitch)
  {
  }

  // The tiles of a finished sub-block are the entries that belong at the ids it goes to.
  lemma FinishedHolds<T>(n: Net<T>, w: Writer, i: nat, j: nat)
    requires n.Valid() && WriterOk(n, w) && InSub(w.ph) && w.pos != End(n) && CoreCols(n) <= n.outStride
    requires i < SubRows(n, w) && j < SubCols(n, w)
    ensures 0 < n.outStride
    ensures Holds(n, SubRow(n, w), SubCol(n, w), FinishedSub(n, w), n.sw, i, j)
  {
    hide Value, Net.Valid, WriterOk, Net.Partial, CoreCols, SubRows, SubCols, Net.Obh, Net.Obw, Net.Base, Net.Cap,
         NonzeroH, NonzeroW, FinishedSub;
    n.Sizes();
    ColInside(n, w, j);
    SubNonEmpty(n, w);
    SubInside(n, w);
    FinishedAt(n, w, i, j);
    ValueAt(n, SubRow(n, w) + i, SubCol(n, w) + j);
  }

  lemma SubInside<T>(n: Net<T>, w: Writer)
    requires n.Valid() && WriterOk(n, w) && InSub(w.ph)
    ensures w.sbh < n.nsh && w.sbw < n.nsw && 0 <= SubRow(n, w)
  {
    hide Net.Valid, Net.Obh, SubRow, At, NonzeroH, NonzeroW, InRange;
    Visits(n, w.pos);
    SubAt(n, w);
    AtSign(w.pos.bh, n.Obh());
    AtSign(w.sbh, n.sh);
  }

  lemma ColInside<T>(n: Net<T>, w: Writer, j: nat)
    requires n.Valid() && WriterOk(n, w) && InSub(w.ph) && w.pos != End(n) && j < SubCols(n, w)
    ensures 0 <= SubCol(n, w) && SubCol(n, w) + j < CoreCols(n)
  {
    hide BlockCols, CoreCols, SubCols, At, Net.Valid, Net.Obh, Net.Obw, NonzeroW, SubCol;
    InRangeBounds(n, w);
    OuterPieces(n, w.pos);
    ColPieces(n, w);
    SubNonEmpty(n, w);
    SubAt(n, w);
    AtSign(w.pos.bw, n.Obw());
    AtSign(w.sbw, n.sw);
  }

  lemma AtSign(i: nat, k: nat)
    ensures 0 <= At(i, k)
  {
  }

  lemma FinishedAt<T>(n: Net<T>, w: Writer, i: nat, j: nat)
    requires n.Valid() && WriterOk(n, w) && InSub(w.ph) && i < n.sh && j < n.sw && w.sbh < n.nsh && w.sbw < n.nsw
    ensures 0 <= At(i, n.sw) + j < n.Sub()
    ensures FinishedSub(n, w)[At(i, n.sw) + j]
         == Dot(n.g, n.a, n.b, SubRow(n, w) + i, SubCol(n, w) + j, n.nb * n.kw)
  {
    hide Net.Partial, Net.Valid, Net.Obh, Net.Obw, Net.Cap, Net.Base, WriterOk;
    n.Sizes();
    n.BaseBounds(w.sbh, w.sbw);
    n.PartialAt(w.pos.bh, w.pos.bw, n.nb - 1, w.sbh, w.sbw, i, j);
    n.PackedOrder(w.sbh, w.sbw, i, j);
    assert (n.nb - 1) * n.kw + n.kw == n.nb * n.kw;
  }

  lemma SubPainted<T>(n: Net<T>, w: Writer, out: map<int, T>)
    requires n.Valid() && WriterOk(n, w) && w.ph == WWrite && w.pos != End(n) && CoreCols(n) <= n.outStride
    ensures 0 < n.outStride
    ensures Painted(n, out, WriteSub(n, w, out, FinishedSub(n, w)), SubIds(n, w))
  {
    hide Value, Net.Valid, Net.Partial, CoreCols, SubRows, SubCols, RowSkip, Net.Obh, Net.Obw, Net.Base, Net.Cap,
         NonzeroH, NonzeroW, FinishedSub, SubRow, SubCol, Painted, WriterOk, Box, WriteRows;
    SubNonEmpty(n, w);
    FinishedHolds(n, w, 0, 0);
    SubFits(n, w);
    var tiles := FinishedSub(n, w);
    forall i: nat, j: nat | i < SubRows(n, w) && j < SubCols(n, w)
      ensures Holds(n, SubRow(n, w), SubCol(n, w), tiles, n.sw, i, j)
    {
      FinishedHolds(n, w, i, j);
    }
    RowsPainted(n, out, SubRow(n, w), SubCol(n, w), tiles, SubRows(n, w), SubCols(n, w), RowSkip(n, w));
  }

  lemma FinishStep<T>(n: Net<T>, w: Writer, out: map<int, T>)
    requires n.Valid() && WriterOk(n, w) && w.pos != End(n)
    ensures WriterOk(n, AdvanceW(n, w)) && LeftW(n, AdvanceW(n, w)) < LeftW(n, w)
    ensures Finish(n, w, out) ==
              Finish(n, AdvanceW(n, w), if w.ph == WWrite then WriteSub(n, w, out, FinishedSub(n, w)) else out)
  {
    hide Net.Valid, WriterOk, AdvanceW, FinishedSub, WriteSub;
    WriterStepKeepsOk(n, w);
  }

  lemma {:induction false} FinishPaints<T>(n: Net<T>, w: Writer, out: map<int, T>)
    requires n.Valid() && WriterOk(n, w) && CoreCols(n) <= n.outStride && 0 < n.outStride
    ensures Painted(n, out, Finish(n, w, out), Log(n, w))
    decreases LeftW(n, w)
  {
    hide Net.Valid, WriterOk, AdvanceW, Finish, Log, LeftW, SubIds, Painted, Value, WriteSub, FinishedSub, CoreCols;
    if w.pos == End(n) {
      FinishedNow(n, w, out);
      PaintNothing(n, out);
    } else {
      FinishStep(n, w, out);
      LogStep(n, w);
      var w' := AdvanceW(n, w);
      if w.ph == WWrite {
        var out' := WriteSub(n, w, out, FinishedSub(n, w));
        SubPainted(n, w, out);
        FinishPaints(n, w', out');
        PaintTwice(n, out, out', Finish(n, w, out), SubIds(n, w), Log(n, w'));
      } else {
        FinishPaints(n, w', out);
        assert multiset{} + Log(n, w') == Log(n, w');
      }
    }
  }

  lemma FinishedNow<T>(n: Net<T>, w: Writer, out: map<int, T>)
    requires n.Valid() && WriterOk(n, w) && w.pos == End(n)
    ensures Finish(n, w, out) == out && Log(n, w) == multiset{}
  {
    hide Net.Valid;
  }

  // ---------- the core computes its part of the product ----------

  ghost predicate CoreResult<T>(n: Net<T>, before: map<int, T>, after: map<int, T>) {
    && (forall r: nat, c: nat :: r < CoreRows(n) && c < CoreCols(n) ==>
          var id := Id(n.outStart, n.outStride, r, c);
          id in after && after[id] == Dot(n.g, n.a, n.b, r, c, n.nb * n.kw))
    && (forall id :: id !in Rows(n, 0, CoreRows(n), 0, CoreCols(n)) ==>
          (id in after <==> id in before) && (id in before ==> after[id] == before[id]))
  }

  lemma FinalOutIsProduct<T>(n: Net<T>, out: map<int, T>)
    requires n.Valid() && CoreCols(n) <= n.outStride && 0 < n.outStride
    ensures CoreResult(n, out, FinalOut(n, out))
  {
    hide Net.Valid, WriterOk, Finish, Log, Value, Box, CoreRows, CoreCols;
    WriterCoversCore(n);
    var after := FinalOut(n, out);
    FinishPaints(n, Writer(Pos(0, 0, 0), 0, 0, WReserve), out);
    forall r: nat, c: nat | r < CoreRows(n) && c < CoreCols(n)
      ensures var id := Id(n.outStart, n.outStride, r, c);
              id in after && after[id] == Dot(n.g, n.a, n.b, r, c, n.nb * n.kw)
    {
      InBox(n.outStart, n.outStride, 0, CoreRows(n), 0, CoreCols(n), r, c);
      ValueAt(n, r, c);
    }
  }

  lemma {:induction false} InRow(start: int, stride: nat, r: int, c0: int, c1: int, c: int)
    requires c0 <= c < c1
    ensures Id(start, stride, r, c) in RowIds(start, stride, r, c0, c1)
    decreases c1 - c0
  {
    if c < c1 - 1 {
      InRow(start, stride, r, c0, c1 - 1, c);
    }
  }

  lemma {:induction false} InBox(start: int, stride: nat, r0: int, r1: int, c0: int, c1: int, r: int, c: int)
    requires r0 <= r < r1 && c0 <= c < c1
    ensures Id(start, stride, r, c) in Box(start, stride, r0, r1, c0, c1)
    decreases r1 - r0
  {
    hide RowIds, Id;
    if r < r1 - 1 {
      InBox(start, stride, r0, r1 - 1, c0, c1, r, c);
    } else {
      InRow(start, stride, r, c0, c1, c);
    }
  }

  // Whatever the interleaving, a completed run leaves the product in the core's tiles of the
  // output tensor and changes no other tile.
  lemma CompletedRun<T>(n: Net<T>, ss: seq<State<T>>)
    requires n.Valid() && IsRun(n, ss) && CoreCols(n) <= n.outStride && 0 < n.outStride
    ensures Done(n, ss[|ss| - 1]) ==> CoreResult(n, ss[0].out, ss[|ss| - 1].out)
  {
    hide Net.Valid, Step, Init, CoreResult, Done, CoreCols, CanStep, FinalOut, AllSteps;
    MaximalRuns(n, ss);
    FinalOutIsProduct(n, ss[0].out);
  }
}
