// How long a core takes: the number of steps of each kernel, and so of every complete run, in
// closed form.
module StepCount {
  import opened Arith
  import opened CoreNet
  import opened Machine
  import opened Protocol
  import opened Safety
  import opened Runs
  import opened Order

  function Outers<T>(n: Net<T>): nat { n.nbh * n.nbw }
  function SubBlocksOf<T>(n: Net<T>): nat { n.nsh * n.nsw }

  // The reader: reserve, fill, push for every K block of every output block.
  function ReaderSteps<T>(n: Net<T>): nat { 3 * (Outers(n) * n.nb) }

  // The compute kernel: per K block two waits and two pops. Per sub-block, acquire and the math;
  // reserve, pack and push; wait, copy and pop except in the first K block; and one more reserve
  // in the first K block if it spills.
  function ComputeSteps<T>(n: Net<T>): int {
    Outers(n) * (4 * n.nb + SubBlocksOf(n) * (if n.nb == 1 then 5 else 8 * n.nb - 2))
  }

  // Sub-blocks that hold valid tiles, in a column and in a row of the core's output.
  function VisitedRows<T>(n: Net<T>): int { (n.nbh - 1) * n.nsh + n.edge.nonzeroH }
  function VisitedCols<T>(n: Net<T>): int { (n.nbw - 1) * n.nsw + n.edge.nonzeroW }

  // The writer: as the reader, then wait, write and pop per visited sub-block, a wait and a pop
  // for the padding of each of their rows, and a wait and a pop for the padded rows.
  function WriterSteps<T>(n: Net<T>): int {
    3 * (Outers(n) * n.nb) + 3 * (VisitedRows(n) * VisitedCols(n)) + 2 * (VisitedRows(n) * n.nbw) + 2 * Outers(n)
  }

  // ---------- the reader ----------

  lemma {:induction false} ReaderLeft<T>(n: Net<T>, p: Pos)
    requires n.Valid() && InRange(n, p)
    ensures LeftR(n, Reader(p, RReserve)) == 3 * (Outers(n) * n.nb - BlocksBefore(n, p))
    decreases n.nbh - p.bh, n.nbw - p.bw, n.nb - p.blk
  {
    hide Net.Valid, BlocksBefore, Succ, NextOuter;
    if p == End(n) {
      AtEnd(n);
      ReaderAtEnd(n);
    } else {
      SuccInRange(n, p);
      SuccIsNext(n, p);
      ReaderBlock(n, p);
      SuccDecreases(n, p);
      ReaderLeft(n, Succ(n, p));
    }
  }

  lemma SuccDecreases<T>(n: Net<T>, p: Pos)
    requires n.Valid() && InRange(n, p) && p != End(n)
    ensures var q := Succ(n, p);
            || q.bh > p.bh || (q.bh == p.bh && (q.bw > p.bw || (q.bw == p.bw && q.blk > p.blk)))
  {
  }

  lemma AtEnd<T>(n: Net<T>)
    requires n.Valid()
    ensures BlocksBefore(n, End(n)) == Outers(n) * n.nb && InRange(n, End(n))
  {
    hide Net.Valid;
  }

  lemma ReaderAtEnd<T>(n: Net<T>)
    requires n.Valid() && InRange(n, End(n))
    ensures LeftR(n, Reader(End(n), RReserve)) == 0
  {
  }

  lemma ReaderBlock<T>(n: Net<T>, p: Pos)
    requires n.Valid() && InRange(n, p) && p != End(n) && InRange(n, Succ(n, p))
    ensures LeftR(n, Reader(p, RReserve)) == 3 + LeftR(n, Reader(Succ(n, p), RReserve))
  {
    hide Net.Valid, Succ, InRange, End;
    assert LeftR(n, Reader(p, RReserve)) == 1 + LeftR(n, Reader(p, RFill));
    assert LeftR(n, Reader(p, RFill)) == 1 + LeftR(n, Reader(p, RPush));
    assert LeftR(n, Reader(p, RPush)) == 1 + LeftR(n, Reader(Succ(n, p), RReserve));
  }

  // ---------- the compute kernel ----------

  // Steps of one sub-block of K block blk.
  function PerSub<T>(n: Net<T>, blk: nat): nat {
    if blk == n.nb - 1 then (if blk == 0 then 5 else 8) else if blk == 0 then 6 else 8
  }

  // Steps of one sub-block in the K blocks before blk.
  function PerSubBefore(blk: nat): nat { if blk == 0 then 0 else 8 * blk - 2 }

  function PerOuter<T>(n: Net<T>): int {
    4 * n.nb + SubBlocksOf(n) * (if n.nb == 1 then 5 else 8 * n.nb - 2)
  }

  function ComputeBefore<T>(n: Net<T>, p: Pos): int {
    OutersBefore(n, p) * PerOuter(n) + 4 * p.blk + SubBlocksOf(n) * PerSubBefore(p.blk)
  }

  predicate AtSub<T>(n: Net<T>, c: Compute) {
    c.ph == CAcquire && c.pos != End(n) && c.reload == (c.pos.blk > 0)
  }

  lemma Go<T>(n: Net<T>, c: Compute) returns (d: Compute)
    requires n.Valid() && ComputeOk(n, c) && c.pos != End(n)
    ensures d == AdvanceC(n, c) && ComputeOk(n, d) && LeftC(n, c) == 1 + LeftC(n, d)
  {
    hide Net.Valid, ComputeOk, AdvanceC, End;
    ComputeStaysOk(n, c);
    d := AdvanceC(n, c);
  }

  lemma LoadLeft<T>(n: Net<T>, c: Compute) returns (d: Compute)
    requires n.Valid() && ComputeOk(n, c) && AtSub(n, c)
    ensures d == c.(ph := CMath) && ComputeOk(n, d)
    ensures LeftC(n, c) == (if c.reload then 4 else 1) + LeftC(n, d)
  {
    hide Net.Valid, Net.Sub, ComputeOk, LeftC, NextSub, End;
    d := Go(n, c);
    if c.reload {
      d := Go(n, d);
      d := Go(n, d);
      d := Go(n, d);
    }
  }

  lemma PackLeft<T>(n: Net<T>, c: Compute) returns (d: Compute)
    requires n.Valid() && ComputeOk(n, c) && c.ph == CMath && c.pos != End(n)
    ensures ComputeOk(n, d) && (exists k: nat :: d == NextSub(n, c.(outWait := k)))
    ensures LeftC(n, c) == (if c.pos.blk != n.nb - 1 && c.pos.blk == 0 then 5 else 4) + LeftC(n, d)
  {
    hide Net.Valid, Net.Sub, ComputeOk, LeftC, End;
    d := Go(n, c);
    if d.ph == CGuard {
      d := Go(n, d);
    }
    d := Go(n, d);
    d := Go(n, d);
    hide NextSub;
    NextSubIgnoresPhase(n, d, c.(outWait := d.outWait));
    d := Go(n, d);
  }

  lemma NextSubIgnoresPhase<T>(n: Net<T>, c: Compute, c': Compute)
    requires c' == c.(ph := c'.ph)
    ensures NextSub(n, c) == NextSub(n, c')
  {
  }

  lemma SubLeft<T>(n: Net<T>, c: Compute) returns (d: Compute)
    requires n.Valid() && ComputeOk(n, c) && AtSub(n, c)
    ensures ComputeOk(n, d) && LeftC(n, c) == PerSub(n, c.pos.blk) + LeftC(n, d) && d.pos == c.pos
    ensures (d.i0, d.i1) == if c.i1 + 1 < n.nsw then (c.i0, c.i1 + 1) else (c.i0 + 1, 0)
    ensures d.i0 < n.nsh ==> AtSub(n, d)
    ensures d.i0 >= n.nsh ==> d.ph == CPop0 && d.reload == (n.nb > 1 || c.reload)
  {
    hide Net.Valid, ComputeOk, LeftC, End;
    InSubRange(n, c);
    d := LoadLeft(n, c);
    d := PackLeft(n, d);
  }

  lemma InSubRange<T>(n: Net<T>, c: Compute)
    requires ComputeOk(n, c) && Active(c.ph)
    ensures c.i0 < n.nsh && c.i1 < n.nsw
  {
  }

  // Sub-blocks of the K block that are not yet computed.
  function SubsLeft<T>(n: Net<T>, c: Compute): int { SubBlocksOf(n) - (c.i0 * n.nsw + c.i1) }

  lemma {:induction false} SubsOfBlock<T>(n: Net<T>, c: Compute) returns (d: Compute)
    requires n.Valid() && ComputeOk(n, c) && AtSub(n, c)
    ensures ComputeOk(n, d) && LeftC(n, c) == SubsLeft(n, c) * PerSub(n, c.pos.blk) + LeftC(n, d)
    ensures d.pos == c.pos && d.ph == CPop0 && d.reload == (n.nb > 1 || c.reload)
    decreases n.nsh - c.i0, n.nsw - c.i1
  {
    hide Net.Valid, ComputeOk, LeftC, PerSub, SubsLeft;
    InSubRange(n, c);
    d := SubLeft(n, c);
    OneSubLess(n, c, d, PerSub(n, c.pos.blk));
    if d.i0 < n.nsh {
      d := SubsOfBlock(n, d);
    }
  }

  lemma OneSubLess<T>(n: Net<T>, c: Compute, d: Compute, x: nat)
    requires c.i0 < n.nsh && c.i1 < n.nsw
    requires (d.i0, d.i1) == if c.i1 + 1 < n.nsw then (c.i0, c.i1 + 1) else (c.i0 + 1, 0)
    ensures SubsLeft(n, c) == SubsLeft(n, d) + 1 && SubsLeft(n, c) * x == SubsLeft(n, d) * x + x
    ensures d.i0 >= n.nsh ==> SubsLeft(n, d) == 0
  {
    OneMore(c.i0, n.nsw);
  }

  predicate AtBlock<T>(n: Net<T>, c: Compute) {
    c.ph == CWait0 && c.i0 == 0 && c.i1 == 0 && InRange(n, c.pos) && (c.pos == End(n) || c.reload == (c.pos.blk > 0))
  }

  lemma BlockLeft<T>(n: Net<T>, c: Compute) returns (d: Compute)
    requires n.Valid() && ComputeOk(n, c) && AtBlock(n, c) && c.pos != End(n)
    ensures ComputeOk(n, d) && AtBlock(n, d) && d.pos == Succ(n, c.pos)
    ensures LeftC(n, c) == 4 + SubBlocksOf(n) * PerSub(n, c.pos.blk) + LeftC(n, d)
  {
    hide Net.Valid, Net.Sub, ComputeOk, LeftC, PerSub, Succ;
    SuccIsNext(n, c.pos);
    d := Go(n, c);
    d := Go(n, d);
    var x := PerSub(n, c.pos.blk);
    d := SubsOfBlock(n, d);
    d := Go(n, d);
    d := Go(n, d);
    SuccBlk(n, c.pos);
  }

  lemma SuccBlk<T>(n: Net<T>, p: Pos)
    requires n.Valid() && InRange(n, p) && p != End(n)
    ensures Succ(n, p).blk == if p.blk + 1 < n.nb then p.blk + 1 else 0
  {
    hide Net.Valid;
  }

  lemma {:induction false} ComputeLeft<T>(n: Net<T>, c: Compute)
    requires n.Valid() && ComputeOk(n, c) && AtBlock(n, c)
    ensures LeftC(n, c) == Outers(n) * PerOuter(n) - ComputeBefore(n, c.pos)
    decreases n.nbh - c.pos.bh, n.nbw - c.pos.bw, n.nb - c.pos.blk
  {
    hide Net.Valid, ComputeOk, PerSub, Succ, ComputeBefore, PerOuter, SubBlocksOf, Outers;
    if c.pos == End(n) {
      ComputeAtEnd(n, c);
    } else {
      hide LeftC;
      var d := BlockLeft(n, c);
      SuccDecreases(n, c.pos);
      ComputeLeft(n, d);
      BeforeNext(n, c.pos);
    }
  }

  lemma ComputeAtEnd<T>(n: Net<T>, c: Compute)
    requires n.Valid() && ComputeOk(n, c) && c.pos == End(n)
    ensures LeftC(n, c) == 0 && Outers(n) * PerOuter(n) == ComputeBefore(n, c.pos)
  {
    hide Net.Valid, PerOuter;
  }

  lemma BeforeNext<T>(n: Net<T>, p: Pos)
    requires n.Valid() && InRange(n, p) && p != End(n)
    ensures ComputeBefore(n, Succ(n, p)) == ComputeBefore(n, p) + 4 + SubBlocksOf(n) * PerSub(n, p.blk)
  {
    hide Net.Valid, SubBlocksOf, OutersBefore;
    SuccIsNext(n, p);
    SuccBlk(n, p);
    var q, k := Succ(n, p), SubBlocksOf(n);
    BlockPositive(n, p);
    if p.blk + 1 < n.nb {
      SameOuterBlock(n, p);
      assert PerSubBefore(p.blk + 1) == PerSubBefore(p.blk) + PerSub(n, p.blk);
      Distribute(k, PerSubBefore(p.blk), PerSub(n, p.blk));
    } else {
      OneMore(OutersBefore(n, p), PerOuter(n));
      Distribute(k, PerSubBefore(p.blk), PerSub(n, p.blk));
    }
  }

  lemma BlockPositive<T>(n: Net<T>, p: Pos)
    requires n.Valid() && InRange(n, p) && p != End(n)
    ensures p.blk < n.nb && 0 < n.nb && PerOuter(n) >= 0
  {
    Positive(n.nsh, n.nsw);
  }

  lemma SameOuterBlock<T>(n: Net<T>, p: Pos)
    requires p.blk + 1 < n.nb
    ensures OutersBefore(n, Succ(n, p)) == OutersBefore(n, p)
  {
  }

  lemma Distribute(k: int, x: int, y: int)
    ensures k * (x + y) == k * x + k * y
  {
  }

  // ---------- the writer ----------

  lemma GoW<T>(n: Net<T>, w: Writer) returns (d: Writer)
    requires n.Valid() && WriterOk(n, w) && w.pos != End(n)
    ensures d == AdvanceW(n, w) && WriterOk(n, d) && LeftW(n, w) == 1 + LeftW(n, d)
  {
    hide Net.Valid, WriterOk, AdvanceW, End;
    WriterStepKeepsOk(n, w);
    d := AdvanceW(n, w);
  }

  lemma {:induction false} FeedLeft<T>(n: Net<T>, w: Writer) returns (d: Writer)
    requires n.Valid() && WriterOk(n, w) && w.ph == WReserve && w.pos != End(n)
    ensures WriterOk(n, d) && d == Writer(Pos(w.pos.bh, w.pos.bw, n.nb - 1), 0, 0, WWait) && d.pos != End(n)
    ensures LeftW(n, w) == 3 * (n.nb - w.pos.blk) + LeftW(n, d)
    decreases n.nb - w.pos.blk
  {
    hide Net.Valid, WriterOk, LeftW;
    InsideBlock(n, w);
    d := GoW(n, w);
    d := GoW(n, d);
    d := GoW(n, d);
    if w.pos.blk + 1 < n.nb {
      d := FeedLeft(n, d);
    }
  }

  lemma InsideBlock<T>(n: Net<T>, w: Writer)
    requires WriterOk(n, w) && w.pos != End(n)
    ensures w.pos.bh < n.nbh && w.pos.bw < n.nbw && w.pos.blk < n.nb
    ensures InSub(w.ph) ==> w.sbw < NonzeroW(n, w.pos.bw)
    ensures !Feeding(w.ph) ==> w.sbh < NonzeroH(n, w.pos.bh)
  {
  }

  lemma {:induction false} RowLeft<T>(n: Net<T>, w: Writer) returns (d: Writer)
    requires n.Valid() && WriterOk(n, w) && w.ph == WWait && w.pos != End(n)
    ensures WriterOk(n, d) && d.pos == w.pos && d.sbh == w.sbh && d.ph == WWaitW
    ensures LeftW(n, w) == 3 * (NonzeroW(n, w.pos.bw) - w.sbw) + LeftW(n, d)
    decreases NonzeroW(n, w.pos.bw) - w.sbw
  {
    hide Net.Valid, WriterOk, LeftW, NonzeroW;
    InsideBlock(n, w);
    d := GoW(n, w);
    d := GoW(n, d);
    d := GoW(n, d);
    if d.ph == WWait {
      d := RowLeft(n, d);
    }
  }

  function PerRow<T>(n: Net<T>, p: Pos): nat { 3 * NonzeroW(n, p.bw) + 2 }

  lemma {:induction false} RowsLeftOf<T>(n: Net<T>, w: Writer) returns (d: Writer)
    requires n.Valid() && WriterOk(n, w) && w.ph == WWait && w.sbw == 0 && w.pos != End(n)
    ensures WriterOk(n, d) && d.pos == w.pos && d.ph == WWaitH
    ensures LeftW(n, w) == (NonzeroH(n, w.pos.bh) - w.sbh) * PerRow(n, w.pos) + LeftW(n, d)
    decreases NonzeroH(n, w.pos.bh) - w.sbh
  {
    hide Net.Valid, WriterOk, LeftW, NonzeroW, NonzeroH;
    InsideBlock(n, w);
    d := RowLeft(n, w);
    d := GoW(n, d);
    d := GoW(n, d);
    var k := NonzeroH(n, w.pos.bh) - w.sbh - 1;
    OneMore(k, PerRow(n, w.pos));
    if d.ph == WWait {
      d := RowsLeftOf(n, d);
    }
  }

  // Steps that draining output block p takes.
  function DrainOf<T>(n: Net<T>, p: Pos): nat { NonzeroH(n, p.bh) * PerRow(n, p) + 2 }

  lemma OuterLeft<T>(n: Net<T>, p: Pos)
    requires n.Valid() && InRange(n, p) && p != End(n) && p.blk == 0
    ensures WriterOk(n, Writer(p, 0, 0, WReserve)) && WriterOk(n, Writer(NextOuter(n, p), 0, 0, WReserve))
    ensures LeftW(n, Writer(p, 0, 0, WReserve))
         == 3 * n.nb + DrainOf(n, p) + LeftW(n, Writer(NextOuter(n, p), 0, 0, WReserve))
  {
    hide Net.Valid, LeftW, NonzeroW, NonzeroH, NextOuter, PerRow;
    var w := Writer(p, 0, 0, WReserve);
    var d := FeedLeft(n, w);
    var e := RowsLeftOf(n, d);
    assert PerRow(n, d.pos) == PerRow(n, p) by { SameRow(n, p, d.pos); }
    e := GoW(n, e);
    e := GoW(n, e);
    assert NextOuter(n, d.pos) == NextOuter(n, p) by { SameNext(n, d.pos, p); }
  }

  lemma SameRow<T>(n: Net<T>, p: Pos, p': Pos)
    requires p.bw == p'.bw
    ensures PerRow(n, p) == PerRow(n, p')
  {
  }

  // Steps of draining all output blocks before (bh, bw).
  function Drained<T>(n: Net<T>, bh: nat, bw: nat): nat
    decreases bh, bw
  {
    if bw > 0 then Drained(n, bh, bw - 1) + DrainOf(n, Pos(bh, bw - 1, 0))
    else if bh > 0 then Drained(n, bh - 1, n.nbw)
    else 0
  }

  lemma DrainedNext<T>(n: Net<T>, p: Pos)
    requires n.Valid() && InRange(n, p) && p != End(n) && p.blk == 0
    ensures var q := NextOuter(n, p); Drained(n, q.bh, q.bw) == Drained(n, p.bh, p.bw) + DrainOf(n, p)
  {
    hide Net.Valid, DrainOf;
    assert p == Pos(p.bh, p.bw, 0);
    assert Drained(n, p.bh, p.bw + 1) == Drained(n, p.bh, p.bw) + DrainOf(n, p);
  }

  lemma {:induction false} WriterLeft<T>(n: Net<T>, p: Pos)
    requires n.Valid() && InRange(n, p) && p.blk == 0
    ensures WriterOk(n, Writer(p, 0, 0, WReserve))
    ensures LeftW(n, Writer(p, 0, 0, WReserve))
         == 3 * ((Outers(n) - OutersBefore(n, p)) * n.nb) + Drained(n, n.nbh, 0) - Drained(n, p.bh, p.bw)
    decreases n.nbh - p.bh, n.nbw - p.bw
  {
    hide Net.Valid, DrainOf, OutersBefore, NextOuter, Drained;
    if p == End(n) {
      assert OutersBefore(n, p) == Outers(n) by { SuccIsNextEnd(n); }
    } else {
      hide LeftW, InRange;
      SuccIsNext(n, p);
      OuterLeft(n, p);
      NextDecreases(n, p);
      WriterLeft(n, NextOuter(n, p));
      DrainedNext(n, p);
      var k := Outers(n) - OutersBefore(n, NextOuter(n, p));
      assert (k + 1) * n.nb == k * n.nb + n.nb;
    }
  }

  lemma SuccIsNextEnd<T>(n: Net<T>)
    ensures OutersBefore(n, End(n)) == Outers(n)
  {
  }

  lemma NextDecreases<T>(n: Net<T>, p: Pos)
    requires n.Valid() && InRange(n, p) && p != End(n)
    ensures var q := NextOuter(n, p); q.bh > p.bh || (q.bh == p.bh && q.bw > p.bw)
  {
  }

  // Visited sub-block columns of the first bw output blocks of a row; likewise rows.
  function ColsUpto<T>(n: Net<T>, bw: nat): int { if bw == n.nbw then VisitedCols(n) else bw * n.nsw }
  function RowsUpto<T>(n: Net<T>, bh: nat): int { if bh == n.nbh then VisitedRows(n) else bh * n.nsh }

  lemma UptoNext<T>(n: Net<T>, bh: nat, bw: nat)
    requires bh < n.nbh && bw < n.nbw
    ensures ColsUpto(n, bw + 1) == ColsUpto(n, bw) + NonzeroW(n, bw)
    ensures RowsUpto(n, bh + 1) == RowsUpto(n, bh) + NonzeroH(n, bh)
  {
    OneMore(bw, n.nsw);
    OneMore(bh, n.nsh);
  }

  lemma {:induction false} DrainedRow<T>(n: Net<T>, bh: nat, bw: nat)
    requires n.Valid() && bh < n.nbh && bw <= n.nbw
    ensures Drained(n, bh, bw)
         == Drained(n, bh, 0) + NonzeroH(n, bh) * (3 * ColsUpto(n, bw) + 2 * bw) + 2 * bw
  {
    hide Net.Valid, ColsUpto, NonzeroH, NonzeroW;
    if bw == 0 {
      NoColumns(n);
      assert NonzeroH(n, bh) * (3 * ColsUpto(n, 0) + 2 * 0) == 0;
    } else {
      DrainedRow(n, bh, bw - 1);
      UptoNext(n, bh, bw - 1);
      Distribute(NonzeroH(n, bh), 3 * ColsUpto(n, bw - 1) + 2 * (bw - 1), 3 * NonzeroW(n, bw - 1) + 2);
    }
  }

  lemma NoColumns<T>(n: Net<T>)
    requires n.Valid()
    ensures ColsUpto(n, 0) == 0 && RowsUpto(n, 0) == 0
  {
  }

  lemma {:induction false} DrainedRows<T>(n: Net<T>, bh: nat)
    requires n.Valid() && bh <= n.nbh
    ensures Drained(n, bh, 0) == RowsUpto(n, bh) * (3 * VisitedCols(n) + 2 * n.nbw) + 2 * (bh * n.nbw)
  {
    hide Net.Valid, NonzeroH, RowsUpto, VisitedCols;
    var x := 3 * VisitedCols(n) + 2 * n.nbw;
    if bh == 0 {
      NoColumns(n);
      assert RowsUpto(n, 0) * x == 0;
    } else {
      DrainedRows(n, bh - 1);
      DrainedRow(n, bh - 1, n.nbw);
      BlocksInRow(n);
      UptoNext(n, bh - 1, 0);
      assert (RowsUpto(n, bh - 1) + NonzeroH(n, bh - 1)) * x == RowsUpto(n, bh - 1) * x + NonzeroH(n, bh - 1) * x;
      OneMore(bh - 1, n.nbw);
    }
  }

  lemma BlocksInRow<T>(n: Net<T>)
    requires n.Valid()
    ensures 0 < n.nbw
  {
  }

  // ---------- a complete run ----------

  // Every run of a core that ends with all kernels finished takes the same number of steps:
  // each kernel makes its own number of them, whatever the interleaving and the data.
  lemma StepsOfCompleteRun<T>(n: Net<T>, ss: seq<State<T>>)
    requires n.Valid() && IsRun(n, ss) && Done(n, ss[|ss| - 1])
    ensures |ss| - 1 == ReaderSteps(n) + ComputeSteps(n) + WriterSteps(n)
  {
    hide Net.Valid, IsRun, Done;
    MaximalRuns(n, ss);
    AllStepsAre(n);
  }

  lemma AllStepsAre<T>(n: Net<T>)
    requires n.Valid()
    ensures AllSteps(n) == ReaderSteps(n) + ComputeSteps(n) + WriterSteps(n)
  {
    hide *;
    ReaderAll(n);
    ComputeAll(n);
    WriterAll(n);
    SumOfLeft(n);
  }

  lemma SumOfLeft<T>(n: Net<T>)
    requires n.Valid() && InRange(n, Pos(0, 0, 0))
    requires ComputeOk(n, Compute(Pos(0, 0, 0), 0, 0, CWait0, false, n.Sub()))
    requires WriterOk(n, Writer(Pos(0, 0, 0), 0, 0, WReserve))
    ensures AllSteps(n) == LeftR(n, Reader(Pos(0, 0, 0), RReserve))
      + LeftC(n, Compute(Pos(0, 0, 0), 0, 0, CWait0, false, n.Sub()))
      + LeftW(n, Writer(Pos(0, 0, 0), 0, 0, WReserve))
  {
    hide Net.Valid, LeftR, LeftC, LeftW, Net.Sub, InRange, ComputeOk, WriterOk;
  }

  lemma ReaderAll<T>(n: Net<T>)
    requires n.Valid()
    ensures InRange(n, Pos(0, 0, 0)) && LeftR(n, Reader(Pos(0, 0, 0), RReserve)) == ReaderSteps(n)
  {
    hide Net.Valid, LeftR, BlocksBefore, InRange;
    StartInRange(n);
    ReaderLeft(n, Pos(0, 0, 0));
  }

  lemma ComputeAll<T>(n: Net<T>)
    requires n.Valid()
    ensures ComputeOk(n, Compute(Pos(0, 0, 0), 0, 0, CWait0, false, n.Sub()))
    ensures LeftC(n, Compute(Pos(0, 0, 0), 0, 0, CWait0, false, n.Sub())) == ComputeSteps(n)
  {
    hide Net.Valid, LeftC, Net.Sub, Outers, SubBlocksOf, ComputeBefore, InRange;
    StartInRange(n);
    ComputeLeft(n, Compute(Pos(0, 0, 0), 0, 0, CWait0, false, n.Sub()));
  }

  lemma WriterAll<T>(n: Net<T>)
    requires n.Valid()
    ensures WriterOk(n, Writer(Pos(0, 0, 0), 0, 0, WReserve))
    ensures LeftW(n, Writer(Pos(0, 0, 0), 0, 0, WReserve)) == WriterSteps(n)
  {
    hide Net.Valid, LeftW, Outers, OutersBefore, Drained, VisitedRows, VisitedCols, WriterOk, InRange, RowsUpto;
    StartInRange(n);
    WriterLeft(n, Pos(0, 0, 0));
    DrainedRows(n, n.nbh);
    WholeDrain(n);
  }

  lemma StartInRange<T>(n: Net<T>)
    requires n.Valid()
    ensures InRange(n, Pos(0, 0, 0)) && Pos(0, 0, 0) != End(n)
    ensures BlocksBefore(n, Pos(0, 0, 0)) == 0 && OutersBefore(n, Pos(0, 0, 0)) == 0
    ensures ComputeBefore(n, Pos(0, 0, 0)) == 0 && Drained(n, 0, 0) == 0
  {
    hide PerOuter;
  }

  lemma WholeDrain<T>(n: Net<T>)
    ensures RowsUpto(n, n.nbh) * (3 * VisitedCols(n) + 2 * n.nbw) + 2 * (n.nbh * n.nbw)
         == 3 * (VisitedRows(n) * VisitedCols(n)) + 2 * (VisitedRows(n) * n.nbw) + 2 * Outers(n)
  {
    hide VisitedRows, VisitedCols;
    Distribute(VisitedRows(n), 3 * VisitedCols(n), 2 * n.nbw);
  }
}
