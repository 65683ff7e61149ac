// The compute kernel as it is written: seven nested loops, running offsets, and a queue of
// partial results that is rotated by one sub-block at a time.
// Line numbers refer to kernels_common/bmm_large_block_zm_fused_bias_activation.cpp.
module ComputeLoops {
  import opened Arith
  import opened Tiles
  import opened CoreNet
  import opened Channels
  import opened Host

  ghost predicate ComputeMatches<T>(ca: ComputeArgs, n: Net<T>) {
    && n.Valid()
    && ca.in0BlockW == n.kw && ca.in0NumSub == n.nsh && ca.in1NumSub == n.nsw
    && ca.in0BlockTiles == n.N0() && ca.in1BlockTiles == n.N1()
    && ca.in0SubTiles == n.sh * n.kw && ca.in1PerCoreW == n.Obw()
    && ca.subH == n.sh && ca.subW == n.sw && ca.subTiles == n.Sub()
    && ca.numBlocks == n.nb && ca.numBlocksW == n.nbw && ca.numBlocksH == n.nbh && ca.batch == 1
  }

  lemma HostComputeMatches<T>(g: Alg<T>, a: Dram<T>, b: Dram<T>, s: Shape, y: nat, x: nat)
    requires s.Valid()
    ensures ComputeMatches(BuildComputeArgs(s), CoreOf(g, a, b, s, y, x))
  {
    Quotients(s);
    CoreIsValid(g, a, b, s, y, x);
    hide Shape.PerCoreM, Shape.PerCoreN, LastOuterH, LastOuterW, LastPiece, PieceCount, LocalA, LocalB, Net.Valid;
    Products(s.sh, s.kw, s.obh / s.sh);
    Products(s.sw, s.kw, s.obw / s.sw);
  }

  lemma Products(s: int, k: int, q: int)
    ensures s * k * q == (q * s) * k && s * k * q == k * (q * s) && s * q == q * s
  {
    assert s * k * q == (s * q) * k;
  }

  // ---------- one sub-block ----------

  lemma RunningIndex<T>(n: Net<T>, i0: nat, i1: nat, h: nat, w: nat, k: nat)
    requires i0 < n.nsh && i1 < n.nsw && h < n.sh && w < n.sw && k < n.kw
    ensures i0 * n.sh + h < n.Obh() && i1 * n.sw + w < n.Obw()
    ensures i0 * (n.sh * n.kw) + h * n.kw + k == n.In0Id(i0 * n.sh + h, k) < n.N0()
    ensures i1 * n.sw + k * n.Obw() + w == n.In1Id(k, i1 * n.sw + w) < n.N1()
  {
    FlatBound(i0, h, n.nsh, n.sh);
    FlatBound(i1, w, n.nsw, n.sw);
    hide Net.Obh, Net.Obw;
    FlatBound(i0 * n.sh + h, k, n.Obh(), n.kw);
    FlatBound(k, i1 * n.sw + w, n.kw, n.Obw());
    assert i0 * (n.sh * n.kw) + h * n.kw == (i0 * n.sh + h) * n.kw;
  }

  lemma SubInside<T>(n: Net<T>, i0: nat, i1: nat, h: nat, w: nat)
    requires i0 < n.nsh && i1 < n.nsw && h < n.sh && w < n.sw
    ensures i0 * n.sh + h < n.Obh() && i1 * n.sw + w < n.Obw()
    ensures h * n.sw + w < n.Sub()
  {
    FlatBound(i0, h, n.nsh, n.sh);
    FlatBound(i1, w, n.nsw, n.sw);
    FlatBound(h, w, n.sh, n.sw);
  }

  // Lines 98 to 108: the inner_dim loop on DST register d.
  method AccumulateTile<T>(g: Alg<T>, ca: ComputeArgs, dst: array<T>, d: nat, b0: seq<T>, b1: seq<T>,
                           in0SubOffset: nat, in0HOffset: nat, in1SubOffset: nat, w: nat,
                           ghost n: Net<T>, ghost i0: nat, ghost i1: nat, ghost h: nat)
    requires ComputeMatches(ca, n) && g == n.g
    requires i0 < n.nsh && i1 < n.nsw && h < n.sh && w < n.sw
    requires i0 * n.sh + h < n.Obh() && i1 * n.sw + w < n.Obw()
    requires |b0| == n.N0() && |b1| == n.N1() && d < dst.Length
    requires in0SubOffset == i0 * (n.sh * n.kw) && in0HOffset == h * n.kw && in1SubOffset == i1 * n.sw
    modifies dst
    ensures dst[d] == n.Chain(b0, b1, i0 * n.sh + h, i1 * n.sw + w, old(dst[d]), n.kw)
    ensures forall i | 0 <= i < dst.Length && i != d :: dst[i] == old(dst[i])
  {
    hide Net.Valid, Net.Obh, Net.Obw, Net.N0, Net.N1, Net.In0Id, Net.In1Id;
    ghost var first := dst[d];
    var innerOffset := 0;
    for k := 0 to ca.in0BlockW
      invariant innerOffset == k * n.Obw()
      invariant dst[d] == n.Chain(b0, b1, i0 * n.sh + h, i1 * n.sw + w, first, k)
      invariant forall i | 0 <= i < dst.Length && i != d :: dst[i] == old(dst[i])
    {
      RunningIndex(n, i0, i1, h, w, k);
      OneMore(k, n.Obw());
      var in0Index := in0SubOffset + in0HOffset + k;
      var in1Index := in1SubOffset + innerOffset + w;
      dst[d] := g.Mac(dst[d], b0[in0Index], b1[in1Index]);
      innerOffset := innerOffset + ca.in1PerCoreW;
    }
  }

  // Lines 94 to 112: the h and w loops around it.
  method ComputeSubBlock<T>(g: Alg<T>, ca: ComputeArgs, dst: array<T>, b0: seq<T>, b1: seq<T>,
                            in0SubOffset: nat, in1SubOffset: nat, ghost n: Net<T>, ghost i0: nat, ghost i1: nat)
    requires ComputeMatches(ca, n) && g == n.g
    requires i0 < n.nsh && i1 < n.nsw && dst.Length == n.Sub()
    requires |b0| == n.N0() && |b1| == n.N1()
    requires in0SubOffset == i0 * (n.sh * n.kw) && in1SubOffset == i1 * n.sw
    modifies dst
    ensures dst[..] == n.SubMath(old(dst[..]), b0, b1, i0, i1)
  {
    hide Net.Valid, Net.Obh, Net.Obw, Net.N0, Net.N1, Net.SubMath, Net.Chain, Net.Sub;
    n.Sizes();
    ghost var before := dst[..];
    ghost var want := n.SubMath(before, b0, b1, i0, i1);
    SubIs(n, n.sh);
    var d := 0;
    var in0HOffset := 0;
    for h := 0 to ca.subH
      invariant d == h * n.sw && 0 <= d <= n.Sub()
      invariant in0HOffset == h * n.kw
      invariant forall i | 0 <= i < d :: dst[i] == want[i]
      invariant forall i | d <= i < n.Sub() :: dst[i] == before[i]
    {
      for w := 0 to ca.subW
        invariant d == h * n.sw + w && d <= n.Sub()
        invariant forall i | 0 <= i < d :: dst[i] == want[i]
        invariant forall i | d <= i < n.Sub() :: dst[i] == before[i]
      {
        SubInside(n, i0, i1, h, w);
        n.SubMathIsChain(before, b0, b1, i0, i1, h, w, d);
        AccumulateTile(g, ca, dst, d, b0, b1, in0SubOffset, in0HOffset, in1SubOffset, w, n, i0, i1, h);
        d := d + 1;
      }
      NextRow(h, n.sw, n.sh);
      OneMore(h, n.kw);
      in0HOffset := in0HOffset + ca.in0BlockW;
    }
  }

  lemma SubIs<T>(n: Net<T>, h: nat)
    requires h == n.sh
    ensures n.Sub() == h * n.sw
  {
  }

  // ---------- the queue of partials ----------

  // Before the sub-block at `base` of K block blk: what is left of the previous K block's
  // partial, then what this one has spilled.
  ghost function PartialQueue<T>(n: Net<T>, bh: nat, bw: nat, blk: nat, base: nat): seq<T>
    requires 0 < n.nsw && 0 < n.sh && 0 < n.sw && base <= n.Cap()
  {
    (if blk > 0 then n.Partial(bh, bw, blk - 1)[base..] else [])
    + (if blk + 1 < n.nb then n.Partial(bh, bw, blk)[..base] else [])
  }

  // What has gone to CB16 for this outer block.
  ghost function Output<T>(n: Net<T>, bh: nat, bw: nat, blk: nat, base: nat): seq<T>
    requires 0 < n.nsw && 0 < n.sh && 0 < n.sw && base <= n.Cap()
  {
    if blk + 1 < n.nb then [] else n.Partial(bh, bw, blk)[..base]
  }

  // Reload: the front of the queue is the sub-block at base, to be continued.
  lemma Reloads<T>(n: Net<T>, bh: nat, bw: nat, blk: nat, base: nat, q: seq<T>)
    requires 0 < n.nsw && 0 < n.sh && 0 < n.sw && 0 < blk && base + n.Sub() <= n.Cap()
    requires q == PartialQueue(n, bh, bw, blk, base)
    ensures n.Sub() <= |q| && q[..n.Sub()] == n.Before(bh, bw, blk, base)
  {
    hide Net.Partial, Net.Sub, Net.Cap;
    var old', new' := n.Partial(bh, bw, blk - 1), if blk + 1 < n.nb then n.Partial(bh, bw, blk)[..base] else [];
    assert (old'[base..] + new')[..n.Sub()] == old'[base..][..n.Sub()];
    assert old'[base..][..n.Sub()] == old'[base..base + n.Sub()];
  }

  // Spill: one sub-block leaves the front, the next joins at the back.
  lemma Rotates<T>(n: Net<T>, bh: nat, bw: nat, blk: nat, base: nat, q: seq<T>, dst: seq<T>)
    requires 0 < n.nsw && 0 < n.sh && 0 < n.sw && base + n.Sub() <= n.Cap()
    requires q == PartialQueue(n, bh, bw, blk, base)
    requires dst == n.Partial(bh, bw, blk)[base..base + n.Sub()]
    ensures blk > 0 ==> n.Sub() <= |q|
    ensures var rest := if blk > 0 then q[n.Sub()..] else q;
            && (blk + 1 < n.nb ==> rest + dst == PartialQueue(n, bh, bw, blk, base + n.Sub()))
            && (blk + 1 >= n.nb ==> rest == PartialQueue(n, bh, bw, blk, base + n.Sub()))
            && (blk + 1 >= n.nb ==> Output(n, bh, bw, blk, base) + dst == Output(n, bh, bw, blk, base + n.Sub()))
  {
    hide Net.Partial, Net.Sub, Net.Cap;
    var s, cur := n.Sub(), n.Partial(bh, bw, blk);
    assert cur[..base] + cur[base..base + s] == cur[..base + s];
    if blk > 0 {
      var prev := n.Partial(bh, bw, blk - 1);
      var tail := if blk + 1 < n.nb then cur[..base] else [];
      assert (prev[base..] + tail)[s..] == prev[base..][s..] + tail;
      assert prev[base..][s..] == prev[base + s..];
    }
  }

  // Lines 78 to 91: zeroed registers, or the spilled partial.
  method LoadRegisters<T>(g: Alg<T>, ca: ComputeArgs, enableReload: bool, cb24: CircularBuffer<T>,
                          ghost n: Net<T>, ghost bh: nat, ghost bw: nat, ghost blk: nat, ghost base: nat)
    returns (dst: array<T>)
    requires ComputeMatches(ca, n) && g == n.g && enableReload == (blk > 0) && base + n.Sub() <= n.Cap()
    requires cb24.tiles == PartialQueue(n, bh, bw, blk, base)
    modifies cb24
    ensures fresh(dst) && dst[..] == n.Before(bh, bw, blk, base)
    ensures cb24.tiles == if blk > 0 && n.Sub() <= |old(cb24.tiles)| then old(cb24.tiles)[n.Sub()..] else old(cb24.tiles)
  {
    hide Net.Partial, Net.Sub, Net.Cap, PartialQueue, Net.Valid, Net.Before, Net.Obw, Net.N0, Net.N1;
    n.Sizes();
    dst := new T[ca.subTiles](_ => g.zero);
    if enableReload {
      Reloads(n, bh, bw, blk, base, cb24.tiles);
      ghost var q := cb24.tiles;
      for i := 0 to ca.subTiles
        invariant cb24.tiles == q
        invariant dst[..i] == q[..i]
      {
        dst[i] := cb24.tiles[i];
        assert q[..i + 1] == q[..i] + [q[i]];
      }
      assert dst[..] == dst[..n.Sub()];
      cb24.PopFront(ca.subTiles);
    } else {
      ZeroBefore(n, bh, bw, blk, base);
    }
  }

  lemma ZeroBefore<T>(n: Net<T>, bh: nat, bw: nat, blk: nat, base: nat)
    requires 0 < n.nsw && 0 < n.sh && 0 < n.sw && base + n.Sub() <= n.Cap() && blk == 0
    ensures forall i | 0 <= i < n.Sub() :: n.Before(bh, bw, blk, base)[i] == n.g.zero
  {
  }

  // Lines 78 to 188: one sub-block of one K block.
  method SubBlock<T>(g: Alg<T>, ca: ComputeArgs, b0: seq<T>, b1: seq<T>, enableReload: bool, lastOut: bool,
                     in0SubOffset: nat, in1SubOffset: nat, cb16: CircularBuffer<T>, cb24: CircularBuffer<T>,
                     ghost n: Net<T>, ghost bh: nat, ghost bw: nat, ghost blk: nat, ghost i0: nat, ghost i1: nat,
                     ghost base: nat, ghost before: seq<T>)
    requires ComputeMatches(ca, n) && g == n.g && cb16 != cb24
    requires i0 < n.nsh && i1 < n.nsw && base == n.Base(i0, i1) && base + n.Sub() <= n.Cap()
    requires blk < n.nb && enableReload == (blk > 0) && lastOut == (blk + 1 >= n.nb)
    requires b0 == n.In0Block(bh, blk) && b1 == n.In1Block(bw, blk)
    requires in0SubOffset == i0 * (n.sh * n.kw) && in1SubOffset == i1 * n.sw
    requires cb24.tiles == PartialQueue(n, bh, bw, blk, base)
    requires cb16.tiles == before + Output(n, bh, bw, blk, base)
    modifies cb16, cb24
    ensures cb24.tiles == PartialQueue(n, bh, bw, blk, base + n.Sub())
    ensures cb16.tiles == before + Output(n, bh, bw, blk, base + n.Sub())
  {
    hide Net.Partial, Net.Sub, Net.Cap, Net.Base, Net.SubMath, Net.In0Block, Net.In1Block, Net.N0, Net.N1,
         PartialQueue, Output, Net.Valid, Net.Obw, Net.Before;
    n.Sizes();
    Rotates(n, bh, bw, blk, base, cb24.tiles, n.Partial(bh, bw, blk)[base..base + n.Sub()]);
    var dst := LoadRegisters(g, ca, enableReload, cb24, n, bh, bw, blk, base);
    n.SubMathIsPartial(bh, bw, blk, i0, i1, base);
    ComputeSubBlock(g, ca, dst, b0, b1, in0SubOffset, in1SubOffset, n, i0, i1);
    if lastOut {
      cb16.PushBack(dst);
      Regrouped(before, Output(n, bh, bw, blk, base), dst[..]);
    } else {
      cb24.PushBack(dst);
    }
    OutputOf(n, bh, bw, blk, base, before);
  }

  lemma Regrouped<T>(a: seq<T>, b: seq<T>, c: seq<T>)
    ensures (a + b) + c == a + (b + c)
  {
  }

  lemma OutputOf<T>(n: Net<T>, bh: nat, bw: nat, blk: nat, base: nat, before: seq<T>)
    requires 0 < n.nsw && 0 < n.sh && 0 < n.sw && base + n.Sub() <= n.Cap()
    ensures blk + 1 < n.nb ==> Output(n, bh, bw, blk, base + n.Sub()) == Output(n, bh, bw, blk, base)
  {
  }

  // Lines 70 to 199: one K block.
  method KBlock<T>(g: Alg<T>, ca: ComputeArgs, enableReload: bool, lastOut: bool,
                   cb0: CircularBuffer<T>, cb1: CircularBuffer<T>, cb16: CircularBuffer<T>, cb24: CircularBuffer<T>,
                   ghost n: Net<T>, ghost bh: nat, ghost bw: nat, ghost blk: nat, ghost before: seq<T>)
    requires ComputeMatches(ca, n) && g == n.g
    requires cb0 != cb1 && cb0 != cb16 && cb0 != cb24 && cb1 != cb16 && cb1 != cb24 && cb16 != cb24
    requires blk < n.nb && enableReload == (blk > 0) && lastOut == (blk + 1 >= n.nb)
    requires n.In0Block(bh, blk) <= cb0.tiles && n.In1Block(bw, blk) <= cb1.tiles
    requires cb24.tiles == PartialQueue(n, bh, bw, blk, 0)
    requires cb16.tiles == before + Output(n, bh, bw, blk, 0)
    modifies cb0, cb1, cb16, cb24
    ensures cb0.tiles == old(cb0.tiles)[n.N0()..] && cb1.tiles == old(cb1.tiles)[n.N1()..]
    ensures cb24.tiles == PartialQueue(n, bh, bw, blk, n.Cap())
    ensures cb16.tiles == before + Output(n, bh, bw, blk, n.Cap())
  {
    hide Net.Partial, Net.Sub, Net.Cap, Net.Base, Net.In0Block, Net.In1Block, Net.N0, Net.N1, PartialQueue, Output,
         Net.Valid, Net.Obw;
    n.Sizes();
    var b0, b1 := cb0.tiles[..ca.in0BlockTiles], cb1.tiles[..ca.in1BlockTiles];
    n.BaseNext(0, 0);
    var in0SubOffset := 0;
    for i0 := 0 to ca.in0NumSub
      invariant in0SubOffset == i0 * (n.sh * n.kw)
      invariant n.Base(i0, 0) <= n.Cap()
      invariant cb0.tiles == old(cb0.tiles) && cb1.tiles == old(cb1.tiles)
      invariant cb24.tiles == PartialQueue(n, bh, bw, blk, n.Base(i0, 0))
      invariant cb16.tiles == before + Output(n, bh, bw, blk, n.Base(i0, 0))
    {
      var in1SubOffset := 0;
      for i1 := 0 to ca.in1NumSub
        invariant in1SubOffset == i1 * n.sw
        invariant n.Base(i0, i1) <= n.Cap()
        invariant cb0.tiles == old(cb0.tiles) && cb1.tiles == old(cb1.tiles)
        invariant cb24.tiles == PartialQueue(n, bh, bw, blk, n.Base(i0, i1))
        invariant cb16.tiles == before + Output(n, bh, bw, blk, n.Base(i0, i1))
      {
        n.BaseBounds(i0, i1);
        n.BaseNext(i0, i1);
        SubBlock(g, ca, b0, b1, enableReload, lastOut, in0SubOffset, in1SubOffset, cb16, cb24,
                 n, bh, bw, blk, i0, i1, n.Base(i0, i1), before);
        OneMore(i1, n.sw);
        in1SubOffset := in1SubOffset + ca.subW;
      }
      n.BaseNext(i0, 0);
      OneMore(i0, n.sh * n.kw);
      in0SubOffset := in0SubOffset + ca.in0SubTiles;
    }
    n.BaseNext(0, 0);
    cb0.PopFront(ca.in0BlockTiles);
    cb1.PopFront(ca.in1BlockTiles);
  }

  lemma QueueTurns<T>(n: Net<T>, bh: nat, bw: nat, blk: nat)
    requires 0 < n.nsw && 0 < n.sh && 0 < n.sw && blk < n.nb
    ensures PartialQueue(n, bh, bw, 0, 0) == [] && (1 < n.nb ==> Output(n, bh, bw, 0, 0) == [])
    ensures blk + 1 < n.nb ==> PartialQueue(n, bh, bw, blk + 1, 0) == PartialQueue(n, bh, bw, blk, n.Cap())
    ensures blk + 1 == n.nb ==> PartialQueue(n, bh, bw, blk, n.Cap()) == []
    ensures Output(n, bh, bw, blk, 0) == []
    ensures blk + 1 < n.nb ==> Output(n, bh, bw, blk, n.Cap()) == []
    ensures blk + 1 == n.nb ==> Output(n, bh, bw, blk, n.Cap()) == n.Partial(bh, bw, blk)
  {
    hide Net.Partial, Net.Cap;
    var p := n.Partial(bh, bw, blk);
    assert p[n.Cap()..] == [] && p[..n.Cap()] == p && p[0..] == p && p[..0] == [];
    if blk > 0 {
      var q := n.Partial(bh, bw, blk - 1);
      assert q[n.Cap()..] == [];
    }
  }

  // Lines 63 to 200: one outer block. Its K blocks leave the whole K sum in CB16, in
  // sub-block-major order, and no partial behind, however many K blocks there are.
  method OuterBlock<T>(g: Alg<T>, ca: ComputeArgs,
                       cb0: CircularBuffer<T>, cb1: CircularBuffer<T>, cb16: CircularBuffer<T>, cb24: CircularBuffer<T>,
                       ghost n: Net<T>, ghost bh: nat, ghost bw: nat)
    requires ComputeMatches(ca, n) && g == n.g && bh < n.nbh && bw < n.nbw
    requires cb0 != cb1 && cb0 != cb16 && cb0 != cb24 && cb1 != cb16 && cb1 != cb24 && cb16 != cb24
    requires Stream(n, In0) == Upto(n, In0, bh, bw, 0) + cb0.tiles
    requires Stream(n, In1) == Upto(n, In1, bh, bw, 0) + cb1.tiles
    requires cb24.tiles == []
    modifies cb0, cb1, cb16, cb24
    ensures Stream(n, In0) == Upto(n, In0, bh, bw, n.nb) + cb0.tiles
    ensures Stream(n, In1) == Upto(n, In1, bh, bw, n.nb) + cb1.tiles
    ensures cb16.tiles == old(cb16.tiles) + n.Partial(bh, bw, n.nb - 1)
    ensures cb24.tiles == []
  {
    hide Net.Partial, Net.Cap, Net.In0Block, Net.In1Block, Net.N0, Net.N1, PartialQueue, Output, Net.Valid, Upto,
         Stream, Net.Obw, Net.Sub;
    n.Sizes();
    ghost var before := cb16.tiles;
    var spill := ca.numBlocks > 1;
    var enableReload := false;
    QueueTurns(n, bh, bw, 0);
    assert before + [] == before;
    for blk := 0 to ca.numBlocks
      invariant enableReload == (blk > 0 && n.nb > 1)
      invariant Stream(n, In0) == Upto(n, In0, bh, bw, blk) + cb0.tiles
      invariant Stream(n, In1) == Upto(n, In1, bh, bw, blk) + cb1.tiles
      invariant cb24.tiles == if blk < n.nb then PartialQueue(n, bh, bw, blk, 0) else []
      invariant cb16.tiles == before + if blk < n.nb then [] else n.Partial(bh, bw, n.nb - 1)
    {
      var lastOut := blk == ca.numBlocks - 1;
      FrontBlock(n, In0, bh, bw, blk, cb0.tiles);
      FrontBlock(n, In1, bh, bw, blk, cb1.tiles);
      QueueTurns(n, bh, bw, blk);
      KBlock(g, ca, enableReload, lastOut, cb0, cb1, cb16, cb24, n, bh, bw, blk, before);
      if spill {
        enableReload := true;
      }
    }
  }

  // The whole kernel (batch is 1).
  method ComputeKernel<T>(g: Alg<T>, ca: ComputeArgs,
                          cb0: CircularBuffer<T>, cb1: CircularBuffer<T>, cb16: CircularBuffer<T>, cb24: CircularBuffer<T>,
                          ghost n: Net<T>)
    requires ComputeMatches(ca, n) && g == n.g
    requires cb0 != cb1 && cb0 != cb16 && cb0 != cb24 && cb1 != cb16 && cb1 != cb24 && cb16 != cb24
    requires cb0.tiles == Stream(n, In0) && cb1.tiles == Stream(n, In1) && cb24.tiles == []
    modifies cb0, cb1, cb16, cb24
    ensures cb0.tiles == [] && cb1.tiles == [] && cb24.tiles == []
    ensures cb16.tiles == old(cb16.tiles) + OutStream(n)
  {
    hide Net.Partial, Net.Cap, Upto, OutUpto, Net.Valid, Net.N0, Net.N1, Net.Obw, Net.Sub;
    n.Sizes();
    ghost var before := cb16.tiles;
    StartOfStreams(n, before);
    for bh := 0 to ca.numBlocksH
      invariant Stream(n, In0) == Upto(n, In0, bh, 0, 0) + cb0.tiles
      invariant Stream(n, In1) == Upto(n, In1, bh, 0, 0) + cb1.tiles
      invariant cb16.tiles == before + OutUpto(n, bh, 0) && cb24.tiles == []
    {
      for bw := 0 to ca.numBlocksW
        invariant Stream(n, In0) == Upto(n, In0, bh, bw, 0) + cb0.tiles
        invariant Stream(n, In1) == Upto(n, In1, bh, bw, 0) + cb1.tiles
        invariant cb16.tiles == before + OutUpto(n, bh, bw) && cb24.tiles == []
      {
        OuterBlock(g, ca, cb0, cb1, cb16, cb24, n, bh, bw);
        PushExtends(n, In0, bh, bw, 0, []);
        PushExtends(n, In1, bh, bw, 0, []);
        OutExtends(n, bh, bw, before);
      }
      PushExtends(n, In0, bh, 0, 0, []);
      PushExtends(n, In1, bh, 0, 0, []);
      OutExtends(n, bh, 0, before);
    }
    NothingRemains(Stream(n, In0), cb0.tiles);
    NothingRemains(Stream(n, In1), cb1.tiles);
  }

  lemma StartOfStreams<T>(n: Net<T>, before: seq<T>)
    requires 0 < n.kw && 0 < n.nb && 0 < n.nsw && 0 < n.sh && 0 < n.sw
    ensures Upto(n, In0, 0, 0, 0) == [] && Upto(n, In1, 0, 0, 0) == [] && OutUpto(n, 0, 0) == []
    ensures before + OutUpto(n, 0, 0) == before
  {
  }

  lemma OutExtends<T>(n: Net<T>, bh: nat, bw: nat, before: seq<T>)
    requires 0 < n.nb && 0 < n.nsw && 0 < n.sh && 0 < n.sw
    ensures (before + OutUpto(n, bh, bw)) + n.Partial(bh, bw, n.nb - 1) == before + OutUpto(n, bh, bw + 1)
    ensures OutUpto(n, bh + 1, 0) == OutUpto(n, bh, n.nbw)
  {
    hide Net.Partial;
  }

  lemma NothingRemains<T>(all: seq<T>, rest: seq<T>)
    requires all == all + rest
    ensures rest == []
  {
    assert |all| == |all| + |rest|;
  }
}
