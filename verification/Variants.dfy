// The other compute kernel: accumulation in L1 by the packer, fused bias, and re-blocking to
// row order, in every combination. It computes one output block (no outer blocks).
// Line numbers refer to kernels_common/bmm_large_block_zm_fused_bias_activation_copy.cpp.
module Variants {
  import opened Arith
  import opened Tiles
  import opened CoreNet
  import opened Machine
  import opened Safety
  import opened Channels
  import opened Host
  import opened ComputeLoops
  import opened BlockMatrix
  import Searches

  // ---------- a circular buffer with its memory ----------

  class RingBuffer<T> {
    var q: Ring
    var mem: seq<T>

    ghost predicate Valid()
      reads this
    {
      0 < q.cap == |mem| && q.wr < q.cap && q.rd < q.cap && q.held <= q.cap
    }

    constructor (initial: seq<T>)
      requires 0 < |initial|
      ensures Valid() && q == Ring(|initial|, 0, 0, 0) && mem == initial
    {
      q := Ring(|initial|, 0, 0, 0);
      mem := initial;
    }

    // The k tiles at the front.
    function Front(k: nat): seq<T>
      requires Valid() && q.rd + k <= q.cap
      reads this
    {
      mem[q.rd..q.rd + k]
    }

    // pack_tile_block: over what is behind the write pointer or, when the packer accumulates
    // in L1, added to it.
    method Pack(g: Alg<T>, dst: array<T>, accumulate: bool)
      requires Valid() && q.wr + dst.Length <= q.cap
      modifies this`mem
      ensures Valid()
      ensures mem == Put(old(mem), q.wr, if accumulate then Added(g, old(mem)[q.wr..q.wr + dst.Length], dst[..]) else dst[..])
    {
      hide Put, Added;
      ghost var before := mem;
      ghost var at := q.wr;
      ghost var tiles := if accumulate then Added(g, before[at..at + dst.Length], dst[..]) else dst[..];
      for i := 0 to dst.Length
        invariant |mem| == |before| && q.wr == at
        invariant forall j | 0 <= j < |mem| :: mem[j] == if at <= j < at + i then tiles[j - at] else before[j]
      {
        if accumulate {
          AddedAt(g, before[at..at + dst.Length], dst[..], i);
        }
        mem := mem[q.wr + i := if accumulate then g.add(mem[q.wr + i], dst[i]) else dst[i]];
      }
      PutIs(before, at, tiles, mem);
    }

    method PushBack(k: nat)
      requires Valid() && q.held + k <= q.cap && q.wr + k <= q.cap
      modifies this`q
      ensures Valid() && q == old(q.Push(k))
    {
      q := q.Push(k);
    }

    method PopFront(k: nat)
      requires Valid() && k <= q.held && q.rd + k <= q.cap
      modifies this`q
      ensures Valid() && q == old(q.Pop(k))
    {
      q := q.Pop(k);
    }
  }

  lemma PutIs<T>(m: seq<T>, at: nat, tiles: seq<T>, r: seq<T>)
    requires |r| == |m| && at + |tiles| <= |m|
    requires forall j | 0 <= j < |m| :: r[j] == if at <= j < at + |tiles| then tiles[j - at] else m[j]
    ensures r == Put(m, at, tiles)
  {
  }

  lemma AddedAt<T>(g: Alg<T>, x: seq<T>, y: seq<T>, i: nat)
    requires |x| == |y| && i < |x|
    ensures Added(g, x, y)[i] == g.add(x[i], y[i])
  {
  }

  function Added<T>(g: Alg<T>, x: seq<T>, y: seq<T>): (s: seq<T>)
    requires |x| == |y|
    ensures |s| == |x|
  {
    seq(|x|, i requires 0 <= i < |x| => g.add(x[i], y[i]))
  }

  // ---------- the inner loops, interchanged ----------

  // Every register of the sub-block after k inner steps.
  ghost predicate ChainsTo<T>(n: Net<T>, dst: seq<T>, first: seq<T>, b0: seq<T>, b1: seq<T>, i0: nat, i1: nat, k: nat)
    requires |dst| == |first| == n.Sub() && |b0| == n.N0() && |b1| == n.N1() && i0 < n.nsh && i1 < n.nsw && k <= n.kw
  {
    forall h: nat, w: nat :: h < n.sh && w < n.sw ==> ChainTo(n, dst, first, b0, b1, i0, i1, h, w, k)
  }

  ghost predicate ChainTo<T>(n: Net<T>, dst: seq<T>, first: seq<T>, b0: seq<T>, b1: seq<T>, i0: nat, i1: nat, h: nat, w: nat, k: nat)
    requires |dst| == |first| == n.Sub() && |b0| == n.N0() && |b1| == n.N1() && i0 < n.nsh && i1 < n.nsw && k <= n.kw
    requires h < n.sh && w < n.sw
  {
    SubInside(n, i0, i1, h, w);
    dst[h * n.sw + w] == n.Chain(b0, b1, i0 * n.sh + h, i1 * n.sw + w, first[h * n.sw + w], k)
  }

  // Inside matmul_block: the registers before (h, w) have made step k, the others not yet.
  function StepsMade(h: nat, w: nat, x: nat, y: nat, k: nat): (l: nat)
    ensures k <= l <= k + 1
  {
    if x < h || (x == h && y < w) then k + 1 else k
  }

  ghost predicate Halfway<T>(n: Net<T>, dst: seq<T>, first: seq<T>, b0: seq<T>, b1: seq<T>, i0: nat, i1: nat,
                             h: nat, w: nat, k: nat)
    requires |dst| == |first| == n.Sub() && |b0| == n.N0() && |b1| == n.N1() && i0 < n.nsh && i1 < n.nsw && k < n.kw
  {
    forall x: nat, y: nat :: x < n.sh && y < n.sw ==>
      ChainTo(n, dst, first, b0, b1, i0, i1, x, y, StepsMade(h, w, x, y, k))
  }

  lemma HalfwayEnds<T>(n: Net<T>, dst: seq<T>, first: seq<T>, b0: seq<T>, b1: seq<T>, i0: nat, i1: nat, h: nat, k: nat)
    requires |dst| == |first| == n.Sub() && |b0| == n.N0() && |b1| == n.N1() && i0 < n.nsh && i1 < n.nsw && k < n.kw
    ensures ChainsTo(n, dst, first, b0, b1, i0, i1, k) ==> Halfway(n, dst, first, b0, b1, i0, i1, 0, 0, k)
    ensures Halfway(n, dst, first, b0, b1, i0, i1, h, n.sw, k) ==> Halfway(n, dst, first, b0, b1, i0, i1, h + 1, 0, k)
    ensures Halfway(n, dst, first, b0, b1, i0, i1, n.sh, 0, k) ==> ChainsTo(n, dst, first, b0, b1, i0, i1, k + 1)
  {
    hide ChainTo, StepsMade, Net.N0, Net.N1, Net.Sub;
    if ChainsTo(n, dst, first, b0, b1, i0, i1, k) {
      forall x: nat, y: nat | x < n.sh && y < n.sw
        ensures ChainTo(n, dst, first, b0, b1, i0, i1, x, y, StepsMade(0, 0, x, y, k))
      {
        AllSteps(n.sh, n.sw, h, x, y, k);
      }
    }
    if Halfway(n, dst, first, b0, b1, i0, i1, h, n.sw, k) {
      var next := h + 1;
      forall x: nat, y: nat | x < n.sh && y < n.sw
        ensures ChainTo(n, dst, first, b0, b1, i0, i1, x, y, StepsMade(next, 0, x, y, k))
      {
        AllSteps(n.sh, n.sw, h, x, y, k);
        assert ChainTo(n, dst, first, b0, b1, i0, i1, x, y, StepsMade(h, n.sw, x, y, k));
      }
    }
    if Halfway(n, dst, first, b0, b1, i0, i1, n.sh, 0, k) {
      var next := k + 1;
      forall x: nat, y: nat | x < n.sh && y < n.sw
        ensures ChainTo(n, dst, first, b0, b1, i0, i1, x, y, next)
      {
        AllSteps(n.sh, n.sw, h, x, y, k);
        assert ChainTo(n, dst, first, b0, b1, i0, i1, x, y, StepsMade(n.sh, 0, x, y, k));
      }
    }
  }

  lemma AllSteps(sh: nat, sw: nat, h: nat, x: nat, y: nat, k: nat)
    requires x < sh && y < sw
    ensures StepsMade(0, 0, x, y, k) == k
    ensures StepsMade(h, sw, x, y, k) == StepsMade(h + 1, 0, x, y, k)
    ensures StepsMade(sh, 0, x, y, k) == k + 1
  {
  }

  // One matmul_block call: the outer product of a column of in0 tiles and a row of in1 tiles.
  method MatmulBlock<T>(g: Alg<T>, ca: ComputeArgs, dst: array<T>, b0: seq<T>, b1: seq<T>, in0Index: nat, in1Index: nat,
                        ghost n: Net<T>, ghost first: seq<T>, ghost i0: nat, ghost i1: nat, ghost k: nat)
    requires ComputeMatches(ca, n) && g == n.g && i0 < n.nsh && i1 < n.nsw && k < n.kw
    requires dst.Length == |first| == n.Sub() && |b0| == n.N0() && |b1| == n.N1()
    requires in0Index == i0 * (n.sh * n.kw) + k && in1Index == i1 * n.sw + k * n.Obw()
    requires ChainsTo(n, dst[..], first, b0, b1, i0, i1, k)
    modifies dst
    ensures ChainsTo(n, dst[..], first, b0, b1, i0, i1, k + 1)
  {
    hide Net.Valid, Net.Obh, Net.Obw, Net.N0, Net.N1, Net.Sub, ChainTo, ChainsTo, Halfway, Net.In0Id, Net.In1Id;
    n.Sizes();
    HalfwayEnds(n, dst[..], first, b0, b1, i0, i1, 0, k);
    for h := 0 to ca.subH
      invariant Halfway(n, dst[..], first, b0, b1, i0, i1, h, 0, k)
    {
      for w := 0 to ca.subW
        invariant Halfway(n, dst[..], first, b0, b1, i0, i1, h, w, k)
      {
        SubInside(n, i0, i1, h, w);
        RunningIndex(n, i0, i1, h, w, k);
        var d := h * ca.subW + w;
        OneRegister(n, dst[..], first, b0, b1, i0, i1, h, w, k, d, i0 * n.sh + h, i1 * n.sw + w,
                    in0Index + h * n.kw, in1Index + w);
        dst[d] := g.Mac(dst[d], b0[in0Index + h * ca.in0BlockW], b1[in1Index + w]);
      }
      HalfwayEnds(n, dst[..], first, b0, b1, i0, i1, h, k);
    }
    HalfwayEnds(n, dst[..], first, b0, b1, i0, i1, 0, k);
  }

  // Extending the chain of one register leaves the others.
  lemma OneRegister<T>(n: Net<T>, prev: seq<T>, first: seq<T>, b0: seq<T>, b1: seq<T>,
                       i0: nat, i1: nat, h: nat, w: nat, k: nat, d: nat, row: nat, col: nat, x0: nat, x1: nat)
    requires |prev| == |first| == n.Sub() && |b0| == n.N0() && |b1| == n.N1() && i0 < n.nsh && i1 < n.nsw
    requires h < n.sh && w < n.sw && k < n.kw && d == h * n.sw + w < n.Sub()
    requires Halfway(n, prev, first, b0, b1, i0, i1, h, w, k)
    requires row == i0 * n.sh + h && row < n.Obh() && col == i1 * n.sw + w && col < n.Obw()
    requires x0 == n.In0Id(row, k) && x0 < |b0| && x1 == n.In1Id(k, col) && x1 < |b1|
    ensures Halfway(n, prev[d := n.g.Mac(prev[d], b0[x0], b1[x1])], first, b0, b1, i0, i1, h, w + 1, k)
  {
    hide Net.Obh, Net.Obw, Net.N0, Net.N1, Net.Sub, Net.In0Id, Net.In1Id, ChainTo;
    var dst := prev[d := n.g.Mac(prev[d], b0[x0], b1[x1])];
    var next := w + 1;
    forall x: nat, y: nat | x < n.sh && y < n.sw
      ensures ChainTo(n, dst, first, b0, b1, i0, i1, x, y, StepsMade(h, next, x, y, k))
    {
      assert ChainTo(n, prev, first, b0, b1, i0, i1, x, y, StepsMade(h, w, x, y, k));
      if x == h && y == w {
        ThisChain(n, prev, dst, first, b0, b1, i0, i1, h, w, k, d, row, col, x0, x1);
      } else {
        OtherChain(n, prev, dst, first, b0, b1, i0, i1, h, w, x, y, StepsMade(h, w, x, y, k), d);
      }
    }
  }

  lemma ThisChain<T>(n: Net<T>, prev: seq<T>, dst: seq<T>, first: seq<T>, b0: seq<T>, b1: seq<T>,
                     i0: nat, i1: nat, h: nat, w: nat, k: nat, d: nat, row: nat, col: nat, x0: nat, x1: nat)
    requires |prev| == |dst| == |first| == n.Sub() && |b0| == n.N0() && |b1| == n.N1() && i0 < n.nsh && i1 < n.nsw
    requires h < n.sh && w < n.sw && k < n.kw && d == h * n.sw + w < n.Sub()
    requires row == i0 * n.sh + h && row < n.Obh() && col == i1 * n.sw + w && col < n.Obw()
    requires x0 == n.In0Id(row, k) && x0 < |b0| && x1 == n.In1Id(k, col) && x1 < |b1|
    requires dst == prev[d := n.g.Mac(prev[d], b0[x0], b1[x1])]
    requires ChainTo(n, prev, first, b0, b1, i0, i1, h, w, k)
    ensures ChainTo(n, dst, first, b0, b1, i0, i1, h, w, k + 1)
  {
    hide Net.Obh, Net.Obw, Net.N0, Net.N1, Net.Sub, Net.In0Id, Net.In1Id;
  }

  lemma OtherChain<T>(n: Net<T>, prev: seq<T>, dst: seq<T>, first: seq<T>, b0: seq<T>, b1: seq<T>,
                      i0: nat, i1: nat, h: nat, w: nat, x: nat, y: nat, l: nat, d: nat)
    requires |prev| == |dst| == |first| == n.Sub() && |b0| == n.N0() && |b1| == n.N1() && i0 < n.nsh && i1 < n.nsw
    requires h < n.sh && w < n.sw && x < n.sh && y < n.sw && l <= n.kw && d == h * n.sw + w < n.Sub() && (x != h || y != w)
    requires forall i | 0 <= i < n.Sub() && i != d :: dst[i] == prev[i]
    requires ChainTo(n, prev, first, b0, b1, i0, i1, x, y, l)
    ensures ChainTo(n, dst, first, b0, b1, i0, i1, x, y, l)
  {
    hide Net.Obh, Net.Obw, Net.N0, Net.N1, Net.Sub, Net.Chain;
    SubInside(n, i0, i1, x, y);
    DistinctRegisters(x, y, h, w, n.sw);
  }

  lemma DistinctRegisters(x: nat, y: nat, h: nat, w: nat, sw: nat)
    requires y < sw && w < sw && (x != h || y != w)
    ensures x * sw + y != h * sw + w
  {
    if x * sw + y == h * sw + w {
      SameSplit(x, y, h, w, sw);
    }
  }

  lemma ChainsAreMath<T>(n: Net<T>, dst: seq<T>, first: seq<T>, b0: seq<T>, b1: seq<T>, i0: nat, i1: nat)
    requires |dst| == |first| == n.Sub() && |b0| == n.N0() && |b1| == n.N1() && i0 < n.nsh && i1 < n.nsw
    requires 0 < n.sw && ChainsTo(n, dst, first, b0, b1, i0, i1, n.kw)
    ensures dst == n.SubMath(first, b0, b1, i0, i1)
  {
    hide Net.Chain, Net.SubMath, Net.N0, Net.N1, Net.Obh, Net.Obw;
    forall t: nat | t < n.Sub()
      ensures dst[t] == n.SubMath(first, b0, b1, i0, i1)[t]
    {
      DivModBound(t, n.sh, n.sw);
      n.SubMathIsChain(first, b0, b1, i0, i1, t / n.sw, t % n.sw, t);
      assert ChainTo(n, dst, first, b0, b1, i0, i1, t / n.sw, t % n.sw, n.kw);
    }
  }

  lemma NoChains<T>(n: Net<T>, dst: seq<T>, b0: seq<T>, b1: seq<T>, i0: nat, i1: nat)
    requires |dst| == n.Sub() && |b0| == n.N0() && |b1| == n.N1() && i0 < n.nsh && i1 < n.nsw
    ensures ChainsTo(n, dst, dst, b0, b1, i0, i1, 0)
  {
    hide Net.N0, Net.N1, Net.Obh, Net.Obw, Net.Sub;
    forall h: nat, w: nat | h < n.sh && w < n.sw
      ensures ChainTo(n, dst, dst, b0, b1, i0, i1, h, w, 0)
    {
      SubInside(n, i0, i1, h, w);
    }
  }

  // Lines 172 to 193. The loops are in another order than in the plain kernel (inner_dim
  // outermost); the registers come out the same.
  method BlockMath<T>(g: Alg<T>, ca: ComputeArgs, dst: array<T>, b0: seq<T>, b1: seq<T>, in0SubOffset: nat, in1SubOffset: nat,
                      ghost n: Net<T>, ghost i0: nat, ghost i1: nat)
    requires ComputeMatches(ca, n) && g == n.g && i0 < n.nsh && i1 < n.nsw
    requires dst.Length == n.Sub() && |b0| == n.N0() && |b1| == n.N1()
    requires in0SubOffset == i0 * (n.sh * n.kw) && in1SubOffset == i1 * n.sw
    modifies dst
    ensures dst[..] == n.SubMath(old(dst[..]), b0, b1, i0, i1)
  {
    hide Net.Valid, Net.Obh, Net.Obw, Net.N0, Net.N1, Net.Sub, Net.SubMath, ChainsTo;
    n.Sizes();
    ghost var first := dst[..];
    NoChains(n, first, b0, b1, i0, i1);
    var in0Index, in1Index := in0SubOffset, in1SubOffset;
    for k := 0 to ca.in0BlockW
      invariant in0Index == i0 * (n.sh * n.kw) + k && in1Index == i1 * n.sw + k * n.Obw()
      invariant ChainsTo(n, dst[..], first, b0, b1, i0, i1, k)
    {
      MatmulBlock(g, ca, dst, b0, b1, in0Index, in1Index, n, first, i0, i1, k);
      OneMore(k, n.Obw());
      in0Index := in0Index + 1;
      in1Index := in1Index + ca.in1PerCoreW;
    }
    ChainsAreMath(n, dst[..], first, b0, b1, i0, i1);
  }

  // ---------- accumulating in L1 ----------

  // A chain that starts at acc is acc plus a chain that starts at zero.
  lemma {:induction false} ChainShift<T(!new)>(n: Net<T>, b0: seq<T>, b1: seq<T>, row: nat, col: nat, acc: T, len: nat)
    requires Exact(n.g) && row < n.Obh() && col < n.Obw() && len <= n.kw && |b0| == n.N0() && |b1| == n.N1()
    ensures n.Chain(b0, b1, row, col, acc, len) == n.g.add(acc, n.Chain(b0, b1, row, col, n.g.zero, len))
  {
    if len > 0 {
      ChainShift(n, b0, b1, row, col, acc, len - 1);
      FlatBound(row, len - 1, n.Obh(), n.kw);
      FlatBound(len - 1, col, n.kw, n.Obw());
    }
  }

  // Adding a K block's own product in L1 is the same as reloading the partial and going on.
  lemma AccumulateIsReload<T(!new)>(n: Net<T>, first: seq<T>, zeros: seq<T>, b0: seq<T>, b1: seq<T>, i0: nat, i1: nat)
    requires Exact(n.g) && i0 < n.nsh && i1 < n.nsw && 0 < n.sw
    requires |b0| == n.N0() && |b1| == n.N1() && |first| == |zeros| == n.Sub()
    requires forall t | 0 <= t < n.Sub() :: zeros[t] == n.g.zero
    ensures Added(n.g, first, n.SubMath(zeros, b0, b1, i0, i1)) == n.SubMath(first, b0, b1, i0, i1)
  {
    hide Net.Chain, Net.SubMath, Net.N0, Net.N1, Exact;
    forall t: nat | t < n.Sub()
      ensures Added(n.g, first, n.SubMath(zeros, b0, b1, i0, i1))[t] == n.SubMath(first, b0, b1, i0, i1)[t]
    {
      DivModBound(t, n.sh, n.sw);
      n.SubMathIsChain(first, b0, b1, i0, i1, t / n.sw, t % n.sw, t);
      n.SubMathIsChain(zeros, b0, b1, i0, i1, t / n.sw, t % n.sw, t);
      ChainShift(n, b0, b1, i0 * n.sh + t / n.sw, i1 * n.sw + t % n.sw, first[t], n.kw);
    }
  }

  // ---------- the K loop ----------

  // How one K block treats the partials buffer.
  datatype Mode = Mode(reload: bool, accumulate: bool, toPart: bool)

  // PACKER_L1_ACC, FUSE_BIAS and untilize_out.
  datatype Flags = Flags(l1Acc: bool, fuseBias: bool, untilize: bool)

  ghost function ModeOf(f: Flags, nb: nat, blk: nat): Mode {
    var last := blk + 1 >= nb;
    Mode(if f.l1Acc then !f.fuseBias && last && 0 < blk else 0 < blk,
         f.l1Acc && 0 < blk && (!last || f.fuseBias),
         !last || f.fuseBias || f.untilize)
  }

  // The partials buffer at sub-block `base` of a K block: pointers and memory.
  ghost predicate PartAt<T>(n: Net<T>, q: Ring, mem: seq<T>, m: Mode, blk: nat, base: nat)
    requires 0 < n.nsw && 0 < n.sh && 0 < n.sw
  {
    && base <= n.Cap() == |mem| && 0 < n.Cap()
    && q == Ring(n.Cap(), (if m.reload then n.Cap() - base else 0) + (if m.toPart then base else 0),
                 if m.toPart && base < n.Cap() then base else 0, if m.reload && base < n.Cap() then base else 0)
    && (m.toPart ==> mem[..base] == n.Partial(0, 0, blk)[..base])
    && (0 < blk ==> mem[if m.toPart then base else 0..] == n.Partial(0, 0, blk - 1)[if m.toPart then base else 0..])
  }

  ghost function OutAt<T>(n: Net<T>, m: Mode, blk: nat, base: nat): seq<T>
    requires 0 < n.nsw && 0 < n.sh && 0 < n.sw && base <= n.Cap()
  {
    if m.toPart then [] else n.Partial(0, 0, blk)[..base]
  }

  // Zeroed registers, or the partial at the front of the buffer (reload_from_cb_to_dst).
  method Load<T>(g: Alg<T>, ca: ComputeArgs, reload: bool, part: RingBuffer<T>,
                 ghost n: Net<T>, ghost m: Mode, ghost blk: nat, ghost base: nat) returns (dst: array<T>)
    requires ComputeMatches(ca, n) && g == n.g && part.Valid() && base + n.Sub() <= n.Cap()
    requires PartAt(n, part.q, part.mem, m, blk, base) && reload == m.reload && (m.reload ==> 0 < blk)
    modifies part`q
    ensures part.Valid() && fresh(dst) && dst.Length == n.Sub()
    ensures reload ==> dst[..] == n.Before(0, 0, blk, base)
    ensures !reload ==> forall i | 0 <= i < n.Sub() :: dst[i] == n.g.zero
    ensures part.q == if reload && base < n.Cap() then
                        Ring(n.Cap(), n.Cap() - base + (if m.toPart then base else 0) - n.Sub(), old(part.q.wr),
                             if base + n.Sub() < n.Cap() then base + n.Sub() else 0)
                      else old(part.q)
  {
    hide Net.Valid, Net.Sub, Net.Cap, Net.Partial, Net.Obw, Net.N0, Net.N1;
    n.Sizes();
    dst := new T[ca.subTiles](_ => g.zero);
    if reload {
      FrontIsBefore(n, part.mem, m, blk, base);
      ghost var tiles := part.mem[base..base + n.Sub()];
      for i := 0 to ca.subTiles
        invariant part.q == old(part.q)
        invariant dst[..i] == tiles[..i]
      {
        dst[i] := part.mem[part.q.rd + i];
        assert tiles[..i + 1] == tiles[..i] + [tiles[i]];
      }
      assert dst[..] == dst[..n.Sub()];
      part.PopFront(ca.subTiles);
    }
  }

  lemma FrontIsBefore<T>(n: Net<T>, mem: seq<T>, m: Mode, blk: nat, base: nat)
    requires 0 < n.nsw && 0 < n.sh && 0 < n.sw && 0 < blk && base + n.Sub() <= n.Cap() == |mem|
    requires mem[if m.toPart then base else 0..] == n.Partial(0, 0, blk - 1)[if m.toPart then base else 0..]
    ensures mem[base..base + n.Sub()] == n.Before(0, 0, blk, base)
  {
    hide Net.Partial, Net.Sub, Net.Cap;
    var from, prev := if m.toPart then base else 0, n.Partial(0, 0, blk - 1);
    assert mem[base..base + n.Sub()] == mem[from..][base - from..base - from + n.Sub()];
    assert prev[base..base + n.Sub()] == prev[from..][base - from..base - from + n.Sub()];
  }

  // Lines 158 to 255: one sub-block of K block blk.
  method SubBlockOf<T(!new)>(g: Alg<T>, ca: ComputeArgs, reload: bool, accumulate: bool, toPart: bool, b0: seq<T>, b1: seq<T>,
                             in0SubOffset: nat, in1SubOffset: nat, part: RingBuffer<T>, cb16: CircularBuffer<T>,
                             ghost n: Net<T>, ghost m: Mode, ghost blk: nat, ghost i0: nat, ghost i1: nat, ghost base: nat,
                             ghost before: seq<T>)
    requires ComputeMatches(ca, n) && g == n.g && part.Valid()
    requires i0 < n.nsh && i1 < n.nsw && base == n.Base(i0, i1) && base + n.Sub() <= n.Cap()
    requires m == Mode(reload, accumulate, toPart) && m.accumulate == (0 < blk && !m.reload) && (m.reload ==> 0 < blk)
    requires (m.accumulate ==> Exact(g) && m.toPart)
    requires b0 == n.In0Block(0, blk) && b1 == n.In1Block(0, blk)
    requires in0SubOffset == i0 * (n.sh * n.kw) && in1SubOffset == i1 * n.sw
    requires PartAt(n, part.q, part.mem, m, blk, base)
    requires cb16.tiles == before + OutAt(n, m, blk, base)
    modifies part, cb16
    ensures part.Valid() && PartAt(n, part.q, part.mem, m, blk, base + n.Sub())
    ensures cb16.tiles == before + OutAt(n, m, blk, base + n.Sub())
  {
    hide Net.Valid, Net.Sub, Net.Cap, Net.Partial, Net.Obw, Net.N0, Net.N1, Net.Base, Net.SubMath, Net.In0Block,
         Net.In1Block, Exact, Net.Before, PartAt, OutAt, Added;
    n.Sizes();
    PartFacts(n, part.q, part.mem, m, blk, base);
    var dst := Load(g, ca, reload, part, n, m, blk, base);
    ghost var loaded := dst[..];
    BlockMath(g, ca, dst, b0, b1, in0SubOffset, in1SubOffset, n, i0, i1);
    ghost var result := n.Partial(0, 0, blk)[base..base + n.Sub()];
    ResultOf(n, part.mem, loaded, dst[..], m, blk, i0, i1, base);
    if toPart {
      PackMoves(n, part.mem, m, blk, base, result);
      part.Pack(g, dst, accumulate);
      part.PushBack(ca.subTiles);
      PartNext(n, part.q, part.mem, m, blk, base);
    } else {
      cb16.PushBack(dst);
      PartNext(n, part.q, part.mem, m, blk, base);
    }
    OutNext(n, m, blk, base, before);
  }

  lemma PartFacts<T>(n: Net<T>, q: Ring, mem: seq<T>, m: Mode, blk: nat, base: nat)
    requires 0 < n.nsw && 0 < n.sh && 0 < n.sw && 0 < n.Sub() && base + n.Sub() <= n.Cap() && PartAt(n, q, mem, m, blk, base)
    ensures base < n.Cap() == q.cap == |mem|
    ensures q.wr == (if m.toPart then base else 0) && q.rd == (if m.reload then base else 0)
    ensures q.held == (if m.reload then n.Cap() - base else 0) + (if m.toPart then base else 0)
    ensures m.toPart ==> mem[..base] == n.Partial(0, 0, blk)[..base]
    ensures 0 < blk ==> mem[if m.toPart then base else 0..] == n.Partial(0, 0, blk - 1)[if m.toPart then base else 0..]
  {
    hide Net.Sub, Net.Cap, Net.Partial;
  }

  // Either way the result is the partial of this K block.
  lemma ResultOf<T(!new)>(n: Net<T>, mem: seq<T>, loaded: seq<T>, dst: seq<T>, m: Mode, blk: nat, i0: nat, i1: nat, base: nat)
    requires n.Valid() && i0 < n.nsh && i1 < n.nsw && base == n.Base(i0, i1) && base + n.Sub() <= n.Cap() == |mem|
    requires |loaded| == n.Sub() && |dst| == n.Sub()
    requires dst == n.SubMath(loaded, n.In0Block(0, blk), n.In1Block(0, blk), i0, i1)
    requires m.accumulate == (0 < blk && !m.reload) && (m.reload ==> 0 < blk)
    requires m.reload ==> loaded == n.Before(0, 0, blk, base)
    requires !m.reload ==> forall i | 0 <= i < n.Sub() :: loaded[i] == n.g.zero
    requires m.accumulate ==> Exact(n.g) && m.toPart
    requires 0 < blk ==> mem[if m.toPart then base else 0..] == n.Partial(0, 0, blk - 1)[if m.toPart then base else 0..]
    ensures (if m.accumulate then Added(n.g, mem[base..base + n.Sub()], dst) else dst) == n.Partial(0, 0, blk)[base..base + n.Sub()]
  {
    n.Sizes();
    hide Net.Valid, Net.Sub, Net.Cap, Net.Partial, Net.Obw, Net.N0, Net.N1, Net.Base, Net.SubMath, Net.In0Block,
         Net.In1Block, Exact, Added;
    n.SubMathIsPartial(0, 0, blk, i0, i1, base);
    if 0 < blk {
      FrontIsBefore(n, mem, m, blk, base);
    } else {
      assert loaded == n.Before(0, 0, blk, base);
    }
    if m.accumulate {
      AccumulateIsReload(n, n.Before(0, 0, blk, base), loaded, n.In0Block(0, blk), n.In1Block(0, blk), i0, i1);
    }
  }

  lemma PackMoves<T>(n: Net<T>, mem: seq<T>, m: Mode, blk: nat, base: nat, result: seq<T>)
    requires 0 < n.nsw && 0 < n.sh && 0 < n.sw && base + n.Sub() <= n.Cap() == |mem| && m.toPart
    requires result == n.Partial(0, 0, blk)[base..base + n.Sub()]
    requires mem[..base] == n.Partial(0, 0, blk)[..base]
    requires 0 < blk ==> mem[base..] == n.Partial(0, 0, blk - 1)[base..]
    ensures var mem' := Put(mem, base, result);
            && mem'[..base + n.Sub()] == n.Partial(0, 0, blk)[..base + n.Sub()]
            && (0 < blk ==> mem'[base + n.Sub()..] == n.Partial(0, 0, blk - 1)[base + n.Sub()..])
  {
    hide Net.Partial, Net.Sub, Net.Cap;
    PutMovesBoundary(mem, base, result, n.Partial(0, 0, blk), if 0 < blk then n.Partial(0, 0, blk - 1) else mem);
  }

  lemma PartNext<T>(n: Net<T>, q: Ring, mem: seq<T>, m: Mode, blk: nat, base: nat)
    requires 0 < n.nsw && 0 < n.sh && 0 < n.sw && 0 < n.Sub() && base + n.Sub() <= n.Cap() == |mem|
    requires var next := base + n.Sub();
             && q == Ring(n.Cap(), (if m.reload then n.Cap() - next else 0) + (if m.toPart then next else 0),
                          if m.toPart && next < n.Cap() then next else 0, if m.reload && next < n.Cap() then next else 0)
             && (m.toPart ==> mem[..next] == n.Partial(0, 0, blk)[..next])
             && (0 < blk ==> mem[if m.toPart then next else 0..] == n.Partial(0, 0, blk - 1)[if m.toPart then next else 0..])
    ensures PartAt(n, q, mem, m, blk, base + n.Sub())
  {
    hide Net.Sub, Net.Cap, Net.Partial;
  }

  lemma OutNext<T>(n: Net<T>, m: Mode, blk: nat, base: nat, before: seq<T>)
    requires 0 < n.nsw && 0 < n.sh && 0 < n.sw && base + n.Sub() <= n.Cap()
    ensures m.toPart ==> OutAt(n, m, blk, base + n.Sub()) == OutAt(n, m, blk, base)
    ensures !m.toPart ==>
              (before + OutAt(n, m, blk, base)) + n.Partial(0, 0, blk)[base..base + n.Sub()]
              == before + OutAt(n, m, blk, base + n.Sub())
  {
    hide Net.Partial, Net.Sub, Net.Cap;
    var p := n.Partial(0, 0, blk);
    assert p[..base] + p[base..base + n.Sub()] == p[..base + n.Sub()];
  }

  // Lines 152 to 260 and 288 to 289: one K block.
  method KBlockOf<T(!new)>(g: Alg<T>, ca: ComputeArgs, reload: bool, accumulate: bool, toPart: bool,
                           cb0: CircularBuffer<T>, cb1: CircularBuffer<T>, part: RingBuffer<T>, cb16: CircularBuffer<T>,
                           ghost n: Net<T>, ghost m: Mode, ghost blk: nat, ghost before: seq<T>)
    requires ComputeMatches(ca, n) && g == n.g && part.Valid() && cb0 != cb1 && cb0 != cb16 && cb1 != cb16
    requires m == Mode(reload, accumulate, toPart) && m.accumulate == (0 < blk && !m.reload) && (m.reload ==> 0 < blk)
    requires m.accumulate ==> Exact(g) && m.toPart
    requires n.In0Block(0, blk) <= cb0.tiles && n.In1Block(0, blk) <= cb1.tiles
    requires PartAt(n, part.q, part.mem, m, blk, 0) && cb16.tiles == before
    modifies cb0, cb1, part, cb16
    ensures part.Valid() && PartAt(n, part.q, part.mem, m, blk, n.Cap())
    ensures cb16.tiles == before + OutAt(n, m, blk, n.Cap())
    ensures cb0.tiles == old(cb0.tiles)[n.N0()..] && cb1.tiles == old(cb1.tiles)[n.N1()..]
  {
    hide Net.Valid, Net.Sub, Net.Cap, Net.Partial, Net.Obw, Net.N0, Net.N1, Net.Base, Net.In0Block, Net.In1Block,
         Exact, PartAt, OutAt;
    n.Sizes();
    var b0, b1 := cb0.tiles[..ca.in0BlockTiles], cb1.tiles[..ca.in1BlockTiles];
    n.BaseNext(0, 0);
    NothingOut(n, m, blk, before);
    var in0SubOffset := 0;
    for i0 := 0 to ca.in0NumSub
      invariant in0SubOffset == i0 * (n.sh * n.kw)
      invariant cb0.tiles == old(cb0.tiles) && cb1.tiles == old(cb1.tiles)
      invariant part.Valid() && n.Base(i0, 0) <= n.Cap() && PartAt(n, part.q, part.mem, m, blk, n.Base(i0, 0))
      invariant cb16.tiles == before + OutAt(n, m, blk, n.Base(i0, 0))
    {
      var in1SubOffset := 0;
      for i1 := 0 to ca.in1NumSub
        invariant in1SubOffset == i1 * n.sw
        invariant cb0.tiles == old(cb0.tiles) && cb1.tiles == old(cb1.tiles)
        invariant part.Valid() && n.Base(i0, i1) <= n.Cap() && PartAt(n, part.q, part.mem, m, blk, n.Base(i0, i1))
        invariant cb16.tiles == before + OutAt(n, m, blk, n.Base(i0, i1))
      {
        n.BaseBounds(i0, i1);
        n.BaseNext(i0, i1);
        SubBlockOf(g, ca, reload, accumulate, toPart, b0, b1, in0SubOffset, in1SubOffset, part, cb16,
                   n, m, blk, i0, i1, n.Base(i0, i1), before);
        OneMore(i1, n.sw);
        in1SubOffset := in1SubOffset + ca.subW;
      }
      n.BaseNext(i0, 0);
      OneMore(i0, n.sh * n.kw);
      in0SubOffset := in0SubOffset + ca.in0SubTiles;
    }
    n.BaseNext(0, 0);
    cb0.PopFront(ca.in0BlockTiles);
    cb1.PopFront(ca.in1BlockTiles);
  }

  lemma NothingOut<T>(n: Net<T>, m: Mode, blk: nat, before: seq<T>)
    requires 0 < n.nsw && 0 < n.sh && 0 < n.sw
    ensures before == before + OutAt(n, m, blk, 0)
  {
  }

  // ---------- fused bias ----------

  // add_tiles_bcast_rows of a tile of the product and a tile of the bias row.
  type AddBias<!T> = (T, T) -> T

  function Biased<T>(n: Net<T>, addBias: AddBias<T>, bias: seq<T>): (s: seq<T>)
    requires 0 < n.nb && 0 < n.nsw && 0 < n.sh && 0 < n.sw && |bias| == n.Obw()
    ensures |s| == n.Cap()
  {
    seq(n.Cap(), p requires 0 <= p < n.Cap() =>
      ColInside(n, p); addBias(n.Partial(0, 0, n.nb - 1)[p], bias[n.ColOf(p)]))
  }

  lemma ColInside<T>(n: Net<T>, p: nat)
    requires 0 < n.nsw && 0 < n.sh && 0 < n.sw && p < n.Cap()
    ensures 0 <= n.ColOf(p) < n.Obw() && 0 <= n.RowOf(p) < n.Obh()
  {
    Positive(n.sh, n.sw);
    DivModBound(p, n.nsh * n.nsw, n.Sub());
    DivModBound(p / n.Sub(), n.nsh, n.nsw);
    DivModBound(p % n.Sub(), n.sh, n.sw);
    FlatBound(p / n.Sub() % n.nsw, p % n.Sub() % n.sw, n.nsw, n.sw);
    FlatBound(p / n.Sub() / n.nsw, p % n.Sub() / n.sw, n.nsh, n.sh);
  }

  lemma BiasedAt<T>(n: Net<T>, addBias: AddBias<T>, bias: seq<T>, i0: nat, i1: nat, h: nat, w: nat, p: nat, c: nat)
    requires 0 < n.nb && 0 < n.nsw && i0 < n.nsh && i1 < n.nsw && h < n.sh && w < n.sw && |bias| == n.Obw()
    requires p == n.Base(i0, i1) + (h * n.sw + w) && p < n.Cap() && c == i1 * n.sw + w && c < n.Obw()
    ensures Biased(n, addBias, bias)[p] == addBias(n.Partial(0, 0, n.nb - 1)[p], bias[c])
  {
    hide Net.Partial, Net.Base, Net.Cap, Net.ColOf, Net.RowOf, Net.Obw;
    n.PackedOrder(i0, i1, h, w);
  }

  // The partials buffer in the bias loop: the rest of the product and, if the result is to be
  // untilized, what has gone back in.
  ghost predicate BiasAt<T>(n: Net<T>, q: Ring, mem: seq<T>, done: seq<T>, untilize: bool, base: nat)
    requires 0 < n.nb && 0 < n.nsw && 0 < n.sh && 0 < n.sw && |done| == n.Cap()
  {
    && base <= n.Cap() == |mem| && 0 < n.Cap()
    && q == Ring(n.Cap(), if untilize then n.Cap() else n.Cap() - base, if untilize && base < n.Cap() then base else 0,
                 if base < n.Cap() then base else 0)
    && mem[base..] == n.Partial(0, 0, n.nb - 1)[base..]
    && (untilize ==> mem[..base] == done[..base])
  }

  // Lines 314 to 320.
  method AddBiasTiles<T>(addBias: AddBias<T>, ca: ComputeArgs, dst: array<T>, tiles: seq<T>, bias: seq<T>, in1SubOffset: nat,
                         ghost n: Net<T>, ghost i0: nat, ghost i1: nat, ghost base: nat)
    requires ComputeMatches(ca, n) && i0 < n.nsh && i1 < n.nsw && |bias| == n.Obw() && in1SubOffset == i1 * n.sw
    requires base == n.Base(i0, i1) && base + n.Sub() <= n.Cap() && dst.Length == n.Sub()
    requires tiles == n.Partial(0, 0, n.nb - 1)[base..base + n.Sub()]
    modifies dst
    ensures dst[..] == Biased(n, addBias, bias)[base..base + n.Sub()]
  {
    hide Net.Valid, Net.Sub, Net.Cap, Net.Partial, Net.Base, Biased, Net.Obw;
    n.Sizes();
    SubIs(n, n.sh);
    ghost var want := Biased(n, addBias, bias);
    var i := 0;
    for j := 0 to ca.subH
      invariant i == j * n.sw && 0 <= i <= n.Sub()
      invariant forall t | 0 <= t < i :: dst[t] == want[base + t]
    {
      var bcastTileIdx := in1SubOffset;
      for k := 0 to ca.subW
        invariant i == j * n.sw + k && i <= n.Sub() && bcastTileIdx == in1SubOffset + k
        invariant forall t | 0 <= t < i :: dst[t] == want[base + t]
      {
        SubInside(n, i0, i1, j, k);
        BiasedAt(n, addBias, bias, i0, i1, j, k, base + i, bcastTileIdx);
        dst[i] := addBias(tiles[i], bias[bcastTileIdx]);
        bcastTileIdx := bcastTileIdx + 1;
        i := i + 1;
      }
      NextRow(j, n.sw, n.sh);
    }
  }

  // Lines 312 to 345: one sub-block.
  method BiasSubBlock<T>(addBias: AddBias<T>, g: Alg<T>, ca: ComputeArgs, untilize: bool, bias: seq<T>, in1SubOffset: nat,
                         part: RingBuffer<T>, cb16: CircularBuffer<T>,
                         ghost n: Net<T>, ghost i0: nat, ghost i1: nat, ghost base: nat, ghost before: seq<T>)
    requires ComputeMatches(ca, n) && part.Valid() && |bias| == n.Obw() && i0 < n.nsh && i1 < n.nsw
    requires base == n.Base(i0, i1) && base + n.Sub() <= n.Cap() && in1SubOffset == i1 * n.sw
    requires BiasAt(n, part.q, part.mem, Biased(n, addBias, bias), untilize, base)
    requires cb16.tiles == before + if untilize then [] else Biased(n, addBias, bias)[..base]
    modifies part, cb16
    ensures part.Valid() && BiasAt(n, part.q, part.mem, Biased(n, addBias, bias), untilize, base + n.Sub())
    ensures cb16.tiles == before + if untilize then [] else Biased(n, addBias, bias)[..base + n.Sub()]
  {
    hide Net.Valid, Net.Sub, Net.Cap, Net.Partial, Net.Base, Biased, Net.Obw, BiasAt, Put, Net.Obh, Net.N0, Net.N1;
    n.Sizes();
    ghost var done := Biased(n, addBias, bias);
    BiasFront(n, part.q, part.mem, done, untilize, base);
    BiasNext(n, part.q, part.mem, done, untilize, base, before);
    var dst := new T[ca.subTiles](_ => g.zero);
    AddBiasTiles(addBias, ca, dst, part.Front(ca.subTiles), bias, in1SubOffset, n, i0, i1, base);
    part.PopFront(ca.subTiles);
    if untilize {
      part.Pack(g, dst, false);
      part.PushBack(ca.subTiles);
    } else {
      cb16.PushBack(dst);
    }
  }

  // Lines 308 to 347.
  method BiasLoop<T>(addBias: AddBias<T>, g: Alg<T>, ca: ComputeArgs, untilize: bool, bias: seq<T>, part: RingBuffer<T>,
                     cb16: CircularBuffer<T>, ghost n: Net<T>, ghost before: seq<T>)
    requires ComputeMatches(ca, n) && part.Valid() && |bias| == n.Obw()
    requires FullOf(n, part, n.Partial(0, 0, n.nb - 1)) && cb16.tiles == before
    modifies part, cb16
    ensures part.Valid()
    ensures untilize ==> FullOf(n, part, Biased(n, addBias, bias)) && cb16.tiles == before
    ensures !untilize ==> part.q.held == 0 && cb16.tiles == before + Biased(n, addBias, bias)
  {
    hide Net.Valid, Net.Sub, Net.Cap, Net.Partial, Net.Base, Biased, Net.Obw, BiasAt, Net.Obh, Net.N0, Net.N1;
    n.Sizes();
    ghost var done := Biased(n, addBias, bias);
    StartBias(n, part.q, part.mem, done, untilize, before);
    n.BaseNext(0, 0);
    for i0 := 0 to ca.in0NumSub
      invariant part.Valid() && n.Base(i0, 0) <= n.Cap() && BiasAt(n, part.q, part.mem, done, untilize, n.Base(i0, 0))
      invariant cb16.tiles == before + if untilize then [] else done[..n.Base(i0, 0)]
    {
      var in1SubOffset := 0;
      for i1 := 0 to ca.in1NumSub
        invariant in1SubOffset == i1 * n.sw
        invariant part.Valid() && n.Base(i0, i1) <= n.Cap() && BiasAt(n, part.q, part.mem, done, untilize, n.Base(i0, i1))
        invariant cb16.tiles == before + if untilize then [] else done[..n.Base(i0, i1)]
      {
        n.BaseBounds(i0, i1);
        n.BaseNext(i0, i1);
        BiasSubBlock(addBias, g, ca, untilize, bias, in1SubOffset, part, cb16, n, i0, i1, n.Base(i0, i1), before);
        OneMore(i1, n.sw);
        in1SubOffset := in1SubOffset + ca.subW;
      }
      n.BaseNext(i0, 0);
    }
    n.BaseNext(0, 0);
    EndBias(n, part.q, part.mem, done, untilize);
  }

  // A buffer that holds exactly these tiles, read pointer at the start.
  ghost predicate FullOf<T>(n: Net<T>, part: RingBuffer<T>, tiles: seq<T>)
    reads part
  {
    part.q == Ring(n.Cap(), n.Cap(), 0, 0) && part.mem == tiles
  }

  lemma StartBias<T>(n: Net<T>, q: Ring, mem: seq<T>, done: seq<T>, untilize: bool, before: seq<T>)
    requires 0 < n.nb && 0 < n.nsw && 0 < n.sh && 0 < n.sw && |done| == n.Cap() && 0 < n.Cap()
    ensures q == Ring(n.Cap(), n.Cap(), 0, 0) && mem == n.Partial(0, 0, n.nb - 1) ==> BiasAt(n, q, mem, done, untilize, 0)
    ensures before == before + [] && before == before + done[..0]
  {
    hide Net.Partial, Net.Cap;
  }

  lemma BiasFront<T>(n: Net<T>, q: Ring, mem: seq<T>, done: seq<T>, untilize: bool, base: nat)
    requires 0 < n.nb && 0 < n.nsw && 0 < n.sh && 0 < n.sw && |done| == n.Cap() && 0 < n.Sub() && base + n.Sub() <= n.Cap()
    requires BiasAt(n, q, mem, done, untilize, base)
    ensures q.rd == base && q.held >= n.Sub() && q.cap == |mem| == n.Cap()
    ensures mem[base..base + n.Sub()] == n.Partial(0, 0, n.nb - 1)[base..base + n.Sub()]
  {
    hide Net.Partial, Net.Cap, Net.Sub;
    var p := n.Partial(0, 0, n.nb - 1);
    assert mem[base..base + n.Sub()] == mem[base..][..n.Sub()];
    assert p[base..base + n.Sub()] == p[base..][..n.Sub()];
  }

  lemma BiasNext<T>(n: Net<T>, q: Ring, mem: seq<T>, done: seq<T>, untilize: bool, base: nat, before: seq<T>)
    requires 0 < n.nb && 0 < n.nsw && 0 < n.sh && 0 < n.sw && |done| == n.Cap() && 0 < n.Sub() && base + n.Sub() <= n.Cap()
    requires BiasAt(n, q, mem, done, untilize, base)
    ensures n.Sub() <= q.held && q.rd + n.Sub() <= q.cap
    ensures var q' := q.Pop(n.Sub());
            && (untilize ==>
                  && q'.wr == base && q'.held + n.Sub() <= q'.cap
                  && BiasAt(n, q'.Push(n.Sub()), Put(mem, base, done[base..base + n.Sub()]), done, untilize, base + n.Sub()))
            && (!untilize ==> BiasAt(n, q', mem, done, untilize, base + n.Sub()))
    ensures (before + done[..base]) + done[base..base + n.Sub()] == before + done[..base + n.Sub()]
  {
    hide Net.Partial, Net.Cap, Net.Sub;
    var p, next := n.Partial(0, 0, n.nb - 1), base + n.Sub();
    assert mem[next..] == mem[base..][n.Sub()..];
    assert p[next..] == p[base..][n.Sub()..];
    assert done[..base] + done[base..next] == done[..next];
    if untilize {
      PutMovesBoundary(mem, base, done[base..next], done, p);
    }
  }

  lemma EndBias<T>(n: Net<T>, q: Ring, mem: seq<T>, done: seq<T>, untilize: bool)
    requires 0 < n.nb && 0 < n.nsw && 0 < n.sh && 0 < n.sw && |done| == n.Cap()
    requires BiasAt(n, q, mem, done, untilize, n.Cap())
    ensures untilize ==> q == Ring(n.Cap(), n.Cap(), 0, 0) && mem == done
    ensures !untilize ==> q.held == 0
    ensures done[..n.Cap()] == done
  {
    hide Net.Partial, Net.Cap;
    assert mem[..n.Cap()] == mem;
  }

  // ---------- re-blocking to row order ----------

  // Where tile (r, c) of the output block is in sub-block-major order.
  function PackedIndex<T>(n: Net<T>, r: nat, c: nat): nat
    requires 0 < n.sh && 0 < n.sw
  {
    n.Base(r / n.sh, c / n.sw) + (r % n.sh * n.sw + c % n.sw)
  }

  lemma PackedInside<T>(n: Net<T>, r: nat, c: nat)
    requires 0 < n.nsw && 0 < n.sh && 0 < n.sw && r < n.Obh() && c < n.Obw()
    ensures PackedIndex(n, r, c) < n.Cap()
    ensures n.RowOf(PackedIndex(n, r, c)) == r && n.ColOf(PackedIndex(n, r, c)) == c
  {
    hide Net.RowOf, Net.ColOf, Net.Base, Net.Cap;
    DivModBound(r, n.nsh, n.sh);
    DivModBound(c, n.nsw, n.sw);
    n.PackedOrder(r / n.sh, c / n.sw, r % n.sh, c % n.sw);
  }

  // The tiles of an output block, given in sub-block-major order, in row-major order.
  function RowMajor<T>(n: Net<T>, s: seq<T>): (r: seq<T>)
    requires 0 < n.nsw && 0 < n.sh && 0 < n.sw && |s| == n.Cap()
    ensures |r| == n.Obh() * n.Obw()
  {
    seq(n.Obh() * n.Obw(), t requires 0 <= t < n.Obh() * n.Obw() =>
      RowAndColumn(n, t); s[PackedIndex(n, t / n.Obw(), t % n.Obw())])
  }

  lemma RowAndColumn<T>(n: Net<T>, t: nat)
    requires 0 < n.nsw && 0 < n.sh && 0 < n.sw && t < n.Obh() * n.Obw()
    ensures 0 < n.Obw() && t / n.Obw() < n.Obh() && t % n.Obw() < n.Obw()
    ensures PackedIndex(n, t / n.Obw(), t % n.Obw()) < n.Cap()
  {
    Positive(n.nsw, n.sw);
    DivModBound(t, n.Obh(), n.Obw());
    PackedInside(n, t / n.Obw(), t % n.Obw());
  }

  lemma ReblockBounds<T>(n: Net<T>, i0: nat, h: nat, i1: nat, w: nat)
    requires i0 < n.nsh && h < n.sh && i1 < n.nsw && w < n.sw
    ensures i0 * n.sh + h < n.Obh() && i1 * n.sw + w < n.Obw() && h * n.sw + w < n.Sub()
    ensures n.Base(i0, i1) + n.Sub() <= n.Cap()
    ensures n.Base(i0, i1) == n.Base(i0, 0) + i1 * n.Sub()
    ensures 0 <= (i0 * n.sh + h) * n.Obw() && (i0 * n.sh + h) * n.Obw() + n.Obw() <= n.Obh() * n.Obw()
  {
    SubInside(n, i0, i1, h, w);
    n.BaseBounds(i0, i1);
    BaseAcross(n, i0, i1);
    hide Net.Obh, Net.Obw, Net.Base, Net.Cap, Net.Sub;
    FlatBound(i0 * n.sh + h, 0, n.Obh(), n.Obw());
  }

  // The tile that reblock_and_untilize copies in its loops at (h, i1, w) of sub-block row i0:
  // p is where it is, row r and column c where it belongs.
  lemma ReblockedTile<T>(n: Net<T>, s: seq<T>, i0: nat, h: nat, i1: nat, w: nat, r: nat, c: nat, p: nat, t: nat)
    requires 0 < n.nsw && i0 < n.nsh && h < n.sh && i1 < n.nsw && w < n.sw && |s| == n.Cap()
    requires r == i0 * n.sh + h && c == i1 * n.sw + w && c < n.Obw()
    requires p == n.Base(i0, i1) + (h * n.sw + w) && p < n.Cap()
    requires t == r * n.Obw() + c && t < n.Obh() * n.Obw()
    ensures RowMajor(n, s)[t] == s[p]
  {
    hide Net.Obh, Net.Obw, Net.Base, Net.RowOf, Net.ColOf, Net.Cap, Net.Sub;
    DivModUnique(i0, h, n.sh);
    DivModUnique(i1, w, n.sw);
    DivModUnique(r, c, n.Obw());
  }

  lemma BaseAcross<T>(n: Net<T>, i0: nat, i1: nat)
    ensures n.Base(i0, i1) == n.Base(i0, 0) + i1 * n.Sub()
  {
    hide Net.Sub;
    assert (i0 * n.nsw + i1) * n.Sub() == (i0 * n.nsw) * n.Sub() + i1 * n.Sub();
  }

  // Lines 57 to 68: row h of sub-block row i0, across all its sub-blocks.
  method ReblockRow<T>(g: Alg<T>, ca: ComputeArgs, mem: seq<T>, rd: nat, within: nat, ghost n: Net<T>, ghost i0: nat, ghost h: nat)
    returns (row: array<T>)
    requires ComputeMatches(ca, n) && i0 < n.nsh && h < n.sh && |mem| == n.Cap() && rd == n.Base(i0, 0) && within == h * n.sw
    ensures fresh(row) && row.Length == n.Obw()
    ensures forall t | 0 <= t < n.Obw() :: RowTile(RowMajor(n, mem), i0 * n.sh + h, n.Obw(), row[t], t)
  {
    hide Net.Valid, Net.Sub, Net.Cap, Net.Base, RowMajor, Net.Obw, Net.Obh, RowTile;
    n.Sizes();
    ghost var all := RowMajor(n, mem);
    row := new T[ca.in1PerCoreW](_ => g.zero);
    var blockOffset, at := 0, 0;
    ObwIs(n, n.nsw);
    for i1 := 0 to ca.in1NumSub
      invariant blockOffset == i1 * n.Sub() && at == i1 * n.sw && 0 <= at <= n.Obw()
      invariant forall t | 0 <= t < at :: RowTile(all, i0 * n.sh + h, n.Obw(), row[t], t)
    {
      for w := 0 to ca.subW
        invariant at == i1 * n.sw + w && at <= n.Obw()
        invariant forall t | 0 <= t < at :: RowTile(all, i0 * n.sh + h, n.Obw(), row[t], t)
      {
        ReblockBounds(n, i0, h, i1, w);
        var tileIndex := blockOffset + within + w;
        ReblockedRow(n, mem, i0, h, i1, w, at, rd + tileIndex);
        row[at] := mem[rd + tileIndex];
        at := at + 1;
      }
      NextRow(i1, n.sw, n.nsw);
      OneMore(i1, n.Sub());
      blockOffset := blockOffset + ca.subTiles;
    }
  }

  // Lines 49 to 74 for sub-block row i0.
  method ReblockAndUntilize<T>(g: Alg<T>, ca: ComputeArgs, part: RingBuffer<T>, cb16: CircularBuffer<T>,
                               ghost n: Net<T>, ghost s: seq<T>, ghost i0: nat, ghost before: seq<T>)
    requires ComputeMatches(ca, n) && part.Valid() && i0 < n.nsh && |s| == n.Cap()
    requires part.mem == s && n.Base(i0, 0) <= n.Cap()
    requires part.q == Ring(n.Cap(), n.Cap() - n.Base(i0, 0), 0, n.Base(i0, 0))
    requires At2(i0 * n.sh, n.Obw()) <= n.Obh() * n.Obw()
    requires cb16.tiles == before + RowMajor(n, s)[..At2(i0 * n.sh, n.Obw())]
    modifies part, cb16
    ensures part.Valid() && part.mem == s && n.Base(i0 + 1, 0) <= n.Cap()
    ensures part.q == Ring(n.Cap(), n.Cap() - n.Base(i0 + 1, 0), 0, if n.Base(i0 + 1, 0) < n.Cap() then n.Base(i0 + 1, 0) else 0)
    ensures At2((i0 + 1) * n.sh, n.Obw()) <= n.Obh() * n.Obw()
    ensures cb16.tiles == before + RowMajor(n, s)[..At2((i0 + 1) * n.sh, n.Obw())]
  {
    hide Net.Valid, Net.Sub, Net.Cap, Net.Base, RowMajor, Net.Obw, Net.Obh, At2, RowTile;
    n.Sizes();
    RowOfSubBlocks(n, i0);
    ghost var all := RowMajor(n, s);
    var tilesInRow := ca.subTiles * ca.in1NumSub;
    var within := 0;
    for h := 0 to ca.subH
      invariant within == h * n.sw
      invariant part.Valid() && part.mem == s && part.q == old(part.q)
      invariant At2(i0 * n.sh + h, n.Obw()) <= |all|
      invariant cb16.tiles == before + all[..At2(i0 * n.sh + h, n.Obw())]
    {
      var row := ReblockRow(g, ca, part.mem, part.q.rd, within, n, i0, h);
      SubInside(n, i0, 0, h, 0);
      RowComplete(all, i0 * n.sh + h, n.Obw(), n.Obh(), row[..], before);
      cb16.PushBack(row);
      OneMore(h, n.sw);
      within := within + ca.subW;
    }
    OneMore(i0, n.sh);
    part.PopFront(tilesInRow);
  }

  lemma RowOfSubBlocks<T>(n: Net<T>, i0: nat)
    requires 0 < n.nsw && i0 < n.nsh
    ensures n.Base(i0 + 1, 0) == n.Base(i0, 0) + n.Sub() * n.nsw <= n.Cap()
  {
    BaseAcross(n, i0, n.nsw);
    n.BaseNext(i0, n.nsw - 1);
    n.BaseNext(i0, 0);
    n.BaseBounds(i0, n.nsw - 1);
  }

  // The start of row r, w tiles to a row.
  function At2(r: nat, w: nat): nat { r * w }

  ghost predicate RowTile<T>(all: seq<T>, r: nat, w: nat, x: T, t: nat) {
    At2(r, w) + t < |all| && x == all[At2(r, w) + t]
  }

  lemma ReblockedRow<T>(n: Net<T>, s: seq<T>, i0: nat, h: nat, i1: nat, w: nat, c: nat, p: nat)
    requires 0 < n.nsw && i0 < n.nsh && h < n.sh && i1 < n.nsw && w < n.sw && |s| == n.Cap()
    requires c == i1 * n.sw + w && p == n.Base(i0, i1) + (h * n.sw + w)
    ensures p < n.Cap() && RowTile(RowMajor(n, s), i0 * n.sh + h, n.Obw(), s[p], c)
  {
    hide Net.Obh, Net.Obw, Net.Base, Net.Cap, Net.Sub, RowMajor;
    ReblockBounds(n, i0, h, i1, w);
    ReblockedTile(n, s, i0, h, i1, w, i0 * n.sh + h, c, p, (i0 * n.sh + h) * n.Obw() + c);
  }

  lemma ObwIs<T>(n: Net<T>, k: nat)
    requires k == n.nsw
    ensures n.Obw() == k * n.sw
  {
  }

  lemma RowComplete<T>(all: seq<T>, r: nat, w: nat, rows: nat, row: seq<T>, before: seq<T>)
    requires r < rows && |all| == rows * w && |row| == w && At2(r, w) <= |all|
    requires forall t | 0 <= t < w :: RowTile(all, r, w, row[t], t)
    ensures At2(r + 1, w) <= |all|
    ensures (before + all[..At2(r, w)]) + row == before + all[..At2(r + 1, w)]
  {
    MulMono(r + 1, rows, w);
    assert At2(r + 1, w) == At2(r, w) + w;
    hide At2;
    assert forall t | 0 <= t < w :: RowTile(all, r, w, row[t], t) && row[t] == all[At2(r, w) + t];
    assert all[..At2(r + 1, w)] == all[..At2(r, w)] + all[At2(r, w)..At2(r, w) + w];
    assert row == all[At2(r, w)..At2(r, w) + w];
  }

  // Lines 364 to 367: all rows of sub-blocks; the buffer is empty afterwards.
  method UntilizeBlock<T>(g: Alg<T>, ca: ComputeArgs, part: RingBuffer<T>, cb16: CircularBuffer<T>,
                          ghost n: Net<T>, ghost s: seq<T>, ghost before: seq<T>)
    requires ComputeMatches(ca, n) && part.Valid() && |s| == n.Cap() && FullOf(n, part, s) && cb16.tiles == before
    modifies part, cb16
    ensures part.Valid() && part.q.held == 0
    ensures cb16.tiles == before + RowMajor(n, s)
  {
    hide Net.Valid, Net.Sub, Net.Cap, Net.Base, RowMajor, Net.Obw, Net.Obh;
    n.Sizes();
    n.BaseNext(0, 0);
    ghost var all := RowMajor(n, s);
    for i0 := 0 to ca.in0NumSub
      invariant part.Valid() && part.mem == s && n.Base(i0, 0) <= n.Cap()
      invariant part.q == Ring(n.Cap(), n.Cap() - n.Base(i0, 0), 0, if n.Base(i0, 0) < n.Cap() then n.Base(i0, 0) else 0)
      invariant At2(i0 * n.sh, n.Obw()) <= |all|
      invariant cb16.tiles == before + all[..At2(i0 * n.sh, n.Obw())]
    {
      n.BaseBounds(i0, 0);
      ReblockAndUntilize(g, ca, part, cb16, n, s, i0, before);
    }
    n.BaseNext(0, 0);
    ObhIs(n, n.nsh);
    assert all[..|all|] == all;
  }

  lemma ObhIs<T>(n: Net<T>, k: nat)
    requires k == n.nsh
    ensures n.Obh() == k * n.sh
  {
  }

  // ---------- the whole kernel ----------

  // What the kernel puts out for one output block.
  ghost function VariantOutput<T>(n: Net<T>, f: Flags, addBias: AddBias<T>, bias: seq<T>): seq<T>
    requires 0 < n.nb && 0 < n.nsw && 0 < n.sh && 0 < n.sw && |bias| == n.Obw()
  {
    var block := if f.fuseBias then Biased(n, addBias, bias) else n.Partial(0, 0, n.nb - 1);
    if f.untilize then RowMajor(n, block) else block
  }

  // Entry (r, c): the whole K sum, with the bias of its column, at its place in the output.
  lemma VariantOutputAt<T>(n: Net<T>, f: Flags, addBias: AddBias<T>, bias: seq<T>, r: nat, c: nat)
    requires n.Valid() && |bias| == n.Obw() && r < n.Obh() && c < n.Obw()
    ensures 0 <= r * n.Obw() + c < n.Obh() * n.Obw() && PackedIndex(n, r, c) < n.Cap() == n.Obh() * n.Obw()
    ensures var product := Dot(n.g, n.a, n.b, r, c, n.nb * n.kw);
            |VariantOutput(n, f, addBias, bias)| == n.Cap()
            && VariantOutput(n, f, addBias, bias)[if f.untilize then r * n.Obw() + c else PackedIndex(n, r, c)]
            == if f.fuseBias then addBias(product, bias[c]) else product
  {
    n.Sizes();
    PackedInside(n, r, c);
    hide Net.Valid, Net.RowOf, Net.ColOf, Net.Cap, PackedIndex, Net.Obh, Net.Obw, Dot;
    FlatBound(r, c, n.Obh(), n.Obw());
    DivModUnique(r, c, n.Obw());
    assert (n.nb - 1) * n.kw + n.kw == n.nb * n.kw;
    assert n.Partial(0, 0, n.nb - 1)[PackedIndex(n, r, c)] == Dot(n.g, n.a, n.b, r, c, n.nb * n.kw);
  }

  // What the K loop does to the partials buffer between blocks.
  lemma ModeChain<T>(n: Net<T>, f: Flags, blk: nat, q: Ring, mem: seq<T>)
    requires 0 < n.nsw && 0 < n.sh && 0 < n.sw && blk < n.nb && PartAt(n, q, mem, ModeOf(f, n.nb, blk), blk, n.Cap())
    ensures var m := ModeOf(f, n.nb, blk);
            && m.accumulate == (0 < blk && !m.reload) && (m.reload ==> 0 < blk)
            && q == Ring(n.Cap(), if m.toPart then n.Cap() else 0, 0, 0)
            && (m.toPart ==> mem == n.Partial(0, 0, blk))
    ensures blk + 1 < n.nb ==>
              var m' := ModeOf(f, n.nb, blk + 1);
              && PartAt(n, if m'.reload then q else Ring(n.Cap(), 0, 0, 0), mem, m', blk + 1, 0)
              && m'.reload == (if f.l1Acc then !f.fuseBias && blk + 2 >= n.nb else true)
  {
    hide Net.Cap, Net.Partial;
    assert mem[..n.Cap()] == mem && n.Partial(0, 0, blk)[..n.Cap()] == n.Partial(0, 0, blk);
  }

  lemma StartMode<T>(n: Net<T>, f: Flags, q: Ring, mem: seq<T>)
    requires n.Valid() && q == Ring(n.Cap(), 0, 0, 0) && |mem| == n.Cap()
    ensures PartAt(n, q, mem, ModeOf(f, n.nb, 0), 0, 0) && !ModeOf(f, n.nb, 0).reload && !ModeOf(f, n.nb, 0).accumulate
  {
    n.Sizes();
    hide Net.Cap, Net.Partial, Net.Valid;
  }

  lemma ModeIs(f: Flags, nb: nat, blk: nat)
    requires blk < nb
    ensures var m := ModeOf(f, nb, blk);
            && m.accumulate == (f.l1Acc && 0 < blk && (blk + 1 < nb || f.fuseBias))
            && m.toPart == (blk + 1 < nb || f.fuseBias || f.untilize)
            && m.accumulate == (0 < blk && !m.reload) && (m.reload ==> 0 < blk) && (m.accumulate ==> f.l1Acc && m.toPart)
  {
  }

  // num_blocks - 2 is 2^32 - 1: after its only K block the kernel waits for, and drops, a
  // block of partials.
  predicate Underflows<T>(n: Net<T>, f: Flags) { f.l1Acc && !f.fuseBias && n.nb == 1 }

  // Lines 142 to 290. A wait that no one will ever satisfy makes the kernel hang; the method
  // then returns false.
  method KLoop<T(!new)>(g: Alg<T>, ca: ComputeArgs, outBlockTiles: nat, f: Flags, cb0: CircularBuffer<T>, cb1: CircularBuffer<T>,
                        part: RingBuffer<T>, cb16: CircularBuffer<T>, ghost n: Net<T>, ghost before: seq<T>) returns (done: bool)
    requires ComputeMatches(ca, n) && outBlockTiles == n.Cap() && g == n.g && part.Valid() && cb0 != cb1 && cb0 != cb16 && cb1 != cb16
    requires n.nbh == 1 && n.nbw == 1 && (f.l1Acc ==> Exact(g))
    requires part.q == Ring(n.Cap(), 0, 0, 0)
    requires cb0.tiles == Stream(n, In0) && cb1.tiles == Stream(n, In1) && cb16.tiles == before
    requires n.nb < Searches.TWO32
    modifies cb0, cb1, part, cb16
    ensures done <==> !(Underflows(n, f) && !f.untilize)
    ensures done ==> part.Valid() && cb0.tiles == [] && cb1.tiles == []
    ensures Underflows(n, f) && done ==> part.q.held == 0
    ensures done && !Underflows(n, f) && (f.fuseBias || f.untilize) ==>
              FullOf(n, part, n.Partial(0, 0, n.nb - 1)) && cb16.tiles == before
    ensures done && !Underflows(n, f) && !(f.fuseBias || f.untilize) ==>
              part.q.held == 0 && cb16.tiles == before + n.Partial(0, 0, n.nb - 1)
  {
    hide Net.Valid, Net.Sub, Net.Cap, Net.Partial, Net.Base, PartAt, OutAt, Net.Obw, Upto, Stream, Exact, Net.N0,
         Net.N1, Net.In0Block, Net.In1Block, ModeOf;
    n.Sizes();
    StartMode(n, f, part.q, part.mem);
    StreamStart(n);
    var enableReload := false;
    for blk := 0 to ca.numBlocks
      invariant part.Valid()
      invariant Stream(n, In0) == Upto(n, In0, 0, 0, blk) + cb0.tiles && Stream(n, In1) == Upto(n, In1, 0, 0, blk) + cb1.tiles
      invariant blk < n.nb ==> cb16.tiles == before && PartAt(n, part.q, part.mem, ModeOf(f, n.nb, blk), blk, 0)
      invariant blk < n.nb ==> enableReload == ModeOf(f, n.nb, blk).reload
      invariant blk == n.nb && Underflows(n, f) ==> f.untilize && part.q.held == 0
      invariant blk == n.nb && !Underflows(n, f) && (f.fuseBias || f.untilize) ==>
                  FullOf(n, part, n.Partial(0, 0, n.nb - 1)) && cb16.tiles == before
      invariant blk == n.nb && !Underflows(n, f) && !(f.fuseBias || f.untilize) ==>
                  part.q.held == 0 && cb16.tiles == before + n.Partial(0, 0, n.nb - 1)
    {
      var lastOut := blk == ca.numBlocks - 1;
      var accumulate := f.l1Acc && 0 < blk && (!lastOut || f.fuseBias);
      var toPart := !lastOut || f.fuseBias || f.untilize;
      ghost var m := ModeOf(f, n.nb, blk);
      ModeIs(f, n.nb, blk);
      FrontBlock(n, In0, 0, 0, blk, cb0.tiles);
      FrontBlock(n, In1, 0, 0, blk, cb1.tiles);
      KBlockOf(g, ca, enableReload, accumulate, toPart, cb0, cb1, part, cb16, n, m, blk, before);
      OutAtEnd(n, m, blk, before);
      ModeChain(n, f, blk, part.q, part.mem);
      if f.l1Acc {
        if f.fuseBias {
          if blk < ca.numBlocks - 1 {
            part.PopFront(outBlockTiles);
          }
          enableReload := false;
        } else {
          if blk < Searches.U32(ca.numBlocks - 2) {
            if part.q.held < outBlockTiles {
              return false;
            }
            part.PopFront(outBlockTiles);
          }
          if blk == ca.numBlocks - 2 {
            enableReload := true;
          }
        }
      } else if ca.numBlocks > 1 {
        enableReload := true;
      }
    }
    StreamEnd(n, cb0.tiles, cb1.tiles);
    done := true;
  }

  lemma OutAtEnd<T>(n: Net<T>, m: Mode, blk: nat, before: seq<T>)
    requires 0 < n.nsw && 0 < n.sh && 0 < n.sw
    ensures m.toPart ==> before + OutAt(n, m, blk, n.Cap()) == before
    ensures !m.toPart ==> before + OutAt(n, m, blk, n.Cap()) == before + n.Partial(0, 0, blk)
  {
    hide Net.Cap, Net.Partial;
  }

  lemma StreamStart<T>(n: Net<T>)
    requires 0 < n.kw && 0 < n.nsw && 0 < n.sw
    ensures Stream(n, In0) == Upto(n, In0, 0, 0, 0) + Stream(n, In0)
    ensures Stream(n, In1) == Upto(n, In1, 0, 0, 0) + Stream(n, In1)
  {
    hide Stream;
  }

  lemma StreamEnd<T>(n: Net<T>, rest0: seq<T>, rest1: seq<T>)
    requires 0 < n.kw && 0 < n.nsw && 0 < n.sw && n.nbh == 1 && n.nbw == 1
    requires Stream(n, In0) == Upto(n, In0, 0, 0, n.nb) + rest0 && Stream(n, In1) == Upto(n, In1, 0, 0, n.nb) + rest1
    ensures rest0 == [] && rest1 == []
  {
    PushExtends(n, In0, 0, 0, 0, []);
    PushExtends(n, In1, 0, 0, 0, []);
    hide Upto;
    NothingRemains(Stream(n, In0), rest0);
    NothingRemains(Stream(n, In1), rest1);
  }

  // The kernel for one output block, in every combination of its flags. Without bias, the
  // packer's L1 accumulation needs at least two K blocks: with one, the kernel waits for ever.
  // In all other cases every variant puts out the same K sums (with bias where asked for),
  // in its own tile order, consumes its inputs, and leaves the partials buffer empty.
  method VariantKernel<T(!new)>(g: Alg<T>, addBias: AddBias<T>, ca: ComputeArgs, outBlockTiles: nat, f: Flags, bias: seq<T>,
                                cb0: CircularBuffer<T>, cb1: CircularBuffer<T>, part: RingBuffer<T>, cb16: CircularBuffer<T>,
                                ghost n: Net<T>) returns (done: bool)
    requires ComputeMatches(ca, n) && outBlockTiles == n.Cap() && g == n.g && n.nbh == 1 && n.nbw == 1
    requires part.Valid() && part.q == Ring(n.Cap(), 0, 0, 0) && |bias| == n.Obw()
    requires cb0 != cb1 && cb0 != cb16 && cb1 != cb16
    requires cb0.tiles == Stream(n, In0) && cb1.tiles == Stream(n, In1)
    requires n.nb < Searches.TWO32 && (f.l1Acc ==> Exact(g))
    modifies cb0, cb1, part, cb16
    ensures done <==> !(f.l1Acc && !f.fuseBias && n.nb == 1)
    ensures done ==>
              && cb16.tiles == old(cb16.tiles) + VariantOutput(n, f, addBias, bias)
              && cb0.tiles == [] && cb1.tiles == [] && part.Valid() && part.q.held == 0
  {
    hide Net.Valid, Net.Sub, Net.Cap, Net.Partial, Net.Base, Net.Obw, Net.Obh, Stream, Exact, Net.N0, Net.N1, Biased,
         RowMajor;
    n.Sizes();
    RowOfSubBlocks(n, 0);
    n.BaseNext(0, 0);
    Positive(ca.subTiles, ca.in1NumSub);
    ghost var before := cb16.tiles;
    done := KLoop(g, ca, outBlockTiles, f, cb0, cb1, part, cb16, n, before);
    if !done {
      return;
    }
    if f.fuseBias {
      BiasLoop(addBias, g, ca, f.untilize, bias, part, cb16, n, before);
    }
    if f.untilize {
      if part.q.held < ca.subTiles * ca.in1NumSub {
        return false;
      }
      UntilizeBlock(g, ca, part, cb16, n, if f.fuseBias then Biased(n, addBias, bias) else n.Partial(0, 0, n.nb - 1), before);
    }
  }
}
