// What one core is asked to do: the two matrices it sees, its loop bounds, its block
// shapes, and where its output goes. The numbers are the kernels' arguments; `Valid`
// lists the relations between them that the kernels silently rely on (the host module
// proves that the argument lists it builds have them).
module CoreNet {
  import opened Tiles
  import opened Arith

  // A position in the readers' loop nest: outer block (bh, bw), K block blk.
  datatype Pos = Pos(bh: nat, bw: nat, blk: nat)

  // Edge arguments of the output writer; they describe the last outer block only.
  datatype Edge = Edge(
    nonzeroH: nat,  // sub-block rows holding at least one valid tile
    lastSubH: nat,  // valid tile rows of the last such sub-block row
    hSkip: nat,     // tiles of the fully padded sub-block rows
    nonzeroW: nat,
    lastSubW: nat,
    rowSkip: nat,   // padded tiles at the end of a row of the last sub-block column
    wSkip: nat)     // tiles of the fully padded sub-blocks of a sub-block row

  datatype Net<!T> = Net(
    g: Alg<T>,
    a: Matrix<T>, b: Matrix<T>,              // this core's rows of A and columns of B, padded
    nbh: nat, nbw: nat, nb: nat, kw: nat,    // outer blocks, K blocks, K block width
    nsh: nat, nsw: nat, sh: nat, sw: nat,    // sub-blocks per outer block, sub-block shape
    edge: Edge,
    outStart: int, outStride: nat)           // first output tile id, tile ids per row
  {
    function Obh(): nat { nsh * sh }
    function Obw(): nat { nsw * sw }
    function Sub(): nat { sh * sw }            // tiles of a sub-block
    function Cap(): nat { nsh * nsw * Sub() }  // tiles of an output block
    function N0(): nat { Obh() * kw }          // tiles of an in0 block
    function N1(): nat { kw * Obw() }          // tiles of an in1 block

    ghost predicate Valid() {
      && 0 < nbh && 0 < nbw && 0 < nb && 0 < kw
      && 0 < nsh && 0 < nsw && 0 < sh && 0 < sw
      && 0 < edge.nonzeroH <= nsh && 0 < edge.nonzeroW <= nsw
      && 0 < edge.lastSubH <= sh && 0 < edge.lastSubW <= sw
      && edge.hSkip == (nsh - edge.nonzeroH) * (nsw * Sub())
      && edge.wSkip == (nsw - edge.nonzeroW) * Sub()
      && edge.rowSkip == sw - edge.lastSubW
    }

    lemma Sizes()
      requires Valid()
      ensures 0 < nbh && 0 < nbw && 0 < nb && 0 < kw && 0 < nsh && 0 < nsw && 0 < sh && 0 < sw
      ensures 0 < Obh() && 0 < Obw() && 0 < Sub() <= Cap()
      ensures 0 < N0() && 0 < N1()
      ensures Cap() == Obh() * Obw()
    {
      assert 0 < nsh * nsw;
      assert nsh * nsw * Sub() >= Sub();
      assert nsh * nsw * (sh * sw) == (nsh * sh) * (nsw * sw);
    }

    function In0Id(r: nat, k: nat): nat { r * kw + k }
    function In1Id(k: nat, c: nat): nat { k * Obw() + c }

    // The blocks the readers push, row-major.
    function In0Block(bh: nat, blk: nat): (s: seq<T>)
      requires 0 < kw
      ensures |s| == N0()
    {
      seq(N0(), t requires 0 <= t < N0() => a(bh * Obh() + t / kw, blk * kw + t % kw))
    }

    function In1Block(bw: nat, blk: nat): (s: seq<T>)
      requires 0 < nsw && 0 < sw
      ensures |s| == N1()
    {
      seq(N1(), t requires 0 <= t < N1() => b(blk * kw + t / Obw(), bw * Obw() + t % Obw()))
    }

    // Tile row and column, inside an output block, of the p-th tile in sub-block-major order.
    function RowOf(p: nat): int
      requires 0 < nsw && 0 < sh && 0 < sw
    {
      Positive(sh, sw);
      (p / Sub() / nsw) * sh + (p % Sub()) / sw
    }

    function ColOf(p: nat): int
      requires 0 < nsw && 0 < sh && 0 < sw
    {
      Positive(sh, sw);
      (p / Sub() % nsw) * sw + (p % Sub()) % sw
    }

    // First tile of sub-block (i0, i1) in that order.
    function Base(i0: nat, i1: nat): nat {
      (i0 * nsw + i1) * Sub()
    }

    // The output block (bh, bw) after K blocks 0..blk, in the order the kernel packs it.
    function Partial(bh: nat, bw: nat, blk: nat): (s: seq<T>)
      requires 0 < nsw && 0 < sh && 0 < sw
      ensures |s| == Cap()
    {
      seq(Cap(), p requires 0 <= p < Cap() =>
        Dot(g, a, b, bh * Obh() + RowOf(p), bw * Obw() + ColOf(p), blk * kw + kw))
    }

    lemma BaseBounds(i0: nat, i1: nat)
      requires i0 < nsh && i1 < nsw
      ensures 0 <= Base(i0, i1) && Base(i0, i1) + Sub() <= Cap()
    {
      FlatBound(i0, i1, nsh, nsw);
      MulMono(i0 * nsw + i1 + 1, nsh * nsw, Sub());
    }

    lemma BaseNext(i0: nat, i1: nat)
      ensures Base(i0, i1 + 1) == Base(i0, i1) + Sub()
      ensures Base(i0 + 1, 0) == Base(i0, nsw)
      ensures Base(0, 0) == 0 && Base(nsh, 0) == Cap()
    {
      assert (i0 * nsw + i1 + 1) * Sub() == (i0 * nsw + i1) * Sub() + Sub();
      assert (i0 + 1) * nsw == i0 * nsw + nsw;
    }

    // Where tile (h, w) of sub-block (i0, i1) sits in the packed order.
    lemma PackedOrder(i0: nat, i1: nat, h: nat, w: nat)
      requires 0 < nsw && i0 < nsh && i1 < nsw && h < sh && w < sw
      ensures 0 <= Base(i0, i1) + (h * sw + w) < Cap()
      ensures h * sw + w < Sub()
      ensures RowOf(Base(i0, i1) + (h * sw + w)) == i0 * sh + h
      ensures ColOf(Base(i0, i1) + (h * sw + w)) == i1 * sw + w
    {
      FlatBound(h, w, sh, sw);
      BaseBounds(i0, i1);
      DivModUnique(i0 * nsw + i1, h * sw + w, Sub());
      DivModUnique(i0, i1, nsw);
      DivModUnique(h, w, sw);
    }

    lemma PartialAt(bh: nat, bw: nat, blk: nat, i0: nat, i1: nat, h: nat, w: nat)
      requires 0 < nsw && i0 < nsh && i1 < nsw && h < sh && w < sw
      ensures 0 <= Base(i0, i1) + (h * sw + w) < Cap()
      ensures Partial(bh, bw, blk)[Base(i0, i1) + (h * sw + w)]
           == Dot(g, a, b, bh * Obh() + (i0 * sh + h), bw * Obw() + (i1 * sw + w), blk * kw + kw)
    {
      PackedOrder(i0, i1, h, w);
    }

    // ---------- the arithmetic of one sub-block ----------

    // The inner loop over inner_dim: one chain of multiply-accumulates into one register.
    function Chain(b0: seq<T>, b1: seq<T>, row: nat, col: nat, acc: T, len: nat): T
      requires row < Obh() && col < Obw() && len <= kw
      requires |b0| == N0() && |b1| == N1()
    {
      if len == 0 then acc
      else
        FlatBound(row, len - 1, Obh(), kw);
        FlatBound(len - 1, col, kw, Obw());
        g.Mac(Chain(b0, b1, row, col, acc, len - 1), b0[In0Id(row, len - 1)], b1[In1Id(len - 1, col)])
    }

    // What the compute kernel leaves in DST for sub-block (i0, i1), from what was there.
    function SubMath(dst: seq<T>, b0: seq<T>, b1: seq<T>, i0: nat, i1: nat): (s: seq<T>)
      requires i0 < nsh && i1 < nsw && 0 < sw
      requires |b0| == N0() && |b1| == N1() && |dst| == Sub()
      ensures |s| == Sub()
    {
      seq(Sub(), t requires 0 <= t < Sub() =>
        DivModBound(t, sh, sw);
        FlatBound(i0, t / sw, nsh, sh);
        FlatBound(i1, t % sw, nsw, sw);
        Chain(b0, b1, i0 * sh + t / sw, i1 * sw + t % sw, dst[t], kw))
    }

    lemma SubMathIsChain(dst: seq<T>, b0: seq<T>, b1: seq<T>, i0: nat, i1: nat, h: nat, w: nat, t: nat)
      requires i0 < nsh && i1 < nsw && h < sh && w < sw
      requires |b0| == N0() && |b1| == N1() && |dst| == Sub() && t == h * sw + w < Sub()
      ensures i0 * sh + h < Obh() && i1 * sw + w < Obw()
      ensures SubMath(dst, b0, b1, i0, i1)[t]
           == Chain(b0, b1, i0 * sh + h, i1 * sw + w, dst[t], kw)
    {
      DivModUnique(h, w, sw);
      FlatBound(i0, h, nsh, sh);
      FlatBound(i1, w, nsw, sw);
    }

    // A chain over K block blk extends the left fold by kw terms.
    lemma {:induction false} ChainIsDot(bh: nat, bw: nat, blk: nat, row: nat, col: nat, len: nat)
      requires 0 < kw && 0 < nsw && 0 < sw
      requires row < Obh() && col < Obw() && len <= kw
      ensures Chain(In0Block(bh, blk), In1Block(bw, blk), row, col,
                    Dot(g, a, b, bh * Obh() + row, bw * Obw() + col, blk * kw), len)
           == Dot(g, a, b, bh * Obh() + row, bw * Obw() + col, blk * kw + len)
    {
      if len > 0 {
        ChainIsDot(bh, bw, blk, row, col, len - 1);
        FlatBound(row, len - 1, Obh(), kw);
        FlatBound(len - 1, col, kw, Obw());
        DivModUnique(row, len - 1, kw);
        DivModUnique(len - 1, col, Obw());
        assert In0Block(bh, blk)[In0Id(row, len - 1)] == a(bh * Obh() + row, blk * kw + (len - 1));
        assert In1Block(bw, blk)[In1Id(len - 1, col)] == b(blk * kw + (len - 1), bw * Obw() + col);
      }
    }

    // DST before the math of K block blk: zero registers, or the reloaded partial.
    function Before(bh: nat, bw: nat, blk: nat, base: nat): (s: seq<T>)
      requires 0 < nsw && 0 < sh && 0 < sw && base + Sub() <= Cap()
      ensures |s| == Sub()
    {
      if blk == 0 then seq(Sub(), t => g.zero) else Partial(bh, bw, blk - 1)[base..base + Sub()]
    }

    lemma BeforeAt(bh: nat, bw: nat, blk: nat, i0: nat, i1: nat, base: nat, h: nat, w: nat, t: nat)
      requires 0 < nsw && i0 < nsh && i1 < nsw && h < sh && w < sw
      requires base == Base(i0, i1) && base + Sub() <= Cap() && t == h * sw + w < Sub()
      ensures Before(bh, bw, blk, base)[t]
           == Dot(g, a, b, bh * Obh() + (i0 * sh + h), bw * Obw() + (i1 * sw + w), blk * kw)
    {
      if blk > 0 {
        PartialAt(bh, bw, blk - 1, i0, i1, h, w);
        assert (blk - 1) * kw + kw == blk * kw;
      }
    }

    // The central numeric fact: spilled, reloaded, continued is the left fold itself.
    lemma SubMathIsPartial(bh: nat, bw: nat, blk: nat, i0: nat, i1: nat, base: nat)
      requires Valid() && i0 < nsh && i1 < nsw
      requires base == Base(i0, i1) && base + Sub() <= Cap()
      ensures SubMath(Before(bh, bw, blk, base), In0Block(bh, blk), In1Block(bw, blk), i0, i1)
           == Partial(bh, bw, blk)[base..base + Sub()]
    {
      hide *;
      ShapesPositive();
      var after := SubMath(Before(bh, bw, blk, base), In0Block(bh, blk), In1Block(bw, blk), i0, i1);
      forall t | 0 <= t < Sub()
        ensures after[t] == Partial(bh, bw, blk)[base..base + Sub()][t]
      {
        SubIndex(t);
        SubMathAt(bh, bw, blk, i0, i1, base, t / sw, t % sw, t);
      }
    }

    lemma ShapesPositive()
      requires Valid()
      ensures 0 < kw && 0 < nsw && 0 < sh && 0 < sw
    {
    }

    lemma SubIndex(t: nat)
      requires 0 < sw && t < Sub()
      ensures t / sw < sh && t % sw < sw && t == (t / sw) * sw + t % sw
    {
      DivModBound(t, sh, sw);
    }

    lemma SubMathAt(bh: nat, bw: nat, blk: nat, i0: nat, i1: nat, base: nat, h: nat, w: nat, t: nat)
      requires 0 < kw && 0 < nsw && 0 < sh && 0 < sw
      requires i0 < nsh && i1 < nsw && h < sh && w < sw
      requires base == Base(i0, i1) && base + Sub() <= Cap() && t == h * sw + w < Sub()
      ensures SubMath(Before(bh, bw, blk, base), In0Block(bh, blk), In1Block(bw, blk), i0, i1)[t]
           == Partial(bh, bw, blk)[base + t]
    {
      hide *;
      SubMathIsChain(Before(bh, bw, blk, base), In0Block(bh, blk), In1Block(bw, blk), i0, i1, h, w, t);
      PartialAt(bh, bw, blk, i0, i1, h, w);
      BeforeAt(bh, bw, blk, i0, i1, base, h, w, t);
      ChainIsDot(bh, bw, blk, i0 * sh + h, i1 * sw + w, kw);
    }
  }
}
