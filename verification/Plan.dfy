// From matrix dimensions to a block plan: the host's steps before it builds a program, and
// what they make true.
module Plan {
  import opened Arith
  import opened CoreNet
  import opened Host
  import opened Grid
  import Layout
  import opened L1Map
  import opened Machine
  import opened Searches
  import opened SubBlocks
  import opened Tiles

  datatype Option<T> = None | Some(value: T)

  // p is the least number with which `cores` pieces of that size cover t.
  predicate Covers(p: nat, t: nat, cores: nat) { cores * p >= t }

  ghost predicate LeastCover(p: nat, t: nat, cores: nat) {
    Covers(p, t, cores) && forall q: nat :: Covers(q, t, cores) ==> p <= q
  }

  // Tiles of each dimension, and of the part of M and N that one core gets.
  ghost predicate Sizes(mt: nat, nt: nat, kt: nat, p: nat, q: nat, m: nat, n: nat, k: nat, coresY: nat, coresX: nat) {
    && LeastCover(mt, m, Layout.TILE) && LeastCover(nt, n, Layout.TILE) && LeastCover(kt, k, Layout.TILE)
    && LeastCover(p, mt, coresY) && LeastCover(q, nt, coresX)
  }

  // A shape with the sizes that the dimensions and the grid ask for.
  ghost predicate ShapeOf(s: Shape, m: nat, n: nat, k: nat, coresY: nat, coresX: nat) {
    && s.Valid() && s.coresY == coresY && s.coresX == coresX
    && 0 < s.PerCoreM() && 0 < s.PerCoreN()
    && Sizes(s.mt, s.nt, s.kt, s.PerCoreM(), s.PerCoreN(), m, n, k, coresY, coresX)
  }

  // What the host's steps deliver in DRAM mode: a shape that meets everything the argument
  // lists need, with the best blocks and the first sub-block, or nothing, when no blocks fit.
  ghost predicate Planned(plan: Option<Shape>, m: nat, n: nat, k: nat, coresY: nat, coresX: nat, ts: nat, l1: nat, base: nat)
  {
    && (plan.Some? ==>
          var s := plan.value;
          && ShapeOf(s, m, n, k, coresY, coresX)
          && BestBlocks(Blocks(s.obh, s.obw, s.kw), s.PerCoreM(), s.PerCoreN(), s.kt, ts, l1, base)
          && FirstChoice((s.sh, s.sw), s.obh, s.obw))
    && (plan.None? <==>
          forall mt: nat, nt: nat, kt: nat, p: nat, q: nat :: Sizes(mt, nt, kt, p, q, m, n, k, coresY, coresX) ==>
            NothingFits(p, q, kt, ts, l1, base))
  }

  // And in L1 mode: the block is the whole core, and the K block width is the best one.
  ghost predicate PlannedL1(plan: Option<Shape>, m: nat, n: nat, k: nat, coresY: nat, coresX: nat, ts: nat, l1: nat, base: nat)
  {
    && (plan.Some? ==>
          var s := plan.value;
          && ShapeOf(s, m, n, k, coresY, coresX) && s.obh == s.PerCoreM() && s.obw == s.PerCoreN()
          && BestWidth(s.kw, s.PerCoreM(), s.PerCoreN(), s.kt, ts, l1, base, false)
          && FirstChoice((s.sh, s.sw), s.obh, s.obw))
    && (plan.None? <==>
          forall mt: nat, nt: nat, kt: nat, p: nat, q: nat :: Sizes(mt, nt, kt, p, q, m, n, k, coresY, coresX) ==>
            BestWidth(0, p, q, kt, ts, l1, base, false))
  }

  // The source gives up ("insufficient L1") when the K block width comes back as 0.
  method PlanDram(m: nat, n: nat, k: nat, coresY: nat, coresX: nat, ts: nat, l1: nat, base: nat)
    returns (plan: Option<Shape>)
    requires 0 < m <= TWO32 - Layout.TILE && 0 < n <= TWO32 - Layout.TILE && 0 < k <= TWO32 - Layout.TILE
    requires 0 < coresY && 0 < coresX
    ensures Planned(plan, m, n, k, coresY, coresX, ts, l1, base)
  {
    hide AlignedTiles, Fits, BestBlocks, NothingFits, FirstChoice, Sizes, LeastCover, Covers;
    var mt, nt, kt := AlignedTiles(m), AlignedTiles(n), AlignedTiles(k);
    TilesPositive(m, n, k);
    var perCoreM, perCoreN := (mt - 1) / coresY + 1, (nt - 1) / coresX + 1;
    SizesAre(m, n, k, coresY, coresX, mt, nt, kt, perCoreM, perCoreN);
    OnlySizes(m, n, k, coresY, coresX, mt, nt, kt, perCoreM, perCoreN);
    var blocks := DynamicL1BlockParams(perCoreM, perCoreN, kt, ts, l1, base);
    BestIsCandidate(blocks, perCoreM, perCoreN, kt, ts, l1, base);
    if blocks.kw == 0 {
      return None;
    }
    var sub := OutSubblockParams(blocks.bh, blocks.bw, 0);
    SubBlockDivides(sub, blocks.bh, blocks.bw);
    plan := Some(Shape(mt, nt, kt, coresY, coresX, blocks.bh, blocks.bw, blocks.kw, sub.0, sub.1));
    assert Blocks(blocks.bh, blocks.bw, blocks.kw) == blocks && (sub.0, sub.1) == sub;
  }

  method PlanL1(m: nat, n: nat, k: nat, coresY: nat, coresX: nat, ts: nat, l1: nat, base: nat)
    returns (plan: Option<Shape>)
    requires 0 < m <= TWO32 - Layout.TILE && 0 < n <= TWO32 - Layout.TILE && 0 < k <= TWO32 - Layout.TILE
    requires 0 < coresY && 0 < coresX
    ensures PlannedL1(plan, m, n, k, coresY, coresX, ts, l1, base)
  {
    hide AlignedTiles, BestWidth, FirstChoice, Sizes, LeastCover, Covers;
    var mt, nt, kt := AlignedTiles(m), AlignedTiles(n), AlignedTiles(k);
    TilesPositive(m, n, k);
    var perCoreM, perCoreN := (mt - 1) / coresY + 1, (nt - 1) / coresX + 1;
    SizesAre(m, n, k, coresY, coresX, mt, nt, kt, perCoreM, perCoreN);
    OnlySizes(m, n, k, coresY, coresX, mt, nt, kt, perCoreM, perCoreN);
    var kw := In0BlockW(perCoreM, perCoreN, kt, ts, l1, base, false);
    WidthDivides(kw, perCoreM, perCoreN, kt, ts, l1, base);
    if kw == 0 {
      return None;
    }
    var sub := OutSubblockParams(perCoreM, perCoreN, 0);
    SubBlockDivides(sub, perCoreM, perCoreN);
    SelfDivides(perCoreM);
    SelfDivides(perCoreN);
    plan := Some(Shape(mt, nt, kt, coresY, coresX, perCoreM, perCoreN, kw, sub.0, sub.1));
    assert (sub.0, sub.1) == sub;
  }

  lemma SelfDivides(p: nat)
    requires 0 < p
    ensures p % p == 0
  {
    QuotientUnique(p, p, 1, 0);
  }

  lemma SubBlockDivides(p: (nat, nat), bh: nat, bw: nat)
    requires Eligible(p, bh, bw)
    ensures 0 < p.0 && 0 < p.1 && bh % p.0 == 0 && bw % p.1 == 0
  {
  }

  // A width of 0 is the best one only where none fits.
  lemma WidthDivides(kw: nat, mt: nat, nt: nat, kt: nat, ts: nat, l1: nat, base: nat)
    requires BestWidth(kw, mt, nt, kt, ts, l1, base, false)
    ensures kw > 0 ==> kt % kw == 0 && !BestWidth(0, mt, nt, kt, ts, l1, base, false)
  {
    hide FitsL1;
  }

  lemma LeastCoverOf(t: nat, cores: nat, p: nat)
    requires 0 < t && 0 < cores && p == (t - 1) / cores + 1
    ensures LeastCover(p, t, cores)
  {
    assert cores * (p - 1) <= t - 1 < cores * p;
    forall q: nat | Covers(q, t, cores)
      ensures p <= q
    {
      if q < p {
        MulMono(q, p - 1, cores);
      }
    }
  }

  lemma OneLeastCover(p: nat, q: nat, t: nat, cores: nat)
    requires LeastCover(p, t, cores) && LeastCover(q, t, cores)
    ensures p == q
  {
    hide Covers;
  }

  lemma TilesPositive(m: nat, n: nat, k: nat)
    requires 0 < m <= TWO32 - Layout.TILE && 0 < n <= TWO32 - Layout.TILE && 0 < k <= TWO32 - Layout.TILE
    ensures 0 < AlignedTiles(m) && 0 < AlignedTiles(n) && 0 < AlignedTiles(k)
  {
    PositiveTiles(m);
    PositiveTiles(n);
    PositiveTiles(k);
  }

  lemma SizesAre(m: nat, n: nat, k: nat, coresY: nat, coresX: nat, mt: nat, nt: nat, kt: nat, p: nat, q: nat)
    requires 0 < m <= TWO32 - Layout.TILE && 0 < n <= TWO32 - Layout.TILE && 0 < k <= TWO32 - Layout.TILE
    requires mt == AlignedTiles(m) && nt == AlignedTiles(n) && kt == AlignedTiles(k) && 0 < mt && 0 < nt
    requires 0 < coresY && 0 < coresX && p == (mt - 1) / coresY + 1 && q == (nt - 1) / coresX + 1
    ensures Sizes(mt, nt, kt, p, q, m, n, k, coresY, coresX)
  {
    hide AlignedTiles, LeastCover;
    AlignedIsLeast(m);
    AlignedIsLeast(n);
    AlignedIsLeast(k);
    LeastCoverOf(mt, coresY, p);
    LeastCoverOf(nt, coresX, q);
  }

  lemma OnlySizes(m: nat, n: nat, k: nat, coresY: nat, coresX: nat, mt: nat, nt: nat, kt: nat, p: nat, q: nat)
    requires Sizes(mt, nt, kt, p, q, m, n, k, coresY, coresX)
    ensures forall mt': nat, nt': nat, kt': nat, p': nat, q': nat :: Sizes(mt', nt', kt', p', q', m, n, k, coresY, coresX) ==>
              mt' == mt && nt' == nt && kt' == kt && p' == p && q' == q
  {
    forall mt': nat, nt': nat, kt': nat, p': nat, q': nat | Sizes(mt', nt', kt', p', q', m, n, k, coresY, coresX)
      ensures mt' == mt && nt' == nt && kt' == kt && p' == p && q' == q
    {
      hide LeastCover;
      OneLeastCover(mt', mt, m, Layout.TILE);
      OneLeastCover(nt', nt, n, Layout.TILE);
      OneLeastCover(kt', kt, k, Layout.TILE);
      OneLeastCover(p', p, mt, coresY);
      OneLeastCover(q', q, nt, coresX);
    }
  }

  lemma AlignedIsLeast(value: nat)
    requires 0 < value <= TWO32 - Layout.TILE
    ensures LeastCover(AlignedTiles(value), value, Layout.TILE)
  {
    AlignmentCovers(value);
    var t := AlignedTiles(value);
    forall q: nat | Covers(q, value, Layout.TILE)
      ensures t <= q
    {
      hide AlignedTiles;
    }
  }

  lemma PositiveTiles(value: nat)
    requires 0 < value <= TWO32 - Layout.TILE
    ensures AlignedTiles(value) > 0
  {
    AlignmentCovers(value);
  }

  lemma BestIsCandidate(r: Blocks, mt: nat, nt: nat, kt: nat, ts: nat, l1: nat, base: nat)
    requires BestBlocks(r, mt, nt, kt, ts, l1, base) && 0 < mt && 0 < nt
    ensures r.kw == 0 <==> NothingFits(mt, nt, kt, ts, l1, base)
    ensures r.kw > 0 ==>
              && 0 < r.bh && 0 < r.bw && mt % r.bh == 0 && nt % r.bw == 0 && kt % r.kw == 0
  {
    hide Fits;
  }

  // ---------- the buffers of the searches are the buffers of the kernels ----------

  // The tiles of a core's circular buffers, and two zero tiles, take the bytes that the search
  // budgets for; in the address map each buffer has a region of its own size.
  lemma RingsFillBuffers<T>(g: Alg<T>, a: Dram<T>, b: Dram<T>, s: Shape, y: nat, x: nat, st: State<T>, ts: nat, base: nat,
                            useDram: bool)
    requires s.Valid() && Init(CoreOf(g, a, b, s, y, x), st)
    ensures (st.cb0.cap + st.cb1.cap + 2 + st.cb16.cap) * ts == CreatedBytes(Blocks(s.obh, s.obw, s.kw), ts)
    ensures st.cb24.cap == st.cb16.cap == |st.m| == s.obh * s.obw
    ensures var rs := Regions(s.obh, s.obw, s.kw, ts, base, useDram);
            && |rs| >= 5 && rs[0].size == st.cb0.cap * ts && rs[1].size == st.cb1.cap * ts && rs[2].size == 2 * ts
            && rs[3].size == st.cb16.cap * ts && rs[4].size == st.cb16.cap * ts
  {
    hide *;
    CoreIsValid(g, a, b, s, y, x);
    var n := CoreOf(g, a, b, s, y, x);
    n.Sizes();
    InitCaps(n, st);
    BufferTiles(s.obh, s.obw, s.kw, n.N0(), n.N1(), n.Cap(), ts);
    RegionSizes(s.obh, s.obw, s.kw, ts, base, useDram);
  }

  lemma InitCaps<T>(n: Net<T>, st: State<T>)
    requires Init(n, st)
    ensures st.cb0.cap == 2 * n.N0() && st.cb1.cap == 2 * n.N1() && st.cb16.cap == st.cb24.cap == |st.m| == n.Cap()
    ensures n.N0() == n.Obh() * n.kw && n.N1() == n.kw * n.Obw()
  {
    hide Net.Obh, Net.Obw, Net.Cap;
  }

  lemma BufferTiles(bh: nat, bw: nat, kw: nat, n0: nat, n1: nat, cap: nat, ts: nat)
    requires n0 == bh * kw && n1 == kw * bw && cap == bh * bw
    ensures (2 * n0 + 2 * n1 + 2 + cap) * ts == CreatedBytes(Blocks(bh, bw, kw), ts)
    ensures 2 * Bytes(bh, kw, ts) == 2 * n0 * ts && 2 * Bytes(bw, kw, ts) == 2 * n1 * ts && Bytes(bh, bw, ts) == cap * ts
  {
    CreatedIsFootprint(Blocks(bh, bw, kw), ts);
    assert n1 == bw * kw;
  }

  lemma RegionSizes(bh: nat, bw: nat, kw: nat, ts: nat, base: nat, useDram: bool)
    ensures var rs := Regions(bh, bw, kw, ts, base, useDram);
            && |rs| >= 5 && rs[0].size == 2 * Bytes(bh, kw, ts) && rs[1].size == 2 * Bytes(bw, kw, ts)
            && rs[2].size == 2 * ts && rs[3].size == Bytes(bh, bw, ts) && rs[4].size == Bytes(bh, bw, ts)
  {
    hide U32, Bytes;
  }

  // ---------- grids the host builds although their cover fails ----------

  // 160 x 32 times 32 x 32 elements: on four core rows the last one is idle; on two, with room
  // for no more than single-tile blocks, the last one is padded by a whole block.
  lemma HostBuildsUncoveredGrids(plan: Option<Shape>)
    ensures Planned(plan, 160, 32, 32, 4, 1, 1024, 0x10_0000, 0) ==>
              plan == Some(Shape(5, 1, 1, 4, 1, 2, 1, 1, 2, 1)) && plan.value.Valid() && !ExactCover(plan.value)
    ensures Planned(plan, 160, 32, 32, 2, 1, 1024, 0x3000, 0) ==>
              plan == Some(Shape(5, 1, 1, 2, 1, 1, 1, 1, 1, 1)) && plan.value.Valid() && !ExactCover(plan.value)
  {
    hide Planned, ExactCover;
    CoverCanFail();
    if Planned(plan, 160, 32, 32, 4, 1, 1024, 0x10_0000, 0) {
      PlannedOnFour(plan);
    }
    if Planned(plan, 160, 32, 32, 2, 1, 1024, 0x3000, 0) {
      PlannedOnTwo(plan);
    }
  }

  lemma PlannedOnFour(plan: Option<Shape>)
    requires Planned(plan, 160, 32, 32, 4, 1, 1024, 0x10_0000, 0)
    ensures plan == Some(Shape(5, 1, 1, 4, 1, 2, 1, 1, 2, 1))
  {
    hide BestBlocks, NothingFits, FirstChoice, Shape.Valid, Sizes, Eligible;
    SizesOfExample(4, 2);
    BlocksOfTwo();
    var s := plan.value;
    BestOfTwo(Blocks(s.obh, s.obw, s.kw));
    SubBlocksOf(s);
  }

  lemma PlannedOnTwo(plan: Option<Shape>)
    requires Planned(plan, 160, 32, 32, 2, 1, 1024, 0x3000, 0)
    ensures plan == Some(Shape(5, 1, 1, 2, 1, 1, 1, 1, 1, 1))
  {
    hide BestBlocks, NothingFits, FirstChoice, Shape.Valid, Sizes, Eligible;
    SizesOfExample(2, 3);
    BlocksOfThree();
    var s := plan.value;
    BestOfThree(Blocks(s.obh, s.obw, s.kw));
    SubBlocksOf(s);
  }

  // The sizes of 160 x 32 times 32 x 32 elements on coresY core rows.
  lemma SizesOfExample(coresY: nat, p: nat)
    requires 0 < coresY && p == 4 / coresY + 1
    ensures Sizes(5, 1, 1, p, 1, 160, 32, 32, coresY, 1)
    ensures forall mt: nat, nt: nat, kt: nat, p': nat, q: nat :: Sizes(mt, nt, kt, p', q, 160, 32, 32, coresY, 1) ==>
              mt == 5 && nt == 1 && kt == 1 && p' == p && q == 1
  {
    hide Sizes;
    SmallDimensions();
    SizesAre(160, 32, 32, coresY, 1, 5, 1, 1, p, 1);
    OnlySizes(160, 32, 32, coresY, 1, 5, 1, 1, p, 1);
  }

  lemma SmallDimensions()
    ensures AlignedTiles(160) == 5 && AlignedTiles(32) == 1
  {
  }

  lemma SomethingFits(c: Blocks, mt: nat, nt: nat, kt: nat, ts: nat, l1: nat, base: nat)
    requires c.Candidate(mt, nt, kt) && Fits(c, ts, l1, base)
    ensures !NothingFits(mt, nt, kt, ts, l1, base)
  {
    hide Fits, Blocks.Candidate;
  }

  lemma BlocksOfTwo()
    ensures var c := Blocks(2, 1, 1); c.Candidate(2, 1, 1) && Fits(c, 1024, 0x10_0000, 0)
    ensures !NothingFits(2, 1, 1, 1024, 0x10_0000, 0)
  {
    var c := Blocks(2, 1, 1);
    assert c.Footprint(1024) == 10 * 1024;
    SomethingFits(c, 2, 1, 1, 1024, 0x10_0000, 0);
  }

  lemma BestOfTwo(r: Blocks)
    requires BestBlocks(r, 2, 1, 1, 1024, 0x10_0000, 0)
    ensures r == Blocks(2, 1, 1)
  {
    hide Fits;
    BlocksOfTwo();
    var c := Blocks(2, 1, 1);
    assert c == r || r.Above(c);
  }

  lemma BlocksOfThree()
    ensures var c := Blocks(1, 1, 1); c.Candidate(3, 1, 1) && Fits(c, 1024, 0x3000, 0)
    ensures !NothingFits(3, 1, 1, 1024, 0x3000, 0)
    ensures !Fits(Blocks(3, 1, 1), 1024, 0x3000, 0)
  {
    var c, d := Blocks(1, 1, 1), Blocks(3, 1, 1);
    assert c.Footprint(1024) == 7 * 1024 && d.Footprint(1024) == 13 * 1024;
    SomethingFits(c, 3, 1, 1, 1024, 0x3000, 0);
  }

  lemma BestOfThree(r: Blocks)
    requires BestBlocks(r, 3, 1, 1, 1024, 0x3000, 0)
    ensures r == Blocks(1, 1, 1)
  {
    hide Fits;
    BlocksOfThree();
    var c := Blocks(1, 1, 1);
    assert c == r || r.Above(c);
  }

  // In a block of one column and at most two rows the largest sub-block is the block itself.
  lemma SubBlocksOf(s: Shape)
    requires s.Valid() && FirstChoice((s.sh, s.sw), s.obh, s.obw) && s.obw == 1 && 0 < s.obh <= 2
    ensures s.sh == s.obh && s.sw == 1
  {
    assert Eligible((s.obh, 1), s.obh, 1) && Area(s.obh, 1) == s.obh;
    OneColumn(s.obh, s.sh, s.sw);
  }

  lemma OneColumn(h: nat, sh: nat, sw: nat)
    requires 0 < h <= 2 && 0 < sh && 0 < sw && h % sh == 0 && 1 % sw == 0 && h <= sh * sw
    ensures sh == h && sw == 1
  {
    if sw > 1 {
      QuotientUnique(1, sw, 0, 1);
    }
    if sh > h {
      QuotientUnique(h, sh, 0, h);
    }
  }
}
