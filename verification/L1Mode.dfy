// L1 mode: the same compute kernel and writer, fed by two other readers. The in0 reader
// delivers its first K block over and over; the in1 reader makes up an identity matrix. What
// comes out has a closed form.
// Line numbers refer to kernels_common/in0_reader_bmm_tile_layout.cpp and
// kernels_common/in1_reader_writer_bmm_tile_layout.cpp.
module L1Mode {
  import opened Arith
  import opened Tiles
  import opened CoreNet
  import opened Machine
  import opened Output
  import opened Protocol
  import opened Runs
  import opened Channels
  import opened Host
  import opened WriterLoops

  // Reader arguments 1..8 and 11 of L1 mode, and in1 arguments 1..8 and 23.
  datatype L1Args = L1Args(
    startTileId: int, strideW: int, strideH: int,
    blockW: int, blockH: int, blockNumTiles: int, numBlocks: int, lastBlock: int)

  function In0Args(s: Shape, y: nat): L1Args
    requires s.Valid()
  {
    L1Args(0, 1, s.kw, s.kw, s.PerCoreM(), s.kw * s.PerCoreM(), s.kt / s.kw, ValidM(s, y))
  }

  function In1Args(s: Shape, x: nat): L1Args
    requires s.Valid()
  {
    L1Args(0, 1, ValidN(s, x), s.PerCoreN(), s.kw, s.PerCoreN() * s.kw, s.kt / s.kw, ValidN(s, x))
  }

  // In L1 mode the output block is the whole core.
  ghost predicate WholeCore(s: Shape) {
    s.Valid() && s.obh == s.PerCoreM() && s.obw == s.PerCoreN()
  }

  // What the two readers deliver. Nothing is assumed about the rows below the last valid one:
  // their source address is cut to 32 bits.
  function FedA<T>(in0: Dram<T>, junk: Matrix<T>, ra: L1Args, kw: nat): Matrix<T>
    requires 0 < kw
  {
    (r, k) => if r < ra.lastBlock then in0(ra.startTileId + r * ra.strideH + (k % kw) * ra.strideW) else junk(r, k)
  }

  function FedB<T>(one: T, zero: T, wa: L1Args): Matrix<T> {
    (k, c) => if c < wa.lastBlock && c == k then one else zero
  }

  // One core in L1 mode: the DRAM-mode core of the same shape, fed differently, writing to its
  // own buffer.
  function L1Core<T>(g: Alg<T>, in0: Dram<T>, one: T, junk: Matrix<T>, s: Shape, y: nat, x: nat): Net<T>
    requires WholeCore(s)
  {
    ValidSizes(s, y, x);
    CoreOf(g, in0, in0, s, y, x).(
      a := FedA(in0, junk, In0Args(s, y), s.kw), b := FedB(one, g.zero, In1Args(s, x)),
      outStart := 0, outStride := ValidN(s, x))
  }

  lemma LastPieceOfOne(x: int, m: int)
    requires 0 < x <= m
    ensures LastPiece(x, m) == x
  {
    if x < m {
      QuotientUnique(x, m, 0, x);
    } else {
      QuotientUnique(x, m, 1, 0);
    }
  }

  lemma L1CoreIsValid<T>(g: Alg<T>, in0: Dram<T>, one: T, junk: Matrix<T>, s: Shape, y: nat, x: nat)
    requires WholeCore(s)
    ensures var n := L1Core(g, in0, one, junk, s, y, x);
            && n.Valid() && n.nbh == 1 && n.nbw == 1 && n.nb * n.kw == s.kt && n.kw == s.kw
            && n.Obh() == s.PerCoreM() && n.Obw() == s.PerCoreN()
            && CoreRows(n) == ValidM(s, y) && CoreCols(n) == ValidN(s, x) == n.outStride
  {
    Quotients(s);
    ValidSizes(s, y, x);
    CoreIsValid(g, in0, in0, s, y, x);
    LastPieceOfOne(ValidM(s, y), s.PerCoreM());
    LastPieceOfOne(ValidN(s, x), s.PerCoreN());
    SameNet(g, in0, one, junk, s, y, x);
    OneBlock(s.PerCoreM(), CoreOf(g, in0, in0, s, y, x).nbh);
    OneBlock(s.PerCoreN(), CoreOf(g, in0, in0, s, y, x).nbw);
    hide CoreOf, Shape.PerCoreM, Shape.PerCoreN, ValidM, ValidN, LastPiece, L1Core, Net.Valid, Net.Obh, Net.Obw,
         CoreRows, CoreCols;
  }

  lemma OneBlock(p: nat, nb: nat)
    requires 0 < p && nb * p == p
    ensures nb == 1
  {
    if nb > 1 {
      MulMono(2, nb, p);
    }
  }

  lemma SameNet<T>(g: Alg<T>, in0: Dram<T>, one: T, junk: Matrix<T>, s: Shape, y: nat, x: nat)
    requires WholeCore(s)
    ensures var n, d := L1Core(g, in0, one, junk, s, y, x), CoreOf(g, in0, in0, s, y, x);
            && (n.Valid() <==> d.Valid()) && n.Obh() == d.Obh() && n.Obw() == d.Obw() && n.nb == d.nb && n.kw == d.kw
            && n.nbh == d.nbh && n.nbw == d.nbw && CoreRows(n) == CoreRows(d) && CoreCols(n) == CoreCols(d)
            && n.outStride == ValidN(s, x) && n.outStart == 0 && n.g == g && d.kw == s.kw
            && n.a == FedA(in0, junk, In0Args(s, y), s.kw) && n.b == FedB(one, g.zero, In1Args(s, x))
  {
    hide Shape.PerCoreM, Shape.PerCoreN, FedA, FedB, In0Args, In1Args, LastOuterH, LastOuterW, LastPiece, PieceCount,
         ValidN, ValidM;
  }

  // The writer arguments 24 to 30 of L1 mode: edge values on the last core only.
  function L1Edge(s: Shape, y: nat, x: nat): Edge
    requires s.Valid()
  {
    ValidSizes(s, y, x);
    WriterCounts(s, y, x);
    Quotients(s);
    var wa := BuildWriterArgs(s, y, x);
    var lastY, lastX := y == s.coresY - 1, x == s.coresX - 1;
    Edge(if lastY then wa.nonzeroSubH else s.PerCoreM() / s.sh, if lastY then wa.lastSubH else s.sh, if lastY then wa.hSkip else 0,
         if lastX then wa.nonzeroSubW else s.PerCoreN() / s.sw, if lastX then wa.lastSubW else s.sw,
         if lastX then wa.rowSkip else 0, if lastX then wa.wSkip else 0)
  }

  // They are the edge values of the shape itself: inner cores have no padding.
  lemma L1EdgeIs<T>(g: Alg<T>, in0: Dram<T>, one: T, junk: Matrix<T>, s: Shape, y: nat, x: nat)
    requires WholeCore(s)
    ensures L1Edge(s, y, x) == L1Core(g, in0, one, junk, s, y, x).edge
  {
    Quotients(s);
    ValidSizes(s, y, x);
    PerCorePositive(s);
    LastPieceOfOne(s.PerCoreM(), s.PerCoreM());
    LastPieceOfOne(s.PerCoreN(), s.PerCoreN());
    WholePieces(s.PerCoreM(), s.sh);
    WholePieces(s.PerCoreN(), s.sw);
    EdgeOfInner(s, y, x);
    hide Shape.PerCoreM, Shape.PerCoreN, LastPiece, PieceCount, LastOuterH, LastOuterW, FedA, FedB, LocalA, LocalB;
  }

  lemma WholePieces(p: int, m: int)
    requires 0 < p && 0 < m && p % m == 0
    ensures PieceCount(p, m) == p / m && LastPiece(p, m) == m
  {
    PiecesOf(p, m);
    PiecesFit(p, p, m);
    assert p == (p / m) * m;
    var c := PieceCount(p, m);
    assert (c - 1) * m + m == c * m;
    CancelPieces(c, p / m, m);
  }

  lemma CancelPieces(c: nat, d: nat, m: nat)
    requires 0 < m && c * m == d * m
    ensures c == d
  {
    DivModUnique(c, 0, m);
    DivModUnique(d, 0, m);
  }

  lemma EdgeOfInner(s: Shape, y: nat, x: nat)
    requires WholeCore(s)
    ensures y != s.coresY - 1 ==> LastOuterH(s, y) == LastPiece(s.PerCoreM(), s.PerCoreM())
    ensures x != s.coresX - 1 ==> LastOuterW(s, x) == LastPiece(s.PerCoreN(), s.PerCoreN())
  {
    hide LastPiece, Shape.PerCoreM, Shape.PerCoreN;
  }

  // ---------- the readers as they are written ----------

  lemma KModKw(blk: nat, kw: nat, w: nat)
    requires w < kw
    ensures (blk * kw + w) % kw == w
  {
    DivModUnique(blk, w, kw);
  }

  // Lines 45 to 66 of the in0 reader; `blockStart` never moves.
  method FillIn0<T>(ra: L1Args, in0: Dram<T>, junk: Matrix<T>, block: array<T>, blockStart: int, blk: nat, ghost n: Net<T>)
    requires n.Valid() && ra.blockW == n.kw && ra.blockH == n.Obh() && block.Length == n.N0() && ra.strideW == 1
    requires n.a == FedA(in0, junk, ra, n.kw) && blockStart == ra.startTileId
    modifies block
    ensures block[..] == n.In0Block(0, blk)
  {
    hide Net.Valid, Net.Obh, Net.Obw, Net.N0, Net.In0Block, FedA;
    n.Sizes();
    ghost var want := n.In0Block(0, blk);
    RowInside(n, 0, n.Obh());
    var addr := 0;
    var rowStart := blockStart;
    for h := 0 to ra.blockH
      invariant addr == h * n.kw && 0 <= addr <= block.Length
      invariant rowStart == blockStart + h * ra.strideH
      invariant block[..addr] == want[..addr]
    {
      var tileId := rowStart;
      RowInside(n, h, n.Obh());
      for w := 0 to ra.blockW
        invariant addr == h * n.kw + w && addr <= block.Length
        invariant tileId == rowStart + w * ra.strideW
        invariant block[..addr] == want[..addr]
      {
        In0TileIs(ra, in0, junk, n, blk, h, w, addr);
        assert want[..addr + 1] == want[..addr] + [want[addr]];
        block[addr] := if h < ra.lastBlock then in0(tileId) else junk(h, blk * ra.blockW + w);
        addr := addr + 1;
        tileId := tileId + ra.strideW;
      }
      rowStart := rowStart + ra.strideH;
    }
  }

  lemma RowInside<T>(n: Net<T>, h: nat, rows: nat)
    requires h < rows && rows == n.Obh()
    ensures (h + 1) * n.kw == h * n.kw + n.kw <= n.N0() && rows * n.kw == n.N0()
  {
    MulMono(h + 1, rows, n.kw);
  }

  lemma In0TileIs<T>(ra: L1Args, in0: Dram<T>, junk: Matrix<T>, n: Net<T>, blk: nat, h: nat, w: nat, t: nat)
    requires 0 < n.kw && h < n.Obh() && w < n.kw && t == h * n.kw + w && t < n.N0()
    requires n.a == FedA(in0, junk, ra, n.kw)
    ensures n.In0Block(0, blk)[t]
         == if h < ra.lastBlock then in0(ra.startTileId + h * ra.strideH + w * ra.strideW) else junk(h, blk * n.kw + w)
  {
    hide Net.Obh;
    DivModUnique(h, w, n.kw);
    KModKw(blk, n.kw, w);
  }

  // Lines 74 to 100 of the in1 reader.
  method FillIn1<T>(wa: L1Args, one: T, zero: T, block: array<T>, blk: nat, ghost n: Net<T>)
    requires n.Valid() && wa.blockW == n.Obw() && wa.blockH == n.kw && block.Length == n.N1()
    requires n.b == FedB(one, zero, wa)
    modifies block
    ensures block[..] == n.In1Block(0, blk)
  {
    hide Net.Valid, Net.Obh, Net.Obw, Net.N1, Net.In1Block, FedB;
    n.Sizes();
    ghost var want := n.In1Block(0, blk);
    ColumnInside(n, 0, n.Obw());
    var addr := 0;
    for h := 0 to wa.blockH
      invariant addr == h * n.Obw() && 0 <= addr <= block.Length
      invariant block[..addr] == want[..addr]
    {
      var identityOffset := blk * wa.blockH + h;
      ColumnInside(n, h, n.Obw());
      for w := 0 to wa.blockW
        invariant addr == h * n.Obw() + w && addr <= block.Length
        invariant block[..addr] == want[..addr]
      {
        In1TileIs(wa, one, zero, n, blk, h, w, addr);
        assert want[..addr + 1] == want[..addr] + [want[addr]];
        if w < wa.lastBlock {
          block[addr] := if w == identityOffset then one else zero;
        } else {
          block[addr] := zero;
        }
        addr := addr + 1;
      }
    }
  }

  lemma ColumnInside<T>(n: Net<T>, h: nat, w: nat)
    requires h < n.kw && w == n.Obw()
    ensures (h + 1) * w == h * w + w <= n.N1() && n.kw * w == n.N1()
  {
    MulMono(h + 1, n.kw, w);
  }

  lemma In1TileIs<T>(wa: L1Args, one: T, zero: T, n: Net<T>, blk: nat, h: nat, w: nat, t: nat)
    requires 0 < n.nsw && 0 < n.sw && h < n.kw && w < n.Obw() && t == h * n.Obw() + w && t < n.N1()
    requires n.b == FedB(one, zero, wa)
    ensures n.In1Block(0, blk)[t] == if w < wa.lastBlock && w == blk * n.kw + h then one else zero
  {
    hide Net.Obw;
    DivModUnique(h, w, n.Obw());
  }

  // ---------- the whole kernels ----------

  // What the arguments of the two readers must have to do with a core.
  ghost predicate In0Fits<T>(ra: L1Args, in0: Dram<T>, junk: Matrix<T>, n: Net<T>) {
    && n.Valid() && n.nbh == 1 && n.nbw == 1
    && ra.blockW == n.kw && ra.blockH == n.Obh() && ra.blockNumTiles == n.N0() && ra.numBlocks == n.nb && ra.strideW == 1
    && n.a == FedA(in0, junk, ra, n.kw)
  }

  ghost predicate In1Fits<T>(wa: L1Args, one: T, n: Net<T>) {
    && n.Valid() && n.nbh == 1 && n.nbw == 1
    && wa.blockW == n.Obw() && wa.blockH == n.kw && wa.blockNumTiles == n.N1() && wa.numBlocks == n.nb
    && n.b == FedB(one, n.g.zero, wa)
  }

  // Writer arguments 12 to 30; one outer block, for which L1 mode has no arguments.
  function L1OutArgs(s: Shape, y: nat, x: nat): WriterArgs
    requires WholeCore(s)
  {
    var w, e := ValidN(s, x), L1Edge(s, y, x);
    WriterArgs(
      0, 1, w, s.kw * s.PerCoreN(), s.PerCoreN(), s.kw, s.PerCoreN() * s.kw, s.kt / s.kw,
      0, 1, w, s.sw, s.sh * w,
      s.sw, s.sh, s.sw * s.sh, s.PerCoreN() / s.sw, s.PerCoreM() / s.sh,
      w,
      e.nonzeroH, e.lastSubH, e.hSkip, e.nonzeroW, e.lastSubW, e.rowSkip, e.wSkip,
      1, 1, s.PerCoreN(), s.PerCoreM() * w, s.PerCoreN())
  }

  // The host's L1 arguments meet what the kernels ask for.
  lemma HostL1Fits<T>(g: Alg<T>, in0: Dram<T>, one: T, junk: Matrix<T>, s: Shape, y: nat, x: nat)
    requires WholeCore(s)
    ensures var n := L1Core(g, in0, one, junk, s, y, x);
            && In0Fits(In0Args(s, y), in0, junk, n) && In1Fits(In1Args(s, x), one, n) && OutputMatches(L1OutArgs(s, y, x), n)
  {
    hide L1Core, L1Edge, Shape.PerCoreM, Shape.PerCoreN, ValidM, ValidN, CoreRows, CoreCols, FedA, FedB, Net.Valid;
    L1CoreIsValid(g, in0, one, junk, s, y, x);
    L1EdgeIs(g, in0, one, junk, s, y, x);
    SameNet(g, in0, one, junk, s, y, x);
    SubCounts(g, in0, one, junk, s, y, x);
    assert s.kw * s.PerCoreM() == s.PerCoreM() * s.kw && s.PerCoreN() * s.kw == s.kw * s.PerCoreN();
    assert s.sw * s.sh == s.sh * s.sw;
  }

  lemma SubCounts<T>(g: Alg<T>, in0: Dram<T>, one: T, junk: Matrix<T>, s: Shape, y: nat, x: nat)
    requires WholeCore(s)
    ensures var n := L1Core(g, in0, one, junk, s, y, x);
            && n.sh == s.sh && n.sw == s.sw && n.nsh == s.PerCoreM() / s.sh && n.nsw == s.PerCoreN() / s.sw
            && n.nb == s.kt / s.kw && 0 < s.sh && 0 < s.sw && 0 < s.kw
  {
    hide Shape.PerCoreM, Shape.PerCoreN, FedA, FedB, In0Args, In1Args, LastOuterH, LastOuterW, LastPiece, PieceCount,
         ValidN, ValidM;
  }

  // The in0 reader: the start id is never advanced from block to block.
  method In0Kernel<T>(ra: L1Args, in0: Dram<T>, junk: Matrix<T>, filler: T, cb0: CircularBuffer<T>, ghost n: Net<T>)
    requires In0Fits(ra, in0, junk, n)
    modifies cb0
    ensures cb0.tiles == old(cb0.tiles) + Stream(n, In0)
  {
    hide Net.Valid, Net.Obh, Net.Obw, Net.N0, Net.In0Block, FedA, Upto;
    n.Sizes();
    ghost var before := cb0.tiles;
    var blockStart := ra.startTileId;
    PushExtends(n, In0, 0, 0, 0, before);
    for blk := 0 to ra.numBlocks
      invariant cb0.tiles == before + Upto(n, In0, 0, 0, blk)
    {
      var block := new T[ra.blockNumTiles](_ => filler);
      FillIn0(ra, in0, junk, block, blockStart, blk, n);
      cb0.PushBack(block);
      PushExtends(n, In0, 0, 0, blk, before);
    }
  }

  // The in1 reader and writer.
  method In1WriterKernel<T>(wa: L1Args, wo: WriterArgs, one: T, zero: T, cb1: CircularBuffer<T>, cb16: CircularBuffer<T>,
                            out: Tensor<T>, ghost n: Net<T>)
    requires In1Fits(wa, one, n) && OutputMatches(wo, n) && zero == n.g.zero && cb1 != cb16
    requires cb16.tiles == OutStream(n)
    modifies cb1, cb16, out
    ensures cb1.tiles == old(cb1.tiles) + Stream(n, In1)
    ensures cb16.tiles == []
    ensures out.tiles == FinalOut(n, old(out.tiles))
  {
    hide Net.Valid, Net.Obh, Net.Obw, Net.N1, Net.In1Block, FedB, Upto, Net.Partial, Finish, WriterOk, OutStream, FinalOut,
         Net.Cap, Net.Sub;
    n.Sizes();
    ghost var before := cb1.tiles;
    PushExtends(n, In1, 0, 0, 0, before);
    for blk := 0 to wa.numBlocks
      invariant cb1.tiles == before + Upto(n, In1, 0, 0, blk)
      invariant cb16.tiles == OutStream(n) && out.tiles == old(out.tiles)
    {
      var block := new T[wa.blockNumTiles](_ => zero);
      FillIn1(wa, one, zero, block, blk, n);
      cb1.PushBack(block);
      PushExtends(n, In1, 0, 0, blk, before);
    }
    OneOutputBlock(n, out.tiles);
    DrainBlock(wo, cb16, out, wo.outStartTileId, 0, 0, n, []);
    OneOutputBlock(n, out.tiles);
  }

  // With one outer block, the whole output is that block.
  lemma OneOutputBlock<T>(n: Net<T>, out: map<int, T>)
    requires n.Valid() && n.nbh == 1 && n.nbw == 1
    ensures 0 < n.nb && 0 < n.nsw && 0 < n.sh && 0 < n.sw && OutStream(n) == n.Partial(0, 0, n.nb - 1) + []
    ensures NextOuter(n, Pos(0, 0, n.nb - 1)) == Pos(1, 0, 0)
    ensures WriterOk(n, Writer(Pos(0, 0, n.nb - 1), 0, 0, WWait)) && WriterOk(n, Writer(Pos(1, 0, 0), 0, 0, WReserve))
    ensures Finish(n, Writer(Pos(0, 0, n.nb - 1), 0, 0, WWait), out) == FinalOut(n, out)
    ensures Finish(n, Writer(Pos(1, 0, 0), 0, 0, WReserve), out) == out
  {
    n.Sizes();
    FeedingWritesNothing(n, 0, 0, 0, out);
    FinishedNow(n, Writer(Pos(1, 0, 0), 0, 0, WReserve), out);
    assert OutUpto(n, 0, 1) == OutUpto(n, 0, 0) + n.Partial(0, 0, n.nb - 1);
    hide Net.Partial, Finish, Net.Valid;
  }

  // ---------- the closed form ----------

  ghost predicate Neutral<T(!new)>(g: Alg<T>, one: T) {
    && (forall x :: g.mul(x, one) == x && g.mul(x, g.zero) == g.zero)
    && (forall x :: g.add(x, g.zero) == x && g.add(g.zero, x) == x)
  }

  // Integers are such arithmetic.
  lemma IntegersHaveNeutral()
    ensures Neutral(Alg(0, (x: int, y: int) => x + y, (x: int, y: int) => x * y), 1)
  {
  }

  // A product with the identity picks an entry, once the fold has come that far.
  lemma {:induction false} DotIdentity<T(!new)>(g: Alg<T>, one: T, a: Matrix<T>, b: Matrix<T>, r: int, c: int, n: nat)
    requires Neutral(g, one)
    requires forall k: int :: 0 <= k < n ==> b(k, c) == if k == c then one else g.zero
    ensures Dot(g, a, b, r, c, n) == if 0 <= c < n then a(r, c) else g.zero
  {
    if n > 0 {
      DotIdentity(g, one, a, b, r, c, n - 1);
      assert b(n - 1, c) == if n - 1 == c then one else g.zero;
    }
  }

  // What a completed run of a core in L1 mode leaves in its output buffer, in every
  // interleaving: in each valid row, the first kt columns repeat the first K block of in0, and
  // the others are zero.
  lemma L1ClosedForm<T(!new)>(g: Alg<T>, in0: Dram<T>, one: T, junk: Matrix<T>, s: Shape, y: nat, x: nat, ss: seq<State<T>>, r: nat, c: nat)
    requires WholeCore(s) && Neutral(g, one)
    requires var n := L1Core(g, in0, one, junk, s, y, x); n.Valid() && IsRun(n, ss) && Done(n, ss[|ss| - 1])
    requires r < ValidM(s, y) && c < ValidN(s, x)
    ensures var out, id := ss[|ss| - 1].out, r * ValidN(s, x) + c;
            id in out && out[id] == if c < s.kt then in0(r * s.kw + c % s.kw) else g.zero
  {
    hide L1Core, Net.Valid, IsRun, Done, ValidM, ValidN, CoreRows, CoreCols, Neutral, FedA, FedB, In0Args, In1Args,
         Rows, Net.Obh, Net.Obw;
    var n := L1Core(g, in0, one, junk, s, y, x);
    L1CoreIsValid(g, in0, one, junk, s, y, x);
    SameNet(g, in0, one, junk, s, y, x);
    RunNonEmpty(n, ss);
    CompletedRun(n, ss);
    assert Id(n.outStart, n.outStride, r, c) == r * ValidN(s, x) + c;
    FedFold(g, in0, one, junk, s, y, x, r, c);
  }

  lemma RunNonEmpty<T>(n: Net<T>, ss: seq<State<T>>)
    requires n.Valid() && IsRun(n, ss)
    ensures 0 < |ss|
  {
  }

  lemma FedFold<T(!new)>(g: Alg<T>, in0: Dram<T>, one: T, junk: Matrix<T>, s: Shape, y: nat, x: nat, r: nat, c: nat)
    requires WholeCore(s) && Neutral(g, one) && r < ValidM(s, y) && c < ValidN(s, x)
    ensures Dot(g, FedA(in0, junk, In0Args(s, y), s.kw), FedB(one, g.zero, In1Args(s, x)), r, c, s.kt)
         == if c < s.kt then in0(r * s.kw + c % s.kw) else g.zero
  {
    hide ValidM, ValidN, Dot, Neutral, Shape.PerCoreM, Shape.PerCoreN;
    DotIdentity(g, one, FedA(in0, junk, In0Args(s, y), s.kw), FedB(one, g.zero, In1Args(s, x)), r, c, s.kt);
  }
}
