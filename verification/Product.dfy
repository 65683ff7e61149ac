// The whole device computes the matrix product: the argument lists of the host, the kernels
// on every core, in any interleaving.
module Product {
  import opened Arith
  import opened Tiles
  import opened CoreNet
  import opened Output
  import opened Host
  import opened Grid
  import opened Device

  // The matrices as they lie in DRAM: row-major tile ids.
  function GlobalA<T>(a: Dram<T>, kt: nat): Matrix<T> { (r, k) => a(r * kt + k) }
  function GlobalB<T>(b: Dram<T>, nt: nat): Matrix<T> { (k, c) => b(k * nt + c) }

  lemma CoresPositive(s: Shape)
    requires s.Valid()
    ensures 0 < s.coresX && 0 < s.coresY
  {
    hide Shape.PerCoreM, Shape.PerCoreN;
  }

  // The i-th core of the grid, row by row.
  function CoreAt<T>(g: Alg<T>, a: Dram<T>, b: Dram<T>, s: Shape, i: nat): (n: Net<T>)
    requires s.Valid()
    ensures n.Valid()
  {
    CoresPositive(s);
    CoreIsValid(g, a, b, s, i / s.coresX, i % s.coresX);
    CoreOf(g, a, b, s, i / s.coresX, i % s.coresX)
  }

  function GridNets<T>(g: Alg<T>, a: Dram<T>, b: Dram<T>, s: Shape): (nets: seq<Net<T>>)
    requires s.Valid()
    ensures |nets| == s.coresY * s.coresX && AllValid(nets)
  {
    seq(s.coresY * s.coresX, i requires 0 <= i < s.coresY * s.coresX => CoreAt(g, a, b, s, i))
  }

  // ---------- the rectangle of a core ----------

  lemma CoreRowsInside(s: Shape, y: nat)
    requires s.Valid() && RowsFit(s) && y < s.coresY
    ensures y * s.PerCoreM() + RowsOfCore(s, y) <= s.mt
    ensures 0 < RowsOfCore(s, y) <= s.PerCoreM()
  {
    hide Shape.PerCoreM, Shape.PerCoreN, RowsOfCore;
    PerCorePositive(s);
    RowsExact(s);
    InnerCore(s, y, 0);
    if y < s.coresY - 1 {
      MulMono(y + 1, s.coresY - 1, s.PerCoreM());
      MulStep(y + 1, y + 1, s.PerCoreM());
    }
  }

  lemma CoreColsInside(s: Shape, x: nat)
    requires s.Valid() && ColsFit(s) && x < s.coresX
    ensures x * s.PerCoreN() + ColsOfCore(s, x) <= s.nt
    ensures 0 < ColsOfCore(s, x) <= s.PerCoreN()
  {
    hide Shape.PerCoreM, Shape.PerCoreN, ColsOfCore;
    PerCorePositive(s);
    ColsExact(s);
    InnerCore(s, 0, x);
    if x < s.coresX - 1 {
      MulMono(x + 1, s.coresX - 1, s.PerCoreN());
      MulStep(x + 1, x + 1, s.PerCoreN());
    }
  }

  lemma {:induction false} RowMember(start: int, stride: nat, r: int, c0: int, c1: int, id: int) returns (c: int)
    requires id in RowIds(start, stride, r, c0, c1)
    ensures c0 <= c < c1 && id == Id(start, stride, r, c)
    decreases c1 - c0
  {
    hide Id;
    if id == Id(start, stride, r, c1 - 1) {
      c := c1 - 1;
    } else {
      c := RowMember(start, stride, r, c0, c1 - 1, id);
    }
  }

  lemma {:induction false} BoxMember(start: int, stride: nat, r0: int, r1: int, c0: int, c1: int, id: int)
    returns (r: int, c: int)
    requires id in Box(start, stride, r0, r1, c0, c1)
    ensures r0 <= r < r1 && c0 <= c < c1 && id == Id(start, stride, r, c)
    decreases r1 - r0
  {
    hide Id, RowIds;
    if id in RowIds(start, stride, r1 - 1, c0, c1) {
      r := r1 - 1;
      c := RowMember(start, stride, r, c0, c1, id);
    } else {
      r, c := BoxMember(start, stride, r0, r1 - 1, c0, c1, id);
    }
  }

  // Row and column, in the whole matrix, of a tile that core (y, x) owns.
  lemma OwnedAt<T>(g: Alg<T>, a: Dram<T>, b: Dram<T>, s: Shape, y: nat, x: nat, id: int) returns (r: nat, c: nat)
    requires s.Valid() && RowsFit(s) && ColsFit(s) && y < s.coresY && x < s.coresX
    requires id in Owned(CoreOf(g, a, b, s, y, x))
    ensures r < RowsOfCore(s, y) && c < ColsOfCore(s, x)
    ensures 0 <= y * s.PerCoreM() && 0 <= x * s.PerCoreN()
    ensures x * s.PerCoreN() + c < s.nt && y * s.PerCoreM() + r < s.mt
    ensures id == (y * s.PerCoreM() + r) * s.nt + (x * s.PerCoreN() + c)
  {
    hide Shape.PerCoreM, Shape.PerCoreN, RowsOfCore, ColsOfCore, Box, CoreOf, Rows, CoreRows, CoreCols, RowsFit,
         ColsFit;
    PerCorePositive(s);
    CoreWrites(g, a, b, s, y, x);
    CoreRowsInside(s, y);
    CoreColsInside(s, x);
    SignMul(y, s.PerCoreM());
    SignMul(x, s.PerCoreN());
    var r', c' := BoxMember(y * s.PerCoreM() * s.nt + x * s.PerCoreN(), s.nt, 0, RowsOfCore(s, y), 0, ColsOfCore(s, x), id);
    r, c := r', c';
    Regroup(y * s.PerCoreM(), r, s.nt);
  }

  lemma Regroup(p: int, r: int, t: int)
    ensures p * t + r * t == (p + r) * t
  {
  }

  lemma DifferentCores<T>(g: Alg<T>, a: Dram<T>, b: Dram<T>, s: Shape, y: nat, x: nat, y': nat, x': nat)
    requires s.Valid() && RowsFit(s) && ColsFit(s) && y < s.coresY && x < s.coresX && y' < s.coresY && x' < s.coresX
    requires y != y' || x != x'
    ensures Disjoint(CoreOf(g, a, b, s, y, x), CoreOf(g, a, b, s, y', x'))
  {
    hide Shape.PerCoreM, Shape.PerCoreN, RowsOfCore, ColsOfCore, CoreOf, Owned, RowsFit, ColsFit;
    PerCorePositive(s);
    CoreRowsInside(s, y);
    CoreColsInside(s, x);
    CoreRowsInside(s, y');
    CoreColsInside(s, x');
    forall id | id in Owned(CoreOf(g, a, b, s, y, x))
      ensures id !in Owned(CoreOf(g, a, b, s, y', x'))
    {
      if id in Owned(CoreOf(g, a, b, s, y', x')) {
        var r, c := OwnedAt(g, a, b, s, y, x, id);
        var r', c' := OwnedAt(g, a, b, s, y', x', id);
        SameSplit(y * s.PerCoreM() + r, x * s.PerCoreN() + c, y' * s.PerCoreM() + r', x' * s.PerCoreN() + c', s.nt);
        SameSplit(y, r, y', r', s.PerCoreM());
        SameSplit(x, c, x', c', s.PerCoreN());
        assert false;
      }
    }
  }

  lemma CoreWide<T>(g: Alg<T>, a: Dram<T>, b: Dram<T>, s: Shape, y: nat, x: nat)
    requires s.Valid() && ColsFit(s) && x < s.coresX
    ensures Wide(CoreOf(g, a, b, s, y, x))
  {
    CoreWrites(g, a, b, s, y, x);
    CoreColsInside(s, x);
    PerCorePositive(s);
    SignMul(x, s.PerCoreN());
    hide Shape.PerCoreM, Shape.PerCoreN, RowsOfCore, ColsOfCore, LastOuterH, LastOuterW, LastPiece, PieceCount,
         CoreRows, CoreCols, Net.Valid, ColsFit;
  }

  lemma GridNet<T>(g: Alg<T>, a: Dram<T>, b: Dram<T>, s: Shape, i: nat)
    requires s.Valid() && i < s.coresY * s.coresX
    ensures |GridNets(g, a, b, s)| == s.coresY * s.coresX
    ensures 0 <= i / s.coresX < s.coresY && 0 <= i % s.coresX < s.coresX
    ensures i == (i / s.coresX) * s.coresX + i % s.coresX
    ensures GridNets(g, a, b, s)[i] == CoreOf(g, a, b, s, i / s.coresX, i % s.coresX)
  {
    hide CoreOf, Shape.PerCoreM, Shape.PerCoreN, Shape.Valid;
    CoresPositive(s);
    DivModBound(i, s.coresY, s.coresX);
  }

  lemma CoresCompatible<T>(g: Alg<T>, a: Dram<T>, b: Dram<T>, s: Shape)
    requires s.Valid() && RowsFit(s) && ColsFit(s)
    ensures AllValid(GridNets(g, a, b, s)) && Compatible(GridNets(g, a, b, s))
  {
    hide *;
    var nets := GridNets(g, a, b, s);
    assert |nets| == s.coresY * s.coresX by { GridSize(g, a, b, s); }
    forall i: int | 0 <= i < |nets|
      ensures nets[i].Valid() && Wide(nets[i])
    {
      GridNet(g, a, b, s, i);
      CoreWide(g, a, b, s, i / s.coresX, i % s.coresX);
      WideIsValid(nets[i]);
    }
    forall i: int, j: int | 0 <= i < |nets| && 0 <= j < |nets| && i != j
      ensures Disjoint(nets[i], nets[j])
    {
      GridNet(g, a, b, s, i);
      GridNet(g, a, b, s, j);
      DifferentCores(g, a, b, s, i / s.coresX, i % s.coresX, j / s.coresX, j % s.coresX);
    }
    MakeCompatible(nets);
  }

  lemma GridSize<T>(g: Alg<T>, a: Dram<T>, b: Dram<T>, s: Shape)
    requires s.Valid()
    ensures |GridNets(g, a, b, s)| == s.coresY * s.coresX
  {
    hide CoreOf;
  }

  lemma WideIsValid<T>(n: Net<T>)
    requires Wide(n)
    ensures n.Valid()
  {
  }

  lemma MakeCompatible<T>(nets: seq<Net<T>>)
    requires forall i | 0 <= i < |nets| :: nets[i].Valid() && Wide(nets[i])
    requires forall i, j | 0 <= i < |nets| && 0 <= j < |nets| && i != j :: Disjoint(nets[i], nets[j])
    ensures AllValid(nets) && Compatible(nets)
  {
    hide Wide, Disjoint, Net.Valid;
  }

  // ---------- the core that owns a tile ----------

  lemma RowOwner(s: Shape, r: nat)
    requires s.Valid() && RowsFit(s) && r < s.mt
    ensures 0 < s.PerCoreM()
    ensures 0 <= r / s.PerCoreM() < s.coresY && r % s.PerCoreM() < RowsOfCore(s, r / s.PerCoreM())
    ensures r == (r / s.PerCoreM()) * s.PerCoreM() + r % s.PerCoreM()
  {
    hide Shape.PerCoreM, Shape.PerCoreN, ColsOfCore, RowsOfCore, ColsFit, RowsFit;
    PerCorePositive(s);
    RowsExact(s);
    var p := s.PerCoreM();
    MulStep(s.coresY, s.coresY, p);
    DivModBound(r, s.coresY, p);
    InnerCore(s, r / p, 0);
  }

  lemma ColOwner(s: Shape, c: nat)
    requires s.Valid() && ColsFit(s) && c < s.nt
    ensures 0 < s.PerCoreN()
    ensures 0 <= c / s.PerCoreN() < s.coresX && c % s.PerCoreN() < ColsOfCore(s, c / s.PerCoreN())
    ensures c == (c / s.PerCoreN()) * s.PerCoreN() + c % s.PerCoreN()
  {
    hide Shape.PerCoreM, Shape.PerCoreN, ColsOfCore, RowsOfCore, ColsFit, RowsFit;
    PerCorePositive(s);
    ColsExact(s);
    var p := s.PerCoreN();
    MulStep(s.coresX, s.coresX, p);
    DivModBound(c, s.coresX, p);
    InnerCore(s, 0, c / p);
  }

  lemma CoreInputs<T>(g: Alg<T>, a: Dram<T>, b: Dram<T>, s: Shape, y: nat, x: nat)
    requires s.Valid()
    ensures CoreOf(g, a, b, s, y, x).a == LocalA(g, a, BuildReaderArgs(s, y))
    ensures CoreOf(g, a, b, s, y, x).b == LocalB(g, b, BuildWriterArgs(s, y, x))
  {
    hide LocalA, LocalB, Shape.Valid, BuildReaderArgs, BuildWriterArgs, BuildComputeArgs;
  }

  // The kernels read real tiles for exactly the rows and columns that the writer writes.
  lemma ReadWhatIsWritten(s: Shape, y: nat, x: nat)
    requires s.Valid()
    ensures RowsRead(BuildReaderArgs(s, y)) == RowsOfCore(s, y)
    ensures ColsRead(BuildWriterArgs(s, y, x)) == ColsOfCore(s, x)
  {
    Quotients(s);
    BlocksBut(s.PerCoreM() / s.obh, s.obh);
    BlocksBut(s.PerCoreN() / s.obw, s.obw);
    hide Shape.Valid, Shape.PerCoreM, Shape.PerCoreN, LastOuterH, LastOuterW, LastPiece, PieceCount;
  }

  lemma ReaderNumbers(s: Shape, y: nat, x: nat)
    requires s.Valid()
    ensures var ra := BuildReaderArgs(s, y); ra.startTileId == y * s.PerCoreM() * s.kt && ra.strideH == s.kt
    ensures var wa := BuildWriterArgs(s, y, x); wa.in1StartTileId == x * s.PerCoreN() && wa.in1StrideH == s.nt
  {
    hide Shape.Valid, Shape.PerCoreM, Shape.PerCoreN, LastOuterH, LastOuterW, LastPiece, PieceCount;
  }

  lemma EntriesOfA<T>(g: Alg<T>, a: Dram<T>, b: Dram<T>, s: Shape, y: nat, x: nat, r: nat, k: int)
    requires s.Valid() && r < RowsOfCore(s, y)
    ensures CoreOf(g, a, b, s, y, x).a(r, k) == GlobalA(a, s.kt)(y * s.PerCoreM() + r, k)
  {
    hide CoreOf, Shape.PerCoreM, Shape.PerCoreN, BuildReaderArgs, BuildWriterArgs, RowsOfCore, RowsRead, ColsOfCore,
         ColsRead;
    CoreInputs(g, a, b, s, y, x);
    ReadWhatIsWritten(s, y, x);
    ReaderNumbers(s, y, x);
    Regroup(y * s.PerCoreM(), r, s.kt);
  }

  lemma EntriesOfB<T>(g: Alg<T>, a: Dram<T>, b: Dram<T>, s: Shape, y: nat, x: nat, k: int, c: nat)
    requires s.Valid() && c < ColsOfCore(s, x)
    ensures CoreOf(g, a, b, s, y, x).b(k, c) == GlobalB(b, s.nt)(k, x * s.PerCoreN() + c)
  {
    hide CoreOf, Shape.Valid, Shape.PerCoreM, Shape.PerCoreN, BuildReaderArgs, BuildWriterArgs, RowsOfCore, RowsRead,
         ColsOfCore, ColsRead;
    CoreInputs(g, a, b, s, y, x);
    ReadWhatIsWritten(s, y, x);
    ReaderNumbers(s, y, x);
  }

  lemma CoreAlg<T>(g: Alg<T>, a: Dram<T>, b: Dram<T>, s: Shape, y: nat, x: nat)
    requires s.Valid()
    ensures CoreOf(g, a, b, s, y, x).g == g
    ensures CoreOf(g, a, b, s, y, x).outStart == y * s.PerCoreM() * s.nt + x * s.PerCoreN()
    ensures CoreOf(g, a, b, s, y, x).outStride == s.nt
  {
    hide Shape.PerCoreM, Shape.PerCoreN, LastOuterH, LastOuterW, LastPiece, PieceCount, LocalA, LocalB;
  }

  // What a core computes at its tile (r, c) is the entry of the whole product.
  lemma LocalIsGlobal<T>(g: Alg<T>, a: Dram<T>, b: Dram<T>, s: Shape, y: nat, x: nat, r: nat, c: nat)
    requires s.Valid() && r < RowsOfCore(s, y) && c < ColsOfCore(s, x)
    ensures var n := CoreOf(g, a, b, s, y, x);
            && n.g == g && n.nb * n.kw == s.kt
            && Dot(n.g, n.a, n.b, r, c, n.nb * n.kw)
            == Dot(g, GlobalA(a, s.kt), GlobalB(b, s.nt), y * s.PerCoreM() + r, x * s.PerCoreN() + c, s.kt)
  {
    hide CoreOf, RowsOfCore, ColsOfCore, Shape.PerCoreM, Shape.PerCoreN, LastOuterH, LastOuterW, GlobalA, GlobalB,
         Net.Valid, CoreRows, CoreCols, Dot, Net.Obh, Net.Obw;
    CoreIsValid(g, a, b, s, y, x);
    CoreAlg(g, a, b, s, y, x);
    var n := CoreOf(g, a, b, s, y, x);
    var r', c' := y * s.PerCoreM() + r, x * s.PerCoreN() + c;
    forall k: int | 0 <= k < s.kt
      ensures n.a(r, k) == GlobalA(a, s.kt)(r', k) && n.b(k, c) == GlobalB(b, s.nt)(k, c')
    {
      EntriesOfA(g, a, b, s, y, x, r, k);
      EntriesOfB(g, a, b, s, y, x, k, c);
    }
    DotCongruent(g, n.a, n.b, r, c, GlobalA(a, s.kt), GlobalB(b, s.nt), r', c', s.kt);
  }

  // ---------- the product in the output tensor ----------

  ghost predicate HoldsProduct<T>(g: Alg<T>, a: Dram<T>, b: Dram<T>, s: Shape, before: map<int, T>, after: map<int, T>) {
    && (forall r: nat, c: nat :: r < s.mt && c < s.nt ==> ProductAt(g, a, b, s, after, r, c))
    && (forall id :: !(0 <= id < s.mt * s.nt) ==> SameAt(before, after, id))
  }

  // Tile (r, c), at its row-major id, is the left fold over all of K.
  ghost predicate ProductAt<T>(g: Alg<T>, a: Dram<T>, b: Dram<T>, s: Shape, out: map<int, T>, r: nat, c: nat) {
    var id := r * s.nt + c;
    id in out && out[id] == Dot(g, GlobalA(a, s.kt), GlobalB(b, s.nt), r, c, s.kt)
  }

  lemma OwnerHolds<T>(g: Alg<T>, a: Dram<T>, b: Dram<T>, s: Shape, out: map<int, T>, r: nat, c: nat)
    requires s.Valid() && RowsFit(s) && ColsFit(s) && r < s.mt && c < s.nt
    requires Compatible(GridNets(g, a, b, s))
    requires forall i | 0 <= i < |GridNets(g, a, b, s)| :: OwnedFinal(GridNets(g, a, b, s)[i], out)
    ensures ProductAt(g, a, b, s, out, r, c)
  {
    hide CoreOf, RowsFit, ColsFit, Shape.PerCoreM, Shape.PerCoreN, RowsOfCore, ColsOfCore, Owned, Value, OwnedFinal;
    RowOwner(s, r);
    ColOwner(s, c);
    var y, r' := r / s.PerCoreM(), r % s.PerCoreM();
    var x, c' := c / s.PerCoreN(), c % s.PerCoreN();
    FlatBound(y, x, s.coresY, s.coresX);
    DivModUnique(y, x, s.coresX);
    assert GridNets(g, a, b, s)[y * s.coresX + x] == CoreOf(g, a, b, s, y, x);
    OwnerAt(g, a, b, s, out, y, x, r', c');
  }

  lemma OwnerAt<T>(g: Alg<T>, a: Dram<T>, b: Dram<T>, s: Shape, out: map<int, T>, y: nat, x: nat, r: nat, c: nat)
    requires s.Valid() && r < RowsOfCore(s, y) && c < ColsOfCore(s, x)
    requires Wide(CoreOf(g, a, b, s, y, x)) && OwnedFinal(CoreOf(g, a, b, s, y, x), out)
    requires 0 <= y * s.PerCoreM() + r && 0 <= x * s.PerCoreN() + c
    ensures ProductAt(g, a, b, s, out, y * s.PerCoreM() + r, x * s.PerCoreN() + c)
  {
    hide CoreOf, Shape.PerCoreM, Shape.PerCoreN, RowsOfCore, ColsOfCore, Net.Valid, Dot, GlobalA, GlobalB, CoreRows,
         CoreCols, Value, Box, CoreIds;
    var n := CoreOf(g, a, b, s, y, x);
    CoreWrites(g, a, b, s, y, x);
    CoreAlg(g, a, b, s, y, x);
    LocalIsGlobal(g, a, b, s, y, x, r, c);
    InBox(n.outStart, n.outStride, 0, CoreRows(n), 0, CoreCols(n), r, c);
    ValueAt(n, r, c);
    Regroup(y * s.PerCoreM(), r, s.nt);
  }

  lemma OutsideUnowned<T>(g: Alg<T>, a: Dram<T>, b: Dram<T>, s: Shape, id: int)
    requires s.Valid() && RowsFit(s) && ColsFit(s) && !(0 <= id < s.mt * s.nt)
    ensures Unowned(GridNets(g, a, b, s), id)
  {
    hide CoreOf, RowsFit, ColsFit, Owned, Shape.PerCoreM, Shape.PerCoreN;
    var nets := GridNets(g, a, b, s);
    forall i | 0 <= i < |nets|
      ensures id !in Owned(nets[i])
    {
      DivModBound(i, s.coresY, s.coresX);
      if id in Owned(nets[i]) {
        var r, c := OwnedAt(g, a, b, s, i / s.coresX, i % s.coresX, id);
        FlatBound((i / s.coresX) * s.PerCoreM() + r, (i % s.coresX) * s.PerCoreN() + c, s.mt, s.nt);
        assert false;
      }
    }
  }

  // The main theorem. For every grid that meets the edge conditions, in every interleaving of
  // all kernels of all cores, the device cannot get stuck, every run that cannot go on has
  // finished, and a finished run has the product, entry by entry the left fold over all of K,
  // in the output tensor and has changed nothing else.
  lemma DeviceComputesProduct<T>(g: Alg<T>, a: Dram<T>, b: Dram<T>, s: Shape, ds: seq<Machines<T>>)
    requires s.Valid() && RowsFit(s) && ColsFit(s)
    requires IsDeviceRun(GridNets(g, a, b, s), ds)
    ensures var nets, d := GridNets(g, a, b, s), ds[|ds| - 1];
            && |ds| - 1 <= TotalSteps(nets, |nets|)
            && (AllDone(nets, d) <==> |ds| - 1 == TotalSteps(nets, |nets|))
            && (!AllDone(nets, d) ==> !Stuck(nets, d))
            && (AllDone(nets, d) ==> HoldsProduct(g, a, b, s, ds[0].out, d.out))
  {
    hide GridNets, RowsFit, ColsFit, AllDone, AllInit, MoveStep, TotalSteps, CanMove, OwnedFinal, Unowned, ProductAt,
         AllValid, Compatible;
    CoresCompatible(g, a, b, s);
    var nets, d := GridNets(g, a, b, s), ds[|ds| - 1];
    DeviceRuns(nets, ds);
    if AllDone(nets, d) {
      forall r: nat, c: nat | r < s.mt && c < s.nt
        ensures ProductAt(g, a, b, s, d.out, r, c)
      {
        OwnerHolds(g, a, b, s, d.out, r, c);
      }
      forall id | !(0 <= id < s.mt * s.nt)
        ensures SameAt(ds[0].out, d.out, id)
      {
        OutsideUnowned(g, a, b, s, id);
      }
    }
  }

  // ---------- what is read ----------

  // The in0 reader of core row y reads this id for its row r and inner tile k.
  function ReadA(s: Shape, y: nat, r: nat, k: nat): int
    requires s.Valid()
  {
    var ra := BuildReaderArgs(s, y);
    ra.startTileId + r * ra.strideH + k
  }

  function ReadB(s: Shape, x: nat, k: nat, c: nat): int
    requires s.Valid()
  {
    var wa := BuildWriterArgs(s, 0, x);
    wa.in1StartTileId + k * wa.in1StrideH + c
  }

  ghost predicate AllReadsOfAInRange(s: Shape)
    requires s.Valid()
  {
    forall y: nat, r: nat, k: nat :: y < s.coresY && r < RowsOfCore(s, y) && k < s.kt ==>
      0 <= ReadA(s, y, r, k) < s.mt * s.kt
  }

  ghost predicate AllReadsOfBInRange(s: Shape)
    requires s.Valid()
  {
    forall x: nat, k: nat, c: nat :: x < s.coresX && k < s.kt && c < ColsOfCore(s, x) ==>
      0 <= ReadB(s, x, k, c) < s.kt * s.nt
  }

  lemma ReadAIs(s: Shape, y: nat, r: nat, k: nat)
    requires s.Valid()
    ensures ReadA(s, y, r, k) == (y * s.PerCoreM() + r) * s.kt + k
  {
    hide Shape.PerCoreM, Shape.PerCoreN, LastOuterH;
    Regroup(y * s.PerCoreM(), r, s.kt);
  }

  lemma ReadBIs(s: Shape, x: nat, k: nat, c: nat)
    requires s.Valid()
    ensures ReadB(s, x, k, c) == k * s.nt + (x * s.PerCoreN() + c)
  {
    hide Shape.PerCoreM, Shape.PerCoreN, LastOuterH, LastOuterW, LastPiece, PieceCount;
  }

  // No core reads outside of A exactly when the edge condition on the rows holds.
  lemma ReadsOfAInRange(s: Shape)
    requires s.Valid()
    ensures AllReadsOfAInRange(s) <==> RowsFit(s)
  {
    hide ReadA, RowsOfCore, Shape.PerCoreM, Shape.PerCoreN, RowsFit;
    RowsExact(s);
    PerCorePositive(s);
    if RowsFit(s) {
      forall y: nat, r: nat, k: nat | y < s.coresY && r < RowsOfCore(s, y) && k < s.kt
        ensures 0 <= ReadA(s, y, r, k) < s.mt * s.kt
      {
        ReadAIs(s, y, r, k);
        CoreRowsInside(s, y);
        SignMul(y, s.PerCoreM());
        FlatBound(y * s.PerCoreM() + r, k, s.mt, s.kt);
      }
    } else {
      var r := RowsOfCore(s, s.coresY - 1) - 1;
      ReadAIs(s, s.coresY - 1, r, s.kt - 1);
      MulMono(s.mt, TotalRows(s) - 1, s.kt);
      assert !(ReadA(s, s.coresY - 1, r, s.kt - 1) < s.mt * s.kt);
    }
  }

  lemma ReadsOfBInRange(s: Shape)
    requires s.Valid()
    ensures AllReadsOfBInRange(s) <==> ColsFit(s)
  {
    hide ReadB, ColsOfCore, Shape.PerCoreM, Shape.PerCoreN, ColsFit;
    ColsExact(s);
    PerCorePositive(s);
    if ColsFit(s) {
      forall x: nat, k: nat, c: nat | x < s.coresX && k < s.kt && c < ColsOfCore(s, x)
        ensures 0 <= ReadB(s, x, k, c) < s.kt * s.nt
      {
        ReadBIs(s, x, k, c);
        CoreColsInside(s, x);
        SignMul(x, s.PerCoreN());
        FlatBound(k, x * s.PerCoreN() + c, s.kt, s.nt);
      }
    } else {
      var c := ColsOfCore(s, s.coresX - 1) - 1;
      ReadBIs(s, s.coresX - 1, s.kt - 1, c);
      MulStep(s.kt, s.kt, s.nt);
      assert !(ReadB(s, s.coresX - 1, s.kt - 1, c) < s.kt * s.nt);
    }
  }
}
