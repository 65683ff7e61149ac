// The whole grid of cores: which output tiles are written how often, which input tiles are
// read, and what is in the output tensor once every core has run.
module Grid {
  import opened Arith
  import opened Tiles
  import opened Output
  import opened Host

  // ---------- the ragged edge ----------

  // Rows written by core row y, columns written by core column x.
  function RowsOfCore(s: Shape, y: nat): int
    requires s.Valid()
  {
    s.PerCoreM() - s.obh + LastOuterH(s, y)
  }

  function ColsOfCore(s: Shape, x: nat): int
    requires s.Valid()
  {
    s.PerCoreN() - s.obw + LastOuterW(s, x)
  }

  // Every core row has work, and the last one is padded by less than an output block.
  predicate RowsFit(s: Shape)
    requires s.Valid()
  {
    (s.coresY - 1) * s.PerCoreM() < s.mt && s.PerCoreM() - LastCoreRows(s) < s.obh
  }

  predicate ColsFit(s: Shape)
    requires s.Valid()
  {
    (s.coresX - 1) * s.PerCoreN() < s.nt && s.PerCoreN() - LastCoreCols(s) < s.obw
  }

  function TotalRows(s: Shape): int
    requires s.Valid()
  {
    (s.coresY - 1) * s.PerCoreM() + RowsOfCore(s, s.coresY - 1)
  }

  function TotalCols(s: Shape): int
    requires s.Valid()
  {
    (s.coresX - 1) * s.PerCoreN() + ColsOfCore(s, s.coresX - 1)
  }

  // One dimension: total tiles t, over `cores` cores of p tiles in blocks of ob tiles.
  lemma EdgeExact(t: int, cores: int, p: int, ob: int)
    requires 0 < t && 0 < cores && p == (t - 1) / cores + 1 && 0 < p && 0 < ob && p % ob == 0
    ensures var last := LastPiece(t, p);
            && (((cores - 1) * p < t && p - last < ob) <==> (cores - 1) * p + (p - ob + LastPiece(last, ob)) == t)
            && t <= (cores - 1) * p + (p - ob + LastPiece(last, ob))
            && 0 < p - ob + LastPiece(last, ob) <= p
  {
    hide LastPiece, PieceCount;
    var last := LastPiece(t, p);
    PiecesOf(t, p);
    PiecesOf(last, ob);
    PiecesFit(last, p, ob);
    var lo := LastPiece(last, ob);
    var blocks := p / ob;
    var used := PieceCount(last, ob);
    assert (blocks - 1) * ob == p - ob;
    if p - last < ob {
      SameCount(used, blocks, ob, last, lo);
    }
    Enough(t, cores, p);
    if (cores - 1) * p < t {
      SameCount(PieceCount(t, p), cores, p, t, last);
      MulStep(used - 1, blocks - 1, ob);
    }
    if (cores - 1) * p + (p - ob + lo) == t {
      SameSplitInt(cores - 1, p - ob + lo, PieceCount(t, p) - 1, last, p);
    }
  }

  // t fits into `count` pieces but not into one less.
  lemma SameCount(c: int, count: int, m: int, t: int, last: int)
    requires 0 < m && 0 < last <= m && (c - 1) * m + last == t
    requires (count - 1) * m < t <= count * m
    ensures c == count
  {
    if c < count {
      MulStep(c, count - 1, m);
    } else if count < c {
      MulStep(count, c - 1, m);
    }
  }

  lemma MulStep(i: int, j: int, m: int)
    requires i <= j && 0 <= m
    ensures i * m <= j * m && i * m == (i - 1) * m + m
  {
    assert j * m == i * m + (j - i) * m;
    assert 0 <= (j - i) * m;
  }

  lemma Enough(t: int, cores: int, p: int)
    requires 0 < t && 0 < cores && p == (t - 1) / cores + 1
    ensures t <= cores * p
  {
    var q, r := (t - 1) / cores, (t - 1) % cores;
    assert t - 1 == cores * q + r;
    assert cores * p == cores * q + cores;
  }

  lemma SameSplitInt(q: int, r: int, q': int, r': int, m: int)
    requires 0 < r <= m && 0 < r' <= m && q * m + r == q' * m + r'
    ensures q == q' && r == r'
  {
    if q < q' {
      MulStep(q + 1, q', m);
    } else if q' < q {
      MulStep(q' + 1, q, m);
    }
  }

  // The rows written are the rows of the matrix exactly when the hypotheses hold.
  lemma RowsExact(s: Shape)
    requires s.Valid()
    ensures RowsFit(s) <==> TotalRows(s) == s.mt
    ensures s.mt <= TotalRows(s)
    ensures 0 < RowsOfCore(s, s.coresY - 1) <= s.PerCoreM()
  {
    PerCorePositive(s);
    EdgeExact(s.mt, s.coresY, s.PerCoreM(), s.obh);
  }

  lemma ColsExact(s: Shape)
    requires s.Valid()
    ensures ColsFit(s) <==> TotalCols(s) == s.nt
    ensures s.nt <= TotalCols(s)
    ensures 0 < ColsOfCore(s, s.coresX - 1) <= s.PerCoreN()
  {
    PerCorePositive(s);
    EdgeExact(s.nt, s.coresX, s.PerCoreN(), s.obw);
  }

  // Cores other than the last write all their rows.
  lemma InnerCore(s: Shape, y: nat, x: nat)
    requires s.Valid()
    ensures y != s.coresY - 1 ==> RowsOfCore(s, y) == s.PerCoreM()
    ensures x != s.coresX - 1 ==> ColsOfCore(s, x) == s.PerCoreN()
  {
    hide Shape.PerCoreM, Shape.PerCoreN;
  }

  // ---------- the tile ids of the grid ----------

  ghost function CoreIds(s: Shape, y: nat, x: nat): multiset<int>
    requires s.Valid()
  {
    Box(y * s.PerCoreM() * s.nt + x * s.PerCoreN(), s.nt, 0, RowsOfCore(s, y), 0, ColsOfCore(s, x))
  }

  // These are the ids that core (y, x) writes.
  lemma CoreWrites<T>(g: Alg<T>, a: Dram<T>, b: Dram<T>, s: Shape, y: nat, x: nat)
    requires s.Valid()
    ensures var n := CoreOf(g, a, b, s, y, x);
            && n.Valid() && Rows(n, 0, CoreRows(n), 0, CoreCols(n)) == CoreIds(s, y, x)
            && CoreRows(n) == RowsOfCore(s, y) && CoreCols(n) == ColsOfCore(s, x)
  {
    CoreIsValid(g, a, b, s, y, x);
    var n := CoreOf(g, a, b, s, y, x);
    BlocksBut(n.nbh, s.obh);
    BlocksBut(n.nbw, s.obw);
    hide Shape.PerCoreM, Shape.PerCoreN, LastOuterH, LastOuterW, LocalA, LocalB, LastPiece, PieceCount, Box, CoreRows,
         CoreCols;
  }

  lemma BlocksBut(n: int, k: int)
    ensures (n - 1) * k == n * k - k
  {
  }

  ghost function CoreRowIds(s: Shape, y: nat, x: nat): multiset<int>
    requires s.Valid()
  {
    if x == 0 then multiset{} else CoreRowIds(s, y, x - 1) + CoreIds(s, y, x - 1)
  }

  // What the first y rows of cores write, counted with multiplicity.
  ghost function GridIds(s: Shape, y: nat): multiset<int>
    requires s.Valid()
  {
    if y == 0 then multiset{} else GridIds(s, y - 1) + CoreRowIds(s, y - 1, s.coresX)
  }

  // Every output tile is written exactly once, and nothing else is.
  ghost predicate ExactCover(s: Shape)
    requires s.Valid()
  {
    forall id: int :: GridIds(s, s.coresY)[id] == if 0 <= id < s.mt * s.nt then 1 else 0
  }

  lemma {:induction false} ShiftRow(r0: int, c0: int, t: nat, r: int, start: int, lo: int, hi: int)
    requires forall c :: Id(start, t, r, c) == Id(0, t, r0 + r, c0 + c)
    ensures RowIds(start, t, r, lo, hi) == RowIds(0, t, r0 + r, c0 + lo, c0 + hi)
    decreases hi - lo
  {
    hide Id;
    if lo < hi {
      ShiftRow(r0, c0, t, r, start, lo, hi - 1);
      assert Id(start, t, r, hi - 1) == Id(0, t, r0 + r, c0 + (hi - 1));
    }
  }

  lemma ShiftId(r0: int, c0: int, t: nat, r: int, start: int)
    requires start == r0 * t + c0
    ensures forall c :: Id(start, t, r, c) == Id(0, t, r0 + r, c0 + c)
  {
    assert (r0 + r) * t == r0 * t + r * t;
  }

  lemma {:induction false} ShiftBox(r0: int, c0: int, t: nat, lo: int, hi: int, c1: int, c2: int)
    ensures Box(r0 * t + c0, t, lo, hi, c1, c2) == Box(0, t, r0 + lo, r0 + hi, c0 + c1, c0 + c2)
    decreases hi - lo
  {
    hide RowIds, Id;
    if lo < hi {
      ShiftBox(r0, c0, t, lo, hi - 1, c1, c2);
      ShiftId(r0, c0, t, hi - 1, r0 * t + c0);
      ShiftRow(r0, c0, t, hi - 1, r0 * t + c0, c1, c2);
    }
  }

  lemma {:induction false} CoreRowIsBox(s: Shape, y: nat, x: nat)
    requires s.Valid() && x <= s.coresX
    ensures CoreRowIds(s, y, x) ==
              Box(0, s.nt, y * s.PerCoreM(), y * s.PerCoreM() + RowsOfCore(s, y), 0,
                  if x < s.coresX then x * s.PerCoreN() else TotalCols(s))
  {
    hide Box, Shape.PerCoreM, Shape.PerCoreN, RowsOfCore, ColsOfCore;
    var p, q := s.PerCoreM(), s.PerCoreN();
    PerCorePositive(s);
    ColsExact(s);
    if x == 0 {
      NoIdsBox(s, y * p, y * p + RowsOfCore(s, y), x * q);
    } else {
      CoreRowIsBox(s, y, x - 1);
      ShiftBox(y * p, (x - 1) * q, s.nt, 0, RowsOfCore(s, y), 0, ColsOfCore(s, x - 1));
      InnerCore(s, y, x - 1);
      MulStep(x, x, q);
      SignMul(x - 1, q);
      BoxSplitCols(0, s.nt, y * p, y * p + RowsOfCore(s, y), 0, (x - 1) * q, (x - 1) * q + ColsOfCore(s, x - 1));
    }
  }

  lemma NoIdsBox(s: Shape, r0: int, r1: int, c: int)
    requires c == 0
    ensures Box(0, s.nt, r0, r1, 0, c) == multiset{}
  {
    BoxNoCols(0, s.nt, r0, r1, 0, c);
  }

  lemma {:induction false} GridIsBox(s: Shape, y: nat)
    requires s.Valid() && y <= s.coresY
    ensures GridIds(s, y) == Box(0, s.nt, 0, if y < s.coresY then y * s.PerCoreM() else TotalRows(s), 0, TotalCols(s))
  {
    hide Box, Shape.PerCoreM, Shape.PerCoreN, RowsOfCore, ColsOfCore, TotalCols, CoreRowIds;
    var p := s.PerCoreM();
    PerCorePositive(s);
    RowsExact(s);
    if y == 0 {
      BoxEmpty(0, s.nt, 0, y * p, 0, TotalCols(s));
    } else {
      GridIsBox(s, y - 1);
      CoreRowIsBox(s, y - 1, s.coresX);
      InnerCore(s, y - 1, 0);
      MulStep(y, y, p);
      SignMul(y - 1, p);
      BoxSplitRows(0, s.nt, 0, (y - 1) * p, (y - 1) * p + RowsOfCore(s, y - 1), 0, TotalCols(s));
    }
  }

  // ---------- when a box is an interval ----------

  lemma {:induction false} RowCounts(t: nat, r: int, c0: int, c1: int, id: int)
    requires c0 <= c1
    ensures RowIds(0, t, r, c0, c1)[id] == if r * t + c0 <= id < r * t + c1 then 1 else 0
    decreases c1 - c0
  {
    if c0 < c1 {
      RowCounts(t, r, c0, c1 - 1, id);
    }
  }

  lemma {:induction false} FullRowsCount(t: nat, r: nat, id: int)
    ensures Box(0, t, 0, r, 0, t)[id] == if 0 <= id < r * t then 1 else 0
  {
    if r > 0 {
      FullRowsCount(t, r - 1, id);
      RowCounts(t, r - 1, 0, t, id);
      MulStep(r, r, t);
      SignMul(r - 1, t);
    }
  }

  // No id of a box is above that of its last tile.
  lemma {:induction false} BoxMax(t: nat, r: nat, c: nat, id: int)
    requires id in Box(0, t, 0, r, 0, c)
    ensures 0 < r && 0 < c && 0 <= id < (r - 1) * t + c
  {
    if r > 0 {
      if id in Box(0, t, 0, r - 1, 0, c) {
        BoxMax(t, r - 1, c, id);
        MulStep(r - 1, r - 1, t);
      } else {
        RowCounts(t, r - 1, 0, c, id);
        SignMul(r - 1, t);
      }
    }
  }

  // No id of a box is below the first of its first row.
  lemma {:induction false} BoxMin(t: nat, r0: nat, r: nat, c: nat, id: int)
    requires r0 <= r && id in Box(0, t, r0, r, 0, c)
    ensures r0 * t <= id
    decreases r - r0
  {
    hide RowIds, Id;
    if r0 < r {
      if id in Box(0, t, r0, r - 1, 0, c) {
        BoxMin(t, r0, r - 1, c, id);
      } else {
        RowCounts(t, r - 1, 0, c, id);
        MulMono(r0, r - 1, t);
      }
    }
  }

  // How often an id occurs in the first two rows, and in the rest.
  lemma FirstRows(t: nat, r: nat, c: nat, id: int)
    requires 1 < r
    ensures Box(0, t, 0, r, 0, c)[id] == (if 0 <= id < c then 1 else 0) + (if t <= id < t + c then 1 else 0)
              + Box(0, t, 2, r, 0, c)[id]
  {
    BoxSplitRows(0, t, 0, 2, r, 0, c);
    RowCounts(t, 0, 0, c, id);
    RowCounts(t, 1, 0, c, id);
    TwoRows(t, c);
  }

  lemma TwoRows(t: nat, c: nat)
    ensures Box(0, t, 0, 2, 0, c) == RowIds(0, t, 0, 0, c) + RowIds(0, t, 1, 0, c)
  {
    hide RowIds;
    assert Box(0, t, 0, 1, 0, c) == Box(0, t, 0, 0, 0, c) + RowIds(0, t, 0, 0, c);
  }

  // A box that covers 0..mt * nt exactly once ends at mt * nt - 1, and its rows are as wide
  // as the matrix: wider ones would write a tile twice, narrower ones would leave one out.
  lemma CoverMeansEqual(mt: nat, nt: nat, r: nat, c: nat)
    requires 0 < mt && 0 < nt && 0 < r && 0 < c
    requires forall id: int :: Box(0, nt, 0, r, 0, c)[id] == if 0 <= id < mt * nt then 1 else 0
    ensures (r - 1) * nt + c == mt * nt
    ensures r == 1 || c == nt
  {
    hide Box;
    var box := Box(0, nt, 0, r, 0, c);
    Positive(mt, nt);
    var top := mt * nt - 1;
    assert box[top] == 1;
    BoxMax(nt, r, c, top);
    InBox(0, nt, 0, r, 0, c, r - 1, c - 1);
    LastOfBox(nt, r, c);
    assert box[(r - 1) * nt + (c - 1)] > 0;
    if r > 1 && c > nt {
      FirstRows(nt, r, c, nt);
    } else if r > 1 && c < nt {
      FirstRows(nt, r, c, c);
      if c in Box(0, nt, 2, r, 0, c) {
        BoxMin(nt, 2, r, c, c);
      }
      MulMono(1, mt, nt);
    }
  }

  lemma LastOfBox(nt: nat, r: nat, c: nat)
    ensures Id(0, nt, r - 1, c - 1) == (r - 1) * nt + (c - 1)
  {
  }

  lemma SameHeight(mt: nat, nt: nat, r: nat)
    requires 0 < nt && 0 < r && (r - 1) * nt + nt == mt * nt
    ensures r == mt
  {
    MulStep(r, r, nt);
    CancelLeft(nt, r, mt);
  }

  lemma CancelLeft(k: nat, x: nat, y: nat)
    requires 0 < k && (k * x == k * y || x * k == y * k)
    ensures x == y
  {
    if x < y {
      assert k * y == k * x + k * (y - x);
      Positive(k, y - x);
    } else if y < x {
      assert k * x == k * y + k * (x - y);
      Positive(k, x - y);
    }
  }

  // With a single row written in all, the matrix has a single row.
  lemma SingleRow(s: Shape)
    requires s.Valid() && TotalRows(s) == 1
    ensures s.mt == 1
  {
    PerCorePositive(s);
    RowsExact(s);
    var p := s.PerCoreM();
    if s.coresY > 1 {
      MulMono(1, s.coresY - 1, p);
    } else {
      OneCore(s);
      assert p == s.mt;
      PiecesFit(1, p, s.obh);
      WholeCore(s);
    }
  }

  lemma OneCore(s: Shape)
    requires s.Valid() && s.coresY == 1
    ensures s.PerCoreM() == s.mt
  {
  }

  lemma WholeCore(s: Shape)
    requires s.Valid() && s.coresY == 1
    ensures RowsOfCore(s, 0) == s.mt
  {
    OneCore(s);
  }

  // The output is covered exactly once precisely under the two conditions on each edge.
  lemma CoverExactlyWhen(s: Shape)
    requires s.Valid()
    ensures ExactCover(s) <==> RowsFit(s) && ColsFit(s)
  {
    hide Box, Shape.PerCoreM, Shape.PerCoreN, RowsOfCore, ColsOfCore, RowsFit, ColsFit, GridIds;
    GridIsBox(s, s.coresY);
    RowsExact(s);
    ColsExact(s);
    TotalsPositive(s);
    if TotalRows(s) == s.mt && TotalCols(s) == s.nt {
      forall id: int ensures GridIds(s, s.coresY)[id] == if 0 <= id < s.mt * s.nt then 1 else 0 {
        FullRowsCount(s.nt, s.mt, id);
      }
    }
    if ExactCover(s) {
      CoverMeansEqual(s.mt, s.nt, TotalRows(s), TotalCols(s));
      if TotalRows(s) == 1 {
        SingleRow(s);
      } else {
        SameHeight(s.mt, s.nt, TotalRows(s));
      }
    }
  }

  // When the cores divide the matrix evenly, both conditions hold.
  lemma EvenGridsFit(s: Shape)
    requires s.Valid() && s.mt % s.coresY == 0 && s.nt % s.coresX == 0
    ensures RowsFit(s) && ColsFit(s)
  {
    EvenSplit(s.mt, s.coresY);
    EvenSplit(s.nt, s.coresX);
  }

  lemma EvenSplit(t: int, cores: int)
    requires 0 < t && 0 < cores && t % cores == 0
    ensures var p := (t - 1) / cores + 1; 0 < p && p * cores == t && LastPiece(t, p) == p && (cores - 1) * p < t
  {
    PiecesFit(1, t, cores);
    var q := t / cores;
    QuotientUnique(t - 1, cores, q - 1, cores - 1);
    QuotientUnique(t, q, cores, 0);
    MulStep(cores, cores, q);
  }

  lemma TotalsPositive(s: Shape)
    requires s.Valid()
    ensures 0 < TotalRows(s) && 0 < TotalCols(s)
  {
    hide Shape.PerCoreM, Shape.PerCoreN, RowsOfCore, ColsOfCore;
    PerCorePositive(s);
    RowsExact(s);
    ColsExact(s);
    SignMul(s.coresY - 1, s.PerCoreM());
    SignMul(s.coresX - 1, s.PerCoreN());
  }

  // Two grids for which the cover fails (module Plan shows that the host builds them): a core row without work, and a
  // last core padded by a whole output block.
  lemma CoverCanFail()
    ensures var s := Shape(5, 1, 1, 4, 1, 2, 1, 1, 2, 1); s.Valid() && !ExactCover(s)
    ensures var s := Shape(5, 1, 1, 2, 1, 1, 1, 1, 1, 1); s.Valid() && !ExactCover(s)
  {
    hide ExactCover, RowsFit, ColsFit;
    IdleCore();
    PaddedByABlock();
    CoverExactlyWhen(Shape(5, 1, 1, 4, 1, 2, 1, 1, 2, 1));
    CoverExactlyWhen(Shape(5, 1, 1, 2, 1, 1, 1, 1, 1, 1));
  }

  lemma IdleCore()
    ensures var s := Shape(5, 1, 1, 4, 1, 2, 1, 1, 2, 1); s.Valid() && !RowsFit(s)
  {
    hide *;
    IdleSizes();
    IdleValid();
    WithoutWork(Shape(5, 1, 1, 4, 1, 2, 1, 1, 2, 1), 2);
  }

  lemma IdleSizes()
    ensures var s := Shape(5, 1, 1, 4, 1, 2, 1, 1, 2, 1); s.PerCoreM() == 2 && s.PerCoreN() == 1
  {
    hide *;
    CoreSizes(Shape(5, 1, 1, 4, 1, 2, 1, 1, 2, 1), 1, 0, 0, 0);
  }

  lemma IdleValid()
    ensures Shape(5, 1, 1, 4, 1, 2, 1, 1, 2, 1).Valid()
  {
    hide *;
    IdleSizes();
    ValidWith(Shape(5, 1, 1, 4, 1, 2, 1, 1, 2, 1), 2, 1);
  }

  lemma ValidWith(s: Shape, p: nat, q: nat)
    requires 0 < s.mt && 0 < s.nt && 0 < s.kt && 0 < s.coresY && 0 < s.coresX
    requires 0 < s.obh && 0 < s.obw && 0 < s.kw && 0 < s.sh && 0 < s.sw
    requires s.PerCoreM() == p && s.PerCoreN() == q
    requires p % s.obh == 0 && q % s.obw == 0 && s.kt % s.kw == 0 && s.obh % s.sh == 0 && s.obw % s.sw == 0
    ensures s.Valid()
  {
  }

  lemma WithoutWork(s: Shape, p: nat)
    requires s.Valid() && s.PerCoreM() == p && s.mt <= (s.coresY - 1) * p
    ensures !RowsFit(s)
  {
  }

  lemma PaddedByABlock()
    ensures var s := Shape(5, 1, 1, 2, 1, 1, 1, 1, 1, 1); s.Valid() && !RowsFit(s)
  {
    CoreSizes(Shape(5, 1, 1, 2, 1, 1, 1, 1, 1, 1), 2, 0, 0, 0);
    hide Shape.PerCoreM, Shape.PerCoreN;
  }

  // Tiles per core, by quotient and remainder.
  lemma CoreSizes(s: Shape, q: nat, r: nat, q': nat, r': nat)
    requires s.mt - 1 == q * s.coresY + r && r < s.coresY && s.nt - 1 == q' * s.coresX + r' && r' < s.coresX
    ensures s.PerCoreM() == q + 1 && s.PerCoreN() == q' + 1
  {
    QuotientUnique(s.mt - 1, s.coresY, q, r);
    QuotientUnique(s.nt - 1, s.coresX, q', r');
  }
}
