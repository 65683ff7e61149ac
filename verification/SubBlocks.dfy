// The choice of the output sub-block: the shapes that fit the eight DST registers, in the
// order of a table. Line numbers refer to test_full_charac.cpp.
module SubBlocks {
  import opened Arith

  // ---------- which shapes there are, and which come first ----------

  const DST_TILES := 8

  function Area(h: nat, w: nat): nat { h * w }

  function LongerSide(p: (nat, nat)): nat { if p.0 > p.1 then p.0 else p.1 }

  predicate Suits(p: (nat, nat), bh: nat, bw: nat) {
    0 < p.0 && 0 < p.1 && bh % p.0 == 0 && bw % p.1 == 0
  }

  // A shape that divides the block and fits the registers.
  predicate Eligible(p: (nat, nat), bh: nat, bw: nat) {
    Suits(p, bh, bw) && Area(p.0, p.1) <= DST_TILES
  }

  // Larger area first, then the shorter longer side, then more rows.
  predicate Ahead(p: (nat, nat), q: (nat, nat)) {
    || Area(p.0, p.1) > Area(q.0, q.1)
    || (Area(p.0, p.1) == Area(q.0, q.1)
        && (LongerSide(p) < LongerSide(q) || (LongerSide(p) == LongerSide(q) && p.0 > q.0)))
  }

  ghost function EligiblePairs(bh: nat, bw: nat): set<(nat, nat)> {
    set h: nat, w: nat | h <= DST_TILES && w <= DST_TILES && Eligible((h, w), bh, bw) :: (h, w)
  }

  ghost function PairsAheadOf(r: (nat, nat), bh: nat, bw: nat): set<(nat, nat)> {
    set p | p in EligiblePairs(bh, bw) && Ahead(p, r)
  }

  // r is the choice-th eligible shape in that order, or a single tile if there are fewer.
  ghost predicate Chosen(r: (nat, nat), bh: nat, bw: nat, choice: nat) {
    if choice < |EligiblePairs(bh, bw)|
    then Eligible(r, bh, bw) && |PairsAheadOf(r, bh, bw)| == choice
    else r == (1, 1)
  }

  // Of all eligible shapes r has the largest area, of those the smallest longer side, and of
  // those the most rows.
  ghost predicate FirstChoice(r: (nat, nat), bh: nat, bw: nat) {
    && Eligible(r, bh, bw)
    && forall h: nat, w: nat :: Eligible((h, w), bh, bw) ==>
         || Area(h, w) < Area(r.0, r.1)
         || (Area(h, w) == Area(r.0, r.1) && LongerSide((h, w)) > LongerSide(r))
         || (Area(h, w) == Area(r.0, r.1) && LongerSide((h, w)) == LongerSide(r) && h <= r.0)
  }

  // ---------- the table ----------

  const SUBBLOCKS: seq<(nat, nat)> := [
    (4, 2), (2, 4), (8, 1), (1, 8), (7, 1), (1, 7), (3, 2),
    (2, 3), (6, 1), (1, 6), (5, 1), (1, 5), (2, 2), (4, 1),
    (1, 4), (3, 1), (1, 3), (2, 1), (1, 2), (1, 1)]

  // The table lists every shape of at most eight tiles.
  lemma TableComplete(h: nat, w: nat) returns (k: nat)
    requires 0 < h && 0 < w && Area(h, w) <= 8
    ensures k < |SUBBLOCKS| && SUBBLOCKS[k] == (h, w)
  {
    SmallSides(h, w);
    k := if h == 4 && w == 2 then 0 else if h == 2 && w == 4 then 1 else if h == 8 then 2 else if w == 8 then 3
         else if h == 7 then 4 else if w == 7 then 5 else if h == 3 && w == 2 then 6 else if h == 2 && w == 3 then 7
         else if h == 6 then 8 else if w == 6 then 9 else if h == 5 then 10 else if w == 5 then 11
         else if h == 2 && w == 2 then 12 else if h == 4 then 13 else if w == 4 then 14 else if h == 3 then 15
         else if w == 3 then 16 else if h == 2 then 17 else if w == 2 then 18 else 19;
  }

  lemma SmallSides(h: nat, w: nat)
    requires 0 < h && 0 < w && Area(h, w) <= 8
    ensures h <= 8 && w <= 8
    ensures h >= 5 ==> w == 1
    ensures h >= 3 ==> w <= 2
    ensures h >= 2 ==> w <= 4
    ensures w >= 5 ==> h == 1
  {
    MulMono(1, h, w);
    MulMono(1, w, h);
    if h >= 5 { MulMono(5, h, w); }
    if h >= 3 { MulMono(3, h, w); }
    if h >= 2 { MulMono(2, h, w); }
    if w >= 5 { MulMono(5, w, h); }
  }

  // The table is in falling order.
  lemma TableNext(k: nat)
    requires k + 1 < |SUBBLOCKS|
    ensures Ahead(SUBBLOCKS[k], SUBBLOCKS[k + 1])
  {
  }

  lemma AheadIsOrder(p: (nat, nat), q: (nat, nat), r: (nat, nat))
    ensures Ahead(p, q) && Ahead(q, r) ==> Ahead(p, r)
    ensures Ahead(p, q) ==> !Ahead(q, p) && p != q
  {
    hide Area, LongerSide;
  }

  lemma {:induction false} TableOrder(i: nat, j: nat)
    requires i < j < |SUBBLOCKS|
    ensures Ahead(SUBBLOCKS[i], SUBBLOCKS[j]) && !Ahead(SUBBLOCKS[j], SUBBLOCKS[i]) && SUBBLOCKS[i] != SUBBLOCKS[j]
  {
    hide Ahead;
    TableNext(j - 1);
    if i + 1 < j {
      TableOrder(i, j - 1);
    }
    AheadIsOrder(SUBBLOCKS[i], SUBBLOCKS[j - 1], SUBBLOCKS[j]);
    AheadIsOrder(SUBBLOCKS[i], SUBBLOCKS[j], SUBBLOCKS[j]);
  }

  lemma TableFits(k: nat)
    requires k < |SUBBLOCKS|
    ensures 0 < SUBBLOCKS[k].0 <= DST_TILES && 0 < SUBBLOCKS[k].1 <= DST_TILES
    ensures Area(SUBBLOCKS[k].0, SUBBLOCKS[k].1) <= DST_TILES && !Ahead(SUBBLOCKS[k], SUBBLOCKS[k])
  {
  }

  // The table entries before k that divide the block.
  function Suitable(bh: nat, bw: nat, k: nat): seq<(nat, nat)>
    requires k <= |SUBBLOCKS|
  {
    if k == 0 then []
    else Suitable(bh, bw, k - 1) + (if Suits(SUBBLOCKS[k - 1], bh, bw) then [SUBBLOCKS[k - 1]] else [])
  }

  lemma {:induction false} SuitableGrows(bh: nat, bw: nat, k: nat, l: nat)
    requires k <= l <= |SUBBLOCKS|
    ensures Suitable(bh, bw, k) <= Suitable(bh, bw, l)
  {
    if k < l {
      SuitableGrows(bh, bw, k, l - 1);
    }
  }

  lemma SuitableNone(bh: nat, bw: nat)
    ensures Suitable(bh, bw, 0) == []
  {
  }

  lemma StepSuitable(bh: nat, bw: nat, k: nat)
    requires k < |SUBBLOCKS| && 0 < SUBBLOCKS[k].0 && 0 < SUBBLOCKS[k].1
    ensures Suitable(bh, bw, 0) == []
    ensures bh % SUBBLOCKS[k].0 == 0 && bw % SUBBLOCKS[k].1 == 0 <==> Suits(SUBBLOCKS[k], bh, bw)
    ensures Suitable(bh, bw, k + 1) == Suitable(bh, bw, k) + if Suits(SUBBLOCKS[k], bh, bw) then [SUBBLOCKS[k]] else []
  {
  }

  ghost function Elements<T>(s: seq<T>): set<T> { set x | x in s }

  // The suitable entries before k are distinct, and are what the table says.
  lemma {:induction false} SuitableElements(bh: nat, bw: nat, k: nat)
    requires k <= |SUBBLOCKS|
    ensures |Elements(Suitable(bh, bw, k))| == |Suitable(bh, bw, k)|
    ensures forall p :: p in Suitable(bh, bw, k) ==> exists j: nat :: j < k && SUBBLOCKS[j] == p && Suits(p, bh, bw)
    ensures forall j: nat :: j < k && Suits(SUBBLOCKS[j], bh, bw) ==> SUBBLOCKS[j] in Suitable(bh, bw, k)
  {
    hide *;
    if k == 0 {
      SuitableNone(bh, bw);
      NoElements<(nat, nat)>();
    } else {
      SuitableElements(bh, bw, k - 1);
      TableFits(k - 1);
      StepSuitable(bh, bw, k - 1);
      var p := SUBBLOCKS[k - 1];
      if p in Suitable(bh, bw, k - 1) {
        var j: nat :| j < k - 1 && SUBBLOCKS[j] == p && Suits(p, bh, bw);
        TableOrder(j, k - 1);
        assert false;
      }
      OneMoreElement(Suitable(bh, bw, k - 1), p);
      assert Suitable(bh, bw, k - 1) + [] == Suitable(bh, bw, k - 1);
    }
  }

  lemma NoElements<T>()
    ensures |Elements<T>([])| == 0
  {
  }

  lemma OneMoreElement<T>(s: seq<T>, p: T)
    requires p !in s
    ensures |Elements(s + [p])| == |Elements(s)| + 1
  {
    assert Elements(s + [p]) == Elements(s) + {p};
  }

  lemma EligibleInTable(p: (nat, nat), bh: nat, bw: nat) returns (k: nat)
    requires Eligible(p, bh, bw)
    ensures k < |SUBBLOCKS| && SUBBLOCKS[k] == p && p in EligiblePairs(bh, bw)
  {
    k := TableComplete(p.0, p.1);
    TableFits(k);
    assert p == (p.0, p.1);
  }

  lemma TableEligible(k: nat, bh: nat, bw: nat)
    requires k < |SUBBLOCKS|
    ensures Suits(SUBBLOCKS[k], bh, bw) ==> Eligible(SUBBLOCKS[k], bh, bw) && SUBBLOCKS[k] in EligiblePairs(bh, bw)
  {
    TableFits(k);
    hide Suits;
    assert SUBBLOCKS[k] == (SUBBLOCKS[k].0, SUBBLOCKS[k].1);
  }

  lemma InEligible(p: (nat, nat), bh: nat, bw: nat)
    ensures p in EligiblePairs(bh, bw) ==> Eligible(p, bh, bw)
  {
  }

  // All eligible shapes are listed; those listed before entry k are those ahead of it.
  lemma AllListed(bh: nat, bw: nat)
    ensures EligiblePairs(bh, bw) == Elements(Suitable(bh, bw, |SUBBLOCKS|))
  {
    hide Suits, Eligible, EligiblePairs, Suitable;
    SuitableElements(bh, bw, |SUBBLOCKS|);
    forall p
      ensures p in EligiblePairs(bh, bw) <==> p in Suitable(bh, bw, |SUBBLOCKS|)
    {
      InEligible(p, bh, bw);
      if Eligible(p, bh, bw) {
        var k := EligibleInTable(p, bh, bw);
        EligibleSuits(p, bh, bw);
      }
      if p in Suitable(bh, bw, |SUBBLOCKS|) {
        var j: nat :| j < |SUBBLOCKS| && SUBBLOCKS[j] == p && Suits(p, bh, bw);
        TableEligible(j, bh, bw);
      }
    }
  }

  lemma EligibleSuits(p: (nat, nat), bh: nat, bw: nat)
    requires Eligible(p, bh, bw)
    ensures Suits(p, bh, bw)
  {
  }

  lemma ListedBefore(bh: nat, bw: nat, k: nat)
    requires k < |SUBBLOCKS|
    ensures PairsAheadOf(SUBBLOCKS[k], bh, bw) == Elements(Suitable(bh, bw, k))
  {
    hide Suits, Eligible, EligiblePairs, Suitable, Ahead;
    SuitableElements(bh, bw, k);
    forall p
      ensures p in PairsAheadOf(SUBBLOCKS[k], bh, bw) <==> p in Suitable(bh, bw, k)
    {
      InEligible(p, bh, bw);
      if p in PairsAheadOf(SUBBLOCKS[k], bh, bw) {
        var j := EligibleInTable(p, bh, bw);
        EligibleSuits(p, bh, bw);
        TableFits(k);
        if k < j {
          TableOrder(k, j);
          assert false;
        }
      }
      if p in Suitable(bh, bw, k) {
        var j: nat :| j < k && SUBBLOCKS[j] == p && Suits(p, bh, bw);
        TableEligible(j, bh, bw);
        TableOrder(j, k);
      }
    }
  }

  lemma NothingAhead(bh: nat, bw: nat, k: nat)
    requires k < |SUBBLOCKS| && Eligible(SUBBLOCKS[k], bh, bw) && |Suitable(bh, bw, k)| == 0
    ensures FirstChoice(SUBBLOCKS[k], bh, bw)
  {
    hide Suits, Eligible, EligiblePairs, Suitable;
    SuitableElements(bh, bw, k);
    forall h: nat, w: nat | Eligible((h, w), bh, bw)
      ensures (h, w) == SUBBLOCKS[k] || Ahead(SUBBLOCKS[k], (h, w))
    {
      var j := EligibleInTable((h, w), bh, bw);
      EligibleSuits((h, w), bh, bw);
      if k < j {
        TableOrder(k, j);
      }
    }
  }

  // ---------- the search ----------

  // Lines 1193 to 1205.
  method OutSubblockParams(bh: nat, bw: nat, choice: nat) returns (r: (nat, nat))
    ensures Chosen(r, bh, bw, choice)
    ensures Eligible(r, bh, bw)
    ensures choice == 0 ==> FirstChoice(r, bh, bw)
  {
    hide *;
    TableSize();
    SuitableNone(bh, bw);
    AllListed(bh, bw);
    SuitableElements(bh, bw, |SUBBLOCKS|);
    var index := 0;
    for k := 0 to |SUBBLOCKS|
      invariant index == |Suitable(bh, bw, k)| <= choice
    {
      var h, w := SUBBLOCKS[k].0, SUBBLOCKS[k].1;
      TableFits(k);
      StepSuitable(bh, bw, k);
      TableEligible(k, bh, bw);
      if bh % h == 0 && bw % w == 0 {
        if index >= choice {
          r := (h, w);
          assert r == SUBBLOCKS[k];
          SuitableGrows(bh, bw, k + 1, |SUBBLOCKS|);
          SuitableElements(bh, bw, k);
          ListedBefore(bh, bw, k);
          if choice == 0 {
            NothingAhead(bh, bw, k);
          }
          ChosenAt(r, bh, bw, choice);
          return;
        }
        index := index + 1;
      }
    }
    LastResort(bh, bw);
    r := (1, 1);
    TooFew(r, bh, bw, choice);
  }

  lemma TableSize()
    ensures |SUBBLOCKS| == 20
  {
  }

  lemma ChosenAt(r: (nat, nat), bh: nat, bw: nat, choice: nat)
    requires choice < |EligiblePairs(bh, bw)| && Eligible(r, bh, bw) && |PairsAheadOf(r, bh, bw)| == choice
    ensures Chosen(r, bh, bw, choice)
  {
    hide Eligible, EligiblePairs, PairsAheadOf;
  }

  lemma TooFew(r: (nat, nat), bh: nat, bw: nat, choice: nat)
    requires choice >= |EligiblePairs(bh, bw)| && r == (1, 1)
    ensures Chosen(r, bh, bw, choice)
  {
    hide Eligible, EligiblePairs, PairsAheadOf;
  }

  lemma LastResort(bh: nat, bw: nat)
    ensures Eligible((1, 1), bh, bw) && 0 < |Suitable(bh, bw, |SUBBLOCKS|)|
  {
    assert SUBBLOCKS[19] == (1, 1);
  }
}
