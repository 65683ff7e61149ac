// The host's block-size searches, in uint32_t arithmetic.
// Line numbers refer to test_full_charac.cpp.
module Searches {
  import opened Arith
  import Layout

  // uint32_t: every sum, product and difference is taken modulo 2^32.
  const TWO32 := 0x1_0000_0000

  function U32(x: int): nat { x % TWO32 }

  lemma U32Sum(a: int, b: int, c: int, d: int)
    ensures U32(U32(a) + U32(b) + U32(c) + U32(d)) == U32(a + b + c + d)
  {
  }

  lemma U32Sum5(a: int, b: int, c: int, d: int, e: int)
    ensures U32(U32(a) + U32(b) + U32(c) + U32(d) + U32(e)) == U32(a + b + c + d + e)
  {
  }

  lemma U32Small(x: int)
    requires 0 <= x < TWO32
    ensures U32(x) == x
  {
  }

  predicate Divides(d: nat, x: nat) { 0 < d && x % d == 0 }

  // ---------- alignment to tiles ----------

  // Rows or columns in tiles: round up to a multiple of 32, then divide.
  function AlignedTiles(value: nat): nat {
    U32((U32(value + (Layout.TILE - 1)) / Layout.TILE) * Layout.TILE) / Layout.TILE
  }

  // The tiles cover the dimension, and no tile is wholly padding, exactly when rounding up
  // does not wrap around.
  lemma AlignmentCovers(value: nat)
    requires 0 < value < TWO32
    ensures value <= TWO32 - Layout.TILE
       <==> AlignedTiles(value) * Layout.TILE >= value && (AlignedTiles(value) - 1) * Layout.TILE < value
  {
    var q := U32(value + (Layout.TILE - 1)) / Layout.TILE;
    assert 0 <= q * Layout.TILE < TWO32;
    U32Small(q * Layout.TILE);
  }

  // Beyond that, for instance at the largest uint32_t, nothing is left.
  lemma AlignmentCanWrap()
    ensures AlignedTiles(0xFFFF_FFFF) == 0
  {
    assert U32(0xFFFF_FFFF + (Layout.TILE - 1)) == 30;
  }

  // ---------- footprint of the DRAM-mode circular buffers ----------

  // A region of a * b tiles of ts bytes each.
  function Bytes(a: nat, b: nat, ts: nat): nat { a * b * ts }

  lemma BytesMono(a: nat, b: nat, a': nat, b': nat, ts: nat)
    requires a <= a' && b <= b'
    ensures Bytes(a, b, ts) <= Bytes(a', b', ts)
  {
    MulMono(a, a', b);
    MulMono(b, b', a');
    MulMono(a * b, a' * b', ts);
  }

  // The products as the source writes them.
  lemma BytesAre(a: nat, b: nat, ts: nat)
    ensures a * b * 2 * ts == 2 * Bytes(a, b, ts) && (a * b * 2) * ts == 2 * Bytes(a, b, ts)
    ensures a * b * ts == Bytes(a, b, ts)
  {
  }

  // A block choice: output block height and width, K block width.
  datatype Blocks = Blocks(bh: nat, bw: nat, kw: nat)
  {
    // Bytes of CB0 and CB1 (double buffered), the output block, and two zero tiles.
    function Footprint(ts: nat): nat {
      2 * Bytes(bh, kw, ts) + 2 * Bytes(bw, kw, ts) + Bytes(bh, bw, ts) + 2 * ts
    }

    predicate Candidate(mt: nat, nt: nat, kt: nat) {
      && Divides(bh, mt) && bh <= mt && Divides(bw, nt) && bw <= nt
      && (kw == 4 || kw == 2 || kw == 1) && kt % kw == 0
    }

    predicate Above(other: Blocks) {
      bh > other.bh || (bh == other.bh && (bw > other.bw || (bw == other.bw && kw > other.kw)))
    }
  }

  // The check the search makes, wrap-around included.
  predicate Fits(c: Blocks, ts: nat, l1: nat, base: nat) {
    U32(c.Footprint(ts)) <= U32(l1 - base)
  }

  // The bytes that the program really asks for: CB0, CB1, CB2, and the one region that CB16
  // and CB24 share.
  function CreatedBytes(c: Blocks, ts: nat): nat {
    var in0Tiles, in1Tiles := c.bh * c.kw * 2, c.bw * c.kw * 2;
    in0Tiles * ts + in1Tiles * ts + 2 * ts + c.bh * c.bw * ts
  }

  lemma CreatedIsFootprint(c: Blocks, ts: nat)
    ensures CreatedBytes(c, ts) == c.Footprint(ts)
  {
    BytesAre(c.bh, c.kw, ts);
    BytesAre(c.bw, c.kw, ts);
    BytesAre(c.bh, c.bw, ts);
  }

  // A quotient of the per-core size: the h_div-th largest divisor.
  lemma CoDivisor(mt: nat, h: nat)
    requires Divides(h, mt) && 0 < mt
    ensures h <= mt && 1 <= mt / h <= mt && Divides(mt / h, mt) && mt / (mt / h) == h
  {
    var q := mt / h;
    assert mt == q * h;
    if q == 0 {
      assert false;
    }
    QuotientUnique(mt, q, h, 0);
    MulMono(1, q, h);
    MulMono(1, h, q);
  }

  lemma LargerDivisorSmallerQuotient(mt: nat, h: nat, h': nat)
    requires Divides(h, mt) && Divides(h', mt) && 0 < mt && h < h'
    ensures mt / h > mt / h'
  {
    CoDivisor(mt, h);
    CoDivisor(mt, h');
    var q, q' := mt / h, mt / h';
    assert mt == q * h && mt == q' * h';
    if q <= q' {
      MulMono(h, h', q);
      MulMono(q, q', h');
      assert h' * q == h * q + (h' - h) * q;
      Positive(h' - h, q);
    }
  }

  // The list of pairs, largest block first.
  predicate Descending(ds: seq<(nat, nat)>) {
    forall i, j | 0 <= i < j < |ds| :: ds[i].0 > ds[j].0 || (ds[i].0 == ds[j].0 && ds[i].1 > ds[j].1)
  }

  predicate AllPairs(ds: seq<(nat, nat)>, mt: nat, nt: nat) {
    forall i | 0 <= i < |ds| ::
      Divides(ds[i].0, mt) && ds[i].0 <= mt && Divides(ds[i].1, nt) && ds[i].1 <= nt
  }

  predicate Listed(ds: seq<(nat, nat)>, mt: nat, nt: nat, h: nat, w: nat) {
    Divides(h, mt) && Divides(w, nt) ==> (mt / h, nt / w) in ds
  }

  // Lines 815 to 819: the pairs of one h_div.
  method PairsOfHeight(mt: nat, nt: nat, hDiv: nat, ds0: seq<(nat, nat)>) returns (ds: seq<(nat, nat)>)
    requires Divides(hDiv, mt) && 0 < mt && AllPairs(ds0, mt, nt) && Descending(ds0)
    requires forall i | 0 <= i < |ds0| :: ds0[i].0 > mt / hDiv
    ensures ds0 <= ds && AllPairs(ds, mt, nt) && Descending(ds)
    ensures forall i | |ds0| <= i < |ds| :: ds[i].0 == mt / hDiv
    ensures forall w: nat :: 0 < w <= nt ==> Listed(ds, mt, nt, hDiv, w)
  {
    PositiveDivides(hDiv, mt);
    CoDivisor(mt, hDiv);
    hide Divides, Larger, Listed, AllPairs, Descending;
    ds := ds0;
    var wDiv := 1;
    while wDiv <= nt
      invariant 1 <= wDiv <= nt + 1
      invariant ds0 <= ds && AllPairs(ds, mt, nt) && Descending(ds)
      invariant forall i | |ds0| <= i < |ds| :: ds[i].0 == mt / hDiv && Larger(ds[i].1, nt, wDiv)
      invariant forall w: nat :: 0 < w < wDiv ==> Listed(ds, mt, nt, hDiv, w)
    {
      DividesIf(wDiv, nt);
      if nt % wDiv == 0 {
        CoDivisor(nt, wDiv);
        LargerNow(nt, wDiv);
        AppendPair(ds0, ds, mt, nt, mt / hDiv, nt / wDiv);
        ListedStays(ds, mt, nt, hDiv, wDiv);
        ds := ds + [(mt / hDiv, nt / wDiv)];
      } else {
        NotListed(ds, mt, nt, hDiv, wDiv);
      }
      LargerNext(nt, wDiv);
      wDiv := wDiv + 1;
    }
  }

  lemma AppendPair(ds0: seq<(nat, nat)>, ds: seq<(nat, nat)>, mt: nat, nt: nat, bh: nat, bw: nat)
    requires ds0 <= ds && AllPairs(ds, mt, nt) && Descending(ds)
    requires Divides(bh, mt) && bh <= mt && Divides(bw, nt) && bw <= nt
    requires forall i | 0 <= i < |ds0| :: ds0[i].0 > bh
    requires forall i | |ds0| <= i < |ds| :: ds[i].0 == bh && ds[i].1 > bw
    ensures AllPairs(ds + [(bh, bw)], mt, nt) && Descending(ds + [(bh, bw)])
  {
    hide Divides;
    assert forall i | 0 <= i < |ds0| :: ds0[i] == ds[i];
  }

  lemma ListedStays(ds: seq<(nat, nat)>, mt: nat, nt: nat, h: nat, w': nat)
    requires Divides(h, mt) && Divides(w', nt)
    ensures forall w: nat :: Listed(ds, mt, nt, h, w) ==> Listed(ds + [(mt / h, nt / w')], mt, nt, h, w)
    ensures Listed(ds + [(mt / h, nt / w')], mt, nt, h, w')
  {
  }

  lemma NotListed(ds: seq<(nat, nat)>, mt: nat, nt: nat, h: nat, w: nat)
    requires !Divides(w, nt)
    ensures Listed(ds, mt, nt, h, w)
  {
  }

  lemma PositiveDivides(d: nat, x: nat)
    requires Divides(d, x)
    ensures 0 < d
  {
  }

  // Lines 812 to 820.
  method DivisorPairs(mt: nat, nt: nat) returns (ds: seq<(nat, nat)>)
    ensures AllPairs(ds, mt, nt) && Descending(ds)
    ensures Complete(ds, mt, nt)
  {
    hide Divides, Larger;
    ds := [];
    var hDiv := 1;
    while hDiv <= mt
      invariant 1 <= hDiv <= mt + 1
      invariant AllPairs(ds, mt, nt) && Descending(ds)
      invariant forall i | 0 <= i < |ds| :: Larger(ds[i].0, mt, hDiv)
      invariant forall h: nat, w: nat :: 0 < h < hDiv && 0 < w <= nt ==> Listed(ds, mt, nt, h, w)
    {
      DividesIf(hDiv, mt);
      if mt % hDiv == 0 {
        LargerNow(mt, hDiv);
        ghost var ds0 := ds;
        ds := PairsOfHeight(mt, nt, hDiv, ds);
        forall h: nat, w: nat | 0 < h < hDiv && 0 < w <= nt
          ensures Listed(ds, mt, nt, h, w)
        {
          assert Listed(ds0, mt, nt, h, w);
        }
      }
      LargerNext(mt, hDiv);
      hDiv := hDiv + 1;
    }
    AllListed(ds, mt, nt);
  }

  ghost predicate Complete(ds: seq<(nat, nat)>, mt: nat, nt: nat) {
    forall bh: nat, bw: nat :: Divides(bh, mt) && bh <= mt && Divides(bw, nt) && bw <= nt ==> (bh, bw) in ds
  }

  lemma AllListed(ds: seq<(nat, nat)>, mt: nat, nt: nat)
    requires forall h: nat, w: nat :: 0 < h <= mt && 0 < w <= nt ==> Listed(ds, mt, nt, h, w)
    ensures Complete(ds, mt, nt)
  {
    forall bh: nat, bw: nat | Divides(bh, mt) && bh <= mt && Divides(bw, nt) && bw <= nt
      ensures (bh, bw) in ds
    {
      CoDivisor(mt, bh);
      CoDivisor(nt, bw);
      CoDivisor(mt, mt / bh);
      CoDivisor(nt, nt / bw);
      assert Listed(ds, mt, nt, mt / bh, nt / bw);
    }
  }

  lemma DividesIf(d: nat, x: nat)
    requires 0 < d
    ensures Divides(d, x) <==> x % d == 0
  {
  }

  // q is the quotient of x by some divisor smaller than h.
  ghost predicate Larger(q: nat, x: nat, h: nat) {
    exists d: nat :: d < h && IsQuotient(q, x, d)
  }

  predicate IsQuotient(q: nat, x: nat, d: nat) { Divides(d, x) && q == x / d }

  lemma LargerNow(x: nat, h: nat)
    requires Divides(h, x) && 0 < x
    ensures forall q: nat :: Larger(q, x, h) ==> q > x / h
    ensures Larger(x / h, x, h + 1)
  {
    CoDivisor(x, h);
    assert IsQuotient(x / h, x, h);
    forall q: nat | Larger(q, x, h)
      ensures q > x / h
    {
      var d: nat :| d < h && IsQuotient(q, x, d);
      LargerDivisorSmallerQuotient(x, d, h);
    }
  }

  lemma LargerNext(x: nat, h: nat)
    ensures forall q: nat :: Larger(q, x, h) ==> Larger(q, x, h + 1)
  {
    hide IsQuotient;
  }

  // ---------- the search ----------

  // What the search promises.
  ghost predicate BestBlocks(r: Blocks, mt: nat, nt: nat, kt: nat, ts: nat, l1: nat, base: nat) {
    if NothingFits(mt, nt, kt, ts, l1, base)
    then r == Blocks(mt, nt, 0)
    else && r.Candidate(mt, nt, kt) && Fits(r, ts, l1, base)
         && forall c: Blocks :: c.Candidate(mt, nt, kt) && Fits(c, ts, l1, base) ==> c == r || r.Above(c)
  }

  ghost predicate NothingFits(mt: nat, nt: nat, kt: nat, ts: nat, l1: nat, base: nat) {
    forall c: Blocks :: c.Candidate(mt, nt, kt) ==> !Fits(c, ts, l1, base)
  }

  const WIDTHS: seq<nat> := [4, 2, 1]

  // The K block widths tried are the common divisors of 4 and the number of K tiles.
  lemma WidthsAreCommonDivisors(kw: nat, kt: nat)
    ensures (kw == 4 || kw == 2 || kw == 1) && kt % kw == 0 <==> Divides(kw, 4) && Divides(kw, kt)
  {
    if kw > 4 {
      QuotientUnique(4, kw, 0, 4);
    }
  }

  // The lexicographically largest fitting triple; width 0 when there is none.
  method DynamicL1BlockParams(mt: nat, nt: nat, kt: nat, ts: nat, l1: nat, base: nat) returns (r: Blocks)
    ensures BestBlocks(r, mt, nt, kt, ts, l1, base)
  {
    var maxL1Usage := U32(l1 - base);
    var ds := DivisorPairs(mt, nt);
    for i := 0 to |ds|
      invariant forall c: Blocks, j | 0 <= j < i && c.Candidate(mt, nt, kt) && (c.bh, c.bw) == ds[j] :: !Fits(c, ts, l1, base)
    {
      var bh, bw := ds[i].0, ds[i].1;
      for k := 0 to |WIDTHS|
        invariant forall j | 0 <= j < k && kt % WIDTHS[j] == 0 :: !Fits(Blocks(bh, bw, WIDTHS[j]), ts, l1, base)
      {
        var kw := WIDTHS[k];
        if kt % kw == 0 {
          var cbIn0 := U32(bh * kw * 2 * ts);
          var cbIn1 := U32(bw * kw * 2 * ts);
          var cbInterm := U32(bh * bw * ts);
          var cbIn2 := U32(2 * ts);
          var totalCb := U32(cbIn0 + cbIn1 + cbInterm + cbIn2);
          BytesAre(bh, kw, ts);
          BytesAre(bw, kw, ts);
          BytesAre(bh, bw, ts);
          U32Sum(2 * Bytes(bh, kw, ts), 2 * Bytes(bw, kw, ts), Bytes(bh, bw, ts), 2 * ts);
          if totalCb <= maxL1Usage {
            r := Blocks(bh, bw, kw);
            FirstIsBest(ds, i, k, r, mt, nt, kt, ts, l1, base);
            return;
          }
        }
      }
      NoneHere(bh, bw, kt, ts, l1, base);
    }
    assert NothingFits(mt, nt, kt, ts, l1, base);
    r := Blocks(mt, nt, 0);
  }

  lemma NoneHere(bh: nat, bw: nat, kt: nat, ts: nat, l1: nat, base: nat)
    requires forall j | 0 <= j < |WIDTHS| && kt % WIDTHS[j] == 0 :: !Fits(Blocks(bh, bw, WIDTHS[j]), ts, l1, base)
    ensures forall kw: nat :: (kw == 4 || kw == 2 || kw == 1) && kt % kw == 0 ==> !Fits(Blocks(bh, bw, kw), ts, l1, base)
  {
    hide Fits;
    assert WIDTHS[0] == 4 && WIDTHS[1] == 2 && WIDTHS[2] == 1;
  }

  lemma FirstIsBest(ds: seq<(nat, nat)>, i: nat, k: nat, r: Blocks, mt: nat, nt: nat, kt: nat, ts: nat, l1: nat, base: nat)
    requires AllPairs(ds, mt, nt) && Descending(ds) && i < |ds| && k < |WIDTHS|
    requires Complete(ds, mt, nt)
    requires r == Blocks(ds[i].0, ds[i].1, WIDTHS[k]) && kt % WIDTHS[k] == 0 && Fits(r, ts, l1, base)
    requires forall c: Blocks, j | 0 <= j < i && c.Candidate(mt, nt, kt) && (c.bh, c.bw) == ds[j] :: !Fits(c, ts, l1, base)
    requires forall j | 0 <= j < k && kt % WIDTHS[j] == 0 :: !Fits(Blocks(ds[i].0, ds[i].1, WIDTHS[j]), ts, l1, base)
    ensures BestBlocks(r, mt, nt, kt, ts, l1, base)
  {
    hide Fits, Divides;
    assert r.Candidate(mt, nt, kt);
    forall c: Blocks | c.Candidate(mt, nt, kt) && Fits(c, ts, l1, base)
      ensures c == r || r.Above(c)
    {
      assert (c.bh, c.bw) in ds;
      var j :| 0 <= j < |ds| && ds[j] == (c.bh, c.bw);
      if j == i {
        WidthOrder(c, k, i, ds, kt, ts, l1, base);
      }
    }
  }

  lemma WidthOrder(c: Blocks, k: nat, i: nat, ds: seq<(nat, nat)>, kt: nat, ts: nat, l1: nat, base: nat)
    requires i < |ds| && ds[i] == (c.bh, c.bw) && k < |WIDTHS|
    requires (c.kw == 4 || c.kw == 2 || c.kw == 1) && kt % c.kw == 0 && Fits(c, ts, l1, base)
    requires forall j | 0 <= j < k && kt % WIDTHS[j] == 0 :: !Fits(Blocks(ds[i].0, ds[i].1, WIDTHS[j]), ts, l1, base)
    ensures c.kw <= WIDTHS[k]
  {
    hide Fits;
    var j := if c.kw == 4 then 0 else if c.kw == 2 then 1 else 2;
    assert WIDTHS[j] == c.kw && c == Blocks(ds[i].0, ds[i].1, WIDTHS[j]);
  }

  // ---------- what the result means in bytes ----------

  // No candidate is larger than the whole core with the widest K block, so if that does not
  // wrap around, no check does.
  lemma FootprintMono(c: Blocks, d: Blocks, ts: nat)
    requires c.bh <= d.bh && c.bw <= d.bw && c.kw <= d.kw
    ensures c.Footprint(ts) <= d.Footprint(ts)
  {
    hide Bytes;
    BytesMono(c.bh, c.kw, d.bh, d.kw, ts);
    BytesMono(c.bw, c.kw, d.bw, d.kw, ts);
    BytesMono(c.bh, c.bw, d.bh, d.bw, ts);
  }

  // Without wrap-around: the blocks fit the budget in bytes, they are the largest that do, and
  // the search gives up exactly when seven tiles do not fit.
  lemma BlocksInBytes(r: Blocks, mt: nat, nt: nat, kt: nat, ts: nat, l1: nat, base: nat)
    requires BestBlocks(r, mt, nt, kt, ts, l1, base)
    requires 0 < mt && 0 < nt && base <= l1 < TWO32
    requires Blocks(mt, nt, 4).Footprint(ts) < TWO32
    ensures r.kw == 0 <==> 7 * ts > l1 - base
    ensures r.kw > 0 ==> r.Candidate(mt, nt, kt) && CreatedBytes(r, ts) <= l1 - base
    ensures forall c: Blocks :: c.Candidate(mt, nt, kt) && CreatedBytes(c, ts) <= l1 - base ==> c == r || r.Above(c)
  {
    hide Blocks.Footprint, CreatedBytes, Blocks.Candidate;
    forall c: Blocks | c.Candidate(mt, nt, kt)
      ensures Fits(c, ts, l1, base) <==> CreatedBytes(c, ts) <= l1 - base
      ensures CreatedBytes(c, ts) >= 7 * ts
    {
      SizeOfCandidate(c, mt, nt, kt, ts);
    }
    U32Small(l1 - base);
    UnitCandidate(mt, nt, kt, ts);
    WidthPositive(r, mt, nt, kt);
    assert Fits(Blocks(1, 1, 1), ts, l1, base) <==> CreatedBytes(Blocks(1, 1, 1), ts) <= l1 - base;
  }

  // In bytes, not modulo 2^32.
  predicate FitsInBytes(c: Blocks, ts: nat, l1: nat, base: nat) { CreatedBytes(c, ts) <= l1 - base }

  // What the search is for: the largest blocks whose buffers fit in bytes, width 0 if none do.
  ghost predicate BestInBytes(r: Blocks, mt: nat, nt: nat, kt: nat, ts: nat, l1: nat, base: nat) {
    if forall c: Blocks :: c.Candidate(mt, nt, kt) ==> !FitsInBytes(c, ts, l1, base)
    then r == Blocks(mt, nt, 0)
    else && r.Candidate(mt, nt, kt) && FitsInBytes(r, ts, l1, base)
         && forall c: Blocks :: c.Candidate(mt, nt, kt) && FitsInBytes(c, ts, l1, base) ==> c == r || r.Above(c)
  }

  // The wrapped check accepts no oversized choice, or only ones that come after a good one.
  ghost predicate WrapHarmless(mt: nat, nt: nat, kt: nat, ts: nat, l1: nat, base: nat) {
    forall c: Blocks :: c.Candidate(mt, nt, kt) && Fits(c, ts, l1, base) && CreatedBytes(c, ts) >= TWO32 ==>
      exists d: Blocks :: d.Candidate(mt, nt, kt) && FitsInBytes(d, ts, l1, base) && d.Above(c)
  }

  // The search delivers that, for all inputs, exactly when wrap-around is harmless.
  lemma SearchRightExactlyWhen(r: Blocks, mt: nat, nt: nat, kt: nat, ts: nat, l1: nat, base: nat)
    requires BestBlocks(r, mt, nt, kt, ts, l1, base) && base <= l1 < TWO32
    ensures BestInBytes(r, mt, nt, kt, ts, l1, base) <==> WrapHarmless(mt, nt, kt, ts, l1, base)
    ensures !NothingFits(mt, nt, kt, ts, l1, base) ==>
              (FitsInBytes(r, ts, l1, base) <==> WrapHarmless(mt, nt, kt, ts, l1, base))
    ensures r.kw == 0 ==> forall c: Blocks :: c.Candidate(mt, nt, kt) ==> !FitsInBytes(c, ts, l1, base)
  {
    hide Fits, CreatedBytes, Divides;
    forall c: Blocks
      ensures FitsInBytes(c, ts, l1, base) <==> Fits(c, ts, l1, base) && CreatedBytes(c, ts) < TWO32
    {
      AcceptedFitsUnlessWrapped(c, ts, l1, base);
    }
    hide FitsInBytes;
  }

  // Fitting in bytes is passing the check without wrapping.
  lemma AcceptedFitsUnlessWrapped(c: Blocks, ts: nat, l1: nat, base: nat)
    requires base <= l1 < TWO32
    ensures FitsInBytes(c, ts, l1, base) <==> Fits(c, ts, l1, base) && CreatedBytes(c, ts) < TWO32
  {
    hide Blocks.Footprint, CreatedBytes;
    CreatedIsFootprint(c, ts);
    U32Small(l1 - base);
    if c.Footprint(ts) < TWO32 {
      U32Small(c.Footprint(ts));
    }
  }

  lemma SizeOfCandidate(c: Blocks, mt: nat, nt: nat, kt: nat, ts: nat)
    requires c.Candidate(mt, nt, kt) && Blocks(mt, nt, 4).Footprint(ts) < TWO32
    ensures CreatedBytes(c, ts) == c.Footprint(ts) && 7 * ts <= c.Footprint(ts) < TWO32
  {
    FootprintMono(c, Blocks(mt, nt, 4), ts);
    FootprintMono(Blocks(1, 1, 1), c, ts);
    CreatedIsFootprint(c, ts);
    assert Blocks(1, 1, 1).Footprint(ts) == 7 * ts;
  }

  lemma WidthPositive(r: Blocks, mt: nat, nt: nat, kt: nat)
    ensures r.Candidate(mt, nt, kt) ==> r.kw > 0
  {
  }

  lemma UnitCandidate(mt: nat, nt: nat, kt: nat, ts: nat)
    requires 0 < mt && 0 < nt
    ensures Blocks(1, 1, 1).Candidate(mt, nt, kt) && CreatedBytes(Blocks(1, 1, 1), ts) == 7 * ts
  {
  }

  // With wrap-around the search can pick blocks that are far too large: here the whole core
  // needs more than 2^32 bytes, of which the check sees 8192.
  lemma WrapAroundMisleads(r: Blocks)
    requires BestBlocks(r, 0x10000, 0x10000, 4, 4096, 0x100000, 0)
    ensures r == Blocks(0x10000, 0x10000, 4) && CreatedBytes(r, 4096) > 0x100000
  {
    hide Fits, Blocks.Footprint, CreatedBytes, Bytes, Divides;
    WrappedExample();
    var c := Blocks(0x10000, 0x10000, 4);
    assert !NothingFits(0x10000, 0x10000, 4, 4096, 0x100000, 0);
    assert c == r || r.Above(c);
    CandidateBelow(r, 0x10000, 0x10000, 4);
  }

  lemma WrappedExample()
    ensures var c := Blocks(0x10000, 0x10000, 4);
            && c.Candidate(0x10000, 0x10000, 4) && Fits(c, 4096, 0x100000, 0)
            && CreatedBytes(c, 4096) == 0x1001_0000_2000
  {
    var c := Blocks(0x10000, 0x10000, 4);
    CreatedIsFootprint(c, 4096);
    ExampleBytes();
    hide Bytes, CreatedBytes;
  }

  lemma ExampleBytes()
    ensures Bytes(0x10000, 4, 4096) == 0x4000_0000
    ensures Bytes(0x10000, 0x10000, 4096) == 0x1000_0000_0000
  {
  }

  lemma CandidateBelow(r: Blocks, mt: nat, nt: nat, kt: nat)
    requires r.Candidate(mt, nt, kt)
    ensures r.bh <= mt && r.bw <= nt && r.kw <= 4
  {
  }
}
