// The K block width of L1 mode, and the addresses of a core's buffers in L1; both also have a
// DRAM mode, where the tensors take no room. Line numbers refer to test_full_charac.cpp.
module L1Map {
  import opened Searches

  // ---------- the search ----------

  // The bytes the check adds up: the circular buffers, with separate output and intermediate
  // regions, and, unless the tensors are in DRAM, the core's tensors.
  function NeededL1(mt: nat, nt: nat, kw: nat, ts: nat, useDram: bool): nat {
    2 * Bytes(mt, kw, ts) + 2 * Bytes(nt, kw, ts) + 2 * ts + Bytes(mt, nt, ts) + Bytes(mt, nt, ts)
    + (if useDram then 0 else Bytes(mt, kw, ts) + Bytes(nt, kw, ts) + Bytes(mt, nt, ts))
  }

  predicate FitsL1(mt: nat, nt: nat, kw: nat, ts: nat, l1: nat, base: nat, useDram: bool) {
    U32(base + NeededL1(mt, nt, kw, ts, useDram)) <= l1
  }

  predicate WidthChoice(kw: nat, kt: nat) { (kw == 4 || kw == 2 || kw == 1) && kt % kw == 0 }

  // The largest width that fits, 0 exactly when none does.
  ghost predicate BestWidth(r: nat, mt: nat, nt: nat, kt: nat, ts: nat, l1: nat, base: nat, useDram: bool) {
    && (r == 0 <==> forall kw: nat :: WidthChoice(kw, kt) ==> !FitsL1(mt, nt, kw, ts, l1, base, useDram))
    && (r > 0 ==> WidthChoice(r, kt) && FitsL1(mt, nt, r, ts, l1, base, useDram))
    && (forall kw: nat :: WidthChoice(kw, kt) && FitsL1(mt, nt, kw, ts, l1, base, useDram) ==> kw <= r)
  }

  method In0BlockW(mt: nat, nt: nat, kt: nat, ts: nat, l1: nat, base: nat, useDram: bool) returns (r: nat)
    ensures BestWidth(r, mt, nt, kt, ts, l1, base, useDram)
  {
    hide FitsL1, NeededL1;
    r := 0;
    for k := 0 to |WIDTHS|
      invariant r == 0
      invariant forall j | 0 <= j < k && kt % WIDTHS[j] == 0 :: !FitsL1(mt, nt, WIDTHS[j], ts, l1, base, useDram)
    {
      var choice := WIDTHS[k];
      if kt % choice == 0 {
        var fits := NeededFits(mt, nt, choice, ts, l1, base, useDram);
        if fits {
          r := choice;
          WidthsDone(kt);
          return;
        }
      }
    }
    WidthsDone(kt);
  }

  lemma WidthsDone(kt: nat)
    ensures forall kw: nat :: WidthChoice(kw, kt) ==> kw == WIDTHS[0] || kw == WIDTHS[1] || kw == WIDTHS[2]
    ensures WIDTHS[0] == 4 && WIDTHS[1] == 2 && WIDTHS[2] == 1
  {
  }

  // Lines 764 to 785, with the sizes added up as the source does.
  method NeededFits(mt: nat, nt: nat, choice: nat, ts: nat, l1: nat, base: nat, useDram: bool) returns (fits: bool)
    ensures fits == FitsL1(mt, nt, choice, ts, l1, base, useDram)
  {
    hide Bytes;
    BytesAre(mt, choice, ts);
    BytesAre(nt, choice, ts);
    BytesAre(mt, nt, ts);
    var in0Cb, in1Cb, in2Cb := U32(mt * choice * 2 * ts), U32(nt * choice * 2 * ts), U32(2 * ts);
    var interm, outCb := U32(mt * nt * ts), U32(mt * nt * ts);
    var total := U32(in0Cb + in1Cb + in2Cb + interm + outCb);
    ghost var x, y, z := Bytes(mt, choice, ts), Bytes(nt, choice, ts), Bytes(mt, nt, ts);
    U32Sum5(2 * x, 2 * y, 2 * ts, z, z);
    if !useDram {
      U32Sum(2 * x + 2 * y + 2 * ts + z + z, x, y, z);
      total := U32(total + U32(mt * choice * ts) + U32(nt * choice * ts) + U32(mt * nt * ts));
    }
    U32Once(base, NeededL1(mt, nt, choice, ts, useDram));
    fits := U32(base + total) <= l1;
  }

  lemma U32Once(a: int, b: int)
    ensures U32(a + U32(b)) == U32(a + b)
  {
  }

  // ---------- the address map ----------

  datatype AddressMap = AddressMap(in0Cb: nat, in1Cb: nat, in2Cb: nat, outCb: nat, intermCb: nat, in0: nat, in1: nat, out: nat)

  function BufferAddresses(mt: nat, nt: nat, kw: nat, ts: nat, base: nat, useDram: bool): AddressMap {
    var in1Cb := U32(base + 2 * Bytes(mt, kw, ts));
    var in2Cb := U32(in1Cb + 2 * Bytes(nt, kw, ts));
    var interm := U32(in2Cb + 2 * ts);
    var outCb := U32(interm + Bytes(mt, nt, ts));
    if useDram then AddressMap(base, in1Cb, in2Cb, outCb, interm, 0, 0, 0)
    else
      var in0 := U32(outCb + Bytes(mt, nt, ts));
      var in1 := U32(in0 + Bytes(mt, kw, ts));
      AddressMap(base, in1Cb, in2Cb, outCb, interm, in0, in1, U32(in1 + Bytes(nt, kw, ts)))
  }

  datatype Region = Region(start: nat, size: nat)
  {
    function End(): nat { start + size }

    predicate Separate(other: Region) { End() <= other.start || other.End() <= start }
  }

  // CB0, CB1, the two zero tiles, the intermediate and the output buffer.
  function BufferRegions(m: AddressMap, mt: nat, nt: nat, kw: nat, ts: nat): seq<Region> {
    [Region(m.in0Cb, 2 * Bytes(mt, kw, ts)), Region(m.in1Cb, 2 * Bytes(nt, kw, ts)), Region(m.in2Cb, 2 * ts),
     Region(m.intermCb, Bytes(mt, nt, ts)), Region(m.outCb, Bytes(mt, nt, ts))]
  }

  // The core's parts of A, B and the output.
  function TensorRegions(m: AddressMap, mt: nat, nt: nat, kw: nat, ts: nat): seq<Region> {
    [Region(m.in0, Bytes(mt, kw, ts)), Region(m.in1, Bytes(nt, kw, ts)), Region(m.out, Bytes(mt, nt, ts))]
  }

  // What has to fit into L1, in address order.
  function Regions(mt: nat, nt: nat, kw: nat, ts: nat, base: nat, useDram: bool): seq<Region> {
    var m := BufferAddresses(mt, nt, kw, ts, base, useDram);
    if useDram then BufferRegions(m, mt, nt, kw, ts)
    else BufferRegions(m, mt, nt, kw, ts) + TensorRegions(m, mt, nt, kw, ts)
  }

  // Bytes of the first k regions together.
  function Total(rs: seq<Region>, k: nat): nat
    requires k <= |rs|
  {
    if k == 0 then 0 else Total(rs, k - 1) + rs[k - 1].size
  }

  predicate Contiguous(rs: seq<Region>) {
    forall i | 0 <= i < |rs| - 1 :: rs[i + 1].start == rs[i].End()
  }

  predicate PairwiseSeparate(rs: seq<Region>) {
    forall i, j | 0 <= i < j < |rs| :: rs[i].Separate(rs[j])
  }

  // Every region ends inside L1.
  predicate InsideL1(rs: seq<Region>, l1: nat) {
    forall i | 0 <= i < |rs| :: rs[i].End() <= l1
  }

  lemma {:induction false} ContiguousIsOrdered(rs: seq<Region>, i: nat, j: nat)
    requires Contiguous(rs) && i < j < |rs|
    ensures rs[i].End() <= rs[j].start
  {
    if i + 1 < j {
      ContiguousIsOrdered(rs, i, j - 1);
    }
    assert rs[j - 1 + 1].start == rs[j - 1].End();
  }

  lemma RegionsSeparate(rs: seq<Region>)
    requires Contiguous(rs)
    ensures PairwiseSeparate(rs)
  {
    forall i, j | 0 <= i < j < |rs|
      ensures rs[i].Separate(rs[j])
    {
      ContiguousIsOrdered(rs, i, j);
    }
  }

  // Each region starts where the one before it ends, modulo 2^32.
  predicate Chained(rs: seq<Region>) {
    forall i | 0 < i < |rs| :: rs[i].start == U32(rs[i - 1].End())
  }

  // Regions that end inside L1 have not wrapped around, and the other way round.
  lemma {:induction false} ChainEnds(rs: seq<Region>, l1: nat, k: nat)
    requires Chained(rs) && 0 < k <= |rs| && l1 < TWO32
    ensures InsideL1(rs[..k], l1) <==> rs[0].start + Total(rs, k) <= l1
    ensures InsideL1(rs[..k], l1) ==> rs[k - 1].End() == rs[0].start + Total(rs, k)
  {
    hide U32;
    if k == 1 {
      assert rs[..1][0] == rs[0] && Total(rs, 1) == Total(rs, 0) + rs[0].size;
    } else {
      ChainEnds(rs, l1, k - 1);
      assert rs[..k] == rs[..k - 1] + [rs[k - 1]];
      InsideOneMore(rs[..k - 1], rs[k - 1], l1);
      if InsideL1(rs[..k - 1], l1) {
        U32Small(rs[k - 2].End());
        assert rs[k - 1].start == U32(rs[k - 1 - 1].End());
      }
    }
  }

  lemma InsideOneMore(rs: seq<Region>, r: Region, l1: nat)
    ensures InsideL1(rs + [r], l1) <==> InsideL1(rs, l1) && r.End() <= l1
  {
    if InsideL1(rs + [r], l1) {
      assert forall i | 0 <= i < |rs| :: (rs + [r])[i] == rs[i];
      assert (rs + [r])[|rs|] == r;
    }
  }

  lemma ChainContiguous(rs: seq<Region>)
    requires Chained(rs) && 0 < |rs| && rs[0].start + Total(rs, |rs|) < TWO32
    ensures Contiguous(rs) && rs[|rs| - 1].End() == rs[0].start + Total(rs, |rs|)
  {
    hide U32;
    var end := rs[0].start + Total(rs, |rs|);
    assert rs[..|rs|] == rs;
    ChainEnds(rs, end, |rs|);
    forall i | 0 <= i < |rs| - 1
      ensures rs[i + 1].start == rs[i].End()
    {
      U32Small(rs[i].End());
      assert rs[i + 1].start == U32(rs[i + 1 - 1].End());
    }
  }

  lemma RegionsChained(mt: nat, nt: nat, kw: nat, ts: nat, base: nat, useDram: bool)
    ensures var rs := Regions(mt, nt, kw, ts, base, useDram);
            |rs| == (if useDram then 5 else 8) && rs[0].start == base && Chained(rs)
  {
    hide U32, Bytes;
  }

  lemma RegionsTotal(mt: nat, nt: nat, kw: nat, ts: nat, base: nat, useDram: bool)
    ensures var rs := Regions(mt, nt, kw, ts, base, useDram); Total(rs, |rs|) == NeededL1(mt, nt, kw, ts, useDram)
  {
    hide U32, Bytes;
    var rs := Regions(mt, nt, kw, ts, base, useDram);
    assert Total(rs, 2) == Total(rs, 1) + rs[1].size;
    assert Total(rs, 3) == Total(rs, 2) + rs[2].size;
    assert Total(rs, 4) == Total(rs, 3) + rs[3].size;
    assert Total(rs, 5) == Total(rs, 4) + rs[4].size;
    if !useDram {
      assert Total(rs, 6) == Total(rs, 5) + rs[5].size;
      assert Total(rs, 7) == Total(rs, 6) + rs[6].size;
      assert Total(rs, 8) == Total(rs, 7) + rs[7].size;
    }
  }

  function MapEnd(mt: nat, nt: nat, kw: nat, ts: nat, base: nat, useDram: bool): nat {
    var rs := Regions(mt, nt, kw, ts, base, useDram); base + Total(rs, |rs|)
  }

  // In both modes and for all inputs: the regions lie inside L1 exactly when the end of the map
  // does, the check accepts exactly when that end, modulo 2^32, does, and a map that ends below
  // 2^32 is contiguous from base on without overlap. In DRAM mode there are no tensor addresses.
  lemma AddressMapFits(mt: nat, nt: nat, kw: nat, ts: nat, l1: nat, base: nat, useDram: bool)
    requires l1 < TWO32
    ensures var rs, end := Regions(mt, nt, kw, ts, base, useDram), MapEnd(mt, nt, kw, ts, base, useDram);
            && |rs| == (if useDram then 5 else 8) && rs[0].start == base
            && (InsideL1(rs, l1) <==> end <= l1)
            && (FitsL1(mt, nt, kw, ts, l1, base, useDram) <==> U32(end) <= l1)
            && (end < TWO32 ==> Contiguous(rs) && PairwiseSeparate(rs) && rs[|rs| - 1].End() == end)
    ensures useDram ==>
              var m := BufferAddresses(mt, nt, kw, ts, base, true);
              m.in0 == 0 && m.in1 == 0 && m.out == 0
  {
    hide Regions, NeededL1, Contiguous, PairwiseSeparate, Bytes, InsideL1, Chained, U32, Total;
    RegionsChained(mt, nt, kw, ts, base, useDram);
    RegionsTotal(mt, nt, kw, ts, base, useDram);
    var rs := Regions(mt, nt, kw, ts, base, useDram);
    assert rs[..|rs|] == rs;
    ChainEnds(rs, l1, |rs|);
    if base + Total(rs, |rs|) < TWO32 {
      ChainContiguous(rs);
      RegionsSeparate(rs);
    }
  }

  // A width the check accepts, and the search returns, although the map needs more than 2^32
  // bytes: some region then leaves L1.
  lemma AddressMapCanWrap()
    ensures var mt, kt, ts, l1 := 0x20000, 4, 4096, 0x100000;
            && WidthChoice(4, kt) && FitsL1(mt, mt, 4, ts, l1, 0, false)
            && (forall r: nat :: BestWidth(r, mt, mt, kt, ts, l1, 0, false) ==> r == 4)
            && MapEnd(mt, mt, 4, ts, 0, false) >= TWO32
            && !InsideL1(Regions(mt, mt, 4, ts, 0, false), l1)
  {
    hide Bytes, Regions, InsideL1, Total;
    ExampleMapBytes();
    RegionsTotal(0x20000, 0x20000, 4, 4096, 0, false);
    AddressMapFits(0x20000, 0x20000, 4, 4096, 0x100000, 0, false);
  }

  lemma ExampleMapBytes()
    ensures Bytes(0x20000, 4, 4096) == 0x8000_0000
    ensures Bytes(0x20000, 0x20000, 4096) == 0x4000_0000_0000
  {
  }

  // ---------- what the width means in bytes ----------

  ghost predicate WidthInside(kw: nat, mt: nat, nt: nat, kt: nat, ts: nat, l1: nat, base: nat, useDram: bool) {
    WidthChoice(kw, kt) && InsideL1(Regions(mt, nt, kw, ts, base, useDram), l1)
  }

  // What the search is for: the largest width whose regions all lie inside L1, 0 if none do.
  ghost predicate LargestInside(r: nat, mt: nat, nt: nat, kt: nat, ts: nat, l1: nat, base: nat, useDram: bool) {
    && (r == 0 || WidthInside(r, mt, nt, kt, ts, l1, base, useDram))
    && forall kw: nat :: WidthInside(kw, mt, nt, kt, ts, l1, base, useDram) ==> kw <= r
  }

  ghost predicate AcceptedByWrapping(kw: nat, mt: nat, nt: nat, kt: nat, ts: nat, l1: nat, base: nat, useDram: bool) {
    WidthChoice(kw, kt) && FitsL1(mt, nt, kw, ts, l1, base, useDram) && MapEnd(mt, nt, kw, ts, base, useDram) >= TWO32
  }

  // Every width accepted only because of wrap-around has a larger one that fits.
  ghost predicate WidthWrapHarmless(mt: nat, nt: nat, kt: nat, ts: nat, l1: nat, base: nat, useDram: bool) {
    forall kw: nat :: AcceptedByWrapping(kw, mt, nt, kt, ts, l1, base, useDram) ==>
      exists d: nat :: WidthChoice(d, kt) && MapEnd(mt, nt, d, ts, base, useDram) <= l1 && d > kw
  }

  // The search delivers that, in both modes, exactly when wrap-around is harmless; so always
  // when the map of the widest choice ends below 2^32.
  lemma WidthRightExactlyWhen(r: nat, mt: nat, nt: nat, kt: nat, ts: nat, l1: nat, base: nat, useDram: bool)
    requires BestWidth(r, mt, nt, kt, ts, l1, base, useDram) && l1 < TWO32
    ensures LargestInside(r, mt, nt, kt, ts, l1, base, useDram) <==> WidthWrapHarmless(mt, nt, kt, ts, l1, base, useDram)
    ensures r > 0 ==>
              (InsideL1(Regions(mt, nt, r, ts, base, useDram), l1) <==> WidthWrapHarmless(mt, nt, kt, ts, l1, base, useDram))
    ensures MapEnd(mt, nt, 4, ts, base, useDram) < TWO32 ==> WidthWrapHarmless(mt, nt, kt, ts, l1, base, useDram)
  {
    hide NeededL1, Regions, InsideL1, FitsL1, WidthChoice, MapEnd, U32;
    forall kw: nat
      ensures InsideL1(Regions(mt, nt, kw, ts, base, useDram), l1) <==> MapEnd(mt, nt, kw, ts, base, useDram) <= l1
      ensures FitsL1(mt, nt, kw, ts, l1, base, useDram) && MapEnd(mt, nt, kw, ts, base, useDram) < TWO32
         <==> MapEnd(mt, nt, kw, ts, base, useDram) <= l1
      ensures WidthChoice(kw, kt) ==> 0 < kw && MapEnd(mt, nt, kw, ts, base, useDram) <= MapEnd(mt, nt, 4, ts, base, useDram)
    {
      AddressMapFits(mt, nt, kw, ts, l1, base, useDram);
      if MapEnd(mt, nt, kw, ts, base, useDram) < TWO32 {
        U32Small(MapEnd(mt, nt, kw, ts, base, useDram));
      }
      if WidthChoice(kw, kt) {
        WidestIsLargest(mt, nt, kw, kt, ts, base, useDram);
      }
    }
    if r > 0 {
      if MapEnd(mt, nt, r, ts, base, useDram) > l1 {
        assert AcceptedByWrapping(r, mt, nt, kt, ts, l1, base, useDram);
      } else {
        assert WidthInside(r, mt, nt, kt, ts, l1, base, useDram);
        assert WidthChoice(r, kt) && MapEnd(mt, nt, r, ts, base, useDram) <= l1;
      }
    }
  }

  lemma WidestIsLargest(mt: nat, nt: nat, kw: nat, kt: nat, ts: nat, base: nat, useDram: bool)
    requires WidthChoice(kw, kt)
    ensures 0 < kw && MapEnd(mt, nt, kw, ts, base, useDram) <= MapEnd(mt, nt, 4, ts, base, useDram)
  {
    hide Bytes, Regions, Total;
    RegionsTotal(mt, nt, kw, ts, base, useDram);
    RegionsTotal(mt, nt, 4, ts, base, useDram);
    BytesMono(mt, kw, mt, 4, ts);
    BytesMono(nt, kw, nt, 4, ts);
  }
}
