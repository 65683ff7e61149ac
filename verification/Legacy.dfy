// The older block search: four tiers over all divisors.
module Legacy {
  import opened Arith
  import opened L1Map
  import opened Searches

  const MAX_K_BLOCKS_PREFERRED := 16

  // What is left of L1: a safety margin is kept unless that would leave nothing.
  function Avail(l1: nat, base: nat, margin: nat): nat {
    var raw := U32(l1 - base);
    if raw > margin then raw - margin else raw
  }

  // Output and intermediate buffers are counted separately here.
  function LegacyBytes(c: Blocks, ts: nat): nat {
    2 * Bytes(c.bh, c.kw, ts) + 2 * Bytes(c.bw, c.kw, ts) + 2 * ts + Bytes(c.bh, c.bw, ts) + Bytes(c.bh, c.bw, ts)
  }

  predicate FitsAvail(c: Blocks, ts: nat, avail: nat) { U32(LegacyBytes(c, ts)) <= avail }

  // A search problem: per-core tiles, K tiles, tile bytes, available bytes.
  datatype Problem = Problem(m: nat, n: nat, kt: nat, ts: nat, avail: nat)
  {
    // Divisors of all three dimensions that fit.
    predicate Allowed(c: Blocks) {
      && Divides(c.bh, m) && c.bh <= m && Divides(c.bw, n) && c.bw <= n
      && Divides(c.kw, kt) && c.kw <= kt && FitsAvail(c, ts, avail)
    }

    predicate FewKBlocks(c: Blocks) { 0 < c.kw && kt / c.kw <= MAX_K_BLOCKS_PREFERRED }

    // Tier 1 wants the full width and few K blocks, tier 2 only few K blocks.
    predicate Tier1(c: Blocks) { Allowed(c) && FewKBlocks(c) && c.bw == n }
    predicate Tier2(c: Blocks) { Allowed(c) && FewKBlocks(c) }

    predicate Preferred(c: Blocks, fullWidth: bool) { if fullWidth then Tier1(c) else Tier2(c) }
  }

  function PairArea(a: (nat, nat)): nat { a.0 * a.1 }

  function Max(x: nat, y: nat): nat { if x > y then x else y }
  function Min(x: nat, y: nat): nat { if x < y then x else y }

  // Larger area, or equal area and no longer in its longer side.
  predicate NotBehind(a: (nat, nat), b: (nat, nat)) {
    PairArea(a) > PairArea(b) || (PairArea(a) == PairArea(b) && Max(a.0, a.1) <= Max(b.0, b.1))
  }

  function ShapeOf(c: Blocks): (nat, nat) { (c.bh, c.bw) }

  // Wider K block first, then larger area, then squarer.
  predicate WidthThenArea(r: Blocks, c: Blocks) {
    c.kw < r.kw || (c.kw == r.kw && NotBehind(ShapeOf(r), ShapeOf(c)))
  }

  // Larger area first, then squarer, then, for the chosen shape, the widest K block.
  predicate AreaThenWidth(r: Blocks, c: Blocks) {
    NotBehind(ShapeOf(r), ShapeOf(c)) && (ShapeOf(c) == ShapeOf(r) ==> c.kw <= r.kw)
  }

  // What the search promises.
  ghost predicate LegacyChoice(p: Problem, r: Blocks) {
    if FitsAvail(Blocks(p.m, p.n, p.kt), p.ts, p.avail) then r == Blocks(p.m, p.n, p.kt)
    else if exists c :: p.Tier1(c) then p.Tier1(r) && forall c :: p.Tier1(c) ==> WidthThenArea(r, c)
    else if exists c :: p.Tier2(c) then p.Tier2(r) && forall c :: p.Tier2(c) ==> WidthThenArea(r, c)
    else if exists c :: p.Allowed(c) then p.Allowed(r) && forall c :: p.Allowed(c) ==> AreaThenWidth(r, c)
    else r == Blocks(1, 1, 1)
  }

  // A triple that passes the check comes back whenever there is one.
  lemma FitsWheneverPossible(p: Problem, r: Blocks, c: Blocks)
    requires LegacyChoice(p, r) && p.Allowed(c) && 0 < p.m && 0 < p.n && 0 < p.kt
    ensures p.Allowed(r)
  {
    hide FitsAvail;
  }

  // ---------- in bytes ----------

  // What the check adds up: two zero tiles, two blocks for each input, and the output block
  // twice, although the program puts CB16 and CB24 into one buffer. It is the room that the
  // five buffers of the L1 address map take.
  lemma LegacyBytesAre(c: Blocks, ts: nat, base: nat)
    ensures LegacyBytes(c, ts) == (2 * (c.bh * c.kw) + 2 * (c.bw * c.kw) + 2 + 2 * (c.bh * c.bw)) * ts
    ensures LegacyBytes(c, ts) == CreatedBytes(c, ts) + c.bh * c.bw * ts
    ensures base + LegacyBytes(c, ts) == MapEnd(c.bh, c.bw, c.kw, ts, base, true)
  {
    CreatedIsFootprint(c, ts);
    RegionsTotal(c.bh, c.bw, c.kw, ts, base, true);
    hide Regions, Total;
  }

  // The budget is what there is, less the margin where that leaves anything.
  lemma AvailIs(l1: nat, base: nat, margin: nat)
    requires base <= l1 < TWO32
    ensures Avail(l1, base, margin) <= l1 - base && (Avail(l1, base, margin) > 0 <==> l1 > base)
    ensures base + margin < l1 ==> Avail(l1, base, margin) + margin == l1 - base
    ensures base + margin >= l1 ==> Avail(l1, base, margin) == l1 - base
  {
    U32Small(l1 - base);
  }

  // Few K blocks: at most sixteen of them.
  lemma FewBlocks(p: Problem, c: Blocks)
    requires Divides(c.kw, p.kt)
    ensures p.FewKBlocks(c) <==> p.kt <= 16 * c.kw
  {
    var q := p.kt / c.kw;
    assert p.kt == q * c.kw;
    if q <= 16 {
      MulMono(q, 16, c.kw);
    } else {
      MulMono(17, q, c.kw);
    }
  }

  predicate FitsInBytes(p: Problem, c: Blocks) { LegacyBytes(c, p.ts) <= p.avail }

  lemma CheckInBytes(p: Problem, c: Blocks)
    requires p.avail < TWO32
    ensures FitsInBytes(p, c) <==> FitsAvail(c, p.ts, p.avail) && LegacyBytes(c, p.ts) < TWO32
  {
    hide LegacyBytes;
    if LegacyBytes(c, p.ts) < TWO32 {
      U32Small(LegacyBytes(c, p.ts));
    }
  }

  // The order in which the search prefers triples: the whole core, tier 1, tier 2, the rest.
  function Rank(p: Problem, c: Blocks): nat {
    if c == Blocks(p.m, p.n, p.kt) then 3 else if p.Tier1(c) then 2 else if p.Tier2(c) then 1 else 0
  }

  predicate Better(p: Problem, d: Blocks, c: Blocks) {
    || Rank(p, d) > Rank(p, c)
    || (Rank(p, d) == Rank(p, c) > 0 && !WidthThenArea(c, d))
    || (Rank(p, d) == Rank(p, c) == 0 && !AreaThenWidth(c, d))
  }

  ghost predicate Unbeaten(p: Problem, r: Blocks) {
    p.Allowed(r) && forall c :: p.Allowed(c) ==> !Better(p, c, r)
  }

  // The possible results are the triples that no other one is preferred to.
  lemma ChoiceIsUnbeaten(p: Problem, r: Blocks)
    requires 0 < p.m && 0 < p.n && 0 < p.kt && exists c :: p.Allowed(c)
    ensures LegacyChoice(p, r) <==> Unbeaten(p, r)
  {
    hide FitsAvail, WidthThenArea, AreaThenWidth, Problem.FewKBlocks;
    var whole := Blocks(p.m, p.n, p.kt);
    assert p.Allowed(whole) <==> FitsAvail(whole, p.ts, p.avail);
    hide Problem.Allowed;
    OrdersReflexive(p, whole);
    if exists c :: p.Tier1(c) {
      var c :| p.Tier1(c);
      assert Rank(p, c) >= 2;
    }
    if exists c :: p.Tier2(c) {
      var c :| p.Tier2(c);
      assert Rank(p, c) >= 1;
    }
    assert Unbeaten(p, r) ==> forall c :: p.Allowed(c) ==> Rank(p, c) <= Rank(p, r);
  }

  lemma OrdersReflexive(p: Problem, c: Blocks)
    ensures WidthThenArea(c, c)
  {
  }

  // What is above c: a triple preferred to c, or c itself, that nothing is preferred to.
  lemma {:induction false} Climb(p: Problem, c: Blocks) returns (top: Blocks)
    requires p.Allowed(c)
    ensures Unbeaten(p, top) && (top == c || Better(p, top, c))
    decreases 3 - Rank(p, c),
              if Rank(p, c) > 0 then p.kt - c.kw else p.m * p.n - PairArea(ShapeOf(c)),
              if Rank(p, c) > 0 then p.m * p.n - PairArea(ShapeOf(c)) else Max(c.bh, c.bw),
              if Rank(p, c) > 0 then Max(c.bh, c.bw) else p.kt - c.kw
  {
    hide FitsAvail, Problem.FewKBlocks, PairArea, Max;
    if Unbeaten(p, c) {
      top := c;
    } else {
      var e :| p.Allowed(e) && Better(p, e, c);
      AreaBound(p, c);
      AreaBound(p, e);
      top := Climb(p, e);
      BetterTransitive(p, top, e, c);
    }
  }

  lemma AreaBound(p: Problem, c: Blocks)
    requires p.Allowed(c)
    ensures PairArea(ShapeOf(c)) <= p.m * p.n && c.kw <= p.kt
  {
    hide FitsAvail;
    MulMono(c.bh, p.m, c.bw);
    MulMono(c.bw, p.n, p.m);
  }

  lemma BetterTransitive(p: Problem, a: Blocks, b: Blocks, c: Blocks)
    requires (a == b || Better(p, a, b)) && Better(p, b, c)
    ensures Better(p, a, c)
  {
    hide Rank, PairArea, Max;
  }

  // Every triple that passes the check only by wrapping around loses to one that fits in bytes.
  ghost predicate WrapHarmless(p: Problem) {
    forall c :: p.Allowed(c) && LegacyBytes(c, p.ts) >= TWO32 ==>
      exists d :: p.Allowed(d) && FitsInBytes(p, d) && Better(p, d, c)
  }

  // The search cannot return blocks that are too large in bytes exactly when that holds.
  lemma LegacyRightExactlyWhen(p: Problem)
    requires 0 < p.m && 0 < p.n && 0 < p.kt && p.avail < TWO32
    ensures WrapHarmless(p) <==> forall r :: LegacyChoice(p, r) && p.Allowed(r) ==> FitsInBytes(p, r)
  {
    hide LegacyChoice, Problem.Allowed, Better, LegacyBytes;
    forall r | p.Allowed(r)
      ensures LegacyChoice(p, r) <==> Unbeaten(p, r)
      ensures FitsInBytes(p, r) <==> LegacyBytes(r, p.ts) < TWO32
    {
      ChoiceIsUnbeaten(p, r);
      AllowedFits(p, r);
      CheckInBytes(p, r);
    }
    if forall r :: LegacyChoice(p, r) && p.Allowed(r) ==> FitsInBytes(p, r) {
      forall c | p.Allowed(c) && LegacyBytes(c, p.ts) >= TWO32
        ensures exists d :: p.Allowed(d) && FitsInBytes(p, d) && Better(p, d, c)
      {
        var top := Climb(p, c);
        assert p.Allowed(top) && FitsInBytes(p, top) && Better(p, top, c);
      }
    }
  }

  lemma AllowedFits(p: Problem, c: Blocks)
    requires p.Allowed(c)
    ensures FitsAvail(c, p.ts, p.avail)
  {
    hide FitsAvail;
  }

  // Where even the whole core does not wrap around, no check does: the result fits in bytes
  // whenever any triple of divisors does.
  lemma FitsInBytesWheneverPossible(p: Problem, r: Blocks, c: Blocks)
    requires LegacyChoice(p, r) && 0 < p.m && 0 < p.n && 0 < p.kt && p.avail < TWO32
    requires LegacyBytes(Blocks(p.m, p.n, p.kt), p.ts) < TWO32
    requires Divides(c.bh, p.m) && Divides(c.bw, p.n) && Divides(c.kw, p.kt) && FitsInBytes(p, c)
    ensures p.Allowed(r) && FitsInBytes(p, r)
  {
    hide LegacyChoice, LegacyBytes;
    CheckInBytes(p, c);
    CoDivisor(p.m, c.bh);
    CoDivisor(p.n, c.bw);
    CoDivisor(p.kt, c.kw);
    FitsWheneverPossible(p, r, c);
    BytesBelowWhole(p, r);
    CheckInBytes(p, r);
  }

  // And then the search gives up, with blocks of one tile that do not fit, exactly when eight
  // tiles do not fit.
  lemma GivesUpExactlyWhen(p: Problem, r: Blocks)
    requires LegacyChoice(p, r) && 0 < p.m && 0 < p.n && 0 < p.kt && p.avail < TWO32
    requires LegacyBytes(Blocks(p.m, p.n, p.kt), p.ts) < TWO32
    ensures FitsInBytes(p, r) <==> 8 * p.ts <= p.avail
    ensures !FitsInBytes(p, r) ==> r == Blocks(1, 1, 1)
  {
    hide LegacyChoice, LegacyBytes, Problem.Allowed, FitsAvail;
    var one, whole := Blocks(1, 1, 1), Blocks(p.m, p.n, p.kt);
    OneTile(p);
    if FitsInBytes(p, one) {
      FitsInBytesWheneverPossible(p, r, one);
    } else {
      NothingAllowed(p, r);
    }
  }

  lemma OneTile(p: Problem)
    ensures LegacyBytes(Blocks(1, 1, 1), p.ts) == 8 * p.ts
    ensures Divides(1, p.m) && Divides(1, p.n) && Divides(1, p.kt)
  {
  }

  lemma NothingAllowed(p: Problem, r: Blocks)
    requires LegacyChoice(p, r) && 0 < p.m && 0 < p.n && 0 < p.kt && p.avail < TWO32
    requires LegacyBytes(Blocks(p.m, p.n, p.kt), p.ts) < TWO32 && !FitsInBytes(p, Blocks(1, 1, 1))
    ensures r == Blocks(1, 1, 1)
  {
    hide LegacyBytes, FitsAvail, Divides, Problem.FewKBlocks;
    forall c
      ensures !p.Allowed(c)
    {
      if p.Allowed(c) {
        BytesBelowWhole(p, c);
        BytesAboveOne(p, c);
        CheckInBytes(p, c);
        assert false;
      }
    }
    var whole := Blocks(p.m, p.n, p.kt);
    WholeAllowed(p);
  }

  lemma WholeAllowed(p: Problem)
    requires 0 < p.m && 0 < p.n && 0 < p.kt
    ensures p.Allowed(Blocks(p.m, p.n, p.kt)) <==> FitsAvail(Blocks(p.m, p.n, p.kt), p.ts, p.avail)
  {
    hide FitsAvail;
  }

  lemma BytesAboveOne(p: Problem, c: Blocks)
    requires p.Allowed(c)
    ensures LegacyBytes(Blocks(1, 1, 1), p.ts) <= LegacyBytes(c, p.ts)
  {
    hide Bytes, FitsAvail;
    BytesMono(1, 1, c.bh, c.kw, p.ts);
    BytesMono(1, 1, c.bw, c.kw, p.ts);
    BytesMono(1, 1, c.bh, c.bw, p.ts);
  }

  lemma BytesBelowWhole(p: Problem, r: Blocks)
    requires p.Allowed(r)
    ensures LegacyBytes(r, p.ts) <= LegacyBytes(Blocks(p.m, p.n, p.kt), p.ts)
  {
    hide Bytes, FitsAvail, Divides;
    BytesMono(r.bh, r.kw, p.m, p.kt, p.ts);
    BytesMono(r.bw, r.kw, p.n, p.kt, p.ts);
    BytesMono(r.bh, r.bw, p.m, p.n, p.ts);
  }

  // With wrap-around the first check of all can already accept a whole core of more than 2^45 bytes.
  lemma LegacyWrapMisleads(r: Blocks)
    requires LegacyChoice(Problem(0x10000, 0x10000, 4, 4096, 0x100000), r)
    ensures r == Blocks(0x10000, 0x10000, 4) && !FitsInBytes(Problem(0x10000, 0x10000, 4, 4096, 0x100000), r)
  {
    ExampleBytes();
    hide Bytes;
    assert LegacyBytes(Blocks(0x10000, 0x10000, 4), 4096) == 0x2001_0000_2000;
  }

  // ---------- the lists ----------

  method Divisors(n: nat) returns (ds: seq<nat>)
    ensures forall d: nat :: d in ds <==> Divides(d, n) && d <= n
  {
    ds := [];
    for i := 1 to n + 1
      invariant forall d: nat :: d in ds <==> Divides(d, n) && d < i
    {
      if n % i == 0 {
        ds := ds + [i];
      }
    }
  }

  // K widths, largest first.
  method KWidths(kt: nat) returns (ws: seq<nat>)
    ensures forall d: nat :: d in ws <==> Divides(d, kt) && d <= kt
    ensures forall i, j | 0 <= i < j < |ws| :: ws[i] > ws[j]
  {
    ws := [];
    var w := kt;
    while w >= 1
      invariant 0 <= w <= kt
      invariant forall d: nat :: d in ws <==> Divides(d, kt) && w < d <= kt
      invariant forall i | 0 <= i < |ws| :: ws[i] > w
      invariant forall i, j | 0 <= i < j < |ws| :: ws[i] > ws[j]
    {
      if kt % w == 0 {
        ws := ws + [w];
      }
      w := w - 1;
    }
  }

  // The sort's comparison: larger area first; among equal areas the smaller ratio of longer to
  // shorter side (ratios compared exactly).
  predicate Before(a: (nat, nat), b: (nat, nat)) {
    || PairArea(a) > PairArea(b)
    || (PairArea(a) == PairArea(b) && Max(a.0, a.1) * Min(b.0, b.1) < Max(b.0, b.1) * Min(a.0, a.1))
  }

  predicate Positives(a: (nat, nat)) { 0 < a.0 && 0 < a.1 }

  predicate ByArea(ps: seq<(nat, nat)>) {
    forall i, j | 0 <= i < j < |ps| :: NotBehind(ps[i], ps[j])
  }

  // Among equal areas the smaller ratio is the shorter longer side.
  lemma BeforeIsNotBehind(a: (nat, nat), b: (nat, nat))
    requires Positives(a) && Positives(b)
    ensures !Before(b, a) <==> NotBehind(a, b)
  {
    if PairArea(a) == PairArea(b) {
      RatioIsLongerSide(Max(b.0, b.1), Min(b.0, b.1), Max(a.0, a.1), Min(a.0, a.1));
    }
  }

  lemma LargerProduct(x: nat, y: nat, x': nat, y': nat)
    requires x < x' && y <= y' && 0 < y'
    ensures x * y < x' * y'
  {
    MulMono(y, y', x);
    Positive(x' - x, y');
    assert x' * y' == x * y' + (x' - x) * y';
  }

  lemma RatioIsLongerSide(x: nat, y: nat, x': nat, y': nat)
    requires x * y == x' * y' && 0 < y && 0 < y'
    ensures x * y' < x' * y <==> x < x'
  {
    if x < x' {
      if y <= y' {
        LargerProduct(x, y, x', y');
      }
      MulMono(x, x', y');
      assert x' * y == x' * y' + x' * (y - y');
      Positive(x', y - y');
    } else {
      MulMono(x', x, y);
      if y <= y' {
        MulMono(y, y', x);
      } else {
        MulMono(x', x, y');
        assert x * y == x * y' + x * (y - y');
        if x > 0 {
          Positive(x, y - y');
        }
      }
    }
  }

  lemma NotBehindTransitive(a: (nat, nat), b: (nat, nat), c: (nat, nat))
    requires NotBehind(a, b) && NotBehind(b, c)
    ensures NotBehind(a, c)
  {
    hide PairArea, Max;
  }

  ghost predicate AllPositive(ps: seq<(nat, nat)>) { forall x :: x in ps ==> Positives(x) }

  // The sort, as insertion: the order of ties is not specified by the source.
  method Insert(ps: seq<(nat, nat)>, p: (nat, nat)) returns (r: seq<(nat, nat)>)
    requires ByArea(ps) && AllPositive(ps) && Positives(p)
    ensures ByArea(r) && AllPositive(r) && forall x :: x in r <==> x in ps || x == p
  {
    var i := 0;
    while i < |ps| && !Before(p, ps[i])
      invariant 0 <= i <= |ps|
      invariant forall j | 0 <= j < i :: !Before(p, ps[j])
    {
      i := i + 1;
    }
    Inserted(ps, p, i);
    r := ps[..i] + [p] + ps[i..];
  }

  lemma Inserted(ps: seq<(nat, nat)>, p: (nat, nat), i: nat)
    requires ByArea(ps) && AllPositive(ps) && Positives(p) && i <= |ps|
    requires forall j | 0 <= j < i :: !Before(p, ps[j])
    requires i < |ps| ==> Before(p, ps[i])
    ensures var r := ps[..i] + [p] + ps[i..]; ByArea(r) && AllPositive(r) && forall x :: x in r <==> x in ps || x == p
  {
    hide PairArea, Before, Positives, NotBehind;
    forall k | 0 <= k < i ensures NotBehind(ps[k], p) {
      assert ps[k] in ps;
      BeforeIsNotBehind(ps[k], p);
    }
    forall k | i <= k < |ps| ensures NotBehind(p, ps[k]) {
      assert ps[i] in ps;
      BeforeFirst(p, ps[i]);
      if i < k {
        NotBehindTransitive(p, ps[i], ps[k]);
      }
    }
    StillByArea(ps, p, i);
    SameMembers(ps, p, i);
  }

  lemma StillByArea(ps: seq<(nat, nat)>, p: (nat, nat), i: nat)
    requires ByArea(ps) && i <= |ps|
    requires forall k | 0 <= k < i :: NotBehind(ps[k], p)
    requires forall k | i <= k < |ps| :: NotBehind(p, ps[k])
    ensures ByArea(ps[..i] + [p] + ps[i..])
  {
    hide NotBehind;
    var r := ps[..i] + [p] + ps[i..];
    forall k, l | 0 <= k < l < |r|
      ensures NotBehind(r[k], r[l])
    {
      assert r[k] == if k < i then ps[k] else if k == i then p else ps[k - 1];
      assert r[l] == if l < i then ps[l] else if l == i then p else ps[l - 1];
    }
  }

  lemma SameMembers(ps: seq<(nat, nat)>, p: (nat, nat), i: nat)
    requires i <= |ps|
    ensures forall x :: x in ps[..i] + [p] + ps[i..] <==> x in ps || x == p
  {
    assert ps == ps[..i] + ps[i..];
  }

  lemma BeforeFirst(a: (nat, nat), b: (nat, nat))
    requires Positives(a) && Positives(b) && Before(a, b)
    ensures NotBehind(a, b)
  {
    hide PairArea, Max, Min, NotBehind;
    BeforeIsNotBehind(a, b);
    BeforeIsNotBehind(b, a);
    if !NotBehind(a, b) {
      AlwaysOne(a, b);
    }
  }

  lemma AlwaysOne(a: (nat, nat), b: (nat, nat))
    ensures NotBehind(a, b) || NotBehind(b, a)
  {
    hide PairArea, Max;
  }

  ghost predicate AllDivisorPairs(ps: seq<(nat, nat)>, m: nat, n: nat) {
    forall x: (nat, nat) :: x in ps <==> Divides(x.0, m) && x.0 <= m && Divides(x.1, n) && x.1 <= n
  }

  method SortedPairs(m: nat, n: nat) returns (ps: seq<(nat, nat)>)
    ensures ByArea(ps) && AllDivisorPairs(ps, m, n)
  {
    var mf := Divisors(m);
    var nf := Divisors(n);
    hide Divides, ByArea, Positives;
    ps := [];
    NoneSorted();
    for i := 0 to |mf|
      invariant ByArea(ps) && AllPositive(ps)
      invariant forall x: (nat, nat) :: x in ps <==> x.0 in mf[..i] && x.1 in nf
    {
      for j := 0 to |nf|
        invariant ByArea(ps) && AllPositive(ps)
        invariant forall x: (nat, nat) :: x in ps <==> (x.0 in mf[..i] && x.1 in nf) || (x.0 == mf[i] && x.1 in nf[..j])
      {
        assert mf[i] in mf && nf[j] in nf;
        DivisorsPositive(mf[i], m, nf[j], n);
        ps := Insert(ps, (mf[i], nf[j]));
        assert nf[..j + 1] == nf[..j] + [nf[j]];
      }
      assert nf[..|nf|] == nf && mf[..i + 1] == mf[..i] + [mf[i]];
    }
    assert mf[..|mf|] == mf;
  }

  lemma DivisorsPositive(x: nat, m: nat, y: nat, n: nat)
    requires Divides(x, m) && Divides(y, n)
    ensures Positives((x, y))
  {
  }

  lemma NoneSorted()
    ensures ByArea([])
  {
  }

  // ---------- the scans ----------

  method FitsCheck(c: Blocks, ts: nat, avail: nat) returns (fits: bool)
    ensures fits == FitsAvail(c, ts, avail)
  {
    BytesAre(c.bh, c.kw, ts);
    BytesAre(c.bw, c.kw, ts);
    BytesAre(c.bh, c.bw, ts);
    hide Bytes;
    var in0Cb, in1Cb, in2Cb := U32(c.bh * c.kw * 2 * ts), U32(c.bw * c.kw * 2 * ts), U32(2 * ts);
    var outCb, interm := U32(c.bh * c.bw * ts), U32(c.bh * c.bw * ts);
    U32Sum5(2 * Bytes(c.bh, c.kw, ts), 2 * Bytes(c.bw, c.kw, ts), 2 * ts, Bytes(c.bh, c.bw, ts), Bytes(c.bh, c.bw, ts));
    fits := U32(in0Cb + in1Cb + in2Cb + outCb + interm) <= avail;
  }

  ghost predicate Lists(p: Problem, ws: seq<nat>, ps: seq<(nat, nat)>) {
    && (forall d: nat :: d in ws <==> Divides(d, p.kt) && d <= p.kt)
    && (forall i, j | 0 <= i < j < |ws| :: ws[i] > ws[j])
    && ByArea(ps) && AllDivisorPairs(ps, p.m, p.n)
  }

  function Triple(ps: seq<(nat, nat)>, ws: seq<nat>, j: nat, i: nat): Blocks
    requires j < |ps| && i < |ws|
  {
    Blocks(ps[j].0, ps[j].1, ws[i])
  }

  // Where a triple of divisors is in the lists.
  lemma InLists(p: Problem, ws: seq<nat>, ps: seq<(nat, nat)>, c: Blocks) returns (j: nat, i: nat)
    requires Lists(p, ws, ps) && p.Allowed(c)
    ensures j < |ps| && i < |ws| && Triple(ps, ws, j, i) == c
  {
    hide FitsAvail, Divides, ByArea;
    assert (c.bh, c.bw) in ps && c.kw in ws;
    j :| 0 <= j < |ps| && ps[j] == (c.bh, c.bw);
    i :| 0 <= i < |ws| && ws[i] == c.kw;
  }

  lemma ListedIsDivisor(p: Problem, ws: seq<nat>, ps: seq<(nat, nat)>, j: nat, i: nat)
    requires Lists(p, ws, ps) && j < |ps| && i < |ws|
    ensures 0 < ws[i] && (FitsAvail(Triple(ps, ws, j, i), p.ts, p.avail) <==> p.Allowed(Triple(ps, ws, j, i)))
  {
    hide FitsAvail, ByArea;
    assert ws[i] in ws && ps[j] in ps;
  }

  // The two width-first loops (full width only, then any width).
  method ScanByWidth(p: Problem, ws: seq<nat>, ps: seq<(nat, nat)>, fullWidth: bool) returns (found: bool, r: Blocks)
    requires Lists(p, ws, ps)
    ensures found <==> exists c :: p.Preferred(c, fullWidth)
    ensures found ==> p.Preferred(r, fullWidth) && forall c :: p.Preferred(c, fullWidth) ==> WidthThenArea(r, c)
  {
    hide Lists, FitsAvail, Problem.Allowed;
    for i := 0 to |ws|
      invariant forall k, j | 0 <= k < i && 0 <= j < |ps| :: !p.Preferred(Triple(ps, ws, j, k), fullWidth)
    {
      if |ps| > 0 {
        ListedIsDivisor(p, ws, ps, 0, i);
      }
      for j := 0 to |ps|
        invariant forall k, l | 0 <= k < i && 0 <= l < |ps| :: !p.Preferred(Triple(ps, ws, l, k), fullWidth)
        invariant forall l | 0 <= l < j :: !p.Preferred(Triple(ps, ws, l, i), fullWidth)
      {
        ListedIsDivisor(p, ws, ps, j, i);
        var fits := FitsCheck(Triple(ps, ws, j, i), p.ts, p.avail);
        if p.kt / ws[i] <= MAX_K_BLOCKS_PREFERRED && (fullWidth ==> ps[j].1 == p.n) && fits {
          FirstByWidth(p, ws, ps, fullWidth, j, i);
          return true, Triple(ps, ws, j, i);
        }
      }
    }
    forall c ensures !p.Preferred(c, fullWidth) {
      if p.Preferred(c, fullWidth) {
        var j, i := InLists(p, ws, ps, c);
      }
    }
    found, r := false, Blocks(1, 1, 1);
  }

  lemma FirstByWidth(p: Problem, ws: seq<nat>, ps: seq<(nat, nat)>, fullWidth: bool, j: nat, i: nat)
    requires Lists(p, ws, ps) && j < |ps| && i < |ws| && p.Preferred(Triple(ps, ws, j, i), fullWidth)
    requires forall k, l | 0 <= k < i && 0 <= l < |ps| :: !p.Preferred(Triple(ps, ws, l, k), fullWidth)
    requires forall l | 0 <= l < j :: !p.Preferred(Triple(ps, ws, l, i), fullWidth)
    ensures forall c :: p.Preferred(c, fullWidth) ==> WidthThenArea(Triple(ps, ws, j, i), c)
  {
    hide FitsAvail, Problem.Allowed, AllDivisorPairs;
    forall c | p.Preferred(c, fullWidth)
      ensures WidthThenArea(Triple(ps, ws, j, i), c)
    {
      var l, k := InLists(p, ws, ps, c);
    }
  }

  // The last loop: largest area first.
  method ScanByArea(p: Problem, ws: seq<nat>, ps: seq<(nat, nat)>) returns (found: bool, r: Blocks)
    requires Lists(p, ws, ps)
    ensures found <==> exists c :: p.Allowed(c)
    ensures found ==> p.Allowed(r) && forall c :: p.Allowed(c) ==> AreaThenWidth(r, c)
  {
    hide Lists, FitsAvail, Problem.Allowed;
    for j := 0 to |ps|
      invariant forall l, k | 0 <= l < j && 0 <= k < |ws| :: !p.Allowed(Triple(ps, ws, l, k))
    {
      for i := 0 to |ws|
        invariant forall l, k | 0 <= l < j && 0 <= k < |ws| :: !p.Allowed(Triple(ps, ws, l, k))
        invariant forall k | 0 <= k < i :: !p.Allowed(Triple(ps, ws, j, k))
      {
        ListedIsDivisor(p, ws, ps, j, i);
        var fits := FitsCheck(Triple(ps, ws, j, i), p.ts, p.avail);
        if fits {
          FirstByArea(p, ws, ps, j, i);
          return true, Triple(ps, ws, j, i);
        }
      }
    }
    forall c ensures !p.Allowed(c) {
      if p.Allowed(c) {
        var j, i := InLists(p, ws, ps, c);
      }
    }
    found, r := false, Blocks(1, 1, 1);
  }

  lemma FirstByArea(p: Problem, ws: seq<nat>, ps: seq<(nat, nat)>, j: nat, i: nat)
    requires Lists(p, ws, ps) && j < |ps| && i < |ws| && p.Allowed(Triple(ps, ws, j, i))
    requires forall l, k | 0 <= l < j && 0 <= k < |ws| :: !p.Allowed(Triple(ps, ws, l, k))
    requires forall k | 0 <= k < i :: !p.Allowed(Triple(ps, ws, j, k))
    ensures forall c :: p.Allowed(c) ==> AreaThenWidth(Triple(ps, ws, j, i), c)
  {
    hide FitsAvail, Problem.Allowed, AllDivisorPairs;
    forall c | p.Allowed(c)
      ensures AreaThenWidth(Triple(ps, ws, j, i), c)
    {
      var l, k := InLists(p, ws, ps, c);
      if c.bh == ps[j].0 && c.bw == ps[j].1 {
        assert Triple(ps, ws, j, k) == c;
      }
    }
  }

  method MultiDimPerCoreFactor(m: nat, n: nat, kt: nat, ts: nat, l1: nat, base: nat, margin: nat) returns (r: Blocks)
    ensures LegacyChoice(Problem(m, n, kt, ts, Avail(l1, base, margin)), r)
  {
    hide FitsAvail, Problem.Allowed, Lists, WidthThenArea, AreaThenWidth, Problem.FewKBlocks;
    var p := Problem(m, n, kt, ts, Avail(l1, base, margin));
    var whole := FitsCheck(Blocks(m, n, kt), ts, p.avail);
    if whole {
      return Blocks(m, n, kt);
    }
    var ps := SortedPairs(m, n);
    var ws := KWidths(kt);
    AreLists(p, ws, ps);
    var found;
    found, r := ScanByWidth(p, ws, ps, true);
    if !found {
      found, r := ScanByWidth(p, ws, ps, false);
      if !found {
        found, r := ScanByArea(p, ws, ps);
        if !found {
          r := Blocks(1, 1, 1);
        }
      }
    }
    Preferences(p);
  }

  lemma AreLists(p: Problem, ws: seq<nat>, ps: seq<(nat, nat)>)
    requires forall d: nat :: d in ws <==> Divides(d, p.kt) && d <= p.kt
    requires forall i, j | 0 <= i < j < |ws| :: ws[i] > ws[j]
    requires ByArea(ps) && AllDivisorPairs(ps, p.m, p.n)
    ensures Lists(p, ws, ps)
  {
    hide Divides, ByArea, AllDivisorPairs;
  }

  lemma Preferences(p: Problem)
    ensures forall c :: p.Preferred(c, true) == p.Tier1(c) && p.Preferred(c, false) == p.Tier2(c)
  {
    hide FitsAvail, Problem.Allowed;
  }
}
