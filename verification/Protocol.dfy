// All three kernels together, over every interleaving.
module Protocol {
  import opened Arith
  import opened CoreNet
  import opened Machine
  import opened Safety

  // ---------- the in0 reader ----------

  // The position of the producer of a double buffer, given the position of its consumer.
  function Ahead<T>(n: Net<T>, p: Pos, q: Ring, k: nat): Pos {
    if q.held == 0 then p else if q.held == k then Succ(n, p) else Succ(n, Succ(n, p))
  }

  ghost predicate ReaderInv<T>(n: Net<T>, s: State<T>)
    requires n.Valid()
  {
    && InRange(n, s.r.pos)
    && s.r.pos == Ahead(n, Front0(n, s.c), s.cb0, n.N0())
    && (s.r.pos == End(n) ==> s.r.ph == RReserve)
    && (s.r.ph != RReserve ==> s.cb0.Free() >= n.N0())
    && (s.r.ph == RPush ==>
          && s.cb0.wr + n.N0() <= |s.m0|
          && s.m0[s.cb0.wr..s.cb0.wr + n.N0()] == n.In0Block(s.r.pos.bh, s.r.pos.blk))
  }

  // ---------- the in1 reader and output writer ----------

  predicate Feeding(ph: WPhase) { ph == WReserve || ph == WFill || ph == WPush }
  predicate InSub(ph: WPhase) { ph == WWait || ph == WWrite || ph == WPop }

  // The next in1 block the writer will push: it drains a whole output block in between.
  function In1Pos<T>(n: Net<T>, w: Writer): Pos {
    if Feeding(w.ph) then w.pos else NextOuter(n, w.pos)
  }

  predicate WriterOk<T>(n: Net<T>, w: Writer) {
    && InRange(n, w.pos)
    && (w.pos == End(n) ==> w.ph == WReserve)
    && (!Feeding(w.ph) ==> w.pos.blk == n.nb - 1 && w.sbh < NonzeroH(n, w.pos.bh))
    && (InSub(w.ph) ==> w.sbw < NonzeroW(n, w.pos.bw))
  }

  ghost predicate WriterFeed<T>(n: Net<T>, s: State<T>)
    requires n.Valid()
  {
    && In1Pos(n, s.w) == Ahead(n, s.c.pos, s.cb1, n.N1())
    && (s.w.ph == WFill || s.w.ph == WPush ==> s.cb1.Free() >= n.N1())
    && (s.w.ph == WPush ==>
          && s.cb1.wr + n.N1() <= |s.m1|
          && s.m1[s.cb1.wr..s.cb1.wr + n.N1()] == n.In1Block(s.w.pos.bw, s.w.pos.blk))
  }

  // Tiles of its current output block that the writer has popped.
  function Popped<T>(n: Net<T>, w: Writer): nat {
    if Feeding(w.ph) then 0
    else if InSub(w.ph) then n.Base(w.sbh, w.sbw)
    else if w.ph == WWaitW || w.ph == WPopW then n.Base(w.sbh, NonzeroW(n, w.pos.bw))
    else n.Base(NonzeroH(n, w.pos.bh), 0)
  }

  predicate SameOuter(p: Pos, p': Pos) { p.bh == p'.bh && p.bw == p'.bw }

  // How many tiles wait in CB16, given where its two ends are.
  ghost predicate Linked<T>(n: Net<T>, c: Compute, w: Writer, held: nat, pushed: nat, popped: nat) {
    || (SameOuter(w.pos, c.pos) && held == pushed - popped)
    || (SameOuter(NextOuter(n, w.pos), c.pos) && held == n.Cap() + pushed - popped
          && c.pos.blk == 0 && (c.ph == CWait0 || c.ph == CWait1))
    || (SameOuter(w.pos, NextOuter(n, c.pos)) && held == 0 && pushed == n.Cap() && popped == 0)
  }

  ghost predicate WriterLink<T>(n: Net<T>, s: State<T>) {
    && Linked(n, s.c, s.w, s.cb16.held, Pushed(n, s.c, n.Base(s.c.i0, s.c.i1)), Popped(n, s.w))
    && Popped(n, s.w) <= n.Cap()
    && (s.w.ph == WWrite || s.w.ph == WPop ==> s.cb16.held >= n.Sub())
    && (s.w.ph == WPopW ==> s.cb16.held >= WSkip(n, s.w.pos.bw))
    && (s.w.ph == WPopH ==> s.cb16.held >= HSkip(n, s.w.pos.bh))
  }

  ghost predicate Inv<T>(n: Net<T>, s: State<T>) {
    && ComputeInv(n, s)
    && ReaderInv(n, s)
    && WriterOk(n, s.w) && WriterFeed(n, s) && WriterLink(n, s)
  }

  // ---------- conservation on CB16 ----------

  // What the writer pops per output block (visited sub-blocks, padded sub-blocks of each
  // visited row, padded rows) is exactly what compute pushes, for every ragged edge; so its
  // read pointer is back at 0 for the next block and never wraps inside a sub-block.
  lemma WriterConserves<T>(n: Net<T>, w: Writer)
    requires n.Valid() && WriterOk(n, w) && !Feeding(w.ph)
    ensures w.ph == WPop ==> Popped(n, AdvanceW(n, w)) == Popped(n, w) + n.Sub()
    ensures w.ph == WPopW ==> Popped(n, AdvanceW(n, w)) == Popped(n, w) + WSkip(n, w.pos.bw)
    ensures w.ph == WPopH ==> Popped(n, w) + HSkip(n, w.pos.bh) == n.Cap()
    ensures w.ph == WWait || w.ph == WWrite || w.ph == WWaitW || w.ph == WWaitH ==>
              Popped(n, AdvanceW(n, w)) == Popped(n, w)
    ensures InSub(w.ph) ==> Popped(n, w) + n.Sub() <= n.Cap()
    ensures w.ph == WWaitW || w.ph == WPopW ==> Popped(n, w) + WSkip(n, w.pos.bw) <= n.Cap()
    ensures w.ph == WWaitH ==> Popped(n, w) + HSkip(n, w.pos.bh) == n.Cap()
  {
    var nzH, nzW := NonzeroH(n, w.pos.bh), NonzeroW(n, w.pos.bw);
    SkipsFit(n, w);
    n.BaseNext(w.sbh, w.sbw);
    hide Net.Base, Net.Sub, Net.Cap, Net.Valid;
    if InSub(w.ph) {
      n.BaseBounds(w.sbh, w.sbw);
    }
  }

  lemma SkipsFit<T>(n: Net<T>, w: Writer)
    requires n.Valid() && WriterOk(n, w) && !Feeding(w.ph)
    ensures 0 < NonzeroH(n, w.pos.bh) <= n.nsh && 0 < NonzeroW(n, w.pos.bw) <= n.nsw
    ensures n.Base(w.sbh, NonzeroW(n, w.pos.bw)) + WSkip(n, w.pos.bw) == n.Base(w.sbh + 1, 0) <= n.Cap()
    ensures n.Base(NonzeroH(n, w.pos.bh), 0) + HSkip(n, w.pos.bh) == n.Cap()
  {
    hide Net.Sub;
    var nzH, nzW, x := NonzeroH(n, w.pos.bh), NonzeroW(n, w.pos.bw), n.Sub();
    SkipsAre(n, w.pos);
    WidthSum(w.sbh, n.nsw, nzW, x);
    HeightSum(n.nsh, nzH, n.nsw, x);
    RowFits(w.sbh, n.nsh, n.nsw, x);
  }

  lemma SkipsAre<T>(n: Net<T>, p: Pos)
    requires n.Valid()
    ensures WSkip(n, p.bw) == (n.nsw - NonzeroW(n, p.bw)) * n.Sub()
    ensures HSkip(n, p.bh) == (n.nsh - NonzeroH(n, p.bh)) * (n.nsw * n.Sub())
  {
    hide Net.Sub;
  }

  lemma WidthSum(i: nat, nsw: nat, nz: nat, x: nat)
    requires nz <= nsw
    ensures (i * nsw + nz) * x + (nsw - nz) * x == ((i + 1) * nsw + 0) * x
  {
    assert (i * nsw + nz) * x + (nsw - nz) * x == (i * nsw + nsw) * x;
    assert (i + 1) * nsw == i * nsw + nsw;
  }

  lemma HeightSum(nsh: nat, nz: nat, nsw: nat, x: nat)
    requires nz <= nsh
    ensures (nz * nsw + 0) * x + (nsh - nz) * (nsw * x) == nsh * nsw * x
  {
    assert nz * nsw * x == nz * (nsw * x);
    assert nsh * nsw * x == nsh * (nsw * x);
    assert nz * (nsw * x) + (nsh - nz) * (nsw * x) == nsh * (nsw * x);
  }

  lemma RowFits(i: nat, nsh: nat, nsw: nat, x: nat)
    requires i < nsh
    ensures ((i + 1) * nsw + 0) * x <= nsh * nsw * x
  {
    MulMono(i + 1, nsh, nsw);
    MulMono((i + 1) * nsw, nsh * nsw, x);
  }

  // ---------- steps of the in0 reader ----------

  lemma ReaderEffects<T>(n: Net<T>, s: State<T>)
    requires n.Valid() && ReadyR(n, s) && BoundsR(n, s)
    ensures s.r.pos != End(n)
    ensures var s' := StepR(n, s);
            && s'.r == AdvanceR(n, s.r) && s'.c == s.c && s'.w == s.w
            && s'.cb1 == s.cb1 && s'.cb16 == s.cb16 && s'.cb24 == s.cb24
            && s'.m1 == s.m1 && s'.m == s.m && s'.dst == s.dst && s'.out == s.out
            && s'.cb0 == (if s.r.ph == RPush then s.cb0.Push(n.N0()) else s.cb0)
            && s'.m0 == (if s.r.ph == RFill then Put(s.m0, s.cb0.wr, n.In0Block(s.r.pos.bh, s.r.pos.blk)) else s.m0)
  {
    hide Net.N0, Net.Valid, Net.In0Block, Put, AdvanceR;
  }

  lemma ReaderInputs<T>(n: Net<T>, s: State<T>)
    requires n.Valid() && Inputs(n, s) && ReaderInv(n, s) && ReadyR(n, s) && BoundsR(n, s)
    ensures Inputs(n, StepR(n, s)) && StepR(n, s).cb0.held >= s.cb0.held
  {
    hide Net.N0, Net.N1, Net.Valid, Net.In0Block, Net.In1Block, Put, StepR, Feed, Succ, AdvanceR;
    n.Sizes();
    ReaderEffects(n, s);
    var p0 := Front0(n, s.c);
    var p1 := Succ(n, p0);
    var b1, b2 := n.In0Block(p0.bh, p0.blk), n.In0Block(p1.bh, p1.blk);
    FeedHeld(s.cb0, s.m0, n.N0(), b1, b2);
    FeedHasRoom(s.cb0, s.m0, n.N0(), b1, b2);
    match s.r.ph
    case RReserve =>
    case RFill => FeedFill(s.cb0, s.m0, n.N0(), b1, b2, n.In0Block(s.r.pos.bh, s.r.pos.blk));
    case RPush => FeedPush(s.cb0, s.m0, n.N0(), b1, b2, n.In0Block(s.r.pos.bh, s.r.pos.blk));
  }

  lemma FeedHasRoom<T>(q: Ring, mem: seq<T>, k: nat, b1: seq<T>, b2: seq<T>)
    requires 0 < k && Feed(q, mem, k, b1, b2) && q.held + k <= q.cap
    ensures (q.held == 0 || q.held == k) && CanPush(q, k) && q.wr + k <= |mem|
  {
  }

  lemma ReaderIsEnvironment<T>(n: Net<T>, s: State<T>)
    requires ComputeInv(n, s) && ReaderInv(n, s) && ReadyR(n, s) && BoundsR(n, s)
    ensures Environment(n, s, StepR(n, s))
  {
    hide Net.N0, Net.N1, Net.Valid, Net.In0Block, Net.In1Block, Net.Sub, Net.Cap, Net.Base, StepR, Inputs, Waited,
         Control, PartRing, SharedMem, Registers, AdvanceR, Put;
    ReaderEffects(n, s);
    ReaderInputs(n, s);
    RdInside(n, s.c, s.cb16, n.Base(s.c.i0, s.c.i1));
  }

  lemma RdInside<T>(n: Net<T>, c: Compute, q: Ring, base: nat)
    requires n.Valid() && Control(n, c, base) && OutRing(n, c, q, base)
    ensures q.rd < q.cap && q.held <= q.cap && 0 <= q.wr < q.cap
  {
    hide Net.Sub, Net.Cap, Net.Valid;
    n.Sizes();
  }

  lemma SuccInRange<T>(n: Net<T>, p: Pos)
    requires n.Valid() && InRange(n, p) && p != End(n)
    ensures InRange(n, Succ(n, p)) && InRange(n, NextOuter(n, p))
  {
    hide Net.Valid;
    n.Sizes();
  }

  lemma ReaderStepKeepsReader<T>(n: Net<T>, s: State<T>)
    requires n.Valid() && Inputs(n, s) && ReaderInv(n, s) && ReadyR(n, s) && BoundsR(n, s)
    ensures ReaderInv(n, StepR(n, s))
  {
    hide Net.N0, Net.N1, Net.Valid, Net.In0Block, Net.In1Block, StepR, Feed, Succ, Put;
    n.Sizes();
    ReaderEffects(n, s);
    SuccInRange(n, s.r.pos);
    var p0 := Front0(n, s.c);
    var p1 := Succ(n, p0);
    FeedHeld(s.cb0, s.m0, n.N0(), n.In0Block(p0.bh, p0.blk), n.In0Block(p1.bh, p1.blk));
    if s.r.ph == RPush {
      RingHasRoom(n, s);
    }
  }

  lemma RingHasRoom<T>(n: Net<T>, s: State<T>)
    requires n.Valid() && Inputs(n, s) && s.cb0.Free() >= n.N0()
    ensures s.cb0.held <= n.N0()
  {
    hide Net.N0, Net.Valid, Net.In0Block, Net.In1Block, Succ;
  }

  lemma ReaderStepKeepsInv<T>(n: Net<T>, s: State<T>)
    requires Inv(n, s) && ReadyR(n, s) && BoundsR(n, s)
    ensures Inv(n, StepR(n, s))
  {
    ReaderIsEnvironment(n, s);
    EnvironmentKeepsInv(n, s, StepR(n, s));
    ReaderInputsKnown(n, s);
    ReaderStepKeepsReader(n, s);
    ReaderStepKeepsWriter(n, s);
    hide ComputeInv, ReaderInv, WriterFeed, WriterLink, WriterOk, StepR, ReadyR, BoundsR, Environment;
  }

  lemma ReaderInputsKnown<T>(n: Net<T>, s: State<T>)
    requires ComputeInv(n, s)
    ensures n.Valid() && Inputs(n, s) && Waited(n, s)
  {
    hide Inputs, Waited, Net.Valid, Net.Sub, Net.Cap, Net.Base, Control, OutRing, PartRing, SharedMem, Registers;
  }

  lemma ReaderStepKeepsWriter<T>(n: Net<T>, s: State<T>)
    requires n.Valid() && WriterOk(n, s.w) && WriterFeed(n, s) && WriterLink(n, s) && ReadyR(n, s) && BoundsR(n, s)
    ensures var s' := StepR(n, s); WriterOk(n, s'.w) && WriterFeed(n, s') && WriterLink(n, s')
  {
    hide Net.N0, Net.N1, Net.Valid, Net.In0Block, Net.In1Block, Net.Sub, Net.Cap, Net.Base, StepR, Put, WriterOk,
         Linked, Popped, WSkip, HSkip, Ahead, In1Pos;
    ReaderEffects(n, s);
  }

  // ---------- steps of the in1 reader and output writer ----------

  // Tiles the writer pops from CB16 in its next step.
  function Pops<T>(n: Net<T>, w: Writer): nat {
    if w.ph == WPop then n.Sub()
    else if w.ph == WPopW then WSkip(n, w.pos.bw)
    else if w.ph == WPopH then HSkip(n, w.pos.bh)
    else 0
  }

  lemma WriterEffects<T>(n: Net<T>, s: State<T>)
    requires n.Valid() && ReadyW(n, s) && BoundsW(n, s) && s.cb16.rd < s.cb16.cap
    ensures s.w.pos != End(n) && Pops(n, s.w) <= s.cb16.held && Pops(n, s.w) <= s.cb16.cap
    ensures var s' := StepW(n, s);
            && s'.w == AdvanceW(n, s.w) && s'.c == s.c && s'.r == s.r
            && s'.cb0 == s.cb0 && s'.cb24 == s.cb24
            && s'.m0 == s.m0 && s'.m == s.m && s'.dst == s.dst
            && s'.cb16 == s.cb16.Pop(Pops(n, s.w))
            && s'.cb1 == (if s.w.ph == WPush then s.cb1.Push(n.N1()) else s.cb1)
            && s'.m1 == (if s.w.ph == WFill then Put(s.m1, s.cb1.wr, n.In1Block(s.w.pos.bw, s.w.pos.blk)) else s.m1)
            && (s.w.ph != WWrite ==> s'.out == s.out)
  {
    hide Net.N1, Net.Sub, Net.Valid, Net.In1Block, Put, AdvanceW, WSkip, HSkip, WriteSub;
  }

  lemma WriterInputs<T>(n: Net<T>, s: State<T>)
    requires n.Valid() && Inputs(n, s) && WriterFeed(n, s) && ReadyW(n, s) && BoundsW(n, s)
    requires s.cb16.rd < s.cb16.cap && WriterOk(n, s.w)
    ensures Inputs(n, StepW(n, s)) && StepW(n, s).cb1.held >= s.cb1.held
  {
    hide Net.N0, Net.N1, Net.Valid, Net.In0Block, Net.In1Block, Put, StepW, Feed, Succ, AdvanceW, Net.Sub, WSkip,
         HSkip;
    n.Sizes();
    WriterEffects(n, s);
    var p0 := s.c.pos;
    var p1 := Succ(n, p0);
    var b1, b2 := n.In1Block(p0.bw, p0.blk), n.In1Block(p1.bw, p1.blk);
    FeedHeld(s.cb1, s.m1, n.N1(), b1, b2);
    match s.w.ph
    case WFill =>
      FeedHasRoom(s.cb1, s.m1, n.N1(), b1, b2);
      FeedFill(s.cb1, s.m1, n.N1(), b1, b2, n.In1Block(s.w.pos.bw, s.w.pos.blk));
    case WPush =>
      FeedHasRoom(s.cb1, s.m1, n.N1(), b1, b2);
      FeedPush(s.cb1, s.m1, n.N1(), b1, b2, n.In1Block(s.w.pos.bw, s.w.pos.blk));
    case _ =>
  }

  lemma WriterIsEnvironment<T>(n: Net<T>, s: State<T>)
    requires ComputeInv(n, s) && WriterFeed(n, s) && WriterOk(n, s.w) && ReadyW(n, s) && BoundsW(n, s)
    ensures Environment(n, s, StepW(n, s))
  {
    hide Net.N0, Net.N1, Net.Valid, Net.In0Block, Net.In1Block, Net.Sub, Net.Cap, Net.Base, StepW, Inputs, Waited,
         Control, PartRing, SharedMem, Registers, AdvanceW, Put, OutRing, Pops, BoundsW;
    RdInside(n, s.c, s.cb16, n.Base(s.c.i0, s.c.i1));
    WriterEffects(n, s);
    WriterInputs(n, s);
  }

  lemma WriterStepKeepsOk<T>(n: Net<T>, w: Writer)
    requires n.Valid() && WriterOk(n, w) && w.pos != End(n)
    ensures WriterOk(n, AdvanceW(n, w))
    ensures In1Pos(n, AdvanceW(n, w)) == if w.ph == WPush then Succ(n, w.pos) else In1Pos(n, w)
  {
    hide Net.Valid, Net.Sub;
    n.Sizes();
    Visits(n, w.pos);
    SuccInRange(n, w.pos);
  }

  lemma Visits<T>(n: Net<T>, p: Pos)
    requires n.Valid()
    ensures 0 < NonzeroH(n, p.bh) <= n.nsh && 0 < NonzeroW(n, p.bw) <= n.nsw
  {
    hide Net.Sub;
  }

  lemma WriterStepKeepsFeed<T>(n: Net<T>, s: State<T>)
    requires n.Valid() && Inputs(n, s) && WriterFeed(n, s) && WriterOk(n, s.w) && ReadyW(n, s) && BoundsW(n, s)
    requires s.cb16.rd < s.cb16.cap
    ensures WriterFeed(n, StepW(n, s))
  {
    hide Net.N0, Net.N1, Net.Valid, Net.In0Block, Net.In1Block, StepW, Feed, Succ, Put, Net.Sub, WSkip, HSkip, In1Pos,
         NonzeroH, NonzeroW, Pops;
    n.Sizes();
    WriterEffects(n, s);
    WriterStepKeepsOk(n, s.w);
    var p0 := s.c.pos;
    var p1 := Succ(n, p0);
    FeedHeld(s.cb1, s.m1, n.N1(), n.In1Block(p0.bw, p0.blk), n.In1Block(p1.bw, p1.blk));
    if s.w.ph == WPush {
      RingHasRoom1(n, s);
      PushingAt(n, s.w);
    }
  }

  lemma PushingAt<T>(n: Net<T>, w: Writer)
    requires w.ph == WPush
    ensures In1Pos(n, w) == w.pos
  {
  }

  lemma RingHasRoom1<T>(n: Net<T>, s: State<T>)
    requires n.Valid() && Inputs(n, s) && s.cb1.Free() >= n.N1()
    ensures s.cb1.held <= n.N1()
  {
    hide Net.N1, Net.Valid, Net.In0Block, Net.In1Block, Succ;
  }

  lemma PoppedStep<T>(n: Net<T>, w: Writer)
    requires n.Valid() && WriterOk(n, w) && w.pos != End(n)
    ensures w.ph != WPopH ==> Popped(n, AdvanceW(n, w)) == Popped(n, w) + Pops(n, w) <= n.Cap()
    ensures w.ph == WPopH ==> Popped(n, AdvanceW(n, w)) == 0 && Popped(n, w) + Pops(n, w) == n.Cap()
  {
    n.Sizes();
    n.BaseNext(0, 0);
    if !Feeding(w.ph) {
      WriterConserves(n, w);
    }
    hide Net.Sub, Net.Cap, Net.Base, Net.Valid, NonzeroW, WSkip, HSkip;
    Visits(n, w.pos);
    if !Feeding(w.ph) {
      n.BaseBounds(w.sbh, 0);
      SkipsFit(n, w);
    }
  }

  lemma LinkStep<T>(n: Net<T>, c: Compute, w: Writer, held: nat, pushed: nat)
    requires n.Valid() && WriterOk(n, w) && w.pos != End(n) && Pops(n, w) <= held && pushed <= n.Cap()
    requires Linked(n, c, w, held, pushed, Popped(n, w))
    requires w.ph == WPopH ==> held >= HSkip(n, w.pos.bh)
    ensures Linked(n, c, AdvanceW(n, w), held - Pops(n, w), pushed, Popped(n, AdvanceW(n, w)))
    ensures Popped(n, AdvanceW(n, w)) <= n.Cap()
  {
    hide Net.Sub, Net.Cap, Net.Base, Net.Valid, NonzeroW, NonzeroH, WSkip, HSkip, Popped, Pops, NextOuter;
    n.Sizes();
    PoppedStep(n, w);
    OuterKept(n, w);
    if SameOuter(w.pos, c.pos) {
      SameNext(n, w.pos, c.pos);
    }
    if w.ph != WPopH {
      SameNext(n, w.pos, AdvanceW(n, w).pos);
    }
  }

  lemma OuterKept<T>(n: Net<T>, w: Writer)
    ensures w.ph != WPopH && (w.ph != WPush || w.pos.blk + 1 >= n.nb) ==> AdvanceW(n, w).pos == w.pos
    ensures w.ph == WPush && w.pos.blk + 1 < n.nb ==> AdvanceW(n, w).pos == Pos(w.pos.bh, w.pos.bw, w.pos.blk + 1)
    ensures w.ph == WPopH ==> AdvanceW(n, w).pos == NextOuter(n, w.pos)
  {
  }

  lemma SameNext<T>(n: Net<T>, p: Pos, p': Pos)
    requires SameOuter(p, p')
    ensures NextOuter(n, p) == NextOuter(n, p')
  {
  }

  lemma WriterStepKeepsLink<T>(n: Net<T>, s: State<T>)
    requires ComputeInv(n, s) && WriterOk(n, s.w) && WriterLink(n, s) && ReadyW(n, s) && BoundsW(n, s)
    ensures WriterLink(n, StepW(n, s))
  {
    hide Net.Sub, Net.Cap, Net.Base, Net.Valid, StepW, Inputs, Waited, Control, PartRing, SharedMem, Registers,
         OutRing, Linked, Popped, NonzeroW, NonzeroH, WSkip, HSkip, BoundsW, Pops, Net.N1;
    var base := n.Base(s.c.i0, s.c.i1);
    RdInside(n, s.c, s.cb16, base);
    PushedBound(n, s.c, base);
    WriterEffects(n, s);
    LinkStep(n, s.c, s.w, s.cb16.held, Pushed(n, s.c, base));
    HeldWhileReading(n, s.w, s.cb16);
  }

  lemma HeldWhileReading<T>(n: Net<T>, w: Writer, q: Ring)
    requires n.Valid() && Pops(n, w) <= q.held
    requires w.ph == WWait || w.ph == WWrite ==> q.held >= n.Sub()
    requires w.ph == WWaitW ==> q.held >= WSkip(n, w.pos.bw)
    requires w.ph == WWaitH ==> q.held >= HSkip(n, w.pos.bh)
    ensures var w', held := AdvanceW(n, w), q.held - Pops(n, w);
            && (w'.ph == WWrite || w'.ph == WPop ==> held >= n.Sub())
            && (w'.ph == WPopW ==> held >= WSkip(n, w'.pos.bw))
            && (w'.ph == WPopH ==> held >= HSkip(n, w'.pos.bh))
  {
    hide Net.Sub, Net.Valid, NonzeroW, NonzeroH, WSkip, HSkip;
  }

  lemma WriterStepKeepsReader<T>(n: Net<T>, s: State<T>)
    requires n.Valid() && ReaderInv(n, s) && ReadyW(n, s) && BoundsW(n, s) && s.cb16.rd < s.cb16.cap
    ensures ReaderInv(n, StepW(n, s))
  {
    hide Net.N0, Net.N1, Net.Valid, Net.In0Block, Net.In1Block, Net.Sub, Net.Cap, Net.Base, StepW, Put, WSkip, HSkip,
         Ahead, Pops, BoundsW;
    WriterEffects(n, s);
  }

  lemma RdKnown<T>(n: Net<T>, s: State<T>)
    requires ComputeInv(n, s)
    ensures s.cb16.rd < s.cb16.cap == n.Cap() && s.cb16.held <= s.cb16.cap
  {
    hide Inputs, Waited, Net.Valid, Net.Sub, Net.Cap, Net.Base, Control, OutRing, PartRing, SharedMem, Registers;
    RdInside(n, s.c, s.cb16, n.Base(s.c.i0, s.c.i1));
    CapIs(n, s.c, s.cb16, n.Base(s.c.i0, s.c.i1));
  }

  lemma CapIs<T>(n: Net<T>, c: Compute, q: Ring, base: nat)
    requires OutRing(n, c, q, base)
    ensures q.cap == n.Cap()
  {
  }

  lemma WriterStepKeepsInv<T>(n: Net<T>, s: State<T>)
    requires Inv(n, s) && ReadyW(n, s) && BoundsW(n, s)
    ensures Inv(n, StepW(n, s))
  {
    hide ComputeInv, ReaderInv, WriterFeed, WriterLink, WriterOk, StepW, ReadyW, BoundsW, Environment, Net.Valid;
    ReaderInputsKnown(n, s);
    RdKnown(n, s);
    WriterIsEnvironment(n, s);
    EnvironmentKeepsInv(n, s, StepW(n, s));
    WriterStepKeepsReader(n, s);
    WriterEffects(n, s);
    WriterStepKeepsOk(n, s.w);
    WriterStepKeepsFeed(n, s);
    WriterStepKeepsLink(n, s);
  }

  // ---------- steps of the compute kernel, seen by the other two ----------

  lemma ComputeStepKeepsReader<T>(n: Net<T>, s: State<T>)
    requires n.Valid() && Inputs(n, s) && ReaderInv(n, s) && ReadyC(n, s) && BoundsC(n, s)
    ensures ReaderInv(n, StepC(n, s))
  {
    hide Net.N0, Net.N1, Net.Valid, Net.In0Block, Net.In1Block, Net.Sub, Net.Cap, Net.Base, StepC, Put, Feed, Succ,
         InRange, NextOut, NextPart, Multiply, AdvanceC;
    n.Sizes();
    Effects(n, s);
    FrontMoves(n, s.c);
    var p0 := Front0(n, s.c);
    var p1 := Succ(n, p0);
    FeedHeld(s.cb0, s.m0, n.N0(), n.In0Block(p0.bh, p0.blk), n.In0Block(p1.bh, p1.blk));
  }

  lemma FrontMoves<T>(n: Net<T>, c: Compute)
    ensures Front0(n, AdvanceC(n, c)) == if c.ph == CPop0 then Succ(n, c.pos) else Front0(n, c)
    ensures AdvanceC(n, c).pos == if c.ph == CPop1 then Succ(n, c.pos) else c.pos
    ensures c.ph == CPop0 ==> Front0(n, c) == c.pos
  {
    hide Succ, Net.Sub;
  }

  lemma ComputeStepKeepsFeed<T>(n: Net<T>, s: State<T>)
    requires n.Valid() && Inputs(n, s) && WriterFeed(n, s) && ReadyC(n, s) && BoundsC(n, s)
    ensures WriterFeed(n, StepC(n, s)) && StepC(n, s).w == s.w
  {
    hide Net.N0, Net.N1, Net.Valid, Net.In0Block, Net.In1Block, Net.Sub, Net.Cap, Net.Base, StepC, Put, Feed, Succ,
         InRange, NextOut, NextPart, Multiply, AdvanceC, In1Pos;
    n.Sizes();
    Effects(n, s);
    FrontMoves(n, s.c);
    var p0 := s.c.pos;
    var p1 := Succ(n, p0);
    FeedHeld(s.cb1, s.m1, n.N1(), n.In1Block(p0.bw, p0.blk), n.In1Block(p1.bw, p1.blk));
  }

  // Once compute has an in1 block of an output block, the writer is done with the one before.
  lemma NotAheadOnceFed<T>(n: Net<T>, c: Compute, w: Writer, q: Ring)
    requires n.Valid() && WriterOk(n, w) && w.pos != End(n) && InRange(n, c.pos) && c.pos != End(n)
    requires In1Pos(n, w) == Ahead(n, c.pos, q, n.N1()) && q.held >= n.N1()
    requires q.held == n.N1() || q.held == 2 * n.N1()
    ensures !SameOuter(NextOuter(n, w.pos), c.pos)
  {
    hide Net.N1, Net.Valid;
    n.Sizes();
  }

  lemma ComputeLinkStep<T>(n: Net<T>, c: Compute, w: Writer, q: Ring, base: nat, popped: nat)
    requires n.Valid() && Control(n, c, base) && c.pos != End(n) && OutRing(n, c, q, base) && popped <= n.Cap()
    requires c.ph == CPushOut ==> CanPush(q, n.Sub())
    requires Linked(n, c, w, q.held, Pushed(n, c, base), popped)
    requires c.ph == CWait1 ==> !SameOuter(NextOuter(n, w.pos), c.pos)
    ensures var c' := AdvanceC(n, c);
            Linked(n, c', w, NextOut(n, c, q).held, Pushed(n, c', NextBase(n, c, base)), popped)
  {
    n.Sizes();
    if c.ph == CPop1 {
      hide Net.Sub, Net.Cap, Net.Valid, NextOuter;
      ComputeLinkNextBlock(n, c, w, q, base, popped);
    } else {
      hide Net.Sub, Net.Cap, Net.Valid, NextOuter;
      if SameOuter(w.pos, c.pos) {
        SameNext(n, w.pos, c.pos);
      }
    }
  }

  lemma ComputeLinkNextBlock<T>(n: Net<T>, c: Compute, w: Writer, q: Ring, base: nat, popped: nat)
    requires n.Valid() && Control(n, c, base) && c.pos != End(n) && OutRing(n, c, q, base) && popped <= n.Cap()
    requires Linked(n, c, w, q.held, Pushed(n, c, base), popped) && c.ph == CPop1
    ensures Linked(n, AdvanceC(n, c), w, q.held, Pushed(n, AdvanceC(n, c), 0), popped)
  {
    hide Net.Sub, Net.Cap, Net.Valid;
    n.Sizes();
    if SameOuter(w.pos, c.pos) {
      SameNext(n, w.pos, c.pos);
    }
    if c.pos.blk + 1 < n.nb {
      SameNext(n, c.pos, Succ(n, c.pos));
    }
  }

  lemma ComputeStepKeepsLink<T>(n: Net<T>, s: State<T>)
    requires Inv(n, s) && ReadyC(n, s) && BoundsC(n, s)
    ensures WriterLink(n, StepC(n, s))
  {
    hide Net.Sub, Net.Cap, Net.Base, Net.Valid, StepC, Inputs, Waited, Control, PartRing, SharedMem, Registers,
         OutRing, Linked, Popped, WSkip, HSkip, AdvanceC, Net.N0, Net.N1, ReaderInv, WriterFeed, WriterOk, NextBase,
         Multiply, Put;
    var base := n.Base(s.c.i0, s.c.i1);
    Effects(n, s);
    StepControl(n, s, base);
    if s.c.ph == CWait1 {
      FedWriter(n, s);
    }
    ComputeLinkStep(n, s.c, s.w, s.cb16, base, Popped(n, s.w));
    HeldGrows(n, s.c, s.cb16);
  }

  lemma HeldGrows<T>(n: Net<T>, c: Compute, q: Ring)
    requires c.ph == CPushOut ==> CanPush(q, n.Sub())
    ensures NextOut(n, c, q).held >= q.held
  {
    hide Net.Sub;
  }

  lemma FedWriter<T>(n: Net<T>, s: State<T>)
    requires Inv(n, s) && ReadyC(n, s) && s.c.ph == CWait1
    ensures !SameOuter(NextOuter(n, s.w.pos), s.c.pos)
  {
    hide Net.Sub, Net.Cap, Net.Base, Net.Valid, Waited, PartRing, SharedMem, Registers, OutRing, Feed, Linked, Popped,
         WSkip, HSkip, AdvanceC, Net.N0, Net.N1, ReaderInv, WriterOk, WriterLink, NextOuter, Succ, Net.In0Block,
         Net.In1Block;
    var p0 := s.c.pos;
    var p1 := Succ(n, p0);
    n.Sizes();
    FeedHeld(s.cb1, s.m1, n.N1(), n.In1Block(p0.bw, p0.blk), n.In1Block(p1.bw, p1.blk));
    if s.w.pos == End(n) {
      EndIsLast(n, s.c.pos);
    } else {
      NotAheadOnceFed(n, s.c, s.w, s.cb1);
    }
  }

  lemma EndIsLast<T>(n: Net<T>, p: Pos)
    requires n.Valid() && InRange(n, p)
    ensures !SameOuter(NextOuter(n, End(n)), p)
  {
    hide Net.Valid;
    n.Sizes();
  }

  lemma ComputeStepKeepsAll<T>(n: Net<T>, s: State<T>)
    requires Inv(n, s) && ReadyC(n, s) && BoundsC(n, s)
    ensures Inv(n, StepC(n, s))
  {
    hide ComputeInv, ReaderInv, WriterFeed, WriterLink, WriterOk, StepC, ReadyC, BoundsC, Net.Valid;
    ReaderInputsKnown(n, s);
    ComputeStepKeepsInv(n, s);
    ComputeStepKeepsReader(n, s);
    ComputeStepKeepsFeed(n, s);
    ComputeStepKeepsLink(n, s);
  }

  // ---------- every step of every process ----------

  lemma StepKeepsInv<T>(n: Net<T>, s: State<T>, p: Proc)
    requires n.Valid() && Inv(n, s) && CanStep(n, s, p)
    ensures Inv(n, Exec(n, s, p))
  {
    hide Inv, StepR, StepC, StepW, ReadyR, ReadyC, ReadyW, BoundsR, BoundsC, BoundsW, Net.Valid;
    match p
    case In0Reader => ReaderStepKeepsInv(n, s);
    case ComputeKernel => ComputeStepKeepsAll(n, s);
    case In1Writer => WriterStepKeepsInv(n, s);
  }

  lemma InitInv<T>(n: Net<T>, s: State<T>)
    requires n.Valid() && Init(n, s)
    ensures Inv(n, s)
  {
    hide ComputeInv, Net.Sub, Net.Cap, Net.N0, Net.N1, Net.Base, Net.Valid, Net.In0Block, Net.In1Block;
    Established(n, s);
    n.Sizes();
    n.BaseNext(0, 0);
  }

  lemma {:induction false} RunKeepsInv<T>(n: Net<T>, ss: seq<State<T>>)
    requires n.Valid() && IsRun(n, ss)
    ensures Inv(n, ss[|ss| - 1])
  {
    hide Inv, Net.Valid, Exec, CanStep, Init;
    var k := |ss| - 1;
    if k == 0 {
      InitInv(n, ss[0]);
    } else {
      assert ss[..k][k - 1] == ss[k - 1];
      RunKeepsInv(n, ss[..k]);
      assert Step(n, ss[k - 1], ss[k]);
      var p :| CanStep(n, ss[k - 1], p) && ss[k] == Exec(n, ss[k - 1], p);
      StepKeepsInv(n, ss[k - 1], p);
    }
  }
}
