// What the invariant gives for whole runs of one core: no access out of bounds, no
// deadlock, every maximal run equally long, and one possible final output.
module Runs {
  import opened CoreNet
  import opened Machine
  import opened Safety
  import opened Protocol

  // ---------- a ready process never leaves its buffers ----------

  lemma ReaderInBounds<T>(n: Net<T>, s: State<T>)
    requires Inv(n, s) && ReadyR(n, s)
    ensures BoundsR(n, s)
  {
    hide ComputeInv, Net.Valid, Net.N0, Net.N1, Net.In0Block, Net.In1Block, WriterOk, WriterFeed, WriterLink, Succ,
         Feed, CanPush;
    ReaderInputsKnown(n, s);
    n.Sizes();
    var p0 := Front0(n, s.c);
    var p1 := Succ(n, p0);
    if s.r.ph != RReserve {
      FeedHasRoom(s.cb0, s.m0, n.N0(), n.In0Block(p0.bh, p0.blk), n.In0Block(p1.bh, p1.blk));
    }
  }

  // The writer reads where it has popped up to.
  lemma ReadPointer<T>(n: Net<T>, c: Compute, w: Writer, q: Ring, base: nat, popped: nat)
    requires n.Valid() && Control(n, c, base) && OutRing(n, c, q, base) && popped <= n.Cap()
    requires Linked(n, c, w, q.held, Pushed(n, c, base), popped)
    ensures q.rd == q.Wrap(popped)
  {
    hide Net.Sub, Net.Cap, Net.Valid, NextOuter, SameOuter;
    n.Sizes();
  }

  lemma ReadPointerOf<T>(n: Net<T>, s: State<T>)
    requires Inv(n, s)
    ensures s.cb16.rd == s.cb16.Wrap(Popped(n, s.w)) && s.cb16.cap == n.Cap() == |s.m|
  {
    hide Net.Sub, Net.Cap, Net.Valid, Net.Base, Net.N0, Net.N1, Inputs, Waited, PartRing, Registers, Control, OutRing,
         ReaderInv, WriterFeed, WriterOk, Linked, Popped, Net.Partial;
    var base := n.Base(s.c.i0, s.c.i1);
    ReadPointer(n, s.c, s.w, s.cb16, base, Popped(n, s.w));
    RdKnown(n, s);
  }

  lemma WriterInBounds<T>(n: Net<T>, s: State<T>)
    requires Inv(n, s) && ReadyW(n, s)
    ensures BoundsW(n, s)
  {
    hide ComputeInv, Net.Valid, Net.N0, Net.N1, Net.In0Block, Net.In1Block, Succ, Feed, Net.Sub, Net.Cap, Net.Base,
         ReaderInv, Popped, WSkip, HSkip, NonzeroH, NonzeroW, Linked, In1Pos, CanPush, Ahead;
    ReaderInputsKnown(n, s);
    n.Sizes();
    RdKnown(n, s);
    ReadPointerOf(n, s);
    var p0 := s.c.pos;
    var p1 := Succ(n, p0);
    if s.w.ph == WFill || s.w.ph == WPush {
      FeedHasRoom(s.cb1, s.m1, n.N1(), n.In1Block(p0.bw, p0.blk), n.In1Block(p1.bw, p1.blk));
    } else if !Feeding(s.w.ph) {
      WriterFits(n, s.w);
    }
  }

  lemma WriterFits<T>(n: Net<T>, w: Writer)
    requires n.Valid() && WriterOk(n, w) && !Feeding(w.ph)
    ensures InSub(w.ph) ==> Popped(n, w) + n.Sub() <= n.Cap()
    ensures w.ph == WPopW ==> Popped(n, w) + WSkip(n, w.pos.bw) <= n.Cap()
    ensures w.ph == WPopH ==> Popped(n, w) + HSkip(n, w.pos.bh) == n.Cap()
  {
    hide Popped, WSkip, HSkip, Net.Sub, Net.Cap, WriterOk;
    WriterConserves(n, w);
  }

  lemma ReadyIsInBounds<T>(n: Net<T>, s: State<T>, p: Proc)
    requires n.Valid() && Inv(n, s) && Ready(n, s, p)
    ensures CanStep(n, s, p)
  {
    hide Inv, ReadyR, ReadyC, ReadyW, BoundsR, BoundsC, BoundsW, Net.Valid;
    match p
    case In0Reader => ReaderInBounds(n, s);
    case ComputeKernel => ComputeInvOf(n, s); ComputeInBounds(n, s);
    case In1Writer => WriterInBounds(n, s);
  }

  lemma ComputeInvOf<T>(n: Net<T>, s: State<T>)
    requires Inv(n, s)
    ensures ComputeInv(n, s)
  {
    hide ComputeInv, ReaderInv, WriterOk, WriterFeed, WriterLink;
  }

  // ---------- no deadlock ----------

  // Once it has its inputs, the compute kernel never waits.
  lemma ComputeNeverWaits<T>(n: Net<T>, s: State<T>)
    requires Inv(n, s) && s.c.ph != CWait0 && s.c.ph != CWait1
    ensures ReadyC(n, s)
  {
    hide Net.Sub, Net.Cap, Net.Base, Net.Valid, Inputs, Waited, PartRing, SharedMem, Registers, Net.N0, Net.N1,
         ReaderInv, WriterFeed, WriterOk, Popped, NextOuter;
    var base := n.Base(s.c.i0, s.c.i1);
    if s.c.ph == CWaitPart || s.c.ph == CRsvPart {
      PartialsNeverBlock(n, s);
    } else {
      RoomInOut(n, s.c, s.w, s.cb16, base, Popped(n, s.w));
    }
  }

  lemma RoomInOut<T>(n: Net<T>, c: Compute, w: Writer, q: Ring, base: nat, popped: nat)
    requires n.Valid() && Control(n, c, base) && OutRing(n, c, q, base)
    requires Linked(n, c, w, q.held, Pushed(n, c, base), popped) && c.ph != CWait0 && c.ph != CWait1
    ensures c.pos != End(n)
    ensures c.ph == CRsvOut ==> q.Free() >= n.Sub()
    ensures c.ph == CGuard ==> q.Free() >= c.outWait
  {
    hide Net.Sub, Net.Cap, Net.Valid, NextOuter, SameOuter;
    n.Sizes();
  }

  // With its in0 block missing, the compute kernel waits for a reader that can go on.
  lemma ReaderFeeds<T>(n: Net<T>, s: State<T>)
    requires Inv(n, s) && s.c.ph == CWait0 && s.c.pos != End(n) && s.cb0.held < n.N0()
    ensures ReadyR(n, s)
  {
    hide ComputeInv, Net.Valid, Net.N0, Net.N1, Net.In0Block, Net.In1Block, WriterOk, WriterFeed, WriterLink, Succ;
    ReaderInputsKnown(n, s);
    n.Sizes();
  }

  // With its in1 block missing, it waits for a writer that either has room in CB1 or is
  // draining the previous output block, all of which is already in CB16.
  lemma WriterFeeds<T>(n: Net<T>, s: State<T>)
    requires Inv(n, s) && s.c.ph == CWait1 && s.cb1.held < n.N1()
    ensures ReadyW(n, s)
  {
    hide ComputeInv, Net.Valid, Net.N0, Net.N1, Net.In0Block, Net.In1Block, ReaderInv, Popped, Net.Sub, Net.Cap,
         Net.Base, NextOuter, WSkip, HSkip, NonzeroW, NonzeroH, Pushed, Succ, Linked;
    ReaderInputsKnown(n, s);
    n.Sizes();
    ComputeAt(n, s);
    var p := s.c.pos;
    if !Feeding(s.w.ph) {
      assert NextOuter(n, s.w.pos) == s.c.pos;
      DrainReady(n, s);
    }
  }

  lemma ComputeAt<T>(n: Net<T>, s: State<T>)
    requires ComputeInv(n, s)
    ensures InRange(n, s.c.pos) && (s.c.pos == End(n) ==> s.c.ph == CWait0)
  {
    hide Inputs, Waited, Net.Valid, Net.Sub, Net.Cap, Net.Base, OutRing, PartRing, SharedMem, Registers;
  }

  // The compute kernel is at the start of the output block after the writer's.
  lemma DrainReady<T>(n: Net<T>, s: State<T>)
    requires Inv(n, s) && !Feeding(s.w.ph) && s.c.pos == NextOuter(n, s.w.pos)
    requires s.c.ph == CWait0 || s.c.ph == CWait1
    ensures ReadyW(n, s)
  {
    hide Net.Sub, Net.Cap, Net.Base, Net.Valid, Inputs, Waited, PartRing, SharedMem, Registers, OutRing, Net.N0,
         Net.N1, ReaderInv, WriterFeed, Popped, NextOuter, WSkip, HSkip, NonzeroW, NonzeroH;
    var base := n.Base(s.c.i0, s.c.i1);
    NotSelf(n, s.w.pos);
    AllPushed(n, s.c, s.w, base, s.cb16.held, Popped(n, s.w));
    WriterWaitsFit(n, s.w);
  }

  lemma NotSelf<T>(n: Net<T>, p: Pos)
    requires n.Valid() && InRange(n, p) && p != End(n)
    ensures !SameOuter(p, NextOuter(n, p)) && NextOuter(n, p).blk == 0
    ensures !SameOuter(p, NextOuter(n, NextOuter(n, p)))
  {
    hide Net.Valid;
    n.Sizes();
  }

  lemma AllPushed<T>(n: Net<T>, c: Compute, w: Writer, base: nat, held: nat, popped: nat)
    requires n.Valid() && Control(n, c, base) && (c.ph == CWait0 || c.ph == CWait1)
    requires c.pos == NextOuter(n, w.pos) && c.pos.blk == 0
    requires !SameOuter(w.pos, c.pos) && !SameOuter(w.pos, NextOuter(n, c.pos))
    requires Linked(n, c, w, held, Pushed(n, c, base), popped)
    ensures held == n.Cap() - popped
  {
    hide Net.Sub, Net.Cap, Net.Valid, NextOuter, SameOuter;
  }

  lemma WriterWaitsFit<T>(n: Net<T>, w: Writer)
    requires n.Valid() && WriterOk(n, w) && !Feeding(w.ph)
    ensures w.ph == WWait ==> n.Sub() <= n.Cap() - Popped(n, w)
    ensures w.ph == WWaitW ==> WSkip(n, w.pos.bw) <= n.Cap() - Popped(n, w)
    ensures w.ph == WWaitH ==> HSkip(n, w.pos.bh) <= n.Cap() - Popped(n, w)
  {
    hide Popped, WSkip, HSkip, Net.Sub, Net.Cap, WriterOk;
    WriterConserves(n, w);
  }

  // Compute is finished: the readers have nothing left to push, the writer only drains.
  lemma FinishingUp<T>(n: Net<T>, s: State<T>)
    requires Inv(n, s) && s.c.pos == End(n) && s.w.pos != End(n)
    ensures ReadyW(n, s)
  {
    hide ComputeInv, Net.Valid, Net.N0, Net.N1, Net.In0Block, Net.In1Block, ReaderInv, WriterLink, NextOuter, Succ,
         NonzeroW, NonzeroH;
    ReaderInputsKnown(n, s);
    ComputeAt(n, s);
    n.Sizes();
    DrainReady(n, s);
  }

  lemma ReaderFinished<T>(n: Net<T>, s: State<T>)
    requires Inv(n, s) && s.c.pos == End(n)
    ensures s.r.pos == End(n)
  {
    hide ComputeInv, Net.Valid, Net.N0, Net.N1, Net.In0Block, Net.In1Block, WriterOk, WriterFeed, WriterLink, Succ;
    ReaderInputsKnown(n, s);
    ComputeAt(n, s);
    n.Sizes();
  }

  lemma NoDeadlock<T>(n: Net<T>, s: State<T>)
    requires n.Valid() && Inv(n, s) && !Done(n, s)
    ensures exists p :: CanStep(n, s, p)
  {
    hide Inv, ReadyR, ReadyC, ReadyW, InBounds, Net.Valid, Net.N0, Net.N1;
    var p := SomeoneIsReady(n, s);
    ReadyIsInBounds(n, s, p);
  }

  lemma SomeoneIsReady<T>(n: Net<T>, s: State<T>) returns (p: Proc)
    requires n.Valid() && Inv(n, s) && !Done(n, s)
    ensures Ready(n, s, p)
  {
    hide Inv, ReadyR, ReadyW, Net.Valid, Net.N0, Net.N1, Net.Sub;
    if s.c.pos == End(n) {
      ReaderFinished(n, s);
      FinishingUp(n, s);
      return In1Writer;
    } else if s.c.ph == CWait0 {
      if s.cb0.held >= n.N0() { return ComputeKernel; }
      ReaderFeeds(n, s);
      return In0Reader;
    } else if s.c.ph == CWait1 {
      if s.cb1.held >= n.N1() { return ComputeKernel; }
      WriterFeeds(n, s);
      return In1Writer;
    } else {
      ComputeNeverWaits(n, s);
      return ComputeKernel;
    }
  }

  // ---------- the remaining steps, and the remaining output, of each kernel ----------

  function RankR(ph: RPhase): nat {
    match ph case RReserve => 2 case RFill => 1 case RPush => 0
  }

  // How many steps the in0 reader still takes; likewise below for the other two kernels.
  ghost function LeftR<T>(n: Net<T>, r: Reader): nat
    requires n.Valid() && InRange(n, r.pos)
    decreases n.nbh - r.pos.bh, n.nbw - r.pos.bw, n.nb - r.pos.blk, RankR(r.ph)
  {
    if r.pos == End(n) then 0
    else
      SuccInRange(n, r.pos);
      1 + LeftR(n, AdvanceR(n, r))
  }

  function RankC(ph: CPhase): nat {
    match ph
    case CWait0 => 15 case CWait1 => 14 case CAcquire => 13 case CWaitPart => 12 case CCopy => 11 case CPopPart => 10
    case CMath => 9 case CRsvOut => 8 case CPackOut => 7 case CPushOut => 6
    case CGuard => 5 case CRsvPart => 4 case CPackPart => 3 case CPushPart => 2 case CPop0 => 1 case CPop1 => 0
  }

  predicate ComputeOk<T>(n: Net<T>, c: Compute) {
    && InRange(n, c.pos)
    && (c.ph == CWait0 || c.ph == CWait1 ==> c.i0 == 0 && c.i1 == 0)
    && (c.ph == CPop0 || c.ph == CPop1 ==> c.i0 == n.nsh && c.i1 == 0)
    && (Active(c.ph) ==> c.i0 < n.nsh && c.i1 < n.nsw)
  }

  lemma ComputeStaysOk<T>(n: Net<T>, c: Compute)
    requires n.Valid() && ComputeOk(n, c) && c.pos != End(n)
    ensures ComputeOk(n, AdvanceC(n, c))
  {
    hide Net.Valid, Net.Sub, Succ;
    n.Sizes();
    SuccInRange(n, c.pos);
  }

  ghost function LeftC<T>(n: Net<T>, c: Compute): nat
    requires n.Valid() && ComputeOk(n, c)
    decreases n.nbh - c.pos.bh, n.nbw - c.pos.bw, n.nb - c.pos.blk, n.nsh - c.i0, n.nsw - c.i1, RankC(c.ph)
  {
    if c.pos == End(n) then 0
    else
      ComputeStaysOk(n, c);
      1 + LeftC(n, AdvanceC(n, c))
  }

  function RankW(ph: WPhase): nat {
    match ph
    case WReserve => 2 case WFill => 1 case WPush => 0
    case WWait => 6 case WWrite => 5 case WPop => 4
    case WWaitW => 3 case WPopW => 2 case WWaitH => 1 case WPopH => 0
  }

  function BlocksLeft<T>(n: Net<T>, w: Writer): int { if Feeding(w.ph) then n.nb - w.pos.blk else 0 }
  function RowsLeft<T>(n: Net<T>, w: Writer): int { if Feeding(w.ph) then n.nsh else NonzeroH(n, w.pos.bh) - w.sbh }
  function ColsLeft<T>(n: Net<T>, w: Writer): int { if InSub(w.ph) then NonzeroW(n, w.pos.bw) - w.sbw else 0 }

  ghost function LeftW<T>(n: Net<T>, w: Writer): nat
    requires n.Valid() && WriterOk(n, w)
    decreases n.nbh - w.pos.bh, n.nbw - w.pos.bw, BlocksLeft(n, w), RowsLeft(n, w), ColsLeft(n, w), RankW(w.ph)
  {
    if w.pos == End(n) then 0
    else
      WriterStepKeepsOk(n, w);
      Visits(n, w.pos);
      1 + LeftW(n, AdvanceW(n, w))
  }

  ghost function StepsLeft<T>(n: Net<T>, s: State<T>): nat
    requires n.Valid() && InRange(n, s.r.pos) && ComputeOk(n, s.c) && WriterOk(n, s.w)
  {
    LeftR(n, s.r) + LeftC(n, s.c) + LeftW(n, s.w)
  }

  // The tiles of a sub-block in the finished output block.
  ghost function FinishedSub<T>(n: Net<T>, w: Writer): (r: seq<T>)
    requires n.Valid() && WriterOk(n, w) && InSub(w.ph)
    ensures |r| == n.Sub()
  {
    Visits(n, w.pos);
    n.BaseBounds(w.sbh, w.sbw);
    n.Partial(w.pos.bh, w.pos.bw, n.nb - 1)[n.Base(w.sbh, w.sbw)..n.Base(w.sbh, w.sbw) + n.Sub()]
  }

  // The output once the writer has run on from w, if every sub-block it reads is finished.
  ghost function Finish<T>(n: Net<T>, w: Writer, out: map<int, T>): map<int, T>
    requires n.Valid() && WriterOk(n, w)
    decreases n.nbh - w.pos.bh, n.nbw - w.pos.bw, BlocksLeft(n, w), RowsLeft(n, w), ColsLeft(n, w), RankW(w.ph)
  {
    if w.pos == End(n) then out
    else
      WriterStepKeepsOk(n, w);
      Visits(n, w.pos);
      Finish(n, AdvanceW(n, w), if w.ph == WWrite then WriteSub(n, w, out, FinishedSub(n, w)) else out)
  }

  // ---------- what the writer reads is finished ----------

  lemma PrevOfNext<T>(n: Net<T>, p: Pos, p': Pos)
    requires n.Valid() && InRange(n, p) && p != End(n) && SameOuter(NextOuter(n, p), p')
    ensures !IsFirst(p') && SameOuter(PrevOuter(n, p'), p)
  {
    hide Net.Valid;
    n.Sizes();
  }

  lemma WhereItReads<T>(n: Net<T>, c: Compute, w: Writer, q: Ring, base: nat, popped: nat)
    requires n.Valid() && Control(n, c, base) && OutRing(n, c, q, base)
    requires Linked(n, c, w, q.held, Pushed(n, c, base), popped)
    requires q.held >= n.Sub() && popped + n.Sub() <= n.Cap()
    ensures || (SameOuter(w.pos, c.pos) && c.pos.blk == n.nb - 1 && popped + n.Sub() <= Packed(n, c, base))
            || (SameOuter(NextOuter(n, w.pos), c.pos) && c.pos.blk == 0 && Packed(n, c, base) == 0)
  {
    hide Net.Sub, Net.Cap, Net.Valid, NextOuter, SameOuter;
    n.Sizes();
  }

  lemma PrefixSlice<T>(m: seq<T>, full: seq<T>, k: nat, lo: nat, hi: nat)
    requires |m| == |full| && lo <= hi <= k <= |m| && m[..k] == full[..k]
    ensures m[lo..hi] == full[lo..hi]
  {
    assert m[lo..hi] == m[..k][lo..hi];
    assert full[lo..hi] == full[..k][lo..hi];
  }

  lemma ReadsFinished<T>(n: Net<T>, c: Compute, w: Writer, q: Ring, m: seq<T>, base: nat, popped: nat)
    requires n.Valid() && Control(n, c, base) && OutRing(n, c, q, base) && SharedMem(n, c, m, Packed(n, c, base))
    requires InRange(n, w.pos) && w.pos != End(n)
    requires Linked(n, c, w, q.held, Pushed(n, c, base), popped)
    requires q.held >= n.Sub() && popped + n.Sub() <= n.Cap()
    ensures |m| == n.Cap()
    ensures m[popped..popped + n.Sub()] == n.Partial(w.pos.bh, w.pos.bw, n.nb - 1)[popped..popped + n.Sub()]
  {
    hide Net.Sub, Net.Cap, Net.Valid, Net.Partial, NextOuter, PrevOuter, Control, OutRing, Linked, Packed, Pushed,
         IsFirst;
    n.Sizes();
    WhereItReads(n, c, w, q, base, popped);
    var full := n.Partial(w.pos.bh, w.pos.bw, n.nb - 1);
    if SameOuter(w.pos, c.pos) && c.pos.blk == n.nb - 1 && popped + n.Sub() <= Packed(n, c, base) {
      PrefixSlice(m, full, Packed(n, c, base), popped, popped + n.Sub());
    } else {
      PrevOfNext(n, w.pos, c.pos);
      assert m[0..] == m && full[0..] == full;
    }
  }

  lemma WriterReads<T>(n: Net<T>, s: State<T>)
    requires Inv(n, s) && s.w.ph == WWrite && s.w.pos != End(n)
    ensures s.cb16.rd + n.Sub() <= |s.m|
    ensures s.m[s.cb16.rd..s.cb16.rd + n.Sub()] == FinishedSub(n, s.w)
  {
    hide Net.Sub, Net.Cap, Net.Base, Net.Valid, Inputs, Waited, PartRing, SharedMem, Registers, OutRing, Control,
         Net.N0, Net.N1, ReaderInv, WriterFeed, Linked, NonzeroH, NonzeroW, Net.Partial, Packed, Pushed;
    n.Sizes();
    var base := n.Base(s.c.i0, s.c.i1);
    WriterFits(n, s.w);
    ReadPointerOf(n, s);
    ReadsFinished(n, s.c, s.w, s.cb16, s.m, base, Popped(n, s.w));
  }

  // ---------- every step ----------

  ghost predicate Counted<T>(n: Net<T>, s: State<T>)
    requires n.Valid()
  {
    InRange(n, s.r.pos) && ComputeOk(n, s.c) && WriterOk(n, s.w)
  }

  lemma InvCounted<T>(n: Net<T>, s: State<T>)
    requires n.Valid() && Inv(n, s)
    ensures Counted(n, s)
  {
    hide Net.Sub, Net.Cap, Net.Base, Net.Valid, Inputs, Waited, PartRing, SharedMem, Registers, OutRing, WriterFeed,
         WriterLink, WriterOk;
  }

  lemma EveryStepCounts<T>(n: Net<T>, s: State<T>, p: Proc)
    requires n.Valid() && Inv(n, s) && CanStep(n, s, p) && Inv(n, Exec(n, s, p))
    ensures Counted(n, s) && Counted(n, Exec(n, s, p))
    ensures StepsLeft(n, s) == 1 + StepsLeft(n, Exec(n, s, p))
    ensures Finish(n, Exec(n, s, p).w, Exec(n, s, p).out) == Finish(n, s.w, s.out)
  {
    hide Inv, StepR, StepC, StepW, BoundsR, BoundsC, BoundsW, Net.Valid, WriterOk, ComputeOk, InRange, AdvanceR,
         AdvanceC, AdvanceW, Net.Sub, NextOut, NextPart, Put;
    InvCounted(n, s);
    InvCounted(n, Exec(n, s, p));
    match p
    case In0Reader => ReaderEffects(n, s);
    case ComputeKernel => Effects(n, s);
    case In1Writer =>
      RdKnownOf(n, s);
      WriterEffects(n, s);
      WriterOut(n, s);
  }

  lemma RdKnownOf<T>(n: Net<T>, s: State<T>)
    requires Inv(n, s)
    ensures s.cb16.rd < s.cb16.cap
  {
    hide ComputeInv, ReaderInv, WriterOk, WriterFeed, WriterLink;
    RdKnown(n, s);
  }

  lemma WriterOut<T>(n: Net<T>, s: State<T>)
    requires n.Valid() && Inv(n, s) && WriterOk(n, s.w) && ReadyW(n, s) && BoundsW(n, s)
    ensures StepW(n, s).out == if s.w.ph == WWrite then WriteSub(n, s.w, s.out, FinishedSub(n, s.w)) else s.out
  {
    hide Inv, Net.Valid, WriterOk, Net.Sub, WriteSub, FinishedSub, Put, AdvanceW, WSkip, HSkip, Net.In1Block, Net.N1;
    if s.w.ph == WWrite {
      WriterReads(n, s);
    }
  }

  // ---------- whole runs ----------

  ghost function AllSteps<T>(n: Net<T>): nat
    requires n.Valid()
  {
    n.Sizes();
    LeftR(n, Reader(Pos(0, 0, 0), RReserve))
      + LeftC(n, Compute(Pos(0, 0, 0), 0, 0, CWait0, false, n.Sub()))
      + LeftW(n, Writer(Pos(0, 0, 0), 0, 0, WReserve))
  }

  // The output after a sequential execution of the writer on finished blocks.
  ghost function FinalOut<T>(n: Net<T>, out: map<int, T>): map<int, T>
    requires n.Valid()
  {
    n.Sizes();
    Finish(n, Writer(Pos(0, 0, 0), 0, 0, WReserve), out)
  }

  lemma {:induction false} RunAccounts<T>(n: Net<T>, ss: seq<State<T>>)
    requires n.Valid() && IsRun(n, ss)
    ensures var s := ss[|ss| - 1];
            && Inv(n, s) && Counted(n, s)
            && |ss| - 1 + StepsLeft(n, s) == AllSteps(n)
            && Finish(n, s.w, s.out) == FinalOut(n, ss[0].out)
  {
    hide Inv, Net.Valid, Exec, CanStep, Counted, StepsLeft, Finish;
    var k := |ss| - 1;
    RunKeepsInv(n, ss);
    InvCounted(n, ss[k]);
    if k == 0 {
      StartAccounts(n, ss[0]);
    } else {
      assert ss[..k][k - 1] == ss[k - 1] && ss[..k][0] == ss[0];
      RunAccounts(n, ss[..k]);
      assert Step(n, ss[k - 1], ss[k]);
      var p :| CanStep(n, ss[k - 1], p) && ss[k] == Exec(n, ss[k - 1], p);
      EveryStepCounts(n, ss[k - 1], p);
    }
  }

  lemma StartAccounts<T>(n: Net<T>, s: State<T>)
    requires n.Valid() && Init(n, s) && Counted(n, s)
    ensures StepsLeft(n, s) == AllSteps(n)
    ensures Finish(n, s.w, s.out) == FinalOut(n, s.out)
  {
    hide LeftR, LeftC, LeftW, Finish, Net.Valid, Net.Sub, Net.Cap, Net.N0, Net.N1;
  }

  // In every reachable state: nothing is overwritten too early, a ready process stays in
  // bounds, and as long as the core is not done some process can go on.
  lemma RunsAreSafe<T>(n: Net<T>, ss: seq<State<T>>)
    requires n.Valid() && IsRun(n, ss)
    ensures var s := ss[|ss| - 1];
            && PackIsSafe(n, s)
            && (forall p :: Ready(n, s, p) ==> InBounds(n, s, p))
            && (!Done(n, s) ==> exists p :: CanStep(n, s, p))
  {
    hide Inv, Net.Valid, PackIsSafe, Done, Exec, Init, Ready, InBounds;
    var s := ss[|ss| - 1];
    RunKeepsInv(n, ss);
    ComputeInvOf(n, s);
    NoOverwrite(n, s);
    forall p | Ready(n, s, p)
      ensures InBounds(n, s, p)
    {
      ReadyIsInBounds(n, s, p);
    }
    if !Done(n, s) {
      NoDeadlock(n, s);
    }
  }

  // No run is longer than AllSteps; one that cannot be extended has exactly that length,
  // has finished, and has written the one possible output, whatever the interleaving.
  lemma MaximalRuns<T>(n: Net<T>, ss: seq<State<T>>)
    requires n.Valid() && IsRun(n, ss)
    ensures |ss| - 1 <= AllSteps(n)
    ensures var s := ss[|ss| - 1];
            && (Done(n, s) <==> |ss| - 1 == AllSteps(n))
            && (Done(n, s) <==> !exists p :: CanStep(n, s, p))
            && (Done(n, s) ==> s.out == FinalOut(n, ss[0].out))
  {
    hide Inv, Net.Valid, Exec, Init, InBounds, ReadyR, ReadyC, ReadyW, AllSteps, FinalOut;
    var s := ss[|ss| - 1];
    RunAccounts(n, ss);
    if Done(n, s) {
      DoneMeansNothingLeft(n, s);
    } else {
      NoDeadlock(n, s);
      var p :| CanStep(n, s, p);
      StepKeepsInv(n, s, p);
      EveryStepCounts(n, s, p);
    }
  }

  lemma DoneMeansNothingLeft<T>(n: Net<T>, s: State<T>)
    requires n.Valid() && Counted(n, s) && Done(n, s)
    ensures StepsLeft(n, s) == 0 && Finish(n, s.w, s.out) == s.out
    ensures !exists p :: CanStep(n, s, p)
  {
    hide Net.Valid, InBounds, Net.Sub, Net.N0, Net.N1, WSkip, HSkip;
    forall p
      ensures !CanStep(n, s, p)
    {
      match p
      case In0Reader =>
      case ComputeKernel =>
      case In1Writer =>
    }
  }

  lemma RunExtends<T>(n: Net<T>, ss: seq<State<T>>, p: Proc)
    requires n.Valid() && IsRun(n, ss) && CanStep(n, ss[|ss| - 1], p)
    ensures IsRun(n, ss + [Exec(n, ss[|ss| - 1], p)])
  {
    hide Net.Valid, Exec, Init, CanStep;
    var next := ss + [Exec(n, ss[|ss| - 1], p)];
    forall i | 0 < i < |next|
      ensures Step(n, next[i - 1], next[i])
    {
      if i < |ss| {
        assert Step(n, ss[i - 1], ss[i]);
        assert next[i - 1] == ss[i - 1] && next[i] == ss[i];
      } else {
        assert next[i - 1] == ss[|ss| - 1];
      }
    }
  }

  // Whatever has happened so far, every run can be carried on to a finished one.
  lemma {:induction false} EveryRunCompletes<T>(n: Net<T>, ss: seq<State<T>>) returns (full: seq<State<T>>)
    requires n.Valid() && IsRun(n, ss)
    ensures IsRun(n, full) && ss <= full && Done(n, full[|full| - 1])
    decreases AllSteps(n) + 1 - |ss|
  {
    hide Net.Valid, Exec, Init, CanStep, AllSteps, FinalOut, Step, Done;
    MaximalRuns(n, ss);
    if Done(n, ss[|ss| - 1]) {
      full := ss;
    } else {
      var p :| CanStep(n, ss[|ss| - 1], p);
      RunExtends(n, ss, p);
      full := EveryRunCompletes(n, ss + [Exec(n, ss[|ss| - 1], p)]);
    }
  }
}
