// When exactly a kernel can take its next step, in counts of tiles, and how far one kernel
// can run ahead of the others.
module Readiness {
  import opened Arith
  import opened CoreNet
  import opened Machine
  import opened Safety
  import opened Protocol
  import opened Runs

  // ---------- what each kernel waits for ----------

  // CB0 has two blocks; the reader waits until one of them is free.
  predicate ReaderGoes<T>(n: Net<T>, s: State<T>) {
    s.r.pos != Pos(n.nbh, 0, 0) && (s.r.ph == RReserve ==> s.cb0.held + n.N0() <= 2 * n.N0())
  }

  // Compute waits for its two input blocks, for room for one sub-block in CB16, and before it
  // spills sub-block (i0, i1) of a first K block, for room for that and all before it. The
  // wait and the reserve on CB24 never hold it up.
  predicate ComputeGoes<T>(n: Net<T>, s: State<T>) {
    && s.c.pos != Pos(n.nbh, 0, 0)
    && (s.c.ph == CWait0 ==> n.N0() <= s.cb0.held)
    && (s.c.ph == CWait1 ==> n.N1() <= s.cb1.held)
    && (s.c.ph == CRsvOut ==> s.cb16.held + n.Sub() <= n.Cap())
    && (s.c.ph == CGuard ==> s.cb16.held + (n.Base(s.c.i0, s.c.i1) + n.Sub()) <= n.Cap())
  }

  // The writer waits for room for one of two blocks in CB1, for one sub-block in CB16, and at
  // an edge for the padding that it drops.
  predicate WriterGoes<T>(n: Net<T>, s: State<T>) {
    && s.w.pos != Pos(n.nbh, 0, 0)
    && (s.w.ph == WReserve ==> s.cb1.held + n.N1() <= 2 * n.N1())
    && (s.w.ph == WWait ==> n.Sub() <= s.cb16.held)
    && (s.w.ph == WWaitW && s.w.pos.bw == n.nbw - 1 ==> (n.nsw - n.edge.nonzeroW) * n.Sub() <= s.cb16.held)
    && (s.w.ph == WWaitH && s.w.pos.bh == n.nbh - 1 ==>
          (n.nsh - n.edge.nonzeroH) * (n.nsw * n.Sub()) <= s.cb16.held)
  }

  predicate Goes<T>(n: Net<T>, s: State<T>, p: Proc) {
    match p
    case In0Reader => ReaderGoes(n, s)
    case ComputeKernel => ComputeGoes(n, s)
    case In1Writer => WriterGoes(n, s)
  }

  // In every state of every run: a kernel can take its next step exactly when that holds.
  lemma StepsExactlyWhen<T>(n: Net<T>, s: State<T>, p: Proc)
    requires n.Valid() && Inv(n, s)
    ensures CanStep(n, s, p) <==> Goes(n, s, p)
  {
    hide Inv, Goes, ReadyR, ReadyC, ReadyW, InBounds, Net.Valid;
    ReadyExactlyWhen(n, s, p);
    if Ready(n, s, p) {
      ReadyIsInBounds(n, s, p);
    }
  }

  lemma ReadyExactlyWhen<T>(n: Net<T>, s: State<T>, p: Proc)
    requires n.Valid() && Inv(n, s)
    ensures Ready(n, s, p) <==> Goes(n, s, p)
  {
    hide Inv, ReadyR, ReadyC, ReadyW, ReaderGoes, ComputeGoes, WriterGoes, Net.Valid;
    ComputeInvOf(n, s);
    match p
    case In0Reader => ReaderReady(n, s);
    case ComputeKernel => ComputeReady(n, s);
    case In1Writer => WriterReady(n, s);
  }

  lemma ReaderReady<T>(n: Net<T>, s: State<T>)
    requires ComputeInv(n, s)
    ensures ReadyR(n, s) <==> ReaderGoes(n, s)
  {
    hide ComputeInv, Net.N0, Net.N1;
    InputCaps(n, s);
  }

  lemma InputCaps<T>(n: Net<T>, s: State<T>)
    requires ComputeInv(n, s)
    ensures s.cb0.cap == 2 * n.N0() && s.cb1.cap == 2 * n.N1()
  {
    hide Waited, Net.Valid, Net.Sub, Net.Cap, Net.Base, OutRing, PartRing, SharedMem, Registers, Control, Net.N0, Net.N1,
         Net.In0Block, Net.In1Block, Succ;
  }

  lemma ComputeReady<T>(n: Net<T>, s: State<T>)
    requires ComputeInv(n, s)
    ensures ReadyC(n, s) <==> ComputeGoes(n, s)
  {
    hide Waited, Net.Valid, Net.Sub, Net.Cap, Net.Base, OutRing, PartRing, SharedMem, Registers, Control, Net.N0, Net.N1,
         Inputs;
    RdKnown(n, s);
    GuardWaits(n, s.c, n.Base(s.c.i0, s.c.i1));
    if s.c.ph == CWaitPart || s.c.ph == CRsvPart {
      PartialsNeverBlock(n, s);
      assert s.c.pos != End(n);
    }
  }

  // The reserve grows by one sub-block at a time.
  lemma GuardWaits<T>(n: Net<T>, c: Compute, base: nat)
    requires Control(n, c, base)
    ensures c.ph == CGuard ==> c.outWait == base + n.Sub()
  {
    hide Net.Sub, Net.Cap;
  }

  lemma WriterReady<T>(n: Net<T>, s: State<T>)
    requires n.Valid() && ComputeInv(n, s)
    ensures ReadyW(n, s) <==> WriterGoes(n, s)
  {
    hide ComputeInv, Net.N0, Net.N1, Net.Sub;
    InputCaps(n, s);
  }

  // ---------- the guard on the shared memory is as weak as it may be ----------

  // Compute passes the growing reserve exactly when no output tile that is still waiting lies
  // in the slots up to the end of the sub-block it is about to spill; and it passes the
  // reserve on CB16 exactly when none lies where it is about to pack.
  lemma GuardIsExact<T>(n: Net<T>, s: State<T>)
    requires n.Valid() && ComputeInv(n, s)
    ensures s.c.ph == CGuard ==>
              (CanStep(n, s, ComputeKernel) <==>
                 forall slot :: 0 <= slot < n.Base(s.c.i0, s.c.i1) + n.Sub() ==> !s.cb16.Occupied(slot))
    ensures s.c.ph == CRsvOut ==>
              (CanStep(n, s, ComputeKernel) <==>
                 forall slot :: s.cb16.wr <= slot < s.cb16.wr + n.Sub() ==> !s.cb16.Occupied(slot))
  {
    hide Waited, Net.Valid, Net.Sub, Net.Cap, Net.Base, OutRing, PartRing, SharedMem, Registers, Control, Net.N0, Net.N1,
         Inputs, BoundsC, ReadyC, ComputeGoes;
    ComputeReady(n, s);
    if ReadyC(n, s) {
      ComputeInBounds(n, s);
    }
    var base := n.Base(s.c.i0, s.c.i1);
    WaitingSlots(n, s.c, s.cb16, base);
    n.Sizes();
    if s.c.ph == CGuard || s.c.ph == CRsvOut {
      GoesWhen(n, s);
    }
  }

  lemma GoesWhen<T>(n: Net<T>, s: State<T>)
    requires n.Valid() && ComputeInv(n, s) && (s.c.ph == CGuard || s.c.ph == CRsvOut)
    ensures ComputeGoes(n, s) <==>
              s.cb16.held + (if s.c.ph == CGuard then n.Base(s.c.i0, s.c.i1) + n.Sub() else n.Sub()) <= n.Cap()
  {
    hide Waited, Net.Valid, Net.Sub, Net.Cap, Net.Base, OutRing, PartRing, SharedMem, Registers, Net.N0, Net.N1, Inputs;
  }

  // Where the waiting output tiles lie.
  lemma WaitingSlots<T>(n: Net<T>, c: Compute, q: Ring, base: nat)
    requires n.Valid() && Control(n, c, base) && OutRing(n, c, q, base)
    ensures c.ph == CGuard ==>
              (q.held + (base + n.Sub()) <= n.Cap() <==> forall slot :: 0 <= slot < base + n.Sub() ==> !q.Occupied(slot))
    ensures c.ph == CRsvOut ==>
              (q.held + n.Sub() <= n.Cap() <==> forall slot :: q.wr <= slot < q.wr + n.Sub() ==> !q.Occupied(slot))
  {
    hide Net.Sub, Net.Cap, Net.Valid;
    n.Sizes();
    if c.ph == CGuard && q.held > 0 {
      assert q.Occupied(q.rd);
    }
    if c.ph == CRsvOut && q.held + n.Sub() > n.Cap() {
      assert q.Occupied(q.wr + n.Sub() - 1);
    }
  }

  // A consumer of CB16 may pop any number of waiting tiles at any time.
  lemma ConsumerMayPop<T>(n: Net<T>, s: State<T>, k: nat)
    requires n.Valid() && ComputeInv(n, s) && k <= s.cb16.held
    ensures s.cb16.rd < s.cb16.cap && k <= s.cb16.cap && Environment(n, s, s.(cb16 := s.cb16.Pop(k)))
  {
    hide Net.Valid, Net.Sub, Net.Cap, Net.Base, OutRing, PartRing, SharedMem, Registers, Control, Net.N0, Net.N1, Feed,
         Waited, Succ;
    RdKnown(n, s);
  }

  // ---------- a kernel on its own ----------

  // What the steps of one kernel leave alone.
  ghost predicate LeavesAlone<T>(p: Proc, s: State<T>, s': State<T>) {
    match p
    case In0Reader =>
      && s'.c == s.c && s'.w == s.w && s'.cb1 == s.cb1 && s'.cb16 == s.cb16 && s'.cb24 == s.cb24
      && s'.m1 == s.m1 && s'.m == s.m && s'.dst == s.dst && s'.out == s.out
    case ComputeKernel =>
      && s'.r == s.r && s'.w == s.w && s'.m0 == s.m0 && s'.m1 == s.m1 && s'.out == s.out
    case In1Writer =>
      && s'.r == s.r && s'.c == s.c && s'.cb0 == s.cb0 && s'.cb24 == s.cb24
      && s'.m0 == s.m0 && s'.m == s.m && s'.dst == s.dst
  }

  lemma ExecLeavesAlone<T>(n: Net<T>, s: State<T>, p: Proc)
    requires n.Valid() && Inv(n, s) && CanStep(n, s, p)
    ensures LeavesAlone(p, s, Exec(n, s, p))
  {
    hide Net.Valid, Net.N0, Net.N1, Net.Sub, Put, AdvanceR, AdvanceC, AdvanceW, WSkip, HSkip, WriteSub, Multiply,
         BoundsR, BoundsC, BoundsW, Inv, Net.In0Block, Net.In1Block;
  }

  // From every state of every run, any one kernel may go on alone until it has to wait.
  lemma {:induction false} RunsAlone<T>(n: Net<T>, ss: seq<State<T>>, p: Proc) returns (full: seq<State<T>>)
    requires n.Valid() && IsRun(n, ss)
    ensures IsRun(n, full) && ss <= full && !CanStep(n, full[|full| - 1], p)
    ensures LeavesAlone(p, ss[|ss| - 1], full[|full| - 1])
    decreases AllSteps(n) + 1 - |ss|
  {
    hide Net.Valid, Exec, Init, CanStep, AllSteps, FinalOut, Step, Done, Inv;
    MaximalRuns(n, ss);
    var s := ss[|ss| - 1];
    if CanStep(n, s, p) {
      RunExtends(n, ss, p);
      RunKeepsInv(n, ss);
      ExecLeavesAlone(n, s, p);
      full := RunsAlone(n, ss + [Exec(n, s, p)], p);
    } else {
      full := ss;
    }
  }

  // From empty buffers, whatever the memory holds: the two readers fill both blocks of CB0 and
  // of CB1 before compute has taken a single step. With a single K block per output block the
  // second block of CB1 has to wait until the writer has drained the first output block.
  lemma DoubleBuffering<T>(n: Net<T>, m0: seq<T>, m1: seq<T>, m: seq<T>, dst: seq<T>, out: map<int, T>)
    returns (ss: seq<State<T>>)
    requires n.Valid() && |m0| == 2 * n.N0() && |m1| == 2 * n.N1() && |m| == n.Cap()
    ensures IsRun(n, ss) && ss[0].m0 == m0 && ss[0].m1 == m1 && ss[0].m == m && ss[0].dst == dst && ss[0].out == out
    ensures var s := ss[|ss| - 1];
            && s.c == Compute(Pos(0, 0, 0), 0, 0, CWait0, false, n.Sub()) && s.cb16.held == 0
            && s.cb0.held == (if n.nbh * n.nbw * n.nb > 1 then 2 * n.N0() else n.N0())
            && s.cb1.held == (if n.nb > 1 then 2 * n.N1() else n.N1())
  {
    hide Net.Valid, Init, CanStep, Step, Inv, Net.N0, Net.N1, Net.Sub, Net.Cap, Exec;
    var s0 := StartState(n, m0, m1, m, dst, out);
    StartsHere(n, m0, m1, m, dst, out);
    var half := RunsAlone(n, [s0], In0Reader);
    var s1 := half[|half| - 1];
    RunKeepsInv(n, half);
    ReaderStops(n, s1);
    ss := RunsAlone(n, half, In1Writer);
    var s2 := ss[|ss| - 1];
    RunKeepsInv(n, ss);
    WriterStops(n, s2);
  }

  ghost function StartState<T>(n: Net<T>, m0: seq<T>, m1: seq<T>, m: seq<T>, dst: seq<T>, out: map<int, T>): State<T> {
    State(Reader(Pos(0, 0, 0), RReserve), Compute(Pos(0, 0, 0), 0, 0, CWait0, false, n.Sub()),
          Writer(Pos(0, 0, 0), 0, 0, WReserve),
          Ring(2 * n.N0(), 0, 0, 0), Ring(2 * n.N1(), 0, 0, 0), Ring(n.Cap(), 0, 0, 0), Ring(n.Cap(), 0, 0, 0),
          m0, m1, m, dst, out)
  }

  lemma StartsHere<T>(n: Net<T>, m0: seq<T>, m1: seq<T>, m: seq<T>, dst: seq<T>, out: map<int, T>)
    requires n.Valid() && |m0| == 2 * n.N0() && |m1| == 2 * n.N1() && |m| == n.Cap()
    ensures IsRun(n, [StartState(n, m0, m1, m, dst, out)])
  {
    hide Net.Valid, Net.N0, Net.N1, Net.Sub, Net.Cap;
  }

  lemma FirstSucc<T>(n: Net<T>)
    requires n.Valid()
    ensures Succ(n, Pos(0, 0, 0)) == End(n) <==> n.nbh * n.nbw * n.nb == 1
    ensures Pos(0, 0, 0) != End(n)
  {
    hide Net.Sub;
    if n.nbh * n.nbw * n.nb == 1 {
      OnlyOne(n.nbh * n.nbw, n.nb);
      OnlyOne(n.nbh, n.nbw);
    }
  }

  lemma OnlyOne(a: nat, b: nat)
    requires a * b == 1
    ensures a == 1 && b == 1
  {
    if a > 1 {
      MulMono(2, a, b);
    }
  }

  lemma ReaderStops<T>(n: Net<T>, s: State<T>)
    requires n.Valid() && Inv(n, s) && !CanStep(n, s, In0Reader) && s.c.pos == Pos(0, 0, 0) && s.c.ph == CWait0
    ensures s.cb0.held == (if n.nbh * n.nbw * n.nb > 1 then 2 * n.N0() else n.N0())
  {
    hide ComputeInv, Net.Valid, Net.N0, Net.N1, Net.In0Block, Net.In1Block, WriterOk, WriterFeed, WriterLink, Succ,
         CanStep;
    StepsExactlyWhen(n, s, In0Reader);
    ReaderInputsKnown(n, s);
    FirstSucc(n);
    n.Sizes();
    Positive(n.nbh, n.nbw);
    Positive(n.nbh * n.nbw, n.nb);
    var p1 := Succ(n, s.c.pos);
    FeedHeld(s.cb0, s.m0, n.N0(), n.In0Block(0, 0), n.In0Block(p1.bh, p1.blk));
  }

  lemma WriterStops<T>(n: Net<T>, s: State<T>)
    requires n.Valid() && Inv(n, s) && !CanStep(n, s, In1Writer) && s.c.pos == Pos(0, 0, 0) && s.c.ph == CWait0
    ensures s.cb16.held == 0 && s.cb1.held == (if n.nb > 1 then 2 * n.N1() else n.N1())
  {
    hide ComputeInv, Net.Valid, Net.N0, Net.N1, Net.In0Block, Net.In1Block, ReaderInv, Linked, Popped, Pushed,
         CanStep, Succ, NextOuter, Net.Sub, NonzeroH, NonzeroW, Net.Base, Ahead, In1Pos, WriterOk;
    StepsExactlyWhen(n, s, In1Writer);
    ReaderInputsKnown(n, s);
    n.Sizes();
    NothingOut(n, s);
    var p1 := Succ(n, s.c.pos);
    FeedHeld(s.cb1, s.m1, n.N1(), n.In1Block(0, 0), n.In1Block(p1.bw, p1.blk));
    StoppedAt(n, s.w, s.cb1, n.N1());
  }

  // Compute at its start: the writer is in the first output block and has dropped nothing.
  lemma NothingOut<T>(n: Net<T>, s: State<T>)
    requires Inv(n, s) && s.c.pos == Pos(0, 0, 0) && s.c.ph == CWait0
    ensures s.cb16.held == 0 && SameOuter(s.w.pos, Pos(0, 0, 0)) && s.w.pos != End(n) && (Feeding(s.w.ph) || InSub(s.w.ph))
  {
    hide Net.Sub, Net.Cap, Net.Base, Net.Valid, Inputs, Waited, PartRing, SharedMem, Registers, OutRing, ReaderInv,
         WriterFeed, WriterOk, Popped, NonzeroH, NonzeroW, Net.N0, Net.N1;
    n.Sizes();
    var base := n.Base(s.c.i0, s.c.i1);
    assert Pushed(n, s.c, base) == 0;
    DroppedSome(n, s.w);
  }

  lemma DroppedSome<T>(n: Net<T>, w: Writer)
    requires n.Valid()
    ensures !Feeding(w.ph) && !InSub(w.ph) ==> Popped(n, w) > 0
  {
    hide Net.Sub;
    n.Sizes();
    Visits(n, w.pos);
    Positive(w.sbh * n.nsw + NonzeroW(n, w.pos.bw), n.Sub());
    Positive(NonzeroH(n, w.pos.bh), n.nsw);
    Positive(NonzeroH(n, w.pos.bh) * n.nsw, n.Sub());
  }

  lemma StoppedAt<T>(n: Net<T>, w: Writer, q: Ring, k: nat)
    requires n.Valid() && SameOuter(w.pos, Pos(0, 0, 0)) && 0 < k
    requires In1Pos(n, w) == Ahead(n, Pos(0, 0, 0), q, k) && (q.held == 0 || q.held == k || q.held == 2 * k)
    requires (w.ph == WReserve && q.held + k > 2 * k) || w.ph == WWait
    ensures q.held == if n.nb > 1 then 2 * k else k
  {
    hide Net.Valid;
    n.Sizes();
  }
}
