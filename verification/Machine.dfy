// The three kernels of one core as step machines. They run concurrently and meet only
// through circular buffers: CB0 and CB1 carry input blocks, CB16 carries output tiles and
// CB24 holds partial sums. CB16 and CB24 are two queues over one memory.
//
// A step is one circular-buffer call, or one stretch of work between two such calls.
module Machine {
  import opened CoreNet

  // ---------- positions in the outer loops ----------

  function NextOuter<T>(n: Net<T>, p: Pos): Pos {
    if p.bw + 1 < n.nbw then Pos(p.bh, p.bw + 1, 0) else Pos(p.bh + 1, 0, 0)
  }

  function Succ<T>(n: Net<T>, p: Pos): Pos {
    if p.blk + 1 < n.nb then Pos(p.bh, p.bw, p.blk + 1) else NextOuter(n, p)
  }

  function End<T>(n: Net<T>): Pos { Pos(n.nbh, 0, 0) }

  predicate InRange<T>(n: Net<T>, p: Pos) {
    p == End(n) || (p.bh < n.nbh && p.bw < n.nbw && p.blk < n.nb)
  }

  // ---------- circular buffers ----------

  // cap tiles of memory; `held` tiles pushed and not yet popped; write and read pointers.
  datatype Ring = Ring(cap: nat, held: nat, wr: nat, rd: nat)
  {
    function Free(): int { cap - held }

    function Wrap(x: int): int { if x >= cap then x - cap else x }

    // The slot of the t-th tile from the front.
    function Slot(t: nat): int { Wrap(rd + t) }

    // cb_push_back: the write pointer returns to the start when it reaches the limit.
    function Push(k: nat): Ring
      requires wr < cap && k <= cap
    {
      Ring(cap, held + k, Wrap(wr + k), rd)
    }

    // cb_pop_front
    function Pop(k: nat): Ring
      requires rd < cap && k <= cap && k <= held
    {
      Ring(cap, held - k, wr, Wrap(rd + k))
    }

    // A slot that holds a tile pushed and not yet popped.
    predicate Occupied(slot: int) {
      rd <= slot < rd + held || rd <= slot + cap < rd + held
    }
  }

  // mem with tiles written at slot `at`.
  function Put<T>(mem: seq<T>, at: nat, tiles: seq<T>): (r: seq<T>)
    requires at + |tiles| <= |mem|
    ensures |r| == |mem|
    ensures r[at..at + |tiles|] == tiles
    ensures r[..at] == mem[..at] && r[at + |tiles|..] == mem[at + |tiles|..]
  {
    mem[..at] + tiles + mem[at + |tiles|..]
  }

  // ---------- control of the three kernels ----------

  datatype RPhase = RReserve | RFill | RPush
  datatype Reader = Reader(pos: Pos, ph: RPhase)

  datatype CPhase =
    | CWait0 | CWait1                     // cb_wait_front on both inputs
    | CAcquire                            // acquire_dst
    | CWaitPart | CCopy | CPopPart        // reload of a spilled partial
    | CMath                               // the h, w, inner_dim loops
    | CRsvOut | CPackOut | CPushOut       // last K block: to CB16
    | CGuard | CRsvPart | CPackPart | CPushPart  // earlier K blocks: to CB24
    | CPop0 | CPop1                       // cb_pop_front on both inputs
  // (i0, i1) is the current sub-block; it is (nsh, 0) once a K block's sub-blocks are done.
  datatype Compute = Compute(pos: Pos, i0: nat, i1: nat, ph: CPhase, reload: bool, outWait: nat)

  datatype WPhase =
    | WReserve | WFill | WPush            // in1 reader
    | WWait | WWrite | WPop               // one output sub-block
    | WWaitW | WPopW                      // fully padded sub-blocks of a sub-block row
    | WWaitH | WPopH                      // fully padded sub-block rows
  datatype Writer = Writer(pos: Pos, sbh: nat, sbw: nat, ph: WPhase)

  datatype Proc = In0Reader | ComputeKernel | In1Writer

  datatype State<T> = State(
    r: Reader, c: Compute, w: Writer,
    cb0: Ring, cb1: Ring, cb16: Ring, cb24: Ring,
    m0: seq<T>, m1: seq<T>,
    m: seq<T>,            // the memory that CB16 and CB24 share
    dst: seq<T>,          // DST registers of the compute kernel
    out: map<int, T>)     // the output tensor, by tile id

  // Number of output sub-blocks (and their sizes) the writer visits in outer block (bh, bw).
  function NonzeroH<T>(n: Net<T>, bh: nat): nat { if bh == n.nbh - 1 then n.edge.nonzeroH else n.nsh }
  function NonzeroW<T>(n: Net<T>, bw: nat): nat { if bw == n.nbw - 1 then n.edge.nonzeroW else n.nsw }
  function HSkip<T>(n: Net<T>, bh: nat): nat { if bh == n.nbh - 1 then n.edge.hSkip else 0 }
  function WSkip<T>(n: Net<T>, bw: nat): nat { if bw == n.nbw - 1 then n.edge.wSkip else 0 }

  // The kernels' control flow does not depend on data: each has one successor.
  function AdvanceR<T>(n: Net<T>, r: Reader): Reader {
    match r.ph
    case RReserve => r.(ph := RFill)
    case RFill => r.(ph := RPush)
    case RPush => Reader(Succ(n, r.pos), RReserve)
  }

  function NextSub<T>(n: Net<T>, c: Compute): Compute {
    if c.i1 + 1 < n.nsw then c.(i1 := c.i1 + 1, ph := CAcquire)
    else if c.i0 + 1 < n.nsh then c.(i0 := c.i0 + 1, i1 := 0, ph := CAcquire)
    else c.(i0 := c.i0 + 1, i1 := 0, ph := CPop0, reload := c.reload || n.nb > 1)
  }

  function AdvanceC<T>(n: Net<T>, c: Compute): Compute {
    match c.ph
    case CWait0 => c.(ph := CWait1)
    case CWait1 => c.(ph := CAcquire)
    case CAcquire => c.(ph := if c.reload then CWaitPart else CMath)
    case CWaitPart => c.(ph := CCopy)
    case CCopy => c.(ph := CPopPart)
    case CPopPart => c.(ph := CMath)
    case CMath =>
      c.(ph := if c.pos.blk == n.nb - 1 then CRsvOut else if c.pos.blk == 0 then CGuard else CRsvPart)
    case CRsvOut => c.(ph := CPackOut)
    case CPackOut => c.(ph := CPushOut)
    case CPushOut => NextSub(n, c)
    case CGuard => c.(ph := CRsvPart, outWait := c.outWait + n.Sub())
    case CRsvPart => c.(ph := CPackPart)
    case CPackPart => c.(ph := CPushPart)
    case CPushPart => NextSub(n, c)
    case CPop0 => c.(ph := CPop1)
    case CPop1 =>
      if c.pos.blk + 1 < n.nb then c.(pos := Succ(n, c.pos), i0 := 0, i1 := 0, ph := CWait0)
      else Compute(Succ(n, c.pos), 0, 0, CWait0, false, n.Sub())
  }

  function AdvanceW<T>(n: Net<T>, w: Writer): Writer {
    match w.ph
    case WReserve => w.(ph := WFill)
    case WFill => w.(ph := WPush)
    case WPush =>
      if w.pos.blk + 1 < n.nb then w.(pos := Succ(n, w.pos), ph := WReserve)
      else w.(sbh := 0, sbw := 0, ph := WWait)
    case WWait => w.(ph := WWrite)
    case WWrite => w.(ph := WPop)
    case WPop =>
      if w.sbw + 1 < NonzeroW(n, w.pos.bw) then w.(sbw := w.sbw + 1, ph := WWait) else w.(ph := WWaitW)
    case WWaitW => w.(ph := WPopW)
    case WPopW =>
      if w.sbh + 1 < NonzeroH(n, w.pos.bh) then w.(sbh := w.sbh + 1, sbw := 0, ph := WWait) else w.(ph := WWaitH)
    case WWaitH => w.(ph := WPopH)
    case WPopH => Writer(NextOuter(n, w.pos), 0, 0, WReserve)
  }

  // ---------- the writer's tile ids ----------

  function SubRows<T>(n: Net<T>, w: Writer): nat {
    if w.sbh == NonzeroH(n, w.pos.bh) - 1 && w.pos.bh == n.nbh - 1 then n.edge.lastSubH else n.sh
  }

  function SubCols<T>(n: Net<T>, w: Writer): nat {
    if w.sbw == NonzeroW(n, w.pos.bw) - 1 && w.pos.bw == n.nbw - 1 then n.edge.lastSubW else n.sw
  }

  function RowSkip<T>(n: Net<T>, w: Writer): nat {
    if w.sbw == NonzeroW(n, w.pos.bw) - 1 && w.pos.bw == n.nbw - 1 then n.edge.rowSkip else 0
  }

  // Tile row and column of the first tile of the writer's current sub-block.
  function SubRow<T>(n: Net<T>, w: Writer): int { w.pos.bh * n.Obh() + w.sbh * n.sh }
  function SubCol<T>(n: Net<T>, w: Writer): int { w.pos.bw * n.Obw() + w.sbw * n.sw }

  function SubStart<T>(n: Net<T>, w: Writer): int {
    n.outStart + SubRow(n, w) * n.outStride + SubCol(n, w)
  }

  // One row of a sub-block: k tiles from position `at` go to consecutive tile ids.
  function WriteRow<T>(out: map<int, T>, id: int, tiles: seq<T>, at: nat, k: nat): map<int, T>
    requires at + k <= |tiles|
  {
    if k == 0 then out else WriteRow(out, id, tiles, at, k - 1)[id + k - 1 := tiles[at + k - 1]]
  }

  // The first h rows: the read address moves on by w tiles and the skipped padding.
  function WriteRows<T>(out: map<int, T>, id: int, stride: nat, tiles: seq<T>, h: nat, w: nat, skip: nat): map<int, T>
    requires h * (w + skip) <= |tiles|
    decreases h
  {
    if h == 0 then out
    else
      assert h * (w + skip) == (h - 1) * (w + skip) + (w + skip);
      WriteRow(WriteRows(out, id, stride, tiles, h - 1, w, skip),
               id + (h - 1) * stride, tiles, (h - 1) * (w + skip), w)
  }

  lemma SubFits<T>(n: Net<T>, w: Writer)
    requires n.Valid()
    ensures SubCols(n, w) + RowSkip(n, w) == n.sw
    ensures SubRows(n, w) * n.sw <= n.Sub()
  {
    assert SubRows(n, w) <= n.sh;
    assert n.sh * n.sw == SubRows(n, w) * n.sw + (n.sh - SubRows(n, w)) * n.sw;
  }

  // The writer's work on one sub-block whose tiles are given.
  function WriteSub<T>(n: Net<T>, w: Writer, out: map<int, T>, tiles: seq<T>): map<int, T>
    requires n.Valid() && |tiles| == n.Sub()
  {
    SubFits(n, w);
    WriteRows(out, SubStart(n, w), n.outStride, tiles, SubRows(n, w), SubCols(n, w), RowSkip(n, w))
  }

  // ---------- steps ----------

  predicate DoneR<T>(n: Net<T>, s: State<T>) { s.r.pos == End(n) }
  predicate DoneC<T>(n: Net<T>, s: State<T>) { s.c.pos == End(n) }
  predicate DoneW<T>(n: Net<T>, s: State<T>) { s.w.pos == End(n) }

  predicate Done<T>(n: Net<T>, s: State<T>) {
    DoneR(n, s) && DoneC(n, s) && DoneW(n, s)
  }

  // A process is ready when its next call, if it can block, would return.
  predicate ReadyR<T>(n: Net<T>, s: State<T>) {
    !DoneR(n, s) && (s.r.ph == RReserve ==> s.cb0.Free() >= n.N0())
  }

  predicate ReadyC<T>(n: Net<T>, s: State<T>) {
    && !DoneC(n, s)
    && (s.c.ph == CWait0 ==> s.cb0.held >= n.N0())
    && (s.c.ph == CWait1 ==> s.cb1.held >= n.N1())
    && (s.c.ph == CWaitPart ==> s.cb24.held >= n.Sub())
    && (s.c.ph == CRsvOut ==> s.cb16.Free() >= n.Sub())
    && (s.c.ph == CGuard ==> s.cb16.Free() >= s.c.outWait)
    && (s.c.ph == CRsvPart ==> s.cb24.Free() >= n.Sub())
  }

  predicate ReadyW<T>(n: Net<T>, s: State<T>) {
    && !DoneW(n, s)
    && (s.w.ph == WReserve ==> s.cb1.Free() >= n.N1())
    && (s.w.ph == WWait ==> s.cb16.held >= n.Sub())
    && (s.w.ph == WWaitW ==> s.cb16.held >= WSkip(n, s.w.pos.bw))
    && (s.w.ph == WWaitH ==> s.cb16.held >= HSkip(n, s.w.pos.bh))
  }

  predicate Ready<T>(n: Net<T>, s: State<T>, p: Proc) {
    match p
    case In0Reader => ReadyR(n, s)
    case ComputeKernel => ReadyC(n, s)
    case In1Writer => ReadyW(n, s)
  }

  // The work of the next step stays inside the buffers: no access runs past a buffer's
  // limit, no push overfills it, no pop takes more than it holds.
  predicate BoundsR<T>(n: Net<T>, s: State<T>) {
    && (s.r.ph == RFill ==> s.cb0.wr + n.N0() <= |s.m0|)
    && (s.r.ph == RPush ==> CanPush(s.cb0, n.N0()))
  }

  predicate BoundsC<T>(n: Net<T>, s: State<T>) {
    && (s.c.ph == CCopy ==> s.cb24.rd + n.Sub() <= |s.m|)
    && (s.c.ph == CPopPart ==> CanPop(s.cb24, n.Sub()))
    && (s.c.ph == CMath ==>
          && s.c.i0 < n.nsh && s.c.i1 < n.nsw && |s.dst| == n.Sub()
          && s.cb0.rd + n.N0() <= |s.m0| && s.cb1.rd + n.N1() <= |s.m1|)
    && (s.c.ph == CPackOut ==> |s.dst| == n.Sub() && s.cb16.wr + n.Sub() <= |s.m|)
    && (s.c.ph == CPushOut ==> CanPush(s.cb16, n.Sub()))
    && (s.c.ph == CPackPart ==> |s.dst| == n.Sub() && s.cb24.wr + n.Sub() <= |s.m|)
    && (s.c.ph == CPushPart ==> CanPush(s.cb24, n.Sub()))
    && (s.c.ph == CPop0 ==> CanPop(s.cb0, n.N0()))
    && (s.c.ph == CPop1 ==> CanPop(s.cb1, n.N1()))
  }

  predicate BoundsW<T>(n: Net<T>, s: State<T>) {
    && (s.w.ph == WFill ==> s.cb1.wr + n.N1() <= |s.m1|)
    && (s.w.ph == WPush ==> CanPush(s.cb1, n.N1()))
    && (s.w.ph == WWrite ==> s.cb16.rd + n.Sub() <= |s.m|)
    && (s.w.ph == WPop ==> CanPop(s.cb16, n.Sub()))
    && (s.w.ph == WPopW ==> CanPop(s.cb16, WSkip(n, s.w.pos.bw)))
    && (s.w.ph == WPopH ==> CanPop(s.cb16, HSkip(n, s.w.pos.bh)))
  }

  predicate InBounds<T>(n: Net<T>, s: State<T>, p: Proc) {
    match p
    case In0Reader => BoundsR(n, s)
    case ComputeKernel => BoundsC(n, s)
    case In1Writer => BoundsW(n, s)
  }

  predicate CanPush(q: Ring, k: nat) { q.wr < q.cap && q.held + k <= q.cap && q.wr + k <= q.cap }
  predicate CanPop(q: Ring, k: nat) { q.rd < q.cap && k <= q.held && q.rd + k <= q.cap }

  predicate CanStep<T>(n: Net<T>, s: State<T>, p: Proc) {
    Ready(n, s, p) && InBounds(n, s, p)
  }

  function StepR<T>(n: Net<T>, s: State<T>): State<T>
    requires n.Valid() && ReadyR(n, s) && BoundsR(n, s)
  {
    var s' := s.(r := AdvanceR(n, s.r));
    match s.r.ph
    case RReserve => s'
    case RFill => s'.(m0 := Put(s.m0, s.cb0.wr, n.In0Block(s.r.pos.bh, s.r.pos.blk)))
    case RPush => s'.(cb0 := s.cb0.Push(n.N0()))
  }

  // The sub-block's matmul_tiles calls, on the blocks at the fronts of CB0 and CB1.
  function Multiply<T>(n: Net<T>, s: State<T>): seq<T>
    requires n.Valid() && BoundsC(n, s) && s.c.ph == CMath
  {
    n.SubMath(s.dst, s.m0[s.cb0.rd..s.cb0.rd + n.N0()], s.m1[s.cb1.rd..s.cb1.rd + n.N1()], s.c.i0, s.c.i1)
  }

  function StepC<T>(n: Net<T>, s: State<T>): State<T>
    requires n.Valid() && ReadyC(n, s) && BoundsC(n, s)
  {
    var s' := s.(c := AdvanceC(n, s.c));
    match s.c.ph
    case CAcquire => s'.(dst := seq(n.Sub(), t => n.g.zero))
    case CCopy => s'.(dst := s.m[s.cb24.rd..s.cb24.rd + n.Sub()])
    case CPopPart => s'.(cb24 := s.cb24.Pop(n.Sub()))
    case CMath => s'.(dst := Multiply(n, s))
    case CPackOut => s'.(m := Put(s.m, s.cb16.wr, s.dst))
    case CPushOut => s'.(cb16 := s.cb16.Push(n.Sub()))
    case CPackPart => s'.(m := Put(s.m, s.cb24.wr, s.dst))
    case CPushPart => s'.(cb24 := s.cb24.Push(n.Sub()))
    case CPop0 => s'.(cb0 := s.cb0.Pop(n.N0()))
    case CPop1 => s'.(cb1 := s.cb1.Pop(n.N1()))
    case _ => s'
  }

  function StepW<T>(n: Net<T>, s: State<T>): State<T>
    requires n.Valid() && ReadyW(n, s) && BoundsW(n, s)
  {
    var s' := s.(w := AdvanceW(n, s.w));
    match s.w.ph
    case WFill => s'.(m1 := Put(s.m1, s.cb1.wr, n.In1Block(s.w.pos.bw, s.w.pos.blk)))
    case WPush => s'.(cb1 := s.cb1.Push(n.N1()))
    case WWrite => s'.(out := WriteSub(n, s.w, s.out, s.m[s.cb16.rd..s.cb16.rd + n.Sub()]))
    case WPop => s'.(cb16 := s.cb16.Pop(n.Sub()))
    case WPopW => s'.(cb16 := s.cb16.Pop(WSkip(n, s.w.pos.bw)))
    case WPopH => s'.(cb16 := s.cb16.Pop(HSkip(n, s.w.pos.bh)))
    case _ => s'
  }

  function Exec<T>(n: Net<T>, s: State<T>, p: Proc): State<T>
    requires n.Valid() && CanStep(n, s, p)
  {
    match p
    case In0Reader => StepR(n, s)
    case ComputeKernel => StepC(n, s)
    case In1Writer => StepW(n, s)
  }

  ghost predicate Step<T>(n: Net<T>, s: State<T>, s': State<T>)
    requires n.Valid()
  {
    exists p :: CanStep(n, s, p) && s' == Exec(n, s, p)
  }

  // Empty buffers of the sizes the host configures; memory and registers hold anything.
  ghost predicate Init<T>(n: Net<T>, s: State<T>) {
    && s.r == Reader(Pos(0, 0, 0), RReserve)
    && s.c == Compute(Pos(0, 0, 0), 0, 0, CWait0, false, n.Sub())
    && s.w == Writer(Pos(0, 0, 0), 0, 0, WReserve)
    && s.cb0 == Ring(2 * n.N0(), 0, 0, 0) && s.cb1 == Ring(2 * n.N1(), 0, 0, 0)
    && s.cb16 == Ring(n.Cap(), 0, 0, 0) && s.cb24 == Ring(n.Cap(), 0, 0, 0)
    && |s.m0| == 2 * n.N0() && |s.m1| == 2 * n.N1() && |s.m| == n.Cap()
  }

  // A run: any interleaving whatever, of any length.
  ghost predicate IsRun<T>(n: Net<T>, ss: seq<State<T>>)
    requires n.Valid()
  {
    && 0 < |ss| && Init(n, ss[0])
    && forall i :: 0 < i < |ss| ==> Step(n, ss[i - 1], ss[i])
  }
}
