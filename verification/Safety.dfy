// The compute kernel against any environment. CB16 and CB24 share one memory, so the
// kernel must never pack over an output tile that is still waiting to be written out, nor
// over a partial it still has to reload. The invariant below holds against every FIFO
// consumer of CB16, however slow, and every producer that feeds the right input blocks:
// nothing is assumed here about the order in which the other kernels work.
module Safety {
  import opened CoreNet
  import opened Machine

  predicate IsFirst(p: Pos) { p.bh == 0 && p.bw == 0 }

  function PrevOuter<T>(n: Net<T>, p: Pos): Pos
    requires !IsFirst(p) && 0 < n.nbw
  {
    if p.bw > 0 then Pos(p.bh, p.bw - 1, 0) else Pos(p.bh - 1, n.nbw - 1, 0)
  }

  // ---------- inputs ----------

  function Other(x: nat, k: nat): nat { if x == 0 then k else 0 }

  // A double buffer of two k-tile blocks: b1 is at its front, b2 behind it.
  ghost predicate Feed<T>(q: Ring, mem: seq<T>, k: nat, b1: seq<T>, b2: seq<T>) {
    && q.cap == 2 * k == |mem|
    && (q.rd == 0 || q.rd == k)
    && (q.held == 0 || q.held == k || q.held == 2 * k)
    && q.wr == (if q.held == k then Other(q.rd, k) else q.rd)
    && (q.held >= k ==> mem[q.rd..q.rd + k] == b1)
    && (q.held == 2 * k ==> mem[Other(q.rd, k)..Other(q.rd, k) + k] == b2)
  }

  // The in0 block at the front of CB0 (compute pops CB0 before CB1).
  function Front0<T>(n: Net<T>, c: Compute): Pos {
    if c.ph == CPop1 then Succ(n, c.pos) else c.pos
  }

  ghost predicate FeedAt<T>(n: Net<T>, q: Ring, k: nat, p: Pos) {
    && (q.held >= k ==> p != End(n))
    && (q.held == 2 * k ==> Succ(n, p) != End(n))
  }

  ghost predicate Inputs<T>(n: Net<T>, s: State<T>)
    requires n.Valid()
  {
    var p0, p1 := Front0(n, s.c), s.c.pos;
    && Feed(s.cb0, s.m0, n.N0(), n.In0Block(p0.bh, p0.blk), n.In0Block(Succ(n, p0).bh, Succ(n, p0).blk))
    && Feed(s.cb1, s.m1, n.N1(), n.In1Block(p1.bw, p1.blk), n.In1Block(Succ(n, p1).bw, Succ(n, p1).blk))
    && FeedAt(n, s.cb0, n.N0(), p0)
    && FeedAt(n, s.cb1, n.N1(), p1)
  }

  ghost predicate Waited<T>(n: Net<T>, s: State<T>) {
    && (s.c.ph != CWait0 && s.c.ph != CPop1 ==> s.cb0.held >= n.N0())
    && (s.c.ph != CWait0 && s.c.ph != CWait1 ==> s.cb1.held >= n.N1())
  }

  // ---------- control ----------

  predicate Active(ph: CPhase) {
    ph != CWait0 && ph != CWait1 && ph != CPop0 && ph != CPop1
  }
  predicate Reloading(ph: CPhase) { ph == CWaitPart || ph == CCopy || ph == CPopPart }
  predicate ToOut(ph: CPhase) { ph == CRsvOut || ph == CPackOut || ph == CPushOut }
  predicate ToPart(ph: CPhase) { ph == CRsvPart || ph == CPackPart || ph == CPushPart }
  predicate HasResult(ph: CPhase) { ToOut(ph) || ToPart(ph) || ph == CGuard }

  ghost predicate Control<T>(n: Net<T>, c: Compute, base: nat) {
    && InRange(n, c.pos)
    && (c.pos == End(n) ==> c.ph == CWait0)
    && (c.ph == CWait0 || c.ph == CWait1 ==> c.i0 == 0 && c.i1 == 0 && base == 0)
    && (c.ph == CPop0 || c.ph == CPop1 ==> c.i0 == n.nsh && c.i1 == 0 && base == n.Cap())
    && (Active(c.ph) ==> c.i0 < n.nsh && c.i1 < n.nsw && base + n.Sub() <= n.Cap())
    && c.reload == (if c.ph == CPop0 || c.ph == CPop1 then n.nb > 1 else c.pos.blk > 0)
    && (Reloading(c.ph) ==> c.pos.blk > 0)
    && (ToOut(c.ph) ==> c.pos.blk == n.nb - 1)
    && (ToPart(c.ph) ==> c.pos.blk < n.nb - 1)
    && (c.ph == CGuard ==> c.pos.blk == 0 < n.nb - 1)
    && (n.nb > 1 && c.pos.blk == 0 && c.ph != CPop0 && c.ph != CPop1 ==>
          c.outWait == base + n.Sub() + (if ToPart(c.ph) then n.Sub() else 0))
  }

  // ---------- the shared memory ----------

  // Slots already overwritten by the current K block.
  function Packed<T>(n: Net<T>, c: Compute, base: nat): nat {
    if c.ph == CPushOut || c.ph == CPushPart then base + n.Sub() else base
  }

  // Tiles of the current outer block already pushed to CB16.
  function Pushed<T>(n: Net<T>, c: Compute, base: nat): nat {
    if c.pos.blk == n.nb - 1 then base else 0
  }

  // Tiles of the previous K block's partial already popped from CB24.
  function Reloaded<T>(n: Net<T>, c: Compute, base: nat): nat {
    if c.ph == CMath || HasResult(c.ph) then base + n.Sub() else base
  }

  // CB16: its unpopped tiles are the last `held` ones pushed. When that reaches back into
  // the previous outer block, the current one has not yet touched their slots.
  ghost predicate OutRing<T>(n: Net<T>, c: Compute, q: Ring, base: nat) {
    var pushed := Pushed(n, c, base);
    && q.cap == n.Cap() && q.held <= q.cap
    && q.wr == q.Wrap(pushed)
    && q.rd == (if q.held <= pushed then q.Wrap(pushed - q.held) else q.cap - (q.held - pushed))
    && (q.held > pushed ==>
          c.pos.blk == 0 && !IsFirst(c.pos) && Packed(n, c, base) + (q.held - pushed) <= q.cap)
    && (ToPart(c.ph) && c.pos.blk == 0 ==> base + n.Sub() + q.held <= q.cap)
    && (c.ph == CPackOut || c.ph == CPushOut ==> q.held + n.Sub() <= q.cap)
  }

  // CB24: what is left of the previous K block's partial, then what the current one spilled.
  ghost predicate PartRing<T>(n: Net<T>, c: Compute, q: Ring, base: nat) {
    var x := Reloaded(n, c, base);
    && q.cap == n.Cap()
    && (c.pos.blk == 0 ==>
          q.rd == 0 && q.held == (if n.nb > 1 then base else 0) && q.wr == q.Wrap(q.held))
    && (0 < c.pos.blk ==> q.rd == q.Wrap(x))
    && (0 < c.pos.blk < n.nb - 1 ==> q.held == q.cap - (x - base) && q.wr == q.Wrap(base))
    && (0 < c.pos.blk == n.nb - 1 ==> q.held == q.cap - x && q.wr == 0)
  }

  // Slots below `packed` hold the current partial, the others the one before it.
  ghost predicate SharedMem<T>(n: Net<T>, c: Compute, m: seq<T>, packed: nat)
    requires n.Valid()
  {
    var p := c.pos;
    && |m| == n.Cap() && packed <= n.Cap()
    && m[..packed] == n.Partial(p.bh, p.bw, p.blk)[..packed]
    && (p.blk > 0 ==> m[packed..] == n.Partial(p.bh, p.bw, p.blk - 1)[packed..])
    && (p.blk == 0 && !IsFirst(p) ==>
          m[packed..] == n.Partial(PrevOuter(n, p).bh, PrevOuter(n, p).bw, n.nb - 1)[packed..])
  }

  ghost predicate Registers<T>(n: Net<T>, c: Compute, dst: seq<T>, base: nat)
    requires n.Valid() && (Active(c.ph) ==> base + n.Sub() <= n.Cap())
  {
    && (c.ph == CPopPart || c.ph == CMath ==> dst == n.Before(c.pos.bh, c.pos.bw, c.pos.blk, base))
    && (HasResult(c.ph) ==> dst == n.Partial(c.pos.bh, c.pos.bw, c.pos.blk)[base..base + n.Sub()])
  }

  ghost predicate InvAt<T>(n: Net<T>, s: State<T>, base: nat) {
    && n.Valid()
    && Inputs(n, s) && Waited(n, s)
    && Control(n, s.c, base)
    && OutRing(n, s.c, s.cb16, base)
    && PartRing(n, s.c, s.cb24, base)
    && SharedMem(n, s.c, s.m, Packed(n, s.c, base))
    && Registers(n, s.c, s.dst, base)
  }

  ghost predicate ComputeInv<T>(n: Net<T>, s: State<T>) {
    InvAt(n, s, n.Base(s.c.i0, s.c.i1))
  }

  // ---------- what the environment may do ----------

  // Between two steps of the compute kernel anything may happen to the input buffers as
  // long as blocks are only added and are the right ones, and any number of tiles may be
  // popped from CB16.
  ghost predicate Environment<T>(n: Net<T>, s: State<T>, s': State<T>)
    requires n.Valid()
  {
    && s'.c == s.c && s'.dst == s.dst && s'.m == s.m && s'.cb24 == s.cb24
    && Inputs(n, s') && s'.cb0.held >= s.cb0.held && s'.cb1.held >= s.cb1.held
    && s'.cb16.cap == s.cb16.cap && s'.cb16.wr == s.cb16.wr
    && s'.cb16.held <= s.cb16.held
    && s'.cb16.rd == s.cb16.Wrap(s.cb16.rd + (s.cb16.held - s'.cb16.held))
  }

  lemma PopKeepsOutRing<T>(n: Net<T>, c: Compute, q: Ring, k: nat, base: nat)
    requires n.Valid() && OutRing(n, c, q, base) && Pushed(n, c, base) <= n.Cap() && k <= q.held
    ensures q.rd < q.cap && k <= q.cap && OutRing(n, c, q.Pop(k), base)
  {
    n.Sizes();
    hide Net.Sub, Net.Cap, Net.Valid;
  }

  lemma EnvironmentKeepsInv<T>(n: Net<T>, s: State<T>, s': State<T>)
    requires ComputeInv(n, s) && Environment(n, s, s')
    ensures ComputeInv(n, s')
  {
    hide OutRing, PartRing, SharedMem, Registers, Control, Inputs, Net.Sub, Net.Cap, Net.N0, Net.N1, Net.Base,
         Net.Valid, InRange, Active;
    EnvironmentKeepsOutRing(n, s, s', n.Base(s.c.i0, s.c.i1));
  }

  lemma EnvironmentKeepsOutRing<T>(n: Net<T>, s: State<T>, s': State<T>, base: nat)
    requires InvAt(n, s, base) && Environment(n, s, s')
    ensures OutRing(n, s.c, s'.cb16, base)
  {
    hide PartRing, SharedMem, Registers, Control, Inputs, Net.Sub, Net.Cap, Net.N0, Net.N1, Net.Base, Net.Valid;
    PushedBound(n, s.c, base);
    PopKeepsOutRing(n, s.c, s.cb16, s.cb16.held - s'.cb16.held, base);
    PopIs(n, s, s');
  }

  lemma PopIs<T>(n: Net<T>, s: State<T>, s': State<T>)
    requires n.Valid() && Environment(n, s, s')
    requires s.cb16.rd < s.cb16.cap && s.cb16.held <= s.cb16.cap
    ensures s'.cb16 == s.cb16.Pop(s.cb16.held - s'.cb16.held)
  {
    hide Inputs, Net.Valid;
  }

  lemma PushedBound<T>(n: Net<T>, c: Compute, base: nat)
    requires n.Valid() && Control(n, c, base)
    ensures Pushed(n, c, base) <= n.Cap()
  {
    n.Sizes();
    hide Net.Sub, Net.Cap, Net.Valid;
  }

  // ---------- every step of the compute kernel keeps the invariant ----------

  lemma Established<T>(n: Net<T>, s: State<T>)
    requires n.Valid() && Init(n, s)
    ensures ComputeInv(n, s)
  {
    hide Net.Sub, Net.Cap, Net.N0, Net.N1, Net.Base, Net.Valid, Net.In0Block, Net.In1Block, Net.Partial, Net.Before;
    n.Sizes();
    n.BaseNext(0, 0);
    assert s.m[..0] == [] && n.Partial(0, 0, 0)[..0] == [];
  }

  function NextBase<T>(n: Net<T>, c: Compute, base: nat): nat {
    if c.ph == CPushOut || c.ph == CPushPart then base + n.Sub()
    else if c.ph == CPop1 then 0 else base
  }

  predicate EndsSub(ph: CPhase) { ph == CPushOut || ph == CPushPart }

  lemma ControlStep<T>(n: Net<T>, c: Compute, base: nat)
    requires n.Valid() && Control(n, c, base) && base == n.Base(c.i0, c.i1) && c.pos != End(n)
    ensures var c' := AdvanceC(n, c);
            NextBase(n, c, base) == n.Base(c'.i0, c'.i1) && Control(n, c', NextBase(n, c, base))
  {
    if EndsSub(c.ph) {
      ControlNextSub(n, c, base);
    } else if c.ph == CPop1 {
      ControlNextBlock(n, c, base);
    } else {
      ControlWithinSub(n, c, base);
    }
  }

  lemma ControlWithinSub<T>(n: Net<T>, c: Compute, base: nat)
    requires n.Valid() && Control(n, c, base) && base == n.Base(c.i0, c.i1) && c.pos != End(n)
    requires !EndsSub(c.ph) && c.ph != CPop1
    ensures var c' := AdvanceC(n, c); base == n.Base(c'.i0, c'.i1) && Control(n, c', base)
  {
    n.Sizes();
    hide Net.Sub, Net.Cap, Net.Base, Net.Valid;
  }

  lemma ControlNextSub<T>(n: Net<T>, c: Compute, base: nat)
    requires n.Valid() && Control(n, c, base) && base == n.Base(c.i0, c.i1) && c.pos != End(n)
    requires EndsSub(c.ph)
    ensures var c' := AdvanceC(n, c);
            base + n.Sub() == n.Base(c'.i0, c'.i1) && Control(n, c', base + n.Sub())
  {
    n.Sizes();
    NextSubBase(n, c, base);
    hide Net.Sub, Net.Cap, Net.Base, Net.Valid;
  }

  lemma ControlNextBlock<T>(n: Net<T>, c: Compute, base: nat)
    requires n.Valid() && Control(n, c, base) && c.pos != End(n) && c.ph == CPop1
    ensures var c' := AdvanceC(n, c); n.Base(c'.i0, c'.i1) == 0 && Control(n, c', 0)
  {
    n.Sizes();
    NextSubBase(n, c, n.Base(c.i0, c.i1));
    hide Net.Sub, Net.Cap, Net.Base, Net.Valid;
  }

  lemma NextSubBase<T>(n: Net<T>, c: Compute, base: nat)
    requires n.Valid() && base == n.Base(c.i0, c.i1)
    ensures n.Base(0, 0) == 0
    ensures Active(c.ph) && c.i0 < n.nsh && c.i1 < n.nsw ==>
              var c' := NextSub(n, c);
              n.Base(c'.i0, c'.i1) == base + n.Sub()
              && (c'.i0 == n.nsh ==> base + n.Sub() == n.Cap())
              && (c'.i0 < n.nsh ==> base + n.Sub() + n.Sub() <= n.Cap())
  {
    hide Net.Base, Net.Sub, Net.Cap, Net.Valid;
    n.Sizes();
    n.BaseNext(0, 0);
    if c.i0 < n.nsh && c.i1 < n.nsw {
      n.BaseNext(c.i0, c.i1);
      var c' := NextSub(n, c);
      if c'.i0 < n.nsh {
        n.BaseBounds(c'.i0, c'.i1);
      }
    }
  }

  function NextOut<T>(n: Net<T>, c: Compute, q: Ring): Ring
    requires c.ph == CPushOut ==> CanPush(q, n.Sub())
  {
    if c.ph == CPushOut then q.Push(n.Sub()) else q
  }

  lemma OutRingStep<T>(n: Net<T>, c: Compute, q: Ring, base: nat)
    requires n.Valid() && Control(n, c, base) && OutRing(n, c, q, base) && c.pos != End(n)
    requires c.ph == CRsvOut ==> q.Free() >= n.Sub()
    requires c.ph == CGuard ==> q.Free() >= c.outWait
    ensures c.ph == CPushOut ==> CanPush(q, n.Sub())
    ensures OutRing(n, AdvanceC(n, c), NextOut(n, c, q), NextBase(n, c, base))
  {
    if EndsSub(c.ph) {
      OutRingNextSub(n, c, q, base);
    } else if c.ph == CPop1 {
      OutRingNextBlock(n, c, q, base);
    } else {
      OutRingWithinSub(n, c, q, base);
    }
  }

  lemma OutRingWithinSub<T>(n: Net<T>, c: Compute, q: Ring, base: nat)
    requires n.Valid() && Control(n, c, base) && OutRing(n, c, q, base) && c.pos != End(n)
    requires c.ph == CRsvOut ==> q.Free() >= n.Sub()
    requires c.ph == CGuard ==> q.Free() >= c.outWait
    requires !EndsSub(c.ph) && c.ph != CPop1
    ensures OutRing(n, AdvanceC(n, c), q, base)
  {
    n.Sizes();
    hide Net.Sub, Net.Cap, Net.Valid;
  }

  lemma OutRingNextSub<T>(n: Net<T>, c: Compute, q: Ring, base: nat)
    requires n.Valid() && Control(n, c, base) && OutRing(n, c, q, base) && c.pos != End(n)
    requires EndsSub(c.ph)
    ensures c.ph == CPushOut ==> CanPush(q, n.Sub())
    ensures OutRing(n, AdvanceC(n, c), NextOut(n, c, q), base + n.Sub())
  {
    n.Sizes();
    hide Net.Sub, Net.Cap, Net.Valid;
  }

  lemma OutRingNextBlock<T>(n: Net<T>, c: Compute, q: Ring, base: nat)
    requires n.Valid() && Control(n, c, base) && OutRing(n, c, q, base) && c.pos != End(n)
    requires c.ph == CPop1
    ensures OutRing(n, AdvanceC(n, c), q, 0)
  {
    n.Sizes();
    hide Net.Sub, Net.Cap, Net.Valid;
  }

  function NextPart<T>(n: Net<T>, c: Compute, q: Ring): Ring
    requires c.ph == CPopPart ==> CanPop(q, n.Sub())
    requires c.ph == CPushPart ==> CanPush(q, n.Sub())
  {
    if c.ph == CPopPart then q.Pop(n.Sub()) else if c.ph == CPushPart then q.Push(n.Sub()) else q
  }

  lemma PartRingStep<T>(n: Net<T>, c: Compute, q: Ring, base: nat)
    requires n.Valid() && Control(n, c, base) && PartRing(n, c, q, base) && c.pos != End(n)
    ensures c.ph == CPopPart ==> CanPop(q, n.Sub())
    ensures c.ph == CPushPart ==> CanPush(q, n.Sub())
    ensures PartRing(n, AdvanceC(n, c), NextPart(n, c, q), NextBase(n, c, base))
  {
    if EndsSub(c.ph) {
      PartRingNextSub(n, c, q, base);
    } else if c.ph == CPop1 {
      PartRingNextBlock(n, c, q, base);
    } else {
      PartRingWithinSub(n, c, q, base);
    }
  }

  lemma PartRingWithinSub<T>(n: Net<T>, c: Compute, q: Ring, base: nat)
    requires n.Valid() && Control(n, c, base) && PartRing(n, c, q, base) && c.pos != End(n)
    requires !EndsSub(c.ph) && c.ph != CPop1
    ensures c.ph == CPopPart ==> CanPop(q, n.Sub())
    ensures PartRing(n, AdvanceC(n, c), NextPart(n, c, q), base)
  {
    n.Sizes();
    hide Net.Sub, Net.Cap, Net.Valid;
  }

  lemma PartRingNextSub<T>(n: Net<T>, c: Compute, q: Ring, base: nat)
    requires n.Valid() && Control(n, c, base) && PartRing(n, c, q, base) && c.pos != End(n)
    requires EndsSub(c.ph)
    ensures c.ph == CPushPart ==> CanPush(q, n.Sub())
    ensures PartRing(n, AdvanceC(n, c), NextPart(n, c, q), base + n.Sub())
  {
    n.Sizes();
    hide Net.Sub, Net.Cap, Net.Valid;
  }

  lemma PartRingNextBlock<T>(n: Net<T>, c: Compute, q: Ring, base: nat)
    requires n.Valid() && Control(n, c, base) && PartRing(n, c, q, base) && c.pos != End(n)
    requires c.ph == CPop1
    ensures PartRing(n, AdvanceC(n, c), q, 0)
  {
    n.Sizes();
    hide Net.Sub, Net.Cap, Net.Valid;
  }

  // Packing a sub-block at `base` moves the boundary between current and old contents.
  lemma PutMovesBoundary<T>(m: seq<T>, base: nat, dst: seq<T>, current: seq<T>, before: seq<T>)
    requires |m| == |current| == |before| && base + |dst| <= |m|
    requires m[..base] == current[..base] && m[base..] == before[base..]
    requires dst == current[base..base + |dst|]
    ensures Put(m, base, dst)[..base + |dst|] == current[..base + |dst|]
    ensures Put(m, base, dst)[base + |dst|..] == before[base + |dst|..]
  {
    var r := Put(m, base, dst);
    assert current[..base + |dst|] == current[..base] + current[base..base + |dst|];
    assert r[..base + |dst|] == r[..base] + r[base..base + |dst|];
    assert m[base + |dst|..] == m[base..][|dst|..];
    assert before[base + |dst|..] == before[base..][|dst|..];
  }

  lemma PackStep<T>(n: Net<T>, c: Compute, m: seq<T>, dst: seq<T>, base: nat)
    requires n.Valid() && Control(n, c, base) && c.pos != End(n)
    requires c.ph == CPackOut || c.ph == CPackPart
    requires SharedMem(n, c, m, base) && Registers(n, c, dst, base)
    ensures |dst| == n.Sub() && base + n.Sub() <= |m|
    ensures SharedMem(n, AdvanceC(n, c), Put(m, base, dst), base + n.Sub())
  {
    hide Net.Partial, Net.Before, Net.Sub, Net.Cap, Net.Valid, Put;
    n.Sizes();
    var p := c.pos;
    var current := n.Partial(p.bh, p.bw, p.blk);
    if p.blk > 0 {
      PutMovesBoundary(m, base, dst, current, n.Partial(p.bh, p.bw, p.blk - 1));
    } else if !IsFirst(p) {
      PutMovesBoundary(m, base, dst, current, n.Partial(PrevOuter(n, p).bh, PrevOuter(n, p).bw, n.nb - 1));
    } else {
      PutMovesBoundary(m, base, dst, current, current[..base] + m[base..]);
    }
  }

  lemma NextBlockMem<T>(n: Net<T>, c: Compute, m: seq<T>)
    requires n.Valid() && c.pos != End(n) && InRange(n, c.pos)
    requires c.ph == CPop1 && SharedMem(n, c, m, n.Cap())
    ensures SharedMem(n, AdvanceC(n, c), m, 0)
  {
    hide Net.Partial, Net.Sub, Net.Cap, Net.Valid;
    n.Sizes();
    var p := c.pos;
    var current := n.Partial(p.bh, p.bw, p.blk);
    assert m == current by {
      assert m[..n.Cap()] == m && current[..n.Cap()] == current;
    }
    assert m[0..] == m && current[0..] == current;
    assert m[..0] == [] && forall s: seq<T> :: s[..0] == [];
  }

  lemma ReloadStep<T>(n: Net<T>, c: Compute, m: seq<T>, q: Ring, base: nat)
    requires n.Valid() && Control(n, c, base) && c.ph == CCopy
    requires SharedMem(n, c, m, base) && PartRing(n, c, q, base)
    ensures q.rd == base && base + n.Sub() <= |m|
    ensures m[base..base + n.Sub()] == n.Before(c.pos.bh, c.pos.bw, c.pos.blk, base)
  {
    hide Net.Partial, Net.Sub, Net.Cap, Net.Valid;
    n.Sizes();
    var before := n.Partial(c.pos.bh, c.pos.bw, c.pos.blk - 1);
    assert m[base..base + n.Sub()] == m[base..][..n.Sub()];
    assert before[base..base + n.Sub()] == before[base..][..n.Sub()];
  }

  // Popping the front block of a double buffer brings the next one to the front.
  lemma FeedPop<T>(q: Ring, mem: seq<T>, k: nat, b1: seq<T>, b2: seq<T>, b3: seq<T>)
    requires 0 < k && Feed(q, mem, k, b1, b2) && k <= q.held
    ensures CanPop(q, k) && Feed(q.Pop(k), mem, k, b2, b3)
  {
  }

  // Filling the free half of a double buffer and pushing it keeps the front.
  lemma FeedPush<T>(q: Ring, mem: seq<T>, k: nat, b1: seq<T>, b2: seq<T>, block: seq<T>)
    requires 0 < k && Feed(q, mem, k, b1, b2) && q.held + k <= q.cap
    requires block == if q.held == 0 then b1 else b2
    requires q.wr + k <= |mem| && mem[q.wr..q.wr + k] == block
    ensures CanPush(q, k) && Feed(q.Push(k), mem, k, b1, b2)
  {
  }

  // Filling the free half disturbs nothing that is held.
  lemma FeedFill<T>(q: Ring, mem: seq<T>, k: nat, b1: seq<T>, b2: seq<T>, block: seq<T>)
    requires 0 < k && Feed(q, mem, k, b1, b2) && q.held + k <= q.cap && |block| == k
    ensures q.wr + k <= |mem| && Feed(q, Put(mem, q.wr, block), k, b1, b2)
  {
    var r := Put(mem, q.wr, block);
    if q.held == k {
      var x := q.rd;
      if x == 0 {
        assert r[0..k] == r[..k] == mem[..k] == mem[0..k];
      } else {
        assert r[k..2 * k] == r[k..] == mem[k..] == mem[k..2 * k];
      }
    }
  }

  // ---------- the whole step ----------

  lemma ComputeStepKeepsInv<T>(n: Net<T>, s: State<T>)
    requires ComputeInv(n, s) && ReadyC(n, s) && BoundsC(n, s)
    ensures ComputeInv(n, StepC(n, s))
  {
    hide OutRing, PartRing, SharedMem, Registers, Control, Inputs, Waited, Packed, Net.Sub, Net.Cap, Net.N0, Net.N1,
         Net.Base, Net.Valid, ReadyC, BoundsC, StepC, AdvanceC, NextBase, Active;
    var base := n.Base(s.c.i0, s.c.i1);
    var s' := StepC(n, s);
    Effects(n, s);
    StepControl(n, s, base);
    StepRings(n, s, base);
    StepMem(n, s, base);
    StepRegisters(n, s, base);
    StepInputs(n, s, base);
  }

  // What a step does to each part of the state.
  lemma Effects<T>(n: Net<T>, s: State<T>)
    requires n.Valid() && ReadyC(n, s) && BoundsC(n, s)
    ensures s.c.pos != End(n)
    ensures var s' := StepC(n, s);
            && s'.c == AdvanceC(n, s.c)
            && s'.cb16 == NextOut(n, s.c, s.cb16) && s'.cb24 == NextPart(n, s.c, s.cb24)
            && s'.r == s.r && s'.w == s.w && s'.m0 == s.m0 && s'.m1 == s.m1 && s'.out == s.out
            && (s.c.ph != CPackOut && s.c.ph != CPackPart ==> s'.m == s.m)
            && (s.c.ph == CPackOut ==> s'.m == Put(s.m, s.cb16.wr, s.dst))
            && (s.c.ph == CPackPart ==> s'.m == Put(s.m, s.cb24.wr, s.dst))
            && (s.c.ph != CAcquire && s.c.ph != CCopy && s.c.ph != CMath ==> s'.dst == s.dst)
            && s'.cb0 == (if s.c.ph == CPop0 then s.cb0.Pop(n.N0()) else s.cb0)
            && s'.cb1 == (if s.c.ph == CPop1 then s.cb1.Pop(n.N1()) else s.cb1)
            && (s.c.ph == CAcquire ==> s'.dst == seq(n.Sub(), t => n.g.zero))
            && (s.c.ph == CMath ==> s'.dst == Multiply(n, s))
  {
    hide Net.Sub, Net.Cap, Net.N0, Net.N1, Net.Valid, Put, AdvanceC, Net.SubMath, Multiply, StepC, ReadyC, NextOut,
         NextPart;
    EffectsOnBuffers(n, s);
    EffectsOnMemory(n, s);
  }

  lemma EffectsOnBuffers<T>(n: Net<T>, s: State<T>)
    requires n.Valid() && ReadyC(n, s) && BoundsC(n, s)
    ensures s.c.pos != End(n)
    ensures var s' := StepC(n, s);
            && s'.c == AdvanceC(n, s.c)
            && s'.cb16 == NextOut(n, s.c, s.cb16) && s'.cb24 == NextPart(n, s.c, s.cb24)
            && s'.r == s.r && s'.w == s.w && s'.out == s.out
            && s'.cb0 == (if s.c.ph == CPop0 then s.cb0.Pop(n.N0()) else s.cb0)
            && s'.cb1 == (if s.c.ph == CPop1 then s.cb1.Pop(n.N1()) else s.cb1)
  {
    hide Net.Sub, Net.Cap, Net.N0, Net.N1, Net.Valid, Put, AdvanceC, Net.SubMath, Multiply, Ring.Push, Ring.Pop;
  }

  lemma EffectsOnMemory<T>(n: Net<T>, s: State<T>)
    requires n.Valid() && ReadyC(n, s) && BoundsC(n, s)
    ensures var s' := StepC(n, s);
            && s'.m0 == s.m0 && s'.m1 == s.m1
            && (s.c.ph != CPackOut && s.c.ph != CPackPart ==> s'.m == s.m)
            && (s.c.ph == CPackOut ==> s'.m == Put(s.m, s.cb16.wr, s.dst))
            && (s.c.ph == CPackPart ==> s'.m == Put(s.m, s.cb24.wr, s.dst))
            && (s.c.ph != CAcquire && s.c.ph != CCopy && s.c.ph != CMath ==> s'.dst == s.dst)
            && (s.c.ph == CAcquire ==> s'.dst == seq(n.Sub(), t => n.g.zero))
            && (s.c.ph == CMath ==> s'.dst == Multiply(n, s))
  {
    hide Net.Sub, Net.Cap, Net.N0, Net.N1, Net.Valid, Put, AdvanceC, Net.SubMath, Multiply, Ring.Push, Ring.Pop;
  }

  lemma StepControl<T>(n: Net<T>, s: State<T>, base: nat)
    requires InvAt(n, s, base) && base == n.Base(s.c.i0, s.c.i1) && ReadyC(n, s) && BoundsC(n, s)
    ensures var c' := AdvanceC(n, s.c);
            NextBase(n, s.c, base) == n.Base(c'.i0, c'.i1) && Control(n, c', NextBase(n, s.c, base))
  {
    hide PartRing, OutRing, SharedMem, Registers, Control, Inputs, Net.Sub, Net.Cap, Net.N0, Net.N1, Net.Base,
         Net.Valid, AdvanceC, NextBase, Put;
    ControlStep(n, s.c, base);
  }

  lemma StepRings<T>(n: Net<T>, s: State<T>, base: nat)
    requires InvAt(n, s, base) && ReadyC(n, s) && BoundsC(n, s)
    ensures OutRing(n, AdvanceC(n, s.c), StepC(n, s).cb16, NextBase(n, s.c, base))
    ensures PartRing(n, AdvanceC(n, s.c), StepC(n, s).cb24, NextBase(n, s.c, base))
  {
    hide PartRing, OutRing, SharedMem, Registers, Control, Inputs, Waited, Net.Sub, Net.Cap, Net.N0, Net.N1, Net.Base,
         Net.Valid, AdvanceC, NextBase, Put, StepC, Active, Packed, NextOut, NextPart, Net.SubMath, Net.In0Block,
         Net.In1Block;
    Effects(n, s);
    OutRingStep(n, s.c, s.cb16, base);
    PartRingStep(n, s.c, s.cb24, base);
  }

  // Both packs go to the slot of the current sub-block.
  lemma PacksAtBase<T>(n: Net<T>, c: Compute, out: Ring, part: Ring, base: nat)
    requires n.Valid() && Control(n, c, base) && OutRing(n, c, out, base) && PartRing(n, c, part, base)
    ensures c.ph == CPackOut ==> out.wr == base
    ensures c.ph == CPackPart ==> part.wr == base
  {
    hide Net.Sub, Net.Cap, Net.Valid;
    n.Sizes();
  }

  lemma MemUntouched<T>(n: Net<T>, c: Compute, m: seq<T>, base: nat)
    requires n.Valid() && Control(n, c, base) && c.pos != End(n)
    requires SharedMem(n, c, m, Packed(n, c, base))
    requires c.ph != CPackOut && c.ph != CPackPart
    ensures SharedMem(n, AdvanceC(n, c), m, Packed(n, AdvanceC(n, c), NextBase(n, c, base)))
  {
    hide Net.Partial, Net.Sub, Net.Cap, Net.Valid, SharedMem, Control, Succ, AdvanceC;
    if c.ph == CPop1 {
      PopsAtCap(n, c, base);
      NextBlockMem(n, c, m);
    } else {
      MemWithinBlock(n, c, m, base);
    }
  }

  lemma PopsAtCap<T>(n: Net<T>, c: Compute, base: nat)
    requires n.Valid() && Control(n, c, base) && c.ph == CPop1
    ensures Packed(n, c, base) == n.Cap() && InRange(n, c.pos)
    ensures Packed(n, AdvanceC(n, c), 0) == 0
  {
    hide Net.Sub, Net.Cap, Net.Valid, Succ;
  }

  lemma MemWithinBlock<T>(n: Net<T>, c: Compute, m: seq<T>, base: nat)
    requires n.Valid() && Control(n, c, base) && c.pos != End(n)
    requires SharedMem(n, c, m, Packed(n, c, base))
    requires c.ph != CPackOut && c.ph != CPackPart && c.ph != CPop1
    ensures SharedMem(n, AdvanceC(n, c), m, Packed(n, AdvanceC(n, c), NextBase(n, c, base)))
  {
    hide Net.Partial, Net.Sub, Net.Cap, Net.Valid, InRange, Control;
  }

  lemma StepMem<T>(n: Net<T>, s: State<T>, base: nat)
    requires InvAt(n, s, base) && ReadyC(n, s) && BoundsC(n, s)
    ensures SharedMem(n, AdvanceC(n, s.c), StepC(n, s).m, Packed(n, AdvanceC(n, s.c), NextBase(n, s.c, base)))
  {
    hide PartRing, OutRing, SharedMem, Registers, Control, Inputs, Waited, Net.Sub, Net.Cap, Net.N0, Net.N1, Net.Base,
         Net.Valid, AdvanceC, NextBase, Put, StepC, Active, Packed, NextOut, NextPart, Net.SubMath, Net.In0Block,
         Net.In1Block;
    Effects(n, s);
    if s.c.ph == CPackOut || s.c.ph == CPackPart {
      PacksAtBase(n, s.c, s.cb16, s.cb24, base);
      PackedWhilePacking(n, s.c, base);
      PackStep(n, s.c, s.m, s.dst, base);
    } else {
      MemUntouched(n, s.c, s.m, base);
    }
  }

  lemma PackedWhilePacking<T>(n: Net<T>, c: Compute, base: nat)
    requires c.ph == CPackOut || c.ph == CPackPart
    ensures Packed(n, c, base) == base
    ensures Packed(n, AdvanceC(n, c), NextBase(n, c, base)) == base + n.Sub()
  {
    hide Net.Sub;
  }

  lemma RegistersKept<T>(n: Net<T>, c: Compute, dst: seq<T>, base: nat)
    requires n.Valid() && Control(n, c, base) && Control(n, AdvanceC(n, c), NextBase(n, c, base))
    requires Registers(n, c, dst, base) && c.pos != End(n)
    requires c.ph != CAcquire && c.ph != CCopy && c.ph != CMath
    ensures Registers(n, AdvanceC(n, c), dst, NextBase(n, c, base))
  {
    hide Net.Partial, Net.Before, Net.Sub, Net.Cap, Net.Valid, InRange, Succ;
    if c.ph == CPop1 || EndsSub(c.ph) {
      NoRegistersNeeded(n, c);
    }
  }

  lemma NoRegistersNeeded<T>(n: Net<T>, c: Compute)
    requires c.ph == CPop1 || EndsSub(c.ph)
    ensures var ph := AdvanceC(n, c).ph; ph != CPopPart && ph != CMath && !HasResult(ph)
  {
    hide Net.Sub, Succ;
  }

  lemma AcquireStep<T>(n: Net<T>, c: Compute, base: nat)
    requires n.Valid() && Control(n, c, base) && Control(n, AdvanceC(n, c), base) && c.ph == CAcquire
    ensures Registers(n, AdvanceC(n, c), seq(n.Sub(), t => n.g.zero), base)
  {
    hide Net.Partial, Net.Sub, Net.Cap, Net.Valid;
    n.Sizes();
    if c.pos.blk == 0 {
      assert n.Before(c.pos.bh, c.pos.bw, 0, base) == seq(n.Sub(), t => n.g.zero);
    }
  }

  lemma MathStep<T>(n: Net<T>, c: Compute, dst: seq<T>, base: nat)
    requires n.Valid() && Control(n, c, base) && base == n.Base(c.i0, c.i1) && c.ph == CMath
    requires Registers(n, c, dst, base)
    ensures |dst| == n.Sub()
    ensures Registers(n, AdvanceC(n, c),
              n.SubMath(dst, n.In0Block(c.pos.bh, c.pos.blk), n.In1Block(c.pos.bw, c.pos.blk), c.i0, c.i1), base)
  {
    hide Net.Partial, Net.Before, Net.SubMath, Net.In0Block, Net.In1Block, Net.Sub, Net.Cap, Net.N0, Net.N1, Net.Base,
         Net.Valid;
    n.Sizes();
    n.SubMathIsPartial(c.pos.bh, c.pos.bw, c.pos.blk, c.i0, c.i1, base);
  }

  // The fronts of CB0 and CB1 during the math are the blocks of the current position.
  lemma FrontBlocks<T>(n: Net<T>, s: State<T>)
    requires n.Valid() && Inputs(n, s) && Waited(n, s) && s.c.ph == CMath
    ensures s.cb0.rd + n.N0() <= |s.m0| && s.cb1.rd + n.N1() <= |s.m1|
    ensures s.m0[s.cb0.rd..s.cb0.rd + n.N0()] == n.In0Block(s.c.pos.bh, s.c.pos.blk)
    ensures s.m1[s.cb1.rd..s.cb1.rd + n.N1()] == n.In1Block(s.c.pos.bw, s.c.pos.blk)
  {
    n.Sizes();
    hide Net.In0Block, Net.In1Block, Net.N0, Net.N1, Net.Valid;
  }

  lemma StepRegisters<T>(n: Net<T>, s: State<T>, base: nat)
    requires InvAt(n, s, base) && base == n.Base(s.c.i0, s.c.i1) && ReadyC(n, s) && BoundsC(n, s)
    requires Control(n, AdvanceC(n, s.c), NextBase(n, s.c, base))
    ensures Registers(n, AdvanceC(n, s.c), StepC(n, s).dst, NextBase(n, s.c, base))
  {
    hide PartRing, OutRing, SharedMem, Registers, Control, Inputs, Waited, Net.Sub, Net.Cap, Net.N0, Net.N1, Net.Base,
         Net.Valid, AdvanceC, Put, StepC, BoundsC, Active, Packed, NextOut, NextPart, Net.SubMath, Net.In0Block,
         Net.In1Block;
    Effects(n, s);
    match s.c.ph
    case CCopy => StepReload(n, s, base);
    case CMath => StepMath(n, s, base);
    case CAcquire => AcquireStep(n, s.c, base);
    case _ => RegistersKept(n, s.c, s.dst, base);
  }

  lemma StepReload<T>(n: Net<T>, s: State<T>, base: nat)
    requires InvAt(n, s, base) && ReadyC(n, s) && BoundsC(n, s) && s.c.ph == CCopy
    ensures Registers(n, AdvanceC(n, s.c), StepC(n, s).dst, base)
  {
    hide PartRing, OutRing, SharedMem, Control, Inputs, Net.Sub, Net.Cap, Net.N0, Net.N1, Net.Base, Net.Valid, Put,
         Net.Before;
    ReloadStep(n, s.c, s.m, s.cb24, base);
  }

  lemma StepMath<T>(n: Net<T>, s: State<T>, base: nat)
    requires InvAt(n, s, base) && base == n.Base(s.c.i0, s.c.i1)
    requires ReadyC(n, s) && BoundsC(n, s) && s.c.ph == CMath
    ensures Registers(n, AdvanceC(n, s.c), StepC(n, s).dst, base)
  {
    hide PartRing, OutRing, SharedMem, Registers, Control, Inputs, Waited, Net.Sub, Net.Cap, Net.N0, Net.N1, Net.Base,
         Net.Valid, Put, AdvanceC, Net.SubMath, Net.In0Block, Net.In1Block, StepC, ReadyC, BoundsC, Multiply;
    Effects(n, s);
    FrontBlocks(n, s);
    MathStep(n, s.c, s.dst, base);
    MultiplyIs(n, s);
  }

  lemma MultiplyIs<T>(n: Net<T>, s: State<T>)
    requires n.Valid() && BoundsC(n, s) && s.c.ph == CMath
    ensures s.c.i0 < n.nsh && s.c.i1 < n.nsw && |s.dst| == n.Sub()
    ensures s.cb0.rd + n.N0() <= |s.m0| && s.cb1.rd + n.N1() <= |s.m1|
    ensures Multiply(n, s)
         == n.SubMath(s.dst, s.m0[s.cb0.rd..s.cb0.rd + n.N0()], s.m1[s.cb1.rd..s.cb1.rd + n.N1()], s.c.i0, s.c.i1)
  {
    hide Net.Sub, Net.N0, Net.N1, Net.SubMath;
    n.Sizes();
  }

  lemma StepInputs<T>(n: Net<T>, s: State<T>, base: nat)
    requires InvAt(n, s, base) && ReadyC(n, s) && BoundsC(n, s)
    ensures Inputs(n, StepC(n, s)) && Waited(n, StepC(n, s))
  {
    hide PartRing, OutRing, SharedMem, Registers, Inputs, Waited, Net.Sub, Net.Cap, Net.N0, Net.N1, Net.Base,
         Net.Valid, AdvanceC, Put, StepC, Active, Packed, Net.SubMath, Net.In0Block, Net.In1Block;
    match s.c.ph
    case CPop0 => PopInput0(n, s, base);
    case CPop1 => PopInput1(n, s, base);
    case _ => KeepInputs(n, s);
  }

  lemma KeepInputs<T>(n: Net<T>, s: State<T>)
    requires n.Valid() && Inputs(n, s) && Waited(n, s) && ReadyC(n, s) && BoundsC(n, s)
    requires s.c.ph != CPop0 && s.c.ph != CPop1
    ensures Inputs(n, StepC(n, s)) && Waited(n, StepC(n, s))
  {
    hide Net.Sub, Net.N0, Net.N1, Net.Valid, Put, StepC, Net.In0Block, Net.In1Block, Feed, FeedAt, Succ, BoundsC,
         NextOut, NextPart;
    Effects(n, s);
  }

  lemma PopInput0<T>(n: Net<T>, s: State<T>, base: nat)
    requires InvAt(n, s, base) && ReadyC(n, s) && BoundsC(n, s) && s.c.ph == CPop0
    ensures Inputs(n, StepC(n, s)) && Waited(n, StepC(n, s))
  {
    hide PartRing, OutRing, SharedMem, Registers, Control, Net.Sub, Net.Cap, Net.N0, Net.N1, Net.Base, Net.Valid, Put,
         Net.In0Block, Net.In1Block, Feed, Succ, StepC;
    n.Sizes();
    Effects(n, s);
    var p := s.c.pos;
    var p1, p2 := Succ(n, p), Succ(n, Succ(n, p));
    FeedPop(s.cb0, s.m0, n.N0(), n.In0Block(p.bh, p.blk), n.In0Block(p1.bh, p1.blk), n.In0Block(p2.bh, p2.blk));
    FeedHeld(s.cb0, s.m0, n.N0(), n.In0Block(p.bh, p.blk), n.In0Block(p1.bh, p1.blk));
  }

  lemma FeedHeld<T>(q: Ring, mem: seq<T>, k: nat, b1: seq<T>, b2: seq<T>)
    requires Feed(q, mem, k, b1, b2)
    ensures q.held == 0 || q.held == k || q.held == 2 * k
  {
  }

  lemma PopInput1<T>(n: Net<T>, s: State<T>, base: nat)
    requires InvAt(n, s, base) && ReadyC(n, s) && BoundsC(n, s) && s.c.ph == CPop1
    ensures Inputs(n, StepC(n, s)) && Waited(n, StepC(n, s))
  {
    hide PartRing, OutRing, SharedMem, Registers, Control, Net.Sub, Net.Cap, Net.N0, Net.N1, Net.Base, Net.Valid, Put,
         Net.In0Block, Net.In1Block, Feed, NextOuter, StepC;
    n.Sizes();
    Effects(n, s);
    var p := s.c.pos;
    var p1, p2 := Succ(n, p), Succ(n, Succ(n, p));
    FeedPop(s.cb1, s.m1, n.N1(), n.In1Block(p.bw, p.blk), n.In1Block(p1.bw, p1.blk), n.In1Block(p2.bw, p2.blk));
    FeedHeld(s.cb1, s.m1, n.N1(), n.In1Block(p.bw, p.blk), n.In1Block(p1.bw, p1.blk));
  }

  // ---------- consequences ----------

  // A ready compute kernel never runs out of bounds.
  lemma ComputeInBounds<T>(n: Net<T>, s: State<T>)
    requires ComputeInv(n, s) && ReadyC(n, s)
    ensures BoundsC(n, s)
  {
    hide PartRing, OutRing, SharedMem, Registers, Control, Inputs, Waited, Net.Sub, Net.Cap, Net.N0, Net.N1, Net.Base,
         Net.Valid, CanPop, CanPush, Net.Partial, Net.Before;
    var base := n.Base(s.c.i0, s.c.i1);
    var p := s.c.pos;
    OutBounds(n, s.c, s.cb16, base);
    PartBounds(n, s.c, s.cb24, base);
    ControlBounds(n, s.c, s.dst, s.m, base);
    InputBounds(n, s);
  }

  lemma OutBounds<T>(n: Net<T>, c: Compute, q: Ring, base: nat)
    requires n.Valid() && Control(n, c, base) && OutRing(n, c, q, base) && c.pos != End(n)
    ensures c.ph == CPackOut ==> q.wr + n.Sub() <= n.Cap()
    ensures c.ph == CPushOut ==> CanPush(q, n.Sub())
  {
    hide Net.Sub, Net.Cap, Net.Valid;
    n.Sizes();
  }

  lemma PartBounds<T>(n: Net<T>, c: Compute, q: Ring, base: nat)
    requires n.Valid() && Control(n, c, base) && PartRing(n, c, q, base) && c.pos != End(n)
    ensures c.ph == CCopy ==> q.rd + n.Sub() <= n.Cap()
    ensures c.ph == CPackPart ==> q.wr + n.Sub() <= n.Cap()
    ensures c.ph == CPopPart ==> CanPop(q, n.Sub())
    ensures c.ph == CPushPart ==> CanPush(q, n.Sub())
    ensures c.ph == CWaitPart ==> q.held >= n.Sub()
    ensures c.ph == CRsvPart ==> q.Free() >= n.Sub()
  {
    hide Net.Sub, Net.Cap, Net.Valid;
    n.Sizes();
  }

  lemma ControlBounds<T>(n: Net<T>, c: Compute, dst: seq<T>, m: seq<T>, base: nat)
    requires n.Valid() && Control(n, c, base) && Registers(n, c, dst, base)
    requires SharedMem(n, c, m, Packed(n, c, base))
    ensures |m| == n.Cap()
    ensures c.ph == CMath || HasResult(c.ph) ==> |dst| == n.Sub()
    ensures c.ph == CMath ==> c.i0 < n.nsh && c.i1 < n.nsw
  {
    hide Net.Sub, Net.Cap, Net.Valid, Net.Partial, Net.Before;
    n.Sizes();
  }

  lemma InputBounds<T>(n: Net<T>, s: State<T>)
    requires n.Valid() && Inputs(n, s) && Waited(n, s)
    ensures s.cb0.rd + n.N0() <= |s.m0| && s.cb1.rd + n.N1() <= |s.m1|
    ensures s.c.ph == CPop0 ==> CanPop(s.cb0, n.N0())
    ensures s.c.ph == CPop1 ==> CanPop(s.cb1, n.N1())
  {
    n.Sizes();
    hide Net.In0Block, Net.In1Block, Net.N0, Net.N1, Net.Valid;
  }

  // The waits and reserves on CB24 never block.
  lemma PartialsNeverBlock<T>(n: Net<T>, s: State<T>)
    requires ComputeInv(n, s) && (s.c.ph == CWaitPart || s.c.ph == CRsvPart)
    ensures ReadyC(n, s)
  {
    hide OutRing, SharedMem, Registers, Inputs, Waited, Net.Sub, Net.Cap, Net.N0, Net.N1, Net.Base, Net.Valid;
    PartBounds(n, s.c, s.cb24, n.Base(s.c.i0, s.c.i1));
  }

  // Whatever is about to be packed goes to slots that hold nothing still needed: no output
  // tile that the consumer has not popped, no partial that is not yet reloaded.
  ghost predicate PackIsSafe<T>(n: Net<T>, s: State<T>) {
    && (s.c.ph == CPackOut ==> forall slot :: s.cb16.wr <= slot < s.cb16.wr + n.Sub() ==>
          !s.cb16.Occupied(slot) && !s.cb24.Occupied(slot))
    && (s.c.ph == CPackPart ==> forall slot :: s.cb24.wr <= slot < s.cb24.wr + n.Sub() ==>
          !s.cb16.Occupied(slot) && !s.cb24.Occupied(slot))
  }

  lemma NoOverwrite<T>(n: Net<T>, s: State<T>)
    requires ComputeInv(n, s)
    ensures PackIsSafe(n, s)
  {
    hide SharedMem, Registers, Inputs, Waited, Net.Sub, Net.Cap, Net.N0, Net.N1, Net.Base, Net.Valid;
    n.Sizes();
    var base := n.Base(s.c.i0, s.c.i1);
    SlotsFree(n, s.c, s.cb16, s.cb24, base);
  }

  lemma SlotsFree<T>(n: Net<T>, c: Compute, out: Ring, part: Ring, base: nat)
    requires n.Valid() && Control(n, c, base) && OutRing(n, c, out, base) && PartRing(n, c, part, base)
    ensures c.ph == CPackOut ==> forall slot :: out.wr <= slot < out.wr + n.Sub() ==>
              !out.Occupied(slot) && !part.Occupied(slot)
    ensures c.ph == CPackPart ==> forall slot :: part.wr <= slot < part.wr + n.Sub() ==>
              !out.Occupied(slot) && !part.Occupied(slot)
  {
    hide Net.Sub, Net.Cap, Net.Valid;
    n.Sizes();
    PacksAtBase(n, c, out, part, base);
  }

  // The t-th unpopped tile of CB16, as it should be: the newest ones belong to the current
  // outer block, the older ones to the block before it.
  ghost function ExpectedOutput<T>(n: Net<T>, s: State<T>, t: nat): T
    requires n.Valid() && ComputeInv(n, s) && t < s.cb16.held
  {
    OutSlot(n, s, t);
    var p := s.c.pos;
    var slot := s.cb16.Slot(t);
    if s.cb16.held - t <= Pushed(n, s.c, n.Base(s.c.i0, s.c.i1)) then n.Partial(p.bh, p.bw, n.nb - 1)[slot]
    else n.Partial(PrevOuter(n, p).bh, PrevOuter(n, p).bw, n.nb - 1)[slot]
  }

  lemma OutSlot<T>(n: Net<T>, s: State<T>, t: nat)
    requires ComputeInv(n, s) && t < s.cb16.held
    ensures 0 <= s.cb16.Slot(t) < n.Cap() == |s.m|
    ensures s.cb16.held - t > Pushed(n, s.c, n.Base(s.c.i0, s.c.i1)) ==> !IsFirst(s.c.pos)
  {
    hide PartRing, Registers, Inputs, Waited, Net.Sub, Net.Cap, Net.N0, Net.N1, Net.Base, Net.Valid, Net.Partial;
    n.Sizes();
    PushedBound(n, s.c, n.Base(s.c.i0, s.c.i1));
  }

  ghost predicate OutputsAreIntact<T>(n: Net<T>, s: State<T>)
    requires n.Valid() && ComputeInv(n, s)
  {
    forall t: nat :: t < s.cb16.held ==>
      0 <= s.cb16.Slot(t) < |s.m| && s.m[s.cb16.Slot(t)] == ExpectedOutput(n, s, t)
  }

  // However slowly it is consumed, every unpopped output tile is the finished one.
  lemma OutputsIntact<T>(n: Net<T>, s: State<T>, t: nat)
    requires ComputeInv(n, s) && t < s.cb16.held
    ensures 0 <= s.cb16.Slot(t) < |s.m|
    ensures s.m[s.cb16.Slot(t)] == ExpectedOutput(n, s, t)
  {
    hide PartRing, Registers, Inputs, Waited, Net.Sub, Net.Cap, Net.N0, Net.N1, Net.Base, Net.Valid, Net.Partial;
    n.Sizes();
    OutSlot(n, s, t);
    var base := n.Base(s.c.i0, s.c.i1);
    var packed := Packed(n, s.c, base);
    var slot := s.cb16.Slot(t);
    var p := s.c.pos;
    PushedBound(n, s.c, base);
    if s.cb16.held - t <= Pushed(n, s.c, base) {
      assert slot < packed;
      assert s.m[..packed][slot] == n.Partial(p.bh, p.bw, p.blk)[..packed][slot];
    } else {
      assert packed <= slot;
      assert s.m[packed..][slot - packed] ==
        n.Partial(PrevOuter(n, p).bh, PrevOuter(n, p).bw, n.nb - 1)[packed..][slot - packed];
    }
  }

  // ---------- every run against every environment ----------

  ghost predicate OpenStep<T>(n: Net<T>, s: State<T>, s': State<T>)
    requires n.Valid()
  {
    (CanStep(n, s, ComputeKernel) && s' == StepC(n, s)) || Environment(n, s, s')
  }

  ghost predicate IsOpenRun<T>(n: Net<T>, ss: seq<State<T>>)
    requires n.Valid()
  {
    && 0 < |ss| && Init(n, ss[0])
    && forall i :: 0 < i < |ss| ==> OpenStep(n, ss[i - 1], ss[i])
  }

  lemma {:induction false} OpenRunKeepsInv<T>(n: Net<T>, ss: seq<State<T>>)
    requires n.Valid() && IsOpenRun(n, ss)
    ensures ComputeInv(n, ss[|ss| - 1])
  {
    hide ComputeInv, Net.Valid, StepC, Environment, ReadyC, BoundsC;
    var k := |ss| - 1;
    if k == 0 {
      Established(n, ss[0]);
    } else {
      OpenRunKeepsInv(n, ss[..k]);
      assert ss[..k][k - 1] == ss[k - 1];
      assert OpenStep(n, ss[k - 1], ss[k]);
      if Environment(n, ss[k - 1], ss[k]) {
        EnvironmentKeepsInv(n, ss[k - 1], ss[k]);
      } else {
        ComputeStepKeepsInv(n, ss[k - 1]);
      }
    }
  }

  // The aliasing of CB16 and CB24 is harmless in every reachable state: nothing needed is
  // about to be overwritten, everything waiting in CB16 is intact, the partials never block,
  // and no access leaves a buffer.
  lemma SharedMemoryIsSafe<T>(n: Net<T>, ss: seq<State<T>>, i: nat)
    requires n.Valid() && IsOpenRun(n, ss) && i < |ss|
    ensures ComputeInv(n, ss[i]) && PackIsSafe(n, ss[i])
    ensures OutputsAreIntact(n, ss[i])
    ensures ReadyC(n, ss[i]) ==> BoundsC(n, ss[i])
    ensures ss[i].c.ph == CWaitPart || ss[i].c.ph == CRsvPart ==> ReadyC(n, ss[i])
  {
    hide ComputeInv, Net.Valid, StepC, Environment, ReadyC, BoundsC, PackIsSafe, ExpectedOutput, OpenStep;
    assert IsOpenRun(n, ss[..i + 1]);
    OpenRunKeepsInv(n, ss[..i + 1]);
    var s := ss[i];
    NoOverwrite(n, s);
    forall t: nat | t < s.cb16.held
      ensures 0 <= s.cb16.Slot(t) < |s.m| && s.m[s.cb16.Slot(t)] == ExpectedOutput(n, s, t)
    {
      OutputsIntact(n, s, t);
    }
    if ReadyC(n, s) {
      ComputeInBounds(n, s);
    }
    if s.c.ph == CWaitPart || s.c.ph == CRsvPart {
      PartialsNeverBlock(n, s);
    }
  }
}
