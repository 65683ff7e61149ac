// All cores of a grid at once. Every core runs its three kernels; the cores share nothing
// but the output tensor. A run of the device is any interleaving of all kernels of all
// cores.
module Device {
  import opened CoreNet
  import opened Machine
  import opened Safety
  import opened Protocol
  import opened Runs
  import opened Readiness
  import opened Output

  // Per core the local state (its `out` field is not used); and the shared output tensor.
  datatype Machines<T> = Machines(cores: seq<State<T>>, out: map<int, T>)
  {
    // Core i as it sees the tensor.
    function Local(i: nat): State<T>
      requires i < |cores|
    {
      cores[i].(out := out)
    }
  }

  predicate CanMove<T>(nets: seq<Net<T>>, d: Machines<T>, i: nat, p: Proc) {
    i < |nets| == |d.cores| && CanStep(nets[i], d.Local(i), p)
  }

  ghost predicate AllValid<T>(nets: seq<Net<T>>) {
    forall i | 0 <= i < |nets| :: nets[i].Valid()
  }

  function Move<T>(nets: seq<Net<T>>, d: Machines<T>, i: nat, p: Proc): Machines<T>
    requires AllValid(nets) && CanMove(nets, d, i, p)
  {
    var t := Exec(nets[i], d.Local(i), p);
    Machines(d.cores[i := t], t.out)
  }

  ghost predicate MoveStep<T>(nets: seq<Net<T>>, d: Machines<T>, d': Machines<T>)
    requires AllValid(nets)
  {
    exists i: nat, p :: CanMove(nets, d, i, p) && d' == Move(nets, d, i, p)
  }

  // No kernel of any core can go on.
  ghost predicate Stuck<T>(nets: seq<Net<T>>, d: Machines<T>) {
    !exists i: nat, p :: CanMove(nets, d, i, p)
  }

  ghost predicate AllInit<T>(nets: seq<Net<T>>, d: Machines<T>) {
    && |d.cores| == |nets|
    && forall i | 0 <= i < |nets| :: Init(nets[i], d.Local(i))
  }

  predicate AllDone<T>(nets: seq<Net<T>>, d: Machines<T>) {
    && |d.cores| == |nets|
    && forall i | 0 <= i < |nets| :: Done(nets[i], d.cores[i])
  }

  ghost predicate IsDeviceRun<T>(nets: seq<Net<T>>, ds: seq<Machines<T>>)
    requires AllValid(nets)
  {
    && 0 < |ds| && AllInit(nets, ds[0])
    && forall i :: 0 < i < |ds| ==> MoveStep(nets, ds[i - 1], ds[i])
  }

  // ---------- what a core's steps do to the shared tensor ----------

  ghost function Owned<T>(n: Net<T>): multiset<int> {
    Rows(n, 0, CoreRows(n), 0, CoreCols(n))
  }

  ghost predicate SameAt<T>(out: map<int, T>, out': map<int, T>, id: int) {
    (id in out <==> id in out') && (id in out ==> out[id] == out'[id])
  }

  ghost predicate Wide<T>(n: Net<T>) {
    n.Valid() && 0 < n.outStride && CoreCols(n) <= n.outStride
  }

  // Every tile the core owns is either still to be written or has its final value.
  ghost predicate Settled<T>(n: Net<T>, w: Writer, out: map<int, T>)
    requires n.Valid() && WriterOk(n, w) && 0 < n.outStride
  {
    && (forall id :: id in Log(n, w) ==> id in Owned(n))
    && (forall id :: id in Owned(n) ==> id in Log(n, w) || (id in out && out[id] == Value(n, id)))
  }

  ghost predicate CoreGood<T>(n: Net<T>, s: State<T>) {
    Wide(n) && Inv(n, s) && WriterOk(n, s.w) && Settled(n, s.w, s.out)
  }

  lemma InvIgnoresOut<T>(n: Net<T>, s: State<T>, out: map<int, T>)
    ensures Inv(n, s) <==> Inv(n, s.(out := out))
  {
    hide Feed, FeedAt, Control, OutRing, PartRing, SharedMem, Registers, WriterOk, Linked, InRange, Net.Valid,
         Net.Sub, Net.Cap, Net.N0, Net.N1, Net.Base, Net.In0Block, Net.In1Block, Ahead, Front0, Popped, Pushed,
         In1Pos, HSkip, WSkip;
  }

  lemma LogIsOwned<T>(n: Net<T>, w: Writer, w': Writer, wrote: bool)
    requires n.Valid() && WriterOk(n, w) && w.pos != End(n) && w' == AdvanceW(n, w) && wrote == (w.ph == WWrite)
    ensures WriterOk(n, w')
    ensures forall id :: id in Log(n, w) <==> id in Log(n, w') || (wrote && id in SubIds(n, w))
  {
    hide Net.Valid, WriterOk, AdvanceW, SubIds, Log, LeftW;
    LogStep(n, w);
  }

  // The writer settles the tiles it writes and touches no others.
  lemma WriterSettles<T>(n: Net<T>, w: Writer, out: map<int, T>, out': map<int, T>)
    requires Wide(n) && WriterOk(n, w) && w.pos != End(n) && Settled(n, w, out)
    requires out' == if w.ph == WWrite then WriteSub(n, w, out, FinishedSub(n, w)) else out
    ensures WriterOk(n, AdvanceW(n, w)) && Settled(n, AdvanceW(n, w), out')
    ensures forall id :: id !in Owned(n) ==> SameAt(out, out', id)
  {
    hide Net.Valid, WriterOk, AdvanceW, SubIds, Log, Owned, Value, WriteSub, FinishedSub, CoreCols;
    LogIsOwned(n, w, AdvanceW(n, w), w.ph == WWrite);
    if w.ph == WWrite {
      SubPainted(n, w, out);
    }
  }

  lemma CoreStep<T>(n: Net<T>, s: State<T>, p: Proc)
    requires CoreGood(n, s) && CanStep(n, s, p)
    ensures CoreGood(n, Exec(n, s, p))
    ensures forall id :: id !in Owned(n) ==> SameAt(s.out, Exec(n, s, p).out, id)
    ensures Counted(n, s) && Counted(n, Exec(n, s, p)) && StepsLeft(n, s) == 1 + StepsLeft(n, Exec(n, s, p))
  {
    hide Inv, Net.Valid, Settled, Counted, StepsLeft, StepR, StepC, StepW, ReadyR, ReadyC, BoundsR, BoundsC, BoundsW,
         CoreCols, WriterOk, Owned;
    StepKeepsInv(n, s, p);
    EveryStepCounts(n, s, p);
    var t := Exec(n, s, p);
    match p
    case In0Reader => OthersWriteNothing(n, s, p);
    case ComputeKernel => OthersWriteNothing(n, s, p);
    case In1Writer =>
      WriterMoves(n, s);
      WriterSettles(n, s.w, s.out, t.out);
  }

  lemma OthersWriteNothing<T>(n: Net<T>, s: State<T>, p: Proc)
    requires n.Valid() && CanStep(n, s, p) && p != In1Writer
    ensures Exec(n, s, p).out == s.out && Exec(n, s, p).w == s.w
  {
    hide Net.Valid, AdvanceR, AdvanceC, Put, Multiply, ReadyR, ReadyC, Net.In0Block, Net.Sub, Net.N0, Net.N1;
  }

  lemma WriterMoves<T>(n: Net<T>, s: State<T>)
    requires n.Valid() && Inv(n, s) && WriterOk(n, s.w) && CanStep(n, s, In1Writer)
    ensures s.w.pos != End(n) && Exec(n, s, In1Writer).w == AdvanceW(n, s.w)
    ensures Exec(n, s, In1Writer).out == if s.w.ph == WWrite then WriteSub(n, s.w, s.out, FinishedSub(n, s.w)) else s.out
  {
    hide Inv, Net.Valid, WriterOk, WriteSub, FinishedSub, AdvanceW, Put, Net.In1Block, Net.Sub, Net.N1, HSkip, WSkip,
         BoundsW;
    WriterOut(n, s);
  }

  // ---------- all cores ----------

  ghost predicate Disjoint<T>(n: Net<T>, m: Net<T>) {
    forall id :: id in Owned(n) ==> id !in Owned(m)
  }

  // What the theorem below needs of the argument lists of a grid.
  ghost predicate Compatible<T>(nets: seq<Net<T>>) {
    && (forall i | 0 <= i < |nets| :: Wide(nets[i]))
    && (forall i, j | 0 <= i < |nets| && 0 <= j < |nets| && i != j :: Disjoint(nets[i], nets[j]))
  }

  ghost predicate Unowned<T>(nets: seq<Net<T>>, id: int) {
    forall i | 0 <= i < |nets| :: id !in Owned(nets[i])
  }

  ghost predicate DeviceInv<T>(nets: seq<Net<T>>, d: Machines<T>, out0: map<int, T>) {
    && |d.cores| == |nets|
    && (forall i | 0 <= i < |nets| :: CoreGood(nets[i], d.Local(i)))
    && (forall id :: Unowned(nets, id) ==> SameAt(out0, d.out, id))
  }

  // A step of another core leaves this core as it was.
  lemma OtherCore<T>(n: Net<T>, s: State<T>, out: map<int, T>)
    requires CoreGood(n, s)
    requires forall id :: id in Owned(n) ==> SameAt(s.out, out, id)
    ensures CoreGood(n, s.(out := out))
  {
    hide Inv, Net.Valid, WriterOk, Owned, Log, Value, Wide;
    InvIgnoresOut(n, s, out);
  }

  lemma DeviceStep<T>(nets: seq<Net<T>>, d: Machines<T>, i: nat, p: Proc, out0: map<int, T>)
    requires Compatible(nets) && AllValid(nets) && DeviceInv(nets, d, out0) && CanMove(nets, d, i, p)
    ensures DeviceInv(nets, Move(nets, d, i, p), out0)
  {
    hide CoreGood, Owned, CanStep, Exec, Wide;
    CoreStep(nets[i], d.Local(i), p);
    var t := Exec(nets[i], d.Local(i), p);
    var d' := Move(nets, d, i, p);
    forall j | 0 <= j < |nets|
      ensures CoreGood(nets[j], d'.Local(j))
    {
      if j != i {
        assert Disjoint(nets[j], nets[i]);
        OtherCore(nets[j], d.Local(j), t.out);
      } else {
        assert d'.Local(i) == t;
      }
    }
  }

  // ---------- counting the steps of all cores ----------

  ghost predicate CountedAll<T>(nets: seq<Net<T>>, cores: seq<State<T>>) {
    && |cores| == |nets| && AllValid(nets)
    && forall i | 0 <= i < |nets| :: Counted(nets[i], cores[i])
  }

  ghost function LeftAll<T>(nets: seq<Net<T>>, cores: seq<State<T>>, k: nat): nat
    requires CountedAll(nets, cores) && k <= |nets|
  {
    if k == 0 then 0 else LeftAll(nets, cores, k - 1) + StepsLeft(nets[k - 1], cores[k - 1])
  }

  ghost function TotalSteps<T>(nets: seq<Net<T>>, k: nat): nat
    requires AllValid(nets) && k <= |nets|
  {
    if k == 0 then 0 else TotalSteps(nets, k - 1) + AllSteps(nets[k - 1])
  }

  lemma {:induction false} OneCoreMoved<T>(nets: seq<Net<T>>, cores: seq<State<T>>, cores': seq<State<T>>, i: nat, k: nat)
    requires CountedAll(nets, cores) && CountedAll(nets, cores') && k <= |nets| && i < |nets|
    requires StepsLeft(nets[i], cores[i]) == 1 + StepsLeft(nets[i], cores'[i])
    requires forall j | 0 <= j < |nets| && j != i :: StepsLeft(nets[j], cores[j]) == StepsLeft(nets[j], cores'[j])
    ensures LeftAll(nets, cores, k) == LeftAll(nets, cores', k) + if i < k then 1 else 0
  {
    hide StepsLeft, Counted;
    if k > 0 {
      OneCoreMoved(nets, cores, cores', i, k - 1);
    }
  }

  lemma CountsIgnoreOut<T>(n: Net<T>, s: State<T>, out: map<int, T>)
    requires n.Valid() && Counted(n, s)
    ensures Counted(n, s.(out := out)) && StepsLeft(n, s.(out := out)) == StepsLeft(n, s)
  {
    hide LeftR, LeftC, LeftW, ComputeOk, WriterOk, InRange, Net.Valid;
  }

  lemma InvCountedAll<T>(nets: seq<Net<T>>, d: Machines<T>, out0: map<int, T>)
    requires AllValid(nets) && DeviceInv(nets, d, out0)
    ensures CountedAll(nets, d.cores)
  {
    hide Inv, Counted, Settled, Wide, Net.Valid;
    forall i | 0 <= i < |nets|
      ensures Counted(nets[i], d.cores[i])
    {
      InvCounted(nets[i], d.Local(i));
      CountsIgnoreOut(nets[i], d.Local(i), d.cores[i].out);
      assert d.Local(i).(out := d.cores[i].out) == d.cores[i];
    }
  }

  lemma DeviceStepCounts<T>(nets: seq<Net<T>>, d: Machines<T>, i: nat, p: Proc)
    requires AllValid(nets) && CanMove(nets, d, i, p) && CoreGood(nets[i], d.Local(i))
    requires CountedAll(nets, d.cores) && CountedAll(nets, Move(nets, d, i, p).cores)
    ensures LeftAll(nets, d.cores, |nets|) == LeftAll(nets, Move(nets, d, i, p).cores, |nets|) + 1
  {
    hide CoreGood, Counted, StepsLeft, CanStep, Exec, Net.Valid;
    CoreStep(nets[i], d.Local(i), p);
    CountsIgnoreOut(nets[i], d.cores[i], d.out);
    OneCoreMoved(nets, d.cores, Move(nets, d, i, p).cores, i, |nets|);
  }

  // ---------- runs of the device ----------

  lemma StartSettled<T>(n: Net<T>, s: State<T>)
    requires Wide(n) && Init(n, s)
    ensures CoreGood(n, s)
    ensures Counted(n, s) && StepsLeft(n, s) == AllSteps(n)
  {
    hide Inv, Net.Valid, Log, Value, CoreCols, CoreRows, Rows, Counted, StepsLeft, AllSteps, WriterOk, Finish;
    InitInv(n, s);
    WriterCoversCore(n);
    InvCounted(n, s);
    StartAccounts(n, s);
  }

  lemma DeviceStart<T>(nets: seq<Net<T>>, d: Machines<T>)
    requires AllValid(nets) && Compatible(nets) && AllInit(nets, d)
    ensures DeviceInv(nets, d, d.out)
    ensures CountedAll(nets, d.cores) && LeftAll(nets, d.cores, |nets|) == TotalSteps(nets, |nets|)
  {
    hide CoreGood, StepsLeft, AllSteps, Init, Wide, Owned, ComputeOk, WriterOk, InRange;
    forall i | 0 <= i < |nets|
      ensures CoreGood(nets[i], d.Local(i))
      ensures Counted(nets[i], d.cores[i]) && StepsLeft(nets[i], d.cores[i]) == AllSteps(nets[i])
    {
      StartSettled(nets[i], d.Local(i));
      CountsIgnoreOut(nets[i], d.Local(i), d.cores[i].out);
      assert d.Local(i).(out := d.cores[i].out) == d.cores[i];
    }
    SameSums(nets, d.cores, |nets|);
  }

  lemma {:induction false} SameSums<T>(nets: seq<Net<T>>, cores: seq<State<T>>, k: nat)
    requires CountedAll(nets, cores) && k <= |nets|
    requires forall i | 0 <= i < |nets| :: StepsLeft(nets[i], cores[i]) == AllSteps(nets[i])
    ensures LeftAll(nets, cores, k) == TotalSteps(nets, k)
  {
    hide StepsLeft, Counted, AllSteps;
    if k > 0 {
      SameSums(nets, cores, k - 1);
    }
  }

  lemma {:induction false} DeviceAccounts<T>(nets: seq<Net<T>>, ds: seq<Machines<T>>)
    requires AllValid(nets) && Compatible(nets) && IsDeviceRun(nets, ds)
    ensures var d := ds[|ds| - 1];
            && DeviceInv(nets, d, ds[0].out) && CountedAll(nets, d.cores)
            && |ds| - 1 + LeftAll(nets, d.cores, |nets|) == TotalSteps(nets, |nets|)
  {
    hide DeviceInv, CountedAll, LeftAll, AllValid, Compatible, Move, CanMove, AllInit;
    var k := |ds| - 1;
    if k == 0 {
      DeviceStart(nets, ds[0]);
    } else {
      assert ds[..k][k - 1] == ds[k - 1] && ds[..k][0] == ds[0];
      DeviceAccounts(nets, ds[..k]);
      assert MoveStep(nets, ds[k - 1], ds[k]);
      var i: nat, p :| CanMove(nets, ds[k - 1], i, p) && ds[k] == Move(nets, ds[k - 1], i, p);
      DeviceStep(nets, ds[k - 1], i, p, ds[0].out);
      InvCountedAll(nets, ds[k], ds[0].out);
      GoodCore(nets, ds[k - 1], i, p, ds[0].out);
      DeviceStepCounts(nets, ds[k - 1], i, p);
    }
  }

  lemma GoodCore<T>(nets: seq<Net<T>>, d: Machines<T>, i: nat, p: Proc, out0: map<int, T>)
    requires DeviceInv(nets, d, out0) && CanMove(nets, d, i, p)
    ensures CoreGood(nets[i], d.Local(i))
  {
    hide CoreGood, CanStep;
  }

  lemma DoneIgnoresOut<T>(n: Net<T>, s: State<T>, out: map<int, T>)
    ensures Done(n, s) <==> Done(n, s.(out := out))
  {
  }

  // Which kernel of which core can go on, in counts of tiles.
  lemma MovesExactlyWhen<T>(nets: seq<Net<T>>, d: Machines<T>, i: nat, p: Proc, out0: map<int, T>)
    requires AllValid(nets) && DeviceInv(nets, d, out0) && i < |nets|
    ensures CanMove(nets, d, i, p) <==> Goes(nets[i], d.cores[i], p)
  {
    hide Inv, Settled, CanStep, Wide, Goes, Net.Valid;
    assert CoreGood(nets[i], d.Local(i));
    StepsExactlyWhen(nets[i], d.Local(i), p);
    GoesIgnoresOut(nets[i], d.cores[i], p, d.out);
  }

  lemma GoesIgnoresOut<T>(n: Net<T>, s: State<T>, p: Proc, out: map<int, T>)
    ensures Goes(n, s, p) <==> Goes(n, s.(out := out), p)
  {
    hide Net.N0, Net.N1, Net.Sub, Net.Cap, Net.Base;
  }

  lemma DeviceNeverStuck<T>(nets: seq<Net<T>>, d: Machines<T>, out0: map<int, T>)
    requires AllValid(nets) && DeviceInv(nets, d, out0) && !AllDone(nets, d)
    ensures exists i: nat, p :: CanMove(nets, d, i, p)
  {
    hide Inv, Settled, CanStep, Done, Wide;
    var i :| 0 <= i < |nets| && !Done(nets[i], d.cores[i]);
    DoneIgnoresOut(nets[i], d.cores[i], d.out);
    assert CoreGood(nets[i], d.Local(i));
    NoDeadlock(nets[i], d.Local(i));
    var p :| CanStep(nets[i], d.Local(i), p);
    assert CanMove(nets, d, i, p);
  }

  lemma {:induction false} NothingLeftAnywhere<T>(nets: seq<Net<T>>, d: Machines<T>, k: nat)
    requires CountedAll(nets, d.cores) && AllDone(nets, d) && k <= |nets|
    ensures LeftAll(nets, d.cores, k) == 0
  {
    hide StepsLeft, Counted, Done, CanStep;
    if k > 0 {
      NothingLeftAnywhere(nets, d, k - 1);
      DoneMeansNothingLeft(nets[k - 1], d.cores[k - 1]);
    }
  }

  ghost predicate OwnedFinal<T>(n: Net<T>, out: map<int, T>)
    requires 0 < n.outStride
  {
    forall id :: id in Owned(n) ==> id in out && out[id] == Value(n, id)
  }

  // What a finished device has in the tensor.
  ghost predicate DeviceOutput<T>(nets: seq<Net<T>>, before: map<int, T>, after: map<int, T>)
    requires Compatible(nets)
  {
    && (forall i | 0 <= i < |nets| :: OwnedFinal(nets[i], after))
    && (forall id :: Unowned(nets, id) ==> SameAt(before, after, id))
  }

  lemma DoneIsSettled<T>(n: Net<T>, s: State<T>)
    requires CoreGood(n, s) && Done(n, s)
    ensures OwnedFinal(n, s.out)
  {
    hide Inv, Owned, Value, WriterOk, Finish, Rest, Net.Valid, CoreCols;
    FinishedNow(n, s.w, s.out);
  }

  // Whatever the interleaving of all kernels of all cores: the device never gets stuck, every
  // run that cannot go on has the same length and has finished, and then every tile some core
  // owns has its product entry, and the other tiles are as they were.
  lemma DeviceRuns<T>(nets: seq<Net<T>>, ds: seq<Machines<T>>)
    requires AllValid(nets) && Compatible(nets) && IsDeviceRun(nets, ds)
    ensures var d := ds[|ds| - 1];
            && |ds| - 1 <= TotalSteps(nets, |nets|)
            && (AllDone(nets, d) <==> |ds| - 1 == TotalSteps(nets, |nets|))
            && (!AllDone(nets, d) ==> !Stuck(nets, d))
            && (AllDone(nets, d) ==> DeviceOutput(nets, ds[0].out, d.out))
  {
    hide CountedAll, LeftAll, AllValid, CanMove, Move, CoreGood, Wide, Owned, AllDone, Done, AllInit, MoveStep;
    var d := ds[|ds| - 1];
    DeviceAccounts(nets, ds);
    if AllDone(nets, d) {
      NothingLeftAnywhere(nets, d, |nets|);
      AllSettled(nets, d, ds[0].out);
    } else {
      DeviceNeverStuck(nets, d, ds[0].out);
      var i: nat, p :| CanMove(nets, d, i, p);
      MoreLeft(nets, d, i, p, ds[0].out);
    }
  }

  lemma MoreLeft<T>(nets: seq<Net<T>>, d: Machines<T>, i: nat, p: Proc, out0: map<int, T>)
    requires AllValid(nets) && Compatible(nets) && DeviceInv(nets, d, out0) && CanMove(nets, d, i, p)
    requires CountedAll(nets, d.cores)
    ensures 0 < LeftAll(nets, d.cores, |nets|)
  {
    hide DeviceInv, CountedAll, AllValid, Compatible, Move, CanMove, CoreGood, LeftAll;
    DeviceStep(nets, d, i, p, out0);
    InvCountedAll(nets, Move(nets, d, i, p), out0);
    GoodCore(nets, d, i, p, out0);
    DeviceStepCounts(nets, d, i, p);
  }

  lemma AllSettled<T>(nets: seq<Net<T>>, d: Machines<T>, out0: map<int, T>)
    requires Compatible(nets) && DeviceInv(nets, d, out0) && AllDone(nets, d)
    ensures DeviceOutput(nets, out0, d.out)
  {
    hide CoreGood, Owned, Done, Value, CoreCols, Net.Valid;
    forall i | 0 <= i < |nets|
      ensures OwnedFinal(nets[i], d.out)
    {
      assert CoreGood(nets[i], d.Local(i)) && Done(nets[i], d.cores[i]);
      DoneIgnoresOut(nets[i], d.cores[i], d.out);
      DoneIsSettled(nets[i], d.Local(i));
    }
  }

  lemma DeviceRunExtends<T>(nets: seq<Net<T>>, ds: seq<Machines<T>>, i: nat, p: Proc)
    requires AllValid(nets) && IsDeviceRun(nets, ds) && CanMove(nets, ds[|ds| - 1], i, p)
    ensures IsDeviceRun(nets, ds + [Move(nets, ds[|ds| - 1], i, p)])
  {
    hide Move, AllInit, CanMove, AllValid;
    var next := ds + [Move(nets, ds[|ds| - 1], i, p)];
    forall k | 0 < k < |next|
      ensures MoveStep(nets, next[k - 1], next[k])
    {
      if k < |ds| {
        assert MoveStep(nets, ds[k - 1], ds[k]);
        assert next[k - 1] == ds[k - 1] && next[k] == ds[k];
      } else {
        assert next[k - 1] == ds[|ds| - 1];
      }
    }
  }

  // Every run of the device can be carried on to a finished one.
  lemma {:induction false} EveryDeviceRunCompletes<T>(nets: seq<Net<T>>, ds: seq<Machines<T>>) returns (full: seq<Machines<T>>)
    requires AllValid(nets) && Compatible(nets) && IsDeviceRun(nets, ds)
    ensures IsDeviceRun(nets, full) && ds <= full && AllDone(nets, full[|full| - 1])
    decreases TotalSteps(nets, |nets|) + 1 - |ds|
  {
    hide AllValid, CanMove, Move, AllDone, AllInit, MoveStep, TotalSteps, Compatible, DeviceOutput;
    DeviceRuns(nets, ds);
    if AllDone(nets, ds[|ds| - 1]) {
      full := ds;
    } else {
      var i: nat, p :| CanMove(nets, ds[|ds| - 1], i, p);
      DeviceRunExtends(nets, ds, i, p);
      full := EveryDeviceRunCompletes(nets, ds + [Move(nets, ds[|ds| - 1], i, p)]);
    }
  }
}
