// The order in which output blocks and K blocks are taken. The step machines move from
// position to position; the whole kernels are nested loops over streams. Both go through the
// same blocks in the same order: outer block rows, then columns, then K blocks.
module Order {
  import opened Arith
  import opened CoreNet
  import opened Machine
  import opened Protocol
  import opened Channels

  // The number of K blocks taken before position p, and of output blocks before its own.
  function BlocksBefore<T>(n: Net<T>, p: Pos): nat { (p.bh * n.nbw + p.bw) * n.nb + p.blk }
  function OutersBefore<T>(n: Net<T>, p: Pos): nat { p.bh * n.nbw + p.bw }

  // Moving on takes exactly one block; at the end all have been taken.
  lemma SuccIsNext<T>(n: Net<T>, p: Pos)
    requires n.Valid() && InRange(n, p) && p != End(n)
    ensures BlocksBefore(n, Succ(n, p)) == BlocksBefore(n, p) + 1
    ensures OutersBefore(n, NextOuter(n, p)) == OutersBefore(n, p) + 1 && NextOuter(n, p).blk == 0
    ensures InRange(n, Succ(n, p)) && InRange(n, NextOuter(n, p))
    ensures BlocksBefore(n, End(n)) == n.nbh * n.nbw * n.nb && OutersBefore(n, End(n)) == n.nbh * n.nbw
  {
    SuccInRange(n, p);
    OneMore(p.bh, n.nbw);
    OneMore(OutersBefore(n, p), n.nb);
    hide Net.Valid;
  }

  // Two positions with the same number are the same.
  lemma OnePlace<T>(n: Net<T>, p: Pos, p': Pos)
    requires n.Valid() && p.bw < n.nbw && p'.bw < n.nbw && p.blk < n.nb && p'.blk < n.nb
    requires BlocksBefore(n, p) == BlocksBefore(n, p')
    ensures p == p'
  {
    hide Net.Valid;
    SameSplit(OutersBefore(n, p), p.blk, OutersBefore(n, p'), p'.blk, n.nb);
    SameSplit(p.bh, p.bw, p'.bh, p'.bw, n.nbw);
  }

  // The blocks a reader still pushes from position p, moving on as the step machine does.
  ghost function Rest<T>(n: Net<T>, side: Side, p: Pos): seq<T>
    requires n.Valid() && InRange(n, p)
    decreases n.nbh - p.bh, n.nbw - p.bw, n.nb - p.blk
  {
    if p == End(n) then []
    else
      SuccInRange(n, p);
      InBlock(n, side, p.bh, p.bw, p.blk) + Rest(n, side, Succ(n, p))
  }

  lemma {:induction false} RestIsStream<T>(n: Net<T>, side: Side, p: Pos)
    requires n.Valid() && InRange(n, p)
    ensures Stream(n, side) == Upto(n, side, p.bh, p.bw, p.blk) + Rest(n, side, p)
    decreases n.nbh - p.bh, n.nbw - p.bw, n.nb - p.blk
  {
    hide InBlock, Net.Valid, Stream;
    SizesPositive(n);
    if p == End(n) {
      EndOfStream(n, side);
    } else {
      SuccInRange(n, p);
      RestIsStream(n, side, Succ(n, p));
      UptoSucc(n, side, p);
      Reassociate(Upto(n, side, p.bh, p.bw, p.blk), InBlock(n, side, p.bh, p.bw, p.blk), Rest(n, side, Succ(n, p)));
    }
  }

  lemma SizesPositive<T>(n: Net<T>)
    requires n.Valid()
    ensures 0 < n.kw && 0 < n.nsw && 0 < n.sw && 0 < n.sh && 0 < n.nb && 0 < n.nbh && 0 < n.nbw
  {
  }

  lemma Reassociate<T>(a: seq<T>, b: seq<T>, c: seq<T>)
    ensures (a + b) + c == a + (b + c)
  {
  }

  lemma EndOfStream<T>(n: Net<T>, side: Side)
    requires n.Valid()
    ensures Upto(n, side, n.nbh, 0, 0) + [] == Stream(n, side)
  {
    hide InBlock, Upto;
  }

  lemma UptoSucc<T>(n: Net<T>, side: Side, p: Pos)
    requires n.Valid() && InRange(n, p) && p != End(n)
    ensures var q := Succ(n, p);
            Upto(n, side, q.bh, q.bw, q.blk) == Upto(n, side, p.bh, p.bw, p.blk) + InBlock(n, side, p.bh, p.bw, p.blk)
  {
    hide InBlock, Net.Valid;
    SizesPositive(n);
    PushExtends(n, side, p.bh, p.bw, p.blk, []);
    assert Upto(n, side, p.bh, p.bw, p.blk + 1) == Upto(n, side, p.bh, p.bw, p.blk) + InBlock(n, side, p.bh, p.bw, p.blk);
  }

  // The same for the output blocks.
  ghost function OutRest<T>(n: Net<T>, p: Pos): seq<T>
    requires n.Valid() && InRange(n, p)
    decreases n.nbh - p.bh, n.nbw - p.bw
  {
    if p == End(n) then []
    else
      SuccInRange(n, p);
      n.Partial(p.bh, p.bw, n.nb - 1) + OutRest(n, NextOuter(n, p))
  }

  lemma {:induction false} OutRestIsStream<T>(n: Net<T>, p: Pos)
    requires n.Valid() && InRange(n, p)
    ensures OutStream(n) == OutUpto(n, p.bh, p.bw) + OutRest(n, p)
    decreases n.nbh - p.bh, n.nbw - p.bw
  {
    hide Net.Partial, Net.Valid, OutStream;
    SizesPositive(n);
    if p == End(n) {
      EndOfOutput(n);
    } else {
      SuccInRange(n, p);
      OutRestIsStream(n, NextOuter(n, p));
      OutUptoNext(n, p);
      Reassociate(OutUpto(n, p.bh, p.bw), n.Partial(p.bh, p.bw, n.nb - 1), OutRest(n, NextOuter(n, p)));
    }
  }

  lemma EndOfOutput<T>(n: Net<T>)
    requires n.Valid()
    ensures OutUpto(n, n.nbh, 0) + [] == OutStream(n)
  {
    hide Net.Partial, OutUpto;
  }

  lemma OutUptoNext<T>(n: Net<T>, p: Pos)
    requires n.Valid() && InRange(n, p) && p != End(n)
    ensures var q := NextOuter(n, p);
            OutUpto(n, q.bh, q.bw) == OutUpto(n, p.bh, p.bw) + n.Partial(p.bh, p.bw, n.nb - 1)
  {
    hide Net.Partial, Net.Valid;
    SizesPositive(n);
  }

  // What the whole kernels push and put out is what the step machines go through from the
  // first position on.
  lemma StreamsFollowSteps<T>(n: Net<T>, side: Side)
    requires n.Valid()
    ensures Stream(n, side) == Rest(n, side, Pos(0, 0, 0)) && OutStream(n) == OutRest(n, Pos(0, 0, 0))
  {
    hide InBlock, Net.Valid, Stream, OutStream, Rest, OutRest, Net.Partial;
    SizesPositive(n);
    RestIsStream(n, side, Pos(0, 0, 0));
    OutRestIsStream(n, Pos(0, 0, 0));
    assert Upto(n, side, 0, 0, 0) == [] && OutUpto(n, 0, 0) == [];
  }
}
