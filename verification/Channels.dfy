// The buffers of one core as channels, for the kernels taken one at a time: a kernel is a
// loop nest that reads and writes streams of tiles. Capacities, blocking and the memory
// behind the buffers belong to the step machine; here it is the kernels' index arithmetic
// that is at stake.
module Channels {
  import opened CoreNet

  // The tiles pushed and not yet popped, oldest first.
  class CircularBuffer<T> {
    var tiles: seq<T>

    constructor ()
      ensures tiles == []
    {
      tiles := [];
    }

    // cb_push_back of a block that was written behind the write pointer.
    method PushBack(block: array<T>)
      modifies this
      ensures tiles == old(tiles) + old(block[..])
    {
      tiles := tiles + block[..];
    }

    method PopFront(k: nat)
      requires k <= |tiles|
      modifies this
      ensures tiles == old(tiles[k..])
    {
      tiles := tiles[k..];
    }
  }

  datatype Side = In0 | In1

  function InBlock<T>(n: Net<T>, side: Side, bh: nat, bw: nat, blk: nat): seq<T>
    requires 0 < n.kw && 0 < n.nsw && 0 < n.sw
  {
    match side
    case In0 => n.In0Block(bh, blk)
    case In1 => n.In1Block(bw, blk)
  }

  // The blocks a reader has pushed before outer block (bh, bw) and K block blk.
  function Upto<T>(n: Net<T>, side: Side, bh: nat, bw: nat, blk: nat): seq<T>
    requires 0 < n.kw && 0 < n.nsw && 0 < n.sw
    decreases bh, bw, blk
  {
    if blk > 0 then Upto(n, side, bh, bw, blk - 1) + InBlock(n, side, bh, bw, blk - 1)
    else if bw > 0 then Upto(n, side, bh, bw - 1, n.nb)
    else if bh > 0 then Upto(n, side, bh - 1, n.nbw, 0)
    else []
  }

  function Stream<T>(n: Net<T>, side: Side): seq<T>
    requires 0 < n.kw && 0 < n.nsw && 0 < n.sw
  {
    Upto(n, side, n.nbh, 0, 0)
  }

  // The finished output blocks before outer block (bh, bw).
  function OutUpto<T>(n: Net<T>, bh: nat, bw: nat): seq<T>
    requires 0 < n.nb && 0 < n.nsw && 0 < n.sh && 0 < n.sw
    decreases bh, bw
  {
    if bw > 0 then OutUpto(n, bh, bw - 1) + n.Partial(bh, bw - 1, n.nb - 1)
    else if bh > 0 then OutUpto(n, bh - 1, n.nbw)
    else []
  }

  function OutStream<T>(n: Net<T>): seq<T>
    requires 0 < n.nb && 0 < n.nsw && 0 < n.sh && 0 < n.sw
  {
    OutUpto(n, n.nbh, 0)
  }

  lemma {:induction false} UptoIsPrefix<T>(n: Net<T>, side: Side, bh: nat, bw: nat, blk: nat)
    requires 0 < n.kw && 0 < n.nsw && 0 < n.sw
    requires bh < n.nbh && bw < n.nbw && blk <= n.nb
    ensures Upto(n, side, bh, bw, blk) <= Stream(n, side)
    decreases n.nbh - bh, n.nbw - bw, n.nb - blk
  {
    hide InBlock;
    if blk < n.nb {
      UptoIsPrefix(n, side, bh, bw, blk + 1);
    } else if bw + 1 < n.nbw {
      UptoIsPrefix(n, side, bh, bw + 1, 0);
    } else if bh + 1 < n.nbh {
      UptoIsPrefix(n, side, bh + 1, 0, 0);
      assert Upto(n, side, bh + 1, 0, 0) == Upto(n, side, bh, n.nbw, 0);
    } else {
      assert Upto(n, side, bh + 1, 0, 0) == Upto(n, side, bh, n.nbw, 0);
    }
  }

  // Pushing the block at its own position extends the stream.
  lemma PushExtends<T>(n: Net<T>, side: Side, bh: nat, bw: nat, blk: nat, before: seq<T>)
    requires 0 < n.kw && 0 < n.nsw && 0 < n.sw
    ensures (before + Upto(n, side, bh, bw, blk)) + InBlock(n, side, bh, bw, blk)
         == before + Upto(n, side, bh, bw, blk + 1)
    ensures Upto(n, side, bh, bw + 1, 0) == Upto(n, side, bh, bw, n.nb)
    ensures Upto(n, side, bh + 1, 0, 0) == Upto(n, side, bh, n.nbw, 0)
    ensures Upto(n, side, 0, 0, 0) == []
  {
    hide InBlock;
  }

  // The consumer's next block is the one at its own position.
  lemma FrontBlock<T>(n: Net<T>, side: Side, bh: nat, bw: nat, blk: nat, rest: seq<T>)
    requires 0 < n.kw && 0 < n.nsw && 0 < n.sw
    requires bh < n.nbh && bw < n.nbw && blk < n.nb
    requires Stream(n, side) == Upto(n, side, bh, bw, blk) + rest
    ensures InBlock(n, side, bh, bw, blk) <= rest
    ensures Stream(n, side) == Upto(n, side, bh, bw, blk + 1) + rest[|InBlock(n, side, bh, bw, blk)|..]
  {
    hide InBlock, Stream;
    var upto, block := Upto(n, side, bh, bw, blk), InBlock(n, side, bh, bw, blk);
    UptoIsPrefix(n, side, bh, bw, blk + 1);
    assert upto + block <= upto + rest;
    PrefixTail(upto, block, rest);
  }

  lemma PrefixTail<T>(head: seq<T>, block: seq<T>, rest: seq<T>)
    requires head + block <= head + rest
    ensures block <= rest && head + rest == (head + block) + rest[|block|..]
  {
    assert (head + rest)[..|head + block|] == head + block;
    assert (head + rest)[|head|..] == rest && (head + block)[|head|..] == block;
    assert rest[..|block|] == block;
  }

  lemma {:induction false} OutUptoIsPrefix<T>(n: Net<T>, bh: nat, bw: nat)
    requires 0 < n.nb && 0 < n.nsw && 0 < n.sh && 0 < n.sw
    requires bh < n.nbh && bw <= n.nbw
    ensures OutUpto(n, bh, bw) <= OutStream(n)
    decreases n.nbh - bh, n.nbw - bw
  {
    hide Net.Partial;
    if bw < n.nbw {
      OutUptoIsPrefix(n, bh, bw + 1);
    } else if bh + 1 < n.nbh {
      OutUptoIsPrefix(n, bh + 1, 0);
    }
  }

  lemma FrontOutput<T>(n: Net<T>, bh: nat, bw: nat, rest: seq<T>)
    requires 0 < n.nb && 0 < n.nsw && 0 < n.sh && 0 < n.sw
    requires bh < n.nbh && bw < n.nbw
    requires OutStream(n) == OutUpto(n, bh, bw) + rest
    ensures n.Partial(bh, bw, n.nb - 1) <= rest
    ensures OutStream(n) == OutUpto(n, bh, bw + 1) + rest[n.Cap()..]
  {
    hide Net.Partial, OutStream, Net.Cap;
    var upto, block := OutUpto(n, bh, bw), n.Partial(bh, bw, n.nb - 1);
    OutUptoIsPrefix(n, bh, bw + 1);
    assert upto + block <= upto + rest;
    PrefixTail(upto, block, rest);
  }
}
