/** A heap is a list of chunks in address order, each tiled by blocks. */
module Tiling {
  import opened Words

  /** Chunks are sorted, do not touch, and lie in memory. A chunk is at least a page,
      so it certainly has more than four words. */
  ghost predicate ChunksOk(chunks: seq<Chunk>, n: nat) {
    && (forall k :: 0 <= k < |chunks| ==> chunks[k].size > 4 && chunks[k].End() <= n)
    && (forall j, k :: 0 <= j < k < |chunks| ==> chunks[j].End() < chunks[k].start)
  }

  /** The headers found by walking from `lo`, each block's size leading to the next. */
  ghost function Heads(m: Memory, lo: int, hi: int): seq<int>
    decreases hi - lo
  {
    if 0 <= lo < hi && lo < |m| && m[lo].Hdr? then [lo] + Heads(m, lo + m[lo].WhSize(), hi) else []
  }

  /** The walk from `lo` ends exactly at `hi`. */
  ghost predicate Tiled(m: Memory, lo: int, hi: int)
    decreases hi - lo
  {
    lo == hi || (0 <= lo < hi <= |m| && m[lo].Hdr? && Tiled(m, lo + m[lo].WhSize(), hi))
  }

  ghost function AllHeads(m: Memory, chunks: seq<Chunk>): seq<int> {
    if chunks == [] then [] else Heads(m, chunks[0].start, chunks[0].End()) + AllHeads(m, chunks[1..])
  }

  ghost predicate AllTiled(m: Memory, chunks: seq<Chunk>) {
    forall k :: 0 <= k < |chunks| ==> Tiled(m, chunks[k].start, chunks[k].End())
  }

  /** `bs` lists headers of disjoint blocks in increasing order, all inside [lo, hi). */
  ghost predicate Blocks(m: Memory, bs: seq<int>, lo: int, hi: int) {
    && (forall i :: 0 <= i < |bs| ==> lo <= bs[i] < hi && 0 <= bs[i] < |m| && m[bs[i]].Hdr? && bs[i] + m[bs[i]].WhSize() <= hi)
    && (forall i, j :: 0 <= i < j < |bs| ==> bs[i] + m[bs[i]].WhSize() <= bs[j])
  }

  lemma BlocksConcat(m: Memory, a: seq<int>, b: seq<int>, lo: int, mid: int, hi: int)
    requires Blocks(m, a, lo, mid) && Blocks(m, b, mid, hi) && lo <= mid <= hi
    ensures Blocks(m, a + b, lo, hi)
  {
    var c := a + b;
    forall i | 0 <= i < |c|
      ensures lo <= c[i] < hi && 0 <= c[i] < |m| && m[c[i]].Hdr? && c[i] + m[c[i]].WhSize() <= hi
      ensures i < |a| ==> c[i] + m[c[i]].WhSize() <= mid
      ensures i >= |a| ==> mid <= c[i]
    {
      if i < |a| {
        assert c[i] == a[i];
      } else {
        assert c[i] == b[i - |a|];
      }
    }
    forall i, j | 0 <= i < j < |c|
      ensures c[i] + m[c[i]].WhSize() <= c[j]
    {
      if j < |a| {
        assert c[i] == a[i] && c[j] == a[j];
      } else if i >= |a| {
        assert c[i] == b[i - |a|] && c[j] == b[j - |a|];
      }
    }
  }

  lemma {:induction false} HeadsAreBlocks(m: Memory, lo: int, hi: int)
    requires Tiled(m, lo, hi) && 0 <= lo <= hi <= |m|
    ensures Blocks(m, Heads(m, lo, hi), lo, hi)
    decreases hi - lo
  {
    if lo < hi {
      var next := lo + m[lo].WhSize();
      TiledBound(m, next, hi);
      HeadsAreBlocks(m, next, hi);
      BlocksConcat(m, [lo], Heads(m, next, hi), lo, next, hi);
    }
  }

  lemma TiledBound(m: Memory, lo: int, hi: int)
    requires Tiled(m, lo, hi)
    ensures lo <= hi
  {
  }

  /** A header found by the walk starts a block inside one chunk. */
  ghost predicate BlockInChunk(m: Memory, chunks: seq<Chunk>, h: int, k: int) {
    && 0 <= k < |chunks| && InChunk(chunks[k], h)
    && 0 <= h < |m| && m[h].Hdr? && h + m[h].WhSize() <= chunks[k].End()
  }

  lemma {:induction false} AllHeadsAreBlocks(m: Memory, chunks: seq<Chunk>, lo: int)
    requires ChunksOk(chunks, |m|) && AllTiled(m, chunks) && lo <= |m|
    requires forall k :: 0 <= k < |chunks| ==> lo <= chunks[k].start
    ensures Blocks(m, AllHeads(m, chunks), lo, |m|)
    ensures forall h :: h in AllHeads(m, chunks) ==> exists k :: BlockInChunk(m, chunks, h, k)
  {
    if chunks != [] {
      var c, tail := chunks[0], chunks[1..];
      var first, rest := Heads(m, c.start, c.End()), AllHeads(m, tail);
      HeadsAreBlocks(m, c.start, c.End());
      assert forall k :: 0 <= k < |tail| ==> tail[k] == chunks[k + 1];
      AllHeadsAreBlocks(m, tail, c.End());
      BlocksConcat(m, first, rest, c.start, c.End(), |m|);
      forall h | h in first + rest
        ensures exists k :: BlockInChunk(m, chunks, h, k)
      {
        if h in first {
          assert BlockInChunk(m, chunks, h, 0);
        } else {
          var k :| BlockInChunk(m, tail, h, k);
          assert BlockInChunk(m, chunks, h, k + 1);
        }
      }
    }
  }

  /** A walk over all blocks, chunk by chunk: it has passed `i` headers and is about to
      enter chunk `k`. */
  ghost predicate AtChunk(m: Memory, chunks: seq<Chunk>, k: nat, i: nat) {
    && k <= |chunks|
    && i <= |AllHeads(m, chunks)|
    && AllHeads(m, chunks)[i..] == AllHeads(m, chunks[k..])
  }

  /** The walk has passed `i` headers and is at address `p` of chunk `k`. */
  ghost predicate AtBlock(m: Memory, chunks: seq<Chunk>, k: nat, p: int, i: nat) {
    && k < |chunks|
    && chunks[k].start <= p <= chunks[k].End() <= |m|
    && Tiled(m, p, chunks[k].End())
    && i <= |AllHeads(m, chunks)|
    && AllHeads(m, chunks)[i..] == Heads(m, p, chunks[k].End()) + AllHeads(m, chunks[k + 1..])
  }

  lemma WalkStart(m: Memory, chunks: seq<Chunk>)
    ensures AtChunk(m, chunks, 0, 0)
  {
    assert chunks[0..] == chunks;
  }

  lemma WalkEnter(m: Memory, chunks: seq<Chunk>, k: nat, i: nat)
    requires AtChunk(m, chunks, k, i) && k < |chunks|
    requires ChunksOk(chunks, |m|) && AllTiled(m, chunks)
    ensures AtBlock(m, chunks, k, chunks[k].start, i)
  {
    assert chunks[k..][1..] == chunks[k + 1..];
  }

  lemma WalkStep(m: Memory, chunks: seq<Chunk>, k: nat, p: int, i: nat)
    requires AtBlock(m, chunks, k, p, i) && p < chunks[k].End()
    ensures i < |AllHeads(m, chunks)| && AllHeads(m, chunks)[i] == p && m[p].Hdr?
    ensures p + m[p].WhSize() <= chunks[k].End() && AtBlock(m, chunks, k, p + m[p].WhSize(), i + 1)
  {
    var bs, e, rest := AllHeads(m, chunks), chunks[k].End(), AllHeads(m, chunks[k + 1..]);
    var next := p + m[p].WhSize();
    TiledBound(m, next, e);
    assert bs[i..] == [p] + (Heads(m, next, e) + rest);
    assert bs[i] == bs[i..][0];
    assert bs[i + 1..] == bs[i..][1..];
  }

  lemma WalkLeave(m: Memory, chunks: seq<Chunk>, k: nat, i: nat)
    requires k < |chunks| && AtBlock(m, chunks, k, chunks[k].End(), i)
    ensures AtChunk(m, chunks, k + 1, i)
  {
  }

  lemma WalkDone(m: Memory, chunks: seq<Chunk>, i: nat)
    requires AtChunk(m, chunks, |chunks|, i)
    ensures i == |AllHeads(m, chunks)|
  {
    assert chunks[|chunks|..] == [];
    assert AllHeads(m, chunks)[i..] == [];
  }
}
