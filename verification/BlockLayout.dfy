/** The blocks of the heap, as the set of their headers. Cutting a block in two, and
    making one block of two neighbours, keep the heap tiled. */
module BlockLayout {
  import opened Words
  import opened Tiling

  /** The address just past the block whose header is at `h`. */
  ghost function BlockEnd(m: Memory, h: int): int {
    if 0 <= h < |m| && m[h].IsHeader() then h + m[h].WhSize() else h
  }

  ghost predicate BlockOk(m: Memory, chunks: seq<Chunk>, h: int) {
    0 <= h < |m| && m[h].Hdr? && exists k :: BlockInChunk(m, chunks, h, k)
  }

  /** The block at `h` ends where another starts, or at the end of its chunk. */
  ghost predicate EndsWell(m: Memory, chunks: seq<Chunk>, heads: set<int>, h: int) {
    forall k :: BlockInChunk(m, chunks, h, k) ==> BlockEnd(m, h) == chunks[k].End() || BlockEnd(m, h) in heads
  }

  /** `heads` are the headers of the blocks that tile the chunks. */
  ghost predicate Layout(m: Memory, chunks: seq<Chunk>, heads: set<int>) {
    && ChunksOk(chunks, |m|)
    && (forall k :: 0 <= k < |chunks| ==> chunks[k].start in heads)
    && (forall h :: h in heads ==> BlockOk(m, chunks, h))
    && (forall h {:trigger EndsWell(m, chunks, heads, h)} :: h in heads ==> EndsWell(m, chunks, heads, h))
    && (forall h, h' :: h in heads && h' in heads && h < h' ==> BlockEnd(m, h) <= h')
  }

  lemma HeadsInMemory(m: Memory, chunks: seq<Chunk>, heads: set<int>)
    requires Layout(m, chunks, heads)
    ensures forall h :: h in heads ==> 0 <= h < |m| && m[h].Hdr?
  {
  }

  /** A header keeps its size. */
  ghost predicate SameSizes(m: Memory, m': Memory, heads: set<int>) {
    |m'| == |m| && forall h :: h in heads && 0 <= h < |m| && m[h].Hdr? ==> m'[h].Hdr? && m'[h].size == m[h].size
  }

  lemma BlockSameSize(m: Memory, m': Memory, chunks: seq<Chunk>, heads: set<int>, h: int)
    requires SameSizes(m, m', heads) && h in heads && BlockOk(m, chunks, h)
    ensures BlockOk(m', chunks, h) && BlockEnd(m', h) == BlockEnd(m, h)
    ensures EndsWell(m, chunks, heads, h) ==> EndsWell(m', chunks, heads, h)
  {
    var k :| BlockInChunk(m, chunks, h, k);
    assert BlockInChunk(m', chunks, h, k);
    assert forall j :: BlockInChunk(m', chunks, h, j) ==> BlockInChunk(m, chunks, h, j);
  }

  lemma LayoutSameSizes(m: Memory, m': Memory, chunks: seq<Chunk>, heads: set<int>)
    requires Layout(m, chunks, heads) && SameSizes(m, m', heads)
    ensures Layout(m', chunks, heads)
  {
    hide EndsWell, BlockEnd, BlockOk, ChunksOk;
    forall h | h in heads
      ensures BlockOk(m', chunks, h) && BlockEnd(m', h) == BlockEnd(m, h) && EndsWell(m', chunks, heads, h)
    {
      assert BlockOk(m, chunks, h) && EndsWell(m, chunks, heads, h);
      BlockSameSize(m, m', chunks, heads, h);
    }
  }

  /** No header lies inside a block. */
  lemma NoHeaderInside(m: Memory, chunks: seq<Chunk>, heads: set<int>, h: int, a: int)
    requires Layout(m, chunks, heads) && h in heads && h < a < BlockEnd(m, h)
    ensures a !in heads && 0 <= a < |m| && InHeap(chunks, a)
  {
    assert BlockOk(m, chunks, h);
    var k :| BlockInChunk(m, chunks, h, k);
    assert InChunk(chunks[k], a);
  }

  /** Headers other than `h` and `x` are left alone. */
  ghost predicate OtherHeaders(m: Memory, m': Memory, heads: set<int>, h: int, x: int) {
    |m'| == |m| && forall b :: b in heads && b != h && b != x && 0 <= b < |m| ==> m'[b] == m[b]
  }

  lemma OtherBlock(m: Memory, m': Memory, chunks: seq<Chunk>, heads: set<int>, heads': set<int>, h: int, x: int, b: int)
    requires OtherHeaders(m, m', heads, h, x) && b in heads && b != h && b != x
    requires BlockOk(m, chunks, b) && EndsWell(m, chunks, heads, b)
    requires BlockEnd(m, b) in heads ==> BlockEnd(m, b) in heads'
    ensures BlockOk(m', chunks, b) && BlockEnd(m', b) == BlockEnd(m, b) && EndsWell(m', chunks, heads', b)
  {
    var k :| BlockInChunk(m, chunks, b, k);
    assert BlockInChunk(m', chunks, b, k);
    assert forall j :: BlockInChunk(m', chunks, b, j) ==> BlockInChunk(m, chunks, b, j);
  }

  lemma SplitBlocks(m: Memory, m': Memory, chunks: seq<Chunk>, heads: set<int>, h: int, x: int)
    requires BlockOk(m, chunks, h) && EndsWell(m, chunks, heads, h) && |m'| == |m|
    requires h < x < BlockEnd(m, h) && m'[h].Hdr? && x < |m| && m'[x].Hdr?
    requires BlockEnd(m', h) == x && BlockEnd(m', x) == BlockEnd(m, h)
    ensures BlockOk(m', chunks, h) && EndsWell(m', chunks, heads + {x}, h)
    ensures BlockOk(m', chunks, x)
    ensures ChunksOk(chunks, |m|) ==> EndsWell(m', chunks, heads + {x}, x)
  {
    var k :| BlockInChunk(m, chunks, h, k);
    assert BlockInChunk(m', chunks, h, k) && BlockInChunk(m', chunks, x, k);
    if ChunksOk(chunks, |m|) {
      forall j | BlockInChunk(m', chunks, x, j)
        ensures BlockEnd(m', x) == chunks[j].End() || BlockEnd(m', x) in heads + {x}
      {
        assert j == k;
      }
    }
  }

  /** A block may be cut in two. */
  lemma SplitLayout(m: Memory, m': Memory, chunks: seq<Chunk>, heads: set<int>, h: int, x: int)
    requires Layout(m, chunks, heads) && h in heads && OtherHeaders(m, m', heads, h, h)
    requires h < x < BlockEnd(m, h) && 0 <= h && x < |m| && m'[h].Hdr? && m'[x].Hdr?
    requires BlockEnd(m', h) == x && BlockEnd(m', x) == BlockEnd(m, h)
    ensures x !in heads && Layout(m', chunks, heads + {x})
  {
    hide BlockOk, EndsWell, BlockEnd, ChunksOk;
    NoHeaderInside(m, chunks, heads, h, x);
    assert EndsWell(m, chunks, heads, h);
    SplitBlocks(m, m', chunks, heads, h, x);
    forall b | b in heads && b != h
      ensures BlockOk(m', chunks, b) && BlockEnd(m', b) == BlockEnd(m, b) && EndsWell(m', chunks, heads + {x}, b)
    {
      assert EndsWell(m, chunks, heads, b);
      OtherBlock(m, m', chunks, heads, heads + {x}, h, h, b);
    }
  }

  lemma MergeBlocks(m: Memory, m': Memory, chunks: seq<Chunk>, heads: set<int>, h: int, x: int)
    requires ChunksOk(chunks, |m|) && BlockOk(m, chunks, h) && BlockOk(m, chunks, x) && EndsWell(m, chunks, heads, x) && |m'| == |m|
    requires BlockEnd(m, h) == x && m'[h].Hdr? && BlockEnd(m', h) == BlockEnd(m, x)
    ensures BlockOk(m', chunks, h) && EndsWell(m', chunks, heads - {x}, h)
  {
    var k :| BlockInChunk(m, chunks, h, k);
    var l :| BlockInChunk(m, chunks, x, l);
    assert l == k;
    assert BlockInChunk(m', chunks, h, k);
    assert forall j :: BlockInChunk(m', chunks, h, j) ==> j == k;
  }

  /** Two adjacent blocks may be made one. */
  lemma MergeLayout(m: Memory, m': Memory, chunks: seq<Chunk>, heads: set<int>, h: int, x: int)
    requires Layout(m, chunks, heads) && h in heads && x in heads && OtherHeaders(m, m', heads, h, x)
    requires 0 <= h < |m| && BlockEnd(m, h) == x && m'[h].Hdr? && BlockEnd(m', h) == BlockEnd(m, x)
    requires h < x
    ensures Layout(m', chunks, heads - {x})
  {
    hide BlockOk, EndsWell, BlockEnd, ChunksOk;
    assert EndsWell(m, chunks, heads, x);
    MergeBlocks(m, m', chunks, heads, h, x);
    forall k | 0 <= k < |chunks| ensures chunks[k].start != x {
      StartIsNotAfter(m, chunks, heads, h, k);
    }
    forall b | b in heads - {x} && b != h
      ensures BlockOk(m', chunks, b) && BlockEnd(m', b) == BlockEnd(m, b) && EndsWell(m', chunks, heads - {x}, b)
    {
      assert EndsWell(m, chunks, heads, b) && BlockOk(m, chunks, b);
      EndsApart(m, chunks, heads, b, h);
      OtherBlock(m, m', chunks, heads, heads - {x}, h, x, b);
    }
  }

  /** The end of a block is not the start of a chunk. */
  lemma StartIsNotAfter(m: Memory, chunks: seq<Chunk>, heads: set<int>, h: int, k: nat)
    requires Layout(m, chunks, heads) && h in heads && k < |chunks|
    ensures chunks[k].start != BlockEnd(m, h)
  {
    hide EndsWell, BlockOk, ChunksOk;
    EndIsNoStart(m, chunks, h, k);
  }

  lemma EndIsNoStart(m: Memory, chunks: seq<Chunk>, h: int, k: nat)
    requires ChunksOk(chunks, |m|) && BlockOk(m, chunks, h) && k < |chunks|
    ensures chunks[k].start != BlockEnd(m, h)
  {
    var j :| BlockInChunk(m, chunks, h, j);
    if j < k {
      assert chunks[j].End() < chunks[k].start;
    } else if k < j {
      assert chunks[k].End() < chunks[j].start;
    }
  }

  lemma EndsApart(m: Memory, chunks: seq<Chunk>, heads: set<int>, b: int, h: int)
    requires Layout(m, chunks, heads) && b in heads && h in heads && b != h
    ensures BlockEnd(m, b) != BlockEnd(m, h)
  {
    hide EndsWell;
    assert BlockOk(m, chunks, b) && BlockOk(m, chunks, h);
  }

  /** A word belongs to one block only. */
  lemma OneOwner(m: Memory, chunks: seq<Chunk>, heads: set<int>, h: int, h': int, a: int)
    requires Layout(m, chunks, heads) && h in heads && h' in heads
    requires h <= a < BlockEnd(m, h) && h' <= a < BlockEnd(m, h')
    ensures h == h'
  {
    hide BlockOk, EndsWell, BlockEnd;
  }

  lemma GetBlock(m: Memory, chunks: seq<Chunk>, heads: set<int>, h: int)
    requires Layout(m, chunks, heads) && h in heads
    ensures ChunksOk(chunks, |m|) && BlockOk(m, chunks, h) && EndsWell(m, chunks, heads, h)
  {
    hide BlockOk, EndsWell, BlockEnd, ChunksOk;
    assert EndsWell(m, chunks, heads, h);
  }

  lemma BlockInMemory(m: Memory, chunks: seq<Chunk>, heads: set<int>, h: int)
    requires Layout(m, chunks, heads) && h in heads
    ensures 0 <= h < |m| && m[h].Hdr? && BlockEnd(m, h) == h + 1 + m[h].size <= |m|
    ensures InHeap(chunks, h) && !InHeap(chunks, -1)
  {
    hide EndsWell, Layout;
    GetBlock(m, chunks, heads, h);
    var k :| BlockInChunk(m, chunks, h, k);
  }

  lemma WordInHeap(m: Memory, chunks: seq<Chunk>, heads: set<int>, h: int, a: int)
    requires Layout(m, chunks, heads) && h in heads && h <= a < BlockEnd(m, h)
    ensures 0 <= a < |m| && InHeap(chunks, a)
  {
    hide EndsWell, Layout;
    GetBlock(m, chunks, heads, h);
    var k :| BlockInChunk(m, chunks, h, k);
    assert InChunk(chunks[k], a);
  }
}
