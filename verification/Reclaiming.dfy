/** What becomes of garbage: a cycle lets no block live but those it has found and those
    allocated in the meantime. */
module Reclaiming {
  import opened Words
  import opened BlockLayout
  import opened Marking
  import opened MarkStack
  import opened Carving
  import opened Sweeping
  import opened Coalescence

  ghost predicate Includes(kept: set<int>, known: set<int>) {
    forall h :: h in known ==> h in kept
  }

  /** While marking: what is black has been found, or is new. */
  ghost predicate BlackKept(m: Memory, heads: set<int>, kept: set<int>) {
    forall h :: h in heads && HasColor(m, h, Black) ==> h in kept
  }

  /** While sweeping: so is what lies ahead and is black, and what lies behind and is neither
      free nor a fragment. */
  ghost predicate Reclaimed(m: Memory, heads: set<int>, kept: set<int>, p: int) {
    && (forall h :: h in heads && h >= p && HasColor(m, h, Black) ==> Reusable(m, h) || h in kept)
    && (forall h :: h in heads && h < p ==> Reusable(m, h) || h in kept)
  }

  /** Between cycles: so is all that is neither free nor a fragment. */
  ghost predicate AllReclaimed(m: Memory, heads: set<int>, kept: set<int>) {
    forall h :: h in heads ==> Reusable(m, h) || h in kept
  }

  // Marking.

  lemma NothingBlack(m: Memory, heads: set<int>, kept: set<int>)
    requires forall h :: h in heads ==> HasColor(m, h, White) || HasColor(m, h, Blue)
    ensures BlackKept(m, heads, kept)
  {
  }

  /** The same blocks are black, but for `h`. */
  ghost predicate SameBlack(m: Memory, m': Memory, h: int) {
    forall b :: b != h ==> (HasColor(m', b, Black) <==> HasColor(m, b, Black))
  }

  lemma BlackKeptStep(m: Memory, m': Memory, heads: set<int>, known: set<int>, kept: set<int>, h: int)
    requires BlackKept(m, heads, kept) && SameBlack(m, m', h) && Includes(kept, known) && (h in known || h < 0)
    ensures BlackKept(m', heads, kept)
  {
  }

  // Sweeping.

  /** A step of the merge that leaves `x'` in hand where it had `x`: every other header that
      is left is as it was, or that of a free block or a fragment. */
  ghost predicate Merging(m: Memory, heads: set<int>, m': Memory, heads': set<int>, x: int, x': int) {
    forall h :: h in heads' && h != x' ==>
      Reusable(m', h) || (h in heads && h != x && 0 <= h < |m| && 0 <= h < |m'| && m'[h] == m[h])
  }

  lemma MergingRefl(m: Memory, chunks: seq<Chunk>, heads: set<int>, x: int)
    requires Layout(m, chunks, heads)
    ensures Merging(m, heads, m, heads, x, x)
  {
    hide Layout;
    HeadsInMemory(m, chunks, heads);
  }

  lemma MergingTrans(m: Memory, heads: set<int>, m1: Memory, heads1: set<int>, m2: Memory, heads2: set<int>, x: int, x1: int, x2: int)
    requires Merging(m, heads, m1, heads1, x, x1) && Merging(m1, heads1, m2, heads2, x1, x2)
    ensures Merging(m, heads, m2, heads2, x, x2)
  {
  }

  /** Headers other than that of `x` are as they were; some may be gone. */
  lemma MergingOne(m: Memory, chunks: seq<Chunk>, heads: set<int>, m': Memory, heads': set<int>, x: int, x': int)
    requires Layout(m, chunks, heads) && |m'| == |m| && (forall h :: h in heads' ==> h in heads) && (x !in heads' || x' == x)
    requires forall h :: h in heads' && h != x' && 0 <= h < |m| ==> m'[h] == m[h]
    ensures Merging(m, heads, m', heads', x, x')
  {
    hide Layout;
    HeadsInMemory(m, chunks, heads);
  }

  /** A block ends at `adj` and starts no later than `x`. */
  ghost predicate EndsFrom(m: Memory, heads: set<int>, x: int, adj: int) {
    exists y :: y in heads && y <= x && BlockEnd(m, y) == adj
  }

  /** Once the block at `p` has been merged, what has been swept is accounted for up to `adj`. */
  lemma ReclaimMerged(m: Memory, m': Memory, chunks: seq<Chunk>, heads: set<int>, heads': set<int>, kept: set<int>, p: int, adj: int)
    requires Reclaimed(m, heads, kept, p) && Merging(m, heads, m', heads', p, -1) && Layout(m', chunks, heads')
    requires EndsFrom(m', heads', p, adj)
    ensures Reclaimed(m', heads', kept, adj)
  {
    hide Layout;
    NoMinusOne(m', chunks, heads');
    var y :| y in heads' && y <= p && BlockEnd(m', y) == adj;
    forall h | h in heads' && !Reusable(m', h) ensures h != p && (h < adj ==> h < p) {
      if p < h {
        Apart(m', chunks, heads', y, h);
      }
    }
  }

  /** A block that stays is passed. */
  lemma ReclaimPassed(m: Memory, m': Memory, chunks: seq<Chunk>, heads: set<int>, kept: set<int>, p: int)
    requires Layout(m, chunks, heads) && Reclaimed(m, heads, kept, p) && p in heads
    requires (HasColor(m, p, Blue) && m' == m) || (HasColor(m, p, Black) && Recolored(m, m', p, White))
    ensures Reclaimed(m', heads, kept, BlockEnd(m, p))
  {
    hide Layout, BlockEnd;
    BlockInMemory(m, chunks, heads, p);
    forall h | h in heads && h < BlockEnd(m, p) ensures h <= p {
      if h > p {
        Apart(m, chunks, heads, p, h);
      }
    }
  }

  /** The sweep goes from the end of a chunk to the next. */
  lemma ReclaimOn(m: Memory, chunks: seq<Chunk>, heads: set<int>, kept: set<int>, k: nat)
    requires Layout(m, chunks, heads) && k < |chunks| && Reclaimed(m, heads, kept, chunks[k].End())
    ensures if k + 1 < |chunks| then Reclaimed(m, heads, kept, chunks[k + 1].start) else AllReclaimed(m, heads, kept)
  {
    hide Layout;
    forall h | h in heads && h >= chunks[k].End() ensures k + 1 < |chunks| && h >= chunks[k + 1].start {
      HeadBeyond(m, chunks, heads, k, h);
    }
    if k + 1 < |chunks| {
      ChunkAfter(m, chunks, heads, k);
    }
  }

  lemma ChunkAfter(m: Memory, chunks: seq<Chunk>, heads: set<int>, k: nat)
    requires Layout(m, chunks, heads) && k + 1 < |chunks|
    ensures chunks[k].End() < chunks[k + 1].start
  {
    hide BlockOk, EndsWell;
  }

  /** Everything recorded before is still recorded when more is. */
  ghost predicate Accounted(m: Memory, heads: set<int>, known: set<int>, kept: set<int>, marking: bool, sweeping: bool, p: int) {
    && Includes(kept, known)
    && (marking ==> BlackKept(m, heads, kept))
    && (sweeping ==> Reclaimed(m, heads, kept, p))
    && (!marking && !sweeping ==> AllReclaimed(m, heads, kept))
  }

  /** A store that spares the headers, and a change of colours that makes no block black but known ones. */
  lemma AccountSame(m: Memory, m': Memory, heads: set<int>, known: set<int>, kept: set<int>, marking: bool, sweeping: bool, p: int)
    requires Accounted(m, heads, known, kept, marking, sweeping, p)
    requires |m'| == |m| && forall h :: h in heads && 0 <= h < |m| ==> m'[h] == m[h]
    ensures Accounted(m', heads, known, kept, marking, sweeping, p)
  {
  }

  /** A new block is recorded. */
  lemma AccountNew(m: Memory, m': Memory, heads: set<int>, known: set<int>, kept: set<int>, marking: bool, sweeping: bool, p: int, blue: int, hp: int, color: Color)
    requires Accounted(m, heads, known, kept, marking, sweeping, p) && HeadersCarved(m, m', heads, blue, hp, color)
    ensures Accounted(m', heads + {hp}, known, kept + {hp}, marking, sweeping, p)
  {
  }

  /** So it may be handed to the program. */
  lemma AccountKnown(m: Memory, heads: set<int>, known: set<int>, kept: set<int>, marking: bool, sweeping: bool, p: int, b: int)
    requires Accounted(m, heads, known, kept, marking, sweeping, p) && IsBlock(m, heads, b) && m[b].size >= 1
    requires m[b].color == if marking || (sweeping && b >= p) then Black else White
    ensures Accounted(m, heads, known + {b}, kept, marking, sweeping, p)
  {
  }

  lemma AccountMarked(m: Memory, m': Memory, heads: set<int>, known: set<int>, kept: set<int>, h: int, p: int)
    requires Accounted(m, heads, known, kept, true, false, p) && SameBlack(m, m', h) && (h in known || h < 0)
    ensures Accounted(m', heads, known, kept, true, false, p)
  {
    BlackKeptStep(m, m', heads, known, kept, h);
  }

  lemma AccountSweep(m: Memory, heads: set<int>, known: set<int>, kept: set<int>, p: int, q: int)
    requires Accounted(m, heads, known, kept, true, false, p) && forall h :: h in heads ==> h >= q
    ensures Accounted(m, heads, known, kept, false, true, q)
  {
  }
}
