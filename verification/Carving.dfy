/** Allocation does not disturb what is already allocated. */
module Carving {
  import opened Words
  import opened BlockLayout
  import opened LinkedWords
  import opened Marking
  import opened MarkStack
  import opened FreeBlocks
  import opened Coalescing

  /** Every word of the block at `h` is as it was. */
  ghost predicate Untouched(m: Memory, m': Memory, h: int) {
    |m'| == |m| && forall a :: h <= a < BlockEnd(m, h) && 0 <= a < |m| ==> m'[a] == m[a]
  }

  ghost predicate AllocatedUntouched(m: Memory, m': Memory, heads: set<int>) {
    |m'| == |m| && forall h :: IsBlock(m, heads, h) ==> Untouched(m, m', h)
  }

  ghost predicate BlocksUntouched(m: Memory, m': Memory, blocks: set<int>) {
    |m'| == |m| && forall h :: h in blocks ==> Untouched(m, m', h)
  }

  /** A free block has given up `wo` + 1 words, which start at `hp` and now have a header. */
  ghost predicate Carved(m: Memory, m': Memory, head: int, list: seq<int>, j: nat, wo: nat, tag: nat, color: Color, hp: int) {
    && j < |list| && 1 <= list[j] < |m| && 0 <= Node(head, list, j) < |m| && m[list[j] - 1].Hdr? && m[list[j] - 1].size >= wo
    && hp == list[j] + m[list[j] - 1].size - (wo + 1) && 0 <= hp < |m|
    && m' == BlockCut(m, Node(head, list, j), list[j], wo + 1)[hp := Hdr(wo, tag, color)]
  }

  lemma CarvedShape(m: Memory, m': Memory, chunks: seq<Chunk>, heads: set<int>, head: int, list: seq<int>, j: nat, wo: nat, tag: nat, color: Color, hp: int)
    requires Layout(m, chunks, heads) && FreeListOk(m, chunks, heads, head, list, NONE)
    requires Carved(m, m', head, list, j, wo, tag, color, hp) && color != Blue
    ensures Layout(m', chunks, heads + {hp})
    ensures FreeListOk(m', chunks, heads + {hp}, head, ListAfterCut(m, list, j, wo + 1), NONE)
  {
    hide Layout, FreeListOk;
    if m[list[j] - 1].size >= wo + 2 {
      CutLarge(m, chunks, heads, head, list, j, wo, tag, color);
    } else {
      CutSmall(m, chunks, heads, head, list, j, wo, tag, color);
    }
  }

  /** The words written belong to the free block, or are links. */
  lemma CarvedWords(m: Memory, m': Memory, chunks: seq<Chunk>, heads: set<int>, head: int, list: seq<int>, j: nat, wo: nat, tag: nat, color: Color, hp: int)
    requires Layout(m, chunks, heads) && FreeListOk(m, chunks, heads, head, list, NONE)
    requires Carved(m, m', head, list, j, wo, tag, color, hp)
    ensures |m'| == |m| && j < |list| && list[j] - 1 in heads && HasColor(m, list[j] - 1, Blue)
    ensures list[j] - 1 <= hp < BlockEnd(m, list[j] - 1)
    ensures forall a :: 0 <= a < |m| && m'[a] != m[a] ==> a == Node(head, list, j) || a == list[j] - 1 || a == hp
    ensures m'[hp] == Hdr(wo, tag, color)
    ensures list[j] - 1 != hp ==> m'[list[j] - 1].Hdr? && (m'[list[j] - 1].color == Blue || m'[list[j] - 1] == Hdr(0, 0, White))
    ensures forall h :: IsBlock(m, heads, h) ==> h != list[j] - 1 && h != hp
  {
    hide Layout, Links, Ascending, BlockEnd;
    assert list[j] in list;
    NodeFacts(m, chunks, heads, head, list, NONE, list[j]);
    EndOf(m, list[j] - 1);
    forall h | IsBlock(m, heads, h) ensures h != list[j] - 1 && h != hp {
      if hp != list[j] - 1 {
        NoHeaderInside(m, chunks, heads, list[j] - 1, hp);
      }
    }
  }

  /** What the headers are after a block has been carved. */
  ghost predicate HeadersCarved(m: Memory, m': Memory, heads: set<int>, blue: int, hp: int, color: Color) {
    && |m'| == |m| && 0 <= hp < |m| && blue in heads
    && HasColor(m', hp, color)
    && (blue != hp ==> HasColor(m', blue, Blue) || (HasColor(m', blue, White) && m'[blue].size == 0))
    && (forall h :: h in heads && h != blue && h != hp ==> 0 <= h < |m| && m'[h] == m[h])
    && (forall h :: IsBlock(m, heads, h) ==> h != blue && h != hp)
  }

  lemma CarvedHeaders(m: Memory, m': Memory, chunks: seq<Chunk>, heads: set<int>, head: int, list: seq<int>, j: nat, wo: nat, tag: nat, color: Color, hp: int)
    requires Layout(m, chunks, heads) && FreeListOk(m, chunks, heads, head, list, NONE)
    requires Carved(m, m', head, list, j, wo, tag, color, hp)
    ensures j < |list| && HeadersCarved(m, m', heads, list[j] - 1, hp, color)
  {
    hide Layout, FreeListOk, BlockEnd;
    CarvedWords(m, m', chunks, heads, head, list, j, wo, tag, color, hp);
    HeadsInMemory(m, chunks, heads);
    PrevFacts(m, chunks, heads, head, list, NONE, j);
  }

  lemma CarvedGray(m: Memory, m': Memory, heads: set<int>, blue: int, hp: int, color: Color)
    requires HeadersCarved(m, m', heads, blue, hp, color) && color != Gray
    ensures forall h :: h in heads + {hp} && HasColor(m', h, Gray) ==> IsBlock(m, heads, h)
  {
  }

  lemma CarvedUntouched(m: Memory, m': Memory, chunks: seq<Chunk>, heads: set<int>, head: int, list: seq<int>, j: nat, wo: nat, tag: nat, color: Color, hp: int)
    requires Layout(m, chunks, heads) && FreeListOk(m, chunks, heads, head, list, NONE)
    requires Carved(m, m', head, list, j, wo, tag, color, hp)
    ensures AllocatedUntouched(m, m', heads)
  {
    hide Layout, FreeListOk, BlockEnd, Carved;
    CarvedWords(m, m', chunks, heads, head, list, j, wo, tag, color, hp);
    forall h, a | IsBlock(m, heads, h) && h <= a < BlockEnd(m, h) && 0 <= a < |m|
      ensures m'[a] == m[a]
    {
      if a == list[j] - 1 || a == hp {
        BlockInMemory(m, chunks, heads, list[j] - 1);
        OneOwner(m, chunks, heads, h, list[j] - 1, a);
      } else {
        LinkNotInBlock(m, chunks, heads, head, list, j, h, a);
      }
    }
  }

  /** Links lie in free blocks, or in the sentinel. */
  lemma LinkNotInBlock(m: Memory, chunks: seq<Chunk>, heads: set<int>, head: int, list: seq<int>, j: nat, h: int, a: int)
    requires Layout(m, chunks, heads) && FreeListOk(m, chunks, heads, head, list, NONE) && j <= |list|
    requires IsBlock(m, heads, h) && h <= a < BlockEnd(m, h)
    ensures a != Node(head, list, j)
  {
    hide Layout, Links, Ascending, BlockEnd;
    WordInHeap(m, chunks, heads, h, a);
    if j > 0 {
      NodeFacts(m, chunks, heads, head, list, NONE, list[j - 1]);
    }
  }

  // What stays true when allocated blocks are left alone.

  lemma UntouchedBlock(m: Memory, m': Memory, chunks: seq<Chunk>, heads: set<int>, h: int)
    requires Layout(m, chunks, heads) && Untouched(m, m', h) && IsBlock(m, heads, h)
    ensures 0 <= h < |m| && m'[h] == m[h] && BlockEnd(m', h) == BlockEnd(m, h)
    ensures forall s :: FieldIn(m', h, s) <==> FieldIn(m, h, s)
    ensures forall s :: FieldIn(m, h, s) ==> 0 <= s < |m| && m'[s] == m[s]
  {
    hide Layout;
    BlockInMemory(m, chunks, heads, h);
  }

  lemma HeapUntouched(m: Memory, m': Memory, chunks: seq<Chunk>, heads: set<int>, heads': set<int>, roots: seq<Word>, known: set<int>)
    requires HeapOk(m, chunks, heads, roots, known) && BlocksUntouched(m, m', known)
    requires Layout(m', chunks, heads') && forall h :: h in known ==> h in heads'
    ensures HeapOk(m', chunks, heads', roots, known)
  {
    hide Layout, FieldIn, GoodWord, Untouched, BlockEnd;
    forall h | h in known
      ensures IsBlock(m', heads', h)
      ensures forall s :: FieldIn(m', h, s) ==> 0 <= s < |m'| && GoodWord(chunks, known, m'[s])
    {
      UntouchedBlock(m, m', chunks, heads, h);
    }
  }

  lemma KnownUntouched(m: Memory, m': Memory, chunks: seq<Chunk>, heads: set<int>, roots: seq<Word>, known: set<int>)
    requires HeapOk(m, chunks, heads, roots, known) && AllocatedUntouched(m, m', heads)
    ensures BlocksUntouched(m, m', known)
  {
    hide Layout, GoodWord, Untouched;
  }

  lemma SnapshotUntouched(m: Memory, m': Memory, chunks: seq<Chunk>, heads: set<int>, roots: seq<Word>, known: set<int>, c: Cycle)
    requires HeapOk(m, chunks, heads, roots, known) && BlocksUntouched(m, m', known)
    requires SnapshotKept(m, chunks, c, known, Between)
    ensures SnapshotKept(m', chunks, c, known, Between)
  {
    hide Layout, GoodWord, Untouched, BlockEnd, Refers, ValidCycle;
    forall h | h in known
      ensures 0 <= h < |m| == |m'| && m'[h] == m[h]
      ensures forall s :: FieldIn(m, h, s) ==> 0 <= s < |m| && m'[s] == m[s]
    {
      UntouchedBlock(m, m', chunks, heads, h);
    }
    forall w, t | w in c.roots && Refers(chunks, w, t)
      ensures NotWhite(m', t)
    {
      RootLive(chunks, c, w, t);
      assert NotWhite(m, t) && t in known;
    }
    forall b, s, t | b in c.live && FieldIn(c.mem, b, s) && 0 <= s < |c.mem| && Refers(chunks, c.mem[s], t)
      ensures Seen(m', c, Between, b, s, t)
    {
      FieldLive(chunks, c, b, s, t);
      SnapshotField(m, chunks, heads, roots, c, known, b, s);
      assert Seen(m, c, Between, b, s, t);
    }
    assert ShapesKept(m', c, known);
  }

  lemma RootLive(chunks: seq<Chunk>, c: Cycle, w: Word, t: int)
    requires ValidCycle(chunks, c) && w in c.roots && Refers(chunks, w, t)
    ensures t in c.live
  {
    hide Refers;
    assert Reach(c.mem, chunks, c.roots, t, 0);
  }

  lemma FieldLive(chunks: seq<Chunk>, c: Cycle, b: int, s: int, t: int)
    requires ValidCycle(chunks, c) && b in c.live && FieldIn(c.mem, b, s) && Refers(chunks, c.mem[s], t)
    ensures t in c.live
  {
    hide Refers;
    var n: nat :| Reach(c.mem, chunks, c.roots, b, n);
    assert Reach(c.mem, chunks, c.roots, t, n + 1);
  }

  lemma StackUntouched(m: Memory, m': Memory, chunks: seq<Chunk>, heads: set<int>, heads': set<int>, known: set<int>, stack: seq<int>, pure: bool, at: ScanPoint)
    requires StackOk(m, heads, known, stack, pure, at) && AllocatedUntouched(m, m', heads) && Layout(m, chunks, heads)
    requires forall h :: IsBlock(m, heads, h) ==> h in heads'
    requires forall h :: h in heads' && HasColor(m', h, Gray) ==> IsBlock(m, heads, h)
    ensures StackOk(m', heads', known, stack, pure, at)
  {
    hide Layout, Untouched, BlockEnd;
    forall h | IsBlock(m, heads, h) ensures 0 <= h < |m| && m'[h] == m[h] {
      UntouchedBlock(m, m', chunks, heads, h);
    }
  }

  /** Where the merge point is once the `j`th block has been cut. */
  ghost function MergeAfterCut(m: Memory, list: seq<int>, j: nat, wh: nat, at: nat): nat
    requires j < |list| && 1 <= list[j] <= |m| && m[list[j] - 1].IsHeader()
  {
    if m[list[j] - 1].size < wh + 1 && j < at then at - 1 else at
  }

  lemma CutMerge(m: Memory, head: int, list: seq<int>, j: nat, wh: nat, at: nat, merge: int, merge': int)
    requires j < |list| && 1 <= list[j] <= |m| && m[list[j] - 1].IsHeader() && Ascending(list) && head !in list
    requires at <= |list| && merge == Node(head, list, at)
    requires merge' == if merge == list[j] && m[list[j] - 1].size < wh + 1 then Node(head, list, j) else merge
    ensures var list', at' := ListAfterCut(m, list, j, wh), MergeAfterCut(m, list, j, wh, at);
      && at' <= |list'| && merge' == Node(head, list', at')
      && (Node(head, list, j) == head || Node(head, list, j) in list')
      && forall p :: MergePoint(list, at, p) ==> MergePoint(list', at', p)
  {
    var list', at' := ListAfterCut(m, list, j, wh), MergeAfterCut(m, list, j, wh, at);
    if m[list[j] - 1].size < wh + 1 {
      assert merge == list[j] <==> at == j + 1 by {
        if at > 0 { assert list[at - 1] == merge; }
      }
      if j > 0 {
        assert list'[j - 1] == list[j - 1];
      }
      forall p | MergePoint(list, at, p)
        ensures MergePoint(list', at', p)
      {
        forall i | 0 <= i < |list'|
          ensures i < at' ==> list'[i] - 1 < p
          ensures i >= at' ==> list'[i] - 1 >= p
        {
          assert list'[i] == if i < j then list[i] else list[i + 1];
        }
      }
    } else if j > 0 {
      assert list'[j - 1] == list[j - 1];
    }
  }
}
