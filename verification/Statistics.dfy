/** The walk over the heap that counts its words and checks, block by block, that free blocks
    and fragments are not neighbours. */
module Statistics {
  import opened Words
  import opened Tiling
  import opened BlockLayout
  import opened LinkedWords
  import opened Marking
  import opened MarkStack
  import opened FreeBlocks
  import opened Coalescing
  import opened Sweeping
  import opened Coalescence
  import opened Progress
  import opened Reclaiming
  import opened MajorHeaps

  /** The words of the first `k` chunks. */
  function HeapWords(chunks: seq<Chunk>, k: nat): nat
    requires k <= |chunks|
  {
    if k == 0 then 0 else HeapWords(chunks, k - 1) + chunks[k - 1].size
  }

  /** The words of a free block, its header included. */
  ghost function BlockWords(m: Memory, b: int): nat {
    if 1 <= b <= |m| && m[b - 1].IsHeader() then m[b - 1].WhSize() else 0
  }

  ghost function FreeWords(m: Memory, list: seq<int>): nat {
    if list == [] then 0 else FreeWords(m, list[..|list| - 1]) + BlockWords(m, list[|list| - 1])
  }

  /** The first `at` free blocks have been counted. */
  ghost predicate Counted(m: Memory, list: seq<int>, at: nat, words: nat, largest: nat) {
    && at <= |list| && words == FreeWords(m, list[..at])
    && (forall i :: 0 <= i < at ==> BlockWords(m, list[i]) <= largest)
    && (if at == 0 then largest == 0 else exists i :: 0 <= i < at && BlockWords(m, list[i]) == largest)
  }

  lemma CountOne(m: Memory, list: seq<int>, at: nat, words: nat, largest: nat)
    requires Counted(m, list, at, words, largest) && at < |list|
    ensures var w := BlockWords(m, list[at]); Counted(m, list, at + 1, words + w, if w > largest then w else largest)
  {
    assert list[..at + 1][..at] == list[..at];
    if at > 0 {
      var i :| 0 <= i < at && BlockWords(m, list[i]) == largest;
    }
    assert BlockWords(m, list[at]) > largest || at > 0 || BlockWords(m, list[at]) == largest;
  }

  lemma CountNone(m: Memory, list: seq<int>)
    ensures Counted(m, list, 0, 0, 0)
  {
  }

  /** A free block is the next one of the list; other blocks are not on it. */
  lemma PassBlock(m: Memory, chunks: seq<Chunk>, heads: set<int>, head: int, list: seq<int>, at: nat, k: nat, p: int)
    requires Layout(m, chunks, heads) && FreeListOk(m, chunks, heads, head, list, NONE)
    requires MergePoint(list, at, p) && PosOk(chunks, heads, k, p) && p != chunks[k].End()
    ensures 0 <= p < |m| && m[p].Hdr? && p in heads && BlockEnd(m, p) == p + 1 + m[p].size <= chunks[k].End() <= |m| && PosOk(chunks, heads, k, BlockEnd(m, p))
    ensures HasColor(m, p, Blue) ==> at < |list| && list[at] == p + 1 && MergePoint(list, at + 1, BlockEnd(m, p))
    ensures !HasColor(m, p, Blue) ==> MergePoint(list, at, BlockEnd(m, p))
  {
    hide Layout, Links, BlockEnd, SentinelOk;
    PosNext(m, chunks, heads, k, p);
    EndOf(m, p);
    NoMinusOne(m, chunks, heads);
    forall i | 0 <= i < |list| && list[i] - 1 > p ensures list[i] - 1 >= BlockEnd(m, p) {
      assert list[i] in list;
      Apart(m, chunks, heads, p, list[i] - 1);
    }
    if HasColor(m, p, Blue) {
      var i :| 0 <= i < |list| && list[i] == p + 1;
      assert i == at by {
        assert list[i] - 1 >= p;
        assert list[at] - 1 >= p;
      }
    } else {
      forall i | 0 <= i < |list| ensures list[i] - 1 != p {
        assert list[i] in list;
      }
    }
  }

  /** No free block lies between one chunk and the next. */
  lemma PassGap(m: Memory, chunks: seq<Chunk>, heads: set<int>, head: int, list: seq<int>, at: nat, k: nat)
    requires Layout(m, chunks, heads) && FreeListOk(m, chunks, heads, head, list, NONE) && k < |chunks|
    requires MergePoint(list, at, chunks[k].End())
    ensures k + 1 < |chunks| ==> MergePoint(list, at, chunks[k + 1].start)
    ensures k + 1 == |chunks| ==> at == |list|
  {
    hide BlockOk, EndsWell, Links, Ascending, SentinelOk;
    if k + 1 < |chunks| {
      assert chunks[k].End() < chunks[k + 1].start;
      forall i | at <= i < |list| ensures list[i] - 1 >= chunks[k + 1].start {
        assert list[i] in list;
        HeadBeyond(m, chunks, heads, k, list[i] - 1);
      }
    } else if |list| > 0 {
      assert list[|list| - 1] in list;
      BeforeEnd(m, chunks, heads, k, list[|list| - 1] - 1);
    }
  }

  lemma BeforeEnd(m: Memory, chunks: seq<Chunk>, heads: set<int>, k: nat, h: int)
    requires Layout(m, chunks, heads) && k + 1 == |chunks| && h in heads
    ensures h < chunks[k].End()
  {
    hide BlockOk, EndsWell, ChunksOk;
    if h >= chunks[k].End() {
      HeadBeyond(m, chunks, heads, k, h);
    }
  }

  lemma FirstChunk(m: Memory, chunks: seq<Chunk>, heads: set<int>, head: int, list: seq<int>)
    requires Layout(m, chunks, heads) && FreeListOk(m, chunks, heads, head, list, NONE) && |chunks| > 0
    ensures MergePoint(list, 0, chunks[0].start)
  {
    hide Layout, Links, Ascending, SentinelOk;
    forall i | 0 <= i < |list| ensures list[i] - 1 >= chunks[0].start {
      assert list[i] in list;
      HeadAfterStart(m, chunks, heads, list[i] - 1);
    }
  }

  // Which blocks are counted.

  /** The fragments: white blocks without fields. */
  ghost function Fragments(m: Memory, heads: set<int>): set<int> {
    set h | h in heads && HasColor(m, h, White) && m[h].size == 0
  }

  /** The blocks in use: neither free nor fragments. */
  ghost function InUse(m: Memory, heads: set<int>): set<int> {
    set h | h in heads && (HasColor(m, h, White) || HasColor(m, h, Gray) || HasColor(m, h, Black)) && h !in Fragments(m, heads)
  }

  ghost function Below(s: set<int>, p: int): set<int> {
    set h | h in s && h < p
  }

  /** The blocks of `s` below `p` have been counted: there are `n`, of `words` words. */
  ghost predicate Tallied(m: Memory, s: set<int>, p: int, n: nat, words: nat) {
    n == |Below(s, p)| && words == |WordsOf(m, Below(s, p))|
  }

  lemma TallyStart(m: Memory, chunks: seq<Chunk>, heads: set<int>, s: set<int>)
    requires Layout(m, chunks, heads) && |chunks| > 0 && forall h :: h in s ==> h in heads
    ensures Tallied(m, s, chunks[0].start, 0, 0)
  {
    hide Layout, InSome;
    forall h | h in s ensures h >= chunks[0].start {
      HeadAfterStart(m, chunks, heads, h);
    }
    var below := Below(s, chunks[0].start);
    assert (forall h :: h !in below) ==> below == {};
    NoWords(m);
  }

  lemma NoWords(m: Memory)
    ensures WordsOf(m, {}) == {}
  {
    assert forall a :: a !in WordsOf(m, {});
    assert (forall a :: a !in WordsOf(m, {})) ==> WordsOf(m, {}) == {};
  }

  /** The block at `p` is counted if it belongs to `s`. */
  lemma TallyBlock(m: Memory, chunks: seq<Chunk>, heads: set<int>, s: set<int>, p: int, n: nat, words: nat)
    requires Layout(m, chunks, heads) && p in heads && (forall h :: h in s ==> h in heads) && Tallied(m, s, p, n, words)
    ensures 0 <= p < |m| && m[p].Hdr?
    ensures if p in s then Tallied(m, s, BlockEnd(m, p), n + 1, words + (m[p].size + 1)) else Tallied(m, s, BlockEnd(m, p), n, words)
  {
    hide Layout, WordsOf;
    BlockInMemory(m, chunks, heads, p);
    var before, after := Below(s, p), Below(s, BlockEnd(m, p));
    forall h | h in after ensures h in before || (h == p && p in s) {
      if h > p {
        Apart(m, chunks, heads, p, h);
      }
    }
    if p in s {
      assert (forall h :: h in after <==> h in before + {p}) ==> after == before + {p};
      MoreWords(m, chunks, heads, before, p);
    } else {
      assert (forall h :: h in after <==> h in before) ==> after == before;
    }
  }

  lemma MoreWords(m: Memory, chunks: seq<Chunk>, heads: set<int>, s: set<int>, p: int)
    requires Layout(m, chunks, heads) && p in heads && p !in s && (forall h :: h in s ==> h in heads)
    ensures 0 <= p < |m| && m[p].Hdr?
    ensures |WordsOf(m, s + {p})| == |WordsOf(m, s)| + m[p].size + 1
  {
    hide Layout;
    BlockInMemory(m, chunks, heads, p);
    var old_, own, all := WordsOf(m, s), Span(p, BlockEnd(m, p)), WordsOf(m, s + {p});
    SpanSize(p, BlockEnd(m, p));
    forall a | a in old_ ensures a !in own && a in all {
      var b :| b in s && b <= a < BlockEnd(m, b);
      if a in own {
        OneOwner(m, chunks, heads, b, p, a);
      }
    }
    forall a | a in own ensures a in all {
      assert p in s + {p};
    }
    forall a | a in all ensures a in old_ + own {
      var b :| b in s + {p} && b <= a < BlockEnd(m, b);
    }
    assert (forall a :: a in all <==> a in old_ + own) ==> all == old_ + own;
    assert |old_ + own| == |old_| + |own|;
  }

  /** No block lies between one chunk and the next, and none beyond the last. */
  lemma TallyGap(m: Memory, chunks: seq<Chunk>, heads: set<int>, s: set<int>, k: nat, n: nat, words: nat)
    requires Layout(m, chunks, heads) && k < |chunks| && (forall h :: h in s ==> h in heads) && Tallied(m, s, chunks[k].End(), n, words)
    ensures if k + 1 < |chunks| then Tallied(m, s, chunks[k + 1].start, n, words) else n == |s| && words == |WordsOf(m, s)|
  {
    hide Layout, WordsOf;
    forall h | h in s && h >= chunks[k].End() ensures k + 1 < |chunks| && h >= chunks[k + 1].start {
      HeadBeyond(m, chunks, heads, k, h);
    }
    var below := Below(s, chunks[k].End());
    if k + 1 < |chunks| {
      ChunkAfter(m, chunks, heads, k);
      var next := Below(s, chunks[k + 1].start);
      assert (forall h :: h in next <==> h in below) ==> next == below;
    } else {
      assert (forall h :: h in s <==> h in below) ==> s == below;
    }
  }

  /** Counts words and blocks: those in use, those of the free list, and the fragments. All
      words are accounted for, and the assertions on neighbours hold at every step of the walk. */
  method GcStat(h: MajorHeap) returns (liveWords: nat, liveBlocks: nat, freeWords: nat, freeBlocks: nat, largestFree: nat, fragments: nat, heapChunks: nat)
    requires h.Valid()
    ensures liveBlocks == |InUse(h.mem[..], h.heads)| && liveWords == |WordsOf(h.mem[..], InUse(h.mem[..], h.heads))|
    ensures fragments == |Fragments(h.mem[..], h.heads)| && heapChunks == |h.chunks|
    ensures liveWords + freeWords + fragments == HeapWords(h.chunks, |h.chunks|)
    ensures freeBlocks == |h.list| && Counted(h.mem[..], h.list, |h.list|, freeWords, largestFree)
  {
    hide HeapOk, FreeListOk, RefTableOk, Layout, PosOk, MarkingOk, AllSwept, AtSweep, MergePoint, Counted, SweptTo, BlockEnd, Coalesced, Small, Tallied, Accounted, WordsOf;
    ghost var m, exception := h.mem[..], if h.phase == Sweep then h.sweepHp else -1;
    ghost var used, scraps, scrapWords := InUse(m, h.heads), Fragments(m, h.heads), 0;
    HeapLayout(m, h.chunks, h.heads, h.roots, h.known);
    liveWords, liveBlocks, freeWords, freeBlocks, largestFree, fragments, heapChunks := 0, 0, 0, 0, 0, 0, 0;
    TallyStart(m, h.chunks, h.heads, used);
    TallyStart(m, h.chunks, h.heads, scraps);
    FirstChunk(m, h.chunks, h.heads, h.head, h.list);
    CountNone(m, h.list);
    var k := 0;
    while k < |h.chunks|
      invariant 0 <= k <= |h.chunks| && liveWords + freeWords + fragments == HeapWords(h.chunks, k)
      invariant Counted(m, h.list, freeBlocks, freeWords, largestFree)
      invariant if k < |h.chunks| then MergePoint(h.list, freeBlocks, h.chunks[k].start) else freeBlocks == |h.list|
      invariant heapChunks == k
      invariant if k < |h.chunks| then Tallied(m, used, h.chunks[k].start, liveBlocks, liveWords) else liveBlocks == |used| && liveWords == |WordsOf(m, used)|
      invariant if k < |h.chunks| then Tallied(m, scraps, h.chunks[k].start, fragments, scrapWords) else fragments == |scraps|
    {
      heapChunks := heapChunks + 1;
      var prev, cur, end := -1, h.chunks[k].start, h.chunks[k].End();
      PosEnter(m, h.chunks, h.heads, k);
      while cur < end
        invariant PosOk(h.chunks, h.heads, k, cur) && h.chunks[k].start <= cur <= end
        invariant liveWords + freeWords + fragments == HeapWords(h.chunks, k) + (cur - h.chunks[k].start)
        invariant Counted(m, h.list, freeBlocks, freeWords, largestFree) && MergePoint(h.list, freeBlocks, cur)
        invariant prev != -1 ==> EndsAt(m, h.heads, prev, cur)
        invariant Tallied(m, used, cur, liveBlocks, liveWords) && Tallied(m, scraps, cur, fragments, scrapWords)
      {
        PassBlock(m, h.chunks, h.heads, h.head, h.list, freeBlocks, k, cur);
        ghost var next := BlockEnd(m, cur);
        Neighbours(m, h.heads, h.known, exception, prev, cur);
        TallyBlock(m, h.chunks, h.heads, used, cur, liveBlocks, liveWords);
        TallyBlock(m, h.chunks, h.heads, scraps, cur, fragments, scrapWords);
        var hd := h.mem[cur];
        if hd.color == White && hd.size == 0 {
          fragments := fragments + 1;
          scrapWords := scrapWords + 1;
          assert prev == -1 || !Reusable(m, prev) || cur == exception;
          assert next !in h.heads || !Reusable(m, next) || next == exception;
        } else if hd.color == Blue {
          CountOne(m, h.list, freeBlocks, freeWords, largestFree);
          freeBlocks := freeBlocks + 1;
          freeWords := freeWords + (hd.size + 1);
          if hd.size + 1 > largestFree {
            largestFree := hd.size + 1;
          }
          assert hd.size > 0;
          assert prev == -1 || !Reusable(m, prev) || cur == exception;
          assert next !in h.heads || !Reusable(m, next) || next == exception;
        } else {
          assert hd.size > 0;
          liveBlocks := liveBlocks + 1;
          liveWords := liveWords + (hd.size + 1);
        }
        prev := cur;
        cur := cur + hd.size + 1;
      }
      PosBound(m, h.chunks, h.heads, k, cur);
      PassGap(m, h.chunks, h.heads, h.head, h.list, freeBlocks, k);
      TallyGap(m, h.chunks, h.heads, used, k, liveBlocks, liveWords);
      TallyGap(m, h.chunks, h.heads, scraps, k, fragments, scrapWords);
      k := k + 1;
    }
  }

  lemma Neighbours(m: Memory, heads: set<int>, known: set<int>, p: int, prev: int, cur: int)
    requires Coalesced(m, heads, p) && Small(m, heads, known) && cur in heads && 0 <= cur < |m| && m[cur].Hdr?
    requires prev != -1 ==> EndsAt(m, heads, prev, cur)
    ensures Reusable(m, cur) ==> prev == -1 || !Reusable(m, prev) || cur == p
    ensures Reusable(m, cur) ==> BlockEnd(m, cur) !in heads || !Reusable(m, BlockEnd(m, cur)) || BlockEnd(m, cur) == p
    ensures m[cur].size == 0 ==> m[cur].color == White
  {
    hide BlockEnd;
    assert prev != -1 ==> Touching(m, heads, prev, cur);
    assert BlockEnd(m, cur) in heads ==> Touching(m, heads, cur, BlockEnd(m, cur));
  }
}
