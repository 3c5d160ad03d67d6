/** Sweeping one white block: it is merged with its neighbours and given to the free list. */
module Sweeping {
  import opened Words
  import opened Tiling
  import opened BlockLayout
  import opened LinkedWords
  import opened Marking
  import opened MarkStack
  import opened FreeBlocks
  import opened Coalescing
  import opened Carving

  /** A position inside, or at the end of, the `k`th chunk. */
  ghost predicate PosOk(chunks: seq<Chunk>, heads: set<int>, k: nat, p: int) {
    k < |chunks| && (p == chunks[k].End() || (p in heads && InChunk(chunks[k], p)))
  }

  lemma PosNext(m: Memory, chunks: seq<Chunk>, heads: set<int>, k: nat, p: int)
    requires Layout(m, chunks, heads) && PosOk(chunks, heads, k, p) && p != chunks[k].End()
    ensures p in heads && 0 <= p < |m| && m[p].Hdr? && p < BlockEnd(m, p) <= chunks[k].End() <= |m| && PosOk(chunks, heads, k, BlockEnd(m, p))
  {
    hide Layout, EndsWell;
    GetBlock(m, chunks, heads, p);
    PosNextChunk(m, chunks, heads, k, p);
  }

  lemma PosNextChunk(m: Memory, chunks: seq<Chunk>, heads: set<int>, k: nat, p: int)
    requires ChunksOk(chunks, |m|) && BlockOk(m, chunks, p) && EndsWell(m, chunks, heads, p) && k < |chunks| && InChunk(chunks[k], p)
    ensures p < BlockEnd(m, p) <= chunks[k].End() && (BlockEnd(m, p) == chunks[k].End() || BlockEnd(m, p) in heads)
  {
    var j :| BlockInChunk(m, chunks, p, j);
    assert j == k;
  }

  /** During a sweep: nothing is gray; what lies ahead of the sweep and can still be
      reached is black; what lies behind has been swept. */
  ghost predicate SweptTo(m: Memory, heads: set<int>, known: set<int>, p: int) {
    && NoGray(m, heads)
    && (forall h :: h in known && h >= p ==> HasColor(m, h, Black))
    && (forall h :: h in heads && h < p ==> HasColor(m, h, White) || HasColor(m, h, Blue))
  }

  /** Between cycles a block is either allocated and white, or free. */
  ghost predicate AllSwept(m: Memory, heads: set<int>) {
    forall h :: h in heads ==> HasColor(m, h, White) || HasColor(m, h, Blue)
  }

  /** The block `x`, which ends at `adj`, has been swept but is not on the free list yet. */
  ghost predicate Held(m: Memory, chunks: seq<Chunk>, heads: set<int>, roots: seq<Word>, known: set<int>, head: int, list: seq<int>, at: nat, k: nat, x: int, adj: int) {
    && HeapOk(m, chunks, heads, roots, known)
    && FreeListOk(m, chunks, heads, head, list, x)
    && MergePoint(list, at, x) && MergePoint(list, at, adj)
    && x in heads && x !in known && BlockEnd(m, x) == adj
    && SweptTo(m, heads, known, adj)
    && PosOk(chunks, heads, k, adj)
  }

  /** The merge is over: the sweep may go on at `adj`. */
  ghost predicate Swept(m: Memory, chunks: seq<Chunk>, heads: set<int>, roots: seq<Word>, known: set<int>, head: int, list: seq<int>, at: nat, k: nat, adj: int) {
    && HeapOk(m, chunks, heads, roots, known)
    && FreeListOk(m, chunks, heads, head, list, NONE)
    && MergePoint(list, at, adj)
    && SweptTo(m, heads, known, adj)
    && PosOk(chunks, heads, k, adj)
  }

  lemma SweptHeap(m: Memory, chunks: seq<Chunk>, heads: set<int>, roots: seq<Word>, known: set<int>)
    requires HeapOk(m, chunks, heads, roots, known)
    ensures Layout(m, chunks, heads) && (forall h :: h in known ==> IsBlock(m, heads, h))
  {
  }

  /** A block about to be swept is taken in hand. */
  lemma TakeBlock(m: Memory, chunks: seq<Chunk>, heads: set<int>, roots: seq<Word>, known: set<int>, head: int, list: seq<int>, at: nat, k: nat, p: int)
    requires HeapOk(m, chunks, heads, roots, known) && FreeListOk(m, chunks, heads, head, list, NONE)
    requires MergePoint(list, at, p) && SweptTo(m, heads, known, p) && PosOk(chunks, heads, k, p)
    requires p in heads && HasColor(m, p, White) && p != chunks[k].End()
    ensures Held(m, chunks, heads, roots, known, head, list, at, k, p, BlockEnd(m, p))
  {
    hide Layout, Links, Ascending, BlockEnd, GoodWord, FieldIn;
    PosNext(m, chunks, heads, k, p);
    ExceptWhite(m, chunks, heads, head, list, p);
    forall h | h in heads && h < BlockEnd(m, p) ensures h <= p {
      if h > p {
        NoHeaderInside(m, chunks, heads, p, h);
      }
    }
    forall i | at <= i < |list| ensures list[i] - 1 >= BlockEnd(m, p) {
      assert list[i] in list;
      assert list[i] - 1 != p;
    }
    HeadsInMemory(m, chunks, heads);
  }

  /** Headers other than that of `x` are as they were, but some may be gone. */
  lemma SweptStep(m: Memory, m': Memory, heads: set<int>, heads': set<int>, known: set<int>, x: int, adj: int)
    requires SweptTo(m, heads, known, adj) && heads' <= heads
    requires forall h :: h in heads' && h != x ==> (forall c :: HasColor(m', h, c) <==> HasColor(m, h, c))
    requires HasColor(m', x, White) || HasColor(m', x, Blue)
    requires x < adj && forall h :: h in known ==> h in heads'
    ensures SweptTo(m', heads', known, adj)
  {
  }

  /** Step one: the block `h` is made part of the fragment `f` just before it. */
  lemma HeldFragment(m: Memory, chunks: seq<Chunk>, heads: set<int>, roots: seq<Word>, known: set<int>, head: int, list: seq<int>, at: nat, k: nat, f: int, h: int, adj: int)
    requires Held(m, chunks, heads, roots, known, head, list, at, k, h, adj)
    requires HasColor(m, h, White) && f in heads && h == f + 1 && HasColor(m, f, White) && m[f].size == 0 && f !in known
    ensures 0 <= f < |m| && m[h].Hdr?
    ensures var m' := m[f := Hdr(m[h].size + 1, 0, White)];
      && Held(m', chunks, heads - {h}, roots, known, head, list, at, k, f, adj)
      && BlocksUntouched(m, m', known)
  {
    hide Layout, FreeListOk, BlockEnd, GoodWord, HeapOk, SweptTo;
    SweptHeap(m, chunks, heads, roots, known);
    HeadsInMemory(m, chunks, heads);
    NoMinusOne(m, chunks, heads);
    UnexceptWhite(m, chunks, heads, head, list, h);
    MergeFragment(m, chunks, heads, head, list, f, h);
    var m' := m[f := Hdr(m[h].size + 1, 0, White)];
    ExceptWhite(m', chunks, heads - {h}, head, list, f);
    HeaderUntouched(m, m', chunks, heads, known, f);
    HeapUntouched(m, m', chunks, heads, heads - {h}, roots, known);
    EndOf(m, h);
    SweptStep(m, m', heads, heads - {h}, known, f, adj);
    forall i | 0 <= i < at ensures list[i] - 1 < f {
      assert list[i] in list;
      WhiteNotListed(m, chunks, heads, head, list, f);
    }
  }

  lemma NoMinusOne(m: Memory, chunks: seq<Chunk>, heads: set<int>)
    requires Layout(m, chunks, heads)
    ensures -1 !in heads
  {
    hide BlockOk, EndsWell;
    HeadsInMemory(m, chunks, heads);
  }

  lemma WhiteNotListed(m: Memory, chunks: seq<Chunk>, heads: set<int>, head: int, list: seq<int>, f: int)
    requires FreeListOk(m, chunks, heads, head, list, NONE) && HasColor(m, f, White)
    ensures f + 1 !in list
  {
    hide Links;
  }

  /** Writing the header of a block leaves the other blocks alone. */
  lemma HeaderUntouched(m: Memory, m': Memory, chunks: seq<Chunk>, heads: set<int>, known: set<int>, x: int)
    requires Layout(m, chunks, heads) && x in heads && x !in known && (forall h :: h in known ==> h in heads)
    requires |m'| == |m| && forall a :: 0 <= a < |m| && a != x ==> m'[a] == m[a]
    ensures BlocksUntouched(m, m', known)
  {
    hide Layout, BlockEnd;
    forall h, a | h in known && h <= a < BlockEnd(m, h) && 0 <= a < |m|
      ensures m'[a] == m[a]
    {
      BlockInMemory(m, chunks, heads, x);
      if a == x {
        OneOwner(m, chunks, heads, h, x, a);
      }
    }
  }

  /** Step two: the block `x` absorbs the free block that follows it. */
  lemma HeldNext(m: Memory, chunks: seq<Chunk>, heads: set<int>, roots: seq<Word>, known: set<int>, head: int, list: seq<int>, at: nat, k: nat, x: int, adj: int)
    requires Held(m, chunks, heads, roots, known, head, list, at, k, x, adj) && HasColor(m, x, White)
    requires at < |list| && adj == list[at] - 1
    ensures CanMergeNext(m, Node(head, list, at), list[at], x) && 0 <= list[at] - 1 < |m|
    ensures var m' := NextMerged(m, Node(head, list, at), list[at], x);
      && Held(m', chunks, heads - {adj}, roots, known, head, list[..at] + list[at + 1..], at, k, x, BlockEnd(m, adj))
      && BlocksUntouched(m, m', known)
  {
    hide Layout, FreeListOk, BlockEnd, GoodWord, HeapOk, SweptTo, NextMerged;
    SweptHeap(m, chunks, heads, roots, known);
    HeadsInMemory(m, chunks, heads);
    NoMinusOne(m, chunks, heads);
    UnexceptWhite(m, chunks, heads, head, list, x);
    MergeNext(m, chunks, heads, head, list, at, x);
    var m' := NextMerged(m, Node(head, list, at), list[at], x);
    var e, rest, heads' := BlockEnd(m, adj), list[..at] + list[at + 1..], heads - {adj};
    NextWords(m, chunks, heads, known, head, list, at, x);
    HeapUntouched(m, m', chunks, heads, heads', roots, known);
    HeldNextSweep(m, m', chunks, heads, roots, known, head, list, at, k, x, adj);
  }

  lemma NextWords(m: Memory, chunks: seq<Chunk>, heads: set<int>, known: set<int>, head: int, list: seq<int>, at: nat, x: int)
    requires Layout(m, chunks, heads) && FreeListOk(m, chunks, heads, head, list, NONE) && at < |list|
    requires x in heads && x !in known && (forall h :: h in known ==> IsBlock(m, heads, h))
    requires CanMergeNext(m, Node(head, list, at), list[at], x)
    ensures var m' := NextMerged(m, Node(head, list, at), list[at], x);
      && |m'| == |m| && HasColor(m', x, Blue)
      && (forall h :: h in heads && h != x ==> 0 <= h < |m| && m'[h] == m[h])
      && BlocksUntouched(m, m', known)
    ensures list[at] - 1 in heads && HasColor(m, list[at] - 1, Blue)
  {
    hide Layout, FreeListOk, BlockEnd;
    HeadsInMemory(m, chunks, heads);
    PrevFacts(m, chunks, heads, head, list, NONE, at);
    assert list[at] in list;
    NodeFacts(m, chunks, heads, head, list, NONE, list[at]);
    var m' := NextMerged(m, Node(head, list, at), list[at], x);
    forall h, a | h in known && h <= a < BlockEnd(m, h) && 0 <= a < |m|
      ensures m'[a] == m[a]
    {
      LinkNotInBlock(m, chunks, heads, head, list, at, h, a);
      BlockInMemory(m, chunks, heads, x);
      if a == x {
        OneOwner(m, chunks, heads, h, x, a);
      }
    }
  }

  lemma HeldNextSweep(m: Memory, m': Memory, chunks: seq<Chunk>, heads: set<int>, roots: seq<Word>, known: set<int>, head: int, list: seq<int>, at: nat, k: nat, x: int, adj: int)
    requires Held(m, chunks, heads, roots, known, head, list, at, k, x, adj) && FreeListOk(m, chunks, heads, head, list, NONE)
    requires at < |list| && adj == list[at] - 1 && x < adj
    requires |m'| == |m| && HasColor(m', x, Blue) && (forall h :: h in heads && h != x ==> 0 <= h < |m| && m'[h] == m[h])
    requires HasColor(m, adj, Blue) && adj in heads
    ensures var e, rest, heads' := BlockEnd(m, adj), list[..at] + list[at + 1..], heads - {adj};
      && SweptTo(m', heads', known, e) && PosOk(chunks, heads', k, e)
      && MergePoint(rest, at, x) && MergePoint(rest, at, e)
  {
    hide Layout, FreeListOk, BlockEnd, GoodWord, FieldIn;
    SweptHeap(m, chunks, heads, roots, known);
    NotAtEnd(m, chunks, heads, k, adj);
    PosNext(m, chunks, heads, k, adj);
    forall h | h in heads && adj < h ensures BlockEnd(m, adj) <= h {
      Apart(m, chunks, heads, adj, h);
    }
    NextMergePoint(m, chunks, heads, head, list, at, x, adj);
  }

  lemma Apart(m: Memory, chunks: seq<Chunk>, heads: set<int>, h: int, h': int)
    requires Layout(m, chunks, heads) && h in heads && h' in heads && h < h'
    ensures BlockEnd(m, h) <= h'
  {
    hide BlockOk, EndsWell, BlockEnd;
  }

  lemma NotAtEnd(m: Memory, chunks: seq<Chunk>, heads: set<int>, k: nat, p: int)
    requires Layout(m, chunks, heads) && k < |chunks| && p in heads
    ensures p != chunks[k].End()
  {
    hide Layout, EndsWell;
    GetBlock(m, chunks, heads, p);
    var j :| BlockInChunk(m, chunks, p, j);
    if k < j {
      assert chunks[k].End() < chunks[j].start;
    }
  }

  lemma NextMergePoint(m: Memory, chunks: seq<Chunk>, heads: set<int>, head: int, list: seq<int>, at: nat, x: int, adj: int)
    requires Layout(m, chunks, heads) && FreeListOk(m, chunks, heads, head, list, NONE)
    requires at < |list| && adj == list[at] - 1 && MergePoint(list, at, x) && MergePoint(list, at, adj) && x < adj
    requires forall h :: h in heads && adj < h ==> BlockEnd(m, adj) <= h
    ensures adj in heads && adj < BlockEnd(m, adj)
    ensures var rest := list[..at] + list[at + 1..];
      MergePoint(rest, at, x) && MergePoint(rest, at, BlockEnd(m, adj))
  {
    hide Layout, Links, BlockEnd;
    assert list[at] in list;
    NodeFacts(m, chunks, heads, head, list, NONE, list[at]);
    BlockInMemory(m, chunks, heads, adj);
    var rest := list[..at] + list[at + 1..];
    forall i | 0 <= i < |rest|
      ensures i < at ==> rest[i] - 1 < x
      ensures i >= at ==> rest[i] - 1 >= BlockEnd(m, adj)
    {
      if i < at {
        assert rest[i] == list[i];
      } else {
        assert rest[i] == list[i + 1] && list[i + 1] in list;
      }
    }
  }

  /** Step three, first case: the free block before `x` absorbs it. */
  lemma HeldPrev(m: Memory, chunks: seq<Chunk>, heads: set<int>, roots: seq<Word>, known: set<int>, head: int, list: seq<int>, at: nat, k: nat, x: int, adj: int, b: int)
    requires Held(m, chunks, heads, roots, known, head, list, at, k, x, adj)
    requires b in list && BlockEnd(m, b - 1) == x
    ensures 1 <= b <= |m| && m[b - 1].Hdr? && 0 <= x < |m| && m[x].Hdr?
    ensures var m' := m[b - 1 := Hdr(m[b - 1].size + m[x].size + 1, 0, Blue)];
      && Swept(m', chunks, heads - {x}, roots, known, head, list, at, k, adj)
      && BlocksUntouched(m, m', known)
  {
    hide Layout, FreeListOk, BlockEnd, GoodWord, HeapOk, SweptTo, FieldIn;
    SweptHeap(m, chunks, heads, roots, known);
    HeadsInMemory(m, chunks, heads);
    MergePrev(m, chunks, heads, head, list, b, x);
    NodeFacts(m, chunks, heads, head, list, x, b);
    var m' := m[b - 1 := Hdr(m[b - 1].size + m[x].size + 1, 0, Blue)];
    HeaderUntouched(m, m', chunks, heads, known, b - 1);
    HeapUntouched(m, m', chunks, heads, heads - {x}, roots, known);
    BlockInMemory(m, chunks, heads, b - 1);
    BlockInMemory(m, chunks, heads, x);
    SweptStep(m, m', heads, heads - {x}, known, b - 1, adj);
  }

  /** Step three, second case: `x` is put on the list. */
  lemma HeldInsert(m: Memory, chunks: seq<Chunk>, heads: set<int>, roots: seq<Word>, known: set<int>, head: int, list: seq<int>, at: nat, k: nat, x: int, adj: int)
    requires Held(m, chunks, heads, roots, known, head, list, at, k, x, adj)
    requires 0 <= x < |m| && m[x].Hdr? && m[x].size != 0
    ensures x + 1 < |m| && at <= |list| && 0 <= Node(head, list, at) < |m|
    ensures var m' := m[x := m[x].(color := Blue)][x + 1 := if at < |list| then Ptr(list[at]) else Ptr(0)][Node(head, list, at) := Ptr(x + 1)];
      && Swept(m', chunks, heads, roots, known, head, list[..at] + [x + 1] + list[at..], at + 1, k, adj)
      && BlocksUntouched(m, m', known)
  {
    hide Layout, FreeListOk, BlockEnd, GoodWord, HeapOk, SweptTo, FieldIn;
    SweptHeap(m, chunks, heads, roots, known);
    HeadsInMemory(m, chunks, heads);
    InsertBlock(m, chunks, heads, head, list, at, x);
    var m' := m[x := m[x].(color := Blue)][x + 1 := if at < |list| then Ptr(list[at]) else Ptr(0)][Node(head, list, at) := Ptr(x + 1)];
    InsertWords(m, m', chunks, heads, known, head, list, at, x);
    HeapUntouched(m, m', chunks, heads, heads, roots, known);
    BlockInMemory(m, chunks, heads, x);
    SweptStep(m, m', heads, heads, known, x, adj);
    InsertedMerge(list, at, x, adj);
  }

  lemma InsertedMerge(list: seq<int>, at: nat, x: int, adj: int)
    requires MergePoint(list, at, x) && MergePoint(list, at, adj) && x < adj
    ensures MergePoint(list[..at] + [x + 1] + list[at..], at + 1, adj)
  {
    var c := list[..at] + [x + 1] + list[at..];
    forall i | 0 <= i < |c|
      ensures i < at + 1 ==> c[i] - 1 < adj
      ensures i >= at + 1 ==> c[i] - 1 >= adj
    {
      if i < at {
        assert c[i] == list[i];
      } else if i > at {
        assert c[i] == list[i - 1];
      }
    }
  }

  lemma InsertWords(m: Memory, m': Memory, chunks: seq<Chunk>, heads: set<int>, known: set<int>, head: int, list: seq<int>, at: nat, x: int)
    requires Layout(m, chunks, heads) && FreeListOk(m, chunks, heads, head, list, x) && at <= |list|
    requires x in heads && x !in known && (forall h :: h in known ==> IsBlock(m, heads, h))
    requires 0 <= x && x + 1 < |m| && m[x].Hdr? && m[x].size != 0 && 0 <= Node(head, list, at) < |m|
    requires m' == m[x := m[x].(color := Blue)][x + 1 := if at < |list| then Ptr(list[at]) else Ptr(0)][Node(head, list, at) := Ptr(x + 1)]
    ensures HasColor(m', x, Blue) && (forall h :: h in heads && h != x ==> 0 <= h < |m| && m'[h] == m[h])
    ensures BlocksUntouched(m, m', known)
  {
    hide Layout, FreeListOk, BlockEnd;
    HeadsInMemory(m, chunks, heads);
    PrevFacts(m, chunks, heads, head, list, x, at);
    EndOf(m, x);
    NoHeaderInside(m, chunks, heads, x, x + 1);
    forall h, a | h in known && h <= a < BlockEnd(m, h) && 0 <= a < |m|
      ensures m'[a] == m[a]
    {
      HeldLink(m, chunks, heads, head, list, x, at, h, a);
      if a == x || a == x + 1 {
        OneOwner(m, chunks, heads, h, x, a);
      }
    }
  }

  lemma HeldLink(m: Memory, chunks: seq<Chunk>, heads: set<int>, head: int, list: seq<int>, x: int, j: nat, h: int, a: int)
    requires Layout(m, chunks, heads) && FreeListOk(m, chunks, heads, head, list, x) && j <= |list|
    requires IsBlock(m, heads, h) && h <= a < BlockEnd(m, h)
    ensures a != Node(head, list, j)
  {
    hide Layout, Links, Ascending, BlockEnd;
    WordInHeap(m, chunks, heads, h, a);
    if j > 0 {
      NodeFacts(m, chunks, heads, head, list, x, list[j - 1]);
    }
  }

  /** Step three, last case: an empty block stays white. */
  lemma HeldAlone(m: Memory, chunks: seq<Chunk>, heads: set<int>, roots: seq<Word>, known: set<int>, head: int, list: seq<int>, at: nat, k: nat, x: int, adj: int)
    requires Held(m, chunks, heads, roots, known, head, list, at, k, x, adj) && HasColor(m, x, White)
    ensures Swept(m, chunks, heads, roots, known, head, list, at, k, adj)
  {
    hide Layout, FreeListOk, BlockEnd, GoodWord, SweptTo, FieldIn;
    SweptHeap(m, chunks, heads, roots, known);
    NoMinusOne(m, chunks, heads);
    UnexceptWhite(m, chunks, heads, head, list, x);
  }

  /** The sweep passes a free block, which becomes the last one before the sweep. */
  lemma PassFree(m: Memory, chunks: seq<Chunk>, heads: set<int>, head: int, list: seq<int>, known: set<int>, at: nat, k: nat, p: int)
    requires Layout(m, chunks, heads) && FreeListOk(m, chunks, heads, head, list, NONE)
    requires MergePoint(list, at, p) && SweptTo(m, heads, known, p) && PosOk(chunks, heads, k, p)
    requires p in heads && HasColor(m, p, Blue) && p != chunks[k].End()
    ensures at < |list| && list[at] == p + 1
    ensures MergePoint(list, at + 1, BlockEnd(m, p)) && SweptTo(m, heads, known, BlockEnd(m, p)) && PosOk(chunks, heads, k, BlockEnd(m, p))
  {
    hide Layout, Links, BlockEnd;
    PosNext(m, chunks, heads, k, p);
    HeadsInMemory(m, chunks, heads);
    var i :| 0 <= i < |list| && list[i] == p + 1;
    assert list[at] in list;
    assert i == at by {
      assert list[i] - 1 >= p;
      assert list[at] - 1 >= p;
    }
    forall h | h in heads && h < BlockEnd(m, p) ensures h <= p {
      if h > p {
        NoHeaderInside(m, chunks, heads, p, h);
      }
    }
    assert forall j :: at < j < |list| ==> list[j] in list;
  }

  /** The sweep passes an allocated block, whose colour it changes back to white. */
  lemma PassBlack(m: Memory, m': Memory, chunks: seq<Chunk>, heads: set<int>, roots: seq<Word>, known: set<int>, head: int, list: seq<int>, at: nat, k: nat, p: int)
    requires HeapOk(m, chunks, heads, roots, known) && FreeListOk(m, chunks, heads, head, list, NONE)
    requires MergePoint(list, at, p) && SweptTo(m, heads, known, p) && PosOk(chunks, heads, k, p)
    requires p in heads && HasColor(m, p, Black) && p != chunks[k].End() && Recolored(m, m', p, White)
    ensures Swept(m', chunks, heads, roots, known, head, list, at, k, BlockEnd(m, p)) && p < BlockEnd(m, p)
  {
    hide Layout, Links, Ascending, BlockEnd, GoodWord, FieldIn;
    SweptHeap(m, chunks, heads, roots, known);
    PosNext(m, chunks, heads, k, p);
    RecolorHeapOk(m, m', chunks, heads, roots, known, p, White);
    NotANode(m, chunks, heads, head, list, NONE, p);
    ListFrame(m, m', chunks, heads, head, list, NONE);
    HeadsInMemory(m, chunks, heads);
    forall h | h in heads && h < BlockEnd(m, p) ensures h <= p {
      if h > p {
        NoHeaderInside(m, chunks, heads, p, h);
      }
    }
    forall i | at <= i < |list| ensures list[i] - 1 >= BlockEnd(m, p) {
      assert list[i] in list;
      assert list[i] - 1 != p;
    }
  }

  /** The sweep moves on to the next chunk. */
  lemma PassChunk(m: Memory, chunks: seq<Chunk>, heads: set<int>, head: int, list: seq<int>, known: set<int>, at: nat, k: nat)
    requires Layout(m, chunks, heads) && FreeListOk(m, chunks, heads, head, list, NONE) && k < |chunks|
    requires MergePoint(list, at, chunks[k].End()) && SweptTo(m, heads, known, chunks[k].End())
    ensures k + 1 < |chunks| ==> chunks[k].End() < chunks[k + 1].start < chunks[k + 1].End() <= |m|
    ensures k + 1 < |chunks| ==> PosOk(chunks, heads, k + 1, chunks[k + 1].start)
    ensures k + 1 < |chunks| ==> MergePoint(list, at, chunks[k + 1].start) && SweptTo(m, heads, known, chunks[k + 1].start)
    ensures k + 1 == |chunks| ==> forall h :: h in heads ==> HasColor(m, h, White) || HasColor(m, h, Blue)
  {
    hide BlockOk, EndsWell, Links, Ascending;
    forall h | h in heads && h >= chunks[k].End() ensures k + 1 < |chunks| && h >= chunks[k + 1].start {
      HeadBeyond(m, chunks, heads, k, h);
    }
    assert forall i :: at <= i < |list| ==> list[i] in list;
    if k + 1 < |chunks| {
      assert InChunk(chunks[k + 1], chunks[k + 1].start);
    }
  }

  /** Nothing of a block has changed but, perhaps, its colour. */
  ghost predicate BlockSame(m: Memory, m': Memory, h: int) {
    && |m'| == |m|
    && (0 <= h < |m| && m[h].Hdr? ==> m'[h].Hdr? && m'[h].size == m[h].size && m'[h].tag == m[h].tag)
    && (forall a :: h < a < BlockEnd(m, h) && 0 <= a < |m| ==> m'[a] == m[a])
  }

  ghost predicate BlocksSame(m: Memory, m': Memory, blocks: set<int>) {
    forall h :: h in blocks ==> BlockSame(m, m', h)
  }

  lemma SameTrans(m: Memory, m1: Memory, m2: Memory, known: set<int>)
    requires BlocksSame(m, m1, known) && BlocksSame(m1, m2, known)
    requires forall h :: h in known ==> 0 <= h < |m| && m[h].Hdr?
    ensures BlocksSame(m, m2, known)
  {
    forall h | h in known ensures BlockSame(m, m2, h) {
      assert BlockSame(m, m1, h) && BlockSame(m1, m2, h);
    }
  }

  lemma UntouchedSame(m: Memory, m': Memory, known: set<int>)
    requires BlocksUntouched(m, m', known) && forall h :: h in known ==> 0 <= h < |m| && m[h].Hdr?
    ensures BlocksSame(m, m', known)
  {
    forall h | h in known ensures BlockSame(m, m', h) {
      assert Untouched(m, m', h);
    }
  }

  lemma RecolorSame(m: Memory, m': Memory, chunks: seq<Chunk>, heads: set<int>, known: set<int>, p: int, c: Color)
    requires Layout(m, chunks, heads) && p in heads && Recolored(m, m', p, c) && forall h :: h in known ==> h in heads
    ensures BlocksSame(m, m', known)
  {
    hide Layout, BlockEnd;
    forall h | h in known ensures BlockSame(m, m', h) {
      forall a | h < a < BlockEnd(m, h) && 0 <= a < |m| ensures m'[a] == m[a] {
        NoHeaderInside(m, chunks, heads, h, a);
      }
    }
  }
}
