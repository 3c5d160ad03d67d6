/** Putting a new free block on the free list, at the place its address demands. */
module Extension {
  import opened Words
  import opened Tiling
  import opened BlockLayout
  import opened LinkedWords
  import opened Marking
  import opened FreeBlocks
  import opened Coalescing
  import opened Carving
  import opened Sweeping

  /** Where a block belongs in the list. */
  ghost function AddIndex(list: seq<int>, bp: int): (j: nat)
    ensures j <= |list| && (forall i :: 0 <= i < j ==> list[i] < bp) && (j < |list| ==> list[j] >= bp)
  {
    if list == [] || list[0] >= bp then 0 else 1 + AddIndex(list[1..], bp)
  }

  function Insert(list: seq<int>, j: nat, bp: int): (r: seq<int>)
    requires j <= |list|
  {
    list[..j] + [bp] + list[j..]
  }

  /** `p` is the last free block below the sweep, or the sentinel if there is none. */
  ghost predicate IsMergePointer(head: int, list: seq<int>, sweepHp: int, p: int) {
    exists at: nat {:trigger MergePoint(list, at, sweepHp)} :: MergePoint(list, at, sweepHp) && p == Node(head, list, at)
  }

  lemma Added(list: seq<int>, j: nat, bp: int)
    requires j <= |list|
    ensures bp in Insert(list, j, bp) && multiset(Insert(list, j, bp)) == multiset(list) + multiset{bp}
  {
    assert Insert(list, j, bp)[j] == bp;
    assert list == list[..j] + list[j..];
  }

  lemma AddPoint(list: seq<int>, bp: int, j: nat)
    requires Ascending(list) && j == AddIndex(list, bp)
    ensures MergePoint(list, j, bp - 1)
  {
    forall i | j <= i < |list| ensures list[i] >= list[j] { }
  }

  lemma AddFacts(m: Memory, chunks: seq<Chunk>, heads: set<int>, head: int, list: seq<int>, bp: int, j: nat)
    requires Layout(m, chunks, heads) && FreeListOk(m, chunks, heads, head, list, bp - 1) && j == AddIndex(list, bp)
    requires FreeBlock(m, heads, bp)
    ensures bp !in list && Ascending(list) && head !in list && head != bp
    ensures 1 <= bp < |m| && 0 <= Node(head, list, j) < |m| && Node(head, list, j) != bp
    ensures 0 <= Node(head, list, |list|) < |m|
    ensures var m' := m[bp := if j < |list| then Ptr(list[j]) else Ptr(0)][Node(head, list, j) := Ptr(bp)];
      FreeListOk(m', chunks, heads, head, Insert(list, j, bp), NONE)
  {
    hide Layout, Links, BlockEnd, SentinelOk, Ascending, MergePoint, FreeListOk;
    OutsideList(m, chunks, heads, head, list, bp - 1);
    PrevFacts(m, chunks, heads, head, list, bp - 1, j);
    PrevFacts(m, chunks, heads, head, list, bp - 1, |list|);
    ListSorted(m, chunks, heads, head, list, bp - 1);
    AddPoint(list, bp, j);
    assert m[bp - 1].(color := Blue) == m[bp - 1];
    assert m[bp - 1 := m[bp - 1].(color := Blue)] == m;
    InsertBlock(m, chunks, heads, head, list, j, bp - 1);
    assert j > 0 ==> Node(head, list, j) in list;
  }

  lemma ListSorted(m: Memory, chunks: seq<Chunk>, heads: set<int>, head: int, list: seq<int>, except: int)
    requires FreeListOk(m, chunks, heads, head, list, except)
    ensures Ascending(list)
  {
  }

  lemma AddWords(m: Memory, chunks: seq<Chunk>, heads: set<int>, head: int, list: seq<int>, bp: int, j: nat)
    requires Layout(m, chunks, heads) && FreeListOk(m, chunks, heads, head, list, bp - 1) && j <= |list|
    requires FreeBlock(m, heads, bp)
    ensures 1 <= bp < |m| && 0 <= Node(head, list, j) < |m|
    ensures var m' := m[bp := if j < |list| then Ptr(list[j]) else Ptr(0)][Node(head, list, j) := Ptr(bp)];
      AllocatedUntouched(m, m', heads)
  {
    hide Layout, Links, BlockEnd, Ascending;
    var p := Node(head, list, j);
    OutsideList(m, chunks, heads, head, list, bp - 1);
    PrevFacts(m, chunks, heads, head, list, bp - 1, j);
    BlockInMemory(m, chunks, heads, bp - 1);
    forall h | IsBlock(m, heads, h)
      ensures !(h <= bp < BlockEnd(m, h)) && !(h <= p < BlockEnd(m, h))
    {
      if h <= bp < BlockEnd(m, h) {
        OneOwner(m, chunks, heads, h, bp - 1, bp);
      }
      if h <= p < BlockEnd(m, h) {
        WordInHeap(m, chunks, heads, h, p);
        NodeFacts(m, chunks, heads, head, list, bp - 1, p);
      }
    }
  }

  lemma AddWalk(m: Memory, chunks: seq<Chunk>, heads: set<int>, head: int, list: seq<int>, bp: int, i: nat)
    requires Layout(m, chunks, heads) && FreeListOk(m, chunks, heads, head, list, bp - 1) && i <= |list|
    ensures 0 <= Node(head, list, i) < |m| && m[Node(head, list, i)] == Ptr(if i < |list| then list[i] else 0)
    ensures i > 0 ==> list[i - 1] > 0
  {
    hide Layout, Links, Ascending;
    PrevFacts(m, chunks, heads, head, list, bp - 1, i);
    if i > 0 {
      NodeFacts(m, chunks, heads, head, list, bp - 1, list[i - 1]);
    }
  }

  lemma TailIndex(m: Memory, head: int, list: seq<int>, bp: int, j: nat)
    requires Ascending(list) && j == AddIndex(list, bp) && bp > Node(head, list, |list|)
    ensures j == |list|
  {
  }

  /** At the end of the list the merge pointer stays where it is. */
  lemma TailMerge(head: int, list: seq<int>, bp: int, at: nat, sweepHp: int, j: nat)
    requires MergePoint(list, at, sweepHp) && Ascending(list) && j == |list| && head != bp && bp !in list && head !in list
    requires bp > Node(head, list, |list|) && j == AddIndex(list, bp)
    ensures IsMergePointer(head, Insert(list, j, bp), sweepHp, Node(head, list, at)) <==> bp > sweepHp
  {
    var c := Insert(list, j, bp);
    assert c == list + [bp];
    if bp > sweepHp {
      assert MergePoint(c, at, sweepHp);
    } else {
      assert c[|list|] == bp;
      assert forall n: nat :: MergePoint(c, n, sweepHp) ==> n == |c|;
      assert at == 0 || list[at - 1] in list;
    }
  }

  lemma NodesDiffer(head: int, list: seq<int>, i: nat, j: nat)
    requires Ascending(list) && head !in list && i <= |list| && j <= |list| && Node(head, list, i) == Node(head, list, j)
    ensures i == j
  {
    assert i > 0 ==> list[i - 1] in list;
    assert j > 0 ==> list[j - 1] in list;
  }

  /** Elsewhere it moves on to the new block when that is needed. */
  lemma HereMerge(head: int, list: seq<int>, bp: int, at: nat, sweepHp: int, j: nat)
    requires MergePoint(list, at, sweepHp) && Ascending(list) && j == AddIndex(list, bp) && bp !in list && head !in list
    ensures IsMergePointer(head, Insert(list, j, bp), sweepHp, if Node(head, list, j) == Node(head, list, at) && bp <= sweepHp then bp else Node(head, list, at))
  {
    hide AddIndex, Ascending;
    var c := Insert(list, j, bp);
    var n: nat := if bp <= sweepHp then at + 1 else at;
    InsertedPoint(list, bp, at, sweepHp, j);
    assert MergePoint(c, n, sweepHp);
    if Node(head, list, j) == Node(head, list, at) {
      NodesDiffer(head, list, j, at);
    }
    assert n > 0 ==> c[n - 1] == if n - 1 < j then list[n - 1] else if n - 1 == j then bp else list[n - 2];
  }

  lemma InsertedPoint(list: seq<int>, bp: int, at: nat, sweepHp: int, j: nat)
    requires MergePoint(list, at, sweepHp) && Ascending(list) && j == AddIndex(list, bp) && bp !in list
    ensures MergePoint(Insert(list, j, bp), if bp <= sweepHp then at + 1 else at, sweepHp)
    ensures bp <= sweepHp ==> j <= at
    ensures bp > sweepHp ==> at <= j
  {
    PlaceAndSweep(list, bp, at, sweepHp, j);
    hide Ascending, AddIndex;
    var c := Insert(list, j, bp);
    forall i | 0 <= i < |c|
      ensures c[i] == (if i < j then list[i] else if i == j then bp else list[i - 1])
    { }
  }

  lemma PlaceAndSweep(list: seq<int>, bp: int, at: nat, sweepHp: int, j: nat)
    requires MergePoint(list, at, sweepHp) && Ascending(list) && j == AddIndex(list, bp) && bp !in list
    ensures bp <= sweepHp ==> j <= at
    ensures bp > sweepHp ==> at <= j
    ensures j <= |list|
  {
    assert at < |list| ==> list[at] - 1 >= sweepHp;
  }

  /** A heap of three chunks. The first is a free block, and on the list; the second is a free
      block about to be added; the third, an allocated block, is about to be swept. */
  function ThreeChunks(): seq<Chunk> {
    [Chunk(1, 5), Chunk(7, 5), Chunk(13, 5)]
  }

  function ThreeBlocks(): Memory {
    var free, w := Hdr(4, 0, Blue), Int(0);
    [w, free, Ptr(0), w, w, w, w, free, w, w, w, w, w, Hdr(4, 0, Black), w, w, w, w, w, Hdr(0, 0, Blue), Ptr(2)]
  }

  lemma WholeChunk(m: Memory, chunks: seq<Chunk>, heads: set<int>, k: nat)
    requires ChunksOk(chunks, |m|) && k < |chunks|
    requires var h := chunks[k].start; m[h].Hdr? && m[h].size + 1 == chunks[k].size
    ensures var h := chunks[k].start; BlockOk(m, chunks, h) && EndsWell(m, chunks, heads, h) && BlockEnd(m, h) == chunks[k].End()
  {
    var h := chunks[k].start;
    assert BlockInChunk(m, chunks, h, k);
    forall j | BlockInChunk(m, chunks, h, j) ensures j == k { }
  }

  lemma ThreeLayout()
    ensures Layout(ThreeBlocks(), ThreeChunks(), {1, 7, 13})
  {
    hide BlockOk, EndsWell, BlockEnd;
    var m, chunks, heads := ThreeBlocks(), ThreeChunks(), {1, 7, 13};
    WholeChunk(m, chunks, heads, 0);
    WholeChunk(m, chunks, heads, 1);
    WholeChunk(m, chunks, heads, 2);
  }

  lemma ThreeList()
    ensures FreeListOk(ThreeBlocks(), ThreeChunks(), {1, 7, 13}, 20, [2], 7)
  {
    var m, list := ThreeBlocks(), [2];
    assert list[0] == 2 && 2 in list;
    assert !InChunk(ThreeChunks()[0], 20) && !InChunk(ThreeChunks()[1], 20) && !InChunk(ThreeChunks()[2], 20);
    forall i | 0 <= i <= |list|
      ensures 0 <= Node(20, list, i) < |m| && m[Node(20, list, i)] == (if i < |list| then Ptr(list[i]) else Ptr(0)) { }
    LinksFrom(m, 20, list, Ptr(0));
  }

  /** The merge pointer is left behind: all that adding a free block asks for holds, with the
      sweep at the start of the third chunk; afterwards `fl_merge`, which is still 2, is not
      the last free block below the sweep, which is 8. */
  lemma MergePointerLeftBehind()
    ensures var m, chunks, heads, head, list, bp, sweepHp := ThreeBlocks(), ThreeChunks(), {1, 7, 13}, 20, [2], 8, 13;
      && Layout(m, chunks, heads) && FreeListOk(m, chunks, heads, head, list, bp - 1) && FreeBlock(m, heads, bp)
      && Node(head, list, 1) == 2 && MergePoint(list, 1, sweepHp) && IsMergePointer(head, list, sweepHp, 2)
      && PosOk(chunks, heads, 2, sweepHp) && bp > Node(head, list, |list|)
      && !IsMergePointer(head, Insert(list, AddIndex(list, bp), bp), sweepHp, 2)
  {
    hide Layout, FreeListOk;
    ThreeLayout();
    ThreeList();
    var list := [2];
    assert list[0] == 2 && Node(20, list, 1) == 2 && AddIndex(list, 8) == 1;
    assert MergePoint(list, 1, 13);
    assert InChunk(ThreeChunks()[2], 13);
    TailMerge(20, list, 8, 1, 13, 1);
  }
}
