/** Compaction as a step of the collector: a collection that leaves no garbage makes the heap
    one that may be compacted, and compaction leaves one that the collector may go on with. */
module Compactions {
  import opened Words
  import opened Tiling
  import opened BlockLayout
  import opened LinkedWords
  import opened Threading
  import opened Relocation
  import opened Moving
  import opened Rebuilding
  import opened Compact
  import opened Marking
  import opened FreeBlocks
  import opened Carving
  import opened MarkStack
  import opened Sweeping
  import opened Coalescence
  import opened Reclaiming
  import opened MajorHeaps

  // The walk from header to header finds the headers of the layout.

  lemma {:induction false} TiledFrom(m: Memory, chunks: seq<Chunk>, heads: set<int>, k: nat, p: int)
    requires Layout(m, chunks, heads) && PosOk(chunks, heads, k, p)
    ensures p <= chunks[k].End() <= |m| && Tiled(m, p, chunks[k].End())
    ensures forall h :: h in Heads(m, p, chunks[k].End()) <==> h in heads && p <= h < chunks[k].End()
    decreases chunks[k].End() - p
  {
    hide Layout;
    var e := chunks[k].End();
    PosBound(m, chunks, heads, k, p);
    if p == e {
      assert Heads(m, e, e) == [];
    } else {
      PosNext(m, chunks, heads, k, p);
      EndOf(m, p);
      var next := BlockEnd(m, p);
      TiledFrom(m, chunks, heads, k, next);
      assert Heads(m, p, e) == [p] + Heads(m, next, e);
      forall h | h in heads && p < h < e ensures next <= h {
        Apart(m, chunks, heads, p, h);
      }
    }
  }

  ghost predicate InLater(chunks: seq<Chunk>, k: nat, h: int) {
    exists j :: k <= j < |chunks| && InChunk(chunks[j], h)
  }

  lemma {:induction false} HeadsFrom(m: Memory, chunks: seq<Chunk>, heads: set<int>, k: nat)
    requires Layout(m, chunks, heads) && k <= |chunks|
    ensures forall h :: h in AllHeads(m, chunks[k..]) <==> h in heads && InLater(chunks, k, h)
    decreases |chunks| - k
  {
    hide Layout;
    if k < |chunks| {
      PosEnter(m, chunks, heads, k);
      TiledFrom(m, chunks, heads, k, chunks[k].start);
      HeadsFrom(m, chunks, heads, k + 1);
      assert chunks[k..][1..] == chunks[k + 1..];
    }
  }

  lemma LayoutTiled(m: Memory, chunks: seq<Chunk>, heads: set<int>)
    requires Layout(m, chunks, heads)
    ensures ChunksOk(chunks, |m|) && AllTiled(m, chunks) && forall h :: h in AllHeads(m, chunks) <==> h in heads
  {
    hide Layout;
    forall k | 0 <= k < |chunks| ensures Tiled(m, chunks[k].start, chunks[k].End()) {
      PosEnter(m, chunks, heads, k);
      TiledFrom(m, chunks, heads, k, chunks[k].start);
    }
    HeadsFrom(m, chunks, heads, 0);
    assert chunks[0..] == chunks;
    forall h | h in heads ensures InLater(chunks, 0, h) {
      GetBlock(m, chunks, heads, h);
      var k :| BlockInChunk(m, chunks, h, k);
    }
    LayoutChunks(m, chunks, heads);
  }

  lemma LayoutChunks(m: Memory, chunks: seq<Chunk>, heads: set<int>)
    requires Layout(m, chunks, heads)
    ensures ChunksOk(chunks, |m|)
  {
  }

  // Before.

  /** The roots are in the words `slots`, which lie outside the heap. */
  ghost predicate RootSlots(m: Memory, chunks: seq<Chunk>, roots: seq<Word>, slots: seq<int>) {
    && |slots| == |roots|
    && (forall i, j :: 0 <= i < j < |slots| ==> slots[i] != slots[j])
    && (forall i :: 0 <= i < |slots| ==> 0 <= slots[i] < |m| && !InHeap(chunks, slots[i]) && m[slots[i]] == roots[i])
  }

  /** Between cycles, with no garbage left. */
  ghost predicate Clean(m: Memory, chunks: seq<Chunk>, heads: set<int>, roots: seq<Word>, known: set<int>) {
    && HeapOk(m, chunks, heads, roots, known) && Small(m, heads, known)
    && AllSwept(m, heads) && AllReclaimed(m, heads, known)
  }

  lemma CleanHeads(m: Memory, chunks: seq<Chunk>, heads: set<int>, roots: seq<Word>, known: set<int>, slots: seq<int>)
    requires Clean(m, chunks, heads, roots, known)
    ensures var g := Snapshot(m, chunks, slots);
      && ChunksOk(chunks, |m|) && AllTiled(m, chunks) && (forall h :: h in g.Headers() <==> h in heads)
      && (forall h :: h in known ==> g.IsLiveHeader(h) && m[h].size >= 1)
      && (forall h :: g.IsLiveHeader(h) && m[h].size >= 1 ==> h in known)
  {
    hide Layout, FieldIn, GoodWord, AllHeads, AllTiled, ChunksOk;
    LayoutTiled(m, chunks, heads);
    KnownHeads(m, chunks, heads, roots, known);
  }

  /** A field of a live block is a field of a known one. */
  lemma CleanField(m: Memory, chunks: seq<Chunk>, heads: set<int>, roots: seq<Word>, known: set<int>, slots: seq<int>, s: int, h: int)
    requires Clean(m, chunks, heads, roots, known) && Snapshot(m, chunks, slots).IsFieldOf(s, h)
    ensures h in known && FieldIn(m, h, s) && GoodWord(chunks, known, m[s])
  {
    hide Layout, GoodWord, AllHeads, AllTiled, ChunksOk, HeapOk, Small, AllSwept, AllReclaimed;
    CleanHeads(m, chunks, heads, roots, known, slots);
    HeapLayout(m, chunks, heads, roots, known);
    BlockInMemory(m, chunks, heads, h);
    GoodField(m, chunks, heads, roots, known, h, s);
  }

  lemma CleanSlot(m: Memory, chunks: seq<Chunk>, heads: set<int>, roots: seq<Word>, known: set<int>, slots: seq<int>, s: int)
    requires Clean(m, chunks, heads, roots, known) && RootSlots(m, chunks, roots, slots)
    requires Snapshot(m, chunks, slots).IsSlot(s)
    ensures 0 <= s < |m| && GoodWord(chunks, known, m[s])
  {
    hide Layout, GoodWord, AllHeads, FieldIn, Clean;
    var g := Snapshot(m, chunks, slots);
    if s in slots {
      var i :| 0 <= i < |slots| && slots[i] == s;
      CleanRoots(m, chunks, heads, roots, known);
    } else {
      var h :| g.IsFieldOf(s, h);
      CleanField(m, chunks, heads, roots, known, slots, s, h);
    }
  }

  lemma CleanRoots(m: Memory, chunks: seq<Chunk>, heads: set<int>, roots: seq<Word>, known: set<int>)
    requires Clean(m, chunks, heads, roots, known)
    ensures forall i :: 0 <= i < |roots| ==> GoodWord(chunks, known, roots[i])
  {
    hide Layout, GoodWord, FieldIn;
  }

  /** Such a heap may be compacted. */
  lemma CleanIsFormed(m: Memory, chunks: seq<Chunk>, heads: set<int>, roots: seq<Word>, known: set<int>, slots: seq<int>)
    requires Clean(m, chunks, heads, roots, known) && RootSlots(m, chunks, roots, slots)
    ensures Snapshot(m, chunks, slots).WellFormed()
  {
    hide Layout, GoodWord, AllHeads, FieldIn, Clean, AllTiled, ChunksOk, Snapshot.IsSlot;
    var g := Snapshot(m, chunks, slots);
    CleanHeads(m, chunks, heads, roots, known, slots);
    CleanColors(m, chunks, heads, roots, known);
    forall s | g.IsSlot(s)
      ensures 0 <= s < |m| && !m[s].IsHeader() && (g.HeapPtr(s) ==> g.IsLiveHeader(m[s].addr - 1))
    {
      CleanSlot(m, chunks, heads, roots, known, slots, s);
      GoodTarget(chunks, known, m[s]);
    }
  }

  lemma CleanColors(m: Memory, chunks: seq<Chunk>, heads: set<int>, roots: seq<Word>, known: set<int>)
    requires Clean(m, chunks, heads, roots, known)
    ensures forall h :: h in heads ==> 0 <= h < |m| && m[h].Hdr? && (m[h].color == White || m[h].color == Blue)
  {
    hide HeapOk, Small, AllReclaimed;
  }

  lemma GoodTarget(chunks: seq<Chunk>, known: set<int>, w: Word)
    requires GoodWord(chunks, known, w)
    ensures !w.IsHeader() && (w.Ptr? && InHeap(chunks, w.addr) ==> w.addr - 1 in known)
  {
    assert w.Ptr? && InHeap(chunks, w.addr) ==> Refers(chunks, w, w.addr - 1);
  }

  /** The blocks that can be reached are the blocks that something points to. */
  lemma KnownIsPointedTo(m: Memory, chunks: seq<Chunk>, heads: set<int>, roots: seq<Word>, known: set<int>, slots: seq<int>, h: int)
    requires Clean(m, chunks, heads, roots, known) && RootSlots(m, chunks, roots, slots)
    requires forall b :: b in known <==> Reachable(m, chunks, roots, b)
    ensures h in known <==> Snapshot(m, chunks, slots).PointedTo(h)
  {
    hide Layout, GoodWord, AllHeads, Clean, Snapshot.IsSlot, Reach, Refers;
    var g := Snapshot(m, chunks, slots);
    if h in known {
      var n: nat :| Reach(m, chunks, roots, h, n);
      ReachIsPointed(m, chunks, heads, roots, known, slots, h, n);
    }
    if g.PointedTo(h) {
      var s :| g.PointsTo(s, h);
      CleanSlot(m, chunks, heads, roots, known, slots, s);
      GoodTarget(chunks, known, m[s]);
    }
  }

  lemma ReachIsPointed(m: Memory, chunks: seq<Chunk>, heads: set<int>, roots: seq<Word>, known: set<int>, slots: seq<int>, h: int, n: nat)
    requires Clean(m, chunks, heads, roots, known) && RootSlots(m, chunks, roots, slots)
    requires (forall b :: b in known <==> Reachable(m, chunks, roots, b)) && Reach(m, chunks, roots, h, n)
    ensures Snapshot(m, chunks, slots).PointedTo(h)
  {
    hide Layout, GoodWord, AllHeads, Clean, Refers, Snapshot.PointedTo, RootSlots;
    if n == 0 {
      var w :| w in roots && Refers(chunks, w, h);
      RootPoints(m, chunks, roots, slots, w, h);
    } else {
      var p, s :| Reach(m, chunks, roots, p, n - 1) && FieldIn(m, p, s) && Refers(chunks, m[s], h);
      assert Reachable(m, chunks, roots, p);
      FieldPoints(m, chunks, heads, roots, known, slots, p, s, h);
    }
  }

  lemma RootPoints(m: Memory, chunks: seq<Chunk>, roots: seq<Word>, slots: seq<int>, w: Word, h: int)
    requires RootSlots(m, chunks, roots, slots) && w in roots && Refers(chunks, w, h)
    ensures Snapshot(m, chunks, slots).PointedTo(h)
  {
    hide AllHeads;
    var i :| 0 <= i < |roots| && roots[i] == w;
    assert slots[i] in slots && Snapshot(m, chunks, slots).PointsTo(slots[i], h);
  }

  lemma FieldPoints(m: Memory, chunks: seq<Chunk>, heads: set<int>, roots: seq<Word>, known: set<int>, slots: seq<int>, p: int, s: int, h: int)
    requires Clean(m, chunks, heads, roots, known) && p in known && FieldIn(m, p, s) && Refers(chunks, m[s], h)
    ensures Snapshot(m, chunks, slots).PointedTo(h)
  {
    hide Clean, AllHeads;
    var g := Snapshot(m, chunks, slots);
    CleanHeads(m, chunks, heads, roots, known, slots);
    assert g.IsFieldOf(s, p) && g.PointsTo(s, h);
  }

  // Storing the roots in memory.

  lemma OutsideWritten(m: Memory, m': Memory, chunks: seq<Chunk>, heads: set<int>, roots: seq<Word>, known: set<int>)
    requires Clean(m, chunks, heads, roots, known) && |m'| == |m|
    requires forall a :: 0 <= a < |m| && InHeap(chunks, a) ==> m'[a] == m[a]
    ensures Clean(m', chunks, heads, roots, known) && BlocksUntouched(m, m', known)
  {
    hide Layout, GoodWord, FieldIn, InHeap;
    HeadsInMemory(m, chunks, heads);
    forall h | h in heads ensures m'[h] == m[h] {
      BlockInMemory(m, chunks, heads, h);
    }
    LayoutSameSizes(m, m', chunks, heads);
    forall h, a | h in known && h <= a < BlockEnd(m, h) && 0 <= a < |m| ensures m'[a] == m[a] {
      WordInHeap(m, chunks, heads, h, a);
    }
    HeapUntouched(m, m', chunks, heads, heads, roots, known);
  }

  // What the program sees.

  datatype Block = Block(tag: nat, fields: seq<Word>)

  ghost function Contents(m: Memory, h: int): Block {
    if 0 <= h < |m| && m[h].Hdr? && BlockEnd(m, h) <= |m| then Block(m[h].tag, m[h + 1..BlockEnd(m, h)]) else Block(0, [])
  }

  /** What `w` becomes when each block `h` moves to `f[h]`. */
  ghost function Relabel(chunks: seq<Chunk>, f: map<int, int>, w: Word): Word {
    if w.Ptr? && InHeap(chunks, w.addr) && w.addr - 1 in f then Ptr(f[w.addr - 1] + 1) else w
  }

  ghost function RelabelAll(chunks: seq<Chunk>, f: map<int, int>, ws: seq<Word>): (r: seq<Word>)
    ensures |r| == |ws| && forall i :: 0 <= i < |ws| ==> r[i] == Relabel(chunks, f, ws[i])
  {
    seq(|ws|, i requires 0 <= i < |ws| => Relabel(chunks, f, ws[i]))
  }

  ghost function RelabelBlock(chunks: seq<Chunk>, f: map<int, int>, b: Block): Block {
    if b.tag < NO_SCAN_TAG then Block(b.tag, RelabelAll(chunks, f, b.fields)) else b
  }

  ghost predicate Injective(f: map<int, int>) {
    forall h, h' :: h in f && h' in f && h != h' ==> f[h] != f[h']
  }

  /** Whatever the roots, or the blocks of `known`, refer to is among these blocks. */
  ghost predicate ClosedUnder(m: Memory, chunks: seq<Chunk>, roots: seq<Word>, known: set<int>) {
    && (forall w :: w in roots ==> GoodWord(chunks, known, w))
    && (forall h, w :: h in known && Contents(m, h).tag < NO_SCAN_TAG && w in Contents(m, h).fields ==> GoodWord(chunks, known, w))
  }

  /** The blocks of `known` have moved as `f` says, with what they contain, and the roots point
      to where they are now. */
  ghost predicate Relabelled(m: Memory, m': Memory, chunks: seq<Chunk>, roots: seq<Word>, roots': seq<Word>, known: set<int>, known': set<int>, f: map<int, int>) {
    && f.Keys == known && f.Values == known' && Injective(f) && ClosedUnder(m, chunks, roots, known)
    && roots' == RelabelAll(chunks, f, roots)
    && forall h :: h in known ==> Contents(m', f[h]) == RelabelBlock(chunks, f, Contents(m, h))
  }

  /** What `g` was made from: a clean heap, with its roots in memory. */
  ghost predicate CleanBefore(g: Snapshot, heads: set<int>, roots: seq<Word>, known: set<int>) {
    && Clean(g.mem, g.chunks, heads, roots, known) && RootSlots(g.mem, g.chunks, roots, g.roots)
    && g.WellFormed() && forall h :: h in known <==> g.PointedTo(h)
  }

  ghost function Moves(g: Snapshot, known: set<int>): map<int, int> {
    map h | h in known :: Moved(g, h)
  }

  lemma RenameIsRelabel(g: Snapshot, known: set<int>, w: Word)
    requires GoodWord(g.chunks, known, w)
    ensures Rename(g, w) == Relabel(g.chunks, Moves(g, known), w)
  {
    hide Moved, GoodWord;
    GoodTarget(g.chunks, known, w);
  }

  lemma KnownSize(g: Snapshot, heads: set<int>, roots: seq<Word>, known: set<int>, h: int)
    requires CleanBefore(g, heads, roots, known) && h in known
    ensures g.IsLiveHeader(h) && g.mem[h].size >= 1 && BlockEnd(g.mem, h) == h + 1 + g.mem[h].size <= |g.mem|
  {
    hide Clean, Snapshot.WellFormed, AllHeads, Snapshot.PointedTo;
    CleanHeads(g.mem, g.chunks, heads, roots, known, g.roots);
    CleanLayout(g.mem, g.chunks, heads, roots, known);
    BlockInMemory(g.mem, g.chunks, heads, h);
  }

  lemma CleanLayout(m: Memory, chunks: seq<Chunk>, heads: set<int>, roots: seq<Word>, known: set<int>)
    requires Clean(m, chunks, heads, roots, known)
    ensures HeapOk(m, chunks, heads, roots, known) && Layout(m, chunks, heads) && forall h :: h in known ==> h in heads
  {
    hide Layout;
  }

  /** A block has moved with what it contains. */
  lemma ContentsMoved(g: Snapshot, m: Memory, heads: set<int>, roots: seq<Word>, known: set<int>, h: int)
    requires CleanBefore(g, heads, roots, known) && AllKept(g, m) && h in known
    ensures Contents(m, Moved(g, h)) == RelabelBlock(g.chunks, Moves(g, known), Contents(g.mem, h))
  {
    hide Clean, Snapshot.WellFormed, AllHeads, Snapshot.PointedTo, Moved, NewFields, GoodWord, FieldIn, Moves, RootSlots, AllKept, InOneChunk;
    KnownSize(g, heads, roots, known, h);
    AllKeptAt(g, m, h);
    KeptHeader(g, m, h);
    var n, sz := Moved(g, h), g.mem[h].size;
    var fields := g.mem[h + 1..h + 1 + sz];
    assert BlockEnd(m, n) == n + 1 + sz;
    assert m[n + 1..n + 1 + sz] == NewFields(g, h) by {
      assert m[n + 1..n + 1 + sz] == m[n..n + 1 + sz][1..];
    }
    FieldsRelabelled(g, heads, roots, known, h);
  }

  lemma FieldsRelabelled(g: Snapshot, heads: set<int>, roots: seq<Word>, known: set<int>, h: int)
    requires CleanBefore(g, heads, roots, known) && h in known
    requires g.IsLiveHeader(h) && h + 1 + g.mem[h].size <= |g.mem|
    ensures var fields := g.mem[h + 1..h + 1 + g.mem[h].size];
      NewFields(g, h) == if g.mem[h].tag < NO_SCAN_TAG then RelabelAll(g.chunks, Moves(g, known), fields) else fields
  {
    hide Clean, Snapshot.WellFormed, AllHeads, Snapshot.PointedTo, Moved, GoodWord, Moves, RootSlots, Relabel, Rename;
    var sz := g.mem[h].size;
    var fields := g.mem[h + 1..h + 1 + sz];
    if g.mem[h].tag < NO_SCAN_TAG {
      forall t | 0 <= t < sz ensures NewFields(g, h)[t] == Relabel(g.chunks, Moves(g, known), fields[t]) {
        assert g.IsFieldOf(h + 1 + t, h);
        CleanField(g.mem, g.chunks, heads, roots, known, g.roots, h + 1 + t, h);
        RenameIsRelabel(g, known, g.mem[h + 1 + t]);
      }
    }
  }

  lemma MovesInjective(g: Snapshot, heads: set<int>, roots: seq<Word>, known: set<int>)
    requires CleanBefore(g, heads, roots, known)
    ensures Injective(Moves(g, known)) && Moves(g, known).Values == Places(g, |g.Headers()|).Keys
  {
    hide Clean, Snapshot.WellFormed, AllHeads, Snapshot.PointedTo, Moved, RootSlots, Places;
    var f := Moves(g, known);
    forall h, h' | h in f && h' in f && h != h' ensures f[h] != f[h'] {
      PointedToIsLive(g, h);
      PointedToIsLive(g, h');
      MovedApart(g, h, h');
    }
    forall h | h in known ensures f[h] in Places(g, |g.Headers()|) {
      BlockPlace(g, h);
    }
    forall a | a in Places(g, |g.Headers()|) ensures a in f.Values {
      var h := PlaceBlock(g, a);
      assert f[h] == a;
    }
  }

  lemma IsClosed(g: Snapshot, heads: set<int>, roots: seq<Word>, known: set<int>)
    requires CleanBefore(g, heads, roots, known)
    ensures ClosedUnder(g.mem, g.chunks, roots, known)
  {
    hide Clean, Snapshot.WellFormed, AllHeads, Snapshot.PointedTo, RootSlots, GoodWord;
    CleanRoots(g.mem, g.chunks, heads, roots, known);
    forall h, w | h in known && Contents(g.mem, h).tag < NO_SCAN_TAG && w in Contents(g.mem, h).fields
      ensures GoodWord(g.chunks, known, w)
    {
      KnownSize(g, heads, roots, known, h);
      var t :| 0 <= t < |Contents(g.mem, h).fields| && Contents(g.mem, h).fields[t] == w;
      assert g.IsFieldOf(h + 1 + t, h);
      CleanField(g.mem, g.chunks, heads, roots, known, g.roots, h + 1 + t, h);
    }
  }

  /** The program's view of compaction. */
  lemma IsRelabelled(g: Snapshot, m: Memory, heads: set<int>, roots: seq<Word>, known: set<int>)
    requires CleanBefore(g, heads, roots, known) && Compacted(g, m)
    ensures Relabelled(g.mem, m, g.chunks, roots, RootWords(g, m), known, Places(g, |g.Headers()|).Keys, Moves(g, known))
  {
    hide Clean, Snapshot.WellFormed, AllHeads, Snapshot.PointedTo, Moved, Places, GoodWord, Contents, RelabelBlock, BlockKept, Disjoint, Rename, Relabel, ClosedUnder;
    MovesInjective(g, heads, roots, known);
    IsClosed(g, heads, roots, known);
    assert AllKept(g, m);
    forall h | h in known ensures Contents(m, Moves(g, known)[h]) == RelabelBlock(g.chunks, Moves(g, known), Contents(g.mem, h)) {
      ContentsMoved(g, m, heads, roots, known, h);
    }
    CleanRoots(g.mem, g.chunks, heads, roots, known);
    forall i | 0 <= i < |roots| ensures RootWords(g, m)[i] == Relabel(g.chunks, Moves(g, known), roots[i]) {
      assert g.roots[i] in g.roots;
      RenameIsRelabel(g, known, roots[i]);
    }
  }

  // What the collector finds.

  lemma {:induction false} HeadKinds(g: Snapshot, k: nat, h: int)
    requires k <= |g.chunks| == |LastUsed(g)| && h in NewHeads(g, LastUsed(g), k) && h !in Places(g, |g.Headers()|)
    ensures exists c: nat :: c < k && LastUsed(g)[c] < g.chunks[c].size && h == Tail(g.chunks, LastUsed(g), c)
  {
    hide AllHeads, Places, LastUsed;
    if h in HeadsIn(g, LastUsed(g), k - 1) {
      assert k - 1 < k && h == Tail(g.chunks, LastUsed(g), k - 1);
    } else {
      HeadKinds(g, k - 1, h);
      var c: nat :| c < k - 1 && LastUsed(g)[c] < g.chunks[c].size && h == Tail(g.chunks, LastUsed(g), c);
    }
  }

  lemma {:induction false} TailHead(g: Snapshot, k: nat, c: nat)
    requires c < k <= |g.chunks| == |LastUsed(g)| && LastUsed(g)[c] < g.chunks[c].size
    ensures Tail(g.chunks, LastUsed(g), c) in NewHeads(g, LastUsed(g), k)
  {
    hide AllHeads, Places, LastUsed;
    if c < k - 1 {
      TailHead(g, k - 1, c);
    }
  }

  lemma {:induction false} RemainderListed(chunks: seq<Chunk>, used: seq<nat>, k: nat, c: nat)
    requires c < k <= |chunks| == |used| && used[c] + 1 < chunks[c].size
    ensures Tail(chunks, used, c) + 1 in Remainders(chunks, used, k)
  {
    if c < k - 1 {
      RemainderListed(chunks, used, k - 1, c);
    }
  }

  /** The remainder of a chunk reaches to its end. */
  lemma TailReaches(g: Snapshot, m: Memory, head: int, c: nat)
    requires g.WellFormed() && Ready(g, m, head) && c < |g.chunks| == |LastUsed(g)| && LastUsed(g)[c] < g.chunks[c].size
    ensures var p := Tail(g.chunks, LastUsed(g), c);
      p in NewHeads(g, LastUsed(g), |g.chunks|) && 0 <= p < |m| && m[p].Hdr? && BlockEnd(m, p) == g.chunks[c].End()
  {
    hide AllHeads, Places, LastUsed, Snapshot.WellFormed, Snapshot.PointedTo, BlockKept, FreeListOk, GoodWord, FieldIn, Layout, IsBlock;
    var p, heads := Tail(g.chunks, LastUsed(g), c), NewHeads(g, LastUsed(g), |g.chunks|);
    TailHead(g, |g.chunks|, c);
    assert InChunk(g.chunks[c], p);
    PosNext(m, g.chunks, heads, c, p);
    var e := BlockEnd(m, p);
    if e in heads && e != g.chunks[c].End() {
      NoHeadBeyond(g, m, c, e);
    }
  }

  /** No header lies beyond the remainder of a chunk. */
  lemma NoHeadBeyond(g: Snapshot, m: Memory, c: nat, h: int)
    requires g.WellFormed() && AllKept(g, m) && c < |g.chunks| == |LastUsed(g)|
    requires InChunk(g.chunks[c], h) && h in NewHeads(g, LastUsed(g), |g.chunks|)
    ensures h <= Tail(g.chunks, LastUsed(g), c)
  {
    hide AllHeads, Places, LastUsed, Snapshot.WellFormed, AllKept, BlockEnd, NewHeads;
    if h in Places(g, |g.Headers()|) {
      assert LivePlace(g, c, h);
      PlaceFacts(g, m, c, h);
      KeptPlace(g, m, h);
    } else {
      HeadKinds(g, |g.chunks|, h);
      var d: nat :| d < |g.chunks| && LastUsed(g)[d] < g.chunks[d].size && h == Tail(g.chunks, LastUsed(g), d);
      WellFormedChunks(g);
      SameChunk(g.chunks, |g.mem|, c, d, h);
    }
  }

  ghost predicate EndsChunk(m: Memory, chunks: seq<Chunk>, h: int) {
    exists c :: 0 <= c < |chunks| && BlockEnd(m, h) == chunks[c].End()
  }

  /** After compaction a block is a live one, with fields, or else reaches to the end of its
      chunk and is free or a fragment. */
  lemma HeadAfter(g: Snapshot, m: Memory, head: int, heads: set<int>, roots: seq<Word>, known: set<int>, h: int)
    requires CleanBefore(g, heads, roots, known) && Ready(g, m, head) && h in NewHeads(g, LastUsed(g), |g.chunks|)
    ensures 0 <= h < |m| && m[h].Hdr? && (m[h].size == 0 ==> m[h].color == White)
    ensures if h in Places(g, |g.Headers()|) then !Reusable(m, h) else Reusable(m, h) && EndsChunk(m, g.chunks, h)
  {
    hide AllHeads, Places, LastUsed, Snapshot.WellFormed, Snapshot.PointedTo, BlockKept, Clean, NewHeads, GoodWord, FieldIn, RootSlots, Disjoint;
    ReadyKept(g, m, head);
    if h in Places(g, |g.Headers()|) {
      KeptPlace(g, m, h);
      var b := PlaceBlock(g, h);
      KnownSize(g, heads, roots, known, b);
      AllKeptAt(g, m, b);
      KeptHeader(g, m, b);
    } else {
      HeadKinds(g, |g.chunks|, h);
      var c: nat :| c < |g.chunks| && LastUsed(g)[c] < g.chunks[c].size && h == Tail(g.chunks, LastUsed(g), c);
      TailReaches(g, m, head, c);
      TailFree(g, m, head, c);
    }
  }

  lemma ReadyKept(g: Snapshot, m: Memory, head: int)
    requires Ready(g, m, head)
    ensures AllKept(g, m) && |LastUsed(g)| == |g.chunks| && |m| == |g.mem|
  {
    hide AllHeads, Places, LastUsed, Snapshot.PointedTo, BlockKept, NewHeads, HeapOk, FreeListOk, Disjoint;
  }

  lemma TailFree(g: Snapshot, m: Memory, head: int, c: nat)
    requires g.WellFormed() && Ready(g, m, head) && c < |g.chunks| == |LastUsed(g)| && LastUsed(g)[c] < g.chunks[c].size
    ensures var p := Tail(g.chunks, LastUsed(g), c); Reusable(m, p) && (m[p].size == 0 ==> m[p].color == White)
  {
    hide AllHeads, Places, LastUsed, Snapshot.WellFormed, Snapshot.PointedTo, BlockKept, NewHeads, HeapOk, Disjoint, Links, SentinelOk, Ascending;
    var p := Tail(g.chunks, LastUsed(g), c);
    TailReaches(g, m, head, c);
    if LastUsed(g)[c] + 1 < g.chunks[c].size {
      RemainderListed(g.chunks, LastUsed(g), |g.chunks|, c);
    }
  }

  /** After compaction the heap is clean, and no two free blocks or fragments touch. */
  lemma ReadyIsClean(g: Snapshot, m: Memory, head: int, heads: set<int>, roots: seq<Word>, known: set<int>)
    requires CleanBefore(g, heads, roots, known) && Ready(g, m, head)
    ensures var heads', known' := NewHeads(g, LastUsed(g), |g.chunks|), Places(g, |g.Headers()|).Keys;
      Clean(m, g.chunks, heads', RootWords(g, m), known') && Coalesced(m, heads', -1)
  {
    hide AllHeads, Places, LastUsed, Snapshot.WellFormed, Snapshot.PointedTo, BlockKept, Clean, NewHeads, HeapOk, FreeListOk, CleanBefore, Disjoint, BlockEnd;
    var heads', known' := NewHeads(g, LastUsed(g), |g.chunks|), Places(g, |g.Headers()|).Keys;
    KnownHeads(m, g.chunks, heads', RootWords(g, m), known');
    forall h | h in heads'
      ensures 0 <= h < |m| && m[h].Hdr? && (m[h].size == 0 ==> m[h].color == White)
      ensures if h in known' then !Reusable(m, h) else Reusable(m, h) && EndsChunk(m, g.chunks, h)
    {
      HeadAfter(g, m, head, heads, roots, known, h);
    }
    HeapLayout(m, g.chunks, heads', RootWords(g, m), known');
    forall h, h' | Touching(m, heads', h, h') ensures !Reusable(m, h) {
      if h !in known' {
        var c: nat :| c < |g.chunks| && BlockEnd(m, h) == g.chunks[c].End();
        NotAtEnd(m, g.chunks, heads', c, h');
      }
    }
    CleanParts(m, g.chunks, heads', RootWords(g, m), known');
  }

  lemma CleanParts(m: Memory, chunks: seq<Chunk>, heads: set<int>, roots: seq<Word>, known: set<int>)
    requires HeapOk(m, chunks, heads, roots, known) && AllSwept(m, heads)
    requires forall h :: h in known ==> h in heads
    requires forall h :: h in heads ==> 0 <= h < |m| && m[h].Hdr? && (m[h].size == 0 ==> m[h].color == White)
    requires forall h :: h in heads ==> if h in known then !Reusable(m, h) else Reusable(m, h)
    ensures Clean(m, chunks, heads, roots, known)
  {
    hide HeapOk;
  }

  /** The heap and the young area lie apart. */
  predicate YoungApart(chunks: seq<Chunk>, youngStart: int, youngEnd: int) {
    forall a | youngStart < a < youngEnd :: !InHeap(chunks, a)
  }

  /** Compaction makes no pointer young. */
  lemma StillNotYoung(g: Snapshot, m: Memory, heads: set<int>, roots: seq<Word>, known: set<int>, youngStart: int, youngEnd: int)
    requires CleanBefore(g, heads, roots, known) && AllKept(g, m) && RefTableOk(g.mem, known, youngStart, youngEnd, []) && YoungApart(g.chunks, youngStart, youngEnd)
    ensures RefTableOk(m, Places(g, |g.Headers()|).Keys, youngStart, youngEnd, [])
  {
    hide AllHeads, Places, Snapshot.WellFormed, Snapshot.PointedTo, Clean, RootSlots, AllKept, GoodWord, IsYoung, YoungApart, CleanBefore;
    forall a, s | a in Places(g, |g.Headers()|).Keys && FieldIn(m, a, s) ensures !IsYoung(youngStart, youngEnd, m[s]) {
      FieldNotYoung(g, m, heads, roots, known, youngStart, youngEnd, a, s);
    }
  }

  lemma FieldNotYoung(g: Snapshot, m: Memory, heads: set<int>, roots: seq<Word>, known: set<int>, youngStart: int, youngEnd: int, a: int, s: int)
    requires CleanBefore(g, heads, roots, known) && AllKept(g, m) && RefTableOk(g.mem, known, youngStart, youngEnd, []) && YoungApart(g.chunks, youngStart, youngEnd)
    requires a in Places(g, |g.Headers()|) && FieldIn(m, a, s)
    ensures !IsYoung(youngStart, youngEnd, m[s])
  {
    hide AllHeads, Places, Snapshot.WellFormed, Snapshot.PointedTo, Clean, RootSlots, AllKept, GoodWord, Moved, BlockKept, NewFields, InHeap;
    var h := PlaceBlock(g, a);
    AllKeptAt(g, m, h);
    KeptHeader(g, m, h);
    KnownSize(g, heads, roots, known, h);
    var t := s - a - 1;
    FieldOfKeptBlock(g, m, h, t);
    CleanField(g.mem, g.chunks, heads, roots, known, g.roots, h + 1 + t, h);
    var w := g.mem[h + 1 + t];
    GoodTarget(g.chunks, known, w);
    if w.Ptr? && InHeap(g.chunks, w.addr) {
      var b := w.addr - 1;
      KnownSize(g, heads, roots, known, b);
      AllKeptAt(g, m, b);
      FieldOfKeptBlock(g, m, b, 0);
    }
  }

  /** What the caller must have done: minor collection, which leaves no young pointers; and
      made room for the roots outside the heap. */
  predicate MayCompact(chunks: seq<Chunk>, n: nat, head: int, roots: seq<Word>, refTable: seq<int>, slots: seq<int>) {
    && n < LONG_MAX && refTable == [] && |slots| == |roots|
    && (forall i, j :: 0 <= i < j < |slots| ==> slots[i] != slots[j])
    && (forall i :: 0 <= i < |slots| ==> 0 <= slots[i] < n && !InHeap(chunks, slots[i]) && slots[i] != head && slots[i] != head - 1)
  }

  lemma CleanNow(m: Memory, chunks: seq<Chunk>, heads: set<int>, roots: seq<Word>, known: set<int>)
    requires HeapOk(m, chunks, heads, roots, known) && Small(m, heads, known) && AllSwept(m, heads) && AllReclaimed(m, heads, known)
    requires forall h :: (h in heads && !Reusable(m, h)) <==> Reachable(m, chunks, roots, h)
    ensures Clean(m, chunks, heads, roots, known)
    ensures forall h :: h in known <==> Reachable(m, chunks, roots, h)
  {
    hide HeapOk, Reachable;
    KnownHeads(m, chunks, heads, roots, known);
  }

  /** Storing the roots changes nothing else. */
  lemma RootsStored(m: Memory, m': Memory, chunks: seq<Chunk>, heads: set<int>, roots: seq<Word>, known: set<int>, head: int, list: seq<int>, slots: seq<int>)
    requires Clean(m, chunks, heads, roots, known) && FreeListOk(m, chunks, heads, head, list, NONE)
    requires (forall h :: h in known <==> Reachable(m, chunks, roots, h)) && MayCompact(chunks, |m|, head, roots, [], slots)
    requires |m'| == |m| && (forall a :: 0 <= a < |m| && a !in slots ==> m'[a] == m[a]) && (forall j :: 0 <= j < |slots| ==> m'[slots[j]] == roots[j])
    ensures Clean(m', chunks, heads, roots, known) && RootSlots(m', chunks, roots, slots) && BlocksUntouched(m, m', known)
    ensures SentinelOk(m', chunks, head) && head !in slots && head - 1 !in slots
    ensures forall h :: h in known <==> Reachable(m', chunks, roots, h)
  {
    hide Clean, Links, Ascending, Reach, InHeap, FreeBlock, Layout, BlocksUntouched, GoodWord, FieldIn;
    OutsideWritten(m, m', chunks, heads, roots, known);
    SentinelOutside(m, m', chunks, head, slots);
    CleanLayout(m, chunks, heads, roots, known);
    CleanLayout(m', chunks, heads, roots, known);
    KnownHeads(m, chunks, heads, roots, known);
    UntouchedSame(m, m', known);
    StillReachable(m, m', chunks, heads, roots, known);
  }

  lemma SentinelOutside(m: Memory, m': Memory, chunks: seq<Chunk>, head: int, slots: seq<int>)
    requires SentinelOk(m, chunks, head) && |m'| == |m| && head !in slots && head - 1 !in slots
    requires forall a :: 0 <= a < |m| && a !in slots ==> m'[a] == m[a]
    ensures SentinelOk(m', chunks, head)
  {
  }

  lemma IsCleanBefore(g: Snapshot, heads: set<int>, roots: seq<Word>, known: set<int>)
    requires Clean(g.mem, g.chunks, heads, roots, known) && RootSlots(g.mem, g.chunks, roots, g.roots)
    requires forall h :: h in known <==> Reachable(g.mem, g.chunks, roots, h)
    ensures CleanBefore(g, heads, roots, known)
  {
    hide Clean, RootSlots, Snapshot.PointedTo, Snapshot.WellFormed, Reachable, AllHeads;
    CleanIsFormed(g.mem, g.chunks, heads, roots, known, g.roots);
    forall h ensures h in known <==> g.PointedTo(h) {
      KnownIsPointedTo(g.mem, g.chunks, heads, roots, known, g.roots, h);
    }
  }

  /** Compaction leaves all that the collector relies on. */
  lemma AfterCompaction(g: Snapshot, m: Memory, head: int, heads: set<int>, roots: seq<Word>, known: set<int>, youngStart: int, youngEnd: int, p: int)
    requires CleanBefore(g, heads, roots, known) && Ready(g, m, head)
    requires RefTableOk(g.mem, known, youngStart, youngEnd, []) && YoungApart(g.chunks, youngStart, youngEnd)
    ensures var used, heads', known' := LastUsed(g), NewHeads(g, LastUsed(g), |g.chunks|), Places(g, |g.Headers()|).Keys;
      && Clean(m, g.chunks, heads', RootWords(g, m), known') && Coalesced(m, heads', -1)
      && FreeListOk(m, g.chunks, heads', head, Remainders(g.chunks, used, |g.chunks|), NONE)
      && RefTableOk(m, known', youngStart, youngEnd, []) && Accounted(m, heads', known', known', false, false, p)
      && Relabelled(g.mem, m, g.chunks, roots, RootWords(g, m), known, known', Moves(g, known))
  {
    hide AllHeads, Places, LastUsed, Snapshot.WellFormed, Snapshot.PointedTo, BlockKept, NewHeads, HeapOk, FreeListOk, CleanBefore, Disjoint, Coalesced, Moves, Relabelled, RefTableOk, YoungApart, Remainders, Small, AllSwept;
    ReadyKept(g, m, head);
    ReadyIsClean(g, m, head, heads, roots, known);
    StillNotYoung(g, m, heads, roots, known, youngStart, youngEnd);
    IsRelabelled(g, m, heads, roots, known);
  }

  /** What a block contains survives anything that leaves the block the same. */
  lemma ContentsSame(m: Memory, m': Memory, h: int)
    requires BlockSame(m, m', h) && 0 <= h < |m| && m[h].Hdr? && BlockEnd(m, h) <= |m|
    ensures Contents(m', h) == Contents(m, h)
  {
    var e := BlockEnd(m, h);
    assert BlockEnd(m', h) == e;
    assert m'[h + 1..e] == m[h + 1..e];
  }

  lemma RelabelledFrom(m0: Memory, m: Memory, m': Memory, chunks: seq<Chunk>, roots: seq<Word>, roots': seq<Word>, known: set<int>, known': set<int>, f: map<int, int>)
    requires Relabelled(m, m', chunks, roots, roots', known, known', f) && ContentsKept(m0, m, known)
    ensures f.Keys == known && Relabelled(m0, m', chunks, roots, roots', f.Keys, known', f)
  {
    hide Contents, RelabelAll, RelabelBlock, Injective, GoodWord;
  }

  lemma SameContents(m0: Memory, m: Memory, m1: Memory, chunks: seq<Chunk>, heads: set<int>, roots: seq<Word>, known: set<int>)
    requires Clean(m1, chunks, heads, roots, known) && BlocksSame(m0, m, known) && BlocksUntouched(m, m1, known)
    requires |m| == |m0| && forall h :: h in known ==> 0 <= h < |m0| && m0[h].Hdr?
    ensures ContentsKept(m0, m1, known)
  {
    hide Clean, Contents, BlockEnd, BlocksUntouched, GoodWord, FieldIn, Layout;
    CleanLayout(m1, chunks, heads, roots, known);
    forall h | h in known ensures 0 <= h < |m| && m[h].Hdr? {
      assert BlockSame(m0, m, h);
    }
    UntouchedSame(m, m1, known);
    SameTrans(m0, m, m1, known);
    forall h | h in known ensures Contents(m1, h) == Contents(m0, h) {
      BlockInMemory(m1, chunks, heads, h);
      assert BlockSame(m0, m1, h);
      SameShape(m0, m1, h);
      ContentsSame(m0, m1, h);
    }
  }

  lemma SameShape(m: Memory, m': Memory, h: int)
    requires BlockSame(m, m', h) && 0 <= h < |m| && m[h].Hdr?
    ensures BlockEnd(m', h) == BlockEnd(m, h)
  {
  }

  method StoreRoots(mem: array<Word>, roots: seq<Word>, slots: seq<int>)
    requires |slots| == |roots| && (forall i, j :: 0 <= i < j < |slots| ==> slots[i] != slots[j])
    requires forall i :: 0 <= i < |slots| ==> 0 <= slots[i] < mem.Length
    modifies mem
    ensures forall a :: 0 <= a < mem.Length && a !in slots ==> mem[a] == old(mem[a])
    ensures forall j :: 0 <= j < |slots| ==> mem[slots[j]] == roots[j]
  {
    var i := 0;
    while i < |slots|
      invariant 0 <= i <= |slots|
      invariant forall a :: 0 <= a < mem.Length && a !in slots ==> mem[a] == old(mem[a])
      invariant forall j :: 0 <= j < i ==> mem[slots[j]] == roots[j]
    {
      mem[slots[i]] := roots[i];
      i := i + 1;
    }
  }

  method LoadRoots(mem: array<Word>, slots: seq<int>, ghost g: Snapshot) returns (roots: seq<Word>)
    requires g.roots == slots && forall i :: 0 <= i < |slots| ==> 0 <= slots[i] < mem.Length
    ensures roots == RootWords(g, mem[..])
  {
    roots := [];
    var i := 0;
    while i < |slots|
      invariant 0 <= i <= |slots| && roots == RootWords(g, mem[..])[..i]
    {
      roots := roots + [mem[slots[i]]];
      i := i + 1;
    }
  }

  lemma BeforeFormed(g: Snapshot, heads: set<int>, roots: seq<Word>, known: set<int>)
    requires CleanBefore(g, heads, roots, known)
    ensures g.WellFormed() && forall i :: 0 <= i < |g.roots| ==> 0 <= g.roots[i] < |g.mem|
  {
    hide Snapshot.WellFormed, Clean, AllHeads, Snapshot.PointedTo;
  }

  /** The state of a collector that is not at work, other than the heap and the free list. */
  ghost predicate Resting(h: MajorHeap)
    reads h
  {
    && h.phase == Idle && h.grayVals == [] && h.heapIsPure && h.markHp == NoScan
    && |h.chunks| > 0 && h.chunks[0].start > 0 && h.chunk < |h.chunks| && h.graySize >= 2
  }

  /** The heap is as in `g`, ready to be compacted. */
  ghost predicate Prepared(h: MajorHeap, g: Snapshot)
    reads h, h.mem
  {
    && g.mem == h.mem[..] && g.chunks == h.chunks && |g.roots| == |h.roots|
    && CleanBefore(g, h.heads, h.roots, h.known) && RefTableOk(g.mem, h.known, h.youngStart, h.youngEnd, [])
    && SentinelOk(g.mem, g.chunks, h.head) && h.head !in g.roots && h.head - 1 !in g.roots
    && h.refTable == [] && Resting(h)
  }

  /** The blocks of `known` contain what they did. */
  ghost predicate ContentsKept(m: Memory, m': Memory, known: set<int>) {
    forall b :: b in known ==> Contents(m', b) == Contents(m, b)
  }

  /** Finishes the cycle, and stores the roots. */
  method Prepare(h: MajorHeap, slots: seq<int>) returns (ghost g: Snapshot)
    requires h.Valid() && h.phase == Idle && MayCompact(h.chunks, h.mem.Length, h.head, h.roots, h.refTable, slots)
    modifies h, h.mem
    ensures Prepared(h, g) && g.roots == slots && h.roots == old(h.roots)
    ensures h.known <= old(h.known) && ContentsKept(old(h.mem[..]), g.mem, h.known)
  {
    hide HeapOk, FreeListOk, Small, Coalesced, AllSwept, AllReclaimed, Reachable, RootSlots, CleanBefore, BlocksSame, BlocksUntouched, Snapshot.WellFormed, MarkingOk, SweepingOk, RefTableOk, SentinelOk, Clean, ContentsKept;
    ghost var m0 := h.mem[..];
    KnownHeads(m0, h.chunks, h.heads, h.roots, h.known);
    h.FinishMajorCycle();
    ghost var m, heads, known, roots := h.mem[..], h.heads, h.known, h.roots;
    CleanNow(m, h.chunks, heads, roots, known);
    StoreRoots(h.mem, h.roots, slots);
    g := Snapshot(h.mem[..], h.chunks, slots);
    RootsStored(m, g.mem, h.chunks, heads, roots, known, h.head, h.list, slots);
    IsCleanBefore(g, heads, roots, known);
    RefTableUntouched(m, g.mem, h.chunks, heads, roots, known, h.youngStart, h.youngEnd, h.refTable);
    SameContents(m0, m, g.mem, h.chunks, heads, roots, known);
  }

  /** Compacts the heap. */
  method CompactPrepared(h: MajorHeap, ghost g: Snapshot, slots: seq<int>) returns (ghost f: map<int, int>)
    requires Prepared(h, g) && g.roots == slots && YoungApart(h.chunks, h.youngStart, h.youngEnd)
    modifies h, h.mem
    ensures h.Valid() && h.phase == Idle && h.refTable == []
    ensures Relabelled(g.mem, h.mem[..], h.chunks, old(h.roots), h.roots, old(h.known), h.known, f)
    ensures AllReclaimed(h.mem[..], h.heads, h.known)
  {
    hide Accounted, SentinelOk, AllHeads, Snapshot.PointedTo, Links, HeapOk, FreeListOk, Small, Coalesced, Relabelled, AllSwept, AllReclaimed, CleanBefore, Ready, Snapshot.WellFormed, NewHeads, Places, Remainders, YoungApart, RootWords, Moves, MarkingOk, SweepingOk, RefTableOk, SentinelOk, LastUsed;
    ghost var heads, known, roots := h.heads, h.known, h.roots;
    BeforeFormed(g, heads, roots, known);
    var c := new Compactor(h.chunks, slots, h.mem);
    var flPrev, flMerge := c.CompactHeap(h.head, g);
    h.flPrev, h.flMerge := flPrev, flMerge;
    AfterCompaction(g, h.mem[..], h.head, heads, roots, known, h.youngStart, h.youngEnd, h.sweepHp);
    h.roots := LoadRoots(h.mem, slots, g);
    f := Moves(g, known);
    h.heads, h.known, h.kept := NewHeads(g, c.used, |h.chunks|), Places(g, |g.Headers()|).Keys, Places(g, |g.Headers()|).Keys;
    h.list := Remainders(h.chunks, c.used, |h.chunks|);
    h.mergeAt := |h.list|;
  }

  /** Finishes the cycle, and compacts the heap, whose roots are then in the words `slots`.
      The program finds every block where `f` says, with what it contained. */
  method CompactMajorHeap(h: MajorHeap, slots: seq<int>) returns (ghost f: map<int, int>)
    requires h.Valid() && h.phase == Idle && YoungApart(h.chunks, h.youngStart, h.youngEnd)
    requires MayCompact(h.chunks, h.mem.Length, h.head, h.roots, h.refTable, slots)
    modifies h, h.mem
    ensures h.Valid() && h.phase == Idle && h.refTable == []
    ensures f.Keys <= old(h.known) && Relabelled(old(h.mem[..]), h.mem[..], h.chunks, old(h.roots), h.roots, f.Keys, h.known, f)
    ensures AllReclaimed(h.mem[..], h.heads, h.known)
  {
    hide MajorHeap.Valid, Prepared, YoungApart, MayCompact, AllReclaimed, Relabelled;
    ghost var m0, roots := h.mem[..], h.roots;
    ghost var g := Prepare(h, slots);
    assert g.chunks == h.chunks by { PreparedChunks(h, g); }
    ghost var known := h.known;
    f := CompactPrepared(h, g, slots);
    RelabelledFrom(m0, g.mem, h.mem[..], h.chunks, roots, h.roots, known, h.known, f);
  }

  lemma PreparedChunks(h: MajorHeap, g: Snapshot)
    requires Prepared(h, g)
    ensures g.chunks == h.chunks
  {
  }
}
