/** The fourth pass moves the blocks; what it leaves is the old heap under a renaming. */
module Moving {
  import opened Words
  import opened Tiling
  import opened Threading
  import opened Relocation
  import opened Reverting

  ghost predicate BlockMoved(g: Snapshot, m3: Memory, m: Memory, h: int)
    requires 0 <= h < |g.mem| && g.mem[h].Hdr?
  {
    var n, sz := Moved(g, h), g.mem[h].WhSize();
    h + sz <= |m3| && 0 <= n && n + sz <= |m| && m[n..n + sz] == m3[h..h + sz]
  }

  /** The fourth pass has moved the live blocks below `p`; nothing from `p` on has been
      overwritten, nor any word outside the heap. */
  ghost predicate MovedTo(g: Snapshot, m3: Memory, m: Memory, p: int) {
    && |m| == |m3| == |g.mem|
    && (forall a :: 0 <= a < |m| && (a >= p || !InHeap(g.chunks, a)) ==> m[a] == m3[a])
    && (forall h :: h in g.Headers() && h < p && g.PointedTo(h) ==>
          0 <= h < |g.mem| && g.mem[h].Hdr? && BlockMoved(g, m3, m, h))
  }

  ghost predicate Copied(m: Memory, m': Memory, src: int, dst: int, n: nat) {
    && |m'| == |m|
    && 0 <= src && src + n <= |m| && 0 <= dst && dst + n <= |m|
    && m' == m[..dst] + m[src..src + n] + m[dst + n..]
  }

  lemma InOneChunkInHeap(chunks: seq<Chunk>, a: int, n: nat, x: int)
    requires InOneChunk(chunks, a, n) && a <= x < a + n
    ensures InHeap(chunks, x)
  {
    var k :| 0 <= k < |chunks| && chunks[k].start <= a && a + n <= chunks[k].End();
    assert InChunk(chunks[k], x);
  }

  /** Copying one block to its place leaves the blocks already moved as they are. */
  lemma EarlierMoveKept(g: Snapshot, m3: Memory, m: Memory, m': Memory, p: int, h: int)
    requires g.WellFormed() && p in g.Headers() && g.PointedTo(p) && h in g.Headers() && g.PointedTo(h) && h != p
    requires 0 <= p < |g.mem| && g.mem[p].Hdr? && Copied(m, m', p, Moved(g, p), g.mem[p].WhSize())
    requires 0 <= h < |g.mem| && g.mem[h].Hdr? && BlockMoved(g, m3, m, h)
    ensures BlockMoved(g, m3, m', h)
  {
    hide Snapshot.WellFormed, Moved, AllHeads, Snapshot.PointedTo;
    MovedApart(g, p, h);
    var n, sz := Moved(g, h), g.mem[h].WhSize();
    assert m'[n..n + sz] == m[n..n + sz];
  }

  lemma MoveStep(g: Snapshot, m3: Memory, m: Memory, m': Memory, p: int, next: int)
    requires g.WellFormed() && MovedTo(g, m3, m, p) && p in g.Headers() && g.PointedTo(p)
    requires 0 <= p < |g.mem| && g.mem[p].Hdr? && next == p + g.mem[p].WhSize()
    requires forall h :: h in g.Headers() && p < h ==> next <= h
    requires Copied(m, m', p, Moved(g, p), g.mem[p].WhSize())
    ensures MovedTo(g, m3, m', next)
  {
    hide Snapshot.WellFormed, Moved, AllHeads, Snapshot.PointedTo, BlockMoved, InHeap;
    MovedDown(g, p);
    var n, sz := Moved(g, p), g.mem[p].WhSize();
    forall a | n <= a < n + sz ensures InHeap(g.chunks, a) {
      InOneChunkInHeap(g.chunks, n, sz, a);
    }
    forall a | 0 <= a < |m'| && (a >= next || !InHeap(g.chunks, a))
      ensures m'[a] == m3[a]
    {
      assert !(n <= a < n + sz);
      assert m'[a] == m[a];
    }
    JustMoved(g, m3, m, m', p);
    forall h | h in g.Headers() && h < next && g.PointedTo(h)
      ensures 0 <= h < |g.mem| && g.mem[h].Hdr? && BlockMoved(g, m3, m', h)
    {
      if h != p {
        EarlierMoveKept(g, m3, m, m', p, h);
      }
    }
  }

  lemma JustMoved(g: Snapshot, m3: Memory, m: Memory, m': Memory, p: int)
    requires 0 <= p < |g.mem| == |m| && g.mem[p].Hdr? && |m| == |m3|
    requires forall a :: p <= a < |m| ==> m[a] == m3[a]
    requires Copied(m, m', p, Moved(g, p), g.mem[p].WhSize())
    ensures BlockMoved(g, m3, m', p)
  {
    hide Moved;
    var n, sz := Moved(g, p), g.mem[p].WhSize();
    assert m'[n..n + sz] == m3[p..p + sz];
  }

  lemma SkipStep(g: Snapshot, m3: Memory, m: Memory, p: int, next: int)
    requires MovedTo(g, m3, m, p) && p <= next
    requires forall h :: h in g.Headers() && g.PointedTo(h) ==> h < p || next <= h
    ensures MovedTo(g, m3, m, next)
  {
    hide AllHeads, Snapshot.PointedTo, BlockMoved;
  }

  // What compaction means.

  /** The value that replaces `w`: a pointer to a block points to where the block now is. */
  ghost function Rename(g: Snapshot, w: Word): Word {
    if w.Ptr? && InHeap(g.chunks, w.addr) then Ptr(Moved(g, w.addr - 1) + 1) else w
  }

  /** What the fields of the block at `h` become. */
  ghost function NewFields(g: Snapshot, h: int): (r: seq<Word>)
    requires 0 <= h < |g.mem| && g.mem[h].Hdr? && h + g.mem[h].size < |g.mem|
    ensures |r| == g.mem[h].size
  {
    seq(g.mem[h].size, t requires 0 <= t < g.mem[h].size =>
      if g.mem[h].tag < NO_SCAN_TAG then Rename(g, g.mem[h + 1 + t]) else g.mem[h + 1 + t])
  }

  /** The block whose header was at `h` has kept its size, its tag and its contents, up to renaming. */
  ghost predicate BlockKept(g: Snapshot, m: Memory, h: int) {
    && g.IsLiveHeader(h)
    && var n, sz := Moved(g, h), g.mem[h].size;
    && InOneChunk(g.chunks, n, sz + 1) && 0 <= n && n + sz < |m| && h + sz < |g.mem|
    && m[n..n + 1 + sz] == [g.mem[h]] + NewFields(g, h)
  }

  /** `m` is the heap `g` under the renaming: every block that was pointed to is kept, at
      a place of its own, and every root is renamed. */
  ghost predicate Compacted(g: Snapshot, m: Memory) {
    && |m| == |g.mem|
    && (forall h :: g.PointedTo(h) ==> BlockKept(g, m, h))
    && (forall h, h' :: g.PointedTo(h) && g.PointedTo(h') && h != h' ==>
          0 <= h < |g.mem| && g.mem[h].Hdr? && 0 <= h' < |g.mem| && g.mem[h'].Hdr? &&
          Disjoint(Moved(g, h), g.mem[h].WhSize(), Moved(g, h'), g.mem[h'].WhSize()))
    && (forall s :: s in g.roots ==> 0 <= s < |m| && m[s] == Rename(g, g.mem[s]))
  }

  /** Outside the heap and the roots, only the word at `except` may have changed. */
  ghost predicate OutsideKept(g: Snapshot, m: Memory, except: int) {
    |m| == |g.mem| && forall a :: 0 <= a < |m| && !InHeap(g.chunks, a) && a !in g.roots && a != except ==> m[a] == g.mem[a]
  }

  lemma PointedToIsLive(g: Snapshot, h: int)
    requires g.WellFormed() && g.PointedTo(h)
    ensures g.IsLiveHeader(h) && h in g.Headers() && Encode(g.mem[h]).tag == g.mem[h].tag
  {
    var s :| g.PointsTo(s, h);
  }

  lemma FieldsInHeap(g: Snapshot)
    requires g.WellFormed()
    ensures forall s, h :: g.IsFieldOf(s, h) ==> InHeap(g.chunks, s) && 0 <= s < |g.mem|
  {
    AllHeadsAreBlocks(g.mem, g.chunks, 0);
    forall s, h | g.IsFieldOf(s, h)
      ensures InHeap(g.chunks, s) && 0 <= s < |g.mem|
    {
      var k :| BlockInChunk(g.mem, g.chunks, h, k);
      assert InChunk(g.chunks[k], s);
    }
  }

  /** The words inside a block are not headers, and belong to that block only. */
  lemma InsideBlock(g: Snapshot, h: int, s: int)
    requires g.WellFormed() && g.IsLiveHeader(h) && h < s <= h + g.mem[h].size
    ensures 0 <= s < |g.mem| && s !in g.Headers() && InHeap(g.chunks, s)
    ensures g.IsSlot(s) <==> g.mem[h].tag < NO_SCAN_TAG
  {
    hide AllHeads, AllTiled;
    AllHeadsAreBlocks(g.mem, g.chunks, 0);
    var k :| BlockInChunk(g.mem, g.chunks, h, k);
    assert InChunk(g.chunks[k], s);
    if g.mem[h].tag < NO_SCAN_TAG {
      assert g.IsFieldOf(s, h);
    }
  }

  /** What the third pass left at a word of a live block. */
  lemma RenamedWord(g: Snapshot, m3: Memory, h: int, t: nat)
    requires g.WellFormed() && Renamed(g, m3) && g.IsLiveHeader(h) && t < g.mem[h].size
    ensures h + 1 + t < |g.mem|
    ensures m3[h + 1 + t] == if g.mem[h].tag < NO_SCAN_TAG then Rename(g, g.mem[h + 1 + t]) else g.mem[h + 1 + t]
  {
    hide AllHeads, AllTiled, Snapshot.IsSlot, Snapshot.WellFormed, Moved;
    InsideBlock(g, h, h + 1 + t);
  }

  lemma RenamedOutside(g: Snapshot, m3: Memory, a: int)
    requires g.WellFormed() && Renamed(g, m3) && 0 <= a < |g.mem| && !InHeap(g.chunks, a)
    ensures m3[a] == if a in g.roots then Rename(g, g.mem[a]) else g.mem[a]
  {
    hide AllHeads, AllTiled, Snapshot.IsFieldOf, Snapshot.WellFormed, Moved, InHeap, FinalHeader;
    HeadersInHeap(g);
    FieldsInHeap(g);
    assert a in g.roots <==> g.IsSlot(a);
  }

  lemma KeptBlock(g: Snapshot, m3: Memory, m: Memory, h: int)
    requires g.WellFormed() && Renamed(g, m3) && g.PointedTo(h) && |m| == |g.mem|
    requires 0 <= h < |g.mem| && g.mem[h].Hdr? && BlockMoved(g, m3, m, h)
    ensures BlockKept(g, m, h)
  {
    hide AllHeads, Snapshot.WellFormed, Moved, Rename, Snapshot.IsSlot, Snapshot.HeapPtr, Renamed;
    PointedToIsLive(g, h);
    MovedDown(g, h);
    RenamedHeader(g, m3, h);
    var n, sz := Moved(g, h), g.mem[h].size;
    forall t | 0 <= t < sz
      ensures m3[h + 1 + t] == NewFields(g, h)[t]
    {
      RenamedWord(g, m3, h, t);
    }
    BlockWords(m3, h, g.mem[h], NewFields(g, h));
  }

  lemma BlockWords(m: Memory, h: int, w: Word, fields: seq<Word>)
    requires 0 <= h && h + |fields| < |m| && m[h] == w && forall t :: 0 <= t < |fields| ==> m[h + 1 + t] == fields[t]
    ensures m[h..h + 1 + |fields|] == [w] + fields
  {
    var s := m[h..h + 1 + |fields|];
    forall k | 0 <= k < |s| ensures s[k] == ([w] + fields)[k] {
      if k > 0 {
        assert m[h + 1 + (k - 1)] == fields[k - 1];
      }
    }
  }

  lemma RenamedHeader(g: Snapshot, m3: Memory, h: int)
    requires g.WellFormed() && Renamed(g, m3) && g.PointedTo(h)
    ensures 0 <= h < |m3| == |g.mem| && m3[h] == g.mem[h]
  {
    hide AllHeads, Snapshot.WellFormed, Moved, Snapshot.IsSlot;
    PointedToIsLive(g, h);
  }

  lemma AllMoved(g: Snapshot, m3: Memory, m: Memory)
    requires g.WellFormed() && Renamed(g, m3) && MovedTo(g, m3, m, |g.mem|)
    ensures Compacted(g, m) && forall a :: OutsideKept(g, m, a)
  {
    hide AllHeads, Snapshot.WellFormed, Moved, Rename, Snapshot.PointedTo, BlockKept, BlockMoved, Renamed, InHeap, Disjoint;
    forall h | g.PointedTo(h)
      ensures BlockKept(g, m, h)
    {
      PointedToIsLive(g, h);
      KeptBlock(g, m3, m, h);
    }
    forall h, h' | g.PointedTo(h) && g.PointedTo(h') && h != h'
      ensures 0 <= h < |g.mem| && g.mem[h].Hdr? && 0 <= h' < |g.mem| && g.mem[h'].Hdr?
      ensures Disjoint(Moved(g, h), g.mem[h].WhSize(), Moved(g, h'), g.mem[h'].WhSize())
    {
      PointedToIsLive(g, h);
      PointedToIsLive(g, h');
      MovedApart(g, h, h');
    }
    forall a | 0 <= a < |m| && !InHeap(g.chunks, a)
      ensures m[a] == if a in g.roots then Rename(g, g.mem[a]) else g.mem[a]
    {
      RenamedOutside(g, m3, a);
    }
    RootsOutside(g);
  }

  lemma RootsOutside(g: Snapshot)
    requires g.WellFormed()
    ensures forall s :: s in g.roots ==> 0 <= s < |g.mem| && !InHeap(g.chunks, s)
  {
    hide AllHeads, AllTiled, Snapshot.IsSlot, InHeap;
  }

  /** The word reached from `w` by following the fields numbered in `path`, if there is one. */
  ghost function Follow(m: Memory, chunks: seq<Chunk>, w: Word, path: seq<nat>): (r: Word)
    decreases |path|
  {
    if path == [] then w
    else if w.Ptr? && InHeap(chunks, w.addr) && 1 <= w.addr && w.addr + path[0] < |m|
        && m[w.addr - 1].Hdr? && m[w.addr - 1].tag < NO_SCAN_TAG && path[0] < m[w.addr - 1].size
    then Follow(m, chunks, m[w.addr + path[0]], path[1..])
    else Int(0)
  }

  lemma FieldOfKeptBlock(g: Snapshot, m: Memory, h: int, t: nat)
    requires g.WellFormed() && BlockKept(g, m, h) && t < g.mem[h].size
    ensures var n := Moved(g, h);
      && 0 <= n && n + 1 + t < |m| && h + 1 + t < |g.mem| && m[n] == g.mem[h] && InHeap(g.chunks, n + 1)
      && m[n + 1 + t] == if g.mem[h].tag < NO_SCAN_TAG then Rename(g, g.mem[h + 1 + t]) else g.mem[h + 1 + t]
  {
    hide AllHeads, Snapshot.WellFormed, Moved, Rename;
    var n, sz := Moved(g, h), g.mem[h].size;
    InOneChunkInHeap(g.chunks, n, sz + 1, n + 1);
    assert m[n] == m[n..n + 1 + sz][0];
    assert m[n + 1 + t] == m[n..n + 1 + sz][1 + t];
  }

  lemma CompactedKeeps(g: Snapshot, m: Memory, h: int)
    requires Compacted(g, m) && g.PointedTo(h)
    ensures BlockKept(g, m, h) && |m| == |g.mem|
  {
    hide AllHeads, BlockKept, Moved;
  }

  lemma {:induction false} FollowRenamed(g: Snapshot, m: Memory, s: int, path: seq<nat>)
    requires g.WellFormed() && Compacted(g, m) && g.IsSlot(s)
    ensures var w := Follow(g.mem, g.chunks, g.mem[s], path);
      && Follow(m, g.chunks, Rename(g, g.mem[s]), path) == Rename(g, w)
      && (w.Ptr? && InHeap(g.chunks, w.addr) ==> g.PointedTo(w.addr - 1))
    decreases |path|
  {
    hide AllHeads, Snapshot.WellFormed, Moved, Snapshot.IsSlot, BlockKept, Compacted, InHeap, NewFields;
    SlotFacts(g, s);
    if g.HeapPtr(s) {
      var h := g.mem[s].addr - 1;
      assert g.PointsTo(s, h);
      CompactedKeeps(g, m, h);
      if path != [] && path[0] < g.mem[h].size {
        FieldOfKeptBlock(g, m, h, path[0]);
        if g.mem[h].tag < NO_SCAN_TAG {
          InsideBlock(g, h, h + 1 + path[0]);
          FollowRenamed(g, m, h + 1 + path[0], path[1..]);
        }
      } else {
        KeptHeader(g, m, h);
      }
    }
  }

  lemma KeptHeader(g: Snapshot, m: Memory, h: int)
    requires BlockKept(g, m, h)
    ensures var n := Moved(g, h); 0 <= n < |m| && m[n] == g.mem[h]
  {
    hide AllHeads, Moved, NewFields;
    var n, sz := Moved(g, h), g.mem[h].size;
    assert m[n] == m[n..n + 1 + sz][0];
  }

  /** No program can tell: from any root, along any path, it finds the same integers and
      foreign pointers, and blocks of the same size and tag, as before compaction. */
  lemma PathsPreserved(g: Snapshot, m: Memory, r: int, path: seq<nat>)
    requires g.WellFormed() && Compacted(g, m) && r in g.roots
    ensures 0 <= r < |g.mem| == |m|
    ensures var before, after := Follow(g.mem, g.chunks, g.mem[r], path), Follow(m, g.chunks, m[r], path);
      if before.Ptr? && InHeap(g.chunks, before.addr)
      then after.Ptr? && 0 <= after.addr - 1 < |m| && 0 <= before.addr - 1 < |m| && m[after.addr - 1] == g.mem[before.addr - 1]
      else after == before
  {
    hide AllHeads, AllTiled, Moved, BlockKept, Follow, Snapshot.IsFieldOf, Snapshot.PointedTo, Disjoint;
    assert g.IsSlot(r);
    FollowRenamed(g, m, r, path);
    var before := Follow(g.mem, g.chunks, g.mem[r], path);
    if before.Ptr? && InHeap(g.chunks, before.addr) {
      PointedToIsLive(g, before.addr - 1);
      KeptHeader(g, m, before.addr - 1);
    }
  }
}
