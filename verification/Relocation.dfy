/** Where the compactor puts each block. The third pass and the fourth each run the virtual
    allocator over the live blocks in address order; both follow this plan. */
module Relocation {
  import opened Words
  import opened Tiling
  import opened Threading
  import opened CompactAlloc

  ghost function Size(g: Snapshot, i: nat): nat
    requires i < |g.Headers()|
  {
    var h := g.Headers()[i];
    if 0 <= h < |g.mem| && g.mem[h].Hdr? then g.mem[h].WhSize() else 0
  }

  function Unused(n: nat): (r: seq<nat>)
    ensures |r| == n && forall k :: 0 <= k < n ==> r[k] == 0
  {
    seq(n, _ => 0)
  }

  /** The allocator's state once the first `i` blocks have been considered. */
  ghost function StateAt(g: Snapshot, i: nat): AllocState
    requires i <= |g.Headers()|
  {
    if i == 0 then AllocState(Unused(|g.chunks|), 0)
    else if g.PointedTo(g.Headers()[i - 1]) && CanAllocate(g.chunks, StateAt(g, i - 1), Size(g, i - 1))
    then After(g.chunks, StateAt(g, i - 1), Size(g, i - 1))
    else StateAt(g, i - 1)
  }

  /** The new address of the header of the `i`th block. */
  ghost function NewAt(g: Snapshot, i: nat): int
    requires i < |g.Headers()|
  {
    if CanAllocate(g.chunks, StateAt(g, i), Size(g, i)) then Address(g.chunks, StateAt(g, i), Size(g, i)) else 0
  }

  ghost function IndexOf(bs: seq<int>, h: int): (i: nat)
    requires h in bs
    ensures i < |bs| && bs[i] == h
  {
    var i :| 0 <= i < |bs| && bs[i] == h; i
  }

  /** The new address of the header at `h`. */
  ghost function Moved(g: Snapshot, h: int): int {
    if h in g.Headers() then NewAt(g, IndexOf(g.Headers(), h)) else h
  }

  /** When the `i`th block is considered, nothing has been placed beyond it. */
  ghost predicate OnTrack(g: Snapshot, k: nat, i: nat)
    requires i < |g.Headers()|
  {
    && Behind(g.chunks, StateAt(g, i), k, g.Headers()[i])
    && g.Headers()[i] + Size(g, i) <= g.chunks[k].End()
  }

  ghost predicate Tracked(g: Snapshot, i: nat) {
    i < |g.Headers()| && exists k: nat :: OnTrack(g, k, i)
  }

  lemma StateNext(g: Snapshot, i: nat)
    requires i < |g.Headers()| && CanAllocate(g.chunks, StateAt(g, i), Size(g, i))
    ensures StateAt(g, i + 1) ==
      if g.PointedTo(g.Headers()[i]) then After(g.chunks, StateAt(g, i), Size(g, i)) else StateAt(g, i)
  {
  }

  lemma {:induction false} StepBehind(g: Snapshot, k: nat, p: int, i: nat)
    requires i < |g.Headers()| && ChunksOk(g.chunks, |g.mem|) && Behind(g.chunks, StateAt(g, i), k, p)
    requires g.Headers()[i] == p && p + Size(g, i) <= g.chunks[k].End()
    ensures Behind(g.chunks, StateAt(g, i + 1), k, p + Size(g, i))
  {
    hide AllHeads, Snapshot.PointedTo;
    BehindStep(g.chunks, |g.mem|, StateAt(g, i), k, p, Size(g, i));
  }

  /** The plan is on track all along the walk. */
  lemma {:induction false} TrackFrom(g: Snapshot, k: nat, p: int, i: nat)
    requires g.WellFormed() && AtBlock(g.mem, g.chunks, k, p, i) && i <= |g.Headers()|
    requires Behind(g.chunks, StateAt(g, i), k, p)
    ensures forall j :: i <= j < |g.Headers()| ==> Tracked(g, j)
    decreases |g.Headers()| - i, |g.chunks| - k
  {
    hide AllHeads, AtBlock, AtChunk, StateAt, Behind, Snapshot.IsSlot;
    BehindBound(g.chunks, StateAt(g, i), k, p);
    if p < g.chunks[k].End() {
      WalkStep(g.mem, g.chunks, k, p, i);
      assert OnTrack(g, k, i) && Tracked(g, i);
      StepBehind(g, k, p, i);
      TrackFrom(g, k, p + Size(g, i), i + 1);
    } else {
      WalkLeave(g.mem, g.chunks, k, i);
      if k + 1 < |g.chunks| {
        WalkEnter(g.mem, g.chunks, k + 1, i);
        BehindNext(g.chunks, StateAt(g, i), k, p);
        TrackFrom(g, k + 1, g.chunks[k + 1].start, i);
      } else {
        WalkDone(g.mem, g.chunks, i);
      }
    }
  }

  lemma BehindBound(chunks: seq<Chunk>, s: AllocState, k: nat, p: int)
    requires Behind(chunks, s, k, p)
    ensures k < |chunks| && p <= chunks[k].End()
  {
  }

  lemma BehindNext(chunks: seq<Chunk>, s: AllocState, k: nat, p: int)
    requires Behind(chunks, s, k, p) && k + 1 < |chunks|
    ensures Behind(chunks, s, k + 1, chunks[k + 1].start)
  {
  }

  lemma OnTrackAll(g: Snapshot)
    requires g.WellFormed()
    ensures forall j :: 0 <= j < |g.Headers()| ==> Tracked(g, j)
  {
    hide AllTiled, Snapshot.IsSlot;
    WalkStart(g.mem, g.chunks);
    if g.chunks == [] {
      WalkDone(g.mem, g.chunks, 0);
    } else {
      WalkEnter(g.mem, g.chunks, 0, 0);
      TrackFrom(g, 0, g.chunks[0].start, 0);
    }
  }

  /** The block at index `i` has a place, at or below where it was. */
  lemma PlaceOf(g: Snapshot, i: nat)
    requires g.WellFormed() && i < |g.Headers()|
    ensures CanAllocate(g.chunks, StateAt(g, i), Size(g, i))
    ensures NewAt(g, i) <= g.Headers()[i]
    ensures g.PointedTo(g.Headers()[i]) ==> Taken(g.chunks, StateAt(g, i + 1), NewAt(g, i), Size(g, i))
    ensures forall c :: 0 <= c < |g.chunks| ==> StateAt(g, i).used[c] <= g.chunks[c].size
  {
    hide AllHeads, Snapshot.PointedTo, Snapshot.IsSlot, AllTiled, Taken;
    hide StateAt;
    OnTrackAll(g);
    assert Tracked(g, i);
    var k: nat :| OnTrack(g, k, i);
    BehindStep(g.chunks, |g.mem|, StateAt(g, i), k, g.Headers()[i], Size(g, i));
    StateNext(g, i);
  }

  lemma WellFormedChunks(g: Snapshot)
    requires g.WellFormed()
    ensures ChunksOk(g.chunks, |g.mem|)
  {
  }

  /** Once placed, a block's place stays taken. */
  lemma {:induction false} StaysTaken(g: Snapshot, i: nat, n: nat)
    requires g.WellFormed() && i < n <= |g.Headers()| && g.PointedTo(g.Headers()[i])
    ensures Taken(g.chunks, StateAt(g, n), NewAt(g, i), Size(g, i))
    decreases n
  {
    hide AllHeads, Snapshot.PointedTo, Snapshot.IsSlot, AllTiled, Taken, CanAllocate, StateAt, Snapshot.WellFormed, NewAt, Size;
    WellFormedChunks(g);
    if n == i + 1 {
      PlaceOf(g, i);
    } else {
      StaysTaken(g, i, n - 1);
      PlaceOf(g, n - 1);
      StateNext(g, n - 1);
      TakenStep(g.chunks, |g.mem|, StateAt(g, n - 1), Size(g, n - 1), NewAt(g, i), Size(g, i));
    }
  }

  /** No two blocks are given overlapping places. */
  lemma PlacesDisjoint(g: Snapshot, i: nat, j: nat)
    requires g.WellFormed() && i < j < |g.Headers()| && g.PointedTo(g.Headers()[i])
    ensures NewAt(g, i) + Size(g, i) <= NewAt(g, j) || NewAt(g, j) + Size(g, j) <= NewAt(g, i)
  {
    hide AllHeads, Snapshot.PointedTo, Snapshot.IsSlot, AllTiled, Taken, StateAt;
    StaysTaken(g, i, j);
    PlaceOf(g, j);
    TakenStep(g.chunks, |g.mem|, StateAt(g, j), Size(g, j), NewAt(g, i), Size(g, i));
  }

  lemma IndexOfHeader(g: Snapshot, i: nat)
    requires g.WellFormed() && i < |g.Headers()|
    ensures IndexOf(g.Headers(), g.Headers()[i]) == i && Moved(g, g.Headers()[i]) == NewAt(g, i)
  {
    AllHeadsAreBlocks(g.mem, g.chunks, 0);
  }

  ghost predicate Disjoint(a: int, n: nat, b: int, m: nat) {
    a + n <= b || b + m <= a
  }

  /** The words [a, a + n) lie in one chunk. */
  ghost predicate InOneChunk(chunks: seq<Chunk>, a: int, n: nat) {
    exists k :: 0 <= k < |chunks| && chunks[k].start <= a && a + n <= chunks[k].End()
  }

  /** Every live block moves down or stays, into the heap. */
  lemma MovedDown(g: Snapshot, h: int)
    requires g.WellFormed() && h in g.Headers() && g.PointedTo(h)
    ensures 0 <= h < |g.mem| && g.mem[h].Hdr?
    ensures Moved(g, h) <= h && InOneChunk(g.chunks, Moved(g, h), g.mem[h].WhSize())
  {
    hide AllHeads, Snapshot.PointedTo, Snapshot.IsSlot, AllTiled, StateAt;
    var i := IndexOf(g.Headers(), h);
    PlaceOf(g, i);
    StaysTaken(g, i, |g.Headers()|);
    var s := StateAt(g, |g.Headers()|);
    LastState(g);
    var c :| 0 <= c < |g.chunks| && g.chunks[c].start <= Moved(g, h) && Moved(g, h) + Size(g, i) <= g.chunks[c].start + s.used[c];
  }

  lemma LastState(g: Snapshot)
    requires g.WellFormed()
    ensures var s := StateAt(g, |g.Headers()|);
      |s.used| == |g.chunks| && forall c :: 0 <= c < |g.chunks| ==> s.used[c] <= g.chunks[c].size
  {
    hide AllHeads, Snapshot.PointedTo, Snapshot.WellFormed, Taken, CanAllocate, After;
    var n := |g.Headers()|;
    if n > 0 {
      PlaceOf(g, n - 1);
      var s := StateAt(g, n - 1);
      SameChunks(g, n - 1);
      StillFits(g.chunks, s, Size(g, n - 1));
    }
  }

  lemma SameChunks(g: Snapshot, i: nat)
    requires i < |g.Headers()| && CanAllocate(g.chunks, StateAt(g, i), Size(g, i))
    ensures |StateAt(g, i).used| == |g.chunks|
  {
    hide AllHeads, StateAt;
  }

  lemma StillFits(chunks: seq<Chunk>, s: AllocState, size: nat)
    requires CanAllocate(chunks, s, size) && forall c :: 0 <= c < |chunks| == |s.used| ==> s.used[c] <= chunks[c].size
    ensures var s' := After(chunks, s, size); |s'.used| == |chunks| && forall c :: 0 <= c < |chunks| ==> s'.used[c] <= chunks[c].size
  {
  }

  /** Different live blocks get disjoint places. */
  lemma MovedApart(g: Snapshot, h: int, h': int)
    requires g.WellFormed() && h in g.Headers() && h' in g.Headers() && h != h'
    requires g.PointedTo(h) && g.PointedTo(h')
    ensures 0 <= h < |g.mem| && g.mem[h].Hdr? && 0 <= h' < |g.mem| && g.mem[h'].Hdr?
    ensures Disjoint(Moved(g, h), g.mem[h].WhSize(), Moved(g, h'), g.mem[h'].WhSize())
  {
    hide AllHeads, Snapshot.PointedTo, Snapshot.IsSlot, AllTiled, StateAt, NewAt;
    var i, j := IndexOf(g.Headers(), h), IndexOf(g.Headers(), h');
    if i < j {
      PlacesDisjoint(g, i, j);
    } else {
      PlacesDisjoint(g, j, i);
    }
  }

  // Where the source reads past the last chunk.

  /** What has been skipped is full. */
  lemma {:induction false} SkippedIsFull(g: Snapshot, i: nat)
    requires i <= |g.Headers()| && |g.chunks| > 0
    ensures var s := StateAt(g, i);
      |s.used| == |g.chunks| && s.fl < |g.chunks| && forall c :: 0 <= c < s.fl ==> Free(g.chunks, s, c) <= 4
  {
    hide AllHeads, Snapshot.PointedTo, Size;
    if i > 0 {
      SkippedIsFull(g, i - 1);
      var s := StateAt(g, i - 1);
      if CanAllocate(g.chunks, s, Size(g, i - 1)) {
        SkippedStaysFull(g.chunks, s, Size(g, i - 1));
      }
    }
  }

  lemma SkippedStaysFull(chunks: seq<Chunk>, s: AllocState, size: nat)
    requires CanAllocate(chunks, s, size) && forall c :: 0 <= c < s.fl ==> Free(chunks, s, c) <= 4
    ensures var s' := After(chunks, s, size);
      |s'.used| == |chunks| && s'.fl < |chunks| && forall c :: 0 <= c < s'.fl ==> Free(chunks, s', c) <= 4
  {
    SkipFullPassed(chunks, s, s.fl);
    var s' := After(chunks, s, size);
    forall c | 0 <= c < s'.fl ensures Free(chunks, s', c) <= 4 {
      assert Free(chunks, s', c) <= Free(chunks, s, c);
    }
  }

  lemma {:induction false} UsedGrows(g: Snapshot, i: nat, j: nat)
    requires i <= j <= |g.Headers()| && |g.chunks| > 0
    ensures |StateAt(g, i).used| == |StateAt(g, j).used| == |g.chunks|
    ensures forall c :: 0 <= c < |g.chunks| ==> StateAt(g, i).used[c] <= StateAt(g, j).used[c]
    decreases j
  {
    hide AllHeads, Snapshot.PointedTo, Size;
    SkippedIsFull(g, j);
    if i < j {
      UsedGrows(g, i, j - 1);
    }
  }

  /** When the `i`th block is placed, the source reads past the last chunk. */
  ghost predicate ReadsPastAt(g: Snapshot, i: nat) {
    && i < |g.Headers()| && g.PointedTo(g.Headers()[i])
    && StateAt(g, i).fl < |g.chunks| == |StateAt(g, i).used| && ReadsPastLastChunk(g.chunks, StateAt(g, i))
  }

  lemma ReadsPastAtIff(g: Snapshot, i: nat)
    requires g.WellFormed() && i < |g.Headers()| && g.PointedTo(g.Headers()[i])
    ensures ReadsPastAt(g, i) <==> NoRoom(g.chunks, StateAt(g, i))
  {
    hide AllHeads, Snapshot.PointedTo, Snapshot.WellFormed, StateAt;
    PlaceOf(g, i);
    SkippedIsFull(g, i);
    ReadsPastLastChunkIff(g.chunks, StateAt(g, i));
  }

  /** The block number `i` is the last one that is live. */
  ghost predicate LastLive(g: Snapshot, i: nat) {
    && i < |g.Headers()| && g.PointedTo(g.Headers()[i])
    && forall j :: i < j < |g.Headers()| ==> !g.PointedTo(g.Headers()[j])
  }

  /** Compaction reads past the last chunk if and only if, when it places the last live
      block, no chunk has more than four words left. */
  lemma CompactionReadsPastIff(g: Snapshot, last: nat)
    requires g.WellFormed() && LastLive(g, last)
    ensures (exists i: nat :: ReadsPastAt(g, i)) <==> NoRoom(g.chunks, StateAt(g, last))
  {
    hide AllHeads, Snapshot.PointedTo, Snapshot.WellFormed, StateAt, ReadsPastLastChunk;
    ReadsPastAtIff(g, last);
    if i: nat :| ReadsPastAt(g, i) {
      ReadsPastAtIff(g, i);
      assert i <= last;
      UsedGrows(g, i, last);
      var s, s' := StateAt(g, i), StateAt(g, last);
      forall c | 0 <= c < |g.chunks| ensures Free(g.chunks, s', c) <= 4 {
        assert Free(g.chunks, s', c) <= Free(g.chunks, s, c);
      }
    }
  }

  /** A heap, of one chunk filled by two live blocks, whose compaction reads past the last chunk. */
  function FullHeap(): Snapshot {
    var b := Hdr(2, 0, White);
    Snapshot([Ptr(2), b, Int(0), Int(0), b, Int(0), Int(0), Ptr(5), Hdr(0, 0, Blue), Ptr(0)], [Chunk(1, 6)], [0, 7])
  }

  lemma FullHeapReadsPast()
    ensures var g := FullHeap(); g.WellFormed() && LastLive(g, 1) && ReadsPastAt(g, 1)
  {
    var g := FullHeap();
    FullHeapFormed();
    assert g.PointsTo(0, 1) && g.PointsTo(7, 4);
    assert StateAt(g, 0) == AllocState([0], 0);
    assert Size(g, 0) == 3 && StateAt(g, 1) == AllocState([3], 0);
    ReadsPastAtIff(g, 1);
  }

  lemma FullHeapFormed()
    ensures FullHeap().WellFormed() && FullHeap().Headers() == [1, 4]
  {
    var g := FullHeap();
    FullHeapTiled();
    hide AllHeads, AllTiled;
    assert InChunk(g.chunks[0], 2) && InChunk(g.chunks[0], 5);
    forall s | g.IsSlot(s) ensures s == 0 || s == 7 || g.mem[s] == Int(0) {
      FullHeapSlot(s);
    }
  }

  lemma FullHeapSlot(s: int)
    requires FullHeap().Headers() == [1, 4] && FullHeap().IsSlot(s)
    ensures s == 0 || s == 7 || (2 <= s <= 3 || 5 <= s <= 6)
  {
    hide AllHeads;
    var g := FullHeap();
    if !(s in g.roots) {
      var h :| g.IsFieldOf(s, h);
    }
  }

  lemma FullHeapTiled()
    ensures var g := FullHeap(); g.Headers() == [1, 4] && AllTiled(g.mem, g.chunks)
  {
    var g := FullHeap();
    assert Heads(g.mem, 7, 7) == [] && Heads(g.mem, 4, 7) == [4] && Heads(g.mem, 1, 7) == [1] + [4];
    assert AllHeads(g.mem, g.chunks[1..]) == [];
    assert AllHeads(g.mem, g.chunks) == [1, 4];
    assert Tiled(g.mem, 4, 7) && Tiled(g.mem, 1, 7);
  }
}
