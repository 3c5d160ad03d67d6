/** What compaction leaves: in every chunk the live blocks are packed from the start, and
    the rest becomes one free block. The heap is tiled again, and the free list is the list
    of these remainders. */
module Rebuilding {
  import opened Words
  import opened Tiling
  import opened Threading
  import opened CompactAlloc
  import opened Relocation
  import opened Moving
  import opened BlockLayout
  import opened LinkedWords
  import opened Marking
  import opened FreeBlocks
  import opened Coalescing
  import opened Sweeping

  /** The places given to the live blocks among the first `i` blocks, with their sizes. */
  ghost function Places(g: Snapshot, i: nat): map<int, nat>
    requires i <= |g.Headers()|
  {
    if i == 0 then map[]
    else if g.PointedTo(g.Headers()[i - 1]) then Places(g, i - 1)[NewAt(g, i - 1) := Size(g, i - 1)]
    else Places(g, i - 1)
  }

  /** The place `a` ends where the used part of chunk `c` ends, or where another place begins. */
  ghost predicate FillsTo(chunks: seq<Chunk>, used: seq<nat>, places: map<int, nat>, a: int, c: nat)
    requires |chunks| == |used|
  {
    && a in places && c < |chunks| && chunks[c].start <= a < a + places[a] <= chunks[c].start + used[c]
    && (a + places[a] == chunks[c].start + used[c] || a + places[a] in places)
  }

  ghost predicate Fills(chunks: seq<Chunk>, used: seq<nat>, places: map<int, nat>, a: int)
    requires |chunks| == |used|
  {
    exists c: nat :: FillsTo(chunks, used, places, a, c)
  }

  /** The places leave no gaps: those in a chunk follow one another from its start. */
  ghost predicate Packed(chunks: seq<Chunk>, used: seq<nat>, places: map<int, nat>) {
    && |used| == |chunks|
    && (forall c :: 0 <= c < |chunks| && used[c] > 0 ==> chunks[c].start in places)
    && (forall a :: a in places ==> Fills(chunks, used, places, a))
  }

  lemma PackOne(chunks: seq<Chunk>, used: seq<nat>, places: map<int, nat>, c0: nat, size: nat)
    requires Packed(chunks, used, places) && c0 < |chunks| && size > 0
    ensures Packed(chunks, used[c0 := used[c0] + size], places[chunks[c0].start + used[c0] := size])
  {
    hide FillsTo;
    var a0, used' := chunks[c0].start + used[c0], used[c0 := used[c0] + size];
    var places' := places[a0 := size];
    FillsLast(chunks, used, places, c0, size);
    assert Fills(chunks, used', places', a0);
    forall a | a in places' && a != a0 ensures Fills(chunks, used', places', a) {
      assert Fills(chunks, used, places, a);
      var c: nat :| FillsTo(chunks, used, places, a, c);
      StillFills(chunks, used, places, c0, size, a, c);
    }
  }

  lemma FillsLast(chunks: seq<Chunk>, used: seq<nat>, places: map<int, nat>, c0: nat, size: nat)
    requires |used| == |chunks| && c0 < |chunks| && size > 0
    ensures FillsTo(chunks, used[c0 := used[c0] + size], places[chunks[c0].start + used[c0] := size], chunks[c0].start + used[c0], c0)
  {
  }

  lemma StillFills(chunks: seq<Chunk>, used: seq<nat>, places: map<int, nat>, c0: nat, size: nat, a: int, c: nat)
    requires |used| == |chunks| && c0 < |chunks| && size > 0 && FillsTo(chunks, used, places, a, c) && a != chunks[c0].start + used[c0]
    ensures FillsTo(chunks, used[c0 := used[c0] + size], places[chunks[c0].start + used[c0] := size], a, c)
  {
  }

  /** The fourth pass leaves the live blocks packed. */
  lemma {:induction false} AllPacked(g: Snapshot, i: nat)
    requires g.WellFormed() && i <= |g.Headers()|
    ensures Packed(g.chunks, StateAt(g, i).used, Places(g, i))
  {
    hide AllHeads, Snapshot.PointedTo, Snapshot.WellFormed, Size, Packed;
    if i == 0 {
      NothingPacked(g.chunks);
    } else {
      AllPacked(g, i - 1);
      PlaceOf(g, i - 1);
      SizePositive(g, i - 1);
      var s, size := StateAt(g, i - 1), Size(g, i - 1);
      if g.PointedTo(g.Headers()[i - 1]) {
        PackOne(g.chunks, s.used, Places(g, i - 1), FirstFit(g.chunks, s, SkipFull(g.chunks, s, s.fl), size), size);
      }
    }
  }

  lemma NothingPacked(chunks: seq<Chunk>)
    ensures Packed(chunks, Unused(|chunks|), map[])
  {
  }

  lemma SizePositive(g: Snapshot, i: nat)
    requires g.WellFormed() && i < |g.Headers()|
    ensures Size(g, i) > 0
  {
    hide AllHeads, AllTiled, Snapshot.PointedTo;
    assert g.Headers()[i] in g.Headers();
  }

  /** Each place belongs to a live block. */
  lemma {:induction false} PlaceIndex(g: Snapshot, i: nat, a: int) returns (j: nat)
    requires i <= |g.Headers()| && a in Places(g, i)
    ensures j < i && g.PointedTo(g.Headers()[j]) && NewAt(g, j) == a && Places(g, i)[a] == Size(g, j)
  {
    hide AllHeads, Snapshot.PointedTo, Size, NewAt;
    if g.PointedTo(g.Headers()[i - 1]) && NewAt(g, i - 1) == a {
      j := i - 1;
    } else {
      j := PlaceIndex(g, i - 1, a);
    }
  }

  lemma {:induction false} PlaceIn(g: Snapshot, i: nat, j: nat)
    requires j < i <= |g.Headers()| && g.PointedTo(g.Headers()[j])
    ensures NewAt(g, j) in Places(g, i)
  {
    hide AllHeads, Snapshot.PointedTo, Size, NewAt;
    if j < i - 1 {
      PlaceIn(g, i - 1, j);
    }
  }

  // The blocks that are left.

  ghost function LastUsed(g: Snapshot): seq<nat> {
    StateAt(g, |g.Headers()|).used
  }

  /** The word just after the used part of chunk `k`. */
  function Tail(chunks: seq<Chunk>, used: seq<nat>, k: nat): nat
    requires k < |chunks| == |used|
  {
    chunks[k].start + used[k]
  }

  /** The headers in chunk `k`: the live blocks moved there, and the remainder if there is one. */
  ghost function HeadsIn(g: Snapshot, used: seq<nat>, k: nat): set<int>
    requires k < |g.chunks| == |used|
  {
    (set a | a in Places(g, |g.Headers()|).Keys && InChunk(g.chunks[k], a)) +
    if used[k] < g.chunks[k].size then {Tail(g.chunks, used, k)} else {}
  }

  /** The headers in the first `k` chunks. */
  ghost function NewHeads(g: Snapshot, used: seq<nat>, k: nat): set<int>
    requires k <= |g.chunks| == |used|
  {
    if k == 0 then {} else NewHeads(g, used, k - 1) + HeadsIn(g, used, k - 1)
  }

  /** The new free list: the remainders of at least two words. */
  ghost function Remainders(chunks: seq<Chunk>, used: seq<nat>, k: nat): seq<int>
    requires k <= |chunks| == |used|
  {
    if k == 0 then []
    else Remainders(chunks, used, k - 1) + if used[k - 1] + 1 < chunks[k - 1].size then [Tail(chunks, used, k - 1) + 1] else []
  }

  /** `a` lies in the used part of some chunk. */
  ghost predicate InUsed(chunks: seq<Chunk>, used: seq<nat>, a: int)
    requires |chunks| == |used|
  {
    exists k: nat :: k < |chunks| && chunks[k].start <= a < Tail(chunks, used, k)
  }

  /** Nothing that is used has changed, nor anything outside the heap but the word `head`. */
  ghost predicate UsedKept(chunks: seq<Chunk>, used: seq<nat>, m: Memory, m': Memory, head: int)
    requires |chunks| == |used|
  {
    && |m'| == |m|
    && (forall a :: 0 <= a < |m| && InUsed(chunks, used, a) ==> m'[a] == m[a])
    && (forall a :: 0 <= a < |m| && !InHeap(chunks, a) && a != head ==> m'[a] == m[a])
  }

  /** A live block has a place. */
  lemma BlockPlace(g: Snapshot, h: int)
    requires g.WellFormed() && g.PointedTo(h)
    ensures Moved(g, h) in Places(g, |g.Headers()|)
  {
    hide AllHeads, Snapshot.PointedTo, Snapshot.WellFormed, NewAt, Places;
    PointedToIsLive(g, h);
    PlaceIn(g, |g.Headers()|, IndexOf(g.Headers(), h));
  }

  /** A place belongs to a live block. */
  lemma PlaceBlock(g: Snapshot, a: int) returns (h: int)
    requires g.WellFormed() && a in Places(g, |g.Headers()|)
    ensures g.PointedTo(h) && Moved(g, h) == a && g.IsLiveHeader(h) && Places(g, |g.Headers()|)[a] == g.mem[h].WhSize()
  {
    hide AllHeads, Snapshot.PointedTo, Snapshot.WellFormed, StateAt, NewAt, Places, Moved;
    var j := PlaceIndex(g, |g.Headers()|, a);
    h := g.Headers()[j];
    IndexOfHeader(g, j);
    PointedToIsLive(g, h);
  }

  /** `m` holds every live block at its place. */
  ghost predicate AllKept(g: Snapshot, m: Memory) {
    forall h :: g.PointedTo(h) ==> BlockKept(g, m, h)
  }

  /** `a` is where a live block of chunk `k` was put. */
  ghost predicate LivePlace(g: Snapshot, k: nat, a: int) {
    k < |g.chunks| && a in Places(g, |g.Headers()|) && InChunk(g.chunks[k], a)
  }

  lemma KeptPlace(g: Snapshot, m: Memory, a: int)
    requires g.WellFormed() && AllKept(g, m) && a in Places(g, |g.Headers()|)
    ensures 0 <= a < |m| && m[a].Hdr? && m[a].color == White && BlockEnd(m, a) == a + Places(g, |g.Headers()|)[a]
  {
    hide AllHeads, Snapshot.PointedTo, Snapshot.WellFormed, Moved, NewFields, Places, BlockKept;
    var h := PlaceBlock(g, a);
    assert BlockKept(g, m, h);
    KeptHeader(g, m, h);
  }

  lemma PlaceFacts(g: Snapshot, m: Memory, k: nat, a: int)
    requires g.WellFormed() && AllKept(g, m) && LivePlace(g, k, a)
    ensures |LastUsed(g)| == |g.chunks| && 0 <= a < |m| && m[a].Hdr? && m[a].color == White
    ensures BlockEnd(m, a) <= Tail(g.chunks, LastUsed(g), k)
    ensures BlockEnd(m, a) == Tail(g.chunks, LastUsed(g), k) || LivePlace(g, k, BlockEnd(m, a))
  {
    hide AllHeads, Snapshot.PointedTo, Snapshot.WellFormed, StateAt, Places, AllKept, BlockEnd, Packed;
    KeptPlace(g, m, a);
    WellFormedChunks(g);
    LastState(g);
    AllPacked(g, |g.Headers()|);
    PackedPlace(g.chunks, |g.mem|, LastUsed(g), Places(g, |g.Headers()|), k, a);
  }

  lemma PackedPlace(chunks: seq<Chunk>, n: nat, used: seq<nat>, places: map<int, nat>, k: nat, a: int)
    requires Packed(chunks, used, places) && ChunksOk(chunks, n) && k < |chunks| && InChunk(chunks[k], a) && a in places
    requires forall c :: 0 <= c < |chunks| ==> used[c] <= chunks[c].size
    ensures FillsTo(chunks, used, places, a, k)
    ensures a + places[a] == Tail(chunks, used, k) || InChunk(chunks[k], a + places[a])
  {
    assert Fills(chunks, used, places, a);
    var c: nat :| FillsTo(chunks, used, places, a, c);
    SameChunk(chunks, n, c, k, a);
  }

  lemma SameChunk(chunks: seq<Chunk>, n: nat, c: nat, k: nat, a: int)
    requires ChunksOk(chunks, n) && c < |chunks| && k < |chunks| && InChunk(chunks[c], a) && InChunk(chunks[k], a)
    ensures c == k
  {
  }

  lemma PlacesApart(g: Snapshot, m: Memory, a: int, b: int)
    requires g.WellFormed() && AllKept(g, m) && a < b
    requires a in Places(g, |g.Headers()|) && b in Places(g, |g.Headers()|)
    ensures BlockEnd(m, a) <= b
  {
    hide AllHeads, Snapshot.PointedTo, Snapshot.WellFormed, StateAt, Moved, Places, AllKept, BlockEnd;
    var h := PlaceBlock(g, a);
    var h' := PlaceBlock(g, b);
    MovedApart(g, h, h');
    KeptPlace(g, m, a);
  }

  /** The remainder of chunk `k`, if there is one, has a header of the right size. */
  ghost predicate TailWritten(chunks: seq<Chunk>, used: seq<nat>, m: Memory, k: nat)
    requires k < |chunks| == |used|
  {
    used[k] < chunks[k].size ==>
      var p := Tail(chunks, used, k); p < |m| && m[p].Hdr? && m[p].size == chunks[k].size - used[k] - 1
  }

  ghost predicate OneBlock(m: Memory, c: Chunk, heads: set<int>, a: int) {
    && 0 <= a < |m| && m[a].Hdr? && c.start <= a && BlockEnd(m, a) <= c.End()
    && (BlockEnd(m, a) == c.End() || BlockEnd(m, a) in heads)
  }

  lemma OneChunkLayout(m: Memory, c: Chunk, heads: set<int>)
    requires c.size > 4 && c.End() <= |m| && c.start in heads
    requires forall a :: a in heads ==> OneBlock(m, c, heads, a)
    requires forall a, b :: a in heads && b in heads && a < b ==> BlockEnd(m, a) <= b
    ensures Layout(m, [c], heads)
  {
    forall a | a in heads ensures BlockOk(m, [c], a) && EndsWell(m, [c], heads, a) {
      assert OneBlock(m, c, heads, a) && BlockInChunk(m, [c], a, 0);
    }
  }

  /** The live blocks of a chunk and its remainder tile it. */
  lemma ChunkLayout(g: Snapshot, m: Memory, k: nat)
    requires g.WellFormed() && AllKept(g, m) && |m| == |g.mem|
    requires k < |g.chunks| == |LastUsed(g)| && TailWritten(g.chunks, LastUsed(g), m, k)
    ensures Layout(m, [g.chunks[k]], HeadsIn(g, LastUsed(g), k))
  {
    hide AllHeads, Snapshot.PointedTo, Snapshot.WellFormed, Places, AllKept, LastUsed, Layout;
    WellFormedChunks(g);
    UsedFits(g);
    var heads, used := HeadsIn(g, LastUsed(g), k), LastUsed(g);
    var p := Tail(g.chunks, used, k);
    forall a | a in heads
      ensures OneBlock(m, g.chunks[k], heads, a)
      ensures a != p ==> LivePlace(g, k, a) && BlockEnd(m, a) <= p
    {
      if a in Places(g, |g.Headers()|) {
        assert LivePlace(g, k, a);
        PlaceFacts(g, m, k, a);
      }
    }
    forall a, b | a in heads && b in heads && a < b ensures BlockEnd(m, a) <= b {
      if a != p && b != p {
        PlacesApart(g, m, a, b);
      }
    }
    StartIsHead(g, k);
    OneChunkLayout(m, g.chunks[k], heads);
  }

  lemma UsedFits(g: Snapshot)
    requires g.WellFormed()
    ensures |LastUsed(g)| == |g.chunks| && forall k :: 0 <= k < |g.chunks| ==> LastUsed(g)[k] <= g.chunks[k].size
  {
    hide AllHeads, StateAt, Snapshot.WellFormed;
    LastState(g);
  }

  lemma StartIsHead(g: Snapshot, k: nat)
    requires g.WellFormed() && k < |g.chunks| == |LastUsed(g)|
    ensures g.chunks[k].start in HeadsIn(g, LastUsed(g), k)
  {
    hide AllHeads, Snapshot.PointedTo, Snapshot.WellFormed, StateAt, Places, Packed;
    WellFormedChunks(g);
    AllPacked(g, |g.Headers()|);
    PackedStart(g.chunks, LastUsed(g), Places(g, |g.Headers()|), k);
  }

  lemma PackedStart(chunks: seq<Chunk>, used: seq<nat>, places: map<int, nat>, k: nat)
    requires Packed(chunks, used, places) && k < |chunks|
    ensures used[k] > 0 ==> chunks[k].start in places
  {
    hide Fills;
  }

  lemma OldBlock(m: Memory, cs: seq<Chunk>, heads: set<int>, c: Chunk, more: set<int>, h: int)
    requires ChunksOk(cs + [c], |m|) && BlockOk(m, cs, h) && EndsWell(m, cs, heads, h)
    ensures BlockOk(m, cs + [c], h) && EndsWell(m, cs + [c], heads + more, h) && h < c.start && BlockEnd(m, h) < c.start
  {
    var all := cs + [c];
    var k :| BlockInChunk(m, cs, h, k);
    assert BlockInChunk(m, all, h, k) && all[k].End() < all[|cs|].start;
    forall j | BlockInChunk(m, all, h, j) ensures BlockInChunk(m, cs, h, j) {
      assert j == |cs| ==> h >= c.start;
    }
  }

  lemma NewBlock(m: Memory, cs: seq<Chunk>, heads: set<int>, c: Chunk, more: set<int>, h: int)
    requires ChunksOk(cs + [c], |m|) && BlockOk(m, [c], h) && EndsWell(m, [c], more, h)
    ensures BlockOk(m, cs + [c], h) && EndsWell(m, cs + [c], heads + more, h) && h >= c.start
  {
    var all := cs + [c];
    assert BlockInChunk(m, [c], h, 0) && BlockInChunk(m, all, h, |cs|);
    forall j | BlockInChunk(m, all, h, j) ensures j == |cs| {
      SameChunk(all, |m|, j, |cs|, h);
    }
  }

  lemma LayoutConcat(m: Memory, cs: seq<Chunk>, heads: set<int>, c: Chunk, more: set<int>)
    requires Layout(m, cs, heads) && Layout(m, [c], more) && ChunksOk(cs + [c], |m|)
    ensures Layout(m, cs + [c], heads + more)
  {
    hide BlockOk, EndsWell, BlockEnd, ChunksOk;
    var all := cs + [c];
    forall h | h in heads
      ensures BlockOk(m, all, h) && EndsWell(m, all, heads + more, h) && h < c.start && BlockEnd(m, h) < c.start
    {
      assert BlockOk(m, cs, h) && EndsWell(m, cs, heads, h);
      OldBlock(m, cs, heads, c, more, h);
    }
    forall h | h in more
      ensures BlockOk(m, all, h) && EndsWell(m, all, heads + more, h) && h >= c.start
    {
      assert BlockOk(m, [c], h) && EndsWell(m, [c], more, h);
      NewBlock(m, cs, heads, c, more, h);
    }
    assert [c][0].start in more;
    forall k | 0 <= k < |all| ensures all[k].start in heads + more {
      assert k < |cs| ==> all[k] == cs[k];
    }
  }

  // The loop.

  /** The first `k` chunks are tiled, and their remainders are on the list. */
  ghost predicate Rebuilt(g: Snapshot, m: Memory, head: int, k: nat) {
    var used := LastUsed(g);
    && k <= |g.chunks| == |used|
    && Layout(m, g.chunks[..k], NewHeads(g, used, k))
    && FreeListOk(m, g.chunks[..k], NewHeads(g, used, k), head, Remainders(g.chunks, used, k), NONE)
    && AllSwept(m, NewHeads(g, used, k))
  }

  lemma RemaindersBelow(chunks: seq<Chunk>, used: seq<nat>, n: nat, k: nat)
    requires k <= |chunks| == |used| && ChunksOk(chunks, n)
    requires forall j :: 0 <= j < |chunks| ==> used[j] <= chunks[j].size
    ensures forall b :: b in Remainders(chunks, used, k) ==>
      !InUsed(chunks, used, b) && InHeap(chunks, b) && forall j :: k <= j < |chunks| ==> b < chunks[j].start
  {
    if k > 0 {
      RemaindersBelow(chunks, used, n, k - 1);
      var b := Tail(chunks, used, k - 1) + 1;
      if used[k - 1] + 1 < chunks[k - 1].size {
        assert InChunk(chunks[k - 1], b);
        NotUsed(chunks, used, n, k - 1, b);
      }
    }
  }

  lemma NotUsed(chunks: seq<Chunk>, used: seq<nat>, n: nat, k: nat, a: int)
    requires k < |chunks| == |used| && ChunksOk(chunks, n) && InChunk(chunks[k], a) && a >= Tail(chunks, used, k)
    requires forall j :: 0 <= j < |chunks| ==> used[j] <= chunks[j].size
    ensures !InUsed(chunks, used, a)
  {
    forall j: nat | j < |chunks| ensures !(chunks[j].start <= a < Tail(chunks, used, j)) {
      if chunks[j].start <= a < Tail(chunks, used, j) {
        SameChunk(chunks, n, j, k, a);
      }
    }
  }

  lemma SentinelApart(m: Memory, chunks: seq<Chunk>, head: int, k: nat, a: int)
    requires SentinelOk(m, chunks, head) && k < |chunks| && InChunk(chunks[k], a)
    ensures a != head && a != head - 1
  {
  }

  lemma SentinelPrefix(m: Memory, m': Memory, chunks: seq<Chunk>, head: int, k: nat)
    requires SentinelOk(m, chunks, head) && k <= |chunks| && |m'| == |m| && m'[head - 1] == m[head - 1]
    ensures SentinelOk(m', chunks[..k], head) && SentinelOk(m', chunks, head)
  {
  }

  /** The loop starts with an empty list. */
  lemma NothingRebuilt(g: Snapshot, m: Memory, head: int)
    requires g.WellFormed() && SentinelOk(m, g.chunks, head) && m[head] == Ptr(0)
    ensures Rebuilt(g, m, head, 0)
  {
    hide AllHeads, Snapshot.WellFormed, StateAt, AllTiled;
    UsedFits(g);
    SentinelPrefix(m, m, g.chunks, head, 0);
  }

  lemma NewHeadsNext(g: Snapshot, used: seq<nat>, k: nat)
    requires k < |g.chunks| == |used|
    ensures NewHeads(g, used, k + 1) == NewHeads(g, used, k) + HeadsIn(g, used, k)
  {
  }

  /** What the loop writes: the header of the remainder of chunk `k`. */
  lemma TailStep(g: Snapshot, m0: Memory, m: Memory, m1: Memory, head: int, k: nat)
    requires g.WellFormed() && AllKept(g, m0) && |m0| == |g.mem| == |m| && k < |g.chunks| == |LastUsed(g)|
    requires UsedKept(g.chunks, LastUsed(g), m0, m, head) && SentinelOk(m, g.chunks, head) && Rebuilt(g, m, head, k)
    requires var used, p := LastUsed(g), Tail(g.chunks, LastUsed(g), k);
      m1 == if used[k] < g.chunks[k].size && p < |m| then m[p := Hdr(g.chunks[k].size - used[k] - 1, 0, White)] else m
    ensures UsedKept(g.chunks, LastUsed(g), m0, m1, head) && SentinelOk(m1, g.chunks, head)
    ensures Layout(m1, g.chunks[..k + 1], NewHeads(g, LastUsed(g), k + 1))
    ensures FreeListOk(m1, g.chunks[..k + 1], NewHeads(g, LastUsed(g), k + 1), head, Remainders(g.chunks, LastUsed(g), k), NONE)
    ensures AllSwept(m1, NewHeads(g, LastUsed(g), k + 1))
  {
    hide AllHeads, Snapshot.WellFormed, Snapshot.PointedTo, StateAt, AllKept, LastUsed, Places, Layout, UsedKept, FreeListOk, HeadsIn, SentinelOk;
    hide NewHeads, Remainders, InHeap, InUsed, BlockEnd;
    NewHeadsNext(g, LastUsed(g), k);
    var used, heads := LastUsed(g), NewHeads(g, LastUsed(g), k);
    var cs, p := g.chunks[..k], Tail(g.chunks, LastUsed(g), k);
    WellFormedChunks(g);
    UsedFits(g);
    TailUnused(g.chunks, used, |m|, k);
    HeadOutside(m, g.chunks, head);
    UsedStep(g.chunks, used, m0, m, m1, head);
    TailNotSentinel(m, m1, g.chunks, used, head, k);
    UsedKeepsBlocks(g, m0, m1, head);
    ChunkLayout(g, m1, k);
    HeadersBefore(m, g.chunks, heads, k);
    LayoutSameSizes(m, m1, cs, heads);
    assert cs + [g.chunks[k]] == g.chunks[..k + 1];
    LayoutConcat(m1, cs, heads, g.chunks[k], HeadsIn(g, used, k));
    RemaindersBelow(g.chunks, used, |m|, k);
    AllWhite(g, m1, k);
    ListExtended(m, m1, g.chunks, heads, HeadsIn(g, used, k), head, Remainders(g.chunks, used, k), k);
  }

  lemma TailUnused(chunks: seq<Chunk>, used: seq<nat>, n: nat, k: nat)
    requires k < |chunks| == |used| && ChunksOk(chunks, n)
    requires forall j :: 0 <= j < |chunks| ==> used[j] <= chunks[j].size
    ensures forall a :: Tail(chunks, used, k) <= a < chunks[k].End() ==> InHeap(chunks, a) && !InUsed(chunks, used, a)
  {
    hide InUsed;
    forall a | Tail(chunks, used, k) <= a < chunks[k].End() ensures InHeap(chunks, a) && !InUsed(chunks, used, a) {
      assert InChunk(chunks[k], a);
      NotUsed(chunks, used, n, k, a);
    }
  }

  lemma UsedStep(chunks: seq<Chunk>, used: seq<nat>, m0: Memory, m: Memory, m1: Memory, head: int)
    requires |chunks| == |used| && UsedKept(chunks, used, m0, m, head) && |m1| == |m|
    requires forall a :: 0 <= a < |m| && m1[a] != m[a] ==> a == head || (InHeap(chunks, a) && !InUsed(chunks, used, a))
    requires !InHeap(chunks, head) && forall k :: 0 <= k < |chunks| ==> used[k] <= chunks[k].size
    ensures UsedKept(chunks, used, m0, m1, head)
  {
    hide InHeap;
    assert InUsed(chunks, used, head) ==> InHeap(chunks, head) by {
      UsedInHeap(chunks, used, m0, head);
    }
  }

  lemma UsedInHeap(chunks: seq<Chunk>, used: seq<nat>, m: Memory, a: int)
    requires |chunks| == |used| && forall k :: 0 <= k < |chunks| ==> used[k] <= chunks[k].size
    ensures InUsed(chunks, used, a) ==> InHeap(chunks, a)
  {
    if InUsed(chunks, used, a) {
      var k: nat :| k < |chunks| && chunks[k].start <= a < Tail(chunks, used, k);
      assert InChunk(chunks[k], a);
    }
  }

  lemma TailNotSentinel(m: Memory, m1: Memory, chunks: seq<Chunk>, used: seq<nat>, head: int, k: nat)
    requires SentinelOk(m, chunks, head) && k < |chunks| == |used| && |m1| == |m|
    requires forall a :: 0 <= a < |m| && m1[a] != m[a] ==> a == Tail(chunks, used, k) && used[k] < chunks[k].size
    ensures SentinelOk(m1, chunks, head) && m1[head] == m[head]
  {
    assert used[k] < chunks[k].size ==> InChunk(chunks[k], Tail(chunks, used, k));
  }

  /** The blocks stay where they are, as long as the used parts are left alone. */
  lemma UsedKeepsBlocks(g: Snapshot, m: Memory, m': Memory, head: int)
    requires g.WellFormed() && AllKept(g, m) && |LastUsed(g)| == |g.chunks|
    requires UsedKept(g.chunks, LastUsed(g), m, m', head)
    ensures AllKept(g, m')
  {
    hide AllHeads, Snapshot.WellFormed, Snapshot.PointedTo, StateAt, LastUsed, Places, UsedKept, BlockKept;
    forall h | g.PointedTo(h) ensures BlockKept(g, m', h) {
      assert BlockKept(g, m, h);
      UsedKeepsBlock(g, m, m', head, h);
    }
  }

  lemma UsedKeepsBlock(g: Snapshot, m: Memory, m': Memory, head: int, h: int)
    requires g.WellFormed() && g.PointedTo(h) && BlockKept(g, m, h) && |LastUsed(g)| == |g.chunks|
    requires UsedKept(g.chunks, LastUsed(g), m, m', head)
    ensures BlockKept(g, m', h)
  {
    hide AllHeads, Snapshot.WellFormed, Snapshot.PointedTo, StateAt, LastUsed, Places, InUsed, NewFields, InHeap, Moved, Packed;
    var n, sz := Moved(g, h), g.mem[h].size;
    BlockUsed(g, h);
    forall a | n <= a < n + 1 + sz ensures InUsed(g.chunks, LastUsed(g), a) && m'[a] == m[a] { }
    assert m'[n..n + 1 + sz] == m[n..n + 1 + sz];
  }

  lemma BlockUsed(g: Snapshot, h: int)
    requires g.WellFormed() && g.PointedTo(h) && g.IsLiveHeader(h)
    ensures |LastUsed(g)| == |g.chunks|
    ensures forall a :: Moved(g, h) <= a < Moved(g, h) + g.mem[h].WhSize() ==> InUsed(g.chunks, LastUsed(g), a)
  {
    hide AllHeads, Snapshot.WellFormed, Snapshot.PointedTo, StateAt, Places, Moved, Packed;
    var n := Moved(g, h);
    UsedFits(g);
    BlockPlace(g, h);
    var h' := PlaceBlock(g, n);
    AllPacked(g, |g.Headers()|);
    if h' != h {
      MovedApart(g, h, h');
    }
    var c := FilledChunk(g.chunks, LastUsed(g), Places(g, |g.Headers()|), n);
  }

  lemma FilledChunk(chunks: seq<Chunk>, used: seq<nat>, places: map<int, nat>, a: int) returns (c: nat)
    requires Packed(chunks, used, places) && a in places
    ensures c < |chunks| && chunks[c].start <= a && a + places[a] <= Tail(chunks, used, c)
  {
    assert Fills(chunks, used, places, a);
    c :| FillsTo(chunks, used, places, a, c);
  }

  lemma HeadersBefore(m: Memory, chunks: seq<Chunk>, heads: set<int>, k: nat)
    requires k < |chunks| && ChunksOk(chunks, |m|) && Layout(m, chunks[..k], heads)
    ensures forall h :: h in heads ==> 0 <= h < |m| && m[h].Hdr? && h < chunks[k].start && BlockEnd(m, h) < chunks[k].start
  {
    hide EndsWell;
    forall h | h in heads ensures 0 <= h < |m| && m[h].Hdr? && h < chunks[k].start && BlockEnd(m, h) < chunks[k].start {
      assert BlockOk(m, chunks[..k], h);
      var j :| BlockInChunk(m, chunks[..k], h, j);
      assert chunks[j].End() < chunks[k].start;
    }
  }

  lemma AllWhite(g: Snapshot, m: Memory, k: nat)
    requires g.WellFormed() && AllKept(g, m) && k < |g.chunks| == |LastUsed(g)|
    requires LastUsed(g)[k] < g.chunks[k].size ==> HasColor(m, Tail(g.chunks, LastUsed(g), k), White)
    ensures forall h :: h in HeadsIn(g, LastUsed(g), k) ==> HasColor(m, h, White)
  {
    hide AllHeads, Snapshot.WellFormed, Snapshot.PointedTo, StateAt, Places, AllKept, LastUsed;
    forall h | h in HeadsIn(g, LastUsed(g), k) ensures HasColor(m, h, White) {
      if h in Places(g, |g.Headers()|) {
        KeptPlace(g, m, h);
      }
    }
  }

  lemma InsertColors(m: Memory, m': Memory, chunks: seq<Chunk>, heads: set<int>, head: int, list: seq<int>, p: int)
    requires AllSwept(m, heads) && p in heads && 0 <= p && p + 1 < |m| && HasColor(m, p, White) && m[p].size != 0
    requires 0 <= Node(head, list, |list|) < |m| && m' == m[p := m[p].(color := Blue)][p + 1 := Ptr(0)][Node(head, list, |list|) := Ptr(p + 1)]
    requires Layout(m, chunks, heads) && FreeListOk(m, chunks, heads, head, list, p)
    ensures AllSwept(m', heads)
  {
    hide Layout, FreeListOk;
    InsertWords(m, m', chunks, heads, {}, head, list, |list|, p);
  }

  /** The free list stays as it is when a chunk without free blocks is added. */
  lemma ListExtended(m: Memory, m1: Memory, chunks: seq<Chunk>, heads: set<int>, more: set<int>, head: int, list: seq<int>, k: nat)
    requires k < |chunks| && |m1| == |m| && FreeListOk(m, chunks[..k], heads, head, list, NONE)
    requires SentinelOk(m1, chunks, head) && m1[head] == m[head]
    requires forall h :: h in heads ==> h < chunks[k].start
    requires forall b :: b in list ==> b < chunks[k].start
    requires forall a :: 0 <= a < |m| && m1[a] != m[a] ==> a >= chunks[k].start
    requires forall h :: h in more ==> !HasColor(m1, h, Blue)
    ensures FreeListOk(m1, chunks[..k + 1], heads + more, head, list, NONE)
  {
    hide Links;
    SentinelPrefix(m1, m1, chunks, head, k + 1);
    LinksFrame(m, m1, head, list, Ptr(0));
    forall b | b in list ensures FreeBlock(m1, heads + more, b) {
      assert FreeBlock(m, heads, b);
    }
    forall h | h in heads + more && HasColor(m1, h, Blue) && h != NONE ensures h + 1 in list {
      assert h in heads && HasColor(m, h, Blue);
    }
  }

  /** The last word of the new list. */
  ghost function LastNode(chunks: seq<Chunk>, used: seq<nat>, head: int, k: nat): int
    requires k <= |chunks| == |used|
  {
    Node(head, Remainders(chunks, used, k), |Remainders(chunks, used, k)|)
  }

  /** The tests of the merging code fail: nothing precedes or follows the remainder, because
      no chunk touches another. */
  lemma NothingToMerge(g: Snapshot, m: Memory, m1: Memory, head: int, k: nat)
    requires g.WellFormed() && k < |g.chunks| == |LastUsed(g)| && Rebuilt(g, m, head, k) && |m1| == |m| == |g.mem|
    requires forall a :: 0 <= a < |m| && m1[a] != m[a] ==> a >= g.chunks[k].start
    requires SentinelOk(m1, g.chunks, head) && m1[head] == m[head]
    ensures var prev, p := LastNode(g.chunks, LastUsed(g), head, k), Tail(g.chunks, LastUsed(g), k);
      && 1 <= prev < |m| && m1[prev] == Ptr(0) && m1[prev - 1].Hdr?
      && (LastUsed(g)[k] < g.chunks[k].size ==> prev + m1[prev - 1].size != p)
  {
    hide AllHeads, Snapshot.WellFormed, Snapshot.PointedTo, StateAt, Places, LastUsed, Layout, Links, Ascending;
    var list, heads := Remainders(g.chunks, LastUsed(g), k), NewHeads(g, LastUsed(g), k);
    WellFormedChunks(g);
    HeadersBefore(m, g.chunks, heads, k);
    LinksHead(m, head, list, Ptr(0));
    if list == [] {
      if LastUsed(g)[k] < g.chunks[k].size {
        SentinelApart(m1, g.chunks, head, k, Tail(g.chunks, LastUsed(g), k));
      }
    } else {
      var b := list[|list| - 1];
      LinksAt(m, head, list, Ptr(0), |list| - 1);
      NodeFacts(m, g.chunks[..k], heads, head, list, NONE, b);
      assert BlockEnd(m, b - 1) < g.chunks[k].start;
    }
  }

  /** The remainder of chunk `k` goes to the end of the list. */
  lemma InsertStep(g: Snapshot, m0: Memory, m1: Memory, m2: Memory, head: int, k: nat)
    requires g.WellFormed() && |m0| == |g.mem| && k < |g.chunks| == |LastUsed(g)|
    requires UsedKept(g.chunks, LastUsed(g), m0, m1, head) && SentinelOk(m1, g.chunks, head)
    requires Layout(m1, g.chunks[..k + 1], NewHeads(g, LastUsed(g), k + 1))
    requires FreeListOk(m1, g.chunks[..k + 1], NewHeads(g, LastUsed(g), k + 1), head, Remainders(g.chunks, LastUsed(g), k), NONE)
    requires LastUsed(g)[k] + 1 < g.chunks[k].size && AllSwept(m1, NewHeads(g, LastUsed(g), k + 1))
    requires var p, prev := Tail(g.chunks, LastUsed(g), k), LastNode(g.chunks, LastUsed(g), head, k);
      && p + 1 < |m1| && 0 <= prev < |m1| && HasColor(m1, p, White) && m1[p].size != 0
      && m2 == m1[p := m1[p].(color := Blue)][p + 1 := Ptr(0)][prev := Ptr(p + 1)]
    ensures UsedKept(g.chunks, LastUsed(g), m0, m2, head) && SentinelOk(m2, g.chunks, head)
    ensures Rebuilt(g, m2, head, k + 1)
  {
    hide AllHeads, Snapshot.WellFormed, Snapshot.PointedTo, StateAt, LastUsed, Places, Layout, FreeListOk, SentinelOk, UsedKept, InUsed, Remainders, NewHeads, MergePoint, InHeap;
    var used, list := LastUsed(g), Remainders(g.chunks, LastUsed(g), k);
    var cs, heads := g.chunks[..k + 1], NewHeads(g, LastUsed(g), k + 1);
    var p, prev := Tail(g.chunks, used, k), LastNode(g.chunks, used, head, k);
    WellFormedChunks(g);
    UsedFits(g);
    TailUnused(g.chunks, used, |m0|, k);
    EndOfList(g.chunks, used, |m0|, head, k);
    TailIsHead(g, k);
    ExceptWhite(m1, cs, heads, head, list, p);
    InsertBlock(m1, cs, heads, head, list, |list|, p);
    InsertColors(m1, m2, cs, heads, head, list, p);
    HeadOutside(m1, g.chunks, head);
    UsedStep(g.chunks, used, m0, m1, m2, head);
    SentinelAfter(m1, m2, g.chunks, used, head, k, prev);
  }

  lemma EndOfList(chunks: seq<Chunk>, used: seq<nat>, n: nat, head: int, k: nat)
    requires k < |chunks| == |used| && ChunksOk(chunks, n) && used[k] + 1 < chunks[k].size
    requires forall j :: 0 <= j < |chunks| ==> used[j] <= chunks[j].size
    ensures var list, p, prev := Remainders(chunks, used, k), Tail(chunks, used, k), LastNode(chunks, used, head, k);
      && MergePoint(list, |list|, p)
      && list[..|list|] + [p + 1] + list[|list|..] == Remainders(chunks, used, k + 1)
      && (prev == head || (InHeap(chunks, prev) && !InUsed(chunks, used, prev)))
  {
    hide InUsed, InHeap;
    var list := Remainders(chunks, used, k);
    RemaindersBelow(chunks, used, n, k);
    assert forall i :: 0 <= i < |list| ==> list[i] in list;
  }

  lemma TailIsHead(g: Snapshot, k: nat)
    requires k < |g.chunks| == |LastUsed(g)| && LastUsed(g)[k] < g.chunks[k].size
    ensures Tail(g.chunks, LastUsed(g), k) in NewHeads(g, LastUsed(g), k + 1)
  {
    hide LastUsed, Places;
  }

  lemma HeadOutside(m: Memory, chunks: seq<Chunk>, head: int)
    requires SentinelOk(m, chunks, head)
    ensures !InHeap(chunks, head) && 1 <= head < |m|
  {
  }

  lemma SentinelAfter(m: Memory, m': Memory, chunks: seq<Chunk>, used: seq<nat>, head: int, k: nat, prev: int)
    requires SentinelOk(m, chunks, head) && k < |chunks| == |used| && |m'| == |m| && used[k] + 1 < chunks[k].size
    requires forall a :: 0 <= a < |m| && m'[a] != m[a] ==> a == Tail(chunks, used, k) || a == Tail(chunks, used, k) + 1 || a == prev
    requires prev == head || InHeap(chunks, prev)
    ensures SentinelOk(m', chunks, head)
  {
    assert InChunk(chunks[k], Tail(chunks, used, k)) && InChunk(chunks[k], Tail(chunks, used, k) + 1);
  }

  // After the loop.

  /** The values of the roots. */
  ghost function RootWords(g: Snapshot, m: Memory): seq<Word> {
    seq(|g.roots|, i requires 0 <= i < |g.roots| => if 0 <= g.roots[i] < |m| then m[g.roots[i]] else Int(0))
  }

  /** The heap is compacted and ready for the collector and the allocator: tiled by the
      live blocks and the remainders, with just the latter on the free list, every field and
      root holding an integer, a pointer out of the heap, or a pointer to a live block. */
  ghost predicate Ready(g: Snapshot, m: Memory, head: int) {
    var used := LastUsed(g);
    && |used| == |g.chunks|
    && Compacted(g, m) && OutsideKept(g, m, head)
    && HeapOk(m, g.chunks, NewHeads(g, used, |g.chunks|), RootWords(g, m), Places(g, |g.Headers()|).Keys)
    && FreeListOk(m, g.chunks, NewHeads(g, used, |g.chunks|), head, Remainders(g.chunks, used, |g.chunks|), NONE)
    && AllSwept(m, NewHeads(g, used, |g.chunks|))
  }

  lemma UsedKeepsCompacted(g: Snapshot, m: Memory, m': Memory, head: int)
    requires g.WellFormed() && Compacted(g, m) && OutsideKept(g, m, head) && |LastUsed(g)| == |g.chunks|
    requires head !in g.roots && UsedKept(g.chunks, LastUsed(g), m, m', head)
    ensures Compacted(g, m') && OutsideKept(g, m', head)
  {
    hide AllHeads, Snapshot.WellFormed, Snapshot.PointedTo, StateAt, LastUsed, InUsed, InHeap, BlockKept, Rename, Moved, Disjoint;
    assert AllKept(g, m);
    UsedKeepsBlocks(g, m, m', head);
    RootsOutside(g);
  }

  lemma {:induction false} PlaceInHeads(g: Snapshot, a: int, c: nat, k: nat)
    requires c < k <= |g.chunks| == |LastUsed(g)| && LivePlace(g, c, a)
    ensures a in NewHeads(g, LastUsed(g), k)
  {
    hide AllHeads, LastUsed, Places;
    if c < k - 1 {
      PlaceInHeads(g, a, c, k - 1);
    }
  }

  /** The place of a live block is the header of an allocated block. */
  lemma PlaceIsBlock(g: Snapshot, m: Memory, a: int)
    requires g.WellFormed() && AllKept(g, m) && a in Places(g, |g.Headers()|)
    ensures |LastUsed(g)| == |g.chunks| && IsBlock(m, NewHeads(g, LastUsed(g), |g.chunks|), a)
  {
    hide AllHeads, Snapshot.WellFormed, Snapshot.PointedTo, StateAt, Places, AllKept, Packed, NewHeads, Moved;
    KeptPlace(g, m, a);
    UsedFits(g);
    AllPacked(g, |g.Headers()|);
    var c := FilledChunk(g.chunks, LastUsed(g), Places(g, |g.Headers()|), a);
    PlaceFits(g, m, c, a);
    PlaceInHeads(g, a, c, |g.chunks|);
  }

  lemma PlaceFits(g: Snapshot, m: Memory, c: nat, a: int)
    requires g.WellFormed() && |LastUsed(g)| == |g.chunks| && c < |g.chunks| && a in Places(g, |g.Headers()|)
    requires g.chunks[c].start <= a && a + Places(g, |g.Headers()|)[a] <= Tail(g.chunks, LastUsed(g), c)
    ensures LivePlace(g, c, a)
  {
    hide AllHeads, Snapshot.WellFormed, Snapshot.PointedTo, StateAt, Places, LastUsed, Moved;
    UsedFits(g);
    var h := PlaceBlock(g, a);
  }

  /** A slot's new value is a good one. */
  lemma GoodRenamed(g: Snapshot, s: int)
    requires g.WellFormed() && g.IsSlot(s)
    ensures 0 <= s < |g.mem| && GoodWord(g.chunks, Places(g, |g.Headers()|).Keys, Rename(g, g.mem[s]))
  {
    hide AllHeads, AllTiled, Snapshot.WellFormed, Snapshot.IsSlot, Places, Moved, InHeap;
    SlotFacts(g, s);
    if g.HeapPtr(s) {
      var h := g.mem[s].addr - 1;
      assert g.PointsTo(s, h) && g.PointedTo(h);
      BlockPlace(g, h);
    }
  }

  lemma GoodPlaceField(g: Snapshot, m: Memory, a: int, s: int)
    requires g.WellFormed() && AllKept(g, m) && a in Places(g, |g.Headers()|) && FieldIn(m, a, s)
    ensures GoodWord(g.chunks, Places(g, |g.Headers()|).Keys, m[s])
  {
    hide AllHeads, Snapshot.WellFormed, Snapshot.PointedTo, Snapshot.IsSlot, Places, AllKept, Moved, Rename, GoodWord, NewFields, BlockKept;
    var h := PlaceBlock(g, a);
    assert BlockKept(g, m, h) by { AllKeptAt(g, m, h); }
    var t := s - a - 1;
    KeptHeader(g, m, h);
    FieldOfKeptBlock(g, m, h, t);
    InsideBlock(g, h, h + 1 + t);
    GoodRenamed(g, h + 1 + t);
  }

  lemma AllKeptAt(g: Snapshot, m: Memory, h: int)
    requires AllKept(g, m) && g.PointedTo(h)
    ensures BlockKept(g, m, h)
  {
  }

  /** The loop leaves the heap ready. */
  lemma AllRebuilt(g: Snapshot, m0: Memory, m: Memory, head: int)
    requires g.WellFormed() && Compacted(g, m0) && OutsideKept(g, m0, head) && head !in g.roots
    requires |LastUsed(g)| == |g.chunks| && UsedKept(g.chunks, LastUsed(g), m0, m, head) && Rebuilt(g, m, head, |g.chunks|)
    ensures Ready(g, m, head)
  {
    hide AllHeads, Snapshot.WellFormed, Snapshot.PointedTo, Snapshot.IsSlot, StateAt, LastUsed, Places, Layout, FreeListOk, UsedKept, BlockKept, Rename, Moved, Disjoint, GoodWord, IsBlock, NewHeads, Remainders;
    assert g.chunks[..|g.chunks|] == g.chunks;
    UsedKeepsCompacted(g, m0, m, head);
    assert AllKept(g, m);
    var known := Places(g, |g.Headers()|).Keys;
    forall a | a in known ensures IsBlock(m, NewHeads(g, LastUsed(g), |g.chunks|), a) {
      PlaceIsBlock(g, m, a);
    }
    forall a, s | a in known && FieldIn(m, a, s) ensures GoodWord(g.chunks, known, m[s]) {
      GoodPlaceField(g, m, a, s);
    }
    forall w | w in RootWords(g, m) ensures GoodWord(g.chunks, known, w) {
      var i :| 0 <= i < |g.roots| && RootWords(g, m)[i] == w;
      GoodRoot(g, m, i);
    }
  }

  lemma GoodRoot(g: Snapshot, m: Memory, i: nat)
    requires g.WellFormed() && Compacted(g, m) && i < |g.roots|
    ensures GoodWord(g.chunks, Places(g, |g.Headers()|).Keys, RootWords(g, m)[i])
  {
    hide AllHeads, Snapshot.WellFormed, Snapshot.PointedTo, Places, BlockKept, Rename, Moved, Disjoint, GoodWord;
    RootsOutside(g);
    assert g.roots[i] in g.roots && g.IsSlot(g.roots[i]);
    GoodRenamed(g, g.roots[i]);
  }
}
