/** The virtual allocator of the compactor: live blocks are given new places, first fit,
    packing every chunk from its start. */
module CompactAlloc {
  import opened Words
  import opened Tiling

  /** How many words of each chunk are taken, and the chunk where searching starts. */
  datatype AllocState = AllocState(used: seq<nat>, fl: nat)

  function Free(chunks: seq<Chunk>, s: AllocState, k: nat): int
    requires k < |chunks| == |s.used|
  {
    chunks[k].size - s.used[k]
  }

  /** The source reads the header of the chunk that follows the start of the search without
      asking whether there is one. It does so exactly when this loop reaches the last
      chunk, which happens exactly when no chunk from there on has more than four words. */
  function SkipFull(chunks: seq<Chunk>, s: AllocState, k: nat): (r: nat)
    requires k < |chunks| == |s.used|
    ensures k <= r < |chunks|
    decreases |chunks| - k
  {
    if k + 1 < |chunks| && Free(chunks, s, k) <= 4 && Free(chunks, s, k + 1) <= 4
    then SkipFull(chunks, s, k + 1)
    else k
  }

  ghost predicate ReadsPastLastChunk(chunks: seq<Chunk>, s: AllocState)
    requires s.fl < |chunks| == |s.used|
  {
    var r := SkipFull(chunks, s, s.fl);
    r + 1 == |chunks| && Free(chunks, s, r) <= 4
  }

  lemma {:induction false} SkipFullReachesEnd(chunks: seq<Chunk>, s: AllocState, k: nat)
    requires k < |chunks| == |s.used|
    ensures var r := SkipFull(chunks, s, k);
      (r + 1 == |chunks| && Free(chunks, s, r) <= 4) <==> forall j :: k <= j < |chunks| ==> Free(chunks, s, j) <= 4
    decreases |chunks| - k
  {
    if k + 1 < |chunks| && Free(chunks, s, k) <= 4 && Free(chunks, s, k + 1) <= 4 {
      SkipFullReachesEnd(chunks, s, k + 1);
    }
  }

  lemma ReadsPastLastChunkIff(chunks: seq<Chunk>, s: AllocState)
    requires s.fl < |chunks| == |s.used|
    ensures ReadsPastLastChunk(chunks, s) <==> forall j :: s.fl <= j < |chunks| ==> Free(chunks, s, j) <= 4
  {
    SkipFullReachesEnd(chunks, s, s.fl);
  }

  /** No chunk has more than four words left. */
  ghost predicate NoRoom(chunks: seq<Chunk>, s: AllocState) {
    |s.used| == |chunks| && forall c :: 0 <= c < |chunks| ==> Free(chunks, s, c) <= 4
  }

  lemma {:induction false} SkipFullPassed(chunks: seq<Chunk>, s: AllocState, k: nat)
    requires k < |chunks| == |s.used|
    ensures forall c :: k <= c < SkipFull(chunks, s, k) ==> Free(chunks, s, c) <= 4
    decreases |chunks| - k
  {
    if k + 1 < |chunks| && Free(chunks, s, k) <= 4 && Free(chunks, s, k + 1) <= 4 {
      SkipFullPassed(chunks, s, k + 1);
    }
  }

  /** The first chunk from `k` on with `size` free words. */
  function FirstFit(chunks: seq<Chunk>, s: AllocState, k: nat, size: nat): (r: nat)
    requires k <= |chunks| == |s.used|
    ensures k <= r <= |chunks|
    ensures r < |chunks| ==> Free(chunks, s, r) >= size
    ensures forall j :: k <= j < r ==> Free(chunks, s, j) < size
    decreases |chunks| - k
  {
    if k < |chunks| && Free(chunks, s, k) < size then FirstFit(chunks, s, k + 1, size) else k
  }

  ghost predicate CanAllocate(chunks: seq<Chunk>, s: AllocState, size: nat) {
    s.fl < |chunks| == |s.used| && FirstFit(chunks, s, SkipFull(chunks, s, s.fl), size) < |chunks|
  }

  ghost function Address(chunks: seq<Chunk>, s: AllocState, size: nat): int
    requires CanAllocate(chunks, s, size)
  {
    var c := FirstFit(chunks, s, SkipFull(chunks, s, s.fl), size);
    chunks[c].start + s.used[c]
  }

  ghost function After(chunks: seq<Chunk>, s: AllocState, size: nat): AllocState
    requires CanAllocate(chunks, s, size)
  {
    var fl := SkipFull(chunks, s, s.fl);
    var c := FirstFit(chunks, s, fl, size);
    AllocState(s.used[c := s.used[c] + size], fl)
  }

  /** The walk over the old blocks has reached address `p` of chunk `k`: nothing has been
      placed beyond that point. */
  ghost predicate Behind(chunks: seq<Chunk>, s: AllocState, k: nat, p: int) {
    && |s.used| == |chunks|
    && k < |chunks|
    && s.fl <= k
    && s.used[k] <= p - chunks[k].start
    && p <= chunks[k].End()
    && (forall j :: 0 <= j < |chunks| ==> s.used[j] <= chunks[j].size)
    && (forall j :: k < j < |chunks| ==> s.used[j] == 0)
  }

  /** The words [a, a + size) have been given out. */
  ghost predicate Taken(chunks: seq<Chunk>, s: AllocState, a: int, size: nat) {
    |s.used| == |chunks| &&
    exists c :: 0 <= c < |chunks| && chunks[c].start <= a && a + size <= chunks[c].start + s.used[c]
  }

  lemma {:induction false} SkipFullStays(chunks: seq<Chunk>, s: AllocState, j: nat, k: nat, p: int)
    requires Behind(chunks, s, k, p) && j <= k
    requires forall i :: 0 <= i < |chunks| ==> chunks[i].size > 4
    ensures SkipFull(chunks, s, j) <= k
    decreases k - j
  {
    if j < k {
      SkipFullStays(chunks, s, j + 1, k, p);
    }
  }

  /** A block that lies at `p` fits at or below `p`, whatever was allocated before. */
  lemma BehindStep(chunks: seq<Chunk>, n: nat, s: AllocState, k: nat, p: int, size: nat)
    requires ChunksOk(chunks, n) && Behind(chunks, s, k, p)
    requires p + size <= chunks[k].End()
    ensures CanAllocate(chunks, s, size)
    ensures Address(chunks, s, size) <= p
    ensures Behind(chunks, After(chunks, s, size), k, p + size)
    ensures Taken(chunks, After(chunks, s, size), Address(chunks, s, size), size)
  {
    SkipFullStays(chunks, s, s.fl, k, p);
    var fl := SkipFull(chunks, s, s.fl);
    assert Free(chunks, s, k) >= size;
    var c := FirstFit(chunks, s, fl, size);
    assert c <= k;
    var t := After(chunks, s, size);
    assert chunks[c].start + s.used[c] + size <= chunks[c].start + t.used[c];
  }

  /** Words given out stay given out, and are never given out twice. */
  lemma TakenStep(chunks: seq<Chunk>, n: nat, s: AllocState, size: nat, a: int, sz: nat)
    requires ChunksOk(chunks, n) && CanAllocate(chunks, s, size) && Taken(chunks, s, a, sz)
    requires forall j :: 0 <= j < |chunks| ==> s.used[j] <= chunks[j].size
    ensures Taken(chunks, After(chunks, s, size), a, sz)
    ensures a + sz <= Address(chunks, s, size) || Address(chunks, s, size) + size <= a
  {
    var c :| 0 <= c < |chunks| && chunks[c].start <= a && a + sz <= chunks[c].start + s.used[c];
    var t := After(chunks, s, size);
    assert chunks[c].start <= a && a + sz <= chunks[c].start + t.used[c];
    var d := FirstFit(chunks, s, SkipFull(chunks, s, s.fl), size);
    if c < d {
      assert chunks[c].End() < chunks[d].start;
    } else if d < c {
      assert chunks[d].End() < chunks[c].start;
    }
  }
}
