/** The heap graph the compactor starts from, and the invariant of pointer threading. */
module Threading {
  import opened Words
  import opened Tiling
  import opened LinkedWords

  /** An idle heap: memory, its chunks, and the addresses of the root slots. */
  datatype Snapshot = Snapshot(mem: Memory, chunks: seq<Chunk>, roots: seq<int>) {

    ghost function Headers(): seq<int> { AllHeads(mem, chunks) }

    ghost predicate IsLiveHeader(h: int) {
      0 <= h < |mem| && mem[h].Hdr? && mem[h].color == White && h in Headers()
    }

    /** `s` is the `s - h`th word of a block that holds values. */
    ghost predicate IsFieldOf(s: int, h: int) {
      IsLiveHeader(h) && mem[h].tag < NO_SCAN_TAG && h < s < h + mem[h].WhSize()
    }

    /** The words that hold values: fields of scanned blocks, and roots. */
    ghost predicate IsSlot(s: int) {
      0 <= s < |mem| && (s in roots || exists h :: IsFieldOf(s, h))
    }

    /** The word at `s` points into the heap. */
    ghost predicate HeapPtr(s: int) {
      0 <= s < |mem| && mem[s].Ptr? && InHeap(chunks, mem[s].addr)
    }

    ghost predicate PointsTo(s: int, h: int) {
      IsSlot(s) && HeapPtr(s) && mem[s].addr == h + 1
    }

    /** Some slot points to the block whose header is at `h`. */
    ghost predicate PointedTo(h: int) {
      exists s :: PointsTo(s, h)
    }

    /** The memory once the first `i` headers have been encoded. */
    ghost function EncodedUpTo(i: nat): (r: Memory)
      requires i <= |Headers()|
      ensures |r| == |mem|
    {
      seq(|mem|, a requires 0 <= a < |mem| => if a in Headers()[..i] && mem[a].Hdr? then Encode(mem[a]) else mem[a])
    }

    /** The memory once every header has been encoded. */
    ghost function Encoded(): (r: Memory) {
      EncodedUpTo(|Headers()|)
    }

    /** What the collector guarantees when it calls the compactor: the chunks are tiled by
        white and blue blocks, roots are distinct words outside the heap, values are
        integers or pointers, and a pointer into the heap points to a white block. */
    ghost predicate WellFormed() {
      && ChunksOk(chunks, |mem|)
      && AllTiled(mem, chunks)
      && (forall h :: h in Headers() ==> 0 <= h < |mem| && mem[h].Hdr? && (mem[h].color == White || mem[h].color == Blue))
      && (forall i, j :: 0 <= i < j < |roots| ==> roots[i] != roots[j])
      && (forall s :: s in roots ==> 0 <= s < |mem| && !InHeap(chunks, s))
      && (forall s :: IsSlot(s) ==>
            && !mem[s].IsHeader()
            && (HeapPtr(s) ==> IsLiveHeader(mem[s].addr - 1)))
    }
  }

  /** The first pass rewrites every header so that it cannot be taken for a pointer. A
      free block is given the tag of a string, so that it will not be scanned. */
  function Encode(w: Word): (r: Word)
    requires w.Hdr?
  {
    if w.color == Blue then Ehd(w.size, STRING_TAG) else Ehd(w.size, w.tag)
  }

  lemma HeadersInHeap(g: Snapshot)
    requires g.WellFormed()
    ensures forall h :: h in g.Headers() ==> InHeap(g.chunks, h) && 0 <= h < |g.mem| && g.mem[h].Hdr?
  {
    AllHeadsAreBlocks(g.mem, g.chunks, 0);
    forall h | h in g.Headers() ensures InHeap(g.chunks, h) {
      var k :| BlockInChunk(g.mem, g.chunks, h, k);
    }
  }

  /** What the encoded memory holds. */
  lemma EncodedWords(g: Snapshot)
    requires g.WellFormed()
    ensures |g.Encoded()| == |g.mem|
    ensures forall h :: h in g.Headers() ==> 0 <= h < |g.mem| && g.mem[h].Hdr? && g.Encoded()[h] == Encode(g.mem[h])
    ensures forall a :: 0 <= a < |g.mem| && a !in g.Headers() ==> g.Encoded()[a] == g.mem[a]
  {
    HeadersInHeap(g);
    assert g.Headers()[..|g.Headers()|] == g.Headers();
  }

  /** A slot is never a header, and holds an integer, a foreign pointer or a pointer to a live block. */
  lemma SlotFacts(g: Snapshot, s: int)
    requires g.WellFormed() && g.IsSlot(s)
    ensures 0 <= s < |g.mem| && s !in g.Headers() && !g.mem[s].IsHeader()
    ensures g.HeapPtr(s) ==> g.IsLiveHeader(g.mem[s].addr - 1)
  {
    HeadersInHeap(g);
    AllHeadsAreBlocks(g.mem, g.chunks, 0);
  }

  lemma EncodeNone(g: Snapshot)
    ensures g.EncodedUpTo(0) == g.mem
  {
  }

  lemma EncodeStep(g: Snapshot, i: nat)
    requires g.WellFormed() && i < |g.Headers()|
    ensures var h := g.Headers()[i];
      && 0 <= h < |g.mem| && g.mem[h].Hdr? && g.EncodedUpTo(i)[h] == g.mem[h]
      && g.EncodedUpTo(i + 1) == g.EncodedUpTo(i)[h := Encode(g.mem[h])]
  {
    AllHeadsAreBlocks(g.mem, g.chunks, 0);
    var bs := g.Headers();
    var h := bs[i];
    assert bs[..i + 1] == bs[..i] + [h];
    assert h !in bs[..i];
  }

  /** `target` sends every slot inverted so far to the header of the block it pointed to.
      Every header heads the chain of exactly the slots sent to it, and the chain ends in
      the (encoded) header; every other word is as it was. */
  ghost predicate Threaded(base: Memory, m: Memory, target: map<int, int>, chain: map<int, seq<int>>) {
    && |m| == |base|
    && (forall s :: s in target ==> 0 <= s < |m| && s !in chain && target[s] in chain)
    && (forall h :: h in chain ==> 0 <= h < |m| && NoDup(chain[h]) && Links(m, h, chain[h], base[h]))
    && Inverse(target, chain)
    && (forall a :: 0 <= a < |m| && a !in chain && a !in target ==> m[a] == base[a])
  }

  lemma NothingThreaded(base: Memory, heads: seq<int>)
    requires forall h :: h in heads ==> 0 <= h < |base|
    ensures Threaded(base, base, map[], map h | h in heads :: [])
  {
    var chain: map<int, seq<int>> := map h | h in heads :: [];
    forall h | h in chain ensures Links(base, h, chain[h], base[h]) {
      assert forall i :: 0 <= i <= 0 ==> Node(h, [], i) == h;
    }
  }

  /** `chain` lists, for each header, exactly the slots that `target` sends to it. */
  ghost predicate Inverse(target: map<int, int>, chain: map<int, seq<int>>) {
    forall h, s :: h in chain ==> (s in chain[h] <==> s in target && target[s] == h)
  }

  lemma InversePrepend(target: map<int, int>, chain: map<int, seq<int>>, p: int, h: int)
    requires Inverse(target, chain) && p !in target && h in chain
    ensures Inverse(target[p := h], chain[h := [p] + chain[h]])
  {
    var chain' := chain[h := [p] + chain[h]];
    forall s ensures s in chain'[h] <==> s == p || s in chain[h] { }
  }

  lemma InvertOne(m: Memory, p: int, h: int, ch: seq<int>, k: int, c: seq<int>, last: Word)
    requires 0 <= p < |m| && 0 <= h < |m| && 0 <= k < |m| && p != k && p != h
    requires Links(m, k, c, last) && NoDup(c) && p !in c && h !in c
    requires k == h ==> c == ch
    ensures var c' := if k == h then [p] + ch else c;
      NoDup(c') && Links(m[p := m[h]][h := Ptr(p)], k, c', last)
  {
    if k == h {
      LinksPrepend(m, h, c, last, p);
    } else {
      LinksFrame(m, m[p := m[h]][h := Ptr(p)], k, c, last);
    }
  }

  /** One inversion: the slot `p` is put at the head of the chain of the header `h`. */
  lemma InvertThreads(base: Memory, m: Memory, target: map<int, int>, chain: map<int, seq<int>>, p: int, h: int)
    requires Threaded(base, m, target, chain)
    requires 0 <= p < |m| && p !in chain && p !in target && h in chain
    ensures Threaded(base, m[p := m[h]][h := Ptr(p)], target[p := h], chain[h := [p] + chain[h]])
  {
    hide Links, NoDup;
    var m', chain' := m[p := m[h]][h := Ptr(p)], chain[h := [p] + chain[h]];
    InversePrepend(target, chain, p, h);
    forall k | k in chain'
      ensures NoDup(chain'[k]) && Links(m', k, chain'[k], base[k])
    {
      InvertOne(m, p, h, chain[h], k, chain[k], base[k]);
    }
  }
}
