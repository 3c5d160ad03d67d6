/** The third pass: new addresses are written into every inverted slot. */
module Reverting {
  import opened Words
  import opened Tiling
  import opened LinkedWords
  import opened Threading
  import opened Relocation

  /** For each header, the chain found at the start of the third pass lists exactly the
      slots that point to its block. */
  ghost predicate FullChains(g: Snapshot, chain: map<int, seq<int>>) {
    && (forall h :: h in chain <==> h in g.Headers())
    && (forall h :: h in chain ==> NoDup(chain[h]))
    && (forall h, s :: h in chain ==> (s in chain[h] <==> g.PointsTo(s, h)))
  }

  /** The header the third pass leaves: white on a block that is pointed to, blue on others. */
  ghost function FinalHeader(g: Snapshot, h: int): Word
    requires 0 <= h < |g.mem| && g.mem[h].Hdr?
  {
    Hdr(g.mem[h].size, Encode(g.mem[h]).tag, if g.PointedTo(h) then White else Blue)
  }

  /** The pointer that replaces a pointer to the block at `h`. */
  ghost function NewPtr(g: Snapshot, h: int): Word {
    Ptr(Moved(g, h) + 1)
  }

  ghost predicate AllHold(m: Memory, c: seq<int>, w: Word) {
    forall s :: s in c ==> 0 <= s < |m| && m[s] == w
  }

  /** The third pass has dealt with all blocks below `p`. */
  ghost predicate RevertedTo(g: Snapshot, m: Memory, chain: map<int, seq<int>>, p: int) {
    && |m| == |g.mem|
    && (forall h :: h in chain ==> 0 <= h < |m| && g.mem[h].Hdr?)
    && (forall h :: h in chain && h < p ==> m[h] == FinalHeader(g, h))
    && (forall h :: h in chain && h >= p ==> Links(m, h, chain[h], Encode(g.mem[h])))
    && (forall h :: h in chain && h < p ==> AllHold(m, chain[h], NewPtr(g, h)))
    && (forall a :: 0 <= a < |m| && a !in chain && !(g.IsSlot(a) && g.HeapPtr(a)) ==> m[a] == g.mem[a])
  }

  /** The effect of reverting the chain `c` of the header at `p`. */
  ghost predicate ChainReverted(m: Memory, m': Memory, p: int, c: seq<int>, w: Word, hd: Word) {
    && |m'| == |m|
    && (forall a :: 0 <= a < |m| ==> m'[a] == if a == p then hd else if a in c then w else m[a])
  }

  lemma SlotInChain(g: Snapshot, chain: map<int, seq<int>>, h: int, s: int)
    requires g.WellFormed() && FullChains(g, chain) && h in chain && s in chain[h]
    ensures 0 <= s < |g.mem| && s !in chain && g.IsSlot(s) && g.HeapPtr(s)
    ensures forall h' :: h' in chain && s in chain[h'] ==> h' == h
  {
    hide AllHeads, NoDup;
    assert g.PointsTo(s, h);
    SlotFacts(g, s);
  }

  /** Reverting one block's chain disturbs no other. */
  lemma OtherChain(g: Snapshot, m: Memory, m': Memory, chain: map<int, seq<int>>, p: int, w: Word, hd: Word, h: int)
    requires g.WellFormed() && FullChains(g, chain) && p in chain && h in chain && h != p
    requires ChainReverted(m, m', p, chain[p], w, hd) && |m| == |g.mem|
    requires 0 <= h < |m| && 0 <= p < |m|
    ensures m'[h] == m[h]
    ensures forall v :: AllHold(m, chain[h], v) ==> AllHold(m', chain[h], v)
    ensures forall last :: Links(m, h, chain[h], last) ==> Links(m', h, chain[h], last)
  {
    hide Snapshot.WellFormed, Links, NoDup, AllHeads, Snapshot.PointsTo;
    if h in chain[p] {
      SlotInChain(g, chain, p, h);
    }
    forall s | s in chain[h] && 0 <= s < |m|
      ensures m'[s] == m[s]
    {
      SlotInChain(g, chain, h, s);
    }
    forall last | Links(m, h, chain[h], last)
      ensures Links(m', h, chain[h], last)
    {
      LinksFrame(m, m', h, chain[h], last);
    }
  }

  lemma RevertedChain(g: Snapshot, m: Memory, m': Memory, chain: map<int, seq<int>>, p: int, w: Word, hd: Word)
    requires g.WellFormed() && FullChains(g, chain) && p in chain && |m| == |g.mem|
    requires ChainReverted(m, m', p, chain[p], w, hd)
    ensures AllHold(m', chain[p], w)
    ensures forall s :: s in chain[p] ==> g.IsSlot(s) && g.HeapPtr(s)
  {
    hide Snapshot.WellFormed, NoDup, AllHeads, Snapshot.IsSlot;
    forall s | s in chain[p]
      ensures 0 <= s < |m| && m'[s] == w && g.IsSlot(s) && g.HeapPtr(s)
    {
      SlotInChain(g, chain, p, s);
    }
  }

  /** One step of the third pass, from the block at `p` to the next block at `next`. */
  lemma RevertStep(g: Snapshot, m: Memory, m': Memory, chain: map<int, seq<int>>, p: int, next: int)
    requires g.WellFormed() && FullChains(g, chain) && RevertedTo(g, m, chain, p) && p in chain
    requires p < next && forall h :: h in chain && p < h ==> next <= h
    requires ChainReverted(m, m', p, chain[p], NewPtr(g, p), FinalHeader(g, p))
    ensures RevertedTo(g, m', chain, next)
  {
    hide Snapshot.WellFormed, Links, NoDup, AllHeads, Snapshot.PointsTo, NewPtr, FinalHeader, AllHold, Snapshot.Headers, Encode;
    forall h | h in chain && h != p
      ensures m'[h] == m[h]
      ensures AllHold(m, chain[h], NewPtr(g, h)) ==> AllHold(m', chain[h], NewPtr(g, h))
      ensures Links(m, h, chain[h], Encode(g.mem[h])) ==> Links(m', h, chain[h], Encode(g.mem[h]))
    {
      OtherChain(g, m, m', chain, p, NewPtr(g, p), FinalHeader(g, p), h);
    }
    RevertedChain(g, m, m', chain, p, NewPtr(g, p), FinalHeader(g, p));
  }

  /** Every slot that held a pointer into the heap holds the new address; headers say
      which blocks are live; all other words are as they were. */
  ghost predicate Renamed(g: Snapshot, m: Memory) {
    && |m| == |g.mem|
    && (forall h :: h in g.Headers() ==> 0 <= h < |m| && g.mem[h].Hdr? && m[h] == FinalHeader(g, h))
    && (forall s :: g.IsSlot(s) && g.HeapPtr(s) ==> 0 <= s < |m| && m[s] == NewPtr(g, g.mem[s].addr - 1))
    && (forall a :: 0 <= a < |m| && a !in g.Headers() && !(g.IsSlot(a) && g.HeapPtr(a)) ==> m[a] == g.mem[a])
  }

  lemma RevertedAll(g: Snapshot, m: Memory, chain: map<int, seq<int>>)
    requires g.WellFormed() && FullChains(g, chain) && RevertedTo(g, m, chain, |g.mem|)
    ensures Renamed(g, m)
  {
    hide Snapshot.WellFormed, Links, NoDup, AllHeads, NewPtr, FinalHeader, Encode, Snapshot.IsSlot;
    forall s | g.IsSlot(s) && g.HeapPtr(s)
      ensures 0 <= s < |m| && m[s] == NewPtr(g, g.mem[s].addr - 1)
    {
      SlotFacts(g, s);
      var h := g.mem[s].addr - 1;
      assert g.PointsTo(s, h);
      assert s in chain[h] && AllHold(m, chain[h], NewPtr(g, h));
    }
  }

  lemma RevertedGap(g: Snapshot, m: Memory, chain: map<int, seq<int>>, p: int, next: int)
    requires RevertedTo(g, m, chain, p) && p <= next
    requires forall h :: h in chain ==> h < p || next <= h
    ensures RevertedTo(g, m, chain, next)
  {
  }

  /** No header lies between the end of a chunk and the start of the next. */
  lemma NoHeaderInGap(g: Snapshot, k: nat)
    requires g.WellFormed() && k < |g.chunks|
    ensures var next := if k + 1 < |g.chunks| then g.chunks[k + 1].start else |g.mem|;
      g.chunks[k].End() <= next && forall h :: h in g.Headers() ==> h < g.chunks[k].End() || next <= h
  {
    hide Snapshot.IsSlot, AllTiled;
    AllHeadsAreBlocks(g.mem, g.chunks, 0);
    forall h | h in g.Headers()
      ensures h < g.chunks[k].End() || (k + 1 < |g.chunks| && g.chunks[k + 1].start <= h)
    {
      var j :| BlockInChunk(g.mem, g.chunks, h, j);
      if j > k + 1 {
        assert g.chunks[k + 1].End() < g.chunks[j].start;
      }
    }
  }

  /** The header that follows the one at index `i` starts where its block ends, or later. */
  lemma NextHeader(g: Snapshot, i: nat)
    requires g.WellFormed() && i < |g.Headers()|
    ensures forall h :: h in g.Headers() && g.Headers()[i] < h ==> g.Headers()[i] + Size(g, i) <= h
  {
    AllHeadsAreBlocks(g.mem, g.chunks, 0);
  }

  /** A block has a chain exactly when something points to it. */
  lemma ChainIffPointedTo(g: Snapshot, chain: map<int, seq<int>>, h: int)
    requires FullChains(g, chain) && h in chain
    ensures chain[h] != [] <==> g.PointedTo(h)
  {
    if chain[h] != [] {
      assert chain[h][0] in chain[h];
    }
  }
}
