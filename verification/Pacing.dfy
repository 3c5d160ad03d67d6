/** Slices of the collector's work add up: a cycle comes to its end. */
module Pacing {
  import opened Words
  import opened Marking
  import opened FreeBlocks
  import opened Sweeping
  import opened Coalescence
  import opened Reclaiming
  import opened MajorHeaps

  /** An upper bound on the number of slices to the end of the cycle. */
  ghost function SlicesLeft(h: MajorHeap): nat
    reads h, h.mem
  {
    match h.phase
    case Idle => 0
    case Sweep => 1 + if h.sweepHp < h.mem.Length then h.mem.Length - h.sweepHp else 0
    case Mark => 2 + h.mem.Length + h.ToMark()
  }

  /** Enough slices of positive work finish the cycle that is under way, or else do a whole
      one, as many words at a time as `work` says. The number of slices is bounded by the size of memory. */
  method FinishBySlices(h: MajorHeap, work: nat -> int) returns (n: nat)
    requires h.Valid() && forall i :: work(i) >= 1
    modifies h, h.mem
    ensures h.Valid() && h.phase == Idle && h.roots == old(h.roots) && n <= 2 * h.mem.Length + 3
    ensures h.known <= old(h.known) && BlocksSame(old(h.mem[..]), h.mem[..], h.known)
    ensures old(h.phase) == Idle ==> h.OnlyReachable()
  {
    hide HeapOk, FreeListOk, RefTableOk, Small, Accounted, MarkingOk, SweepingOk, Coalesced, AllSwept, BlocksSame, Reachable;
    ghost var m, idle := h.mem[..], h.phase == Idle;
    KnownHeads(m, h.chunks, h.heads, h.roots, h.known);
    h.MajorSlice(work(0));
    n := 1;
    while h.phase != Idle
      invariant h.Valid() && h.roots == old(h.roots) && n + SlicesLeft(h) <= 2 * h.mem.Length + 3
      invariant h.known <= old(h.known) && BlocksSame(m, h.mem[..], h.known)
      invariant h.phase == Sweep ==> 0 <= h.sweepHp <= h.mem.Length
      invariant idle ==> h.kept == h.known && forall b :: b in h.known <==> Reachable(m, h.chunks, h.roots, b)
      decreases SlicesLeft(h)
    {
      ghost var m1 := h.mem[..];
      h.MajorSlice(work(n));
      SameTrans(m, m1, h.mem[..], h.known);
      n := n + 1;
    }
    if idle {
      IdleReclaimed(h.mem[..], h.heads, h.known, h.kept, h.sweepHp);
      NoGarbage(m, h.mem[..], h.chunks, h.heads, h.roots, h.known);
    }
  }

  lemma IdleReclaimed(m: Memory, heads: set<int>, known: set<int>, kept: set<int>, p: int)
    requires Accounted(m, heads, known, kept, false, false, p)
    ensures AllReclaimed(m, heads, kept)
  {
  }
}
