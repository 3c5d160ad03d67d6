/** The compactor: headers are encoded, every pointer is inverted so that a header heads
    the list of its referents, blocks are given new addresses, and then moved. */
module Compact {
  import opened Words
  import opened Tiling
  import opened LinkedWords
  import opened Threading
  import opened CompactAlloc
  import opened Relocation
  import opened Reverting
  import opened Moving
  import opened BlockLayout
  import opened FreeBlocks
  import opened Sweeping
  import opened Rebuilding

  /** The effect of inverting the word at `p`. */
  function Inverted(m: Memory, chunks: seq<Chunk>, p: int): (r: Memory)
    requires 0 <= p < |m|
    ensures |r| == |m|
  {
    if m[p].Ptr? && InHeap(chunks, m[p].addr) && 0 <= m[p].addr - 1 < |m|
    then m[p := m[m[p].addr - 1]][m[p].addr - 1 := Ptr(p)]
    else m
  }

  /** Part of the second pass has been done: the slots in `target` have been inverted. */
  ghost predicate Inverting(g: Snapshot, m: Memory, target: map<int, int>, chain: map<int, seq<int>>) {
    && |m| == |g.mem|
    && Threaded(g.Encoded(), m, target, chain)
    && (forall h :: h in chain <==> h in g.Headers())
    && (forall s :: s in target ==> g.IsSlot(s) && g.HeapPtr(s) && target[s] == g.mem[s].addr - 1)
  }

  ghost function Retarget(g: Snapshot, target: map<int, int>, p: int): map<int, int> {
    if g.HeapPtr(p) then target[p := g.mem[p].addr - 1] else target
  }

  ghost function Rechain(g: Snapshot, chain: map<int, seq<int>>, p: int): map<int, seq<int>> {
    if g.HeapPtr(p) && g.mem[p].addr - 1 in chain
    then chain[g.mem[p].addr - 1 := [p] + chain[g.mem[p].addr - 1]]
    else chain
  }

  lemma InvertStep(g: Snapshot, m: Memory, target: map<int, int>, chain: map<int, seq<int>>, p: int)
    requires g.WellFormed() && Inverting(g, m, target, chain)
    requires g.IsSlot(p) && p !in target
    ensures m[p] == g.mem[p]
    ensures g.HeapPtr(p) ==>
      var h := g.mem[p].addr - 1; 0 <= h < |m| && (m[h].Ptr? || m[h].Ehd?)
    ensures Inverting(g, Inverted(m, g.chunks, p), Retarget(g, target, p), Rechain(g, chain, p))
  {
    hide Links, NoDup, Inverse, Snapshot.WellFormed, Snapshot.IsSlot, AllHeads;
    SlotFacts(g, p);
    EncodedWords(g);
    assert p !in chain;
    if g.HeapPtr(p) {
      var h := g.mem[p].addr - 1;
      LinksHead(m, h, chain[h], g.Encoded()[h]);
      InvertThreads(g.Encoded(), m, target, chain, p, h);
    }
  }

  /** The fields of the first `i` blocks have been inverted. */
  ghost predicate FieldsDone(g: Snapshot, target: map<int, int>, i: nat)
    requires i <= |g.Headers()|
  {
    forall j, s :: 0 <= j < i && g.IsFieldOf(s, g.Headers()[j]) && g.HeapPtr(s) ==> s in target
  }

  /** The fields of the block at `h` that lie below `b` have been inverted. */
  ghost predicate FieldsDoneBelow(g: Snapshot, target: map<int, int>, h: int, b: int) {
    forall s :: g.IsFieldOf(s, h) && s < b && g.HeapPtr(s) ==> s in target
  }

  /** Every word inverted so far is a heap word below `b`. */
  ghost predicate HeapBelow(chunks: seq<Chunk>, target: map<int, int>, b: int) {
    forall s :: s in target ==> s < b && InHeap(chunks, s)
  }

  ghost predicate AllInverted(g: Snapshot, target: map<int, int>) {
    forall s :: g.IsSlot(s) && g.HeapPtr(s) ==> s in target
  }

  lemma FieldsDoneNext(g: Snapshot, target: map<int, int>, target': map<int, int>, i: nat, h: int)
    requires i < |g.Headers()| && h == g.Headers()[i] && 0 <= h < |g.mem| && g.mem[h].Hdr?
    requires FieldsDone(g, target, i) && target.Keys <= target'.Keys
    requires FieldsDoneBelow(g, target', h, h + g.mem[h].WhSize())
    ensures FieldsDone(g, target', i + 1)
  {
  }

  /** The word found at the end of the chain of the header at `p`. */
  lemma ChainEnd(g: Snapshot, m: Memory, target: map<int, int>, chain: map<int, seq<int>>, p: int)
    requires g.WellFormed() && Inverting(g, m, target, chain) && p in g.Headers()
    ensures p in chain && 0 <= p < |g.mem| && g.mem[p].Hdr? && Links(m, p, chain[p], Encode(g.mem[p]))
    ensures Encode(g.mem[p]).tag < NO_SCAN_TAG ==> g.IsLiveHeader(p) && Encode(g.mem[p]).tag == g.mem[p].tag
  {
    EncodedWords(g);
  }

  class Compactor {
    const chunks: seq<Chunk>
    const roots: seq<int>
    const mem: array<Word>
    var used: seq<nat>  // how much of each chunk the virtual allocator has given out
    var fl: nat         // the chunk where it starts to search

    constructor (chunks: seq<Chunk>, roots: seq<int>, mem: array<Word>)
      ensures this.chunks == chunks && this.roots == roots && this.mem == mem && |used| == |chunks|
    {
      this.chunks, this.roots, this.mem := chunks, roots, mem;
      used, fl := Unused(|chunks|), 0;
    }

    method EncodeHeaders(ghost g: Snapshot)
      requires g == Snapshot(mem[..], chunks, roots) && g.WellFormed()
      modifies mem
      ensures mem[..] == g.Encoded()
    {
      hide AllHeads, AtChunk, AtBlock, Snapshot.EncodedUpTo, AllTiled, Snapshot.IsSlot;
      ghost var i := 0;
      WalkStart(g.mem, chunks);
      EncodeNone(g);
      var k := 0;
      while k < |chunks|
        invariant 0 <= k <= |chunks| && AtChunk(g.mem, chunks, k, i)
        invariant i <= |g.Headers()| && mem[..] == g.EncodedUpTo(i)
      {
        WalkEnter(g.mem, chunks, k, i);
        var p, chend := chunks[k].start, chunks[k].End();
        while p < chend
          invariant p <= chend && AtBlock(g.mem, chunks, k, p, i)
          invariant i <= |g.Headers()| && mem[..] == g.EncodedUpTo(i)
        {
          WalkStep(g.mem, chunks, k, p, i);
          EncodeStep(g, i);
          var hd := mem[p];
          var sz := hd.size;
          if hd.color == Blue {
            mem[p] := Ehd(sz, STRING_TAG);
          } else {
            mem[p] := Ehd(sz, hd.tag);
          }
          i := i + 1;
          p := p + sz + 1;
        }
        WalkLeave(g.mem, chunks, k, i);
        k := k + 1;
      }
      WalkDone(g.mem, chunks, i);
    }

    method InvertPointerAt(p: int)
      requires 0 <= p < mem.Length
      requires mem[p].Ptr? && InHeap(chunks, mem[p].addr) ==>
        0 <= mem[p].addr - 1 < mem.Length && (mem[mem[p].addr - 1].Ptr? || mem[mem[p].addr - 1].Ehd?)
      modifies mem
      ensures mem[..] == Inverted(old(mem[..]), chunks, p)
    {
      var q := mem[p];
      if q.Ptr? && InHeap(chunks, q.addr) {
        mem[p] := mem[q.addr - 1];
        mem[q.addr - 1] := Ptr(p);
      }
    }
  
    /** Follows inverted pointers from the header at `p` to the encoded header. */
    method FindHeader(p: int, ghost c: seq<int>, ghost last: Word) returns (q: Word)
      requires Links(mem[..], p, c, last) && last.Ehd?
      ensures q == last
    {
      LinksHead(mem[..], p, c, last);
      q := mem[p];
      ghost var i := 0;
      while q.Ptr?
        invariant i <= |c| && q == (if i < |c| then Ptr(c[i]) else last)
        decreases |c| - i
      {
        assert Node(p, c, i + 1) == c[i];
        q := mem[q.addr];
        i := i + 1;
      }
    }

    /** Inverts the fields of one block. */
    method InvertFields(p: int, sz: nat, ghost g: Snapshot, ghost target0: map<int, int>, ghost chain0: map<int, seq<int>>)
        returns (ghost target: map<int, int>, ghost chain: map<int, seq<int>>)
      requires g.chunks == chunks && g.WellFormed() && g.IsLiveHeader(p) && g.mem[p].WhSize() == sz && g.mem[p].tag < NO_SCAN_TAG
      requires exists k :: BlockInChunk(g.mem, chunks, p, k)
      requires Inverting(g, mem[..], target0, chain0) && HeapBelow(chunks, target0, p)
      modifies mem
      ensures Inverting(g, mem[..], target, chain) && HeapBelow(chunks, target, p + sz)
      ensures target0.Keys <= target.Keys && FieldsDoneBelow(g, target, p, p + sz)
    {
      hide AllHeads, Snapshot.WellFormed, Threaded, Snapshot.Encoded, Retarget, Rechain;
      target, chain := target0, chain0;
      var i := 1;
      while i < sz
        invariant 1 <= i <= sz
        invariant Inverting(g, mem[..], target, chain) && HeapBelow(chunks, target, p + i)
        invariant target0.Keys <= target.Keys && FieldsDoneBelow(g, target, p, p + i)
      {
        assert g.IsFieldOf(p + i, p);
        InHeapField(g, p, p + i);
        InvertStep(g, mem[..], target, chain, p + i);
        RetargetKeys(g, target, p + i);
        InvertPointerAt(p + i);
        target, chain := Retarget(g, target, p + i), Rechain(g, chain, p + i);
        i := i + 1;
      }
    }

    /** The second pass: every value slot, in the heap and among the roots, is inverted. */
    method InvertAll(ghost g: Snapshot) returns (ghost target: map<int, int>, ghost chain: map<int, seq<int>>)
      requires g.chunks == chunks && g.roots == roots && g.WellFormed() && mem[..] == g.Encoded()
      modifies mem
      ensures Inverting(g, mem[..], target, chain) && AllInverted(g, target)
    {
      hide AllHeads, AtChunk, AtBlock, Snapshot.WellFormed, Threaded, Snapshot.Encoded, Retarget, Rechain, Links, BlockInChunk;
      hide Snapshot.IsFieldOf, Snapshot.IsLiveHeader;
      AllHeadsFacts(g);
      ghost var i := 0;
      WalkStart(g.mem, chunks);
      target, chain := NothingInverted(g);
      var k := 0;
      while k < |chunks|
        invariant 0 <= k <= |chunks| && AtChunk(g.mem, chunks, k, i) && i <= |g.Headers()|
        invariant Inverting(g, mem[..], target, chain) && FieldsDone(g, target, i)
        invariant HeapBelow(chunks, target, if k < |chunks| then chunks[k].start else mem.Length)
      {
        WalkEnter(g.mem, chunks, k, i);
        var p, chend := chunks[k].start, chunks[k].End();
        while p < chend
          invariant p <= chend && AtBlock(g.mem, chunks, k, p, i) && i <= |g.Headers()|
          invariant Inverting(g, mem[..], target, chain) && FieldsDone(g, target, i)
          invariant HeapBelow(chunks, target, p)
        {
          WalkStep(g.mem, chunks, k, p, i);
          ChainEnd(g, mem[..], target, chain, p);
          var q := FindHeader(p, chain[p], Encode(g.mem[p]));
          var sz, t := q.size + 1, q.tag;
          ghost var before := target;
          if t < NO_SCAN_TAG {
            target, chain := InvertFields(p, sz, g, target, chain);
          } else {
            NotScanned(g, p);
          }
          FieldsDoneNext(g, before, target, i, p);
          i := i + 1;
          p := p + sz;
        }
        WalkLeave(g.mem, chunks, k, i);
        k := k + 1;
      }
      WalkDone(g.mem, chunks, i);
      target, chain := InvertRoots(g, target, chain);
      AllDone(g, target);
    }

    method InvertRoots(ghost g: Snapshot, ghost target0: map<int, int>, ghost chain0: map<int, seq<int>>)
        returns (ghost target: map<int, int>, ghost chain: map<int, seq<int>>)
      requires g.chunks == chunks && g.roots == roots && g.WellFormed()
      requires Inverting(g, mem[..], target0, chain0) && HeapBelow(chunks, target0, mem.Length)
      modifies mem
      ensures Inverting(g, mem[..], target, chain) && target0.Keys <= target.Keys
      ensures forall s :: s in roots && g.HeapPtr(s) ==> s in target
    {
      hide AllHeads, Threaded, Snapshot.Encoded, Retarget, Rechain, AllTiled, ChunksOk;
      target, chain := target0, chain0;
      var r := 0;
      while r < |roots|
        invariant 0 <= r <= |roots|
        invariant Inverting(g, mem[..], target, chain) && target0.Keys <= target.Keys
        invariant forall s :: s in target ==> InHeap(chunks, s) || s in roots[..r]
        invariant forall j :: 0 <= j < r && g.HeapPtr(roots[j]) ==> roots[j] in target
      {
        assert roots[r] in roots && g.IsSlot(roots[r]);
        InvertStep(g, mem[..], target, chain, roots[r]);
        RetargetKeys(g, target, roots[r]);
        InvertPointerAt(roots[r]);
        target, chain := Retarget(g, target, roots[r]), Rechain(g, chain, roots[r]);
        assert roots[..r + 1] == roots[..r] + [roots[r]];
        r := r + 1;
      }
    }

    ghost function State(): AllocState
      reads this
    {
      AllocState(used, fl)
    }

    method InitAllocate()
      requires |used| == |chunks|
      modifies this
      ensures State() == AllocState(Unused(|chunks|), 0)
    {
      var k := 0;
      while k < |chunks|
        invariant 0 <= k <= |chunks| == |used|
        invariant forall j :: 0 <= j < k ==> used[j] == 0
      {
        used := used[k := 0];
        k := k + 1;
      }
      fl := 0;
      assert used == Unused(|chunks|);
    }

    method Allocate(size: nat) returns (adr: int)
      requires CanAllocate(chunks, State(), size)
      modifies this
      ensures State() == old(After(chunks, State(), size)) && adr == old(Address(chunks, State(), size))
    {
      ghost var s := State();
      while fl + 1 < |chunks| && chunks[fl].size - used[fl] <= 4 && chunks[fl + 1].size - used[fl + 1] <= 4
        invariant used == s.used && fl < |chunks|
        invariant SkipFull(chunks, s, fl) == SkipFull(chunks, s, s.fl)
        decreases |chunks| - fl
      {
        fl := fl + 1;
      }
      var c := fl;
      while chunks[c].size - used[c] < size
        invariant fl <= c < |chunks|
        invariant FirstFit(chunks, s, c, size) == FirstFit(chunks, s, fl, size)
        decreases |chunks| - c
      {
        c := c + 1;
      }
      adr := chunks[c].start + used[c];
      used := used[c := used[c] + size];
    }

    /** Writes `w` into every word of the chain of the header at `p`, then the header `hd`. */
    method RevertChain(p: int, w: Word, hd: Word, ghost c: seq<int>, ghost last: Word)
      requires Links(mem[..], p, c, last) && last.Ehd? && NoDup(c) && p !in c
      modifies mem
      ensures ChainReverted(old(mem[..]), mem[..], p, c, w, hd)
    {
      hide Links, NoDup, Written;
      ghost var m := mem[..];
      LinksHead(m, p, c, last);
      NothingWritten(m, c, w);
      var q := mem[p];
      ghost var i := 0;
      while q.Ptr?
        invariant i <= |c| && q == (if i < |c| then Ptr(c[i]) else last)
        invariant mem.Length == |m| && Written(m, mem[..], c, i, w)
        decreases |c| - i
      {
        LinksAt(m, p, c, last, i);
        WriteStep(m, mem[..], c, i, w);
        var next := mem[q.addr];
        mem[q.addr] := w;
        q := next;
        i := i + 1;
      }
      AllWritten(m, mem[..], c, w);
      mem[p] := hd;
    }

    /** The third pass: addresses are given out, and every chain is turned back into
        pointers to the new address of the block at its head. */
    method RevertAll(ghost g: Snapshot, ghost target: map<int, int>, ghost chain: map<int, seq<int>>)
      requires g.chunks == chunks && g.roots == roots && g.WellFormed() && |used| == |chunks|
      requires Inverting(g, mem[..], target, chain) && AllInverted(g, target) && mem.Length == |g.mem|
      modifies this, mem
      ensures |used| == |chunks| && Renamed(g, mem[..]) && State() == StateAt(g, |g.Headers()|)
    {
      hide AllHeads, AtChunk, AtBlock, Snapshot.WellFormed, RevertedTo, Inverting, Snapshot.PointedTo, StateAt;
      hide FullChains, Renamed, FinalHeader, NewPtr;
      StartReverting(g, mem[..], target, chain);
      AllHeadsFacts(g);
      ghost var i := 0;
      WalkStart(g.mem, chunks);
      InitAllocate();
      StartState(g);
      StartGap(g, mem[..], chain);
      var k := 0;
      while k < |chunks|
        invariant 0 <= k <= |chunks| && AtChunk(g.mem, chunks, k, i) && i <= |g.Headers()|
        invariant State() == StateAt(g, i)
        invariant RevertedTo(g, mem[..], chain, if k < |chunks| then chunks[k].start else mem.Length)
        invariant mem.Length == |g.mem|
      {
        WalkEnter(g.mem, chunks, k, i);
        var p, chend := chunks[k].start, chunks[k].End();
        while p < chend
          invariant p <= chend && AtBlock(g.mem, chunks, k, p, i) && i <= |g.Headers()|
          invariant State() == StateAt(g, i)
          invariant RevertedTo(g, mem[..], chain, p)
          invariant mem.Length == |g.mem|
        {
          WalkStep(g.mem, chunks, k, p, i);
          p := RevertBlock(g, p, i, chain);
          i := i + 1;
        }
        NoHeaderInGap(g, k);
        ChainHeaders(g, chain);
        RevertedGap(g, mem[..], chain, p, if k + 1 < |chunks| then chunks[k + 1].start else mem.Length);
        WalkLeave(g.mem, chunks, k, i);
        k := k + 1;
      }
      RevertedAll(g, mem[..], chain);
      WalkDone(g.mem, chunks, i);
      StateShape(g, i);
    }

    /** One block of the third pass. */
    method RevertBlock(ghost g: Snapshot, p: int, ghost i: nat, ghost chain: map<int, seq<int>>) returns (next: int)
      requires g.chunks == chunks && g.WellFormed() && FullChains(g, chain) && RevertedTo(g, mem[..], chain, p)
      requires i < |g.Headers()| && g.Headers()[i] == p && State() == StateAt(g, i)
      requires 0 <= p < |g.mem| == mem.Length && g.mem[p].Hdr?
      modifies this, mem
      ensures next == p + g.mem[p].WhSize() && State() == StateAt(g, i + 1) && RevertedTo(g, mem[..], chain, next)
    {
      hide AllHeads, Snapshot.WellFormed, StateAt, Snapshot.PointedTo, Moved, CanAllocate;
      hide RevertedTo, FullChains, Links, NoDup, ChainReverted, Size, NewAt;
      var q := mem[p];
      ghost var m := mem[..];
      RevertedHere(g, m, chain, p);
      ghost var c, last := chain[p], Encode(g.mem[p]);
      LinksHead(m, p, c, last);
      ChainIffPointedTo(g, chain, p);
      PlaceOf(g, i);
      StateNext(g, i);
      IndexOfHeader(g, i);
      NextHeader(g, i);
      ChainHeaders(g, chain);
      SizeOf(g, i);
      if q.Ptr? {
        q := FindHeader(p, c, last);
        var sz, t := q.size + 1, q.tag;
        var newadr := Allocate(sz);
        NotOwnSlot(g, chain, p);
        RevertChain(p, Ptr(newadr + 1), Hdr(sz - 1, t, White), c, last);
        next := p + sz;
      } else {
        mem[p] := Hdr(q.size, q.tag, Blue);
        NoChainReverted(m, p, NewPtr(g, p), mem[p]);
        next := p + q.size + 1;
      }
      RevertStep(g, m, mem[..], chain, p, next);
    }

    /** Copies `n` words; the two areas may overlap. */
    method Bcopy(src: int, dst: int, n: nat)
      requires 0 <= src && src + n <= mem.Length && 0 <= dst && dst + n <= mem.Length
      modifies mem
      ensures Copied(old(mem[..]), mem[..], src, dst, n)
    {
      forall t | 0 <= t < n {
        mem[dst + t] := mem[src + t];
      }
      ghost var m := old(mem[..]);
      assert mem[..] == m[..dst] + m[src..src + n] + m[dst + n..];
    }

    /** The fourth pass: the same addresses are given out again, and the blocks are moved. */
    method MoveAll(ghost g: Snapshot)
      requires g.chunks == chunks && g.roots == roots && g.WellFormed() && |used| == |chunks|
      requires Renamed(g, mem[..]) && mem.Length == |g.mem|
      modifies this, mem
      ensures Compacted(g, mem[..]) && (forall a :: OutsideKept(g, mem[..], a)) && State() == StateAt(g, |g.Headers()|)
    {
      hide AllHeads, AtChunk, AtBlock, Snapshot.WellFormed, MovedTo, Snapshot.PointedTo, StateAt, Renamed, Compacted;
      ghost var m3 := mem[..];
      AllHeadsFacts(g);
      ghost var i := 0;
      WalkStart(g.mem, chunks);
      InitAllocate();
      StartState(g);
      NothingMoved(g, m3);
      var k := 0;
      while k < |chunks|
        invariant 0 <= k <= |chunks| && AtChunk(g.mem, chunks, k, i) && i <= |g.Headers()|
        invariant State() == StateAt(g, i)
        invariant MovedTo(g, m3, mem[..], if k < |chunks| then chunks[k].start else mem.Length)
        invariant mem.Length == |g.mem|
      {
        WalkEnter(g.mem, chunks, k, i);
        var p, chend := chunks[k].start, chunks[k].End();
        while p < chend
          invariant p <= chend && AtBlock(g.mem, chunks, k, p, i) && i <= |g.Headers()|
          invariant State() == StateAt(g, i)
          invariant MovedTo(g, m3, mem[..], p)
          invariant mem.Length == |g.mem|
        {
          WalkStep(g.mem, chunks, k, p, i);
          p := MoveBlock(g, m3, p, i);
          i := i + 1;
        }
        NoHeaderInGap(g, k);
        SkipStep(g, m3, mem[..], p, if k + 1 < |chunks| then chunks[k + 1].start else mem.Length);
        WalkLeave(g.mem, chunks, k, i);
        k := k + 1;
      }
      WalkDone(g.mem, chunks, i);
      AllMoved(g, m3, mem[..]);
    }

    method MoveBlock(ghost g: Snapshot, ghost m3: Memory, p: int, ghost i: nat) returns (next: int)
      requires g.chunks == chunks && g.WellFormed() && Renamed(g, m3) && MovedTo(g, m3, mem[..], p)
      requires i < |g.Headers()| && g.Headers()[i] == p && State() == StateAt(g, i)
      requires 0 <= p < |g.mem| == mem.Length && g.mem[p].Hdr?
      modifies this, mem
      ensures next == p + g.mem[p].WhSize() && State() == StateAt(g, i + 1) && MovedTo(g, m3, mem[..], next)
    {
      hide AllHeads, Snapshot.WellFormed, StateAt, Snapshot.PointedTo, Moved, NewAt, CanAllocate, Copied, MovedTo, Renamed, Size;
      ghost var m := mem[..];
      SizeOf(g, i);
      PlaceOf(g, i);
      StateNext(g, i);
      IndexOfHeader(g, i);
      NextHeader(g, i);
      HeaderNow(g, m3, m, p);
      var q := mem[p];
      if q.color == White {
        var sz := q.size + 1;
        MovedDown(g, p);
        RangeOk(g, p);
        var newadr := Allocate(sz);
        Bcopy(p, newadr, sz);
        next := p + sz;
        MoveStep(g, m3, m, mem[..], p, next);
      } else {
        next := p + q.size + 1;
        SkipStep(g, m3, m, p, next);
      }
    }

    /** The four passes: afterwards the heap is the old one under a renaming. */
    method MoveBlocks(ghost g: Snapshot)
      requires g == Snapshot(mem[..], chunks, roots) && g.WellFormed() && |used| == |chunks|
      modifies this, mem
      ensures Compacted(g, mem[..]) && forall a :: OutsideKept(g, mem[..], a)
      ensures State() == StateAt(g, |g.Headers()|)
    {
      EncodeHeaders(g);
      ghost var target, chain := InvertAll(g);
      RevertAll(g, target, chain);
      MoveAll(g);
    }

    /** Makes the unused rest of each chunk a block, and hands it to the free list. Its code
        for merging is not written out: the assertions say why none of its tests succeeds. */
    method RebuildFreeList(head: int, ghost g: Snapshot) returns (flPrev: int, flMerge: int)
      requires g.WellFormed() && chunks == g.chunks && roots == g.roots && used == LastUsed(g)
      requires Compacted(g, mem[..]) && OutsideKept(g, mem[..], head)
      requires SentinelOk(mem[..], chunks, head) && head !in roots
      modifies mem
      ensures Ready(g, mem[..], head)
      ensures flPrev == head && flMerge == LastNode(chunks, used, head, |chunks|)
    {
      hide Snapshot.WellFormed, LastUsed, UsedKept, SentinelOk, Rebuilt, Ready, Compacted, OutsideKept, AllHeads, AllKept, Layout, FreeListOk, NewHeads;
      ghost var m0 := mem[..];
      UsedFits(g);
      HeadOutside(m0, chunks, head);
      KeptInMemory(g, m0);
      mem[head] := Ptr(0);
      flPrev, flMerge := head, head;
      var lastFragment := NONE;
      UsedStart(g, m0, head);
      NothingRebuilt(g, mem[..], head);
      var k := 0;
      while k < |chunks|
        invariant 0 <= k <= |chunks|
        invariant UsedKept(chunks, used, m0, mem[..], head) && SentinelOk(mem[..], chunks, head)
        invariant Rebuilt(g, mem[..], head, k) && flPrev == head && flMerge == LastNode(chunks, used, head, k)
        invariant k < |chunks| ==> lastFragment < chunks[k].start
      {
        ghost var m := mem[..];
        TailInMemory(g, k);
        if chunks[k].size > used[k] {
          var p := chunks[k].start + used[k];
          mem[p] := Hdr(chunks[k].size - used[k] - 1, 0, White);
          ghost var m1 := mem[..];
          TailStep(g, m0, m, m1, head, k);
          NothingToMerge(g, m, m1, head, k);
          assert lastFragment != p;
          assert mem[flMerge] == Ptr(0);
          assert flMerge + mem[flMerge - 1].size != p;
          if mem[p].size != 0 {
            mem[p] := mem[p].(color := Blue);
            mem[p + 1] := mem[flMerge];
            mem[flMerge] := Ptr(p + 1);
            InsertStep(g, m0, m1, mem[..], head, k);
            flMerge := p + 1;
          } else {
            lastFragment := p + 1;
            NoRemainder(g, m1, head, k);
          }
        } else {
          TailStep(g, m0, m, m, head, k);
          NoRemainder(g, m, head, k);
        }
        k := k + 1;
      }
      AllRebuilt(g, m0, mem[..], head);
    }

    /** Compacts the heap and rebuilds the free list, whose sentinel is at `head`. */
    method CompactHeap(head: int, ghost g: Snapshot) returns (flPrev: int, flMerge: int)
      requires g == Snapshot(mem[..], chunks, roots) && g.WellFormed() && |used| == |chunks|
      requires SentinelOk(mem[..], chunks, head) && head !in roots && head - 1 !in roots
      modifies this, mem
      ensures Ready(g, mem[..], head)
      ensures used == LastUsed(g) && flPrev == head && flMerge == LastNode(chunks, used, head, |chunks|)
    {
      MoveBlocks(g);
      SentinelKept(g, mem[..], head);
      flPrev, flMerge := RebuildFreeList(head, g);
    }
  }

  /** The heap of `FullHeap` is one that may be compacted. */
  lemma CompactionReadsPast()
    ensures var g := FullHeap(); g.WellFormed() && SentinelOk(g.mem, g.chunks, 9) && 9 !in g.roots && 8 !in g.roots && ReadsPastAt(g, 1)
  {
    FullHeapReadsPast();
    hide ReadsPastAt, Snapshot.WellFormed;
  }

  lemma SentinelKept(g: Snapshot, m: Memory, head: int)
    requires SentinelOk(g.mem, g.chunks, head) && head - 1 !in g.roots && OutsideKept(g, m, head)
    ensures SentinelOk(m, g.chunks, head)
  {
  }

  lemma UsedStart(g: Snapshot, m: Memory, head: int)
    requires g.WellFormed() && |LastUsed(g)| == |g.chunks| && SentinelOk(m, g.chunks, head)
    ensures UsedKept(g.chunks, LastUsed(g), m, m[head := Ptr(0)], head) && SentinelOk(m[head := Ptr(0)], g.chunks, head)
  {
    hide Snapshot.WellFormed, LastUsed, InUsed;
    UsedFits(g);
    UsedInHeap(g.chunks, LastUsed(g), m, head);
  }

  lemma NoRemainder(g: Snapshot, m: Memory, head: int, k: nat)
    requires k < |g.chunks| == |LastUsed(g)| && LastUsed(g)[k] + 1 >= g.chunks[k].size
    requires Layout(m, g.chunks[..k + 1], NewHeads(g, LastUsed(g), k + 1))
    requires FreeListOk(m, g.chunks[..k + 1], NewHeads(g, LastUsed(g), k + 1), head, Remainders(g.chunks, LastUsed(g), k), NONE)
    requires AllSwept(m, NewHeads(g, LastUsed(g), k + 1))
    ensures Rebuilt(g, m, head, k + 1) && LastNode(g.chunks, LastUsed(g), head, k + 1) == LastNode(g.chunks, LastUsed(g), head, k)
  {
    hide Layout, FreeListOk, NewHeads, LastUsed;
    assert Remainders(g.chunks, LastUsed(g), k + 1) == Remainders(g.chunks, LastUsed(g), k);
  }

  lemma KeptInMemory(g: Snapshot, m: Memory)
    requires Compacted(g, m)
    ensures AllKept(g, m) && |m| == |g.mem|
  {
    hide AllHeads, Snapshot.PointedTo, BlockKept;
  }

  lemma TailInMemory(g: Snapshot, k: nat)
    requires g.WellFormed() && k < |g.chunks| == |LastUsed(g)|
    ensures var p := Tail(g.chunks, LastUsed(g), k);
      g.chunks[k].start <= p && g.chunks[k].End() <= |g.mem| && (k + 1 < |g.chunks| ==> g.chunks[k].End() < g.chunks[k + 1].start)
  {
    hide AllHeads, LastUsed;
  }

  lemma AllHeadsFacts(g: Snapshot)
    requires g.WellFormed()
    ensures ChunksOk(g.chunks, |g.mem|) && AllTiled(g.mem, g.chunks)
    ensures forall h :: h in g.Headers() ==>
      0 <= h < |g.mem| && g.mem[h].Hdr? && exists k :: BlockInChunk(g.mem, g.chunks, h, k)
  {
    AllHeadsAreBlocks(g.mem, g.chunks, 0);
  }

  lemma NothingInverted(g: Snapshot) returns (target: map<int, int>, chain: map<int, seq<int>>)
    requires g.WellFormed()
    ensures Inverting(g, g.Encoded(), target, chain) && target == map[]
  {
    EncodedWords(g);
    target, chain := map[], map h | h in g.Headers() :: [];
    NothingThreaded(g.Encoded(), g.Headers());
  }

  lemma NotScanned(g: Snapshot, h: int)
    requires 0 <= h < |g.mem| && g.mem[h].Hdr? && Encode(g.mem[h]).tag >= NO_SCAN_TAG
    ensures forall target, b :: FieldsDoneBelow(g, target, h, b)
  {
  }

  lemma AllDone(g: Snapshot, target: map<int, int>)
    requires FieldsDone(g, target, |g.Headers()|)
    requires forall s :: s in g.roots && g.HeapPtr(s) ==> s in target
    ensures AllInverted(g, target)
  {
    forall s | g.IsSlot(s) && g.HeapPtr(s)
      ensures s in target
    {
      if s !in g.roots {
        var h :| g.IsFieldOf(s, h);
        var j :| 0 <= j < |g.Headers()| && g.Headers()[j] == h;
      }
    }
  }

  lemma InHeapField(g: Snapshot, h: int, s: int)
    requires g.WellFormed() && g.IsFieldOf(s, h) && exists k :: BlockInChunk(g.mem, g.chunks, h, k)
    ensures InHeap(g.chunks, s) && g.IsSlot(s)
  {
    var k :| BlockInChunk(g.mem, g.chunks, h, k);
    assert InChunk(g.chunks[k], s);
  }

  lemma RetargetKeys(g: Snapshot, target: map<int, int>, p: int)
    ensures Retarget(g, target, p).Keys == target.Keys + (if g.HeapPtr(p) then {p} else {})
  {
  }

  lemma StartReverting(g: Snapshot, m: Memory, target: map<int, int>, chain: map<int, seq<int>>)
    requires g.WellFormed() && Inverting(g, m, target, chain) && AllInverted(g, target)
    ensures FullChains(g, chain) && RevertedTo(g, m, chain, 0)
  {
    hide Snapshot.WellFormed, Links, NoDup, AllHeads, FinalHeader, Snapshot.IsSlot, Snapshot.Encoded;
    EncodedWords(g);
  }

  lemma StartState(g: Snapshot)
    ensures StateAt(g, 0) == AllocState(Unused(|g.chunks|), 0)
  {
  }

  lemma SizeOf(g: Snapshot, i: nat)
    requires g.WellFormed() && i < |g.Headers()|
    ensures var h := g.Headers()[i]; 0 <= h < |g.mem| && g.mem[h].Hdr? && Size(g, i) == g.mem[h].WhSize()
    ensures CanAllocate(g.chunks, StateAt(g, i), Size(g, i))
    ensures NewAt(g, i) == Address(g.chunks, StateAt(g, i), Size(g, i))
  {
    hide AllHeads, Snapshot.PointedTo, StateAt;
    AllHeadsFacts(g);
    assert g.Headers()[i] in g.Headers();
    PlaceOf(g, i);
  }

  lemma RevertedHere(g: Snapshot, m: Memory, chain: map<int, seq<int>>, p: int)
    requires g.WellFormed() && FullChains(g, chain) && RevertedTo(g, m, chain, p) && p in g.Headers()
    ensures p in chain && 0 <= p < |g.mem| && g.mem[p].Hdr? && Links(m, p, chain[p], Encode(g.mem[p]))
  {
    hide AllHeads, Snapshot.WellFormed, Links;
  }

  lemma NoChainReverted(m: Memory, p: int, w: Word, hd: Word)
    requires 0 <= p < |m|
    ensures ChainReverted(m, m[p := hd], p, [], w, hd)
  {
  }

  lemma StateShape(g: Snapshot, i: nat)
    requires i <= |g.Headers()|
    ensures |StateAt(g, i).used| == |g.chunks|
  {
    if i > 0 {
      StateShape(g, i - 1);
    }
  }

  lemma ChainHeaders(g: Snapshot, chain: map<int, seq<int>>)
    requires FullChains(g, chain)
    ensures forall h :: h in chain <==> h in g.Headers()
  {
  }

  lemma NoHeaderBelow(g: Snapshot)
    requires g.WellFormed()
    ensures forall h :: h in g.Headers() ==> |g.chunks| > 0 && g.chunks[0].start <= h < |g.mem|
  {
    AllHeadsAreBlocks(g.mem, g.chunks, if |g.chunks| > 0 then g.chunks[0].start else 0);
  }

  lemma StartGap(g: Snapshot, m: Memory, chain: map<int, seq<int>>)
    requires g.WellFormed() && FullChains(g, chain) && RevertedTo(g, m, chain, 0)
    ensures RevertedTo(g, m, chain, if |g.chunks| > 0 then g.chunks[0].start else |m|)
  {
    hide AllHeads, RevertedTo, Snapshot.WellFormed;
    NoHeaderBelow(g);
    RevertedGap(g, m, chain, 0, if |g.chunks| > 0 then g.chunks[0].start else |m|);
  }

  /** No chain passes through its own header. */
  lemma NotOwnSlot(g: Snapshot, chain: map<int, seq<int>>, p: int)
    requires g.WellFormed() && FullChains(g, chain) && p in chain
    ensures p !in chain[p] && NoDup(chain[p])
  {
    hide AllHeads, Snapshot.WellFormed, NoDup;
    forall s | s in chain[p] ensures s != p {
      SlotInChain(g, chain, p, s);
    }
  }

  lemma NothingMoved(g: Snapshot, m3: Memory)
    requires g.WellFormed() && |m3| == |g.mem|
    ensures MovedTo(g, m3, m3, if |g.chunks| > 0 then g.chunks[0].start else |g.mem|)
  {
    hide AllHeads, Snapshot.WellFormed;
    NoHeaderBelow(g);
  }

  lemma HeaderNow(g: Snapshot, m3: Memory, m: Memory, p: int)
    requires g.WellFormed() && Renamed(g, m3) && MovedTo(g, m3, m, p) && p in g.Headers()
    requires 0 <= p < |g.mem| && g.mem[p].Hdr?
    ensures p < |m| && m[p].Hdr? && m[p].size == g.mem[p].size && (m[p].color == White <==> g.PointedTo(p))
  {
    hide AllHeads, Snapshot.WellFormed, BlockMoved;
  }

  lemma RangeOk(g: Snapshot, p: int)
    requires g.WellFormed() && p in g.Headers() && g.PointedTo(p)
    ensures 0 <= p < |g.mem| && g.mem[p].Hdr? && 0 <= Moved(g, p)
    ensures p + g.mem[p].WhSize() <= |g.mem| && Moved(g, p) + g.mem[p].WhSize() <= |g.mem|
  {
    hide AllHeads, AllTiled, Moved;
    AllHeadsAreBlocks(g.mem, g.chunks, 0);
    MovedDown(g, p);
    var k :| 0 <= k < |g.chunks| && g.chunks[k].start <= Moved(g, p) && Moved(g, p) + g.mem[p].WhSize() <= g.chunks[k].End();
  }
}
