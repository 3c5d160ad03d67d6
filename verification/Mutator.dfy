/** Any program, with the collector at work at any moment, behaves as it would in a heap
    whose blocks are never taken away. */
module Mutators {
  import opened Words
  import opened BlockLayout
  import opened Marking
  import opened MarkStack
  import opened Coalescing
  import opened FreeBlocks
  import opened Carving
  import opened Sweeping
  import opened Coalescence
  import opened Reclaiming
  import opened MajorHeaps
  import opened Compactions

  datatype Op =
    | Slice(work: int)                      // the collector works for a while
    | Collect                               // it does all its work
    | Compact(slots: seq<int>)              // and compacts the heap, with the roots in `slots`
    | Set(dst: nat, n: int)
    | Copy(dst: nat, src: nat)
    | Load(dst: nat, src: nat, i: nat)      // roots[dst] := roots[src].i
    | Store(blk: nat, i: nat, src: nat)     // roots[blk].i := roots[src]
    | Alloc(dst: nat, wo: nat, tag: nat)

  /** The heap as the program sees it. */
  datatype Ideal = Ideal(roots: seq<Word>, blocks: map<int, Block>)

  /** `w` points to a block that has a field `i`. */
  ghost predicate HasField(chunks: seq<Chunk>, s: Ideal, w: Word, i: nat) {
    && w.Ptr? && InHeap(chunks, w.addr) && w.addr - 1 in s.blocks
    && s.blocks[w.addr - 1].tag < NO_SCAN_TAG && i < |s.blocks[w.addr - 1].fields|
  }

  /** Nothing outside `k` can be reached. */
  ghost predicate Enclosed(chunks: seq<Chunk>, s: Ideal, k: set<int>) {
    && (forall w :: w in s.roots ==> GoodWord(chunks, k, w))
    && (forall h, w :: h in k && h in s.blocks && s.blocks[h].tag < NO_SCAN_TAG && w in s.blocks[h].fields ==> GoodWord(chunks, k, w))
  }

  ghost predicate Unreachable(chunks: seq<Chunk>, s: Ideal, h: int) {
    exists k: set<int> :: Enclosed(chunks, s, k) && h !in k
  }

  ghost predicate IsNewBlock(chunks: seq<Chunk>, s: Ideal, h: int, b: Block, wo: nat, tag: nat) {
    && InHeap(chunks, h + 1) && Unreachable(chunks, s, h)
    && b.tag == tag && |b.fields| == wo && (tag < NO_SCAN_TAG ==> forall w :: w in b.fields ==> w == Int(0))
  }

  /** A new block has been put into the root number `dst`. */
  ghost predicate IsAllocation(chunks: seq<Chunk>, s: Ideal, dst: nat, wo: nat, tag: nat, s': Ideal) {
    dst < |s.roots| && exists h, b :: IsNewBlock(chunks, s, h, b, wo, tag) && s' == Ideal(s.roots[dst := Ptr(h + 1)], s.blocks[h := b])
  }

  /** All that could be reached has got new addresses, and nothing else has changed. */
  ghost predicate IsRelabelling(chunks: seq<Chunk>, s: Ideal, f: map<int, int>, s': Ideal) {
    && Injective(f) && Enclosed(chunks, s, f.Keys) && s'.roots == RelabelAll(chunks, f, s.roots)
    && forall h :: h in f ==> h in s.blocks && f[h] in s'.blocks && s'.blocks[f[h]] == RelabelBlock(chunks, f, s.blocks[h])
  }

  /** What an operation does, as the program sees it: the collector does nothing, except that
      compaction gives blocks new addresses; and a new block is one that could not be
      reached before. */
  ghost predicate IdealStep(chunks: seq<Chunk>, s: Ideal, op: Op, s': Ideal) {
    var n := |s.roots|;
    match op
    case Slice(_) => s' == s
    case Collect => s' == s
    case Compact(_) => s' == s || exists f :: IsRelabelling(chunks, s, f, s')
    case Set(dst, v) => s' == if dst < n then s.(roots := s.roots[dst := Int(v)]) else s
    case Copy(dst, src) => s' == if dst < n && src < n then s.(roots := s.roots[dst := s.roots[src]]) else s
    case Load(dst, src, i) =>
      s' == if dst < n && src < n && HasField(chunks, s, s.roots[src], i)
            then s.(roots := s.roots[dst := s.blocks[s.roots[src].addr - 1].fields[i]])
            else s
    case Store(blk, i, src) =>
      s' == if blk < n && src < n && HasField(chunks, s, s.roots[blk], i)
            then var h := s.roots[blk].addr - 1;
                 s.(blocks := s.blocks[h := s.blocks[h].(fields := s.blocks[h].fields[i := s.roots[src]])])
            else s
    case Alloc(dst, wo, tag) => s' == s || IsAllocation(chunks, s, dst, wo, tag, s')
  }

  /** The memory holds what the program thinks it does. */
  ghost predicate Faithful(m: Memory, known: set<int>, roots: seq<Word>, s: Ideal) {
    && roots == s.roots
    && (forall h :: h in known ==> h in s.blocks && s.blocks[h] == Contents(m, h))
  }

  lemma KnownBlock(m: Memory, chunks: seq<Chunk>, heads: set<int>, roots: seq<Word>, known: set<int>, h: int)
    requires HeapOk(m, chunks, heads, roots, known) && h in known
    ensures 0 <= h < |m| && m[h].Hdr? && BlockEnd(m, h) == h + 1 + m[h].size <= |m| && IsBlock(m, heads, h)
    ensures |Contents(m, h).fields| == m[h].size
  {
    hide Layout, FieldIn, GoodWord;
    BlockInMemory(m, chunks, heads, h);
  }

  lemma FaithfulSame(m: Memory, m': Memory, chunks: seq<Chunk>, heads: set<int>, roots: seq<Word>, known: set<int>, known': set<int>, s: Ideal)
    requires HeapOk(m, chunks, heads, roots, known) && Faithful(m, known, roots, s) && known' <= known
    requires BlocksSame(m, m', known')
    ensures Faithful(m', known', roots, s)
  {
    hide HeapOk, Contents, BlockSame, BlockEnd;
    forall h | h in known' ensures h in s.blocks && s.blocks[h] == Contents(m', h) {
      KnownBlock(m, chunks, heads, roots, known, h);
      assert BlockSame(m, m', h);
      ContentsSame(m, m', h);
    }
  }

  /** The known blocks enclose what the program can reach. */
  lemma KnownEnclose(m: Memory, chunks: seq<Chunk>, heads: set<int>, roots: seq<Word>, known: set<int>, s: Ideal)
    requires HeapOk(m, chunks, heads, roots, known) && Faithful(m, known, roots, s)
    ensures Enclosed(chunks, s, known)
  {
    hide Layout, GoodWord;
    forall h, w | h in known && h in s.blocks && s.blocks[h].tag < NO_SCAN_TAG && w in s.blocks[h].fields
      ensures GoodWord(chunks, known, w)
    {
      KnownBlock(m, chunks, heads, roots, known, h);
      var i :| 0 <= i < |s.blocks[h].fields| && s.blocks[h].fields[i] == w;
      assert FieldIn(m, h, h + 1 + i);
    }
  }

  /** A root that points to a block points to a known one, and the program sees its fields. */
  lemma RootBlock(m: Memory, chunks: seq<Chunk>, heads: set<int>, roots: seq<Word>, known: set<int>, s: Ideal, r: nat, i: nat)
    requires HeapOk(m, chunks, heads, roots, known) && Faithful(m, known, roots, s) && r < |roots|
    requires roots[r].Ptr? && InHeap(chunks, roots[r].addr)
    ensures var h := roots[r].addr - 1;
      && h in known && h in s.blocks && 0 <= h < |m| && m[h].Hdr? && h + m[h].size < |m|
      && (HasField(chunks, s, roots[r], i) <==> m[h].tag < NO_SCAN_TAG && i < m[h].size)
      && (i < m[h].size ==> s.blocks[h].fields[i] == m[h + 1 + i])
      && (HasField(chunks, s, roots[r], i) ==> FieldIn(m, h, h + 1 + i) && GoodWord(chunks, known, m[h + 1 + i]))
  {
    hide Layout;
    assert roots[r] in roots;
    var h := roots[r].addr - 1;
    assert Refers(chunks, roots[r], h);
    KnownBlock(m, chunks, heads, roots, known, h);
  }

  lemma StoreContents(m: Memory, m': Memory, chunks: seq<Chunk>, heads: set<int>, roots: seq<Word>, known: set<int>, s: Ideal, b: int, i: nat, val: Word)
    requires HeapOk(m, chunks, heads, roots, known) && Faithful(m, known, roots, s)
    requires b in known && 0 <= b < |m| && m[b].Hdr? && i < m[b].size && b + m[b].size < |m| && m' == m[b + 1 + i := val]
    ensures b in s.blocks && i < |s.blocks[b].fields|
    ensures Faithful(m', known, roots, s.(blocks := s.blocks[b := s.blocks[b].(fields := s.blocks[b].fields[i := val])]))
    ensures forall h :: h in known ==> 0 <= h < |m'| && m'[h].Hdr?
  {
    hide Layout, GoodWord, FieldIn;
    KnownBlock(m, chunks, heads, roots, known, b);
    var fp := b + 1 + i;
    forall h | h in known
      ensures 0 <= h < |m'| && m'[h].Hdr?
      ensures h != b ==> Contents(m', h) == Contents(m, h)
    {
      KnownBlock(m, chunks, heads, roots, known, h);
      NoHeaderInside(m, chunks, heads, b, fp);
      if h != b {
        assert BlockSame(m, m', h) by {
          forall a | h < a < BlockEnd(m, h) && 0 <= a < |m| ensures m'[a] == m[a] {
            if a == fp {
              OneOwner(m, chunks, heads, h, b, a);
            }
          }
        }
        ContentsSame(m, m', h);
      }
    }
    assert m'[b + 1..BlockEnd(m', b)] == m[b + 1..BlockEnd(m, b)][i := val];
  }

  method DoStore(heap: MajorHeap, blk: nat, i: nat, src: nat, ghost s: Ideal) returns (ghost s': Ideal)
    requires heap.Valid() && Faithful(heap.mem[..], heap.known, heap.roots, s)
    modifies heap, heap.mem
    ensures heap.Valid() && Faithful(heap.mem[..], heap.known, heap.roots, s')
    ensures IdealStep(heap.chunks, s, Store(blk, i, src), s')
  {
    hide HeapOk, FreeListOk, Contents, FieldIn, GoodWord, BlocksSame, Accounted, MarkingOk, SweepingOk, Small, Coalesced, AllSwept, RefTableOk;
    ghost var m := heap.mem[..];
    s' := s;
    if blk < |heap.roots| && src < |heap.roots| {
      var w := heap.roots[blk];
      if w.Ptr? && InHeap(heap.chunks, w.addr) {
        RootBlock(m, heap.chunks, heap.heads, heap.roots, heap.known, s, blk, i);
        if heap.mem[w.addr - 1].tag < NO_SCAN_TAG && i < heap.mem[w.addr - 1].size {
          var val := heap.roots[src];
          RootGood(m, heap.chunks, heap.heads, heap.roots, heap.known, src);
          StoreContents(m, m[w.addr + i := val], heap.chunks, heap.heads, heap.roots, heap.known, s, w.addr - 1, i, val);
          s' := s.(blocks := s.blocks[w.addr - 1 := s.blocks[w.addr - 1].(fields := s.blocks[w.addr - 1].fields[i := val])]);
          heap.Modify(w.addr + i, val, w.addr - 1);
          ColorsSame(m[w.addr + i := val], heap.mem[..], heap.chunks, heap.heads, heap.roots, heap.known);
          StoredSame(m[w.addr + i := val], heap.mem[..], heap.chunks, heap.heads, heap.roots, heap.known, s');
        }
      }
    }
  }

  lemma StoredSame(m: Memory, m': Memory, chunks: seq<Chunk>, heads: set<int>, roots: seq<Word>, known: set<int>, s: Ideal)
    requires Faithful(m, known, roots, s) && BlocksSame(m, m', known) && HeapOk(m', chunks, heads, roots, known)
    requires forall h :: h in known ==> 0 <= h < |m| && m[h].Hdr?
    ensures Faithful(m', known, roots, s)
  {
    hide HeapOk, Contents;
    forall h | h in known ensures h in s.blocks && s.blocks[h] == Contents(m', h) {
      KnownBlock(m', chunks, heads, roots, known, h);
      assert BlockSame(m, m', h);
      ContentsSame(m, m', h);
    }
  }

  method DoLoad(heap: MajorHeap, dst: nat, src: nat, i: nat, ghost s: Ideal) returns (ghost s': Ideal)
    requires heap.Valid() && Faithful(heap.mem[..], heap.known, heap.roots, s)
    modifies heap, heap.mem
    ensures heap.Valid() && Faithful(heap.mem[..], heap.known, heap.roots, s')
    ensures IdealStep(heap.chunks, s, Load(dst, src, i), s')
  {
    hide HeapOk, FreeListOk, SnapshotKept, Contents, FieldIn, GoodWord;
    ghost var m := heap.mem[..];
    s' := s;
    if dst < |heap.roots| && src < |heap.roots| {
      var w := heap.roots[src];
      if w.Ptr? && InHeap(heap.chunks, w.addr) {
        RootBlock(m, heap.chunks, heap.heads, heap.roots, heap.known, s, src, i);
        if heap.mem[w.addr - 1].tag < NO_SCAN_TAG && i < heap.mem[w.addr - 1].size {
          heap.SetRoot(dst, heap.mem[w.addr + i]);
          s' := s.(roots := heap.roots);
        }
      }
    }
  }

  ghost predicate AllZero(m: Memory, a: int, n: nat) {
    forall s :: a <= s < a + n && 0 <= s < |m| ==> m[s] == Int(0)
  }

  /** The fields of a new block are given the integer 0; a block that holds no values is left as it is. */
  method InitFields(heap: MajorHeap, hp: int, wo: nat, tag: nat)
    requires heap.Valid() && IsBlock(heap.mem[..], heap.heads, hp) && hp !in heap.known
    requires 0 <= hp < heap.mem.Length && heap.mem[hp] == Hdr(wo, tag, heap.NewColor(hp)) && wo >= 1
    modifies heap`refTable, heap.mem
    ensures heap.Valid() && heap.mem[hp] == old(heap.mem[hp]) && hp + wo < heap.mem.Length && InHeap(heap.chunks, hp + 1)
    ensures tag < NO_SCAN_TAG ==> AllZero(heap.mem[..], hp + 1, wo)
    ensures BlocksUntouched(old(heap.mem[..]), heap.mem[..], heap.known)
  {
    hide HeapOk, FreeListOk, SnapshotKept, StackOk, RefTableOk, Layout, SweptTo, MergePoint, PosOk, BlocksUntouched;
    ghost var m := heap.mem[..];
    BlockRange(m, heap.chunks, heap.heads, heap.roots, heap.known, hp);
    KnownHeads(m, heap.chunks, heap.heads, heap.roots, heap.known);
    UntouchedRefl(m, heap.known);
    if tag < NO_SCAN_TAG {
      var t := 0;
      while t < wo
        modifies heap`refTable, heap.mem
        invariant 0 <= t <= wo && heap.Valid() && heap.mem[hp] == m[hp]
        invariant forall a :: hp < a <= hp + t ==> heap.mem[a] == Int(0)
        invariant BlocksUntouched(m, heap.mem[..], heap.known)
      {
        ghost var m1 := heap.mem[..];
        heap.Initialize(hp + 1 + t, Int(0), hp);
        UntouchedTrans(m, m1, heap.mem[..], heap.chunks, heap.heads, heap.roots, heap.known);
        t := t + 1;
      }
    }
  }

  lemma BlockRange(m: Memory, chunks: seq<Chunk>, heads: set<int>, roots: seq<Word>, known: set<int>, b: int)
    requires HeapOk(m, chunks, heads, roots, known) && b in heads && 0 <= b < |m| && m[b].Hdr? && m[b].size >= 1
    ensures BlockEnd(m, b) == b + 1 + m[b].size <= |m| && InHeap(chunks, b + 1)
  {
    hide Layout, FieldIn, GoodWord;
    BlockInMemory(m, chunks, heads, b);
    WordInHeap(m, chunks, heads, b, b + 1);
  }

  /** A new block is one the program could not reach. */
  lemma NewBlockIsNew(m: Memory, chunks: seq<Chunk>, s: Ideal, known: set<int>, h: int, wo: nat, tag: nat)
    requires Enclosed(chunks, s, known) && h !in known && InHeap(chunks, h + 1)
    requires 0 <= h < |m| && m[h].Hdr? && m[h].size == wo && m[h].tag == tag && h + wo < |m|
    requires tag < NO_SCAN_TAG ==> AllZero(m, h + 1, wo)
    ensures IsNewBlock(chunks, s, h, Contents(m, h), wo, tag)
  {
    hide Enclosed;
    assert BlockEnd(m, h) == h + 1 + wo;
  }

  lemma NewFields(m: Memory, chunks: seq<Chunk>, known: set<int>, h: int, wo: nat, tag: nat, youngStart: int, youngEnd: int)
    requires 0 <= h < |m| && m[h].Hdr? && m[h].size == wo && m[h].tag == tag && h + wo < |m|
    requires tag < NO_SCAN_TAG ==> AllZero(m, h + 1, wo)
    ensures FieldsGood(m, chunks, known, h, youngStart, youngEnd)
  {
  }

  lemma FaithfulMore(m: Memory, known: set<int>, roots: seq<Word>, s: Ideal, h: int, roots': seq<Word>)
    requires Faithful(m, known, roots, s) && h !in known
    ensures Faithful(m, known + {h}, roots', Ideal(roots', s.blocks[h := Contents(m, h)]))
  {
    hide Contents;
  }

  lemma PtrIsGood(chunks: seq<Chunk>, known: set<int>, h: int)
    requires h in known
    ensures GoodWord(chunks, known, Ptr(h + 1))
  {
  }

  method DoAlloc(heap: MajorHeap, dst: nat, wo: nat, tag: nat, ghost s: Ideal) returns (ghost s': Ideal)
    requires heap.Valid() && Faithful(heap.mem[..], heap.known, heap.roots, s)
    modifies heap, heap.mem
    ensures heap.Valid() && Faithful(heap.mem[..], heap.known, heap.roots, s')
    ensures IdealStep(heap.chunks, s, Alloc(dst, wo, tag), s')
    ensures dst < |s.roots| && wo >= 1 ==> if NoneFits(old(heap.mem[..]), old(heap.list), wo) then s' == s else IsAllocation(heap.chunks, s, dst, wo, tag, s')
  {
    hide HeapOk, FreeListOk, SnapshotKept, Contents, FieldIn, GoodWord, BlocksSame, BlocksUntouched, AllocatedUntouched, Enclosed;
    hide StackOk, SweptTo, MergePoint, RefTableOk, Layout, BlockEnd, EndOfNextFit, NoneFits, IsNewBlock, PosOk;
    ghost var m := heap.mem[..];
    s' := s;
    if dst >= |heap.roots| || wo < 1 {
      return;
    }
    ghost var heads := heap.heads;
    var hp := heap.AllocShr(wo, tag);
    KnownUntouched(m, heap.mem[..], heap.chunks, heads, heap.roots, heap.known);
    KnownHeads(m, heap.chunks, heads, heap.roots, heap.known);
    ghost var m1 := heap.mem[..];
    if hp != 0 {
      InitFields(heap, hp, wo, tag);
      UntouchedTrans(m, m1, heap.mem[..], heap.chunks, heads, heap.roots, heap.known);
    }
    UntouchedSame(m, heap.mem[..], heap.known);
    FaithfulSame(m, heap.mem[..], heap.chunks, heads, heap.roots, heap.known, heap.known, s);
    if hp != 0 {
      ghost var m2 := heap.mem[..];
      KnownEnclose(m2, heap.chunks, heap.heads, heap.roots, heap.known, s);
      NewBlockIsNew(m2, heap.chunks, s, heap.known, hp, wo, tag);
      NewFields(m2, heap.chunks, heap.known, hp, wo, tag, heap.youngStart, heap.youngEnd);
      FaithfulMore(m2, heap.known, heap.roots, s, hp, heap.roots[dst := Ptr(hp + 1)]);
      s' := Ideal(heap.roots[dst := Ptr(hp + 1)], s.blocks[hp := Contents(m2, hp)]);
      heap.Publish(hp);
      PtrIsGood(heap.chunks, heap.known, hp);
      heap.SetRoot(dst, Ptr(hp + 1));
    }
  }

  method DoCollect(heap: MajorHeap, ghost s: Ideal)
    requires heap.Valid() && Faithful(heap.mem[..], heap.known, heap.roots, s)
    modifies heap, heap.mem
    ensures heap.Valid() && Faithful(heap.mem[..], heap.known, heap.roots, s)
    ensures heap.mem.Length < LONG_MAX ==> heap.OnlyReachable()
  {
    hide HeapOk, BlocksSame, Contents;
    if heap.mem.Length < LONG_MAX {
      ghost var m, heads, known := heap.mem[..], heap.heads, heap.known;
      heap.FullMajor();
      FaithfulSame(m, heap.mem[..], heap.chunks, heads, heap.roots, known, heap.known, s);
    }
  }

  method DoCompact(heap: MajorHeap, slots: seq<int>, ghost s: Ideal) returns (ghost s': Ideal)
    requires heap.Valid() && Faithful(heap.mem[..], heap.known, heap.roots, s)
    requires YoungApart(heap.chunks, heap.youngStart, heap.youngEnd)
    modifies heap, heap.mem
    ensures heap.Valid() && Faithful(heap.mem[..], heap.known, heap.roots, s')
    ensures IdealStep(heap.chunks, s, Compact(slots), s')
    ensures old(heap.phase) == Idle && MayCompact(heap.chunks, heap.mem.Length, heap.head, old(heap.roots), old(heap.refTable), slots) ==>
      exists f :: IsRelabelling(heap.chunks, s, f, s')
  {
    hide MajorHeap.Valid, Contents, MayCompact, YoungApart, Relabelled, IsRelabelling;
    s' := s;
    if heap.phase == Idle && MayCompact(heap.chunks, heap.mem.Length, heap.head, heap.roots, heap.refTable, slots) {
      ghost var m, known, roots := heap.mem[..], heap.known, heap.roots;
      ghost var f := CompactMajorHeap(heap, slots);
      s' := Ideal(heap.roots, map h | h in heap.known :: Contents(heap.mem[..], h));
      Relabelling(m, heap.mem[..], heap.chunks, roots, heap.roots, known, heap.known, f, s, s');
    }
  }

  lemma Relabelling(m: Memory, m': Memory, chunks: seq<Chunk>, roots: seq<Word>, roots': seq<Word>, known: set<int>, known': set<int>, f: map<int, int>, s: Ideal, s': Ideal)
    requires Faithful(m, known, roots, s) && f.Keys <= known && Relabelled(m, m', chunks, roots, roots', f.Keys, known', f)
    requires s' == Ideal(roots', map h | h in known' :: Contents(m', h))
    ensures IsRelabelling(chunks, s, f, s')
  {
    hide Contents, GoodWord, RelabelAll, RelabelBlock, Injective;
    forall h | h in f ensures f[h] in known' {
      assert f[h] in f.Values;
    }
  }

  /** One operation. */
  method Step(heap: MajorHeap, op: Op, ghost s: Ideal) returns (ghost s': Ideal)
    requires heap.Valid() && Faithful(heap.mem[..], heap.known, heap.roots, s)
    requires YoungApart(heap.chunks, heap.youngStart, heap.youngEnd)
    modifies heap, heap.mem
    ensures heap.Valid() && Faithful(heap.mem[..], heap.known, heap.roots, s')
    ensures IdealStep(heap.chunks, s, op, s')
    ensures op.Slice? ==> Advanced(old(heap.phase), old(heap.ToMark()), old(heap.sweepHp), heap.phase, heap.ToMark(), heap.sweepHp, op.work)
    ensures op.Collect? && heap.mem.Length < LONG_MAX ==> heap.OnlyReachable()
    ensures op.Compact? && old(heap.phase) == Idle && MayCompact(heap.chunks, heap.mem.Length, heap.head, old(heap.roots), old(heap.refTable), op.slots) ==>
      exists f :: IsRelabelling(heap.chunks, s, f, s')
    ensures op.Alloc? && op.dst < |s.roots| && op.wo >= 1 ==>
      if NoneFits(old(heap.mem[..]), old(heap.list), op.wo) then s' == s else IsAllocation(heap.chunks, s, op.dst, op.wo, op.tag, s')
  {
    hide HeapOk, FreeListOk, SnapshotKept, Contents, FieldIn, BlocksSame, StackOk, SweptTo, RefTableOk, IsNewBlock, IsAllocation, IsRelabelling, NoneFits, MayCompact, Reachable, Accounted, MarkingOk, SweepingOk, Small, Coalesced;
    match op {
      case Slice(work) =>
        ghost var m, heads, known := heap.mem[..], heap.heads, heap.known;
        heap.MajorSlice(work);
        FaithfulSame(m, heap.mem[..], heap.chunks, heads, heap.roots, known, heap.known, s);
        s' := s;
      case Collect =>
        DoCollect(heap, s);
        s' := s;
      case Compact(slots) => s' := DoCompact(heap, slots, s);
      case Set(dst, n) =>
        s' := s;
        if dst < |heap.roots| {
          heap.SetRoot(dst, Int(n));
          s' := s.(roots := heap.roots);
        }
      case Copy(dst, src) =>
        s' := s;
        if dst < |heap.roots| && src < |heap.roots| {
          RootGood(heap.mem[..], heap.chunks, heap.heads, heap.roots, heap.known, src);
          heap.SetRoot(dst, heap.roots[src]);
          s' := s.(roots := heap.roots);
        }
      case Load(dst, src, i) => s' := DoLoad(heap, dst, src, i, s);
      case Store(blk, i, src) => s' := DoStore(heap, blk, i, src, s);
      case Alloc(dst, wo, tag) => s' := DoAlloc(heap, dst, wo, tag, s);
    }
  }

  /** A run of any operations, among them slices of the collector at any point: the program
      sees what it would see if there were no collector. */
  method Run(heap: MajorHeap, ops: seq<Op>, ghost s: Ideal) returns (ghost trace: seq<Ideal>)
    requires heap.Valid() && Faithful(heap.mem[..], heap.known, heap.roots, s)
    requires YoungApart(heap.chunks, heap.youngStart, heap.youngEnd)
    modifies heap, heap.mem
    ensures |trace| == |ops| + 1 && trace[0] == s
    ensures forall i :: 0 <= i < |ops| ==> IdealStep(heap.chunks, trace[i], ops[i], trace[i + 1])
    ensures heap.Valid() && Faithful(heap.mem[..], heap.known, heap.roots, trace[|ops|])
    ensures forall h, n: nat :: Reach(heap.mem[..], heap.chunks, heap.roots, h, n) ==> IsBlock(heap.mem[..], heap.heads, h)
  {
    hide HeapOk, FreeListOk, SnapshotKept, IdealStep, Faithful, StackOk, SweptTo, RefTableOk;
    trace := [s];
    var i := 0;
    while i < |ops|
      invariant 0 <= i <= |ops| && |trace| == i + 1 && trace[0] == s
      invariant forall j :: 0 <= j < i ==> IdealStep(heap.chunks, trace[j], ops[j], trace[j + 1])
      invariant heap.Valid() && Faithful(heap.mem[..], heap.known, heap.roots, trace[i])
    {
      ghost var s' := Step(heap, ops[i], trace[i]);
      trace := trace + [s'];
      i := i + 1;
    }
    forall h, n: nat | Reach(heap.mem[..], heap.chunks, heap.roots, h, n)
      ensures IsBlock(heap.mem[..], heap.heads, h)
    {
      ReachKnown(heap.mem[..], heap.chunks, heap.heads, heap.roots, heap.known, h, n);
    }
  }
}
