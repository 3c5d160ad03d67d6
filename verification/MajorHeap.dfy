/** The major heap: allocation from the free list, incremental marking with a write
    barrier, and incremental sweeping, in any order the program and the collector like. */
module MajorHeaps {
  import opened Words
  import opened Tiling
  import opened BlockLayout
  import opened LinkedWords
  import opened Marking
  import opened MarkStack
  import opened FreeBlocks
  import opened Coalescing
  import opened Carving
  import opened Sweeping
  import opened Extension
  import opened Coalescence
  import opened Progress
  import opened Reclaiming

  datatype Phase = Mark | Sweep | Idle

  /** What a slice of `work` words must achieve: from the phase `p`, with `n` words to mark and
      the sweep at `hp`. */
  ghost predicate Advanced(p: Phase, n: nat, hp: int, p': Phase, n': nat, hp': int, work: int) {
    match p
    case Idle => p' != Idle
    case Mark => p' == Sweep || (p' == Mark && n' + work <= n)
    case Sweep => p' == Idle || (p' == Sweep && hp' >= hp + work)
  }

  const LONG_MAX := 0x7FFF_FFFF_FFFF_FFFF

  lemma PosEnter(m: Memory, chunks: seq<Chunk>, heads: set<int>, k: nat)
    requires Layout(m, chunks, heads) && k < |chunks|
    ensures PosOk(chunks, heads, k, chunks[k].start) && chunks[k].start < chunks[k].End() <= |m|
    ensures k > 0 ==> chunks[k - 1].End() < chunks[k].start
  {
    hide BlockOk, EndsWell;
    assert InChunk(chunks[k], chunks[k].start);
  }

  /** If the last fragment is next to the block about to be swept, it is an empty white block. */
  ghost predicate FragmentOk(m: Memory, heads: set<int>, f: int, p: int) {
    f <= p && (f == p ==> f - 1 in heads && HasColor(m, f - 1, White) && m[f - 1].size == 0)
  }

  ghost predicate MarkingOk(m: Memory, chunks: seq<Chunk>, heads: set<int>, known: set<int>, c: Cycle, scan: Scan, stack: seq<int>, pure: bool, at: ScanPoint, k: nat) {
    && SnapshotKept(m, chunks, c, known, scan)
    && StackOk(m, heads, known, stack, pure, at)
    && (at.ScanAt? ==> PosOk(chunks, heads, k, at.hp))
  }

  ghost predicate SweepingOk(m: Memory, chunks: seq<Chunk>, heads: set<int>, known: set<int>, k: nat, p: int, last: int) {
    && SweptTo(m, heads, known, p)
    && PosOk(chunks, heads, k, p)
    && FragmentOk(m, heads, last, p)
    && Coalesced(m, heads, p) && AtSweep(m, heads, p, last)
  }

  predicate IsYoung(youngStart: int, youngEnd: int, w: Word) {
    w.Ptr? && youngStart < w.addr < youngEnd
  }

  /** The memory after the block that `v` points to, if it is white, has been made gray. */
  ghost function Darkened(m: Memory, chunks: seq<Chunk>, v: Word): Memory {
    if v.Ptr? && InHeap(chunks, v.addr) && HasColor(m, v.addr - 1, White) then m[v.addr - 1 := m[v.addr - 1].(color := Gray)] else m
  }

  /** The table lists every field of a known block that points into the young area. */
  ghost predicate RefTableOk(m: Memory, known: set<int>, youngStart: int, youngEnd: int, table: seq<int>) {
    forall h, s :: h in known && FieldIn(m, h, s) && IsYoung(youngStart, youngEnd, m[s]) ==> s in table
  }

  lemma RefTableColors(m: Memory, m': Memory, chunks: seq<Chunk>, heads: set<int>, roots: seq<Word>, known: set<int>, h: int, c: Color, youngStart: int, youngEnd: int, table: seq<int>)
    requires HeapOk(m, chunks, heads, roots, known) && h in heads && Recolored(m, m', h, c)
    requires RefTableOk(m, known, youngStart, youngEnd, table)
    ensures RefTableOk(m', known, youngStart, youngEnd, table)
  {
    hide Layout, FieldIn, GoodWord;
    RecolorFields(m, m', chunks, heads, h, c);
  }

  lemma RefTableLess(m: Memory, known: set<int>, known': set<int>, youngStart: int, youngEnd: int, table: seq<int>)
    requires RefTableOk(m, known, youngStart, youngEnd, table) && known' <= known
    ensures RefTableOk(m, known', youngStart, youngEnd, table)
  {
  }

  lemma RefTableStore(m: Memory, m': Memory, chunks: seq<Chunk>, heads: set<int>, roots: seq<Word>, known: set<int>, fp: int, val: Word, youngStart: int, youngEnd: int, table: seq<int>, table': seq<int>)
    requires HeapOk(m, chunks, heads, roots, known) && 0 <= fp < |m| && fp !in heads && m' == m[fp := val]
    requires RefTableOk(m, known, youngStart, youngEnd, table)
    requires forall s :: s in table ==> s in table'
    requires IsYoung(youngStart, youngEnd, val) ==> fp in table'
    ensures RefTableOk(m', known, youngStart, youngEnd, table')
  {
    hide Layout, FieldIn, GoodWord;
    StoreFieldIn(m, m', chunks, heads, fp, val);
  }

  /** The block at `b` holds only values the program may hold, and none of them young. */
  ghost predicate FieldsGood(m: Memory, chunks: seq<Chunk>, known: set<int>, b: int, youngStart: int, youngEnd: int) {
    forall s :: FieldIn(m, b, s) ==> GoodWord(chunks, known, m[s]) && !IsYoung(youngStart, youngEnd, m[s])
  }

  class MajorHeap {
    const chunks: seq<Chunk>
    const mem: array<Word>
    const head: int           // the free list starts at this word
    const heapSize: nat       // in words
    const youngStart: int     // the young area, which is not part of this heap
    const youngEnd: int
    var refTable: seq<int>    // fields that point into the young area
    var roots: seq<Word>      // all values the program holds outside the heap

    // the free list
    var flPrev: int
    var flMerge: int
    var flLast: int           // the last free block, when an allocation has just failed
    var lastFragment: int

    // the collector
    var phase: Phase
    var sweepHp: int
    var chunk: nat            // the chunk being scanned or swept
    var markHp: ScanPoint
    var grayVals: seq<int>
    var graySize: nat
    var heapIsPure: bool

    ghost var heads: set<int>
    ghost var known: set<int>
    ghost var kept: set<int>   // found by the last cycle, or allocated since it began
    ghost var list: seq<int>
    ghost var mergeAt: nat
    ghost var cycle: Cycle

    /** A heap of one chunk, all of it free. */
    constructor (chunk0: Chunk, mem: array<Word>, head: int, heapSize: nat, roots: seq<Word>, youngStart: int, youngEnd: int)
      requires ChunksOk([chunk0], mem.Length) && chunk0.start > 0
      requires 1 <= head < mem.Length && !InChunk(chunk0, head) && !InChunk(chunk0, head - 1)
      requires forall w :: w in roots ==> GoodWord([chunk0], {}, w)
      modifies mem
      ensures Valid() && phase == Idle && this.roots == roots && this.mem == mem && chunks == [chunk0] && known == {}
    {
      hide HeapOk, FreeListOk, MarkingOk, SweepingIn, ChunksOk, RefTableOk, AllSwept, GoodWord, Small, Coalesced;
      OneChunk(chunk0, mem.Length);
      this.chunks, this.mem, this.head, this.heapSize, this.roots := [chunk0], mem, head, heapSize, roots;
      this.youngStart, this.youngEnd, refTable := youngStart, youngEnd, [];
      flPrev, flMerge, flLast, lastFragment := head, chunk0.start + 1, head, 0;
      phase, sweepHp, chunk, markHp := Idle, chunk0.End(), 0, NoScan;
      grayVals, graySize, heapIsPure := [], 2048, true;
      heads, known, kept, list, mergeAt := {chunk0.start}, {}, {}, [chunk0.start + 1], 1;
      cycle := Cycle([], [], {});
      new;
      mem[head - 1] := Hdr(0, 0, Blue);
      mem[chunk0.start] := Hdr(chunk0.size - 1, 0, Blue);
      mem[chunk0.start + 1] := Ptr(0);
      mem[head] := Ptr(chunk0.start + 1);
      InitialHeap(mem[..], chunk0, head, roots);
      InitialNeighbours(mem[..], chunk0);
      NothingKnown(mem[..], youngStart, youngEnd, refTable);
    }

    /** The part of the invariant that does not depend on the phase, for the memory `m` and two
        pointers of the free list. */
    ghost predicate BasicIn(m: Memory, prev: int, merge: int)
      reads this
    {
      && HeapOk(m, chunks, heads, roots, known)
      && FreeListOk(m, chunks, heads, head, list, NONE)
      && RefTableOk(m, known, youngStart, youngEnd, refTable)
      && Small(m, heads, known)
      && mergeAt <= |list| && merge == Node(head, list, mergeAt)
      && (prev == head || prev in list)
      && |chunks| > 0 && chunks[0].start > 0 && chunk < |chunks| && graySize >= 2 && |grayVals| < graySize
    }

    ghost predicate Basic()
      reads this, mem
    {
      BasicIn(mem[..], flPrev, flMerge)
    }

    ghost predicate Marking(scan: Scan)
      reads this, mem
    {
      MarkingOk(mem[..], chunks, heads, known, cycle, scan, grayVals, heapIsPure, markHp, chunk)
    }

    ghost predicate SweepingIn(m: Memory)
      reads this
    {
      && SweepingOk(m, chunks, heads, known, chunk, sweepHp, lastFragment)
      && MergePoint(list, mergeAt, sweepHp)
      && (lastFragment == sweepHp ==> lastFragment - 1 !in known)
      && grayVals == [] && heapIsPure && markHp == NoScan
    }

    ghost predicate ValidIn(m: Memory, prev: int, merge: int)
      reads this
    {
      && BasicIn(m, prev, merge)
      && Accounted(m, heads, known, kept, phase == Mark, phase == Sweep, sweepHp)
      && (phase == Mark ==> MarkingOk(m, chunks, heads, known, cycle, Between, grayVals, heapIsPure, markHp, chunk))
      && (phase == Sweep ==> SweepingIn(m))
      && (phase != Sweep ==> Coalesced(m, heads, -1))
      && (phase == Idle ==> AllSwept(m, heads) && grayVals == [] && heapIsPure && markHp == NoScan)
    }

    ghost predicate Valid()
      reads this, mem
    {
      ValidIn(mem[..], flPrev, flMerge)
    }

    /** When the stack is full it is made bigger, or, when there is no room or it is
        already big, part of it is forgotten. */
    method ReallocGrayVals(room: bool)
      requires |grayVals| == graySize && graySize >= 2
      modifies this`grayVals, this`graySize, this`heapIsPure
      ensures graySize >= 2 && |grayVals| < graySize
      ensures if old(graySize) >= heapSize / 128 then graySize == old(graySize) && grayVals == old(grayVals)[..graySize / 2] && !heapIsPure
        else if room then graySize == 2 * old(graySize) && grayVals == old(grayVals) && heapIsPure == old(heapIsPure)
        else graySize == old(graySize) && grayVals == [] && !heapIsPure
    {
      if graySize < heapSize / 128 {
        if !room {
          grayVals := [];
          heapIsPure := false;
        } else {
          graySize := 2 * graySize;
        }
      } else {
        grayVals := grayVals[..graySize / 2];
        heapIsPure := false;
      }
    }

    /** Makes sure that what `v` points to will be marked. */
    method Darken(v: Word, ghost scan: Scan)
      requires Basic() && Marking(scan) && GoodWord(chunks, known, v)
      modifies this`grayVals, this`graySize, this`heapIsPure, mem
      ensures Basic() && Marking(scan)
      ensures forall t :: Refers(chunks, v, t) ==> NotWhite(mem[..], t)
      ensures OnlyColors(old(mem[..]), mem[..], heads)
      ensures mem[..] == Darkened(old(mem[..]), chunks, v)
      ensures forall t :: old(NotWhite(mem[..], t)) ==> NotWhite(mem[..], t)
      ensures NonBlack(mem[..], heads) == old(NonBlack(mem[..], heads)) && SameBlack(old(mem[..]), mem[..], -1)
      ensures heapIsPure ==> old(heapIsPure)
    {
      hide HeapOk, FreeListOk, SnapshotKept, StackOk, RefTableOk, Layout, Small;
      OnlyColorsRefl(mem[..], heads);
      if v.Ptr? && InHeap(chunks, v.addr) {
        assert Refers(chunks, v, v.addr - 1);
        ghost var m, h := mem[..], v.addr - 1;
        KnownHeads(m, chunks, heads, roots, known);
        if mem[v.addr - 1].color == White {
          mem[v.addr - 1] := mem[v.addr - 1].(color := Gray);
          assert Recolored(m, mem[..], h, Gray);
          HeapLayout(m, chunks, heads, roots, known);
          DarkenKeeps(m, mem[..], chunks, heads, roots, cycle, known, scan, h);
          PushGray(m, mem[..], heads, known, grayVals, heapIsPure, markHp, h);
          RecolorFree(m, mem[..], chunks, heads, head, list, NONE, h, Gray);
          RecolorOnly(m, mem[..], heads, h, Gray);
          RecolorSmall(m, mem[..], heads, known, h, Gray);
          RefTableColors(m, mem[..], chunks, heads, roots, known, h, Gray, youngStart, youngEnd, refTable);
          grayVals := grayVals + [v.addr];
          if |grayVals| >= graySize {
            ghost var full, pure := grayVals, heapIsPure;
            var room: bool := *;
            ReallocGrayVals(room);
            CutTo(mem[..], heads, known, full, pure, markHp, grayVals, heapIsPure, graySize);
          }
        }
      }
    }

    /** A cycle starts: the roots are darkened. */
    method StartCycle()
      requires Valid() && phase == Idle
      modifies this, mem
      ensures Valid() && phase == Mark
      ensures OnlyColors(old(mem[..]), mem[..], heads)
      ensures heads == old(heads) && roots == old(roots) && refTable == old(refTable) && list == old(list) && known <= old(known)
      ensures kept == known && forall h :: h in known <==> Reachable(old(mem[..]), chunks, old(roots), h)
      ensures GrayRoots(mem[..], heads, roots)
    {
      hide HeapOk, FreeListOk, SnapshotKept, StackOk, RefTableOk, Layout, Reachable, Reach, Small, Coalesced, OnlyColors, BlackKept, SameBlack, PosOk, GrayRoots, Darkened;
      ghost var m := mem[..];
      cycle := TakeSnapshot(m, chunks, heads, roots, known);
      LiveIsReached(chunks, cycle);
      CycleStarts(m, chunks, heads, roots, known, cycle);
      LiveAreKnown(m, chunks, heads, roots, known, cycle);
      RefTableLess(m, known, cycle.live, youngStart, youngEnd, refTable);
      SmallLess(m, heads, known, cycle.live);
      HeapLayout(m, chunks, heads, roots, known);
      known, kept := cycle.live, cycle.live;
      EmptyStack(m, heads, known);
      NothingBlack(m, heads, kept);
      NoGrayYet(m, heads);
      assert roots[..0] == [];
      OnlyColorsRefl(m, heads);
      var r := 0;
      while r < |roots|
        modifies this`grayVals, this`graySize, this`heapIsPure, mem
        invariant 0 <= r <= |roots|
        invariant Basic() && Marking(Starting(roots[..r]))
        invariant OnlyColors(m, mem[..], heads) && BlackKept(mem[..], heads, kept) && GrayRoots(mem[..], heads, roots[..r])
      {
        RootGood(mem[..], chunks, heads, roots, known, r);
        ghost var m1 := mem[..];
        Darken(roots[r], Starting(roots[..r]));
        BlackKeptStep(m1, mem[..], heads, known, kept, -1);
        GrayRootsStep(m1, chunks, heads, roots, r);
        OnlyColorsTrans(m, m1, mem[..], heads);
        RootDarkened(mem[..], chunks, cycle, known, roots[..r], roots[r]);
        assert roots[..r + 1] == roots[..r] + [roots[r]];
        r := r + 1;
      }
      assert roots[..r] == roots == cycle.roots;
      RootsDarkened(mem[..], chunks, cycle, known, roots[..r]);
      NeighboursKept(m, mem[..], chunks, heads, head, list, -1);
      phase := Mark;
      markHp := NoScan;
    }

    /** The block on top of the stack is made black, and its fields are darkened. */
    method MarkTop() returns (size: nat)
      requires Basic() && Marking(Between) && |grayVals| > 0
      modifies this`grayVals, this`graySize, this`heapIsPure, mem
      ensures Basic() && Marking(Between)
      ensures OnlyColors(old(mem[..]), mem[..], heads)
      ensures var h := old(grayVals[|grayVals| - 1]) - 1;
        && h in known && h in old(NonBlack(mem[..], heads)) && NonBlack(mem[..], heads) == old(NonBlack(mem[..], heads)) - {h}
        && HasColor(mem[..], h, Black) && SameBlack(old(mem[..]), mem[..], h) && size == mem[h].size
        && FieldsSeen(mem[..], chunks, h, mem.Length)
    {
      hide HeapOk, FreeListOk, SnapshotKept, StackOk, RefTableOk, Layout, FieldIn, GoodWord, Small, OnlyColors, FieldsSeen, NoDup, Links, PosOk;
      ghost var m := mem[..];
      var v := grayVals[|grayVals| - 1];
      StackTop(m, heads, known, grayVals, heapIsPure, markHp);
      HeapLayout(m, chunks, heads, roots, known);
      BlockInMemory(m, chunks, heads, v - 1);
      var hd := mem[v - 1];
      mem[v - 1] := hd.(color := Black);
      assert Recolored(m, mem[..], v - 1, Black);
      TopBlackened(m, mem[..], chunks, heads, roots, known, cycle, head, list, youngStart, youngEnd, refTable, grayVals, heapIsPure, markHp, chunk);
      grayVals := grayVals[..|grayVals| - 1];
      size := hd.size;
      ghost var m1 := mem[..];
      if hd.tag < NO_SCAN_TAG {
        OnlyColorsRefl(m1, heads);
        NoFieldsYet(m1, chunks, v - 1);
        var i := 0;
        while i < size
          modifies this`grayVals, this`graySize, this`heapIsPure, mem
          invariant 0 <= i <= size
          invariant Basic() && Marking(Scanning(v - 1, v + i))
          invariant OnlyColors(m1, mem[..], heads)
          invariant NonBlack(mem[..], heads) == NonBlack(m1, heads) && SameBlack(m1, mem[..], -1)
          invariant FieldsSeen(mem[..], chunks, v - 1, v + i)
        {
          ghost var m2 := mem[..];
          IsField(m, m1, m2, heads, v - 1, i);
          FieldValue(m2, chunks, heads, roots, known, v - 1, v + i);
          GoodField(m2, chunks, heads, roots, known, v - 1, v + i);
          var child := mem[v + i];
          Darken(child, Scanning(v - 1, v + i));
          OnlyColorsTrans(m1, m2, mem[..], heads);
          HeapLayout(m2, chunks, heads, roots, known);
          SameWord(m2, mem[..], heads, v + i);
          OneMoreSeen(m2, mem[..], chunks, heads, v - 1, v + i);
          ScanOneField(mem[..], chunks, cycle, known, v - 1, v + i);
          i := i + 1;
        }
        NoMoreFields(m, m1, mem[..], heads, v - 1);
      } else {
        NoFields(m1, v - 1);
      }
      ScanDone(mem[..], chunks, heads, roots, cycle, known, v - 1, if hd.tag < NO_SCAN_TAG then v + size else v);
      AllFieldsSeen(m, mem[..], chunks, v - 1, v + (if hd.tag < NO_SCAN_TAG then size else 0));
      OnlyColorsTrans(m, m1, mem[..], heads);
    }

    /** How far the scan still has to go. */
    ghost function ScanLeft(): nat
      reads this
    {
      if markHp.ScanAt? && markHp.hp <= mem.Length then 1 + mem.Length - markHp.hp else 0
    }

    /** One step of the search for gray blocks that were forgotten. */
    method ScanStep()
      requires Basic() && Marking(Between) && grayVals == [] && markHp.ScanAt?
      modifies this`grayVals, this`markHp, this`chunk
      ensures Basic() && Marking(Between)
      ensures ScanLeft() < old(ScanLeft())
    {
      hide HeapOk, FreeListOk, SnapshotKept, StackOk, RefTableOk, Layout, PosOk, Small;
      HeapLayout(mem[..], chunks, heads, roots, known);
      PosBound(mem[..], chunks, heads, chunk, markHp.hp);
      if markHp.hp == chunks[chunk].End() {
        ScanGap(mem[..], chunks, heads, known, chunk, heapIsPure);
        if chunk + 1 == |chunks| {
          markHp := NoScan;
        } else {
          chunk := chunk + 1;
          PosEnter(mem[..], chunks, heads, chunk);
          markHp := ScanAt(chunks[chunk].start);
        }
      } else {
        var p := markHp.hp;
        PosNext(mem[..], chunks, heads, chunk, p);
        EndOf(mem[..], p);
        ScanBlock(mem[..], chunks, heads, known, p, heapIsPure);
        if mem[p].color == Gray {
          grayVals := grayVals + [p + 1];
        }
        assert grayVals == if HasColor(mem[..], p, Gray) then [p + 1] else [];
        markHp := ScanAt(p + mem[p].size + 1);
      }
    }

    /** The number of words that may still have to be marked. */
    ghost function ToMark(): (n: nat)
      reads this, mem
      ensures n <= mem.Length
    {
      WordsBound(mem[..], NonBlack(mem[..], heads));
      |WordsOf(mem[..], NonBlack(mem[..], heads))|
    }

    /** Marks for a while: at least as many words as asked for, unless nothing gray is left.
        Then sweeping is next, and everything the program can reach is black. */
    method MarkSlice(work0: int)
      requires Valid() && phase == Mark
      modifies this, mem
      ensures Valid() && (phase == Mark || phase == Sweep)
      ensures OnlyColors(old(mem[..]), mem[..], heads)
      ensures heads == old(heads) && roots == old(roots) && refTable == old(refTable) && list == old(list)
      ensures known == old(known) && kept == old(kept)
      ensures phase == Sweep ==> AllFound() && forall h :: Reachable(mem[..], chunks, roots, h) ==> HasColor(mem[..], h, Black)
      ensures phase == Sweep || ToMark() + work0 <= old(ToMark())
    {
      hide HeapOk, FreeListOk, SnapshotKept, StackOk, RefTableOk, Layout, PosOk, OnlyColors, NonBlack, Small, Coalesced, AtSweep, Accounted, WordsOf;
      ghost var m := mem[..];
      OnlyColorsRefl(m, heads);
      var work := work0;
      while work > 0
        modifies this`grayVals, this`graySize, this`heapIsPure, this`markHp, this`chunk, this`phase, this`sweepHp,
                 this`flMerge, this`lastFragment, this`mergeAt, mem
        invariant Valid() && (phase == Mark || (phase == Sweep && work == 0))
        invariant OnlyColors(m, mem[..], heads) && (phase == Sweep ==> AllFound())
        invariant phase == Mark ==> ToMark() + work0 - work <= old(ToMark())
        decreases phase == Mark, NonBlack(mem[..], heads), if heapIsPure then 0 else 1, ScanLeft()
      {
        ghost var m1 := mem[..];
        if |grayVals| > 0 {
          HeapLayout(m1, chunks, heads, roots, known);
          ghost var top := grayVals[|grayVals| - 1] - 1;
          var size := MarkTop();
          OnlyColorsTrans(m, m1, mem[..], heads);
          NeighboursKept(m1, mem[..], chunks, heads, head, list, -1);
          AccountMarked(m1, mem[..], heads, known, kept, top, sweepHp);
          LessWork(m1, mem[..], chunks, heads, top);
          work := work - (size + 1);
        } else if markHp.ScanAt? {
          ScanStep();
        } else if !heapIsPure {
          HeapLayout(mem[..], chunks, heads, roots, known);
          ScanStarts(mem[..], chunks, heads, known);
          PosEnter(mem[..], chunks, heads, 0);
          heapIsPure := true;
          chunk := 0;
          markHp := ScanAt(chunks[0].start);
        } else {
          StartSweeping();
          work := 0;
        }
      }
      if phase == Sweep {
        ReachableBlack(mem[..], chunks, heads, roots, known);
      }
    }

    /** The sweep is about to start, and all the program can hold is black. */
    ghost predicate AllFound()
      reads this, mem
    {
      |chunks| > 0 && sweepHp == chunks[0].start && forall h :: h in known ==> HasColor(mem[..], h, Black)
    }

    method StartSweeping()
      requires Valid() && phase == Mark && grayVals == [] && heapIsPure && markHp == NoScan
      modifies this`phase, this`chunk, this`sweepHp, this`flMerge, this`lastFragment, this`mergeAt
      ensures Valid() && phase == Sweep && mergeAt == 0 && AllFound()
    {
      hide FreeListOk, SnapshotKept, RefTableOk, Layout, PosOk, Small, Coalesced, AtSweep, Accounted;
      NothingGray(mem[..], heads, known);
      AllBlack(mem[..], chunks, heads, roots, cycle, known);
      HeapLayout(mem[..], chunks, heads, roots, known);
      StartOfSweep(mem[..], chunks, heads, head, list);
      NoMinusOne(mem[..], chunks, heads);
      SweepStartsC(mem[..], chunks, heads, 0, -1, 0);
      PosEnter(mem[..], chunks, heads, 0);
      AccountSweep(mem[..], heads, known, kept, sweepHp, chunks[0].start);
      lastFragment := 0;
      flMerge := head;
      mergeAt := 0;
      phase := Sweep;
      chunk := 0;
      sweepHp := chunks[0].start;
    }

    /** The program stores `val` into a field of a block it holds. */
    method Modify(fp: int, val: Word, ghost b: int)
      requires Valid() && b in known && FieldIn(mem[..], b, fp) && GoodWord(chunks, known, val)
      modifies this`grayVals, this`graySize, this`heapIsPure, this`refTable, mem
      ensures Valid() && 0 <= fp < mem.Length && mem[fp] == val
      ensures var m := old(mem[..]);
        mem[..] == if phase == Mark then Darkened(m[fp := val], chunks, m[fp]) else m[fp := val]
      ensures OnlyColors(old(mem[..])[fp := val], mem[..], heads)
      ensures refTable == old(refTable) + if IsYoung(youngStart, youngEnd, val) && !IsYoung(youngStart, youngEnd, old(mem[..])[fp]) then [fp] else []
    {
      hide HeapOk, FreeListOk, SnapshotKept, StackOk, RefTableOk, Layout, FieldIn, GoodWord, SweptTo, Small, Coalesced, AtSweep, Accounted, SameBlack;
      ghost var m := mem[..];
      FieldInMemory(m, b, fp);
      FieldValue(m, chunks, heads, roots, known, b, fp);
      GoodField(m, chunks, heads, roots, known, b, fp);
      var old_ := mem[fp];
      mem[fp] := val;
      ghost var m1 := mem[..];
      StoreRest(m, m1, chunks, heads, roots, known, head, list, b, fp, val);
      HeapLayout(m, chunks, heads, roots, known);
      KnownHeads(m, chunks, heads, roots, known);
      StoreC(m, m1, heads, known, if phase == Sweep then sweepHp else -1, lastFragment);
      AccountSame(m, m1, heads, known, kept, phase == Mark, phase == Sweep, sweepHp);
      OnlyColorsRefl(m1, heads);
      if InHeap(chunks, fp) {
        ghost var was := refTable;
        if IsYoung(youngStart, youngEnd, val) && !IsYoung(youngStart, youngEnd, old_) {
          refTable := refTable + [fp];
        }
        InTable(m, known, youngStart, youngEnd, was, b, fp);
        RefTableStore(m, m1, chunks, heads, roots, known, fp, val, youngStart, youngEnd, was, refTable);
        if phase == Mark {
          StoreKeeps(m, m1, chunks, heads, roots, cycle, known, b, fp, val);
          StackStore(m, m1, heads, known, grayVals, heapIsPure, markHp, fp);
          HeapLayout(m1, chunks, heads, roots, known);
          Darken(old_, Storing(fp));
          AccountMarked(m1, mem[..], heads, known, kept, -1, sweepHp);
          NeighboursKept(m1, mem[..], chunks, heads, head, list, -1);
          StoreDone(m, mem[..], chunks, cycle, known, fp);
        } else {
          KnownHeads(m, chunks, heads, roots, known);
          SweptStore(m, m1, heads, known, fp, sweepHp, lastFragment);
        }
      } else {
        FieldFacts(m, chunks, heads, b, fp);
        assert false;
      }
    }

    /** Finds the first free block, from where the last search ended and then from the
        start, that has `wo` words; cuts `wo` + 1 words off its end. */
    method FlAllocate(wo: nat) returns (hp: int, ghost j: nat)
      requires Basic() && wo >= 1
      modifies this`flPrev, this`flMerge, this`flLast, mem
      ensures hp == 0 ==> mem[..] == old(mem[..]) && flPrev == old(flPrev) && flMerge == old(flMerge)
      ensures hp == 0 ==> flLast == Node(head, list, |list|)
      ensures hp == 0 <==> NoneFits(old(mem[..]), list, wo)
      ensures hp != 0 ==> NextFit(old(mem[..]), head, list, old(flPrev), j, wo)
      ensures hp != 0 ==> WasCut(old(mem[..]), mem[..], head, list, j, wo, hp)
      ensures hp != 0 ==> flPrev == Node(head, list, j)
      ensures hp != 0 ==> flMerge == if old(flMerge) == list[j] && old(mem[..])[list[j] - 1].size < wo + 2 then Node(head, list, j) else old(flMerge)
    {
      hide HeapOk, FreeListOk, Layout, RefTableOk, Ascending, NoneFits, NextFit, FitsFrom, Small, TooSmall, AllSmall;
      ghost var m := mem[..];
      HeapLayout(m, chunks, heads, roots, known);
      ghost var i0 := PrevIndex(head, list, flPrev);
      ghost var i: nat := i0;
      NoneSmall(m, list, i0, wo);
      ListWalk(m, chunks, heads, head, list, i);
      var prev := flPrev;
      var cur := mem[prev].addr;
      while cur != 0
        invariant mem[..] == m && flPrev == old(flPrev) && flMerge == old(flMerge)
        invariant i0 <= i <= |list| && prev == Node(head, list, i)
        invariant 0 <= prev < mem.Length && mem[prev] == Ptr(cur) && cur == (if i < |list| then list[i] else 0)
        invariant AllSmall(m, list, i0, i, wo)
        decreases |list| - i
      {
        ListBlock(m, chunks, heads, head, list, i);
        if mem[cur - 1].size >= wo {
          FitsNext(m, head, list, flPrev, i0, i, wo);
          hp := AllocateBlock(wo + 1, prev, cur);
          j := i;
          return;
        }
        MoreSmall(m, list, i0, i, wo);
        ListWalk(m, chunks, heads, head, list, i + 1);
        prev := cur;
        cur := mem[prev].addr;
        i := i + 1;
      }
      if i < |list| {
        ListBlock(m, chunks, heads, head, list, i);
      }
      assert i == |list|;
      flLast := prev;
      prev := head;
      i := 0;
      NoneSmall(m, list, 0, wo);
      ListWalk(m, chunks, heads, head, list, 0);
      cur := mem[prev].addr;
      while prev != flPrev
        invariant mem[..] == m && flPrev == old(flPrev) && flMerge == old(flMerge) && flLast == Node(head, list, |list|)
        invariant AllSmall(m, list, i0, |list|, wo)
        invariant i <= i0 && prev == Node(head, list, i)
        invariant 0 <= prev < mem.Length && mem[prev] == Ptr(cur) && cur == (if i < |list| then list[i] else 0)
        invariant AllSmall(m, list, 0, i, wo)
        decreases i0 - i
      {
        ListBlock(m, chunks, heads, head, list, i);
        if mem[cur - 1].size >= wo {
          FitsNext(m, head, list, flPrev, i0, i, wo);
          hp := AllocateBlock(wo + 1, prev, cur);
          j := i;
          return;
        }
        MoreSmall(m, list, 0, i, wo);
        ListWalk(m, chunks, heads, head, list, i + 1);
        prev := cur;
        cur := mem[prev].addr;
        i := i + 1;
      }
      NodeIndex(m, chunks, heads, head, list, i, i0);
      AllTooSmall(m, list, i0, wo);
      hp, j := 0, 0;
    }

    method AllocateBlock(wh: nat, prev: int, cur: int) returns (hp: int)
      requires 1 <= cur < mem.Length && 0 <= prev < mem.Length && prev != cur - 1 && mem[cur - 1].Hdr? && mem[cur - 1].size + 1 >= wh
      modifies this`flPrev, this`flMerge, mem
      ensures mem[..] == BlockCut(old(mem[..]), prev, cur, wh)
      ensures hp == cur + old(mem[cur - 1]).size - wh
      ensures flPrev == prev
      ensures flMerge == if old(flMerge) == cur && old(mem[cur - 1]).size < wh + 1 then prev else old(flMerge)
    {
      var h := mem[cur - 1];
      if h.size < wh + 1 {
        mem[prev] := mem[cur];
        if flMerge == cur {
          flMerge := prev;
        }
        mem[cur - 1] := Hdr(0, 0, White);
      } else {
        mem[cur - 1] := Hdr(h.size - wh, 0, Blue);
      }
      flPrev := prev;
      hp := cur + h.size - wh;
    }

    /** The colour of a new block: one that the collector will not take for garbage. */
    function NewColor(hp: int): Color
      reads this
    {
      if phase == Mark || (phase == Sweep && hp >= sweepHp) then Black else White
    }

    /** Allocates a block; 0 means that no free block is big enough. Its fields are still to be
        initialized. Blocks already allocated are left alone. */
    method AllocShr(wo: nat, tag: nat) returns (hp: int)
      requires Valid() && wo >= 1
      modifies this`flPrev, this`flMerge, this`flLast, this`heads, this`kept, this`list, this`mergeAt, mem
      ensures Valid()
      ensures hp == 0 <==> NoneFits(old(mem[..]), old(list), wo)
      ensures hp == 0 ==> mem[..] == old(mem[..]) && heads == old(heads) && list == old(list)
      ensures hp != 0 ==> heads == old(heads) + {hp} && hp !in known
      ensures hp != 0 ==> 0 <= hp < mem.Length && mem[hp] == Hdr(wo, tag, NewColor(hp))
      ensures hp == 0 ==> flLast == Node(head, list, |list|)
      ensures hp != 0 ==> EndOfNextFit(old(mem[..]), head, old(list), old(flPrev), hp, wo)
      ensures AllocatedUntouched(old(mem[..]), mem[..], old(heads))
    {
      hide HeapOk, FreeListOk, SnapshotKept, StackOk, RefTableOk, Layout, SweptTo, AllocatedUntouched, BlocksUntouched, BlockCut, MergePoint, HeadersCarved, Ascending, AllSwept, FragmentOk, ListAfterCut, MergeAfterCut, WasCut, Node, HasColor, NoneFits, NextFit, EndOfNextFit, GoodWord, PosOk, IsBlock, IsYoung, Small, Coalesced, AtSweep, Accounted, MarkingOk, SweepingOk;
      ghost var m := mem[..];
      HeapLayout(m, chunks, heads, roots, known);
      ghost var j;
      hp, j := FlAllocate(wo);
      if hp == 0 {
        NothingTouched(m, heads);
        return;
      }
      CutInMemory(m, mem[..], chunks, heads, head, list, j, wo, hp);
      WriteHeader(hp, wo, tag, m, j, old(flPrev), old(flMerge));
    }

    /** The last step of an allocation: the block that starts at `hp`, which has been cut from
        the `j`th free block, gets its header. */
    method WriteHeader(hp: int, wo: nat, tag: nat, ghost m: Memory, ghost j: nat, ghost prev: int, ghost merge: int)
      requires ValidIn(m, prev, merge) && wo >= 1 && 0 <= hp < mem.Length == |m|
      requires WasCut(m, mem[..], head, list, j, wo, hp) && NextFit(m, head, list, prev, j, wo)
      requires flPrev == Node(head, list, j)
      requires flMerge == if merge == list[j] && m[list[j] - 1].size < wo + 2 then Node(head, list, j) else merge
      modifies this`heads, this`kept, this`list, this`mergeAt, mem
      ensures Valid() && heads == old(heads) + {hp} && hp !in known
      ensures mem[hp] == Hdr(wo, tag, NewColor(hp)) && EndOfNextFit(m, head, old(list), prev, hp, wo)
      ensures AllocatedUntouched(m, mem[..], old(heads))
    {
      hide HeapOk, FreeListOk, RefTableOk, AllocatedUntouched, BlockCut, MergePoint, AllSwept, ListAfterCut, MergeAfterCut, Node, NextFit, EndOfNextFit, Small, Coalesced, Accounted, MarkingOk, SweepingOk;
      ghost var m1 := mem[..];
      var color := NewColor(hp);
      mem[hp] := Hdr(wo, tag, color);
      AllocAll(m, m1, mem[..], chunks, heads, roots, known, kept, head, list, j, wo, tag, color, hp, youngStart, youngEnd, refTable,
        prev, mergeAt, merge, flMerge, chunk, sweepHp, lastFragment, cycle, grayVals, heapIsPure, markHp, phase);
      heads, kept, list, mergeAt := heads + {hp}, kept + {hp}, ListAfterCut(m, list, j, wo + 1), MergeAfterCut(m, list, j, wo + 1, mergeAt);
    }

    /** The rest of the state of the free list and the collector. */
    ghost predicate Others()
      reads this
    {
      && mergeAt <= |list| && flMerge == Node(head, list, mergeAt)
      && (flPrev == head || flPrev in list)
      && |chunks| > 0 && chunks[0].start > 0 && chunk < |chunks| && graySize >= 2 && |grayVals| < graySize
    }

    ghost predicate Holding(x: int, adj: int)
      reads this, mem
    {
      && Held(mem[..], chunks, heads, roots, known, head, list, mergeAt, chunk, x, adj)
      && RefTableOk(mem[..], known, youngStart, youngEnd, refTable) && Small(mem[..], heads, known)
      && Others()
    }

    /** Merges the white block `bp` with the fragment before it and the free blocks around
        it, and puts it on the free list unless it is a fragment itself. The result is the
        address where the merged block ends. */
    method FlMergeBlock(bp0: int) returns (adj: int)
      requires 1 <= bp0 <= mem.Length && Holding(bp0 - 1, BlockEnd(mem[..], bp0 - 1)) && HasColor(mem[..], bp0 - 1, White)
      requires FragmentOk(mem[..], heads, lastFragment, bp0 - 1) && (lastFragment == bp0 - 1 ==> lastFragment - 1 !in known)
      requires HeldC(mem[..], heads, bp0 - 1, BlockEnd(mem[..], bp0 - 1), lastFragment)
      modifies this`flPrev, this`flMerge, this`lastFragment, this`heads, this`list, this`mergeAt, mem
      ensures Basic()
      ensures Swept(mem[..], chunks, heads, roots, known, head, list, mergeAt, chunk, adj)
      ensures adj >= bp0 && adj >= old(BlockEnd(mem[..], bp0 - 1)) && FragmentOk(mem[..], heads, lastFragment, adj) && (lastFragment == adj ==> lastFragment - 1 !in known)
      ensures Coalesced(mem[..], heads, adj) && AtSweep(mem[..], heads, adj, lastFragment)
      ensures BlocksUntouched(old(mem[..]), mem[..], known)
      ensures Merging(old(mem[..]), old(heads), mem[..], heads, bp0 - 1, -1) && EndsFrom(mem[..], heads, bp0 - 1, adj)
    {
      hide Held, Swept, RefTableOk, FreeListOk, Layout, HeapOk, BlockEnd, Small, HeldC, Coalesced, AtSweep, NotFreeAt, Merging, EndsFrom;
      ghost var m, heads0 := mem[..], heads;
      HeldEnd(m, chunks, heads, roots, known, head, list, mergeAt, chunk, bp0 - 1, BlockEnd(m, bp0 - 1));
      var bp, hd := MergeFragmentStep(bp0);
      ghost var m1, heads1 := mem[..], heads;
      HeldEnd(m1, chunks, heads, roots, known, head, list, mergeAt, chunk, bp - 1, BlockEnd(m, bp0 - 1));
      adj, hd := MergeNextStep(bp, hd);
      ghost var m2, heads2 := mem[..], heads;
      UntouchedTrans(m, m1, m2, chunks, heads, roots, known);
      MergePrevStep(bp, hd, adj);
      UntouchedTrans(m, m2, mem[..], chunks, heads, roots, known);
      MergingTrans(m, heads0, m1, heads1, m2, heads2, bp0 - 1, bp - 1, bp - 1);
      MergingTrans(m, heads0, m2, heads2, mem[..], heads, bp0 - 1, bp - 1, -1);
      EndsFromMore(mem[..], heads, bp - 1, bp0 - 1, adj);
    }

    method MergeFragmentStep(bp0: int) returns (bp: int, hd: Word)
      requires 1 <= bp0 <= mem.Length && Holding(bp0 - 1, BlockEnd(mem[..], bp0 - 1)) && HasColor(mem[..], bp0 - 1, White)
      requires FragmentOk(mem[..], heads, lastFragment, bp0 - 1) && (lastFragment == bp0 - 1 ==> lastFragment - 1 !in known)
      requires HeldC(mem[..], heads, bp0 - 1, BlockEnd(mem[..], bp0 - 1), lastFragment)
      modifies this`heads, mem
      ensures 1 <= bp <= mem.Length && Holding(bp - 1, old(BlockEnd(mem[..], bp0 - 1))) && HasColor(mem[..], bp - 1, White)
      ensures hd == mem[bp - 1] && bp0 - 1 <= bp <= bp0
      ensures HeldC(mem[..], heads, bp - 1, old(BlockEnd(mem[..], bp0 - 1)), -1)
      ensures BlocksUntouched(old(mem[..]), mem[..], known) && Merging(old(mem[..]), old(heads), mem[..], heads, bp0 - 1, bp - 1)
    {
      hide Merging, Held, RefTableOk, FreeListOk, Layout, HeapOk, BlockEnd, Small, HeldC;
      ghost var m := mem[..];
      HeldHeap(m, chunks, heads, roots, known, head, list, mergeAt, chunk, bp0 - 1, BlockEnd(m, bp0 - 1));
      bp := bp0;
      hd := mem[bp - 1];
      if lastFragment == bp - 1 {
        HeldFragment(m, chunks, heads, roots, known, head, list, mergeAt, chunk, lastFragment - 1, bp - 1, BlockEnd(m, bp - 1));
        FragmentStepC(m, chunks, heads, roots, known, head, list, mergeAt, chunk, lastFragment - 1, bp - 1, BlockEnd(m, bp - 1));
        hd := Hdr(mem[bp - 1].size + 1, 0, White);
        bp := lastFragment;
        mem[bp - 1] := hd;
        heads := heads - {bp0 - 1};
        MergingOne(m, chunks, old(heads), mem[..], heads, bp0 - 1, bp - 1);
        RefTableUntouched(m, mem[..], chunks, old(heads), roots, known, youngStart, youngEnd, refTable);
      } else {
        NoFragmentC(m, heads, bp - 1, BlockEnd(m, bp - 1), lastFragment);
        MergingRefl(m, chunks, heads, bp - 1);
        UntouchedRefl(m, known);
      }
    }

    method MergeNextStep(bp: int, hd0: Word) returns (adj: int, hd: Word)
      requires 1 <= bp <= mem.Length && HasColor(mem[..], bp - 1, White) && hd0 == mem[bp - 1]
      requires Holding(bp - 1, bp + hd0.size)
      requires HeldC(mem[..], heads, bp - 1, bp + hd0.size, -1)
      modifies this`flPrev, this`heads, this`list, mem
      ensures Holding(bp - 1, adj) && adj >= bp + hd0.size && hd == mem[bp - 1] && hd.Hdr? && adj == bp + hd.size
      ensures hd.color == White || hd.size > 0
      ensures HeldC(mem[..], heads, bp - 1, adj, -1) && NotFreeAt(mem[..], heads, adj)
      ensures BlocksUntouched(old(mem[..]), mem[..], known) && Merging(old(mem[..]), old(heads), mem[..], heads, bp - 1, bp - 1)
    {
      hide Merging, Held, RefTableOk, FreeListOk, Layout, HeapOk, BlockEnd, Small, HeldC, NotFreeAt;
      ghost var m := mem[..];
      HeldHeap(m, chunks, heads, roots, known, head, list, mergeAt, chunk, bp - 1, bp + hd0.size);
      HeldLinkWord(m, chunks, heads, roots, known, head, list, mergeAt, chunk, bp - 1, bp + hd0.size);
      hd := hd0;
      adj := bp + hd.size;
      var prev := flMerge;
      var cur := mem[prev].addr;
      if adj == cur - 1 {
        HeldNext(m, chunks, heads, roots, known, head, list, mergeAt, chunk, bp - 1, adj);
        HeldNextPrev(m, chunks, heads, roots, known, head, list, mergeAt, chunk, bp - 1, adj, flPrev);
        NextStepC(m, chunks, heads, roots, known, head, list, mergeAt, chunk, bp - 1, adj);
        HeldNextHeaders(m, chunks, heads, roots, known, head, list, mergeAt, chunk, bp - 1, adj);
        var curWhsz := mem[cur - 1].size + 1;
        mem[prev] := mem[cur];
        if flPrev == cur {
          flPrev := prev;
        }
        hd := Hdr(hd.size + curWhsz, 0, Blue);
        mem[bp - 1] := hd;
        heads, list := heads - {adj}, list[..mergeAt] + list[mergeAt + 1..];
        MergingOne(m, chunks, old(heads), mem[..], heads, bp - 1, bp - 1);
        RefTableUntouched(m, mem[..], chunks, old(heads), roots, known, youngStart, youngEnd, refTable);
        EndOf(m, adj);
        adj := bp + hd.size;
      } else {
        HeldPoint(m, chunks, heads, roots, known, head, list, mergeAt, chunk, bp - 1, adj);
        NextNotFree(m, chunks, heads, head, list, mergeAt, bp - 1, adj);
        MergingRefl(m, chunks, heads, bp - 1);
        UntouchedRefl(m, known);
      }
    }

    method MergePrevStep(bp: int, hd: Word, adj: int)
      requires 1 <= bp <= mem.Length && hd.Hdr? && mem[bp - 1] == hd && adj == bp + hd.size && Holding(bp - 1, adj)
      requires hd.color == White || hd.size > 0
      requires lastFragment < adj
      requires HeldC(mem[..], heads, bp - 1, adj, -1) && NotFreeAt(mem[..], heads, adj)
      modifies this`flMerge, this`lastFragment, this`heads, this`list, this`mergeAt, mem
      ensures Basic()
      ensures Swept(mem[..], chunks, heads, roots, known, head, list, mergeAt, chunk, adj)
      ensures FragmentOk(mem[..], heads, lastFragment, adj) && (lastFragment == adj ==> lastFragment - 1 !in known)
      ensures Coalesced(mem[..], heads, adj) && AtSweep(mem[..], heads, adj, lastFragment)
      ensures BlocksUntouched(old(mem[..]), mem[..], known)
      ensures Merging(old(mem[..]), old(heads), mem[..], heads, bp - 1, -1) && EndsFrom(mem[..], heads, bp - 1, adj)
    {
      hide Held, Swept, RefTableOk, FreeListOk, Layout, HeapOk, BlockEnd, BlocksUntouched, Small, HeldC, Coalesced, AtSweep, NotFreeAt, Merging, EndsFrom;
      ghost var m := mem[..];
      HeldHeap(m, chunks, heads, roots, known, head, list, mergeAt, chunk, bp - 1, adj);
      HeldLinkWord(m, chunks, heads, roots, known, head, list, mergeAt, chunk, bp - 1, adj);
      var prev := flMerge;
      var cur := mem[prev].addr;
      if prev + mem[prev - 1].size == bp - 1 {
        PrevIsBlock(m, chunks, heads, roots, known, head, list, mergeAt, chunk, bp - 1, adj);
        HeldPrev(m, chunks, heads, roots, known, head, list, mergeAt, chunk, bp - 1, adj, prev);
        PrevStepC(m, chunks, heads, roots, known, head, list, mergeAt, chunk, bp - 1, adj, prev, lastFragment);
        mem[prev - 1] := Hdr(mem[prev - 1].size + hd.size + 1, 0, Blue);
        heads := heads - {bp - 1};
        MergedPrev(m, mem[..], chunks, old(heads), heads, prev - 1, bp - 1, adj);
        SweptBasic(mem[..], chunks, heads, roots, known, head, list, mergeAt, chunk, adj);
      } else if hd.size != 0 {
        HeldInsert(m, chunks, heads, roots, known, head, list, mergeAt, chunk, bp - 1, adj);
        mem[bp - 1] := hd.(color := Blue);
        mem[bp] := Ptr(cur);
        mem[prev] := Ptr(bp);
        HeldInsertHeaders(m, mem[..], chunks, heads, roots, known, head, list, mergeAt, chunk, bp - 1, adj);
        MergedHere(m, mem[..], chunks, heads, bp - 1, adj);
        InsertC(m, mem[..], chunks, heads, roots, known, head, list, mergeAt, chunk, bp - 1, adj, lastFragment);
        flMerge := bp;
        list, mergeAt := list[..mergeAt] + [bp] + list[mergeAt..], mergeAt + 1;
        assert Node(head, list, mergeAt) == bp;
        SweptBasic(mem[..], chunks, heads, roots, known, head, list, mergeAt, chunk, adj);
      } else {
        HeldAlone(m, chunks, heads, roots, known, head, list, mergeAt, chunk, bp - 1, adj);
        UntouchedRefl(m, known);
        MergedHere(m, m, chunks, heads, bp - 1, adj);
        lastFragment := bp;
        AloneIsC(m, chunks, heads, roots, known, head, list, mergeAt, chunk, bp - 1, adj, lastFragment);
        SweptBasic(mem[..], chunks, heads, roots, known, head, list, mergeAt, chunk, adj);
        NewFragment(mem[..], heads, bp);
      }
      RefTableUntouched(m, mem[..], chunks, old(heads), roots, known, youngStart, youngEnd, refTable);
    }

    /** Sweeps the block at `sweepHp`. */
    method SweepBlock() returns (size: nat)
      requires Valid() && phase == Sweep && sweepHp != chunks[chunk].End()
      modifies this`flPrev, this`flMerge, this`lastFragment, this`heads, this`list, this`mergeAt, this`sweepHp, mem
      ensures Valid() && sweepHp >= old(sweepHp) + size + 1
      ensures BlocksSame(old(mem[..]), mem[..], known)
    {
      hide HeapOk, FreeListOk, RefTableOk, Layout, SweptTo, MergePoint, BlockEnd, Held, Swept, BlocksSame, BlocksUntouched, SnapshotKept, StackOk, Small, HeldC, Coalesced, AtSweep, Merging, EndsFrom, Reclaimed;
      ghost var m, heads0 := mem[..], heads;
      HeapLayout(m, chunks, heads, roots, known);
      KnownHeads(m, chunks, heads, roots, known);
      var hp := sweepHp;
      PosNext(m, chunks, heads, chunk, hp);
      EndOf(m, hp);
      NotGray(m, heads, known, sweepHp, hp);
      var hd := mem[hp];
      size := hd.size;
      sweepHp := sweepHp + size + 1;
      if hd.color == White {
        TakeBlock(m, chunks, heads, roots, known, head, list, mergeAt, chunk, hp);
        TakeC(m, heads, known, hp, lastFragment);
        sweepHp := FlMergeBlock(hp + 1);
        SweptBasic(mem[..], chunks, heads, roots, known, head, list, mergeAt, chunk, sweepHp);
        HeapLayout(mem[..], chunks, heads, roots, known);
        ReclaimMerged(m, mem[..], chunks, heads0, heads, kept, hp, sweepHp);
        UntouchedSame(m, mem[..], known);
      } else if hd.color == Blue {
        PassFree(m, chunks, heads, head, list, known, mergeAt, chunk, hp);
        PassFreeC(m, chunks, heads, hp, lastFragment);
        ReclaimPassed(m, m, chunks, heads, kept, hp);
        flMerge := hp + 1;
        mergeAt := mergeAt + 1;
        UntouchedRefl(m, known);
        UntouchedSame(m, mem[..], known);
      } else {
        PassBlack(m, m[hp := hd.(color := White)], chunks, heads, roots, known, head, list, mergeAt, chunk, hp);
        RefTableColors(m, m[hp := hd.(color := White)], chunks, heads, roots, known, hp, White, youngStart, youngEnd, refTable);
        RecolorSame(m, m[hp := hd.(color := White)], chunks, heads, known, hp, White);
        PassBlackC(m, m[hp := hd.(color := White)], chunks, heads, known, hp, lastFragment);
        ReclaimPassed(m, m[hp := hd.(color := White)], chunks, heads, kept, hp);
        mem[hp] := hd.(color := White);
        SweptBasic(mem[..], chunks, heads, roots, known, head, list, mergeAt, chunk, sweepHp);
      }
    }

    /** Sweeps for a while. Whatever the program can reach stays allocated and keeps its
        contents; when the sweep is over every block is white or free. */
    method SweepSlice(work0: int)
      requires Valid() && phase == Sweep
      modifies this, mem
      ensures Valid() && (phase == Sweep || phase == Idle)
      ensures roots == old(roots) && refTable == old(refTable) && known == old(known) && kept == old(kept)
      ensures BlocksSame(old(mem[..]), mem[..], known)
      ensures phase == Idle || sweepHp >= old(sweepHp) + work0
      ensures 0 <= old(sweepHp) && (phase == Sweep ==> sweepHp <= mem.Length)
    {
      hide HeapOk, FreeListOk, RefTableOk, Layout, SweptTo, MergePoint, PosOk, BlocksSame, SnapshotKept, StackOk, AllSwept, Small, Coalesced, AtSweep, Reclaimed, AllReclaimed;
      ghost var m := mem[..];
      KnownHeads(m, chunks, heads, roots, known);
      UntouchedRefl(m, known);
      UntouchedSame(m, m, known);
      HeapLayout(m, chunks, heads, roots, known);
      PosBound(m, chunks, heads, chunk, sweepHp);
      var work := work0;
      while work > 0
        modifies this`flPrev, this`flMerge, this`lastFragment, this`heads, this`list, this`mergeAt, this`sweepHp, this`chunk, this`phase, mem
        invariant Valid() && (phase == Sweep || (phase == Idle && work == 0))
        invariant BlocksSame(m, mem[..], known)
        invariant phase == Sweep ==> sweepHp >= old(sweepHp) + work0 - work
        decreases phase == Sweep, mem.Length - sweepHp
      {
        HeapLayout(mem[..], chunks, heads, roots, known);
        PosBound(mem[..], chunks, heads, chunk, sweepHp);
        if sweepHp < chunks[chunk].End() {
          ghost var m1 := mem[..];
          var size := SweepBlock();
          SameTrans(m, m1, mem[..], known);
          work := work - (size + 1);
        } else {
          PassChunk(mem[..], chunks, heads, head, list, known, mergeAt, chunk);
          SweepEndsC(mem[..], chunks, heads, chunk);
          ReclaimOn(mem[..], chunks, heads, kept, chunk);
          if chunk + 1 == |chunks| {
            IsSwept(mem[..], heads);
            work := 0;
            phase := Idle;
          } else {
            chunk := chunk + 1;
            SweepStartsC(mem[..], chunks, heads, chunk, -1, lastFragment);
            sweepHp := chunks[chunk].start;
          }
        }
      }
      if phase == Sweep {
        HeapLayout(mem[..], chunks, heads, roots, known);
        PosBound(mem[..], chunks, heads, chunk, sweepHp);
      }
    }

    /** A new block, all of whose fields have been initialized, is handed to the program. */
    ghost method Publish(b: int)
      requires Valid() && IsBlock(mem[..], heads, b) && b !in known && mem[b].color == NewColor(b) && mem[b].size >= 1
      requires FieldsGood(mem[..], chunks, known, b, youngStart, youngEnd)
      modifies this`known
      ensures Valid() && known == old(known) + {b}
    {
      hide FreeListOk, Layout, MergePoint, PosOk, GoodWord, AllSeen, ValidCycle, Small, Coalesced, AtSweep, Accounted;
      SmallMore(mem[..], heads, known, b);
      AccountKnown(mem[..], heads, known, kept, phase == Mark, phase == Sweep, sweepHp, b);
      MoreKnown(mem[..], chunks, heads, roots, known, b);
      known := known + {b};
    }

    /** The initial store into a field of a block that has just been allocated. */
    method Initialize(fp: int, val: Word, ghost b: int)
      requires Valid() && IsBlock(mem[..], heads, b) && b !in known && b < fp < BlockEnd(mem[..], b)
      modifies this`refTable, mem
      ensures Valid() && 0 <= fp < mem.Length && mem[..] == old(mem[..])[fp := val]
      ensures refTable == old(refTable) + if IsYoung(youngStart, youngEnd, val) then [fp] else []
      ensures BlocksUntouched(old(mem[..]), mem[..], known)
    {
      hide HeapOk, FreeListOk, SnapshotKept, StackOk, RefTableOk, Layout, SweptTo, MergePoint, PosOk, BlockEnd, BlocksUntouched, Small, Coalesced, AtSweep;
      ghost var m := mem[..];
      HeapLayout(m, chunks, heads, roots, known);
      WordInHeap(m, chunks, heads, b, fp);
      mem[fp] := val;
      InitEffects(m, mem[..], chunks, heads, roots, known, head, list, b, fp);
      RefTableUntouched(m, mem[..], chunks, heads, roots, known, youngStart, youngEnd, refTable);
      if InHeap(chunks, fp) && IsYoung(youngStart, youngEnd, val) {
        RefTableMore(mem[..], known, youngStart, youngEnd, refTable, fp);
        refTable := refTable + [fp];
      }
      KnownHeads(m, chunks, heads, roots, known);
      StoreC(m, mem[..], heads, known, if phase == Sweep then sweepHp else -1, lastFragment);
      if phase == Mark {
        SnapshotUntouched(m, mem[..], chunks, heads, roots, known, cycle);
        StackStore(m, mem[..], heads, known, grayVals, heapIsPure, markHp, fp);
      } else {
        SweptStore(m, mem[..], heads, known, fp, sweepHp, lastFragment);
      }
    }

    /** The program copies a value it holds, or drops one. */
    method SetRoot(r: nat, w: Word)
      requires Valid() && r < |roots| && GoodWord(chunks, known, w)
      modifies this`roots
      ensures Valid() && roots == old(roots)[r := w]
    {
      hide FreeListOk, SnapshotKept, StackOk, RefTableOk, Layout, SweptTo, MergePoint, PosOk, GoodWord, FieldIn, Small, Coalesced, AtSweep;
      forall v | v in roots[r := w] ensures v in roots || v == w { }
      roots := roots[r := w];
    }

    /** One slice of the collector's work. It starts a cycle if there is none, and goes on
        with the one there is: it marks, or sweeps, as many words as asked for, or comes to the
        end of the phase. */
    method MajorSlice(work: int)
      requires Valid()
      modifies this, mem
      ensures Advanced(old(phase), old(ToMark()), old(sweepHp), phase, ToMark(), sweepHp, work)
      ensures old(phase) == Idle ==> kept == known && forall h :: h in known <==> Reachable(old(mem[..]), chunks, old(roots), h)
      ensures phase == Sweep && old(phase) != Sweep ==> AllFound()
      ensures phase == Sweep ==> 0 <= sweepHp <= mem.Length
      ensures old(phase) != Idle ==> known == old(known) && kept == old(kept)
      ensures Valid() && roots == old(roots) && refTable == old(refTable) && known <= old(known)
      ensures BlocksSame(old(mem[..]), mem[..], known)
    {
      hide HeapOk, FreeListOk, RefTableOk, Layout, SweptTo, MergePoint, PosOk, BlocksSame, SnapshotKept, StackOk, AllSwept, OnlyColors, Reach;
      ghost var m := mem[..];
      KnownHeads(m, chunks, heads, roots, known);
      if phase == Idle {
        StartCycle();
      } else {
        OnlyColorsRefl(m, heads);
      }
      KnownHeads(mem[..], chunks, heads, roots, known);
      ColorsSame(m, mem[..], chunks, heads, roots, known);
      ghost var m1 := mem[..];
      if phase == Mark {
        MarkSlice(work);
        ColorsSame(m1, mem[..], chunks, heads, roots, known);
      } else {
        SweepSlice(work);
      }
      SameTrans(m, m1, mem[..], known);
      if phase == Sweep {
        HeapLayout(mem[..], chunks, heads, roots, known);
        PosBound(mem[..], chunks, heads, chunk, sweepHp);
      }
    }

    /** No garbage is left: the blocks that are neither free nor fragments are those that can
        be reached. */
    ghost predicate OnlyReachable()
      reads this, mem
    {
      forall h :: (h in heads && !Reusable(mem[..], h)) <==> Reachable(mem[..], chunks, roots, h)
    }

    /** Finishes the cycle that is under way, or else does a whole one: then no garbage is left. */
    method FinishMajorCycle()
      requires Valid() && mem.Length < LONG_MAX
      modifies this, mem
      ensures Valid() && phase == Idle && roots == old(roots) && refTable == old(refTable)
      ensures known <= old(known) && BlocksSame(old(mem[..]), mem[..], known)
      ensures old(phase) == Idle ==> kept == known && OnlyReachable()
    {
      hide HeapOk, FreeListOk, RefTableOk, Layout, MarkingOk, SweepingOk, BlocksSame, AllSwept, OnlyColors, Reachable, Small, Coalesced, BlackKept, Reclaimed;
      ghost var m := mem[..];
      KnownHeads(m, chunks, heads, roots, known);
      OnlyColorsRefl(m, heads);
      if phase == Idle {
        StartCycle();
      }
      KnownHeads(mem[..], chunks, heads, roots, known);
      ColorsSame(m, mem[..], chunks, heads, roots, known);
      ghost var m1 := mem[..];
      if phase == Mark {
        MarkSlice(LONG_MAX);
        ColorsSame(m1, mem[..], chunks, heads, roots, known);
      } else {
        OnlyColorsRefl(m1, heads);
        ColorsSame(m1, m1, chunks, heads, roots, known);
      }
      ghost var m2 := mem[..];
      SameTrans(m, m1, m2, known);
      assert phase == Sweep;
      SweepSlice(LONG_MAX);
      SameTrans(m, m2, mem[..], known);
      if old(phase) == Idle {
        NoGarbage(m, mem[..], chunks, heads, roots, known);
      }
    }

    /** A full major collection: whatever was under way, no garbage is left. */
    method FullMajor()
      requires Valid() && mem.Length < LONG_MAX
      modifies this, mem
      ensures Valid() && phase == Idle && roots == old(roots) && refTable == old(refTable) && OnlyReachable()
      ensures known <= old(known) && BlocksSame(old(mem[..]), mem[..], known)
    {
      hide HeapOk, FreeListOk, RefTableOk, Layout, MarkingOk, SweepingOk, BlocksSame, AllSwept, Reachable, Small, Coalesced, Accounted;
      ghost var m := mem[..];
      KnownHeads(m, chunks, heads, roots, known);
      FinishMajorCycle();
      ghost var m1, known1 := mem[..], known;
      FinishMajorCycle();
      SameLess(m, m1, known1, known);
      SameTrans(m, m1, mem[..], known);
    }

    /** A new free block `bp` is put on the list, where its address belongs. The merge pointer
        is again the last free block below the sweep unless the block was added at the
        end of the list and lies below the sweep: the branch for the end of the list
        does not look at the merge pointer. */
    method FlAddBlock(bp: int)
      requires Layout(mem[..], chunks, heads) && FreeListOk(mem[..], chunks, heads, head, list, bp - 1)
      requires FreeBlock(mem[..], heads, bp)
      requires flLast == Node(head, list, |list|)
      requires mergeAt <= |list| && flMerge == Node(head, list, mergeAt) && MergePoint(list, mergeAt, sweepHp)
      modifies this`flMerge, this`list, mem
      ensures bp in list && multiset(list) == multiset(old(list)) + multiset{bp}
      ensures FreeListOk(mem[..], chunks, heads, head, list, NONE)
      ensures AllocatedUntouched(old(mem[..]), mem[..], heads)
      ensures IsMergePointer(head, list, sweepHp, flMerge) <==> !(bp > flLast && bp <= sweepHp)
    {
      hide Layout, FreeListOk, BlockEnd, MergePoint, AllocatedUntouched, IsMergePointer, Ascending, FreeBlock, AddIndex, Insert;
      ghost var m := mem[..];
      ghost var j := AddIndex(list, bp);
      ghost var longer := Insert(list, j, bp);
      Added(list, j, bp);
      AddFacts(m, chunks, heads, head, list, bp, j);
      AddWords(m, chunks, heads, head, list, bp, j);
      if bp > flLast {
        TailIndex(m, head, list, bp, j);
        mem[flLast] := Ptr(bp);
        mem[bp] := Ptr(0);
        TailMerge(head, list, bp, mergeAt, sweepHp, j);
      } else {
        var prev := head;
        ghost var i := 0;
        AddWalk(m, chunks, heads, head, list, bp, 0);
        var cur := mem[prev].addr;
        while cur != 0 && cur < bp
          invariant mem[..] == m && list == old(list) && flMerge == old(flMerge)
          invariant i <= j && prev == Node(head, list, i)
          invariant 0 <= prev < mem.Length && mem[prev] == Ptr(cur) && cur == (if i < |list| then list[i] else 0)
          decreases |list| - i
        {
          AddWalk(m, chunks, heads, head, list, bp, i + 1);
          prev := cur;
          cur := mem[prev].addr;
          i := i + 1;
        }
        if i < |list| {
          AddWalk(m, chunks, heads, head, list, bp, i + 1);
        }
        assert i == j;
        mem[bp] := Ptr(cur);
        mem[prev] := Ptr(bp);
        HereMerge(head, list, bp, mergeAt, sweepHp, j);
        if prev == flMerge && bp <= sweepHp {
          flMerge := bp;
        }
      }
      assert mem[..] == m[bp := if j < |list| then Ptr(list[j]) else Ptr(0)][Node(head, list, j) := Ptr(bp)];
      list := longer;
    }
  }

  /** The fields of `h` below `s` refer to no white block. */
  ghost predicate FieldsSeen(m: Memory, chunks: seq<Chunk>, h: int, s: int) {
    forall f, t :: FieldIn(m, h, f) && f < s && Refers(chunks, m[f], t) ==> NotWhite(m, t)
  }

  lemma SameWord(m: Memory, m': Memory, heads: set<int>, s: int)
    requires OnlyColors(m, m', heads) && 0 <= s < |m| && s !in heads
    ensures |m'| == |m| && m'[s] == m[s]
  {
  }

  /** The top of the stack is popped and made black; its fields are still to be looked at. */
  lemma TopBlackened(m: Memory, m': Memory, chunks: seq<Chunk>, heads: set<int>, roots: seq<Word>, known: set<int>, c: Cycle, head: int, list: seq<int>, youngStart: int, youngEnd: int, table: seq<int>, stack: seq<int>, pure: bool, at: ScanPoint, k: nat)
    requires HeapOk(m, chunks, heads, roots, known) && FreeListOk(m, chunks, heads, head, list, NONE) && Small(m, heads, known)
    requires RefTableOk(m, known, youngStart, youngEnd, table) && MarkingOk(m, chunks, heads, known, c, Between, stack, pure, at, k)
    requires |stack| > 0 && Recolored(m, m', stack[|stack| - 1] - 1, Black)
    ensures HeapOk(m', chunks, heads, roots, known) && FreeListOk(m', chunks, heads, head, list, NONE) && Small(m', heads, known)
    ensures RefTableOk(m', known, youngStart, youngEnd, table)
    ensures var h := stack[|stack| - 1] - 1;
      && MarkingOk(m', chunks, heads, known, c, Scanning(h, h + 1), stack[..|stack| - 1], pure, at, k)
      && OnlyColors(m, m', heads) && HasColor(m', h, Black) && SameBlack(m, m', h)
      && h in NonBlack(m, heads) && NonBlack(m', heads) == NonBlack(m, heads) - {h}
  {
    hide HeapOk, FreeListOk, SnapshotKept, StackOk, RefTableOk, Layout, FieldIn, GoodWord, Small, PosOk;
    var h := stack[|stack| - 1] - 1;
    StackTop(m, heads, known, stack, pure, at);
    HeapLayout(m, chunks, heads, roots, known);
    PopGray(m, m', heads, known, stack, pure, at);
    BlackenKeeps(m, m', chunks, heads, roots, c, known, h);
    RecolorFree(m, m', chunks, heads, head, list, NONE, h, Black);
    RecolorOnly(m, m', heads, h, Black);
    RecolorSmall(m, m', heads, known, h, Black);
    RefTableColors(m, m', chunks, heads, roots, known, h, Black, youngStart, youngEnd, table);
  }

  /** No block is gray but those that one of the words refers to. */
  ghost predicate GrayRoots(m: Memory, heads: set<int>, words: seq<Word>) {
    forall h :: h in heads && HasColor(m, h, Gray) ==> Ptr(h + 1) in words
  }

  lemma GrayRootsStep(m: Memory, chunks: seq<Chunk>, heads: set<int>, words: seq<Word>, r: nat)
    requires r < |words| && GrayRoots(m, heads, words[..r])
    ensures GrayRoots(Darkened(m, chunks, words[r]), heads, words[..r + 1])
  {
    hide InHeap;
    assert words[..r + 1] == words[..r] + [words[r]];
  }

  lemma NoGrayYet(m: Memory, heads: set<int>)
    requires AllSwept(m, heads)
    ensures GrayRoots(m, heads, [])
  {
  }

  lemma NoFieldsYet(m: Memory, chunks: seq<Chunk>, h: int)
    ensures FieldsSeen(m, chunks, h, h + 1)
  {
  }

  lemma OneMoreSeen(m: Memory, m': Memory, chunks: seq<Chunk>, heads: set<int>, h: int, s: int)
    requires Layout(m, chunks, heads) && OnlyColors(m, m', heads) && h in heads && FieldsSeen(m, chunks, h, s)
    requires forall t :: NotWhite(m, t) ==> NotWhite(m', t)
    requires 0 <= s < |m| && s !in heads && forall t :: Refers(chunks, m[s], t) ==> NotWhite(m', t)
    ensures FieldsSeen(m', chunks, h, s + 1)
  {
    hide Layout, Refers, NotWhite;
    BlockInMemory(m, chunks, heads, h);
    forall f, t | FieldIn(m', h, f) && f < s + 1 && Refers(chunks, m'[f], t) ensures NotWhite(m', t) {
      assert FieldIn(m, h, f);
      FieldFacts(m, chunks, heads, h, f);
    }
  }

  lemma AllFieldsSeen(m: Memory, m': Memory, chunks: seq<Chunk>, h: int, s: int)
    requires |m'| == |m| && FieldsSeen(m', chunks, h, s) && forall f :: FieldIn(m', h, f) ==> f < s
    ensures FieldsSeen(m', chunks, h, |m|)
  {
  }

  lemma ReachableBlack(m: Memory, chunks: seq<Chunk>, heads: set<int>, roots: seq<Word>, known: set<int>)
    requires HeapOk(m, chunks, heads, roots, known) && forall h :: h in known ==> HasColor(m, h, Black)
    ensures forall h :: Reachable(m, chunks, roots, h) ==> HasColor(m, h, Black)
  {
    hide HeapOk, Reach;
    forall h | Reachable(m, chunks, roots, h) ensures HasColor(m, h, Black) {
      var n: nat :| Reach(m, chunks, roots, h, n);
      ReachKnown(m, chunks, heads, roots, known, h, n);
    }
  }

  lemma HeapLayout(m: Memory, chunks: seq<Chunk>, heads: set<int>, roots: seq<Word>, known: set<int>)
    requires HeapOk(m, chunks, heads, roots, known)
    ensures Layout(m, chunks, heads)
  {
  }

  lemma CutTo(m: Memory, heads: set<int>, known: set<int>, full: seq<int>, pure: bool, at: ScanPoint, stack: seq<int>, pure': bool, size: nat)
    requires StackOk(m, heads, known, full, pure, at)
    requires (stack == full && pure' == pure) || (!pure' && (stack == [] || (size / 2 <= |full| && stack == full[..size / 2])))
    ensures StackOk(m, heads, known, stack, pure', at)
  {
    if !pure' && stack == [] {
      CutStack(m, heads, known, full, pure, at, 0);
    } else if !pure' && stack != full {
      CutStack(m, heads, known, full, pure, at, size / 2);
    }
  }

  lemma OnlyColorsRefl(m: Memory, heads: set<int>)
    ensures OnlyColors(m, m, heads)
  {
  }

  lemma RecolorOnly(m: Memory, m': Memory, heads: set<int>, h: int, c: Color)
    requires h in heads && Recolored(m, m', h, c)
    ensures OnlyColors(m, m', heads)
    ensures HasColor(m, h, White) && c == Gray ==> NonBlack(m', heads) == NonBlack(m, heads)
    ensures HasColor(m, h, Gray) && c == Black ==> NonBlack(m', heads) == NonBlack(m, heads) - {h}
    ensures HasColor(m', h, c)
    ensures c != White ==> forall t :: NotWhite(m, t) ==> NotWhite(m', t)
  {
  }

  /** Changing the colour of an allocated block does not touch the free list. */
  lemma RecolorFree(m: Memory, m': Memory, chunks: seq<Chunk>, heads: set<int>, head: int, list: seq<int>, except: int, h: int, c: Color)
    requires Layout(m, chunks, heads) && FreeListOk(m, chunks, heads, head, list, except)
    requires h in heads && !HasColor(m, h, Blue) && c != Blue && Recolored(m, m', h, c)
    ensures FreeListOk(m', chunks, heads, head, list, except)
  {
    hide Layout, Links, Ascending;
    NotANode(m, chunks, heads, head, list, except, h);
    ListFrame(m, m', chunks, heads, head, list, except);
  }

  lemma OnlyColorsTrans(m: Memory, m1: Memory, m2: Memory, heads: set<int>)
    requires OnlyColors(m, m1, heads) && OnlyColors(m1, m2, heads)
    ensures OnlyColors(m, m2, heads)
  {
  }

  /** The snapshot: the memory, the roots, and the blocks reachable from them. */
  lemma TakeSnapshot(m: Memory, chunks: seq<Chunk>, heads: set<int>, roots: seq<Word>, known: set<int>) returns (c: Cycle)
    requires HeapOk(m, chunks, heads, roots, known)
    ensures c.mem == m && c.roots == roots && ValidCycle(chunks, c)
  {
    hide HeapOk;
    c := Cycle(m, roots, set h | h in heads && exists n: nat :: Reach(m, chunks, roots, h, n));
    forall h, n: nat | Reach(m, chunks, roots, h, n)
      ensures h in c.live
    {
      ReachKnown(m, chunks, heads, roots, known, h, n);
    }
  }

  lemma LiveAreKnown(m: Memory, chunks: seq<Chunk>, heads: set<int>, roots: seq<Word>, known: set<int>, c: Cycle)
    requires HeapOk(m, chunks, heads, roots, known) && c.mem == m && c.roots == roots && ValidCycle(chunks, c)
    ensures c.live <= known
  {
    hide HeapOk;
    forall h | h in c.live ensures h in known {
      var n: nat :| Reach(m, chunks, roots, h, n);
      ReachKnown(m, chunks, heads, roots, known, h, n);
    }
  }

  lemma LiveIsReached(chunks: seq<Chunk>, c: Cycle)
    requires ValidCycle(chunks, c)
    ensures forall h :: h in c.live <==> Reachable(c.mem, chunks, c.roots, h)
  {
    hide Reach;
    forall h ensures h in c.live <==> Reachable(c.mem, chunks, c.roots, h) {
      if h in c.live {
        var n: nat :| Reach(c.mem, chunks, c.roots, h, n);
      }
    }
  }

  lemma EndsFromMore(m: Memory, heads: set<int>, x: int, x': int, adj: int)
    requires EndsFrom(m, heads, x, adj) && x <= x'
    ensures EndsFrom(m, heads, x', adj)
  {
    hide BlockEnd;
  }

  lemma MergedPrev(m: Memory, m': Memory, chunks: seq<Chunk>, heads: set<int>, heads': set<int>, b: int, x: int, adj: int)
    requires Layout(m, chunks, heads) && heads' == heads - {x} && b in heads && b < x && 0 <= b < |m| && m[b].Hdr? && b + 1 + m[b].size == x
    requires adj > x && m' == m[b := Hdr(adj - b - 1, 0, Blue)]
    ensures Merging(m, heads, m', heads', x, -1) && EndsFrom(m', heads', x, adj)
  {
    hide Layout;
    HeadsInMemory(m, chunks, heads);
    assert BlockEnd(m', b) == adj;
  }

  lemma MergedHere(m: Memory, m': Memory, chunks: seq<Chunk>, heads: set<int>, x: int, adj: int)
    requires Layout(m, chunks, heads) && x in heads && |m'| == |m| && 0 <= x < |m| && Reusable(m', x) && adj == x + 1 + m'[x].size
    requires forall h :: h in heads && h != x && 0 <= h < |m| ==> m'[h] == m[h]
    ensures Merging(m, heads, m', heads, x, -1) && EndsFrom(m', heads, x, adj)
  {
    hide Layout;
    HeadsInMemory(m, chunks, heads);
    assert BlockEnd(m', x) == adj;
  }

  lemma HeldNextHeaders(m: Memory, chunks: seq<Chunk>, heads: set<int>, roots: seq<Word>, known: set<int>, head: int, list: seq<int>, at: nat, k: nat, x: int, adj: int)
    requires Held(m, chunks, heads, roots, known, head, list, at, k, x, adj) && HasColor(m, x, White)
    requires at < |list| && adj == list[at] - 1
    ensures CanMergeNext(m, Node(head, list, at), list[at], x)
    ensures var m' := NextMerged(m, Node(head, list, at), list[at], x);
      |m'| == |m| && forall h :: h in heads && h != x ==> 0 <= h < |m| && m'[h] == m[h]
  {
    hide Layout, FreeListOk, BlockEnd, GoodWord, FieldIn, SweptTo, NextMerged;
    SweptHeap(m, chunks, heads, roots, known);
    NoMinusOne(m, chunks, heads);
    HeldNext(m, chunks, heads, roots, known, head, list, at, k, x, adj);
    UnexceptWhite(m, chunks, heads, head, list, x);
    NextWords(m, chunks, heads, known, head, list, at, x);
  }

  lemma HeldInsertHeaders(m: Memory, m': Memory, chunks: seq<Chunk>, heads: set<int>, roots: seq<Word>, known: set<int>, head: int, list: seq<int>, at: nat, k: nat, x: int, adj: int)
    requires at <= |list| && 0 <= x && x + 1 < |m| && m[x].Hdr? && m[x].size != 0 && 0 <= Node(head, list, at) < |m|
    requires m' == m[x := m[x].(color := Blue)][x + 1 := if at < |list| then Ptr(list[at]) else Ptr(0)][Node(head, list, at) := Ptr(x + 1)]
    requires Held(m, chunks, heads, roots, known, head, list, at, k, x, adj)
    ensures |m'| == |m| && HasColor(m', x, Blue) && m'[x].size == m[x].size && forall h :: h in heads && h != x ==> 0 <= h < |m| && m'[h] == m[h]
  {
    hide Layout, FreeListOk, BlockEnd, GoodWord, FieldIn, SweptTo;
    SweptHeap(m, chunks, heads, roots, known);
    InsertWords(m, m', chunks, heads, known, head, list, at, x);
    PrevFacts(m, chunks, heads, head, list, x, at);
    assert x != Node(head, list, at);
  }

  lemma SameLess(m: Memory, m': Memory, known: set<int>, known': set<int>)
    requires BlocksSame(m, m', known) && known' <= known
    ensures BlocksSame(m, m', known')
  {
    hide BlockSame;
  }

  /** What could be reached before a collection still can. */
  lemma {:induction false} StillReached(m: Memory, m': Memory, chunks: seq<Chunk>, roots: seq<Word>, known: set<int>, h: int, n: nat)
    requires BlocksSame(m, m', known) && |m'| == |m| && Reach(m, chunks, roots, h, n)
    requires forall b, k: nat :: Reach(m, chunks, roots, b, k) ==> b in known
    ensures Reach(m', chunks, roots, h, n)
    decreases n
  {
    hide Refers;
    if n > 0 {
      var p, s :| Reach(m, chunks, roots, p, n - 1) && FieldIn(m, p, s) && Refers(chunks, m[s], h);
      StillReached(m, m', chunks, roots, known, p, n - 1);
      assert BlockSame(m, m', p);
      assert FieldIn(m', p, s) && m'[s] == m[s];
    }
  }

  lemma NoGarbage(m: Memory, m': Memory, chunks: seq<Chunk>, heads: set<int>, roots: seq<Word>, known: set<int>)
    requires HeapOk(m', chunks, heads, roots, known) && Small(m', heads, known) && AllReclaimed(m', heads, known)
    requires |m'| == |m| && BlocksSame(m, m', known) && forall h :: h in known <==> Reachable(m, chunks, roots, h)
    ensures forall h :: (h in heads && !Reusable(m', h)) <==> Reachable(m', chunks, roots, h)
  {
    hide HeapOk, BlocksSame, Reachable;
    KnownHeads(m', chunks, heads, roots, known);
    StillReachable(m, m', chunks, heads, roots, known);
  }

  lemma StillReachable(m: Memory, m': Memory, chunks: seq<Chunk>, heads: set<int>, roots: seq<Word>, known: set<int>)
    requires HeapOk(m', chunks, heads, roots, known) && BlocksSame(m, m', known) && |m'| == |m|
    requires forall h :: h in known <==> Reachable(m, chunks, roots, h)
    ensures forall h :: h in known <==> Reachable(m', chunks, roots, h)
  {
    hide HeapOk, BlocksSame, Reach;
    forall h ensures h in known <==> Reachable(m', chunks, roots, h) {
      if h in known {
        var n: nat :| Reach(m, chunks, roots, h, n);
        StillReached(m, m', chunks, roots, known, h, n);
      }
      if Reachable(m', chunks, roots, h) {
        var n: nat :| Reach(m', chunks, roots, h, n);
        ReachKnown(m', chunks, heads, roots, known, h, n);
      }
    }
  }

  lemma RootGood(m: Memory, chunks: seq<Chunk>, heads: set<int>, roots: seq<Word>, known: set<int>, r: nat)
    requires HeapOk(m, chunks, heads, roots, known) && r < |roots|
    ensures GoodWord(chunks, known, roots[r])
  {
    hide Layout;
    assert roots[r] in roots;
  }

  lemma EmptyStack(m: Memory, heads: set<int>, known: set<int>)
    requires NoGray(m, heads)
    ensures StackOk(m, heads, known, [], true, NoScan)
  {
  }

  lemma StackTop(m: Memory, heads: set<int>, known: set<int>, stack: seq<int>, pure: bool, at: ScanPoint)
    requires StackOk(m, heads, known, stack, pure, at) && |stack| > 0
    ensures var v := stack[|stack| - 1]; v - 1 in heads && v - 1 in known && HasColor(m, v - 1, Gray)
  {
    assert stack[|stack| - 1] in stack;
  }

  lemma IsField(m: Memory, m1: Memory, m2: Memory, heads: set<int>, h: int, i: nat)
    requires h in heads && 0 <= h < |m| && m[h].Hdr? && m[h].tag < NO_SCAN_TAG && i < m[h].size && BlockEnd(m, h) <= |m|
    requires OnlyColors(m, m1, heads) && OnlyColors(m1, m2, heads)
    ensures FieldIn(m2, h, h + 1 + i)
  {
  }

  lemma NoMoreFields(m: Memory, m1: Memory, m2: Memory, heads: set<int>, h: int)
    requires h in heads && 0 <= h < |m| && m[h].Hdr?
    requires OnlyColors(m, m1, heads) && OnlyColors(m1, m2, heads)
    ensures forall f :: FieldIn(m2, h, f) ==> f < h + 1 + m[h].size
  {
  }

  lemma NoFields(m: Memory, h: int)
    requires 0 <= h < |m| && m[h].Hdr? && m[h].tag >= NO_SCAN_TAG
    ensures forall f :: !FieldIn(m, h, f)
  {
  }

  lemma GoodField(m: Memory, chunks: seq<Chunk>, heads: set<int>, roots: seq<Word>, known: set<int>, h: int, s: int)
    requires HeapOk(m, chunks, heads, roots, known) && h in known && FieldIn(m, h, s)
    ensures GoodWord(chunks, known, m[s])
  {
    hide Layout, GoodWord;
  }

  lemma PosBound(m: Memory, chunks: seq<Chunk>, heads: set<int>, k: nat, p: int)
    requires Layout(m, chunks, heads) && PosOk(chunks, heads, k, p)
    ensures k < |chunks| && 0 <= p <= chunks[k].End() <= |m|
  {
    hide BlockOk, EndsWell;
  }

  lemma AllBlack(m: Memory, chunks: seq<Chunk>, heads: set<int>, roots: seq<Word>, c: Cycle, known: set<int>)
    requires HeapOk(m, chunks, heads, roots, known) && SnapshotKept(m, chunks, c, known, Between) && NoGray(m, heads)
    ensures forall h :: h in known ==> HasColor(m, h, Black)
  {
    hide HeapOk, SnapshotKept, NoGray;
    forall h | h in known ensures HasColor(m, h, Black) {
      KnownIsBlack(m, chunks, heads, roots, c, known, h);
    }
  }

  lemma StartOfSweep(m: Memory, chunks: seq<Chunk>, heads: set<int>, head: int, list: seq<int>)
    requires Layout(m, chunks, heads) && FreeListOk(m, chunks, heads, head, list, NONE) && |chunks| > 0
    ensures MergePoint(list, 0, chunks[0].start)
    ensures forall h :: h in heads ==> h >= chunks[0].start
  {
    hide Layout, Links, Ascending;
    forall h | h in heads ensures h >= chunks[0].start {
      HeadAfterStart(m, chunks, heads, h);
    }
    assert forall i :: 0 <= i < |list| ==> list[i] in list;
  }

  lemma InTable(m: Memory, known: set<int>, youngStart: int, youngEnd: int, table: seq<int>, b: int, fp: int)
    requires RefTableOk(m, known, youngStart, youngEnd, table) && b in known && FieldIn(m, b, fp)
    ensures IsYoung(youngStart, youngEnd, m[fp]) ==> fp in table
  {
  }

  /** A store into a field leaves the heap, the free list and the colours well formed. */
  lemma StoreRest(m: Memory, m': Memory, chunks: seq<Chunk>, heads: set<int>, roots: seq<Word>, known: set<int>, head: int, list: seq<int>, b: int, fp: int, val: Word)
    requires HeapOk(m, chunks, heads, roots, known) && FreeListOk(m, chunks, heads, head, list, NONE)
    requires b in known && FieldIn(m, b, fp) && GoodWord(chunks, known, val) && m' == m[fp := val]
    ensures HeapOk(m', chunks, heads, roots, known) && FreeListOk(m', chunks, heads, head, list, NONE)
    ensures fp !in heads && 0 <= fp < |m| && !m[fp].IsHeader()
    ensures forall t :: NotWhite(m, t) ==> NotWhite(m', t)
  {
    hide Layout, Links, Ascending, FieldIn, GoodWord, HeapOk;
    FieldValue(m, chunks, heads, roots, known, b, fp);
    FieldInMemory(m, b, fp);
    StoreHeap(m, m', chunks, heads, roots, known, b, fp, val);
    HeapLayout(m, chunks, heads, roots, known);
    KnownHeads(m, chunks, heads, roots, known);
    FieldFacts(m, chunks, heads, b, fp);
    forall l | l in list ensures l != fp {
      NodeFacts(m, chunks, heads, head, list, NONE, l);
    }
    ListFrame(m, m', chunks, heads, head, list, NONE);
  }

  lemma StackStore(m: Memory, m': Memory, heads: set<int>, known: set<int>, stack: seq<int>, pure: bool, at: ScanPoint, fp: int)
    requires StackOk(m, heads, known, stack, pure, at) && 0 <= fp < |m| && fp !in heads
    requires |m'| == |m| && forall a :: 0 <= a < |m| && a != fp ==> m'[a] == m[a]
    ensures StackOk(m', heads, known, stack, pure, at)
  {
  }

  lemma SweptStore(m: Memory, m': Memory, heads: set<int>, known: set<int>, fp: int, p: int, f: int)
    requires 0 <= fp < |m| && fp !in heads && |m'| == |m| && forall a :: 0 <= a < |m| && a != fp ==> m'[a] == m[a]
    requires forall h :: h in known ==> h in heads
    ensures SweptTo(m, heads, known, p) ==> SweptTo(m', heads, known, p)
    ensures AllSwept(m, heads) ==> AllSwept(m', heads)
    ensures FragmentOk(m, heads, f, p) ==> FragmentOk(m', heads, f, p)
  {
  }

  ghost predicate TooSmall(m: Memory, b: int, wo: nat) {
    1 <= b <= |m| && m[b - 1].Hdr? && m[b - 1].size < wo
  }

  /** No free block has `wo` words. */
  ghost predicate NoneFits(m: Memory, list: seq<int>, wo: nat) {
    forall b :: b in list ==> TooSmall(m, b, wo)
  }

  /** The free blocks from number `i` to `j` - 1 are too small. */
  ghost predicate AllSmall(m: Memory, list: seq<int>, i: nat, j: nat, wo: nat) {
    i <= j <= |list| && forall t :: i <= t < j ==> TooSmall(m, list[t], wo)
  }

  lemma NoneSmall(m: Memory, list: seq<int>, i: nat, wo: nat)
    requires i <= |list|
    ensures AllSmall(m, list, i, i, wo)
  {
  }

  lemma MoreSmall(m: Memory, list: seq<int>, i: nat, j: nat, wo: nat)
    requires AllSmall(m, list, i, j, wo) && j < |list| && 1 <= list[j] <= |m| && m[list[j] - 1].Hdr? && m[list[j] - 1].size < wo
    ensures AllSmall(m, list, i, j + 1, wo)
  {
  }

  lemma AllTooSmall(m: Memory, list: seq<int>, i: nat, wo: nat)
    requires AllSmall(m, list, i, |list|, wo) && AllSmall(m, list, 0, i, wo)
    ensures NoneFits(m, list, wo)
  {
  }

  /** The `j`th free block is the first one that has `wo` words, from the one that follows
      `prev` on, and then from the start. */
  ghost predicate FitsFrom(m: Memory, list: seq<int>, i0: nat, j: nat, wo: nat) {
    && i0 <= |list| && j < |list| && !TooSmall(m, list[j], wo)
    && if i0 <= j then AllSmall(m, list, i0, j, wo) else AllSmall(m, list, i0, |list|, wo) && AllSmall(m, list, 0, j, wo)
  }

  ghost predicate NextFit(m: Memory, head: int, list: seq<int>, prev: int, j: nat, wo: nat) {
    exists i0: nat :: FitsFrom(m, list, i0, j, wo) && prev == Node(head, list, i0)
  }

  lemma FitsNext(m: Memory, head: int, list: seq<int>, prev: int, i0: nat, j: nat, wo: nat)
    requires j < |list| && 1 <= list[j] <= |m| && m[list[j] - 1].Hdr? && m[list[j] - 1].size >= wo && i0 <= |list|
    requires AllSmall(m, list, i0, j, wo) || (AllSmall(m, list, i0, |list|, wo) && AllSmall(m, list, 0, j, wo))
    requires prev == Node(head, list, i0)
    ensures NextFit(m, head, list, prev, j, wo) && !NoneFits(m, list, wo)
  {
    assert list[j] in list;
    assert FitsFrom(m, list, i0, j, wo);
  }

  /** Words have been cut from the `j`th free block, and start at `hp`. */
  ghost predicate WasCut(m: Memory, m': Memory, head: int, list: seq<int>, j: nat, wo: nat, hp: int) {
    && j < |list| && 1 <= list[j] < |m| && 0 <= Node(head, list, j) < |m| && m[list[j] - 1].Hdr? && m[list[j] - 1].size >= wo
    && m' == BlockCut(m, Node(head, list, j), list[j], wo + 1)
    && hp == list[j] + m[list[j] - 1].size - (wo + 1)
  }

  lemma PrevIndex(head: int, list: seq<int>, p: int) returns (i: nat)
    requires p == head || p in list
    ensures i <= |list| && p == Node(head, list, i)
  {
    if p == head {
      i := 0;
    } else {
      var k :| 0 <= k < |list| && list[k] == p;
      i := k + 1;
    }
  }

  lemma ListWalk(m: Memory, chunks: seq<Chunk>, heads: set<int>, head: int, list: seq<int>, i: nat)
    requires Layout(m, chunks, heads) && FreeListOk(m, chunks, heads, head, list, NONE) && i <= |list|
    ensures 0 <= Node(head, list, i) < |m| && m[Node(head, list, i)] == Ptr(if i < |list| then list[i] else 0)
  {
    hide Layout, Links, Ascending;
    PrevFacts(m, chunks, heads, head, list, NONE, i);
  }

  lemma ListBlock(m: Memory, chunks: seq<Chunk>, heads: set<int>, head: int, list: seq<int>, i: nat)
    requires Layout(m, chunks, heads) && FreeListOk(m, chunks, heads, head, list, NONE) && i < |list|
    ensures 1 <= list[i] < |m| && m[list[i] - 1].Hdr? && list[i] + m[list[i] - 1].size <= |m| && m[list[i] - 1].size >= 1
    ensures 0 <= Node(head, list, i) < |m| && Node(head, list, i) != list[i] - 1 && list[i] in list
    ensures |chunks| > 0 && list[i] - 1 >= chunks[0].start
  {
    hide Layout, Links, Ascending;
    assert list[i] in list;
    HeadAfterStart(m, chunks, heads, list[i] - 1);
    NodeFacts(m, chunks, heads, head, list, NONE, list[i]);
    PrevFacts(m, chunks, heads, head, list, NONE, i);
  }

  lemma NodeIndex(m: Memory, chunks: seq<Chunk>, heads: set<int>, head: int, list: seq<int>, i: nat, j: nat)
    requires Layout(m, chunks, heads) && FreeListOk(m, chunks, heads, head, list, NONE) && i <= j <= |list|
    requires Node(head, list, i) == Node(head, list, j)
    ensures i == j
  {
    hide Layout, Links;
    PrevFacts(m, chunks, heads, head, list, NONE, 0);
  }

  lemma NothingTouched(m: Memory, heads: set<int>)
    ensures AllocatedUntouched(m, m, heads)
  {
  }

  lemma ListFacts(m: Memory, chunks: seq<Chunk>, heads: set<int>, head: int, list: seq<int>, j: nat)
    requires Layout(m, chunks, heads) && FreeListOk(m, chunks, heads, head, list, NONE) && j < |list|
    ensures Ascending(list) && head !in list && list[j] in list && 1 <= list[j] < |m| && m[list[j] - 1].Hdr?
  {
    hide Layout, Links;
    PrevFacts(m, chunks, heads, head, list, NONE, j);
    ListBlock(m, chunks, heads, head, list, j);
  }

  lemma CutInMemory(m: Memory, m1: Memory, chunks: seq<Chunk>, heads: set<int>, head: int, list: seq<int>, j: nat, wo: nat, hp: int)
    requires Layout(m, chunks, heads) && FreeListOk(m, chunks, heads, head, list, NONE) && WasCut(m, m1, head, list, j, wo, hp)
    ensures 0 <= hp < |m| && j < |list| && 1 <= list[j] < |m| && m[list[j] - 1].Hdr?
  {
    hide Layout, FreeListOk;
    ListBlock(m, chunks, heads, head, list, j);
  }

  lemma IsCarved(m: Memory, m1: Memory, m': Memory, head: int, list: seq<int>, j: nat, wo: nat, tag: nat, color: Color, hp: int)
    requires WasCut(m, m1, head, list, j, wo, hp) && 0 <= hp < |m| && |m1| == |m| && m' == m1[hp := Hdr(wo, tag, color)]
    ensures Carved(m, m', head, list, j, wo, tag, color, hp)
  {
  }

  lemma PosMore(chunks: seq<Chunk>, heads: set<int>, hp: int)
    ensures forall k, p :: PosOk(chunks, heads, k, p) ==> PosOk(chunks, heads + {hp}, k, p)
  {
  }

  lemma AllocatedStay(m: Memory, chunks: seq<Chunk>, heads: set<int>, hp: int)
    ensures forall h :: IsBlock(m, heads, h) ==> h in heads + {hp}
  {
  }

  /** The `wo` + 1 words at `hp` are the last ones of the first free block that fits, from
      the one that follows `prev` on. */
  ghost predicate EndOfNextFit(m: Memory, head: int, list: seq<int>, prev: int, hp: int, wo: nat) {
    exists j: nat :: NextFit(m, head, list, prev, j, wo) && EndsWithWords(m, list, j, hp, wo)
  }

  ghost predicate EndsWithWords(m: Memory, list: seq<int>, j: nat, hp: int, wo: nat) {
    j < |list| && 1 <= list[j] <= |m| && m[list[j] - 1].IsHeader() && list[j] - 1 <= hp && hp + wo + 1 == list[j] + m[list[j] - 1].size
  }

  /** What allocation does to the heap and the free list. */
  lemma AllocEffects(m: Memory, m1: Memory, m': Memory, chunks: seq<Chunk>, heads: set<int>, roots: seq<Word>, known: set<int>, head: int, list: seq<int>, j: nat, wo: nat, tag: nat, color: Color, hp: int, youngStart: int, youngEnd: int, table: seq<int>)
    requires HeapOk(m, chunks, heads, roots, known) && RefTableOk(m, known, youngStart, youngEnd, table) && FreeListOk(m, chunks, heads, head, list, NONE)
    requires WasCut(m, m1, head, list, j, wo, hp) && 0 <= hp < |m| && |m1| == |m| && m' == m1[hp := Hdr(wo, tag, color)]
    requires color == White || color == Black
    ensures HeapOk(m', chunks, heads + {hp}, roots, known) && RefTableOk(m', known, youngStart, youngEnd, table)
    ensures FreeListOk(m', chunks, heads + {hp}, head, ListAfterCut(m, list, j, wo + 1), NONE)
    ensures AllocatedUntouched(m, m', heads) && HeadersCarved(m, m', heads, list[j] - 1, hp, color)
    ensures Ascending(list) && head !in list && list[j] in list
    ensures EndsWithWords(m, list, j, hp, wo)
    ensures (forall h :: h in known ==> IsBlock(m, heads, h)) && hp !in known
  {
    hide HeapOk, FreeListOk, Layout, AllocatedUntouched, HeadersCarved, Ascending, BlockEnd, ListAfterCut, RefTableOk;
    HeapLayout(m, chunks, heads, roots, known);
    ListFacts(m, chunks, heads, head, list, j);
    IsCarved(m, m1, m', head, list, j, wo, tag, color, hp);
    CarvedShape(m, m', chunks, heads, head, list, j, wo, tag, color, hp);
    CarvedWords(m, m', chunks, heads, head, list, j, wo, tag, color, hp);
    CarvedUntouched(m, m', chunks, heads, head, list, j, wo, tag, color, hp);
    CarvedHeaders(m, m', chunks, heads, head, list, j, wo, tag, color, hp);
    KnownHeads(m, chunks, heads, roots, known);
    KnownUntouched(m, m', chunks, heads, roots, known);
    HeapUntouched(m, m', chunks, heads, heads + {hp}, roots, known);
    RefTableUntouched(m, m', chunks, heads, roots, known, youngStart, youngEnd, table);
  }

  /** What allocation does to the collector: nothing that matters. */
  lemma AllocCollector(m: Memory, m1: Memory, m': Memory, chunks: seq<Chunk>, heads: set<int>, roots: seq<Word>, known: set<int>, kept: set<int>, head: int, list: seq<int>, j: nat, wo: nat, tag: nat, color: Color, hp: int, k: nat, p: int, last: int, c: Cycle, stack: seq<int>, pure: bool, at: ScanPoint, phase: Phase)
    requires HeapOk(m, chunks, heads, roots, known) && FreeListOk(m, chunks, heads, head, list, NONE) && Small(m, heads, known) && wo >= 1
    requires j < |list| && WasCut(m, m1, head, list, j, wo, hp) && 0 <= hp < |m| && |m1| == |m| && m' == m1[hp := Hdr(wo, tag, color)]
    requires HeadersCarved(m, m', heads, list[j] - 1, hp, color) && AllocatedUntouched(m, m', heads)
    requires color == if phase == Mark || (phase == Sweep && hp >= p) then Black else White
    requires Accounted(m, heads, known, kept, phase == Mark, phase == Sweep, p)
    requires phase == Mark ==> MarkingOk(m, chunks, heads, known, c, Between, stack, pure, at, k)
    requires phase == Sweep ==> SweepingOk(m, chunks, heads, known, k, p, last)
    requires phase != Sweep ==> Coalesced(m, heads, -1)
    requires phase == Idle ==> AllSwept(m, heads)
    ensures Small(m', heads + {hp}, known)
    ensures Accounted(m', heads + {hp}, known, kept + {hp}, phase == Mark, phase == Sweep, p)
    ensures phase == Mark ==> MarkingOk(m', chunks, heads + {hp}, known, c, Between, stack, pure, at, k)
    ensures phase == Sweep ==> SweepingOk(m', chunks, heads + {hp}, known, k, p, last)
    ensures phase != Sweep ==> Coalesced(m', heads + {hp}, -1)
    ensures phase == Idle ==> AllSwept(m', heads + {hp})
  {
    hide Layout, HeapOk, FreeListOk, Small, SnapshotKept, StackOk, SweptTo, PosOk, FragmentOk, Coalesced, AtSweep, AllSwept, Accounted, HeadersCarved, AllocatedUntouched, WasCut;
    var blue := list[j] - 1;
    AllocNeighbours(m, m1, m', chunks, heads, roots, known, head, list, j, wo, tag, color, hp, k, if phase == Sweep then p else -1, last);
    AccountNew(m, m', heads, known, kept, phase == Mark, phase == Sweep, p, blue, hp, color);
    PosMore(chunks, heads, hp);
    KnownUntouched(m, m', chunks, heads, roots, known);
    KnownHeads(m, chunks, heads, roots, known);
    if phase == Mark {
      HeapLayout(m, chunks, heads, roots, known);
      SnapshotUntouched(m, m', chunks, heads, roots, known, c);
      CarvedGray(m, m', heads, blue, hp, color);
      AllocatedStay(m, chunks, heads, hp);
      StackUntouched(m, m', chunks, heads, heads + {hp}, known, stack, pure, at);
    } else {
      SweptAfter(m, m', heads, known, blue, hp, color, p, last);
    }
  }

  /** Allocation keeps everything the collector relies on. */
  lemma AllocAll(m: Memory, m1: Memory, m': Memory, chunks: seq<Chunk>, heads: set<int>, roots: seq<Word>, known: set<int>, kept: set<int>, head: int, list: seq<int>, j: nat, wo: nat, tag: nat, color: Color, hp: int, youngStart: int, youngEnd: int, table: seq<int>, prev: int, mergeAt: nat, merge: int, merge': int, k: nat, p: int, last: int, c: Cycle, stack: seq<int>, pure: bool, at: ScanPoint, phase: Phase)
    requires HeapOk(m, chunks, heads, roots, known) && FreeListOk(m, chunks, heads, head, list, NONE) && Small(m, heads, known) && wo >= 1
    requires RefTableOk(m, known, youngStart, youngEnd, table) && NextFit(m, head, list, prev, j, wo)
    requires j < |list| && WasCut(m, m1, head, list, j, wo, hp) && 0 <= hp < |m| && |m1| == |m| && m' == m1[hp := Hdr(wo, tag, color)]
    requires color == if phase == Mark || (phase == Sweep && hp >= p) then Black else White
    requires Accounted(m, heads, known, kept, phase == Mark, phase == Sweep, p)
    requires phase == Mark ==> MarkingOk(m, chunks, heads, known, c, Between, stack, pure, at, k)
    requires phase == Sweep ==> SweepingOk(m, chunks, heads, known, k, p, last) && MergePoint(list, mergeAt, p)
    requires phase != Sweep ==> Coalesced(m, heads, -1)
    requires phase == Idle ==> AllSwept(m, heads)
    requires mergeAt <= |list| && merge == Node(head, list, mergeAt)
    requires merge' == if merge == list[j] && m[list[j] - 1].size < wo + 2 then Node(head, list, j) else merge
    ensures var list', at' := ListAfterCut(m, list, j, wo + 1), MergeAfterCut(m, list, j, wo + 1, mergeAt);
      at' <= |list'| && merge' == Node(head, list', at') && (Node(head, list, j) == head || Node(head, list, j) in list')
    ensures HeapOk(m', chunks, heads + {hp}, roots, known) && RefTableOk(m', known, youngStart, youngEnd, table)
    ensures FreeListOk(m', chunks, heads + {hp}, head, ListAfterCut(m, list, j, wo + 1), NONE)
    ensures AllocatedUntouched(m, m', heads) && hp !in known && EndOfNextFit(m, head, list, prev, hp, wo)
    ensures Small(m', heads + {hp}, known)
    ensures Accounted(m', heads + {hp}, known, kept + {hp}, phase == Mark, phase == Sweep, p)
    ensures phase == Mark ==> MarkingOk(m', chunks, heads + {hp}, known, c, Between, stack, pure, at, k)
    ensures phase == Sweep ==> SweepingOk(m', chunks, heads + {hp}, known, k, p, last) && MergePoint(ListAfterCut(m, list, j, wo + 1), MergeAfterCut(m, list, j, wo + 1, mergeAt), p)
    ensures phase != Sweep ==> Coalesced(m', heads + {hp}, -1)
    ensures phase == Idle ==> AllSwept(m', heads + {hp})
  {
    hide HeapOk, FreeListOk, Small, RefTableOk, MarkingOk, SweepingOk, Coalesced, AllSwept, Accounted;
    AllocEffects(m, m1, m', chunks, heads, roots, known, head, list, j, wo, tag, color, hp, youngStart, youngEnd, table);
    CutMerge(m, head, list, j, wo + 1, mergeAt, merge, merge');
    AllocCollector(m, m1, m', chunks, heads, roots, known, kept, head, list, j, wo, tag, color, hp, k, p, last, c, stack, pure, at, phase);
  }

  lemma RefTableUntouched(m: Memory, m': Memory, chunks: seq<Chunk>, heads: set<int>, roots: seq<Word>, known: set<int>, youngStart: int, youngEnd: int, table: seq<int>)
    requires HeapOk(m, chunks, heads, roots, known) && BlocksUntouched(m, m', known)
    requires RefTableOk(m, known, youngStart, youngEnd, table)
    ensures RefTableOk(m', known, youngStart, youngEnd, table)
  {
    hide Layout, FieldIn, GoodWord, Untouched, BlockEnd;
    forall h, s | h in known && FieldIn(m', h, s) && 0 <= s < |m'| && IsYoung(youngStart, youngEnd, m'[s])
      ensures s in table
    {
      UntouchedBlock(m, m', chunks, heads, h);
    }
    FieldsInMemory(m');
  }

  lemma FieldsInMemory(m: Memory)
    ensures forall h, s :: FieldIn(m, h, s) ==> 0 <= s < |m|
  {
  }

  lemma SweptAfter(m: Memory, m': Memory, heads: set<int>, known: set<int>, blue: int, hp: int, color: Color, p: int, f: int)
    requires HeadersCarved(m, m', heads, blue, hp, color) && (forall h :: h in known ==> IsBlock(m, heads, h))
    ensures SweptTo(m, heads, known, p) && color == (if hp >= p then Black else White) ==> SweptTo(m', heads + {hp}, known, p)
    ensures AllSwept(m, heads) && color == White ==> AllSwept(m', heads + {hp})
    ensures FragmentOk(m, heads, f, p) ==> FragmentOk(m', heads + {hp}, f, p)
  {
    assert FragmentOk(m, heads, f, p) && f == p ==> IsBlock(m, heads, f - 1);
  }

  lemma SweptBasic(m: Memory, chunks: seq<Chunk>, heads: set<int>, roots: seq<Word>, known: set<int>, head: int, list: seq<int>, at: nat, k: nat, adj: int)
    requires Swept(m, chunks, heads, roots, known, head, list, at, k, adj)
    ensures HeapOk(m, chunks, heads, roots, known) && FreeListOk(m, chunks, heads, head, list, NONE) && at <= |list|
    ensures MergePoint(list, at, adj) && SweptTo(m, heads, known, adj) && PosOk(chunks, heads, k, adj)
  {
    hide FreeListOk, HeapOk, SweptTo;
  }

  lemma NewFragment(m: Memory, heads: set<int>, bp: int)
    requires bp - 1 in heads && HasColor(m, bp - 1, White) && m[bp - 1].size == 0
    ensures FragmentOk(m, heads, bp, bp)
  {
  }

  lemma UntouchedRefl(m: Memory, known: set<int>)
    ensures BlocksUntouched(m, m, known)
  {
  }

  lemma UntouchedTrans(m: Memory, m1: Memory, m2: Memory, chunks: seq<Chunk>, heads: set<int>, roots: seq<Word>, known: set<int>)
    requires BlocksUntouched(m, m1, known) && BlocksUntouched(m1, m2, known)
    requires forall h :: h in known ==> 0 <= h < |m|
    ensures BlocksUntouched(m, m2, known)
  {
    forall h, a | h in known && h <= a < BlockEnd(m, h) && 0 <= a < |m|
      ensures m2[a] == m[a]
    {
      assert Untouched(m, m1, h) && Untouched(m1, m2, h);
      assert BlockEnd(m1, h) == BlockEnd(m, h);
    }
  }

  lemma HeldHeap(m: Memory, chunks: seq<Chunk>, heads: set<int>, roots: seq<Word>, known: set<int>, head: int, list: seq<int>, at: nat, k: nat, x: int, adj: int)
    requires Held(m, chunks, heads, roots, known, head, list, at, k, x, adj)
    ensures HeapOk(m, chunks, heads, roots, known) && Layout(m, chunks, heads) && FreeListOk(m, chunks, heads, head, list, x)
    ensures x in heads && x !in known && 0 <= x < |m| && m[x].Hdr? && adj == x + 1 + m[x].size <= |m|
    ensures forall h :: h in known ==> 0 <= h < |m|
  {
    hide Layout, FreeListOk, BlockEnd, SweptTo, FieldIn, GoodWord;
    BlockInMemory(m, chunks, heads, x);
    HeadsInMemory(m, chunks, heads);
  }

  lemma HeldLinkWord(m: Memory, chunks: seq<Chunk>, heads: set<int>, roots: seq<Word>, known: set<int>, head: int, list: seq<int>, at: nat, k: nat, x: int, adj: int)
    requires Held(m, chunks, heads, roots, known, head, list, at, k, x, adj)
    ensures at <= |list|
    ensures var p := Node(head, list, at); 1 <= p < |m| && m[p] == Ptr(if at < |list| then list[at] else 0) && m[p - 1].Hdr?
    ensures adj > 0
    ensures at < |list| ==> 1 <= list[at] < |m| && m[list[at] - 1].Hdr?
  {
    hide Layout, Links, Ascending, BlockEnd, SweptTo, FieldIn, GoodWord;
    HeldHeap(m, chunks, heads, roots, known, head, list, at, k, x, adj);
    PrevFacts(m, chunks, heads, head, list, x, at);
    if at > 0 {
      NodeFacts(m, chunks, heads, head, list, x, list[at - 1]);
    }
    if at < |list| {
      assert list[at] in list;
      NodeFacts(m, chunks, heads, head, list, x, list[at]);
    }
  }

  /** The search pointer survives the removal of the next block. */
  lemma HeldNextPrev(m: Memory, chunks: seq<Chunk>, heads: set<int>, roots: seq<Word>, known: set<int>, head: int, list: seq<int>, at: nat, k: nat, x: int, adj: int, p: int)
    requires at < |list| && (p == head || p in list)
    ensures var rest := list[..at] + list[at + 1..];
      && (p == list[at] || p == head || p in rest)
      && (Node(head, list, at) == head || Node(head, list, at) in rest)
      && Node(head, rest, at) == Node(head, list, at)
  {
    var rest := list[..at] + list[at + 1..];
    if at > 0 {
      assert rest[at - 1] == list[at - 1];
    }
    if p in list && p != list[at] {
      var i :| 0 <= i < |list| && list[i] == p;
      assert p == if i < at then rest[i] else rest[i - 1];
    }
  }

  /** The block before is a free block, not the sentinel. */
  lemma PrevIsBlock(m: Memory, chunks: seq<Chunk>, heads: set<int>, roots: seq<Word>, known: set<int>, head: int, list: seq<int>, at: nat, k: nat, x: int, adj: int)
    requires at <= |list|
    requires var p := Node(head, list, at); 1 <= p < |m| && m[p - 1].Hdr? && p + m[p - 1].size == x
    requires Held(m, chunks, heads, roots, known, head, list, at, k, x, adj)
    ensures Node(head, list, at) in list && Node(head, list, at) - 1 in heads && BlockEnd(m, Node(head, list, at) - 1) == x
  {
    hide Layout, Links, Ascending, SweptTo, FieldIn, GoodWord;
    HeldHeap(m, chunks, heads, roots, known, head, list, at, k, x, adj);
    PrevFacts(m, chunks, heads, head, list, x, at);
    EndOf(m, Node(head, list, at) - 1);
  }

  lemma HeldEnd(m: Memory, chunks: seq<Chunk>, heads: set<int>, roots: seq<Word>, known: set<int>, head: int, list: seq<int>, at: nat, k: nat, x: int, adj: int)
    requires Held(m, chunks, heads, roots, known, head, list, at, k, x, adj)
    ensures 0 <= x < |m| && m[x].Hdr? && adj == x + 1 + m[x].size
    ensures forall h :: h in known ==> 0 <= h < |m|
  {
    hide Held;
    HeldHeap(m, chunks, heads, roots, known, head, list, at, k, x, adj);
  }

  lemma NotGray(m: Memory, heads: set<int>, known: set<int>, p: int, h: int)
    requires SweptTo(m, heads, known, p) && h in heads
    ensures !HasColor(m, h, Gray)
  {
  }

  lemma IsSwept(m: Memory, heads: set<int>)
    requires forall h :: h in heads ==> HasColor(m, h, White) || HasColor(m, h, Blue)
    ensures AllSwept(m, heads)
  {
  }

  lemma HeldPoint(m: Memory, chunks: seq<Chunk>, heads: set<int>, roots: seq<Word>, known: set<int>, head: int, list: seq<int>, at: nat, k: nat, x: int, adj: int)
    requires Held(m, chunks, heads, roots, known, head, list, at, k, x, adj)
    ensures FreeListOk(m, chunks, heads, head, list, x) && MergePoint(list, at, adj) && MergePoint(list, at, x) && x != adj && x >= 0
    ensures x in heads && Layout(m, chunks, heads) && x !in known && forall h :: h in known ==> IsBlock(m, heads, h)
  {
    hide Layout, FreeListOk, BlockEnd, SweptTo, FieldIn, GoodWord, MergePoint;
    BlockInMemory(m, chunks, heads, x);
  }

  /** The free block before `x` does not end there. */
  lemma PrevEndsElsewhere(m: Memory, chunks: seq<Chunk>, heads: set<int>, head: int, list: seq<int>, at: nat, x: int)
    requires Layout(m, chunks, heads) && FreeListOk(m, chunks, heads, head, list, x) && at <= |list|
    requires var p := Node(head, list, at); 1 <= p < |m| && m[p - 1].Hdr? && p + m[p - 1].size != x
    ensures at > 0 ==> BlockEnd(m, list[at - 1] - 1) != x
  {
    hide Layout, FreeListOk;
  }

  lemma InsertC(m: Memory, m': Memory, chunks: seq<Chunk>, heads: set<int>, roots: seq<Word>, known: set<int>, head: int, list: seq<int>, at: nat, k: nat, x: int, adj: int, last: int)
    requires at <= |list| && 0 <= x && x + 1 < |m| && m[x].Hdr? && m[x].size != 0 && 0 <= Node(head, list, at) < |m|
    requires var p := Node(head, list, at); 1 <= p < |m| && m[p - 1].Hdr? && p + m[p - 1].size != x
    requires m' == m[x := m[x].(color := Blue)][x + 1 := if at < |list| then Ptr(list[at]) else Ptr(0)][Node(head, list, at) := Ptr(x + 1)]
    requires Held(m, chunks, heads, roots, known, head, list, at, k, x, adj) && HeldC(m, heads, x, adj, -1) && Small(m, heads, known) && NotFreeAt(m, heads, adj)
    ensures Coalesced(m', heads, adj) && AtSweep(m', heads, adj, last) && Small(m', heads, known)
  {
    hide Layout, FreeListOk, Held, HeldC, Small, NotFreeAt, Coalesced, AtSweep, MergePoint, BlockEnd;
    HeldPoint(m, chunks, heads, roots, known, head, list, at, k, x, adj);
    PrevEndsElsewhere(m, chunks, heads, head, list, at, x);
    InsertWords(m, m', chunks, heads, known, head, list, at, x);
    LinkIsNoHeader(m, chunks, heads, head, list, at, x);
    InsertStepC(m, m', chunks, heads, roots, known, head, list, at, k, x, adj, last);
  }

  lemma LinkIsNoHeader(m: Memory, chunks: seq<Chunk>, heads: set<int>, head: int, list: seq<int>, at: nat, x: int)
    requires Layout(m, chunks, heads) && FreeListOk(m, chunks, heads, head, list, x) && at <= |list| && x in heads
    ensures Node(head, list, at) != x
  {
    hide Layout, FreeListOk;
    PrevFacts(m, chunks, heads, head, list, x, at);
  }

  lemma AloneIsC(m: Memory, chunks: seq<Chunk>, heads: set<int>, roots: seq<Word>, known: set<int>, head: int, list: seq<int>, at: nat, k: nat, x: int, adj: int, last: int)
    requires at <= |list| && HasColor(m, x, White) && last == adj
    requires var p := Node(head, list, at); 1 <= p < |m| && m[p - 1].Hdr? && p + m[p - 1].size != x
    requires Held(m, chunks, heads, roots, known, head, list, at, k, x, adj) && HeldC(m, heads, x, adj, -1) && Small(m, heads, known) && NotFreeAt(m, heads, adj)
    ensures Coalesced(m, heads, adj) && AtSweep(m, heads, adj, last)
  {
    hide Layout, FreeListOk, Held, HeldC, Small, NotFreeAt, Coalesced, AtSweep, MergePoint, BlockEnd;
    HeldPoint(m, chunks, heads, roots, known, head, list, at, k, x, adj);
    PrevEndsElsewhere(m, chunks, heads, head, list, at, x);
    InsertStepC(m, m, chunks, heads, roots, known, head, list, at, k, x, adj, last);
  }

  lemma AllocNeighbours(m: Memory, m1: Memory, m': Memory, chunks: seq<Chunk>, heads: set<int>, roots: seq<Word>, known: set<int>, head: int, list: seq<int>, j: nat, wo: nat, tag: nat, color: Color, hp: int, k: nat, p: int, last: int)
    requires HeapOk(m, chunks, heads, roots, known) && FreeListOk(m, chunks, heads, head, list, NONE)
    requires WasCut(m, m1, head, list, j, wo, hp) && 0 <= hp < |m| && |m1| == |m| && m' == m1[hp := Hdr(wo, tag, color)]
    requires HeadersCarved(m, m', heads, list[j] - 1, hp, color) && (color == White || color == Black) && wo >= 1
    requires Small(m, heads, known) && (p == -1 || PosOk(chunks, heads, k, p))
    ensures Small(m', heads + {hp}, known)
    ensures Coalesced(m, heads, p) ==> Coalesced(m', heads + {hp}, p)
    ensures AtSweep(m, heads, p, last) ==> AtSweep(m', heads + {hp}, p, last)
  {
    hide Layout, FreeListOk, Small, Coalesced, AtSweep, HeadersCarved, FieldIn, GoodWord, PosOk;
    HeapLayout(m, chunks, heads, roots, known);
    KnownHeads(m, chunks, heads, roots, known);
    var b := list[j] - 1;
    assert list[j] in list;
    NodeFacts(m, chunks, heads, head, list, NONE, list[j]);
    EndOf(m, b);
    if b != hp && p != -1 {
      SweepOutside(m, chunks, heads, k, p, b, hp);
    }
    CutPieces(m, m1, m', head, list, j, wo, tag, color, hp);
    AllocC(m, m', chunks, heads, known, b, hp, wo, tag, color, p, last);
  }

  lemma CutPieces(m: Memory, m1: Memory, m': Memory, head: int, list: seq<int>, j: nat, wo: nat, tag: nat, color: Color, hp: int)
    requires WasCut(m, m1, head, list, j, wo, hp) && 0 <= hp < |m| && |m1| == |m| && m' == m1[hp := Hdr(wo, tag, color)]
    ensures var b := list[j] - 1;
      b != hp ==> BlockEnd(m', b) == hp && (HasColor(m', b, Blue) ==> m'[b].size >= 1)
  {
  }

  lemma NeighboursKept(m: Memory, m': Memory, chunks: seq<Chunk>, heads: set<int>, head: int, list: seq<int>, p: int)
    requires Layout(m, chunks, heads) && OnlyColors(m, m', heads) && Coalesced(m, heads, p)
    requires FreeListOk(m, chunks, heads, head, list, NONE) && FreeListOk(m', chunks, heads, head, list, NONE)
    ensures Coalesced(m', heads, p)
  {
    hide Layout, FreeListOk, Coalesced;
    ColorsCoalesced(m, m', chunks, heads, head, list, p);
  }

  lemma ColorsSame(m: Memory, m': Memory, chunks: seq<Chunk>, heads: set<int>, roots: seq<Word>, known: set<int>)
    requires OnlyColors(m, m', heads) && HeapOk(m', chunks, heads, roots, known)
    requires forall h :: h in known ==> 0 <= h < |m| && m[h].Hdr?
    ensures BlocksSame(m, m', known)
  {
    hide Layout, GoodWord, FieldIn;
    forall h | h in known ensures BlockSame(m, m', h) {
      forall a | h < a < BlockEnd(m, h) && 0 <= a < |m|
        ensures m'[a] == m[a]
      {
        NoHeaderInside(m', chunks, heads, h, a);
      }
    }
  }

  lemma RefTableMore(m: Memory, known: set<int>, youngStart: int, youngEnd: int, table: seq<int>, fp: int)
    requires RefTableOk(m, known, youngStart, youngEnd, table)
    ensures RefTableOk(m, known, youngStart, youngEnd, table + [fp])
  {
    forall s | s in table ensures s in table + [fp] { }
  }

  /** A store into a block the program does not know yet changes nothing that matters. */
  lemma InitEffects(m: Memory, m': Memory, chunks: seq<Chunk>, heads: set<int>, roots: seq<Word>, known: set<int>, head: int, list: seq<int>, b: int, fp: int)
    requires HeapOk(m, chunks, heads, roots, known) && FreeListOk(m, chunks, heads, head, list, NONE)
    requires IsBlock(m, heads, b) && b !in known && b < fp < BlockEnd(m, b) && 0 <= fp < |m|
    requires |m'| == |m| && forall a :: 0 <= a < |m| && a != fp ==> m'[a] == m[a]
    ensures HeapOk(m', chunks, heads, roots, known) && FreeListOk(m', chunks, heads, head, list, NONE)
    ensures fp !in heads && BlocksUntouched(m, m', known)
  {
    hide Layout, Links, Ascending, FieldIn, GoodWord, HeapOk, BlockEnd;
    HeapLayout(m, chunks, heads, roots, known);
    KnownHeads(m, chunks, heads, roots, known);
    NoHeaderInside(m, chunks, heads, b, fp);
    HeadsInMemory(m, chunks, heads);
    forall h, a | h in known && h <= a < BlockEnd(m, h) && 0 <= a < |m|
      ensures m'[a] == m[a]
    {
      if a == fp {
        OneOwner(m, chunks, heads, h, b, a);
      }
    }
    LayoutSameSizes(m, m', chunks, heads);
    HeapUntouched(m, m', chunks, heads, heads, roots, known);
    forall l | l in list ensures l != fp {
      NodeFacts(m, chunks, heads, head, list, NONE, l);
      if l == fp {
        OneOwner(m, chunks, heads, l - 1, b, l);
      }
    }
    ListFrame(m, m', chunks, heads, head, list, NONE);
  }

  lemma MoreKnown(m: Memory, chunks: seq<Chunk>, heads: set<int>, roots: seq<Word>, known: set<int>, b: int)
    requires HeapOk(m, chunks, heads, roots, known) && IsBlock(m, heads, b)
    requires forall s :: FieldIn(m, b, s) ==> GoodWord(chunks, known, m[s])
    ensures HeapOk(m, chunks, heads, roots, known + {b})
  {
    hide Layout, FieldIn;
  }

  lemma InitialNeighbours(m: Memory, c: Chunk)
    requires c.start >= 0 && c.size > 4 && c.End() <= |m| && m[c.start] == Hdr(c.size - 1, 0, Blue)
    ensures Small(m, {c.start}, {}) && Coalesced(m, {c.start}, -1)
  {
  }

  lemma OneChunk(c: Chunk, n: nat)
    requires ChunksOk([c], n)
    ensures c.size > 4 && c.End() <= n
  {
    assert [c][0] == c;
  }

  lemma NothingKnown(m: Memory, youngStart: int, youngEnd: int, table: seq<int>)
    ensures RefTableOk(m, {}, youngStart, youngEnd, table)
  {
  }

  lemma InitialHeap(m: Memory, c: Chunk, head: int, roots: seq<Word>)
    requires ChunksOk([c], |m|) && c.start > 0 && c.size > 4 && c.End() <= |m| && 1 <= head < |m| && !InChunk(c, head) && !InChunk(c, head - 1)
    requires forall w :: w in roots ==> GoodWord([c], {}, w)
    requires m[head - 1] == Hdr(0, 0, Blue) && m[head] == Ptr(c.start + 1)
    requires m[c.start] == Hdr(c.size - 1, 0, Blue) && m[c.start + 1] == Ptr(0)
    ensures HeapOk(m, [c], {c.start}, roots, {}) && FreeListOk(m, [c], {c.start}, head, [c.start + 1], NONE)
    ensures AllSwept(m, {c.start})
  {
    hide FieldIn, GoodWord;
    var chunks, heads, list := [c], {c.start}, [c.start + 1];
    assert InChunk(chunks[0], c.start) && BlockInChunk(m, chunks, c.start, 0);
    assert BlockOk(m, chunks, c.start);
    assert Links(m, head, list, Ptr(0)) by {
      assert Node(head, list, 0) == head && Node(head, list, 1) == list[0];
    }
    assert forall a :: InHeap(chunks, a) ==> InChunk(c, a);
  }
}
