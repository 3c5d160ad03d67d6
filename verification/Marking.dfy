/** Incremental marking from a snapshot: what it keeps true while the program runs. */
module Marking {
  import opened Words
  import opened BlockLayout

  /** `s` is a field of the block whose header is at `h`, and holds a value. */
  ghost predicate FieldIn(m: Memory, h: int, s: int) {
    0 <= h < |m| && m[h].Hdr? && m[h].tag < NO_SCAN_TAG && h < s < BlockEnd(m, h) && s < |m|
  }

  /** `w` is a pointer to the block whose header is at `h`. */
  ghost predicate Refers(chunks: seq<Chunk>, w: Word, h: int) {
    w.Ptr? && w.addr == h + 1 && InHeap(chunks, w.addr)
  }

  /** The block at `h` is reached from a root through `n` blocks. */
  ghost predicate Reach(m: Memory, chunks: seq<Chunk>, roots: seq<Word>, h: int, n: nat)
    decreases n
  {
    if n == 0 then exists w :: w in roots && Refers(chunks, w, h)
    else exists p, s :: Reach(m, chunks, roots, p, n - 1) && FieldIn(m, p, s) && Refers(chunks, m[s], h)
  }

  ghost predicate Reachable(m: Memory, chunks: seq<Chunk>, roots: seq<Word>, h: int) {
    exists n: nat :: Reach(m, chunks, roots, h, n)
  }

  /** An allocated block. */
  ghost predicate IsBlock(m: Memory, heads: set<int>, h: int) {
    h in heads && 0 <= h < |m| && m[h].Hdr? && m[h].color != Blue
  }

  ghost predicate NotWhite(m: Memory, h: int) {
    0 <= h < |m| && m[h].Hdr? && m[h].color != White
  }

  ghost predicate HasColor(m: Memory, h: int, c: Color) {
    0 <= h < |m| && m[h].Hdr? && m[h].color == c
  }

  /** A value the program may hold: an integer, a pointer out of the heap, or a pointer to
      a known block. */
  ghost predicate GoodWord(chunks: seq<Chunk>, known: set<int>, w: Word) {
    !w.IsHeader() && forall h :: Refers(chunks, w, h) ==> h in known
  }

  /** `known` are allocated blocks, closed under the program's loads: whatever the program
      can get hold of is among them. */
  ghost predicate HeapOk(m: Memory, chunks: seq<Chunk>, heads: set<int>, roots: seq<Word>, known: set<int>) {
    && Layout(m, chunks, heads)
    && (forall h :: h in known ==> IsBlock(m, heads, h))
    && (forall w :: w in roots ==> GoodWord(chunks, known, w))
    && (forall h, s :: h in known && FieldIn(m, h, s) ==> GoodWord(chunks, known, m[s]))
  }

  /** Everything reachable is known, hence allocated. */
  lemma {:induction false} ReachKnown(m: Memory, chunks: seq<Chunk>, heads: set<int>, roots: seq<Word>, known: set<int>, h: int, n: nat)
    requires HeapOk(m, chunks, heads, roots, known) && Reach(m, chunks, roots, h, n)
    ensures h in known && IsBlock(m, heads, h)
    decreases n
  {
    hide Refers, Layout;
    if n > 0 {
      var p, s :| Reach(m, chunks, roots, p, n - 1) && FieldIn(m, p, s) && Refers(chunks, m[s], h);
      ReachKnown(m, chunks, heads, roots, known, p, n - 1);
    }
  }

  /** The heap as it was when the cycle started. `live` are the blocks then reachable. */
  datatype Cycle = Cycle(mem: Memory, roots: seq<Word>, live: set<int>)

  ghost predicate ValidCycle(chunks: seq<Chunk>, c: Cycle) {
    && (forall h, n: nat :: Reach(c.mem, chunks, c.roots, h, n) ==> h in c.live)
    && (forall h :: h in c.live ==> exists n: nat :: Reach(c.mem, chunks, c.roots, h, n))
  }

  /** Where we are: the roots are being darkened at the start of a cycle; or the marker is
      between two blocks; or it is scanning a block that is already black but whose fields
      from `next` on have not been looked at; or the program is storing into `slot`, and
      what the slot held is still to be darkened. */
  datatype Scan = Starting(done: seq<Word>) | Between | Scanning(header: int, next: int) | Storing(slot: int)

  ghost predicate Unscanned(m: Memory, scan: Scan, h: int, s: int) {
    (0 <= h < |m| && m[h].Hdr? && m[h].color != Black) || (scan.Scanning? && h == scan.header && s >= scan.next)
  }

  /** A pointer that was in the field `s` of a snapshot block `h`: either the marker or the
      write barrier has seen its target `t`, or it is still there and will be scanned. */
  ghost predicate Seen(m: Memory, c: Cycle, scan: Scan, h: int, s: int, t: int) {
    NotWhite(m, t) || (scan.Storing? && s == scan.slot) || (Unscanned(m, scan, h, s) && 0 <= s < |m| && 0 <= s < |c.mem| && m[s] == c.mem[s])
  }

  /** Nothing the snapshot's roots or fields referred to has been lost. */
  ghost predicate AllSeen(m: Memory, chunks: seq<Chunk>, c: Cycle, scan: Scan) {
    && (forall w, t :: w in (if scan.Starting? then scan.done else c.roots) && Refers(chunks, w, t) ==> NotWhite(m, t))
    && (forall h, s, t :: h in c.live && FieldIn(c.mem, h, s) && Refers(chunks, c.mem[s], t) ==> Seen(m, c, scan, h, s, t))
  }

  /** Snapshot blocks keep their shape; blocks allocated since are black. */
  ghost predicate ShapesKept(m: Memory, c: Cycle, known: set<int>) {
    && |m| == |c.mem| && c.live <= known
    && (forall h :: h in c.live ==> 0 <= h < |m| && m[h].Hdr? && c.mem[h].Hdr? && m[h].size == c.mem[h].size && m[h].tag == c.mem[h].tag)
    && (forall h :: h in known && h !in c.live ==> HasColor(m, h, Black))
  }

  /** The snapshot invariant. `known` are the blocks of the snapshot and those allocated since. */
  ghost predicate SnapshotKept(m: Memory, chunks: seq<Chunk>, c: Cycle, known: set<int>, scan: Scan) {
    && ValidCycle(chunks, c)
    && ShapesKept(m, c, known)
    && AllSeen(m, chunks, c, scan)
  }

  ghost predicate NoGray(m: Memory, heads: set<int>) {
    forall h :: h in heads ==> !HasColor(m, h, Gray)
  }

  lemma {:induction false} SnapshotMarked(m: Memory, chunks: seq<Chunk>, heads: set<int>, roots: seq<Word>, c: Cycle, known: set<int>, h: int, n: nat)
    requires HeapOk(m, chunks, heads, roots, known) && SnapshotKept(m, chunks, c, known, Between) && NoGray(m, heads)
    requires Reach(c.mem, chunks, c.roots, h, n)
    ensures HasColor(m, h, Black)
    decreases n
  {
    hide Refers, Layout;
    assert h in c.live && h in known;
    if n > 0 {
      var p, s :| Reach(c.mem, chunks, c.roots, p, n - 1) && FieldIn(c.mem, p, s) && Refers(chunks, c.mem[s], h);
      SnapshotMarked(m, chunks, heads, roots, c, known, p, n - 1);
      assert Seen(m, c, Between, p, s, h);
    } else {
      var w :| w in c.roots && Refers(chunks, w, h);
    }
  }

  /** When no gray block is left, every known block is black. */
  lemma KnownIsBlack(m: Memory, chunks: seq<Chunk>, heads: set<int>, roots: seq<Word>, c: Cycle, known: set<int>, h: int)
    requires HeapOk(m, chunks, heads, roots, known) && SnapshotKept(m, chunks, c, known, Between) && NoGray(m, heads)
    requires h in known
    ensures HasColor(m, h, Black)
  {
    hide HeapOk, AllSeen, Reach;
    if h in c.live {
      var n: nat :| Reach(c.mem, chunks, c.roots, h, n);
      SnapshotMarked(m, chunks, heads, roots, c, known, h, n);
    }
  }

  // Changes of colour.

  ghost predicate Recolored(m: Memory, m': Memory, h: int, c: Color) {
    0 <= h < |m| && m[h].Hdr? && m' == m[h := m[h].(color := c)]
  }

  lemma RecolorLayout(m: Memory, m': Memory, chunks: seq<Chunk>, heads: set<int>, h: int, c: Color)
    requires Layout(m, chunks, heads) && Recolored(m, m', h, c)
    ensures Layout(m', chunks, heads)
  {
    hide Layout;
    LayoutSameSizes(m, m', chunks, heads);
  }

  lemma RecolorFieldIn(m: Memory, m': Memory, h: int, c: Color, b: int, s: int)
    requires Recolored(m, m', h, c)
    ensures FieldIn(m', b, s) <==> FieldIn(m, b, s)
  {
  }

  lemma FieldFacts(m: Memory, chunks: seq<Chunk>, heads: set<int>, b: int, s: int)
    requires Layout(m, chunks, heads) && b in heads && FieldIn(m, b, s)
    ensures s !in heads && 0 <= s < |m| && InHeap(chunks, s) && b < s < BlockEnd(m, b)
  {
    hide Layout;
    NoHeaderInside(m, chunks, heads, b, s);
  }

  /** Fields of blocks are where they were, and hold what they held. */
  lemma RecolorFields(m: Memory, m': Memory, chunks: seq<Chunk>, heads: set<int>, h: int, c: Color)
    requires Layout(m, chunks, heads) && Recolored(m, m', h, c) && h in heads
    ensures forall b, s :: FieldIn(m', b, s) <==> FieldIn(m, b, s)
    ensures forall b, s :: b in heads && FieldIn(m, b, s) ==> m'[s] == m[s]
  {
    hide Layout, BlockEnd, FieldIn;
    forall b, s ensures FieldIn(m', b, s) <==> FieldIn(m, b, s) {
      RecolorFieldIn(m, m', h, c, b, s);
    }
    forall b, s | b in heads && FieldIn(m, b, s)
      ensures 0 <= s < |m| && m'[s] == m[s]
    {
      FieldFacts(m, chunks, heads, b, s);
    }
  }

  lemma RecolorHeapOk(m: Memory, m': Memory, chunks: seq<Chunk>, heads: set<int>, roots: seq<Word>, known: set<int>, h: int, c: Color)
    requires HeapOk(m, chunks, heads, roots, known) && h in heads && (c != Blue || h !in known) && Recolored(m, m', h, c)
    ensures HeapOk(m', chunks, heads, roots, known)
  {
    hide Layout, FieldIn, GoodWord;
    RecolorLayout(m, m', chunks, heads, h, c);
    RecolorFields(m, m', chunks, heads, h, c);
  }

  /** A field of a snapshot block is still a field of that block, hence no header. */
  lemma SnapshotField(m: Memory, chunks: seq<Chunk>, heads: set<int>, roots: seq<Word>, c: Cycle, known: set<int>, b: int, s: int)
    requires HeapOk(m, chunks, heads, roots, known) && ShapesKept(m, c, known) && b in c.live && FieldIn(c.mem, b, s)
    ensures FieldIn(m, b, s) && s !in heads && b in heads && 0 <= s < |m| && 0 <= s < |c.mem|
  {
    hide Layout, GoodWord;
    NoHeaderInside(m, chunks, heads, b, s);
  }

  // The steps of the marker.

  /** Darkening a white block loses nothing. */
  lemma DarkenKeeps(m: Memory, m': Memory, chunks: seq<Chunk>, heads: set<int>, roots: seq<Word>, c: Cycle, known: set<int>, scan: Scan, h: int)
    requires HeapOk(m, chunks, heads, roots, known) && SnapshotKept(m, chunks, c, known, scan)
    requires h in heads && HasColor(m, h, White) && Recolored(m, m', h, Gray)
    ensures HeapOk(m', chunks, heads, roots, known) && SnapshotKept(m', chunks, c, known, scan)
  {
    hide Refers, HeapOk, ValidCycle, FieldIn;
    RecolorHeapOk(m, m', chunks, heads, roots, known, h, Gray);
    forall b, s, t | b in c.live && FieldIn(c.mem, b, s) && 0 <= s < |c.mem| && Refers(chunks, c.mem[s], t)
      ensures Seen(m', c, scan, b, s, t)
    {
      SnapshotField(m, chunks, heads, roots, c, known, b, s);
      assert Seen(m, c, scan, b, s, t);
    }
  }

  /** A gray block is popped and made black; its fields are still to be looked at. */
  lemma BlackenKeeps(m: Memory, m': Memory, chunks: seq<Chunk>, heads: set<int>, roots: seq<Word>, c: Cycle, known: set<int>, h: int)
    requires HeapOk(m, chunks, heads, roots, known) && SnapshotKept(m, chunks, c, known, Between)
    requires h in heads && HasColor(m, h, Gray) && Recolored(m, m', h, Black)
    ensures HeapOk(m', chunks, heads, roots, known) && SnapshotKept(m', chunks, c, known, Scanning(h, h + 1))
  {
    hide Refers, HeapOk, ValidCycle;
    RecolorHeapOk(m, m', chunks, heads, roots, known, h, Black);
    forall b, s, t | b in c.live && FieldIn(c.mem, b, s) && Refers(chunks, c.mem[s], t)
      ensures Seen(m', c, Scanning(h, h + 1), b, s, t)
    {
      SnapshotField(m, chunks, heads, roots, c, known, b, s);
      assert Seen(m, c, Between, b, s, t);
    }
  }

  /** The field at `s` has been looked at: what it refers to is not white. */
  lemma ScanOneField(m: Memory, chunks: seq<Chunk>, c: Cycle, known: set<int>, h: int, s: int)
    requires SnapshotKept(m, chunks, c, known, Scanning(h, s)) && 0 <= s < |m|
    requires forall t :: Refers(chunks, m[s], t) ==> NotWhite(m, t)
    ensures SnapshotKept(m, chunks, c, known, Scanning(h, s + 1))
  {
    hide Refers, ValidCycle, FieldIn;
    forall b, f, t | b in c.live && FieldIn(c.mem, b, f) && 0 <= f < |c.mem| && Refers(chunks, c.mem[f], t)
      ensures Seen(m, c, Scanning(h, s + 1), b, f, t)
    {
      assert Seen(m, c, Scanning(h, s), b, f, t);
    }
  }

  /** All fields have been looked at, or the block has none. */
  lemma ScanDone(m: Memory, chunks: seq<Chunk>, heads: set<int>, roots: seq<Word>, c: Cycle, known: set<int>, h: int, s: int)
    requires HeapOk(m, chunks, heads, roots, known) && SnapshotKept(m, chunks, c, known, Scanning(h, s))
    requires forall f :: FieldIn(m, h, f) ==> f < s
    ensures SnapshotKept(m, chunks, c, known, Between)
  {
    hide Refers, ValidCycle, FieldIn, HeapOk;
    forall b, f, t | b in c.live && FieldIn(c.mem, b, f) && 0 <= f < |c.mem| && Refers(chunks, c.mem[f], t)
      ensures Seen(m, c, Between, b, f, t)
    {
      assert Seen(m, c, Scanning(h, s), b, f, t);
      SnapshotField(m, chunks, heads, roots, c, known, b, f);
    }
  }

  /** At the start of a cycle nothing is gray or black, and the program can only reach
      what is reachable from its roots. */
  lemma CycleStarts(m: Memory, chunks: seq<Chunk>, heads: set<int>, roots: seq<Word>, known: set<int>, c: Cycle)
    requires HeapOk(m, chunks, heads, roots, known) && c.mem == m && c.roots == roots && ValidCycle(chunks, c)
    requires forall h :: h in heads ==> HasColor(m, h, White) || HasColor(m, h, Blue)
    ensures HeapOk(m, chunks, heads, roots, c.live) && SnapshotKept(m, chunks, c, c.live, Starting([]))
  {
    hide Layout, Refers, GoodWord;
    forall h | h in c.live ensures IsBlock(m, heads, h) && h in known {
      var n: nat :| Reach(m, chunks, roots, h, n);
      ReachKnown(m, chunks, heads, roots, known, h, n);
    }
    forall b, s | b in c.live && FieldIn(m, b, s)
      ensures GoodWord(chunks, c.live, m[s])
    {
      LoadReachable(m, chunks, roots, c, known, b, s);
    }
    forall w | w in roots ensures GoodWord(chunks, c.live, w) {
      RootReachable(m, chunks, roots, c, known, w);
    }
    HeadsInMemory(m, chunks, heads);
  }

  lemma LoadReachable(m: Memory, chunks: seq<Chunk>, roots: seq<Word>, c: Cycle, known: set<int>, b: int, s: int)
    requires c.mem == m && c.roots == roots && ValidCycle(chunks, c)
    requires b in c.live && FieldIn(m, b, s) && GoodWord(chunks, known, m[s])
    ensures GoodWord(chunks, c.live, m[s])
  {
    hide Refers;
    var n: nat :| Reach(m, chunks, roots, b, n);
    forall t | Refers(chunks, m[s], t) ensures t in c.live {
      assert Reach(m, chunks, roots, t, n + 1);
    }
  }

  lemma RootReachable(m: Memory, chunks: seq<Chunk>, roots: seq<Word>, c: Cycle, known: set<int>, w: Word)
    requires c.mem == m && c.roots == roots && ValidCycle(chunks, c)
    requires w in roots && GoodWord(chunks, known, w)
    ensures GoodWord(chunks, c.live, w)
  {
    hide Refers;
    forall t | Refers(chunks, w, t) ensures t in c.live {
      assert Reach(m, chunks, roots, t, 0);
    }
  }

  lemma RootDarkened(m: Memory, chunks: seq<Chunk>, c: Cycle, known: set<int>, done: seq<Word>, w: Word)
    requires SnapshotKept(m, chunks, c, known, Starting(done))
    requires forall t :: Refers(chunks, w, t) ==> NotWhite(m, t)
    ensures SnapshotKept(m, chunks, c, known, Starting(done + [w]))
  {
    hide Refers, ValidCycle, FieldIn;
    forall b, f, t | b in c.live && FieldIn(c.mem, b, f) && 0 <= f < |c.mem| && Refers(chunks, c.mem[f], t)
      ensures Seen(m, c, Starting(done + [w]), b, f, t)
    {
      assert Seen(m, c, Starting(done), b, f, t);
    }
  }

  lemma RootsDarkened(m: Memory, chunks: seq<Chunk>, c: Cycle, known: set<int>, done: seq<Word>)
    requires SnapshotKept(m, chunks, c, known, Starting(done)) && done == c.roots
    ensures SnapshotKept(m, chunks, c, known, Between)
  {
    hide Refers, ValidCycle, FieldIn;
    forall b, f, t | b in c.live && FieldIn(c.mem, b, f) && 0 <= f < |c.mem| && Refers(chunks, c.mem[f], t)
      ensures Seen(m, c, Between, b, f, t)
    {
      assert Seen(m, c, Starting(done), b, f, t);
    }
  }

  // The steps of the program.

  lemma FieldValue(m: Memory, chunks: seq<Chunk>, heads: set<int>, roots: seq<Word>, known: set<int>, b: int, s: int)
    requires HeapOk(m, chunks, heads, roots, known) && b in known && FieldIn(m, b, s)
    ensures !m[s].IsHeader() && (forall h :: Refers(chunks, m[s], h) ==> h in known)
    ensures s !in heads && b in heads
  {
    hide Layout, Refers;
    FieldFacts(m, chunks, heads, b, s);
    assert GoodWord(chunks, known, m[s]);
  }

  lemma StoreFieldIn(m: Memory, m': Memory, chunks: seq<Chunk>, heads: set<int>, fp: int, val: Word)
    requires Layout(m, chunks, heads) && 0 <= fp < |m| && fp !in heads && m' == m[fp := val]
    ensures forall h, s :: h in heads ==> (FieldIn(m', h, s) <==> FieldIn(m, h, s))
    ensures forall h, s :: FieldIn(m, h, s) ==> 0 <= s < |m|
  {
    hide Layout;
    HeadsInMemory(m, chunks, heads);
  }

  lemma StoreHeap(m: Memory, m': Memory, chunks: seq<Chunk>, heads: set<int>, roots: seq<Word>, known: set<int>, b: int, fp: int, val: Word)
    requires HeapOk(m, chunks, heads, roots, known) && b in known && FieldIn(m, b, fp) && m' == m[fp := val]
    requires GoodWord(chunks, known, val)
    ensures HeapOk(m', chunks, heads, roots, known)
  {
    hide Layout, GoodWord, FieldIn;
    FieldFacts(m, chunks, heads, b, fp);
    HeadsInMemory(m, chunks, heads);
    LayoutSameSizes(m, m', chunks, heads);
    StoreFieldIn(m, m', chunks, heads, fp, val);
  }

  /** A store into a field: for the moment, nothing is said about what the field held. */
  lemma StoreKeeps(m: Memory, m': Memory, chunks: seq<Chunk>, heads: set<int>, roots: seq<Word>, c: Cycle, known: set<int>, b: int, fp: int, val: Word)
    requires HeapOk(m, chunks, heads, roots, known) && SnapshotKept(m, chunks, c, known, Between)
    requires b in known && FieldIn(m, b, fp) && m' == m[fp := val]
    requires GoodWord(chunks, known, val)
    ensures SnapshotKept(m', chunks, c, known, Storing(fp))
  {
    hide Layout, Refers, ValidCycle, FieldIn, GoodWord, HeapOk;
    FieldValue(m, chunks, heads, roots, known, b, fp);
    assert 0 <= fp < |m| by { FieldInMemory(m, b, fp); }
    assert forall h :: NotWhite(m, h) ==> NotWhite(m', h);
    KnownHeads(m, chunks, heads, roots, known);
    forall h, f, t | h in c.live && FieldIn(c.mem, h, f) && 0 <= f < |c.mem| && Refers(chunks, c.mem[f], t)
      ensures Seen(m', c, Storing(fp), h, f, t)
    {
      assert Seen(m, c, Between, h, f, t);
      SnapshotField(m, chunks, heads, roots, c, known, h, f);
    }
  }

  /** What the field held has been darkened: the snapshot is kept. */
  lemma StoreDone(m: Memory, m': Memory, chunks: seq<Chunk>, c: Cycle, known: set<int>, fp: int)
    requires SnapshotKept(m, chunks, c, known, Between) && SnapshotKept(m', chunks, c, known, Storing(fp))
    requires 0 <= fp < |m| && forall t :: Refers(chunks, m[fp], t) ==> NotWhite(m', t)
    requires forall t :: NotWhite(m, t) ==> NotWhite(m', t)
    ensures SnapshotKept(m', chunks, c, known, Between)
  {
    hide Refers, ValidCycle, FieldIn;
    forall h, f, t | h in c.live && FieldIn(c.mem, h, f) && 0 <= f < |c.mem| && Refers(chunks, c.mem[f], t)
      ensures Seen(m', c, Between, h, f, t)
    {
      assert Seen(m, c, Between, h, f, t);
      assert Seen(m', c, Storing(fp), h, f, t);
    }
  }

  lemma FieldInMemory(m: Memory, b: int, s: int)
    requires FieldIn(m, b, s)
    ensures 0 <= s < |m|
  {
  }

  lemma KnownHeads(m: Memory, chunks: seq<Chunk>, heads: set<int>, roots: seq<Word>, known: set<int>)
    requires HeapOk(m, chunks, heads, roots, known)
    ensures forall h :: h in known ==> h in heads && 0 <= h < |m| && m[h].Hdr? && m[h].color != Blue
  {
  }
}
