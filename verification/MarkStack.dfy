/** The stack of gray blocks, which may overflow, and the scan of the heap that makes up for it. */
module MarkStack {
  import opened Words
  import opened Tiling
  import opened BlockLayout
  import opened LinkedWords
  import opened Marking

  /** The address up to which the heap has been scanned for gray blocks, if it is being scanned. */
  datatype ScanPoint = NoScan | ScanAt(hp: int)

  /** The stack holds gray blocks, each once. When the heap is pure, every other gray block
      lies at or beyond the point the scan has reached. */
  ghost predicate StackOk(m: Memory, heads: set<int>, known: set<int>, stack: seq<int>, pure: bool, at: ScanPoint) {
    && NoDup(stack)
    && (forall v :: v in stack ==> v - 1 in heads && HasColor(m, v - 1, Gray))
    && (forall h :: h in heads && HasColor(m, h, Gray) ==> h in known)
    && (pure ==> forall h :: h in heads && HasColor(m, h, Gray) ==> h + 1 in stack || (at.ScanAt? && h >= at.hp))
  }

  /** A white block is made gray and pushed. */
  lemma PushGray(m: Memory, m': Memory, heads: set<int>, known: set<int>, stack: seq<int>, pure: bool, at: ScanPoint, h: int)
    requires StackOk(m, heads, known, stack, pure, at) && h in heads && h in known
    requires HasColor(m, h, White) && Recolored(m, m', h, Gray)
    ensures StackOk(m', heads, known, stack + [h + 1], pure, at)
  {
    var stack' := stack + [h + 1];
    forall b | HasColor(m', b, Gray) ensures b == h || HasColor(m, b, Gray) { }
    assert stack'[|stack|] == h + 1;
    assert forall i :: 0 <= i < |stack| ==> stack'[i] == stack[i] && stack[i] in stack;
    forall v | v in stack ensures v != h + 1 && v in stack' { assert HasColor(m, v - 1, Gray); }
    forall v | v in stack' ensures v in stack || v == h + 1 { }
  }

  /** The stack is cut: gray blocks are forgotten, so the heap is not pure. */
  lemma CutStack(m: Memory, heads: set<int>, known: set<int>, stack: seq<int>, pure: bool, at: ScanPoint, n: nat)
    requires StackOk(m, heads, known, stack, pure, at) && n <= |stack|
    ensures StackOk(m, heads, known, stack[..n], false, at)
  {
    forall v | v in stack[..n] ensures v in stack { }
  }

  lemma PopGray(m: Memory, m': Memory, heads: set<int>, known: set<int>, stack: seq<int>, pure: bool, at: ScanPoint)
    requires StackOk(m, heads, known, stack, pure, at) && |stack| > 0
    requires Recolored(m, m', stack[|stack| - 1] - 1, Black)
    ensures StackOk(m', heads, known, stack[..|stack| - 1], pure, at)
  {
    var n := |stack| - 1;
    var rest, v := stack[..n], stack[n];
    assert v !in rest;
    forall b | HasColor(m', b, Gray) ensures b != v - 1 && HasColor(m, b, Gray) { }
    forall u | u in rest ensures u in stack && u != v { }
    forall u | u in stack && u != v ensures u in rest { }
  }

  /** The scan passes the block at `h`, which it pushes if it is gray. */
  lemma ScanBlock(m: Memory, chunks: seq<Chunk>, heads: set<int>, known: set<int>, h: int, pure: bool)
    requires Layout(m, chunks, heads) && h in heads && StackOk(m, heads, known, [], pure, ScanAt(h))
    ensures StackOk(m, heads, known, if HasColor(m, h, Gray) then [h + 1] else [], pure, ScanAt(BlockEnd(m, h)))
  {
    hide BlockOk, EndsWell, ChunksOk;
  }

  lemma ScanGap(m: Memory, chunks: seq<Chunk>, heads: set<int>, known: set<int>, k: nat, pure: bool)
    requires Layout(m, chunks, heads) && k < |chunks| && StackOk(m, heads, known, [], pure, ScanAt(chunks[k].End()))
    ensures StackOk(m, heads, known, [], pure, if k + 1 < |chunks| then ScanAt(chunks[k + 1].start) else NoScan)
  {
    forall h | h in heads && h >= chunks[k].End()
      ensures k + 1 < |chunks| && h >= chunks[k + 1].start
    {
      HeadBeyond(m, chunks, heads, k, h);
    }
  }

  lemma HeadBeyond(m: Memory, chunks: seq<Chunk>, heads: set<int>, k: nat, h: int)
    requires Layout(m, chunks, heads) && k < |chunks| && h in heads && h >= chunks[k].End()
    ensures k + 1 < |chunks| && h >= chunks[k + 1].start
  {
    hide Layout, EndsWell;
    GetBlock(m, chunks, heads, h);
    var j :| BlockInChunk(m, chunks, h, j);
    if j > k + 1 {
      assert chunks[k + 1].End() < chunks[j].start;
    }
  }

  /** A scan starts anew: it has the whole heap before it. */
  lemma ScanStarts(m: Memory, chunks: seq<Chunk>, heads: set<int>, known: set<int>)
    requires Layout(m, chunks, heads) && |chunks| > 0 && StackOk(m, heads, known, [], false, NoScan)
    ensures StackOk(m, heads, known, [], true, ScanAt(chunks[0].start))
  {
    forall h | h in heads ensures h >= chunks[0].start {
      HeadAfterStart(m, chunks, heads, h);
    }
  }

  lemma HeadAfterStart(m: Memory, chunks: seq<Chunk>, heads: set<int>, h: int)
    requires Layout(m, chunks, heads) && h in heads
    ensures |chunks| > 0 && h >= chunks[0].start
  {
    hide Layout, EndsWell;
    GetBlock(m, chunks, heads, h);
    var j :| BlockInChunk(m, chunks, h, j);
    if j > 0 {
      assert chunks[0].End() < chunks[j].start;
    }
  }

  /** Marking is done when there is nothing on the stack, nothing to scan, and nothing forgotten. */
  lemma NothingGray(m: Memory, heads: set<int>, known: set<int>)
    requires StackOk(m, heads, known, [], true, NoScan)
    ensures NoGray(m, heads)
  {
  }
}
