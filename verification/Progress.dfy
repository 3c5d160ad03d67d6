/** How much work is left to the marker. */
module Progress {
  import opened Words
  import opened BlockLayout
  import opened Marking

  /** Nothing but colours has changed. */
  ghost predicate OnlyColors(m: Memory, m': Memory, heads: set<int>) {
    && |m'| == |m|
    && (forall a :: 0 <= a < |m| && a !in heads ==> m'[a] == m[a])
    && (forall h :: h in heads && 0 <= h < |m| && m[h].Hdr? ==> m'[h].Hdr? && m'[h].size == m[h].size && m'[h].tag == m[h].tag)
  }

  /** The blocks that the marker may still have to make black. */
  ghost function NonBlack(m: Memory, heads: set<int>): set<int> {
    set h | h in heads && (HasColor(m, h, White) || HasColor(m, h, Gray))
  }

  ghost predicate InSome(m: Memory, blocks: set<int>, a: int) {
    exists h :: h in blocks && h <= a < BlockEnd(m, h)
  }

  /** Their words. */
  ghost function WordsOf(m: Memory, blocks: set<int>): set<int> {
    set a | 0 <= a < |m| && InSome(m, blocks, a)
  }

  ghost function Span(lo: int, hi: int): set<int>
    decreases hi - lo
  {
    if lo < hi then {lo} + Span(lo + 1, hi) else {}
  }

  lemma {:induction false} SpanSize(lo: int, hi: int)
    ensures |Span(lo, hi)| == if lo < hi then hi - lo else 0
    ensures forall a :: a in Span(lo, hi) <==> lo <= a < hi
    decreases hi - lo
  {
    if lo < hi {
      SpanSize(lo + 1, hi);
    }
  }

  lemma {:induction false} SmallerSet(s: set<int>, t: set<int>)
    requires forall x :: x in s ==> x in t
    ensures |s| <= |t|
  {
    if s != {} {
      assert (forall x :: x !in s) ==> s == {};
      var x :| x in s;
      SmallerSet(s - {x}, t - {x});
    }
  }

  lemma WordsBound(m: Memory, blocks: set<int>)
    ensures |WordsOf(m, blocks)| <= |m|
  {
    SpanSize(0, |m|);
    SmallerSet(WordsOf(m, blocks), Span(0, |m|));
  }

  /** Making `h` black leaves as many words less as it has. */
  lemma LessWork(m: Memory, m': Memory, chunks: seq<Chunk>, heads: set<int>, h: int)
    requires Layout(m, chunks, heads) && OnlyColors(m, m', heads)
    requires h in NonBlack(m, heads) && NonBlack(m', heads) == NonBlack(m, heads) - {h}
    ensures 0 <= h < |m| == |m'| && m[h].Hdr? && m'[h].Hdr? && m'[h].size == m[h].size
    ensures |WordsOf(m', NonBlack(m', heads))| + m[h].size + 1 <= |WordsOf(m, NonBlack(m, heads))|
  {
    hide Layout, OnlyColors;
    BlockInMemory(m, chunks, heads, h);
    var before, after, own := WordsOf(m, NonBlack(m, heads)), WordsOf(m', NonBlack(m', heads)), Span(h, BlockEnd(m, h));
    SpanSize(h, BlockEnd(m, h));
    SameEnd(m, m', chunks, heads, h);
    forall a | a in after ensures a in before && a !in own {
      var b :| b in NonBlack(m', heads) && b <= a < BlockEnd(m', b);
      SameEnd(m, m', chunks, heads, b);
      if a in own {
        OneOwner(m, chunks, heads, b, h, a);
      }
    }
    forall a | a in own ensures a in before { }
    SmallerSet(after + own, before);
    assert |after + own| == |after| + |own|;
  }

  lemma SameEnd(m: Memory, m': Memory, chunks: seq<Chunk>, heads: set<int>, h: int)
    requires Layout(m, chunks, heads) && OnlyColors(m, m', heads) && h in heads
    ensures BlockEnd(m', h) == BlockEnd(m, h) && 0 <= h < |m| == |m'| && m[h].Hdr? && m'[h].Hdr? && m'[h].size == m[h].size
  {
    hide Layout;
    BlockInMemory(m, chunks, heads, h);
  }
}
