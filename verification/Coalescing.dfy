/** Giving a swept block back to the free list, and merging it with its free neighbours. */
module Coalescing {
  import opened Words
  import opened BlockLayout
  import opened LinkedWords
  import opened Marking
  import opened FreeBlocks

  /** The first `j` free blocks lie below `p`, the others do not. */
  ghost predicate MergePoint(list: seq<int>, j: nat, p: int) {
    && j <= |list|
    && (forall i :: 0 <= i < j ==> list[i] - 1 < p)
    && (forall i :: j <= i < |list| ==> list[i] - 1 >= p)
  }

  /** A white block is not on the list, so it may as well be excepted. */
  lemma ExceptWhite(m: Memory, chunks: seq<Chunk>, heads: set<int>, head: int, list: seq<int>, x: int)
    requires FreeListOk(m, chunks, heads, head, list, NONE) && x in heads && !HasColor(m, x, Blue)
    ensures FreeListOk(m, chunks, heads, head, list, x)
  {
    hide Links;
  }

  lemma UnexceptWhite(m: Memory, chunks: seq<Chunk>, heads: set<int>, head: int, list: seq<int>, x: int)
    requires FreeListOk(m, chunks, heads, head, list, x) && !HasColor(m, x, Blue) && -1 !in heads
    ensures FreeListOk(m, chunks, heads, head, list, NONE)
  {
    hide Links;
  }

  /** The fragment whose header is at `f` is merged with the white block `h` that follows it. */
  lemma MergeFragment(m: Memory, chunks: seq<Chunk>, heads: set<int>, head: int, list: seq<int>, f: int, h: int)
    requires Layout(m, chunks, heads) && FreeListOk(m, chunks, heads, head, list, NONE)
    requires f in heads && h in heads && h == f + 1 && HasColor(m, f, White) && m[f].size == 0 && HasColor(m, h, White)
    ensures 0 <= f < |m| && m[h].Hdr?
    ensures var m' := m[f := Hdr(m[h].size + 1, 0, White)];
      && Layout(m', chunks, heads - {h}) && FreeListOk(m', chunks, heads - {h}, head, list, NONE)
      && BlockEnd(m', f) == BlockEnd(m, h)
  {
    hide Layout, Links, Ascending, BlockEnd, SentinelOk;
    EndOf(m, f);
    EndOf(m, h);
    var m' := m[f := Hdr(m[h].size + 1, 0, White)];
    EndOf(m', f);
    MergeLayout(m, m', chunks, heads, f, h);
    NotANode(m, chunks, heads, head, list, NONE, f);
    ListFrame(m, m', chunks, heads, head, list, NONE);
  }

  /** A header is neither the sentinel nor a link. */
  lemma NotANode(m: Memory, chunks: seq<Chunk>, heads: set<int>, head: int, list: seq<int>, except: int, h: int)
    requires Layout(m, chunks, heads) && FreeListOk(m, chunks, heads, head, list, except) && h in heads
    ensures h != head && h != head - 1 && h !in list && 0 <= h < |m| && 1 <= head < |m|
  {
    hide Layout, Links, Ascending;
    BlockInMemory(m, chunks, heads, h);
    if h in list {
      NodeFacts(m, chunks, heads, head, list, except, h);
    }
  }

  ghost predicate CanMergeNext(m: Memory, p: int, cur: int, x: int) {
    0 <= p < |m| && 1 <= cur < |m| && 0 <= x < |m| && m[x].Hdr? && m[cur - 1].Hdr?
  }

  /** The memory after the block `x` has absorbed the free block `cur`, which followed `p`. */
  ghost function NextMerged(m: Memory, p: int, cur: int, x: int): Memory {
    if CanMergeNext(m, p, cur, x) then m[p := m[cur]][x := Hdr(m[x].size + m[cur - 1].size + 1, 0, Blue)] else m
  }

  /** The block `x` absorbs the free block that follows it, which leaves the list. */
  lemma MergeNext(m: Memory, chunks: seq<Chunk>, heads: set<int>, head: int, list: seq<int>, j: nat, x: int)
    requires Layout(m, chunks, heads) && FreeListOk(m, chunks, heads, head, list, NONE) && j < |list|
    requires x in heads && HasColor(m, x, White) && BlockEnd(m, x) == list[j] - 1
    ensures CanMergeNext(m, Node(head, list, j), list[j], x)
    ensures var m' := NextMerged(m, Node(head, list, j), list[j], x);
      && Layout(m', chunks, heads - {list[j] - 1})
      && FreeListOk(m', chunks, heads - {list[j] - 1}, head, list[..j] + list[j + 1..], x)
      && BlockEnd(m', x) == BlockEnd(m, list[j] - 1)
  {
    hide Layout, Links, Ascending, BlockEnd, SentinelOk;
    var cur, p := list[j], Node(head, list, j);
    assert cur in list;
    NodeFacts(m, chunks, heads, head, list, NONE, cur);
    PrevFacts(m, chunks, heads, head, list, NONE, j);
    Unlink(m, head, list, j);
    EndOf(m, x);
    EndOf(m, cur - 1);
    HeadsInMemory(m, chunks, heads);
    var m1 := m[p := m[cur]];
    var m' := m1[x := Hdr(m[x].size + m[cur - 1].size + 1, 0, Blue)];
    EndOf(m', x);
    MergeLayout(m, m', chunks, heads, x, cur - 1);
    MergeNextList(m, m1, m', chunks, heads, head, list, j, x);
  }

  lemma MergeNextList(m: Memory, m1: Memory, m': Memory, chunks: seq<Chunk>, heads: set<int>, head: int, list: seq<int>, j: nat, x: int)
    requires j < |list| && 0 <= x < |m| && x in heads && HasColor(m, x, White)
    requires 0 <= Node(head, list, j) < |m| && 0 <= list[j] < |m| && m1 == m[Node(head, list, j) := m[list[j]]]
    requires Layout(m, chunks, heads) && FreeListOk(m, chunks, heads, head, list, NONE)
    requires Links(m1, head, list[..j] + list[j + 1..], Ptr(0))
    requires |m'| == |m| && (forall a :: 0 <= a < |m| && a != x ==> m'[a] == m1[a])
    ensures FreeListOk(m', chunks, heads - {list[j] - 1}, head, list[..j] + list[j + 1..], x)
  {
    hide Layout, Links, BlockEnd;
    var rest := list[..j] + list[j + 1..];
    PrevFacts(m, chunks, heads, head, list, NONE, j);
    NotANode(m, chunks, heads, head, list, NONE, x);
    forall b | b in rest ensures b in list && b != list[j] { }
    forall b | b in list
      ensures 1 <= b < |m| && b != x && b - 1 != x && b - 1 != Node(head, list, j) && m1[b - 1] == m[b - 1]
      ensures b != list[j] ==> b in rest && FreeBlock(m', heads - {list[j] - 1}, b)
    {
      NodeFacts(m, chunks, heads, head, list, NONE, b);
    }
    LinksFrame(m1, m', head, rest, Ptr(0));
    HeadsInMemory(m, chunks, heads);
  }

  /** The free block `p` absorbs the block `x` that follows it. */
  lemma MergePrev(m: Memory, chunks: seq<Chunk>, heads: set<int>, head: int, list: seq<int>, b: int, x: int)
    requires Layout(m, chunks, heads) && FreeListOk(m, chunks, heads, head, list, x) && b in list
    requires x in heads && BlockEnd(m, b - 1) == x
    ensures 1 <= b <= |m| && m[b - 1].Hdr? && 0 <= x < |m| && m[x].Hdr?
    ensures var m' := m[b - 1 := Hdr(m[b - 1].size + m[x].size + 1, 0, Blue)];
      && Layout(m', chunks, heads - {x}) && FreeListOk(m', chunks, heads - {x}, head, list, NONE)
      && BlockEnd(m', b - 1) == BlockEnd(m, x)
  {
    hide Layout, Links, Ascending, BlockEnd, SentinelOk;
    NodeFacts(m, chunks, heads, head, list, x, b);
    BlockInMemory(m, chunks, heads, x);
    EndOf(m, x);
    var m' := m[b - 1 := Hdr(m[b - 1].size + m[x].size + 1, 0, Blue)];
    EndOf(m', b - 1);
    MergeLayout(m, m', chunks, heads, b - 1, x);
    NotANode(m, chunks, heads, head, list, x, b - 1);
    ListFrame(m, m', chunks, heads, head, list, x);
    HeadsInMemory(m, chunks, heads);
    BlockInMemory(m, chunks, heads, b - 1);
  }

  lemma Relink(m: Memory, head: int, list: seq<int>, j: nat, b: int)
    requires Links(m, head, list, Ptr(0)) && j <= |list| && Ascending(list) && head !in list
    requires 0 <= b < |m| && b != head && b !in list && 0 <= Node(head, list, j) < |m|
    ensures Links(m[b := if j < |list| then Ptr(list[j]) else Ptr(0)][Node(head, list, j) := Ptr(b)], head, list[..j] + [b] + list[j..], Ptr(0))
  {
    hide Links;
    var c, p := list[..j] + [b] + list[j..], Node(head, list, j);
    LinksHead(m, head, list, Ptr(0));
    if j > 0 {
      LinksAt(m, head, list, Ptr(0), j - 1);
    }
    var m' := m[b := if j < |list| then Ptr(list[j]) else Ptr(0)][p := Ptr(b)];
    forall i | 0 <= i <= |c|
      ensures 0 <= Node(head, c, i) < |m'| && m'[Node(head, c, i)] == (if i < |c| then Ptr(c[i]) else Ptr(0))
    {
      if 0 < i < j {
        LinksAt(m, head, list, Ptr(0), i - 1);
        assert Node(head, c, i) == list[i - 1] && list[i - 1] in list;
      } else if i > j + 1 {
        LinksAt(m, head, list, Ptr(0), i - 2);
        assert Node(head, c, i) == list[i - 2] && list[i - 2] in list;
      }
    }
    LinksFrom(m', head, c, Ptr(0));
  }

  /** The block `x` is put on the list, before the `j`th block. */
  lemma InsertBlock(m: Memory, chunks: seq<Chunk>, heads: set<int>, head: int, list: seq<int>, j: nat, x: int)
    requires Layout(m, chunks, heads) && FreeListOk(m, chunks, heads, head, list, x) && MergePoint(list, j, x)
    requires x in heads && 0 <= x < |m| && m[x].Hdr? && m[x].size != 0
    ensures x + 1 < |m| && 0 <= Node(head, list, j) < |m|
    ensures var m' := m[x := m[x].(color := Blue)][x + 1 := if j < |list| then Ptr(list[j]) else Ptr(0)][Node(head, list, j) := Ptr(x + 1)];
      && Layout(m', chunks, heads)
      && FreeListOk(m', chunks, heads, head, list[..j] + [x + 1] + list[j..], NONE)
      && BlockEnd(m', x) == BlockEnd(m, x)
  {
    hide Layout, Links, Ascending, BlockEnd, SentinelOk;
    BlockInMemory(m, chunks, heads, x);
    NotANode(m, chunks, heads, head, list, x, x);
    PrevFacts(m, chunks, heads, head, list, x, j);
    NoHeaderInside(m, chunks, heads, x, x + 1);
    OutsideList(m, chunks, heads, head, list, x);
    var p, next := Node(head, list, j), if j < |list| then Ptr(list[j]) else Ptr(0);
    var m1 := m[x := m[x].(color := Blue)];
    LinksFrame(m, m1, head, list, Ptr(0));
    Relink(m1, head, list, j, x + 1);
    var m' := m1[x + 1 := next][p := Ptr(x + 1)];
    HeadsInMemory(m, chunks, heads);
    LayoutSameSizes(m, m', chunks, heads);
    EndOf(m, x);
    EndOf(m', x);
    InsertedList(m, m', chunks, heads, head, list, j, x);
  }

  /** The first word of a block that is not on the list is not a link. */
  lemma OutsideList(m: Memory, chunks: seq<Chunk>, heads: set<int>, head: int, list: seq<int>, x: int)
    requires Layout(m, chunks, heads) && FreeListOk(m, chunks, heads, head, list, x)
    requires x in heads && 0 <= x < |m| && m[x].Hdr? && m[x].size != 0
    ensures x + 1 < |m| && x + 1 !in list && x + 1 != head && x + 1 != head - 1
  {
    hide Layout, Links, Ascending;
    BlockInMemory(m, chunks, heads, x);
    WordInHeap(m, chunks, heads, x, x + 1);
  }

  lemma InsertedList(m: Memory, m': Memory, chunks: seq<Chunk>, heads: set<int>, head: int, list: seq<int>, j: nat, x: int)
    requires Layout(m, chunks, heads) && FreeListOk(m, chunks, heads, head, list, x) && MergePoint(list, j, x)
    requires x in heads && 0 <= x && x + 1 < |m| && m[x].Hdr? && m[x].size != 0
    requires |m'| == |m| && m'[x] == m[x].(color := Blue)
    requires forall a :: 0 <= a < |m| && a != x && a != x + 1 && a != Node(head, list, j) ==> m'[a] == m[a]
    requires Links(m', head, list[..j] + [x + 1] + list[j..], Ptr(0))
    ensures FreeListOk(m', chunks, heads, head, list[..j] + [x + 1] + list[j..], NONE)
  {
    hide Layout, Links, BlockEnd;
    var c := list[..j] + [x + 1] + list[j..];
    NotANode(m, chunks, heads, head, list, x, x);
    OutsideList(m, chunks, heads, head, list, x);
    PrevFacts(m, chunks, heads, head, list, x, j);
    HeadsInMemory(m, chunks, heads);
    BlockInMemory(m, chunks, heads, x);
    forall h | h in heads && h != x ensures m'[h] == m[h] && h != -1 {
      BlockInMemory(m, chunks, heads, h);
      NoHeaderInside(m, chunks, heads, x, x + 1);
    }
    forall b | b in c ensures b in list || b == x + 1 { }
    forall b | b in list ensures b in c && b - 1 != x {
      NodeFacts(m, chunks, heads, head, list, x, b);
    }
    InsertedOrder(list, j, x);
  }

  lemma InsertedOrder(list: seq<int>, j: nat, x: int)
    requires Ascending(list) && MergePoint(list, j, x) && x + 1 !in list
    ensures Ascending(list[..j] + [x + 1] + list[j..])
  {
    var c := list[..j] + [x + 1] + list[j..];
    forall i, k | 0 <= i < k < |c| ensures c[i] < c[k] {
      assert i < j ==> c[i] == list[i];
      assert i > j ==> c[i] == list[i - 1];
      assert k < j ==> c[k] == list[k];
      assert k > j ==> c[k] == list[k - 1] && list[k - 1] in list;
    }
  }
}
