/** The free list: its shape, and what taking a block out of it does. */
module FreeBlocks {
  import opened Words
  import opened BlockLayout
  import opened LinkedWords
  import opened Marking

  ghost predicate Ascending(c: seq<int>) {
    forall i, j :: 0 <= i < j < |c| ==> c[i] < c[j]
  }

  /** The list starts at the word `head` of a sentinel that lies outside the heap. */
  ghost predicate SentinelOk(m: Memory, chunks: seq<Chunk>, head: int) {
    1 <= head < |m| && m[head - 1] == Hdr(0, 0, Blue) && !InHeap(chunks, head) && !InHeap(chunks, head - 1)
  }

  ghost predicate FreeBlock(m: Memory, heads: set<int>, b: int) {
    b - 1 in heads && HasColor(m, b - 1, Blue) && m[b - 1].size >= 1
  }

  /** `list` holds, in address order, exactly the blue blocks; only the block whose header
      is at `except` is allowed to be in between states. */
  ghost predicate FreeListOk(m: Memory, chunks: seq<Chunk>, heads: set<int>, head: int, list: seq<int>, except: int) {
    && SentinelOk(m, chunks, head)
    && Links(m, head, list, Ptr(0))
    && Ascending(list)
    && (forall b :: b in list ==> FreeBlock(m, heads, b) && b - 1 != except)
    && (forall h :: h in heads && HasColor(m, h, Blue) && h != except ==> h + 1 in list)
  }

  const NONE := -1

  /** The memory after a block has been cut from the free block `cur`, which follows `prev`. */
  function BlockCut(m: Memory, prev: int, cur: int, wh: nat): (r: Memory)
    requires 1 <= cur < |m| && 0 <= prev < |m| && m[cur - 1].IsHeader()
    ensures |r| == |m|
  {
    var h := m[cur - 1];
    if h.size < wh + 1
    then m[prev := m[cur]][cur - 1 := Hdr(0, 0, White)]
    else m[cur - 1 := Hdr(h.size - wh, 0, Blue)]
  }

  ghost function ListAfterCut(m: Memory, list: seq<int>, j: nat, wh: nat): seq<int>
    requires j < |list| && 1 <= list[j] <= |m| && m[list[j] - 1].IsHeader()
  {
    if m[list[j] - 1].size < wh + 1 then list[..j] + list[j + 1..] else list
  }

  lemma Unlink(m: Memory, head: int, list: seq<int>, j: nat)
    requires Links(m, head, list, Ptr(0)) && j < |list| && Ascending(list) && head !in list
    ensures 0 <= list[j] < |m| && 0 <= Node(head, list, j) < |m|
    ensures Links(m[Node(head, list, j) := m[list[j]]], head, list[..j] + list[j + 1..], Ptr(0))
  {
    hide Links;
    var c, p := list[..j] + list[j + 1..], Node(head, list, j);
    LinksAt(m, head, list, Ptr(0), j);
    LinksHead(m, head, list, Ptr(0));
    if j > 0 {
      LinksAt(m, head, list, Ptr(0), j - 1);
    }
    var m' := m[p := m[list[j]]];
    forall i | 0 <= i <= |c|
      ensures 0 <= Node(head, c, i) < |m'| && m'[Node(head, c, i)] == (if i < |c| then Ptr(c[i]) else Ptr(0))
    {
      if 0 < i < j {
        LinksAt(m, head, list, Ptr(0), i - 1);
        assert Node(head, c, i) == list[i - 1];
      } else if i > j {
        LinksAt(m, head, list, Ptr(0), i);
        assert Node(head, c, i) == list[i];
      }
    }
    LinksFrom(m', head, c, Ptr(0));
  }

  /** The word through which a free block is linked belongs to that block alone. */
  lemma NodeFacts(m: Memory, chunks: seq<Chunk>, heads: set<int>, head: int, list: seq<int>, except: int, b: int)
    requires Layout(m, chunks, heads) && FreeListOk(m, chunks, heads, head, list, except) && b in list
    ensures 1 <= b < |m| && b - 1 in heads && HasColor(m, b - 1, Blue) && m[b - 1].size >= 1 && b - 1 != except
    ensures b !in heads && b != head && BlockEnd(m, b - 1) == b + m[b - 1].size <= |m|
    ensures forall h :: h in heads && h <= b < BlockEnd(m, h) ==> h == b - 1
  {
    hide Layout, Links, Ascending;
    BlockInMemory(m, chunks, heads, b - 1);
    NoHeaderInside(m, chunks, heads, b - 1, b);
    forall h | h in heads && h <= b < BlockEnd(m, h) ensures h == b - 1 {
      OneOwner(m, chunks, heads, h, b - 1, b);
    }
  }

  /** The links are untouched by a change that spares the sentinel and the first words of free blocks. */
  lemma ListFrame(m: Memory, m': Memory, chunks: seq<Chunk>, heads: set<int>, head: int, list: seq<int>, except: int)
    requires FreeListOk(m, chunks, heads, head, list, except) && |m'| == |m|
    requires m'[head] == m[head] && m'[head - 1] == m[head - 1]
    requires forall b :: b in list && 0 <= b < |m| ==> m'[b] == m[b]
    ensures SentinelOk(m', chunks, head) && Links(m', head, list, Ptr(0))
  {
    hide Links;
    LinksFrame(m, m', head, list, Ptr(0));
  }

  /** A free block is cut, and its end becomes an allocated block; the rest stays free. */
  lemma CutLarge(m: Memory, chunks: seq<Chunk>, heads: set<int>, head: int, list: seq<int>, j: nat, wo: nat, tag: nat, color: Color)
    requires j < |list| && 1 <= list[j] < |m| && m[list[j] - 1].Hdr? && m[list[j] - 1].size >= wo + 2 && color != Blue
    requires Layout(m, chunks, heads) && FreeListOk(m, chunks, heads, head, list, NONE)
    ensures var cur := list[j];
      var hp := cur + m[cur - 1].size - (wo + 1);
      && hp < |m|
      && var m' := m[cur - 1 := Hdr(m[cur - 1].size - (wo + 1), 0, Blue)][hp := Hdr(wo, tag, color)];
      Layout(m', chunks, heads + {hp}) && FreeListOk(m', chunks, heads + {hp}, head, list, NONE)
  {
    hide Layout, Links, Ascending, BlockEnd;
    var cur := list[j];
    assert cur in list;
    NodeFacts(m, chunks, heads, head, list, NONE, cur);
    var h, hp := cur - 1, cur + m[cur - 1].size - (wo + 1);
    var m' := m[h := Hdr(m[h].size - (wo + 1), 0, Blue)][hp := Hdr(wo, tag, color)];
    EndOf(m', h);
    EndOf(m', hp);
    HeadsInMemory(m, chunks, heads);
    NoHeaderInside(m, chunks, heads, h, hp);
    SplitLayout(m, m', chunks, heads, h, hp);
    WordInHeap(m, chunks, heads, h, h);
    WordInHeap(m, chunks, heads, h, hp);
    forall b | b in list ensures 0 <= b < |m| && m'[b] == m[b] && (b - 1 != h ==> b - 1 != hp && m'[b - 1] == m[b - 1]) {
      NodeFacts(m, chunks, heads, head, list, NONE, b);
    }
    ListFrame(m, m', chunks, heads, head, list, NONE);
  }

  lemma EndOf(m: Memory, h: int)
    requires 0 <= h < |m| && m[h].Hdr?
    ensures BlockEnd(m, h) == h + 1 + m[h].size
  {
  }

  lemma PrevFacts(m: Memory, chunks: seq<Chunk>, heads: set<int>, head: int, list: seq<int>, except: int, j: nat)
    requires Layout(m, chunks, heads) && FreeListOk(m, chunks, heads, head, list, except) && j <= |list|
    ensures var p := Node(head, list, j); 0 <= p < |m| && p !in heads && p != head - 1
    ensures head !in list && head !in heads && head - 1 !in heads
    ensures m[Node(head, list, j)] == if j < |list| then Ptr(list[j]) else Ptr(0)
  {
    hide Layout, Links, Ascending;
    var p := Node(head, list, j);
    LinksHead(m, head, list, Ptr(0));
    if head in heads {
      BlockInMemory(m, chunks, heads, head);
    }
    if head - 1 in heads {
      BlockInMemory(m, chunks, heads, head - 1);
    }
    if head in list {
      NodeFacts(m, chunks, heads, head, list, except, head);
    }
    if j > 0 {
      NodeFacts(m, chunks, heads, head, list, except, p);
      BlockInMemory(m, chunks, heads, p - 1);
      LinksAt(m, head, list, Ptr(0), j - 1);
    }
  }

  /** A free block that is just big enough, or one word bigger, leaves the list. A word
      that is left over stays behind as an empty white block. */
  lemma CutSmall(m: Memory, chunks: seq<Chunk>, heads: set<int>, head: int, list: seq<int>, j: nat, wo: nat, tag: nat, color: Color)
    requires j < |list| && 1 <= list[j] < |m| && m[list[j] - 1].Hdr? && wo <= m[list[j] - 1].size <= wo + 1 && color != Blue
    requires Layout(m, chunks, heads) && FreeListOk(m, chunks, heads, head, list, NONE)
    ensures var cur := list[j];
      var hp := cur + m[cur - 1].size - (wo + 1);
      && 0 <= hp < |m| && 0 <= Node(head, list, j) < |m|
      && var m' := m[Node(head, list, j) := m[cur]][cur - 1 := Hdr(0, 0, White)][hp := Hdr(wo, tag, color)];
      Layout(m', chunks, heads + {hp}) && FreeListOk(m', chunks, heads + {hp}, head, list[..j] + list[j + 1..], NONE)
  {
    hide Layout, Links, Ascending, BlockEnd, SentinelOk;
    var cur := list[j];
    assert cur in list;
    NodeFacts(m, chunks, heads, head, list, NONE, cur);
    PrevFacts(m, chunks, heads, head, list, NONE, j);
    Unlink(m, head, list, j);
    var h, hp, p := cur - 1, cur + m[cur - 1].size - (wo + 1), Node(head, list, j);
    var m1 := m[p := m[cur]];
    var m' := m1[h := Hdr(0, 0, White)][hp := Hdr(wo, tag, color)];
    HeadsInMemory(m, chunks, heads);
    EndOf(m', h);
    EndOf(m', hp);
    if hp == h {
      LayoutSameSizes(m, m', chunks, heads);
      assert heads + {hp} == heads;
    } else {
      SplitLayout(m, m', chunks, heads, h, hp);
    }
    CutSmallList(m, m1, m', chunks, heads, head, list, j, h, hp);
  }

  lemma CutSmallList(m: Memory, m1: Memory, m': Memory, chunks: seq<Chunk>, heads: set<int>, head: int, list: seq<int>, j: nat, h: int, hp: int)
    requires j < |list| && h == list[j] - 1 && (hp == h || hp == h + 1) && 0 <= h && hp < |m|
    requires 0 <= Node(head, list, j) < |m| && 0 <= list[j] < |m| && m1 == m[Node(head, list, j) := m[list[j]]]
    requires Layout(m, chunks, heads) && FreeListOk(m, chunks, heads, head, list, NONE)
    requires Links(m1, head, list[..j] + list[j + 1..], Ptr(0))
    requires |m'| == |m| && (forall a :: 0 <= a < |m| && a != h && a != hp ==> m'[a] == m1[a])
    requires m'[h].Hdr? && m'[h].color != Blue && m'[hp].Hdr? && m'[hp].color != Blue
    ensures FreeListOk(m', chunks, heads + {hp}, head, list[..j] + list[j + 1..], NONE)
  {
    hide Layout, Links, BlockEnd;
    var rest := list[..j] + list[j + 1..];
    PrevFacts(m, chunks, heads, head, list, NONE, j);
    forall b | b in rest ensures b in list && b != list[j] { }
    forall b | b in list
      ensures 1 <= b < |m| && b != h && b - 1 != Node(head, list, j) && m1[b - 1] == m[b - 1]
      ensures b != list[j] ==> b - 1 != h && b in rest
      ensures b != list[j] ==> b - 1 != hp && FreeBlock(m', heads + {hp}, b)
    {
      NodeFacts(m, chunks, heads, head, list, NONE, b);
      NodeFacts(m, chunks, heads, head, list, NONE, list[j]);
    }
    assert list[j] in list;
    NotSentinel(m, chunks, heads, head, list, list[j]);
    LinksFrame(m1, m', head, rest, Ptr(0));
    HeadsInMemory(m, chunks, heads);
  }

  lemma NotSentinel(m: Memory, chunks: seq<Chunk>, heads: set<int>, head: int, list: seq<int>, b: int)
    requires Layout(m, chunks, heads) && FreeListOk(m, chunks, heads, head, list, NONE) && b in list
    ensures b != head && b != head - 1 && b - 1 != head && b - 1 != head - 1
  {
    hide Layout, Links, Ascending;
    BlockInMemory(m, chunks, heads, b - 1);
    WordInHeap(m, chunks, heads, b - 1, b);
    WordInHeap(m, chunks, heads, b - 1, b - 1);
  }
}
