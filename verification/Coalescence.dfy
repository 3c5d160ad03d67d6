/** Free blocks and fragments are never neighbours, except where the sweep is just at work. */
module Coalescence {
  import opened Words
  import opened BlockLayout
  import opened LinkedWords
  import opened Marking
  import opened FreeBlocks
  import opened Coalescing
  import opened Carving
  import opened Sweeping

  /** A free block, or a fragment: a block without fields. */
  ghost predicate Reusable(m: Memory, h: int) {
    0 <= h < |m| && m[h].Hdr? && (m[h].color == Blue || m[h].size == 0)
  }

  /** What the program knows has fields; what has none is white. */
  ghost predicate Small(m: Memory, heads: set<int>, known: set<int>) {
    && (forall h :: h in known ==> 0 <= h < |m| && m[h].Hdr? && m[h].size >= 1)
    && (forall h :: h in heads && 0 <= h < |m| && m[h].Hdr? && m[h].size == 0 ==> m[h].color == White)
  }

  ghost predicate Touching(m: Memory, heads: set<int>, h: int, h': int) {
    h in heads && h' in heads && BlockEnd(m, h) == h'
  }

  /** No two neighbours are reusable, unless the second is at `p`. */
  ghost predicate Coalesced(m: Memory, heads: set<int>, p: int) {
    forall h, h' {:trigger Touching(m, heads, h, h')} :: Touching(m, heads, h, h') && Reusable(m, h) && Reusable(m, h') ==> h' == p
  }

  ghost predicate EndsAt(m: Memory, heads: set<int>, h: int, p: int) {
    h in heads && BlockEnd(m, h) == p
  }

  /** A reusable block that ends where the sweep is: a fragment is remembered in `last`, and
      what follows is not free. */
  ghost predicate AtSweep(m: Memory, heads: set<int>, p: int, last: int) {
    forall h {:trigger EndsAt(m, heads, h, p)} :: EndsAt(m, heads, h, p) && Reusable(m, h) ==>
      (HasColor(m, h, White) ==> last == p) && (p in heads ==> !HasColor(m, p, Blue))
  }

  // Marking.

  lemma RecolorSmall(m: Memory, m': Memory, heads: set<int>, known: set<int>, h: int, c: Color)
    requires Small(m, heads, known) && h in known && Recolored(m, m', h, c)
    ensures Small(m', heads, known)
  {
  }

  /** While only colours change, and the free blocks stay the same, so do the neighbours. */
  lemma ColorsCoalesced(m: Memory, m': Memory, chunks: seq<Chunk>, heads: set<int>, head: int, list: seq<int>, p: int)
    requires Layout(m, chunks, heads) && SameSizes(m, m', heads) && Coalesced(m, heads, p)
    requires FreeListOk(m, chunks, heads, head, list, NONE) && FreeListOk(m', chunks, heads, head, list, NONE)
    ensures Coalesced(m', heads, p)
  {
    hide Layout, Links, Ascending, SentinelOk;
    HeadsInMemory(m, chunks, heads);
    forall h, h' | Touching(m', heads, h, h') && Reusable(m', h) && Reusable(m', h') ensures h' == p {
      SameReusable(m, m', chunks, heads, head, list, h);
      SameReusable(m, m', chunks, heads, head, list, h');
      assert Touching(m, heads, h, h');
    }
  }

  lemma SameReusable(m: Memory, m': Memory, chunks: seq<Chunk>, heads: set<int>, head: int, list: seq<int>, h: int)
    requires SameSizes(m, m', heads) && h in heads && 0 <= h < |m| && m[h].Hdr? && -1 !in heads
    requires FreeListOk(m, chunks, heads, head, list, NONE) && FreeListOk(m', chunks, heads, head, list, NONE)
    ensures Reusable(m', h) <==> Reusable(m, h)
    ensures BlockEnd(m', h) == BlockEnd(m, h)
  {
    hide Links, Ascending, SentinelOk;
    assert h + 1 in list ==> FreeBlock(m, heads, h + 1) && FreeBlock(m', heads, h + 1);
  }

  // The sweep.

  lemma SweepStartsC(m: Memory, chunks: seq<Chunk>, heads: set<int>, k: nat, p: int, last: int)
    requires Layout(m, chunks, heads) && k < |chunks| && Coalesced(m, heads, p) && p !in heads
    ensures Coalesced(m, heads, chunks[k].start) && AtSweep(m, heads, chunks[k].start, last)
  {
    hide Layout, BlockEnd;
    forall h | EndsAt(m, heads, h, chunks[k].start) && Reusable(m, h) ensures false {
      StartIsNotAfter(m, chunks, heads, h, k);
    }
  }

  /** The end of a chunk is no header, so there the exception means nothing. */
  lemma SweepEndsC(m: Memory, chunks: seq<Chunk>, heads: set<int>, k: nat)
    requires Layout(m, chunks, heads) && k < |chunks| && Coalesced(m, heads, chunks[k].End())
    ensures chunks[k].End() !in heads && Coalesced(m, heads, -1) && -1 !in heads
  {
    hide Layout, BlockEnd;
    NoMinusOne(m, chunks, heads);
    if chunks[k].End() in heads {
      NotAtEnd(m, chunks, heads, k, chunks[k].End());
    }
  }

  lemma PassFreeC(m: Memory, chunks: seq<Chunk>, heads: set<int>, p: int, last: int)
    requires Layout(m, chunks, heads) && Coalesced(m, heads, p) && AtSweep(m, heads, p, last)
    requires p in heads && HasColor(m, p, Blue) && p < BlockEnd(m, p)
    ensures Coalesced(m, heads, BlockEnd(m, p)) && AtSweep(m, heads, BlockEnd(m, p), last)
  {
    hide Layout, BlockEnd;
    forall h, h' | Touching(m, heads, h, h') && Reusable(m, h) ensures !Reusable(m, h') {
      assert EndsAt(m, heads, h, h');
    }
    forall h | EndsAt(m, heads, h, BlockEnd(m, p)) && Reusable(m, h)
      ensures (HasColor(m, h, White) ==> last == BlockEnd(m, p)) && (BlockEnd(m, p) in heads ==> !HasColor(m, BlockEnd(m, p), Blue))
    {
      if h != p {
        EndsApart(m, chunks, heads, h, p);
      }
      assert BlockEnd(m, p) in heads ==> Touching(m, heads, p, BlockEnd(m, p));
    }
  }

  /** An allocated block is passed. */
  lemma PassBlackC(m: Memory, m': Memory, chunks: seq<Chunk>, heads: set<int>, known: set<int>, p: int, last: int)
    requires Layout(m, chunks, heads) && Coalesced(m, heads, p) && Small(m, heads, known)
    requires p in heads && HasColor(m, p, Black) && Recolored(m, m', p, White) && p < BlockEnd(m, p)
    ensures Coalesced(m', heads, BlockEnd(m, p)) && AtSweep(m', heads, BlockEnd(m, p), last) && Small(m', heads, known)
  {
    hide Layout;
    HeadsInMemory(m, chunks, heads);
    forall h | h in heads ensures BlockEnd(m', h) == BlockEnd(m, h) && (Reusable(m', h) <==> Reusable(m, h)) && !Reusable(m, p) { }
    forall h, h' | Touching(m', heads, h, h') && Reusable(m', h) ensures !Reusable(m', h') {
      assert Touching(m, heads, h, h');
    }
    forall h | EndsAt(m', heads, h, BlockEnd(m, p)) && Reusable(m', h) ensures false {
      EndsApart(m, chunks, heads, h, p);
    }
  }

  // Merging.

  /** The block `x`, which ends at `adj`, has been taken in hand. Its other neighbours are as they
      should be; the one before it is free, or is the fragment remembered, or is in use. */
  ghost predicate HeldC(m: Memory, heads: set<int>, x: int, adj: int, last: int) {
    && (forall h, h' {:trigger Touching(m, heads, h, h')} :: Touching(m, heads, h, h') && h' != x && h' != adj && Reusable(m, h) ==> !Reusable(m, h'))
    && (forall h {:trigger EndsAt(m, heads, h, x)} :: EndsAt(m, heads, h, x) && Reusable(m, h) ==> HasColor(m, h, Blue) || last == x)
  }

  lemma TakeC(m: Memory, heads: set<int>, known: set<int>, p: int, last: int)
    requires Coalesced(m, heads, p) && AtSweep(m, heads, p, last) && Small(m, heads, known)
    ensures HeldC(m, heads, p, BlockEnd(m, p), last)
  {
    hide BlockEnd;
  }

  /** The headers of `heads` other than `x` are as they were. */
  lemma OthersSame(m: Memory, m': Memory, heads: set<int>, x: int)
    requires |m'| == |m| && forall h :: h in heads && h != x && 0 <= h < |m| ==> m'[h] == m[h]
    ensures forall h :: h in heads && h != x ==> BlockEnd(m', h) == BlockEnd(m, h) && (Reusable(m', h) <==> Reusable(m, h))
    ensures forall h, c :: h in heads && h != x ==> (HasColor(m', h, c) <==> HasColor(m, h, c))
  {
  }

  /** The remembered fragment `f` takes in the block `x` that follows it. */
  lemma FragmentC(m: Memory, m': Memory, chunks: seq<Chunk>, heads: set<int>, f: int, x: int, adj: int)
    requires Layout(m, chunks, heads) && HeldC(m, heads, x, adj, x) && f in heads && x in heads && x == f + 1 && x < adj
    requires Reusable(m, f) && BlockEnd(m, f) == x && BlockEnd(m', f) == adj && BlockEnd(m, x) == adj
    requires |m'| == |m| && forall h :: h in heads && h != f && 0 <= h < |m| ==> m'[h] == m[h]
    ensures HeldC(m', heads - {x}, f, adj, -1)
  {
    hide Layout, BlockEnd, Reusable;
    OthersSame(m, m', heads, f);
    var heads' := heads - {x};
    forall h, h' | Touching(m', heads', h, h') && h' != f && h' != adj && Reusable(m', h) ensures !Reusable(m', h') {
      assert Touching(m, heads, h, h');
    }
    forall h | EndsAt(m', heads', h, f) ensures !Reusable(m', h) {
      assert Touching(m, heads, h, f);
    }
  }

  /** The free block that follows `x` has been absorbed, or none follows it: in neither case is
      there a free block at `e`, where `x` now ends. */
  ghost predicate NotFreeAt(m: Memory, heads: set<int>, e: int) {
    e in heads ==> !HasColor(m, e, Blue)
  }

  /** `x` absorbs the free block `n` that follows it. */
  lemma NextC(m: Memory, m': Memory, chunks: seq<Chunk>, heads: set<int>, x: int, n: int, last: int)
    requires Layout(m, chunks, heads) && HeldC(m, heads, x, n, last) && x in heads && n in heads && BlockEnd(m, x) == n && x < n < BlockEnd(m, n)
    requires HasColor(m, n, Blue)
    requires |m'| == |m| && (forall h :: h in heads && h != x && 0 <= h < |m| ==> m'[h] == m[h]) && BlockEnd(m', x) == BlockEnd(m, n)
    ensures HeldC(m', heads - {n}, x, BlockEnd(m, n), last) && NotFreeAt(m', heads - {n}, BlockEnd(m, n))
  {
    hide Layout, BlockEnd;
    OthersSame(m, m', heads, x);
    var heads', e := heads - {n}, BlockEnd(m, n);
    forall h, h' | Touching(m', heads', h, h') && h' != x && h' != e && Reusable(m', h) ensures !Reusable(m', h') {
      if h != x {
        assert Touching(m, heads, h, h');
        NotTo(m, chunks, heads, h, x, n, h');
      }
    }
    forall h | EndsAt(m', heads', h, x) && Reusable(m', h) ensures HasColor(m', h, Blue) || last == x {
      assert h != x ==> EndsAt(m, heads, h, x);
    }
    assert e in heads ==> Touching(m, heads, n, e);
  }

  /** Only `x` ends where `n` begins. */
  lemma NotTo(m: Memory, chunks: seq<Chunk>, heads: set<int>, h: int, x: int, n: int, h': int)
    requires Layout(m, chunks, heads) && h in heads && x in heads && h != x && BlockEnd(m, x) == n && BlockEnd(m, h) == h'
    ensures h' != n
  {
    hide Layout, BlockEnd;
    EndsApart(m, chunks, heads, h, x);
  }

  /** The free block `b` before `x` absorbs it. */
  lemma PrevC(m: Memory, m': Memory, chunks: seq<Chunk>, heads: set<int>, b: int, x: int, adj: int, last: int)
    requires Layout(m, chunks, heads) && HeldC(m, heads, x, adj, -1) && NotFreeAt(m, heads, adj)
    requires b in heads && x in heads && b < x < adj && BlockEnd(m, b) == x && BlockEnd(m, x) == adj && HasColor(m, b, Blue)
    requires |m'| == |m| && (forall h :: h in heads && h != b && 0 <= h < |m| ==> m'[h] == m[h]) && BlockEnd(m', b) == adj && HasColor(m', b, Blue)
    ensures Coalesced(m', heads - {x}, adj) && AtSweep(m', heads - {x}, adj, last)
  {
    hide Layout, BlockEnd;
    OthersSame(m, m', heads, b);
    var heads' := heads - {x};
    forall h, h' | Touching(m', heads', h, h') && Reusable(m', h) && Reusable(m', h') ensures h' == adj {
      if h != b {
        assert Touching(m, heads, h, h');
      }
    }
    forall h | EndsAt(m', heads', h, adj) ensures h == b {
      if h != b {
        EndsApart(m, chunks, heads, h, x);
      }
    }
  }

  /** `x` is put on the list, or stays a fragment, which is then remembered. */
  lemma AloneC(m: Memory, m': Memory, chunks: seq<Chunk>, heads: set<int>, x: int, adj: int, last: int)
    requires Layout(m, chunks, heads) && HeldC(m, heads, x, adj, -1) && NotFreeAt(m, heads, adj)
    requires x in heads && x >= 0 && x < adj && BlockEnd(m, x) == adj && BlockEnd(m', x) == adj
    requires forall h :: EndsAt(m, heads, h, x) ==> !HasColor(m, h, Blue)
    requires |m'| == |m| && forall h :: h in heads && h != x && 0 <= h < |m| ==> m'[h] == m[h]
    requires HasColor(m', x, Blue) || last == adj
    ensures Coalesced(m', heads, adj) && AtSweep(m', heads, adj, last)
  {
    hide Layout, BlockEnd;
    OthersSame(m, m', heads, x);
    forall h, h' | Touching(m', heads, h, h') && Reusable(m', h) && Reusable(m', h') ensures h' == adj {
      if h != x {
        assert Touching(m, heads, h, h') && (h' == x ==> EndsAt(m, heads, h, x));
      }
    }
    forall h | EndsAt(m', heads, h, adj) ensures h == x {
      if h != x {
        EndsApart(m, chunks, heads, h, x);
      }
    }
  }

  // Allocation.

  /** The end of the free block `b` has become the block `hp`, which is in use. */
  lemma CarvedC(m: Memory, m': Memory, chunks: seq<Chunk>, heads: set<int>, b: int, hp: int, p: int)
    requires Layout(m, chunks, heads) && Coalesced(m, heads, p) && b in heads && HasColor(m, b, Blue) && b <= hp < BlockEnd(m, b)
    requires |m'| == |m| && (forall h :: h in heads && h != b && h != hp && 0 <= h < |m| ==> m'[h] == m[h])
    requires BlockEnd(m', hp) == BlockEnd(m, b) && !Reusable(m', hp) && (b != hp ==> BlockEnd(m', b) == hp)
    ensures Coalesced(m', heads + {hp}, p)
  {
    hide Layout, BlockEnd;
    var heads' := heads + {hp};
    if hp != b {
      NoHeaderInside(m, chunks, heads, b, hp);
    }
    forall h | h in heads && h != b ensures h != hp && BlockEnd(m', h) == BlockEnd(m, h) && (Reusable(m', h) <==> Reusable(m, h)) {
      CarvedOther(m, m', chunks, heads, b, hp, h);
    }
    forall h, h' | Touching(m', heads', h, h') && Reusable(m', h) && Reusable(m', h') ensures h' == p {
      assert h != hp && h' != hp;
      if h != b {
        assert Touching(m, heads, h, h');
      }
    }
  }

  lemma CarvedOther(m: Memory, m': Memory, chunks: seq<Chunk>, heads: set<int>, b: int, hp: int, h: int)
    requires Layout(m, chunks, heads) && b in heads && b <= hp < BlockEnd(m, b) && h in heads && h != b
    requires |m'| == |m| && (h != hp && 0 <= h < |m| ==> m'[h] == m[h])
    ensures h != hp && BlockEnd(m', h) == BlockEnd(m, h) && (Reusable(m', h) <==> Reusable(m, h))
    ensures BlockEnd(m, h) != hp || hp == b
  {
    hide Layout;
    BlockInMemory(m, chunks, heads, h);
    BlockInMemory(m, chunks, heads, b);
    if h < b {
      Apart(m, chunks, heads, h, b);
    } else {
      Apart(m, chunks, heads, b, h);
    }
  }

  lemma CarvedSweepC(m: Memory, m': Memory, chunks: seq<Chunk>, heads: set<int>, b: int, hp: int, p: int, last: int)
    requires Layout(m, chunks, heads) && AtSweep(m, heads, p, last) && b in heads && HasColor(m, b, Blue) && b <= hp < BlockEnd(m, b)
    requires |m'| == |m| && (forall h :: h in heads && h != b && h != hp && 0 <= h < |m| ==> m'[h] == m[h])
    requires BlockEnd(m', hp) == BlockEnd(m, b) && !Reusable(m', hp) && (b != hp ==> BlockEnd(m', b) == hp)
    requires p == hp ==> b == hp
    ensures AtSweep(m', heads + {hp}, p, last)
  {
    hide Layout, BlockEnd;
    var heads' := heads + {hp};
    forall h | EndsAt(m', heads', h, p) && Reusable(m', h)
      ensures (HasColor(m', h, White) ==> last == p) && (p in heads' ==> !HasColor(m', p, Blue))
    {
      if h != b {
        CarvedOther(m, m', chunks, heads, b, hp, h);
        assert EndsAt(m, heads, h, p);
      }
    }
  }

  lemma CarvedSmall(m: Memory, m': Memory, heads: set<int>, known: set<int>, b: int, hp: int)
    requires Small(m, heads, known) && b !in known && hp !in known && forall h :: h in known ==> h in heads
    requires |m'| == |m| && (forall h :: h in heads && h != b && h != hp && 0 <= h < |m| ==> m'[h] == m[h])
    requires 0 <= hp < |m| && m'[hp].Hdr? && m'[hp].size >= 1
    requires b != hp ==> 0 <= b < |m| && m'[b].Hdr? && (m'[b].size == 0 ==> m'[b].color == White)
    ensures Small(m', heads + {hp}, known)
  {
  }

  // The program.

  /** A store that spares the headers changes nothing here. */
  lemma StoreC(m: Memory, m': Memory, heads: set<int>, known: set<int>, p: int, last: int)
    requires |m'| == |m| && (forall h :: h in heads && 0 <= h < |m| ==> m'[h] == m[h]) && (forall h :: h in known ==> h in heads)
    ensures Small(m, heads, known) ==> Small(m', heads, known)
    ensures Coalesced(m, heads, p) ==> Coalesced(m', heads, p)
    ensures AtSweep(m, heads, p, last) ==> AtSweep(m', heads, p, last)
  {
    forall h | h in heads ensures BlockEnd(m', h) == BlockEnd(m, h) && (Reusable(m', h) <==> Reusable(m, h)) { }
    forall h, h' ensures Touching(m', heads, h, h') <==> Touching(m, heads, h, h') { }
    forall h ensures EndsAt(m', heads, h, p) <==> EndsAt(m, heads, h, p) { }
  }

  lemma SmallLess(m: Memory, heads: set<int>, known: set<int>, known': set<int>)
    requires Small(m, heads, known) && known' <= known
    ensures Small(m, heads, known')
  {
  }

  lemma SmallMore(m: Memory, heads: set<int>, known: set<int>, b: int)
    requires Small(m, heads, known) && 0 <= b < |m| && m[b].Hdr? && m[b].size >= 1
    ensures Small(m, heads, known + {b})
  {
  }

  // The steps of the merge.

  lemma SmallStep(m: Memory, m': Memory, heads: set<int>, heads': set<int>, known: set<int>, x: int)
    requires Small(m, heads, known) && heads' <= heads && x !in known && (forall h :: h in known ==> h in heads)
    requires |m'| == |m| && forall h :: h in heads && h != x && 0 <= h < |m| ==> m'[h] == m[h]
    requires 0 <= x < |m| && m'[x].Hdr? && (m'[x].size == 0 ==> m'[x].color == White)
    ensures Small(m', heads', known)
  {
  }

  lemma FragmentStepC(m: Memory, chunks: seq<Chunk>, heads: set<int>, roots: seq<Word>, known: set<int>, head: int, list: seq<int>, at: nat, k: nat, f: int, x: int, adj: int)
    requires Held(m, chunks, heads, roots, known, head, list, at, k, x, adj) && HeldC(m, heads, x, adj, x) && Small(m, heads, known)
    requires HasColor(m, x, White) && f in heads && x == f + 1 && HasColor(m, f, White) && m[f].size == 0 && f !in known
    ensures 0 <= f < |m| && m[x].Hdr?
    ensures var m' := m[f := Hdr(m[x].size + 1, 0, White)];
      HeldC(m', heads - {x}, f, adj, -1) && Small(m', heads - {x}, known)
  {
    hide Layout, FreeListOk, GoodWord, FieldIn, SweptTo, MergePoint, PosOk, HeldC, Small;
    SweptHeap(m, chunks, heads, roots, known);
    var m' := m[f := Hdr(m[x].size + 1, 0, White)];
    FragmentC(m, m', chunks, heads, f, x, adj);
    SmallStep(m, m', heads, heads - {x}, known, f);
  }

  /** No fragment was remembered. */
  lemma NoFragmentC(m: Memory, heads: set<int>, x: int, adj: int, last: int)
    requires HeldC(m, heads, x, adj, last) && last != x
    ensures HeldC(m, heads, x, adj, -1)
  {
  }

  lemma NextStepC(m: Memory, chunks: seq<Chunk>, heads: set<int>, roots: seq<Word>, known: set<int>, head: int, list: seq<int>, at: nat, k: nat, x: int, adj: int)
    requires Held(m, chunks, heads, roots, known, head, list, at, k, x, adj) && HeldC(m, heads, x, adj, -1) && Small(m, heads, known)
    requires HasColor(m, x, White) && at < |list| && adj == list[at] - 1 && CanMergeNext(m, Node(head, list, at), list[at], x)
    ensures var m' := NextMerged(m, Node(head, list, at), list[at], x);
      && HeldC(m', heads - {adj}, x, BlockEnd(m, adj), -1) && Small(m', heads - {adj}, known) && NotFreeAt(m', heads - {adj}, BlockEnd(m, adj))
  {
    hide Layout, FreeListOk, GoodWord, FieldIn, SweptTo, MergePoint, PosOk, HeldC, Small, BlockEnd, NotFreeAt;
    SweptHeap(m, chunks, heads, roots, known);
    HeadsInMemory(m, chunks, heads);
    NoMinusOne(m, chunks, heads);
    UnexceptWhite(m, chunks, heads, head, list, x);
    NextWords(m, chunks, heads, known, head, list, at, x);
    MergeNext(m, chunks, heads, head, list, at, x);
    var m' := NextMerged(m, Node(head, list, at), list[at], x);
    BlockInMemory(m, chunks, heads, adj);
    BlockInMemory(m, chunks, heads, x);
    NextC(m, m', chunks, heads, x, adj, -1);
    SmallStep(m, m', heads, heads - {adj}, known, x);
  }

  /** When the next free block does not follow at once, no free block does. */
  lemma NextNotFree(m: Memory, chunks: seq<Chunk>, heads: set<int>, head: int, list: seq<int>, at: nat, x: int, adj: int)
    requires FreeListOk(m, chunks, heads, head, list, x) && MergePoint(list, at, adj) && x != adj
    requires at < |list| ==> list[at] - 1 != adj
    ensures NotFreeAt(m, heads, adj)
  {
    hide Links, SentinelOk;
    assert forall i :: at <= i < |list| ==> list[at] <= list[i];
  }

  lemma PrevStepC(m: Memory, chunks: seq<Chunk>, heads: set<int>, roots: seq<Word>, known: set<int>, head: int, list: seq<int>, at: nat, k: nat, x: int, adj: int, b: int, last: int)
    requires Held(m, chunks, heads, roots, known, head, list, at, k, x, adj) && HeldC(m, heads, x, adj, -1) && Small(m, heads, known) && NotFreeAt(m, heads, adj)
    requires b in list && BlockEnd(m, b - 1) == x
    requires 1 <= b <= |m| && m[b - 1].Hdr? && 0 <= x < |m| && m[x].Hdr?
    ensures var m' := m[b - 1 := Hdr(m[b - 1].size + m[x].size + 1, 0, Blue)];
      Coalesced(m', heads - {x}, adj) && AtSweep(m', heads - {x}, adj, last) && Small(m', heads - {x}, known)
  {
    hide Layout, FreeListOk, GoodWord, FieldIn, SweptTo, MergePoint, PosOk, HeldC, Small, NotFreeAt, Coalesced, AtSweep;
    SweptHeap(m, chunks, heads, roots, known);
    NodeFacts(m, chunks, heads, head, list, x, b);
    BlockInMemory(m, chunks, heads, x);
    BlockInMemory(m, chunks, heads, b - 1);
    var m' := m[b - 1 := Hdr(m[b - 1].size + m[x].size + 1, 0, Blue)];
    PrevC(m, m', chunks, heads, b - 1, x, adj, last);
    SmallStep(m, m', heads, heads - {x}, known, b - 1);
  }

  /** A free block that ends at `x` would be the last one before it. */
  lemma PrevNotFree(m: Memory, chunks: seq<Chunk>, heads: set<int>, head: int, list: seq<int>, at: nat, x: int, h: int)
    requires Layout(m, chunks, heads) && FreeListOk(m, chunks, heads, head, list, x) && MergePoint(list, at, x) && x >= 0
    requires EndsAt(m, heads, h, x) && HasColor(m, h, Blue)
    ensures at > 0 && list[at - 1] == h + 1
  {
    hide Layout, Links, SentinelOk, BlockEnd;
    BlockInMemory(m, chunks, heads, h);
    var i :| 0 <= i < |list| && list[i] == h + 1;
    assert i < at;
    if i < at - 1 {
      var n := list[at - 1];
      assert n in list && n - 1 < x && h + 1 < n;
      NodeFacts(m, chunks, heads, head, list, x, n);
      Apart(m, chunks, heads, h, n - 1);
      assert false;
    }
  }

  lemma InsertStepC(m: Memory, m': Memory, chunks: seq<Chunk>, heads: set<int>, roots: seq<Word>, known: set<int>, head: int, list: seq<int>, at: nat, k: nat, x: int, adj: int, last: int)
    requires Held(m, chunks, heads, roots, known, head, list, at, k, x, adj) && HeldC(m, heads, x, adj, -1) && Small(m, heads, known) && NotFreeAt(m, heads, adj)
    requires at <= |list| && 0 <= x < |m| && m[x].Hdr?
    requires at > 0 ==> BlockEnd(m, list[at - 1] - 1) != x
    requires |m'| == |m| && (forall h :: h in heads && h != x && 0 <= h < |m| ==> m'[h] == m[h])
    requires m'[x].Hdr? && m'[x].size == m[x].size
    requires (HasColor(m', x, Blue) && m[x].size != 0) || (HasColor(m', x, White) && last == adj)
    ensures Coalesced(m', heads, adj) && AtSweep(m', heads, adj, last) && Small(m', heads, known)
  {
    hide Layout, FreeListOk, GoodWord, FieldIn, SweptTo, MergePoint, PosOk, HeldC, Small, NotFreeAt, Coalesced, AtSweep;
    SweptHeap(m, chunks, heads, roots, known);
    BlockInMemory(m, chunks, heads, x);
    forall h | EndsAt(m, heads, h, x) ensures !HasColor(m, h, Blue) {
      if HasColor(m, h, Blue) {
        PrevNotFree(m, chunks, heads, head, list, at, x, h);
      }
    }
    AloneC(m, m', chunks, heads, x, adj, last);
    SmallStep(m, m', heads, heads, known, x);
  }

  /** The sweep is not inside a free block. */
  lemma SweepOutside(m: Memory, chunks: seq<Chunk>, heads: set<int>, k: nat, p: int, b: int, hp: int)
    requires Layout(m, chunks, heads) && PosOk(chunks, heads, k, p) && b in heads && b < hp < BlockEnd(m, b)
    ensures p != hp
  {
    hide Layout, BlockEnd;
    NoHeaderInside(m, chunks, heads, b, hp);
    if p == chunks[k].End() {
      ChunkEndOutside(m, chunks, heads, k);
    }
  }

  lemma ChunkEndOutside(m: Memory, chunks: seq<Chunk>, heads: set<int>, k: nat)
    requires Layout(m, chunks, heads) && k < |chunks|
    ensures !InHeap(chunks, chunks[k].End())
  {
    hide BlockOk, EndsWell;
    forall j | 0 <= j < |chunks| ensures !InChunk(chunks[j], chunks[k].End()) {
      if k < j {
        assert chunks[k].End() < chunks[j].start;
      } else if j < k {
        assert chunks[j].End() < chunks[k].start;
      }
    }
  }

  /** Allocation keeps free blocks and fragments apart. */
  lemma AllocC(m: Memory, m': Memory, chunks: seq<Chunk>, heads: set<int>, known: set<int>, b: int, hp: int, wo: nat, tag: nat, color: Color, p: int, last: int)
    requires Layout(m, chunks, heads) && HeadersCarved(m, m', heads, b, hp, color) && HasColor(m, b, Blue)
    requires b <= hp < BlockEnd(m, b) && hp + 1 + wo == BlockEnd(m, b) && m'[hp] == Hdr(wo, tag, color) && color != Blue && wo >= 1
    requires b != hp ==> BlockEnd(m', b) == hp && (HasColor(m', b, Blue) ==> m'[b].size >= 1)
    requires p == hp ==> b == hp
    requires Small(m, heads, known) && forall h :: h in known ==> IsBlock(m, heads, h)
    ensures Small(m', heads + {hp}, known)
    ensures Coalesced(m, heads, p) ==> Coalesced(m', heads + {hp}, p)
    ensures AtSweep(m, heads, p, last) ==> AtSweep(m', heads + {hp}, p, last)
  {
    hide Layout, Small, Coalesced, AtSweep, BlockEnd;
    EndOf(m', hp);
    HeadsInMemory(m, chunks, heads);
    if hp != b {
      NoHeaderInside(m, chunks, heads, b, hp);
    }
    CarvedSmall(m, m', heads, known, b, hp);
    if Coalesced(m, heads, p) {
      CarvedC(m, m', chunks, heads, b, hp, p);
    }
    if AtSweep(m, heads, p, last) {
      CarvedSweepC(m, m', chunks, heads, b, hp, p, last);
    }
  }
}
