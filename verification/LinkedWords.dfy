/** Lists threaded through memory words: the inverted pointers of the compactor, and the
    free list. */
module LinkedWords {
  import opened Words

  ghost predicate NoDup(c: seq<int>) {
    forall i, j :: 0 <= i < j < |c| ==> c[i] != c[j]
  }

  function Node(h: int, c: seq<int>, i: nat): int
    requires i <= |c|
  {
    if i == 0 then h else c[i - 1]
  }

  /** Starting at `h`, the words of `c` form a chain of inverted pointers that ends in `last`. */
  ghost predicate Links(m: Memory, h: int, c: seq<int>, last: Word) {
    forall i :: 0 <= i <= |c| ==>
      var a := Node(h, c, i);
      0 <= a < |m| && m[a] == (if i < |c| then Ptr(c[i]) else last)
  }

  lemma LinksHead(m: Memory, h: int, c: seq<int>, last: Word)
    requires Links(m, h, c, last)
    ensures 0 <= h < |m| && m[h] == if c == [] then last else Ptr(c[0])
  {
    assert Node(h, c, 0) == h;
  }

  lemma LinksAt(m: Memory, h: int, c: seq<int>, last: Word, i: nat)
    requires Links(m, h, c, last) && i < |c|
    ensures 0 <= c[i] < |m| && m[c[i]] == if i + 1 < |c| then Ptr(c[i + 1]) else last
  {
    assert Node(h, c, i + 1) == c[i];
  }

  /** The first `i` words of `c` have been overwritten with `w`. */
  ghost predicate Written(m: Memory, m': Memory, c: seq<int>, i: nat, w: Word)
    requires i <= |c|
  {
    |m'| == |m| && forall a :: 0 <= a < |m| ==> m'[a] == if a in c[..i] then w else m[a]
  }

  lemma NothingWritten(m: Memory, c: seq<int>, w: Word)
    ensures Written(m, m, c, 0, w)
  {
  }

  lemma AllWritten(m: Memory, m': Memory, c: seq<int>, w: Word)
    requires Written(m, m', c, |c|, w)
    ensures |m'| == |m| && forall a :: 0 <= a < |m| ==> m'[a] == if a in c then w else m[a]
  {
    assert c[..|c|] == c;
  }

  lemma WriteStep(m: Memory, m': Memory, c: seq<int>, i: nat, w: Word)
    requires i < |c| && Written(m, m', c, i, w) && NoDup(c) && 0 <= c[i] < |m|
    ensures m'[c[i]] == m[c[i]] && Written(m, m'[c[i] := w], c, i + 1, w)
  {
    assert c[..i + 1] == c[..i] + [c[i]];
    assert c[i] !in c[..i];
  }

  lemma LinksPrepend(m: Memory, h: int, c: seq<int>, last: Word, p: int)
    requires Links(m, h, c, last) && 0 <= p < |m| && 0 <= h < |m| && p != h && p !in c && h !in c
    ensures Links(m[p := m[h]][h := Ptr(p)], h, [p] + c, last)
  {
    hide Links;
    var m' := m[p := m[h]][h := Ptr(p)];
    var c' := [p] + c;
    LinksHead(m, h, c, last);
    forall i | 0 <= i <= |c'|
      ensures 0 <= Node(h, c', i) < |m'| && m'[Node(h, c', i)] == (if i < |c'| then Ptr(c'[i]) else last)
    {
      if i > 1 {
        LinksAt(m, h, c, last, i - 2);
        assert Node(h, c', i) == c[i - 2] && c[i - 2] in c;
      }
    }
    LinksFrom(m', h, c', last);
  }

  lemma LinksFrom(m: Memory, h: int, c: seq<int>, last: Word)
    requires forall i :: 0 <= i <= |c| ==>
      0 <= Node(h, c, i) < |m| && m[Node(h, c, i)] == (if i < |c| then Ptr(c[i]) else last)
    ensures Links(m, h, c, last)
  {
  }

  lemma LinksFrame(m: Memory, m': Memory, h: int, c: seq<int>, last: Word)
    requires Links(m, h, c, last) && |m'| == |m| && 0 <= h < |m| && m'[h] == m[h]
    requires forall s :: s in c && 0 <= s < |m| ==> m'[s] == m[s]
    ensures Links(m', h, c, last)
  {
    forall i | 0 <= i <= |c|
      ensures var a := Node(h, c, i);
        0 <= a < |m'| && m'[a] == (if i < |c| then Ptr(c[i]) else last)
    {
      if i > 0 {
        assert Node(h, c, i) in c;
      }
    }
  }
}
