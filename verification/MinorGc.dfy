/** The minor collector: every young block that can be reached is copied to the major heap. */
module MinorGc {
  import opened Words
  import opened Nurseries
  import opened Promotion

  ghost predicate Extends<V>(f: map<int, V>, f': map<int, V>) {
    forall b :: b in f ==> b in f' && f'[b] == f[b]
  }

  /** The words in use, other than `p` and those of the young area, have not been written. */
  ghost predicate Spared(g: Nursery, mem: Store, mem': Store, p: int) {
    forall a :: a in mem && a != p && !g.InArea(a) ==> a in mem' && mem'[a] == mem[a]
  }

  ghost predicate SparedBut(g: Nursery, mem: Store, mem': Store, lo: int, count: nat) {
    forall a :: a in mem && !(lo <= a < lo + count) && !g.InArea(a) ==> a in mem' && mem'[a] == mem[a]
  }

  /** The slot `p` holds what `v` becomes. */
  ghost predicate Holds(g: Nursery, mem: Store, fwd: Forwarding, p: int, v: Word) {
    p in mem && (g.Young(v) ==> g.Base(v.addr) in fwd) && mem[p] == Forward(g, fwd, v)
  }

  ghost function Uncopied(g: Nursery, fwd: Forwarding): nat {
    |g.blocks - fwd.Keys|
  }

  ghost function Depth(g: Nursery, v: Word): nat {
    if v.Ptr? && g.IsInfix(v.addr) then 1 else 0
  }

  /** A new block: a header, and fields that hold nothing of interest. */
  function NewWords(lo: int, count: nat, hd: Word, junk: Word): Store {
    map a | a in Span(lo, count) :: if a == lo then hd else junk
  }

  /** Something has been copied. */
  lemma CopiedOne(g: Nursery, fwd: Forwarding, b: int, n: int)
    requires b in g.blocks && b !in fwd
    ensures Uncopied(g, fwd[b := n]) < Uncopied(g, fwd) && Extends(fwd, fwd[b := n])
  {
    assert g.blocks - fwd[b := n].Keys == g.blocks - fwd.Keys - {b};
  }

  lemma NotEmpty(s: set<int>)
    requires s != {}
    ensures exists a :: a in s
  {
    assert (forall a :: a !in s) ==> s == {};
  }

  class MinorHeap {
    const youngStart: int
    const youngEnd: int
    var youngPtr: int
    var mem: Store
    var roots: seq<int>       // where the program's values are, other than in the heap
    var refTable: seq<int>

    ghost var g: Nursery
    ghost var fwd: Forwarding
    ghost var slots: map<int, Word>

    constructor (youngStart: int, youngEnd: int, mem: Store, roots: seq<int>, refTable: seq<int>)
      ensures this.youngStart == youngStart && this.youngEnd == youngEnd
      ensures this.mem == mem && this.roots == roots && this.refTable == refTable
    {
      this.youngStart, this.youngEnd, youngPtr := youngStart, youngEnd, youngEnd;
      this.mem, this.roots, this.refTable := mem, roots, refTable;
    }

    ghost predicate State(todo: set<int>)
      reads this
    {
      g.start == youngStart && g.end == youngEnd && Copying(g, mem, fwd, slots, todo)
    }

    predicate Room(n: int, size: nat)
      reads this
    {
      forall a | n - 1 <= a < n + size :: a !in mem && !(youngStart <= a < youngEnd)
    }

    /** A place beyond all words in use. */
    method Beyond() returns (n: int)
      ensures n > youngEnd && forall a :: a in mem ==> a < n - 1
    {
      n := youngEnd + 1;
      var keys := mem.Keys;
      while keys != {}
        invariant n > youngEnd && forall a :: a in mem && a !in keys ==> a < n - 1
        decreases |keys|
      {
        NotEmpty(keys);
        var a :| a in keys;
        keys := keys - {a};
        if a >= n - 1 {
          n := a + 2;
        }
      }
    }

    /** Allocates in the major heap, wherever its free list has room. */
    method AllocShr(size: nat, tag: nat) returns (n: int)
      requires g.start == youngStart && g.end == youngEnd
      modifies this`mem
      ensures Fresh(g, old(mem), n, size) && Allocated(old(mem), mem, n, size, tag)
    {
      n := *;
      if !Room(n, size) {
        n := Beyond();
      }
      var color: Color := *;
      var junk: Word := *;
      assert Fresh(g, mem, n, size);
      mem := mem + NewWords(n - 1, size + 1, Hdr(size, tag, color), junk);
    }

    /** Stores in the slot `p` what `v` becomes. */
    method Put(p: int, w: Word, ghost v: Word, ghost todo: set<int>)
      requires State(todo) && p in slots && p in todo
      requires w == Forward(g, fwd, v) && (g.Young(v) ==> g.Base(v.addr) in fwd)
      modifies this`mem
      ensures State(todo) && Holds(g, mem, fwd, p, v) && mem == old(mem)[p := w]
    {
      hide Copying, Forward;
      WriteSlot(g, mem, fwd, slots, todo, p, w);
      mem := mem[p := w];
    }

    /** Makes room for the copy of a block that holds values, and leaves a forwarding
        pointer. The fields are still to be filled. */
    method Evacuate(b: int, hd: Word, p: int, ghost todo: set<int>) returns (result: int, field0: Word)
      requires State(todo) && p in slots && p in todo
      requires g.Reachable(b) && b in g.blocks && b !in fwd && g.YoungBlockOk(b) && g.Scanned(b)
      requires b - 1 in mem && b - 1 in g.mem && hd.Hdr? && mem[b - 1] == g.mem[b - 1] == hd
      modifies this`mem, this`fwd, this`slots
      ensures State(todo + Span(result, hd.size)) && b in fwd && fwd[b] == result
      ensures Extends(old(fwd), fwd) && Uncopied(g, fwd) < Uncopied(g, old(fwd)) && Extends(old(slots), slots)
      ensures p in mem && mem[p] == Ptr(result) && Spared(g, old(mem), mem, p)
      ensures forall a :: result <= a < result + hd.size ==> a in slots && a !in old(mem)
      ensures b in g.mem && field0 == g.mem[b]
    {
      hide Copying, Fresh, Allocated, Nursery.Scanned, Nursery.YoungBlockOk, Nursery.Reachable, RawField, NewSlots, Extends, Spared, Uncopied;
      assert g.Size(b) == hd.size;
      ghost var m0, fwd2 := mem, fwd;
      BlockHasField(g, b);
      LookField(g, m0, fwd, slots, todo, b, 0);
      result := AllocShr(hd.size, hd.tag);
      BlockTaken(g, m0, mem, fwd, slots, todo, b, result, p);
      CopiedOne(g, fwd, b, result);
      StillThere(m0, mem, result, hd.size, hd.tag, b);
      ghost var m1 := mem;
      mem := mem[p := Ptr(result)];
      field0 := mem[b];
      mem := mem[b - 1 := hd.(color := Blue)];
      mem := mem[b := Ptr(result)];
      assert mem == Forwarded(g, m1, b, result)[p := Ptr(result)];
      slots := NewSlots(g, slots, b, result);
      fwd := fwd[b := result];
    }

    /** Copies a block that holds no values, and leaves a forwarding pointer. */
    method CopyRaw(b: int, hd: Word, p: int, ghost todo: set<int>)
      requires State(todo) && p in slots && p in todo
      requires g.Reachable(b) && b in g.blocks && b !in fwd && g.YoungBlockOk(b) && !g.Scanned(b)
      requires b - 1 in mem && b - 1 in g.mem && hd.Hdr? && mem[b - 1] == g.mem[b - 1] == hd
      modifies this`mem, this`fwd
      ensures State(todo) && b in fwd && Extends(old(fwd), fwd) && Uncopied(g, fwd) < Uncopied(g, old(fwd))
      ensures p in mem && mem[p] == Ptr(fwd[b]) && Spared(g, old(mem), mem, p)
    {
      hide Copying, Fresh, Allocated, Nursery.Scanned, Nursery.YoungBlockOk, Nursery.Reachable, RawField;
      assert g.Size(b) == hd.size;
      var sz := hd.size;
      var n := AllocShr(sz, hd.tag);
      ghost var m0, fwd2 := old(mem), fwd[b := n];
      var i := 0;
      while i < sz
        modifies this`mem
        invariant 0 <= i <= sz && Allocated(m0, mem, n, sz, hd.tag)
        invariant forall j {:trigger RawField(g, mem, fwd2, b, j)} :: 0 <= j < i ==> RawField(g, mem, fwd2, b, j)
      {
        LookField(g, m0, fwd, slots, todo, b, i);
        CopyWord(g, m0, mem, fwd2, b, n, sz, hd.tag, i);
        mem := mem[n + i := mem[b + i]];
        i := i + 1;
      }
      BlockTaken(g, m0, mem, fwd, slots, todo, b, n, p);
      assert NewSlots(g, slots, b, n) == slots && todo + {} == todo;
      CopiedOne(g, fwd, b, n);
      mem := mem[b - 1 := hd.(color := Blue)];
      mem := mem[b := Ptr(n)];
      fwd := fwd2;
      mem := mem[p := Ptr(n)];
    }

    /** Fills all fields of the copy of `b` but the last. */
    method OldifyFields(b: int, result: int, sz: nat, field0: Word, ghost todo: set<int>)
      requires State(todo + Span(result, sz)) && b in g.blocks && b in fwd && fwd[b] == result && g.Scanned(b) && g.Size(b) == sz && sz >= 2
      requires b in g.mem && field0 == g.mem[b]
      modifies this`mem, this`fwd, this`slots
      ensures State(todo + {result + sz - 1})
      ensures Extends(old(fwd), fwd) && Uncopied(g, fwd) <= Uncopied(g, old(fwd)) && Extends(old(slots), slots) && SparedBut(g, old(mem), mem, result, sz)
      decreases Uncopied(g, fwd), 9
    {
      hide Copying, Nursery.Scanned, Nursery.Size, Nursery.Reachable, Done, Forward, Uncopied, SourceOk;
      SpanFirst(todo, result, sz);
      LookSlot(g, mem, fwd, slots, todo + Span(result, sz), b, 0);
      Oldify(field0, result, todo + Span(result + 1, sz - 1));
      HeldIsDone(g, mem, fwd, slots, result, field0);
      SlotDone(g, mem, fwd, slots, todo + Span(result + 1, sz - 1), result);
      var i := 1;
      while i < sz - 1
        modifies this`mem, this`fwd, this`slots
        invariant 1 <= i <= sz - 1 && State(todo + Span(result + i, sz - i))
        invariant Extends(old(fwd), fwd) && Uncopied(g, fwd) <= Uncopied(g, old(fwd)) && Extends(old(slots), slots) && SparedBut(g, old(mem), mem, result, sz)
      {
        SpanFirst(todo, result + i, sz - i);
        LookSlot(g, mem, fwd, slots, todo + Span(result + i, sz - i), b, i);
        LookField(g, mem, fwd, slots, todo + Span(result + i, sz - i), b, i);
        ghost var v := g.mem[b + i];
        Oldify(mem[b + i], result + i, todo + Span(result + i + 1, sz - i - 1));
        HeldIsDone(g, mem, fwd, slots, result + i, v);
        SlotDone(g, mem, fwd, slots, todo + Span(result + i + 1, sz - i - 1), result + i);
        i := i + 1;
      }
      assert todo + Span(result + i, sz - i) == todo + {result + sz - 1};
    }

    /** Copies a block that holds values, all but its last field. Returns that field's new
        place, and what it held. */
    method OldifyBlock(b: int, hd: Word, p: int, ghost todo: set<int>) returns (p1: int, v1: Word)
      requires State(todo) && p in slots && p in todo
      requires g.Reachable(b) && b in g.blocks && b !in fwd && g.YoungBlockOk(b) && g.Scanned(b)
      requires b - 1 in mem && b - 1 in g.mem && hd.Hdr? && mem[b - 1] == g.mem[b - 1] == hd
      modifies this`mem, this`fwd, this`slots
      ensures State(todo + {p1}) && p1 in slots && slots[p1] == v1 && SourceOk(g, v1) && p1 !in old(mem)
      ensures Extends(old(fwd), fwd) && Uncopied(g, fwd) < Uncopied(g, old(fwd)) && Extends(old(slots), slots)
      ensures b in fwd && p in mem && mem[p] == Ptr(fwd[b]) && Spared(g, old(mem), mem, p)
      decreases Uncopied(g, fwd), 3
    {
      hide Copying, Nursery.Scanned, Nursery.YoungBlockOk, Nursery.Reachable, Uncopied, SourceOk;
      BlockHasField(g, b);
      SlotsInUse(g, mem, fwd, slots, todo);
      assert g.Size(b) == hd.size;
      var sz := hd.size;
      var result, field0 := Evacuate(b, hd, p, todo);
      SlotsInUse(g, mem, fwd, slots, todo + Span(result, sz));
      if sz == 1 {
        assert todo + Span(result, sz) == todo + {result};
        p1, v1 := result, field0;
      } else {
        OldifyFields(b, result, sz, field0, todo);
        p1 := result + sz - 1;
        LookField(g, mem, fwd, slots, todo + {p1}, b, sz - 1);
        v1 := mem[b + (sz - 1)];
      }
      LookSlot(g, mem, fwd, slots, todo + {p1}, b, sz - 1);
    }

    /** Stores in `p0` what `v0` becomes; a young block it points to is copied first, and
        so are the young blocks found from there. The last field is left to a tail call. */
    method Oldify(v0: Word, p0: int, ghost todo: set<int>)
      requires State(todo + {p0}) && p0 in slots && SourceOk(g, v0)
      modifies this`mem, this`fwd, this`slots
      ensures State(todo + {p0}) && Holds(g, mem, fwd, p0, v0)
      ensures Extends(old(fwd), fwd) && Uncopied(g, fwd) <= Uncopied(g, old(fwd)) && Extends(old(slots), slots) && Spared(g, old(mem), mem, p0)
      decreases Uncopied(g, fwd), 4 + Depth(g, v0)
    {
      hide Copying, SourceOk, Forward, Nursery.YoungBlockOk, Done, Nursery.Reachable, Uncopied;
      var v, p := v0, p0;
      while true
        modifies this`mem, this`fwd, this`slots
        invariant State(todo + {p0} + {p}) && p in slots && SourceOk(g, v)
        invariant if p == p0 then v == v0 && fwd == old(fwd) else slots[p] == v && Holds(g, mem, fwd, p0, v0) && p !in old(mem) && Uncopied(g, fwd) < Uncopied(g, old(fwd))
        invariant Extends(old(fwd), fwd) && Extends(old(slots), slots) && Spared(g, old(mem), mem, p0)
        decreases Uncopied(g, fwd)
      {
        ghost var here, m1, f1 := todo + {p0} + {p}, mem, fwd;
        SlotsInUse(g, mem, fwd, slots, here);
        if v.Ptr? && youngStart < v.addr < youngEnd {
          LookYoung(g, mem, fwd, slots, here, v);
          var hd := mem[v.addr - 1];
          if hd.color == Blue {
            ForwardTo(g, fwd, v);
            Put(p, mem[v.addr], v, here);
          } else if hd.tag == INFIX_TAG {
            Oldify(Ptr(v.addr - hd.size), p, here);
            assert here + {p} == here;
            ForwardTo(g, fwd, Ptr(v.addr - hd.size));
            ForwardTo(g, fwd, v);
            Put(p, Ptr(mem[p].addr + hd.size), v, here);
          } else if hd.tag >= NO_SCAN_TAG {
            CopyRaw(v.addr, hd, p, here);
            ForwardTo(g, fwd, v);
          } else {
            var p1, v1 := OldifyBlock(v.addr, hd, p, here);
            SlotsInUse(g, mem, fwd, slots, here + {p1});
            ForwardTo(g, fwd, v);
            if p != p0 {
              HoldsKept(g, m1, mem, f1, fwd, p0, v0, p);
              HeldIsDone(g, mem, fwd, slots, p, v);
              assert here + {p1} == todo + {p0} + {p1} + {p};
              SlotDone(g, mem, fwd, slots, todo + {p0} + {p1}, p);
            }
            p, v := p1, v1;
            continue;
          }
        } else {
          ForwardSame(g, fwd, v);
          Put(p, v, v, here);
        }
        if p != p0 {
          HoldsKept(g, m1, mem, f1, fwd, p0, v0, p);
          HeldIsDone(g, mem, fwd, slots, p, v);
          SlotDone(g, mem, fwd, slots, todo + {p0}, p);
        }
        assert todo + {p0} + {p0} == todo + {p0};
        return;
      }
    }

    /** A root or a remembered field is brought up to date. It may be listed twice: then it
        already holds what it should. */
    method OldifySlot(a: int, ghost todo: set<int>)
      requires State(todo + {a}) && a in g.slots && Pending(g, mem, fwd, slots)
      modifies this`mem, this`fwd, this`slots
      ensures State(todo) && Pending(g, mem, fwd, slots)
    {
      hide Copying, Forward, SourceOk, Uncopied, Done;
      SlotsInUse(g, mem, fwd, slots, todo + {a});
      PendingSource(g, mem, fwd, slots, todo + {a}, a);
      ghost var m0, f0, s0 := mem, fwd, slots;
      Oldify(mem[a], a, todo);
      PendingStill(g, m0, mem, f0, fwd, s0, slots, a);
      SlotDone(g, mem, fwd, slots, todo, a);
    }

    /** Empties the young area. */
    method MinorCollection(ghost g0: Nursery)
      requires g0.WellFormed() && g0.mem == mem && g0.start == youngStart && g0.end == youngEnd
      requires g0.slots == Elements(roots) + Elements(refTable)
      modifies this
      ensures g == g0 && Collected(g, mem, fwd)
      ensures youngPtr == youngEnd && refTable == [] && roots == old(roots)
    {
      hide Copying, Nursery.WellFormed, Done;
      g, fwd, slots := g0, map[], map a | a in g0.slots && a in g0.mem :: g0.mem[a];
      Starting(g);
      var r := 0;
      assert roots[0..] == roots;
      assert g.slots == Elements(roots[0..]) + Elements(refTable);
      NothingDone(g);
      while r < |roots|
        modifies this`mem, this`fwd, this`slots
        invariant 0 <= r <= |roots| && State(Elements(roots[r..]) + Elements(refTable)) && Pending(g, mem, fwd, slots)
      {
        var sp := roots[r];
        assert Elements(roots[r..]) + Elements(refTable) == Elements(roots[r + 1..]) + Elements(refTable) + {sp};
        OldifySlot(sp, Elements(roots[r + 1..]) + Elements(refTable));
        r := r + 1;
      }
      assert Elements(roots[r..]) + Elements(refTable) == Elements(refTable[0..]);
      r := 0;
      while r < |refTable|
        modifies this`mem, this`fwd, this`slots
        invariant 0 <= r <= |refTable| && State(Elements(refTable[r..])) && Pending(g, mem, fwd, slots)
      {
        assert Elements(refTable[r..]) == Elements(refTable[r + 1..]) + {refTable[r]};
        OldifySlot(refTable[r], Elements(refTable[r + 1..]));
        r := r + 1;
      }
      assert Elements(refTable[r..]) == {};
      AllFilled(g, mem, fwd, slots);
      youngPtr := youngEnd;
      refTable := [];
    }
  }

  ghost function Elements(s: seq<int>): set<int> {
    set a | a in s
  }

  /** A root or remembered field is as it was, or has been filled. */
  ghost predicate Pending(g: Nursery, mem: Store, fwd: Forwarding, slots: map<int, Word>) {
    forall a :: a in g.slots ==> a in mem && a in g.mem && (mem[a] == g.mem[a] || Done(g, mem, fwd, slots, a))
  }

  lemma NothingDone(g: Nursery)
    requires g.WellFormed()
    ensures Pending(g, g.mem, map[], map a | a in g.slots && a in g.mem :: g.mem[a])
  {
    hide Done, Nursery.YoungBlockOk, Nursery.MajorBlockOk;
  }

  lemma PendingSource(g: Nursery, mem: Store, fwd: Forwarding, slots: map<int, Word>, todo: set<int>, a: int)
    requires Copying(g, mem, fwd, slots, todo) && Pending(g, mem, fwd, slots) && a in g.slots
    ensures a in slots && a in mem && a in g.mem && SourceOk(g, mem[a])
    ensures mem[a] == g.mem[a] || !g.Young(mem[a])
    ensures forall x :: x in g.slots ==> x in slots && x in g.mem && slots[x] == g.mem[x] && !g.InArea(x)
  {
    hide Nursery.WellFormed, YoungKept, CopiesOk, RestKept, Filled, FieldSlot, Forward, Nursery.Base;
    if mem[a] != g.mem[a] {
      assert Done(g, mem, fwd, slots, a);
      ForwardIsOld(g, mem, fwd, slots[a]);
    }
  }

  lemma PendingStill(g: Nursery, mem: Store, mem': Store, fwd: Forwarding, fwd': Forwarding, slots: map<int, Word>, slots': map<int, Word>, a: int)
    requires Pending(g, mem, fwd, slots) && a in g.slots && a in g.mem && a in mem
    requires forall x :: x in g.slots ==> x in slots && x in g.mem && slots[x] == g.mem[x] && !g.InArea(x)
    requires mem[a] == g.mem[a] || !g.Young(mem[a])
    requires Holds(g, mem', fwd', a, mem[a])
    requires Spared(g, mem, mem', a) && Extends(fwd, fwd') && Extends(slots, slots')
    ensures Pending(g, mem', fwd', slots') && Done(g, mem', fwd', slots', a)
  {
  }

  lemma ForwardSame(g: Nursery, fwd: Forwarding, v: Word)
    requires !g.Young(v)
    ensures Forward(g, fwd, v) == v
  {
  }

  lemma ForwardTo(g: Nursery, fwd: Forwarding, v: Word)
    requires g.Young(v) && g.Base(v.addr) in fwd
    ensures Forward(g, fwd, v) == Ptr(fwd[g.Base(v.addr)] + (v.addr - g.Base(v.addr)))
  {
  }

  lemma HoldsKept(g: Nursery, mem: Store, mem': Store, fwd: Forwarding, fwd': Forwarding, p0: int, v0: Word, p: int)
    requires Holds(g, mem, fwd, p0, v0) && Spared(g, mem, mem', p) && Extends(fwd, fwd') && p != p0 && !g.InArea(p0)
    ensures Holds(g, mem', fwd', p0, v0)
  {
  }

  lemma SpanFirst(todo: set<int>, lo: int, count: nat)
    requires count > 0
    ensures todo + Span(lo, count) == todo + Span(lo + 1, count - 1) + {lo}
  {
  }

  lemma HeldIsDone(g: Nursery, mem: Store, fwd: Forwarding, slots: map<int, Word>, p: int, v: Word)
    requires Holds(g, mem, fwd, p, v) && p in slots && slots[p] == v
    ensures Done(g, mem, fwd, slots, p)
  {
  }

  lemma BlockHasField(g: Nursery, b: int)
    requires g.YoungBlockOk(b)
    ensures g.Size(b) > 0
  {
  }

  lemma StillThere(mem: Store, mem1: Store, n: int, size: nat, tag: nat, a: int)
    requires Allocated(mem, mem1, n, size, tag) && a in mem
    ensures a in mem1 && mem1[a] == mem[a]
  {
  }

  lemma CopyWord(g: Nursery, mem: Store, mem1: Store, fwd: Forwarding, b: int, n: int, size: nat, tag: nat, i: nat)
    requires Allocated(mem, mem1, n, size, tag) && Fresh(g, mem, n, size) && b in fwd && fwd[b] == n && i < size
    requires b + i in mem && b + i in g.mem && mem[b + i] == g.mem[b + i]
    ensures b + i in mem1
    ensures var mem2 := mem1[n + i := mem1[b + i]];
      && Allocated(mem, mem2, n, size, tag) && RawField(g, mem2, fwd, b, i)
      && (forall j: int {:trigger RawField(g, mem2, fwd, b, j)} :: j != i && RawField(g, mem1, fwd, b, j) ==> RawField(g, mem2, fwd, b, j))
  {
  }

  lemma BlockTaken(g: Nursery, mem: Store, mem1: Store, fwd: Forwarding, slots: map<int, Word>, todo: set<int>, b: int, n: int, p: int)
    requires Copying(g, mem, fwd, slots, todo) && g.Reachable(b) && p in slots && p in todo
    requires b in g.blocks && b !in fwd && g.YoungBlockOk(b)
    requires b - 1 in g.mem && g.mem[b - 1].Hdr?
    requires Fresh(g, mem, n, g.Size(b)) && Allocated(mem, mem1, n, g.Size(b), g.mem[b - 1].tag)
    requires !g.Scanned(b) ==> forall i {:trigger RawField(g, mem1, fwd[b := n], b, i)} :: 0 <= i < g.Size(b) ==> RawField(g, mem1, fwd[b := n], b, i)
    ensures var mem2 := Forwarded(g, mem1, b, n)[p := Ptr(n)];
      && Copying(g, mem2, fwd[b := n], NewSlots(g, slots, b, n), todo + if g.Scanned(b) then Span(n, g.Size(b)) else {})
      && Spared(g, mem, mem2, p)
    ensures g.Scanned(b) ==> forall a :: n <= a < n + g.Size(b) ==> a !in mem && a in NewSlots(g, slots, b, n)
    ensures Extends(slots, NewSlots(g, slots, b, n)) && p != b && p != b - 1
  {
    hide Copying, Allocated, Nursery.Scanned, RawField, Nursery.Size, Nursery.Reachable, Spared, Nursery.BlockOk;
    NewBlock(g, mem, mem1, fwd, slots, todo, b, n);
    AllocSpares(g, mem, mem1, b, n, g.Size(b), g.mem[b - 1].tag, p);
    WellFormedBlock(g, b);
    NewSlotsKnown(g, slots, b, n);
    SlotsInUse(g, mem, fwd, slots, todo);
    WriteSlot(g, Forwarded(g, mem1, b, n), fwd[b := n], NewSlots(g, slots, b, n), todo + if g.Scanned(b) then Span(n, g.Size(b)) else {}, p, Ptr(n));
  }

  lemma WellFormedBlock(g: Nursery, b: int)
    requires g.YoungBlockOk(b)
    ensures g.BlockOk(b) && g.InArea(b) && g.InArea(b - 1)
  {
  }

  lemma SlotsInUse(g: Nursery, mem: Store, fwd: Forwarding, slots: map<int, Word>, todo: set<int>)
    requires Copying(g, mem, fwd, slots, todo)
    ensures forall a :: a in slots ==> a in mem && !g.InArea(a)
  {
    hide Nursery.WellFormed, CopiesOk, RestKept, YoungKept, Filled, FieldSlot, SourceOk;
  }

  /** Allocating a block and forwarding another touches only the young area. */
  lemma AllocSpares(g: Nursery, mem: Store, mem1: Store, b: int, n: int, size: nat, tag: nat, p: int)
    requires Allocated(mem, mem1, n, size, tag) && g.YoungBlockOk(b)
    ensures Spared(g, mem, Forwarded(g, mem1, b, n)[p := Ptr(n)], p)
  {
  }
}
