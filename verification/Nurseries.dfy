/** The young area as a minor collection finds it, and what the collection keeps true while
    it empties it: which words hold forwarding pointers, which words are still to be filled. */
module Nurseries {
  import opened Words

  const INFIX_TAG := 249

  /** Memory by word address: young area, major heap and root slots alike. */
  type Store = map<int, Word>

  /** The state before a minor collection. `blocks` are the young blocks, `majors` the blocks
      of the major heap, and `slots` the addresses of the roots and of the remembered fields. */
  datatype Nursery = Nursery(mem: Store, start: int, end: int, blocks: set<int>, majors: set<int>, slots: set<int>) {
    ghost predicate Young(w: Word) {
      w.Ptr? && start < w.addr < end
    }

    ghost predicate InArea(a: int) {
      start <= a < end
    }

    ghost function Size(b: int): nat {
      if b - 1 in mem && mem[b - 1].Hdr? then mem[b - 1].size else 0
    }

    ghost predicate Scanned(b: int) {
      b - 1 in mem && mem[b - 1].Hdr? && mem[b - 1].tag < NO_SCAN_TAG
    }

    /** `v` points into a closure, at one of its infix headers. */
    ghost predicate IsInfix(v: int) {
      v - 1 in mem && mem[v - 1].Hdr? && mem[v - 1].tag == INFIX_TAG
    }

    /** The block that `v` points to or into. */
    ghost function Base(v: int): int {
      if IsInfix(v) then v - mem[v - 1].size else v
    }

    /** An infix header gives its distance from the start of the closure. It is not the
        closure's first field, nor its last. */
    ghost predicate InfixOk(v: int, among: set<int>) {
      && IsInfix(v) && mem[v - 1].color != Blue
      && Base(v) in among && Scanned(Base(v)) && Base(v) + 1 <= v - 1 && v < Base(v) + Size(Base(v))
    }

    ghost predicate BlockOk(b: int) {
      && b - 1 in mem && mem[b - 1].Hdr? && mem[b - 1].tag != INFIX_TAG
      && (forall a :: b <= a < b + Size(b) ==> a in mem)
    }

    /** A young block has at least one field, and its colour is that of new blocks. */
    ghost predicate YoungBlockOk(b: int) {
      BlockOk(b) && Size(b) >= 1 && mem[b - 1].color != Blue && start <= b - 1 && b + Size(b) <= end
    }

    ghost predicate MajorBlockOk(b: int) {
      BlockOk(b) && (forall a :: b - 1 <= a < b + Size(b) ==> !InArea(a))
    }

    /** A young pointer points to a young block, or into one. */
    ghost predicate PtrOk(w: Word) {
      Young(w) ==> w.addr in blocks || InfixOk(w.addr, blocks)
    }

    /** `a` is a field of the block `b`, and holds a value. */
    ghost predicate FieldOf(b: int, a: int) {
      Scanned(b) && b <= a < b + Size(b) && a in mem
    }

    ghost predicate SlotOk(a: int) {
      && a in mem && !InArea(a) && PtrOk(mem[a])
      && (forall b :: b in majors && b - 1 <= a < b + Size(b) ==> FieldOf(b, a))
    }

    /** The remembered fields include every major field that holds a young pointer. */
    ghost predicate WellFormed() {
      && (forall b :: b in blocks ==> YoungBlockOk(b))
      && (forall b, c :: b in blocks && c in blocks && b < c ==> b + Size(b) < c)
      && (forall b, a :: b in blocks && FieldOf(b, a) ==> PtrOk(mem[a]))
      && (forall b :: b in majors ==> MajorBlockOk(b))
      && (forall b, a :: b in majors && FieldOf(b, a) && Young(mem[a]) ==> a in slots)
      && (forall a :: a in slots ==> SlotOk(a))
    }

    ghost predicate RefersTo(w: Word, b: int) {
      Young(w) && Base(w.addr) == b
    }

    /** The young block `b` can be reached from a root or a remembered field through `n` young blocks. */
    ghost predicate Reached(b: int, n: nat)
      decreases n
    {
      if n == 0 then exists a :: a in slots && a in mem && RefersTo(mem[a], b)
      else exists c, a :: Reached(c, n - 1) && c in blocks && FieldOf(c, a) && RefersTo(mem[a], b)
    }

    ghost predicate Reachable(b: int) {
      exists n: nat :: Reached(b, n)
    }
  }

  type Forwarding = map<int, int>

  /** What a value becomes: pointers to young blocks go to their copies. */
  ghost function Forward(g: Nursery, fwd: Forwarding, w: Word): Word {
    if g.Young(w) && g.Base(w.addr) in fwd then Ptr(fwd[g.Base(w.addr)] + (w.addr - g.Base(w.addr))) else w
  }

  /** What the young area holds: a copied block has a blue header, and its first field says
      where the copy is. */
  ghost function YoungWord(g: Nursery, fwd: Forwarding, a: int): Word
    requires a in g.mem
  {
    if a + 1 in fwd && g.mem[a].Hdr? then g.mem[a].(color := Blue) else if a in fwd then Ptr(fwd[a]) else g.mem[a]
  }

  ghost predicate YoungKept(g: Nursery, mem: Store, fwd: Forwarding) {
    && fwd.Keys <= g.blocks
    && (forall a :: a in g.mem && g.InArea(a) ==> a in mem && mem[a] == YoungWord(g, fwd, a))
  }

  /** A word of a block that holds no values. */
  ghost predicate RawField(g: Nursery, mem: Store, fwd: Forwarding, b: int, i: int)
    requires b in fwd
  {
    fwd[b] + i in mem && b + i in g.mem && mem[fwd[b] + i] == g.mem[b + i]
  }

  /** The copy of `b` is a block like `b`, made of words that were not in use. */
  ghost predicate CopyOk(g: Nursery, mem: Store, fwd: Forwarding, b: int)
    requires b in fwd
  {
    && g.YoungBlockOk(b)
    && var n := fwd[b];
    && n - 1 in mem && mem[n - 1].Hdr? && mem[n - 1].size == g.Size(b) && mem[n - 1].tag == g.mem[b - 1].tag
    && (forall a :: n - 1 <= a < n + g.Size(b) ==> a in mem && a !in g.mem && !g.InArea(a))
    && (!g.Scanned(b) ==> forall i {:trigger RawField(g, mem, fwd, b, i)} :: 0 <= i < g.Size(b) ==> RawField(g, mem, fwd, b, i))
  }

  ghost predicate CopiesOk(g: Nursery, mem: Store, fwd: Forwarding) {
    && (forall b :: b in fwd ==> CopyOk(g, mem, fwd, b))
    && (forall b, c :: b in fwd && c in fwd && b != c ==> fwd[b] + g.Size(b) < fwd[c] || fwd[c] + g.Size(c) < fwd[b])
  }

  /** A field of a copy is to hold what the field of the original held. */
  ghost predicate FieldSlot(g: Nursery, fwd: Forwarding, slots: map<int, Word>, b: int, i: int)
    requires b in fwd
  {
    g.Scanned(b) && 0 <= i < g.Size(b) && b + i in g.mem ==> fwd[b] + i in slots && slots[fwd[b] + i] == g.mem[b + i]
  }

  ghost predicate SourceOk(g: Nursery, w: Word) {
    g.PtrOk(w) && (g.Young(w) ==> g.Reachable(g.Base(w.addr)))
  }

  /** `slots` are the words that have been or are still to be filled, with the old values
      they stand for. */
  ghost predicate SlotsOk(g: Nursery, mem: Store, fwd: Forwarding, slots: map<int, Word>) {
    && (forall a :: a in g.slots ==> a in slots && a in g.mem && slots[a] == g.mem[a])
    && (forall b, i {:trigger FieldSlot(g, fwd, slots, b, i)} :: b in fwd ==> FieldSlot(g, fwd, slots, b, i))
    && (forall a :: a in slots ==> a in mem && !g.InArea(a) && SourceOk(g, slots[a]))
    && (forall a :: a in slots && a in g.mem ==> a in g.slots)
    && (forall a, b :: a in slots && b in fwd && fwd[b] - 1 <= a < fwd[b] + g.Size(b) ==> g.Scanned(b) && fwd[b] <= a)
  }

  ghost predicate Done(g: Nursery, mem: Store, fwd: Forwarding, slots: map<int, Word>, a: int) {
    a in slots && a in mem && (g.Young(slots[a]) ==> g.Base(slots[a].addr) in fwd) && mem[a] == Forward(g, fwd, slots[a])
  }

  /** Every slot but those of `todo` has been filled. */
  ghost predicate Filled(g: Nursery, mem: Store, fwd: Forwarding, slots: map<int, Word>, todo: set<int>) {
    forall a :: a in slots && a !in todo ==> Done(g, mem, fwd, slots, a)
  }

  /** Nothing else has changed, and nothing but the copies has been allocated. */
  ghost predicate RestKept(g: Nursery, mem: Store, fwd: Forwarding) {
    && (forall a :: a in g.mem ==> a in mem && (!g.InArea(a) && a !in g.slots ==> mem[a] == g.mem[a]))
    && (forall a :: a in mem && a !in g.mem ==> exists b :: b in fwd && fwd[b] - 1 <= a < fwd[b] + g.Size(b))
    && (forall b :: b in fwd ==> g.Reachable(b))
  }

  ghost predicate Copying(g: Nursery, mem: Store, fwd: Forwarding, slots: map<int, Word>, todo: set<int>) {
    && g.WellFormed()
    && YoungKept(g, mem, fwd)
    && CopiesOk(g, mem, fwd)
    && SlotsOk(g, mem, fwd, slots)
    && Filled(g, mem, fwd, slots, todo)
    && RestKept(g, mem, fwd)
  }

  lemma Starting(g: Nursery)
    requires g.WellFormed()
    ensures Copying(g, g.mem, map[], map a | a in g.slots && a in g.mem :: g.mem[a], g.slots)
  {
    forall a | a in g.slots ensures SourceOk(g, g.mem[a]) {
      assert g.SlotOk(a);
      if g.Young(g.mem[a]) {
        assert g.Reached(g.Base(g.mem[a].addr), 0) by {
          assert g.RefersTo(g.mem[a], g.Base(g.mem[a].addr));
        }
      }
    }
  }

  /** A copy is outside the young area. */
  lemma ForwardIsOld(g: Nursery, mem: Store, fwd: Forwarding, w: Word)
    requires g.WellFormed() && CopiesOk(g, mem, fwd) && g.PtrOk(w)
    requires g.Young(w) ==> g.Base(w.addr) in fwd
    ensures !g.Young(Forward(g, fwd, w))
  {
    hide Nursery.WellFormed;
    if g.Young(w) {
      var b := g.Base(w.addr);
      assert CopyOk(g, mem, fwd, b);
      InfixInside(g, w);
      assert fwd[b] + (w.addr - b) in mem;
    }
  }

  lemma InfixInside(g: Nursery, w: Word)
    requires g.WellFormed() && g.PtrOk(w) && g.Young(w)
    ensures var b := g.Base(w.addr); b in g.blocks && g.YoungBlockOk(b) && b <= w.addr < b + g.Size(b)
    ensures w.addr in g.blocks <==> w.addr == g.Base(w.addr)
  {
  }

  lemma FillYoung(g: Nursery, mem: Store, fwd: Forwarding, p: int, w: Word)
    requires YoungKept(g, mem, fwd) && !g.InArea(p)
    ensures YoungKept(g, mem[p := w], fwd)
  {
    hide YoungWord;
  }

  lemma FillCopies(g: Nursery, mem: Store, fwd: Forwarding, slots: map<int, Word>, p: int, w: Word)
    requires CopiesOk(g, mem, fwd) && SlotsOk(g, mem, fwd, slots) && p in slots
    ensures CopiesOk(g, mem[p := w], fwd)
  {
    hide Nursery.YoungBlockOk, SourceOk, FieldSlot, Nursery.Scanned, Nursery.Size;
    var mem' := mem[p := w];
    forall b | b in fwd ensures CopyOk(g, mem', fwd, b) {
      assert CopyOk(g, mem, fwd, b);
      forall i | 0 <= i < g.Size(b) && !g.Scanned(b) ensures RawField(g, mem', fwd, b, i) {
        assert RawField(g, mem, fwd, b, i);
      }
    }
  }

  lemma FillSlots(g: Nursery, mem: Store, fwd: Forwarding, slots: map<int, Word>, p: int, w: Word)
    requires SlotsOk(g, mem, fwd, slots)
    ensures SlotsOk(g, mem[p := w], fwd, slots)
  {
    hide SourceOk, FieldSlot, Nursery.Scanned, Nursery.Size;
  }

  lemma FillRest(g: Nursery, mem: Store, fwd: Forwarding, slots: map<int, Word>, p: int, w: Word)
    requires RestKept(g, mem, fwd) && SlotsOk(g, mem, fwd, slots) && p in slots
    ensures RestKept(g, mem[p := w], fwd)
  {
    hide SourceOk, FieldSlot, Nursery.Scanned, Nursery.Size, Nursery.Reachable;
  }

  /** A slot that is still to be filled may hold anything. */
  lemma WriteSlot(g: Nursery, mem: Store, fwd: Forwarding, slots: map<int, Word>, todo: set<int>, p: int, w: Word)
    requires Copying(g, mem, fwd, slots, todo) && p in slots && p in todo
    ensures Copying(g, mem[p := w], fwd, slots, todo) && !g.InArea(p)
  {
    hide Nursery.WellFormed, Forward, CopiesOk, RestKept, YoungKept, FieldSlot, SourceOk;
    FillYoung(g, mem, fwd, p, w);
    FillCopies(g, mem, fwd, slots, p, w);
    FillSlots(g, mem, fwd, slots, p, w);
    FillRest(g, mem, fwd, slots, p, w);
  }

  /** It no longer is, once it holds what it should. */
  lemma SlotDone(g: Nursery, mem: Store, fwd: Forwarding, slots: map<int, Word>, todo: set<int>, p: int)
    requires Copying(g, mem, fwd, slots, todo + {p}) && Done(g, mem, fwd, slots, p)
    ensures Copying(g, mem, fwd, slots, todo)
  {
    hide Nursery.WellFormed, Done, CopiesOk, RestKept, YoungKept, SlotsOk;
  }

  ghost predicate Fresh(g: Nursery, mem: Store, n: int, size: nat) {
    forall a :: n - 1 <= a < n + size ==> a !in mem && !g.InArea(a)
  }

  /** A block has been allocated at `n`; nothing is said about its fields. */
  ghost predicate Allocated(mem: Store, mem': Store, n: int, size: nat, tag: nat) {
    && (forall a :: a in mem ==> a in mem' && mem'[a] == mem[a])
    && (forall a :: n - 1 <= a < n + size ==> a in mem')
    && (forall a :: a in mem' ==> a in mem || n - 1 <= a < n + size)
    && mem'[n - 1].Hdr? && mem'[n - 1].size == size && mem'[n - 1].tag == tag
  }

  /** The block is copied: its copy may still have to be filled, but its place is known. */
  ghost function Forwarded(g: Nursery, mem: Store, b: int, n: int): Store
  {
    if b - 1 in g.mem && g.mem[b - 1].Hdr? then mem[b - 1 := g.mem[b - 1].(color := Blue)][b := Ptr(n)] else mem
  }

  /** The `count` addresses from `lo` on. */
  function Span(lo: int, count: nat): (s: set<int>)
    ensures forall a :: a in s <==> lo <= a < lo + count
    decreases count
  {
    if count == 0 then {} else {lo} + Span(lo + 1, count - 1)
  }

  ghost function NewSlots(g: Nursery, slots: map<int, Word>, b: int, n: int): map<int, Word> {
    if g.Scanned(b) then slots + (map a | a in Span(n, g.Size(b)) && b + (a - n) in g.mem :: g.mem[b + (a - n)]) else slots
  }

  ghost predicate BlockCopied(g: Nursery, mem: Store, mem1: Store, fwd: Forwarding, b: int, n: int) {
    && b in g.blocks && b !in fwd && g.YoungBlockOk(b)
    && Fresh(g, mem, n, g.Size(b))
    && Allocated(mem, mem1, n, g.Size(b), g.mem[b - 1].tag)
    && (!g.Scanned(b) ==> forall i {:trigger RawField(g, mem1, fwd[b := n], b, i)} :: 0 <= i < g.Size(b) ==> RawField(g, mem1, fwd[b := n], b, i))
  }

  lemma NewYoung(g: Nursery, mem: Store, mem1: Store, fwd: Forwarding, b: int, n: int)
    requires g.WellFormed() && YoungKept(g, mem, fwd) && BlockCopied(g, mem, mem1, fwd, b, n)
    ensures YoungKept(g, Forwarded(g, mem1, b, n), fwd[b := n])
  {
    hide Nursery.PtrOk, Nursery.SlotOk, Nursery.MajorBlockOk, Nursery.FieldOf, RawField, Nursery.Scanned, Fresh;
    assert b + 1 in g.blocks ==> b + g.Size(b) < b + 1;
  }

  lemma RangesApart(mem: Store, a: int, m: nat, n: int, k: nat)
    requires forall x :: a - 1 <= x < a + m ==> x in mem
    requires forall x :: n - 1 <= x < n + k ==> x !in mem
    ensures a + m < n || n + k < a
  {
    var x := if a < n then n - 1 else a - 1;
    assert x in mem || x !in mem;
  }

  lemma NewCopies(g: Nursery, mem: Store, mem1: Store, fwd: Forwarding, b: int, n: int)
    requires CopiesOk(g, mem, fwd) && BlockCopied(g, mem, mem1, fwd, b, n) && g.mem.Keys <= mem.Keys
    ensures CopiesOk(g, Forwarded(g, mem1, b, n), fwd[b := n])
  {
    hide Nursery.Scanned, Nursery.YoungBlockOk, Nursery.Size, Forwarded, BlockCopied, CopyOk;
    var mem2, fwd2 := Forwarded(g, mem1, b, n), fwd[b := n];
    forall c | c in fwd2 ensures CopyOk(g, mem2, fwd2, c) && (c != b ==> fwd[c] + g.Size(c) < n || n + g.Size(b) < fwd[c]) {
      if c != b {
        OldCopy(g, mem, mem1, fwd, b, n, c);
      } else {
        NewCopy(g, mem, mem1, fwd, b, n);
      }
    }
  }

  lemma OldCopy(g: Nursery, mem: Store, mem1: Store, fwd: Forwarding, b: int, n: int, c: int)
    requires c in fwd && CopyOk(g, mem, fwd, c) && BlockCopied(g, mem, mem1, fwd, b, n) && c != b
    ensures CopyOk(g, Forwarded(g, mem1, b, n), fwd[b := n], c)
    ensures fwd[c] + g.Size(c) < n || n + g.Size(b) < fwd[c]
  {
    hide Nursery.Scanned, Nursery.BlockOk, Nursery.Size, RawField;
    RangesApart(mem, fwd[c], g.Size(c), n, g.Size(b));
    var mem2, fwd2 := Forwarded(g, mem1, b, n), fwd[b := n];
    forall i | 0 <= i < g.Size(c) && !g.Scanned(c) ensures RawField(g, mem2, fwd2, c, i) {
      assert RawField(g, mem, fwd, c, i);
      SameRaw(g, mem, mem2, fwd, fwd2, c, i);
    }
  }

  lemma SameRaw(g: Nursery, mem: Store, mem': Store, fwd: Forwarding, fwd': Forwarding, c: int, i: int)
    requires c in fwd && c in fwd' && fwd'[c] == fwd[c] && RawField(g, mem, fwd, c, i)
    requires fwd[c] + i in mem' && fwd[c] + i in mem && mem'[fwd[c] + i] == mem[fwd[c] + i]
    ensures RawField(g, mem', fwd', c, i)
  {
  }

  lemma NewCopy(g: Nursery, mem: Store, mem1: Store, fwd: Forwarding, b: int, n: int)
    requires BlockCopied(g, mem, mem1, fwd, b, n) && g.mem.Keys <= mem.Keys
    ensures CopyOk(g, Forwarded(g, mem1, b, n), fwd[b := n], b)
  {
    hide Nursery.Scanned, RawField;
    var mem2, fwd2 := Forwarded(g, mem1, b, n), fwd[b := n];
    forall i | 0 <= i < g.Size(b) && !g.Scanned(b) ensures RawField(g, mem2, fwd2, b, i) {
      assert RawField(g, mem1, fwd2, b, i);
      assert n + i in mem1;
      SameRaw(g, mem1, mem2, fwd2, fwd2, b, i);
    }
  }

  lemma AllKept(g: Nursery, mem: Store, fwd: Forwarding)
    requires RestKept(g, mem, fwd)
    ensures g.mem.Keys <= mem.Keys
  {
    hide Nursery.Reachable;
    assert forall a :: a in g.mem ==> a in mem;
  }

  lemma NewSlotsOk(g: Nursery, mem: Store, mem1: Store, fwd: Forwarding, slots: map<int, Word>, b: int, n: int)
    requires g.WellFormed() && SlotsOk(g, mem, fwd, slots) && BlockCopied(g, mem, mem1, fwd, b, n) && CopiesOk(g, mem, fwd)
    requires g.mem.Keys <= mem.Keys && g.Reachable(b)
    ensures SlotsOk(g, Forwarded(g, mem1, b, n), fwd[b := n], NewSlots(g, slots, b, n))
  {
    hide Nursery.WellFormed, Nursery.Scanned, Nursery.BlockOk, Nursery.Size, SourceOk, FieldSlot, RawField, Nursery.Reachable, CopyOk, NewSlots;
    var mem2, fwd2, slots2 := Forwarded(g, mem1, b, n), fwd[b := n], NewSlots(g, slots, b, n);
    forall c, i | c in fwd2 ensures FieldSlot(g, fwd2, slots2, c, i) {
      NewFieldSlot(g, mem, mem1, fwd, slots, b, n, c, i);
    }
    NewSlotsKnown(g, slots, b, n);
    forall a | a in slots2 ensures a in mem2 && !g.InArea(a) && SourceOk(g, slots2[a]) && (a in g.mem ==> a in g.slots) {
      if a !in slots {
        NewSource(g, b, b + (a - n));
      }
    }
    forall a, c | a in slots2 && c in fwd2 && fwd2[c] - 1 <= a < fwd2[c] + g.Size(c) ensures g.Scanned(c) && fwd2[c] <= a {
      if c != b {
        assert CopyOk(g, mem, fwd, c);
        CopyInUse(g, mem, fwd, c);
      }
    }
    forall a | a in g.slots ensures a in slots2 && a in g.mem && slots2[a] == g.mem[a] {
    }
  }

  lemma CopyInUse(g: Nursery, mem: Store, fwd: Forwarding, c: int)
    requires c in fwd && CopyOk(g, mem, fwd, c)
    ensures forall a :: fwd[c] - 1 <= a < fwd[c] + g.Size(c) ==> a in mem
  {
  }

  lemma NewSlotsKnown(g: Nursery, slots: map<int, Word>, b: int, n: int)
    requires g.BlockOk(b)
    ensures var slots2 := NewSlots(g, slots, b, n);
      && (forall a :: a in slots2 ==> a in slots || (g.Scanned(b) && n <= a < n + g.Size(b)))
      && (forall a :: a in slots && !(n <= a < n + g.Size(b)) ==> a in slots2 && slots2[a] == slots[a])
      && (forall a :: g.Scanned(b) && n <= a < n + g.Size(b) ==> a in slots2 && b + (a - n) in g.mem && slots2[a] == g.mem[b + (a - n)])
  {
    hide Nursery.Scanned, Nursery.Size;
  }

  lemma NewFieldSlot(g: Nursery, mem: Store, mem1: Store, fwd: Forwarding, slots: map<int, Word>, b: int, n: int, c: int, i: int)
    requires SlotsOk(g, mem, fwd, slots) && BlockCopied(g, mem, mem1, fwd, b, n)
    requires c in fwd || c == b
    ensures FieldSlot(g, fwd[b := n], NewSlots(g, slots, b, n), c, i)
  {
    hide SourceOk, RawField, Nursery.YoungBlockOk;
    if c != b {
      assert FieldSlot(g, fwd, slots, c, i);
    }
  }

  /** What a field of a reachable block holds is reachable. */
  lemma NewSource(g: Nursery, b: int, a: int)
    requires g.WellFormed() && b in g.blocks && g.Reachable(b) && g.Scanned(b) && b <= a < b + g.Size(b) && a in g.mem
    ensures SourceOk(g, g.mem[a])
  {
    hide Nursery.Scanned, Nursery.BlockOk, Nursery.Size, Nursery.PtrOk;
    assert g.FieldOf(b, a);
    if g.Young(g.mem[a]) {
      var n: nat :| g.Reached(b, n);
      assert g.RefersTo(g.mem[a], g.Base(g.mem[a].addr));
      assert g.Reached(g.Base(g.mem[a].addr), n + 1);
    }
  }

  lemma NewFilled(g: Nursery, mem: Store, mem1: Store, fwd: Forwarding, slots: map<int, Word>, todo: set<int>, b: int, n: int)
    requires Filled(g, mem, fwd, slots, todo) && BlockCopied(g, mem, mem1, fwd, b, n) && SlotsOk(g, mem, fwd, slots)
    ensures Filled(g, Forwarded(g, mem1, b, n), fwd[b := n], NewSlots(g, slots, b, n), todo + if g.Scanned(b) then Span(n, g.Size(b)) else {})
  {
    hide Nursery.Scanned, Nursery.BlockOk, Nursery.Size, SourceOk, FieldSlot, RawField, Nursery.Base, Nursery.Young;
    var mem2, fwd2, slots2 := Forwarded(g, mem1, b, n), fwd[b := n], NewSlots(g, slots, b, n);
    forall a | Done(g, mem, fwd, slots, a) ensures Done(g, mem2, fwd2, slots2, a) {
    }
  }

  lemma NewRest(g: Nursery, mem: Store, mem1: Store, fwd: Forwarding, b: int, n: int)
    requires RestKept(g, mem, fwd) && BlockCopied(g, mem, mem1, fwd, b, n) && g.Reachable(b)
    ensures RestKept(g, Forwarded(g, mem1, b, n), fwd[b := n])
  {
    hide Nursery.Scanned, Nursery.Size, RawField, Nursery.Reachable;
    var mem2, fwd2 := Forwarded(g, mem1, b, n), fwd[b := n];
    forall a | a in mem2 && a !in g.mem ensures exists c :: c in fwd2 && fwd2[c] - 1 <= a < fwd2[c] + g.Size(c) {
      if a in mem {
        var c :| c in fwd && fwd[c] - 1 <= a < fwd[c] + g.Size(c);
        assert c in fwd2 && fwd2[c] == fwd[c];
      } else {
        assert b in fwd2;
      }
    }
  }

  /** A block is copied and its fields are put on the list of words to be filled. */
  lemma NewBlock(g: Nursery, mem: Store, mem1: Store, fwd: Forwarding, slots: map<int, Word>, todo: set<int>, b: int, n: int)
    requires Copying(g, mem, fwd, slots, todo) && BlockCopied(g, mem, mem1, fwd, b, n) && g.Reachable(b)
    ensures Copying(g, Forwarded(g, mem1, b, n), fwd[b := n], NewSlots(g, slots, b, n), todo + if g.Scanned(b) then Span(n, g.Size(b)) else {})
  {
    hide Nursery.WellFormed, CopiesOk, YoungKept, Filled, SlotsOk, BlockCopied, Nursery.Reachable, Nursery.Scanned;
    AllKept(g, mem, fwd);
    NewYoung(g, mem, mem1, fwd, b, n);
    NewCopies(g, mem, mem1, fwd, b, n);
    NewSlotsOk(g, mem, mem1, fwd, slots, b, n);
    NewFilled(g, mem, mem1, fwd, slots, todo, b, n);
    NewRest(g, mem, mem1, fwd, b, n);
  }

  /** What is found at a young pointer `v` while copying is under way: its header tells
      whether the block has been copied, and whether the pointer is to the block or into it. */
  ghost predicate YoungView(g: Nursery, mem: Store, fwd: Forwarding, v: int) {
    && v - 1 in mem && v - 1 in g.mem && mem[v - 1].Hdr? && g.mem[v - 1].Hdr? && v in mem
    && mem[v - 1].size == g.mem[v - 1].size && mem[v - 1].tag == g.mem[v - 1].tag
    && var b := g.Base(v);
    && g.Reachable(b) && b in g.blocks && g.YoungBlockOk(b) && !g.IsInfix(b)
    && (mem[v - 1].color == Blue <==> v in fwd)
    && (v in fwd ==> v == b && mem[v] == Ptr(fwd[v]))
    && (mem[v - 1].tag == INFIX_TAG <==> v != b) && (g.IsInfix(v) <==> v != b)
    && (v != b ==> b == v - mem[v - 1].size && SourceOk(g, Ptr(b)) && g.Young(Ptr(b)) && g.Base(b) == b)
    && (v == b && v !in fwd ==> mem[v - 1] == g.mem[v - 1])
    && (g.Scanned(v) <==> mem[v - 1].tag < NO_SCAN_TAG) && g.Size(v) == mem[v - 1].size
  }

  lemma LookYoung(g: Nursery, mem: Store, fwd: Forwarding, slots: map<int, Word>, todo: set<int>, w: Word)
    requires Copying(g, mem, fwd, slots, todo) && SourceOk(g, w) && g.Young(w)
    ensures YoungView(g, mem, fwd, w.addr)
  {
    hide CopiesOk, SlotsOk, RestKept, Filled, Nursery.Reachable, Nursery.MajorBlockOk, Nursery.SlotOk;
    InfixInside(g, w);
    var v, b := w.addr, g.Base(w.addr);
    assert v - 1 in g.mem && g.InArea(v - 1) && g.mem[v - 1].color != Blue;
  }

  /** The fields of a block that is being copied can still be read, but for the first one. */
  lemma LookField(g: Nursery, mem: Store, fwd: Forwarding, slots: map<int, Word>, todo: set<int>, b: int, i: nat)
    requires Copying(g, mem, fwd, slots, todo) && b in g.blocks && i < g.Size(b) && (i > 0 || b !in fwd)
    ensures b + i in mem && b + i in g.mem && mem[b + i] == g.mem[b + i]
  {
    hide CopiesOk, SlotsOk, RestKept, Filled, Nursery.Reachable, Nursery.MajorBlockOk, Nursery.SlotOk, Nursery.PtrOk;
    assert g.YoungBlockOk(b);
    assert g.InArea(b + i);
  }

  lemma LookSlot(g: Nursery, mem: Store, fwd: Forwarding, slots: map<int, Word>, todo: set<int>, b: int, i: nat)
    requires Copying(g, mem, fwd, slots, todo) && b in fwd && g.Scanned(b) && i < g.Size(b)
    ensures b + i in g.mem && fwd[b] + i in slots && slots[fwd[b] + i] == g.mem[b + i] && SourceOk(g, g.mem[b + i])
  {
    hide YoungKept, RestKept, Filled, SourceOk, Nursery.WellFormed, Nursery.BlockOk;
    assert CopyOk(g, mem, fwd, b);
    FieldInMem(g, b, i);
    assert FieldSlot(g, fwd, slots, b, i);
  }

  lemma FieldInMem(g: Nursery, b: int, i: nat)
    requires g.YoungBlockOk(b) && i < g.Size(b)
    ensures b + i in g.mem
  {
  }
}
