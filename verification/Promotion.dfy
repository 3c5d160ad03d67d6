/** What a minor collection achieves: the young blocks that could be reached, and no others,
    have one copy each, and the program cannot tell the difference. */
module Promotion {
  import opened Words
  import opened Nurseries

  ghost predicate CopiedField(g: Nursery, mem: Store, fwd: Forwarding, b: int, i: int)
    requires b in fwd
  {
    g.Scanned(b) && 0 <= i < g.Size(b) ==> b + i in g.mem && fwd[b] + i in mem && mem[fwd[b] + i] == Forward(g, fwd, g.mem[b + i])
  }

  ghost predicate Collected(g: Nursery, mem: Store, fwd: Forwarding) {
    && (forall b :: b in fwd <==> g.Reachable(b))
    && CopiesOk(g, mem, fwd)
    && (forall b, i {:trigger CopiedField(g, mem, fwd, b, i)} :: b in fwd ==> CopiedField(g, mem, fwd, b, i))
    && (forall a :: a in g.slots ==> a in mem && a in g.mem && mem[a] == Forward(g, fwd, g.mem[a]))
    && (forall a :: a in g.mem && !g.InArea(a) && a !in g.slots ==> a in mem && mem[a] == g.mem[a])
    && (forall a :: a in mem && a !in g.mem ==> exists b :: b in fwd && fwd[b] - 1 <= a < fwd[b] + g.Size(b))
  }

  lemma {:induction false} ReachedCopied(g: Nursery, mem: Store, fwd: Forwarding, slots: map<int, Word>, b: int, n: nat)
    requires Copying(g, mem, fwd, slots, {}) && g.Reached(b, n)
    ensures b in fwd
    decreases n
  {
    hide YoungKept, CopiesOk, RestKept, Nursery.WellFormed, FieldSlot, SourceOk, Nursery.Base, Nursery.Size, Nursery.Scanned;
    if n == 0 {
      var a :| a in g.slots && a in g.mem && g.RefersTo(g.mem[a], b);
      assert Done(g, mem, fwd, slots, a);
    } else {
      var c, a :| g.Reached(c, n - 1) && c in g.blocks && g.FieldOf(c, a) && g.RefersTo(g.mem[a], b);
      ReachedCopied(g, mem, fwd, slots, c, n - 1);
      assert g.Scanned(c) && c <= a < c + g.Size(c);
      LookSlot(g, mem, fwd, slots, {}, c, a - c);
      assert Done(g, mem, fwd, slots, fwd[c] + (a - c));
    }
  }

  /** When no slot is left to be filled, the collection is complete. */
  lemma AllFilled(g: Nursery, mem: Store, fwd: Forwarding, slots: map<int, Word>)
    requires Copying(g, mem, fwd, slots, {})
    ensures Collected(g, mem, fwd)
  {
    hide YoungKept, CopiesOk, Nursery.WellFormed, FieldSlot, SourceOk, Nursery.Base, Nursery.Size, Nursery.Scanned, Nursery.Reached;
    forall b | g.Reachable(b) ensures b in fwd {
      var n: nat :| g.Reached(b, n);
      ReachedCopied(g, mem, fwd, slots, b, n);
    }
    forall b, i | b in fwd ensures CopiedField(g, mem, fwd, b, i) {
      if g.Scanned(b) && 0 <= i < g.Size(b) {
        LookSlot(g, mem, fwd, slots, {}, b, i);
        assert Done(g, mem, fwd, slots, fwd[b] + i);
      }
    }
    forall a | a in g.slots ensures Done(g, mem, fwd, slots, a) { }
  }

  // The mutator's view.

  /** The block that a pointer leads to, or into. */
  ghost function BlockOf(mem: Store, v: int): int {
    if v - 1 in mem && mem[v - 1].Hdr? && mem[v - 1].tag == INFIX_TAG then v - mem[v - 1].size else v
  }

  /** `w` is a pointer to, or into, a block among `known`. */
  ghost predicate Leads(mem: Store, known: set<int>, w: Word) {
    w.Ptr? && BlockOf(mem, w.addr) in known
  }

  /** The word reached from `w` by following the fields numbered in `path`, if there is one. */
  ghost function Follow(mem: Store, known: set<int>, w: Word, path: seq<nat>): (r: Word)
    decreases |path|
  {
    if path == [] then w
    else if Leads(mem, known, w) then
      var b := BlockOf(mem, w.addr);
      if b - 1 in mem && mem[b - 1].Hdr? && mem[b - 1].tag < NO_SCAN_TAG && path[0] < mem[b - 1].size && b + path[0] in mem
      then Follow(mem, known, mem[b + path[0]], path[1..])
      else Int(0)
    else Int(0)
  }

  /** A pointer out of the young area leads to memory in use, outside the young area. */
  ghost predicate OldPtrOk(g: Nursery, w: Word) {
    w.Ptr? && !g.Young(w) ==>
      w.addr - 1 in g.mem && !g.InArea(w.addr - 1) && BlockOf(g.mem, w.addr) - 1 in g.mem && BlockOf(g.mem, w.addr) !in g.blocks
  }

  ghost predicate PointersInUse(g: Nursery) {
    && (forall a :: a in g.slots && a in g.mem ==> OldPtrOk(g, g.mem[a]))
    && (forall b, a :: (b in g.blocks || b in g.majors) && g.FieldOf(b, a) ==> OldPtrOk(g, g.mem[a]))
  }

  ghost function KnownBefore(g: Nursery): set<int> {
    g.majors + g.blocks
  }

  ghost function Copies(fwd: Forwarding): set<int> {
    set b | b in fwd :: fwd[b]
  }

  ghost function KnownAfter(g: Nursery, fwd: Forwarding): set<int> {
    g.majors + Copies(fwd)
  }

  /** A value that can be reached. */
  ghost predicate Live(g: Nursery, fwd: Forwarding, w: Word) {
    OldPtrOk(g, w) && g.PtrOk(w) && (g.Young(w) ==> g.Base(w.addr) in fwd)
  }

  /** A block and its copy: the same size and tag, and fields that became what they should. */
  ghost predicate Alike(g: Nursery, mem: Store, fwd: Forwarding, b: int, b': int) {
    && b - 1 in g.mem && b' - 1 in mem && g.mem[b - 1].Hdr? && mem[b' - 1].Hdr?
    && mem[b' - 1].size == g.mem[b - 1].size && mem[b' - 1].tag == g.mem[b - 1].tag
    && (g.Scanned(b) ==> forall i {:trigger AlikeField(g, mem, fwd, b, b', i)} :: 0 <= i < g.Size(b) ==> AlikeField(g, mem, fwd, b, b', i))
  }

  ghost predicate AlikeField(g: Nursery, mem: Store, fwd: Forwarding, b: int, b': int, i: int) {
    b + i in g.mem && b' + i in mem && mem[b' + i] == Forward(g, fwd, g.mem[b + i]) && Live(g, fwd, g.mem[b + i])
  }

  lemma FieldLives(g: Nursery, mem: Store, fwd: Forwarding, b: int, i: nat)
    requires g.WellFormed() && PointersInUse(g) && Collected(g, mem, fwd)
    requires b in fwd && b in g.blocks && g.Scanned(b) && i < g.Size(b)
    ensures AlikeField(g, mem, fwd, b, fwd[b], i)
  {
    hide CopiesOk, Nursery.Reachable, Nursery.Scanned, Nursery.Size, Nursery.BlockOk, OldPtrOk, Nursery.PtrOk, Forward, Nursery.SlotOk, Nursery.MajorBlockOk;
    assert g.YoungBlockOk(b);
    assert CopiedField(g, mem, fwd, b, i);
    NewSource(g, b, b + i);
    assert g.FieldOf(b, b + i);
  }

  lemma CopyAlike(g: Nursery, mem: Store, fwd: Forwarding, b: int)
    requires g.WellFormed() && PointersInUse(g) && Collected(g, mem, fwd) && b in fwd && b in g.blocks
    ensures Alike(g, mem, fwd, b, fwd[b])
  {
    hide Nursery.WellFormed, PointersInUse, Collected, Nursery.BlockOk, AlikeField;
    CopyHeader(g, mem, fwd, b);
    if g.Scanned(b) {
      forall i | 0 <= i < g.Size(b) ensures AlikeField(g, mem, fwd, b, fwd[b], i) {
        FieldLives(g, mem, fwd, b, i);
      }
    }
  }

  lemma CopyHeader(g: Nursery, mem: Store, fwd: Forwarding, b: int)
    requires Collected(g, mem, fwd) && b in fwd
    ensures CopyOk(g, mem, fwd, b)
  {
    hide CopyOk, CopiedField, Nursery.Reachable, Forward, Nursery.Size;
  }

  lemma MajorAlike(g: Nursery, mem: Store, fwd: Forwarding, b: int)
    requires g.WellFormed() && PointersInUse(g) && Collected(g, mem, fwd) && b in g.majors
    ensures Alike(g, mem, fwd, b, b)
  {
    hide Nursery.WellFormed, PointersInUse, Collected, AlikeField, Nursery.BlockOk;
    MajorHeader(g, mem, fwd, b);
    if g.Scanned(b) {
      forall i | 0 <= i < g.Size(b) ensures AlikeField(g, mem, fwd, b, b, i) {
        MajorField(g, mem, fwd, b, i);
      }
    }
  }

  lemma MajorHeader(g: Nursery, mem: Store, fwd: Forwarding, b: int)
    requires g.WellFormed() && Collected(g, mem, fwd) && b in g.majors
    ensures b - 1 in mem && b - 1 in g.mem && mem[b - 1] == g.mem[b - 1] && g.mem[b - 1].Hdr? && g.MajorBlockOk(b) && g.BlockOk(b)
  {
    hide CopiesOk, Nursery.Reachable, Nursery.PtrOk, Nursery.YoungBlockOk, CopiedField;
    assert g.MajorBlockOk(b);
    assert b - 1 in g.slots ==> g.SlotOk(b - 1);
    assert g.BlockOk(b);
  }

  lemma MajorField(g: Nursery, mem: Store, fwd: Forwarding, b: int, i: nat)
    requires g.WellFormed() && PointersInUse(g) && Collected(g, mem, fwd) && b in g.majors && g.Scanned(b) && i < g.Size(b)
    ensures AlikeField(g, mem, fwd, b, b, i)
  {
    hide CopiesOk, Nursery.Reachable, Nursery.YoungBlockOk, CopiedField, Nursery.Scanned, Nursery.Size, Nursery.PtrOk, OldPtrOk, Forward, Nursery.Base;
    var a := b + i;
    assert g.MajorBlockOk(b) && g.BlockOk(b);
    assert a in g.mem && g.FieldOf(b, a) && !g.InArea(a);
    if g.Young(g.mem[a]) {
      assert g.SlotOk(a);
      SlotReaches(g, a);
    } else {
      ForwardOld(g, fwd, g.mem[a]);
    }
  }

  lemma ForwardOld(g: Nursery, fwd: Forwarding, w: Word)
    requires !g.Young(w)
    ensures Forward(g, fwd, w) == w && g.PtrOk(w)
  {
  }

  lemma SlotReaches(g: Nursery, a: int)
    requires a in g.slots && a in g.mem && g.Young(g.mem[a])
    ensures g.Reachable(g.Base(g.mem[a].addr))
  {
    assert g.RefersTo(g.mem[a], g.Base(g.mem[a].addr));
    assert g.Reached(g.Base(g.mem[a].addr), 0);
  }

  lemma SlotLives(g: Nursery, mem: Store, fwd: Forwarding, a: int)
    requires g.WellFormed() && PointersInUse(g) && Collected(g, mem, fwd) && a in g.slots
    ensures a in g.mem && a in mem && Live(g, fwd, g.mem[a]) && mem[a] == Forward(g, fwd, g.mem[a])
  {
    hide CopiesOk, Nursery.Reachable, Nursery.YoungBlockOk, CopiedField, Nursery.PtrOk, OldPtrOk, Forward, Nursery.Base;
    assert g.SlotOk(a);
    if g.Young(g.mem[a]) {
      SlotReaches(g, a);
    }
  }

  /** Where a live pointer to a young block leads after the collection. */
  lemma YoungLeads(g: Nursery, mem: Store, fwd: Forwarding, w: Word)
    requires g.WellFormed() && PointersInUse(g) && Collected(g, mem, fwd) && Live(g, fwd, w) && g.Young(w)
    ensures var b := g.Base(w.addr);
      && b in g.blocks && b in fwd && BlockOf(g.mem, w.addr) == b && 0 <= w.addr - b < g.Size(b)
      && Forward(g, fwd, w) == Ptr(fwd[b] + (w.addr - b)) && BlockOf(mem, fwd[b] + (w.addr - b)) == fwd[b]
  {
    hide CopiesOk, Nursery.Reachable, Collected, PointersInUse, OldPtrOk, CopyOk, Nursery.MajorBlockOk, Nursery.SlotOk;
    InfixInside(g, w);
    var b, i := g.Base(w.addr), w.addr - g.Base(w.addr);
    CopyHeader(g, mem, fwd, b);
    if i == 0 {
      CopyNotInfix(g, mem, fwd, b);
    } else {
      FieldLives(g, mem, fwd, b, i - 1);
    }
  }

  lemma CopyNotInfix(g: Nursery, mem: Store, fwd: Forwarding, b: int)
    requires b in fwd && CopyOk(g, mem, fwd, b)
    ensures BlockOf(mem, fwd[b]) == fwd[b]
  {
  }

  /** Other pointers lead where they did. */
  lemma OldLeads(g: Nursery, mem: Store, fwd: Forwarding, w: Word)
    requires g.WellFormed() && Collected(g, mem, fwd) && Live(g, fwd, w) && w.Ptr? && !g.Young(w)
    ensures Forward(g, fwd, w) == w && BlockOf(mem, w.addr) == BlockOf(g.mem, w.addr)
    ensures w.addr - 1 in g.mem && BlockOf(g.mem, w.addr) !in g.blocks && BlockOf(g.mem, w.addr) !in Copies(fwd)
  {
    hide CopiesOk, Nursery.Reachable, Nursery.PtrOk, CopiedField, Nursery.WellFormed;
    var b := BlockOf(g.mem, w.addr);
    if b in Copies(fwd) {
      var c :| c in fwd && fwd[c] == b;
      CopyHeader(g, mem, fwd, c);
      CopyIsNew(g, mem, fwd, c);
    }
  }

  lemma CopyIsNew(g: Nursery, mem: Store, fwd: Forwarding, b: int)
    requires b in fwd && CopyOk(g, mem, fwd, b)
    ensures forall a :: fwd[b] - 1 <= a < fwd[b] + g.Size(b) ==> a !in g.mem
    ensures fwd[b] - 1 !in g.mem
  {
    assert fwd[b] - 1 in mem;
  }

  /** A live pointer leads to a block before the collection exactly if what it has become
      leads to one afterwards; the two blocks are alike, and the pointer is at the same
      place in both. */
  lemma LeadsAlike(g: Nursery, mem: Store, fwd: Forwarding, w: Word)
    requires g.WellFormed() && PointersInUse(g) && Collected(g, mem, fwd) && Live(g, fwd, w)
    ensures var w' := Forward(g, fwd, w);
      && (Leads(mem, KnownAfter(g, fwd), w') <==> Leads(g.mem, KnownBefore(g), w))
      && (Leads(g.mem, KnownBefore(g), w) ==>
        var b, b' := BlockOf(g.mem, w.addr), BlockOf(mem, w'.addr);
        Alike(g, mem, fwd, b, b') && w'.addr - b' == w.addr - b)
      && (!Leads(g.mem, KnownBefore(g), w) ==> w' == w)
  {
    hide Nursery.WellFormed, PointersInUse, Collected, Alike, OldPtrOk, BlockOf, Forward, Nursery.PtrOk, Nursery.Base, Live;
    if g.Young(w) {
      YoungLeads(g, mem, fwd, w);
      CopyAlike(g, mem, fwd, g.Base(w.addr));
      assert fwd[g.Base(w.addr)] in Copies(fwd);
    } else if w.Ptr? {
      OldLeads(g, mem, fwd, w);
      if BlockOf(g.mem, w.addr) in g.majors {
        MajorAlike(g, mem, fwd, BlockOf(g.mem, w.addr));
      }
    } else {
      ForwardOld(g, fwd, w);
    }
  }

  /** Following a path and collecting commute. */
  lemma {:induction false} FollowForwarded(g: Nursery, mem: Store, fwd: Forwarding, w: Word, path: seq<nat>)
    requires g.WellFormed() && PointersInUse(g) && Collected(g, mem, fwd) && Live(g, fwd, w)
    ensures var r := Follow(g.mem, KnownBefore(g), w, path);
      Live(g, fwd, r) && Follow(mem, KnownAfter(g, fwd), Forward(g, fwd, w), path) == Forward(g, fwd, r)
    decreases |path|
  {
    hide Nursery.WellFormed, PointersInUse, Collected, OldPtrOk, BlockOf, Forward, Nursery.PtrOk, Nursery.Scanned, Nursery.Size, Live, KnownBefore, KnownAfter;
    LeadsAlike(g, mem, fwd, w);
    NoLink(g, fwd);
    if path != [] && Leads(g.mem, KnownBefore(g), w) {
      AlikeStep(g, mem, fwd, w, Forward(g, fwd, w), path[0]);
      var b := BlockOf(g.mem, w.addr);
      if b - 1 in g.mem && g.mem[b - 1].Hdr? && g.mem[b - 1].tag < NO_SCAN_TAG && path[0] < g.mem[b - 1].size && b + path[0] in g.mem {
        FollowForwarded(g, mem, fwd, g.mem[b + path[0]], path[1..]);
      }
    }
  }

  lemma NoLink(g: Nursery, fwd: Forwarding)
    ensures Live(g, fwd, Int(0)) && Forward(g, fwd, Int(0)) == Int(0)
  {
  }

  lemma AlikeStep(g: Nursery, mem: Store, fwd: Forwarding, w: Word, w': Word, i: nat)
    requires w.Ptr? && w'.Ptr? && Alike(g, mem, fwd, BlockOf(g.mem, w.addr), BlockOf(mem, w'.addr))
    ensures var b, b' := BlockOf(g.mem, w.addr), BlockOf(mem, w'.addr);
      && b - 1 in g.mem && b' - 1 in mem && g.mem[b - 1].Hdr? && mem[b' - 1].Hdr?
      && mem[b' - 1].size == g.mem[b - 1].size && mem[b' - 1].tag == g.mem[b - 1].tag
      && (g.mem[b - 1].tag < NO_SCAN_TAG && i < g.mem[b - 1].size ==> AlikeField(g, mem, fwd, b, b', i))
  {
    hide AlikeField, BlockOf;
  }

  /** Different values stay different: no two blocks get the same copy. */
  lemma ForwardInjective(g: Nursery, mem: Store, fwd: Forwarding, v: Word, w: Word)
    requires g.WellFormed() && PointersInUse(g) && Collected(g, mem, fwd) && Live(g, fwd, v) && Live(g, fwd, w)
    requires Forward(g, fwd, v) == Forward(g, fwd, w)
    ensures v == w
  {
    hide Nursery.WellFormed, PointersInUse, Nursery.PtrOk, Live, OldPtrOk, BlockOf, CopiesOk, Nursery.Base, Nursery.Size, CopiedField;
    if g.Young(v) && g.Young(w) {
      YoungLeads(g, mem, fwd, v);
      YoungLeads(g, mem, fwd, w);
      CopiesApart(g, mem, fwd, g.Base(v.addr), g.Base(w.addr));
    } else if g.Young(v) {
      YoungNotOld(g, mem, fwd, v, w);
    } else if g.Young(w) {
      YoungNotOld(g, mem, fwd, w, v);
    }
  }

  lemma CopiesApart(g: Nursery, mem: Store, fwd: Forwarding, b: int, c: int)
    requires CopiesOk(g, mem, fwd) && b in fwd && c in fwd
    ensures b == c || fwd[b] + g.Size(b) < fwd[c] || fwd[c] + g.Size(c) < fwd[b]
  {
    hide CopyOk, Nursery.Size;
  }

  lemma YoungNotOld(g: Nursery, mem: Store, fwd: Forwarding, v: Word, w: Word)
    requires g.WellFormed() && PointersInUse(g) && Collected(g, mem, fwd) && Live(g, fwd, v) && Live(g, fwd, w)
    requires g.Young(v) && !g.Young(w)
    ensures Forward(g, fwd, v) != Forward(g, fwd, w)
  {
    hide Nursery.WellFormed, PointersInUse, Nursery.PtrOk, Live, OldPtrOk, BlockOf, Nursery.Base, Nursery.Size, Collected;
    ForwardOld(g, fwd, w);
    YoungLeads(g, mem, fwd, v);
    CopyHeader(g, mem, fwd, g.Base(v.addr));
    CopyIsNew(g, mem, fwd, g.Base(v.addr));
    if w.Ptr? {
      OldLeads(g, mem, fwd, w);
    }
  }

  // The main results.

  /** No root, field of the major heap, or field of a copy holds a young pointer any more. */
  lemma NoYoungLeft(g: Nursery, mem: Store, fwd: Forwarding)
    requires g.WellFormed() && PointersInUse(g) && Collected(g, mem, fwd)
    ensures forall a :: a in g.slots ==> a in mem && !g.Young(mem[a])
    ensures forall b, a :: b in g.majors && g.FieldOf(b, a) ==> a in mem && !g.Young(mem[a])
    ensures forall b, a :: b in fwd && g.Scanned(b) && fwd[b] <= a < fwd[b] + g.Size(b) ==> a in mem && !g.Young(mem[a])
  {
    hide Nursery.WellFormed, PointersInUse, Collected, OldPtrOk, Forward, Nursery.PtrOk, Nursery.Base, Nursery.Young, Nursery.Scanned, Nursery.Size;
    CollectedCopies(g, mem, fwd);
    forall a | a in g.slots ensures a in mem && !g.Young(mem[a]) {
      SlotLives(g, mem, fwd, a);
      ForwardIsOld(g, mem, fwd, g.mem[a]);
    }
    forall b, a | b in g.majors && g.FieldOf(b, a) ensures a in mem && !g.Young(mem[a]) {
      MajorField(g, mem, fwd, b, a - b);
      ForwardIsOld(g, mem, fwd, g.mem[a]);
    }
    forall b, a | b in fwd && g.Scanned(b) && fwd[b] <= a < fwd[b] + g.Size(b) ensures a in mem && !g.Young(mem[a]) {
      FieldLives(g, mem, fwd, b, a - fwd[b]);
      ForwardIsOld(g, mem, fwd, g.mem[b + (a - fwd[b])]);
    }
  }

  lemma CollectedCopies(g: Nursery, mem: Store, fwd: Forwarding)
    requires g.WellFormed() && Collected(g, mem, fwd)
    ensures CopiesOk(g, mem, fwd) && forall b :: b in fwd ==> b in g.blocks
  {
    hide CopyOk, CopiedField, Forward, Nursery.YoungBlockOk, Nursery.PtrOk, Nursery.SlotOk, Nursery.MajorBlockOk;
    forall b | g.Reachable(b) ensures b in g.blocks {
      var n: nat :| g.Reached(b, n);
      ReachedYoung(g, b, n);
    }
  }

  lemma ReachedYoung(g: Nursery, b: int, n: nat)
    requires g.WellFormed() && g.Reached(b, n)
    ensures b in g.blocks
  {
    hide Nursery.YoungBlockOk, Nursery.MajorBlockOk;
    if n == 0 {
      var a :| a in g.slots && a in g.mem && g.RefersTo(g.mem[a], b);
      assert g.SlotOk(a);
      InfixInside(g, g.mem[a]);
    } else {
      var c, a :| g.Reached(c, n - 1) && c in g.blocks && g.FieldOf(c, a) && g.RefersTo(g.mem[a], b);
      InfixInside(g, g.mem[a]);
    }
  }

  /** No program can tell: from any root, along any path, it finds the same integers and
      foreign pointers, and blocks of the same size and tag, as before. */
  lemma SamePaths(g: Nursery, mem: Store, fwd: Forwarding, r: int, path: seq<nat>)
    requires g.WellFormed() && PointersInUse(g) && Collected(g, mem, fwd) && r in g.slots
    ensures r in g.mem && r in mem
    ensures var before, after := Follow(g.mem, KnownBefore(g), g.mem[r], path), Follow(mem, KnownAfter(g, fwd), mem[r], path);
      if Leads(g.mem, KnownBefore(g), before)
      then
        && Leads(mem, KnownAfter(g, fwd), after)
        && var b, b' := BlockOf(g.mem, before.addr), BlockOf(mem, after.addr);
        && after.addr - b' == before.addr - b
        && b - 1 in g.mem && b' - 1 in mem && g.mem[b - 1].Hdr? && mem[b' - 1].Hdr?
        && mem[b' - 1].size == g.mem[b - 1].size && mem[b' - 1].tag == g.mem[b - 1].tag
      else after == before
  {
    hide Nursery.WellFormed, PointersInUse, Collected, OldPtrOk, BlockOf, Forward, Nursery.PtrOk, Nursery.Scanned, Nursery.Size, Live, KnownBefore, KnownAfter, Follow, AlikeField;
    SlotLives(g, mem, fwd, r);
    FollowForwarded(g, mem, fwd, g.mem[r], path);
    LeadsAlike(g, mem, fwd, Follow(g.mem, KnownBefore(g), g.mem[r], path));
  }

  /** Sharing is preserved: two paths lead to the same value afterwards exactly if they did before. */
  lemma SameSharing(g: Nursery, mem: Store, fwd: Forwarding, r: int, path: seq<nat>, r': int, path': seq<nat>)
    requires g.WellFormed() && PointersInUse(g) && Collected(g, mem, fwd) && r in g.slots && r' in g.slots
    ensures r in g.mem && r in mem && r' in g.mem && r' in mem
    ensures Follow(mem, KnownAfter(g, fwd), mem[r], path) == Follow(mem, KnownAfter(g, fwd), mem[r'], path')
      <==> Follow(g.mem, KnownBefore(g), g.mem[r], path) == Follow(g.mem, KnownBefore(g), g.mem[r'], path')
  {
    hide Nursery.WellFormed, PointersInUse, Collected, OldPtrOk, BlockOf, Forward, Nursery.PtrOk, Nursery.Scanned, Nursery.Size, Live, KnownBefore, KnownAfter, Follow;
    SlotLives(g, mem, fwd, r);
    SlotLives(g, mem, fwd, r');
    FollowForwarded(g, mem, fwd, g.mem[r], path);
    FollowForwarded(g, mem, fwd, g.mem[r'], path');
    var v, w := Follow(g.mem, KnownBefore(g), g.mem[r], path), Follow(g.mem, KnownBefore(g), g.mem[r'], path');
    if Forward(g, fwd, v) == Forward(g, fwd, w) {
      ForwardInjective(g, mem, fwd, v, w);
    }
  }
}
