/** What a value is externed as: the graph it leads to, in depth-first order, each object
    written out where it is first met. */
module Dumping {
  import opened Bytes
  import opened Items

  datatype Value = Int(n: int) | Atom(tag: nat) | Ref(addr: int)

  /** An object in the heap. What an opaque one holds is known to the program only. */
  datatype Obj = Tuple(tag: nat, fields: seq<Value>) | Str(chars: seq<Byte>) | Dbl(image: seq<Byte>) | Opaque(tag: nat)

  type Graph = map<int, Obj>

  ghost predicate ValueIn(g: Graph, v: Value) {
    v.Ref? ==> v.addr in g
  }

  /** No pointer leads out of the graph. An object has at least one field: a block without
      fields is an atom. */
  ghost predicate Closed(g: Graph) {
    forall a :: a in g && g[a].Tuple? ==> |g[a].fields| > 0 && forall i :: 0 <= i < |g[a].fields| ==> ValueIn(g, g[a].fields[i])
  }

  // The objects met so far, in order.

  ghost predicate Distinct(order: seq<int>) {
    forall i, j :: 0 <= i < j < |order| ==> order[i] != order[j]
  }

  ghost predicate Seen(g: Graph, order: seq<int>) {
    Distinct(order) && forall a :: a in order ==> a in g
  }

  ghost function IndexOf(order: seq<int>, a: int): (i: nat)
    requires a in order
    ensures i < |order| && order[i] == a
    ensures forall j :: 0 <= j < i ==> order[j] != a
  {
    if order[0] == a then 0 else 1 + IndexOf(order[1..], a)
  }

  ghost function Unseen(g: Graph, order: seq<int>): set<int> {
    set a | a in g && a !in order
  }

  lemma UnseenLess(g: Graph, order: seq<int>, order': seq<int>)
    requires order <= order'
    ensures |Unseen(g, order')| <= |Unseen(g, order)|
    ensures forall a :: a in g && a !in order && a in order' ==> |Unseen(g, order')| < |Unseen(g, order)|
  {
    assert Unseen(g, order') <= Unseen(g, order) by {
      forall a | a in order ensures a in order' {
        assert order'[IndexOf(order, a)] == a;
      }
    }
    Subset(Unseen(g, order'), Unseen(g, order));
    forall a | a in g && a !in order && a in order' ensures |Unseen(g, order')| < |Unseen(g, order)| {
      Subset(Unseen(g, order'), Unseen(g, order) - {a});
    }
  }

  lemma Subset(s: set<int>, t: set<int>)
    requires forall x :: x in s ==> x in t
    ensures s <= t && |s| <= |t|
  {
    assert (forall x | x in s :: x in t) ==> s <= t;
    if s != {} {
      assert (forall x :: x !in s) ==> s == {};
      var x :| x in s;
      Subset(s - {x}, t - {x});
    }
  }

  lemma SeenMore(g: Graph, order: seq<int>, a: int)
    requires Seen(g, order) && a in g && a !in order
    ensures Seen(g, order + [a]) && a in order + [a]
  {
    assert (order + [a])[|order|] == a;
  }

  /** The item written for `v` after the objects of `order`, and the objects met by then.
      When an opaque object is met, writing fails; an item that is never written stands for it. */
  ghost function Dump(g: Graph, v: Value, order: seq<int>): (r: (Item, seq<int>))
    requires Closed(g) && ValueIn(g, v) && Seen(g, order)
    ensures order <= r.1 && Seen(g, r.1)
    decreases |Unseen(g, order)|, 0
  {
    match v
    case Int(n) => (IntItem(n), order)
    case Atom(tag) => (AtomItem(tag), order)
    case Ref(a) =>
      if a in order then (SharedItem(|order| - IndexOf(order, a)), order)
      else
        SeenMore(g, order, a);
        UnseenLess(g, order, order + [a]);
        match g[a]
        case Str(chars) => (StrItem(chars), order + [a])
        case Dbl(image) => (DblItem(image), order + [a])
        case Opaque(_) => (StrItem([]), order + [a])
        case Tuple(tag, fields) =>
          var r := DumpAll(g, fields, order + [a]);
          (BlockItem(tag, r.0), r.1)
  }

  ghost function DumpAll(g: Graph, vs: seq<Value>, order: seq<int>): (r: (Items, seq<int>))
    requires Closed(g) && (forall i :: 0 <= i < |vs| ==> ValueIn(g, vs[i])) && Seen(g, order)
    ensures order <= r.1 && Seen(g, r.1) && r.0.Length() == |vs|
    decreases |Unseen(g, order)|, 1 + |vs|
  {
    if vs == [] then (Nil, order)
    else
      var first := Dump(g, vs[0], order);
      UnseenLess(g, order, first.1);
      var rest := DumpAll(g, vs[1..], first.1);
      (Cons(first.0, rest.0), rest.1)
  }

  // The counters.

  /** The number of words an item takes up when words have `ws` bytes. */
  function WordCount(ws: nat, item: Item): (r: nat)
    requires ws > 0
  {
    match item
    case StrItem(chars) => 1 + (|chars| + ws) / ws
    case DblItem(_) => 1 + 8 / ws
    case BlockItem(_, fields) => 1 + fields.Length() + WordCountAll(ws, fields)
    case _ => 0
  }

  function WordCountAll(ws: nat, items: Items): (r: nat)
    requires ws > 0
  {
    if items.Nil? then 0 else WordCount(ws, items.head) + WordCountAll(ws, items.tail)
  }

  /** The number of objects in an item. */
  function ObjectCount(item: Item): (r: nat) {
    match item
    case StrItem(_) => 1
    case DblItem(_) => 1
    case BlockItem(_, fields) => 1 + ObjectCountAll(fields)
    case _ => 0
  }

  function ObjectCountAll(items: Items): nat {
    if items.Nil? then 0 else ObjectCount(items.head) + ObjectCountAll(items.tail)
  }

  /** The reader's count of objects agrees with the writer's. */
  lemma {:induction false} ObjectsDumped(g: Graph, v: Value, order: seq<int>)
    requires Closed(g) && ValueIn(g, v) && Seen(g, order)
    ensures var r := Dump(g, v, order); |r.1| == |order| + ObjectCount(r.0)
    decreases |Unseen(g, order)|, 0
  {
    if v.Ref? && v.addr !in order && g[v.addr].Tuple? {
      SeenMore(g, order, v.addr);
      UnseenLess(g, order, order + [v.addr]);
      ObjectsDumpedAll(g, g[v.addr].fields, order + [v.addr]);
    }
  }

  lemma {:induction false} ObjectsDumpedAll(g: Graph, vs: seq<Value>, order: seq<int>)
    requires Closed(g) && (forall i :: 0 <= i < |vs| ==> ValueIn(g, vs[i])) && Seen(g, order)
    ensures var r := DumpAll(g, vs, order); |r.1| == |order| + ObjectCountAll(r.0)
    decreases |Unseen(g, order)|, 1 + |vs|
  {
    if vs != [] {
      var first := Dump(g, vs[0], order);
      UnseenLess(g, order, first.1);
      ObjectsDumped(g, vs[0], order);
      ObjectsDumpedAll(g, vs[1..], first.1);
    }
  }

  /** None of the objects met after the first `n` is opaque, and floating-point numbers have eight bytes. */
  ghost predicate Plain(g: Graph, order: seq<int>, n: nat) {
    forall k :: n <= k < |order| ==> order[k] in g && !g[order[k]].Opaque? && (g[order[k]].Dbl? ==> |g[order[k]].image| == 8)
  }

  // Which objects are met.

  ghost predicate PointsTo(g: Graph, a: int, b: int) {
    a in g && g[a].Tuple? && Ref(b) in g[a].fields
  }

  /** The object `b` can be reached from `v` through `n` objects. */
  ghost predicate Reached(g: Graph, v: Value, b: int, n: nat)
    decreases n
  {
    if n == 0 then v == Ref(b) else exists a :: Reached(g, v, a, n - 1) && PointsTo(g, a, b)
  }

  ghost predicate Reachable(g: Graph, v: Value, b: int) {
    exists n: nat :: Reached(g, v, b, n)
  }

  /** All that `a` points to has been met. */
  ghost predicate Complete(g: Graph, order: seq<int>, a: int) {
    forall b :: PointsTo(g, a, b) ==> b in order
  }

  /** What `v` refers to has been met. */
  ghost predicate Met(order: seq<int>, v: Value) {
    v.Ref? ==> v.addr in order
  }

  ghost predicate LeadsTo(g: Graph, u: Value, v: Value) {
    v.Ref? ==> Reachable(g, u, v.addr)
  }

  lemma StillMet(order: seq<int>, order': seq<int>, a: int)
    requires order <= order' && a in order
    ensures a in order'
  {
    assert order'[IndexOf(order, a)] == a;
  }

  lemma StillComplete(g: Graph, order: seq<int>, order': seq<int>, a: int)
    requires order <= order' && Complete(g, order, a)
    ensures Complete(g, order', a)
  {
    forall b | PointsTo(g, a, b) ensures b in order' {
      StillMet(order, order', b);
    }
  }

  /** The objects written with `v` can be reached, and all that they point to has been met. */
  lemma {:induction false} DumpExplores(g: Graph, u: Value, v: Value, order: seq<int>)
    requires Closed(g) && ValueIn(g, v) && Seen(g, order) && LeadsTo(g, u, v)
    ensures var order' := Dump(g, v, order).1;
      && Met(order', v)
      && (forall k :: |order| <= k < |order'| ==> Reachable(g, u, order'[k]) && Complete(g, order', order'[k]))
    decreases |Unseen(g, order)|, 0
  {
    hide Reachable;
    var order' := Dump(g, v, order).1;
    if v.Ref? && v.addr !in order {
      var a := v.addr;
      SeenMore(g, order, a);
      StillMet(order + [a], order', a);
      assert order'[|order|] == a;
      if g[a].Tuple? {
        UnseenLess(g, order, order + [a]);
        forall i | 0 <= i < |g[a].fields| ensures LeadsTo(g, u, g[a].fields[i]) {
          if g[a].fields[i].Ref? {
            Further(g, u, a, g[a].fields[i].addr);
          }
        }
        DumpExploresAll(g, u, g[a].fields, order + [a]);
        forall b | PointsTo(g, a, b) ensures b in order' {
          var i :| 0 <= i < |g[a].fields| && g[a].fields[i] == Ref(b);
          assert Met(order', g[a].fields[i]);
        }
      }
    }
  }

  lemma Further(g: Graph, u: Value, a: int, b: int)
    requires Reachable(g, u, a) && PointsTo(g, a, b)
    ensures Reachable(g, u, b)
  {
    var n: nat :| Reached(g, u, a, n);
    assert Reached(g, u, b, n + 1);
  }

  lemma {:induction false} DumpExploresAll(g: Graph, u: Value, vs: seq<Value>, order: seq<int>)
    requires Closed(g) && (forall i :: 0 <= i < |vs| ==> ValueIn(g, vs[i])) && Seen(g, order)
    requires forall i :: 0 <= i < |vs| ==> LeadsTo(g, u, vs[i])
    ensures var order' := DumpAll(g, vs, order).1;
      && (forall i :: 0 <= i < |vs| ==> Met(order', vs[i]))
      && (forall k :: |order| <= k < |order'| ==> Reachable(g, u, order'[k]) && Complete(g, order', order'[k]))
    decreases |Unseen(g, order)|, 1 + |vs|
  {
    hide Reachable, LeadsTo, ValueIn, Complete;
    if vs != [] {
      var first := Dump(g, vs[0], order);
      var order' := DumpAll(g, vs, order).1;
      UnseenLess(g, order, first.1);
      DumpExplores(g, u, vs[0], order);
      DumpExploresAll(g, u, vs[1..], first.1);
      forall i | 0 <= i < |vs| ensures Met(order', vs[i]) {
        if i == 0 {
          if vs[0].Ref? {
            StillMet(first.1, order', vs[0].addr);
          }
        } else {
          assert Met(order', vs[1..][i - 1]);
        }
      }
      forall k | |order| <= k < |order'| ensures Reachable(g, u, order'[k]) && Complete(g, order', order'[k]) {
        if k < |first.1| {
          assert order'[k] == first.1[k];
          StillComplete(g, first.1, order', order'[k]);
        }
      }
    }
  }

  lemma {:induction false} ReachedIsMet(g: Graph, v: Value, order: seq<int>, b: int, n: nat)
    requires Met(order, v) && (forall k :: 0 <= k < |order| ==> Complete(g, order, order[k])) && Reached(g, v, b, n)
    ensures b in order
    decreases n
  {
    if n > 0 {
      var a :| Reached(g, v, a, n - 1) && PointsTo(g, a, b);
      ReachedIsMet(g, v, order, a, n - 1);
    }
  }

  /** Each object that can be reached from `v` is written, and once; no other is. */
  lemma DumpIsExact(g: Graph, v: Value, b: int)
    requires Closed(g) && ValueIn(g, v)
    ensures var order := Dump(g, v, []).1; Distinct(order) && (b in order <==> Reachable(g, v, b))
  {
    hide Complete;
    var order := Dump(g, v, []).1;
    if v.Ref? {
      assert Reached(g, v, v.addr, 0);
    }
    DumpExplores(g, v, v, []);
    if Reachable(g, v, b) {
      var n: nat :| Reached(g, v, b, n);
      ReachedIsMet(g, v, order, b, n);
    }
  }
}
