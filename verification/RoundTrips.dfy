/** Reading what was written rebuilds the graph. */
module RoundTrips {
  import Words
  import opened Items
  import opened Dumping
  import opened Loading

  function ObjSize(ws: nat, o: Obj): (r: nat)
    requires ws > 0
  {
    match o
    case Tuple(_, fields) => |fields|
    case Str(chars) => StringSize(ws, |chars|)
    case Dbl(_) => 8 / ws
    case Opaque(_) => 0
  }

  /** The word `w` stands for the value `v`: the objects of `order` are now at the addresses of `table`. */
  ghost predicate Represents(w: Cell, v: Value, order: seq<int>, table: seq<int>) {
    match v
    case Int(n) => w == Long(n)
    case Atom(tag) => w == AtomPtr(tag)
    case Ref(a) => a in order && IndexOf(order, a) < |table| && w == Ptr(table[IndexOf(order, a)])
  }

  ghost predicate FieldsAt(mem: seq<Cell>, t: int, vs: seq<Value>, order: seq<int>, table: seq<int>) {
    0 <= t && t + |vs| <= |mem| && forall i :: 0 <= i < |vs| ==> Represents(mem[t..t + |vs|][i], vs[i], order, table)
  }

  /** The object `o` is found at `t`. */
  ghost predicate ObjAt(ws: nat, big: bool, color: Words.Color, mem: seq<Cell>, t: int, o: Obj, order: seq<int>, table: seq<int>)
    requires ws > 0
  {
    1 <= t && t + ObjSize(ws, o) <= |mem| &&
    match o
    case Tuple(tag, fields) => mem[t - 1] == Hdr(|fields|, tag, color) && FieldsAt(mem, t, fields, order, table)
    case Str(chars) =>
      && mem[t - 1] == Hdr(ObjSize(ws, o), STRING_TAG, color)
      && StringBytes(ws, Unpack(mem[t..t + ObjSize(ws, o)]), chars) && StringChars(mem[t..t + ObjSize(ws, o)]) == chars
    case Dbl(image) =>
      mem[t - 1] == Hdr(ObjSize(ws, o), DOUBLE_TAG, color) && Unpack(mem[t..t + ObjSize(ws, o)]) == DoubleBytes(big, image)
    case Opaque(_) => false
  }

  /** The objects counted after `order` are where `table` says, one after the other from `at` to `at'`. */
  ghost predicate Placed(ws: nat, g: Graph, at: int, at': int, order: seq<int>, n: nat, table: seq<int>)
    requires ws > 0
  {
    && n <= |order| == |table|
    && (forall k :: n <= k < |order| ==> order[k] in g && at < table[k] && table[k] + ObjSize(ws, g[order[k]]) <= at')
    && (forall k :: n <= k < |order| ==> table[k] - 1 == if k == n then at else table[k - 1] + ObjSize(ws, g[order[k - 1]]))
    && at' == if n == |order| then at else table[|order| - 1] + ObjSize(ws, g[order[|order| - 1]])
  }

  ghost predicate ObjectsAt(ws: nat, big: bool, color: Words.Color, g: Graph, mem: seq<Cell>, order: seq<int>, n: nat, table: seq<int>)
    requires ws > 0
  {
    |order| == |table| && forall k :: n <= k < |order| ==> order[k] in g && ObjAt(ws, big, color, mem, table[k], g[order[k]], order, table)
  }

  /** Nothing has changed but the words from `at` to `at'` and those from `lo` to `hi`. */
  ghost predicate Kept(mem: seq<Cell>, mem': seq<Cell>, at: int, at': int, lo: int, hi: int) {
    |mem'| == |mem| && forall a :: 0 <= a < |mem| && !(at <= a < at') && !(lo <= a < hi) ==> mem'[a] == mem[a]
  }

  lemma StillRepresents(w: Cell, v: Value, order: seq<int>, table: seq<int>, order': seq<int>, table': seq<int>)
    requires Represents(w, v, order, table) && order <= order' && table <= table' && Distinct(order')
    ensures Represents(w, v, order', table')
  {
    if v.Ref? {
      assert order'[IndexOf(order, v.addr)] == v.addr;
      assert IndexOf(order', v.addr) == IndexOf(order, v.addr);
    }
  }

  lemma StillFields(mem: seq<Cell>, mem': seq<Cell>, t: int, vs: seq<Value>, order: seq<int>, table: seq<int>, order': seq<int>, table': seq<int>)
    requires FieldsAt(mem, t, vs, order, table) && order <= order' && table <= table' && Distinct(order')
    requires |mem'| == |mem| && mem'[t..t + |vs|] == mem[t..t + |vs|]
    ensures FieldsAt(mem', t, vs, order', table')
  {
    hide Represents;
    forall i | 0 <= i < |vs| ensures Represents(mem'[t..t + |vs|][i], vs[i], order', table') {
      StillRepresents(mem[t..t + |vs|][i], vs[i], order, table, order', table');
    }
  }

  /** An object stays where it is when its words are left alone and more objects are added. */
  lemma StillAt(ws: nat, big: bool, color: Words.Color, mem: seq<Cell>, mem': seq<Cell>, t: int, o: Obj, order: seq<int>, table: seq<int>, order': seq<int>, table': seq<int>)
    requires ws > 0 && ObjAt(ws, big, color, mem, t, o, order, table) && order <= order' && table <= table' && Distinct(order')
    requires |mem'| == |mem| && mem'[t - 1..t + ObjSize(ws, o)] == mem[t - 1..t + ObjSize(ws, o)]
    ensures ObjAt(ws, big, color, mem', t, o, order', table')
  {
    hide FieldsAt, StringChars, StringBytes, Unpack;
    var s, s' := mem[t - 1..t + ObjSize(ws, o)], mem'[t - 1..t + ObjSize(ws, o)];
    assert s[0] == mem[t - 1] && s'[0] == mem'[t - 1];
    assert s[1..] == mem[t..t + ObjSize(ws, o)] && s'[1..] == mem'[t..t + ObjSize(ws, o)];
    if o.Tuple? {
      StillFields(mem, mem', t, o.fields, order, table, order', table');
    }
  }

  /** The objects met after `order` have been rebuilt, up to those of `order'`. */
  ghost predicate Rebuilt(ws: nat, big: bool, color: Words.Color, g: Graph, st: Store, st': Store, order: seq<int>, order': seq<int>)
    requires ws > 0
  {
    && |st.table| == |order| && |st'.table| == |order'| && order <= order' && st.table <= st'.table && Distinct(order')
    && |st'.mem| == |st.mem| && 0 <= st.at <= st'.at <= |st.mem|
    && Placed(ws, g, st.at, st'.at, order', |order|, st'.table)
    && ObjectsAt(ws, big, color, g, st'.mem, order', |order|, st'.table)
  }

  lemma NothingRebuilt(ws: nat, big: bool, color: Words.Color, g: Graph, st: Store, order: seq<int>, dest: int, w: Cell)
    requires ws > 0 && |st.table| == |order| && Distinct(order) && 0 <= st.at <= |st.mem|
    ensures Rebuilt(ws, big, color, g, st, st.(mem := Put(st.mem, dest, w)), order, order)
    ensures Kept(st.mem, Put(st.mem, dest, w), st.at, st.at, dest, dest + 1)
  {
  }

  lemma PlacedTwice(ws: nat, g: Graph, at: int, at1: int, at2: int, n: nat, order1: seq<int>, table1: seq<int>, order2: seq<int>, table2: seq<int>)
    requires ws > 0 && order1 <= order2 && table1 <= table2 && at <= at1 <= at2
    requires Placed(ws, g, at, at1, order1, n, table1) && Placed(ws, g, at1, at2, order2, |order1|, table2)
    ensures Placed(ws, g, at, at2, order2, n, table2)
  {
    hide ObjSize;
    forall k | 0 <= k < |order1| ensures order2[k] == order1[k] && table2[k] == table1[k] { }
    forall k | n <= k < |order2|
      ensures order2[k] in g && at < table2[k] && table2[k] + ObjSize(ws, g[order2[k]]) <= at2
      ensures table2[k] - 1 == if k == n then at else table2[k - 1] + ObjSize(ws, g[order2[k - 1]])
    {
      if k < |order1| {
        assert order1[k] in g && at < table1[k];
      } else {
        assert at1 <= table2[k];
      }
    }
  }

  lemma RebuiltTwice(ws: nat, big: bool, color: Words.Color, g: Graph, st: Store, st1: Store, st2: Store, order: seq<int>, order1: seq<int>, order2: seq<int>, lo: int, hi: int)
    requires ws > 0 && Rebuilt(ws, big, color, g, st, st1, order, order1) && Rebuilt(ws, big, color, g, st1, st2, order1, order2)
    requires Kept(st1.mem, st2.mem, st1.at, st2.at, lo, hi) && (hi <= st.at || st1.at <= lo || lo == hi)
    ensures Rebuilt(ws, big, color, g, st, st2, order, order2)
  {
    hide ObjAt, Placed, ObjSize;
    PlacedTwice(ws, g, st.at, st1.at, st2.at, |order|, order1, st1.table, order2, st2.table);
    forall k | |order| <= k < |order1| ensures order2[k] in g && ObjAt(ws, big, color, st2.mem, st2.table[k], g[order2[k]], order2, st2.table) {
      PlacedAt(ws, g, st.at, st1.at, order1, |order|, st1.table, k);
      var t, o := st1.table[k], g[order1[k]];
      InMemory(ws, big, color, st1.mem, t, o, order1, st1.table);
      assert st2.mem[t - 1..t + ObjSize(ws, o)] == st1.mem[t - 1..t + ObjSize(ws, o)];
      StillAt(ws, big, color, st1.mem, st2.mem, t, o, order1, st1.table, order2, st2.table);
    }
  }

  lemma InMemory(ws: nat, big: bool, color: Words.Color, mem: seq<Cell>, t: int, o: Obj, order: seq<int>, table: seq<int>)
    requires ws > 0 && ObjAt(ws, big, color, mem, t, o, order, table)
    ensures 1 <= t && t + ObjSize(ws, o) <= |mem|
  {
  }

  lemma PlacedAt(ws: nat, g: Graph, at: int, at': int, order: seq<int>, n: nat, table: seq<int>, k: nat)
    requires ws > 0 && Placed(ws, g, at, at', order, n, table) && n <= k < |order|
    ensures order[k] in g && at < table[k] && table[k] + ObjSize(ws, g[order[k]]) <= at'
  {
  }

  /** One object has been rebuilt. */
  lemma OneRebuilt(ws: nat, big: bool, color: Words.Color, g: Graph, st: Store, st': Store, order: seq<int>, a: int)
    requires ws > 0 && |st.table| == |order| && Distinct(order + [a]) && a in g && 0 <= st.at && |st'.mem| == |st.mem|
    requires st'.table == st.table + [st.at + 1] && st'.at == st.at + 1 + ObjSize(ws, g[a]) <= |st.mem|
    requires ObjAt(ws, big, color, st'.mem, st.at + 1, g[a], order + [a], st'.table)
    ensures Rebuilt(ws, big, color, g, st, st', order, order + [a])
  {
    hide ObjAt, ObjSize;
  }

  lemma PutAllAt(mem: seq<Cell>, a: int, cells: seq<Cell>)
    requires 0 <= a && a + |cells| <= |mem|
    ensures var m := PutAll(mem, a, cells);
      m[a..a + |cells|] == cells && forall i :: 0 <= i < |mem| && !(a <= i < a + |cells|) ==> m[i] == mem[i]
    decreases |cells|
  {
    if cells != [] {
      PutAllAt(Put(mem, a, cells[0]), a + 1, cells[1..]);
      var m := PutAll(mem, a, cells);
      assert m[a] == cells[0];
      assert m[a..a + |cells|] == [m[a]] + m[a + 1..a + |cells|];
    }
  }

  /** The words of a new object, when `dest` is not among them. */
  lemma NewObjectAt(st: Store, size: nat, tag: nat, color: Words.Color, cells: seq<Cell>, dest: int)
    requires 0 <= st.at && st.at + 1 + size <= |st.mem| && |cells| <= size
    requires 0 <= dest < |st.mem| && !(st.at <= dest < st.at + 1 + size)
    ensures var st' := NewObject(st, size, tag, color, cells, dest);
      && |st'.mem| == |st.mem| && st'.mem[st.at] == Hdr(size, tag, color) && st'.mem[st.at + 1..st.at + 1 + |cells|] == cells
      && st'.mem[dest] == Ptr(st.at + 1) && Kept(st.mem, st'.mem, st.at, st'.at, dest, dest + 1)
  {
    PutAllAt(Put(st.mem, st.at, Hdr(size, tag, color)), st.at + 1, cells);
  }

  /** Room for what is still to be loaded, and a word `dest` that is not in that room. */
  ghost predicate Room(st: Store, words: nat, lo: int, hi: int) {
    0 <= st.at && st.at + words <= |st.mem| && 0 <= lo <= hi <= |st.mem| && (hi <= st.at || st.at + words <= lo)
  }

  /** Loading the item that `v` was dumped as puts at `dest` a word that stands for `v`, and
      rebuilds the objects that were dumped with it. */
  lemma {:induction false} LoadDump(ws: nat, big: bool, color: Words.Color, g: Graph, v: Value, order: seq<int>, st: Store, dest: int)
    requires Closed(g) && ValueIn(g, v) && Seen(g, order) && (ws == 4 || ws == 8)
    requires |st.table| == |order| && Room(st, WordCount(ws, Dump(g, v, order).0), dest, dest + 1) && Plain(g, Dump(g, v, order).1, |order|)
    ensures var (item, order') := Dump(g, v, order);
      var st' := Load(ws, big, color, st, item, dest);
      && Rebuilt(ws, big, color, g, st, st', order, order') && Kept(st.mem, st'.mem, st.at, st'.at, dest, dest + 1)
      && st'.at == st.at + WordCount(ws, item) && Represents(st'.mem[dest], v, order', st'.table)
    decreases |Unseen(g, order)|, 1
  {
    hide Rebuilt, Kept, ObjAt, ObjSize, Seen, Closed, NewObject;
    var (item, order') := Dump(g, v, order);
    assert Distinct(order) by { SeenDistinct(g, order); }
    match v
    case Int(n) => NothingRebuilt(ws, big, color, g, st, order, dest, Long(n));
    case Atom(tag) => NothingRebuilt(ws, big, color, g, st, order, dest, AtomPtr(tag));
    case Ref(a) =>
      if a in order {
        NothingRebuilt(ws, big, color, g, st, order, dest, Ptr(st.table[IndexOf(order, a)]));
      } else if g[a].Tuple? {
        LoadDumpTuple(ws, big, color, g, a, order, st, dest);
      } else {
        LoadDumpLeaf(ws, big, color, g, a, order, st, dest);
      }
  }

  lemma PlainPart(g: Graph, order1: seq<int>, order2: seq<int>, n: nat)
    requires order1 <= order2 && Plain(g, order2, n) && n <= |order1|
    ensures Plain(g, order1, n) && Plain(g, order2, |order1|)
  {
    assert forall k :: 0 <= k < |order1| ==> order1[k] == order2[k];
  }

  lemma PlainLess(g: Graph, order: seq<int>, n: nat)
    requires Plain(g, order, n)
    ensures Plain(g, order, n + 1)
  {
  }

  lemma SeenDistinct(g: Graph, order: seq<int>)
    requires Seen(g, order)
    ensures Distinct(order)
  {
  }

  lemma NewRepresents(order: seq<int>, a: int, table: seq<int>, t: int, order': seq<int>, table': seq<int>)
    requires |order| == |table| && a !in order && order + [a] <= order' && table + [t] <= table' && Distinct(order')
    ensures Represents(Ptr(t), Ref(a), order', table')
  {
    assert order'[|order|] == a && table'[|order|] == t;
    assert a in order';
    assert IndexOf(order', a) == |order|;
  }

  lemma LoadDumpLeaf(ws: nat, big: bool, color: Words.Color, g: Graph, a: int, order: seq<int>, st: Store, dest: int)
    requires Closed(g) && a in g && Seen(g, order) && (ws == 4 || ws == 8) && a !in order && !g[a].Tuple?
    requires |st.table| == |order| && Room(st, WordCount(ws, Dump(g, Ref(a), order).0), dest, dest + 1) && Plain(g, Dump(g, Ref(a), order).1, |order|)
    ensures var (item, order') := Dump(g, Ref(a), order);
      var st' := Load(ws, big, color, st, item, dest);
      && Rebuilt(ws, big, color, g, st, st', order, order') && Kept(st.mem, st'.mem, st.at, st'.at, dest, dest + 1)
      && st'.at == st.at + WordCount(ws, item) && Represents(st'.mem[dest], Ref(a), order', st'.table)
  {
    hide Rebuilt, Kept, Represents, Closed, Pack, Unpack, Padded, DoubleBytes, NewObject;
    var (item, order') := Dump(g, Ref(a), order);
    SeenMore(g, order, a);
    SeenDistinct(g, order + [a]);
    var st' := Load(ws, big, color, st, item, dest);
    var size := ObjSize(ws, g[a]);
    assert order'[|order|] == a;
    match g[a] {
      case Str(chars) =>
        StringKept(ws, chars);
        NewObjectAt(st, size, STRING_TAG, color, Pack(ws, Padded(ws, chars)), dest);
      case Dbl(image) =>
        PackUnpack(ws, DoubleBytes(big, image), size);
        NewObjectAt(st, size, DOUBLE_TAG, color, Pack(ws, DoubleBytes(big, image)), dest);
    }
    NewObjectShape(st, size, color, dest);
    OneRebuilt(ws, big, color, g, st, st', order, a);
    NewRepresents(order, a, st.table, st.at + 1, order', st'.table);
  }

  lemma NewObjectShape(st: Store, size: nat, color: Words.Color, dest: int)
    ensures forall tag: nat, cells :: var st' := NewObject(st, size, tag, color, cells, dest);
      st'.at == st.at + 1 + size && st'.table == st.table + [st.at + 1] && |st'.mem| == |st.mem|
  {
  }

  lemma LoadDumpTuple(ws: nat, big: bool, color: Words.Color, g: Graph, a: int, order: seq<int>, st: Store, dest: int)
    requires Closed(g) && a in g && Seen(g, order) && (ws == 4 || ws == 8) && a !in order && g[a].Tuple?
    requires |st.table| == |order| && Room(st, WordCount(ws, Dump(g, Ref(a), order).0), dest, dest + 1) && Plain(g, Dump(g, Ref(a), order).1, |order|)
    ensures var (item, order') := Dump(g, Ref(a), order);
      var st' := Load(ws, big, color, st, item, dest);
      && Rebuilt(ws, big, color, g, st, st', order, order') && Kept(st.mem, st'.mem, st.at, st'.at, dest, dest + 1)
      && st'.at == st.at + WordCount(ws, item) && Represents(st'.mem[dest], Ref(a), order', st'.table)
    decreases |Unseen(g, order)|, 0
  {
    hide Rebuilt, Kept, Represents, Closed, NewObject, ObjAt, FieldsAt;
    var fields, n := g[a].fields, |g[a].fields|;
    SeenMore(g, order, a);
    SeenDistinct(g, order + [a]);
    UnseenLess(g, order, order + [a]);
    FieldsIn(g, a);
    hide Plain;
    PlainLess(g, Dump(g, Ref(a), order).1, |order|);
    var r := DumpAll(g, fields, order + [a]);
    var st1 := NewObject(st, n, g[a].tag, color, [], dest);
    NewObjectAt(st, n, g[a].tag, color, [], dest);
    NewObjectShape(st, n, color, dest);
    LoadDumpAll(ws, big, color, g, fields, order + [a], st1, st.at + 1);
    var st2 := LoadAll(ws, big, color, st1, r.0, st.at + 1);
    TupleRebuilt(ws, big, color, g, a, order, r.1, st, st1, st2, dest);
    NewRepresents(order, a, st.table, st.at + 1, r.1, st2.table);
  }

  lemma FieldsIn(g: Graph, a: int)
    requires Closed(g) && a in g && g[a].Tuple?
    ensures forall i :: 0 <= i < |g[a].fields| ==> ValueIn(g, g[a].fields[i])
  {
  }

  lemma TupleRebuilt(ws: nat, big: bool, color: Words.Color, g: Graph, a: int, order: seq<int>, order': seq<int>, st: Store, st1: Store, st2: Store, dest: int)
    requires ws > 0 && a in g && g[a].Tuple? && a !in order && |st.table| == |order| && 0 <= st.at && 0 <= dest < |st.mem|
    requires var n := |g[a].fields|;
      && st1.table == st.table + [st.at + 1] && st1.at == st.at + 1 + n <= |st.mem| == |st1.mem| && st1.mem[st.at] == Hdr(n, g[a].tag, color)
      && st1.mem[dest] == Ptr(st.at + 1) && Kept(st.mem, st1.mem, st.at, st1.at, dest, dest + 1)
      && Rebuilt(ws, big, color, g, st1, st2, order + [a], order') && Kept(st1.mem, st2.mem, st1.at, st2.at, st.at + 1, st.at + 1 + n)
      && FieldsAt(st2.mem, st.at + 1, g[a].fields, order', st2.table)
    requires dest < st.at || st2.at <= dest
    ensures Rebuilt(ws, big, color, g, st, st2, order, order') && Kept(st.mem, st2.mem, st.at, st2.at, dest, dest + 1)
    ensures st2.mem[dest] == Ptr(st.at + 1) && order + [a] <= order' && st1.table <= st2.table && Distinct(order')
  {
  }

  lemma {:induction false} LoadDumpAll(ws: nat, big: bool, color: Words.Color, g: Graph, vs: seq<Value>, order: seq<int>, st: Store, dest: int)
    requires Closed(g) && (forall i :: 0 <= i < |vs| ==> ValueIn(g, vs[i])) && Seen(g, order) && (ws == 4 || ws == 8)
    requires |st.table| == |order| && Room(st, WordCountAll(ws, DumpAll(g, vs, order).0), dest, dest + |vs|) && dest + |vs| <= st.at && Plain(g, DumpAll(g, vs, order).1, |order|)
    ensures var (items, order') := DumpAll(g, vs, order);
      var st' := LoadAll(ws, big, color, st, items, dest);
      && Rebuilt(ws, big, color, g, st, st', order, order') && Kept(st.mem, st'.mem, st.at, st'.at, dest, dest + |vs|)
      && st'.at == st.at + WordCountAll(ws, items) && FieldsAt(st'.mem, dest, vs, order', st'.table)
    decreases |Unseen(g, order)|, 2 + |vs|
  {
    hide Rebuilt, Kept, Represents, Closed, FieldsAt, Seen;
    SeenDistinct(g, order);
    if vs == [] {
      NoFieldsRebuilt(ws, big, color, g, st, order, dest);
    } else {
      var first := Dump(g, vs[0], order);
      UnseenLess(g, order, first.1);
      PlainPart(g, first.1, DumpAll(g, vs, order).1, |order|);
      LoadDump(ws, big, color, g, vs[0], order, st, dest);
      var st1 := Load(ws, big, color, st, first.0, dest);
      RebuiltTable(ws, big, color, g, st, st1, order, first.1);
      LoadDumpAll(ws, big, color, g, vs[1..], first.1, st1, dest + 1);
      var rest := DumpAll(g, vs[1..], first.1);
      FieldsRebuilt(ws, big, color, g, vs, order, first.1, rest.1, st, st1, LoadAll(ws, big, color, st1, rest.0, dest + 1), dest);
    }
  }

  lemma RebuiltTable(ws: nat, big: bool, color: Words.Color, g: Graph, st: Store, st': Store, order: seq<int>, order': seq<int>)
    requires ws > 0 && Rebuilt(ws, big, color, g, st, st', order, order')
    ensures |st'.table| == |order'| && |st'.mem| == |st.mem|
  {
  }

  lemma NoFieldsRebuilt(ws: nat, big: bool, color: Words.Color, g: Graph, st: Store, order: seq<int>, dest: int)
    requires ws > 0 && |st.table| == |order| && Distinct(order) && 0 <= st.at <= |st.mem| && 0 <= dest <= |st.mem|
    ensures Rebuilt(ws, big, color, g, st, st, order, order) && Kept(st.mem, st.mem, st.at, st.at, dest, dest) && FieldsAt(st.mem, dest, [], order, st.table)
  {
  }

  lemma FieldsRebuilt(ws: nat, big: bool, color: Words.Color, g: Graph, vs: seq<Value>, order: seq<int>, order1: seq<int>, order2: seq<int>, st: Store, st1: Store, st2: Store, dest: int)
    requires ws > 0 && |vs| > 0 && 0 <= dest && dest + |vs| <= st.at
    requires Rebuilt(ws, big, color, g, st, st1, order, order1) && Rebuilt(ws, big, color, g, st1, st2, order1, order2)
    requires Kept(st.mem, st1.mem, st.at, st1.at, dest, dest + 1) && Kept(st1.mem, st2.mem, st1.at, st2.at, dest + 1, dest + |vs|)
    requires dest < |st1.mem| && Represents(st1.mem[dest], vs[0], order1, st1.table) && FieldsAt(st2.mem, dest + 1, vs[1..], order2, st2.table)
    ensures Rebuilt(ws, big, color, g, st, st2, order, order2) && Kept(st.mem, st2.mem, st.at, st2.at, dest, dest + |vs|)
    ensures FieldsAt(st2.mem, dest, vs, order2, st2.table)
  {
    hide ObjectsAt, Placed;
    RebuiltTwice(ws, big, color, g, st, st1, st2, order, order1, order2, dest + 1, dest + |vs|);
    StillRepresents(st1.mem[dest], vs[0], order1, st1.table, order2, st2.table);
    assert st2.mem[dest] == st1.mem[dest];
    forall i | 0 <= i < |vs| ensures Represents(st2.mem[dest..dest + |vs|][i], vs[i], order2, st2.table) {
      if i > 0 {
        assert Represents(st2.mem[dest + 1..dest + 1 + |vs[1..]|][i - 1], vs[1..][i - 1], order2, st2.table);
      }
    }
  }

  lemma {:induction false} PlacedInOrder(ws: nat, g: Graph, at: int, at': int, order: seq<int>, table: seq<int>, i: nat, j: nat)
    requires ws > 0 && Placed(ws, g, at, at', order, 0, table) && i < j < |order|
    ensures table[i] < table[j]
    decreases j
  {
    hide ObjSize;
    assert table[j] - 1 == table[j - 1] + ObjSize(ws, g[order[j - 1]]);
    if i < j - 1 {
      PlacedInOrder(ws, g, at, at', order, table, i, j - 1);
    }
  }

  /** Sharing is kept: two words that stand for values are equal exactly if the values are. */
  lemma SharingKept(ws: nat, g: Graph, at: int, at': int, order: seq<int>, table: seq<int>, v: Value, c: Cell, v': Value, c': Cell)
    requires ws > 0 && Placed(ws, g, at, at', order, 0, table) && Represents(c, v, order, table) && Represents(c', v', order, table)
    ensures c == c' <==> v == v'
  {
    if v.Ref? && v'.Ref? && v != v' {
      var i, j := IndexOf(order, v.addr), IndexOf(order, v'.addr);
      assert order[i] == v.addr && order[j] == v'.addr;
      if i < j {
        PlacedInOrder(ws, g, at, at', order, table, i, j);
      } else {
        PlacedInOrder(ws, g, at, at', order, table, j, i);
      }
    }
  }
}
