/** The writer: extern_value and what it calls. */
module Externs {
  import opened Bytes
  import opened Items
  import opened Dumping
  import opened SharingTable

  const INITIAL_EXTERN_TABLE_SIZE := 2039

  /** What the output, the objects met and the sizes will be when all is written. */
  datatype Target = Target(out: seq<Byte>, order: seq<int>, size32: nat, size64: nat)

  ghost predicate ItemLeft(big: bool, t: Target, out: seq<Byte>, size32: nat, size64: nat, r: (Item, seq<int>)) {
    t == Target(out + Encode(big, r.0), r.1, size32 + WordCount(4, r.0), size64 + WordCount(8, r.0))
  }

  ghost predicate ItemsLeft(big: bool, t: Target, out: seq<Byte>, size32: nat, size64: nat, r: (Items, seq<int>)) {
    t == Target(out + EncodeAll(big, r.0), r.1, size32 + WordCountAll(4, r.0), size64 + WordCountAll(8, r.0))
  }

  ghost predicate ValueOk(ws: nat, g: Graph, v: Value) {
    ValueIn(g, v) && (v.Int? ==> LongOk(ws, v.n))
  }

  /** A heap of a machine whose words have `ws` bytes. */
  ghost predicate HeapOk(ws: nat, g: Graph) {
    Closed(g) && forall a :: a in g && g[a].Tuple? ==> forall i :: 0 <= i < |g[a].fields| ==> ValueOk(ws, g, g[a].fields[i])
  }

  ghost predicate SomeOpaque(g: Graph, order: seq<int>, n: nat) {
    exists k :: n <= k < |order| && order[k] in g && g[order[k]].Opaque?
  }

  const INTEXT_MAGIC_NUMBER := 0x8495A6BE

  /** One more than the greatest word. */
  function WordLimit(ws: nat): nat {
    if ws == 8 then 0x1_0000_0000_0000_0000 else 0x1_0000_0000
  }

  /** What is written for an item: the magic number, four counts, and the item. */
  function Message(big: bool, item: Item): (r: seq<Byte>)
    ensures |r| == 20 + |Encode(big, item)| && r[20..] == Encode(big, item)
  {
    Bytes32(INTEXT_MAGIC_NUMBER) + Bytes32(|Encode(big, item)|) + Bytes32(ObjectCount(item))
      + Bytes32(WordCount(4, item)) + Bytes32(WordCount(8, item)) + Encode(big, item)
  }

  ghost predicate BodyWritten(magic: seq<Byte>, out: seq<Byte>, big: bool, item: Item, objects: nat, size32: nat, size64: nat) {
    && |out| == 20 + |Encode(big, item)| && out[..4] == magic && out[20..] == Encode(big, item)
    && objects == ObjectCount(item) && size32 == WordCount(4, item) && size64 == WordCount(8, item)
  }

  datatype Output = Written(bytes: seq<Byte>) | AbstractValue | ObjectTooBig

  ghost predicate Refused(g: Graph, v: Value) {
    exists a :: a in g && g[a].Opaque? && Reachable(g, v, a)
  }

  class Extern {
    const ws: nat       // bytes in a word
    const big: bool     // whether the machine stores the most significant byte first
    const heap: Graph

    var table: array<Entry>
    var hasTable: bool
    var initialOfs: nat
    var objCounter: nat

    var out: seq<Byte>
    var size32: nat
    var size64: nat

    ghost var order: seq<int>
    ghost var pos: map<int, int>

    constructor (ws: nat, big: bool, heap: Graph)
      requires ws == 4 || ws == 8
      ensures Idle() && this.ws == ws && this.big == big && this.heap == heap && fresh(table)
    {
      this.ws, this.big, this.heap := ws, big, heap;
      table, hasTable, initialOfs, objCounter := new Entry[0], false, 1, 0;
      out, size32, size64 := [], 0, 0;
    }

    ghost predicate Inv()
      reads this`table, this`hasTable, this`initialOfs, this`objCounter, this`order, this`pos, table
    {
      && hasTable && table.Length >= INITIAL_EXTERN_TABLE_SIZE && 2 * objCounter <= table.Length + 1 && objCounter == |order| && initialOfs >= 1
      && TableOk(ws, table[..], initialOfs, order, pos) && Full(pos, |order|)
      && Seen(heap, order)
    }

    lemma InvSeen()
      requires Inv()
      ensures Seen(heap, order)
    {
    }

    method AllocExternTable(size: nat)
      modifies this`table, this`hasTable
      ensures fresh(table) && hasTable && table.Length == size && forall i :: 0 <= i < size ==> table[i].ofs == 0
    {
      table := new Entry[size](_ => Entry(0, 0));
      hasTable := true;
    }

    /** The first free place for `v`. */
    method FreePlace(v: int, ghost done: map<int, int>) returns (h: nat)
      requires TableOk(ws, table[..], initialOfs, order, done) && |done| < table.Length
      ensures h < table.Length && !Live(table[h], initialOfs) && Crowded(table[..], initialOfs, Hash(ws, v, table.Length), h)
    {
      hide TableOk, Hash, Crowded, Between;
      ghost var e := SomeFree(ws, table[..], initialOfs, order, done);
      TableShape(ws, table[..], initialOfs, order, done);
      h := Hash(ws, v, table.Length);
      ProbeStart(table[..], initialOfs, h);
      while table[h].ofs >= initialOfs
        invariant h < table.Length && Crowded(table[..], initialOfs, Hash(ws, v, table.Length), h)
        decreases Distance(h, e, table.Length)
      {
        ProbeOn(table[..], initialOfs, Hash(ws, v, table.Length), h, e);
        h := Next(h, table.Length);
      }
    }

    /** Doubles the table. What earlier calls left in it is dropped. */
    method ResizeExternTable()
      requires hasTable && table.Length >= 2 && objCounter == |order| < 2 * table.Length && initialOfs >= 1
      requires TableOk(ws, table[..], initialOfs, order, pos) && Full(pos, |order|)
      modifies this`table, this`hasTable, this`pos
      ensures fresh(table) && hasTable && table.Length == 2 * old(table.Length)
      ensures TableOk(ws, table[..], initialOfs, order, pos) && Full(pos, |order|)
    {
      hide TableOk, Hash, Crowded, EntryOk;
      var oldtable := table;
      TableShape(ws, table[..], initialOfs, order, pos);
      AllocExternTable(2 * table.Length);
      FreshTable(ws, table[..], initialOfs, order);
      ghost var done: map<int, int> := map[];
      PositionsInside(ws, oldtable[..], initialOfs, order, pos);
      var i := 0;
      while i < oldtable.Length
        modifies table
        invariant 0 <= i <= oldtable.Length && oldtable[..] == old(table[..])
        invariant TableOk(ws, table[..], initialOfs, order, done)
        invariant forall k :: k in done <==> k in pos && pos[k] < i
      {
        if oldtable[i].ofs >= initialOfs {
          ghost var k := oldtable[i].ofs - initialOfs;
          LiveEntry(ws, oldtable[..], initialOfs, order, pos, i);
          FewerKeys(done, pos, |order|);
          var h := FreePlace(oldtable[i].obj, done);
          Enter(ws, table[..], initialOfs, order, done, h, k);
          table[h] := oldtable[i];
          done := done[k := h];
        } else {
          NoEntry(ws, oldtable[..], initialOfs, order, pos, i);
        }
        i := i + 1;
      }
      pos := done;
    }

    /** Looks `v` up: `h` is its place, or else the free place where it belongs. */
    method Probe(v: int) returns (h: nat, found: bool)
      requires Inv() && 2 * objCounter < table.Length
      ensures h < table.Length && (found <==> v in order)
      ensures found ==> table[h].ofs == initialOfs + IndexOf(order, v)
      ensures !found ==> !Live(table[h], initialOfs) && Crowded(table[..], initialOfs, Hash(ws, v, table.Length), h)
    {
      hide TableOk, Hash, Crowded, Between, NotBefore, Seen;
      FullSize(pos, |order|);
      ghost var e := SomeFree(ws, table[..], initialOfs, order, pos);
      TableShape(ws, table[..], initialOfs, order, pos);
      h := Hash(ws, v, table.Length);
      ProbeStart(table[..], initialOfs, h);
      while table[h].ofs >= initialOfs
        invariant h < table.Length && Crowded(table[..], initialOfs, Hash(ws, v, table.Length), h)
        invariant NotBefore(table[..], Hash(ws, v, table.Length), h, v)
        decreases Distance(h, e, table.Length)
      {
        if table[h].obj == v {
          ProbeHit(ws, table[..], initialOfs, order, pos, h, v);
          found := true;
          return;
        }
        ProbeOn(table[..], initialOfs, Hash(ws, v, table.Length), h, e);
        NotBeforeNext(table[..], Hash(ws, v, table.Length), h, v);
        h := Next(h, table.Length);
      }
      ProbeMissed(ws, table[..], initialOfs, order, pos, h, v);
      found := false;
    }

    /** Gives `v` the next number, unless it already has one. `back` is then how many objects
        ago it was met. */
    method Number(v: int) returns (found: bool, back: nat)
      requires Inv() && v in heap
      modifies this`table, this`hasTable, this`pos, this`order, this`objCounter, table
      ensures Inv() && (table == old(table) || fresh(table))
      ensures found <==> v in old(order)
      ensures found ==> order == old(order) && back == |order| - IndexOf(order, v)
      ensures !found ==> order == old(order) + [v]
    {
      hide TableOk, Hash, Crowded, Between;
      if 2 * objCounter >= table.Length {
        ResizeExternTable();
      }
      var h;
      h, found := Probe(v);
      if found {
        back := objCounter - (table[h].ofs - initialOfs);
      } else {
        SeenMore(heap, order, v);
        MoreObjects(ws, table[..], initialOfs, order, pos, v);
        assert (order + [v])[|order|] == v;
        Enter(ws, table[..], initialOfs, order + [v], pos, h, |order|);
        table[h] := Entry(initialOfs + objCounter, v);
        pos := pos[|order| := h];
        order := order + [v];
        objCounter := objCounter + 1;
        back := 0;
      }
    }

    method Writecode8(code: Byte, val: int)
      modifies this`out
      ensures out == old(out) + [code, val % 0x100]
    {
      out := out + [code, val % 0x100];
    }

    method Writecode16(code: Byte, val: int)
      modifies this`out
      ensures out == old(out) + ([code] + Bytes16(val))
    {
      out := out + [code, val / 0x100 % 0x100, val % 0x100];
    }

    method Write32(val: int)
      modifies this`out
      ensures out == old(out) + Bytes32(val)
    {
      out := out + [val / 0x1000000 % 0x100, val / 0x10000 % 0x100, val / 0x100 % 0x100, val % 0x100];
    }

    method Writecode32(code: Byte, val: int)
      modifies this`out
      ensures out == old(out) + ([code] + Bytes32(val))
    {
      out := out + [code, val / 0x1000000 % 0x100, val / 0x10000 % 0x100, val / 0x100 % 0x100, val % 0x100];
    }

    method Writecode64(code: Byte, val: int)
      modifies this`out
      ensures out == old(out) + ([code] + Bytes64(val))
    {
      out := out + [code, val / 0x1_0000_0000 / 0x1000000 % 0x100, val / 0x1_0000_0000 / 0x10000 % 0x100, val / 0x1_0000_0000 / 0x100 % 0x100, val / 0x1_0000_0000 % 0x100];
      Write32(val);
    }

    method WriteInt(n: int)
      requires LongOk(ws, n)
      modifies this`out
      ensures out == old(out) + Prefix(big, IntItem(n))
    {
      if n >= 0 && n < 0x40 {
        out := out + [PREFIX_SMALL_INT + n];
      } else if n >= -0x80 && n < 0x80 {
        Writecode8(CODE_INT8, n);
      } else if n >= -0x8000 && n < 0x8000 {
        Writecode16(CODE_INT16, n);
      } else if ws == 8 && (n < -0x8000_0000 || n >= 0x8000_0000) {
        Writecode64(CODE_INT64, n);
      } else {
        Writecode32(CODE_INT32, n);
      }
    }

    method WriteShared(d: nat)
      modifies this`out
      ensures out == old(out) + Prefix(big, SharedItem(d))
    {
      if d < 0x100 {
        Writecode8(CODE_SHARED8, d);
      } else if d < 0x10000 {
        Writecode16(CODE_SHARED16, d);
      } else {
        Writecode32(CODE_SHARED32, d);
      }
    }

    method WriteString(chars: seq<Byte>)
      modifies this`out
      ensures out == old(out) + Encode(big, StrItem(chars))
    {
      var len := |chars|;
      if len < 0x20 {
        out := out + [PREFIX_SMALL_STRING + len];
      } else if len < 0x100 {
        Writecode8(CODE_STRING8, len);
      } else {
        Writecode32(CODE_STRING32, len);
      }
      out := out + chars;
    }

    method WriteDouble(image: seq<Byte>)
      modifies this`out
      ensures out == old(out) + Encode(big, DblItem(image))
    {
      out := out + [if big then CODE_DOUBLE_BIG else CODE_DOUBLE_LITTLE];
      out := out + DoubleBytes(big, image);
    }

    /** The code for a block that has `sz` fields; an atom has none. */
    method WriteHeader(tag: nat, sz: nat, ghost item: Item)
      requires (item == AtomItem(tag) && sz == 0) || (item.BlockItem? && item.tag == tag && item.fields.Length() == sz)
      modifies this`out
      ensures out == old(out) + Prefix(big, item)
    {
      if tag < 16 && sz < 8 {
        out := out + [PREFIX_SMALL_BLOCK + tag + sz * 16];
      } else {
        Writecode32(CODE_BLOCK32, HeaderWord(sz, tag));
      }
    }

    ghost predicate Left(t: Target, v: Value)
      requires Inv() && HeapOk(ws, heap) && ValueOk(ws, heap, v)
      reads this, table
    {
      ItemLeft(big, t, out, size32, size64, Dump(heap, v, order))
    }

    ghost predicate AllLeft(t: Target, vs: seq<Value>)
      requires Inv() && HeapOk(ws, heap) && forall i :: 0 <= i < |vs| ==> ValueIn(heap, vs[i])
      reads this, table
    {
      ItemsLeft(big, t, out, size32, size64, DumpAll(heap, vs, order))
    }

    /** Writes the string or floating-point number that was numbered last. */
    method WriteLeaf(a: int, ghost order0: seq<int>, ghost t: Target)
      requires Inv() && HeapOk(ws, heap) && a in heap && (heap[a].Str? || heap[a].Dbl?)
      requires Seen(heap, order0) && a !in order0 && order == order0 + [a]
      requires ItemLeft(big, t, out, size32, size64, Dump(heap, Ref(a), order0))
      modifies this`out, this`size32, this`size64
      ensures t == Target(out, order, size32, size64)
    {
      match heap[a] {
        case Str(chars) =>
          WriteString(chars);
          size32 := size32 + (1 + (|chars| + 4) / 4);
          size64 := size64 + (1 + (|chars| + 8) / 8);
        case Dbl(image) =>
          WriteDouble(image);
          size32 := size32 + (1 + 2);
          size64 := size64 + (1 + 1);
      }
    }

    /** Writes all fields but the last of the block that was numbered last. */
    method ExternFields(a: int, ghost order0: seq<int>, ghost t: Target) returns (ok: bool, v: Value)
      requires Inv() && HeapOk(ws, heap) && a in heap && heap[a].Tuple?
      requires Seen(heap, order0) && a !in order0 && order == order0 + [a]
      requires ItemLeft(big, t, out, size32, size64, Dump(heap, Ref(a), order0))
      modifies this`table, this`hasTable, this`pos, this`order, this`objCounter, this`out, this`size32, this`size64, table
      ensures Inv() && (table == old(table) || fresh(table)) && old(order) <= order <= t.order
      ensures ok ==> ValueOk(ws, heap, v) && Left(t, v)
      ensures ok <==> !SomeOpaque(heap, order, |old(order)|)
      decreases |Unseen(heap, order)|, 9
    {
      hide TableOk, Inv, HeapOk, Seen, ItemLeft, ItemsLeft, SomeOpaque;
      var tag, fields := heap[a].tag, heap[a].fields;
      var sz := |fields|;
      FieldsOk(ws, heap, a);
      BlockLeft(ws, big, heap, t, out, size32, size64, a, order0);
      ghost var r := DumpAll(heap, fields, order);
      WriteHeader(tag, sz, BlockItem(tag, r.0));
      size32 := size32 + (1 + sz);
      size64 := size64 + (1 + sz);
      assert fields[0..] == fields;
      NotOpaqueYet(heap, order);
      var i := 0;
      ghost var table0 := table;
      label Start:
      while i < sz - 1
        modifies this`table, this`hasTable, this`pos, this`order, this`objCounter, this`out, this`size32, this`size64, table
        invariant 0 <= i <= sz - 1 && Inv() && AllLeft(t, fields[i..])
        invariant (table == table0 || fresh@Start(table)) && old(order) <= order && !SomeOpaque(heap, order, |old(order)|)
      {
        ghost var order1 := order;
        InvSeen();
        ghost var first := Dump(heap, fields[i], order);
        ghost var t1 := Target(out + Encode(big, first.0), first.1, size32 + WordCount(4, first.0), size64 + WordCount(8, first.0));
        FirstLeft(big, heap, t, t1, out, size32, size64, fields[i..], order);
        UnseenLess(heap, old(order), order);
        ok := ExternRec(fields[i], t1);
        OpaqueSince(heap, old(order), order1, order);
        if !ok {
          return false, Int(0);
        }
        assert fields[i..][1..] == fields[i + 1..];
        i := i + 1;
      }
      v := fields[i];
      InvSeen();
      LastLeft(big, heap, t, out, size32, size64, fields[i..], order);
      return true, v;
    }

    /** Writes `v0`, unless an opaque object is met. The last field of a block is left to a
        tail call. */
    method ExternRec(v0: Value, ghost t: Target) returns (ok: bool)
      requires Inv() && HeapOk(ws, heap) && ValueOk(ws, heap, v0) && Left(t, v0)
      modifies this`table, this`hasTable, this`pos, this`order, this`objCounter, this`out, this`size32, this`size64, table
      ensures Inv() && (table == old(table) || fresh(table)) && old(order) <= order <= t.order
      ensures ok ==> t == Target(out, order, size32, size64)
      ensures ok <==> !SomeOpaque(heap, order, |old(order)|)
      decreases |Unseen(heap, order)|, 2
    {
      hide TableOk, Inv, HeapOk, Seen, ItemLeft, ItemsLeft, SomeOpaque, Dump, Left;
      var v := v0;
      ghost var table0 := table;
      label Start:
      InvSeen();
      LeftOrder(t, v);
      NotOpaqueYet(heap, order);
      while true
        modifies this`table, this`hasTable, this`pos, this`order, this`objCounter, this`out, this`size32, this`size64, table
        invariant Inv() && ValueOk(ws, heap, v) && Left(t, v)
        invariant (table == table0 || fresh@Start(table)) && old(order) <= order <= t.order && !SomeOpaque(heap, order, |old(order)|)
        decreases |Unseen(heap, order)|
      {
        InvSeen();
        match v {
          case Int(n) =>
            ImmediateLeft(t, v, IntItem(n));
            WriteInt(n);
            return true;
          case Atom(tag) =>
            ImmediateLeft(t, v, AtomItem(tag));
            WriteHeader(tag, 0, AtomItem(tag));
            return true;
          case Ref(a) =>
            ghost var order0 := order;
            HeapClosed(ws, heap);
            RefLeft(t, a);
            var found, back := Number(a);
            InvSeen();
            if found {
              WriteShared(back);
              return true;
            }
            SeenMore(heap, order0, a);
            UnseenLess(heap, order0, order);
            UnseenLess(heap, old(order), order);
            NewOpaque(heap, old(order), order0, a);
            match heap[a] {
              case Opaque(_) =>
                return false;
              case Tuple(_, _) =>
                ghost var order1 := order;
                ok, v := ExternFields(a, order0, t);
                OpaqueSince(heap, old(order), order1, order);
                if !ok {
                  return false;
                }
                InvSeen();
                UnseenLess(heap, order1, order);
              case _ =>
                WriteLeaf(a, order0, t);
                return true;
            }
        }
      }
    }

    /** Between calls: if there is a table, it has its initial size and no entry in it counts. */
    ghost predicate Idle()
      reads this`table, this`hasTable, this`initialOfs, table
    {
      && (ws == 4 || ws == 8)
      && (hasTable ==> (
            && table.Length == INITIAL_EXTERN_TABLE_SIZE && 1 <= initialOfs < WordLimit(ws) / 2
            && forall i :: 0 <= i < table.Length ==> !Live(table[i], initialOfs)))
    }

    /** Keeps the table for the next call, if it has not grown and the offsets are not about
        to overflow. */
    method FreeExternTable()
      modifies this`hasTable
      ensures hasTable == (old(hasTable) && table.Length <= INITIAL_EXTERN_TABLE_SIZE && initialOfs < WordLimit(ws) / 2)
    {
      if table.Length > INITIAL_EXTERN_TABLE_SIZE || initialOfs >= WordLimit(ws) / 2 {
        hasTable := false;
      }
    }

    method Finish()
      requires Inv() && (ws == 4 || ws == 8)
      modifies this`hasTable, this`initialOfs
      ensures Idle() && initialOfs == old(initialOfs) + objCounter
    {
      hide EntryOk, Crowded;
      NothingLive(ws, table[..], initialOfs, order, pos);
      initialOfs := initialOfs + objCounter;
      FreeExternTable();
    }

    /** Fills in the sizes, for which room was left. */
    method WriteSizes()
      requires |out| >= 20
      modifies this`out
      ensures out == old(out[..4]) + Bytes32(old(|out|) - 20) + Bytes32(objCounter) + Bytes32(size32) + Bytes32(size64) + old(out[20..])
    {
      var data, resLen := out[20..], |out|;
      out := out[..4];
      Write32(resLen - 5 * 4);
      Write32(objCounter);
      Write32(size32);
      Write32(size64);
      out := out + data;
    }

    method Start()
      requires Idle()
      modifies this, table
      ensures Inv() && order == [] && size32 == 0 && size64 == 0 && initialOfs < WordLimit(ws) / 2
      ensures |out| == 20 && out[..4] == Bytes32(INTEXT_MAGIC_NUMBER)
      ensures table == old(table) || fresh(table)
    {
      if !hasTable {
        AllocExternTable(INITIAL_EXTERN_TABLE_SIZE);
        initialOfs := 1;
      }
      objCounter, size32, size64 := 0, 0, 0;
      order, pos := [], map[];
      FreshTable(ws, table[..], initialOfs, order);
      out := [];
      Write32(INTEXT_MAGIC_NUMBER);
      out := out + [0, 0, 0, 0, 0, 0, 0, 0, 0, 0, 0, 0, 0, 0, 0, 0];
    }

    /** Writes `v` after room for the sizes, and gets ready for the next call. */
    method WriteBody(v: Value) returns (ok: bool)
      requires Idle() && HeapOk(ws, heap) && ValueOk(ws, heap, v)
      modifies this, table
      ensures Idle() && (ok <==> !Refused(heap, v))
      ensures ok ==> BodyWritten(Bytes32(INTEXT_MAGIC_NUMBER), out, big, Dump(heap, v, []).0, objCounter, size32, size64)
      ensures |heap| <= WordLimit(ws) / (2 * ws) ==> initialOfs < WordLimit(ws)
    {
      hide TableOk, HeapOk, ValueOk, Dump, SomeOpaque, Reachable, Refused, Encode, WordCount, ObjectCount, Inv, Idle, Bytes32, ItemsLeft, Seen, Closed, BodyWritten;
      InputsOk(v);
      Start();
      ghost var d, out0 := Dump(heap, v, []), out;
      ghost var t := Target(out + Encode(big, d.0), d.1, WordCount(4, d.0), WordCount(8, d.0));
      ok := ExternRec(v, t);
      RefusedIff(ws, heap, v, order, ok);
      InvSeen();
      SeenCount(heap, order);
      CountersAgree();
      Finish();
      if ok {
        ObjectsDumped(heap, v, []);
        AfterHeader(Bytes32(INTEXT_MAGIC_NUMBER), out0, big, d.0, objCounter, size32, size64);
      }
    }

    /** Writes `v`. It is refused if and only if an opaque object can be reached from it. If
        all objects fit in the address space, no offset overflows. */
    method ExternValue(v: Value) returns (r: Output)
      requires Idle() && HeapOk(ws, heap) && ValueOk(ws, heap, v)
      modifies this, table
      ensures Idle()
      ensures r.AbstractValue? <==> Refused(heap, v)
      ensures var item := Dump(heap, v, []).0;
        && (r.Written? ==> r.bytes == Message(big, item))
        && (r.ObjectTooBig? <==> !Refused(heap, v) && ws == 8 && (WordCount(4, item) >= 0x1_0000_0000 || WordCount(8, item) >= 0x1_0000_0000))
      ensures |heap| <= WordLimit(ws) / (2 * ws) ==> initialOfs < WordLimit(ws)
    {
      hide HeapOk, ValueOk, Dump, Refused, Encode, WordCount, ObjectCount, Idle, Bytes32, Closed;
      InputsOk(v);
      var ok := WriteBody(v);
      if !ok {
        return AbstractValue;
      }
      if ws == 8 && (size32 >= 0x1_0000_0000 || size64 >= 0x1_0000_0000) {
        return ObjectTooBig;
      }
      WriteSizes();
      return Written(out);
    }

    lemma InputsOk(v: Value)
      requires Idle() && HeapOk(ws, heap) && ValueOk(ws, heap, v)
      ensures (ws == 4 || ws == 8) && Closed(heap) && ValueIn(heap, v) && Seen(heap, [])
    {
    }

    lemma CountersAgree()
      requires Inv()
      ensures objCounter == |order|
    {
    }

    lemma LeftOrder(t: Target, v: Value)
      requires Inv() && HeapOk(ws, heap) && ValueOk(ws, heap, v) && Left(t, v)
      ensures order <= t.order
    {
    }

    lemma ImmediateLeft(t: Target, v: Value, item: Item)
      requires Inv() && HeapOk(ws, heap) && ValueOk(ws, heap, v) && Left(t, v)
      requires (v.Int? && item == IntItem(v.n)) || (v.Atom? && item == AtomItem(v.tag))
      ensures t == Target(out + Prefix(big, item), order, size32, size64)
    {
    }

    /** What is left to be written when a pointer is met. */
    lemma RefLeft(t: Target, a: int)
      requires Inv() && HeapOk(ws, heap) && ValueOk(ws, heap, Ref(a)) && Left(t, Ref(a))
      ensures Closed(heap) && Seen(heap, order) && ItemLeft(big, t, out, size32, size64, Dump(heap, Ref(a), order))
      ensures a in order ==> t == Target(out + Prefix(big, SharedItem(|order| - IndexOf(order, a))), order, size32, size64)
      ensures a !in order ==> order + [a] <= t.order
    {
    }
  }

  lemma AfterHeader(magic: seq<Byte>, out0: seq<Byte>, big: bool, item: Item, objects: nat, size32: nat, size64: nat)
    requires |out0| == 20 && out0[..4] == magic
    requires objects == ObjectCount(item) && size32 == WordCount(4, item) && size64 == WordCount(8, item)
    ensures BodyWritten(magic, out0 + Encode(big, item), big, item, objects, size32, size64)
  {
    hide Encode, ObjectCount, WordCount;
    var out := out0 + Encode(big, item);
    assert out[..4] == out0[..4] && out[20..] == Encode(big, item);
  }

  lemma HeapClosed(ws: nat, g: Graph)
    requires HeapOk(ws, g)
    ensures Closed(g)
  {
  }

  lemma NewOpaque(g: Graph, order: seq<int>, order0: seq<int>, a: int)
    requires order <= order0 && !SomeOpaque(g, order0, |order|) && a in g
    ensures SomeOpaque(g, order0 + [a], |order|) <==> g[a].Opaque?
  {
    assert (order0 + [a])[|order0|] == a;
    forall k | 0 <= k < |order0| ensures (order0 + [a])[k] == order0[k] { }
  }

  lemma FieldsOk(ws: nat, g: Graph, a: int)
    requires HeapOk(ws, g) && a in g && g[a].Tuple?
    ensures Closed(g) && |g[a].fields| > 0 && forall i :: 0 <= i < |g[a].fields| ==> ValueIn(g, g[a].fields[i]) && ValueOk(ws, g, g[a].fields[i])
  {
  }

  lemma NotOpaqueYet(g: Graph, order: seq<int>)
    ensures !SomeOpaque(g, order, |order|)
  {
  }

  lemma OpaqueSince(g: Graph, order0: seq<int>, order1: seq<int>, order2: seq<int>)
    requires order0 <= order1 <= order2 && !SomeOpaque(g, order1, |order0|)
    ensures SomeOpaque(g, order2, |order0|) <==> SomeOpaque(g, order2, |order1|)
  {
    forall k | |order0| <= k < |order1| ensures order2[k] == order1[k] { }
  }

  lemma BlockLeft(ws: nat, big: bool, g: Graph, t: Target, out: seq<Byte>, size32: nat, size64: nat, a: int, order0: seq<int>)
    requires Closed(g) && a in g && g[a].Tuple? && Seen(g, order0) && a !in order0
    requires ItemLeft(big, t, out, size32, size64, Dump(g, Ref(a), order0))
    ensures Seen(g, order0 + [a]) && forall i :: 0 <= i < |g[a].fields| ==> ValueIn(g, g[a].fields[i])
    ensures var n := |g[a].fields|;
      var r := DumpAll(g, g[a].fields, order0 + [a]);
      ItemsLeft(big, t, out + Prefix(big, BlockItem(g[a].tag, r.0)), size32 + (1 + n), size64 + (1 + n), r)
  {
    SeenMore(g, order0, a);
    UnseenLess(g, order0, order0 + [a]);
    hide Seen, Closed, Unseen, Prefix;
    var r := DumpAll(g, g[a].fields, order0 + [a]);
    BlockEncoded(big, out, g[a].tag, r.0);
  }

  lemma BlockEncoded(big: bool, out: seq<Byte>, tag: nat, fields: Items)
    ensures out + Encode(big, BlockItem(tag, fields)) == out + Prefix(big, BlockItem(tag, fields)) + EncodeAll(big, fields)
  {
  }

  lemma FirstLeft(big: bool, g: Graph, t: Target, t1: Target, out: seq<Byte>, size32: nat, size64: nat, vs: seq<Value>, order: seq<int>)
    requires Closed(g) && |vs| > 0 && (forall i :: 0 <= i < |vs| ==> ValueIn(g, vs[i])) && Seen(g, order)
    requires ItemsLeft(big, t, out, size32, size64, DumpAll(g, vs, order))
    requires var first := Dump(g, vs[0], order);
      t1 == Target(out + Encode(big, first.0), first.1, size32 + WordCount(4, first.0), size64 + WordCount(8, first.0))
    ensures ItemLeft(big, t1, out, size32, size64, Dump(g, vs[0], order)) && Seen(g, t1.order)
    ensures ItemsLeft(big, t, t1.out, t1.size32, t1.size64, DumpAll(g, vs[1..], t1.order))
    ensures t1.order <= t.order
  {
    var first := Dump(g, vs[0], order);
    var rest := DumpAll(g, vs[1..], first.1);
    hide Encode, WordCount, Seen, Closed, ValueIn, Dump;
    PairEncoded(big, out, first.0, rest.0);
  }

  lemma PairEncoded(big: bool, out: seq<Byte>, first: Item, rest: Items)
    ensures out + EncodeAll(big, Cons(first, rest)) == out + Encode(big, first) + EncodeAll(big, rest)
  {
  }

  lemma LastLeft(big: bool, g: Graph, t: Target, out: seq<Byte>, size32: nat, size64: nat, vs: seq<Value>, order: seq<int>)
    requires Closed(g) && |vs| == 1 && ValueIn(g, vs[0]) && Seen(g, order)
    requires ItemsLeft(big, t, out, size32, size64, DumpAll(g, vs, order))
    ensures ItemLeft(big, t, out, size32, size64, Dump(g, vs[0], order)) && order <= t.order
  {
    var first := Dump(g, vs[0], order);
    assert DumpAll(g, vs, order) == (Cons(first.0, Nil), first.1);
    assert EncodeAll(big, Cons(first.0, Nil)) == Encode(big, first.0);
    assert WordCountAll(4, Cons(first.0, Nil)) == WordCount(4, first.0) && WordCountAll(8, Cons(first.0, Nil)) == WordCount(8, first.0);
  }

  lemma ProbeStart(es: seq<Entry>, initialOfs: nat, h: nat)
    ensures Crowded(es, initialOfs, h, h) && forall v :: NotBefore(es, h, h, v)
  {
  }

  lemma TableShape(ws: nat, es: seq<Entry>, initialOfs: nat, order: seq<int>, pos: map<int, int>)
    requires TableOk(ws, es, initialOfs, order, pos)
    ensures ws > 0 && |es| > 0 && Distinct(order)
  {
  }

  lemma LiveEntry(ws: nat, es: seq<Entry>, initialOfs: nat, order: seq<int>, pos: map<int, int>, i: nat)
    requires TableOk(ws, es, initialOfs, order, pos) && i < |es| && Live(es[i], initialOfs)
    ensures var k := es[i].ofs - initialOfs;
      k in pos && pos[k] == i && 0 <= k < |order| && es[i] == Entry(initialOfs + k, order[k])
    ensures forall j :: j in pos && pos[j] == i ==> j == es[i].ofs - initialOfs
  {
    forall j | j in pos && pos[j] == i ensures j == es[i].ofs - initialOfs {
      assert EntryOk(ws, es, initialOfs, order, j, pos[j]);
    }
    var k := es[i].ofs - initialOfs;
    assert EntryOk(ws, es, initialOfs, order, k, pos[k]);
  }

  lemma NoEntry(ws: nat, es: seq<Entry>, initialOfs: nat, order: seq<int>, pos: map<int, int>, i: nat)
    requires TableOk(ws, es, initialOfs, order, pos) && i < |es| && !Live(es[i], initialOfs)
    ensures forall j :: j in pos ==> pos[j] != i
  {
    forall j | j in pos ensures pos[j] != i {
      assert EntryOk(ws, es, initialOfs, order, j, pos[j]);
    }
  }

  lemma PositionsInside(ws: nat, es: seq<Entry>, initialOfs: nat, order: seq<int>, pos: map<int, int>)
    requires TableOk(ws, es, initialOfs, order, pos)
    ensures forall j :: j in pos ==> 0 <= pos[j] < |es|
  {
    forall j | j in pos ensures 0 <= pos[j] < |es| {
      assert EntryOk(ws, es, initialOfs, order, j, pos[j]);
    }
  }

  lemma FewerKeys(done: map<int, int>, pos: map<int, int>, n: nat)
    requires Full(pos, n) && forall k :: k in done ==> k in pos
    ensures |done| <= n
  {
    FullSize(pos, n);
    forall k | k in done.Keys ensures k in pos.Keys { }
    Subset(done.Keys, pos.Keys);
  }

  lemma NotBeforeNext(es: seq<Entry>, h0: nat, h: nat, v: int)
    requires h0 < |es| && h < |es| && NotBefore(es, h0, h, v) && es[h].obj != v
    ensures NotBefore(es, h0, Next(h, |es|), v)
  {
  }

  /** The entries of a call do not count in the next one. */
  lemma NothingLive(ws: nat, es: seq<Entry>, initialOfs: nat, order: seq<int>, pos: map<int, int>)
    requires TableOk(ws, es, initialOfs, order, pos)
    ensures forall i :: 0 <= i < |es| ==> !Live(es[i], initialOfs + |order|)
  {
    hide Crowded;
    forall i | 0 <= i < |es| ensures !Live(es[i], initialOfs + |order|) {
      if Live(es[i], initialOfs) {
        assert EntryOk(ws, es, initialOfs, order, es[i].ofs - initialOfs, i);
      }
    }
  }

  lemma RefusedIff(ws: nat, g: Graph, v: Value, order: seq<int>, ok: bool)
    requires HeapOk(ws, g) && ValueOk(ws, g, v) && order <= Dump(g, v, []).1 && (ok ==> order == Dump(g, v, []).1)
    requires ok <==> !SomeOpaque(g, order, 0)
    ensures ok <==> !Refused(g, v)
  {
    hide Reachable, Dump;
    var all := Dump(g, v, []).1;
    forall a ensures a in all <==> Reachable(g, v, a) {
      DumpIsExact(g, v, a);
    }
    if !ok {
      var k :| 0 <= k < |order| && order[k] in g && g[order[k]].Opaque?;
      assert all[k] == order[k];
    }
  }

  lemma SeenCount(g: Graph, order: seq<int>)
    requires Seen(g, order)
    ensures |order| <= |g|
  {
    var met := set a | a in order;
    DistinctCount(order, met);
    Subset(met, g.Keys);
  }

  lemma DistinctCount(order: seq<int>, met: set<int>)
    requires Distinct(order) && forall a :: a in met <==> a in order
    ensures |met| == |order|
  {
    if order == [] {
      assert (forall a :: a !in met) ==> met == {};
    } else {
      var last := order[|order| - 1];
      assert order == order[..|order| - 1] + [last];
      DistinctCount(order[..|order| - 1], met - {last});
    }
  }
}
