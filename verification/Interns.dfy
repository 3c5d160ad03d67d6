/** The reader: input_val and what it calls. */
module Interns {
  import Words
  import opened Bytes
  import opened Items
  import opened Dumping
  import opened Loading
  import opened RoundTrips
  import opened Externs
  import opened Formats

  /** The item can be read when `k` objects have been counted: each argument fits, and each
      reference is to one of the objects counted. */
  ghost predicate Sound(ws: nat, item: Item, k: nat)
    decreases item
  {
    Readable(ws, item) &&
    match item
    case SharedItem(back) => back <= k
    case BlockItem(_, fields) => SoundAll(ws, fields, k + 1)
    case _ => true
  }

  ghost predicate SoundAll(ws: nat, items: Items, k: nat)
    decreases items
  {
    items.Cons? ==> Sound(ws, items.head, k) && SoundAll(ws, items.tail, k + ObjectCount(items.head))
  }

  ghost function Depth(item: Item): nat {
    if item.BlockItem? then 1 + DepthAll(item.fields) else 0
  }

  ghost function DepthAll(items: Items): nat {
    if items.Nil? then 0 else 1 + Depth(items.head) + DepthAll(items.tail)
  }

  /** What is left of the input, the room for it, and the store when it has been read. */
  ghost predicate InputLeft(ws: nat, big: bool, color: Words.Color, t: Store, st: Store, input: seq<Byte>, rest: seq<Byte>, wbig: bool, item: Item, dest: int) {
    && (ws == 4 || ws == 8) && Sound(ws, item, |st.table|)
    && input == Encode(wbig, item) + rest
    && Load(ws, big, color, st, item, dest) == t
    && 0 <= dest < |st.mem| && 0 <= st.at && st.at + WordCount(ws, item) <= |st.mem| && (dest < st.at || dest >= st.at + WordCount(ws, item))
  }

  ghost predicate InputsLeft(ws: nat, big: bool, color: Words.Color, t: Store, st: Store, input: seq<Byte>, rest: seq<Byte>, wbig: bool, items: Items, dest: int) {
    && (ws == 4 || ws == 8) && SoundAll(ws, items, |st.table|)
    && input == EncodeAll(wbig, items) + rest
    && LoadAll(ws, big, color, st, items, dest) == t
    && 0 <= dest && dest + items.Length() <= st.at && st.at + WordCountAll(ws, items) <= |st.mem|
  }

  lemma {:induction false} ReverseAppend(s: seq<Byte>, b: Byte)
    ensures Reverse(s + [b]) == [b] + Reverse(s)
  {
    if s != [] {
      assert (s + [b])[1..] == s[1..] + [b];
      ReverseAppend(s[1..], b);
    }
  }

  lemma {:induction false} ReverseTwice(s: seq<Byte>)
    ensures Reverse(Reverse(s)) == s
  {
    if s != [] {
      ReverseAppend(Reverse(s[1..]), s[0]);
      ReverseTwice(s[1..]);
    }
  }

  /** Loading moves on by the words and the objects of the item. */
  lemma {:induction false} LoadCounts(ws: nat, big: bool, color: Words.Color, st: Store, item: Item, p: int)
    requires ws == 4 || ws == 8
    ensures var t := Load(ws, big, color, st, item, p);
      |t.table| == |st.table| + ObjectCount(item) && t.at == st.at + WordCount(ws, item) && |t.mem| == |st.mem|
    decreases item
  {
    if item.BlockItem? {
      LoadCountsAll(ws, big, color, NewObject(st, item.fields.Length(), item.tag, color, [], p), item.fields, st.at + 1);
    }
  }

  lemma {:induction false} LoadCountsAll(ws: nat, big: bool, color: Words.Color, st: Store, items: Items, p: int)
    requires ws == 4 || ws == 8
    ensures var t := LoadAll(ws, big, color, st, items, p);
      |t.table| == |st.table| + ObjectCountAll(items) && t.at == st.at + WordCountAll(ws, items) && |t.mem| == |st.mem|
    decreases items
  {
    if items.Cons? {
      LoadCounts(ws, big, color, st, items.head, p);
      LoadCountsAll(ws, big, color, Load(ws, big, color, st, items.head, p), items.tail, p + 1);
    }
  }

  /** What remains to be done when the code of `item` and its argument have been read, and
      `s` is left. */
  ghost predicate AfterToken(ws: nat, big: bool, color: Words.Color, t: Store, st: Store, s: seq<Byte>, rest: seq<Byte>, wbig: bool, item: Item, p: int) {
    && (ws == 4 || ws == 8) && 0 <= p < |st.mem| && 0 <= st.at
    && match item
      case IntItem(n) => s == rest && t == st.(mem := st.mem[p := Long(n)])
      case AtomItem(tag) => s == rest && t == st.(mem := st.mem[p := AtomPtr(tag)])
      case SharedItem(back) => s == rest && 0 < back <= |st.table| && t == st.(mem := st.mem[p := Ptr(st.table[|st.table| - back])])
      case StrItem(chars) =>
        && s == chars + rest && st.at + 1 + StringSize(ws, |chars|) <= |st.mem|
        && t == NewObject(st, StringSize(ws, |chars|), STRING_TAG, color, Pack(ws, Padded(ws, chars)), p)
      case DblItem(image) =>
        && s == DoubleBytes(wbig, image) + rest && |image| == 8 && st.at + 1 + 8 / ws <= |st.mem|
        && t == NewObject(st, 8 / ws, DOUBLE_TAG, color, Pack(ws, DoubleBytes(big, image)), p)
      case BlockItem(tag, fields) =>
        && fields.Cons? && st.at + 1 + fields.Length() <= |st.mem| && p != st.at
        && InputsLeft(ws, big, color, t, NewObject(st, fields.Length(), tag, color, [], p), s, rest, wbig, fields, st.at + 1)
  }

  lemma TokenFacts(ws: nat, big: bool, color: Words.Color, t: Store, st: Store, s: seq<Byte>, rest: seq<Byte>, wbig: bool, item: Item, p: int)
    requires InputLeft(ws, big, color, t, st, s, rest, wbig, item, p)
    ensures var n := |Prefix(wbig, item)|;
      && n <= |s| && n == TokenLength(s[0]) && Decode(ws, s) == TokenOf(wbig, item)
      && AfterToken(ws, big, color, t, st, s[n..], rest, wbig, item, p)
  {
    hide Decode, Prefix, TokenLength, Pack, Padded, DoubleBytes;
    var pre := Prefix(wbig, item);
    assert Encode(wbig, item)[..|pre|] == pre;
    var body := Encode(wbig, item)[|pre|..];
    assert s == pre + (body + rest);
    TokenKept(ws, wbig, item, body + rest);
    assert s[|pre|..] == body + rest;
  }

  lemma HeadLeft(ws: nat, big: bool, color: Words.Color, t: Store, st: Store, input: seq<Byte>, rest: seq<Byte>, wbig: bool, items: Items, p: int)
    requires InputsLeft(ws, big, color, t, st, input, rest, wbig, items, p) && items.Cons?
    ensures var t1 := Load(ws, big, color, st, items.head, p);
      var rest1 := EncodeAll(wbig, items.tail) + rest;
      && InputLeft(ws, big, color, t1, st, input, rest1, wbig, items.head, p)
      && InputsLeft(ws, big, color, t, t1, rest1, rest, wbig, items.tail, p + 1)
      && |t1.table| == |st.table| + ObjectCount(items.head) && (ws == 4 || ws == 8)
  {
    hide Encode, Load, WordCount, Sound, Readable, ObjectCount, Items.Length;
    LoadCounts(ws, big, color, st, items.head, p);
    HeadEncoded(input, Encode(wbig, items.head), EncodeAll(wbig, items.tail), rest);
    HeadRoom(ws, st, items, p);
  }

  lemma HeadEncoded(input: seq<Byte>, head: seq<Byte>, tail: seq<Byte>, rest: seq<Byte>)
    requires input == head + tail + rest
    ensures input == head + (tail + rest)
  {
  }

  lemma HeadRoom(ws: nat, st: Store, items: Items, p: int)
    requires ws > 0 && items.Cons? && 0 <= p && p + items.Length() <= st.at && st.at + WordCountAll(ws, items) <= |st.mem|
    ensures p < |st.mem| && 0 <= st.at && st.at + WordCount(ws, items.head) <= |st.mem| && p < st.at
    ensures p + 1 + items.tail.Length() <= st.at && st.at + WordCount(ws, items.head) + WordCountAll(ws, items.tail) <= |st.mem|
  {
    hide WordCount;
  }

  lemma OnlyLeft(ws: nat, big: bool, color: Words.Color, t: Store, st: Store, input: seq<Byte>, rest: seq<Byte>, wbig: bool, items: Items, p: int)
    requires InputsLeft(ws, big, color, t, st, input, rest, wbig, items, p) && items.Cons? && items.tail.Nil?
    ensures InputLeft(ws, big, color, t, st, input, rest, wbig, items.head, p)
  {
    HeadLeft(ws, big, color, t, st, input, rest, wbig, items, p);
    assert EncodeAll(wbig, items.tail) + rest == rest;
  }

  // What a reader can read of what is written.

  predicate ValueFits(ws: nat, v: Value) {
    match v
    case Int(n) => LongOk(ws, n)
    case Atom(tag) => tag < 0x100
    case Ref(_) => true
  }

  /** The object can be read where words have `ws` bytes: its size and the integers in it are
      not too big. */
  predicate ObjFits(ws: nat, o: Obj) {
    match o
    case Tuple(tag, fields) =>
      tag < 0x100 && 0 < |fields| < Limit(ws) / 0x400 && forall i :: 0 <= i < |fields| ==> ValueFits(ws, fields[i])
    case Str(chars) => |chars| < Limit(ws)
    case Dbl(image) => |image| == 8
    case Opaque(_) => false
  }

  ghost predicate AllFit(ws: nat, g: Graph, order: seq<int>, n: nat) {
    |order| < Limit(ws) && forall k :: n <= k < |order| ==> order[k] in g && ObjFits(ws, g[order[k]])
  }

  lemma {:induction false} DumpSound(ws: nat, g: Graph, v: Value, order: seq<int>)
    requires Closed(g) && ValueIn(g, v) && Seen(g, order) && ValueFits(ws, v) && AllFit(ws, g, Dump(g, v, order).1, |order|)
    ensures Sound(ws, Dump(g, v, order).0, |order|)
    decreases |Unseen(g, order)|, 0
  {
    hide ObjFits, Closed;
    if v.Ref? && v.addr !in order {
      var a := v.addr;
      SeenMore(g, order, a);
      UnseenLess(g, order, order + [a]);
      assert Dump(g, v, order).1[|order|] == a;
      ObjectFits(ws, g, a);
      if g[a].Tuple? {
        FieldsIn(g, a);
        DumpSoundAll(ws, g, g[a].fields, order + [a]);
      }
    }
  }

  lemma ObjectFits(ws: nat, g: Graph, a: int)
    requires a in g && ObjFits(ws, g[a])
    ensures match g[a]
      case Tuple(tag, fields) =>
        tag < 0x100 && 0 < |fields| < Limit(ws) / 0x400 && forall i :: 0 <= i < |fields| ==> ValueFits(ws, fields[i])
      case Str(chars) => |chars| < Limit(ws)
      case Dbl(image) => |image| == 8
      case Opaque(_) => false
  {
  }

  lemma {:induction false} DumpSoundAll(ws: nat, g: Graph, vs: seq<Value>, order: seq<int>)
    requires Closed(g) && (forall i :: 0 <= i < |vs| ==> ValueIn(g, vs[i])) && Seen(g, order)
    requires (forall i :: 0 <= i < |vs| ==> ValueFits(ws, vs[i])) && AllFit(ws, g, DumpAll(g, vs, order).1, |order|)
    ensures SoundAll(ws, DumpAll(g, vs, order).0, |order|)
    decreases |Unseen(g, order)|, 1 + |vs|
  {
    hide ObjFits, Closed, ValueFits;
    if vs != [] {
      var first := Dump(g, vs[0], order);
      FitPart(ws, g, first.1, DumpAll(g, vs, order).1, |order|);
      UnseenLess(g, order, first.1);
      ObjectsDumped(g, vs[0], order);
      DumpSound(ws, g, vs[0], order);
      DumpSoundAll(ws, g, vs[1..], first.1);
    }
  }

  lemma FitPart(ws: nat, g: Graph, order1: seq<int>, order2: seq<int>, n: nat)
    requires order1 <= order2 && AllFit(ws, g, order2, n) && n <= |order1|
    ensures AllFit(ws, g, order1, n) && AllFit(ws, g, order2, |order1|)
  {
    assert forall k :: 0 <= k < |order1| ==> order1[k] == order2[k];
  }

  lemma FitIsPlain(ws: nat, g: Graph, order: seq<int>, n: nat)
    requires AllFit(ws, g, order, n)
    ensures Plain(g, order, n)
  {
  }

  datatype Input = Done | BadObject | EndOfFile | Truncated | TooBig

  /** The size of the greatest block. */
  function MaxWosize(ws: nat): nat {
    if ws == 8 then 0x3F_FFFF_FFFF_FFFF else 0x3F_FFFF
  }

  predicate MagicOk(bytes: seq<Byte>) {
    |bytes| >= 4 && Unsigned32(bytes) == INTEXT_MAGIC_NUMBER
  }

  /** The counts in the header of a message have 32 bits. */
  ghost predicate SizesFit(wbig: bool, item: Item) {
    && |Encode(wbig, item)| < 0x1_0000_0000 && ObjectCount(item) < 0x1_0000_0000
    && WordCount(4, item) < 0x1_0000_0000 && WordCount(8, item) < 0x1_0000_0000
  }

  /** The objects reachable from `v` are in `mem`, one after the other from the first word on;
      the last word, which is for the result, stands for `v`. */
  ghost predicate ReadBack(ws: nat, big: bool, color: Words.Color, g: Graph, v: Value, mem: seq<Cell>, table: seq<int>, end: int)
    requires Closed(g) && ValueIn(g, v) && ws > 0
  {
    var order := Dump(g, v, []).1;
    && |mem| == end + 1 && end >= 0
    && Represents(mem[end], v, order, table)
    && ObjectsAt(ws, big, color, g, mem, order, 0, table)
    && Placed(ws, g, 0, end, order, 0, table)
  }

  lemma ShortPrefix(a: seq<Byte>, b: seq<Byte>)
    requires |a| >= 4 && |b| >= 4 && a[..4] == b[..4]
    ensures Unsigned32(a) == Unsigned32(b)
  {
    assert a[..4][0] == b[..4][0] && a[..4][1] == b[..4][1] && a[..4][2] == b[..4][2] && a[..4][3] == b[..4][3];
  }

  lemma SamePart(bytes: seq<Byte>, m: seq<Byte>, a: nat, b: nat)
    requires (bytes <= m || m <= bytes) && a <= b <= |bytes| && b <= |m|
    ensures bytes[a..b] == m[a..b]
  {
  }

  lemma CountRead(bytes: seq<Byte>, a: nat, n: nat)
    requires a + 4 <= |bytes| && bytes[a..a + 4] == Bytes32(n) && n < 0x1_0000_0000
    ensures Unsigned32(bytes[a..]) == n
  {
    hide Bytes32, Unsigned32;
    assert bytes[a..][..4] == Bytes32(n)[..4];
    ShortPrefix(bytes[a..], Bytes32(n));
    Unsigned32Bytes(n);
  }

  /** The counts are read as they were written. */
  lemma HeaderRead(bytes: seq<Byte>, wbig: bool, item: Item)
    requires |bytes| >= 20 && SizesFit(wbig, item) && (bytes <= Message(wbig, item) || Message(wbig, item) <= bytes)
    ensures Unsigned32(bytes[4..]) == |Encode(wbig, item)| && Unsigned32(bytes[8..]) == ObjectCount(item)
    ensures Unsigned32(bytes[12..]) == WordCount(4, item) && Unsigned32(bytes[16..]) == WordCount(8, item)
  {
    hide Bytes32, Unsigned32, Encode, ObjectCount, WordCount, Message;
    var m := Message(wbig, item);
    MessageWords(wbig, item);
    SamePart(bytes, m, 4, 8);
    SamePart(bytes, m, 8, 12);
    SamePart(bytes, m, 12, 16);
    SamePart(bytes, m, 16, 20);
    CountRead(bytes, 4, |Encode(wbig, item)|);
    CountRead(bytes, 8, ObjectCount(item));
    CountRead(bytes, 12, WordCount(4, item));
    CountRead(bytes, 16, WordCount(8, item));
  }

  lemma BodyRead(bytes: seq<Byte>, wbig: bool, item: Item)
    requires Message(wbig, item) <= bytes || (bytes <= Message(wbig, item) && |bytes| >= |Message(wbig, item)|)
    ensures |bytes| >= 20 + |Encode(wbig, item)| && bytes[20..20 + |Encode(wbig, item)|] == Encode(wbig, item)
  {
    var m := Message(wbig, item);
    assert bytes[..|m|] == m;
    assert bytes[20..|m|] == m[20..];
  }

  lemma {:induction false} FewObjects(ws: nat, item: Item)
    requires ws > 0
    ensures ObjectCount(item) <= WordCount(ws, item)
    decreases item
  {
    if item.BlockItem? {
      FewObjectsAll(ws, item.fields);
    }
  }

  lemma {:induction false} FewObjectsAll(ws: nat, items: Items)
    requires ws > 0
    ensures ObjectCountAll(items) <= WordCountAll(ws, items)
    decreases items
  {
    if items.Cons? {
      FewObjects(ws, items.head);
      FewObjectsAll(ws, items.tail);
    }
  }

  lemma Ready(ws: nat, big: bool, color: Words.Color, g: Graph, v: Value, st: Store, t: Store, input: seq<Byte>, wbig: bool, whsize: nat, objects: nat)
    requires Closed(g) && ValueIn(g, v) && (ws == 4 || ws == 8) && ValueFits(ws, v) && AllFit(ws, g, Dump(g, v, []).1, 0)
    requires var item := Dump(g, v, []).0;
      && input == Encode(wbig, item) && whsize == WordCount(ws, item) && t == Load(ws, big, color, st, item, whsize)
      && |st.mem| == whsize + 1 && st.at == 0 && st.table == [] && objects == if whsize == 0 then 0 else ObjectCount(item)
    ensures InputLeft(ws, big, color, t, st, input, [], wbig, Dump(g, v, []).0, whsize) && ObjectCount(Dump(g, v, []).0) <= objects
  {
    hide Dump, AllFit, Encode, Load, Sound, ObjectCount, WordCount;
    DumpSound(ws, g, v, []);
    FewObjects(ws, Dump(g, v, []).0);
    assert input == Encode(wbig, Dump(g, v, []).0) + [];
  }

  lemma AllRead(ws: nat, big: bool, color: Words.Color, g: Graph, v: Value, st: Store, t: Store, whsize: nat)
    requires Closed(g) && ValueIn(g, v) && (ws == 4 || ws == 8) && AllFit(ws, g, Dump(g, v, []).1, 0)
    requires var item := Dump(g, v, []).0;
      && whsize == WordCount(ws, item) && t == Load(ws, big, color, st, item, whsize)
      && |st.mem| == whsize + 1 && st.at == 0 && st.table == []
    ensures ReadBack(ws, big, color, g, v, t.mem, t.table, t.at) && t.at == whsize
  {
    hide Dump, AllFit, Load, WordCount, Plain, Represents, ObjectsAt, Placed;
    FitIsPlain(ws, g, Dump(g, v, []).1, 0);
    LoadDump(ws, big, color, g, v, [], st, whsize);
  }

  class Intern {
    const ws: nat
    const big: bool
    const color: Words.Color    // of the block in which the objects are put

    var input: seq<Byte>
    var src: nat
    var mem: array<Cell>
    var dest: nat               // where the next object goes
    var objTable: array<int>
    var objCounter: nat

    constructor (ws: nat, big: bool, color: Words.Color)
      ensures this.ws == ws && this.big == big && this.color == color
    {
      this.ws, this.big, this.color := ws, big, color;
      input, src, mem, dest, objTable, objCounter := [], 0, new Cell[0], 0, new int[0], 0;
    }

    ghost function St(): Store
      requires objCounter <= objTable.Length
      reads this`mem, this`dest, this`objTable, this`objCounter, mem, objTable
    {
      Store(mem[..], dest, objTable[..objCounter])
    }

    /** Reads a code and its argument. */
    method ReadToken() returns (t: Token)
      requires src < |input| && src + TokenLength(input[src]) <= |input|
      modifies this`src
      ensures src == old(src) + TokenLength(input[old(src)]) && t == Decode(ws, input[old(src)..])
    {
      var code := input[src];
      src := src + 1;
      if code >= PREFIX_SMALL_INT {
        if code >= PREFIX_SMALL_BLOCK {
          t := Header(code % 0x10, code / 0x10 % 8);
        } else {
          t := Immediate(code % 0x40);
        }
      } else if code >= PREFIX_SMALL_STRING {
        t := Chars(code % 0x20);
      } else {
        var arg := input[src..];
        if code == CODE_INT8 {
          t := Immediate(SignExtend(arg[0]));
          src := src + 1;
        } else if code == CODE_INT16 {
          t := Immediate(Signed16(arg));
          src := src + 2;
        } else if code == CODE_INT32 {
          t := Immediate(Signed32(arg));
          src := src + 4;
        } else if code == CODE_INT64 {
          t := if ws == 8 then Immediate(Signed64(arg)) else Failed;
          src := src + 8;
        } else if code == CODE_SHARED8 {
          t := Earlier(arg[0]);
          src := src + 1;
        } else if code == CODE_SHARED16 {
          t := Earlier(Unsigned16(arg));
          src := src + 2;
        } else if code == CODE_SHARED32 {
          t := Earlier(Read32u(ws, arg));
          src := src + 4;
        } else if code == CODE_BLOCK32 {
          var header := Read32u(ws, arg);
          t := Header(header % 0x100, header / 0x400);
          src := src + 4;
        } else if code == CODE_STRING8 {
          t := Chars(arg[0]);
          src := src + 1;
        } else if code == CODE_STRING32 {
          t := Chars(Read32u(ws, arg));
          src := src + 4;
        } else if code == CODE_DOUBLE_BIG || code == CODE_DOUBLE_LITTLE {
          t := Double(code == CODE_DOUBLE_BIG);
        } else {
          t := Failed;
        }
      }
    }

    /** Fills a new block that holds no values, counts it, and puts its address at `p`. */
    method PlaceObject(size: nat, tag: nat, cells: seq<Cell>, p: int)
      requires objCounter < objTable.Length && dest + 1 + size <= mem.Length && |cells| <= size && 0 <= p < mem.Length
      modifies this`dest, this`objCounter, mem, objTable
      ensures objCounter == old(objCounter) + 1
      ensures St() == NewObject(old(St()), size, tag, color, cells, p)
    {
      var v := dest + 1;
      objTable[objCounter] := v;
      objCounter := objCounter + 1;
      mem[dest] := Hdr(size, tag, color);
      dest := dest + 1 + size;
      ghost var whole := PutAll(mem[..], v, cells);
      var i := 0;
      while i < |cells|
        modifies mem
        invariant 0 <= i <= |cells| && PutAll(mem[..], v + i, cells[i..]) == whole
      {
        assert cells[i..][0] == cells[i] && cells[i..][1..] == cells[i + 1..];
        mem[v + i] := cells[i];
        i := i + 1;
      }
      mem[p] := Ptr(v);
    }

    method ReadString(len: nat, p: int, ghost chars: seq<Byte>, ghost rest: seq<Byte>)
      requires (ws == 4 || ws == 8) && src <= |input| && input[src..] == chars + rest && len == |chars|
      requires objCounter < objTable.Length && dest + 1 + StringSize(ws, len) <= mem.Length && 0 <= p < mem.Length
      modifies this`src, this`dest, this`objCounter, mem, objTable
      ensures src == old(src) + len <= |input| && input[src..] == rest && objCounter == old(objCounter) + 1
      ensures St() == NewObject(old(St()), StringSize(ws, len), STRING_TAG, color, Pack(ws, Padded(ws, chars)), p)
    {
      hide Pack, Padded, NewObject;
      assert input[src..src + len] == input[src..][..len] == chars;
      assert input[src + len..] == input[src..][len..] == rest;
      StringKept(ws, chars);
      PlaceObject(StringSize(ws, len), STRING_TAG, Pack(ws, Padded(ws, input[src..src + len])), p);
      src := src + len;
    }

    /** Reads a floating-point number. If the writer stored bytes the other way, they are reversed. */
    method ReadDouble(wbig: bool, p: int, ghost image: seq<Byte>, ghost rest: seq<Byte>)
      requires (ws == 4 || ws == 8) && src <= |input| && input[src..] == DoubleBytes(wbig, image) + rest && |image| == 8
      requires objCounter < objTable.Length && dest + 1 + 8 / ws <= mem.Length && 0 <= p < mem.Length
      modifies this`src, this`dest, this`objCounter, mem, objTable
      ensures src == old(src) + 8 <= |input| && input[src..] == rest && objCounter == old(objCounter) + 1
      ensures St() == NewObject(old(St()), 8 / ws, DOUBLE_TAG, color, Pack(ws, DoubleBytes(big, image)), p)
    {
      hide Pack, NewObject, Reverse;
      assert input[src..src + 8] == input[src..][..8] == DoubleBytes(wbig, image);
      assert input[src + 8..] == input[src..][8..] == rest;
      var bytes := input[src..src + 8];
      if wbig != big {
        ReverseTwice(image);
        bytes := Reverse(bytes);
      }
      PackUnpack(ws, bytes, 8 / ws);
      PlaceObject(8 / ws, DOUBLE_TAG, Pack(ws, bytes), p);
      src := src + 8;
    }

    /** Makes room for a block that holds values, whose address is put at `p`. */
    method PlaceBlock(tag: nat, size: nat, p: int)
      requires objCounter < objTable.Length && dest + 1 + size <= mem.Length && 0 <= p < mem.Length && p != dest
      modifies this`dest, this`objCounter, mem, objTable
      ensures objCounter == old(objCounter) + 1
      ensures St() == NewObject(old(St()), size, tag, color, [], p)
    {
      var v := dest + 1;
      mem[p] := Ptr(v);
      objTable[objCounter] := v;
      objCounter := objCounter + 1;
      mem[dest] := Hdr(size, tag, color);
      dest := dest + 1 + size;
    }

    ghost predicate Left(t: Store, rest: seq<Byte>, wbig: bool, item: Item, p: int)
      reads this`input, this`src, this`mem, this`dest, this`objTable, this`objCounter, mem, objTable
    {
      && src <= |input| && objCounter + ObjectCount(item) <= objTable.Length
      && InputLeft(ws, big, color, t, St(), input[src..], rest, wbig, item, p)
    }

    ghost predicate AllLeft(t: Store, rest: seq<Byte>, wbig: bool, items: Items, p: int)
      reads this`input, this`src, this`mem, this`dest, this`objTable, this`objCounter, mem, objTable
    {
      && src <= |input| && objCounter + ObjectCountAll(items) <= objTable.Length
      && InputsLeft(ws, big, color, t, St(), input[src..], rest, wbig, items, p)
    }

    lemma TokenNext(t: Store, rest: seq<Byte>, wbig: bool, item: Item, p: int)
      requires Left(t, rest, wbig, item, p)
      ensures src < |input| && src + TokenLength(input[src]) <= |input| && Decode(ws, input[src..]) == TokenOf(wbig, item)
      ensures AfterToken(ws, big, color, t, St(), input[src + TokenLength(input[src])..], rest, wbig, item, p)
    {
      hide AfterToken, Decode, InputLeft;
      TokenFacts(ws, big, color, t, St(), input[src..], rest, wbig, item, p);
      assert input[src..][0] == input[src];
      assert input[src..][TokenLength(input[src])..] == input[src + TokenLength(input[src])..];
    }

    /** Reads all fields of a block but the last. */
    method InternFields(size: nat, p0: int, ghost fields: Items, ghost wbig: bool, ghost rest: seq<Byte>, ghost t: Store) returns (p: int, ghost item: Item)
      requires AllLeft(t, rest, wbig, fields, p0) && fields.Length() == size >= 1
      modifies this`src, this`dest, this`objCounter, mem, objTable
      ensures Left(t, rest, wbig, item, p) && Depth(item) <= DepthAll(fields)
      ensures objCounter + ObjectCount(item) == old(objCounter) + ObjectCountAll(fields)
      decreases DepthAll(fields), 1
    {
      hide InputsLeft, InputLeft;
      p := p0;
      ghost var items := fields;
      var n := size;
      while n > 1
        modifies this`src, this`dest, this`objCounter, mem, objTable
        invariant n >= 1 && AllLeft(t, rest, wbig, items, p) && items.Length() == n && DepthAll(items) <= DepthAll(fields)
        invariant objCounter + ObjectCountAll(items) == old(objCounter) + ObjectCountAll(fields)
      {
        ghost var st, s := St(), input[src..];
        HeadLeft(ws, big, color, t, st, s, rest, wbig, items, p);
        InternRec(p, items.head, wbig, EncodeAll(wbig, items.tail) + rest, Load(ws, big, color, st, items.head, p));
        items := items.tail;
        n := n - 1;
        p := p + 1;
      }
      OnlyLeft(ws, big, color, t, St(), input[src..], rest, wbig, items, p);
      item := items.head;
    }

    /** Reads an item and puts the value at `p0`. The last field of a block is left to a tail call. */
    method InternRec(p0: int, ghost item0: Item, ghost wbig: bool, ghost rest: seq<Byte>, ghost t: Store)
      requires Left(t, rest, wbig, item0, p0)
      modifies this`src, this`dest, this`objCounter, mem, objTable
      ensures objCounter == old(objCounter) + ObjectCount(item0) <= objTable.Length
      ensures St() == t && src <= |input| && input[src..] == rest
      decreases Depth(item0), 0
    {
      hide Decode, Encode, Load, LoadAll, NewObject, Pack, Padded, DoubleBytes, Sound, TokenLength, InputsLeft, InputLeft;
      var p := p0;
      ghost var item := item0;
      while true
        modifies this`src, this`dest, this`objCounter, mem, objTable
        invariant Left(t, rest, wbig, item, p) && Depth(item) <= Depth(item0)
        invariant objCounter + ObjectCount(item) == old(objCounter) + ObjectCount(item0)
        decreases Depth(item)
      {
        TokenNext(t, rest, wbig, item, p);
        ghost var st := St();
        var token := ReadToken();
        match token {
          case Immediate(n) =>
            mem[p] := Long(n);
            return;
          case Earlier(ofs) =>
            mem[p] := Ptr(objTable[objCounter - ofs]);
            return;
          case Chars(len) =>
            ReadString(len, p, item.chars, rest);
            return;
          case Double(b) =>
            ReadDouble(b, p, item.image, rest);
            return;
          case Header(tag, size) =>
            if size == 0 {
              mem[p] := AtomPtr(tag);
              return;
            }
            var first := dest + 1;
            PlaceBlock(tag, size, p);
            p, item := InternFields(size, first, item.fields, wbig, rest, t);
        }
      }
    }

    /** Makes room for the structure, and one more word for the result. */
    method InternAlloc(whsize: nat, numObjects: nat) returns (ok: bool)
      modifies this
      ensures ok <==> whsize == 0 || whsize - 1 <= MaxWosize(ws)
      ensures input == old(input) && src == old(src)
      ensures ok ==> fresh(mem) && fresh(objTable) && mem.Length == whsize + 1 && dest == 0 && objCounter == 0 && objTable.Length == if whsize == 0 then 0 else numObjects
    {
      if whsize > 0 && whsize - 1 > MaxWosize(ws) {
        return false;
      }
      mem := new Cell[whsize + 1](_ => Long(0));
      dest, objCounter := 0, 0;
      objTable := new int[if whsize == 0 then 0 else numObjects](_ => 0);
      return true;
    }

    /** Reads what was written for `v`, on a machine of whatever kind: every object that can
        be reached from `v` is rebuilt, once, and the words allocated are filled exactly. */
    method InputVal(bytes: seq<Byte>, ghost wbig: bool, ghost g: Graph, ghost v: Value) returns (r: Input)
      requires Closed(g) && ValueIn(g, v) && (ws == 4 || ws == 8)
      requires var (item, order) := Dump(g, v, []);
        && ValueFits(ws, v) && AllFit(ws, g, order, 0) && SizesFit(wbig, item)
        && (MagicOk(bytes) ==> bytes <= Message(wbig, item) || Message(wbig, item) <= bytes)
      modifies this
      ensures var (item, order) := Dump(g, v, []);
        && (r == EndOfFile <==> |bytes| < 4 || (MagicOk(bytes) && |bytes| < 20))
        && (r == BadObject <==> |bytes| >= 4 && !MagicOk(bytes))
        && (r == Truncated <==> MagicOk(bytes) && 20 <= |bytes| < |Message(wbig, item)|)
        && (r == TooBig <==> MagicOk(bytes) && |bytes| >= |Message(wbig, item)| && WordCount(ws, item) > MaxWosize(ws) + 1)
        && (r == Done ==> ReadBack(ws, big, color, g, v, mem[..], objTable[..], dest))
    {
      hide Dump, Message, AllFit, ReadBack, Bytes32, Unsigned32;
      if |bytes| < 4 {
        return EndOfFile;
      }
      if Unsigned32(bytes) != INTEXT_MAGIC_NUMBER {
        return BadObject;
      }
      if |bytes| < 20 {
        return EndOfFile;
      }
      ghost var item := Dump(g, v, []).0;
      HeaderRead(bytes, wbig, item);
      var blockLen, numObjects, size32, size64 := Unsigned32(bytes[4..]), Unsigned32(bytes[8..]), Unsigned32(bytes[12..]), Unsigned32(bytes[16..]);
      if |bytes| - 20 < blockLen {
        return Truncated;
      }
      BodyRead(bytes, wbig, item);
      input, src := bytes[20..20 + blockLen], 0;
      var whsize := if ws == 8 then size64 else size32;
      var ok := InternAlloc(whsize, numObjects);
      if !ok {
        return TooBig;
      }
      ghost var st := St();
      ghost var t := Load(ws, big, color, st, item, whsize);
      Ready(ws, big, color, g, v, st, t, input[src..], wbig, whsize, objTable.Length);
      InternRec(whsize, item, wbig, [], t);
      AllRead(ws, big, color, g, v, st, t, whsize);
      ObjectsDumped(g, v, []);
      assert objTable[..objCounter] == objTable[..];
      return Done;
    }
  }
}
