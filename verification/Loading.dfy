/** What the reader makes of an item: the words it fills, and the objects it counts. */
module Loading {
  import Words
  import opened Items
  import opened Bytes

  const STRING_TAG := 252
  const DOUBLE_TAG := 253

  /** A word in the memory of the reader. */
  datatype Cell =
    | Hdr(size: int, tag: int, color: Words.Color)
    | Long(n: int)
    | AtomPtr(tag: int)
    | Ptr(addr: int)
    | Raw(bytes: seq<Byte>)

  /** `at` is where the next block goes; `table` lists the objects read so far. */
  datatype Store = Store(mem: seq<Cell>, at: int, table: seq<int>)

  function Put(mem: seq<Cell>, a: int, w: Cell): (r: seq<Cell>)
    ensures |r| == |mem|
  {
    if 0 <= a < |mem| then mem[a := w] else mem
  }

  function PutAll(mem: seq<Cell>, a: int, ws: seq<Cell>): (r: seq<Cell>)
    ensures |r| == |mem|
    decreases |ws|
  {
    if ws == [] then mem else PutAll(Put(mem, a, ws[0]), a + 1, ws[1..])
  }

  // Bytes in words.

  function Pack(ws: nat, bytes: seq<Byte>): seq<Cell>
    requires ws > 0
    decreases |bytes|
  {
    if |bytes| < ws then [] else [Raw(bytes[..ws])] + Pack(ws, bytes[ws..])
  }

  function Unpack(cells: seq<Cell>): seq<Byte> {
    if cells == [] then [] else (if cells[0].Raw? then cells[0].bytes else []) + Unpack(cells[1..])
  }

  function StringSize(ws: nat, len: nat): nat
    requires ws > 0
  {
    (len + ws) / ws
  }

  /** The bytes of a string, filled up so that the last one tells how many were added. */
  function Padded(ws: nat, chars: seq<Byte>): seq<Byte>
    requires 0 < ws < 0x100
  {
    PadIsByte(ws, |chars|);
    var pad := StringSize(ws, |chars|) * ws - 1 - |chars|;
    chars + Zeros(pad) + [pad]
  }

  lemma PadIsByte(ws: nat, len: nat)
    requires 0 < ws < 0x100
    ensures 0 <= StringSize(ws, len) * ws - 1 - len < ws
  {
    var q, r := (len + ws) / ws, (len + ws) % ws;
    assert len + ws == q * ws + r;
  }

  /** What the words of a string hold: its characters, zeros, and in the last byte how many of
      them there are. There are no more words than needed. */
  ghost predicate StringBytes(ws: nat, bytes: seq<Byte>, chars: seq<Byte>) {
    && |chars| < |bytes| <= |chars| + ws && bytes[..|chars|] == chars
    && (forall i :: |chars| <= i < |bytes| - 1 ==> bytes[i] == 0)
    && bytes[|bytes| - 1] == |bytes| - 1 - |chars|
  }

  /** The characters of a string, as [string_length] finds them. */
  function StringChars(cells: seq<Cell>): seq<Byte> {
    var bytes := Unpack(cells);
    if bytes == [] then [] else
      var len := |bytes| - 1 - bytes[|bytes| - 1] as int;
      if len < 0 then [] else bytes[..len]
  }

  lemma {:induction false} PackUnpack(ws: nat, bytes: seq<Byte>, n: nat)
    requires ws > 0 && |bytes| == n * ws
    ensures Unpack(Pack(ws, bytes)) == bytes && |Pack(ws, bytes)| == n
    decreases n
  {
    if n == 0 {
      assert |bytes| == 0;
    } else {
      assert n * ws == (n - 1) * ws + ws;
      assert (n - 1) * ws >= 0;
      PackUnpack(ws, bytes[ws..], n - 1);
      assert Pack(ws, bytes)[1..] == Pack(ws, bytes[ws..]);
      assert bytes == bytes[..ws] + bytes[ws..];
    }
  }

  /** A string is found again in the words it was put in. */
  lemma StringKept(ws: nat, chars: seq<Byte>)
    requires 0 < ws < 0x100
    ensures var cells := Pack(ws, Padded(ws, chars));
      |cells| == StringSize(ws, |chars|) && StringBytes(ws, Unpack(cells), chars) && StringChars(cells) == chars
  {
    PadIsByte(ws, |chars|);
    var size := StringSize(ws, |chars|);
    var p := Padded(ws, chars);
    PackUnpack(ws, p, size);
    assert p[|p| - 1] == size * ws - 1 - |chars|;
    var zeros := Zeros(size * ws - 1 - |chars|);
    forall i | |chars| <= i < |p| - 1 ensures p[i] == 0 {
      assert p[i] == zeros[i - |chars|];
    }
    assert p[..|chars|] == chars;
  }

  // Loading.

  function NewObject(st: Store, size: nat, tag: nat, color: Words.Color, cells: seq<Cell>, dest: int): Store {
    Store(Put(PutAll(Put(st.mem, st.at, Hdr(size, tag, color)), st.at + 1, cells), dest, Ptr(st.at + 1)), st.at + 1 + size, st.table + [st.at + 1])
  }

  /** The store after the value that `item` stands for has been put at `dest`. `big` says in
      which order the reading machine stores bytes. */
  ghost function Load(ws: nat, big: bool, color: Words.Color, st: Store, item: Item, dest: int): (r: Store)
    requires 0 < ws < 0x100
    ensures |r.mem| == |st.mem|
    decreases item
  {
    match item
    case IntItem(n) => st.(mem := Put(st.mem, dest, Long(n)))
    case AtomItem(tag) => st.(mem := Put(st.mem, dest, AtomPtr(tag)))
    case SharedItem(back) =>
      if 0 < back <= |st.table| then st.(mem := Put(st.mem, dest, Ptr(st.table[|st.table| - back]))) else st
    case StrItem(chars) => NewObject(st, StringSize(ws, |chars|), STRING_TAG, color, Pack(ws, Padded(ws, chars)), dest)
    case DblItem(image) => NewObject(st, 8 / ws, DOUBLE_TAG, color, Pack(ws, DoubleBytes(big, image)), dest)
    case BlockItem(tag, fields) =>
      LoadAll(ws, big, color, NewObject(st, fields.Length(), tag, color, [], dest), fields, st.at + 1)
  }

  ghost function LoadAll(ws: nat, big: bool, color: Words.Color, st: Store, items: Items, dest: int): (r: Store)
    requires 0 < ws < 0x100
    ensures |r.mem| == |st.mem|
    decreases items
  {
    if items.Nil? then st else LoadAll(ws, big, color, Load(ws, big, color, st, items.head, dest), items.tail, dest + 1)
  }
}
