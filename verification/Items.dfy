/** The external representation of values: what is written is a tree of items, each a code,
    perhaps an argument, and perhaps a body. */
module Items {
  import opened Bytes

  /** What a value is externed as. An object already written is given by how many objects
      ago it was. The bytes of a floating-point number are listed most significant first. */
  datatype Item =
    | IntItem(n: int)
    | AtomItem(tag: nat)
    | SharedItem(back: nat)
    | StrItem(chars: seq<Byte>)
    | DblItem(image: seq<Byte>)
    | BlockItem(tag: nat, fields: Items)

  datatype Items = Nil | Cons(head: Item, tail: Items) {
    function Length(): nat {
      if Nil? then 0 else 1 + tail.Length()
    }
  }

  // The codes of intext.h.

  const PREFIX_SMALL_BLOCK := 0x80
  const PREFIX_SMALL_INT := 0x40
  const PREFIX_SMALL_STRING := 0x20
  const CODE_INT8 := 0x0
  const CODE_INT16 := 0x1
  const CODE_INT32 := 0x2
  const CODE_INT64 := 0x3
  const CODE_SHARED8 := 0x4
  const CODE_SHARED16 := 0x5
  const CODE_SHARED32 := 0x6
  const CODE_BLOCK32 := 0x8
  const CODE_STRING8 := 0x9
  const CODE_STRING32 := 0xA
  const CODE_DOUBLE_BIG := 0xB
  const CODE_DOUBLE_LITTLE := 0xC

  function Bytes16(v: int): (r: seq<Byte>)
    ensures |r| == 2
  {
    [v / 0x100 % 0x100, v % 0x100]
  }

  function Bytes32(v: int): (r: seq<Byte>)
    ensures |r| == 4
  {
    [v / 0x1000000 % 0x100, v / 0x10000 % 0x100, v / 0x100 % 0x100, v % 0x100]
  }

  function Bytes64(v: int): (r: seq<Byte>)
    ensures |r| == 8
  {
    Bytes32(v / 0x1_0000_0000) + Bytes32(v)
  }

  function SignExtend(b: Byte): int {
    if b < 0x80 then b else b - 0x100
  }

  function Unsigned16(b: seq<Byte>): (v: nat)
    requires |b| >= 2
  {
    b[0] as int * 0x100 + b[1] as int
  }

  function Signed16(b: seq<Byte>): int
    requires |b| >= 2
  {
    SignExtend(b[0]) * 0x100 + b[1] as int
  }

  function Unsigned32(b: seq<Byte>): (v: nat)
    requires |b| >= 4
  {
    b[0] as int * 0x1000000 + b[1] as int * 0x10000 + b[2] as int * 0x100 + b[3] as int
  }

  function Signed32(b: seq<Byte>): int
    requires |b| >= 4
  {
    SignExtend(b[0]) * 0x1000000 + b[1] as int * 0x10000 + b[2] as int * 0x100 + b[3] as int
  }

  function Signed64(b: seq<Byte>): int
    requires |b| >= 8
  {
    Signed32(b) * 0x1_0000_0000 + Unsigned32(b[4..])
  }

  /** The reader computes an unsigned word in a signed 32-bit integer: where words have 64
      bits, that integer is then extended with its sign. */
  function Read32u(ws: nat, b: seq<Byte>): int
    requires |b| >= 4
  {
    var v := Unsigned32(b);
    if ws == 8 && v >= 0x8000_0000 then v - 0x1_0000_0000 + 0x1_0000_0000_0000_0000 else v
  }

  /** A number is put together again from its bytes. */
  lemma FourBytes(v: int)
    ensures v == v / 0x1000000 * 0x1000000 + v / 0x10000 % 0x100 * 0x10000 + v / 0x100 % 0x100 * 0x100 + v % 0x100
  {
    assert v == v / 0x100 * 0x100 + v % 0x100;
    var w := v / 0x100;
    assert w == w / 0x100 * 0x100 + w % 0x100;
    assert w / 0x100 == v / 0x10000;
    var x := w / 0x100;
    assert x == x / 0x100 * 0x100 + x % 0x100;
    assert x / 0x100 == v / 0x1000000;
  }

  lemma Unsigned32Bytes(v: int)
    requires 0 <= v < 0x1_0000_0000
    ensures Unsigned32(Bytes32(v)) == v
  {
    FourBytes(v);
    assert 0 <= v / 0x1000000 < 0x100;
  }

  lemma Signed32Bytes(v: int)
    requires -0x8000_0000 <= v < 0x8000_0000
    ensures Signed32(Bytes32(v)) == v
  {
    FourBytes(v);
    assert -0x80 <= v / 0x1000000 < 0x80;
  }

  lemma LowBytes(hi: int, lo: int)
    requires 0 <= lo < 0x1_0000_0000
    ensures Bytes32(hi * 0x1_0000_0000 + lo) == Bytes32(lo)
  {
    var v := hi * 0x1_0000_0000 + lo;
    assert v / 0x1000000 == hi * 0x100 + lo / 0x1000000;
    assert v / 0x10000 == (hi * 0x100) * 0x100 + lo / 0x10000;
    assert v / 0x100 == (hi * 0x10000) * 0x100 + lo / 0x100;
    assert v == (hi * 0x1000000) * 0x100 + lo;
    SameByte(hi, lo / 0x1000000);
    SameByte(hi * 0x100, lo / 0x10000);
    SameByte(hi * 0x10000, lo / 0x100);
    SameByte(hi * 0x1000000, lo);
  }

  lemma SameByte(k: int, x: int)
    ensures (k * 0x100 + x) % 0x100 == x % 0x100
  {
  }

  lemma Signed64Bytes(v: int)
    requires -0x8000_0000_0000_0000 <= v < 0x8000_0000_0000_0000
    ensures Signed64(Bytes64(v)) == v
  {
    hide Bytes32, Signed32, Unsigned32;
    var hi, lo := v / 0x1_0000_0000, v % 0x1_0000_0000;
    Signed32Bytes(hi);
    Unsigned32Bytes(lo);
    LowBytes(hi, lo);
    Signed32Prefix(Bytes32(hi), Bytes32(v));
    assert Bytes64(v)[4..] == Bytes32(v);
  }

  lemma Signed32Prefix(a: seq<Byte>, b: seq<Byte>)
    requires |a| == 4
    ensures Signed32(a + b) == Signed32(a)
  {
  }

  // Writing.

  /** What comes before the body of an item. `big` says in which order the writing machine
      stores bytes. */
  function Prefix(big: bool, item: Item): (r: seq<Byte>)
    ensures |r| > 0
  {
    match item
    case IntItem(n) =>
      if 0 <= n < 0x40 then [PREFIX_SMALL_INT + n]
      else if -0x80 <= n < 0x80 then [CODE_INT8, n % 0x100]
      else if -0x8000 <= n < 0x8000 then [CODE_INT16] + Bytes16(n)
      else if n < -0x8000_0000 || n >= 0x8000_0000 then [CODE_INT64] + Bytes64(n)
      else [CODE_INT32] + Bytes32(n)
    case AtomItem(tag) =>
      if tag < 16 then [PREFIX_SMALL_BLOCK + tag] else [CODE_BLOCK32] + Bytes32(HeaderWord(0, tag))
    case SharedItem(d) =>
      if d < 0x100 then [CODE_SHARED8, d]
      else if d < 0x10000 then [CODE_SHARED16] + Bytes16(d)
      else [CODE_SHARED32] + Bytes32(d)
    case StrItem(chars) =>
      if |chars| < 0x20 then [PREFIX_SMALL_STRING + |chars|]
      else if |chars| < 0x100 then [CODE_STRING8, |chars|]
      else [CODE_STRING32] + Bytes32(|chars|)
    case DblItem(image) =>
      [if big then CODE_DOUBLE_BIG else CODE_DOUBLE_LITTLE]
    case BlockItem(tag, fields) =>
      if tag < 16 && fields.Length() < 8 then [PREFIX_SMALL_BLOCK + tag + fields.Length() * 16]
      else [CODE_BLOCK32] + Bytes32(HeaderWord(fields.Length(), tag))
  }

  /** The header of a white block. */
  function HeaderWord(size: nat, tag: nat): nat {
    size * 0x400 + tag
  }

  function Reverse(s: seq<Byte>): (r: seq<Byte>)
    ensures |r| == |s|
  {
    if s == [] then [] else Reverse(s[1..]) + [s[0]]
  }

  /** The bytes of a floating-point number, in the order in which a machine stores them. */
  function DoubleBytes(big: bool, image: seq<Byte>): (r: seq<Byte>)
    ensures |r| == |image|
  {
    if big then image else Reverse(image)
  }

  function Encode(big: bool, item: Item): (r: seq<Byte>)
    ensures Prefix(big, item) <= r
  {
    Prefix(big, item) +
    match item
    case StrItem(chars) => chars
    case DblItem(image) => DoubleBytes(big, image)
    case BlockItem(_, fields) => EncodeAll(big, fields)
    case _ => []
  }

  function EncodeAll(big: bool, items: Items): seq<Byte> {
    if items.Nil? then [] else Encode(big, items.head) + EncodeAll(big, items.tail)
  }

  // Reading.

  /** What the reader learns from a code and its argument. */
  datatype Token =
    | Immediate(n: int)
    | Earlier(back: int)
    | Chars(len: int)
    | Double(big: bool)
    | Header(tag: int, size: int)
    | Failed

  function TokenOf(big: bool, item: Item): Token {
    match item
    case IntItem(n) => Immediate(n)
    case AtomItem(tag) => Header(tag, 0)
    case SharedItem(d) => Earlier(d)
    case StrItem(chars) => Chars(|chars|)
    case DblItem(_) => Double(big)
    case BlockItem(tag, fields) => Header(tag, fields.Length())
  }

  /** The length of a code and its argument. */
  function TokenLength(code: Byte): (r: nat)
    ensures r > 0
  {
    if code >= PREFIX_SMALL_STRING then 1
    else if code in {CODE_INT8, CODE_SHARED8, CODE_STRING8} then 2
    else if code in {CODE_INT16, CODE_SHARED16} then 3
    else if code in {CODE_INT32, CODE_SHARED32, CODE_BLOCK32, CODE_STRING32} then 5
    else if code == CODE_INT64 then 9
    else 1
  }

  /** How a reader whose words have `ws` bytes understands a code and its argument. */
  function Decode(ws: nat, s: seq<Byte>): Token
    requires |s| > 0 && |s| >= TokenLength(s[0])
  {
    var code, arg := s[0], s[1..];
    if code >= PREFIX_SMALL_BLOCK then Header(code % 0x10, code / 0x10 % 8)
    else if code >= PREFIX_SMALL_INT then Immediate(code % 0x40)
    else if code >= PREFIX_SMALL_STRING then Chars(code % 0x20)
    else if code == CODE_INT8 then Immediate(SignExtend(arg[0]))
    else if code == CODE_INT16 then Immediate(Signed16(arg))
    else if code == CODE_INT32 then Immediate(Signed32(arg))
    else if code == CODE_INT64 then (if ws == 8 then Immediate(Signed64(arg)) else Failed)
    else if code == CODE_SHARED8 then Earlier(arg[0])
    else if code == CODE_SHARED16 then Earlier(Unsigned16(arg))
    else if code == CODE_SHARED32 then Earlier(Read32u(ws, arg))
    else if code == CODE_BLOCK32 then Header(Read32u(ws, arg) % 0x100, Read32u(ws, arg) / 0x400)
    else if code == CODE_STRING8 then Chars(arg[0])
    else if code == CODE_STRING32 then Chars(Read32u(ws, arg))
    else if code == CODE_DOUBLE_BIG then Double(true)
    else if code == CODE_DOUBLE_LITTLE then Double(false)
    else Failed
  }

  /** An unsigned argument is read back as it was written if and only if it is below this limit. */
  function Limit(ws: nat): int {
    if ws == 8 then 0x8000_0000 else 0x1_0000_0000
  }

  /** An integer has two bits less than a word: one for the sign and one to tell it from a pointer. */
  predicate LongOk(ws: nat, n: int) {
    if ws == 8 then -0x4000_0000_0000_0000 <= n < 0x4000_0000_0000_0000 else -0x4000_0000 <= n < 0x4000_0000
  }

  /** What the item says can be understood by a reader whose words have `ws` bytes. */
  predicate Readable(ws: nat, item: Item) {
    match item
    case IntItem(n) => LongOk(ws, n)
    case AtomItem(tag) => tag < 0x100
    case SharedItem(d) => 0 < d < Limit(ws)
    case StrItem(chars) => |chars| < Limit(ws)
    case DblItem(image) => |image| == 8
    case BlockItem(tag, fields) => tag < 0x100 && fields.Cons? && fields.Length() < Limit(ws) / 0x400
  }

  lemma ArgumentKept(ws: nat, v: nat)
    requires v < 0x1_0000_0000
    ensures Read32u(ws, Bytes32(v)) == v <==> v < Limit(ws)
  {
    hide Bytes32, Unsigned32;
    Unsigned32Bytes(v);
  }

  /** The size of a block survives if and only if its header fits. The writer checks only
      that the whole structure has less than 2^32 words: of a block that does not fit, it
      writes a header that is read as something else. */
  lemma HeaderKept(ws: nat, size: nat, tag: nat)
    requires tag < 0x100 && (ws == 4 || ws == 8) && size < 0x1_0000_0000
    ensures Decode(ws, [CODE_BLOCK32] + Bytes32(HeaderWord(size, tag))) == Header(tag, size) <==> size < Limit(ws) / 0x400
  {
    hide Bytes32, Unsigned32;
    var hd := HeaderWord(size, tag);
    var s := [CODE_BLOCK32] + Bytes32(hd);
    assert s[1..] == Bytes32(hd);
    LowBytes(hd / 0x1_0000_0000, hd % 0x1_0000_0000);
    Unsigned32Bytes(hd % 0x1_0000_0000);
    assert Decode(ws, s) == Header(Read32u(ws, Bytes32(hd)) % 0x100, Read32u(ws, Bytes32(hd)) / 0x400);
    if size < Limit(ws) / 0x400 {
      assert hd % 0x1_0000_0000 == hd;
    }
  }

  lemma ArgumentPrefix(ws: nat, a: seq<Byte>, rest: seq<Byte>)
    ensures |a| == 2 ==> Unsigned16(a + rest) == Unsigned16(a) && Signed16(a + rest) == Signed16(a)
    ensures |a| == 4 ==> Read32u(ws, a + rest) == Read32u(ws, a) && Signed32(a + rest) == Signed32(a)
    ensures |a| == 8 ==> Signed64(a + rest) == Signed64(a)
  {
    if |a| == 8 {
      assert (a + rest)[4..] == a[4..] + rest;
    }
  }

  lemma Bytes16Kept(v: int)
    ensures 0 <= v < 0x10000 ==> Unsigned16(Bytes16(v)) == v
    ensures -0x8000 <= v < 0x8000 ==> Signed16(Bytes16(v)) == v
  {
  }

  /** A code with its argument, and what follows. */
  lemma CodeAndArgument(code: Byte, arg: seq<Byte>, rest: seq<Byte>)
    ensures var s := [code] + arg + rest; s[0] == code && s[1..] == arg + rest
  {
  }

  lemma IntKept(ws: nat, big: bool, n: int, rest: seq<Byte>)
    requires LongOk(ws, n) && (ws == 4 || ws == 8)
    ensures var s := Prefix(big, IntItem(n)) + rest;
      TokenLength(s[0]) == |Prefix(big, IntItem(n))| && Decode(ws, s) == Immediate(n)
  {
    hide Bytes16, Bytes32, Bytes64, Signed16, Signed32, Signed64, Read32u;
    if 0 <= n < 0x40 {
    } else if -0x80 <= n < 0x80 {
      CodeAndArgument(CODE_INT8, [n % 0x100], rest);
      assert [CODE_INT8, n % 0x100] == [CODE_INT8] + [n % 0x100];
    } else if -0x8000 <= n < 0x8000 {
      CodeAndArgument(CODE_INT16, Bytes16(n), rest);
      ArgumentPrefix(ws, Bytes16(n), rest);
      Bytes16Kept(n);
    } else if n < -0x8000_0000 || n >= 0x8000_0000 {
      CodeAndArgument(CODE_INT64, Bytes64(n), rest);
      ArgumentPrefix(ws, Bytes64(n), rest);
      Signed64Bytes(n);
    } else {
      CodeAndArgument(CODE_INT32, Bytes32(n), rest);
      ArgumentPrefix(ws, Bytes32(n), rest);
      Signed32Bytes(n);
    }
  }

  lemma SharedKept(ws: nat, big: bool, d: nat, rest: seq<Byte>)
    requires d < Limit(ws)
    ensures var s := Prefix(big, SharedItem(d)) + rest;
      TokenLength(s[0]) == |Prefix(big, SharedItem(d))| && Decode(ws, s) == Earlier(d)
  {
    hide Bytes16, Bytes32, Unsigned16, Signed16, Signed32, Read32u;
    if d < 0x100 {
      CodeAndArgument(CODE_SHARED8, [d], rest);
      assert [CODE_SHARED8, d] == [CODE_SHARED8] + [d];
    } else if d < 0x10000 {
      CodeAndArgument(CODE_SHARED16, Bytes16(d), rest);
      ArgumentPrefix(ws, Bytes16(d), rest);
      Bytes16Kept(d);
    } else {
      CodeAndArgument(CODE_SHARED32, Bytes32(d), rest);
      ArgumentPrefix(ws, Bytes32(d), rest);
      ArgumentKept(ws, d);
    }
  }

  lemma CharsKept(ws: nat, big: bool, chars: seq<Byte>, rest: seq<Byte>)
    requires |chars| < Limit(ws)
    ensures var s := Prefix(big, StrItem(chars)) + rest;
      TokenLength(s[0]) == |Prefix(big, StrItem(chars))| && Decode(ws, s) == Chars(|chars|)
  {
    hide Bytes32, Read32u;
    if |chars| < 0x20 {
    } else if |chars| < 0x100 {
      CodeAndArgument(CODE_STRING8, [|chars|], rest);
      assert [CODE_STRING8, |chars|] == [CODE_STRING8] + [|chars|];
    } else {
      CodeAndArgument(CODE_STRING32, Bytes32(|chars|), rest);
      ArgumentPrefix(ws, Bytes32(|chars|), rest);
      ArgumentKept(ws, |chars|);
    }
  }

  lemma SmallHeader(tag: nat, size: nat)
    requires tag < 16 && size < 8
    ensures var c := PREFIX_SMALL_BLOCK + tag + size * 16; c < 0x100 && c % 0x10 == tag && c / 0x10 % 8 == size
  {
    assert PREFIX_SMALL_BLOCK + tag + size * 16 == (8 + size) * 0x10 + tag;
  }

  lemma HeaderInRange(ws: nat, tag: nat, size: nat)
    requires tag < 0x100 && size < Limit(ws) / 0x400
    ensures HeaderWord(size, tag) < Limit(ws)
  {
  }

  lemma HeaderParts(tag: nat, size: nat)
    requires tag < 0x100
    ensures HeaderWord(size, tag) % 0x100 == tag && HeaderWord(size, tag) / 0x400 == size
  {
    assert HeaderWord(size, tag) == (size * 4) * 0x100 + tag;
  }

  lemma BlockKept(ws: nat, big: bool, item: Item, tag: nat, size: nat, rest: seq<Byte>)
    requires tag < 0x100 && size < Limit(ws) / 0x400
    requires (item == AtomItem(tag) && size == 0) || (item.BlockItem? && item.tag == tag && item.fields.Length() == size)
    ensures var s := Prefix(big, item) + rest;
      TokenLength(s[0]) == |Prefix(big, item)| && Decode(ws, s) == Header(tag, size)
  {
    hide Bytes32, Read32u, HeaderWord;
    if tag < 16 && size < 8 {
      SmallHeader(tag, size);
      assert (Prefix(big, item) + rest)[0] == PREFIX_SMALL_BLOCK + tag + size * 16;
    } else {
      var hd := HeaderWord(size, tag);
      HeaderParts(tag, size);
      HeaderInRange(ws, tag, size);
      CodeAndArgument(CODE_BLOCK32, Bytes32(hd), rest);
      ArgumentPrefix(ws, Bytes32(hd), rest);
      ArgumentKept(ws, hd);
    }
  }

  /** What is written is understood. */
  lemma TokenKept(ws: nat, big: bool, item: Item, rest: seq<Byte>)
    requires Readable(ws, item) && (ws == 4 || ws == 8)
    ensures var s := Prefix(big, item) + rest;
      TokenLength(s[0]) == |Prefix(big, item)| && Decode(ws, s) == TokenOf(big, item)
  {
    match item
    case IntItem(n) => IntKept(ws, big, n, rest);
    case AtomItem(tag) => BlockKept(ws, big, item, tag, 0, rest);
    case SharedItem(d) => SharedKept(ws, big, d, rest);
    case StrItem(chars) => CharsKept(ws, big, chars, rest);
    case DblItem(image) =>
      CodeAndArgument(if big then CODE_DOUBLE_BIG else CODE_DOUBLE_LITTLE, [], rest);
    case BlockItem(tag, fields) => BlockKept(ws, big, item, tag, fields.Length(), rest);
  }
}
