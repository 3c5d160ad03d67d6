/** The external format, byte by byte: each code by its number in intext.h, and each argument
    as the number that its bytes stand for, the most significant first. */
module Formats {
  import opened Bytes
  import opened Items
  import opened Dumping
  import opened Externs

  function BigEndian(s: seq<Byte>): nat {
    if s == [] then 0 else 0x100 * BigEndian(s[..|s| - 1]) + s[|s| - 1]
  }

  /** A code, and an argument of `len` bytes that stand for `v`. */
  ghost predicate CodeWith(p: seq<Byte>, code: int, len: nat, v: int) {
    |p| == 1 + len && p[0] == code && BigEndian(p[1..]) == v
  }

  /** The code 8 and a header word: the tag, the colour, which is white, and the size. */
  ghost predicate HeaderBytes(p: seq<Byte>, tag: nat, size: nat) {
    && |p| == 5 && p[0] == 8
    && var w := BigEndian(p[1..]); w % 0x100 == tag && w / 0x100 % 4 == 0 && w / 0x400 == size % 0x40_0000
  }

  ghost predicate PrefixFormat(big: bool, item: Item, p: seq<Byte>) {
    match item
    case IntItem(n) =>
      if 0 <= n < 64 then p == [0x40 + n]
      else if -128 <= n < 128 then CodeWith(p, 0, 1, n % 0x100)
      else if -32768 <= n < 32768 then CodeWith(p, 1, 2, n % 0x1_0000)
      else if -2147483648 <= n < 2147483648 then CodeWith(p, 2, 4, n % 0x1_0000_0000)
      else CodeWith(p, 3, 8, n % 0x1_0000_0000_0000_0000)
    case AtomItem(tag) =>
      if tag < 16 then p == [0x80 + tag] else HeaderBytes(p, tag, 0)
    case SharedItem(d) =>
      if d < 256 then CodeWith(p, 4, 1, d)
      else if d < 65536 then CodeWith(p, 5, 2, d)
      else CodeWith(p, 6, 4, d % 0x1_0000_0000)
    case StrItem(chars) =>
      if |chars| < 32 then p == [0x20 + |chars|]
      else if |chars| < 256 then CodeWith(p, 9, 1, |chars|)
      else CodeWith(p, 0xA, 4, |chars| % 0x1_0000_0000)
    case DblItem(_) => p == [if big then 0xB else 0xC]
    case BlockItem(tag, fields) =>
      if tag < 16 && fields.Length() < 8 then p == [0x80 + tag + 16 * fields.Length()]
      else HeaderBytes(p, tag, fields.Length())
  }

  lemma BigEndianStep(t: seq<Byte>, b: Byte)
    ensures BigEndian(t + [b]) == 0x100 * BigEndian(t) + b
  {
    assert (t + [b])[..|t|] == t;
  }

  lemma BigEndian1(b: Byte)
    ensures BigEndian([b]) == b
  {
    assert [b] == [] + [b];
  }

  lemma BigEndian16(v: int)
    ensures BigEndian(Bytes16(v)) == v % 0x1_0000
  {
    hide BigEndian;
    var b := Bytes16(v);
    assert b == [b[0]] + [b[1]];
    BigEndian1(b[0]);
    BigEndianStep([b[0]], b[1]);
    assert v / 0x100 % 0x100 * 0x100 + v % 0x100 == v % 0x1_0000;
  }

  /** Four more bytes. */
  lemma BigEndian32(t: seq<Byte>, v: int)
    ensures BigEndian(t + Bytes32(v)) == 0x1_0000_0000 * BigEndian(t) + v % 0x1_0000_0000
  {
    hide BigEndian;
    var b := Bytes32(v);
    var t1 := t + [b[0]];
    var t2 := t1 + [b[1]];
    var t3 := t2 + [b[2]];
    assert t + b == t3 + [b[3]];
    BigEndianStep(t, b[0]);
    BigEndianStep(t1, b[1]);
    BigEndianStep(t2, b[2]);
    BigEndianStep(t3, b[3]);
    FourParts(v);
  }

  lemma FourParts(v: int)
    ensures 0x100 * (0x100 * (0x100 * (v / 0x1000000 % 0x100) + v / 0x10000 % 0x100) + v / 0x100 % 0x100) + v % 0x100 == v % 0x1_0000_0000
  {
    FourBytes(v);
    var top := v / 0x1000000;
    var q, d := top / 0x100, top % 0x100;
    assert top == q * 0x100 + d;
    Remainder(v, q, d * 0x1000000 + v / 0x10000 % 0x100 * 0x10000 + v / 0x100 % 0x100 * 0x100 + v % 0x100);
  }

  lemma Remainder(v: int, q: int, r: int)
    requires v == q * 0x1_0000_0000 + r && 0 <= r < 0x1_0000_0000
    ensures v % 0x1_0000_0000 == r
  {
  }

  lemma Word32(v: int)
    ensures BigEndian(Bytes32(v)) == v % 0x1_0000_0000
  {
    hide BigEndian, Bytes32;
    BigEndian32([], v);
    assert [] + Bytes32(v) == Bytes32(v);
    assert BigEndian([]) == 0 by { NoBytes(); }
  }

  lemma NoBytes()
    ensures BigEndian([]) == 0
  {
  }

  lemma Word64(v: int)
    ensures BigEndian(Bytes64(v)) == v % 0x1_0000_0000_0000_0000
  {
    hide BigEndian, Bytes32;
    Word32(v / 0x1_0000_0000);
    BigEndian32(Bytes32(v / 0x1_0000_0000), v);
    TwoHalves(v);
  }

  lemma TwoHalves(v: int)
    ensures 0x1_0000_0000 * (v / 0x1_0000_0000 % 0x1_0000_0000) + v % 0x1_0000_0000 == v % 0x1_0000_0000_0000_0000
  {
  }

  lemma CodedByte(code: Byte, b: Byte)
    ensures CodeWith([code, b], code, 1, b)
  {
    assert [code, b][1..] == [b];
    BigEndian1(b);
  }

  lemma Coded(code: Byte, arg: seq<Byte>)
    ensures CodeWith([code] + arg, code, |arg|, BigEndian(arg))
  {
    assert ([code] + arg)[1..] == arg;
  }

  lemma HeaderNumber(tag: nat, size: nat)
    requires tag < 0x100
    ensures HeaderWord(size, tag) % 0x1_0000_0000 == size % 0x40_0000 * 0x400 + tag
  {
    var high, low := size / 0x40_0000, size % 0x40_0000;
    assert size == high * 0x40_0000 + low;
    Remainder(HeaderWord(size, tag), high, low * 0x400 + tag);
  }

  lemma HeaderFields(tag: nat, low: nat)
    requires tag < 0x100
    ensures var x := low * 0x400 + tag; x % 0x100 == tag && x / 0x100 % 4 == 0 && x / 0x400 == low
  {
    var x := low * 0x400 + tag;
    var k := low * 4;
    assert x == k * 0x100 + tag;
    assert x / 0x100 == k && x % 0x100 == tag;
  }

  lemma HeaderFormat(tag: nat, size: nat)
    requires tag < 0x100
    ensures HeaderBytes([CODE_BLOCK32] + Bytes32(HeaderWord(size, tag)), tag, size)
  {
    hide Bytes32, BigEndian, HeaderWord;
    Coded(CODE_BLOCK32, Bytes32(HeaderWord(size, tag)));
    Word32(HeaderWord(size, tag));
    HeaderNumber(tag, size);
    HeaderFields(tag, size % 0x40_0000);
  }

  /** What the writer writes before the body of an item. */
  lemma PrefixIs(big: bool, item: Item)
    requires (item.AtomItem? || item.BlockItem?) ==> item.tag < 0x100
    ensures PrefixFormat(big, item, Prefix(big, item))
  {
    hide Bytes16, Bytes32, Bytes64, BigEndian, HeaderWord, CodeWith, HeaderBytes;
    match item
    case IntItem(n) =>
      CodedByte(CODE_INT8, n % 0x100);
      Coded(CODE_INT16, Bytes16(n));
      BigEndian16(n);
      Coded(CODE_INT32, Bytes32(n));
      Word32(n);
      Coded(CODE_INT64, Bytes64(n));
      Word64(n);
    case AtomItem(tag) =>
      HeaderFormat(tag, 0);
    case SharedItem(d) =>
      if d < 0x100 {
        CodedByte(CODE_SHARED8, d);
      } else {
        Coded(CODE_SHARED16, Bytes16(d));
        BigEndian16(d);
        Coded(CODE_SHARED32, Bytes32(d));
        Word32(d);
      }
    case StrItem(chars) =>
      if |chars| < 0x100 {
        CodedByte(CODE_STRING8, |chars|);
      }
      Coded(CODE_STRING32, Bytes32(|chars|));
      Word32(|chars|);
    case DblItem(_) =>
    case BlockItem(tag, fields) =>
      HeaderFormat(tag, fields.Length());
  }

  lemma {:induction false} ReverseAt(s: seq<Byte>, i: nat)
    requires i < |s|
    ensures Reverse(s)[i] == s[|s| - 1 - i]
  {
    if i < |s| - 1 {
      ReverseAt(s[1..], i);
    }
  }

  /** The body of a string is its characters; that of a floating-point number its bytes, the
      least significant first unless the machine is big-endian. */
  lemma LeafIs(big: bool, item: Item)
    ensures item.StrItem? ==> Encode(big, item) == Prefix(big, item) + item.chars
    ensures item.DblItem? ==> var s := Encode(big, item);
      |s| == 1 + |item.image| && forall i :: 0 <= i < |item.image| ==> s[1 + i] == if big then item.image[i] else item.image[|item.image| - 1 - i]
  {
    if item.DblItem? {
      forall i | 0 <= i < |item.image| ensures Reverse(item.image)[i] == item.image[|item.image| - 1 - i] {
        ReverseAt(item.image, i);
      }
    }
  }

  /** A message: the magic number; how many bytes, objects, words of 32 bits and words of 64
      bits the item takes; and the item. */
  lemma MessageIs(big: bool, item: Item)
    ensures var m := Message(big, item);
      && m[..4] == [0x84, 0x95, 0xA6, 0xBE]
      && BigEndian(m[4..8]) == |Encode(big, item)| % 0x1_0000_0000
      && BigEndian(m[8..12]) == ObjectCount(item) % 0x1_0000_0000
      && BigEndian(m[12..16]) == WordCount(4, item) % 0x1_0000_0000
      && BigEndian(m[16..20]) == WordCount(8, item) % 0x1_0000_0000
      && m[20..] == Encode(big, item)
  {
    hide BigEndian, Encode, ObjectCount, WordCount;
    assert Bytes32(INTEXT_MAGIC_NUMBER) == [0x84, 0x95, 0xA6, 0xBE];
    MessageWords(big, item);
    Word32(|Encode(big, item)|);
    Word32(ObjectCount(item));
    Word32(WordCount(4, item));
    Word32(WordCount(8, item));
  }

  lemma MessageWords(big: bool, item: Item)
    ensures var m := Message(big, item);
      && m[..4] == Bytes32(INTEXT_MAGIC_NUMBER) && m[4..8] == Bytes32(|Encode(big, item)|) && m[8..12] == Bytes32(ObjectCount(item))
      && m[12..16] == Bytes32(WordCount(4, item)) && m[16..20] == Bytes32(WordCount(8, item))
  {
    hide Bytes32, Encode, ObjectCount, WordCount;
  }
}
