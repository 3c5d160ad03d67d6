/** The MD5 message digest of RFC 1321, computed from chunks of any sizes. What is done with
    a block of 64 bytes is a parameter. */
module Md5 {
  import opened Bytes

  const BLOCK := 64

  // The definition.

  /** The digest state after all whole blocks of `s`. */
  function Blocks<D>(transform: (D, seq<Byte>) -> D, d: D, s: seq<Byte>): D
    decreases |s|
  {
    if |s| < BLOCK then d else Blocks(transform, transform(d, s[..BLOCK]), s[BLOCK..])
  }

  /** Four bytes, the least significant first. */
  function Bytes32(w: nat): (r: seq<Byte>)
    ensures |r| == 4
  {
    [w % 0x100, w / 0x100 % 0x100, w / 0x10000 % 0x100, w / 0x1000000 % 0x100]
  }

  /** The low-order 64 bits of the length in bits, the low-order word first (section 3.2). */
  function LengthBytes(n: nat): (r: seq<Byte>)
    ensures |r| == 8
  {
    Bytes32(8 * n % 0x1_0000_0000) + Bytes32(8 * n / 0x1_0000_0000 % 0x1_0000_0000)
  }

  /** How many zero bytes make the length 56 modulo 64 after the byte 0x80 (section 3.1). */
  function PadLength(n: nat): (k: nat)
    ensures k < BLOCK && (n + 1 + k) % BLOCK == 56
  {
    if n % BLOCK < 56 then 55 - n % BLOCK else 119 - n % BLOCK
  }

  function Padded(msg: seq<Byte>): seq<Byte> {
    msg + [0x80] + Zeros(PadLength(|msg|)) + LengthBytes(|msg|)
  }

  /** The number that the bytes stand for, the least significant first. */
  function LittleEndian(s: seq<Byte>): nat {
    if s == [] then 0 else s[0] + 0x100 * LittleEndian(s[1..])
  }

  lemma LittleEndianStep(b: Byte, t: seq<Byte>)
    ensures LittleEndian([b] + t) == b + 0x100 * LittleEndian(t)
  {
    assert ([b] + t)[1..] == t;
  }

  lemma LittleEndian32(w: nat, rest: seq<Byte>)
    requires w < 0x1_0000_0000
    ensures LittleEndian(Bytes32(w) + rest) == w + 0x1_0000_0000 * LittleEndian(rest)
  {
    hide LittleEndian;
    var b := Bytes32(w);
    var t3 := [b[3]] + rest;
    var t2 := [b[2]] + t3;
    var t1 := [b[1]] + t2;
    assert b + rest == [b[0]] + t1;
    LittleEndianStep(b[3], rest);
    LittleEndianStep(b[2], t3);
    LittleEndianStep(b[1], t2);
    LittleEndianStep(b[0], t1);
    SplitBytes(w);
  }

  lemma SplitBytes(w: nat)
    requires w < 0x1_0000_0000
    ensures w == w % 0x100 + 0x100 * (w / 0x100 % 0x100 + 0x100 * (w / 0x10000 % 0x100 + 0x100 * (w / 0x1000000 % 0x100)))
  {
  }

  lemma LengthNumber(n: nat)
    ensures LittleEndian(LengthBytes(n)) == 8 * n % 0x1_0000_0000_0000_0000
  {
    hide Bytes32, LittleEndian;
    var bits := 8 * n;
    var low, high := bits % 0x1_0000_0000, bits / 0x1_0000_0000 % 0x1_0000_0000;
    LittleEndian32(low, Bytes32(high));
    LittleEndian32(high, []);
    assert Bytes32(high) + [] == Bytes32(high);
    assert LittleEndian([]) == 0 by { NoBytes(); }
  }

  lemma NoBytes()
    ensures LittleEndian([]) == 0
  {
  }

  /** The padded message, byte by byte: the message, the byte 0x80, zeros, and in the last
      eight bytes its length in bits modulo 2^64, the least significant byte first. Its length
      is the least such multiple of 64. */
  lemma PaddedBytes(msg: seq<Byte>)
    ensures var p, n := Padded(msg), |msg|;
      && |p| % 64 == 0 && n + 9 <= |p| < n + 73
      && p[..n] == msg && p[n] == 0x80 && (forall i :: n < i < |p| - 8 ==> p[i] == 0)
      && LittleEndian(p[|p| - 8..]) == 8 * n % 0x1_0000_0000_0000_0000
  {
    hide LittleEndian, LengthBytes;
    var p, n := Padded(msg), |msg|;
    var zeros, length := Zeros(PadLength(n)), LengthBytes(n);
    assert p == msg + ([0x80] + (zeros + length));
    assert p[|p| - 8..] == length;
    forall i | n < i < |p| - 8 ensures p[i] == 0 {
      assert p[i] == zeros[i - n - 1];
    }
    LengthNumber(n);
  }

  function Digest<D>(transform: (D, seq<Byte>) -> D, start: D, msg: seq<Byte>): D {
    Blocks(transform, start, Padded(msg))
  }

  /** The bytes after the last whole block. */
  function Tail(s: seq<Byte>): (r: seq<Byte>)
    ensures |r| == |s| % BLOCK
  {
    s[|s| - |s| % BLOCK..]
  }

  lemma {:induction false} BlocksOnly<D>(transform: (D, seq<Byte>) -> D, d: D, s: seq<Byte>, t: seq<Byte>)
    requires |s| % BLOCK == 0
    ensures Blocks(transform, d, s + t) == Blocks(transform, Blocks(transform, d, s), t)
    decreases |s|
  {
    if |s| == 0 {
      assert s + t == t;
    } else {
      assert (s + t)[..BLOCK] == s[..BLOCK] && (s + t)[BLOCK..] == s[BLOCK..] + t;
      BlocksOnly(transform, transform(d, s[..BLOCK]), s[BLOCK..], t);
    }
  }

  lemma {:induction false} BlocksWithoutTail<D>(transform: (D, seq<Byte>) -> D, d: D, s: seq<Byte>)
    ensures Blocks(transform, d, s) == Blocks(transform, d, s[..|s| - |s| % BLOCK])
    decreases |s|
  {
    if |s| >= BLOCK {
      var n := |s| - |s| % BLOCK;
      assert s[..n][..BLOCK] == s[..BLOCK] && s[..n][BLOCK..] == s[BLOCK..][..n - BLOCK];
      BlocksWithoutTail(transform, transform(d, s[..BLOCK]), s[BLOCK..]);
    }
  }

  lemma SameRemainder(n: nat, m: nat)
    requires n % BLOCK == 0
    ensures (n + m) % BLOCK == m % BLOCK
  {
    assert n == BLOCK * (n / BLOCK);
  }

  lemma WholePart(s: seq<Byte>)
    ensures var n := |s| - |s| % BLOCK; n >= 0 && n % BLOCK == 0 && s == s[..n] + Tail(s)
  {
    assert |s| - |s| % BLOCK == BLOCK * (|s| / BLOCK);
  }

  lemma TailOfMore(msg: seq<Byte>, data: seq<Byte>)
    ensures Tail(msg + data) == Tail(Tail(msg) + data)
  {
    hide Tail;
    var n := |msg| - |msg| % BLOCK;
    WholePart(msg);
    SameRemainder(n, |Tail(msg) + data|);
    TailOf(msg[..n], Tail(msg) + data);
    assert msg + data == msg[..n] + (Tail(msg) + data);
  }

  lemma TailOf(s: seq<Byte>, t: seq<Byte>)
    requires |s + t| % BLOCK == |t| % BLOCK
    ensures Tail(s + t) == Tail(t)
  {
    var k := |t| % BLOCK;
    assert (s + t)[|s + t| - k..] == t[|t| - k..];
  }

  /** More bytes are taken together with what was left over. */
  lemma MoreBytes<D>(transform: (D, seq<Byte>) -> D, d: D, msg: seq<Byte>, data: seq<Byte>)
    ensures Blocks(transform, d, msg + data) == Blocks(transform, Blocks(transform, d, msg), Tail(msg) + data)
    ensures Tail(msg + data) == Tail(Tail(msg) + data)
  {
    hide Blocks, Tail;
    var n := |msg| - |msg| % BLOCK;
    WholePart(msg);
    TailOfMore(msg, data);
    assert msg + data == msg[..n] + (Tail(msg) + data);
    BlocksOnly(transform, d, msg[..n], Tail(msg) + data);
    BlocksWithoutTail(transform, d, msg);
  }

  lemma OneBlock<D>(transform: (D, seq<Byte>) -> D, d: D, s: seq<Byte>)
    requires |s| >= BLOCK
    ensures Blocks(transform, d, s) == Blocks(transform, transform(d, s[..BLOCK]), s[BLOCK..])
    ensures Tail(s) == Tail(s[BLOCK..])
  {
    hide Tail;
    SameRemainder(BLOCK, |s| - BLOCK);
    assert s == s[..BLOCK] + s[BLOCK..];
    TailOf(s[..BLOCK], s[BLOCK..]);
  }

  /** The two words of the counter, after `n` bytes. */
  ghost predicate Counts(bits0: nat, bits1: nat, n: nat) {
    bits0 == 8 * n % 0x1_0000_0000 && bits1 == 8 * n / 0x1_0000_0000 % 0x1_0000_0000
  }

  lemma AddModulo(a: int, b: int)
    ensures (a % 0x1_0000_0000 + b) % 0x1_0000_0000 == (a + b) % 0x1_0000_0000
  {
    var q, r := a / 0x1_0000_0000, (a + b) / 0x1_0000_0000;
    assert a % 0x1_0000_0000 + b == (r - q) * 0x1_0000_0000 + (a + b) % 0x1_0000_0000;
  }

  /** Counting in two words. */
  lemma CountsMore(bits0: nat, bits1: nat, n: nat, len: nat)
    requires Counts(bits0, bits1, n) && len < 0x1_0000_0000
    ensures var b0 := (bits0 + len * 8 % 0x1_0000_0000) % 0x1_0000_0000;
      var c := if b0 < bits0 then (bits1 + 1) % 0x1_0000_0000 else bits1;
      Counts(b0, (c + len / 0x2000_0000) % 0x1_0000_0000, n + len)
  {
    var hi, lo := 8 * n / 0x1_0000_0000, 8 * n % 0x1_0000_0000;
    var h, l := len / 0x2000_0000, len * 8 % 0x1_0000_0000;
    assert 8 * n == hi * 0x1_0000_0000 + lo;
    HighPart(len);
    var carry := if lo + l >= 0x1_0000_0000 then 1 else 0;
    SplitSum(8 * (n + len), hi + h + carry, lo + l - carry * 0x1_0000_0000);
    AddModulo(hi, 1);
    AddModulo(hi + carry, h);
    AddModulo(hi, h);
  }

  lemma HighPart(len: nat)
    ensures len * 8 == len / 0x2000_0000 * 0x1_0000_0000 + len * 8 % 0x1_0000_0000
  {
    assert len == len / 0x2000_0000 * 0x2000_0000 + len % 0x2000_0000;
    SplitSum(len * 8, len / 0x2000_0000, len % 0x2000_0000 * 8);
  }

  lemma SplitSum(x: int, hi: int, lo: int)
    requires x == hi * 0x1_0000_0000 + lo && 0 <= lo < 0x1_0000_0000
    ensures x / 0x1_0000_0000 == hi && x % 0x1_0000_0000 == lo
  {
  }

  class Context<D> {
    const transform: (D, seq<Byte>) -> D
    const start: D
    var buf: D
    var bits0: nat
    var bits1: nat
    const input: array<Byte>
    ghost var msg: seq<Byte>    // what has been added so far

    constructor (transform: (D, seq<Byte>) -> D, start: D)
      ensures Valid() && fresh(input) && msg == [] && this.transform == transform && this.start == start
    {
      this.transform, this.start := transform, start;
      buf, bits0, bits1 := start, 0, 0;
      input := new Byte[BLOCK](_ => 0);
      msg := [];
    }

    /** The state depends on the bytes added, not on how they were split. */
    ghost predicate Valid()
      reads this, input
    {
      && input.Length == BLOCK
      && Counts(bits0, bits1, |msg|)
      && buf == Blocks(transform, start, msg)
      && input[..|msg| % BLOCK] == Tail(msg)
    }

    method Copy(at: nat, data: seq<Byte>)
      requires at + |data| <= input.Length
      modifies input
      ensures input[..] == old(input[..at]) + data + old(input[at + |data|..])
    {
      var i := 0;
      while i < |data|
        invariant 0 <= i <= |data|
        invariant input[..] == old(input[..at]) + data[..i] + old(input[at + i..])
      {
        input[at + i] := data[i];
        i := i + 1;
      }
    }

    /** Adds 8 * `len` to the counter: the low word wraps around and carries. */
    method Count(len: nat, ghost n: nat)
      requires Counts(bits0, bits1, n) && len < 0x1_0000_0000
      modifies this`bits0, this`bits1
      ensures Counts(bits0, bits1, n + len)
    {
      CountsMore(bits0, bits1, n, len);
      var t := bits0;
      bits0 := (t + len * 8 % 0x1_0000_0000) % 0x1_0000_0000;
      if bits0 < t {
        bits1 := (bits1 + 1) % 0x1_0000_0000;
      }
      bits1 := (bits1 + len / 0x2000_0000) % 0x1_0000_0000;
    }

    /** Adds a chunk of bytes. */
    method Update(data0: seq<Byte>)
      requires Valid() && |data0| < 0x1_0000_0000
      modifies this, input
      ensures Valid() && msg == old(msg) + data0
    {
      hide Blocks, Tail;
      ghost var msg0 := msg;
      InBuffer(bits0, bits1, |msg|);
      MoreBytes(transform, start, msg, data0);
      var t := bits0 / 8 % BLOCK;
      Count(|data0|, |msg|);
      msg := msg + data0;
      var data := data0;
      if t != 0 {
        t := BLOCK - t;
        if |data| < t {
          Copy(BLOCK - t, data);
          LittleLeft(transform, buf, Tail(msg0) + data);
          return;
        }
        Copy(BLOCK - t, data[..t]);
        assert input[..] == Tail(msg0) + data[..t] == (Tail(msg0) + data)[..BLOCK];
        OneBlock(transform, buf, Tail(msg0) + data);
        buf := transform(buf, input[..]);
        assert (Tail(msg0) + data)[BLOCK..] == data[t..];
        data := data[t..];
      } else {
        assert Tail(msg0) + data == data;
      }
      while |data| >= BLOCK
        modifies this`buf, input
        invariant Blocks(transform, buf, data) == Blocks(transform, start, msg) && Tail(data) == Tail(msg)
        decreases |data|
      {
        Copy(0, data[..BLOCK]);
        OneBlock(transform, buf, data);
        assert input[..] == data[..BLOCK];
        buf := transform(buf, input[..]);
        data := data[BLOCK..];
      }
      Copy(0, data);
      LittleLeft(transform, buf, data);
    }

    method Fill(at: nat, n: nat)
      requires at + n <= input.Length
      modifies input
      ensures input[..] == old(input[..at]) + Zeros(n) + old(input[at + n..])
    {
      Copy(at, Zeros(n));
    }

    /** The digest of all that has been added. */
    method Final() returns (d: D)
      requires Valid()
      modifies this`buf, input
      ensures d == Digest(transform, start, msg)
    {
      hide Blocks, Tail;
      InBuffer(bits0, bits1, |msg|);
      var count := bits0 / 8 % BLOCK;
      ghost var tail, counter := Tail(msg), Bytes32(bits0) + Bytes32(bits1);
      PaddedIs(msg);
      MoreBytes(transform, start, msg, [0x80] + Zeros(PadLength(|msg|)) + counter);
      PadShape(msg, tail, counter);
      Copy(count, [0x80]);
      var p := count + 1;
      count := BLOCK - 1 - count;
      if count < 8 {
        Fill(p, count);
        assert input[..] == tail + [0x80] + Zeros(count);
        TwoBlocks(transform, buf, input[..], Zeros(BLOCK - 8) + counter);
        buf := transform(buf, input[..]);
        Fill(0, BLOCK - 8);
        assert input[..BLOCK - 8] == Zeros(BLOCK - 8);
        tail := [];
      } else {
        Fill(p, count - 8);
        assert input[..BLOCK - 8] == tail + [0x80] + Zeros(count - 8);
      }
      d := AppendLength();
    }

    /** Puts the counter into the last eight bytes and transforms. */
    method AppendLength() returns (d: D)
      requires input.Length == BLOCK
      modifies this`buf, input
      ensures d == Blocks(transform, old(buf), old(input[..BLOCK - 8]) + (Bytes32(bits0) + Bytes32(bits1)))
    {
      hide Blocks, Bytes32;
      ghost var last := input[..BLOCK - 8] + (Bytes32(bits0) + Bytes32(bits1));
      Copy(BLOCK - 8, Bytes32(bits0));
      Copy(BLOCK - 4, Bytes32(bits1));
      assert input[..] == last;
      assert last + [] == last;
      TwoBlocks(transform, buf, last, []);
      buf := transform(buf, input[..]);
      LittleLeft(transform, buf, []);
      d := buf;
    }
  }

  function Flatten(chunks: seq<seq<Byte>>): seq<Byte> {
    if chunks == [] then [] else Flatten(chunks[..|chunks| - 1]) + chunks[|chunks| - 1]
  }

  /** However the bytes are split, the digest is that of all of them together. */
  method DigestChunks<D>(transform: (D, seq<Byte>) -> D, start: D, chunks: seq<seq<Byte>>) returns (d: D)
    requires forall k :: 0 <= k < |chunks| ==> |chunks[k]| < 0x1_0000_0000
    ensures d == Digest(transform, start, Flatten(chunks))
  {
    var context := new Context(transform, start);
    var k := 0;
    while k < |chunks|
      invariant 0 <= k <= |chunks| && context.Valid() && context.msg == Flatten(chunks[..k])
      invariant fresh(context) && fresh(context.input) && context.transform == transform && context.start == start
    {
      assert chunks[..k + 1][..k] == chunks[..k];
      context.Update(chunks[k]);
      k := k + 1;
    }
    assert chunks[..k] == chunks;
    d := context.Final();
  }

  lemma TwoBlocks<D>(transform: (D, seq<Byte>) -> D, d: D, s: seq<Byte>, t: seq<Byte>)
    requires |s| == BLOCK
    ensures Blocks(transform, d, s + t) == Blocks(transform, transform(d, s), t)
  {
    hide Blocks;
    OneBlock(transform, d, s + t);
    assert (s + t)[..BLOCK] == s && (s + t)[BLOCK..] == t;
  }

  lemma ZerosTwice(m: nat, n: nat)
    ensures Zeros(m + n) == Zeros(m) + Zeros(n)
  {
  }

  /** The padding ends the block that has been begun, or that block and another. */
  lemma PadShape(msg: seq<Byte>, tail: seq<Byte>, counter: seq<Byte>)
    requires |tail| == |msg| % BLOCK && |counter| == 8
    ensures var all := tail + ([0x80] + Zeros(PadLength(|msg|)) + counter);
      all == if |tail| < 56 then (tail + [0x80] + Zeros(55 - |tail|)) + counter
             else (tail + [0x80] + Zeros(63 - |tail|)) + (Zeros(56) + counter)
  {
    if |tail| >= 56 {
      ZerosTwice(63 - |tail|, 56);
    }
  }

  lemma InBuffer(bits0: nat, bits1: nat, n: nat)
    requires Counts(bits0, bits1, n)
    ensures bits0 / 8 % BLOCK == n % BLOCK
  {
    var hi := 8 * n / 0x1_0000_0000;
    assert 8 * n == hi * 0x1_0000_0000 + bits0;
    assert bits0 == 8 * (n - hi * 0x2000_0000);
    assert n == (hi * 0x80_0000) * BLOCK + bits0 / 8;
  }

  lemma LittleLeft<D>(transform: (D, seq<Byte>) -> D, d: D, s: seq<Byte>)
    requires |s| < BLOCK
    ensures Blocks(transform, d, s) == d && Tail(s) == s
  {
    hide Tail;
    ShortTail(s);
  }

  lemma ShortTail(s: seq<Byte>)
    requires |s| < BLOCK
    ensures Tail(s) == s
  {
    assert |s| % BLOCK == |s|;
  }

  lemma PaddedIs(msg: seq<Byte>)
    ensures Padded(msg) == msg + ([0x80] + Zeros(PadLength(|msg|)) + LengthBytes(|msg|))
  {
    assert msg + [0x80] + Zeros(PadLength(|msg|)) + LengthBytes(|msg|) == msg + ([0x80] + Zeros(PadLength(|msg|)) + LengthBytes(|msg|));
  }
}
