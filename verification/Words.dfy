/** Words of the OCaml runtime's memory, and the headers that describe blocks. */
module Words {

  datatype Color = White | Gray | Blue | Black

  /** One machine word. The runtime tells the kinds apart by low-order bits:
      an integer is odd, a pointer is a multiple of four, and an encoded header
      (used only while compacting) ends in the two bits 11. */
  datatype Word =
    | Int(n: int)
    | Ptr(addr: int)
    | Hdr(size: nat, tag: nat, color: Color)
    | Ehd(size: nat, tag: nat)
  {
    predicate IsHeader() { Hdr? || Ehd? }

    /** The size of the block in words, its header included. */
    function WhSize(): (r: nat)
      requires IsHeader()
    {
      size + 1
    }
  }

  /** Blocks whose tag is at least this contain no values. */
  const NO_SCAN_TAG := 251
  const STRING_TAG := 252

  type Memory = seq<Word>

  /** A heap chunk: `size` words starting at word address `start`. */
  datatype Chunk = Chunk(start: nat, size: nat) {
    function End(): nat { start + size }
  }

  predicate InChunk(c: Chunk, a: int) {
    c.start <= a < c.End()
  }

  predicate InHeap(chunks: seq<Chunk>, a: int) {
    exists k :: 0 <= k < |chunks| && InChunk(chunks[k], a)
  }
}
