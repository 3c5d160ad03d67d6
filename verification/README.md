# A model of the bytecode runtime's collector, marshaller and window layers

This project models, in Dafny, the parts of the operating system whose correctness rests on
invariants that no single function shows:

- the garbage collector of the bytecode runtime (`kernel/Byterun`): the incremental marker with
  its lossy mark stack, the sweeper and the coalescing free list it feeds, allocation in every
  phase, the copying minor collection, and the compactor that threads pointers through headers;
- the marshaller: a writer and a reader for graphs with sharing and cycles, and the reused hash
  table by which the writer finds out what it has met;
- the window layers (`kernel/Libmemlayer`): which pixels of a window are on the screen and which
  are in its save area, and what raising and lowering windows does to both; and `drawclip`;
- two smaller machines: the instructions by which functions of several arguments are applied, and
  streaming MD5.

## How it is organised

Memory is an array of words, `Word = Int | Ptr | Hdr | Ehd`, addressed by word; a heap is a list
of chunks, each tiled by blocks. What the source changes in place is a class here, with the
source's variables as its fields, and each method is proved against a statement about the state
before and after. What the source promises is then proved about those statements, as lemmas over
memories, which are sequences of words.

| files | what they are about |
|---|---|
| `Words`, `Tiling`, `LinkedWords` | words, chunks tiled by blocks, lists threaded through memory |
| `CompactAlloc`, `Threading`, `Relocation`, `Reverting`, `Moving`, `Rebuilding`, `Compact` | the compactor |
| `BlockLayout`, `Marking`, `MarkStack`, `Progress` | the heap as a set of blocks; the snapshot invariant; the mark stack; how much is left to mark |
| `FreeBlocks`, `Coalescing`, `Carving`, `Sweeping`, `Extension`, `Coalescence` | the free list under allocation, sweeping and heap extension; that free blocks never touch |
| `Reclaiming`, `MajorHeap`, `Pacing`, `Compactions`, `Mutator`, `Statistics` | what becomes of garbage; the major heap as a class; slices that add up to a cycle; compaction as a step; whole runs of a program; the heap statistics |
| `Nurseries`, `Promotion`, `MinorGc` | the minor collection |
| `Bytes`, `Items`, `Dumping`, `Loading`, `RoundTrips`, `SharingTable`, `Externs`, `Formats`, `Interns` | the marshaller |
| `Geometry`, `Layers`, `Drawing` | rectangles, window layers, clipping |
| `Currying`, `Md5` | function application; MD5 |

## Main results

1. **Compaction** (`Compact.Compactor.CompactHeap`, `Moving.PathsPreserved`). From any tiled idle
   heap, the four passes leave the same graph under a renaming of addresses, and the rebuilt free
   list is exactly what the live blocks, packed from the start of each chunk, leave over. Each
   chain of inverted pointers is finite because it is exactly the list of slots visited so far.
2. **Whole runs** (`Mutators.Run`). For every sequence of loads, stores, allocations, slices of
   marking and sweeping, full collections and compactions, the program sees what it would see in a
   heap from which nothing is ever taken away, up to the addresses of blocks. The proof rests on
   the snapshot invariant (`Marking.SnapshotMarked`), on an account of what the mark stack may
   forget (`MarkStack`), on the sweep leaving known blocks alone, and on compaction starting from
   and ending in a valid state of the collector (`Compactions.CompactMajorHeap`).
3. **No garbage is left** (`MajorHeaps.MajorHeap.FinishMajorCycle`). After a whole cycle the blocks
   that are neither free nor fragments are exactly those that can be reached; and slices of positive
   work always come to the end of a cycle (`Pacing.FinishBySlices`).
4. **The free list.** In every state it is the list, in address order, of exactly the blue blocks;
   allocation fails exactly when no free block is big enough; `fl_merge` is the last free block
   below the sweep; no two free blocks or fragments touch, except where the sweep is at work.
5. **Minor collection** (`MinorGc.MinorHeap.MinorCollection`, `Promotion`). Exactly the reachable
   young blocks are copied, each once; paths, contents and sharing are preserved; no young pointer
   is left.
6. **Marshalling** (`Externs.Extern.ExternValue`, `Interns.Intern.InputVal`). The reader rebuilds,
   on a machine of either word size and byte order, exactly the objects that can be reached, with
   their sharing, and fills exactly the words that the writer counted.
7. **Layers** (`Layers.Screen.Memltofront`, `Memltorear`, `Memltofrontn`, `Memltorearn`). The
   subdivision into rectangles is an exact partition, and no window loses anything of what it
   contains when windows are raised or lowered.
8. **`drawclip`**, **currying**, **MD5**: exactness of the clipped rectangles; independence of how
   arguments, or bytes, are split.

## Where the code needs a condition

- `compact_allocate` reads the header of the chunk after the last one without a test. The
  compaction of a heap does so if and only if no chunk has more than four words left when it
  places the last live block (`Relocation.CompactionReadsPastIff`);
  `Compact.CompactionReadsPast` is such a heap. The model's loop stops at the last chunk.
- `fl_add_block` does not look at `fl_merge` when it adds a block at the end of the list. Afterwards
  `fl_merge` is the last free block below the sweep if and only if the block was not added at the
  end, or lies above the sweep (`MajorHeaps.MajorHeap.FlAddBlock`;
  `Extension.MergePointerLeftBehind` is a heap in which it is not).
- Where words have 64 bits, the writer truncates the header of a block to 32 bits, and the reader
  extends 32-bit arguments with their sign. A block's size survives if and only if it is less than
  2^21 (2^22 where words have 32 bits) (`Items.HeaderKept`), and any other argument if and only if
  it is less than 2^31 (2^32) (`Items.ArgumentKept`). The check in `extern_value` does not imply
  this.

## Model

| member | source | states |
|---|---|---|
| `Tiling.HeadsAreBlocks` | kernel/Byterun/compact.c:148-161 | Walking a tiled chunk from header to header, each size leading to the next, visits disjoint blocks in increasing order that fill the chunk. |
| `CompactAlloc.SkipFullReachesEnd` | kernel/Byterun/compact.c:122-127 | The loop that skips full chunks reaches the last chunk, and finds it full, if and only if no chunk from where it starts has more than four free words. |
| `CompactAlloc.FirstFit` | kernel/Byterun/compact.c:128-131 | The chunk found has room, and no chunk searched before it has. |
| `CompactAlloc.BehindStep` | kernel/Byterun/compact.c:117-135 | A block that fits where it is always gets a place, at or below where it is, whatever was placed before; and nothing is ever placed beyond the walk. |
| `CompactAlloc.TakenStep` | kernel/Byterun/compact.c:132-133 | Words given out stay given out and are not given out again. |
| `Threading.InvertThreads` | kernel/Byterun/compact.c:54-60 | Inverting one more slot keeps the threading invariant: each header heads a finite chain, without repetition, of exactly the slots inverted so far that pointed to it, ending in the encoded header; all other words are untouched. |
| `Relocation.PlaceOf` | kernel/Byterun/compact.c:259 | Every block has a place in the plan, at or below its address. |
| `Relocation.PlacesDisjoint` | kernel/Byterun/compact.c:300-324 | Two live blocks never get overlapping places. |
| `Relocation.MovedDown` | kernel/Byterun/compact.c:313 | The new address of a live block is at or below the old one, and the whole block lies in one chunk. |
| `Relocation.MovedApart` | kernel/Byterun/compact.c:312-315 | The places of different live blocks are disjoint. |
| `Relocation.ReadsPastAtIff` | kernel/Byterun/compact.c:122-125 | In the compaction of a given heap, placing a given live block reads the header of a chunk that does not exist if and only if no chunk of the heap then has more than four words left. |
| `Relocation.CompactionReadsPastIff` | kernel/Byterun/compact.c:117-135 | The compaction of a heap does so at some block if and only if no chunk has more than four words left when it places the last live block. |
| `Compact.CompactionReadsPast` | kernel/Byterun/compact.c:122-125 | A heap that may be compacted, of one chunk with two live blocks, for which it happens. |
| `Reverting.RevertStep` | kernel/Byterun/compact.c:259-264 | Reverting the chain of one header gives every slot that pointed to it the new address, restores the header, and leaves the chains still to be reverted intact. |
| `Reverting.RevertedAll` | kernel/Byterun/compact.c:227-297 | After the third pass every slot holds the renamed pointer, headers are decoded, white exactly where something pointed to the block, and all other words are as before compaction. |
| `Reverting.ChainIffPointedTo` | kernel/Byterun/compact.c:236-293 | The third pass finds a header unencoded exactly when some slot pointed to the block. |
| `Moving.MoveStep` | kernel/Byterun/compact.c:311-316 | Moving one block overwrites neither a block already moved nor anything at or above the next block. |
| `Moving.AllMoved` | kernel/Byterun/compact.c:300-324 | After the fourth pass each block pointed to has its old size, tag and contents, with pointers renamed, at a place of its own; roots are renamed; nothing else outside the heap has changed. |
| `Moving.PathsPreserved` | kernel/Byterun/compact.c:137-324 | From any root along any path of fields one finds the same integers and foreign pointers, and blocks with the same size and tag, before and after compaction. |
| `Rebuilding.AllPacked` | kernel/Byterun/compact.c:300-324 | The moved blocks leave no gaps: in each chunk they follow one another from its start to the end of the used part. |
| `Rebuilding.ChunkLayout` | kernel/Byterun/compact.c:365-368 | The moved blocks of a chunk together with one block made of the remainder tile it. |
| `Rebuilding.NothingToMerge` | kernel/Byterun/compact.c:369 | None of the merging tests of `fl_merge_block` succeeds for a remainder. |
| `Rebuilding.AllRebuilt` | kernel/Byterun/compact.c:360-373 | The loop leaves the heap compacted and well formed for the collector: tiled, the free list exactly the remainders of two words or more, every field and root an integer, a pointer out of the heap, or a pointer to a moved block. |
| `Compact.Compactor.EncodeHeaders` | kernel/Byterun/compact.c:142-164 | The first pass encodes every header, giving free blocks a string's tag, and touches nothing else. |
| `Compact.Compactor.FindHeader` | kernel/Byterun/compact.c:182 | Following a chain of inverted pointers terminates and ends at the encoded header. |
| `Compact.Compactor.InvertAll` | kernel/Byterun/compact.c:167-224 | After the second pass every field of every scanned block and every root that pointed into the heap is on the chain of the header it pointed to, and nothing else is. |
| `Compact.Compactor.Allocate` | kernel/Byterun/compact.c:117-135 | Computes the plan's next address and allocation state. |
| `Compact.Compactor.RevertChain` | kernel/Byterun/compact.c:260-265 | Writes the new address into every slot of a chain, and the header. |
| `Compact.Compactor.RevertAll` | kernel/Byterun/compact.c:227-297 | The third pass undoes all chains and leaves the allocator where the plan says. |
| `Compact.Compactor.MoveAll` | kernel/Byterun/compact.c:300-324 | The fourth pass, with the same allocator, puts each block where the third pass said it would be. |
| `Compact.Compactor.RebuildFreeList` | kernel/Byterun/compact.c:360-373 | Makes the rest of each chunk a block, and puts it on the list if it has two words or more: the result is as `Rebuilding.AllRebuilt` says, with `fl_merge` at the end of the list and `fl_prev` at its start. |
| `Compact.Compactor.CompactHeap` | kernel/Byterun/compact.c:137-376 | Compaction of any well-formed heap: the same graph under a renaming, and a heap and free list ready for the collector. |
| `BlockLayout.SplitLayout` | kernel/Byterun/freelist.c:99-102 | Cutting a block in two keeps the heap tiled. |
| `BlockLayout.MergeLayout` | kernel/Byterun/freelist.c:184-230 | Making two adjacent blocks one keeps the heap tiled. |
| `Marking.ReachKnown` | kernel/Byterun/roots.c:91-112 | Whatever can be reached from the roots is an allocated block. |
| `Marking.SnapshotMarked` | kernel/Byterun/major_gc.c:158-172 | When no gray block is left, every block that could be reached when the cycle started is black. |
| `Marking.KnownIsBlack` | kernel/Byterun/major_gc.c:158-172 | Then so is every block the program can hold, those allocated during the cycle included. |
| `Marking.StoreDone` | kernel/Byterun/memory.h:63-68 | A store that darkens what the field held loses nothing of the snapshot. |
| `Marking.LoadReachable` | kernel/Byterun/memory.h:63-77 | What a load yields could be reached before. |
| `Marking.ScanDone` | kernel/Byterun/major_gc.c:113-135 | A block all of whose fields have been looked at may be black. |
| `MarkStack.CutStack` | kernel/Byterun/major_gc.c:62-74 | Gray blocks may be dropped from the stack once the heap counts as impure. |
| `MarkStack.ScanBlock` | kernel/Byterun/major_gc.c:146-152 | When the scan passes a block, and pushes it if it is gray, every gray block below the scan is on the stack, once, or the heap is impure. |
| `MarkStack.NothingGray` | kernel/Byterun/major_gc.c:153-172 | With an empty stack, nothing to scan and a pure heap, no block is gray: nothing that was dropped has been forgotten. |
| `Progress.LessWork` | kernel/Byterun/major_gc.c:136 | Making a block black leaves as many words less to be marked as the block has. |
| `MajorHeaps.MajorHeap.constructor` | kernel/Byterun/major_gc.c:332-374 | A heap of one free chunk satisfies the invariant. |
| `MajorHeaps.MajorHeap.ReallocGrayVals` | kernel/Byterun/major_gc.c:51-75 | The full stack is doubled with what is on it, or emptied when there is no room, or, when it is already big, cut to half its size; when something is dropped the heap is impure. |
| `MajorHeaps.MajorHeap.Darken` | kernel/Byterun/major_gc.c:77-89 | The block pointed to, if it is white, becomes gray, and nothing else changes; the snapshot and the mark stack stay right. |
| `MajorHeaps.MajorHeap.StartCycle` | kernel/Byterun/major_gc.c:91-98 | Takes the snapshot, which is exactly what can be reached, and darkens what the roots point to, and no other block. |
| `MajorHeaps.MajorHeap.MarkTop` | kernel/Byterun/major_gc.c:109-136 | The top block, and no other, becomes black, and no field of it refers to a white block any more; the work done is the size of that block. |
| `MajorHeaps.MajorHeap.ScanStep` | kernel/Byterun/major_gc.c:137-152 | One step of the search for forgotten gray blocks keeps the invariants and comes nearer to the end of the heap. |
| `MajorHeaps.MajorHeap.MarkSlice` | kernel/Byterun/major_gc.c:100-175 | A slice terminates although two branches do not consume work; it changes colours only; unless it ends the phase, the words still to be marked go down by at least the work asked for; if it ends in the sweep phase, the sweep is at the start of the heap, and every block the program can hold, or that can be reached, is black. |
| `MajorHeaps.MajorHeap.Modify` | kernel/Byterun/memory.h:63-77 | The barrier stores the value, while marking darkens what the field held, remembers the field if it holds a young pointer and did not before, and does nothing else; the snapshot is kept. |
| `MajorHeaps.MajorHeap.Initialize` | kernel/Byterun/memory.c:229-238 | The first store into a new block remembers the field if it holds a young pointer, and leaves known blocks alone. |
| `FreeBlocks.CutLarge` | kernel/Byterun/freelist.c:98-102 | Cutting the end off a large free block keeps the heap tiled and the list as it is. |
| `FreeBlocks.CutSmall` | kernel/Byterun/freelist.c:87-97 | Taking a block that fits, or is one word too big, off the list leaves the list of exactly the other blue blocks; the word left over is an empty white block. |
| `MajorHeaps.MajorHeap.FlAllocate` | kernel/Byterun/freelist.c:109-140 | Fails if and only if no block of the whole list is big enough, and then remembers the last one; otherwise cuts the end off the first one that is, from the block after `fl_prev` on and then from the start. |
| `Carving.CarvedUntouched` | kernel/Byterun/freelist.c:83-103 | Allocation changes no word of any allocated block. |
| `MajorHeaps.MajorHeap.AllocShr` | kernel/Byterun/memory.c:170-199 | Allocation in any phase keeps all invariants; the new block is the end of the free one that `fl_allocate` chooses, is unknown to the program, and is black where the sweep or the marker would otherwise take it for garbage. |
| `Coalescing.MergeFragment` | kernel/Byterun/freelist.c:184-190 | A remembered fragment takes in the block after it: the heap stays tiled, the list the same. |
| `Coalescing.MergeNext` | kernel/Byterun/freelist.c:192-210 | The swept block takes in the free block after it, which leaves the list. |
| `Coalescing.MergePrev` | kernel/Byterun/freelist.c:211-218 | The free block before the swept block takes it in. |
| `Coalescing.InsertBlock` | kernel/Byterun/freelist.c:219-223 | The swept block goes on the list at the merge point, and the list is again that of the blue blocks, in address order. |
| `MajorHeaps.MajorHeap.FlMergeBlock` | kernel/Byterun/freelist.c:162-230 | All merges together: every known block is left alone, `fl_merge` is the last free block below the sweep, a fragment is remembered, and no free blocks or fragments touch below the sweep. |
| `MajorHeaps.MajorHeap.SweepBlock` | kernel/Byterun/major_gc.c:213-234 | Sweeps one block of any colour and moves on; black blocks become white with their contents. |
| `MajorHeaps.MajorHeap.SweepSlice` | kernel/Byterun/major_gc.c:207-248 | A slice keeps all invariants and every known block; it moves on by at least as many words as asked for, or comes to the end; when the sweep is over all blocks are white or free and no two free blocks or fragments touch. |
| `MajorHeaps.MajorHeap.MajorSlice` | kernel/Byterun/major_gc.c:251-306 | A slice starts a cycle if there is none; otherwise it marks, or sweeps, as many words as asked for, or comes to the end of the phase; all invariants and the contents of every known block are kept. |
| `Pacing.FinishBySlices` | kernel/Byterun/major_gc.c:251-306 | Slices of positive work finish a cycle, after a number of slices bounded by the size of memory; after a whole cycle no garbage is left. |
| `Reclaiming.ReclaimMerged` | kernel/Byterun/major_gc.c:219-224 | After a white block has been swept, everything below the sweep is free, a fragment, or a block that this cycle has found or that is new. |
| `MajorHeaps.MajorHeap.FinishMajorCycle` | kernel/Byterun/major_gc.c:308-317 | Ends between cycles, with every known block kept; if a whole cycle was done, the blocks that are neither free nor fragments are exactly those that can be reached from the roots. |
| `MajorHeaps.MajorHeap.FullMajor` | kernel/Byterun/gc_ctrl.c:226-232 | Two such calls leave no garbage, whatever was under way before. |
| `Compactions.LayoutTiled` | kernel/Byterun/compact.c:144-163 | Walking the chunks of the collector's heap from header to header finds exactly its blocks. |
| `Compactions.CleanIsFormed` | kernel/Byterun/compact.c:137-140 | A heap without garbage, between cycles, is one that may be compacted. |
| `Compactions.KnownIsPointedTo` | kernel/Byterun/compact.c:236-238 | In such a heap the blocks that something points to, which compaction keeps, are exactly those that can be reached. |
| `Compactions.ReadyIsClean` | kernel/Byterun/compact.c:360-373 | After compaction every block is a live one or reaches to the end of its chunk and is free or a fragment; no two of the latter touch. |
| `Compactions.IsRelabelled` | kernel/Byterun/compact.c:137-324 | Every live block is found at its new address, with what it contained, up to the renaming; no two blocks have got the same address. |
| `Compactions.AfterCompaction` | kernel/Byterun/compact.c:137-376 | Compaction leaves all that the collector relies on between cycles. |
| `Compactions.CompactMajorHeap` | kernel/Byterun/compact.c:380-402 | Finishing the cycle and compacting leads from one valid state of the major heap to another, in which the program finds everything it could reach under a renaming. |
| `Sweeping.PassBlack` | kernel/Byterun/major_gc.c:229-232 | The sweep passes an allocated block, which becomes white: the sweep's invariant holds beyond it, and nothing else has changed. |
| `Coalescence.PrevC` | kernel/Byterun/freelist.c:211-218 | Merging into the block before leaves no two free neighbours below the sweep. |
| `Coalescence.AloneC` | kernel/Byterun/freelist.c:219-228 | A block put on the list, or remembered as a fragment, has no free neighbour below the sweep. |
| `Coalescence.AllocC` | kernel/Byterun/gc_ctrl.c:88-95 | Allocation keeps free blocks and fragments apart. |
| `Extension.TailMerge` | kernel/Byterun/freelist.c:251-253 | After adding at the end, `fl_merge` is right if and only if the block lies above the sweep. |
| `Extension.HereMerge` | kernel/Byterun/freelist.c:254-270 | After adding elsewhere, `fl_merge` is right. |
| `Extension.MergePointerLeftBehind` | kernel/Byterun/freelist.c:251-253 | A heap of three chunks, with the sweep at the third, in which a free block is added as required, and `fl_merge` is left behind. |
| `MajorHeaps.MajorHeap.FlAddBlock` | kernel/Byterun/freelist.c:239-271 | The block is put where its address belongs, allocated blocks are left alone, and exactly when `fl_merge` is then right. |
| `Statistics.GcStat` | kernel/Byterun/gc_ctrl.c:42-104 | In every state, the live blocks and words counted are those of the blocks that are neither free nor fragments, the free ones those of the list, and the fragments the empty white blocks; together they are all the words of the heap; and the source's assertions on neighbours hold at every block. |
| `Mutators.Step` | kernel/Byterun/memory.h:63-77 | One operation, a slice of the collector, a full collection or a compaction does for the program what it would do in a heap that is never collected, up to the addresses of blocks; a slice makes progress, a full collection leaves no garbage, and an allocation does nothing only if no free block is big enough. |
| `Mutators.Run` | kernel/Byterun/major_gc.c:100-317 | So does any sequence of them; and all that can be reached at the end is allocated. |
| `Nurseries.NewBlock` | kernel/Byterun/minor_gc.c:105-113 | Copying one block, and leaving the forwarding pointer in its first field, keeps the collection's invariant. |
| `Promotion.AllFilled` | kernel/Byterun/minor_gc.c:80-131 | When no slot is left to be filled, exactly the reachable young blocks have been copied, once each, and all fields are forwarded. |
| `Promotion.ForwardInjective` | kernel/Byterun/minor_gc.c:92-93 | No two blocks get the same copy. |
| `Promotion.NoYoungLeft` | kernel/Byterun/minor_gc.c:140-144 | Afterwards no root, no field of the major heap and no field of a copy holds a young pointer. |
| `Promotion.SamePaths` | kernel/Byterun/minor_gc.c:80-131 | From any root along any path one finds the same integers and foreign pointers, and blocks of the same size and tag, pointers into closures keeping their offset. |
| `Promotion.SameSharing` | kernel/Byterun/minor_gc.c:92-93 | Two paths lead to the same value afterwards if and only if they did before. |
| `MinorGc.MinorHeap.Evacuate` | kernel/Byterun/minor_gc.c:105-113 | A scanned block is copied, forwarded, and its fields become words to be filled. |
| `MinorGc.MinorHeap.CopyRaw` | kernel/Byterun/minor_gc.c:98-104 | A block without values is copied word by word and forwarded. |
| `MinorGc.MinorHeap.Oldify` | kernel/Byterun/minor_gc.c:80-131 | Stores what the value becomes, copying what has to be copied; terminates on cyclic graphs, through recursion and tail call; nothing else changes. |
| `MinorGc.MinorHeap.MinorCollection` | kernel/Byterun/minor_gc.c:133-145 | After all roots and remembered fields the collection is complete and the young area is empty. |
| `Items.TokenKept` | kernel/Byterun/intern.c:42-68 | For every item that fits, the reader decodes the code and the argument that the writer chose. |
| `Items.ArgumentKept` | kernel/Byterun/intern.c:50-53 | A 32-bit argument is read back as it was written if and only if it is below the limit for the word size. |
| `Items.HeaderKept` | kernel/Byterun/extern.c:323-327 | The size of a block survives if and only if its header fits; otherwise it is read as something else. |
| `Formats.PrefixIs` | kernel/Byterun/extern.c:215-326 | For each kind of item, the code by its number, and the argument as the number its bytes stand for, the most significant first; in the header of a block the tag, the colour white, and the size. |
| `Formats.LeafIs` | kernel/Byterun/extern.c:272-294 | The body of a string is its characters; that of a floating-point number its bytes in the order of the writing machine. |
| `Formats.MessageIs` | kernel/Byterun/extern.c:367-395 | A message begins with the magic number and, each as a number of four bytes, the length of the item, its objects, and its words of 32 and of 64 bits. |
| `Dumping.DumpIsExact` | kernel/Byterun/extern.c:246-269 | An object is written if and only if it can be reached, and only once. |
| `Dumping.ObjectsDumped` | kernel/Byterun/extern.c:268 | The writer's count of objects is the number of objects in what it writes. |
| `SharingTable.SomeFree` | kernel/Byterun/extern.c:248-250 | With fewer objects than places there is a free place, so probing ends. |
| `SharingTable.ProbeMissed` | kernel/Byterun/extern.c:249-269 | A probe that ends at a free place shows that the object has not been met in this call. |
| `SharingTable.Enter` | kernel/Byterun/extern.c:266-267 | Entering an object at the place found extends the finite map that the table stands for. |
| `Externs.Extern.FreePlace` | kernel/Byterun/extern.c:78-82 | Probing for a free place terminates at one, with only live entries between it and the hash code. |
| `Externs.Extern.ResizeExternTable` | kernel/Byterun/extern.c:62-88 | Doubling the table keeps the map, and drops what earlier calls left. |
| `Externs.Extern.Probe` | kernel/Byterun/extern.c:249-264 | Finds an object if and only if it has been met, with its number. |
| `Externs.Extern.Number` | kernel/Byterun/extern.c:246-269 | Numbers a new object, or tells how many objects ago it was met; the table is never more than about half full. |
| `Externs.NothingLive` | kernel/Byterun/extern.c:373-377 | The entries of one call count as empty in the next. |
| `Externs.Extern.ExternRec` | kernel/Byterun/extern.c:212-345 | Appends exactly the encoding of what is left of the graph, counts its objects and its words for both word sizes, and stops if and only if it meets an opaque object. |
| `Externs.RefusedIff` | kernel/Byterun/extern.c:310-320 | A value is refused if and only if an opaque object can be reached from it. |
| `Externs.Extern.ExternValue` | kernel/Byterun/extern.c:350-395 | For any number of calls in a row: what is written is the message for the graph, header and sizes included; a value is refused if and only if it leads to an opaque object; offsets do not overflow. |
| `Loading.StringKept` | kernel/Byterun/intern.c:120-129 | The words of a string hold its characters, then zeros, and in the last byte how many; there are no more words than needed, and the characters are found again. |
| `Loading.PackUnpack` | kernel/Byterun/intern.c:128-129 | Bytes are found again in the words they were put in. |
| `RoundTrips.LoadDump` | kernel/Byterun/intern.c:81-236 | Loading what a value was dumped as gives a word that stands for the value, rebuilds the objects dumped with it one after the other, and fills exactly the words counted. |
| `RoundTrips.SharingKept` | kernel/Byterun/intern.c:150-155 | Two words that stand for values are equal if and only if the values are. |
| `Interns.DumpSound` | kernel/Byterun/intern.c:153 | In what the writer writes, each shared offset refers to an object already counted, and each argument can be read. |
| `Interns.LoadCounts` | kernel/Byterun/intern.c:99-129 | Loading an item moves on by the words and the objects counted for it. |
| `Interns.Intern.ReadString` | kernel/Byterun/intern.c:120-129 | Reads a string into a new block, padding included. |
| `Interns.Intern.ReadDouble` | kernel/Byterun/intern.c:173-185 | Reads a floating-point number, reversing its bytes if the writing machine stored them the other way. |
| `Interns.Intern.InternRec` | kernel/Byterun/intern.c:81-236 | Reads one item, leaves the rest of the input, and does to memory and object table what `Load` says. |
| `Interns.Intern.InputVal` | kernel/Byterun/intern.c:261-294 | Given any prefix or extension of a message, says exactly when the input is refused as too short, of the wrong kind, truncated or too big; otherwise the graph is rebuilt and all words allocated are filled. |
| `Geometry.RectClip` | kernel/Libgeometry/replclipr_geom.c:6-27 | Succeeds exactly when its overlap test does, and then leaves exactly the points in common; when it fails there are none. |
| `Geometry.OverlapExact` | kernel/Libgeometry/replclipr_geom.c:13-15 | The overlap test is right about there being points in common if and only if it answers no, or neither rectangle is empty. |
| `Layers.Screen.Layerop` | kernel/Libmemlayer/layerop.c:9-58 | The pieces are a partition of the rectangle: each point in exactly one; a piece is done in the save area exactly where a window in front covers it; recursion ends along the list of windows. |
| `Layers.Screen.Memlayerop` | kernel/Libmemlayer/layerop.c:63-124 | The pieces are a partition of the request clipped to the window, on the screen exactly where the window is visible. |
| `Layers.Screen.Memlhide` | kernel/Libmemlayer/lhide.c:17-42 | Saves exactly the visible pixels of the request, and changes no other. |
| `Layers.Screen.Memlexpose` | kernel/Libmemlayer/lhide.c:44-67 | Draws exactly the visible pixels of the request from the save area, and changes no other. |
| `Layers.Screen.Memfill` | kernel/Libmemlayer/lalloc.c:81-85 | Paints exactly the pixels of a window: on the screen where it is visible, in the save area elsewhere. |
| `Layers.Screen.Swap` | kernel/Libmemlayer/ltofront.c:34-52 | Exchanges two neighbours in the doubly linked list, which stays well formed. |
| `Layers.SwapCovers` | kernel/Libmemlayer/ltofront.c:34-52 | The exchange changes only whether the two windows cover each other. |
| `Layers.Screen.PassInFront` | kernel/Libmemlayer/ltofront.c:25-54 | One step: every window keeps what it contains, the one raised only if it is to be filled; windows marked as fully visible still are. |
| `Layers.Screen.PullToFront` | kernel/Libmemlayer/ltofront.c:10-56 | Raising a window up to another moves that window only, in the list, and keeps all contents and marks. |
| `Layers.Screen.PushToRear` | kernel/Libmemlayer/ltorear.c:7-50 | Lowering a window down to another moves that window only, and keeps all contents and marks. |
| `Layers.Screen.Memlsetclear` | kernel/Libmemlayer/ldelete.c:55-71 | A window is marked if and only if all of it is visible. |
| `Layers.Screen.Memlalloc` | kernel/Libmemlayer/lalloc.c:45-86 | A new window comes first, the others keep their order, and none of them loses anything; the new one is painted all over, or else the screen shows what it did. |
| `Layers.Screen.Memltofront` | kernel/Libmemlayer/ltofront.c:65-70 | The window comes first, the others keep their order, and no window loses anything. |
| `Layers.Screen.Memltorear` | kernel/Libmemlayer/ltorear.c:52-57 | The window comes last, the others keep their order, and no window loses anything. |
| `Layers.Screen.Memltofrontn` | kernel/Libmemlayer/ltofront.c:72-86 | The windows come first in the order given, the others keep their order, and no window loses anything. |
| `Layers.Screen.Memltorearn` | kernel/Libmemlayer/ltorear.c:59-73 | The windows come last, the first one given lowest, the others keep their order, and no window loses anything. |
| `Drawing.DrawReplXY` | kernel/Libgeometry/replclipr_geom.c:29-38 | The result lies in the interval and differs from the argument by a multiple of its width, for negative arguments too. |
| `Drawing.DrawRepl` | kernel/Libgeometry/replclipr_geom.c:40-46 | The result lies in the rectangle and shows the same pixel of the repeated image. |
| `Drawing.DrawClip` | kernel/Libmemdraw/draw.c:137-239 | Fails if and only if no pixel satisfies all clips; otherwise `r` is exactly the set of those that do, the three rectangles are of one size, and source and mask start at the points asked for, up to replication. |
| `Drawing.PixelsMatch` | kernel/Libmemdraw/draw.c:207-231 | Then every pixel of the source rectangle shows the pixel asked for. |
| `Currying.Interp.Appterm` | kernel/Byterun/interp.c:296-310 | Slides the arguments over the frame, which they may overlap, and enters the closure. |
| `Currying.AtGrab` | kernel/Byterun/interp.c:410-428 | At `GRAB`, with enough arguments the function goes on with the others as `extra_args`; with too few the caller goes on with a new closure that has them. |
| `Currying.AtRestart` | kernel/Byterun/interp.c:400-408 | Entering such a closure leads to the `GRAB` with the remembered arguments under the new ones. |
| `Currying.Interp.Restart` | kernel/Byterun/interp.c:400-408 | Puts the arguments that a partial application remembers back on the stack. |
| `Currying.Interp.Grab` | kernel/Byterun/interp.c:410-428 | Goes on with enough arguments; otherwise returns a closure that remembers those given. |
| `Currying.CallOnce` | kernel/Byterun/interp.c:400-428 | Applying a function that already has some arguments enters the body with all of them, or gives a closure that has all of them, the caller's frame being as it was. |
| `Currying.CallGroups` | kernel/Byterun/interp.c:400-428 | The same for any number of applications in a row. |
| `Currying.CurryingIsTransparent` | kernel/Byterun/interp.c:290-428 | However a list of arguments is split into non-empty groups, all of which but the last are too few, the body is entered at the same place with the same environment, stack and `extra_args`. |
| `Currying.ReturnAppliesRest` | kernel/Byterun/interp.c:311-317 | A body that returns a function while arguments are left behaves as if the caller had applied the result to them. |
| `Currying.TailCall` | kernel/Byterun/interp.c:296-310 | A tail call is the call that the caller of the function would have made, with the arguments left over after the new ones. |
| `Currying.SplitAfterAll` | kernel/Byterun/interp.c:290-428 | A split after the function has all its arguments makes no difference either: whatever the body does, going on from its `RETURN` with the arguments left is the same state as applying its result to them. |
| `Md5.PadLength` | kernel/Byterun/md5.c:174-189 | The number of zero bytes makes the length 56 modulo 64 (section 3.1 of RFC 1321). |
| `Md5.PaddedBytes` | kernel/Byterun/md5.c:166-200 | The padded message by positions: the message, 0x80, zeros, and its length in bits modulo 2^64, the least significant byte first; its length is the least such multiple of 64 (sections 3.1 and 3.2 of RFC 1321). |
| `Md5.MoreBytes` | kernel/Byterun/md5.c:113-155 | Bytes added together with those left over give the blocks of all bytes so far. |
| `Md5.Context.Count` | kernel/Byterun/md5.c:119-122 | The two words hold 8 times the number of bytes, modulo 2^64, through wrap-around and carry. |
| `Md5.Context.Update` | kernel/Byterun/md5.c:113-155 | The state depends only on the bytes added so far, not on how they were split. |
| `Md5.Context.Final` | kernel/Byterun/md5.c:161-200 | Transforms exactly the blocks of the padded message of sections 3.1, 3.2 and 3.4 of RFC 1321. |
| `Md5.DigestChunks` | kernel/Byterun/md5.c:98-200 | For every sequence of chunks the digest is that of their concatenation. |

## Left out

- Infix headers in the compactor, the marker and the marshaller: only the minor collection has them.
- Weak arrays and `Final_tag` functions: their passes in marking, sweeping and compaction.
- Float arrays (the bytecode reader refuses them), code pointers and the flags of `extern_value`.
- Which variables are roots: each collector is given the list of them. Allocation in the young area is not modelled.
- `expand_heap`, `shrink_heap`, `malloc` and the page table: `Is_in_heap` is membership in a list of sorted chunks that do not touch each other and have more than four words each; address 0 is not in the heap. A heap does not grow while a program runs; adding a free block to the list is proved on its own.
- `MajorHeaps.MajorHeap.AllocShr`: returns 0 where the source extends the heap and tries again.
- `MajorHeaps.MajorHeap.FlAddBlock`: needs a well-formed list, not the invariant of the whole collector, which does not always hold afterwards.
- `MajorHeaps.MajorHeap.MarkTop`: calls `Darken` for each field, where the source has the body of `darken` written out and keeps the stack pointer in a local variable.
- `MajorHeaps.MajorHeap.MajorSlice`: takes the amount of work as an argument. The pacing formulas and `fl_cur_size` are not modelled.
- `Mutators.Run`: what lies in the young area is among the program's roots, so minor collections are not steps of a run; nor does the heap grow. The fields of a new block are set to 0 before the program gets it.
- `Compact.Compactor.CompactHeap`: takes root slots to be distinct words outside the heap, and does not shrink the heap.
- `Compactions.CompactMajorHeap`: stores the roots, which are a list of values in the model of the major heap, in given words outside the heap, and gets them back from there; when compaction is due is not modelled. No remembered field may be left, as is the case after a minor collection.
- `Compact.Compactor.Allocate`: stops at the last chunk where the source reads beyond it.
- `Compact.Compactor.RebuildFreeList`: has the code of `fl_merge_block` for blocks that merge with nothing; that nothing merges is asserted where the tests would be.
- `MinorGc.MinorHeap.MinorCollection`: copies are allocated at any unused addresses, in a memory that is a map; it is not composed with the major heap's free list, cannot run out of memory, and does not start a major slice.
- `Externs.Extern.ExternValue`: the output buffer grows as needed; the fixed buffer of `to_buffer` is not modelled. That the number of bytes has 32 bits is not checked by the source either.
- `Interns.Intern.InputVal`: requires that sizes and arguments fit and that the bytes, if they start with the magic number, are a prefix or an extension of a message: the source does not protect itself against other input. `input_val_from_string` is not modelled.
- `Interns.Intern.InternAlloc`: the objects are read into an array of their own, as one block; that it is an ordinary block of the heap is not modelled.
- Drawing itself: `memdraw` with an opaque mask is a copy of pixels, and images are functions from points to pixels. Windows without a save area, `memldelete` and `memlorigin` are not modelled.
- `Layers.Screen.Memlalloc`: paints by filling the pieces of the window, without the drawing routines; a window that is not painted has an arbitrary save area.
- `Layers.Screen.Layerop`: returns the list of pieces instead of calling a function on each, since what that function does to images does not affect the subdivision.
- `Layers.Screen.PushToRear`: makes the window behind pass in front, where the source makes the window pass behind; the writes are the same.
- Layers and `drawclip` with rectangles that are empty, except for the rectangle asked for.
- The other instructions of the interpreter, `APPLY1` to `APPTERM3` among them, growth of its stack, and collections during `GRAB`.
- `MajorHeaps.MajorHeap.FinishMajorCycle`: `LONG_MAX` is that of a machine with 64-bit words, and more than the words in memory.
- `Currying.SplitAfterAll`: what a body does is a parameter; it depends neither on what lies below its arguments nor on how many are left for its result.
- `Md5.Context.Update`: `MD5Transform` is a parameter, with its byte order; chunks have less than 2^32 bytes, as in the source. Wiping the context at the end is not modelled.
- `longjmp`, signals, debug messages, the debugger, input and output, and the rest of the kernel.
