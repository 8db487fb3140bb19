# Verification of the Nikka memory system

This project models, in Dafny, the parts of the Nikka kernel whose correctness is hardest to see: the page tables
with their reference-counted frames, the slab allocator with its cache, the arithmetic of virtual addresses, the
process table, and the text screen. `dafny verify dfyconfig.toml` checks the whole project.

## The model in short

**Page tables and frames.** Physical memory is a sequence of tables of 512 entries (`Mmu`). All live address spaces
together are read as one forest (`PageTree`), whose nodes must not be shared. `FrameAllocator` is the frame
allocator with its intrusive free list. `Machine` joins the two with the frame guards: in every state the reference
count of a frame is the number of entries that name it plus the number of guards (`World.Consistent`). `Paths`,
`Mapping`, `Duplicate`, `AddressSpace`, `BigPair`, `Zeroing` and `Big` are the operations, each proved to keep that
invariant and to do to the flat map from page to frame and flags what it should. `Rights` adds what the processor makes
of the flags on the way to a page: the effective rights are those that every entry of the path grants. `NodeCount`
counts the nodes of a tree. `Runs` closes this over every sequence of calls. `Stray` is what a failed duplicate does to
frame 0, and `Contents` what moving pages does to the bytes that a program sees.

**Allocator.** `Bitmap`, `DynamicBitmap` and `Quarry` make up a size class (`FixedSize`), on top of a page-granular
allocator (`Fallback`) that knows which page belongs to whom and which is mapped, and that counts how often it could not
give pages; each failure above it is traced to such a refusal. `Cache` runs any number of threads
over a size class, one critical section at a time, in any order. `Dispatcher` is the general allocator with its
statistics (`Info`, `Books`) and the contents of memory.

**Addresses.** `Addr` and `Frage` treat the canonical hole, stepping over pages and the page-table indexes; `Iterator`
walks the leaves of a mapping; `Phys2Virt` builds the linear map of physical memory through a recursive entry and walks
it as the processor does (section 4.5 of the Intel 64 and IA-32 Architectures Software Developer's Manual, volume 3A).

**Processes and screen.** `ProcessTable` has the table with epochs and the scheduler's queue, `Grid` the text screen
with the unbounded page that it shows the end of.

## What was found

- `Virt::canonize` does not make every pattern canonical (`Addr.CanonizeWhen`, `Addr.CanonizeFails`).
- Mapping a page widens the flags of the entries above it and nothing narrows them again, so pages next to it may gain
  rights that their own leaf entries have and the entries above them had not (`Paths.MapPath`).
- `Phys2Virt` keeps root entries that are there already with the flags they have: the linear map is writable but for what
  is under such an entry that is not, and the number of frames it reports as used is that of the frames taken exactly
  when there was no such entry (`Phys2Virt.BootTables.Make`).
- Remapping a page that is not mapped, but whose leaf table exists, maps it to frame 0 (`BigPair.RemapPage`), and no
  reference is taken for it. The balance of references is kept only because frame 0 is not tracked
  (`BigPair.SetLeafFlagsWhen`).
- `Phys2Virt::make` panics when the recursive entry is the last of the root, since the page after the root's own
  address does not exist (`Phys2Virt.NodeWhen`), and when there is no memory. When the recursive entry is among those it
  fills it empties the root (`Phys2Virt.BootTables.AllocateRootEntry`), after which no address is mapped
  (`Phys2Virt.EmptiedRoot`). `Phys2Virt.BootTables.Make` has the conditions, in both directions.
- `find_unused_block` numbers pages of the higher half as if there were no hole, so a longest run there gives nothing
  (`PageAllocator.FindUnusedBlock`); the kernel asks for ranges of the lower half only.
- `Quarry::allocation_index` is documented to answer `None` for addresses of no block; for the bytes left over at the end
  of a slab it answers with the first block of the next slab (`Quarry.Quarry.AllocationIndex`, `Quarry.RestOf24`). It is
  also documented to panic for an address inside a block; it answers with that block instead.
- When `stock_up` fails after it has extended the bitmap, the bitmap counts as free a block that is not backed
  (`FixedSize.StockUpShort`, with the exact condition for large blocks); if no page could be mapped at all then this is
  the first of the added blocks, exactly when it needs one more page (`Quarry.NextBacked`). `stock_up` is not tried again
  before the added blocks are used up.
- `Grid::character` is documented to print `?` for what is not printable ASCII; it looks at the low octet only
  (`Grid.DisplayedWhen`, `Grid.DisplayedFails`).
- A failed `Path::map` keeps the nodes it made, and changes no translation (`Paths.MapPath`).
- A failed `duplicate` keeps references, and then drops a mapping whose root is frame 0: present entries in the contents
  of frame 0 are followed as page tables, cleared, and their frames released. This is harmless if and only if frame 0
  has no such entry (`Duplicate.Duplicate`, `Stray.DropHarmless`); otherwise the count of a frame can fall while an entry
  names it (`Stray.StrayReleases`).
- `FrameAllocator::resize` asserts that no frame beyond the storage was accessed, to rule out guards that live across it;
  but nothing sets the flag it looks at, and `reference` accepts such frames (`FrameAllocator.GuardOverResize`).

## Model

| member | source | states |
|---|---|---|
| `Runs.Run` | kernel/src/memory/frame_allocator.rs:191-282 | over every sequence of map, unmap, remap, copy, duplicate, drop and prune calls on any number of spaces, with frame guards allocated, referenced, dropped and stored in between: the count of each tracked frame, less the entries naming it in all live trees and less the live guards, is what it was at the start plus a remainder, which is empty if no duplicate failed; and no free frame is named, a node, or guarded. The run ends with a duplicate that fails while an entry of frame 0 is counted; this never happens if at the start frame 0 is no node and has no such entry. Each call of the run succeeds exactly when it should and does to translations, guards and spaces what it should |
| `Runs.Perform` | kernel/src/memory/address_space.rs:294-425 | one call of a run: it succeeds exactly under its condition, and does what it should; a duplicate fails exactly when there are fewer free frames than nodes to copy |
| `Runs.HeldConserves` | kernel/src/memory/frame_guard.rs:78-122 | if the references held outside the trees changed by the guards and the remainder, then so did count less entries, frame by frame |
| `Runs.ConsistentFrees` | kernel/src/memory/frame_allocator.rs:191-212 | a frame with count zero is in no entry, no node and no guard |
| `World.FreeIsUnused` | kernel/src/memory/frame_allocator.rs:191-212 | what `allocate` may hand out is neither a page-table node nor a mapped frame nor guarded |
| `Machine.Machine.AllocateFrame` | kernel/src/memory/frame_guard.rs:78-80 | fails exactly when no frame is free; otherwise one guard of a frame that had no reference |
| `Machine.Machine.ReferenceFrame` | kernel/src/memory/frame_guard.rs:97-99 | one more reference and one more guard |
| `Machine.Machine.DropGuard` | kernel/src/memory/frame_guard.rs:120-122 | one guard and one reference less, the frame becoming free with the last |
| `Machine.Machine.Store` | kernel/src/memory/frame_guard.rs:103-109 | the reference moves from the guard to the entry; all trees stay well formed and unshared |
| `Machine.Machine.Load` | kernel/src/memory/frame_guard.rs:90-92 | the reference moves from the entry to the guard, or nothing happens when the entry is not present |
| `Machine.Machine.AllocateNode` | kernel/src/memory/mapping.rs:366-371 | an empty node in a frame that was free |
| `Paths.Walk` | kernel/src/memory/mapping.rs:385-413 | records for each level the entry that the page selects, down to where the tree ends; the result passes `validate` |
| `Paths.Trace` | kernel/src/memory/mapping.rs:385-413 | the same on tables that need not form a tree, as with recursive entries |
| `Paths.TracedIsValid` | kernel/src/memory/path.rs:325-339 | on a traced path, of tables that need not form a tree, the assertions of `validate` hold, and its deepest entry decides the translation |
| `Paths.DeepestPte` | kernel/src/memory/path.rs:277-284 | the lowest level at which the path has an entry |
| `Paths.MakeNodes` | kernel/src/memory/path.rs:168-235 | missing nodes are made and flags widened without changing any translation; no path of any space loses a right, what a path gains is among the flags asked for, and all entries above the leaf grant these; it succeeds exactly when the free frames suffice |
| `Rights.WidenRights` | kernel/src/memory/path.rs:197-200 | widening the flags of an entry takes no right from any path, and gives only those added, to the paths through it |
| `Rights.PutRight` | kernel/src/memory/path.rs:168-235 | writing one entry changes the effective rights of exactly the paths through it, which become those of the entries above, the new entry and what is below it |
| `Rights.AddNodeRights` | kernel/src/memory/path.rs:184-191 | a node made on the way changes no right, and its entry grants the flags given |
| `Rights.GrantedEach` | kernel/src/memory/path.rs:151-155 | a path is granted exactly the access rights in the flags, if and only if right by right all its entries have it exactly when it is in them |
| `Rights.RightIsWayAndLeaf` | kernel/src/memory/path.rs:151-155 | where there is a leaf table, a page has exactly the rights that both the entries above and its leaf entry grant |
| `Paths.MapPath` | kernel/src/memory/path.rs:168-235 | sets the translation of that one page to the frame and flags, changes no other page of any space, and succeeds exactly when no huge page is in the way and the free frames suffice for the missing nodes. The effective access rights of the page are then exactly those in the flags; no other page of any space loses a right, on failure either, and none gains one that is not in the flags. The way to a leaf table, made or widened, gains no right but these |
| `Paths.UnmapPath` | kernel/src/memory/path.rs:251-262 | removes exactly that page; succeeds exactly when a 4 KiB page is mapped there, and changes nothing otherwise; the page has no right left and all others have theirs |
| `World.AddNodeKeeps` | kernel/src/memory/path.rs:168-235 | a node made on the way keeps all trees well formed and unshared and every translation as it was |
| `World.ReplaceLeafKeeps` | kernel/src/memory/path.rs:204-206 | overwriting a leaf drops the reference of the old frame, keeps the balance, and changes one translation |
| `PageTree.WriteDeepest` | kernel/src/memory/path.rs:168-235 | writing one entry of an unshared tree redirects exactly the pages that go through it |
| `PageTree.WriteCount` | kernel/src/memory/path.rs:168-235 | writing one entry changes the number of references to each frame by those of the new and old entry only |
| `Mapping.DropSubtree` | kernel/src/memory/mapping.rs:252-298 | with `drop_used` every counted entry below goes with its reference; without it no translation changes and every entry left leads to a mapped page; the answer says whether anything mapped is below |
| `Mapping.PrunedExactly` | kernel/src/memory/mapping.rs:252-298 | a node survives pruning, in its frame, if and only if a mapped page is below it |
| `Mapping.UnmapUnusedIntermediate` | kernel/src/memory/mapping.rs:431-434 | pruning a space with something mapped: all translations kept, exactly the unneeded nodes freed, the assertion not tripped, all effective rights kept |
| `Rights.ClearedRights` | kernel/src/memory/mapping.rs:252-298 | clearing entries changes no right of a page that is still found where it was |
| `Mapping.Drop` | kernel/src/memory/mapping.rs:375-381 | the space translates nothing any more, other spaces are as before, and each frame loses exactly the references the dropped tree held; rights in the other spaces are as before |
| `Duplicate.DuplicateSubtree` | kernel/src/memory/mapping.rs:192-238 | the copy lies in frames that were free and translates as a copy should, with the effective rights of the original; it succeeds if and only if there are more free frames than nodes below, takes one for each node and one for itself, and else fails with `NoFrame` |
| `Duplicate.Duplicate` | kernel/src/memory/mapping.rs:140-146 | on success a new space, which shares no node with another and translates every page as a copy should, with the effective rights of the original, all others as before; it succeeds if and only if there are as many free frames as the original has nodes. On failure no frame in use was disturbed until the unfinished mapping, whose root is frame 0, is dropped; that drop changes nothing if and only if no entry of frame 0 is counted, and otherwise it is exactly the recursion of `drop_subtree` on what is there |
| `NodeCount.SpaceNodes` | kernel/src/memory/mapping.rs:192-238 | the nodes that a duplicate visits are as many as the frames that the space uses as nodes |
| `Stray.DropStray` | kernel/src/memory/mapping.rs:252-298 | on any memory, tree or not, computes the recursion of `drop_subtree`; fails exactly where that panics, at an entry that leads out of memory or to a free frame |
| `Stray.DropHarmless` | kernel/src/memory/mapping.rs:252-298 | dropping what is in a frame changes nothing if and only if no entry of it is counted |
| `Stray.DropFalls` | kernel/src/memory/mapping.rs:252-298 | dropping only clears entries and lowers counts, and leaves no counted entry in the node |
| `Stray.DropUnrooted` | kernel/src/memory/mapping.rs:374-381 | the same for the drop of a mapping whose root is frame 0 |
| `Stray.StrayReleases` | kernel/src/memory/mapping.rs:374-381 | in any state with a zeroed frame in use, let frame 0 hold an entry that names it: that state is consistent, and dropping the tree at frame 0 lowers the count of the frame, though it is named and held as before |
| `Duplicate.CountsDetermined` | kernel/src/memory/mapping.rs:252-298 | equal entries and guards mean equal counts |
| `Duplicate.DuplicateThenDrop` | kernel/src/memory/mapping.rs:374-381 | dropping a successful duplicate restores every count, so the free set, and every translation; rights too; it succeeds exactly when there are frames for the nodes |
| `Iterator.PathPages` | kernel/src/memory/path.rs:289-299 | the pages that share the entry: a block aligned to its size, containing the page |
| `Iterator.BlockShares` | kernel/src/memory/path.rs:289-299 | all pages of a yielded block are decided by the same entry and would yield the same block |
| `Iterator.MappingIterator.Next` | kernel/src/memory/mapping.rs:459-484 | from any page of any range, on tables with recursive entries or without: skips exactly the pages under recursive entries, yields the block of the next page and moves strictly on, over the hole where it is met; nothing exactly when only such pages are left |
| `Iterator.Collect` | kernel/src/memory/mapping.rs:456-484 | run to its end, the iterator terminates and yields ordered blocks that hold exactly the canonical pages that are not under a recursive entry, each once |
| `FrameAllocator.FrameAllocator.Allocate` | kernel/src/memory/frame_allocator.rs:191-212 | fails exactly when no frame is free; the panic for a bad head of the list is not reached |
| `FrameAllocator.FrameAllocator.Deallocate` | kernel/src/memory/frame_allocator.rs:221-250 | one reference less; the frame joins the free list when it was the last |
| `FrameAllocator.FrameAllocator.Reference` | kernel/src/memory/frame_allocator.rs:259-282 | one reference more, for tracked frames only; nothing else changes |
| `FrameAllocator.FrameAllocator.InitFrameInfo` | kernel/src/memory/frame_allocator.rs:310-357 | from disjoint regions every frame gets the state its region gives, and the list stays well linked |
| `FrameAllocator.FrameAllocator.Resize` | kernel/src/memory/frame_allocator.rs:365-391 | old metadata is kept, new metadata comes from the memory map, and the assertion on accesses beyond the storage holds |
| `FrameAllocator.GuardOverResize` | kernel/src/memory/frame_allocator.rs:398-429 | a reference to a frame beyond the storage that is taken before `resize` and dropped after it: panics if and only if the frame is free by the memory map, and else leaves the count one below what the memory map says |
| `FrameAllocator.ChainIsFreeSet` | kernel/src/memory/frame_allocator.rs:191-250 | in every reachable state the list visits exactly the free frames, each once, and its length is `free_count` |
| `AddressSpace.MapPageToFrame` | kernel/src/memory/address_space.rs:294-305 | that page maps to the frame with the flags as its effective rights, the frame has one reference more, everything else is as before and no page loses a right; it succeeds if and only if the side is right, no huge page is in the way and the free frames suffice for the missing nodes; denied exactly on a user/kernel mismatch |
| `AddressSpace.MapPage` | kernel/src/memory/address_space.rs:316-327 | the page maps, with the rights asked for, to a frame that was free and that holds data; exact condition of success and the error in each case; on failure no page and no frame in use changes and no right is lost |
| `AddressSpace.UnmapPage` | kernel/src/memory/address_space.rs:341-348 | exactly that page is unmapped, its frame released; exact error otherwise |
| `AddressSpace.MapBlock` | kernel/src/memory/address_space.rs:359-373 | every page of the block is mapped to a frame of its own, which nothing else needed; no other page changes and frames in use keep their references; if it stops part-way, then exactly the first pages are mapped and no other reference was taken. Every page done has exactly the rights asked for, no other page loses one, and it fails only on the wrong side, under a huge page, or for want of frames |
| `AddressSpace.UnmapBlock` | kernel/src/memory/address_space.rs:412-425 | succeeds exactly when all pages are mapped; then exactly they are unmapped; if it stops, then at a page that was not mapped, the ones before it being unmapped; part-way or not, all other pages that hold data keep it; no page outside loses a right |
| `BigPair.CopyPages` | kernel/src/allocator/big_pair.rs:117-181 | page `i` of the target shares the frame of page `i` of the source and has the rights that the flags say; every frame gains as many references as pages that name it; no other page loses a right; if it stops part-way, then for the pages done, at a page that could not be mapped, and guards are as before |
| `BigPair.CopyMapping` | kernel/src/allocator/big_pair.rs:117-181 | in one space or two, mapped or not, with all its error conditions; on the same block it only changes flags; refused arguments change nothing; on every exit guards are as before and what was done is the first pages |
| `BigPair.RemapBlock` | kernel/src/memory/address_space.rs:387-402 | new flags for every page, mapped or not; succeeds exactly when the side is right and all leaf tables exist; otherwise it stops at the first page without one, with the error for that page, the pages before it being done and no other changed; the balance of references and the rights of all other pages are kept |
| `BigPair.RemapPage` | kernel/src/memory/address_space.rs:387-402 | a page that was not mapped becomes mapped to frame 0, which is not counted; exact condition of success and the error otherwise; no way to a leaf table changes, so that the rights of the page are the new flags and those of the entries above |
| `BigPair.SetLeafFlagsWhen` | kernel/src/memory/address_space.rs:387-402 | setting the flags of a leaf keeps the reference balance if and only if the entry was present or its frame is untracked; an entry that was not present names frame 0 |
| `PageAllocator.PageAllocator.Allocate` | kernel/src/memory/page_allocator.rs:129-181 | exactly the pages needed, aligned, disjoint from all given before and from the free block; fails exactly when size and alignment slack do not fit |
| `PageAllocator.PageAllocator.Reserve` | kernel/src/memory/page_allocator.rs:206-221 | succeeds exactly on free blocks; the given blocks stay pairwise disjoint; of the free pages before and after the block the larger part stays free |
| `PageAllocator.PageAllocator.Deallocate` | kernel/src/memory/page_allocator.rs:189-198 | accepts exactly blocks inside the initial one without a free page |
| `PageAllocator.PageAllocator.Duplicate` | kernel/src/memory/page_allocator.rs:98-103 | the copy starts from the whole initial block |
| `PageAllocator.TailFits` | kernel/src/memory/page_allocator.rs:129-181 | once the size check passed the alignment skip never fails |
| `PageAllocator.SkipAligns` | kernel/src/memory/page_allocator.rs:129-181 | the skip reaches a multiple of the alignment in fewer pages than the slack |
| `PageAllocator.FindUnusedBlock` | kernel/src/memory/page_allocator.rs:233-268 | for any range of root entries, the pages of a longest run of unused ones; nothing if that run reaches into the higher half; in the lower half none exactly when all are used |
| `PageAllocator.New` | kernel/src/memory/page_allocator.rs:55-82 | the pages of a longest run of unused root entries, less a guard page at the end, so that no page handed out is the last of its half; panics exactly when no run is found |
| `Addr.NewVirtIsCanonical` | ku/src/memory/addr.rs:529-535 | the leading-bit test accepts exactly the two halves |
| `Addr.CanonizeWhen` | ku/src/memory/addr.rs:551-556 | the result is canonical if and only if the pattern is in the lower half or has bit 47 set; 48-bit patterns are sign-extended, canonical ones kept |
| `Addr.CanonizeFails` | ku/src/memory/addr.rs:551-556 | a pattern for which it is not |
| `Addr.AddWithinHalf` | ku/src/memory/addr.rs:132-160 | checked addition succeeds exactly within the half, and subtraction undoes it |
| `Addr.FromPageTableIndexes` | ku/src/memory/addr.rs:613-627 | a canonical address with the given indexes and offset |
| `Addr.IndexesRoundTrip` | ku/src/memory/addr.rs:581-627 | composing an address from indexes and taking it apart gives them back |
| `Addr.AddressRoundTrip` | ku/src/memory/addr.rs:581-627 | taking a canonical address apart and composing it gives it back |
| `Pages.PathInjective` | ku/src/memory/addr.rs:581-587 | different pages, or spaces, have different paths |
| `Pages.IndexOfAddress` | ku/src/memory/addr.rs:581-587 | the path of a page takes in each table the entry that its address selects |
| `Frage.FromIndexIsPage` | ku/src/memory/frage.rs:109-140 | accepts exactly the numbers of canonical pages |
| `Frage.ForwardLaw` | ku/src/memory/frage.rs:408-420 | moves the position by the count, across the hole, and fails exactly past the last page |
| `Frage.BackwardLaw` | ku/src/memory/frage.rs:422-435 | moves it back, fails exactly before the first page, and always lands on a page |
| `Frage.StepLaws` | ku/src/memory/frage.rs:391-435 | backward undoes forward and the reverse; `steps_between` agrees with forward |
| `Frage.StepsCompose` | ku/src/memory/frage.rs:408-420 | steps add up |
| `Big.TryIntoBlockLaw` | ku/src/allocator/big.rs:450-466 | a block exactly for page-aligned pointers whose bytes stay in the half, with just enough pages |
| `Big.GivenAccepted` | ku/src/allocator/big.rs:450-466 | every block that the page allocator handed out is recovered from its address and size, since the guard zone keeps it off the end of its half |
| `Big.DryGrow` | ku/src/allocator/big.rs:362-407 | in place exactly when the pages after the block are free and of its side, else moved, page `i` of the result has the frame of page `i` of the old block and its flags, the pages after those hold data, zeros if asked for, with exactly the flags and rights of the allocator; an abandoned block is unmapped; just the pages needed are reserved; all frames in use, of whatever block, keep their counts, and their contents if they hold data. It fails only if pointer and size form no block, pages or frames run out, or the flags forbid. On failure no page that was not free and no data has changed. The free pages stay unmapped, so calls can follow each other |
| `Big.GrownMoved` | ku/src/allocator/big.rs:362-407 | copying the mapping, mapping the rest and unmapping the old block add up to that |
| `Big.GrownWords` | ku/src/allocator/big.rs:362-407 | a program reads in the grown block, word by word, what it read in the old one |
| `Big.GrownMoves` | ku/src/allocator/big.rs:362-407 | what a program sees through the page tables changes by growing exactly as by moving the bytes: the old block is seen at the new place, all other pages are unchanged |
| `Big.GrownHolds` | ku/src/allocator/big.rs:362-407 | if all pages of the space were backed by data frames then they are after growing |
| `Big.AllocatedHolds` | ku/src/allocator/big.rs:333-346 | and after allocating |
| `Big.ShrunkHolds` | ku/src/allocator/big.rs:409-429 | and after shrinking |
| `Big.PartlySafe` | ku/src/allocator/big.rs:362-407 | however far an operation on unmapped pages got, no data frame is touched |
| `Big.DryShrink` | ku/src/allocator/big.rs:409-429 | exact condition of success; the kept pages are as before, the rest is unmapped, frames not cut off keep their references; on every exit all pages but those cut off keep frames, data and rights |
| `Big.ShrunkMoves` | ku/src/allocator/big.rs:409-429 | shrinking changes what a program sees exactly as cutting off the bytes |
| `Big.DryAllocate` | ku/src/allocator/big.rs:333-346 | pages that were free, of the size and alignment asked for, each backed by a frame of its own with exactly the flags and rights asked for, zeros if asked for; just the pages needed are reserved; all frames in use keep counts and data; it fails only when pages or frames run out or the flags forbid; on failure no page that was not free and no data has changed |
| `Big.AllocatedSees` | ku/src/allocator/big.rs:333-346 | allocating does not change what a program sees elsewhere |
| `Zeroing.ZeroBlock` | ku/src/allocator/big.rs:476-488 | exactly the frames behind the block are filled with zeros, and no page table changes |
| `Zeroing.FillKeeps` | ku/src/allocator/big.rs:476-488 | writing to a frame that is no node keeps all trees, counts and translations |
| `Zeroing.MapFilled` | ku/src/allocator/big.rs:333-346 | mapped and zeroed, the block has frames of its own, and nothing in use was written; rights and errors as for mapping |
| `Phys2Virt.NodeReached` | kernel/src/memory/phys2virt.rs:249-267 | the processor, walking the address formed through the recursive entry, arrives at the node intended |
| `Phys2Virt.NodeWhen` | kernel/src/memory/phys2virt.rs:249-267 | forming the node block fails if and only if both index and recursive entry are the last one |
| `Phys2Virt.BootTables.AllocateRootEntry` | kernel/src/memory/phys2virt.rs:209-236 | the entry leads to an empty node and other root entries are untouched; `NoFrame` changes nothing; for the recursive entry exactly the root is emptied; through an emptied root it faults |
| `Phys2Virt.BootTables.FillEntries` | kernel/src/memory/phys2virt.rs:156-198 | every node holds the entries of its 1 GiB pages and empty ones after the last; it faults exactly when the recursive entry is among those to be filled and frames last until there |
| `Phys2Virt.LinearWalk` | kernel/src/memory/phys2virt.rs:87-97 | walking the filled tables from the linear address of `p` yields `p` |
| `Phys2Virt.LinearRights` | kernel/src/memory/phys2virt.rs:156-198 | the linear address of `p` is not accessible to the user, and writable if and only if the root entry is |
| `Phys2Virt.BootTables.Make` | kernel/src/memory/phys2virt.rs:121-142 | for every recursive entry and size: each of the four errors, the panic and the fault exactly under its condition, and no other; it succeeds if and only if the recursive entry is accepted, not the last, not among those filled, and the free frames suffice, and then `map` accepts exactly the addresses of the memory and the walk leads back to each. No linear address is accessible to the user, all are writable but those under a root entry that was there and is not, and the frames taken are those of the missing nodes |
| `Phys2Virt.EmptiedRoot` | kernel/src/memory/phys2virt.rs:209-236 | through an emptied root, which is what filling the recursive entry leaves, no address is mapped |
| `Bitmap.CountFree` | ku/src/collections/bitmap.rs:226-252 | the number of zero bits below `len` |
| `Bitmap.Bitmap.Allocate` | ku/src/collections/bitmap.rs:146-170 | from any cursor a free element, if there is one, and none otherwise; the end of the search is not reached |
| `Bitmap.Bitmap.BulkAllocate` | ku/src/collections/bitmap.rs:184-205 | as many different free elements as asked for or as there are |
| `Bitmap.Bitmap.SetFree` | ku/src/collections/bitmap.rs:129-137 | exactly that element becomes free; the free count stays the number of zero bits |
| `Bitmap.Bitmap.IsFree` | ku/src/collections/bitmap.rs:114-120 | whether the element is free |
| `Bitmap.Bitmap.Grow` | ku/src/collections/dynamic_bitmap.rs:119-162 | old elements are kept, all new ones free, bits past the end zero, the count exact |
| `DynamicBitmap.DynamicBitmap.Reserve` | ku/src/collections/dynamic_bitmap.rs:81-101 | pages for the capacity between guard zones, nothing mapped |
| `DynamicBitmap.DynamicBitmap.Map` | ku/src/collections/dynamic_bitmap.rs:119-162 | maps exactly the missing pages after the guard zone and answers how many |
| `DynamicBitmap.DynamicBitmap.Unmap` | ku/src/collections/dynamic_bitmap.rs:179-206 | gives back every page; answers how many were mapped |
| `Quarry.Quarry.Reserve` | ku/src/allocator/quarry.rs:486-543 | exactly the slabs that the new count touches are reserved; old ones stay; on failure a page is lacking and nothing is lost |
| `Quarry.Quarry.Map` | ku/src/allocator/quarry.rs:184-362 | the mapped pages become exactly those of complete slabs plus the first ones of the partial slab, none mapped twice; the answer is the difference; the reported count is the largest whose blocks all lie on mapped pages; on failure a needed page is lacking, and nothing the class had is lost |
| `Quarry.Quarry.Unmap` | ku/src/allocator/quarry.rs:380-455 | no slab is left, and the answer is all pages that were mapped |
| `Quarry.StretchedIsLargest` | ku/src/allocator/quarry.rs:301-352 | the count reported by `map` is the largest that fits the mapped pages |
| `Quarry.Quarry.Allocation` | ku/src/allocator/quarry.rs:96-112 | the address of the block, null exactly for an unreserved slab |
| `Quarry.Quarry.AllocationIndex` | ku/src/allocator/quarry.rs:123-147 | undoes `allocation` from any byte of a block; none exactly outside the slabs; bytes left over at the end of a slab are taken for the first block of the next |
| `Quarry.RestWhen` | ku/src/allocator/quarry.rs:123-147 | such left-over bytes exist if and only if the block size does not divide the slab size |
| `Quarry.RestOf24` | ku/src/allocator/quarry.rs:123-147 | with blocks of 24 bytes there are sixteen of them |
| `Quarry.BlocksApart` | ku/src/allocator/quarry.rs:96-112 | different blocks share no byte |
| `Quarry.BlocksMapped` | ku/src/allocator/quarry.rs:567-572 | every byte of the counted blocks is on a mapped page of this size class |
| `Quarry.UnbackedWhen` | ku/src/allocator/quarry.rs:184-362 | some of the counted blocks is not backed if and only if a page that holds bytes of them is not mapped |
| `Quarry.LacksWants` | ku/src/allocator/quarry.rs:184-362 | a page lacking is such a page, if less than a page is left over at the end of a slab |
| `Quarry.NextBacked` | ku/src/allocator/quarry.rs:184-362 | as long as nothing more is mapped, the block after the counted ones is backed if and only if its last page is among those mapped for the counted ones |
| `Quarry.CoordinatesOrder` | ku/src/allocator/quarry.rs:461-468 | counting blocks and walking slabs agree on the order |
| `FixedSize.SizeClass.StockUp` | ku/src/allocator/fixed_size.rs:204-256 | more free blocks up to the capacity, no block changes hands, and the answer is the growth of the pages mapped for blocks and bitmap; it fails exactly when pages were refused; then used blocks stay used and backed, counters stay, and either no block was added or pages for the added ones are lacking |
| `FixedSize.StockUpShort` | ku/src/allocator/fixed_size.rs:229-240 | if it fails after the bitmap was extended then the bitmap counts as free a block that is not backed if and only if a page that holds bytes of the counted blocks is not mapped; and always, for sizes that leave less than a page over at the end of a slab |
| `FixedSize.StockAndUnmap` | ku/src/allocator/fixed_size.rs:204-302 | over any number of successful stock-ups the frames taken are those of that many blocks, and are the frames `unmap` gives back; it fails exactly when pages were refused |
| `FixedSize.SizeClass.Allocate` | ku/src/allocator/fixed_size.rs:81-100 | a block not in use, never null; none exactly when no block is free |
| `FixedSize.SizeClass.Deallocate` | ku/src/allocator/fixed_size.rs:318-332 | the block is found and was not free; exactly it becomes free |
| `FixedSize.SizeClass.FillClip` | ku/src/allocator/fixed_size.rs:136-171 | free blocks move to the clip behind those there, up to the length asked for or as many as are free; none comes out |
| `FixedSize.SizeClass.UnfillClip` | ku/src/allocator/fixed_size.rs:175-190 | cached blocks are freed from the end until the length asked for is left |
| `FixedSize.SizeClass.PopClip` | ku/src/allocator/cache.rs:21-43 | the last cached block, which was not out |
| `FixedSize.SizeClass.PushClip` | ku/src/allocator/cache.rs:171-178 | the block is cached; clip length stays within its capacity |
| `FixedSize.SizeClass.Unmap` | ku/src/allocator/fixed_size.rs:273-302 | with nothing out every page goes back and the page counter by as many |
| `FixedSize.TakenMapped` | ku/src/allocator/fixed_size.rs:204-256 | every byte of every block in use is on a mapped page |
| `Cache.Threads.Step` | ku/src/allocator/dispatcher.rs:204-381 | what each critical section does to clip, lock, phases, callers and answers; null for want of pages is answered only under the lock, with no block free and pages refused; and each keeps: used blocks are in the clip, with callers, or in the hand of a running call, in one place only |
| `Cache.Run` | ku/src/allocator/dispatcher.rs:204-381 | for every interleaving of any number of threads the trace is one an allocator without a cache could give: no address given out twice, refusal only when all blocks are out; at the end the used blocks are the disjoint union of clip, callers and running calls. The trace is that of the turns taken, section by section; the run fails exactly when pages were refused |
| `Cache.SectionFails` | ku/src/allocator/dispatcher.rs:230-238 | only a section that was refused pages ends the run |
| `Cache.Alone` | ku/src/allocator/dispatcher.rs:204-381 | a call whose sections are not interrupted is answered within four turns: the last block of the clip at once if there is one, else a block, or null with all blocks out or pages refused; a block held is always taken back |
| `Cache.Threads.FillAndPop` | ku/src/allocator/dispatcher.rs:240-258 | after stocking up and filling there is a block, unless all are out |
| `Cache.Threads.UnfillAndPush` | ku/src/allocator/dispatcher.rs:338-364 | after unfilling there is always room |
| `Info.MinusUndoesPlus` | ku/src/allocator/info.rs:177-187 | subtraction succeeds exactly on sums and undoes them |
| `Info.DetailedIsValid` | ku/src/allocator/dispatcher.rs:624-651 | answers yes if and only if all parts are valid and the total is fallback plus the sum over all size classes |
| `Books.PagesHold` | ku/src/allocator/info.rs:99-107 | the blocks of a size class fit the pages mapped for them |
| `Dispatcher.BooksBalance` | ku/src/allocator/dispatcher.rs:99-109 | in every quiescent state the total is the sum of the parts and every part is valid |
| `Dispatcher.Serve` | ku/src/allocator/dispatcher.rs:422-572 | after any sequence of alloc, dealloc and realloc, `DetailedInfo::is_valid` answers yes, and the live blocks are those that the answers, request by request, leave with the caller |
| `Dispatcher.Dispatcher.Unmap` | ku/src/allocator/dispatcher.rs:117-150 | with all blocks freed its assertions hold and the page balance ends at zero |
| `Dispatcher.Dispatcher.Detailed` | ku/src/allocator/dispatcher.rs:99-109 | a copy of all counters |
| `Layouts.ClassServes` | ku/src/allocator/dispatcher.rs:156-172 | the class size covers the request and is a multiple of its alignment, which divides the page size |
| `Layouts.ClassSmallest` | ku/src/allocator/dispatcher.rs:156-172 | no smaller class would do |
| `Layouts.ClassWhen` | ku/src/allocator/dispatcher.rs:156-172 | there is a class if and only if the least size that serves the request is at most 16376 and no multiple of the page size, and then its blocks have that size |
| `Layouts.BlocksAligned` | ku/src/allocator/dispatcher.rs:156-172 | every block address of the class is a multiple of the alignment |
| `Dispatcher.Obtain` | ku/src/allocator/dispatcher.rs:204-289 | a block that was not out, the pages stocked up being counted; none exactly when all blocks of the class are out; if stocking up fails then the blocks out are the same and nothing is lost; it fails exactly when pages were refused |
| `Dispatcher.Surrender` | ku/src/allocator/dispatcher.rs:300-381 | the block is not out any more |
| `Dispatcher.Dispatcher.Alloc` | ku/src/allocator/dispatcher.rs:422-434 | one more live block of that layout, starting at a multiple of the alignment asked for; invariants of placement and statistics kept; if stocking up fails then the live blocks are the same and their pages are still mapped; null only if all blocks of the class are out, or pages were refused |
| `Dispatcher.Dispatcher.Dealloc` | ku/src/allocator/dispatcher.rs:437-458 | exactly that block is not live any more |
| `Dispatcher.Dispatcher.BigAllocate` | ku/src/allocator/dispatcher.rs:182-199 | one more live block, on pages that nobody had; none exactly when pages were refused |
| `Dispatcher.Dispatcher.Realloc` | ku/src/allocator/dispatcher.rs:483-572 | on all five routes the new block is aligned and starts with the first min(old, new) bytes, every other live block keeps all its bytes, and on failure so does the old one, whatever memory the page tables may show after a move. Within a class, and on pages when the number of pages does not grow, the block stays where it is and there is always an answer; on pages it stays exactly when it can; null only if all blocks of the new class are out, pages were refused, or the new size passes the end of the address space |
| `Dispatcher.LiveApart` | ku/src/allocator/dispatcher.rs:422-572 | live blocks share no byte |
| `Dispatcher.LiveAligned` | ku/src/allocator/dispatcher.rs:422-572 | live blocks start at multiples of the alignment asked for |
| `Dispatcher.LiveMapped` | ku/src/allocator/dispatcher.rs:422-572 | every byte of a live block is on a mapped page |
| `PageBlocks.ResizePages` | ku/src/allocator/big.rs:362-429 | the block stays exactly when shrunk or when the next pages are free, else moves, aligned, to pages that nobody had; it fails only if pages were refused or the size passes the end of the half |
| `PageBlocks.BlockAccepted` | ku/src/allocator/big.rs:450-466 | a block given out is recovered from its address and size, so freeing it does not panic |
| `PageBlocks.TakePages` | ku/src/allocator/big.rs:333-346 | reserved and mapped pages that nobody had; others are not touched; fails exactly when pages were refused |
| `PageBlocks.GivePages` | ku/src/allocator/big.rs:348-360 | neither unmapping nor unreserving can fail |
| `ProcessTable.Table.constructor` | kernel/src/process/table.rs:81-102 | the free chain holds every slot, in order |
| `ProcessTable.Table.Allocate` | kernel/src/process/table.rs:106-131 | an id never given out before; fails exactly when all slots are used |
| `ProcessTable.Table.Free` | kernel/src/process/table.rs:137-171 | succeeds exactly for ids given out and not freed; the slot gets a newer epoch and is the next to be used, other slots are as before |
| `ProcessTable.Table.Get` | kernel/src/process/table.rs:177-195 | resolves exactly those ids, to the process of that id |
| `ProcessTable.Scheduler.RunOne` | kernel/src/process/scheduler.rs:44-59 | runs the first id if it still resolves, requeues it at the end if preempted, and drops a stale one |
| `ProcessTable.Scheduler.Enqueue` | kernel/src/process/scheduler.rs:79-81 | the id goes to the end of the queue |
| `ProcessTable.Scheduler.Dequeue` | kernel/src/process/scheduler.rs:84-88 | the id at the front, none exactly when the queue is empty |
| `ProcessTable.Play` | kernel/src/process/table.rs:106-195 | over every run no id is given out twice, none is freed twice, and only ids given out and not freed run; every action has exactly its effect on log, queue and number of processes |
| `Grid.Grid.Print` | text/src/grid.rs:282-406 | after any text the buffer is the last rows of the unbounded page the text makes, and the position is in range |
| `Grid.Grid.PrintCharacter` | text/src/grid.rs:282-293 | one character does to the screen what it does to the page |
| `Grid.Grid.Scroll` | text/src/grid.rs:300-311 | one row up, the last row blank |
| `Grid.Grid.AdjustPosition` | text/src/grid.rs:318-328 | wrapping and scrolling are going on to the next row of the page |
| `Grid.Grid.Newline` | text/src/grid.rs:364-374 | the rest of the row is blanked and the next row starts |
| `Grid.Grid.Tab` | text/src/grid.rs:379-406 | prints blanks up to the tab stop |
| `Grid.Grid.Clear` | text/src/grid.rs:260-272 | exactly the range is blanked |
| `Grid.Grid.Init` | text/src/grid.rs:239-255 | the position is the least one past the cursor and past everything displayed; a full screen is scrolled; what is displayed stays |
| `Grid.Grid.PrintedDataEnd` | text/src/grid.rs:444-458 | the least position past the cursor and past everything displayed |
| `Grid.Grid.SetPosition` | text/src/grid.rs:216-222 | the position asked for; the page is unchanged |
| `Grid.TabStopLaw` | text/src/grid.rs:379-390 | one to `tab_width` blanks, ending at a multiple of it or at the end of the row |
| `Grid.TextStands` | text/src/grid.rs:338-360 | printable text stands on the page from the position on, running over from row to row |
| `Grid.CharacterStands` | text/src/grid.rs:338-360 | any character but tab, newline and carriage return changes exactly one cell, which becomes a question mark unless the low octet is printable |
| `Grid.ReturnStands` | text/src/grid.rs:282-293 | a carriage return changes no cell and goes to column 0, so that text after it stands from the start of the row |
| `Grid.NewlineStands` | text/src/grid.rs:364-374 | a newline blanks the rest of the row, touches nothing else, and goes to the start of the next row |
| `Grid.TabStands` | text/src/grid.rs:379-406 | a tab puts blanks up to the tab stop, touches nothing else, and goes there |
| `Grid.TypedOk` | text/src/grid.rs:282-406 | rows above the position are never changed, and the row start stays a multiple of the width |
| `Grid.DisplayedWhen` | text/src/grid.rs:338-348 | the documented choice between character and question mark holds if and only if the character is below 256, or its low octet is unprintable or a question mark |
| `Grid.DisplayedFails` | text/src/grid.rs:338-348 | a letter for which it does not |

## Left out

- Translation lookaside buffers, the accessed and dirty bits that the processor sets, and the memory ordering of `AtomicInfo`.
- Reference counts of huge pages: the source does not count them, so neither does the model.
- Trees with recursive entries, except in `Phys2Virt`, `Iterator` and `Stray`: a forest with one is shared, and the
  operations on mappings are proved for unshared forests.
- Duplicate.DuplicateThenDrop: says nothing if the duplicate fails, since the memory system may then be inconsistent;
  `Duplicate.Duplicate` says when it is not. Runs do not include writes of programs to their pages, frame 0 among them.
- Which of the two page allocators of an address space serves a call; the model has one.
- Cache.Run: ends at the first failed `stock_up`, since from then on the size class may hand out blocks that are not backed
  (`FixedSize.StockUpShort`). `Cache.Threads.Step` and `Dispatcher.Serve` stop there too, with `failed` set or `ok` false.
- Dispatcher.Dispatcher.Realloc: works on memory by virtual address. After pages were moved, memory may be any that
  `Contents.BytesMoved` allows, which is what `Big.GrownMoves` and `Big.ShrunkMoves` prove of the page tables.
- What is in newly mapped pages that are not zeroed, as seen by `Dispatcher`.
- Turning a block into a slice, which fails for page 0 only.
- Fallback.Fallback.Map: which frames are used, and when they run out, is left open; it may fail at any time part-way, and
  counts its failures. When mapping fails on the page tables is said by `AddressSpace.MapBlock`.
- The dispatcher without a cache: its two operations are `FixedSize.SizeClass.Allocate` and `FixedSize.SizeClass.Deallocate`.
- `alloc_zeroed`, whose zeroing is one more write to the new block.
- The bitmap's words are modelled by their bits and the slab array by a sequence; both are updated as values.
- `Clip::bind` and the owner field: a clip belongs to one size class throughout.
- `steps_between` and the rest of the page arithmetic for frames, which have no hole.
- Epochs are unbounded; the kernel stops when one would exceed 32 bits. What a process does while it runs is not modelled.
- `Grid::log_printed_data` copies the screen to a serial port; only its effect on the position is modelled.
- File systems, system calls, devices, interrupts, logging and formatting.
