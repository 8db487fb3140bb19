/** The linear map of all physical memory by 1 GiB pages, built through a recursive root entry. */
module Phys2Virt {
  import opened Mmu
  import opened Addr
  import opened Frage
  import opened PageAllocator
  import opened FrameAllocator

  const GIB := 0x4000_0000
  const FRAMES_PER_GIB := 0x4_0000
  const FIRST_ROOT_ENTRY := 256
  const KERNEL_ROOT_LEVEL_ENTRY_COUNT := 32
  const KERNEL_RW: Flags := {Present, Writable}

  /** What the processor makes of an address: section 4.5 of the Intel SDM, volume 3A. */
  function Walk(mem: Memory, node: nat, level: nat, v: nat): Option<nat>
    decreases level
  {
    if node >= |mem| then None
    else
      var e := mem[node][PageTableIndex(v, level)];
      if !e.IsPresent() then None
      else if level == 0 then Some(e.frame * PAGE_SIZE + v % PAGE_SIZE)
      else if !e.IsHuge() then Walk(mem, e.frame, level - 1, v)
      else if level == 1 then Some(e.frame * PAGE_SIZE + v % L1_SIZE)
      else if level == 2 then Some(e.frame * PAGE_SIZE + v % L2_SIZE)
      else None
  }

  /** All entries that the processor goes through grant the right. */
  predicate Permits(mem: Memory, node: nat, level: nat, v: nat, right: Flag)
    decreases level
  {
    && node < |mem|
    && var e := mem[node][PageTableIndex(v, level)];
    && e.IsPresent() && right in e.flags
    && (level == 0 || e.IsHuge() || Permits(mem, e.frame, level - 1, v, right))
  }

  predicate Leads(e: Pte, frame: nat) { e.IsPresent() && !e.IsHuge() && e.frame == frame }

  /** Entry `recursive` of the root leads back to the root. */
  predicate Recursive(mem: Memory, root: nat, recursive: nat) {
    root < |mem| && recursive < ENTRY_COUNT && Leads(mem[root][recursive], root)
  }

  // ---------------------------------------------------------------------------------------------
  // Nodes through the recursive entry

  /** `Phys2Virt::node()`: the address where node `index` is seen, or none when forming the block of one page there
      fails, which the kernel does not survive. */
  function Node(index: nat, recursive: nat): Option<nat>
    requires index < ENTRY_COUNT && recursive < ENTRY_COUNT
  {
    var idx := [index, recursive, recursive, recursive];
    IndexesRoundTrip(idx, 0);
    var v := Canonize(Bits(idx, 0));
    if Add(v, PAGE_SIZE).Err? then None else Some(v)
  }

  /** It fails exactly at the last page of the address space. */
  lemma NodeWhen(index: nat, recursive: nat)
    requires index < ENTRY_COUNT && recursive < ENTRY_COUNT
    ensures Node(index, recursive).Some? <==> !(index == recursive == 511)
    ensures Node(index, recursive).Some? ==>
      var v := Node(index, recursive).value;
      && v % PAGE_SIZE == 0 && PageTableIndex(v, 0) == index
      && PageTableIndex(v, 1) == PageTableIndex(v, 2) == PageTableIndex(v, 3) == recursive
  {
    var idx := [index, recursive, recursive, recursive];
    hide PageTableIndex, Add;
    IndexesRoundTrip(idx, 0);
    var v := Canonize(Bits(idx, 0));
    AddWithinHalf(v, PAGE_SIZE);
    NodeEnd(index, recursive);
    assert idx[0] == index && idx[1] == idx[2] == idx[3] == recursive;
  }

  lemma NodeEnd(index: nat, recursive: nat)
    requires index < ENTRY_COUNT && recursive < ENTRY_COUNT
    ensures (
      var b := Bits([index, recursive, recursive, recursive], 0);
      var v := Canonize(b);
      v + PAGE_SIZE < (if Lower(v) then HALF else WORD) <==> !(index == recursive == 511))
  {
    var b := Bits([index, recursive, recursive, recursive], 0);
    assert b == recursive * (0x1000 * (0x800_0000 + 0x4_0000 + 0x200)) + index * 0x1000;
    assert b < SPAN && b % SPAN == b;
  }

  /** The address of a node leads to it. */
  lemma NodeReached(mem: Memory, root: nat, recursive: nat, index: nat, frame: nat)
    requires Recursive(mem, root, recursive) && index < ENTRY_COUNT && Leads(mem[root][index], frame)
    requires Node(index, recursive).Some?
    ensures Walk(mem, root, ROOT_LEVEL, Node(index, recursive).value) == Some(frame * PAGE_SIZE)
  {
    NodeWhen(index, recursive);
    var v := Node(index, recursive).value;
    hide PageTableIndex, Node;
    assert Walk(mem, root, 0, v) == Some(frame * PAGE_SIZE);
    assert Walk(mem, root, 1, v) == Walk(mem, root, 0, v);
    assert Walk(mem, root, 2, v) == Walk(mem, root, 1, v);
  }

  // ---------------------------------------------------------------------------------------------
  // The linear map

  /** The entry of 1 GiB page number `g`. */
  function HugeEntry(g: nat): Pte { Pte(g * FRAMES_PER_GIB, KERNEL_RW + {Huge, Present}) }

  function GibEntry(g: nat, count: nat): Pte { if g < count then HugeEntry(g) else EMPTY }

  /** Root entry `256 + i` leads to a node for the 1 GiB pages from number `512 * i` on. */
  ghost predicate Filled(mem: Memory, root: nat, i: nat, count: nat) {
    && root < |mem| && FIRST_ROOT_ENTRY + i < ENTRY_COUNT
    && var e := mem[root][FIRST_ROOT_ENTRY + i];
    && Leads(e, e.frame) && e.frame < |mem|
    && forall j :: 0 <= j < ENTRY_COUNT ==> mem[e.frame][j] == GibEntry(ENTRY_COUNT * i + j, count)
  }

  lemma LinearIndexes(p: nat)
    requires p < HALF
    ensures (
      var v := WORD - HALF + p;
      && PageTableIndex(v, 3) == FIRST_ROOT_ENTRY + p / (GIB * 512)
      && PageTableIndex(v, 2) == (p / GIB) % 512 && v % L2_SIZE == p % GIB
      && p / GIB == 512 * (p / (GIB * 512)) + (p / GIB) % 512)
  {
    hide PageTableIndex;
    RootIndex(p);
    GibIndex(p);
    assert WORD - HALF == 0x3_FFFE_0000 * GIB;
    assert (p + 0x3_FFFE_0000 * GIB) % GIB == p % GIB;
    assert p / GIB == 512 * (p / (GIB * 512)) + (p / GIB) % 512;
  }

  lemma RootIndex(p: nat)
    requires p < HALF
    ensures PageTableIndex(WORD - HALF + p, 3) == FIRST_ROOT_ENTRY + p / (GIB * 512)
  {
    IndexModSpan(HALF + p, 3);
    ReachValues();
    assert (HALF + p) / 0x80_0000_0000 == 256 + p / 0x80_0000_0000;
  }

  lemma GibIndex(p: nat)
    requires p < HALF
    ensures PageTableIndex(WORD - HALF + p, 2) == (p / GIB) % 512
  {
    IndexModSpan(HALF + p, 2);
    ReachValues();
    assert (HALF + p) / 0x4000_0000 == 0x2_0000 + p / 0x4000_0000;
  }

  /** From the linear map of `p` the processor arrives at `p`. */
  lemma LinearWalk(mem: Memory, root: nat, count: nat, p: nat)
    requires p < HALF && p / GIB < count && Filled(mem, root, p / (GIB * 512), count)
    ensures Walk(mem, root, ROOT_LEVEL, WORD - HALF + p) == Some(p)
  {
    var v, i, j := WORD - HALF + p, p / (GIB * 512), (p / GIB) % 512;
    LinearIndexes(p);
    hide PageTableIndex;
    var e := mem[root][FIRST_ROOT_ENTRY + i];
    assert mem[e.frame][j] == HugeEntry(p / GIB);
    assert Walk(mem, e.frame, 2, v) == Some((p / GIB) * FRAMES_PER_GIB * PAGE_SIZE + p % GIB);
  }

  predicate LinearPermits(mem: Memory, root: nat, p: nat, right: Flag) {
    Permits(mem, root, ROOT_LEVEL, WORD - HALF + p, right)
  }

  /** What the linear map of `p` may be used for: the kernel writes there if the root entry lets it, and the user has
      no access. */
  lemma LinearRights(mem: Memory, root: nat, count: nat, p: nat)
    requires p < HALF && p / GIB < count && Filled(mem, root, p / (GIB * 512), count)
    ensures !LinearPermits(mem, root, p, User)
    ensures LinearPermits(mem, root, p, Writable) <==>
      Writable in mem[root][FIRST_ROOT_ENTRY + p / (GIB * 512)].flags
  {
    var v, i, j := WORD - HALF + p, p / (GIB * 512), (p / GIB) % 512;
    LinearIndexes(p);
    hide PageTableIndex;
    var e := mem[root][FIRST_ROOT_ENTRY + i];
    assert mem[e.frame][j] == HugeEntry(p / GIB);
    forall right: Flag ensures Permits(mem, e.frame, 2, v, right) <==> right in HugeEntry(p / GIB).flags { }
  }

  // ---------------------------------------------------------------------------------------------
  // Building it

  /** The flags of a root entry once it leads to a node: an entry that was there keeps its own. */
  function RootFlags(was: Pte): Flags { if was.IsPresent() then was.flags else KERNEL_RW }

  /** Root entries from `lo` to `hi` that are present, the recursive one aside, lead to different nodes, which are
      not the root nor free. */
  ghost predicate Tidy(mem: Memory, root: nat, info: seq<FrameInfo>, lo: nat, hi: nat, recursive: nat) {
    && |info| <= |mem| && root < |mem| && hi <= ENTRY_COUNT && (root < |info| ==> !info[root].Free?)
    && (forall i :: lo <= i < hi && i != recursive && mem[root][i].IsPresent() ==>
          !mem[root][i].IsHuge() && IsNode(mem, root, info, mem[root][i].frame))
    && (forall i, j ::
          && lo <= i < j < hi && i != recursive && j != recursive
          && mem[root][i].IsPresent() && mem[root][j].IsPresent() ==>
          mem[root][i].frame != mem[root][j].frame)
  }

  ghost predicate IsNode(mem: Memory, root: nat, info: seq<FrameInfo>, f: nat) {
    f < |mem| && f != root && (f < |info| ==> !info[f].Free?)
  }

  /** Entries of `lo .. hi` that are not present. */
  function Missing(t: Table, lo: nat, hi: nat): nat
    requires lo <= hi <= ENTRY_COUNT
  {
    if lo == hi then 0 else Missing(t, lo, hi - 1) + if t[hi - 1].IsPresent() then 0 else 1
  }

  lemma {:induction false} MissingSame(t: Table, t': Table, lo: nat, hi: nat)
    requires lo <= hi <= ENTRY_COUNT && forall i :: lo <= i < hi ==> t'[i] == t[i]
    ensures Missing(t', lo, hi) == Missing(t, lo, hi)
  {
    if lo < hi { MissingSame(t, t', lo, hi - 1); }
  }

  lemma {:induction false} MissingGrows(t: Table, lo: nat, mid: nat, hi: nat)
    requires lo <= mid <= hi <= ENTRY_COUNT
    ensures Missing(t, lo, mid) <= Missing(t, lo, hi)
    decreases hi
  {
    if mid < hi { MissingGrows(t, lo, mid, hi - 1); }
  }

  /** What becomes of a call: it returns, it panics, or it touches an address that leads nowhere. */
  datatype Outcome<+T> = Done(value: T) | Panicked | Faulted

  /** The root has no entries left, the recursive one included. */
  predicate Emptied(mem: Memory, root: nat) { root < |mem| && mem[root] == EMPTY_TABLE }

  /** With the root emptied no address leads anywhere. */
  lemma EmptiedRoot(mem: Memory, root: nat, v: nat)
    requires Emptied(mem, root)
    ensures Walk(mem, root, ROOT_LEVEL, v) == None
  {
    assert !EMPTY.IsPresent();
    assert PageTableIndex(v, ROOT_LEVEL) < ENTRY_COUNT;
  }

  /** Page tables of the booting kernel, seen through the recursive entry. */
  class BootTables {
    const root: nat
    const frames: FrameAllocator
    var mem: Memory

    constructor (root: nat, frames: FrameAllocator, mem: Memory)
      ensures this.root == root && this.frames == frames && this.mem == mem
    {
      this.root, this.frames, this.mem := root, frames, mem;
    }

    /** The frame that an access to node `index` goes to. */
    method NodeFrame(index: nat, recursive: nat) returns (r: Outcome<nat>)
      requires index < ENTRY_COUNT && recursive < ENTRY_COUNT
      ensures r.Panicked? <==> index == recursive == 511
      ensures Recursive(mem, root, recursive) && mem[root][index].Counted() && !r.Panicked? ==>
        r == Done(mem[root][index].frame)
      ensures Emptied(mem, root) && !r.Panicked? ==> r.Faulted?
    {
      hide Node, Walk;
      NodeWhen(index, recursive);
      var v := Node(index, recursive);
      if v.None? {
        return Panicked;
      }
      if Recursive(mem, root, recursive) && mem[root][index].Counted() {
        NodeReached(mem, root, recursive, index, mem[root][index].frame);
      }
      if Emptied(mem, root) {
        EmptiedRoot(mem, root, v.value);
      }
      var phys := Walk(mem, root, ROOT_LEVEL, v.value);
      r := if phys.None? then Faulted else Done(phys.value / PAGE_SIZE);
    }

    /** `Phys2Virt::allocate_root_entry()`: the entry leads to an empty node. For the recursive entry this node is the
        root itself, which is emptied; an emptied root cannot be reached again. */
    method AllocateRootEntry(entry: nat, recursive: nat, ghost lo: nat, ghost hi: nat)
      returns (r: Outcome<Result<()>>)
      requires frames.Valid() && recursive < ENTRY_COUNT && lo <= entry < hi <= ENTRY_COUNT
      requires Emptied(mem, root) ||
        (Recursive(mem, root, recursive) && Tidy(mem, root, frames.info, lo, hi, recursive))
      modifies this`mem, frames
      ensures frames.Valid() && |mem| == |old(mem)|
      ensures r.Panicked? <==> recursive == 511
      ensures r.Faulted? <==> Emptied(old(mem), root) && recursive != 511
      ensures !r.Done? ==> mem == old(mem)
      ensures r.Done? && entry == recursive ==>
        r.value.Ok? && mem == old(mem)[root := EMPTY_TABLE] && frames.freeCount == old(frames.freeCount)
      ensures r.Done? && entry != recursive ==>
        && Recursive(mem, root, recursive) && Tidy(mem, root, frames.info, lo, hi, recursive)
        && (r.value.Err? <==> !old(mem)[root][entry].IsPresent() && old(frames.freeCount) == 0)
        && (r.value.Err? ==> r.value.error == NoFrame && mem == old(mem))
        && (r.value.Ok? ==>
              && mem[root][entry].Counted() && mem[mem[root][entry].frame] == EMPTY_TABLE
              && mem[root][entry].flags == RootFlags(old(mem)[root][entry])
              && frames.freeCount == old(frames.freeCount) - if old(mem)[root][entry].IsPresent() then 0 else 1)
        && (forall i :: 0 <= i < ENTRY_COUNT && i != entry ==> mem[root][i] == old(mem)[root][i])
    {
      EmptyNotRecursive(mem, root, recursive);
      var table := NodeFrame(recursive, recursive);
      if !table.Done? {
        return if table.Panicked? then Panicked else Faulted;
      }
      if !mem[table.value][entry].IsPresent() {
        var frame := frames.Allocate();
        if frame.None? {
          return Done(Err(NoFrame));
        }
        mem := mem[table.value := mem[table.value][entry := Pte.Of(frame.value, KERNEL_RW)]];
      }
      var node := NodeFrame(entry, recursive);
      mem := mem[node.value := EMPTY_TABLE];
      r := Done(Ok(()));
    }

    /** Writes node `frame` whole: entries for 1 GiB pages from number `first` on, and empty ones after the last. */
    method FillNode(frame: nat, first: nat, count: nat)
      requires frame < |mem| && first <= count
      modifies this`mem
      ensures |mem| == |old(mem)| && mem == old(mem)[frame := mem[frame]]
      ensures forall j :: 0 <= j < ENTRY_COUNT ==> mem[frame][j] == GibEntry(first + j, count)
    {
      var toFill := if count - first < ENTRY_COUNT then count - first else ENTRY_COUNT;
      for j := 0 to toFill
        invariant |mem| == |old(mem)| && mem == old(mem)[frame := mem[frame]]
        invariant forall k :: 0 <= k < j ==> mem[frame][k] == GibEntry(first + k, count)
      {
        mem := mem[frame := mem[frame][j := HugeEntry(first + j)]];
      }
      for j := toFill to ENTRY_COUNT
        invariant |mem| == |old(mem)| && mem == old(mem)[frame := mem[frame]]
        invariant forall k :: 0 <= k < j ==> mem[frame][k] == GibEntry(first + k, count)
      {
        mem := mem[frame := mem[frame][j := EMPTY]];
      }
    }

    /** The first loop of `Phys2Virt::fill_entries()`. */
    method AllocateRootEntries(n: nat, recursive: nat) returns (r: Outcome<Result<()>>)
      requires frames.Valid() && n <= 256 && Recursive(mem, root, recursive)
      requires Tidy(mem, root, frames.info, FIRST_ROOT_ENTRY, FIRST_ROOT_ENTRY + n, recursive)
      modifies this`mem, frames
      ensures frames.Valid()
      ensures r.Panicked? <==> n > 0 && recursive == 511
      ensures n == 0 ==> r == Done(Ok(()))
      ensures OutOfTheWay(recursive, n) ==>
        && r.Done? && Recursive(mem, root, recursive)
        && (r.value.Ok? <==> Missing(old(mem)[root], FIRST_ROOT_ENTRY, FIRST_ROOT_ENTRY + n) <= old(frames.freeCount))
        && (r.value.Err? ==> r.value.error == NoFrame)
        && (r.value.Ok? ==>
              && Allocated(mem, root, frames.info, n, recursive) && Opened(old(mem)[root], mem[root], n)
              && old(frames.freeCount) ==
                 frames.freeCount + Missing(old(mem)[root], FIRST_ROOT_ENTRY, FIRST_ROOT_ENTRY + n))
      ensures recursive != 511 && FIRST_ROOT_ENTRY <= recursive < FIRST_ROOT_ENTRY + n ==>
        if Missing(old(mem)[root], FIRST_ROOT_ENTRY, recursive) <= old(frames.freeCount)
        then Emptied(mem, root) && (r.Faulted? || r == Done(Ok(())))
        else r == Done(Err(NoFrame))
    {
      hide Tidy, Missing;
      ghost var lo, hi, was := FIRST_ROOT_ENTRY, FIRST_ROOT_ENTRY + n, mem[root];
      MissingNone(was, lo);
      for i := 0 to n
        invariant frames.Valid() && root < |mem| && (i > 0 ==> recursive != 511)
        invariant lo <= recursive < lo + i ==>
          Emptied(mem, root) && Missing(was, lo, recursive) <= old(frames.freeCount)
        invariant !(lo <= recursive < lo + i) ==>
          && Recursive(mem, root, recursive) && Tidy(mem, root, frames.info, lo, hi, recursive)
          && (forall k :: lo <= k < lo + i ==> mem[root][k].Counted() && mem[root][k].flags == RootFlags(was[k]))
          && (forall k :: lo + i <= k < ENTRY_COUNT ==> mem[root][k] == was[k])
          && old(frames.freeCount) == frames.freeCount + Missing(was, lo, lo + i)
      {
        var a := AllocateRootEntry(FIRST_ROOT_ENTRY + i, recursive, lo, hi);
        MissingNext(was, lo, lo + i);
        if !a.Done? || a.value.Err? {
          MissingGrows(was, lo, lo + i + 1, hi);
          if lo + i < recursive < hi { MissingGrows(was, lo, lo + i + 1, recursive); }
          return a;
        }
      }
      r := Done(Ok(()));
    }

    /** `Phys2Virt::fill_entries()`. */
    method FillEntries(n: nat, count: nat, recursive: nat) returns (r: Outcome<Result<()>>)
      requires frames.Valid() && Recursive(mem, root, recursive) && n == RootEntries(count) <= 256
      requires Tidy(mem, root, frames.info, FIRST_ROOT_ENTRY, FIRST_ROOT_ENTRY + n, recursive)
      modifies this`mem, frames
      ensures frames.Valid()
      ensures r.Panicked? <==> n > 0 && recursive == 511
      ensures n == 0 ==> r == Done(Ok(()))
      ensures OutOfTheWay(recursive, n) ==>
        && r.Done?
        && (r.value.Ok? <==> Missing(old(mem)[root], FIRST_ROOT_ENTRY, FIRST_ROOT_ENTRY + n) <= old(frames.freeCount))
        && (r.value.Err? ==> r.value.error == NoFrame)
        && (r.value.Ok? ==> forall k: nat :: k < n ==> Filled(mem, root, k, count))
        && (r.value.Ok? ==> root < |mem| && Opened(old(mem)[root], mem[root], n))
        && (r.value.Ok? ==>
              old(frames.freeCount) ==
              frames.freeCount + Missing(old(mem)[root], FIRST_ROOT_ENTRY, FIRST_ROOT_ENTRY + n))
      ensures recursive != 511 && FIRST_ROOT_ENTRY <= recursive < FIRST_ROOT_ENTRY + n ==>
        if Missing(old(mem)[root], FIRST_ROOT_ENTRY, recursive) <= old(frames.freeCount)
        then r.Faulted? && Emptied(mem, root)
        else r == Done(Err(NoFrame))
    {
      hide Tidy, Filled, Missing, Allocated;
      r := AllocateRootEntries(n, recursive);
      if !r.Done? || r.value.Err? {
        return;
      }
      if n > 0 {
        if OutOfTheWay(recursive, n) {
          AllocatedShape(mem, root, frames.info, n, recursive);
        }
        // The second loop starts with this access.
        var node := NodeFrame(FIRST_ROOT_ENTRY, recursive);
        if !node.Done? {
          return if node.Panicked? then Panicked else Faulted;
        }
        FillNodes(n, count, recursive);
      }
    }

    /** The second loop of `Phys2Virt::fill_entries()`. */
    method FillNodes(n: nat, count: nat, recursive: nat)
      requires Recursive(mem, root, recursive) && OutOfTheWay(recursive, n) && n == RootEntries(count) <= 256
      requires Allocated(mem, root, frames.info, n, recursive)
      modifies this`mem
      ensures forall k: nat :: k < n ==> Filled(mem, root, k, count)
      ensures root < |mem| && mem[root] == old(mem)[root]
    {
      AllocatedShape(mem, root, frames.info, n, recursive);
      hide Tidy, Filled, Allocated;
      ghost var lo, hi, table := FIRST_ROOT_ENTRY, FIRST_ROOT_ENTRY + n, mem[root];
      var filled := 0;
      for i := 0 to n
        invariant Recursive(mem, root, recursive) && Tidy(mem, root, frames.info, lo, hi, recursive)
        invariant mem[root] == table
        invariant filled == if count < ENTRY_COUNT * i then count else ENTRY_COUNT * i
        invariant i < n ==> filled == ENTRY_COUNT * i < count
        invariant forall k: nat :: k < i ==> Filled(mem, root, k, count)
      {
        ghost var before := mem;
        var node := NodeFrame(FIRST_ROOT_ENTRY + i, recursive);
        NodeAt(mem, root, frames.info, lo, hi, recursive, lo + i);
        FillNode(node.value, filled, count);
        FillStep(before, mem, root, frames.info, n, i, count, recursive);
        filled := filled + if count - filled < ENTRY_COUNT then count - filled else ENTRY_COUNT;
        if filled >= count {
          assert i + 1 == n;
          break;
        }
      }
    }

    /** `Phys2Virt::make()`, for memory that starts at frame 0. Each error comes exactly under its condition. The
        linear map is built if and only if the recursive entry is accepted, is not the last of the root, is not among
        those to be filled, the root has room, and the free frames suffice for the missing nodes. */
    method Make(frameCount: nat, recursive: nat) returns (r: Outcome<Result<Phys2Virt>>)
      requires frames.Valid()
      requires Accepted(recursive) && RootEntries(Gibs(frameCount)) <= 256 ==>
        && Recursive(mem, root, recursive)
        && Tidy(mem, root, frames.info, FIRST_ROOT_ENTRY, FIRST_ROOT_ENTRY + RootEntries(Gibs(frameCount)), recursive)
      modifies this`mem, frames
      ensures frames.Valid()
      ensures r == Done(Err(InvalidArgument)) <==> recursive == 0 || recursive >= ENTRY_COUNT
      ensures r == Done(Err(PermissionDenied)) <==> KERNEL_ROOT_LEVEL_ENTRY_COUNT <= recursive < FIRST_ROOT_ENTRY
      ensures r == Done(Err(NoPage)) <==> Accepted(recursive) && RootEntries(Gibs(frameCount)) > ENTRY_COUNT / 2
      ensures r == Done(Err(NoFrame)) <==>
        && Accepted(recursive) && RootEntries(Gibs(frameCount)) <= 256 && frameCount > 0 && recursive != 511
        && old(frames.freeCount) < Missing(
             old(mem)[root], FIRST_ROOT_ENTRY,
             if OutOfTheWay(recursive, RootEntries(Gibs(frameCount)))
             then FIRST_ROOT_ENTRY + RootEntries(Gibs(frameCount)) else recursive)
      ensures r.Done? && r.value.Err? ==> r.value.error in {InvalidArgument, PermissionDenied, NoPage, NoFrame}
      ensures r.Panicked? <==>
        Accepted(recursive) && RootEntries(Gibs(frameCount)) <= 256 && (frameCount == 0 || recursive == 511)
      ensures r.Done? && r.value.Ok? <==>
        && Accepted(recursive) && RootEntries(Gibs(frameCount)) <= 256 && frameCount > 0
        && OutOfTheWay(recursive, RootEntries(Gibs(frameCount)))
        && Missing(old(mem)[root], FIRST_ROOT_ENTRY, FIRST_ROOT_ENTRY + RootEntries(Gibs(frameCount)))
             <= old(frames.freeCount)
      ensures r.Done? && r.value.Ok? ==> IsLinear(r.value.value, mem, root, frameCount * PAGE_SIZE)
      ensures r.Done? && r.value.Ok? ==>
        root < |old(mem)| && ForKernel(mem, root, frameCount * PAGE_SIZE, old(mem)[root])
      // The count of frames used is that of the frames taken exactly when no node was there before.
      ensures r.Done? && r.value.Ok? ==>
        && r.value.value.usedFrameCount == RootEntries(Gibs(frameCount)) <= 256
        && frames.freeCount <= old(frames.freeCount) <= frames.freeCount + r.value.value.usedFrameCount
        && (old(frames.freeCount) == frames.freeCount + r.value.value.usedFrameCount <==>
              forall k :: FIRST_ROOT_ENTRY <= k < FIRST_ROOT_ENTRY + r.value.value.usedFrameCount ==>
                !old(mem)[root][k].IsPresent())
      ensures r.Faulted? <==>
        && Accepted(recursive) && RootEntries(Gibs(frameCount)) <= 256 && recursive != 511
        && FIRST_ROOT_ENTRY <= recursive < FIRST_ROOT_ENTRY + RootEntries(Gibs(frameCount))
        && Missing(old(mem)[root], FIRST_ROOT_ENTRY, recursive) <= old(frames.freeCount)
      ensures r.Faulted? ==> forall v: nat :: Walk(mem, root, ROOT_LEVEL, v) == None
    {
      hide Tidy, Filled, IsLinear, Missing, Walk, Gibs, RootEntries, ForKernel;
      if recursive == 0 || recursive >= ENTRY_COUNT {
        return Done(Err(InvalidArgument));
      }
      if KERNEL_ROOT_LEVEL_ENTRY_COUNT <= recursive < FIRST_ROOT_ENTRY {
        return Done(Err(PermissionDenied));
      }
      var count := Gibs(frameCount);
      var n := RootEntries(count);
      if FIRST_ROOT_ENTRY + n > ENTRY_COUNT {
        return Done(Err(NoPage));
      }
      NoMemory(frameCount);
      var filled := FillEntries(n, count, recursive);
      if !filled.Done? {
        if filled.Faulted? {
          forall v: nat ensures Walk(mem, root, ROOT_LEVEL, v) == None { EmptiedRoot(mem, root, v); }
        }
        return if filled.Panicked? then Panicked else Faulted;
      }
      if filled.value.Err? {
        return Done(Err(filled.value.error));
      }
      if n == 0 {
        return Panicked;
      }
      MissingAll(old(mem)[root], FIRST_ROOT_ENTRY, FIRST_ROOT_ENTRY + n);
      var linear := Finish(frameCount, old(mem)[root]);
      r := Done(Ok(linear));
    }

    /** The end of `Phys2Virt::make()`: the block of the linear map. */
    method Finish(frameCount: nat, ghost was: Table) returns (r: Phys2Virt)
      requires 0 < frameCount && RootEntries(Gibs(frameCount)) <= 256
      requires forall k: nat :: k < RootEntries(Gibs(frameCount)) ==> Filled(mem, root, k, Gibs(frameCount))
      requires root < |mem| && Opened(was, mem[root], RootEntries(Gibs(frameCount)))
      ensures r.usedFrameCount == RootEntries(Gibs(frameCount))
      ensures IsLinear(r, mem, root, frameCount * PAGE_SIZE) && ForKernel(mem, root, frameCount * PAGE_SIZE, was)
    {
      hide Filled, IsLinear, Walk, ForKernel;
      HalvesValues(L0_SIZE);
      var start := HigherHalfStart(L0_SIZE);
      BlockInHalf(frameCount);
      var mapping := FromIndexes(start, start + frameCount);
      r := Phys2Virt(mapping.value, RootEntries(Gibs(frameCount)));
      LinearMap(r, mem, root, frameCount);
      KernelOnly(mem, root, frameCount, was);
    }
  }

  /** The recursive entry is usable: not the last one, and not among the `n` entries to be filled. */
  predicate OutOfTheWay(recursive: nat, n: nat) {
    recursive != 511 && !(FIRST_ROOT_ENTRY <= recursive < FIRST_ROOT_ENTRY + n)
  }

  ghost predicate Allocated(mem: Memory, root: nat, info: seq<FrameInfo>, n: nat, recursive: nat) {
    && n <= 256 && Tidy(mem, root, info, FIRST_ROOT_ENTRY, FIRST_ROOT_ENTRY + n, recursive)
    && forall k :: FIRST_ROOT_ENTRY <= k < FIRST_ROOT_ENTRY + n ==> mem[root][k].Counted()
  }

  /** The root entries to be filled have the flags that they had, or those of a writable kernel node. */
  ghost predicate Opened(was: Table, table: Table, n: nat) {
    forall k :: FIRST_ROOT_ENTRY <= k < FIRST_ROOT_ENTRY + n && k < ENTRY_COUNT ==> table[k].flags == RootFlags(was[k])
  }

  lemma AllocatedShape(mem: Memory, root: nat, info: seq<FrameInfo>, n: nat, recursive: nat)
    requires Allocated(mem, root, info, n, recursive)
    ensures root < |mem| && n <= 256 && Tidy(mem, root, info, FIRST_ROOT_ENTRY, FIRST_ROOT_ENTRY + n, recursive)
    ensures forall k :: FIRST_ROOT_ENTRY <= k < FIRST_ROOT_ENTRY + n ==> mem[root][k].Counted()
  {
  }

  lemma EmptyNotRecursive(mem: Memory, root: nat, recursive: nat)
    ensures !(Emptied(mem, root) && Recursive(mem, root, recursive))
  {
  }

  lemma MissingNone(t: Table, lo: nat)
    requires lo <= ENTRY_COUNT
    ensures Missing(t, lo, lo) == 0
  {
  }

  lemma MissingNext(t: Table, lo: nat, hi: nat)
    requires lo <= hi < ENTRY_COUNT
    ensures Missing(t, lo, hi + 1) == Missing(t, lo, hi) + if t[hi].IsPresent() then 0 else 1
  {
  }

  lemma {:induction false} MissingAll(t: Table, lo: nat, hi: nat)
    requires lo <= hi <= ENTRY_COUNT
    ensures Missing(t, lo, hi) <= hi - lo
    ensures Missing(t, lo, hi) == hi - lo <==> forall k :: lo <= k < hi ==> !t[k].IsPresent()
  {
    if lo < hi { MissingAll(t, lo, hi - 1); }
  }

  lemma NoMemory(frameCount: nat)
    ensures RootEntries(Gibs(frameCount)) == 0 <==> frameCount == 0
  {
  }

  lemma NodeAt(mem: Memory, root: nat, info: seq<FrameInfo>, lo: nat, hi: nat, recursive: nat, i: nat)
    requires Tidy(mem, root, info, lo, hi, recursive) && lo <= i < hi && i != recursive && mem[root][i].Counted()
    ensures mem[root][i].frame < |mem| && mem[root][i].frame != root
  {
  }

  lemma BlockInHalf(frameCount: nat)
    requires frameCount > 0 && RootEntries(Gibs(frameCount)) <= 256
    ensures (
      var start := HigherHalfStart(L0_SIZE);
      FromIndexes(start, start + frameCount) == Ok(Block(start, start + frameCount)))
  {
    HalvesValues(L0_SIZE);
    var start := HigherHalfStart(L0_SIZE);
    FromIndexIsPage(L0_SIZE, start);
    FromIndexIsPage(L0_SIZE, start + frameCount - 1);
  }

  /** Writing node `i` does not disturb the nodes before it. */
  lemma FillStep(mem: Memory, after: Memory, root: nat, info: seq<FrameInfo>, n: nat, i: nat, count: nat,
                 recursive: nat)
    requires OutOfTheWay(recursive, n)
    requires FIRST_ROOT_ENTRY + i < FIRST_ROOT_ENTRY + n <= ENTRY_COUNT
    requires Tidy(mem, root, info, FIRST_ROOT_ENTRY, FIRST_ROOT_ENTRY + n, recursive)
    requires forall k :: FIRST_ROOT_ENTRY <= k < FIRST_ROOT_ENTRY + n ==> mem[root][k].Counted()
    requires forall k: nat :: k < i ==> Filled(mem, root, k, count)
    requires |after| == |mem| && mem[root][FIRST_ROOT_ENTRY + i].frame < |mem|
    requires (
      var node := mem[root][FIRST_ROOT_ENTRY + i].frame;
      && after == mem[node := after[node]]
      && forall j :: 0 <= j < ENTRY_COUNT ==> after[node][j] == GibEntry(ENTRY_COUNT * i + j, count))
    ensures Tidy(after, root, info, FIRST_ROOT_ENTRY, FIRST_ROOT_ENTRY + n, recursive)
    ensures forall k: nat :: k < i + 1 ==> Filled(after, root, k, count)
  {
    var e := mem[root][FIRST_ROOT_ENTRY + i];
    assert e.Counted();
    assert after[root] == mem[root];
    forall k: nat | k < i + 1 ensures Filled(after, root, k, count) {
      assert k < i ==> Filled(mem, root, k, count);
      assert k < i ==> mem[root][FIRST_ROOT_ENTRY + k].frame != e.frame;
    }
  }

  /** Number of root entries for so many 1 GiB pages. */
  function RootEntries(count: nat): nat { CeilDiv(count, ENTRY_COUNT) }

  /** The recursive entry is neither out of the root nor in the user's part. */
  predicate Accepted(recursive: nat) {
    0 < recursive < ENTRY_COUNT && !(KERNEL_ROOT_LEVEL_ENTRY_COUNT <= recursive < FIRST_ROOT_ENTRY)
  }

  function Gibs(frameCount: nat): nat { CeilDiv(frameCount * PAGE_SIZE, GIB) }

  /** `Phys2Virt`: where the linear map is. */
  datatype Phys2Virt = Phys2Virt(mapping: Block, usedFrameCount: nat) {
    /** `Phys2Virt::map()`. */
    function Map(phys: nat): Result<nat>
      requires mapping.start * PAGE_SIZE < WORD
    {
      var v := Add(mapping.start * PAGE_SIZE, phys);
      if v.Err? then Err(v.error)
      else if mapping.start * PAGE_SIZE <= v.value < mapping.end * PAGE_SIZE then v else Err(Overflow)
    }
  }

  /** The map covers exactly the memory, and the processor follows it back. */
  ghost predicate IsLinear(m: Phys2Virt, mem: Memory, root: nat, size: nat) {
    && m.mapping.start * PAGE_SIZE < WORD
    && forall p: nat ::
         && (m.Map(p).Ok? <==> p < size)
         && (p < size ==> m.Map(p).Ok? && Walk(mem, root, ROOT_LEVEL, m.Map(p).value) == Some(p))
  }

  /** No address of the linear map is accessible to the user. The kernel can write through it, unless a root entry that
      was there before does not let it. */
  ghost predicate ForKernel(mem: Memory, root: nat, size: nat, was: Table) {
    forall p: nat | p < size ::
      && !LinearPermits(mem, root, p, User)
      && FIRST_ROOT_ENTRY + p / (GIB * 512) < ENTRY_COUNT
      && (LinearPermits(mem, root, p, Writable) <==>
            Writable in RootFlags(was[FIRST_ROOT_ENTRY + p / (GIB * 512)]))
  }

  lemma KernelOnly(mem: Memory, root: nat, frameCount: nat, was: Table)
    requires RootEntries(Gibs(frameCount)) <= 256 && root < |mem|
    requires forall k: nat :: k < RootEntries(Gibs(frameCount)) ==> Filled(mem, root, k, Gibs(frameCount))
    requires Opened(was, mem[root], RootEntries(Gibs(frameCount)))
    ensures ForKernel(mem, root, frameCount * PAGE_SIZE, was)
  {
    hide Filled, LinearPermits, RootFlags;
    forall p: nat | p < frameCount * PAGE_SIZE
      ensures !LinearPermits(mem, root, p, User) && FIRST_ROOT_ENTRY + p / (GIB * 512) < ENTRY_COUNT
      ensures LinearPermits(mem, root, p, Writable) <==>
        Writable in RootFlags(was[FIRST_ROOT_ENTRY + p / (GIB * 512)])
    {
      Places(frameCount, p);
      LinearRights(mem, root, Gibs(frameCount), p);
    }
  }

  lemma LinearMap(m: Phys2Virt, mem: Memory, root: nat, frameCount: nat)
    requires 0 < frameCount && RootEntries(Gibs(frameCount)) <= 256
    requires m.mapping == Block(HigherHalfStart(L0_SIZE), HigherHalfStart(L0_SIZE) + frameCount)
    requires forall k: nat :: k < RootEntries(Gibs(frameCount)) ==> Filled(mem, root, k, Gibs(frameCount))
    ensures IsLinear(m, mem, root, frameCount * PAGE_SIZE)
  {
    HalvesValues(L0_SIZE);
    var start := m.mapping.start * PAGE_SIZE;
    assert start == WORD - HALF;
    forall p: nat
      ensures m.Map(p).Ok? <==> p < frameCount * PAGE_SIZE
      ensures p < frameCount * PAGE_SIZE ==> m.Map(p).Ok? && Walk(mem, root, ROOT_LEVEL, m.Map(p).value) == Some(p)
    {
      AddWithinHalf(start, p);
      if p < frameCount * PAGE_SIZE {
        Places(frameCount, p);
        assert Add(start, p) == Ok(start + p);
        LinearWalk(mem, root, Gibs(frameCount), p);
      }
    }
  }

  lemma Places(frameCount: nat, p: nat)
    requires p < frameCount * PAGE_SIZE && RootEntries(Gibs(frameCount)) <= 256
    ensures p < HALF && p / GIB < Gibs(frameCount) && p / (GIB * 512) < RootEntries(Gibs(frameCount))
  {
  }
}
