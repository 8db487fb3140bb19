/** The general allocator: size classes for small requests, whole pages for the rest, and statistics. */
module Dispatcher {
  import opened Lists
  import opened Mmu
  import opened Addr
  import opened PageAllocator
  import opened Fallback
  import opened Bitmap
  import opened DynamicBitmap
  import opened Quarry
  import opened FixedSize
  import opened Layouts
  import opened Info
  import opened Books
  import opened PageBlocks
  import opened Contents
  import Bytes = Big

  // ---------------------------------------------------------------------------------------------
  // One size class

  /** What a size class still is after stocking up has failed: it can tell which blocks are out. */
  ghost predicate Undisturbed(c: SizeClass)
    reads c.bitmap, c.quarry
    ensures Undisturbed(c) ==> c.Shape() && c.bitmap.len <= BITS * |c.bitmap.words|
    ensures Undisturbed(c) ==> InSlabs(c.size, c.bitmap.Used(), |c.quarry.slabs|)
  {
    c.Shape() && c.bitmap.Valid() && InSlabs(c.size, c.bitmap.Used(), |c.quarry.slabs|)
  }

  /** All blocks that a size class can ever have are out. */
  ghost predicate Exhausted(c: SizeClass)
    reads c`clip, c.bitmap, c.quarry
  {
    Undisturbed(c) && |c.Out()| == c.Capacity()
  }

  lemma IsExhausted(c: SizeClass, s: Space)
    requires c.Valid(s) && |c.Out()| == c.Capacity()
    ensures Exhausted(c)
  {
  }

  /** `Dispatcher::fixed_size_allocate()` in a size class: from the clip, which is refilled when empty. The block was
      not out before, and there is none only if the slabs are exhausted or no page could be had. */
  method Obtain(c: SizeClass, f: Fallback, request: nat) returns (r: Option<nat>, pages: nat, ok: bool)
    requires f.Valid() && c.Valid(f.space)
    modifies c, c.dynamic, c.bitmap, c.quarry, f, f.pages
    ensures f.Valid() && Others(old(f.space), f.space, ClassOf(c.kind))
    ensures ok ==> c.Valid(f.space)
    ensures ok && r.None? ==> |c.Out()| == c.Capacity() && c.Out() == old(c.Out())
    ensures ok && r.Some? ==> r.value !in old(c.Out()) && c.Out() == old(c.Out()) + {r.value}
    ensures ok ==> Footprint(c.size, c.bitmap.len) == Footprint(c.size, old(c.bitmap.len)) + pages
    ensures ok ==> c.info == old(c.info).Plus(Gain(pages, r.Some?, request, c.size))
    ensures !ok ==> r.None? && Undisturbed(c) && c.Out() == old(c.Out()) && c.info == old(c.info)
    ensures NothingLost(old(f.space), f.space)
    ensures if ok then f.refusals == old(f.refusals) else f.refusals > old(f.refusals)
  {
    hide NothingLost, c.Valid, c.Out, f.Valid, Others, ClassOf, PerSlab, Footprint, Info.Plus, Info.PagesAllocation,
         Info.Allocation, Gain;
    ghost var before := c.info;
    r, pages, ok := PopOrRefill(c, f);
    GainIs(before, pages, request, c.size);
    if ok && r.Some? {
      c.info := c.info.Allocation(request, c.size, 0);
    }
  }

  method PopOrRefill(c: SizeClass, f: Fallback) returns (r: Option<nat>, pages: nat, ok: bool)
    requires f.Valid() && c.Valid(f.space)
    modifies c, c.dynamic, c.bitmap, c.quarry, f, f.pages
    ensures f.Valid() && Others(old(f.space), f.space, ClassOf(c.kind))
    ensures ok ==> c.Valid(f.space)
    ensures ok && r.None? ==> |c.Out()| == c.Capacity() && c.Out() == old(c.Out())
    ensures ok && r.Some? ==> r.value !in old(c.Out()) && c.Out() == old(c.Out()) + {r.value}
    ensures ok ==> Footprint(c.size, c.bitmap.len) == Footprint(c.size, old(c.bitmap.len)) + pages
    ensures ok ==> c.info == old(c.info).PagesAllocation(pages)
    ensures !ok ==> r.None? && Undisturbed(c) && c.Out() == old(c.Out()) && c.info == old(c.info)
    ensures NothingLost(old(f.space), f.space)
    ensures if ok then f.refusals == old(f.refusals) else f.refusals > old(f.refusals)
  {
    hide NothingLost, c.Valid, c.Out, f.Valid, Others, ClassOf, PerSlab, Footprint, Info.PagesAllocation;
    GainIs(c.info, 0, 0, 0);
    pages, ok := 0, true;
    LostNone(f.space);
    OthersRefl(f.space, ClassOf(c.kind));
    r := c.PopClip(f.space);
    if r.None? {
      pages, ok := Refill(c, f);
      if ok {
        r := c.PopClip(f.space);
      }
    }
  }

  /** Stocks up if there is no free block, and fills the empty clip to one half. */
  method Refill(c: SizeClass, f: Fallback) returns (pages: nat, ok: bool)
    requires f.Valid() && c.Valid(f.space) && c.clip == []
    modifies c, c.dynamic, c.bitmap, c.quarry, f, f.pages
    ensures f.Valid() && Others(old(f.space), f.space, ClassOf(c.kind))
    ensures ok ==> c.Valid(f.space) && c.Out() == old(c.Out()) && (c.clip == [] ==> |c.Out()| == c.Capacity())
    ensures ok ==> Footprint(c.size, c.bitmap.len) == Footprint(c.size, old(c.bitmap.len)) + pages
    ensures ok ==> c.info == old(c.info).PagesAllocation(pages)
    ensures !ok ==> Undisturbed(c) && c.Out() == old(c.Out()) && c.info == old(c.info)
    ensures NothingLost(old(f.space), f.space)
    ensures if ok then f.refusals == old(f.refusals) else f.refusals > old(f.refusals)
  {
    hide NothingLost, c.Stocked, c.Taken, Cached, f.Valid, Others, ClassOf, PerSlab, Footprint, Elements, Info.Plus,
         Info.PagesAllocation, Info.Allocation, Info.Deallocation, Gain, Loss;
    GainIs(c.info, 0, 0, 0);
    pages, ok := 0, true;
    LostNone(f.space);
    OthersRefl(f.space, ClassOf(c.kind));
    c.LenBound(f.space);
    if c.bitmap.free == 0 {
      var stocked := c.StockUp(f);
      if stocked.Err? {
        return 0, false;
      }
      pages := stocked.value;
    }
    assert c.bitmap.free > 0 || c.bitmap.len == c.Capacity();
    c.FillClip(CLIP_SIZE / 2, f.space);
    if c.clip == [] {
      c.AllOut(f.space);
    }
  }

  /** `Dispatcher::fixed_size_deallocate()` in a size class: into the clip, half of which is freed when full. */
  method Surrender(c: SizeClass, ghost s: Space, ptr: nat, request: nat)
    requires c.Valid(s) && ptr in c.Out()
    modifies c, c.bitmap
    ensures c.Valid(s) && c.Out() == old(c.Out()) - {ptr} && c.bitmap.len == old(c.bitmap.len)
    ensures c.info == old(c.info).Plus(Loss(request, c.size, 0))
  {
    hide c.Valid, c.Out, Info.Plus, Info.PagesAllocation, Info.Allocation, Info.Deallocation, Gain, Loss;
    LossIs(c.info, request, c.size, 0);
    if |c.clip| >= CLIP_SIZE {
      c.UnfillClip(CLIP_SIZE / 2, s);
    }
    c.PushClip(ptr, s);
    c.info := c.info.Deallocation(request, c.size, 0);
  }

  /** What others do with their pages does not concern a size class. */
  lemma ValidKept(c: SizeClass, s: Space, t: Space, mine: iset<Owner>)
    requires c.Valid(s) && Others(s, t, mine) && mine !! ClassOf(c.kind)
    ensures c.Valid(t)
  {
    hide Others, Backs, Owned, Upto, SlabsFor, PagesFor;
    assert forall o: Owner :: IsSlab(o, c.kind) ==> o in ClassOf(c.kind);
    SlabsKept(s, t, mine, c.kind, c.quarry.slabs, SlabsFor(c.size, c.bitmap.len), PagesFor(c.size, c.bitmap.len));
    BitsKept(s, t, mine, c.kind, c.dynamic.pages, PageCount(c.bitmap.len));
  }

  /** A size class whose blocks out are exactly the live ones, with the statistics of these. */
  ghost predicate Accounted(c: SizeClass, s: Space, live: seq<Live>)
    reads c, c.dynamic, c.bitmap, c.quarry
  {
    && c.Valid(s) && c.Out() == Ptrs(live, Some(c.kind)) && DistinctPtrs(live, Some(c.kind))
    && Matches(c.info, Tally(live, Some(c.kind)), Footprint(c.size, c.bitmap.len))
  }

  /** The size class goes on as before when other blocks come, and when others use their pages. */
  lemma AccountedPush(c: SizeClass, s: Space, t: Space, mine: iset<Owner>, live: seq<Live>, b: Live)
    requires Accounted(c, s, live) && HomeOf(b.layout) != Some(c.kind)
    requires Others(s, t, mine) && mine !! ClassOf(c.kind)
    ensures Accounted(c, t, live + [b])
  {
    hide HomeOf, c.Valid, c.Out, ClassOf, Others, Ptrs, Tally, DistinctPtrs;
    TallyPush(live, b, Some(c.kind));
    PtrsPush(live, b, Some(c.kind));
    DistinctPush(live, b, Some(c.kind));
    ValidKept(c, s, t, mine);
  }

  lemma AccountedDrop(c: SizeClass, s: Space, t: Space, mine: iset<Owner>, live: seq<Live>, j: nat)
    requires Accounted(c, s, live) && j < |live| && HomeOf(live[j].layout) != Some(c.kind)
    requires Others(s, t, mine) && mine !! ClassOf(c.kind)
    ensures Accounted(c, t, Without(live, j))
  {
    hide HomeOf, c.Valid, c.Out, ClassOf, Others, Ptrs, Tally, DistinctPtrs, Without;
    TallyDrop(live, j, Some(c.kind));
    PtrsDrop(live, j, Some(c.kind));
    ValidKept(c, s, t, mine);
  }

  /** A size class serves a request. */
  method ObtainLive(c: SizeClass, f: Fallback, l: Layout, ghost live: seq<Live>)
    returns (r: Option<nat>, pages: nat, ok: bool)
    requires f.Valid() && Accounted(c, f.space, live) && HomeOf(l) == Some(c.kind) && c.size == GetSize(c.kind)
    modifies c, c.dynamic, c.bitmap, c.quarry, f, f.pages
    ensures f.Valid() && Others(old(f.space), f.space, ClassOf(c.kind))
    ensures ok && r.None? ==> Accounted(c, f.space, live)
    ensures ok && r.Some? ==> Accounted(c, f.space, live + [Live(r.value, l, 0)])
    ensures ok ==> c.info == old(c.info).Plus(Gain(pages, r.Some?, l.size, c.size))
    ensures !ok ==> r.None? && Undisturbed(c) && c.Out() == old(c.Out()) && c.info == old(c.info)
    ensures NothingLost(old(f.space), f.space)
    ensures if ok then f.refusals == old(f.refusals) else f.refusals > old(f.refusals)
    ensures ok && r.None? ==> Exhausted(c)
  {
    hide Exhausted, NothingLost, HomeOf, c.Valid, c.Out, f.Valid, ClassOf, Others, Ptrs, Tally, DistinctPtrs,
         Footprint, GetSize, Matches, Books.Plus, BlockPages, BlockBytes, Info.Plus, Info.PagesAllocation,
         Info.Allocation, Info.Deallocation, Gain, Loss;
    ghost var before, mapped := c.info, Footprint(c.size, c.bitmap.len);
    BlockOfClass(l);
    r, pages, ok := Obtain(c, f, l.size);
    if ok {
      if r.None? { IsExhausted(c, f.space); }
      MatchesGain(before, Tally(live, Some(c.kind)), mapped, pages, r.Some?, l);
      if r.Some? {
        ghost var b := Live(r.value, l, 0);
        TallyPush(live, b, Some(c.kind));
        PtrsPush(live, b, Some(c.kind));
        DistinctPush(live, b, Some(c.kind));
      }
    }
  }

  /** A size class takes block `j` back. */
  method SurrenderLive(c: SizeClass, ghost s: Space, ptr: nat, l: Layout, ghost live: seq<Live>, ghost j: nat)
    requires Accounted(c, s, live) && j < |live| && live[j].ptr == ptr && live[j].layout == l && ValidLayout(l)
    requires HomeOf(l) == Some(c.kind) && c.size == GetSize(c.kind)
    modifies c, c.bitmap
    ensures Accounted(c, s, Without(live, j))
    ensures c.info == old(c.info).Plus(Loss(l.size, c.size, 0))
  {
    hide HomeOf, c.Valid, c.Out, Tally, DistinctPtrs, Footprint, GetSize, Without, Ptrs, Matches, Books.Plus,
         BlockPages, BlockBytes,
         Info.Plus, Info.PagesAllocation, Info.Allocation, Info.Deallocation, Gain, Loss;
    PtrsOwn(live, j);
    TallyDrop(live, j, Some(c.kind));
    PtrsDrop(live, j, Some(c.kind));
    BlockFits(l);
    BlockOfClass(l);
    MatchesLoss(c.info, Tally(Without(live, j), Some(c.kind)), Footprint(c.size, c.bitmap.len), l);
    Surrender(c, s, ptr, l.size);
  }

  /** Block `j` of a size class now serves another request of the same class. */
  method RelabelLive(c: SizeClass, ghost s: Space, l: Layout, m: Layout, ghost live: seq<Live>, ghost j: nat)
    requires Accounted(c, s, live) && j < |live| && live[j].layout == l && ValidLayout(l)
    requires HomeOf(l) == HomeOf(m) == Some(c.kind) && c.size == GetSize(c.kind)
    modifies c
    ensures Accounted(c, s, Without(live, j) + [Live(live[j].ptr, m, 0)])
    ensures c.info == old(c.info).Plus(Loss(l.size, c.size, 0)).Plus(Gain(0, true, m.size, c.size))
  {
    hide HomeOf, c.Valid, c.Out, Tally, DistinctPtrs, Footprint, GetSize, Without, Ptrs, Matches, Books.Plus,
         BlockPages, BlockBytes,
         Info.Plus, Gain, Loss;
    ghost var rest, b := Without(live, j), Live(live[j].ptr, m, 0);
    ghost var home, mapped := Some(c.kind), Footprint(c.size, c.bitmap.len);
    PtrsOwn(live, j);
    TallyDrop(live, j, home);
    PtrsDrop(live, j, home);
    BlockFits(l);
    BlockOfClass(l);
    BlockOfClass(m);
    MatchesLoss(c.info, Tally(rest, home), mapped, l);
    MatchesGain(c.info.Plus(Loss(l.size, c.size, 0)), Tally(rest, home), mapped, 0, true, m);
    TallyPush(rest, b, home);
    PtrsPush(rest, b, home);
    DistinctPush(rest, b, home);
    c.info := c.info.Plus(Loss(l.size, c.size, 0));
    c.info := c.info.Plus(Gain(0, true, m.size, c.size));
  }

  method UnfillLive(c: SizeClass, ghost s: Space, ghost live: seq<Live>)
    requires Accounted(c, s, live)
    modifies c`clip, c.bitmap
    ensures Accounted(c, s, live) && c.clip == [] && c.info == old(c.info)
  {
    hide c.Valid, c.Out, Tally, DistinctPtrs, Footprint, Ptrs, Matches;
    c.UnfillClip(0, s);
  }

  /** A size class with nothing live gives back all its pages. */
  method UnmapLive(c: SizeClass, f: Fallback) returns (freed: nat)
    requires f.Valid() && Accounted(c, f.space, []) && c.clip == []
    modifies c, c.dynamic, c.bitmap, c.quarry, f
    ensures f.Valid() && Others(old(f.space), f.space, ClassOf(c.kind))
    ensures Accounted(c, f.space, []) && c.clip == [] && c.bitmap.len == 0
    ensures c.info == old(c.info).PagesDeallocation(freed)
  {
    hide c.Valid, c.Out, f.Valid, Others, ClassOf, Footprint, Info.PagesDeallocation, Matches;
    ghost var before, len := c.info, c.bitmap.len;
    assert Ptrs([], Some(c.kind)) == {};
    NoFootprint(c.size);
    freed := c.Unmap(f);
    MatchesRelease(before, Footprint(c.size, len));
  }

  lemma MatchesRelease(i: Info, pages: nat)
    requires Matches(i, NOTHING, pages)
    ensures Matches(i.PagesDeallocation(pages), NOTHING, 0)
  {
  }

  lemma PagesLoss(i: Info, n: nat)
    ensures i.PagesDeallocation(n) == i.Plus(Info(ZERO, ZERO, Counter(n, 0), ZERO))
  {
  }

  lemma BlockOfClass(l: Layout)
    requires HomeOf(l).Some?
    ensures BlockPages(l) == 0 && BlockBytes(l) == GetSize(HomeOf(l).value)
  {
  }

  // ---------------------------------------------------------------------------------------------
  // Blocks of whole pages

  function PagesOf(ptr: nat, l: Layout): Block { Block(ptr / PAGE_SIZE, ptr / PAGE_SIZE + CeilDiv(l.size, PAGE_SIZE)) }

  /** A block of whole pages has its pages to itself, all of them mapped, and starts where its layout asks. */
  ghost predicate Placed(b: Live, s: Space) {
    && b.ptr % PAGE_SIZE == 0 && b.ptr > 0 && Backed(s, PagesOf(b.ptr, b.layout), Big(b.id))
    && Aligned(b.ptr / PAGE_SIZE, b.layout.align)
  }

  ghost predicate BigOnes(live: seq<Live>, s: Space, next: nat) {
    && (forall j :: 0 <= j < |live| && HomeOf(live[j].layout).None? ==> Placed(live[j], s) && live[j].id < next)
    && (forall i, j :: 0 <= i < j < |live| && HomeOf(live[i].layout).None? && HomeOf(live[j].layout).None? ==>
          live[i].id != live[j].id)
  }

  /** Block `j` gave way to a block for layout `m` at `ptr`. */
  ghost predicate Replaced(live: seq<Live>, after: seq<Live>, j: nat, ptr: nat, m: Layout) {
    && j < |live| == |after|
    && after[..|live| - 1] == Without(live, j)
    && after[|live| - 1].ptr == ptr && after[|live| - 1].layout == m
  }

  // ---------------------------------------------------------------------------------------------

  predicate Separate(classes: seq<SizeClass>) {
    && (forall k :: 0 <= k < |classes| ==> classes[k].kind == k && classes[k].size == GetSize(k))
    && (forall j, k :: 0 <= j < k < |classes| ==> Apart(classes[j], classes[k]))
  }

  /** Two size classes have no object in common. */
  predicate Apart(c: SizeClass, d: SizeClass) {
    c != d && c.dynamic != d.dynamic && c.bitmap != d.bitmap && c.quarry != d.quarry
  }

  ghost predicate Empty(c: SizeClass, s: Space)
    reads c, c.dynamic, c.bitmap, c.quarry
  {
    c.Valid(s) && c.Out() == {} && c.info == NO_INFO && c.bitmap.len == 0
  }

  method MakeClasses(ghost s: Space) returns (classes: seq<SizeClass>)
    requires s == Space(map[], {})
    ensures |classes| == FIXED_SIZE_COUNT && Separate(classes)
    ensures forall k :: 0 <= k < |classes| ==> Empty(classes[k], s)
    ensures forall k :: 0 <= k < |classes| ==>
      fresh(classes[k]) && fresh(classes[k].dynamic) && fresh(classes[k].bitmap) && fresh(classes[k].quarry)
  {
    hide Empty, GetSize, Separate, BlockSize;
    classes := [];
    SeparateNone();
    for n := 0 to FIXED_SIZE_COUNT
      invariant |classes| == n && Separate(classes)
      invariant forall k :: 0 <= k < n ==> Empty(classes[k], s)
      invariant forall k :: 0 <= k < n ==>
        fresh(classes[k]) && fresh(classes[k].dynamic) && fresh(classes[k].bitmap) && fresh(classes[k].quarry)
    {
      var c := MakeClass(n, s);
      SeparatePush(classes, c);
      classes := classes + [c];
    }
  }

  method MakeClass(kind: nat, ghost s: Space) returns (c: SizeClass)
    requires s == Space(map[], {}) && kind < FIXED_SIZE_COUNT
    ensures fresh(c) && fresh(c.dynamic) && fresh(c.bitmap) && fresh(c.quarry)
    ensures c.kind == kind && c.size == GetSize(kind) && Empty(c, s)
  {
    hide GetSize, BlockSize, c.Valid;
    ClassSizes(kind);
    c := new SizeClass(kind, GetSize(kind), s);
    IsEmpty(c, s);
  }

  lemma SeparateNone()
    ensures Separate([])
  {
  }

  lemma SeparatePush(classes: seq<SizeClass>, c: SizeClass)
    requires Separate(classes) && c.kind == |classes| && c.size == GetSize(|classes|)
    requires forall k :: 0 <= k < |classes| ==> Apart(classes[k], c)
    ensures Separate(classes + [c])
  {
  }

  lemma IsEmpty(c: SizeClass, s: Space)
    requires c.Valid(s) && c.Out() == {} && c.info == NO_INFO && c.bitmap.len == 0
    ensures Empty(c, s)
  {
  }

  class Dispatcher {
    const f: Fallback
    const classes: seq<SizeClass>
    var info: Info
    var fallbackInfo: Info
    /** What is in memory, by virtual address. */
    ghost var memory: nat -> bv8
    ghost var live: seq<Live>
    /** Numbers of blocks of whole pages are below this. */
    ghost var next: nat

    predicate Shape() { |classes| == FIXED_SIZE_COUNT && Separate(classes) }

    ghost function Objects(): set<object> {
      (set k | 0 <= k < |classes| :: classes[k] as object) +
      (set k | 0 <= k < |classes| :: classes[k].dynamic as object) +
      (set k | 0 <= k < |classes| :: classes[k].bitmap as object) +
      (set k | 0 <= k < |classes| :: classes[k].quarry as object)
    }

    ghost function Infos(): (r: seq<Info>)
      reads set k | 0 <= k < |classes| :: classes[k]
      ensures |r| == |classes| && forall k :: 0 <= k < |r| ==> r[k] == classes[k].info
    {
      seq(|classes|, k requires 0 <= k < |classes| reads if 0 <= k < |classes| then {classes[k]} else {}
                     => classes[k].info)
    }

    ghost predicate Valid()
      reads this`info, this`fallbackInfo, this`live, this`next, f, f.pages, Objects()
      ensures Valid() ==> Shape() && ValidLayouts(live)
    {
      && Shape() && f.Valid() && ValidLayouts(live)
      && (forall k :: 0 <= k < |classes| ==> Accounted(classes[k], f.space, live))
      && BigOnes(live, f.space, next)
      && Matches(fallbackInfo, Tally(live, None), Tally(live, None).pages)
      && info == fallbackInfo.Plus(Sum(Infos()))
    }

    /** `Dispatcher::new()`. */
    constructor (f: Fallback, ghost memory: nat -> bv8)
      requires f.Valid() && f.space == Space(map[], {})
      ensures this.f == f && this.memory == memory && Valid() && live == []
    {
      hide Empty, Accounted, Tally, Matches, BigOnes, f.Valid, Sum, Info.Plus;
      var cs := MakeClasses(f.space);
      this.f, classes := f, cs;
      info, fallbackInfo, live, next := NO_INFO, NO_INFO, [], 0;
      this.memory := memory;
      new;
      forall k | 0 <= k < |classes| ensures Accounted(classes[k], f.space, live) && classes[k].info == NO_INFO {
        EmptyAccounted(classes[k], f.space);
      }
      NothingLive(f.space);
      SumOfNothing(Infos());
      NothingPlus(NO_INFO, Sum(Infos()));
    }

    /** A request served by size class `k`. */
    method ClassAllocate(k: nat, l: Layout) returns (r: Option<nat>, ok: bool)
      requires Valid() && ValidLayout(l) && HomeOf(l) == Some(k) && k < |classes|
      modifies this`info, this`live, f, f.pages, classes[k], classes[k].dynamic, classes[k].bitmap, classes[k].quarry
      ensures ok ==> Valid()
      ensures ok && r.None? ==> live == old(live)
      ensures ok && r.Some? ==> live == old(live) + [Live(r.value, l, 0)]
      ensures !ok ==> r.None? && live == old(live) && NothingLost(old(f.space), f.space)
      ensures ok && r.None? ==> Exhausted(classes[k])
      ensures if ok then f.refusals == old(f.refusals) else f.refusals > old(f.refusals)
    {
      hide Exhausted, NothingLost, HomeOf, Others, ClassOf, f.Valid, Tally, Accounted, Matches, BigOnes, GetSize, Sum,
           Infos, Separate, Spared, BlockBytes, Info.Plus, Info.PagesAllocation, Info.Allocation, Info.Deallocation,
           Gain, Loss;
      ghost var s, infos := f.space, Infos();
      SeparateAt(classes, k);
      ClassSpares(live, k);
      var pages;
      r, pages, ok := ObtainLive(classes[k], f, l, live);
      if !ok {
        return;
      }
      var gain := Gain(pages, r.Some?, l.size, classes[k].size);
      info := info.Plus(gain);
      SumUpdate(infos, k, classes[k].info, gain);
      assert Infos() == infos[k := classes[k].info];
      PlusTurns(fallbackInfo, Sum(infos), gain);
      if r.Some? {
        ghost var b := Live(r.value, l, 0);
        forall j | 0 <= j < |classes| && j != k ensures Accounted(classes[j], f.space, live + [b]) {
          OtherClass(classes, j, k);
          AccountedPush(classes[j], s, f.space, ClassOf(k), live, b);
        }
        BigPush(live, b, s, f.space, ClassOf(k), next);
        TallyPush(live, b, None);
        live := live + [b];
      } else {
        forall j | 0 <= j < |classes| && j != k ensures Accounted(classes[j], f.space, live) {
          OtherClass(classes, j, k);
          AccountedSame(classes[j], s, f.space, ClassOf(k), live);
        }
        BigSame(live, s, f.space, ClassOf(k), next);
      }
    }

    /** Block `j`, served by size class `k`, is freed. */
    method ClassDeallocate(k: nat, ptr: nat, l: Layout, ghost j: nat)
      requires Valid() && HomeOf(l) == Some(k) && k < |classes|
      requires j < |live| && live[j].ptr == ptr && live[j].layout == l
      modifies this`info, this`live, classes[k], classes[k].bitmap
      ensures Valid() && live == Without(old(live), j)
    {
      hide HomeOf, Others, ClassOf, f.Valid, Tally, Accounted, Matches, BigOnes, GetSize, Sum, Infos, Separate, Spared,
           BlockBytes, BlockPages, Without, Info.Plus, Gain, Loss, ValidLayouts;
      ghost var s, infos := f.space, Infos();
      SeparateAt(classes, k);
      LayoutAt(live, j);
      SurrenderLive(classes[k], s, ptr, l, live, j);
      var loss := Loss(l.size, classes[k].size, 0);
      info := info.Plus(loss);
      SumUpdate(infos, k, classes[k].info, loss);
      assert Infos() == infos[k := classes[k].info];
      PlusTurns(fallbackInfo, Sum(infos), loss);
      OthersRefl(s, ClassOf(k));
      forall i | 0 <= i < |classes| && i != k ensures Accounted(classes[i], s, Without(live, j)) {
        OtherClass(classes, i, k);
        AccountedDrop(classes[i], s, s, ClassOf(k), live, j);
      }
      ClassSpares(Without(live, j), k);
      BigDrop(live, j, s, s, ClassOf(k), next);
      TallyDrop(live, j, None);
      LayoutsWithout(live, j);
      live := Without(live, j);
    }

    /** Block `j` is resized within size class `k`. */
    method ClassResize(k: nat, l: Layout, m: Layout, ghost j: nat)
      requires Valid() && HomeOf(l) == HomeOf(m) == Some(k) && k < |classes| && ValidLayout(m)
      requires j < |live| && live[j].layout == l
      modifies this`info, this`live, classes[k]
      ensures Valid() && Replaced(old(live), live, j, old(live)[j].ptr, m)
    {
      hide HomeOf, Others, ClassOf, f.Valid, Tally, Accounted, Matches, BigOnes, GetSize, Sum, Infos, Separate, Spared,
           BlockBytes, BlockPages, Without, Info.Plus, Gain, Loss, ValidLayouts, Replaced;
      ghost var s, infos, b := f.space, Infos(), Live(live[j].ptr, m, 0);
      SeparateAt(classes, k);
      LayoutAt(live, j);
      RelabelLive(classes[k], s, l, m, live, j);
      var loss, gain := Loss(l.size, classes[k].size, 0), Gain(0, true, m.size, classes[k].size);
      PlusTurns(infos[k], loss, gain);
      SumUpdate(infos, k, classes[k].info, loss.Plus(gain));
      assert Infos() == infos[k := classes[k].info];
      PlusTurns(fallbackInfo, Sum(infos), loss.Plus(gain));
      PlusTurns(info, loss, gain);
      info := info.Plus(loss).Plus(gain);
      ghost var rest := Without(live, j);
      OthersRefl(s, ClassOf(k));
      forall i | 0 <= i < |classes| && i != k ensures Accounted(classes[i], s, rest + [b]) {
        OtherClass(classes, i, k);
        AccountedDrop(classes[i], s, s, ClassOf(k), live, j);
        AccountedPush(classes[i], s, s, ClassOf(k), rest, b);
      }
      ClassSpares(rest, k);
      BigDrop(live, j, s, s, ClassOf(k), next);
      BigPush(rest, b, s, s, ClassOf(k), next);
      TallyDrop(live, j, None);
      TallyPush(rest, b, None);
      LayoutsWithout(live, j);
      LayoutsPush(rest, b);
      ReplacedBy(live, j, b);
      live := rest + [b];
    }

    /** `Dispatcher::update_fallback_info()`. */
    method BookFallback(change: Info)
      modifies this`info, this`fallbackInfo
      ensures fallbackInfo == old(fallbackInfo).Plus(change) && info == old(info).Plus(change)
    {
      fallbackInfo := fallbackInfo.Plus(change);
      info := info.Plus(change);
    }

    /** `Dispatcher::fallback_allocate()`. */
    method BigAllocate(l: Layout) returns (r: Option<nat>)
      requires Valid() && ValidLayout(l) && HomeOf(l).None?
      modifies this`info, this`fallbackInfo, this`live, this`next, f, f.pages
      ensures Valid() && next == old(next) + 1
      ensures r.None? ==> live == old(live)
      ensures r.Some? ==> live == old(live) + [Live(r.value, l, old(next))] && r.value % PAGE_SIZE == 0
      ensures r.Some? ==> forall p: nat | PagesOf(r.value, l).Has(p) :: p !in old(f.space).owner
      ensures if r.Some? then f.refusals == old(f.refusals) else f.refusals > old(f.refusals)
    {
      hide HomeOf, Others, ClassOf, f.Valid, Tally, Accounted, Matches, BigOnes, GetSize, Sum, Infos, Separate, Spared,
           BlockBytes, BlockPages, Without, Info.Plus, Gain, Loss, ValidLayouts, Backed, Alignment, Aligned, CeilDiv;
      ghost var s, id := f.space, next;
      ghost var mine := iset{Big(id)};
      AlignmentOf(l);
      var b := TakePages(f, l.size, l.align, Big(id));
      next := next + 1;
      NextSpares(live, s, id);
      BigSame(live, s, f.space, mine, id);
      BigMore(live, f.space, id);
      forall k | 0 <= k < |classes| ensures Accounted(classes[k], f.space, live) {
        ClassNotBig(classes[k].kind, id);
        AccountedSame(classes[k], s, f.space, mine, live);
      }
      if b.Err? {
        return None;
      }
      r := Some(b.value.start * PAGE_SIZE);
      ghost var new_ := Live(r.value, l, id);
      PlacedBlock(f.space, b.value, new_);
      AddBig(new_, fallbackInfo);
      BookFallback(BigGain(l));
      PlusTurns2(old(fallbackInfo), Sum(Infos()), BigGain(l));
    }

    /** Block `j`, of whole pages, is freed. */
    method BigDeallocate(ptr: nat, l: Layout, ghost j: nat)
      requires Valid() && HomeOf(l).None? && j < |live| && live[j].ptr == ptr && live[j].layout == l
      modifies this`info, this`fallbackInfo, this`live, f
      ensures Valid() && live == Without(old(live), j) && f.refusals == old(f.refusals)
    {
      hide HomeOf, Others, ClassOf, f.Valid, Tally, Accounted, Matches, BigOnes, GetSize, Sum, Infos, Separate, Spared,
           BlockBytes, BlockPages, Without, Info.Plus, Gain, Loss, ValidLayouts, Backed, CeilDiv;
      ghost var s, id := f.space, live[j].id;
      PlacedAt(live, s, next, j);
      BlockAccepted(f, PagesOf(ptr, l), Big(id), l.size);
      var block := Bytes.TryIntoBlock(ptr, l.size);
      GivePages(f, block.value, Big(id));
      DropSpares(live, s, next, j, iset{Big(id)});
      DropBig(j, s, iset{Big(id)}, fallbackInfo);
      BookFallback(BigLoss(l));
      PlusTurns2(old(fallbackInfo), Sum(Infos()), BigLoss(l));
    }

    /** `fallback.grow()` and `fallback.shrink()` of block `j`. */
    method BigResize(ptr: nat, l: Layout, m: Layout, ghost j: nat) returns (r: Option<nat>)
      requires Valid() && HomeOf(l).None? && HomeOf(m).None? && ValidLayout(m) && m.align == l.align
      requires j < |live| && live[j].ptr == ptr && live[j].layout == l
      modifies this`info, this`fallbackInfo, this`live, this`next, this`memory, f, f.pages
      ensures Valid()
      ensures r.None? ==> live == old(live)
      ensures r.Some? ==> Replaced(old(live), live, j, r.value, m)
      ensures r.Some? ==> SameBytes(old(memory), ptr, memory, r.value, if l.size < m.size then l.size else m.size)
      ensures r.None? ==> memory == old(memory)
      ensures forall x: nat | x / PAGE_SIZE in old(f.space).owner && !PagesOf(ptr, l).Has(x / PAGE_SIZE) ::
        memory(x) == old(memory)(x)
      ensures CeilDiv(m.size, PAGE_SIZE) <= CeilDiv(l.size, PAGE_SIZE) ==> r == Some(ptr)
      ensures r.Some? ==>
        (r.value == ptr <==> Extensible(PagesOf(ptr, l), CeilDiv(m.size, PAGE_SIZE), old(f.pages.block)))
      ensures if r.Some? then f.refusals == old(f.refusals)
        else f.refusals > old(f.refusals) || (TooLong(PagesOf(ptr, l), m.size) && f.refusals == old(f.refusals))
    {
      hide Extensible, TooLong, HomeOf, Others, ClassOf, f.Valid, Tally, Accounted, Matches, BigOnes, GetSize, Sum,
           Infos, Separate, Spared,
           BlockBytes, BlockPages, Without, Info.Plus, Gain, Loss, ValidLayouts, Backed, CeilDiv, Alignment, Aligned,
           Replaced, SameBytes, Placed, BigGain, BigLoss, BytesMoved, LeastCount, Claim, ClassOf;
      ghost var s, was, id := f.space, live, live[j].id;
      PlacedAt(live, s, next, j);
      AlignmentOf(m);
      ghost var id' := next;
      next := next + 1;
      ghost var mine := iset{Big(id), Big(id')};
      var a := PagesOf(ptr, l);
      ShorterExtends(a, CeilDiv(m.size, PAGE_SIZE), f.pages.block);
      var b := ResizePages(f, a, m.size, m.align, Big(id), Big(id'));
      BigMore(live, s, id');
      DropSpares(live, s, id', j, mine);
      if b.Err? {
        PlacedBlock(f.space, a, live[j]);
        BigKeptAt(live, j, s, f.space, mine, next);
        forall k | 0 <= k < |classes| ensures Accounted(classes[k], f.space, live) {
          AccountedSame(classes[k], s, f.space, mine, live);
        }
        return None;
      }
      r := Some(b.value.start * PAGE_SIZE);
      ghost var new_ := Live(r.value, m, if b.value.start == a.start then id else id');
      PlacedBlock(f.space, b.value, new_);
      RebookBig(l, m, j, s, mine, new_);
      ReplacedBy(was, j, new_);
      MoveBytes(a, b.value);
      MovedBytes(old(memory), memory, a, b.value, l, m);
    }

    /** The books after block `j` became `new_`: what is new is added first, then what was is taken off. */
    method RebookBig(l: Layout, m: Layout, ghost j: nat, ghost s: Space, ghost mine: iset<Owner>, ghost new_: Live)
      requires Shape() && f.Valid() && ValidLayouts(live) && info == fallbackInfo.Plus(Sum(Infos()))
      requires j < |live| && live[j].layout == l && HomeOf(l).None?
      requires forall k :: 0 <= k < |classes| ==> Accounted(classes[k], s, live)
      requires BigOnes(live, s, next) && Others(s, f.space, mine) && Spared(Without(live, j), mine)
      requires forall k: nat :: mine !! ClassOf(k)
      requires Matches(fallbackInfo, Tally(live, None), Tally(live, None).pages)
      requires Placed(new_, f.space) && new_.id < next && Big(new_.id) in mine
      requires new_.layout == m && ValidLayout(m) && HomeOf(m).None?
      modifies this`info, this`fallbackInfo, this`live
      ensures Valid() && live == Without(old(live), j) + [new_]
    {
      hide HomeOf, Others, ClassOf, f.Valid, Tally, Accounted, Matches, BigOnes, GetSize, Sum, Infos, Separate, Spared,
           BlockBytes, BlockPages, Without, Info.Plus, Gain, Loss, ValidLayouts, Placed, BigGain, BigLoss, ValidLayout;
      DropBig(j, s, mine, fallbackInfo);
      SparedIds(live, mine, new_.id);
      AddBig(new_, fallbackInfo.Plus(BigLoss(l)));
      ghost var rest := Sum(Infos());
      PlusTurns2(fallbackInfo, BigGain(m), BigLoss(l));
      PlusTurns2(fallbackInfo, rest, BigGain(m));
      PlusTurns2(fallbackInfo.Plus(BigGain(m)), rest, BigLoss(l));
      BookFallback(BigGain(m));
      BookFallback(BigLoss(l));
    }

    /** The pages of block `a` became those of block `b`. All that is known of the memory now is what
        `Big.GrownMoves` and `Big.ShrunkMoves` prove of the page tables. */
    ghost method MoveBytes(a: Block, b: Block)
      requires a.Valid() && b.Valid()
      modifies this`memory
      ensures BytesMoved(old(memory), memory, a, b)
    {
      CanMove(memory, a, b);
      var after :| BytesMoved(memory, after, a, b);
      memory := after;
    }

    /** Takes block `j` out of the books, the counters aside, after its pages were dealt with. */
    ghost method DropBig(j: nat, s: Space, mine: iset<Owner>, books: Info)
      requires Shape() && f.Valid() && ValidLayouts(live) && j < |live| && HomeOf(live[j].layout).None?
      requires forall k :: 0 <= k < |classes| ==> Accounted(classes[k], s, live)
      requires BigOnes(live, s, next) && Others(s, f.space, mine) && Spared(Without(live, j), mine)
      requires forall k: nat :: mine !! ClassOf(k)
      requires Matches(books, Tally(live, None), Tally(live, None).pages)
      modifies this`live
      ensures live == Without(old(live), j) && ValidLayouts(live)
      ensures forall k :: 0 <= k < |classes| ==> Accounted(classes[k], f.space, live)
      ensures BigOnes(live, f.space, next)
      ensures Matches(books.Plus(BigLoss(old(live)[j].layout)), Tally(live, None), Tally(live, None).pages)
    {
      hide HomeOf, Others, ClassOf, f.Valid, Tally, Accounted, Matches, BigOnes, GetSize, Sum, Infos, Separate, Spared,
           BlockBytes, BlockPages, Without, Info.Plus, Gain, Loss, ValidLayouts, Placed;
      forall k | 0 <= k < |classes| ensures Accounted(classes[k], f.space, Without(live, j)) {
        AccountedDrop(classes[k], s, f.space, mine, live, j);
      }
      BigDrop(live, j, s, f.space, mine, next);
      TallyDrop(live, j, None);
      LayoutAt(live, j);
      LayoutsWithout(live, j);
      MatchesBigLoss(books, Tally(Without(live, j), None), live[j].layout);
      live := Without(live, j);
    }

    /** Why there is no block for the layout: all blocks of its size class are out, or pages ran out. */
    ghost predicate NoBlock(l: Layout, before: nat)
      reads f`refusals, Objects()
    {
      if HomeOf(l).Some? && HomeOf(l).value < |classes| then Exhausted(classes[HomeOf(l).value])
      else f.refusals > before
    }

    /** `GlobalAlloc::alloc()`. */
    method Alloc(l: Layout) returns (r: Option<nat>, ok: bool)
      requires Valid() && ValidLayout(l)
      modifies this`info, this`fallbackInfo, this`live, this`next, f, f.pages, Objects()
      ensures ok ==> Valid() && next >= old(next)
      ensures ok && r.None? ==> live == old(live)
      ensures ok && r.Some? ==> |live| == |old(live)| + 1 && live[..|old(live)|] == old(live)
      ensures ok && r.Some? ==> live[|old(live)|].ptr == r.value && live[|old(live)|].layout == l
      ensures ok && r.Some? ==> MultipleOf(r.value, l.align)
      ensures !ok ==> r.None? && live == old(live) && NothingLost(old(f.space), f.space)
      ensures ok && r.None? ==> NoBlock(l, old(f.refusals))
      ensures r.Some? ==> f.refusals == old(f.refusals)
      ensures if ok then f.refusals >= old(f.refusals) else f.refusals > old(f.refusals)
    {
      hide Exhausted, Valid, MultipleOf, NothingLost;
      HomeInside(l);
      var home := HomeOf(l);
      if home.Some? {
        r, ok := ClassAllocate(home.value, l);
      } else {
        r := BigAllocate(l);
        ok := true;
      }
      if ok && r.Some? {
        LiveAligned(this, |live| - 1);
      }
    }

    /** `GlobalAlloc::dealloc()` of block `j`. */
    method Dealloc(ptr: nat, l: Layout, ghost j: nat)
      requires Valid() && j < |live| && live[j].ptr == ptr && live[j].layout == l
      modifies this`info, this`fallbackInfo, this`live, f, Objects()
      ensures Valid() && live == Without(old(live), j) && f.refusals == old(f.refusals)
    {
      LayoutAt(live, j);
      hide Valid, Without, HomeOf, ValidLayout, ValidLayouts, Separate;
      HomeInside(l);
      match HomeOf(l)
      case Some(k) => ClassDeallocate(k, ptr, l, j);
      case None => BigDeallocate(ptr, l, j);
    }

    /** `GlobalAlloc::realloc()` of block `j`. Whatever route is taken, the new block starts with the bytes of the
        old one, as many as both have, and every other live block keeps all its bytes; if there is no new block,
        the old one is left as it was. */
    method Realloc(ptr: nat, l: Layout, newSize: nat, ghost j: nat) returns (r: Option<nat>, ok: bool)
      requires Valid() && j < |live| && live[j].ptr == ptr && live[j].layout == l && newSize > 0
      modifies this, f, f.pages, Objects()
      ensures ok ==> Valid() && Resized(old(live), old(memory), live, memory, j, r, Layout(newSize, l.align))
      ensures ok && r.Some? ==> MultipleOf(r.value, l.align)
      ensures !ok ==> r.None? && live == old(live) && memory == old(memory) && NothingLost(old(f.space), f.space)
      // A block that stays in its size class, or keeps its pages, stays where it is.
      ensures HomeOf(l).Some? && HomeOf(Layout(newSize, l.align)) == HomeOf(l) ==> ok && r == Some(ptr)
      ensures HomeOf(l).None? && HomeOf(Layout(newSize, l.align)).None? ==>
        && ok && (CeilDiv(newSize, PAGE_SIZE) <= CeilDiv(l.size, PAGE_SIZE) ==> r == Some(ptr))
        && (r.Some? ==>
              (r.value == ptr <==> Extensible(PagesOf(ptr, l), CeilDiv(newSize, PAGE_SIZE), old(f.pages.block))))
        && (r.None? ==> f.refusals > old(f.refusals) || TooLong(PagesOf(ptr, l), newSize))
      ensures HomeOf(l) != HomeOf(Layout(newSize, l.align)) && ok && r.None? ==>
        NoBlock(Layout(newSize, l.align), old(f.refusals))
      ensures r.Some? ==> f.refusals == old(f.refusals)
      ensures if ok then f.refusals >= old(f.refusals) else f.refusals > old(f.refusals)
    {
      LayoutAt(live, j);
      hide NoBlock, Extensible, TooLong, PagesOf, CeilDiv, NothingLost, HomeOf, Valid, Resized, Without, Replaced,
           ValidLayout, ValidLayouts, Separate, MultipleOf;
      var m := Layout(newSize, l.align);
      SameAlign(l, m);
      HomeInside(l);
      HomeInside(m);
      ok := true;
      if HomeOf(l).Some? && HomeOf(l) == HomeOf(m) {
        r := InClass(HomeOf(l).value, ptr, l, m, j);
      } else if HomeOf(l).None? && HomeOf(m).None? {
        r := OnPages(ptr, l, m, j);
      } else {
        r, ok := CopyOver(ptr, l, m, j);
      }
      if ok && r.Some? {
        ResizedAligned(this, old(live), old(memory), j, r.value, m);
      }
    }

    /** The route of `realloc()` that stays in its size class. */
    method InClass(k: nat, ptr: nat, l: Layout, m: Layout, ghost j: nat) returns (r: Option<nat>)
      requires Valid() && HomeOf(l) == HomeOf(m) == Some(k) && k < |classes| && ValidLayout(m)
      requires j < |live| && live[j].ptr == ptr && live[j].layout == l
      modifies this`info, this`live, classes[k]
      ensures Valid() && Resized(old(live), old(memory), live, memory, j, r, m)
      ensures r == Some(ptr) && f.refusals == old(f.refusals)
    {
      hide HomeOf, Valid, Resized, Without, Replaced, ValidLayout, ValidLayouts, Separate;
      ghost var was := live;
      ClassResize(k, l, m, j);
      InPlace(was, live, memory, j, m);
      r := Some(ptr);
    }

    /** The route of `realloc()` that stays with whole pages. */
    method OnPages(ptr: nat, l: Layout, m: Layout, ghost j: nat) returns (r: Option<nat>)
      requires Valid() && HomeOf(l).None? && HomeOf(m).None? && ValidLayout(m) && m.align == l.align
      requires j < |live| && live[j].ptr == ptr && live[j].layout == l
      modifies this`info, this`fallbackInfo, this`live, this`next, this`memory, f, f.pages
      ensures Valid() && Resized(old(live), old(memory), live, memory, j, r, m)
      ensures CeilDiv(m.size, PAGE_SIZE) <= CeilDiv(l.size, PAGE_SIZE) ==> r == Some(ptr)
      ensures r.Some? ==>
        (r.value == ptr <==> Extensible(PagesOf(ptr, l), CeilDiv(m.size, PAGE_SIZE), old(f.pages.block)))
      ensures if r.Some? then f.refusals == old(f.refusals)
        else f.refusals > old(f.refusals) || (TooLong(PagesOf(ptr, l), m.size) && f.refusals == old(f.refusals))
    {
      hide Extensible, TooLong, CeilDiv, HomeOf, Valid, SameBytes, Without, Replaced, InBlock, PagesOf;
      forall i: nat, a: nat | i < |live| && i != j && InBlock(live[i], a)
        ensures a / PAGE_SIZE in f.space.owner && !PagesOf(ptr, l).Has(a / PAGE_SIZE)
      {
        OtherPages(this, i, j, a);
      }
      r := BigResize(ptr, l, m, j);
    }

    /** The three routes of `realloc()` that allocate, copy and free. */
    method CopyOver(ptr: nat, l: Layout, m: Layout, ghost j: nat) returns (r: Option<nat>, ok: bool)
      requires Valid() && j < |live| && live[j].ptr == ptr && live[j].layout == l && ValidLayout(m)
      modifies this, f, f.pages, Objects()
      ensures ok ==> Valid() && Resized(old(live), old(memory), live, memory, j, r, m)
      ensures !ok ==> r.None? && live == old(live) && memory == old(memory) && NothingLost(old(f.space), f.space)
      ensures ok && r.None? ==> NoBlock(m, old(f.refusals))
      ensures r.Some? ==> f.refusals == old(f.refusals)
      ensures if ok then f.refusals >= old(f.refusals) else f.refusals > old(f.refusals)
    {
      hide NoBlock, NothingLost, HomeOf, Valid, SameBytes, Without, Replaced;
      ghost var was := live;
      r, ok := Alloc(m);
      if !ok || r.None? {
        return;
      }
      var count := if l.size < m.size then l.size else m.size;
      ghost var n, b := |was|, live[|was|];
      assert live == was + [b];
      forall i: nat, a: nat | i < n && InBlock(was[i], a) ensures !(r.value <= a < r.value + count) {
        assert live[i] == was[i];
        LiveApart(this, i, n, a);
      }
      CopiedSame(memory, ptr, r.value, count, count);
      memory := Copied(memory, ptr, r.value, count);
      Dealloc(ptr, l, j);
      WithoutPush(was, b, j);
      ReplacedBy(was, j, b);
    }

    /** `Dispatcher::unmap()`: with no block live its checks pass, and afterwards no page is left. */
    method Unmap()
      requires Valid() && live == []
      modifies this, f, f.pages, Objects()
      ensures Valid() && live == [] && info.pages.Balance() == 0
      ensures forall k :: 0 <= k < |classes| ==> classes[k].bitmap.len == 0
    {
      hide Valid, Separate;
      NothingOut(this);
      // The assertions at the start of `unmap()` hold.
      assert info.allocations.Balance() == info.bytes.Balance() == info.requested.Balance() == 0;
      assert fallbackInfo.allocations.Balance() == fallbackInfo.bytes.Balance() == 0;
      assert fallbackInfo.requested.Balance() == 0;
      for k := 0 to |classes|
        invariant Valid() && live == [] && forall i :: 0 <= i < k ==> classes[i].clip == []
      {
        SeparateAt(classes, k);
        EmptyClip(k);
      }
      for k := 0 to |classes|
        invariant Valid() && live == [] && forall i :: 0 <= i < |classes| ==> classes[i].clip == []
        invariant forall i :: 0 <= i < k ==> classes[i].bitmap.len == 0
      {
        SeparateAt(classes, k);
        ReleaseClass(k);
      }
      NothingMapped(this);
    }

    method EmptyClip(k: nat)
      requires Valid() && k < |classes|
      modifies classes[k], classes[k].bitmap
      ensures Valid() && classes[k].clip == []
    {
      hide HomeOf, Others, ClassOf, f.Valid, Tally, Accounted, Matches, BigOnes, GetSize, Sum, Infos, Separate, Spared,
           Info.Plus, Info.PagesDeallocation, ValidLayouts;
      ghost var infos := Infos();
      SeparateAt(classes, k);
      UnfillLive(classes[k], f.space, live);
      assert Infos() == infos;
    }

    method ReleaseClass(k: nat)
      requires Valid() && live == [] && k < |classes| && classes[k].clip == []
      modifies this`info, f, classes[k], classes[k].dynamic, classes[k].bitmap, classes[k].quarry
      ensures Valid() && classes[k].clip == [] && classes[k].bitmap.len == 0
    {
      hide HomeOf, Others, ClassOf, f.Valid, Tally, Accounted, Matches, BigOnes, GetSize, Sum, Infos, Separate, Spared,
           Info.Plus, Info.PagesDeallocation, ValidLayouts;
      ghost var s, infos := f.space, Infos();
      SeparateAt(classes, k);
      ClassSpares(live, k);
      var freed := UnmapLive(classes[k], f);
      var loss := Info(ZERO, ZERO, Counter(freed, 0), ZERO);
      PagesLoss(infos[k], freed);
      PagesLoss(info, freed);
      info := info.PagesDeallocation(freed);
      SumUpdate(infos, k, classes[k].info, loss);
      assert Infos() == infos[k := classes[k].info];
      PlusTurns(fallbackInfo, Sum(infos), loss);
      forall j | 0 <= j < |classes| && j != k ensures Accounted(classes[j], f.space, live) {
        OtherClass(classes, j, k);
        AccountedSame(classes[j], s, f.space, ClassOf(k), live);
      }
      BigSame(live, s, f.space, ClassOf(k), next);
    }

    /** `Dispatcher::detailed_info()`. */
    method Detailed() returns (r: DetailedInfo)
      ensures r == DetailedInfo(info, fallbackInfo, Infos())
    {
      var parts: seq<Info> := [];
      for k := 0 to |classes|
        invariant parts == Infos()[..k]
      {
        parts := parts + [classes[k].info];
      }
      r := DetailedInfo(info, fallbackInfo, parts);
    }

    /** Puts a placed block into the books, the counters aside. */
    ghost method AddBig(b: Live, books: Info)
      requires Shape() && f.Valid() && ValidLayouts(live) && ValidLayout(b.layout) && HomeOf(b.layout).None?
      requires forall k :: 0 <= k < |classes| ==> Accounted(classes[k], f.space, live)
      requires BigOnes(live, f.space, next) && Placed(b, f.space) && b.id < next
      requires forall j :: 0 <= j < |live| && HomeOf(live[j].layout).None? ==> live[j].id != b.id
      requires Matches(books, Tally(live, None), Tally(live, None).pages)
      modifies this`live
      ensures live == old(live) + [b] && ValidLayouts(live)
      ensures forall k :: 0 <= k < |classes| ==> Accounted(classes[k], f.space, live)
      ensures BigOnes(live, f.space, next)
      ensures Matches(books.Plus(BigGain(b.layout)), Tally(live, None), Tally(live, None).pages)
    {
      hide HomeOf, Others, ClassOf, f.Valid, Tally, Accounted, Matches, BigOnes, GetSize, Sum, Infos, Separate, Spared,
           BlockBytes, BlockPages, Without, Info.Plus, Gain, Loss, ValidLayouts, Placed;
      var s := f.space;
      OthersRefl(s, iset{});
      forall k | 0 <= k < |classes| ensures Accounted(classes[k], s, live + [b]) {
        AccountedPush(classes[k], s, s, iset{}, live, b);
      }
      BigAdd(live, b, s, next);
      TallyPush(live, b, None);
      LayoutsPush(live, b);
      MatchesBigGain(books, Tally(live, None), b.layout);
      live := live + [b];
    }
  }

  /** What a block of whole pages adds to the counters, and takes off. */
  function BigGain(l: Layout): Info {
    Gain(CeilDiv(l.size, PAGE_SIZE), true, l.size, CeilDiv(l.size, PAGE_SIZE) * PAGE_SIZE)
  }

  function BigLoss(l: Layout): Info {
    Loss(l.size, CeilDiv(l.size, PAGE_SIZE) * PAGE_SIZE, CeilDiv(l.size, PAGE_SIZE))
  }

  lemma MatchesBigGain(i: Info, t: Totals, l: Layout)
    requires Matches(i, t, t.pages) && HomeOf(l).None?
    ensures Matches(i.Plus(BigGain(l)), Books.Plus(t, l), Books.Plus(t, l).pages)
  {
  }

  lemma MatchesBigLoss(i: Info, t: Totals, l: Layout)
    requires Matches(i, Books.Plus(t, l), Books.Plus(t, l).pages) && HomeOf(l).None? && ValidLayout(l)
    ensures Matches(i.Plus(BigLoss(l)), t, t.pages)
  {
    BlockFits(l);
  }

  lemma PlacedAt(live: seq<Live>, s: Space, next: nat, j: nat)
    requires BigOnes(live, s, next) && j < |live| && HomeOf(live[j].layout).None? && ValidLayouts(live)
    ensures ValidLayout(live[j].layout) && live[j].id < next
    ensures (
      var b := PagesOf(live[j].ptr, live[j].layout);
      && 0 < b.start < b.end && b.start * PAGE_SIZE == live[j].ptr && Backed(s, b, Big(live[j].id))
      && Aligned(b.start, live[j].layout.align))
  {
  }

  /** No other live block has the number of block `j`. */
  lemma DropSpares(live: seq<Live>, s: Space, next: nat, j: nat, mine: iset<Owner>)
    requires BigOnes(live, s, next) && j < |live| && HomeOf(live[j].layout).None?
    requires mine <= iset{Big(live[j].id), Big(next)}
    ensures Spared(Without(live, j), mine)
    ensures forall k: nat :: mine !! ClassOf(k)
  {
    hide HomeOf;
    var after := Without(live, j);
    forall i | 0 <= i < |after| && HomeOf(after[i].layout).None? ensures Big(after[i].id) !in mine {
      assert after[i] == if i < j then live[i] else live[i + 1];
    }
  }

  lemma SparedIds(live: seq<Live>, mine: iset<Owner>, id: nat)
    requires Spared(live, mine) && Big(id) in mine
    ensures forall j :: 0 <= j < |live| && HomeOf(live[j].layout).None? ==> live[j].id != id
  {
  }

  /** Block `j` was put at risk and is still in place. */
  lemma BigKeptAt(live: seq<Live>, j: nat, s: Space, t: Space, mine: iset<Owner>, next: nat)
    requires BigOnes(live, s, next) && j < |live| && Others(s, t, mine) && Spared(Without(live, j), mine)
    requires Placed(live[j], t)
    ensures BigOnes(live, t, next)
  {
    hide HomeOf, Placed, Others;
    BigDrop(live, j, s, t, mine, next);
    var after := Without(live, j);
    forall i | 0 <= i < |live| && HomeOf(live[i].layout).None? ensures Placed(live[i], t) && live[i].id < next {
      assert i < j ==> after[i] == live[i];
      assert i > j ==> after[i - 1] == live[i];
    }
  }

  lemma ShorterExtends(a: Block, count: nat, free: Block)
    requires a.Valid()
    ensures count <= a.Count() ==> Extensible(a, count, free)
  {
  }

  lemma ReplacedBy(live: seq<Live>, j: nat, b: Live)
    requires j < |live|
    ensures Replaced(live, Without(live, j) + [b], j, b.ptr, b.layout)
  {
  }

  /** Moving the pages moves the bytes that both layouts have. */
  lemma MovedBytes(before: nat -> bv8, after: nat -> bv8, a: Block, b: Block, l: Layout, m: Layout)
    requires a.Valid() && b.Valid() && BytesMoved(before, after, a, b)
    requires a.Count() == CeilDiv(l.size, PAGE_SIZE) && b.Count() == CeilDiv(m.size, PAGE_SIZE)
    ensures SameBytes(before, a.start * PAGE_SIZE, after, b.start * PAGE_SIZE,
                      if l.size < m.size then l.size else m.size)
  {
    hide SameBytes;
    SameShorter(before, a.start * PAGE_SIZE, after, b.start * PAGE_SIZE, LeastCount(a, b) * PAGE_SIZE,
                if l.size < m.size then l.size else m.size);
  }

  /** All live blocks, but for one, have the bytes they had. */
  ghost predicate Kept(live: seq<Live>, except: Option<nat>, before: nat -> bv8, after: nat -> bv8) {
    forall i: nat, a: nat | i < |live| && (except.Some? ==> except.value != i) && InBlock(live[i], a) ::
      after(a) == before(a)
  }

  lemma SameAlign(l: Layout, m: Layout)
    requires ValidLayout(l) && m.align == l.align && m.size > 0
    ensures ValidLayout(m)
  {
  }

  lemma WithoutPush(live: seq<Live>, b: Live, j: nat)
    requires j < |live|
    ensures Without(live + [b], j) == Without(live, j) + [b]
  {
  }

  /** What `realloc()` of block `j` promises. */
  ghost predicate Resized(live: seq<Live>, memory: nat -> bv8, live': seq<Live>, memory': nat -> bv8, j: nat,
                          r: Option<nat>, m: Layout)
    requires j < |live|
  {
    && (r.None? ==> live' == live && Kept(live, None, memory, memory'))
    && (r.Some? ==>
          && Replaced(live, live', j, r.value, m)
          && SameBytes(memory, live[j].ptr, memory', r.value,
                       if live[j].layout.size < m.size then live[j].layout.size else m.size)
          && Kept(live, Some(j), memory, memory'))
  }

  lemma InPlace(live: seq<Live>, live': seq<Live>, memory: nat -> bv8, j: nat, m: Layout)
    requires j < |live| && Replaced(live, live', j, live[j].ptr, m)
    ensures Resized(live, memory, live', memory, j, Some(live[j].ptr), m)
  {
  }

  lemma HomeInside(l: Layout)
    requires ValidLayout(l)
    ensures HomeOf(l).Some? ==> HomeOf(l).value < FIXED_SIZE_COUNT
  {
    BlockFits(l);
  }

  lemma LayoutAt(live: seq<Live>, j: nat)
    requires ValidLayouts(live) && j < |live|
    ensures ValidLayout(live[j].layout)
  {
  }

  lemma LayoutsPush(live: seq<Live>, b: Live)
    requires ValidLayouts(live) && ValidLayout(b.layout)
    ensures ValidLayouts(live + [b])
  {
  }

  lemma LayoutsWithout(live: seq<Live>, j: nat)
    requires ValidLayouts(live) && j < |live|
    ensures ValidLayouts(Without(live, j))
  {
  }

  lemma AlignmentOf(l: Layout)
    requires ValidLayout(l)
    ensures Alignment(l.align) && l.size > 0
  {
    hide Pow2, Alignment;
    var k: nat :| l.align == Pow2(k);
    PowersAreAlignments(k);
  }

  lemma NextSpares(live: seq<Live>, s: Space, next: nat)
    requires BigOnes(live, s, next)
    ensures Spared(live, iset{Big(next)})
    ensures forall j :: 0 <= j < |live| && HomeOf(live[j].layout).None? ==> live[j].id < next
  {
  }

  lemma BigMore(live: seq<Live>, s: Space, next: nat)
    requires BigOnes(live, s, next)
    ensures BigOnes(live, s, next + 1)
  {
  }

  lemma ClassNotBig(kind: nat, id: nat)
    ensures iset{Big(id)} !! ClassOf(kind)
  {
  }

  lemma PlacedBlock(s: Space, b: Block, new_: Live)
    requires 0 < b.start < b.end && Backed(s, b, Big(new_.id)) && b.Count() == CeilDiv(new_.layout.size, PAGE_SIZE)
    requires new_.ptr == b.start * PAGE_SIZE && Aligned(b.start, new_.layout.align)
    ensures Placed(new_, s)
  {
    assert PagesOf(new_.ptr, new_.layout) == b;
  }

  /** Both counters of a change move by it. */
  lemma PlusTurns2(a: Info, b: Info, d: Info)
    ensures a.Plus(b).Plus(d) == a.Plus(d).Plus(b)
  {
  }

  // ---------------------------------------------------------------------------------------------
  // Live blocks share no byte

  ghost predicate InBlock(b: Live, a: nat) { b.ptr <= a < b.ptr + b.layout.size }

  /** A byte of a block of a size class belongs to a block index. */
  lemma ClassByte(c: SizeClass, s: Space, live: seq<Live>, j: nat, a: nat) returns (i: nat)
    requires Accounted(c, s, live) && c.size == GetSize(c.kind) && ValidLayouts(live)
    requires j < |live| && HomeOf(live[j].layout) == Some(c.kind) && InBlock(live[j], a)
    ensures SlabIndex(c.size, i) < SlabsFor(c.size, c.bitmap.len) <= |c.quarry.slabs|
    ensures Address(c.quarry.slabs, c.size, i) == live[j].ptr && ByteOf(c.quarry.slabs, c.size, i, a)
    ensures a / PAGE_SIZE in s.owner && IsSlab(s.owner[a / PAGE_SIZE], c.kind)
  {
    hide HomeOf, Owned, SlabIndex, SlabsFor, GetSize, c.quarry.Holds, c.dynamic.Holds, Address;
    PtrsOwn(live, j);
    i :| i in c.bitmap.Used() && Address(c.quarry.slabs, c.size, i) == live[j].ptr;
    BlockFits(live[j].layout);
    BlockOfClass(live[j].layout);
    ByteHome(s, c.kind, c.quarry.slabs, SlabsFor(c.size, c.bitmap.len), c.size, i, a);
  }

  lemma BigByte(live: seq<Live>, s: Space, next: nat, j: nat, a: nat)
    requires BigOnes(live, s, next) && j < |live| && HomeOf(live[j].layout).None? && InBlock(live[j], a)
    ensures a / PAGE_SIZE in s.owner && s.owner[a / PAGE_SIZE] == Big(live[j].id)
  {
    hide HomeOf;
    assert Placed(live[j], s);
    assert PagesOf(live[j].ptr, live[j].layout).Has(a / PAGE_SIZE);
    assert Of(s, a / PAGE_SIZE, Big(live[j].id));
  }

  /** The page of a live byte is reserved. */
  lemma LiveOwned(d: Dispatcher, j: nat, a: nat)
    requires d.Valid() && j < |d.live| && InBlock(d.live[j], a)
    ensures a / PAGE_SIZE in d.f.space.owner
    ensures HomeOf(d.live[j].layout).None? ==> d.f.space.owner[a / PAGE_SIZE] == Big(d.live[j].id)
    ensures HomeOf(d.live[j].layout).Some? ==> IsSlab(d.f.space.owner[a / PAGE_SIZE], HomeOf(d.live[j].layout).value)
  {
    hide HomeOf, Accounted, BigOnes, InBlock, d.f.Valid, Tally, Matches, Sum, Separate;
    LayoutAt(d.live, j);
    BlockFits(d.live[j].layout);
    match HomeOf(d.live[j].layout)
    case Some(k) =>
      SeparateAt(d.classes, k);
      var i := ClassByte(d.classes[k], d.f.space, d.live, j, a);
    case None => BigByte(d.live, d.f.space, d.next, j, a);
  }

  predicate MultipleOf(ptr: nat, align: nat) { align > 0 && ptr % align == 0 }

  /** Live blocks start at multiples of the alignment asked for. */
  lemma LiveAligned(d: Dispatcher, j: nat)
    requires d.Valid() && j < |d.live|
    ensures MultipleOf(d.live[j].ptr, d.live[j].layout.align)
  {
    hide HomeOf, Accounted, BigOnes, d.f.Valid, Tally, Matches, Sum, Separate, ValidLayout, MultipleOf;
    LayoutAt(d.live, j);
    HomeInside(d.live[j].layout);
    match HomeOf(d.live[j].layout)
    case Some(k) =>
      SeparateAt(d.classes, k);
      ClassAligned(d.classes[k], d.f.space, d.live, j);
    case None => BigAligned(d.live, d.f.space, d.next, j);
  }

  lemma ClassAligned(c: SizeClass, s: Space, live: seq<Live>, j: nat)
    requires Accounted(c, s, live) && c.size == GetSize(c.kind) && ValidLayouts(live)
    requires j < |live| && HomeOf(live[j].layout) == Some(c.kind)
    ensures MultipleOf(live[j].ptr, live[j].layout.align)
  {
    hide Owned, SlabIndex, SlabsFor, GetSize, c.quarry.Holds, c.dynamic.Holds, Address, ValidLayout, FixedSizeIndex;
    LayoutAt(live, j);
    LayoutPositive(live[j].layout);
    var i := ClassByte(c, s, live, j, live[j].ptr);
    ClassServes(live[j].layout);
    BlocksAligned(live[j].layout, c.quarry.slabs, i);
  }

  lemma LayoutPositive(l: Layout)
    requires ValidLayout(l)
    ensures l.size > 0
  {
  }

  lemma BigAligned(live: seq<Live>, s: Space, next: nat, j: nat)
    requires BigOnes(live, s, next) && j < |live| && HomeOf(live[j].layout).None? && ValidLayouts(live)
    ensures MultipleOf(live[j].ptr, live[j].layout.align)
  {
    hide Backed, HomeOf;
    PlacedAt(live, s, next, j);
  }

  lemma ResizedAligned(d: Dispatcher, live: seq<Live>, memory: nat -> bv8, j: nat, ptr: nat, m: Layout)
    requires d.Valid() && j < |live| && Resized(live, memory, d.live, d.memory, j, Some(ptr), m)
    ensures MultipleOf(ptr, m.align)
  {
    hide d.Valid, MultipleOf, SameBytes, Kept, Without;
    LiveAligned(d, |d.live| - 1);
  }

  /** The pages of block `j` hold no byte of another live block. */
  lemma OtherPages(d: Dispatcher, i: nat, j: nat, a: nat)
    requires d.Valid() && i < |d.live| && j < |d.live| && i != j && InBlock(d.live[i], a)
    requires HomeOf(d.live[j].layout).None?
    ensures a / PAGE_SIZE in d.f.space.owner && !PagesOf(d.live[j].ptr, d.live[j].layout).Has(a / PAGE_SIZE)
  {
    hide HomeOf, Accounted, InBlock, d.f.Valid, Tally, Matches, Sum, Separate, ValidLayouts, PagesOf;
    LiveOwned(d, i, a);
    assert Placed(d.live[j], d.f.space);
  }

  /** Every byte of a live block lies on a mapped page. */
  lemma LiveMapped(d: Dispatcher, j: nat, a: nat)
    requires d.Valid() && j < |d.live| && InBlock(d.live[j], a)
    ensures a / PAGE_SIZE in d.f.space.mapped
  {
    hide HomeOf, Accounted, BigOnes, InBlock, d.f.Valid, Tally, Matches, Sum, Separate, PagesOf;
    LayoutAt(d.live, j);
    HomeInside(d.live[j].layout);
    match HomeOf(d.live[j].layout)
    case Some(k) =>
      SeparateAt(d.classes, k);
      ClassMapped(d.classes[k], d.f.space, d.live, j, a);
    case None => BigMapped(d.live, d.f.space, d.next, j, a);
  }

  lemma ClassMapped(c: SizeClass, s: Space, live: seq<Live>, j: nat, a: nat)
    requires Accounted(c, s, live) && c.size == GetSize(c.kind) && ValidLayouts(live)
    requires j < |live| && HomeOf(live[j].layout) == Some(c.kind) && InBlock(live[j], a)
    ensures a / PAGE_SIZE in s.mapped
  {
    hide HomeOf, GetSize, c.Stocked, Tally, Matches;
    PtrsOwn(live, j);
    BlockFits(live[j].layout);
    BlockOfClass(live[j].layout);
    TakenMapped(c, s, live[j].ptr, a);
  }

  lemma BigMapped(live: seq<Live>, s: Space, next: nat, j: nat, a: nat)
    requires BigOnes(live, s, next) && j < |live| && HomeOf(live[j].layout).None? && InBlock(live[j], a)
    ensures a / PAGE_SIZE in s.mapped
  {
    hide HomeOf, Aligned;
    assert Placed(live[j], s);
    assert PagesOf(live[j].ptr, live[j].layout).Has(a / PAGE_SIZE);
  }

  lemma LiveApart(d: Dispatcher, i: nat, j: nat, a: nat)
    requires d.Valid() && i < j < |d.live| && InBlock(d.live[i], a)
    ensures !InBlock(d.live[j], a)
  {
    hide HomeOf, Accounted, InBlock, d.f.Valid, Tally, Matches, Sum, Separate, Placed, ValidLayouts;
    if InBlock(d.live[j], a) {
      LiveOwned(d, i, a);
      LiveOwned(d, j, a);
      var home := HomeOf(d.live[i].layout);
      assert home == HomeOf(d.live[j].layout);
      assert home.Some?;
      LayoutAt(d.live, i);
      BlockFits(d.live[i].layout);
      SameClassApart(d, home.value, i, j, a);
    }
  }

  lemma SameClassApart(d: Dispatcher, k: nat, i: nat, j: nat, a: nat)
    requires d.Valid() && k < |d.classes| && i < j < |d.live| && InBlock(d.live[i], a)
    requires HomeOf(d.live[i].layout) == HomeOf(d.live[j].layout) == Some(k)
    ensures !InBlock(d.live[j], a)
  {
    hide HomeOf, InBlock, d.f.Valid, Tally, Matches, Sum, Separate, BigOnes, Owned, SlabIndex, SlabsFor, Address,
         ByteOf;
    SeparateAt(d.classes, k);
    var c := d.classes[k];
    if InBlock(d.live[j], a) {
      var x := ClassByte(c, d.f.space, d.live, i, a);
      var y := ClassByte(c, d.f.space, d.live, j, a);
      BlocksApart(d.f.space, c.kind, c.quarry.slabs, SlabsFor(c.size, c.bitmap.len), c.size, x, y, a);
    }
  }

  ghost predicate NothingCounted(i: Info) {
    i.allocations.Balance() == 0 && i.bytes.Balance() == 0 && i.requested.Balance() == 0
  }

  lemma {:induction false} SumCountsNothing(infos: seq<Info>)
    requires forall k :: 0 <= k < |infos| ==> NothingCounted(infos[k])
    ensures NothingCounted(Sum(infos))
  {
    if infos != [] { SumCountsNothing(infos[1..]); }
  }

  lemma {:induction false} SumMapsNothing(infos: seq<Info>)
    requires forall k :: 0 <= k < |infos| ==> infos[k].pages.Balance() == 0
    ensures Sum(infos).pages.Balance() == 0
  {
    if infos != [] { SumMapsNothing(infos[1..]); }
  }

  lemma NothingOut(d: Dispatcher)
    requires d.Valid() && d.live == []
    ensures NothingCounted(d.info) && NothingCounted(d.fallbackInfo) && d.fallbackInfo.pages.Balance() == 0
  {
    hide BigOnes, Sum, Separate, d.f.Valid;
    forall k | 0 <= k < |d.classes| ensures NothingCounted(d.Infos()[k]) {
      assert Accounted(d.classes[k], d.f.space, d.live);
    }
    SumCountsNothing(d.Infos());
  }

  lemma NothingMapped(d: Dispatcher)
    requires d.Valid() && d.live == [] && forall k :: 0 <= k < |d.classes| ==> d.classes[k].bitmap.len == 0
    ensures d.info.pages.Balance() == 0
  {
    hide BigOnes, Sum, Separate, d.f.Valid, Footprint;
    NothingOut(d);
    forall k | 0 <= k < |d.classes| ensures d.Infos()[k].pages.Balance() == 0 {
      assert Accounted(d.classes[k], d.f.space, d.live);
      NoFootprint(d.classes[k].size);
    }
    SumMapsNothing(d.Infos());
  }

  /** The total is the sum of the parts, and every part is valid. */
  lemma BooksBalance(d: Dispatcher)
    requires d.Valid()
    ensures AddsUp(DetailedInfo(d.info, d.fallbackInfo, d.Infos()))
  {
    hide Accounted, BigOnes, Tally, HomeOf, Sum, Info.IsValid, Info.Plus, Matches, d.f.Valid;
    forall k | 0 <= k < |d.classes| ensures d.Infos()[k].IsValid() {
      SeparateAt(d.classes, k);
      ClassValid(d.classes[k], d.f.space, d.live);
    }
    var t := Tally(d.live, None);
    TallyFits(d.live, None);
    MatchesValid(d.fallbackInfo, t, t.pages);
    SumValid(d.Infos());
    PlusValid(d.fallbackInfo, Sum(d.Infos()));
  }

  lemma ClassValid(c: SizeClass, s: Space, live: seq<Live>)
    requires Accounted(c, s, live) && ValidLayouts(live) && c.size == GetSize(c.kind)
    ensures c.info.IsValid()
  {
    hide HomeOf, Tally, Info.IsValid, PagesFor, GetSize, c.Stocked, Matches, PerSlab;
    var t, len := Tally(live, Some(c.kind)), c.bitmap.len;
    TallyFits(live, Some(c.kind));
    CountsPtrs(live, Some(c.kind));
    OutBound(c, s);
    PagesHold(c.size, len);
    MulLe(t.count, len, c.size);
    MulLe(PagesFor(c.size, len), Footprint(c.size, len), PAGE_SIZE);
    MatchesValid(c.info, t, Footprint(c.size, len));
  }

  lemma OutBound(c: SizeClass, s: Space)
    requires c.Valid(s)
    ensures |c.Out()| <= c.bitmap.len
  {
    hide Addresses, Owned, InSlabs, c.quarry.Holds, c.dynamic.Holds;
    AddressesCount(s, c.kind, c.quarry.slabs, SlabsFor(c.size, c.bitmap.len), c.size, c.bitmap.Used());
    UsedBound(c.bitmap.words, c.bitmap.len);
    Subset(c.Out(), c.Taken());
  }

  lemma PlusValid(a: Info, b: Info)
    requires a.IsValid() && b.IsValid()
    ensures a.Plus(b).IsValid()
  {
  }

  lemma EmptyAccounted(c: SizeClass, s: Space)
    requires Empty(c, s)
    ensures Accounted(c, s, []) && c.info == NO_INFO
  {
    OffsetBound(c.size, 0);
    CountOrder(0, 0);
    assert Ptrs([], Some(c.kind)) == {};
  }

  lemma NothingLive(s: Space)
    ensures BigOnes([], s, 0) && Tally([], None) == NOTHING && Matches(NO_INFO, NOTHING, 0)
  {
  }

  lemma {:induction false} SumOfNothing(infos: seq<Info>)
    requires forall k :: 0 <= k < |infos| ==> infos[k] == NO_INFO
    ensures Sum(infos) == NO_INFO
  {
    hide Info.Plus;
    if infos != [] {
      SumOfNothing(infos[1..]);
      NothingPlus(infos[0], Sum(infos[1..]));
    }
  }

  lemma SeparateAt(classes: seq<SizeClass>, k: nat)
    requires Separate(classes) && k < |classes|
    ensures classes[k].kind == k && classes[k].size == GetSize(k)
    ensures forall j :: 0 <= j < |classes| && j != k ==> Apart(classes[j], classes[k])
  {
  }

  lemma OtherClass(classes: seq<SizeClass>, j: nat, k: nat)
    requires Separate(classes) && j < |classes| && k < |classes| && j != k
    ensures classes[j].kind == j && ClassOf(k) !! ClassOf(j)
  {
  }

  lemma PlusTurns(a: Info, b: Info, d: Info)
    ensures a.Plus(b).Plus(d) == a.Plus(b.Plus(d))
  {
  }

  lemma AccountedSame(c: SizeClass, s: Space, t: Space, mine: iset<Owner>, live: seq<Live>)
    requires Accounted(c, s, live) && Others(s, t, mine) && mine !! ClassOf(c.kind)
    ensures Accounted(c, t, live)
  {
    hide c.Valid, c.Out, ClassOf, Others, Ptrs, Tally, DistinctPtrs;
    ValidKept(c, s, t, mine);
  }

  /** The live blocks of whole pages are not among what `mine` owns. */
  ghost predicate Spared(live: seq<Live>, mine: iset<Owner>) {
    forall j :: 0 <= j < |live| && HomeOf(live[j].layout).None? ==> Big(live[j].id) !in mine
  }

  lemma ClassSpares(live: seq<Live>, k: nat)
    ensures Spared(live, ClassOf(k))
  {
  }

  lemma BigSame(live: seq<Live>, s: Space, t: Space, mine: iset<Owner>, next: nat)
    requires BigOnes(live, s, next) && Others(s, t, mine) && Spared(live, mine)
    ensures BigOnes(live, t, next)
  {
    hide HomeOf, Backed, Others;
    forall j | 0 <= j < |live| && HomeOf(live[j].layout).None? ensures Placed(live[j], t) {
      BackedKept(s, t, mine, PagesOf(live[j].ptr, live[j].layout), Big(live[j].id));
    }
  }

  lemma BigDrop(live: seq<Live>, j: nat, s: Space, t: Space, mine: iset<Owner>, next: nat)
    requires BigOnes(live, s, next) && j < |live| && Others(s, t, mine) && Spared(Without(live, j), mine)
    ensures BigOnes(Without(live, j), t, next)
  {
    hide HomeOf, Backed, Others, Placed;
    var after := Without(live, j);
    forall i | 0 <= i < |after| ensures after[i] == (if i < j then live[i] else live[i + 1]) { }
    assert BigOnes(after, s, next);
    BigSame(after, s, t, mine, next);
  }

  /** A block of whole pages more. */
  lemma BigAdd(live: seq<Live>, b: Live, t: Space, next: nat)
    requires BigOnes(live, t, next) && Placed(b, t) && b.id < next
    requires forall j :: 0 <= j < |live| && HomeOf(live[j].layout).None? ==> live[j].id != b.id
    ensures BigOnes(live + [b], t, next)
  {
    hide HomeOf, Placed;
  }

  /** A block of a size class more. */
  lemma BigPush(live: seq<Live>, b: Live, s: Space, t: Space, mine: iset<Owner>, next: nat)
    requires BigOnes(live, s, next) && Others(s, t, mine) && Spared(live, mine) && HomeOf(b.layout).Some?
    ensures BigOnes(live + [b], t, next)
  {
    BigSame(live, s, t, mine, next);
  }

  // ---------------------------------------------------------------------------------------------
  // Any sequence of calls

  datatype Request = Allocate(layout: Layout) | Free(n: nat) | Resize(n: nat, size: nat)

  datatype Held = Held(ptr: nat, layout: Layout)

  /** The caller knows its blocks. */
  ghost predicate Knows(mine: seq<Held>, live: seq<Live>) {
    |mine| == |live| && forall i :: 0 <= i < |live| ==> mine[i].ptr == live[i].ptr && mine[i].layout == live[i].layout
  }

  lemma KnowsLess(mine: seq<Held>, live: seq<Live>, j: nat)
    requires Knows(mine, live) && j < |live|
    ensures Knows(Except(mine, j), Without(live, j))
  {
  }

  lemma KnowsReplaced(mine: seq<Held>, live: seq<Live>, live': seq<Live>, j: nat, ptr: nat, m: Layout)
    requires Knows(mine, live) && Replaced(live, live', j, ptr, m)
    ensures Knows(Except(mine, j) + [Held(ptr, m)], live')
  {
    KnowsLess(mine, live, j);
    assert live' == live'[..|live| - 1] + [live'[|live| - 1]];
  }

  function Except(mine: seq<Held>, j: nat): seq<Held>
    requires j < |mine|
  {
    mine[..j] + mine[j + 1..]
  }

  /** What a request does to the caller's blocks; a request for memory may be answered with null. */
  predicate Answered(mine: seq<Held>, request: Request, mine': seq<Held>) {
    match request
    case Allocate(l) => mine' == mine || (|mine'| == |mine| + 1 && mine' == mine + [Held(mine'[|mine|].ptr, l)])
    case Free(j) => mine' == if j < |mine| then Except(mine, j) else mine
    case Resize(j, size) =>
      || mine' == mine
      || (j < |mine| == |mine'| && size > 0 &&
          mine' == Except(mine, j) + [Held(mine'[|mine| - 1].ptr, Layout(size, mine[j].layout.align))])
  }

  /** From each list of blocks to the next one a request was answered. */
  ghost predicate AllAnswered(lists: seq<seq<Held>>, requests: seq<Request>)
    ensures AllAnswered(lists, requests) ==> 0 < |lists| <= |requests| + 1
  {
    && 0 < |lists| <= |requests| + 1 && lists[0] == []
    && forall n :: 0 <= n < |lists| - 1 ==> Answered(lists[n], requests[n], lists[n + 1])
  }

  lemma NoneAnswered(requests: seq<Request>)
    ensures AllAnswered([[]], requests)
  {
  }

  lemma MoreAnswered(lists: seq<seq<Held>>, requests: seq<Request>, mine: seq<Held>)
    requires AllAnswered(lists, requests) && |lists| <= |requests|
    requires Answered(lists[|lists| - 1], requests[|lists| - 1], mine)
    ensures AllAnswered(lists + [mine], requests)
  {
    hide Answered;
  }

  /** After any calls, none of them short of pages for a size class, `DetailedInfo::is_valid()` holds, and the live
      blocks are those that the answers make the caller's. */
  method Serve(d: Dispatcher, requests: seq<Request>)
    returns (ok: bool, valid: bool, mine: seq<Held>, ghost lists: seq<seq<Held>>)
    requires d.Valid() && d.live == []
    requires forall n :: 0 <= n < |requests| && requests[n].Allocate? ==> ValidLayout(requests[n].layout)
    modifies d, d.f, d.f.pages, d.Objects()
    ensures ok ==> d.Valid() && valid && Knows(mine, d.live)
    ensures AllAnswered(lists, requests) && (ok ==> |lists| == |requests| + 1 && lists[|requests|] == mine)
    ensures !ok ==> d.f.refusals > old(d.f.refusals)
  {
    hide d.Valid, Knows, ValidLayout, Answered, AllAnswered;
    mine, lists, ok := [], [[]], true;
    KnowsNothing();
    NoneAnswered(requests);
    for n := 0 to |requests|
      invariant ok && d.Valid() && Knows(mine, d.live) && d.f.refusals >= old(d.f.refusals)
      invariant AllAnswered(lists, requests) && |lists| == n + 1 && lists[n] == mine
    {
      ok, mine := ServeOne(d, requests[n], mine);
      if !ok {
        return false, false, mine, lists;
      }
      MoreAnswered(lists, requests, mine);
      lists := lists + [mine];
    }
    valid := Audit(d);
  }

  method Audit(d: Dispatcher) returns (valid: bool)
    requires d.Valid()
    ensures valid
  {
    hide d.Valid, AddsUp;
    BooksBalance(d);
    var detailed := d.Detailed();
    valid := DetailedIsValid(detailed);
  }

  lemma KnowsNothing()
    ensures Knows([], [])
  {
  }

  method ServeOne(d: Dispatcher, request: Request, mine: seq<Held>) returns (ok: bool, mine': seq<Held>)
    requires d.Valid() && Knows(mine, d.live) && (request.Allocate? ==> ValidLayout(request.layout))
    modifies d, d.f, d.f.pages, d.Objects()
    ensures ok ==> d.Valid() && Knows(mine', d.live)
    ensures if ok then d.f.refusals >= old(d.f.refusals) else d.f.refusals > old(d.f.refusals)
    ensures ok ==> Answered(mine, request, mine')
    ensures ok && request.Allocate? && mine' == mine ==> d.NoBlock(request.layout, old(d.f.refusals))
  {
    hide d.Valid, Without, Replaced, HomeOf, ValidLayout, SameBytes, Kept, d.NoBlock;
    mine', ok := mine, true;
    var r: Option<nat>;
    match request
    case Allocate(l) =>
      ghost var was := d.live;
      r, ok := d.Alloc(l);
      if ok && r.Some? {
        mine' := mine + [Held(r.value, l)];
      }
    case Free(j) =>
      if j < |mine| {
        KnowsLess(mine, d.live, j);
        d.Dealloc(mine[j].ptr, mine[j].layout, j);
        mine' := Except(mine, j);
      }
    case Resize(j, size) =>
      if j < |mine| && size > 0 {
        ghost var was := d.live;
        r, ok := d.Realloc(mine[j].ptr, mine[j].layout, size, j);
        if ok && r.Some? {
          var m := Layout(size, mine[j].layout.align);
          KnowsReplaced(mine, was, d.live, j, r.value, m);
          mine' := Except(mine, j) + [Held(r.value, m)];
        }
      }
  }
}
