/** The allocator of virtual pages: one shrinking block of free pages. */
module PageAllocator {
  import opened Mmu
  import opened Addr
  import opened Frage

  /** A half-open range of page numbers. */
  datatype Block = Block(start: nat, end: nat) {
    predicate Valid() { start <= end }
    function Count(): nat
      requires Valid()
    {
      end - start
    }
    predicate IsEmpty() { start == end }
    predicate Has(p: nat) { start <= p < end }

    /** `Block::contains_block()`. */
    predicate Contains(b: Block) { start <= b.start && b.end <= end }

    /** `Block::is_disjoint()`. */
    predicate Disjoint(b: Block) {
      IsEmpty() || b.IsEmpty() || (!Has(b.start) && !b.Has(start))
    }
  }

  const NO_PAGES := Block(0, 0)

  predicate SamePageHalf(i: nat, j: nat) { (i < LowerHalfEnd(L0_SIZE)) == (j < LowerHalfEnd(L0_SIZE)) }

  /** `Block::<Page>::from_index()`. */
  function FromIndexes(start: nat, end: nat): Result<Block> {
    var last := if start < end then end - 1 else end;
    if FromIndex(L0_SIZE, start).Err? then Err(FromIndex(L0_SIZE, start).error)
    else if FromIndex(L0_SIZE, last).Err? then Err(FromIndex(L0_SIZE, last).error)
    else if start <= end && SamePageHalf(start, last) then Ok(Block(start, end))
    else Err(InvalidArgument)
  }

  /** A block of pages that lies in one half of the address space. */
  predicate InHalf(b: Block) {
    b.start <= b.end && (b.end <= LowerHalfEnd(L0_SIZE) || HigherHalfStart(L0_SIZE) <= b.start)
    && b.start < HigherHalfEnd(L0_SIZE) && b.end <= HigherHalfEnd(L0_SIZE)
    && b.start != LowerHalfEnd(L0_SIZE)
  }

  lemma SubBlockOk(b: Block, start: nat, end: nat)
    requires InHalf(b) && b.start <= start <= end <= b.end
    requires start < end || start == b.start
    ensures FromIndexes(start, end) == Ok(Block(start, end)) && InHalf(Block(start, end))
  {
    HalvesValues(L0_SIZE);
    FromIndexIsPage(L0_SIZE, start);
    FromIndexIsPage(L0_SIZE, if start < end then end - 1 else end);
  }

  /** The block does not reach the end of its half of the address space. */
  predicate Inner(b: Block) { b.end != LowerHalfEnd(L0_SIZE) && b.end != HigherHalfEnd(L0_SIZE) }

  /** The pages of two blocks are apart. */
  ghost predicate Apart(a: Block, b: Block) { forall p: nat :: !(a.Has(p) && b.Has(p)) }

  function CeilDiv(a: nat, b: nat): nat
    requires b > 0
  {
    (a + b - 1) / b
  }

  /** What page allocation needs to know of an alignment. */
  predicate Alignment(align: nat) {
    align > 0 && if align <= PAGE_SIZE then PAGE_SIZE % align == 0 else align % PAGE_SIZE == 0
  }

  /** Alignments of layouts are powers of two, and those divide the page size or are multiples of it. */
  lemma PowersAreAlignments(k: nat)
    ensures Alignment(Pow2(k))
  {
    assert Pow2(12) == PAGE_SIZE by { assert Pow2(9) == 512; }
    Pow2Positive(k);
    if k <= 12 {
      Pow2Add(12 - k, k);
      Pow2Positive(12 - k);
      MulLe(1, Pow2(12 - k), Pow2(k));
      DivUnique(PAGE_SIZE, Pow2(k), Pow2(12 - k), 0);
    } else {
      Pow2Add(k - 12, 12);
      Pow2Positive(k - 12);
      DivUnique(Pow2(k), PAGE_SIZE, Pow2(k - 12), 0);
    }
  }

  /** Page `start` begins at a multiple of the alignment. */
  predicate Aligned(start: nat, align: nat) { align > 0 && (start * PAGE_SIZE) % align == 0 }

  /** Pages to take off the free block for `size` bytes: those needed, and slack to align them. */
  function Demand(size: nat, align: nat): nat {
    CeilDiv(size, PAGE_SIZE) + if align > PAGE_SIZE then CeilDiv(align, PAGE_SIZE) else 0
  }

  /** Of the pages of `all` before and after `b` the larger part is `left`, and of equal parts the first. */
  ghost predicate LargerPart(all: Block, b: Block, left: Block) {
    && left in {Block(all.start, b.start), Block(b.end, all.end)} && left.Valid()
    && left.Count() >= b.start - all.start && left.Count() >= all.end - b.end
    && (b.start - all.start == all.end - b.end ==> left.end == b.start)
  }

  class PageAllocator {
    var block: Block
    var initialBlock: Block
    /** Blocks handed out so far, by `allocate()` and `reserve()`. */
    ghost var given: seq<Block>

    ghost predicate Valid()
      reads this
    {
      Sound() && Inner(initialBlock)
    }

    /** The blocks handed out are apart from each other and from the free block, inside the initial one. */
    ghost predicate Sound()
      reads this
    {
      && InHalf(block) && InHalf(initialBlock) && initialBlock.Contains(block)
      && (forall i :: 0 <= i < |given| ==>
            given[i].start <= given[i].end && initialBlock.Contains(given[i]) && Apart(given[i], block))
      && (forall i, j :: 0 <= i < j < |given| ==> Apart(given[i], given[j]))
    }

    constructor (free: Block)
      requires InHalf(free)
      ensures Sound() && block == initialBlock == free && given == []
    {
      block, initialBlock, given := free, free, [];
    }

    // A block cut off the free one, and a free block shrunk to avoid it, keep the invariant.
    lemma GiveKeeps(free: Block, b: Block)
      requires Sound() && InHalf(free) && block.Contains(free)
      requires b.start <= b.end && block.Contains(b) && Apart(b, free)
      ensures forall i :: 0 <= i < |given| ==> Apart(given[i], b) && Apart(given[i], free)
    {
      forall i | 0 <= i < |given| ensures Apart(given[i], b) && Apart(given[i], free) {
        forall p: nat ensures !(given[i].Has(p) && b.Has(p)) && !(given[i].Has(p) && free.Has(p)) {
          assert Apart(given[i], block);
        }
      }
    }

    /** `PageAllocator::allocate()`: exactly the pages needed, aligned as asked, never handed out before.
        It fails, changing nothing, exactly when the free pages do not suffice for size and alignment
        slack. */
    method Allocate(size: nat, align: nat) returns (r: Result<Block>)
      requires Sound() && Alignment(align)
      modifies this
      ensures Sound() && initialBlock == old(initialBlock) && old(block).Contains(block)
      ensures r.Err? <==> (size > 0 && Demand(size, align) > old(block).Count())
      ensures r.Err? ==> r.error == NoPage && given == old(given) && block == old(block)
      ensures r.Ok? && size == 0 ==> r.value == NO_PAGES && given == old(given) && block == old(block)
      ensures r.Ok? && size > 0 ==>
        && r.value.start <= r.value.end && r.value.Count() == CeilDiv(size, PAGE_SIZE)
        && Aligned(r.value.start, align)
        && InHalf(r.value) && old(block).Contains(r.value)
        && given == old(given) + [r.value]
      // Pages are cut off the end.
      ensures r.Ok? && size > 0 ==> Demand(size, align) <= old(block).Count()
      ensures r.Ok? && size > 0 ==> block == Block(old(block).start, old(block).end - Demand(size, align))
      ensures r.Ok? && size > 0 && align <= PAGE_SIZE ==> r.value.end == old(block).end
    {
      hide Apart, InHalf, Alignment, CeilDiv, Demand, Skip, FromIndexes, Aligned;
      ShapeOf(block);
      NeededPages(size, align);
      var needed := CeilDiv(size, PAGE_SIZE);
      if needed == 0 {
        return Ok(NO_PAGES);
      }
      var total := Demand(size, align);
      if total > block.Count() {
        return Err(NoPage);
      }
      // `Block::tail()`
      var start, end := block.end - total, block.end;
      var free := Block(block.start, start);
      var skip := Skip(start, align);
      TailFits(block, size, align, start, skip);
      // The two failure exits that the source guards the skip with are never taken.
      assert skip < total && total - skip >= needed;
      var b := Block(start + skip, start + skip + needed);
      GiveKeeps(free, b);
      block := free;
      given := given + [b];
      r := Ok(b);
    }

    /** `PageAllocator::reserve()`: succeeds exactly on free blocks. */
    method Reserve(pages: Block) returns (r: Result<()>)
      requires Valid() && pages.start <= pages.end
      modifies this
      ensures Valid() && initialBlock == old(initialBlock) && old(block).Contains(block)
      ensures r.Ok? <==> old(block).Contains(pages)
      ensures r.Err? ==> r.error == NoPage && block == old(block) && given == old(given)
      ensures r.Ok? ==> given == old(given) + [pages] && Apart(pages, block)
      ensures r.Ok? ==> LargerPart(old(block), pages, block)
    {
      if !block.Contains(pages) {
        return Err(NoPage);
      }
      var free;
      if pages.start - block.start < block.end - pages.end {
        free := Block(pages.end, block.end);
        SubBlockOk(block, pages.end, block.end);
      } else {
        free := Block(block.start, pages.start);
        SubBlockOk(block, block.start, pages.start);
      }
      GiveKeeps(free, pages);
      block := free;
      given := given + [pages];
      r := Ok(());
    }

    /** `PageAllocator::deallocate()` only checks: pages are not reused. It accepts exactly the blocks
        that lie in the initial block and hold no free page. */
    method Deallocate(pages: Block) returns (r: Result<()>)
      requires Valid() && pages.start <= pages.end
      ensures r.Ok? <==> initialBlock.Contains(pages) && Apart(pages, block)
      ensures r.Err? ==> r.error == InvalidArgument
    {
      DisjointIsApart(block, pages);
      r := if initialBlock.Contains(pages) && block.Disjoint(pages) then Ok(()) else Err(InvalidArgument);
    }

    /** `PageAllocator::duplicate()`. */
    method Duplicate() returns (copy: PageAllocator)
      requires Valid()
      ensures fresh(copy) && copy.Valid() && copy.block == copy.initialBlock == initialBlock && copy.given == []
    {
      copy := new PageAllocator(initialBlock);
    }
  }

  /** Pages to skip from page `start` for it to be aligned. */
  function Skip(start: nat, align: nat): nat
    requires Alignment(align)
  {
    AlignmentPositive(align);
    if align > PAGE_SIZE && (start * PAGE_SIZE) % align != 0
    then CeilDiv(align - (start * PAGE_SIZE) % align, PAGE_SIZE) else 0
  }

  lemma AlignmentPositive(align: nat)
    requires Alignment(align)
    ensures align > 0
  {
  }

  lemma NeededPages(size: nat, align: nat)
    ensures CeilDiv(size, PAGE_SIZE) == 0 <==> size == 0
    ensures CeilDiv(size, PAGE_SIZE) <= Demand(size, align)
  {
  }

  lemma ShapeOf(b: Block)
    requires InHalf(b)
    ensures b.start <= b.end
  {
  }

  /** The pages cut off the end of the free block, past the skipped ones, are as asked for. */
  lemma TailFits(b: Block, size: nat, align: nat, start: nat, skip: nat)
    requires InHalf(b) && Alignment(align) && size > 0 && Demand(size, align) <= b.Count()
    requires start == b.end - Demand(size, align)
    requires skip == Skip(start, align)
    ensures var needed := CeilDiv(size, PAGE_SIZE);
      && needed > 0 && skip + needed <= Demand(size, align)
      && (align <= PAGE_SIZE ==> skip + needed == Demand(size, align))
      && Aligned(start + skip, align)
      && InHalf(Block(b.start, start)) && InHalf(Block(start + skip, start + skip + needed))
      && Apart(Block(start + skip, start + skip + needed), Block(b.start, start))
      && FromIndexes(start, b.end).Ok? && FromIndexes(start + skip, start + skip + needed).Ok?
  {
    ShapeOf(b);
    hide InHalf, FromIndexes;
    var needed := CeilDiv(size, PAGE_SIZE);
    if align > PAGE_SIZE {
      if (start * PAGE_SIZE) % align != 0 { SkipAligns(start, align, skip); }
    } else {
      SmallAligns(start, align);
    }
    FreeLeft(b, start);
    SubBlockOk(b, start, b.end);
    SubBlockOk(b, start + skip, start + skip + needed);
  }

  lemma FreeLeft(b: Block, start: nat)
    requires InHalf(b) && b.start <= start <= b.end
    ensures InHalf(Block(b.start, start))
  {
  }

  lemma DisjointIsApart(a: Block, b: Block)
    requires a.start <= a.end && b.start <= b.end
    ensures a.Disjoint(b) <==> Apart(b, a)
  {
    if !a.Disjoint(b) {
      assert (a.Has(b.start) && b.Has(b.start)) || (a.Has(a.start) && b.Has(a.start));
    }
  }

  lemma SmallAligns(start: nat, align: nat)
    requires Alignment(align) && align <= PAGE_SIZE
    ensures (start * PAGE_SIZE) % align == 0
  {
    var k := PAGE_SIZE / align;
    assert PAGE_SIZE == k * align;
    assert start * PAGE_SIZE == (start * k) * align;
    DivUnique(start * PAGE_SIZE, align, start * k, 0);
  }

  /** Skipping to the next multiple of the alignment takes fewer pages than the alignment spans. */
  lemma SkipAligns(start: nat, align: nat, skip: nat)
    requires align > PAGE_SIZE && align % PAGE_SIZE == 0
    requires (start * PAGE_SIZE) % align != 0
    requires skip == CeilDiv(align - (start * PAGE_SIZE) % align, PAGE_SIZE)
    ensures skip < CeilDiv(align, PAGE_SIZE)
    ensures ((start + skip) * PAGE_SIZE) % align == 0
  {
    var a := align / PAGE_SIZE;
    var q, r := start / a, start % a;
    assert align == a * PAGE_SIZE && start == q * a + r;
    assert start * PAGE_SIZE == q * align + r * PAGE_SIZE;
    MulLe(r + 1, a, PAGE_SIZE);
    DivUnique(start * PAGE_SIZE, align, q, r * PAGE_SIZE);
    assert align - r * PAGE_SIZE == (a - r) * PAGE_SIZE;
    assert skip == a - r;
    assert (start + skip) * PAGE_SIZE == (q + 1) * align;
    DivUnique((start + skip) * PAGE_SIZE, align, q + 1, 0);
  }

  // ---------------------------------------------------------------------------------------------

  /** Entries `from .. from + len` are all unused. */
  ghost predicate Unused(root: Table, from: nat, len: nat) {
    from + len <= ENTRY_COUNT && forall i :: from <= i < from + len ==> !root[i].IsPresent()
  }

  /** No run of unused entries in `lo .. hi` is longer than `len`. */
  ghost predicate NoneLonger(root: Table, lo: nat, hi: nat, len: nat) {
    forall f: nat, n: nat :: lo <= f && f + n <= hi && Unused(root, f, n) ==> n <= len
  }

  lemma PresentIsOutside(root: Table, f: nat, n: nat, k: nat)
    requires Unused(root, f, n) && k < ENTRY_COUNT && root[k].IsPresent()
    ensures k < f || f + n <= k
  { }

  /** One more entry: the longest run either ends with it or was there before. */
  lemma NoneLongerNext(root: Table, lo: nat, i: nat, longest: nat, current: nat)
    requires lo <= i < ENTRY_COUNT && NoneLonger(root, lo, i, longest) && current <= i + 1 - lo
    requires current < i + 1 - lo ==> root[i - current].IsPresent()
    ensures NoneLonger(root, lo, i + 1, if current > longest then current else longest)
  {
    forall f: nat, n: nat | lo <= f && f + n <= i + 1 && Unused(root, f, n)
      ensures n <= if current > longest then current else longest
    {
      if current < i + 1 - lo {
        PresentIsOutside(root, f, n, i - current);
      }
    }
  }

  /** The longest run of unused entries in `lo .. hi`. */
  method LongestRun(root: Table, lo: nat, hi: nat) returns (from: nat, len: nat)
    requires lo <= hi <= ENTRY_COUNT
    ensures lo <= from && from + len <= hi && Unused(root, from, len) && NoneLonger(root, lo, hi, len)
  {
    hide NoneLonger;
    from, len := lo, 0;
    var start, current := lo, 0;
    NoRunYet(root, lo);
    for i := lo to hi
      invariant current == 0 || start == i - current
      invariant current <= i - lo && current <= len
      invariant forall j :: i - current <= j < i ==> !root[j].IsPresent()
      invariant current < i - lo ==> root[i - current - 1].IsPresent()
      invariant lo <= from && from + len <= i && Unused(root, from, len)
      invariant NoneLonger(root, lo, i, len)
    {
      if !root[i].IsPresent() {
        if current == 0 {
          start := i;
        }
        current := current + 1;
        NoneLongerNext(root, lo, i, len, current);
        if current > len {
          from, len := start, current;
        }
      } else {
        current := 0;
        NoneLongerNext(root, lo, i, len, 0);
      }
    }
  }

  lemma NoRunYet(root: Table, lo: nat)
    ensures NoneLonger(root, lo, lo, 0)
  {
  }

  /** `PageAllocator::find_unused_block()`: the pages of a longest run of unused root entries in `lo .. hi`. Entries
      of the higher half are numbered as if there were no hole, so a run that reaches there gives nothing. */
  method FindUnusedBlock(root: Table, lo: nat, hi: nat) returns (r: Option<Block>)
    requires lo <= hi <= ENTRY_COUNT
    ensures exists from: nat, len: nat ::
      && lo <= from && from + len <= hi && Unused(root, from, len) && NoneLonger(root, lo, hi, len)
      && r == if len > 0 && from + len <= ENTRY_COUNT / 2
              then Some(Block(from * Reach(3), (from + len) * Reach(3))) else None
    ensures r.Some? ==> InHalf(r.value)
    ensures hi <= ENTRY_COUNT / 2 ==> (r == None <==> forall i :: lo <= i < hi ==> root[i].IsPresent())
  {
    var from, len := LongestRun(root, lo, hi);
    if len > 0 {
      RootBlock(from, len);
      assert !root[from].IsPresent();
      var block := FromIndexes(from * Reach(3), (from + len) * Reach(3));
      r := if block.Ok? then Some(block.value) else None;
    } else {
      forall i | lo <= i < hi ensures root[i].IsPresent() {
        assert Unused(root, i, 1) ==> 1 <= len;
      }
      r := None;
    }
  }

  lemma RootBlock(from: nat, len: nat)
    requires 0 < len && from + len <= ENTRY_COUNT
    ensures (
      var b := Block(from * Reach(3), (from + len) * Reach(3));
      && (from + len <= ENTRY_COUNT / 2 ==> InHalf(b) && FromIndexes(b.start, b.end) == Ok(b))
      && (from + len > ENTRY_COUNT / 2 ==> FromIndexes(b.start, b.end).Err?))
  {
    ReachValues();
    HalvesValues(L0_SIZE);
    var start, end := from * Reach(3), (from + len) * Reach(3);
    if from + len <= ENTRY_COUNT / 2 {
      SubBlockOk(Block(0, LowerHalfEnd(L0_SIZE)), start, end);
    } else {
      FromIndexIsPage(L0_SIZE, end - 1);
    }
  }

  /** `Stack::GUARD_ZONE_SIZE`. */
  const GUARD_ZONE_SIZE := PAGE_SIZE

  /** `PageAllocator::new()`; `None` if it panics, which is when no block is found. One page is cut off the end as a
      guard zone, so that the pages to be handed out never reach the end of their half. */
  method New(root: Table, lo: nat, hi: nat) returns (r: Option<PageAllocator>)
    requires lo <= hi <= ENTRY_COUNT
    ensures r.Some? ==>
      && fresh(r.value) && r.value.Valid() && r.value.given == [] && r.value.block == r.value.initialBlock
      && r.value.block.end < LowerHalfEnd(L0_SIZE)
    ensures exists from: nat, len: nat ::
      && lo <= from && from + len <= hi && Unused(root, from, len) && NoneLonger(root, lo, hi, len)
      && (r.Some? <==> len > 0 && from + len <= ENTRY_COUNT / 2)
      && (r.Some? ==> r.value.block == Block(from * Reach(3), (from + len) * Reach(3) - 1))
  {
    var free := FindUnusedBlock(root, lo, hi);
    ReachValues();
    HalvesValues(L0_SIZE);
    if free.None? {
      return None;
    }
    var pa := new PageAllocator(free.value);
    OnePage();
    var guard := pa.Allocate(GUARD_ZONE_SIZE, PAGE_SIZE);
    assert guard.Ok?;
    pa.initialBlock, pa.given := pa.block, [];
    r := Some(pa);
  }

  lemma OnePage()
    ensures Alignment(PAGE_SIZE) && Demand(GUARD_ZONE_SIZE, PAGE_SIZE) == 1
  {
  }
}
