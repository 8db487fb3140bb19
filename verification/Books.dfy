/** What the statistics should say: tallies over the blocks that are live. */
module Books {
  import opened Mmu
  import opened Addr
  import opened PageAllocator
  import opened Quarry
  import opened Layouts
  import opened Info

  /** A block with its caller. `id` tells blocks of whole pages apart. */
  datatype Live = Live(ptr: nat, layout: Layout, id: nat)

  /** The size class that serves a layout, or none when whole pages are used. */
  function HomeOf(l: Layout): Option<nat> { if l.align > 0 then FixedSizeIndex(l) else None }

  function BlockPages(l: Layout): nat { if HomeOf(l).Some? then 0 else CeilDiv(l.size, PAGE_SIZE) }

  function BlockBytes(l: Layout): nat {
    match HomeOf(l)
    case Some(k) => GetSize(k)
    case None => BlockPages(l) * PAGE_SIZE
  }

  datatype Totals = Totals(bytes: nat, count: nat, pages: nat, requested: nat)

  const NOTHING := Totals(0, 0, 0, 0)

  function Plus(t: Totals, l: Layout): Totals {
    Totals(t.bytes + BlockBytes(l), t.count + 1, t.pages + BlockPages(l), t.requested + l.size)
  }

  /** The live blocks of one size class, or those of whole pages. */
  ghost function Tally(live: seq<Live>, home: Option<nat>): Totals {
    if live == [] then NOTHING
    else
      var rest := Tally(live[1..], home);
      if HomeOf(live[0].layout) == home then Plus(rest, live[0].layout) else rest
  }

  ghost function Without(live: seq<Live>, j: nat): seq<Live>
    requires j < |live|
  {
    live[..j] + live[j + 1..]
  }

  lemma {:induction false} TallyPush(live: seq<Live>, b: Live, home: Option<nat>)
    ensures Tally(live + [b], home) ==
      (if HomeOf(b.layout) == home then Plus(Tally(live, home), b.layout) else Tally(live, home))
  {
    hide HomeOf, BlockBytes, BlockPages;
    if live != [] {
      assert (live + [b])[1..] == live[1..] + [b];
      TallyPush(live[1..], b, home);
    } else {
      assert (live + [b])[1..] == [];
    }
  }

  lemma {:induction false} TallyDrop(live: seq<Live>, j: nat, home: Option<nat>)
    requires j < |live|
    ensures Tally(live, home) == (
      if HomeOf(live[j].layout) == home then Plus(Tally(Without(live, j), home), live[j].layout)
      else Tally(Without(live, j), home))
  {
    hide HomeOf, BlockBytes, BlockPages;
    if j > 0 {
      assert Without(live, j)[1..] == Without(live[1..], j - 1);
      TallyDrop(live[1..], j - 1, home);
    } else {
      assert Without(live, j) == live[1..];
    }
  }

  ghost predicate ValidLayouts(live: seq<Live>) { forall j :: 0 <= j < |live| ==> ValidLayout(live[j].layout) }

  lemma BlockFits(l: Layout)
    requires ValidLayout(l)
    ensures l.size <= BlockBytes(l)
    ensures HomeOf(l).Some? ==> HomeOf(l).value < FIXED_SIZE_COUNT
  {
    ClassServes(l);
    hide FixedSizeIndex;
    if HomeOf(l).None? { CeilOrder(l.size, l.size); }
  }

  lemma {:induction false} TallyFits(live: seq<Live>, home: Option<nat>)
    requires ValidLayouts(live)
    ensures Tally(live, home).requested <= Tally(live, home).bytes
    ensures home.Some? ==> Tally(live, home).bytes == GetSize(home.value) * Tally(live, home).count
    ensures home.None? ==> Tally(live, home).bytes == Tally(live, home).pages * PAGE_SIZE
    ensures home.Some? ==> Tally(live, home).pages == 0
  {
    hide HomeOf, GetSize;
    if live != [] {
      TallyFits(live[1..], home);
      BlockFits(live[0].layout);
      if home.Some? {
        assert GetSize(home.value) * (Tally(live[1..], home).count + 1) ==
          GetSize(home.value) * Tally(live[1..], home).count + GetSize(home.value);
      }
    }
  }

  // ---------------------------------------------------------------------------------------------

  /** The balances are the tally, with `pages` mapped pages. */
  ghost predicate Matches(i: Info, t: Totals, pages: nat) {
    && i.bytes.positive == i.bytes.negative + t.bytes
    && i.allocations.positive == i.allocations.negative + t.count
    && i.requested.positive == i.requested.negative + t.requested
    && i.pages.positive == i.pages.negative + pages
    && i.requested.negative <= i.bytes.negative
  }

  lemma MatchesValid(i: Info, t: Totals, pages: nat)
    requires Matches(i, t, pages) && t.requested <= t.bytes <= pages * PAGE_SIZE
    ensures i.IsValid()
  {
  }

  lemma MatchesGain(i: Info, t: Totals, mapped: nat, pages: nat, given: bool, l: Layout)
    requires Matches(i, t, mapped) && BlockPages(l) == 0
    ensures Matches(i.Plus(Gain(pages, given, l.size, BlockBytes(l))), if given then Plus(t, l) else t, mapped + pages)
  {
    GainIs(i, pages, l.size, BlockBytes(l));
  }

  lemma MatchesLoss(i: Info, t: Totals, mapped: nat, l: Layout)
    requires Matches(i, Plus(t, l), mapped + BlockPages(l)) && l.size <= BlockBytes(l)
    ensures Matches(i.Plus(Loss(l.size, BlockBytes(l), BlockPages(l))), t, mapped)
  {
    LossIs(i, l.size, BlockBytes(l), BlockPages(l));
  }

  /** The blocks of a class fit in the pages mapped for them. */
  lemma PagesHold(size: nat, len: nat)
    requires BlockSize(size)
    ensures len * size <= PagesFor(size, len) * PAGE_SIZE
  {
    var d := PerSlab(size);
    var slab, o := SlabIndex(size, len), SlabOffset(size, len);
    Coordinates(d, len);
    PerSlabFits(size);
    assert len * size == slab * (d * size) + o * size;
    MulLe(d * size, SLAB_SIZE, slab);
    SpanLaw(size, o);
    CeilOrder(o * size, o * size);
    assert slab * SLAB_SIZE == SLAB_PAGES * slab * PAGE_SIZE;
  }

  lemma {:induction false} SumValid(infos: seq<Info>)
    requires forall i :: 0 <= i < |infos| ==> infos[i].IsValid()
    ensures Sum(infos).IsValid()
  {
    if infos != [] { SumValid(infos[1..]); }
  }

  /** The pointers of one class. */
  ghost function Ptrs(live: seq<Live>, home: Option<nat>): set<nat> {
    set j | 0 <= j < |live| && HomeOf(live[j].layout) == home :: live[j].ptr
  }

  ghost predicate DistinctPtrs(live: seq<Live>, home: Option<nat>) {
    forall i, j :: 0 <= i < j < |live| && HomeOf(live[i].layout) == HomeOf(live[j].layout) == home ==>
      live[i].ptr != live[j].ptr
  }

  lemma {:induction false} CountsPtrs(live: seq<Live>, home: Option<nat>)
    requires DistinctPtrs(live, home)
    ensures |Ptrs(live, home)| == Tally(live, home).count
    decreases |live|
  {
    hide HomeOf, BlockBytes, BlockPages, Ptrs, DistinctPtrs;
    if live == [] {
      assert Ptrs(live, home) == {} by { NoPtrs(home); }
    } else {
      TallyDrop(live, 0, home);
      PtrsDrop(live, 0, home);
      PtrsOwn(live, 0);
      CountsPtrs(Without(live, 0), home);
    }
  }

  lemma NoPtrs(home: Option<nat>)
    ensures Ptrs([], home) == {}
  {
  }

  lemma PtrsOwn(live: seq<Live>, j: nat)
    requires j < |live|
    ensures live[j].ptr in Ptrs(live, HomeOf(live[j].layout))
  {
  }

  lemma PtrsPush(live: seq<Live>, b: Live, home: Option<nat>)
    ensures Ptrs(live + [b], home) == Ptrs(live, home) + (if HomeOf(b.layout) == home then {b.ptr} else {})
  {
    hide HomeOf;
    var after := live + [b];
    forall p
      ensures p in Ptrs(after, home) <==> p in Ptrs(live, home) + (if HomeOf(b.layout) == home then {b.ptr} else {})
    {
      if p in Ptrs(live, home) {
        var j :| 0 <= j < |live| && HomeOf(live[j].layout) == home && live[j].ptr == p;
        assert after[j] == live[j];
      }
      assert after[|live|] == b;
    }
  }

  lemma PtrsDrop(live: seq<Live>, j: nat, home: Option<nat>)
    requires j < |live| && DistinctPtrs(live, home)
    ensures DistinctPtrs(Without(live, j), home)
    ensures Ptrs(Without(live, j), home) ==
      Ptrs(live, home) - (if HomeOf(live[j].layout) == home then {live[j].ptr} else {})
  {
    hide HomeOf;
    var after, b := Without(live, j), live[j];
    forall p
      ensures p in Ptrs(after, home) <==> p in Ptrs(live, home) - (if HomeOf(b.layout) == home then {b.ptr} else {})
    {
      if p in Ptrs(live, home) {
        var i :| 0 <= i < |live| && HomeOf(live[i].layout) == home && live[i].ptr == p;
        assert i < j ==> after[i] == live[i];
        assert i > j ==> after[i - 1] == live[i];
      }
      if p in Ptrs(after, home) {
        var i :| 0 <= i < |after| && HomeOf(after[i].layout) == home && after[i].ptr == p;
        assert i < j ==> live[i] == after[i];
        assert i >= j ==> live[i + 1] == after[i];
      }
    }
  }

  lemma DistinctPush(live: seq<Live>, b: Live, home: Option<nat>)
    requires DistinctPtrs(live, home) && (HomeOf(b.layout) == home ==> b.ptr !in Ptrs(live, home))
    ensures DistinctPtrs(live + [b], home)
  {
    hide HomeOf;
    var after := live + [b];
    forall i, j | 0 <= i < j < |after| && HomeOf(after[i].layout) == HomeOf(after[j].layout) == home
      ensures after[i].ptr != after[j].ptr
    {
      if j == |live| { assert after[i].ptr in Ptrs(live, home); }
    }
  }
}
