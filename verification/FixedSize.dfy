/** One size class: the allocator of equal blocks (`FixedSizeAllocator`) and its cache of free ones
    (`Clip`). A block is either free in the bitmap, or cached in the clip, or out. */
module FixedSize {
  import opened Lists
  import opened Mmu
  import opened Addr
  import opened PageAllocator
  import opened Fallback
  import opened Bitmap
  import opened DynamicBitmap
  import opened Quarry
  import opened Info

  const CLIP_SIZE := 22

  /** Everything a size class owns. */
  ghost function ClassOf(kind: nat): iset<Owner> { iset o: Owner | IsSlab(o, kind) || o == BitmapOf(kind) }

  /** Pages that a size class of `len` blocks has mapped: those of the blocks and those of the bitmap. */
  function Footprint(size: nat, len: nat): nat
    requires BlockSize(size)
  {
    PagesFor(size, len) + PageCount(len)
  }

  // ---------------------------------------------------------------------------------------------
  // Blocks by address

  ghost predicate InSlabs(size: nat, used: set<nat>, n: nat)
    requires BlockSize(size)
  {
    forall i :: i in used ==> SlabIndex(size, i) < n
  }

  ghost function Addresses(slabs: seq<nat>, size: nat, used: set<nat>): set<nat>
    requires BlockSize(size) && InSlabs(size, used, |slabs|)
  {
    set i | i in used :: Address(slabs, size, i)
  }

  function AddressList(slabs: seq<nat>, size: nat, indexes: seq<nat>): (r: seq<nat>)
    requires BlockSize(size) && forall k :: 0 <= k < |indexes| ==> SlabIndex(size, indexes[k]) < |slabs|
    ensures |r| == |indexes|
  {
    seq(|indexes|, k requires 0 <= k < |indexes| => Address(slabs, size, indexes[k]))
  }

  lemma AddressesHas(slabs: seq<nat>, size: nat, used: set<nat>, i: nat)
    requires BlockSize(size) && InSlabs(size, used, |slabs|) && i in used
    ensures Address(slabs, size, i) in Addresses(slabs, size, used)
  {
  }

  lemma NoAddresses(slabs: seq<nat>, size: nat)
    requires BlockSize(size)
    ensures forall n: nat :: InSlabs(size, {}, n)
    ensures Addresses(slabs, size, {}) == {}
  {
  }

  lemma AddressInjective(s: Space, kind: nat, slabs: seq<nat>, hi: nat, size: nat, i: nat, j: nat)
    requires BlockSize(size) && Owned(s, kind, slabs, 0, hi) && SlabIndex(size, i) < hi && SlabIndex(size, j) < hi
    requires Address(slabs, size, i) == Address(slabs, size, j)
    ensures i == j
  {
    BlocksApart(s, kind, slabs, hi, size, i, j, Address(slabs, size, i));
  }

  lemma TakeAddress(s: Space, kind: nat, slabs: seq<nat>, hi: nat, size: nat, used: set<nat>, i: nat)
    requires BlockSize(size) && Owned(s, kind, slabs, 0, hi) && InSlabs(size, used, hi) && SlabIndex(size, i) < hi
    ensures Addresses(slabs, size, used + {i}) == Addresses(slabs, size, used) + {Address(slabs, size, i)}
    ensures Address(slabs, size, i) in Addresses(slabs, size, used) <==> i in used
    ensures InSlabs(size, used - {i}, hi)
    ensures Addresses(slabs, size, used - {i}) == Addresses(slabs, size, used) - {Address(slabs, size, i)}
  {
    hide Owned, SlabIndex, Address;
    forall j | j in used && Address(slabs, size, i) == Address(slabs, size, j) ensures i == j {
      AddressInjective(s, kind, slabs, hi, size, i, j);
    }
  }

  lemma {:induction false} AddressesCount(s: Space, kind: nat, slabs: seq<nat>, hi: nat, size: nat, used: set<nat>)
    requires BlockSize(size) && Owned(s, kind, slabs, 0, hi) && InSlabs(size, used, hi)
    ensures |Addresses(slabs, size, used)| == |used|
    decreases |used|
  {
    if used != {} {
      var i :| i in used;
      TakeAddress(s, kind, slabs, hi, size, used, i);
      AddressesCount(s, kind, slabs, hi, size, used - {i});
    } else {
      NoAddresses(slabs, size);
    }
  }

  lemma SameAddresses(before: seq<nat>, after: seq<nat>, n: nat, size: nat, used: set<nat>)
    requires BlockSize(size) && InSlabs(size, used, n) && SameSlabs(before, after, n)
    ensures Addresses(after, size, used) == Addresses(before, size, used)
  {
    forall i | i in used ensures Address(after, size, i) == Address(before, size, i) { }
  }

  /** The cache holds different blocks, all of them taken from the bitmap, and not too many. */
  ghost predicate Cached(clip: seq<nat>, taken: set<nat>) {
    |clip| <= CLIP_SIZE && Distinct(clip) && Elements(clip) <= taken
  }

  /** How many blocks are cached after filling up a cache of `n`, with `free` blocks to take from. */
  function Filled(n: nat, target: nat, free: nat): nat {
    if target <= n then n else if target - n < free then target else n + free
  }

  /** Blocks put into the cache straight from the bitmap are not out. */
  lemma FillKeeps(s: Space, kind: nat, slabs: seq<nat>, hi: nat, size: nat, used: set<nat>, clip: seq<nat>,
                  new_: seq<nat>, len: nat)
    requires BlockSize(size) && Owned(s, kind, slabs, 0, hi) && InSlabs(size, used, hi)
    requires Distinct(new_) && Outside(new_, used, len) && InSlabs(size, Elements(new_), hi)
    requires Cached(clip, Addresses(slabs, size, used)) && |clip| + |new_| <= CLIP_SIZE
    requires forall k :: 0 <= k < |new_| ==> SlabIndex(size, new_[k]) < |slabs|
    ensures InSlabs(size, used + Elements(new_), hi)
    ensures Cached(clip + AddressList(slabs, size, new_), Addresses(slabs, size, used + Elements(new_)))
    ensures (
      Addresses(slabs, size, used + Elements(new_)) - Elements(clip + AddressList(slabs, size, new_)) ==
      Addresses(slabs, size, used) - Elements(clip))
    decreases |new_|
  {
    if new_ == [] {
      assert clip + AddressList(slabs, size, new_) == clip;
      assert used + Elements(new_) == used;
    } else {
      var n := |new_| - 1;
      var last := new_[n];
      assert new_ == new_[..n] + [last];
      assert Elements(new_) == Elements(new_[..n]) + {last} by { PushElements(new_[..n], last); }
      assert last !in Elements(new_[..n]);
      FillKeeps(s, kind, slabs, hi, size, used, clip, new_[..n], len);
      var used', clip' := used + Elements(new_[..n]), clip + AddressList(slabs, size, new_[..n]);
      TakeAddress(s, kind, slabs, hi, size, used', last);
      var a := Address(slabs, size, last);
      assert used + Elements(new_) == used' + {last};
      assert clip + AddressList(slabs, size, new_) == clip' + [a];
      PushElements(clip', a);
      PushDistinct(clip', a);
    }
  }

  // ---------------------------------------------------------------------------------------------
  // What others do to their pages does not matter

  lemma SlabsKept(s: Space, t: Space, mine: iset<Owner>, kind: nat, slabs: seq<nat>, hi: nat, mark: nat)
    requires Others(s, t, mine) && Owned(s, kind, slabs, 0, hi) && Upto(s, kind, slabs, mark)
    requires forall o: Owner :: IsSlab(o, kind) ==> o !in mine
    ensures Owned(t, kind, slabs, 0, hi) && Upto(t, kind, slabs, mark)
  {
    forall i: nat, p: nat {:trigger InSlab(slabs, i, p)} | i < hi && InSlab(slabs, i, p)
      ensures p in t.owner && t.owner[p] == Slab(kind, i)
    {
      assert IsSlab(s.owner[p], kind);
    }
  }

  lemma BitsKept(s: Space, t: Space, mine: iset<Owner>, kind: nat, pages: Block, count: nat)
    requires Others(s, t, mine) && Backs(s, kind, pages, count) && BitmapOf(kind) !in mine
    ensures Backs(t, kind, pages, count)
  {
  }

  lemma OthersMore(s: Space, t: Space, mine: iset<Owner>, more: iset<Owner>)
    requires Others(s, t, mine) && mine <= more
    ensures Others(s, t, more)
  {
  }

  lemma UsedInside(size: nat, words: seq<Word>, len: nat)
    requires BlockSize(size) && len <= BITS * |words|
    ensures InSlabs(size, UsedIn(words, len), SlabsFor(size, len))
  {
    forall i | i in UsedIn(words, len) ensures SlabIndex(size, i) < SlabsFor(size, len) {
      IndexInside(size, len, i);
    }
  }

  // ---------------------------------------------------------------------------------------------

  class SizeClass {
    const kind: nat
    const size: nat
    const dynamic: DynamicBitmap
    const bitmap: Bitmap
    const quarry: Quarry
    var clip: seq<nat>
    var info: Info

    predicate Shape() {
      && dynamic.bitmap == bitmap && dynamic.kind == quarry.kind == kind
      && quarry.size == size && BlockSize(size) && dynamic.capacity == PerSlab(size) * SLAB_COUNT
    }

    function Capacity(): nat
      requires BlockSize(size)
    {
      PerSlab(size) * SLAB_COUNT
    }

    ghost predicate Stocked(s: Space)
      reads dynamic, bitmap, quarry
      ensures Stocked(s) ==> Shape() && bitmap.Valid() && |quarry.slabs| == SLAB_COUNT
      ensures Stocked(s) ==>
        InSlabs(size, bitmap.Used(), SlabsFor(size, bitmap.len)) && SlabsFor(size, bitmap.len) <= SLAB_COUNT
      ensures Stocked(s) ==> InSlabs(size, bitmap.Used(), |quarry.slabs|)
      ensures Stocked(s) ==> Owned(s, kind, quarry.slabs, 0, SlabsFor(size, bitmap.len)) && bitmap.len <= Capacity()
    {
      && Shape() && dynamic.Holds(s) && quarry.Holds(s, bitmap.len)
      && (bitmap.len == 0 ==> dynamic.pages.IsEmpty())
      && InSlabs(size, bitmap.Used(), SlabsFor(size, bitmap.len))
    }

    /** The blocks that the bitmap has as occupied. */
    ghost function Taken(): set<nat>
      requires Shape() && bitmap.len <= BITS * |bitmap.words| && InSlabs(size, bitmap.Used(), |quarry.slabs|)
      reads bitmap, quarry
    {
      Addresses(quarry.slabs, size, bitmap.Used())
    }

    ghost predicate Valid(s: Space)
      reads this`clip, dynamic, bitmap, quarry
      ensures Valid(s) ==> Stocked(s) && Cached(clip, Taken())
    {
      Stocked(s) && Cached(clip, Taken())
    }

    /** The blocks that are out: neither free nor cached. */
    ghost function Out(): set<nat>
      requires Shape() && bitmap.len <= BITS * |bitmap.words| && InSlabs(size, bitmap.Used(), |quarry.slabs|)
      reads this`clip, bitmap, quarry
    {
      Taken() - Elements(clip)
    }

    /** `FixedSizeAllocator::new()`. */
    constructor (kind: nat, size: nat, ghost s: Space)
      requires BlockSize(size) && forall p: nat :: p in s.owner ==> s.owner[p] !in ClassOf(kind)
      ensures this.kind == kind && this.size == size && clip == [] && info == NO_INFO
      ensures fresh(dynamic) && fresh(bitmap) && fresh(quarry)
      ensures Valid(s) && bitmap.len == 0 && Out() == {}
    {
      this.kind, this.size, clip, info := kind, size, [], NO_INFO;
      MulLe(1, PerSlab(size), SLAB_COUNT);
      var d := new DynamicBitmap(kind, PerSlab(size) * SLAB_COUNT);
      dynamic, bitmap := d, d.bitmap;
      quarry := new Quarry(kind, size);
      new;
      StartsEmpty(s, kind, size, quarry.slabs);
      assert bitmap.Used() == {} && Elements(clip) == {};
      assert quarry.Holds(s, 0) && dynamic.Holds(s);
    }

    /** With nothing free and nothing cached, every block is out. */
    lemma AllOut(s: Space)
      requires Valid(s) && clip == [] && bitmap.free == 0
      ensures |Out()| == bitmap.len
    {
      hide Owned, Addresses, InSlabs, quarry.Holds, dynamic.Holds, Addresses;
      AddressesCount(s, kind, quarry.slabs, SlabsFor(size, bitmap.len), size, bitmap.Used());
      assert Elements(clip) == {};
    }

    /** How many blocks there will be after stocking up. */
    function Restocked(): nat
      requires BlockSize(size)
      reads bitmap
    {
      if bitmap.len + CLIP_SIZE < Capacity() then bitmap.len + CLIP_SIZE else Capacity()
    }

    /** `FixedSizeAllocator::stock_up()`: more blocks, all of them free, up to the capacity of the slabs. If it fails,
        then blocks in use stay in use and nothing that the class had is lost; but the bitmap may already count blocks
        for which pages are lacking. */
    method StockUp(f: Fallback) returns (r: Result<nat>)
      requires f.Valid() && Valid(f.space)
      modifies this, dynamic, bitmap, quarry, f, f.pages
      ensures f.Valid() && Others(old(f.space), f.space, ClassOf(kind)) && clip == old(clip)
      ensures r.Ok? ==> Valid(f.space) && Taken() == old(Taken())
      ensures r.Ok? ==> bitmap.len == old(Restocked())
      ensures r.Ok? ==> bitmap.free == old(bitmap.free) + (bitmap.len - old(bitmap.len))
      ensures r.Ok? ==> r.value == Footprint(size, bitmap.len) - Footprint(size, old(bitmap.len))
      ensures r.Ok? ==> info == old(info).PagesAllocation(r.value)
      ensures NothingLost(old(f.space), f.space)
      ensures SameSlabs(old(quarry.slabs), quarry.slabs, SlabsFor(size, old(bitmap.len)))
      ensures bitmap.Valid() && bitmap.Used() == old(bitmap.Used())
      ensures InSlabs(size, bitmap.Used(), |quarry.slabs|) && Taken() == old(Taken())
      ensures r.Err? ==> info == old(info)
      ensures r.Err? ==>
        || (bitmap.len == old(bitmap.len) && bitmap.free == old(bitmap.free))
        || (bitmap.len == old(Restocked()) && Lacks(f.space, quarry.slabs, PagesFor(size, bitmap.len)))
      ensures if r.Ok? then f.refusals == old(f.refusals) else f.refusals > old(f.refusals)
    {
      hide Owned, Upto, Others, Backs, PerSlab, SlabsFor, PagesFor, UsedIn, Cached, Addresses, InSlabs,
           f.Valid, bitmap.Valid, quarry.Holds, dynamic.Holds, ClassOf, SlabIndex, CeilDiv, NothingLost, Lacks;
      ghost var s := f.space;
      OthersRefl(s, ClassOf(kind));
      var len := bitmap.len;
      LenBound(s);
      LostNone(s);
      var target := Restocked();
      if target == len {
        return Ok(0);
      }
      ghost var slabs, used := quarry.slabs, bitmap.Used();
      var bits := StockBits(target, f);
      ghost var t := f.space;
      ClassGrows(s, t, t, kind);
      SameAddresses(slabs, quarry.slabs, SlabsFor(size, len), size, used);
      if bits.Err? {
        return Err(bits.error);
      }
      var blocks := StockBlocks(len, target, f);
      ClassGrows(s, t, f.space, kind);
      LostThen(s, t, f.space);
      SameAddresses(slabs, quarry.slabs, SlabsFor(size, len), size, used);
      if blocks.Err? {
        return Err(blocks.error);
      }
      UsedInside(size, bitmap.words, bitmap.len);
      info := info.PagesAllocation(bits.value + blocks.value);
      r := Ok(bits.value + blocks.value);
    }

    lemma LenBound(s: Space)
      requires Stocked(s)
      ensures bitmap.len <= Capacity()
    {
    }

    method StockBits(target: nat, f: Fallback) returns (r: Result<nat>)
      requires f.Valid() && Stocked(f.space) && bitmap.len < target <= Capacity()
      modifies dynamic, bitmap, f, f.pages
      ensures f.Valid() && Others(old(f.space), f.space, BitmapsOf(kind))
      ensures r.Ok? ==> dynamic.Holds(f.space) && quarry.Holds(f.space, old(bitmap.len)) && bitmap.len == target
      ensures bitmap.Valid() && bitmap.Used() == old(bitmap.Used()) && NothingLost(old(f.space), f.space)
      ensures r.Ok? ==> bitmap.free == old(bitmap.free) + (target - old(bitmap.len))
      ensures r.Ok? ==> r.value == PageCount(target) - PageCount(old(bitmap.len))
      ensures r.Err? ==> bitmap.len == old(bitmap.len) && bitmap.free == old(bitmap.free)
      ensures if r.Ok? then f.refusals == old(f.refusals) else f.refusals > old(f.refusals)
    {
      hide Others, Backs, UsedIn, InSlabs, Owned, Upto, f.Valid, bitmap.Valid, CeilDiv, NothingLost;
      ghost var s := f.space;
      LostNone(s);
      OthersRefl(s, BitmapsOf(kind));
      if bitmap.len == 0 {
        var reserved := dynamic.Reserve(f);
        if reserved.Err? {
          return Err(reserved.error);
        }
      }
      ghost var t := f.space;
      assert !dynamic.pages.IsEmpty() && Others(s, t, BitmapsOf(kind));
      r := dynamic.Map(target, f);
      OthersTrans(s, t, f.space, BitmapsOf(kind));
      LostThen(s, t, f.space);
      SlabsKept(s, f.space, BitmapsOf(kind), kind, quarry.slabs, SlabsFor(size, old(bitmap.len)),
                PagesFor(size, old(bitmap.len)));
    }

    method StockBlocks(len: nat, target: nat, f: Fallback) returns (r: Result<nat>)
      requires f.Valid() && Shape() && dynamic.Holds(f.space) && quarry.Holds(f.space, len)
      requires len < target <= Capacity()
      modifies quarry, f, f.pages
      ensures f.Valid() && Others(old(f.space), f.space, SlabsOf(kind))
      ensures r.Ok? ==> dynamic.Holds(f.space) && quarry.Holds(f.space, target)
      ensures SameSlabs(old(quarry.slabs), quarry.slabs, SlabsFor(size, len)) && NothingLost(old(f.space), f.space)
      ensures r.Ok? ==> r.value == PagesFor(size, target) - PagesFor(size, len)
      ensures r.Err? ==> Lacks(f.space, quarry.slabs, PagesFor(size, target))
      ensures if r.Ok? then f.refusals == old(f.refusals) else f.refusals > old(f.refusals)
    {
      hide Others, Backs, f.Valid, bitmap.Valid, CeilDiv, EndPage, quarry.Holds, SameSlabs, PagesFor, NothingLost,
           Lacks;
      ghost var s := f.space;
      var actual;
      r, actual := quarry.Map(len, target, f);
      BitsKept(s, f.space, SlabsOf(kind), kind, dynamic.pages, PageCount(bitmap.len));
    }

    /** `FixedSizeAllocator::allocate()`, used when there is no cache: a block not taken before, unless there is
        no free one. The block's slab is always reserved, so its address is never null. */
    method Allocate(ghost s: Space) returns (r: Option<nat>)
      requires Stocked(s)
      modifies bitmap
      ensures Stocked(s) && bitmap.len == old(bitmap.len)
      ensures r.None? <==> old(bitmap.free) == 0
      ensures r.None? ==> Taken() == old(Taken())
      ensures r.Some? ==> r.value > 0 && r.value !in old(Taken()) && Taken() == old(Taken()) + {r.value}
    {
      hide Owned, Upto, Backs, PerSlab, PagesFor, UsedIn, Addresses, bitmap.Valid, SlabIndex, CeilDiv;
      ghost var used, hi := bitmap.Used(), SlabsFor(size, bitmap.len);
      var index := bitmap.Allocate();
      if index.None? {
        return None;
      }
      UsedInside(size, bitmap.words, bitmap.len);
      assert index.value in bitmap.Used();
      TakeAddress(s, kind, quarry.slabs, hi, size, used, index.value);
      var address := quarry.Allocation(index.value);
      ReservedStart(s, kind, quarry.slabs, hi, size, index.value);
      r := Some(address);
    }

    /** `FixedSizeAllocator::deallocate_impl()`: the block is found, and it is not free yet. */
    method Deallocate(ptr: nat, ghost s: Space)
      requires Stocked(s) && ptr in Taken()
      modifies bitmap
      ensures Stocked(s) && bitmap.len == old(bitmap.len) && bitmap.free == old(bitmap.free) + 1
      ensures Taken() == old(Taken()) - {ptr}
    {
      hide Owned, Upto, Backs, PerSlab, PagesFor, UsedIn, bitmap.Valid, SlabIndex, CeilDiv, Address;
      ghost var used, hi := bitmap.Used(), SlabsFor(size, bitmap.len);
      ghost var i :| i in used && ptr == Address(quarry.slabs, size, i);
      FirstByte(quarry.slabs, size, i);
      var index := quarry.AllocationIndex(ptr, s, hi);
      assert index == Some(i);
      bitmap.SetFree(index.value);
      TakeAddress(s, kind, quarry.slabs, hi, size, used, i);
    }

    /** `FixedSizeAllocator::fill_clip()`: moves free blocks into the cache until it holds `target`, or there are
        no more. */
    method FillClip(target: nat, ghost s: Space)
      requires Valid(s) && target <= CLIP_SIZE
      modifies this`clip, bitmap
      ensures Valid(s) && bitmap.len == old(bitmap.len) && Out() == old(Out())
      ensures old(clip) <= clip && |clip| == Filled(|old(clip)|, target, old(bitmap.free))
      ensures |clip| + bitmap.free == |old(clip)| + old(bitmap.free)
    {
      hide Owned, PerSlab, UsedIn, Addresses, bitmap.Valid, SlabIndex, SlabsFor, InSlabs, Distinct, Outside,
           AddressList,
           Elements, Stocked, Address;
      if target <= |clip| {
        return;
      }
      ghost var used, hi := bitmap.Used(), SlabsFor(size, bitmap.len);
      var indexes := TakeMany(target - |clip|, s);
      FillKeeps(s, kind, quarry.slabs, hi, size, used, clip, indexes, bitmap.len);
      AddressListAt(quarry.slabs, size, indexes);
      for k := 0 to |indexes|
        modifies this`clip
        invariant clip == old(clip) + AddressList(quarry.slabs, size, indexes)[..k]
      {
        OutsideAt(indexes, used, bitmap.len, k);
        var address := quarry.Allocation(indexes[k]);
        ReservedStart(s, kind, quarry.slabs, hi, size, indexes[k]);
        clip := clip + [address];
      }
      assert clip == old(clip) + AddressList(quarry.slabs, size, indexes);
    }

    method TakeMany(count: nat, ghost s: Space) returns (r: seq<nat>)
      requires Stocked(s)
      modifies bitmap
      ensures Stocked(s) && bitmap.len == old(bitmap.len) && bitmap.Used() == old(bitmap.Used()) + Elements(r)
      ensures |r| == if count < old(bitmap.free) then count else old(bitmap.free)
      ensures bitmap.free == old(bitmap.free) - |r|
      ensures Distinct(r) && Outside(r, old(bitmap.Used()), bitmap.len)
      ensures InSlabs(size, Elements(r), SlabsFor(size, bitmap.len))
      ensures forall k :: 0 <= k < |r| ==> SlabIndex(size, r[k]) < SlabsFor(size, bitmap.len)
    {
      hide Owned, Upto, Backs, PerSlab, PagesFor, UsedIn, bitmap.Valid, SlabIndex, CeilDiv, InSlabs, Distinct, Outside,
           Elements;
      r := bitmap.BulkAllocate(count);
      UsedInside(size, bitmap.words, bitmap.len);
      ListInside(size, bitmap.Used(), SlabsFor(size, bitmap.len), r);
    }

    /** `FixedSizeAllocator::unfill_clip()`: frees cached blocks until `target` are left. */
    method UnfillClip(target: nat, ghost s: Space)
      requires Valid(s)
      modifies this`clip, bitmap
      ensures Valid(s) && bitmap.len == old(bitmap.len) && Out() == old(Out())
      ensures clip == if target < |old(clip)| then old(clip)[..target] else old(clip)
      ensures |clip| + bitmap.free == |old(clip)| + old(bitmap.free)
    {
      hide Owned, Upto, Backs, PerSlab, PagesFor, UsedIn, Addresses, bitmap.Valid, SlabIndex, CeilDiv,
           Distinct, InSlabs, quarry.Holds, dynamic.Holds, Elements, Taken, Stocked;
      while |clip| > target
        invariant Valid(s) && bitmap.len == old(bitmap.len) && Out() == old(Out())
        invariant clip <= old(clip) && (|clip| == |old(clip)| || target <= |clip|)
        invariant |clip| + bitmap.free == |old(clip)| + old(bitmap.free)
      {
        var ptr := clip[|clip| - 1];
        PopElements(clip);
        clip := clip[..|clip| - 1];
        Deallocate(ptr, s);
      }
    }

    /** `Clip::pop()`. */
    method PopClip(ghost s: Space) returns (r: Option<nat>)
      requires Valid(s)
      modifies this`clip
      ensures Valid(s)
      ensures r == if old(clip) == [] then None else Some(old(clip)[|old(clip)| - 1])
      ensures clip == if old(clip) == [] then [] else old(clip)[..|old(clip)| - 1]
      ensures r.Some? ==> r.value !in old(Out()) && Out() == old(Out()) + {r.value}
    {
      hide Stocked, Taken, Elements, Distinct;
      if clip == [] {
        return None;
      }
      PopElements(clip);
      r := Some(clip[|clip| - 1]);
      clip := clip[..|clip| - 1];
    }

    /** `Clip::push_unchecked()`, with room left. */
    method PushClip(ptr: nat, ghost s: Space)
      requires Valid(s) && ptr in Out() && |clip| < CLIP_SIZE
      modifies this`clip
      ensures Valid(s) && Out() == old(Out()) - {ptr} && clip == old(clip) + [ptr]
    {
      hide Stocked, Taken, Elements, Distinct;
      PushElements(clip, ptr);
      PushDistinct(clip, ptr);
      clip := clip + [ptr];
    }

    /** `FixedSizeAllocator::unmap()`, when no block is out and the cache has been emptied: answers with all the pages
        ever mapped for this size class. */
    method Unmap(f: Fallback) returns (freed: nat)
      requires f.Valid() && Valid(f.space) && Out() == {} && clip == []
      modifies this, dynamic, bitmap, quarry, f
      ensures f.Valid() && Valid(f.space) && Others(old(f.space), f.space, ClassOf(kind))
      ensures bitmap.len == 0 && clip == [] && Out() == {}
      ensures freed == Footprint(size, old(bitmap.len)) && info == old(info).PagesDeallocation(freed)
      ensures f.refusals == old(f.refusals)
    {
      hide Owned, Upto, Others, Backs, PerSlab, SlabsFor, PagesFor, UsedIn, Addresses,
           f.Valid, bitmap.Valid, dynamic.Holds, ClassOf, SlabIndex, CeilDiv;
      ghost var s := f.space;
      NoneTaken();
      freed := quarry.Unmap(bitmap.len, f);
      ghost var t := f.space;
      assert dynamic.Holds(t) by { DynamicKept(s, t); }
      if bitmap.len > 0 {
        var bits := dynamic.Unmap(f);
        freed := freed + bits;
        SlabsKept(t, f.space, BitmapsOf(kind), kind, quarry.slabs, SlabsFor(size, 0), PagesFor(size, 0));
      }
      ClassShrinks(s, t, f.space, kind);
      CountOrder(0, 0);
      NoAddresses(quarry.slabs, size);
      info := info.PagesDeallocation(freed);
    }

    lemma DynamicKept(s: Space, t: Space)
      requires dynamic.kind == kind && dynamic.Holds(s) && Others(s, t, SlabsOf(kind))
      ensures dynamic.Holds(t)
    {
      BitsKept(s, t, SlabsOf(kind), kind, dynamic.pages, PageCount(dynamic.bitmap.len));
    }

    lemma NoneTaken()
      requires Shape() && bitmap.Valid() && InSlabs(size, bitmap.Used(), |quarry.slabs|) && Out() == {} && clip == []
      ensures bitmap.Used() == {} && bitmap.free == bitmap.len
    {
      hide Addresses;
      assert Taken() == {} by { assert Elements(clip) == {}; }
      forall i | i in bitmap.Used() ensures false {
        AddressesHas(quarry.slabs, size, bitmap.Used(), i);
      }
    }
  }

  lemma ReservedStart(s: Space, kind: nat, slabs: seq<nat>, hi: nat, size: nat, i: nat)
    requires BlockSize(size) && Owned(s, kind, slabs, 0, hi) && SlabIndex(size, i) < hi
    ensures slabs[SlabIndex(size, i)] > 0 && Address(slabs, size, i) > 0
  {
    MulLe(1, slabs[SlabIndex(size, i)], PAGE_SIZE);
  }

  lemma FirstByte(slabs: seq<nat>, size: nat, i: nat)
    requires BlockSize(size) && SlabIndex(size, i) < |slabs|
    ensures ByteOf(slabs, size, i, Address(slabs, size, i))
  {
  }

  lemma ListInside(size: nat, used: set<nat>, hi: nat, list: seq<nat>)
    requires BlockSize(size) && InSlabs(size, used, hi) && Elements(list) <= used
    ensures InSlabs(size, Elements(list), hi)
    ensures forall k :: 0 <= k < |list| ==> SlabIndex(size, list[k]) < hi
  {
    forall k | 0 <= k < |list| ensures list[k] in used {
      assert list[k] in Elements(list);
    }
  }

  lemma OutsideAt(list: seq<nat>, used: set<nat>, len: nat, k: nat)
    requires Outside(list, used, len) && k < |list|
    ensures list[k] < len
  {
  }

  lemma AddressListAt(slabs: seq<nat>, size: nat, indexes: seq<nat>)
    requires BlockSize(size) && forall k :: 0 <= k < |indexes| ==> SlabIndex(size, indexes[k]) < |slabs|
    ensures forall k :: 0 <= k < |indexes| ==> AddressList(slabs, size, indexes)[k] == Address(slabs, size, indexes[k])
  {
  }

  lemma ClassShrinks(s: Space, t: Space, u: Space, kind: nat)
    requires Others(s, t, SlabsOf(kind)) && (u == t || Others(t, u, BitmapsOf(kind)))
    ensures Others(s, u, ClassOf(kind))
  {
    OthersMore(s, t, SlabsOf(kind), ClassOf(kind));
    if u != t {
      OthersMore(t, u, BitmapsOf(kind), ClassOf(kind));
      OthersTrans(s, t, u, ClassOf(kind));
    }
  }

  lemma ClassGrows(s: Space, t: Space, u: Space, kind: nat)
    requires Others(s, t, BitmapsOf(kind))
    ensures Others(s, t, ClassOf(kind))
    ensures Others(t, u, SlabsOf(kind)) ==> Others(s, u, ClassOf(kind))
  {
    OthersMore(s, t, BitmapsOf(kind), ClassOf(kind));
    if Others(t, u, SlabsOf(kind)) {
      OthersMore(t, u, SlabsOf(kind), ClassOf(kind));
      OthersTrans(s, t, u, ClassOf(kind));
    }
  }

  lemma StartsEmpty(s: Space, kind: nat, size: nat, slabs: seq<nat>)
    requires BlockSize(size) && slabs == seq(SLAB_COUNT, _ => 0)
    requires forall p: nat :: p in s.owner ==> s.owner[p] !in ClassOf(kind)
    ensures Owned(s, kind, slabs, 0, SlabsFor(size, 0)) && Upto(s, kind, slabs, PagesFor(size, 0))
    ensures Backs(s, kind, NO_PAGES, 0)
  {
    NothingOwned(s, kind, slabs, 0, size);
  }

  /** Every byte of every block in use lies on a mapped page of the size class. */
  lemma TakenMapped(c: SizeClass, s: Space, ptr: nat, a: nat)
    requires c.Valid(s) && ptr in c.Taken() && ptr <= a < ptr + c.size
    ensures a / PAGE_SIZE in s.mapped
  {
    hide Owned, Upto, SlabIndex, SlabsFor, c.dynamic.Holds;
    var i: nat :| i in c.bitmap.Used() && ptr == Address(c.quarry.slabs, c.size, i);
    BlocksMapped(c.quarry, s, c.bitmap.len, i, a);
  }

  /** Stocking up may fail after the bitmap was extended. Then the bitmap counts as free a block that is not backed if
      and only if a page that holds bytes of the counted blocks is not mapped; and always, for sizes that leave less
      than a page over at the end of a slab. */
  method StockUpShort(c: SizeClass, f: Fallback) returns (r: Result<nat>)
    requires f.Valid() && c.Valid(f.space)
    modifies c, c.dynamic, c.bitmap, c.quarry, f, f.pages
    ensures BlockSize(c.size) && c.bitmap.Valid()
    ensures r.Err? && c.bitmap.len > old(c.bitmap.len) ==>
      (FreeUnbacked(c, f.space, old(c.bitmap.len)) <==> Wants(f.space, c.quarry.slabs, c.size, c.bitmap.len))
    ensures r.Err? && c.bitmap.len > old(c.bitmap.len) && SLAB_SIZE % c.size < PAGE_SIZE ==>
      FreeUnbacked(c, f.space, old(c.bitmap.len))
    ensures if r.Ok? then f.refusals == old(f.refusals) else f.refusals > old(f.refusals)
  {
    hide c.dynamic.Holds, Owned, Upto, PerSlab, SlabsFor, PagesFor, SlabIndex, Addresses, ByteOf, Lacks, Unbacked,
         Others, f.Valid, UsedIn, Wants;
    ghost var s, slabs, len := f.space, c.quarry.slabs, c.bitmap.len;
    forall j: nat, a: nat | j < len && ByteOf(slabs, c.size, j, a)
      ensures a / PAGE_SIZE in s.owner && a / PAGE_SIZE in s.mapped
    {
      BlocksMapped(c.quarry, s, len, j, a);
    }
    UsedBelow(c.bitmap.words, len);
    SlabsReserved(s, c.kind, slabs, c.size, len);
    r := c.StockUp(f);
    if r.Err? && c.bitmap.len > len {
      UnbackedWhen(f.space, c.quarry.slabs, c.size, c.bitmap.len);
      forall i: nat | i < len ensures !Unbacked(f.space, c.quarry.slabs, c.size, i) {
        StillBacked(s, f.space, slabs, c.quarry.slabs, c.size, len, i);
      }
      if SLAB_SIZE % c.size < PAGE_SIZE {
        LacksWants(f.space, c.quarry.slabs, c.size, c.bitmap.len);
      }
    }
  }

  /** A block from number `from` on that the bitmap has as free is not backed. */
  ghost predicate FreeUnbacked(c: SizeClass, s: Space, from: nat)
    requires BlockSize(c.size) && c.bitmap.len <= BITS * |c.bitmap.words|
    reads c.bitmap, c.quarry
  {
    exists i: nat :: from <= i < c.bitmap.len && i !in c.bitmap.Used() && Unbacked(s, c.quarry.slabs, c.size, i)
  }

  lemma UsedBelow(words: seq<Word>, len: nat)
    requires len <= BITS * |words|
    ensures forall i :: i in UsedIn(words, len) ==> i < len
  {
  }

  lemma SlabsReserved(s: Space, kind: nat, slabs: seq<nat>, size: nat, len: nat)
    requires BlockSize(size) && Owned(s, kind, slabs, 0, SlabsFor(size, len))
    ensures forall k: nat {:trigger slabs[k]} :: k < SlabsFor(size, len) ==> slabs[k] > 0
  {
  }

  lemma StillBacked(s: Space, t: Space, before: seq<nat>, after: seq<nat>, size: nat, len: nat, i: nat)
    requires BlockSize(size) && i < len && SameSlabs(before, after, SlabsFor(size, len)) && NothingLost(s, t)
    requires forall k: nat {:trigger before[k]} :: k < SlabsFor(size, len) ==> before[k] > 0
    requires forall j: nat, a: nat | j < len && ByteOf(before, size, j, a) ::
      a / PAGE_SIZE in s.owner && a / PAGE_SIZE in s.mapped
    ensures !Unbacked(t, after, size, i)
  {
    hide SlabIndex, SlabsFor, SlabOffset;
    IndexInside(size, len, i);
    forall a: nat | ByteOf(after, size, i, a) ensures a / PAGE_SIZE in t.mapped {
      assert ByteOf(before, size, i, a);
    }
  }

  /** The number of blocks after stocking up so many times. */
  function StockedTimes(capacity: nat, times: nat): nat {
    if CLIP_SIZE * times < capacity then CLIP_SIZE * times else capacity
  }

  /** Stocked up any number of times and unmapped: as many frames come back as were taken. */
  method StockAndUnmap(c: SizeClass, f: Fallback, times: nat) returns (taken: nat, freed: nat, ok: bool)
    requires f.Valid() && c.Valid(f.space) && c.Out() == {} && c.clip == [] && c.bitmap.len == 0
    modifies c, c.dynamic, c.bitmap, c.quarry, f, f.pages
    ensures f.Valid() && (ok ==> c.Valid(f.space) && freed == taken)
    ensures ok ==> BlockSize(c.size) && taken == Footprint(c.size, StockedTimes(c.Capacity(), times))
    ensures if ok then f.refusals == old(f.refusals) else f.refusals > old(f.refusals)
  {
    hide f.Valid, c.Stocked, c.Taken, Cached, Elements, Others, ClassOf, Footprint, c.Capacity;
    taken, freed, ok := 0, 0, true;
    NoFootprint(c.size);
    for n := 0 to times
      invariant f.Valid() && c.Valid(f.space) && c.Out() == {} && c.clip == []
      invariant taken == Footprint(c.size, c.bitmap.len) && f.refusals == old(f.refusals)
      invariant c.bitmap.len == StockedTimes(c.Capacity(), n)
    {
      var r := c.StockUp(f);
      if r.Err? {
        return taken, 0, false;
      }
      taken := taken + r.value;
    }
    freed := c.Unmap(f);
  }

  lemma NoFootprint(size: nat)
    ensures BlockSize(size) ==> Footprint(size, 0) == 0
  {
    if BlockSize(size) {
      OffsetBound(size, 0);
      CountOrder(0, 0);
    }
  }
}
