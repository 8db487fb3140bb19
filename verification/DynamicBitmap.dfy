/** The pages under a growing bitmap, between two guard zones. */
module DynamicBitmap {
  import opened Mmu
  import opened Addr
  import opened PageAllocator
  import opened Fallback
  import opened Bitmap

  const GUARD_PAGES := 1

  /** `DynamicBitmap::page_count()`. */
  function PageCount(len: nat): nat { CeilDiv(len, BITS_PER_PAGE) }

  ghost function BitmapsOf(kind: nat): iset<Owner> { iset{BitmapOf(kind)} }

  /** The bitmap owns exactly `pages`, and of these exactly `count` after the guard zone are mapped. */
  ghost predicate Backs(s: Space, kind: nat, pages: Block, count: nat) {
    && (forall p: nat {:trigger s.owner[p]} :: p in s.owner && s.owner[p] == BitmapOf(kind) ==>
          pages.Has(p) && (p in s.mapped <==> pages.start + GUARD_PAGES <= p < pages.start + GUARD_PAGES + count))
    && (forall p: nat {:trigger pages.Has(p)} :: pages.Has(p) ==> p in s.owner && s.owner[p] == BitmapOf(kind))
  }

  class DynamicBitmap {
    const kind: nat
    const capacity: nat
    const bitmap: Bitmap
    var pages: Block

    ghost predicate Holds(s: Space)
      reads this, bitmap
      ensures Holds(s) ==> bitmap.Valid()
    {
      && bitmap.Valid() && bitmap.len <= capacity && Backs(s, kind, pages, PageCount(bitmap.len))
      && pages.start <= pages.end
      && ((bitmap.len == 0 && pages.IsEmpty()) || pages.Count() == PageCount(capacity) + 2 * GUARD_PAGES)
    }

    constructor (kind: nat, capacity: nat)
      requires capacity > 0
      ensures fresh(bitmap) && this.kind == kind && this.capacity == capacity
      ensures bitmap.Valid() && bitmap.len == 0 && bitmap.Used() == {} && pages == NO_PAGES
    {
      this.kind, this.capacity, pages := kind, capacity, NO_PAGES;
      bitmap := new Bitmap();
    }

    /** `DynamicBitmap::reserve()`. */
    method Reserve(f: Fallback) returns (r: Result<()>)
      requires f.Valid() && Holds(f.space) && pages.IsEmpty()
      modifies this, f, f.pages
      ensures f.Valid() && Others(old(f.space), f.space, BitmapsOf(kind))
      ensures r.Ok? ==> Holds(f.space) && !pages.IsEmpty()
      ensures NothingLost(old(f.space), f.space)
      ensures if r.Ok? then f.refusals == old(f.refusals) else f.refusals > old(f.refusals)
    {
      hide CeilDiv, Backs, Others, Claim, bitmap.Valid, NothingLost;
      ghost var s := f.space;
      CountOrder(0, 0);
      OthersRefl(s, BitmapsOf(kind));
      var total := GUARD_PAGES + PageCount(capacity) + GUARD_PAGES;
      PageAligned();
      var b := f.Reserve(total * PAGE_SIZE, PAGE_SIZE, BitmapOf(kind));
      if b.Err? {
        return Err(b.error);
      }
      WholePages(total);
      ReserveBits(s, kind, pages, b.value);
      pages := b.value;
      r := Ok(());
    }

    /** `DynamicBitmap::map()`: makes `newLen` elements, the new ones free. */
    method Map(newLen: nat, f: Fallback) returns (r: Result<nat>)
      requires f.Valid() && Holds(f.space) && bitmap.len < newLen <= capacity && !pages.IsEmpty()
      modifies bitmap, f
      ensures f.Valid() && Others(old(f.space), f.space, BitmapsOf(kind))
      ensures r.Ok? ==> Holds(f.space) && bitmap.len == newLen
      ensures bitmap.Valid() && bitmap.Used() == old(bitmap.Used())
      ensures r.Ok? ==> bitmap.free == old(bitmap.free) + (newLen - old(bitmap.len))
      ensures r.Ok? ==> r.value == PageCount(newLen) - PageCount(old(bitmap.len))
      ensures r.Err? ==> bitmap.len == old(bitmap.len) && bitmap.free == old(bitmap.free)
      ensures NothingLost(old(f.space), f.space)
      ensures if r.Ok? then f.refusals == old(f.refusals) else f.refusals > old(f.refusals)
    {
      CountOrder(bitmap.len, newLen);
      CountOrder(newLen, capacity);
      hide UsedIn, CeilDiv, Backs, Others, bitmap.Valid, f.Valid, NothingLost;
      OthersRefl(f.space, BitmapsOf(kind));
      LostNone(f.space);
      if PageCount(newLen) > PageCount(bitmap.len) {
        var m := MapPages(PageCount(bitmap.len), PageCount(newLen), f);
        if m.Err? {
          return m;
        }
      }
      var added := bitmap.Grow(newLen);
      r := Ok(added);
    }

    method MapPages(from: nat, to: nat, f: Fallback) returns (r: Result<nat>)
      requires f.Valid() && Backs(f.space, kind, pages, from)
      requires from <= to && pages.start + GUARD_PAGES + to <= pages.end
      modifies f
      ensures f.Valid() && Others(old(f.space), f.space, BitmapsOf(kind))
      ensures r.Ok? ==> Backs(f.space, kind, pages, to)
      ensures NothingLost(old(f.space), f.space)
      ensures if r.Ok? then f.refusals == old(f.refusals) else f.refusals > old(f.refusals)
    {
      hide Backs, Others, AllOf, f.Valid, NothingLost;
      ghost var s := f.space;
      MapBits(s, s, kind, pages, from, to);
      var m := f.Map(Block(pages.start + GUARD_PAGES + from, pages.start + GUARD_PAGES + to), BitmapOf(kind));
      MapBits(s, f.space, kind, pages, from, to);
      r := if m.Err? then Err(m.error) else Ok(to - from);
    }

    /** `DynamicBitmap::unmap()`. */
    method Unmap(f: Fallback) returns (freed: nat)
      requires f.Valid() && Holds(f.space) && bitmap.free == bitmap.len > 0
      modifies this, bitmap, f
      ensures f.Valid() && Others(old(f.space), f.space, BitmapsOf(kind))
      ensures Holds(f.space) && bitmap.len == 0 && pages == NO_PAGES && bitmap.Used() == {}
      ensures freed == PageCount(old(bitmap.len))
      ensures f.refusals == old(f.refusals)
    {
      CountOrder(bitmap.len, capacity);
      hide UsedIn, CeilDiv, Backs, Others, bitmap.Valid, f.Valid;
      UnmapPages(PageCount(bitmap.len), f);
      freed := bitmap.Unmap();
    }

    method UnmapPages(count: nat, f: Fallback)
      requires f.Valid() && Backs(f.space, kind, pages, count) && pages.start + GUARD_PAGES + count <= pages.end
      modifies this, f
      ensures f.Valid() && Others(old(f.space), f.space, BitmapsOf(kind))
      ensures pages == NO_PAGES && Backs(f.space, kind, pages, 0)
      ensures f.refusals == old(f.refusals)
    {
      hide Backs, Others, f.Valid, Unclaim;
      UnmapBits(f.space, kind, pages, count);
      f.Unmap(Block(pages.start + GUARD_PAGES, pages.start + GUARD_PAGES + count));
      var u := f.Unreserve(pages);
      pages := NO_PAGES;
    }
  }

  lemma UnmapBits(s: Space, kind: nat, pages: Block, count: nat)
    requires Backs(s, kind, pages, count) && pages.start + GUARD_PAGES + count <= pages.end
    ensures (
      var mapped := Block(pages.start + GUARD_PAGES, pages.start + GUARD_PAGES + count);
      var unmapped := s.(mapped := s.mapped - Range(mapped));
      && (forall p: nat | mapped.Has(p) :: p in s.mapped)
      && (forall p: nat | pages.Has(p) :: p in unmapped.owner && p !in unmapped.mapped)
      && Backs(Unclaim(unmapped, pages), kind, NO_PAGES, 0)
      && Others(s, Unclaim(unmapped, pages), BitmapsOf(kind)))
  {
    var mapped := Block(pages.start + GUARD_PAGES, pages.start + GUARD_PAGES + count);
    forall p: nat | pages.Has(p)
      ensures p in s.owner && s.owner[p] == BitmapOf(kind) && (p in s.mapped <==> mapped.Has(p)) { }
    forall p: nat | mapped.Has(p) ensures p in s.mapped {
      assert pages.Has(p);
    }
  }

  lemma CountOrder(m: nat, n: nat)
    requires m <= n
    ensures PageCount(m) <= PageCount(n) && (m > 0 ==> PageCount(m) > 0)
    ensures PageCount(0) == 0
  {
  }

  lemma PageAligned()
    ensures Alignment(PAGE_SIZE)
  {
  }

  lemma WholePages(n: nat)
    ensures CeilDiv(n * PAGE_SIZE, PAGE_SIZE) == n
  {
  }

  lemma ReserveBits(s: Space, kind: nat, pages: Block, b: Block)
    requires Backs(s, kind, pages, 0) && pages.IsEmpty()
    requires (forall p: nat | b.Has(p) :: p !in s.owner) && (forall p: nat :: p in s.mapped ==> p in s.owner)
    ensures Backs(Claim(s, b, BitmapOf(kind)), kind, b, 0)
    ensures Others(s, Claim(s, b, BitmapOf(kind)), BitmapsOf(kind))
  {
  }

  lemma MapBits(s: Space, t: Space, kind: nat, pages: Block, count: nat, newCount: nat)
    requires Backs(s, kind, pages, count) && count <= newCount && pages.start + GUARD_PAGES + newCount <= pages.end
    ensures (
      var next := Block(pages.start + GUARD_PAGES + count, pages.start + GUARD_PAGES + newCount);
      && AllOf(s, next, BitmapOf(kind)) && (forall p: nat | next.Has(p) :: p !in s.mapped)
      && (t.owner == s.owner && s.mapped <= t.mapped <= s.mapped + Range(next) ==> Others(s, t, BitmapsOf(kind)))
      && (t == s.(mapped := s.mapped + Range(next)) ==> Backs(t, kind, pages, newCount)))
  {
    var next := Block(pages.start + GUARD_PAGES + count, pages.start + GUARD_PAGES + newCount);
    forall p: nat | next.Has(p) ensures Of(s, p, BitmapOf(kind)) && p !in s.mapped {
      assert pages.Has(p);
    }
  }
}
