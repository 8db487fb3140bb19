/** The page-granular allocator that the size classes take slabs and bitmap pages from
    (`BigAllocatorGuard`): reservation by the page allocator, and mapping, which may run out of frames. */
module Fallback {
  import opened Mmu
  import opened Addr
  import opened PageAllocator

  /** What a reserved page is for: slab `slab` of a size class, its bitmap, or a block of whole pages. */
  datatype Owner = Slab(kind: nat, slab: nat) | BitmapOf(kind: nat) | Big(first: nat)

  /** The reserved pages with their owners, and those of them mapped to frames. */
  datatype Space = Space(owner: map<nat, Owner>, mapped: set<nat>)

  ghost predicate Of(s: Space, p: nat, who: Owner) { p in s.owner && s.owner[p] == who }

  /** Whatever `who` does not own is in `t` as it was in `s`. */
  ghost predicate Others(s: Space, t: Space, mine: iset<Owner>) {
    && (forall p: nat :: p in s.owner && s.owner[p] !in mine ==>
          p in t.owner && t.owner[p] == s.owner[p] && (p in t.mapped <==> p in s.mapped))
    && (forall p: nat :: p in t.owner && t.owner[p] !in mine ==> p in s.owner && s.owner[p] !in mine)
  }

  lemma OthersRefl(s: Space, mine: iset<Owner>)
    ensures Others(s, s, mine)
  {
  }

  lemma OthersTrans(s: Space, t: Space, u: Space, mine: iset<Owner>)
    requires Others(s, t, mine) && Others(t, u, mine)
    ensures Others(s, u, mine)
  {
  }

  /** Pages reserved in `s` have the same owners in `t`, and those mapped still are. */
  ghost predicate NothingLost(s: Space, t: Space) {
    forall p: nat {:trigger s.owner[p]} {:trigger t.owner[p]} ::
      p in s.owner ==> p in t.owner && t.owner[p] == s.owner[p] && (p in s.mapped ==> p in t.mapped)
  }

  lemma LostNone(s: Space)
    ensures NothingLost(s, s)
  {
  }

  lemma LostThen(s: Space, t: Space, u: Space)
    requires NothingLost(s, t) && NothingLost(t, u)
    ensures NothingLost(s, u)
  {
  }

  ghost function Claim(s: Space, b: Block, who: Owner): Space {
    s.(owner := map p: nat | p in s.owner.Keys + Range(b) :: if b.Has(p) then who else s.owner[p])
  }

  ghost function Range(b: Block): (r: set<nat>)
    ensures forall p: nat :: p in r <==> b.Has(p)
    decreases b.end
  {
    if b.start >= b.end then {} else Range(Block(b.start, b.end - 1)) + {b.end - 1}
  }

  ghost function Unclaim(s: Space, b: Block): Space {
    s.(owner := map p: nat | p in s.owner && !b.Has(p) :: s.owner[p])
  }

  ghost predicate AllOf(s: Space, b: Block, who: Owner) { forall p: nat | b.Has(p) :: Of(s, p, who) }

  class Fallback {
    const pages: PageAllocator
    ghost var space: Space
    /** How often pages could not be reserved or mapped. */
    ghost var refusals: nat

    /** Reserved pages are never free pages; only reserved pages are mapped. */
    ghost predicate Valid()
      reads this, pages
    {
      && pages.Valid() && pages.initialBlock.start > 0
      && (forall p: nat :: p in space.owner ==> pages.initialBlock.Has(p) && !pages.block.Has(p))
      && (forall p: nat :: p in space.mapped ==> p in space.owner)
    }

    constructor (pages: PageAllocator)
      requires pages.Valid() && pages.initialBlock.start > 0
      ensures this.pages == pages && Valid() && space == Space(map[], {}) && refusals == 0
    {
      this.pages := pages;
      refusals := 0;
      space := Space(map[], {});
    }

    /** `reserve()`: pages that nobody owns. */
    method Reserve(size: nat, align: nat, ghost who: Owner) returns (r: Result<Block>)
      requires Valid() && Alignment(align) && size > 0
      modifies this, pages
      ensures Valid()
      ensures r.Err? ==> space == old(space)
      ensures r.Ok? ==>
        && 0 < r.value.start < r.value.end && r.value.Count() == CeilDiv(size, PAGE_SIZE)
        && Aligned(r.value.start, align)
        && (forall p: nat | r.value.Has(p) :: p !in old(space).owner)
        && space == Claim(old(space), r.value, who)
      ensures NothingLost(old(space), space)
      ensures r.Err? <==> Demand(size, align) > old(pages.block).Count()
      ensures refusals == old(refusals) + if r.Err? then 1 else 0
    {
      NeededPages(size, align);
      r := pages.Allocate(size, align);
      refusals := refusals + if r.Err? then 1 else 0;
      if r.Ok? {
        var b := r.value;
        assert forall p: nat | b.Has(p) :: !pages.block.Has(p) by {
          assert Apart(pages.given[|pages.given| - 1], pages.block);
        }
        space := Claim(space, b, who);
      }
    }

    /** `reserve_fixed()`: the given pages, if they are all free. */
    method ReserveFixed(b: Block, ghost who: Owner) returns (r: Result<()>)
      requires Valid() && b.start < b.end
      modifies this, pages
      ensures Valid()
      ensures r.Err? ==> space == old(space)
      ensures r.Ok? ==> (forall p: nat | b.Has(p) :: p !in old(space).owner) && space == Claim(old(space), b, who)
      ensures r.Ok? <==> old(pages.block).Contains(b)
      ensures refusals == old(refusals)
    {
      ghost var was := pages.block;
      r := pages.Reserve(b);
      if r.Ok? {
        assert forall p: nat | b.Has(p) :: was.Has(p) && !pages.block.Has(p);
        space := Claim(space, b, who);
      }
    }

    /** `map()`, of pages not mapped yet. It may run out of frames part-way. */
    method Map(b: Block, ghost who: Owner) returns (r: Result<()>)
      requires Valid() && AllOf(space, b, who)
      requires forall p: nat | b.Has(p) :: p !in space.mapped
      modifies this
      ensures Valid() && space.owner == old(space).owner
      ensures r.Ok? ==> space.mapped == old(space).mapped + Range(b)
      ensures r.Err? ==> old(space).mapped <= space.mapped <= old(space).mapped + Range(b)
      ensures r.Err? ==> exists p: nat :: b.Has(p) && p !in space.mapped
      ensures NothingLost(old(space), space)
      ensures refusals == old(refusals) + if r.Err? then 1 else 0
    {
      assert forall p: nat | b.Has(p) :: Of(space, p, who);
      var fails: bool := *;
      if fails && b.start < b.end {
        ghost var missing: nat := *;
        missing := if b.Has(missing) then missing else b.start;
        ghost var some: set<nat> := *;
        some := some * Range(b) - {missing};
        space := space.(mapped := space.mapped + some);
        refusals := refusals + 1;
        return Err(NoFrame);
      }
      space := space.(mapped := space.mapped + Range(b));
      r := Ok(());
    }

    /** `unmap()`, of mapped pages. */
    method Unmap(b: Block)
      requires Valid() && forall p: nat | b.Has(p) :: p in space.mapped
      modifies this
      ensures Valid() && space == old(space).(mapped := old(space).mapped - Range(b)) && refusals == old(refusals)
    {
      space := space.(mapped := space.mapped - Range(b));
    }

    /** `unreserve()`: of reserved pages it never fails. */
    method Unreserve(b: Block) returns (r: Result<()>)
      requires Valid() && b.start < b.end
      requires forall p: nat | b.Has(p) :: p in space.owner && p !in space.mapped
      modifies this
      ensures Valid() && r.Ok? && space == Unclaim(old(space), b) && refusals == old(refusals)
    {
      assert b.Has(b.start) && b.Has(b.end - 1);
      r := pages.Deallocate(b);
      space := Unclaim(space, b);
    }
  }
}
