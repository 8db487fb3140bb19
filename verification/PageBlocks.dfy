/** Blocks of whole pages, taken from and given back to the page-granular allocator
    (`dry_allocate()`, `dry_deallocate()`, and the pages that growing adds). */
module PageBlocks {
  import opened Mmu
  import opened Addr
  import opened PageAllocator
  import opened Frage
  import opened Fallback
  import Bytes = Big

  /** All pages of the block belong to `who` and are mapped. */
  ghost predicate Backed(s: Space, b: Block, who: Owner) {
    AllOf(s, b, who) && forall p: nat | b.Has(p) :: p in s.mapped
  }

  lemma ClaimOthers(s: Space, b: Block, who: Owner)
    requires forall p: nat | b.Has(p) :: p !in s.owner
    requires forall p: nat :: p in s.mapped ==> p in s.owner
    ensures Others(s, Claim(s, b, who), iset{who}) && AllOf(Claim(s, b, who), b, who)
    ensures forall p: nat | b.Has(p) :: p !in Claim(s, b, who).mapped
  {
  }

  lemma MapOthers(s: Space, t: Space, b: Block, who: Owner)
    requires AllOf(s, b, who) && t.owner == s.owner && s.mapped <= t.mapped <= s.mapped + Range(b)
    ensures Others(s, t, iset{who})
    ensures t.mapped == s.mapped + Range(b) ==> Backed(t, b, who)
  {
    forall p: nat | b.Has(p) ensures Of(s, p, who) && Of(t, p, who) { assert Of(s, p, who); }
  }

  lemma ReleaseOthers(s: Space, b: Block, who: Owner)
    requires Backed(s, b, who)
    ensures Others(s, Unclaim(s.(mapped := s.mapped - Range(b)), b), iset{who})
    ensures forall p: nat | b.Has(p) :: p in s.owner
  {
    forall p: nat | b.Has(p) ensures Of(s, p, who) { }
  }

  /** Pages that others do not touch stay backed. */
  lemma BackedKept(s: Space, t: Space, mine: iset<Owner>, b: Block, who: Owner)
    requires Backed(s, b, who) && Others(s, t, mine) && who !in mine
    ensures Backed(t, b, who)
  {
    forall p: nat | b.Has(p) ensures Of(t, p, who) && p in t.mapped { assert Of(s, p, who); }
  }

  lemma MappedOwned(f: Fallback)
    requires f.Valid()
    ensures forall p: nat :: p in f.space.mapped ==> p in f.space.owner
  {
  }

  /** `dry_allocate()`. */
  method TakePages(f: Fallback, size: nat, align: nat, ghost who: Owner) returns (r: Result<Block>)
    requires f.Valid() && Alignment(align) && size > 0
    modifies f, f.pages
    ensures f.Valid() && Others(old(f.space), f.space, iset{who})
    ensures r.Ok? ==>
      && 0 < r.value.start < r.value.end && r.value.Count() == CeilDiv(size, PAGE_SIZE) && Aligned(r.value.start, align)
      && Backed(f.space, r.value, who)
      && (forall p: nat | r.value.Has(p) :: p !in old(f.space).owner)
    ensures if r.Ok? then f.refusals == old(f.refusals) else f.refusals > old(f.refusals)
  {
    hide f.Valid, Others, Claim, Backed, AllOf, CeilDiv, Alignment, Aligned;
    ghost var s := f.space;
    MappedOwned(f);
    r := f.Reserve(size, align, who);
    if r.Err? {
      OthersRefl(s, iset{who});
      return;
    }
    ClaimOthers(s, r.value, who);
    ghost var t := f.space;
    var m := f.Map(r.value, who);
    MapOthers(t, f.space, r.value, who);
    OthersTrans(s, t, f.space, iset{who});
    if m.Err? {
      r := Err(m.error);
    }
  }

  /** Pages right after a block, when growing it in place. */
  method TakeMore(f: Fallback, b: Block, ghost who: Owner) returns (reserved: bool, r: Result<()>)
    requires f.Valid() && b.start < b.end
    modifies f, f.pages
    ensures f.Valid() && Others(old(f.space), f.space, iset{who})
    ensures !reserved ==> f.space == old(f.space)
    ensures reserved && r.Ok? ==> Backed(f.space, b, who) && forall p: nat | b.Has(p) :: p !in old(f.space).owner
    ensures forall c: Block :: Backed(old(f.space), c, who) ==> Backed(f.space, c, who)
    ensures reserved <==> old(f.pages.block).Contains(b)
    ensures f.refusals == old(f.refusals) <==> !reserved || r.Ok?
    ensures f.refusals >= old(f.refusals)
  {
    hide f.Valid, Others, AllOf;
    ghost var s := f.space;
    MappedOwned(f);
    r := f.ReserveFixed(b, who);
    if r.Err? {
      OthersRefl(s, iset{who});
      return false, r;
    }
    ClaimOthers(s, b, who);
    ghost var t := f.space;
    r := f.Map(b, who);
    MapOthers(t, f.space, b, who);
    OthersTrans(s, t, f.space, iset{who});
    reserved := true;
    forall c: Block | Backed(s, c, who) ensures Backed(f.space, c, who) {
      StillBacked(s, f.space, c, who);
    }
  }

  lemma StillBacked(s: Space, t: Space, c: Block, who: Owner)
    requires Backed(s, c, who) && s.mapped <= t.mapped
    requires forall p: nat :: p in s.owner ==> p in t.owner && t.owner[p] == s.owner[p]
    ensures Backed(t, c, who)
  {
    forall p: nat | c.Has(p) ensures Of(t, p, who) && p in t.mapped { assert Of(s, p, who); }
  }

  /** Reserved pages are pages of the address space. */
  lemma StartsCanonical(f: Fallback, b: Block, who: Owner)
    requires f.Valid() && b.start < b.end && Backed(f.space, b, who)
    ensures Canonical(b.start * PAGE_SIZE)
    ensures f.pages.initialBlock.Has(b.start) && f.pages.initialBlock.Has(b.end - 1)
  {
    assert Of(f.space, b.start, who) && Of(f.space, b.end - 1, who);
    HalvesValues(L0_SIZE);
  }

  /** `try_into_block()` gives the block back from its address and size, so freeing it does not fail. */
  lemma BlockAccepted(f: Fallback, b: Block, who: Owner, size: nat)
    requires f.Valid() && b.start < b.end && Backed(f.space, b, who) && b.Count() == CeilDiv(size, PAGE_SIZE)
    ensures Canonical(b.start * PAGE_SIZE) && Bytes.TryIntoBlock(b.start * PAGE_SIZE, size) == Ok(b)
  {
    StartsCanonical(f, b, who);
    Bytes.EndsInside(f.pages.initialBlock, b, size);
    Bytes.TryIntoBlockLaw(b.start * PAGE_SIZE, size);
  }

  /** `dry_deallocate()`. */
  method GivePages(f: Fallback, b: Block, ghost who: Owner)
    requires f.Valid() && b.start < b.end && Backed(f.space, b, who)
    modifies f
    ensures f.Valid() && Others(old(f.space), f.space, iset{who})
    ensures forall c: Block :: Backed(old(f.space), c, who) && c.Disjoint(b) && c.start <= c.end ==>
      Backed(f.space, c, who)
    ensures f.refusals == old(f.refusals)
  {
    hide f.Valid, Others, AllOf;
    ghost var s := f.space;
    ReleaseOthers(s, b, who);
    f.Unmap(b);
    var u := f.Unreserve(b);
    forall c: Block | Backed(s, c, who) && c.Disjoint(b) && c.start <= c.end ensures Backed(f.space, c, who) {
      RestBacked(s, b, c, who);
    }
  }

  lemma RestBacked(s: Space, b: Block, c: Block, who: Owner)
    requires Backed(s, c, who) && c.Disjoint(b) && c.start <= c.end && b.start < b.end
    ensures Backed(Unclaim(s.(mapped := s.mapped - Range(b)), b), c, who)
  {
    forall p: nat | c.Has(p) ensures !b.Has(p) && Of(s, p, who) { }
    var t := Unclaim(s.(mapped := s.mapped - Range(b)), b);
    forall p: nat | c.Has(p) ensures Of(t, p, who) && p in t.mapped { assert Of(s, p, who) && !b.Has(p); }
  }

  /** `dry_grow()` and `dry_shrink()`: block `a` made `count` pages long. It stays where it is when shrunk, or when
      the pages after it are free; otherwise it moves to pages that nobody had, under the new owner. */
  method ResizePages(f: Fallback, a: Block, size: nat, align: nat, ghost who: Owner, ghost next: Owner)
    returns (r: Result<Block>)
    requires f.Valid() && Alignment(align) && size > 0 && 0 < a.start < a.end && Backed(f.space, a, who) && who != next
    modifies f, f.pages
    ensures f.Valid() && Others(old(f.space), f.space, iset{who, next})
    ensures r.Err? ==> Backed(f.space, a, who)
    ensures r.Ok? ==>
      && 0 < r.value.start < r.value.end && r.value.Count() == CeilDiv(size, PAGE_SIZE)
      && Backed(f.space, r.value, if r.value.start == a.start then who else next)
      && (r.value.start != a.start ==> Aligned(r.value.start, align))
      && (forall p: nat | r.value.Has(p) && !a.Has(p) :: p !in old(f.space).owner)
    // It stays where it is exactly when it can, and it fails only if it would be too long, or pages ran out.
    ensures CeilDiv(size, PAGE_SIZE) <= a.Count() ==> r.Ok?
    ensures r.Ok? ==> (r.value.start == a.start <==> Extensible(a, CeilDiv(size, PAGE_SIZE), old(f.pages.block)))
    ensures if r.Ok? then f.refusals == old(f.refusals) else
      f.refusals > old(f.refusals) || (TooLong(a, size) && f.refusals == old(f.refusals))
  {
    hide f.Valid, Others, AllOf, Alignment, InHalf, Aligned, Backed;
    ghost var s := f.space;
    OthersRefl(s, iset{who, next});
    assert CeilDiv(size, PAGE_SIZE) > 0;
    hide CeilDiv;
    StartsCanonical(f, a, who);
    Bytes.TryIntoBlockLaw(a.start * PAGE_SIZE, size);
    if CeilDiv(size, PAGE_SIZE) <= a.Count() { ShorterAccepted(f, a, who, size); }
    var target := Bytes.TryIntoBlock(a.start * PAGE_SIZE, size);
    if target.Err? {
      return Err(target.error);
    }
    var b := target.value;
    if b.end == a.end {
      return Ok(b);
    }
    if b.end < a.end {
      PartBacked(s, a, b, who);
      PartBacked(s, a, Block(b.end, a.end), who);
      GivePages(f, Block(b.end, a.end), who);
      WiderOthers(s, f.space, who, next);
      return Ok(b);
    }
    var reserved, more := TakeMore(f, Block(a.end, b.end), who);
    WiderOthers(s, f.space, who, next);
    if reserved {
      if more.Err? {
        return Err(more.error);
      }
      JoinBacked(f.space, a, b, who);
      return Ok(b);
    }
    r := MovePages(f, a, size, align, who, next);
  }

  /** The block can be made `count` pages long where it is. */
  predicate Extensible(a: Block, count: nat, free: Block) {
    a.start + count <= a.end || free.Contains(Block(a.end, a.start + count))
  }

  /** The bytes would not end inside the half of the address space. */
  predicate TooLong(a: Block, size: nat) {
    Canonical(a.start * PAGE_SIZE) ==> Bytes.TryIntoBlock(a.start * PAGE_SIZE, size).Err?
  }

  lemma ShorterAccepted(f: Fallback, a: Block, who: Owner, size: nat)
    requires f.Valid() && a.start < a.end && Backed(f.space, a, who) && 0 < CeilDiv(size, PAGE_SIZE) <= a.Count()
    ensures Canonical(a.start * PAGE_SIZE) && Bytes.TryIntoBlock(a.start * PAGE_SIZE, size).Ok?
  {
    StartsCanonical(f, a, who);
    Bytes.EndsInside(f.pages.initialBlock, Block(a.start, a.start + CeilDiv(size, PAGE_SIZE)), size);
    Bytes.TryIntoBlockLaw(a.start * PAGE_SIZE, size);
  }

  method MovePages(f: Fallback, a: Block, size: nat, align: nat, ghost who: Owner, ghost next: Owner)
    returns (r: Result<Block>)
    requires f.Valid() && Alignment(align) && size > 0 && 0 < a.start < a.end && Backed(f.space, a, who) && who != next
    requires a.Count() < CeilDiv(size, PAGE_SIZE)
    modifies f, f.pages
    ensures f.Valid() && Others(old(f.space), f.space, iset{who, next})
    ensures r.Err? ==> Backed(f.space, a, who)
    ensures r.Ok? ==>
      && 0 < r.value.start < r.value.end && r.value.Count() == CeilDiv(size, PAGE_SIZE) && r.value.start != a.start
      && Aligned(r.value.start, align)
      && Backed(f.space, r.value, next) && forall p: nat | r.value.Has(p) :: p !in old(f.space).owner
    ensures if r.Ok? then f.refusals == old(f.refusals) else f.refusals > old(f.refusals)
  {
    hide f.Valid, Others, Alignment, Aligned, CeilDiv, Backed;
    ghost var s := f.space;
    r := TakePages(f, size, align, next);
    ghost var t := f.space;
    BackedKept(s, t, iset{next}, a, who);
    WiderOthers(s, t, next, who);
    if r.Err? {
      return;
    }
    FirstOwned(s, a, who);
    // `copy_mapping()`, `map()` of the rest, `unmap()` and `unreserve()` of the old block
    GivePages(f, a, who);
    BackedKept(t, f.space, iset{who}, r.value, next);
    WiderOthers(t, f.space, who, next);
    OthersTrans(s, t, f.space, iset{who, next});
  }

  lemma FirstOwned(s: Space, a: Block, who: Owner)
    requires Backed(s, a, who) && a.start < a.end
    ensures a.Has(a.start) && a.start in s.owner
  {
    assert Of(s, a.start, who);
  }

  lemma WiderOthers(s: Space, t: Space, who: Owner, next: Owner)
    requires Others(s, t, iset{who})
    ensures Others(s, t, iset{who, next}) && Others(s, t, iset{next, who})
  {
    assert iset{who, next} == iset{next, who};
  }

  lemma PartBacked(s: Space, a: Block, b: Block, who: Owner)
    requires Backed(s, a, who) && a.start <= b.start && b.end <= a.end
    ensures Backed(s, b, who)
  {
    forall p: nat | b.Has(p) ensures Of(s, p, who) && p in s.mapped { assert a.Has(p) && Of(s, p, who); }
  }

  lemma JoinBacked(s: Space, a: Block, b: Block, who: Owner)
    requires Backed(s, a, who) && a.start == b.start && a.end <= b.end && Backed(s, Block(a.end, b.end), who)
    ensures Backed(s, b, who)
  {
    var more := Block(a.end, b.end);
    forall p: nat | b.Has(p) ensures Of(s, p, who) && p in s.mapped {
      assert a.Has(p) || more.Has(p);
      assert a.Has(p) ==> Of(s, p, who);
      assert more.Has(p) ==> Of(s, p, who);
    }
  }
}
