/** The slabs of a size class: equal blocks cut from sixteen page ranges of 1 MiB, mapped as needed. */
module Quarry {
  import opened Division
  import opened Mmu
  import opened Addr
  import opened PageAllocator
  import opened Fallback

  const SLAB_COUNT := 16
  const SLAB_PAGES := 256
  const SLAB_SIZE := 0x10_0000

  predicate BlockSize(size: nat) { 0 < size <= SLAB_SIZE }

  /** Blocks in one slab. */
  function PerSlab(size: nat): (n: nat)
    requires BlockSize(size)
    ensures 0 < n
  {
    Quotient(SLAB_SIZE, size)
  }

  lemma PerSlabFits(size: nat)
    requires BlockSize(size)
    ensures PerSlab(size) * size <= SLAB_SIZE < (PerSlab(size) + 1) * size
  {
    QuotientLaw(SLAB_SIZE, size);
    assert (PerSlab(size) + 1) * size == PerSlab(size) * size + size;
  }

  /** `Quarry::allocation_coordinates()`: the slab of block `i`, and its place there. */
  function SlabIndex(size: nat, i: nat): nat
    requires BlockSize(size)
  {
    Quotient(i, PerSlab(size))
  }

  function SlabOffset(size: nat, i: nat): nat
    requires BlockSize(size)
  {
    Remainder(i, PerSlab(size))
  }

  /** `Quarry::slab_page_count()`: pages under the first `n` blocks of a slab. */
  function PagesIn(size: nat, n: nat): nat { CeilDiv(Span(size, n), PAGE_SIZE) }

  /** Bytes of `n` blocks: `n * size`, as repeated addition (see `SpanLaw`). */
  function Span(size: nat, n: nat): nat { if n == 0 then 0 else Span(size, n - 1) + size }

  /** Pages of all complete slabs, and of the partial one as many as its first blocks need. */
  function PagesFor(size: nat, count: nat): nat
    requires BlockSize(size)
  {
    SLAB_PAGES * SlabIndex(size, count) + PagesIn(size, SlabOffset(size, count))
  }

  function SlabsFor(size: nat, count: nat): nat
    requires BlockSize(size)
  {
    SlabIndex(size, count) + if SlabOffset(size, count) > 0 then 1 else 0
  }

  // ---------------------------------------------------------------------------------------------
  // Arithmetic of slabs

  lemma {:induction false} SpanLaw(size: nat, n: nat)
    ensures Span(size, n) == n * size
  {
    if n > 0 {
      SpanLaw(size, n - 1);
      assert n * size == (n - 1) * size + size;
    }
  }

  lemma PagesInOrder(size: nat, m: nat, n: nat)
    requires BlockSize(size) && m <= n <= PerSlab(size)
    ensures PagesIn(size, m) <= PagesIn(size, n) <= SLAB_PAGES
    ensures m > 0 ==> PagesIn(size, m) > 0
    ensures m == 0 ==> PagesIn(size, m) == 0
  {
    PerSlabFits(size);
    SpanLaw(size, m);
    SpanLaw(size, n);
    MulLe(m, n, size);
    MulLe(n, PerSlab(size), size);
    if m > 0 { MulLe(1, m, size); }
    CeilOrder(m * size, n * size);
    CeilOrder(n * size, SLAB_SIZE);
  }

  lemma CeilOrder(a: nat, b: nat)
    requires a <= b
    ensures CeilDiv(a, PAGE_SIZE) <= CeilDiv(b, PAGE_SIZE)
    ensures a <= PAGE_SIZE * CeilDiv(a, PAGE_SIZE) < a + PAGE_SIZE
  {
  }

  lemma Coordinates(d: nat, x: nat)
    requires d > 0
    ensures x == Quotient(x, d) * d + Remainder(x, d) && Remainder(x, d) < d
    ensures x <= d * SLAB_COUNT ==>
      Quotient(x, d) <= SLAB_COUNT && (Quotient(x, d) == SLAB_COUNT <==> x == d * SLAB_COUNT)
    ensures x == d * SLAB_COUNT ==> Remainder(x, d) == 0
  {
    QuotientLaw(x, d);
    if x <= d * SLAB_COUNT {
      if Quotient(x, d) >= SLAB_COUNT { MulLe(SLAB_COUNT, Quotient(x, d), d); }
      if Quotient(x, d) > SLAB_COUNT { MulLe(SLAB_COUNT + 1, Quotient(x, d), d); }
    }
    if x == d * SLAB_COUNT { DigitsUnique(x, d, SLAB_COUNT, 0); }
  }

  /** Counting blocks and walking the slabs agree on what comes first. */
  lemma CoordinatesOrder(d: nat, x: nat, y: nat)
    requires d > 0 && x < y
    ensures Quotient(x, d) < Quotient(y, d) || (Quotient(x, d) == Quotient(y, d) && Remainder(x, d) < Remainder(y, d))
  {
    QuotientLaw(x, d);
    QuotientLaw(y, d);
    DigitsOrder(d, Quotient(x, d), Remainder(x, d), Quotient(y, d), Remainder(y, d));
  }

  lemma DigitsOrder(d: nat, a: nat, r: nat, b: nat, t: nat)
    requires r < d && t < d && a * d + r < b * d + t
    ensures a < b || (a == b && r < t)
  {
    assert (b + 1) * d == b * d + d;
    MulLe(if b < a then b + 1 else 0, a, d);
  }

  /** The mapped pages grow with the count and stay inside the slabs it touches. */
  lemma PagesForBounds(size: nat, m: nat, n: nat)
    requires BlockSize(size) && m <= n
    ensures PagesFor(size, m) <= PagesFor(size, n) <= SLAB_PAGES * SlabsFor(size, n)
    ensures SlabsFor(size, m) <= SlabsFor(size, n)
    ensures n <= PerSlab(size) * SLAB_COUNT ==> SlabsFor(size, n) <= SLAB_COUNT
  {
    var d := PerSlab(size);
    Coordinates(d, m);
    Coordinates(d, n);
    assert SlabIndex(size, m) == Quotient(m, d) && SlabIndex(size, n) == Quotient(n, d);
    if m < n { CoordinatesOrder(d, m, n); }
    PagesInOrder(size, Remainder(m, d), d);
    PagesInOrder(size, Remainder(n, d), d);
    PagesInOrder(size, 0, Remainder(n, d));
    if Quotient(m, d) == Quotient(n, d) { PagesInOrder(size, Remainder(m, d), Remainder(n, d)); }
  }

  // ---------------------------------------------------------------------------------------------
  // Which pages belong to a quarry, and which of them are mapped

  ghost function SlabsOf(kind: nat): iset<Owner> { iset o: Owner | IsSlab(o, kind) }

  ghost predicate IsSlab(o: Owner, kind: nat) { o.Slab? && o.kind == kind }

  predicate InSlab(slabs: seq<nat>, i: nat, p: nat) {
    i < |slabs| && slabs[i] <= p < slabs[i] + SLAB_PAGES
  }

  /** Exactly slabs `lo .. hi` are reserved, and the pages of this size class's slabs are those of theirs. */
  ghost predicate Owned(s: Space, kind: nat, slabs: seq<nat>, lo: nat, hi: nat)
    ensures Owned(s, kind, slabs, lo, hi) ==> |slabs| == SLAB_COUNT && lo <= hi <= SLAB_COUNT
  {
    && |slabs| == SLAB_COUNT && lo <= hi <= SLAB_COUNT
    && (forall i: nat {:trigger slabs[i]} :: i < SLAB_COUNT ==> (slabs[i] > 0 <==> lo <= i < hi))
    && (forall p: nat {:trigger s.owner[p]} :: p in s.owner && IsSlab(s.owner[p], kind) ==>
          lo <= s.owner[p].slab < hi && InSlab(slabs, s.owner[p].slab, p))
    && (forall i: nat, p: nat {:trigger InSlab(slabs, i, p)} :: lo <= i < hi && InSlab(slabs, i, p) ==>
          p in s.owner && s.owner[p] == Slab(kind, i))
  }

  /** The pages of the slabs, counted slab after slab, are mapped exactly up to number `mark`. */
  ghost predicate Upto(s: Space, kind: nat, slabs: seq<nat>, mark: nat) {
    forall p: nat {:trigger s.owner[p]} ::
      p in s.owner && IsSlab(s.owner[p], kind) && InSlab(slabs, s.owner[p].slab, p) ==>
        (p in s.mapped <==> SLAB_PAGES * s.owner[p].slab + (p - slabs[s.owner[p].slab]) < mark)
  }

  /** Page `o` of slab `k` is not mapped, the slab not even reserved perhaps. */
  ghost predicate Absent(s: Space, slabs: seq<nat>, k: nat, o: nat) {
    k < |slabs| && o < SLAB_PAGES && (slabs[k] == 0 || slabs[k] + o !in s.mapped)
  }

  /** Some of the first `mark` pages of the slabs is not mapped. */
  ghost predicate Lacks(s: Space, slabs: seq<nat>, mark: nat) {
    exists k: nat, o: nat {:trigger Absent(s, slabs, k, o)} :: SLAB_PAGES * k + o < mark && Absent(s, slabs, k, o)
  }

  lemma LacksMore(s: Space, slabs: seq<nat>, mark: nat, more: nat)
    requires Lacks(s, slabs, mark) && mark <= more
    ensures Lacks(s, slabs, more)
  {
  }

  /** The first `n` slabs are where they were. */
  ghost predicate SameSlabs(before: seq<nat>, after: seq<nat>, n: nat) {
    n <= |before| == |after| && forall k: nat {:trigger after[k]} | k < n :: after[k] == before[k]
  }

  function Part(slabs: seq<nat>, i: nat, from: nat, to: nat): Block
    requires i < |slabs|
  {
    Block(slabs[i] + from, slabs[i] + to)
  }

  /** Mapping the next pages of slab `i` moves the mark. */
  lemma MapStep(s: Space, t: Space, kind: nat, slabs: seq<nat>, lo: nat, hi: nat, i: nat, from: nat, to: nat)
    requires Owned(s, kind, slabs, lo, hi) && lo <= i < hi && from <= to <= SLAB_PAGES
    requires Upto(s, kind, slabs, SLAB_PAGES * i + from)
    ensures AllOf(s, Part(slabs, i, from, to), Slab(kind, i))
    ensures forall p: nat | Part(slabs, i, from, to).Has(p) :: p !in s.mapped
    ensures t.owner == s.owner && s.mapped <= t.mapped <= s.mapped + Range(Part(slabs, i, from, to)) ==>
      Others(s, t, SlabsOf(kind)) && Owned(t, kind, slabs, lo, hi)
    ensures t == s.(mapped := s.mapped + Range(Part(slabs, i, from, to))) ==>
      Upto(t, kind, slabs, SLAB_PAGES * i + to)
  {
    var b := Part(slabs, i, from, to);
    forall p: nat | b.Has(p) ensures p in s.owner && s.owner[p] == Slab(kind, i) && p !in s.mapped {
      assert InSlab(slabs, i, p);
    }
    assert forall p: nat | b.Has(p) :: Of(s, p, Slab(kind, i));
  }

  /** A freshly reserved slab. */
  lemma ReserveStep(s: Space, kind: nat, slabs: seq<nat>, hi: nat, b: Block, mark: nat)
    requires Owned(s, kind, slabs, 0, hi) && hi < SLAB_COUNT && Upto(s, kind, slabs, mark) && mark <= SLAB_PAGES * hi
    requires 0 < b.start <= b.end && b.Count() == SLAB_PAGES && forall p: nat | b.Has(p) :: p !in s.owner
    requires forall p: nat :: p in s.mapped ==> p in s.owner
    ensures Owned(Claim(s, b, Slab(kind, hi)), kind, slabs[hi := b.start], 0, hi + 1)
    ensures Upto(Claim(s, b, Slab(kind, hi)), kind, slabs[hi := b.start], mark)
    ensures Others(s, Claim(s, b, Slab(kind, hi)), SlabsOf(kind))
  {
    var t, after := Claim(s, b, Slab(kind, hi)), slabs[hi := b.start];
    forall i: nat, p: nat | 0 <= i < hi + 1 && InSlab(after, i, p)
      ensures p in t.owner && t.owner[p] == Slab(kind, i)
    {
      if i < hi { assert InSlab(slabs, i, p); }
    }
  }

  /** The mapped pages of slab `lo`. */
  lemma SlabMapped(s: Space, kind: nat, slabs: seq<nat>, lo: nat, hi: nat, mark: nat, k: nat)
    requires Owned(s, kind, slabs, lo, hi) && lo < hi && Upto(s, kind, slabs, mark)
    requires k <= SLAB_PAGES && (mark == SLAB_PAGES * lo + k || (k == SLAB_PAGES && mark >= SLAB_PAGES * (lo + 1)))
    ensures forall p: nat | InSlab(slabs, lo, p) :: Of(s, p, Slab(kind, lo))
    ensures forall p: nat | InSlab(slabs, lo, p) :: p in s.mapped <==> p < slabs[lo] + k
  {
  }

  /** Slab `lo`, none of its pages mapped any more, is given back. */
  lemma ReleaseStep(s: Space, t: Space, kind: nat, slabs: seq<nat>, lo: nat, hi: nat, mark: nat, k: nat)
    requires Owned(s, kind, slabs, lo, hi) && lo < hi && Upto(s, kind, slabs, mark)
    requires k <= SLAB_PAGES && (mark == SLAB_PAGES * lo + k || (k == SLAB_PAGES && mark >= SLAB_PAGES * (lo + 1)))
    requires t == Unclaim(s.(mapped := s.mapped - Range(Part(slabs, lo, 0, k))), Part(slabs, lo, 0, SLAB_PAGES))
    ensures Owned(t, kind, slabs[lo := 0], lo + 1, hi) && Upto(t, kind, slabs[lo := 0], mark)
    ensures Others(s, t, SlabsOf(kind))
  {
    ReleaseOwned(s, t, kind, slabs, lo, hi);
    ReleaseAside(s, t, kind, slabs, lo, hi, k);
    ReleaseUpto(s, t, kind, slabs, lo, hi, mark, k);
  }

  lemma ReleaseUpto(s: Space, t: Space, kind: nat, slabs: seq<nat>, lo: nat, hi: nat, mark: nat, k: nat)
    requires Owned(s, kind, slabs, lo, hi) && lo < hi && Upto(s, kind, slabs, mark) && k <= SLAB_PAGES
    requires t == Unclaim(s.(mapped := s.mapped - Range(Part(slabs, lo, 0, k))), Part(slabs, lo, 0, SLAB_PAGES))
    requires Owned(t, kind, slabs[lo := 0], lo + 1, hi)
    ensures Upto(t, kind, slabs[lo := 0], mark)
  {
    hide Owned;
    var full, after := Part(slabs, lo, 0, SLAB_PAGES), slabs[lo := 0];
    forall p: nat | p in t.owner && IsSlab(t.owner[p], kind) && InSlab(after, t.owner[p].slab, p)
      ensures p in t.mapped <==> SLAB_PAGES * t.owner[p].slab + (p - after[t.owner[p].slab]) < mark
    {
      SlabOther(t, kind, after, lo, hi, p);
      assert p in s.owner && s.owner[p] == t.owner[p] && !full.Has(p);
      assert after[t.owner[p].slab] == slabs[t.owner[p].slab];
      UptoAt(s, kind, slabs, mark, p);
    }
  }

  lemma ReleaseAside(s: Space, t: Space, kind: nat, slabs: seq<nat>, lo: nat, hi: nat, k: nat)
    requires Owned(s, kind, slabs, lo, hi) && lo < hi && k <= SLAB_PAGES
    requires t == Unclaim(s.(mapped := s.mapped - Range(Part(slabs, lo, 0, k))), Part(slabs, lo, 0, SLAB_PAGES))
    ensures Others(s, t, SlabsOf(kind))
  {
    var full := Part(slabs, lo, 0, SLAB_PAGES);
    forall p: nat | full.Has(p) ensures Of(s, p, Slab(kind, lo)) {
      assert InSlab(slabs, lo, p);
    }
    hide Owned;
    forall p: nat | p in s.owner && !IsSlab(s.owner[p], kind)
      ensures p in t.owner && t.owner[p] == s.owner[p] && (p in t.mapped <==> p in s.mapped)
    {
      assert !full.Has(p);
    }
  }

  lemma SlabOther(t: Space, kind: nat, after: seq<nat>, lo: nat, hi: nat, p: nat)
    requires Owned(t, kind, after, lo + 1, hi) && p in t.owner && IsSlab(t.owner[p], kind)
    ensures lo < t.owner[p].slab < hi
  {
  }

  lemma ReleaseOwned(s: Space, t: Space, kind: nat, slabs: seq<nat>, lo: nat, hi: nat)
    requires Owned(s, kind, slabs, lo, hi) && lo < hi
    requires t.owner == Unclaim(s, Part(slabs, lo, 0, SLAB_PAGES)).owner
    ensures Owned(t, kind, slabs[lo := 0], lo + 1, hi)
  {
    var full, after := Part(slabs, lo, 0, SLAB_PAGES), slabs[lo := 0];
    forall i: nat, p: nat | lo < i < hi && InSlab(after, i, p)
      ensures p in t.owner && t.owner[p] == Slab(kind, i)
    {
      assert InSlab(slabs, i, p) && !InSlab(slabs, lo, p);
    }
    forall p: nat | p in t.owner && IsSlab(t.owner[p], kind)
      ensures lo < t.owner[p].slab < hi && InSlab(after, t.owner[p].slab, p)
    {
      assert s.owner[p] == t.owner[p];
      assert t.owner[p].slab == lo ==> full.Has(p);
    }
  }

  // ---------------------------------------------------------------------------------------------
  // How many blocks the mapped pages hold

  /** The first page past block `i`, counting pages slab after slab. */
  function EndPage(size: nat, i: nat): nat
    requires BlockSize(size)
  {
    SLAB_PAGES * SlabIndex(size, i) + PagesIn(size, SlabOffset(size, i) + 1)
  }

  /** The pages mapped for `count` blocks hold each of them. */
  lemma CountedAreBacked(size: nat, count: nat, i: nat)
    requires BlockSize(size) && i < count
    ensures EndPage(size, i) <= PagesFor(size, count)
  {
    var d := PerSlab(size);
    CoordinatesOrder(d, i, count);
    Coordinates(d, i);
    Coordinates(d, count);
    PagesInOrder(size, Remainder(i, d) + 1, d);
    if Quotient(i, d) == Quotient(count, d) { PagesInOrder(size, Remainder(i, d) + 1, Remainder(count, d)); }
    assert SlabIndex(size, i) == Quotient(i, d) && SlabOffset(size, i) == Remainder(i, d);
    assert SlabIndex(size, count) == Quotient(count, d) && SlabOffset(size, count) == Remainder(count, d);
  }

  /** The count that `Quarry::map()` reports back. */
  function Stretched(size: nat, count: nat): nat
    requires BlockSize(size)
  {
    var fit := PagesIn(size, SlabOffset(size, count)) * PAGE_SIZE / size;
    SlabIndex(size, count) * PerSlab(size) + if fit < PerSlab(size) then fit else PerSlab(size)
  }

  lemma StretchedOffset(size: nat, o: nat)
    requires BlockSize(size) && o < PerSlab(size)
    ensures (
      var pages := PagesIn(size, o);
      var fit := pages * PAGE_SIZE / size;
      && o <= fit && pages < PagesIn(size, fit + 1)
      && forall k: nat | k <= fit :: PagesIn(size, k) <= pages)
  {
    var pages := PagesIn(size, o);
    var bytes := pages * PAGE_SIZE;
    var fit := bytes / size;
    assert o * size <= bytes by {
      SpanLaw(size, o);
      CeilOrder(o * size, o * size);
    }
    hide PagesIn;
    DivMod(size, bytes);
    assert (fit + 1) * size == fit * size + size;
    MulLe(if fit < o then fit + 1 else o, o, size);
    PagesPast(size, fit + 1, pages);
    forall k: nat | k <= fit ensures PagesIn(size, k) <= pages {
      MulLe(k, fit, size);
      PagesPast(size, k, pages);
    }
  }

  lemma PagesPast(size: nat, n: nat, pages: nat)
    ensures PagesIn(size, n) <= pages <==> n * size <= pages * PAGE_SIZE
  {
    SpanLaw(size, n);
  }

  /** The reported count is the largest one whose blocks all lie on mapped pages. */
  lemma StretchedIsLargest(size: nat, count: nat)
    requires BlockSize(size)
    ensures count <= Stretched(size, count)
    ensures count < PerSlab(size) * SLAB_COUNT ==> Stretched(size, count) <= PerSlab(size) * SLAB_COUNT
    ensures forall i: nat | i < Stretched(size, count) :: EndPage(size, i) <= PagesFor(size, count)
    ensures EndPage(size, Stretched(size, count)) > PagesFor(size, count)
  {
    hide PerSlab, Stretched, EndPage, PagesFor;
    forall i: nat | i < Stretched(size, count) ensures EndPage(size, i) <= PagesFor(size, count) {
      BelowStretched(size, count, i);
    }
    PastStretched(size, count);
  }

  /** The slab and the offset of the reported count. */
  lemma StretchedParts(size: nat, count: nat) returns (slab: nat, top: nat)
    requires BlockSize(size)
    ensures slab == SlabIndex(size, count) && SlabOffset(size, count) <= top <= PerSlab(size)
    ensures Stretched(size, count) == slab * PerSlab(size) + top
    ensures top < PerSlab(size) ==> PagesIn(size, SlabOffset(size, count)) < PagesIn(size, top + 1)
  {
    hide PerSlab, PagesIn, Quotient, Remainder;
    var d := PerSlab(size);
    var o := Remainder(count, d);
    Coordinates(d, count);
    StretchedOffset(size, o);
    var fit := PagesIn(size, o) * PAGE_SIZE / size;
    slab, top := Quotient(count, d), if fit < d then fit else d;
  }

  lemma PastStretched(size: nat, count: nat)
    requires BlockSize(size)
    ensures count <= Stretched(size, count)
    ensures count < PerSlab(size) * SLAB_COUNT ==> Stretched(size, count) <= PerSlab(size) * SLAB_COUNT
    ensures EndPage(size, Stretched(size, count)) > PagesFor(size, count)
  {
    hide PerSlab, PagesIn, Quotient, Remainder, Stretched;
    var d := PerSlab(size);
    var slab, top := StretchedParts(size, count);
    Coordinates(d, count);
    PagesInOrder(size, SlabOffset(size, count), d);
    assert (slab + 1) * d == slab * d + d;
    if count < d * SLAB_COUNT { MulLe(slab + 1, SLAB_COUNT, d); }
    if top < d {
      DigitsUnique(slab * d + top, d, slab, top);
    } else {
      DigitsUnique(slab * d + top, d, slab + 1, 0);
      PagesInOrder(size, 1, d);
    }
  }

  lemma BelowStretched(size: nat, count: nat, i: nat)
    requires BlockSize(size) && i < Stretched(size, count)
    ensures EndPage(size, i) <= PagesFor(size, count)
  {
    var d := PerSlab(size);
    if i < count {
      CountedAreBacked(size, count, i);
    } else {
      var slab, o := Quotient(count, d), Remainder(count, d);
      Coordinates(d, count);
      StretchedOffset(size, o);
      var k := i - slab * d;
      DigitsUnique(i, d, slab, k);
      assert PagesIn(size, k + 1) <= PagesIn(size, o);
    }
  }

  // ---------------------------------------------------------------------------------------------

  class Quarry {
    const kind: nat
    const size: nat
    var slabs: seq<nat>

    /** `Quarry::new()`. */
    constructor (kind: nat, size: nat)
      requires BlockSize(size)
      ensures this.kind == kind && this.size == size && slabs == seq(SLAB_COUNT, _ => 0)
    {
      this.kind, this.size, slabs := kind, size, seq(SLAB_COUNT, _ => 0);
    }

    function Capacity(): nat
      requires BlockSize(size)
    {
      PerSlab(size) * SLAB_COUNT
    }

    /** The slabs are as `count` blocks need them. */
    ghost predicate Holds(s: Space, count: nat)
      reads this
      ensures Holds(s, count) ==> |slabs| == SLAB_COUNT
    {
      && BlockSize(size) && count <= Capacity()
      && Owned(s, kind, slabs, 0, SlabsFor(size, count))
      && Upto(s, kind, slabs, PagesFor(size, count))
    }

    /** `Quarry::reserve()`. */
    method Reserve(count: nat, target: nat, f: Fallback) returns (r: Result<()>)
      requires f.Valid() && Holds(f.space, count) && count < target <= Capacity()
      modifies this, f, f.pages
      ensures f.Valid() && Others(old(f.space), f.space, SlabsOf(kind))
      ensures r.Ok? ==> Owned(f.space, kind, slabs, 0, SlabsFor(size, target))
      ensures r.Ok? ==> Upto(f.space, kind, slabs, PagesFor(size, count))
      ensures SameSlabs(old(slabs), slabs, SlabsFor(size, count)) && NothingLost(old(f.space), f.space)
      ensures r.Err? ==> Lacks(f.space, slabs, PagesFor(size, target))
      ensures if r.Ok? then f.refusals == old(f.refusals) else f.refusals > old(f.refusals)
    {
      hide Owned, Upto, Others, PagesFor, SlabsFor, PerSlab, SlabsOf, CeilDiv, Claim, Range, NothingLost, Lacks;
      PagesForBounds(size, count, target);
      PagesForBounds(size, count, count);
      OthersRefl(f.space, SlabsOf(kind));
      LostNone(f.space);
      for slab := SlabsFor(size, count) to SlabsFor(size, target)
        invariant f.Valid() && Others(old(f.space), f.space, SlabsOf(kind))
        invariant Owned(f.space, kind, slabs, 0, slab) && Upto(f.space, kind, slabs, PagesFor(size, count))
        invariant SameSlabs(old(slabs), slabs, SlabsFor(size, count)) && NothingLost(old(f.space), f.space)
        invariant f.refusals == old(f.refusals)
      {
        ghost var s := f.space;
        var b := f.Reserve(SLAB_SIZE, PAGE_SIZE, Slab(kind, slab));
        LostThen(old(f.space), s, f.space);
        if b.Err? {
          SlabLacks(f.space, kind, slabs, slab, size, target);
          return Err(b.error);
        }
        SlabPages();
        ReserveStep(s, kind, slabs, slab, b.value, PagesFor(size, count));
        OthersTrans(old(f.space), s, f.space, SlabsOf(kind));
        slabs := slabs[slab := b.value.start];
      }
      r := Ok(());
    }

    /** Maps pages `from .. to` of slab `i`. */
    method MapPart(f: Fallback, ghost hi: nat, i: nat, from: nat, to: nat) returns (r: Result<()>)
      requires f.Valid() && Owned(f.space, kind, slabs, 0, hi) && i < hi && from <= to <= SLAB_PAGES
      requires Upto(f.space, kind, slabs, SLAB_PAGES * i + from)
      modifies f
      ensures f.Valid() && Others(old(f.space), f.space, SlabsOf(kind)) && Owned(f.space, kind, slabs, 0, hi)
      ensures r.Ok? ==> Upto(f.space, kind, slabs, SLAB_PAGES * i + to)
      ensures r.Err? ==> Lacks(f.space, slabs, SLAB_PAGES * i + to)
      ensures NothingLost(old(f.space), f.space)
      ensures if r.Ok? then f.refusals == old(f.refusals) else f.refusals > old(f.refusals)
    {
      hide Owned, Upto, Others, SlabsOf, Range, NothingLost, Lacks;
      ghost var s := f.space;
      MapStep(s, s, kind, slabs, 0, hi, i, from, to);
      r := f.Map(Part(slabs, i, from, to), Slab(kind, i));
      MapStep(s, f.space, kind, slabs, 0, hi, i, from, to);
      if r.Err? {
        PartLacks(f.space, slabs, i, from, to);
      }
    }

    /** Completes the partial slab and maps the slabs up to `until` whole. */
    method MapComplete(f: Fallback, count: nat, ghost hi: nat, until: nat) returns (r: Result<nat>)
      requires f.Valid() && BlockSize(size) && Owned(f.space, kind, slabs, 0, hi)
      requires Upto(f.space, kind, slabs, PagesFor(size, count))
      requires SlabIndex(size, count) < until <= hi
      modifies f
      ensures f.Valid() && Others(old(f.space), f.space, SlabsOf(kind)) && Owned(f.space, kind, slabs, 0, hi)
      ensures r.Ok? ==> Upto(f.space, kind, slabs, SLAB_PAGES * until)
      ensures r.Ok? ==> r.value == SLAB_PAGES * until - PagesFor(size, count)
      ensures r.Err? ==> Lacks(f.space, slabs, SLAB_PAGES * until)
      ensures NothingLost(old(f.space), f.space)
      ensures if r.Ok? then f.refusals == old(f.refusals) else f.refusals > old(f.refusals)
    {
      hide Owned, Upto, Others, PerSlab, SlabsOf, CeilDiv, PagesIn, SlabIndex, SlabOffset, NothingLost, Lacks;
      OthersRefl(f.space, SlabsOf(kind));
      LostNone(f.space);
      var slab, offset := SlabIndex(size, count), SlabOffset(size, count);
      OffsetBound(size, count);
      var pages := PagesIn(size, offset);
      var total, first := 0, slab;
      if offset > 0 {
        if pages < SLAB_PAGES {
          var m := MapPart(f, hi, slab, pages, SLAB_PAGES);
          if m.Err? {
            LacksMore(f.space, slabs, SLAB_PAGES * slab + SLAB_PAGES, SLAB_PAGES * until);
            return Err(m.error);
          }
          total := SLAB_PAGES - pages;
        }
        first := slab + 1;
      }
      for i := first to until
        invariant f.Valid() && Others(old(f.space), f.space, SlabsOf(kind)) && Owned(f.space, kind, slabs, 0, hi)
        invariant Upto(f.space, kind, slabs, SLAB_PAGES * i) && NothingLost(old(f.space), f.space)
        invariant f.refusals == old(f.refusals)
        invariant total == SLAB_PAGES * i - PagesFor(size, count)
      {
        ghost var s := f.space;
        var m := MapPart(f, hi, i, 0, SLAB_PAGES);
        OthersTrans(old(f.space), s, f.space, SlabsOf(kind));
        LostThen(old(f.space), s, f.space);
        if m.Err? {
          LacksMore(f.space, slabs, SLAB_PAGES * i + SLAB_PAGES, SLAB_PAGES * until);
          return Err(m.error);
        }
        total := total + SLAB_PAGES;
      }
      r := Ok(total);
    }

    /** `Quarry::map()`: after it exactly the pages that `target` blocks need are mapped, each mapped once;
        the answer counts the new ones, and `actual` is the number of blocks they all hold. */
    method Map(count: nat, target: nat, f: Fallback) returns (r: Result<nat>, actual: nat)
      requires f.Valid() && Holds(f.space, count) && count < target <= Capacity()
      modifies this, f, f.pages
      ensures f.Valid() && Others(old(f.space), f.space, SlabsOf(kind))
      ensures r.Ok? ==> Holds(f.space, target)
      ensures SameSlabs(old(slabs), slabs, SlabsFor(size, count)) && NothingLost(old(f.space), f.space)
      ensures r.Err? ==> Lacks(f.space, slabs, PagesFor(size, target))
      ensures r.Ok? ==> r.value == PagesFor(size, target) - PagesFor(size, count)
      ensures r.Ok? ==>
        && target <= actual <= Capacity()
        && (forall i: nat | i < actual :: EndPage(size, i) <= PagesFor(size, target))
        && (actual < Capacity() ==> EndPage(size, actual) > PagesFor(size, target))
      ensures if r.Ok? then f.refusals == old(f.refusals) else f.refusals > old(f.refusals)
    {
      hide Owned, Upto, Others, PerSlab, SlabsOf, CeilDiv, PagesIn, SlabIndex, SlabOffset, EndPage, Stretched,
           NothingLost, Lacks;
      actual := target;
      var reserved := Reserve(count, target, f);
      if reserved.Err? {
        return Err(reserved.error), target;
      }
      ghost var s := f.space;
      ghost var hi := SlabsFor(size, target);
      MapPlan(size, count, target);
      if target == Capacity() {
        var m := MapComplete(f, count, hi, SLAB_COUNT);
        OthersTrans(old(f.space), s, f.space, SlabsOf(kind));
        LostThen(old(f.space), s, f.space);
        AllBackedAtCapacity(size);
        return m, target;
      }
      var oldSlab, newSlab := SlabIndex(size, count), SlabIndex(size, target);
      var oldPages := PagesIn(size, SlabOffset(size, count));
      var newPages := PagesIn(size, SlabOffset(size, target));
      var total := 0;
      if oldSlab == newSlab {
        if oldPages < newPages {
          var m := MapPart(f, hi, oldSlab, oldPages, newPages);
          OthersTrans(old(f.space), s, f.space, SlabsOf(kind));
          LostThen(old(f.space), s, f.space);
          if m.Err? {
            return Err(m.error), target;
          }
          total := newPages - oldPages;
        }
      } else {
        var m := MapComplete(f, count, hi, newSlab);
        OthersTrans(old(f.space), s, f.space, SlabsOf(kind));
        LostThen(old(f.space), s, f.space);
        if m.Err? {
          LacksMore(f.space, slabs, SLAB_PAGES * newSlab, PagesFor(size, target));
          return Err(m.error), target;
        }
        total := m.value;
        s := f.space;
        if SlabOffset(size, target) > 0 {
          var n := MapPart(f, hi, newSlab, 0, newPages);
          OthersTrans(old(f.space), s, f.space, SlabsOf(kind));
          LostThen(old(f.space), s, f.space);
          if n.Err? {
            return Err(n.error), target;
          }
          total := total + newPages;
        }
      }
      StretchedIsLargest(size, target);
      actual := Stretched(size, target);
      r := Ok(total);
    }

    /** `Quarry::unmap()`: gives back every page, and answers how many were mapped. */
    method Unmap(count: nat, f: Fallback) returns (freed: nat)
      requires f.Valid() && Holds(f.space, count)
      modifies this, f
      ensures f.Valid() && Others(old(f.space), f.space, SlabsOf(kind))
      ensures Holds(f.space, 0) && (forall p: nat :: p in f.space.owner ==> !IsSlab(f.space.owner[p], kind))
      ensures freed == PagesFor(size, count)
      ensures f.refusals == old(f.refusals)
    {
      hide Owned, Upto, Others, PerSlab, SlabsOf, CeilDiv, PagesIn, SlabIndex, SlabOffset;
      OthersRefl(f.space, SlabsOf(kind));
      var slab, offset := SlabIndex(size, count), SlabOffset(size, count);
      OffsetBound(size, count);
      ghost var hi, mark := SlabsFor(size, count), PagesFor(size, count);
      freed := 0;
      for i := 0 to slab
        invariant f.Valid() && Others(old(f.space), f.space, SlabsOf(kind))
        invariant Owned(f.space, kind, slabs, i, hi) && Upto(f.space, kind, slabs, mark)
        invariant freed == SLAB_PAGES * i && f.refusals == old(f.refusals)
      {
        Release(f, i, SLAB_PAGES, hi, mark);
        freed := freed + SLAB_PAGES;
      }
      if offset > 0 {
        Release(f, slab, PagesIn(size, offset), hi, mark);
        freed := freed + PagesIn(size, offset);
      }
      NothingOwned(f.space, kind, slabs, hi, size);
    }

    /** `Quarry::allocation()`. */
    method Allocation(i: nat) returns (address: nat)
      requires BlockSize(size) && |slabs| == SLAB_COUNT && i < Capacity()
      ensures SlabIndex(size, i) < SLAB_COUNT
      ensures address == if slabs[SlabIndex(size, i)] > 0 then Address(slabs, size, i) else 0
    {
      Coordinates(PerSlab(size), i);
      var slab := slabs[SlabIndex(size, i)];
      SpanLaw(size, SlabOffset(size, i));
      address := if slab == 0 then 0 else slab * PAGE_SIZE + SlabOffset(size, i) * size;
    }

    /** `Quarry::allocation_index()`: undoes `Allocation()`, from any byte of the block; has no answer exactly
        outside the slabs; and takes the bytes left over at the end of a slab for the first block of the next. */
    method AllocationIndex(address: nat, ghost s: Space, ghost hi: nat) returns (r: Option<nat>)
      requires BlockSize(size) && Owned(s, kind, slabs, 0, hi)
      ensures forall i: nat | SlabIndex(size, i) < hi && ByteOf(slabs, size, i, address) :: r == Some(i)
      ensures forall k: nat | k < hi && InRest(slabs, size, k, address) :: r == Some((k + 1) * PerSlab(size))
      ensures r.None? <==> forall k: nat | k < hi :: !Covers(slabs, k, address)
    {
      hide Owned, PerSlab, SlabIndex, SlabOffset, Address, ByteOf, InRest, Covers, InSlab, Of;
      for k := 0 to SLAB_COUNT
        invariant forall j: nat | j < k :: !Covers(slabs, j, address)
      {
        if Covers(slabs, k, address) {
          var offset := (address - slabs[k] * PAGE_SIZE) / size;
          CoversOwned(s, kind, slabs, hi, k, address);
          FoundIn(s, kind, slabs, hi, size, k, address);
          return Some(k * PerSlab(size) + offset);
        }
      }
      FoundNowhere(s, kind, slabs, hi, size, address);
      r := None;
    }

    /** Unmaps the `k` mapped pages of slab `i` and gives the slab back. */
    method Release(f: Fallback, i: nat, k: nat, ghost hi: nat, ghost mark: nat)
      requires f.Valid() && i < hi && Owned(f.space, kind, slabs, i, hi) && Upto(f.space, kind, slabs, mark)
      requires k <= SLAB_PAGES && (mark == SLAB_PAGES * i + k || (k == SLAB_PAGES && mark >= SLAB_PAGES * (i + 1)))
      modifies this, f
      ensures f.Valid()
      ensures Owned(f.space, kind, slabs, i + 1, hi) && Upto(f.space, kind, slabs, mark)
      ensures forall s :: Others(s, old(f.space), SlabsOf(kind)) ==> Others(s, f.space, SlabsOf(kind))
      ensures f.refusals == old(f.refusals)
    {
      ghost var s := f.space;
      SlabMapped(s, kind, slabs, i, hi, mark, k);
      hide Owned, Upto, Others, SlabsOf;
      assert forall p: nat | Part(slabs, i, 0, SLAB_PAGES).Has(p) :: InSlab(slabs, i, p) && Of(s, p, Slab(kind, i));
      f.Unmap(Part(slabs, i, 0, k));
      var u := f.Unreserve(Part(slabs, i, 0, SLAB_PAGES));
      ReleaseStep(s, f.space, kind, slabs, i, hi, mark, k);
      slabs := slabs[i := 0];
      forall t | Others(t, s, SlabsOf(kind)) ensures Others(t, f.space, SlabsOf(kind)) {
        OthersTrans(t, s, f.space, SlabsOf(kind));
      }
    }
  }

  /** A slab that could not be reserved. */
  lemma SlabLacks(s: Space, kind: nat, slabs: seq<nat>, slab: nat, size: nat, target: nat)
    requires BlockSize(size) && Owned(s, kind, slabs, 0, slab) && slab < SlabsFor(size, target) <= SLAB_COUNT
    ensures Lacks(s, slabs, PagesFor(size, target))
  {
    hide PerSlab, SlabIndex, SlabOffset, PagesIn;
    OffsetBound(size, target);
    assert slabs[slab] == 0;
    assert Absent(s, slabs, slab, 0);
  }

  lemma PartLacks(s: Space, slabs: seq<nat>, i: nat, from: nat, to: nat)
    requires i < |slabs| && to <= SLAB_PAGES && exists p: nat :: Part(slabs, i, from, to).Has(p) && p !in s.mapped
    ensures Lacks(s, slabs, SLAB_PAGES * i + to)
  {
    var p: nat :| Part(slabs, i, from, to).Has(p) && p !in s.mapped;
    assert Absent(s, slabs, i, p - slabs[i]);
  }

  lemma SlabPages()
    ensures CeilDiv(SLAB_SIZE, PAGE_SIZE) == SLAB_PAGES
  {
  }

  lemma OffsetBound(size: nat, count: nat)
    requires BlockSize(size)
    ensures PagesIn(size, SlabOffset(size, count)) <= SLAB_PAGES
    ensures SlabOffset(size, count) > 0 <==> PagesIn(size, SlabOffset(size, count)) > 0
    ensures count == 0 ==> SlabIndex(size, count) == SlabOffset(size, count) == 0
  {
    Coordinates(PerSlab(size), count);
    PagesInOrder(size, SlabOffset(size, count), PerSlab(size));
    if count == 0 { DigitsUnique(0, PerSlab(size), 0, 0); }
  }

  /** What `Quarry::map()` goes by. */
  lemma MapPlan(size: nat, count: nat, target: nat)
    requires BlockSize(size) && count < target <= PerSlab(size) * SLAB_COUNT
    ensures SlabIndex(size, count) < SLAB_COUNT && SlabIndex(size, count) <= SlabIndex(size, target) <= SLAB_COUNT
    ensures target == PerSlab(size) * SLAB_COUNT <==> SlabIndex(size, target) == SLAB_COUNT
    ensures SlabIndex(size, target) == SLAB_COUNT ==> SlabOffset(size, target) == 0
    ensures SlabIndex(size, count) == SlabIndex(size, target) ==> SlabOffset(size, count) < SlabOffset(size, target)
    ensures PagesIn(size, SlabOffset(size, target)) <= SLAB_PAGES
    ensures SlabOffset(size, target) == 0 <==> PagesIn(size, SlabOffset(size, target)) == 0
    ensures SlabIndex(size, count) == SlabIndex(size, target) ==>
      PagesIn(size, SlabOffset(size, count)) <= PagesIn(size, SlabOffset(size, target))
  {
    var d := PerSlab(size);
    Coordinates(d, count);
    Coordinates(d, target);
    CoordinatesOrder(d, count, target);
    OffsetBound(size, target);
    if Quotient(count, d) == Quotient(target, d) { PagesInOrder(size, Remainder(count, d), Remainder(target, d)); }
  }

  lemma AllBackedAtCapacity(size: nat)
    requires BlockSize(size)
    ensures forall i: nat | i < PerSlab(size) * SLAB_COUNT ::
              EndPage(size, i) <= PagesFor(size, PerSlab(size) * SLAB_COUNT)
  {
    forall i: nat | i < PerSlab(size) * SLAB_COUNT
      ensures EndPage(size, i) <= PagesFor(size, PerSlab(size) * SLAB_COUNT)
    {
      CountedAreBacked(size, PerSlab(size) * SLAB_COUNT, i);
    }
  }

  lemma NothingOwned(s: Space, kind: nat, slabs: seq<nat>, hi: nat, size: nat)
    requires BlockSize(size) && Owned(s, kind, slabs, hi, hi)
    ensures Owned(s, kind, slabs, 0, SlabsFor(size, 0)) && Upto(s, kind, slabs, PagesFor(size, 0))
    ensures forall p: nat :: p in s.owner ==> !IsSlab(s.owner[p], kind)
  {
    OffsetBound(size, 0);
  }

  // ---------------------------------------------------------------------------------------------
  // Addresses of blocks

  /** The address of block `i`. */
  function Address(slabs: seq<nat>, size: nat, i: nat): nat
    requires BlockSize(size) && SlabIndex(size, i) < |slabs|
  {
    slabs[SlabIndex(size, i)] * PAGE_SIZE + Span(size, SlabOffset(size, i))
  }

  /** The address lies in reserved slab `k`. */
  predicate Covers(slabs: seq<nat>, k: nat, address: nat)
    ensures Covers(slabs, k, address) ==> k < |slabs| && slabs[k] * PAGE_SIZE <= address
  {
    k < |slabs| && slabs[k] > 0 && slabs[k] * PAGE_SIZE <= address < (slabs[k] + SLAB_PAGES) * PAGE_SIZE
  }

  lemma CoversOwned(s: Space, kind: nat, slabs: seq<nat>, hi: nat, k: nat, address: nat)
    requires Owned(s, kind, slabs, 0, hi) && Covers(slabs, k, address)
    ensures k < hi && InSlab(slabs, k, address / PAGE_SIZE) && Of(s, address / PAGE_SIZE, Slab(kind, k))
  {
    assert slabs[k] > 0;
    assert InSlab(slabs, k, address / PAGE_SIZE);
  }

  lemma OffsetFits(size: nat, i: nat)
    requires BlockSize(size)
    ensures SlabOffset(size, i) * size + size <= SLAB_SIZE
    ensures i == SlabIndex(size, i) * PerSlab(size) + SlabOffset(size, i)
    ensures (SlabOffset(size, i) * size) / size == SlabOffset(size, i)
  {
    var d, o := PerSlab(size), SlabOffset(size, i);
    Coordinates(d, i);
    PerSlabFits(size);
    MulLe(o + 1, d, size);
    assert (o + 1) * size == o * size + size;
    DivUnique(o * size, size, o, 0);
  }

  /** A block lies in its own slab and in no other, and its index can be computed back. */
  lemma AddressHome(s: Space, kind: nat, slabs: seq<nat>, hi: nat, size: nat, i: nat)
    requires BlockSize(size) && Owned(s, kind, slabs, 0, hi) && SlabIndex(size, i) < hi
    ensures Covers(slabs, SlabIndex(size, i), Address(slabs, size, i))
    ensures forall k: nat | Covers(slabs, k, Address(slabs, size, i)) :: k == SlabIndex(size, i)
    ensures Address(slabs, size, i) + size <= (slabs[SlabIndex(size, i)] + SLAB_PAGES) * PAGE_SIZE
    ensures (Address(slabs, size, i) - slabs[SlabIndex(size, i)] * PAGE_SIZE) / size == SlabOffset(size, i)
    ensures i == SlabIndex(size, i) * PerSlab(size) + SlabOffset(size, i)
  {
    OffsetFits(size, i);
    SpanLaw(size, SlabOffset(size, i));
    var a, slab := Address(slabs, size, i), SlabIndex(size, i);
    assert slabs[slab] > 0;
    assert Covers(slabs, slab, a);
    forall k: nat | Covers(slabs, k, a) ensures k == slab {
      CoversOwned(s, kind, slabs, hi, k, a);
      CoversOwned(s, kind, slabs, hi, slab, a);
    }
  }

  /** Address `a` is a byte of block `i`. */
  ghost predicate ByteOf(slabs: seq<nat>, size: nat, i: nat, a: nat)
    requires BlockSize(size)
  {
    SlabIndex(size, i) < |slabs| && Address(slabs, size, i) <= a < Address(slabs, size, i) + size
  }

  lemma ByteHome(s: Space, kind: nat, slabs: seq<nat>, hi: nat, size: nat, i: nat, a: nat)
    requires BlockSize(size) && Owned(s, kind, slabs, 0, hi) && SlabIndex(size, i) < hi && ByteOf(slabs, size, i, a)
    ensures InSlab(slabs, SlabIndex(size, i), a / PAGE_SIZE) && Covers(slabs, SlabIndex(size, i), a)
    ensures Of(s, a / PAGE_SIZE, Slab(kind, SlabIndex(size, i)))
    ensures a >= slabs[SlabIndex(size, i)] * PAGE_SIZE
    ensures (a - slabs[SlabIndex(size, i)] * PAGE_SIZE) / size == SlabOffset(size, i)
    ensures (a - slabs[SlabIndex(size, i)] * PAGE_SIZE) < (SlabOffset(size, i) + 1) * size
    ensures a / PAGE_SIZE - slabs[SlabIndex(size, i)] == (a - slabs[SlabIndex(size, i)] * PAGE_SIZE) / PAGE_SIZE
  {
    AddressHome(s, kind, slabs, hi, size, i);
    var start, o := slabs[SlabIndex(size, i)], SlabOffset(size, i);
    var x := a - start * PAGE_SIZE;
    SpanLaw(size, o);
    assert (o + 1) * size == o * size + size;
    assert Covers(slabs, SlabIndex(size, i), a);
    CoversOwned(s, kind, slabs, hi, SlabIndex(size, i), a);
    DivUnique(x, size, o, x - o * size);
  }

  lemma CoversOnce(s: Space, kind: nat, slabs: seq<nat>, hi: nat, j: nat, k: nat, a: nat)
    requires Owned(s, kind, slabs, 0, hi) && Covers(slabs, j, a) && Covers(slabs, k, a)
    ensures j == k
  {
    CoversOwned(s, kind, slabs, hi, j, a);
    CoversOwned(s, kind, slabs, hi, k, a);
  }

  /** Address `a` lies in slab `k` past its last whole block. */
  ghost predicate InRest(slabs: seq<nat>, size: nat, k: nat, a: nat)
    requires BlockSize(size)
  {
    Covers(slabs, k, a) && slabs[k] * PAGE_SIZE + PerSlab(size) * size <= a
  }

  /** There are such bytes exactly when the block size does not divide the slab size. */
  lemma RestWhen(slabs: seq<nat>, size: nat, k: nat)
    requires BlockSize(size) && k < |slabs| && slabs[k] > 0
    ensures (exists a: nat :: InRest(slabs, size, k, a)) <==> SLAB_SIZE % size != 0
  {
    QuotientLaw(SLAB_SIZE, size);
    var first := slabs[k] * PAGE_SIZE + PerSlab(size) * size;
    assert SLAB_SIZE == PerSlab(size) * size + SLAB_SIZE % size;
    if SLAB_SIZE % size != 0 {
      assert InRest(slabs, size, k, first);
    }
  }

  /** In slabs of blocks of 24 bytes sixteen bytes are left over, and `AllocationIndex()` takes them for the first
      block of the next slab. */
  lemma RestOf24(slabs: seq<nat>, k: nat)
    requires k < |slabs| && slabs[k] > 0
    ensures PerSlab(24) == 43690 && InRest(slabs, 24, k, slabs[k] * PAGE_SIZE + 0xF_FFF0)
  {
    QuotientLaw(SLAB_SIZE, 24);
  }

  lemma RestIsNext(slabs: seq<nat>, size: nat, k: nat, a: nat)
    requires BlockSize(size) && InRest(slabs, size, k, a)
    ensures Covers(slabs, k, a)
    ensures k * PerSlab(size) + (a - slabs[k] * PAGE_SIZE) / size == (k + 1) * PerSlab(size)
  {
    var d, x := PerSlab(size), a - slabs[k] * PAGE_SIZE;
    PerSlabFits(size);
    assert (d + 1) * size == d * size + size;
    DivUnique(x, size, d, x - d * size);
    assert (k + 1) * d == k * d + d;
  }

  /** What an address in slab `k` is taken for. */
  lemma FoundIn(s: Space, kind: nat, slabs: seq<nat>, hi: nat, size: nat, k: nat, a: nat)
    requires BlockSize(size) && Owned(s, kind, slabs, 0, hi) && Covers(slabs, k, a)
    ensures forall i: nat | SlabIndex(size, i) < hi && ByteOf(slabs, size, i, a) ::
              k * PerSlab(size) + (a - slabs[k] * PAGE_SIZE) / size == i
    ensures forall j: nat | j < hi && InRest(slabs, size, j, a) ::
              k * PerSlab(size) + (a - slabs[k] * PAGE_SIZE) / size == (j + 1) * PerSlab(size)
  {
    hide Owned, PerSlab, SlabIndex, SlabOffset, Address, ByteOf, InRest;
    forall i: nat | SlabIndex(size, i) < hi && ByteOf(slabs, size, i, a)
      ensures k * PerSlab(size) + (a - slabs[k] * PAGE_SIZE) / size == i
    {
      ByteHome(s, kind, slabs, hi, size, i, a);
      CoversOnce(s, kind, slabs, hi, k, SlabIndex(size, i), a);
      OffsetFits(size, i);
    }
    forall j: nat | j < hi && InRest(slabs, size, j, a)
      ensures k * PerSlab(size) + (a - slabs[k] * PAGE_SIZE) / size == (j + 1) * PerSlab(size)
    {
      RestIsNext(slabs, size, j, a);
      CoversOnce(s, kind, slabs, hi, k, j, a);
    }
  }

  lemma FoundNowhere(s: Space, kind: nat, slabs: seq<nat>, hi: nat, size: nat, a: nat)
    requires BlockSize(size) && Owned(s, kind, slabs, 0, hi) && forall k: nat | k < SLAB_COUNT :: !Covers(slabs, k, a)
    ensures forall i: nat | SlabIndex(size, i) < hi :: !ByteOf(slabs, size, i, a)
    ensures forall j: nat | j < hi :: !InRest(slabs, size, j, a)
  {
    hide Owned, PerSlab, SlabIndex, SlabOffset, Address, ByteOf;
    forall i: nat | SlabIndex(size, i) < hi ensures !ByteOf(slabs, size, i, a) {
      if ByteOf(slabs, size, i, a) { ByteHome(s, kind, slabs, hi, size, i, a); }
    }
  }

  /** Different blocks share no byte. */
  lemma BlocksApart(s: Space, kind: nat, slabs: seq<nat>, hi: nat, size: nat, i: nat, j: nat, a: nat)
    requires BlockSize(size) && Owned(s, kind, slabs, 0, hi) && SlabIndex(size, i) < hi && SlabIndex(size, j) < hi
    requires ByteOf(slabs, size, i, a) && ByteOf(slabs, size, j, a)
    ensures i == j
  {
    hide Owned, SlabIndex, SlabOffset, PerSlab, ByteOf;
    ByteHome(s, kind, slabs, hi, size, i, a);
    ByteHome(s, kind, slabs, hi, size, j, a);
    OffsetFits(size, i);
    OffsetFits(size, j);
  }

  /** Every byte of the first `count` blocks lies on a mapped page of the size class. */
  lemma BlocksMapped(q: Quarry, s: Space, count: nat, i: nat, a: nat)
    requires q.Holds(s, count) && i < count && ByteOf(q.slabs, q.size, i, a)
    ensures a / PAGE_SIZE in s.mapped && Of(s, a / PAGE_SIZE, Slab(q.kind, SlabIndex(q.size, i)))
  {
    hide Owned, Upto, SlabIndex, PerSlab, ByteOf, SlabOffset, CeilDiv;
    var size, slab, o := q.size, SlabIndex(q.size, i), SlabOffset(q.size, i);
    IndexInside(size, count, i);
    ByteHome(s, q.kind, q.slabs, SlabsFor(size, count), size, i, a);
    CountedAreBacked(size, count, i);
    SpanLaw(size, o + 1);
    BelowCeil((o + 1) * size, a - q.slabs[slab] * PAGE_SIZE);
    UptoAt(s, q.kind, q.slabs, PagesFor(size, count), a / PAGE_SIZE);
  }

  /** Block `i` has no address, or a byte of it is not mapped. */
  ghost predicate Unbacked(s: Space, slabs: seq<nat>, size: nat, i: nat)
    requires BlockSize(size)
  {
    && SlabIndex(size, i) < |slabs|
    && (slabs[SlabIndex(size, i)] == 0 || exists a: nat :: ByteOf(slabs, size, i, a) && a / PAGE_SIZE !in s.mapped)
  }

  /** How many of the first `target` blocks are in slab `k`. */
  function CountedIn(size: nat, target: nat, k: nat): nat
    requires BlockSize(size)
  {
    if k < SlabIndex(size, target) then PerSlab(size)
    else if k == SlabIndex(size, target) then SlabOffset(size, target) else 0
  }

  /** A page that holds bytes of the first `target` blocks is not mapped. */
  ghost predicate Wants(s: Space, slabs: seq<nat>, size: nat, target: nat)
    requires BlockSize(size)
  {
    exists k: nat, o: nat {:trigger Absent(s, slabs, k, o)} ::
      o < PagesIn(size, CountedIn(size, target, k)) && Absent(s, slabs, k, o)
  }

  /** Some of the first `target` blocks is not backed if and only if a page that holds bytes of them is not mapped. */
  lemma UnbackedWhen(s: Space, slabs: seq<nat>, size: nat, target: nat)
    requires BlockSize(size)
    ensures (exists i: nat :: i < target && Unbacked(s, slabs, size, i)) <==> Wants(s, slabs, size, target)
  {
    hide Unbacked, CountedIn, PagesIn, PerSlab;
    if i: nat :| i < target && Unbacked(s, slabs, size, i) {
      UnbackedWants(s, slabs, size, target, i);
    }
    if Wants(s, slabs, size, target) {
      var i := WantedBlock(s, slabs, size, target);
    }
  }

  lemma UnbackedWants(s: Space, slabs: seq<nat>, size: nat, target: nat, i: nat)
    requires BlockSize(size) && i < target && Unbacked(s, slabs, size, i)
    ensures Wants(s, slabs, size, target)
  {
    hide PerSlab, Quotient, Remainder, PagesIn, ByteOf;
    var k, o := SlabIndex(size, i), SlabOffset(size, i);
    CoordinatesOrder(PerSlab(size), i, target);
    Coordinates(PerSlab(size), i);
    Coordinates(PerSlab(size), target);
    PagesInOrder(size, o + 1, CountedIn(size, target, k));
    if slabs[k] == 0 {
      assert Absent(s, slabs, k, 0);
    } else {
      var a: nat :| ByteOf(slabs, size, i, a) && a / PAGE_SIZE !in s.mapped;
      var x := ByteInSlab(slabs, size, i, a);
      BelowSpan(size, o + 1, x);
      assert Absent(s, slabs, k, x / PAGE_SIZE);
    }
  }

  /** Where in its slab a byte of block `i` is. */
  lemma ByteInSlab(slabs: seq<nat>, size: nat, i: nat, a: nat) returns (x: nat)
    requires BlockSize(size) && ByteOf(slabs, size, i, a)
    ensures x < (SlabOffset(size, i) + 1) * size && x / PAGE_SIZE < SLAB_PAGES
    ensures a / PAGE_SIZE == slabs[SlabIndex(size, i)] + x / PAGE_SIZE
  {
    hide SlabIndex, SlabOffset;
    var o := SlabOffset(size, i);
    OffsetFits(size, i);
    SpanLaw(size, o);
    assert (o + 1) * size == o * size + size;
    x := a - slabs[SlabIndex(size, i)] * PAGE_SIZE;
  }

  lemma BelowSpan(size: nat, n: nat, x: nat)
    requires x < n * size
    ensures x / PAGE_SIZE < PagesIn(size, n)
  {
    SpanLaw(size, n);
    BelowCeil(n * size, x);
  }

  lemma WantedBlock(s: Space, slabs: seq<nat>, size: nat, target: nat) returns (i: nat)
    requires BlockSize(size) && Wants(s, slabs, size, target)
    ensures i < target && Unbacked(s, slabs, size, i)
  {
    hide PerSlab, Quotient, Remainder, PagesIn, Address, Unbacked;
    var k: nat, o: nat :| o < PagesIn(size, CountedIn(size, target, k)) && Absent(s, slabs, k, o);
    var d, count := PerSlab(size), CountedIn(size, target, k);
    Coordinates(d, target);
    var n := PageInBlock(size, o, count);
    i := k * d + n;
    DigitsUnique(i, d, k, n);
    if k < SlabIndex(size, target) {
      MulLe(k + 1, SlabIndex(size, target), d);
      assert (k + 1) * d == k * d + d;
    }
    AbsentByte(s, slabs, size, i, o);
  }

  /** A page under the first `count` blocks of a slab starts in one of them. */
  lemma PageInBlock(size: nat, o: nat, count: nat) returns (n: nat)
    requires BlockSize(size) && o < PagesIn(size, count)
    ensures n < count && n * size <= o * PAGE_SIZE < n * size + size
  {
    hide Quotient, Remainder, PagesIn;
    QuotientLaw(o * PAGE_SIZE, size);
    n := Quotient(o * PAGE_SIZE, size);
    PagesPast(size, count, o);
    if n >= count { MulLe(count, n, size); }
  }

  /** Lacking one of the pages mapped for the first `target` blocks is lacking one that holds bytes of them, provided
      that less than a page is left over at the end of a slab. */
  lemma LacksWants(s: Space, slabs: seq<nat>, size: nat, target: nat)
    requires BlockSize(size) && SLAB_SIZE % size < PAGE_SIZE && Lacks(s, slabs, PagesFor(size, target))
    ensures Wants(s, slabs, size, target)
  {
    hide PerSlab, Quotient, Remainder, PagesIn;
    var k: nat, o: nat :| SLAB_PAGES * k + o < PagesFor(size, target) && Absent(s, slabs, k, o);
    Coordinates(PerSlab(size), target);
    PagesInOrder(size, SlabOffset(size, target), PerSlab(size));
    if k < SlabIndex(size, target) { WholeSlab(size); }
  }

  lemma WholeSlab(size: nat)
    requires BlockSize(size) && SLAB_SIZE % size < PAGE_SIZE
    ensures PagesIn(size, PerSlab(size)) == SLAB_PAGES
  {
    hide Quotient, Remainder;
    QuotientLaw(SLAB_SIZE, size);
    SpanLaw(size, PerSlab(size));
    assert PerSlab(size) * size + SLAB_SIZE % size == SLAB_SIZE;
  }

  lemma AbsentByte(s: Space, slabs: seq<nat>, size: nat, i: nat, o: nat)
    requires BlockSize(size) && Absent(s, slabs, SlabIndex(size, i), o)
    requires SlabOffset(size, i) * size <= o * PAGE_SIZE < SlabOffset(size, i) * size + size
    ensures Unbacked(s, slabs, size, i)
  {
    hide SlabIndex, SlabOffset;
    SpanLaw(size, SlabOffset(size, i));
    var a := slabs[SlabIndex(size, i)] * PAGE_SIZE + o * PAGE_SIZE;
    assert a / PAGE_SIZE == slabs[SlabIndex(size, i)] + o;
    assert ByteOf(slabs, size, i, a);
  }

  /** As long as nothing more is mapped, the block after the counted ones is backed exactly when its last page is among
      those mapped for the counted ones. So if the next pages cannot be had, a block that needs them is not. */
  lemma NextBacked(q: Quarry, s: Space, count: nat)
    requires q.Holds(s, count) && count < q.Capacity()
    ensures Unbacked(s, q.slabs, q.size, count) <==> EndPage(q.size, count) > PagesFor(q.size, count)
  {
    hide PerSlab, Quotient, Remainder, Owned, Upto, CeilDiv, ByteOf;
    var size := q.size;
    var slab, o := SlabIndex(size, count), SlabOffset(size, count);
    Coordinates(PerSlab(size), count);
    OffsetBound(size, count);
    PagesInOrder(size, 1, o + 1);
    if o == 0 {
      SlabUnreserved(s, q.kind, q.slabs, slab);
    } else {
      SlabStarts(s, q.kind, q.slabs, slab + 1, slab);
      NextBytes(s, q.kind, q.slabs, size, count);
    }
  }

  lemma SlabUnreserved(s: Space, kind: nat, slabs: seq<nat>, hi: nat)
    requires Owned(s, kind, slabs, 0, hi) && hi < SLAB_COUNT
    ensures slabs[hi] == 0
  {
    assert !(slabs[hi] > 0);
  }

  lemma SlabStarts(s: Space, kind: nat, slabs: seq<nat>, hi: nat, k: nat)
    requires Owned(s, kind, slabs, 0, hi) && k < hi
    ensures slabs[k] > 0
  {
  }

  /** The bytes of the next block, in a slab already begun. */
  lemma NextBytes(s: Space, kind: nat, slabs: seq<nat>, size: nat, count: nat)
    requires BlockSize(size) && Owned(s, kind, slabs, 0, SlabIndex(size, count) + 1)
    requires Upto(s, kind, slabs, PagesFor(size, count))
    ensures (exists a: nat :: ByteOf(slabs, size, count, a) && a / PAGE_SIZE !in s.mapped) <==>
      EndPage(size, count) > PagesFor(size, count)
  {
    hide Owned, Upto, SlabIndex, SlabOffset, CeilDiv;
    var slab, o, mark := SlabIndex(size, count), SlabOffset(size, count), PagesFor(size, count);
    var end := (o + 1) * size;
    SpanLaw(size, o);
    SpanLaw(size, o + 1);
    assert end == o * size + size;
    forall a: nat | ByteOf(slabs, size, count, a)
      ensures a / PAGE_SIZE in s.mapped <==> SLAB_PAGES * slab + (a - slabs[slab] * PAGE_SIZE) / PAGE_SIZE < mark
      ensures (a - slabs[slab] * PAGE_SIZE) / PAGE_SIZE < PagesIn(size, o + 1)
    {
      ByteHome(s, kind, slabs, slab + 1, size, count, a);
      BelowCeil(end, a - slabs[slab] * PAGE_SIZE);
      UptoAt(s, kind, slabs, mark, a / PAGE_SIZE);
    }
    if EndPage(size, count) > mark {
      var last := slabs[slab] * PAGE_SIZE + end - 1;
      LastBelow(end);
      assert ByteOf(slabs, size, count, last);
    }
  }

  lemma LastBelow(end: nat)
    requires end > 0
    ensures (end - 1) / PAGE_SIZE + 1 == CeilDiv(end, PAGE_SIZE)
  {
  }

  lemma BelowCeil(end: nat, x: nat)
    requires x < end
    ensures x / PAGE_SIZE < CeilDiv(end, PAGE_SIZE)
  {
  }

  lemma UptoAt(s: Space, kind: nat, slabs: seq<nat>, mark: nat, p: nat)
    requires Upto(s, kind, slabs, mark) && p in s.owner && IsSlab(s.owner[p], kind) && InSlab(slabs, s.owner[p].slab, p)
    ensures p in s.mapped <==> SLAB_PAGES * s.owner[p].slab + (p - slabs[s.owner[p].slab]) < mark
  {
  }

  lemma IndexInside(size: nat, count: nat, i: nat)
    requires BlockSize(size) && i < count
    ensures SlabIndex(size, i) < SlabsFor(size, count)
  {
    CoordinatesOrder(PerSlab(size), i, count);
  }
}
