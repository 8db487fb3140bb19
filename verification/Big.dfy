/** The allocator of whole pages: allocating, freeing, growing and shrinking blocks of memory. */
module Big {
  import opened Mmu
  import opened Addr
  import opened Frage
  import opened PageTree
  import opened FrameAllocator
  import opened World
  import opened Machine
  import opened Pages
  import opened PA = PageAllocator
  import opened AddressSpace
  import opened BigPair
  import opened Contents
  import opened Zeroing

  /** `try_into_block()`: the pages of `size` bytes at `ptr`. */
  function TryIntoBlock(ptr: nat, size: nat): Result<Block>
    requires Canonical(ptr)
  {
    if ptr % PAGE_SIZE != 0 then Err(InvalidAlignment)
    else if Add(ptr, size).Err? then Err(Add(ptr, size).error)
    else
      var start := ptr / PAGE_SIZE;
      Ok(Block(start, if size == 0 then start else (ptr + size - 1) / PAGE_SIZE + 1))
  }

  /** The block starts at the page of `ptr`, has just enough pages, and lies in one half; there is one exactly when
      `ptr` is the start of a page and the bytes end inside its half. */
  lemma TryIntoBlockLaw(ptr: nat, size: nat)
    requires Canonical(ptr)
    ensures TryIntoBlock(ptr, size).Ok? <==> ptr % PAGE_SIZE == 0 && ptr + size < (if Lower(ptr) then HALF else WORD)
    ensures TryIntoBlock(ptr, size).Ok? ==>
      var b := TryIntoBlock(ptr, size).value;
      b.start * PAGE_SIZE == ptr && b.start <= b.end && b.Count() == CeilDiv(size, PAGE_SIZE) && InHalf(b)
  {
    AddWithinHalf(ptr, size);
    HalvesValues(L0_SIZE);
    if ptr % PAGE_SIZE == 0 && size > 0 {
      var start := ptr / PAGE_SIZE;
      assert ptr == start * PAGE_SIZE;
      DivShift(size - 1, PAGE_SIZE, start);
      DivShift(size - 1, PAGE_SIZE, 1);
    }
  }

  /** A block inside one that does not reach the end of its half ends there neither. */
  lemma EndsInside(initial: Block, b: Block, size: nat)
    requires InHalf(initial) && Inner(initial) && b.start < b.end && initial.Has(b.start) && initial.Has(b.end - 1)
    requires b.Count() == CeilDiv(size, PAGE_SIZE)
    ensures Canonical(b.start * PAGE_SIZE)
    ensures b.start * PAGE_SIZE + size < if Lower(b.start * PAGE_SIZE) then HALF else WORD
  {
    HalvesValues(L0_SIZE);
  }

  /** `try_into_block()` gives the block back from its address and size. */
  predicate Recovered(b: Block, size: nat) {
    Canonical(b.start * PAGE_SIZE) && TryIntoBlock(b.start * PAGE_SIZE, size) == Ok(b)
  }

  /** Every block that the page allocator handed out is recovered from its address and size, so it can be grown and
      freed. */
  lemma GivenAccepted(pa: PageAllocator, i: nat, size: nat)
    requires pa.Valid() && i < |pa.given| && size > 0 && pa.given[i].start <= pa.given[i].end
    requires pa.given[i].Count() == CeilDiv(size, PAGE_SIZE)
    ensures Recovered(pa.given[i], size)
  {
    var b := pa.given[i];
    assert pa.initialBlock.Contains(b);
    EndsInside(pa.initialBlock, b, size);
    TryIntoBlockLaw(b.start * PAGE_SIZE, size);
  }

  /** No page of the block is mapped as a 4 KiB page. */
  ghost predicate UnmappedBlock(w: World, s: nat, b: Block) {
    forall p: nat {:trigger PageView(w, s, p)} :: b.Has(p) ==> LeafFrame(PageView(w, s, p)).None?
  }

  lemma UnmappedNames(w: World, s: nat, b: Block, f: nat)
    requires b.start <= b.end && UnmappedBlock(w, s, b)
    ensures Names(w, s, b.start, b.Count(), f) == 0
  {
    hide View, PathOf;
    NamesNothing(w, s, b.start, b.Count(), f);
  }

  /** Page `i` of block `b` is backed, after, by the frame that backed page `i` of block `a` before. */
  ghost predicate SameBacking(w: World, w': World, s: nat, a: Block, b: Block, i: nat) {
    LeafFrame(PageView(w', s, b.start + i)) == LeafFrame(PageView(w, s, a.start + i))
  }

  /** What growing a block must do: page `i` of the new block is backed by the frame of page `i` of the old
      one, all pages of the new block are mapped, an abandoned old block is unmapped, other pages are as
      before; all frames in use have the references they had, and the contents if they hold data. */
  ghost predicate Grown(w: World, w': World, s: nat, a: Block, b: Block) {
    && a.start <= a.end && b.start <= b.end && a.Count() <= b.Count()
    && (forall i: nat {:trigger SameBacking(w, w', s, a, b, i)} :: i < a.Count() ==> SameBacking(w, w', s, a, b, i))
    && MappedBlock(w', s, b)
    && (b.start != a.start ==> forall p: nat {:trigger PageView(w', s, p)} :: a.Has(p) ==>
          PageView(w', s, p) == Unmapped)
    && (forall s': nat, p: nat {:trigger PageView(w', s', p)} ::
          Page(p) && !(s' == s && (a.Has(p) || b.Has(p))) ==> PageView(w', s', p) == PageView(w, s', p))
    && (forall f: nat {:trigger InUse(w, f)} :: InUse(w, f) ==> Untouched(w, w', f))
  }

  /** Frame `f` has the references it had, and the contents if it holds data. */
  ghost predicate Untouched(w: World, w': World, f: nat) {
    Counted(w, w', f, 0) && (Data(w, f) ==> Data(w', f) && w'.mem[f] == w.mem[f])
  }

  /** Word `k` of the page, as a program reads it. */
  ghost function WordAt(w: World, s: nat, p: nat, k: nat): Option<Pte> {
    var frame := LeafFrame(PageView(w, s, p));
    if frame.Some? && frame.value < |w.mem| && k < ENTRY_COUNT then Some(w.mem[frame.value][k]) else None
  }

  /** A program reads in the grown block what it read in the old one, where its frames hold data. */
  lemma GrownWords(w: World, w': World, s: nat, a: Block, b: Block, i: nat, k: nat)
    requires Consistent(w) && Grown(w, w', s, a, b) && MappedBlock(w, s, a) && i < a.Count()
    requires Data(w, LeafFrame(PageView(w, s, a.start + i)).value)
    ensures WordAt(w', s, b.start + i, k) == WordAt(w, s, a.start + i, k)
  {
    hide PageView, Uses, Consistent;
    var f := LeafFrame(PageView(w, s, a.start + i)).value;
    assert a.Has(a.start + i) && Backs(w, s, a.start + i, f);
    BackedIsNamed(w, s, a.start + i, f);
    assert SameBacking(w, w', s, a, b, i);
  }

  /** All 4 KiB pages of the space are mapped to frames that hold data. */
  ghost predicate HoldsData(w: World, s: nat) {
    forall p: nat, f: nat {:trigger Backs(w, s, p, f)} :: Page(p) && Backs(w, s, p, f) ==> Data(w, f)
  }

  /** Byte `o` of page `p` of space `s`, as a program sees it; `octet` gives the bytes of a machine word. */
  ghost function SeenByte(w: World, s: nat, octet: (Pte, nat) -> bv8, p: nat, o: nat): bv8 {
    var word := WordAt(w, s, p, o / 8);
    if Page(p) && word.Some? then octet(word.value, o % 8) else 0
  }

  /** What a program sees of space `s`, by address. */
  ghost function Seen(w: World, s: nat, octet: (Pte, nat) -> bv8): nat -> bv8 {
    (x: nat) => SeenByte(w, s, octet, x / PAGE_SIZE, x % PAGE_SIZE)
  }

  /** Growing a block does to what a program sees exactly what moving its bytes should. */
  lemma GrownMoves(w: World, w': World, s: nat, a: Block, b: Block, octet: (Pte, nat) -> bv8)
    requires Consistent(w) && HoldsData(w, s) && Grown(w, w', s, a, b) && MappedBlock(w, s, a) && InHalf(a) && InHalf(b)
    ensures BytesMoved(Seen(w, s, octet), Seen(w', s, octet), a, b)
  {
    hide PageView, Uses, Consistent, WordAt, InHalf, Grown, Data;
    GrownShape(w, w', s, a, b);
    var before, after := Seen(w, s, octet), Seen(w', s, octet);
    forall x: nat | x < LeastCount(a, b) * PAGE_SIZE
      ensures ByteAt(after, b.start * PAGE_SIZE, x) == ByteAt(before, a.start * PAGE_SIZE, x)
    {
      var i := x / PAGE_SIZE;
      PageOfByte(a, x);
      PageOfByte(b, x);
      InHalfPage(a, a.start + i);
      InHalfPage(b, b.start + i);
      assert Backs(w, s, a.start + i, LeafFrame(PageView(w, s, a.start + i)).value);
      GrownWords(w, w', s, a, b, i, x % PAGE_SIZE / 8);
    }
    forall x: nat | !a.Has(x / PAGE_SIZE) && !b.Has(x / PAGE_SIZE) ensures after(x) == before(x) {
      if Page(x / PAGE_SIZE) {
        GrownElsewhere(w, w', s, a, b, x / PAGE_SIZE, x % PAGE_SIZE / 8);
      }
    }
  }

  lemma GrownShape(w: World, w': World, s: nat, a: Block, b: Block)
    requires Grown(w, w', s, a, b)
    ensures a.start <= a.end && b.start <= b.end && a.Count() <= b.Count()
  {
  }

  lemma PageOfByte(a: Block, x: nat)
    ensures (a.start * PAGE_SIZE + x) / PAGE_SIZE == a.start + x / PAGE_SIZE
    ensures (a.start * PAGE_SIZE + x) % PAGE_SIZE == x % PAGE_SIZE
  {
  }

  lemma GrownElsewhere(w: World, w': World, s: nat, a: Block, b: Block, p: nat, k: nat)
    requires Consistent(w) && HoldsData(w, s) && Grown(w, w', s, a, b) && Page(p) && !a.Has(p) && !b.Has(p)
    ensures WordAt(w', s, p, k) == WordAt(w, s, p, k)
  {
    hide PageView, Uses, Consistent;
    assert PageView(w', s, p) == PageView(w, s, p);
    var frame := LeafFrame(PageView(w, s, p));
    if frame.Some? {
      assert Backs(w, s, p, frame.value);
      BackedIsNamed(w, s, p, frame.value);
    }
  }

  /** Mapping unmapped pages does not touch frames in use. */
  lemma MappedAside(w: World, w': World, s: nat, b: Block, f: nat)
    requires b.start <= b.end && UnmappedBlock(w, s, b) && InUse(w, f)
    requires Progress(w, w', s, b.start, b.Count(), b.Count(), s, 0, 0)
    ensures Untouched(w, w', f)
  {
    hide View, PathOf, Uses;
    UnmappedNames(w, s, b, f);
    assert Stays(w, s, b.start, b.Count(), f);
    assert Names(w, s, 0, 0, f) == 0;
  }

  /** Growing in place. */
  lemma GrownInPlace(w: World, w': World, s: nat, a: Block, b: Block, more: Block)
    requires Consistent(w) && InHalf(b) && MappedBlock(w, s, a)
    requires a.start == b.start && a.start <= a.end < b.end && more == Block(a.end, b.end) && UnmappedBlock(w, s, more)
    requires Progress(w, w', s, more.start, more.Count(), more.Count(), s, 0, 0) && MappedBlock(w', s, more)
    ensures Grown(w, w', s, a, b)
  {
    hide View, PathOf, Uses, Consistent, Progress, InHalf, Untouched;
    forall s': nat, p: nat | Page(p) && !(s' == s && more.Has(p)) ensures PageView(w', s', p) == PageView(w, s', p) {
      ProgressElsewhere(w, w', s, more.start, more.Count(), more.Count(), s, 0, 0, s', p);
    }
    forall p: nat | b.Has(p) ensures Page(p) { InHalfPage(b, p); }
    forall i: nat | i < a.Count()
      ensures SameBacking(w, w', s, a, b, i)
    {
      InHalfPage(b, b.start + i);
    }
    forall p: nat | b.Has(p) ensures LeafFrame(PageView(w', s, p)).Some? {
      if a.Has(p) { assert PageView(w', s, p) == PageView(w, s, p); }
    }
    forall f: nat | InUse(w, f) ensures Untouched(w, w', f) {
      MappedAside(w, w', s, more, f);
    }
  }

  /** The mapping was copied to a new block: the old block keeps its frames, now shared. */
  lemma CopiedOver(w: World, w1: World, s: nat, a: Block, b: Block, flags: Flags)
    requires Consistent(w) && InHalf(a) && InHalf(b) && a.Count() == b.Count() && a.Disjoint(b)
    requires MappedBlock(w, s, a) && UnmappedBlock(w, s, b)
    requires Progress(w, w1, s, b.start, b.Count(), b.Count(), s, a.start, a.Count())
    requires forall i :: 0 <= i < a.Count() ==> CopiedPage(w, w1, s, a, s, b, None, flags, i)
    ensures forall i: nat {:trigger SameBacking(w, w1, s, a, b, i)} :: i < a.Count() ==> SameBacking(w, w1, s, a, b, i)
    ensures forall p: nat {:trigger PageView(w1, s, p)} :: Page(p) && !b.Has(p) ==>
      PageView(w1, s, p) == PageView(w, s, p)
    ensures forall f: nat {:trigger InUse(w, f)} :: InUse(w, f) ==>
      && Counted(w, w1, f, Names(w, s, a.start, a.Count(), f)) && InUse(w1, f)
      && (Data(w, f) ==> f < |w1.mem| && w1.mem[f] == w.mem[f] && Data(w1, f))
  {
    hide View, PathOf, Uses, Consistent, InHalf;
    forall i: nat | i < a.Count()
      ensures SameBacking(w, w1, s, a, b, i)
    {
      assert CopiedPage(w, w1, s, a, s, b, None, flags, i);
      assert LeafFrame(PageView(w, s, a.start + i)).Some?;
    }
    forall f: nat | InUse(w, f)
      ensures Counted(w, w1, f, Names(w, s, a.start, a.Count(), f)) && InUse(w1, f)
      ensures Data(w, f) ==> f < |w1.mem| && w1.mem[f] == w.mem[f] && Data(w1, f)
    {
      UnmappedNames(w, s, b, f);
      assert Stays(w, s, b.start, b.Count(), f);
    }
  }

  /** The old block is unmapped after the copy: its frames are back to the references they had. */
  lemma MovedCounts(w: World, w1: World, w2: World, w3: World, s: nat, a: Block, rest: Block, f: nat)
    requires a.start <= a.end && rest.start <= rest.end && InUse(w, f)
    requires Counted(w, w1, f, Names(w, s, a.start, a.Count(), f)) && InUse(w1, f)
    requires Data(w, f) ==> f < |w1.mem| && w1.mem[f] == w.mem[f] && Data(w1, f)
    requires UnmappedBlock(w1, s, rest) && Progress(w1, w2, s, rest.start, rest.Count(), rest.Count(), s, 0, 0)
    requires forall p: nat {:trigger PageView(w2, s, p)} :: a.Has(p) ==> PageView(w2, s, p) == PageView(w, s, p)
    requires Progress(w2, w3, s, a.start, a.Count(), a.Count(), s, 0, 0)
    ensures Untouched(w, w3, f)
  {
    hide View, PathOf, Uses, UnmappedBlock;
    MappedAside(w1, w2, s, rest, f);
    NamesSame(w, w2, s, a.start, a.Count(), f);
    assert Stays(w2, s, a.start, a.Count(), f);
    assert Names(w2, s, 0, 0, f) == 0;
    if Data(w, f) { assert Data(w2, f); }
  }

  /** Growing by moving to block `b`. */
  lemma GrownMoved(w: World, w1: World, w2: World, w3: World, s: nat, a: Block, b: Block, flags: Flags)
    requires Consistent(w) && InHalf(a) && InHalf(b) && a.Count() <= b.Count() && a.start < a.end && Apart(a, b)
    requires MappedBlock(w, s, a) && UnmappedBlock(w, s, b)
    requires var copy := Block(b.start, b.start + a.Count());
      && Progress(w, w1, s, copy.start, copy.Count(), copy.Count(), s, a.start, a.Count())
      && forall i :: 0 <= i < a.Count() ==> CopiedPage(w, w1, s, a, s, copy, None, flags, i)
    requires var rest := Block(b.start + a.Count(), b.end);
      Progress(w1, w2, s, rest.start, rest.Count(), rest.Count(), s, 0, 0) && MappedBlock(w2, s, rest)
    requires Progress(w2, w3, s, a.start, a.Count(), a.Count(), s, 0, 0)
    requires forall p: nat {:trigger PageView(w3, s, p)} :: a.Has(p) ==> PageView(w3, s, p) == Unmapped
    ensures Grown(w, w3, s, a, b)
  {
    hide View, PathOf, Uses, Consistent, Progress, InHalf, CopiedPage, Data, Counted, Untouched;
    var copy, rest := Block(b.start, b.start + a.Count()), Block(b.start + a.Count(), b.end);
    PartOf(a, b);
    CopiedOver(w, w1, s, a, copy, flags);
    forall p: nat | b.Has(p) || a.Has(p) ensures Page(p) && !(a.Has(p) && b.Has(p)) {
      if b.Has(p) { InHalfPage(b, p); } else { InHalfPage(a, p); }
      assert Apart(a, b);
    }
    forall s': nat, p: nat | Page(p) && !(s' == s && rest.Has(p)) ensures PageView(w2, s', p) == PageView(w1, s', p) {
      ProgressElsewhere(w1, w2, s, rest.start, rest.Count(), rest.Count(), s, 0, 0, s', p);
    }
    forall s': nat, p: nat | Page(p) && !(s' == s && a.Has(p)) ensures PageView(w3, s', p) == PageView(w2, s', p) {
      ProgressElsewhere(w2, w3, s, a.start, a.Count(), a.Count(), s, 0, 0, s', p);
    }
    forall s': nat, p: nat | Page(p) && !(s' == s && copy.Has(p)) ensures PageView(w1, s', p) == PageView(w, s', p) {
      ProgressElsewhere(w, w1, s, copy.start, copy.Count(), copy.Count(), s, a.start, a.Count(), s', p);
    }
    forall i: nat | i < a.Count()
      ensures SameBacking(w, w3, s, a, b, i) && LeafFrame(PageView(w3, s, b.start + i)).Some?
    {
      assert SameBacking(w, w1, s, a, copy, i);
      var p := b.start + i;
      assert b.Has(p) && a.Has(a.start + i) && copy.Has(p);
      assert PageView(w3, s, p) == PageView(w2, s, p) == PageView(w1, s, p);
    }
    forall p: nat | b.Has(p) ensures LeafFrame(PageView(w3, s, p)).Some? {
      if rest.Has(p) {
        assert PageView(w3, s, p) == PageView(w2, s, p);
      } else {
        var i: nat := p - b.start;
        assert SameBacking(w, w3, s, a, b, i);
      }
    }
    forall s': nat, p: nat | Page(p) && !(s' == s && (a.Has(p) || b.Has(p)))
      ensures PageView(w3, s', p) == PageView(w, s', p)
    {
      assert PageView(w3, s', p) == PageView(w2, s', p) == PageView(w1, s', p);
    }
    forall p: nat | rest.Has(p) ensures LeafFrame(PageView(w1, s, p)).None? {
      assert PageView(w1, s, p) == PageView(w, s, p);
    }
    forall p: nat | a.Has(p) ensures PageView(w2, s, p) == PageView(w, s, p) {
      assert PageView(w2, s, p) == PageView(w1, s, p);
    }
    forall f: nat | InUse(w, f) ensures Untouched(w, w3, f) {
      assert InUse(w1, f);
      MovedCounts(w, w1, w2, w3, s, a, rest, f);
    }
  }

  lemma PartOf(a: Block, b: Block)
    requires InHalf(a) && InHalf(b) && a.Count() <= b.Count() && a.start < a.end && Apart(a, b)
    ensures InHalf(Block(b.start, b.start + a.Count()))
    ensures a.Disjoint(Block(b.start, b.start + a.Count()))
  {
    HalvesValues(L0_SIZE);
    var copy := Block(b.start, b.start + a.Count());
    forall p: nat ensures !(copy.Has(p) && a.Has(p)) { }
    DisjointIsApart(a, copy);
  }

  // ---------------------------------------------------------------------------------------------
  // Stopping part-way

  /** Only pages `lo .. hi` of space `s` may have changed, and frames that hold data still hold that data. */
  ghost predicate Safe(w: World, w': World, s: nat, lo: nat, hi: nat) {
    && SamePages(w, w', s, lo, hi)
    && forall f: nat {:trigger Data(w, f)} :: Data(w, f) ==> Data(w', f) && w'.mem[f] == w.mem[f]
  }

  lemma SafeSelf(w: World, s: nat, lo: nat, hi: nat)
    ensures Safe(w, w, s, lo, hi)
  {
  }

  lemma SafeThen(w: World, w1: World, w2: World, s: nat, lo: nat, hi: nat)
    requires Safe(w, w1, s, lo, hi) && Safe(w1, w2, s, lo, hi)
    ensures Safe(w, w2, s, lo, hi)
  {
    hide PageView, Uses;
    forall s': nat, p: nat | Page(p) && !(s' == s && lo <= p < hi) ensures PageView(w2, s', p) == PageView(w, s', p) {
      assert PageView(w1, s', p) == PageView(w, s', p);
    }
    forall f: nat | Data(w, f) ensures Data(w2, f) && w2.mem[f] == w.mem[f] {
      assert Data(w1, f);
    }
  }

  lemma SafeWider(w: World, w': World, s: nat, b: Block, free: Block)
    requires b.start <= b.end && Safe(w, w', s, b.start, b.end) && free.Contains(b)
    ensures Safe(w, w', s, free.start, free.end)
  {
    hide PageView, Data;
  }

  /** Whatever part of an unmapped block was dealt with, no data is lost. */
  lemma PartlySafe(w: World, w': World, s: nat, b: Block, src: nat, from: nat)
    requires b.start <= b.end && UnmappedBlock(w, s, b) && Partly(w, w', s, b.start, b.Count(), src, from)
    ensures Safe(w, w', s, b.start, b.end)
  {
    hide PageView, Uses;
    var i: nat, k: nat :| k <= i <= b.Count() && Progress(w, w', s, b.start, b.Count(), i, src, from, k);
    forall f: nat | Data(w, f) ensures Data(w', f) && w'.mem[f] == w.mem[f] {
      UnmappedNames(w, s, b, f);
      NamesGrow(w, s, b.start, i, b.Count(), f);
      assert Stays(w, s, b.start, b.Count(), f);
    }
  }

  lemma WholeIsPart(w: World, w': World, s: nat, b: Block, src: nat, from: nat, k: nat)
    requires b.start <= b.end && k <= b.Count() && Progress(w, w', s, b.start, b.Count(), b.Count(), src, from, k)
    ensures Partly(w, w', s, b.start, b.Count(), src, from)
  {
  }

  /** The pages that are free after block `b` was taken are still unmapped. */
  lemma StillUnmapped(w: World, w': World, s: nat, free: Block, b: Block, free': Block)
    requires UnmappedBlock(w, s, free) && SamePages(w, w', s, b.start, b.end)
    requires free.Contains(free') && Apart(b, free') && InHalf(free')
    ensures UnmappedBlock(w', s, free')
  {
    hide PageView, InHalf;
    forall p: nat | free'.Has(p) ensures LeafFrame(PageView(w', s, p)).None? {
      InHalfPage(free', p);
      assert PageView(w', s, p) == PageView(w, s, p);
    }
  }

  lemma GrownUnmapped(w: World, w': World, s: nat, free: Block, a: Block, b: Block, free': Block)
    requires UnmappedBlock(w, s, free) && Grown(w, w', s, a, b)
    requires free.Contains(free') && Apart(a, free') && Apart(b, free') && InHalf(free')
    ensures UnmappedBlock(w', s, free')
  {
    hide PageView, InHalf;
    forall p: nat | free'.Has(p) ensures LeafFrame(PageView(w', s, p)).None? {
      InHalfPage(free', p);
      assert PageView(w', s, p) == PageView(w, s, p);
    }
  }

  /** Pages of the block after the first `n` read as zeros. */
  ghost predicate ZerosAfter(w: World, s: nat, b: Block, n: nat) {
    forall p: nat {:trigger ZeroPage(w, s, p)} :: b.start + n <= p < b.end ==> ZeroPage(w, s, p)
  }

  /** Pages of the block after the first `n` are mapped to frames that hold data. */
  ghost predicate DataAfter(w: World, s: nat, b: Block, n: nat) {
    forall p: nat {:trigger DataPage(w, s, p)} :: b.start + n <= p < b.end ==> DataPage(w, s, p)
  }

  lemma OwnPages(w: World, s: nat, b: Block, rest: Block)
    requires forall p: nat {:trigger Own(w, s, p)} :: rest.Has(p) ==> Own(w, s, p)
    requires b.start <= rest.start && rest.end == b.end
    ensures DataAfter(w, s, b, rest.start - b.start)
  {
    hide PageView, Data;
    forall p: nat | rest.start <= p < b.end ensures DataPage(w, s, p) {
      assert rest.Has(p);
      assert Own(w, s, p);
    }
  }

  /** Unmapping other pages leaves data and zeros in place. */
  lemma PagesStay(w: World, w': World, s: nat, a: Block, b: Block, n: nat)
    requires WordsKept(w, w', s, a.start, a.end) && InHalf(b) && Apart(a, b) && DataAfter(w, s, b, n)
    ensures DataAfter(w', s, b, n) && (ZerosAfter(w, s, b, n) ==> ZerosAfter(w', s, b, n))
  {
    hide PageView, InHalf, Uses;
    forall p: nat | b.start + n <= p < b.end
      ensures DataPage(w', s, p) && (ZerosAfter(w, s, b, n) ==> ZeroPage(w', s, p))
    {
      InHalfPage(b, p);
      assert DataPage(w, s, p) && !a.Has(p);
      assert ZerosAfter(w, s, b, n) ==> ZeroPage(w, s, p);
      assert Backs(w, s, p, LeafFrame(PageView(w, s, p)).value);
    }
  }

  // ---------------------------------------------------------------------------------------------
  // Flags and rights of the pages of a block

  /** Page `i` of the grown block is what it was; if it moved, with the flags of the allocator added. */
  ghost predicate KeptPage(w: World, w': World, s: nat, a: Block, b: Block, flags: Flags, i: nat) {
    var t := PageView(w, s, a.start + i);
    if b.start == a.start then
      && PageView(w', s, b.start + i) == t
      && forall x: Flag {:trigger PageRight(w', s, b.start + i, x)} ::
           PageRight(w, s, b.start + i, x) ==> PageRight(w', s, b.start + i, x)
    else t.Mapped? && PageView(w', s, b.start + i) == Mapped(0, t.frame, t.flags + flags + {Present})
         && PageGranted(w', s, b.start + i, t.flags + flags)
  }

  /** Pages of the block after the first `n` are mapped with the given flags. */
  ghost predicate MappedFrom(w: World, s: nat, b: Block, n: nat, flags: Flags) {
    forall p: nat {:trigger MappedAs(w, s, p, flags)} :: b.start + n <= p < b.end ==> MappedAs(w, s, p, flags)
  }

  /** The old pages have the flags they had, and if they moved those of the allocator too; the new ones have the
      latter. */
  ghost predicate Flagged(w: World, w': World, s: nat, a: Block, b: Block, flags: Flags) {
    && a.start <= a.end && b.start <= b.end && MappedFrom(w', s, b, a.Count(), flags)
    && forall i: nat {:trigger KeptPage(w, w', s, a, b, flags, i)} ::
         i < a.Count() ==> KeptPage(w, w', s, a, b, flags, i)
  }

  lemma FlaggedSame(w: World, s: nat, a: Block, flags: Flags)
    requires a.start <= a.end
    ensures Flagged(w, w, s, a, a, flags)
  {
  }

  lemma FlaggedInPlace(w: World, w': World, s: nat, a: Block, b: Block, flags: Flags)
    requires InHalf(b) && a.start == b.start && a.start <= a.end < b.end
    requires MapDone(w, w', s, a.end, b.end - a.end, b.end - a.end, flags)
    ensures Flagged(w, w', s, a, b, flags)
  {
    hide View, PathOf, Progress, RightsKept, Own, Spare, PageRight, InHalf, MappedAs;
    forall i: nat | i < a.Count() ensures KeptPage(w, w', s, a, b, flags, i) {
      var p := b.start + i;
      InHalfPage(b, p);
      ProgressElsewhere(w, w', s, a.end, b.end - a.end, b.end - a.end, s, 0, 0, s, p);
      forall x: Flag | PageRight(w, s, p, x) ensures PageRight(w', s, p, x) {
        RightStays(w, w', s, a.end, b.end, Gains(flags), p, x);
      }
    }
  }

  lemma RightStays(w: World, w': World, s: nat, lo: nat, hi: nat, more: Flags, p: nat, x: Flag)
    requires RightsKept(w, w', s, lo, hi, more) && Page(p) && !(lo <= p < hi) && PageRight(w, s, p, x)
    ensures PageRight(w', s, p, x)
  {
  }

  /** A page mapped with certain flags stays so while others are changed. */
  lemma MappedAsStays(w: World, w': World, s: nat, c: Block, more: Flags, p: nat, flags: Flags)
    requires MappedAs(w, s, p, flags) && Page(p) && !c.Has(p) && ValidRoots(w'.roots)
    requires SamePages(w, w', s, c.start, c.end) && RightsKept(w, w', s, c.start, c.end, more)
    ensures MappedAs(w', s, p, flags)
  {
    hide View, PathOf, PageGranted;
    assert PageView(w', s, p) == PageView(w, s, p);
    GrantStays(w, w', s, p, flags);
  }

  /** The mapping was copied from `a` to the start of `b`, the rest of `b` mapped, and `a` unmapped. */
  lemma FlaggedMoved(w: World, w1: World, w2: World, w3: World, s: nat, a: Block, b: Block, flags: Flags)
    requires InHalf(a) && InHalf(b) && a.Count() <= b.Count() && a.start < a.end && Apart(a, b) && MappedBlock(w, s, a)
    requires Consistent(w2) && Consistent(w3)
    requires var copy, rest := Block(b.start, b.start + a.Count()), Block(b.start + a.Count(), b.end);
      && (forall i :: 0 <= i < a.Count() ==> CopiedPage(w, w1, s, a, s, copy, None, flags, i))
      && SamePages(w1, w2, s, rest.start, rest.end) && RightsKept(w1, w2, s, rest.start, rest.end, Gains(flags))
      && (forall p: nat {:trigger MappedAs(w2, s, p, flags)} :: rest.Has(p) ==> MappedAs(w2, s, p, flags))
    requires SamePages(w2, w3, s, a.start, a.end) && RightsKept(w2, w3, s, a.start, a.end, {})
    ensures Flagged(w, w3, s, a, b, flags)
  {
    hide View, PathOf, RightsKept, SamePages, PageGranted, InHalf, MappedAs, CopiedPage, WellFormed, Unshared, Balanced;
    var copy, rest := Block(b.start, b.start + a.Count()), Block(b.start + a.Count(), b.end);
    forall i: nat | i < a.Count() ensures KeptPage(w, w3, s, a, b, flags, i) {
      InHalfPage(b, b.start + i);
      assert a.Has(a.start + i) && b.Has(b.start + i) && !a.Has(b.start + i);
      CopyMapped(w, w1, s, a, copy, flags, i);
      var own := PageView(w, s, a.start + i).flags + flags;
      MappedAsStays(w1, w2, s, rest, Gains(flags), b.start + i, own);
      MappedAsStays(w2, w3, s, a, {}, b.start + i, own);
      MovedPage(w, w1, w2, w3, s, a, b, rest, flags, i);
    }
    forall p: nat | b.start + a.Count() <= p < b.end ensures MappedAs(w3, s, p, flags) {
      InHalfPage(b, p);
      assert rest.Has(p) && b.Has(p) && !a.Has(p);
      MappedAsStays(w2, w3, s, a, {}, p, flags);
    }
  }

  lemma CopyMapped(w: World, w1: World, s: nat, a: Block, copy: Block, flags: Flags, i: nat)
    requires CopiedPage(w, w1, s, a, s, copy, None, flags, i) && LeafFrame(PageView(w, s, a.start + i)).Some?
    ensures MappedAs(w1, s, copy.start + i, PageView(w, s, a.start + i).flags + flags)
  {
    hide View, PathOf, PageGranted;
  }

  lemma MovedPage(w: World, w1: World, w2: World, w3: World, s: nat, a: Block, b: Block, rest: Block, flags: Flags,
                  i: nat)
    requires a.start <= a.end && i < a.Count() && a.start != b.start && Page(b.start + i) && b.start + i < rest.start
    requires CopiedPage(w, w1, s, a, s, Block(b.start, rest.start), None, flags, i) && !a.Has(b.start + i)
    requires LeafFrame(PageView(w, s, a.start + i)).Some?
    requires SamePages(w1, w2, s, rest.start, rest.end) && SamePages(w2, w3, s, a.start, a.end)
    requires MappedAs(w3, s, b.start + i, PageView(w, s, a.start + i).flags + flags)
    ensures KeptPage(w, w3, s, a, b, flags, i)
  {
    hide View, PathOf, PageGranted;
    assert PageView(w3, s, b.start + i) == PageView(w2, s, b.start + i) == PageView(w1, s, b.start + i);
  }

  // ---------------------------------------------------------------------------------------------
  // Why it may fail

  /** Some block of the free pages is not on the side that the flags are for. */
  ghost predicate WrongIn(free: Block, flags: Flags) {
    exists b: Block :: b.start < b.end && free.Contains(b) && WrongSide(b, flags)
  }

  /** Why pages out of the free ones could not be mapped; frames ran out, but for at most two. */
  ghost predicate FillRefused(w: World, w': World, s: nat, free: Block, flags: Flags, error: Error) {
    || (error == PermissionDenied && WrongIn(free, flags))
    || (error == Unimplemented && HugeIn(w, s, free))
    || (error == NoFrame && w'.free <= 2)
  }

  /** Why a block could not be moved: the same, or its own pages are on the wrong side. */
  ghost predicate MoveRefused(w: World, w': World, s: nat, a: Block, free: Block, flags: Flags, error: Error) {
    || FillRefused(w, w', s, free, flags, error)
    || (error == PermissionDenied && (!ValidBlock(a) || (User !in flags && UserIn(w, s, a))))
  }

  ghost predicate UserIn(w: World, s: nat, a: Block) {
    exists p: nat {:trigger PageView(w, s, p)} ::
      a.Has(p) && PageView(w, s, p).Mapped? && User in PageView(w, s, p).flags
  }

  lemma RefusedPart(w: World, w1: World, w2: World, s: nat, b: Block, free: Block, flags: Flags, error: Error)
    requires MapRefused(w1, w2, s, b, flags, error) && b.start < b.end && free.Contains(b)
    requires forall p: nat {:trigger PageView(w1, s, p)} :: b.Has(p) ==> PageView(w1, s, p) == PageView(w, s, p)
    ensures FillRefused(w, w2, s, free, flags, error)
  {
    hide View, PathOf, WrongSide;
    if error == Unimplemented && HugeIn(w1, s, b) {
      var p: nat :| b.Has(p) && PageView(w1, s, p).Mapped? && PageView(w1, s, p).level > 0;
      assert PageView(w1, s, p) == PageView(w, s, p) && free.Has(p);
    }
  }

  lemma RefusedCopy(w: World, w': World, s: nat, a: Block, copy: Block, free: Block, flags: Flags, error: Error)
    requires CopyRefused(w, w', s, a, s, copy, None, flags, error) && free.Contains(copy) && copy.start <= copy.end
    requires a.Count() == copy.Count()
    ensures MoveRefused(w, w', s, a, free, flags, error)
  {
    hide View, PathOf;
    var i: nat :| i < a.Count() && RefusedAt(w, w', s, a, s, copy, None, flags, error, i);
    var t, page := PageView(w, s, a.start + i), copy.start + i;
    assert PageView(w, s, page) == PageView(w, s, copy.start + i) && free.Has(page) && a.Has(a.start + i);
    if error == PermissionDenied && !(User !in flags && User in t.flags) {
      assert WrongSide(Block(page, page + 1), flags);
    }
  }

  // ---------------------------------------------------------------------------------------------

  /** `AddressSpace::reserve()` through the allocator of the side that `flags` belong to. */
  method ReserveFixed(pa: PageAllocator, b: Block, flags: Flags) returns (ok: bool)
    requires pa.Valid() && b.start <= b.end
    modifies pa
    ensures pa.Valid() && old(pa.block).Contains(pa.block) && pa.initialBlock == old(pa.initialBlock)
    ensures ok <==> !WrongSide(b, flags) && old(pa.block).Contains(b)
    ensures ok ==> Apart(b, pa.block) && LargerPart(old(pa.block), b, pa.block)
    ensures InHalf(pa.block)
    ensures !ok ==> pa.block == old(pa.block)
  {
    if WrongSide(b, flags) {
      return false;
    }
    var r := pa.Reserve(b);
    ok := r.Ok?;
  }

  lemma UnmappedPart(w: World, s: nat, free: Block, b: Block)
    requires UnmappedBlock(w, s, free) && free.Contains(b)
    ensures UnmappedBlock(w, s, b)
  {
  }

  lemma AllMapped(w: World, s: nat, b: Block, flags: Flags)
    requires forall p: nat {:trigger MappedAs(w, s, p, flags)} :: b.Has(p) ==> MappedAs(w, s, p, flags)
    ensures MappedBlock(w, s, b)
  {
    hide View, PathOf;
    forall p: nat | b.Has(p) ensures LeafFrame(PageView(w, s, p)).Some? {
      assert MappedAs(w, s, p, flags);
    }
  }

  /** `dry_grow()`: in place if the pages after the block are free, else by moving. If it fails, then no page that was
      not free has changed, and no data; unless the block was not one to be given back. */
  method DryGrow(m: Machine, pa: PageAllocator, s: nat, flags: Flags, ptr: nat, oldSize: nat, newSize: nat, align: nat,
                 zero: bool)
    returns (r: Result<Block>)
    requires m.Valid() && pa.Valid() && Live(m.W(), s) && Huge !in flags
    requires Canonical(ptr) && 0 < oldSize <= newSize && Alignment(align)
    requires TryIntoBlock(ptr, oldSize).Ok? ==>
      && MappedBlock(m.W(), s, TryIntoBlock(ptr, oldSize).value) && Apart(TryIntoBlock(ptr, oldSize).value, pa.block)
    requires UnmappedBlock(m.W(), s, pa.block)
    modifies m`mem, m`held, m.frames, pa
    ensures m.Valid() && pa.Valid() && m.held == old(m.held) && m.roots == old(m.roots)
    ensures pa.initialBlock == old(pa.initialBlock) && old(pa.block).Contains(pa.block)
    ensures UnmappedBlock(m.W(), s, pa.block)
    ensures r.Ok? ==> TryIntoBlock(ptr, oldSize).Ok?
    ensures r.Ok? ==>
      && Grown(old(m.W()), m.W(), s, TryIntoBlock(ptr, oldSize).value, r.value)
      && r.value.Count() == CeilDiv(newSize, PAGE_SIZE) && InHalf(r.value) && Apart(r.value, pa.block)
      && Recovered(r.value, newSize)
      && (r.value.start * PAGE_SIZE == ptr || Aligned(r.value.start, align))
      && DataAfter(m.W(), s, r.value, TryIntoBlock(ptr, oldSize).value.Count())
      && (zero ==> ZerosAfter(m.W(), s, r.value, TryIntoBlock(ptr, oldSize).value.Count()))
      && Flagged(old(m.W()), m.W(), s, TryIntoBlock(ptr, oldSize).value, r.value, flags)
    // The block stays in place exactly when it can, and no more pages are reserved than it takes.
    ensures r.Ok? ==>
      var a := TryIntoBlock(ptr, oldSize).value;
      r.value.start == a.start <==>
        InPlace(a, Block(a.end, a.start + CeilDiv(newSize, PAGE_SIZE)), old(pa.block), flags)
    ensures r.Ok? ==>
      TakenFor(old(pa.block), pa.block, TryIntoBlock(ptr, oldSize).value, r.value, Demand(newSize, align))
    ensures r.Err? ==>
      || TryIntoBlock(ptr, oldSize) == Err(r.error) || TryIntoBlock(ptr, newSize) == Err(r.error)
      || (TryIntoBlock(ptr, oldSize).Ok? &&
          var a := TryIntoBlock(ptr, oldSize).value;
          || MoveRefused(old(m.W()), m.W(), s, a, old(pa.block), flags, r.error)
          || (r.error == NoPage && Demand(newSize, align) > old(pa.block).Count())
          || (r.error == InvalidArgument && !pa.initialBlock.Contains(a)))
    ensures r.Err? && TryIntoBlock(ptr, oldSize).Err? ==> m.W() == old(m.W())
    ensures r.Err? && TryIntoBlock(ptr, oldSize).Ok? && pa.initialBlock.Contains(TryIntoBlock(ptr, oldSize).value) ==>
      Safe(old(m.W()), m.W(), s, old(pa.block).start, old(pa.block).end)
  {
    hide Consistent, WellLinked, View, PathOf, Uses, Progress, InHalf, Grown, TryIntoBlock, CeilDiv, Alignment,
         MappedBlock, UnmappedBlock, Aligned, SamePages, Safe, Flagged, MoveRefused, FillRefused, WrongSide, Demand;
    ghost var w, free := m.W(), pa.block;
    SafeSelf(w, s, free.start, free.end);
    TryIntoBlockLaw(ptr, oldSize);
    TryIntoBlockLaw(ptr, newSize);
    var source := TryIntoBlock(ptr, oldSize);
    if source.Err? {
      return Err(source.error);
    }
    var target := TryIntoBlock(ptr, newSize);
    if target.Err? {
      return Err(target.error);
    }
    var a, b := source.value, target.value;
    Ceilings(oldSize, newSize);
    if a.Count() == b.Count() {
      GrownSame(w, s, a);
      FlaggedSame(w, s, a, flags);
      return Ok(b);
    }
    InPlaceMore(a, b);
    var reserved := ReserveFixed(pa, Block(a.end, b.end), flags);
    if reserved {
      r := GrowInPlace(m, s, flags, a, b, free, pa.block, zero);
      if r.Err? { FillIsMove(w, m.W(), s, a, free, flags, r.error); }
    } else {
      r := MoveBlock(m, pa, s, flags, a, newSize, align, zero);
    }
  }

  /** The pages reserved to make `b` of `a`: none, those after it, or so many from the end. */
  ghost predicate TakenFor(free: Block, left: Block, a: Block, b: Block, demand: nat) {
    if b == a then left == free
    else if b.start == a.start then LargerPart(free, Block(a.end, b.end), left)
    else free.Contains(b) && left.start == free.start && left.end + demand == free.end
  }

  /** The block can grow where it is: it has its pages already, or `more` are free and on the side of its flags. */
  ghost predicate InPlace(a: Block, more: Block, free: Block, flags: Flags) {
    more.end == a.end || (!WrongSide(more, flags) && free.Contains(more))
  }

  /** The part of `dry_grow()` that adds the pages after the block. */
  method GrowInPlace(m: Machine, s: nat, flags: Flags, a: Block, b: Block, ghost free: Block, ghost left: Block,
                     zero: bool)
    returns (r: Result<Block>)
    requires m.Valid() && Live(m.W(), s) && Huge !in flags && InHalf(b) && InHalf(left)
    requires a.start == b.start && a.start <= a.end < b.end && InHalf(Block(a.end, b.end))
    requires MappedBlock(m.W(), s, a) && UnmappedBlock(m.W(), s, free) && Apart(a, free)
    requires free.Contains(Block(a.end, b.end)) && free.Contains(left) && Apart(Block(a.end, b.end), left)
    modifies m`mem, m`held, m.frames
    ensures m.Valid() && m.held == old(m.held) && m.roots == old(m.roots) && UnmappedBlock(m.W(), s, left)
    ensures r.Ok? ==> r.value == b && Grown(old(m.W()), m.W(), s, a, b) && Apart(b, left)
    ensures r.Ok? ==> DataAfter(m.W(), s, b, a.Count()) && (zero ==> ZerosAfter(m.W(), s, b, a.Count()))
    ensures r.Ok? ==> Flagged(old(m.W()), m.W(), s, a, b, flags)
    ensures r.Err? ==> Safe(old(m.W()), m.W(), s, free.start, free.end)
    ensures r.Err? ==> FillRefused(old(m.W()), m.W(), s, free, flags, r.error)
  {
    hide Consistent, WellLinked, View, PathOf, Uses, Progress, InHalf, Grown, MappedBlock, UnmappedBlock, SamePages,
         Safe, Partly, MapStopped, ZeroPage, Own, Flagged, FillRefused, MapRefused, RightsKept, WrongSide;
    ghost var w := m.W();
    var more := Block(a.end, b.end);
    UnmappedPart(w, s, free, more);
    var mapped := MapFilled(m, s, more, flags, zero);
    if mapped.Err? {
      PartIsPartly(w, m.W(), s, more.start, more.Count(), flags);
      PartlySafe(w, m.W(), s, more, s, 0);
      SafeWider(w, m.W(), s, more, free);
      SafePages(w, m.W(), s, more.start, more.end);
      StillUnmapped(w, m.W(), s, free, more, left);
      RefusedPart(w, w, m.W(), s, more, free, flags, mapped.error);
      return Err(mapped.error);
    }
    FlaggedInPlace(w, m.W(), s, a, b, flags);
    AllMapped(m.W(), s, more, flags);
    OwnPages(m.W(), s, b, more);
    GrownInPlace(w, m.W(), s, a, b, more);
    ProgressSame(w, m.W(), s, more);
    StillUnmapped(w, m.W(), s, free, more, left);
    JoinedApart(a, b, free, left);
    r := Ok(b);
  }

  lemma SafePages(w: World, w': World, s: nat, lo: nat, hi: nat)
    requires Safe(w, w', s, lo, hi)
    ensures SamePages(w, w', s, lo, hi)
  {
  }

  lemma JoinedApart(a: Block, b: Block, free: Block, left: Block)
    requires a.start == b.start && Apart(a, free) && free.Contains(left) && Apart(Block(a.end, b.end), left)
    ensures Apart(b, left)
  {
    forall p: nat ensures !(b.Has(p) && left.Has(p)) {
      assert !(a.Has(p) && free.Has(p)) && !(Block(a.end, b.end).Has(p) && left.Has(p));
    }
  }

  lemma Ceilings(a: nat, b: nat)
    requires 0 < a <= b
    ensures 0 < CeilDiv(a, PAGE_SIZE) <= CeilDiv(b, PAGE_SIZE)
  {
  }

  lemma InPlaceMore(a: Block, b: Block)
    requires InHalf(a) && InHalf(b) && a.start == b.start && a.end < b.end && a.start < a.end
    ensures InHalf(Block(a.end, b.end))
  {
    HalvesValues(L0_SIZE);
  }

  lemma GrownSame(w: World, s: nat, a: Block)
    requires a.start <= a.end && MappedBlock(w, s, a)
    ensures Grown(w, w, s, a, a)
  {
    hide View, PathOf;
    forall i: nat | i < a.Count() ensures SameBacking(w, w, s, a, a, i) { }
  }

  /** The part of `dry_grow()` that moves the block. */
  method MoveBlock(m: Machine, pa: PageAllocator, s: nat, flags: Flags, a: Block, newSize: nat, align: nat, zero: bool)
    returns (r: Result<Block>)
    requires m.Valid() && pa.Valid() && Live(m.W(), s) && Huge !in flags && InHalf(a) && a.start < a.end
    requires Alignment(align) && a.Count() <= CeilDiv(newSize, PAGE_SIZE) && newSize > 0
    requires MappedBlock(m.W(), s, a) && UnmappedBlock(m.W(), s, pa.block) && Apart(a, pa.block)
    modifies m`mem, m`held, m.frames, pa
    ensures m.Valid() && pa.Valid() && m.held == old(m.held) && m.roots == old(m.roots)
    ensures pa.initialBlock == old(pa.initialBlock) && old(pa.block).Contains(pa.block)
    ensures UnmappedBlock(m.W(), s, pa.block)
    ensures r.Ok? ==>
      && Grown(old(m.W()), m.W(), s, a, r.value) && InHalf(r.value) && Apart(r.value, pa.block)
      && r.value.Count() == CeilDiv(newSize, PAGE_SIZE) && Aligned(r.value.start, align) && Recovered(r.value, newSize)
      && DataAfter(m.W(), s, r.value, a.Count()) && (zero ==> ZerosAfter(m.W(), s, r.value, a.Count()))
    ensures r.Ok? ==> Flagged(old(m.W()), m.W(), s, a, r.value, flags) && r.value.start != a.start
    ensures r.Ok? ==> TakenFor(old(pa.block), pa.block, a, r.value, Demand(newSize, align))
    ensures r.Err? && pa.initialBlock.Contains(a) ==> Safe(old(m.W()), m.W(), s, old(pa.block).start, old(pa.block).end)
    ensures r.Err? ==>
      || MoveRefused(old(m.W()), m.W(), s, a, old(pa.block), flags, r.error)
      || (r.error == NoPage && Demand(newSize, align) > old(pa.block).Count())
      || (r.error == InvalidArgument && !pa.initialBlock.Contains(a))
  {
    hide Consistent, WellLinked, View, PathOf, Uses, Progress, InHalf, Grown, CeilDiv, Alignment, MappedBlock,
         UnmappedBlock, Aligned, Safe, SamePages, Demand, Recovered, Flagged, MoveRefused;
    ghost var w, free := m.W(), pa.block;
    SafeSelf(w, s, free.start, free.end);
    var moved := pa.Allocate(newSize, align);
    if moved.Err? {
      return Err(moved.error);
    }
    var b := moved.value;
    assert Apart(b, pa.block) by { assert pa.given[|pa.given| - 1] == b; }
    GivenAccepted(pa, |pa.given| - 1, newSize);
    UnmappedPart(w, s, free, b);
    ApartPart(a, free, b);
    ApartPart(a, free, pa.block);
    var done := MoveTo(m, s, flags, a, b, zero);
    if done.Err? {
      SafePages(w, m.W(), s, b.start, b.end);
      StillUnmapped(w, m.W(), s, free, b, pa.block);
      SafeWider(w, m.W(), s, b, free);
      MoveRefusedWider(w, m.W(), s, a, b, free, flags, done.error);
      return Err(done.error);
    }
    GrownUnmapped(w, m.W(), s, free, a, b, pa.block);
    assert b.start != a.start by { assert a.Has(a.start) && b.Has(b.start); }
    var unreserved := pa.Deallocate(a);
    if unreserved.Err? {
      return Err(unreserved.error);
    }
    r := Ok(b);
  }

  /** The frames of block `a` go to the start of block `b`, whose other pages get frames of their own. */
  method MoveTo(m: Machine, s: nat, flags: Flags, a: Block, b: Block, zero: bool) returns (r: Result<()>)
    requires m.Valid() && Live(m.W(), s) && Huge !in flags && InHalf(a) && InHalf(b) && a.start < a.end
    requires a.Count() <= b.Count() && Apart(a, b) && MappedBlock(m.W(), s, a) && UnmappedBlock(m.W(), s, b)
    modifies m`mem, m`held, m.frames
    ensures m.Valid() && m.held == old(m.held) && m.roots == old(m.roots)
    ensures r.Ok? ==>
      && Grown(old(m.W()), m.W(), s, a, b) && DataAfter(m.W(), s, b, a.Count())
      && (zero ==> ZerosAfter(m.W(), s, b, a.Count()))
    ensures r.Ok? ==> Flagged(old(m.W()), m.W(), s, a, b, flags)
    ensures r.Err? ==> Safe(old(m.W()), m.W(), s, b.start, b.end)
    ensures r.Err? ==> MoveRefused(old(m.W()), m.W(), s, a, b, flags, r.error)
  {
    hide Consistent, WellLinked, View, PathOf, Uses, Progress, InHalf, Grown, MappedBlock, UnmappedBlock, CopiedPage,
         Separate, SamePages, Safe, Partly, MapStopped, WordsKept, Own, ZeroPage, RightsKept, CopyRefused, MapRefused,
         MoveRefused, FillRefused, Flagged, MappedAs, WrongSide;
    ghost var w := m.W();
    var n := a.Count();
    var copy, rest := Block(b.start, b.start + n), Block(b.start + n, b.end);
    PartOf(a, b);
    RestShape(b, n);
    SeparateParts(s, a, copy);
    UnmappedPart(w, s, b, copy);
    var copied := CopyMapping(m, s, a, s, copy, None, flags);
    if copied.Err? {
      PartlySafe(w, m.W(), s, copy, s, a.start);
      SafeWider(w, m.W(), s, copy, b);
      RefusedCopy(w, m.W(), s, a, copy, b, flags, copied.error);
      return Err(copied.error);
    }
    ghost var w1 := m.W();
    WholeIsPart(w, w1, s, copy, s, a.start, n);
    PartlySafe(w, w1, s, copy, s, a.start);
    SafePages(w, w1, s, copy.start, copy.end);
    SafeWider(w, w1, s, copy, b);
    ProgressStart(w1, s, rest.start, rest.Count(), s, 0);
    NothingMapped(w1, s, rest);
    SafeSelf(w1, s, b.start, b.end);
    RightsKeptSelf(w1, s, rest.start, rest.end, Gains(flags));
    if rest.start < rest.end {
      RestUnmapped(w, w1, s, b, copy, rest);
      var mapped := MapFilled(m, s, rest, flags, zero);
      if mapped.Err? {
        PartIsPartly(w1, m.W(), s, rest.start, rest.Count(), flags);
        PartlySafe(w1, m.W(), s, rest, s, 0);
        SafeWider(w1, m.W(), s, rest, b);
        SafeThen(w, w1, m.W(), s, b.start, b.end);
        RefusedRest(w, w1, m.W(), s, a, b, copy, rest, flags, mapped.error);
        return Err(mapped.error);
      }
      AllMapped(m.W(), s, rest, flags);
      WholeIsPart(w1, m.W(), s, rest, s, 0, 0);
      PartlySafe(w1, m.W(), s, rest, s, 0);
      SafeWider(w1, m.W(), s, rest, b);
    }
    ghost var w2 := m.W();
    SafeThen(w, w1, w2, s, b.start, b.end);
    StillMapped(w, w2, s, a, b);
    r := UnmapBlock(m, s, a);
    UnmapRefused(w, m.W(), s, a, b, flags);
    if r.Ok? {
      MovedSame(w1, w2, m.W(), s, a, rest);
      FlaggedMoved(w, w1, w2, m.W(), s, a, b, flags);
      GrownMoved(w, w1, w2, m.W(), s, a, b, flags);
      OwnPages(w2, s, b, rest);
      PagesStay(w2, m.W(), s, a, b, n);
    }
  }

  lemma FillIsMove(w: World, w': World, s: nat, a: Block, free: Block, flags: Flags, error: Error)
    requires FillRefused(w, w', s, free, flags, error)
    ensures MoveRefused(w, w', s, a, free, flags, error)
  {
  }

  lemma MoveRefusedWider(w: World, w': World, s: nat, a: Block, b: Block, free: Block, flags: Flags, error: Error)
    requires MoveRefused(w, w', s, a, b, flags, error) && free.Contains(b)
    ensures MoveRefused(w, w', s, a, free, flags, error)
  {
    hide PageView, WrongSide, UserIn;
    if error == PermissionDenied && WrongIn(b, flags) {
      var c: Block :| c.start < c.end && b.Contains(c) && WrongSide(c, flags);
      assert free.Contains(c);
    }
  }

  lemma RefusedRest(w: World, w1: World, w2: World, s: nat, a: Block, b: Block, copy: Block, rest: Block, flags: Flags,
                    error: Error)
    requires MapRefused(w1, w2, s, rest, flags, error) && SamePages(w, w1, s, copy.start, copy.end) && InHalf(rest)
    requires b.start <= copy.end == rest.start < rest.end == b.end
    ensures MoveRefused(w, w2, s, a, b, flags, error)
  {
    hide PageView, InHalf, MapRefused, FillRefused;
    forall p: nat | rest.Has(p) ensures PageView(w1, s, p) == PageView(w, s, p) {
      InHalfPage(rest, p);
    }
    RefusedPart(w, w1, w2, s, rest, b, flags, error);
  }

  lemma UnmapRefused(w: World, w': World, s: nat, a: Block, b: Block, flags: Flags)
    ensures !ValidBlock(a) ==> MoveRefused(w, w', s, a, b, flags, PermissionDenied)
  {
  }

  lemma MovedSame(w1: World, w2: World, w3: World, s: nat, a: Block, rest: Block)
    requires rest.start <= rest.end && a.start <= a.end
    requires Progress(w1, w2, s, rest.start, rest.Count(), rest.Count(), s, 0, 0)
    requires Progress(w2, w3, s, a.start, a.Count(), a.Count(), s, 0, 0)
    ensures SamePages(w1, w2, s, rest.start, rest.end) && SamePages(w2, w3, s, a.start, a.end)
  {
    hide SamePages;
  }

  lemma RestUnmapped(w: World, w1: World, s: nat, b: Block, copy: Block, rest: Block)
    requires UnmappedBlock(w, s, b) && SamePages(w, w1, s, copy.start, copy.end) && InHalf(rest)
    requires b.start <= copy.end == rest.start <= rest.end == b.end
    ensures UnmappedBlock(w1, s, rest)
  {
    hide PageView, InHalf;
    forall p: nat | rest.Has(p) ensures LeafFrame(PageView(w1, s, p)).None? {
      InHalfPage(rest, p);
      assert PageView(w1, s, p) == PageView(w, s, p);
    }
  }

  /** The block to be moved is still mapped. */
  lemma StillMapped(w: World, w': World, s: nat, a: Block, b: Block)
    requires MappedBlock(w, s, a) && Safe(w, w', s, b.start, b.end) && Apart(a, b) && InHalf(a)
    ensures MappedBlock(w', s, a)
    ensures forall p: nat {:trigger PageView(w', s, p)} :: a.Has(p) ==> LeafFrame(PageView(w', s, p)).Some?
  {
    hide PageView, InHalf, Data;
    forall p: nat | a.Has(p) ensures LeafFrame(PageView(w', s, p)).Some? {
      InHalfPage(a, p);
      assert PageView(w', s, p) == PageView(w, s, p);
    }
  }

  lemma ApartPart(a: Block, free: Block, b: Block)
    requires Apart(a, free) && free.Contains(b)
    ensures Apart(a, b)
  {
    forall p: nat ensures !(a.Has(p) && b.Has(p)) {
      assert !(a.Has(p) && free.Has(p));
    }
  }

  lemma RestShape(b: Block, n: nat)
    requires InHalf(b) && n <= b.Count()
    ensures b.start + n < b.end ==> InHalf(Block(b.start + n, b.end))
    ensures InHalf(Block(b.start, b.start + n))
  {
    HalvesValues(L0_SIZE);
  }

  lemma SeparateParts(s: nat, a: Block, b: Block)
    requires a.Disjoint(b)
    ensures Separate(s, a, s, b)
  {
  }

  lemma NothingMapped(w: World, s: nat, rest: Block)
    ensures rest.start == rest.end ==> MappedBlock(w, s, rest)
  {
  }

  /** What shrinking a block must do: the pages kept are as they were, those cut off are unmapped, all pages kept
      have the data they had, and frames that back none of those cut off have the references they had. */
  ghost predicate Shrunk(w: World, w': World, s: nat, a: Block, b: Block) {
    && a.start == b.start && b.end <= a.end
    && SamePages(w, w', s, b.end, a.end) && WordsKept(w, w', s, b.end, a.end)
    && (forall p: nat {:trigger PageView(w', s, p)} :: b.end <= p < a.end ==> PageView(w', s, p) == Unmapped)
    && (forall f: nat {:trigger InUse(w, f)} :: InUse(w, f) && !BackedBy(w, s, Block(b.end, a.end), f) ==>
          Untouched(w, w', f))
  }

  /** Shrinking a block does to what a program sees exactly what moving its bytes should. */
  lemma ShrunkMoves(w: World, w': World, s: nat, a: Block, b: Block, octet: (Pte, nat) -> bv8)
    requires HoldsData(w, s) && Shrunk(w, w', s, a, b) && a.start <= b.end
    ensures BytesMoved(Seen(w, s, octet), Seen(w', s, octet), a, b)
  {
    hide PageView, WordAt, Shrunk, Data;
    assert a.start == b.start && b.end <= a.end by { ShrunkShape(w, w', s, a, b); }
    var before, after := Seen(w, s, octet), Seen(w', s, octet);
    forall x: nat | Page(x / PAGE_SIZE) && !(b.end <= x / PAGE_SIZE < a.end) ensures after(x) == before(x) {
      ShrunkWords(w, w', s, a, b, x / PAGE_SIZE, x % PAGE_SIZE / 8);
    }
    forall x: nat | x < LeastCount(a, b) * PAGE_SIZE
      ensures ByteAt(after, b.start * PAGE_SIZE, x) == ByteAt(before, a.start * PAGE_SIZE, x)
    {
      PageOfByte(a, x);
    }
  }

  lemma ShrunkShape(w: World, w': World, s: nat, a: Block, b: Block)
    requires Shrunk(w, w', s, a, b)
    ensures a.start == b.start && b.end <= a.end
  {
  }

  lemma ShrunkWords(w: World, w': World, s: nat, a: Block, b: Block, p: nat, k: nat)
    requires HoldsData(w, s) && Shrunk(w, w', s, a, b) && Page(p) && !(b.end <= p < a.end)
    ensures WordAt(w', s, p, k) == WordAt(w, s, p, k)
  {
    hide PageView, Uses;
    assert PageView(w', s, p) == PageView(w, s, p);
    var frame := LeafFrame(PageView(w, s, p));
    if frame.Some? {
      assert Backs(w, s, p, frame.value);
    }
  }

  lemma {:induction false} NotBackedNames(w: World, s: nat, start: nat, n: nat, f: nat)
    requires forall p: nat {:trigger Backs(w, s, p, f)} :: start <= p < start + n ==> !Backs(w, s, p, f)
    ensures Names(w, s, start, n, f) == 0
    decreases n
  {
    hide Backs;
    if n > 0 {
      NotBackedNames(w, s, start, n - 1, f);
      assert !Backs(w, s, start + n - 1, f);
    }
  }

  lemma ShrunkTail(w: World, w': World, s: nat, a: Block, b: Block)
    requires a.start == b.start && b.start <= b.end < a.end
    requires Progress(w, w', s, b.end, a.end - b.end, a.end - b.end, s, 0, 0) && WordsKept(w, w', s, b.end, a.end)
    requires forall p: nat {:trigger PageView(w', s, p)} :: Block(b.end, a.end).Has(p) ==>
      PageView(w', s, p) == Unmapped
    ensures Shrunk(w, w', s, a, b)
  {
    hide View, PathOf, Uses, Backs, WordsKept;
    forall p: nat | b.end <= p < a.end ensures PageView(w', s, p) == Unmapped {
      assert Block(b.end, a.end).Has(p);
    }
    forall f: nat | InUse(w, f) && !BackedBy(w, s, Block(b.end, a.end), f) ensures Untouched(w, w', f) {
      forall p: nat | b.end <= p < b.end + (a.end - b.end) ensures !Backs(w, s, p, f) {
        assert Block(b.end, a.end).Has(p);
      }
      NotBackedNames(w, s, b.end, a.end - b.end, f);
      assert Stays(w, s, b.end, a.end - b.end, f);
      assert Names(w, s, 0, 0, f) == 0;
    }
  }

  /** The pages to be cut off are mapped, all on one side, and were handed out by the page allocator. */
  ghost predicate Shrinkable(w: World, pa: PageAllocator, s: nat, a: Block, count: nat)
    reads pa
  {
    a.start + count == a.end ||
    var tail := Block(a.start + count, a.end);
    ValidBlock(tail) && MappedBlock(w, s, tail) && pa.initialBlock.Contains(tail) && Apart(tail, pa.block)
  }

  /** `dry_shrink()`. Whether it succeeds or not, pages other than those to cut off keep their frames and data. */
  method DryShrink(m: Machine, pa: PageAllocator, s: nat, ptr: nat, oldSize: nat, newSize: nat)
    returns (r: Result<Block>)
    requires m.Valid() && pa.Valid() && Live(m.W(), s) && Canonical(ptr) && 0 < newSize <= oldSize
    modifies m`mem, m`held, m.frames
    ensures m.Valid() && m.held == old(m.held) && m.roots == old(m.roots)
    ensures TryIntoBlock(ptr, oldSize).Err? ==> r.Err? && m.W() == old(m.W())
    ensures r.Ok? <==>
      && TryIntoBlock(ptr, oldSize).Ok?
      && Shrinkable(old(m.W()), pa, s, TryIntoBlock(ptr, oldSize).value, CeilDiv(newSize, PAGE_SIZE))
    ensures r.Ok? ==> RightsKept(old(m.W()), m.W(), s, r.value.end, TryIntoBlock(ptr, oldSize).value.end, {})
    ensures r.Ok? ==>
      && Shrunk(old(m.W()), m.W(), s, TryIntoBlock(ptr, oldSize).value, r.value)
      && r.value.start <= r.value.end && r.value.Count() == CeilDiv(newSize, PAGE_SIZE)
    ensures TryIntoBlock(ptr, oldSize).Ok? ==>
      var a := TryIntoBlock(ptr, oldSize).value;
      var end := a.start + CeilDiv(newSize, PAGE_SIZE);
      && SamePages(old(m.W()), m.W(), s, end, a.end) && WordsKept(old(m.W()), m.W(), s, end, a.end)
      && (UnmappedBlock(old(m.W()), s, pa.block) && Apart(a, pa.block) ==> UnmappedBlock(m.W(), s, pa.block))
  {
    hide Consistent, WellLinked, View, PathOf, Uses, Progress, InHalf, Shrunk, TryIntoBlock, CeilDiv, SamePages,
         WordsKept, UnmappedBlock, Partly, MapStopped, UnmapStopped, RightsKept;
    ghost var w := m.W();
    TryIntoBlockLaw(ptr, oldSize);
    TryIntoBlockLaw(ptr, newSize);
    var source := TryIntoBlock(ptr, oldSize);
    if source.Err? {
      return Err(source.error);
    }
    var a, b := source.value, TryIntoBlock(ptr, newSize).value;
    Ceilings(newSize, oldSize);
    SameWords(w, s, b.end, a.end);
    RightsKeptSelf(w, s, b.end, a.end, {});
    if a.Count() == b.Count() {
      ShrunkSame(w, s, a);
      return Ok(b);
    }
    var tail := Block(b.end, a.end);
    InPlaceMore(b, a);
    var unmapped := UnmapBlock(m, s, tail);
    if unmapped.Ok? {
      WholeIsPart(w, m.W(), s, tail, s, 0, 0);
    }
    PartIsPartly(w, m.W(), s, tail.start, tail.Count(), {});
    PartlyPages(w, m.W(), s, tail, s, 0);
    if UnmappedBlock(w, s, pa.block) && Apart(a, pa.block) {
      TailApart(a, b, pa.block);
      StillUnmapped(w, m.W(), s, pa.block, tail, pa.block);
    }
    if unmapped.Err? {
      return Err(unmapped.error);
    }
    ShrunkTail(w, m.W(), s, a, b);
    // `rereserve()`
    var unreserved := pa.Deallocate(tail);
    if unreserved.Err? {
      return Err(unreserved.error);
    }
    r := Ok(b);
  }

  lemma SameWords(w: World, s: nat, lo: nat, hi: nat)
    ensures SamePages(w, w, s, lo, hi) && WordsKept(w, w, s, lo, hi)
  {
  }

  lemma PartlyPages(w: World, w': World, s: nat, b: Block, src: nat, from: nat)
    requires b.start <= b.end && Partly(w, w', s, b.start, b.Count(), src, from)
    ensures SamePages(w, w', s, b.start, b.end)
  {
  }

  lemma TailApart(a: Block, b: Block, free: Block)
    requires a.start <= b.end && Apart(a, free)
    ensures Apart(Block(b.end, a.end), free)
  {
    forall p: nat ensures !(Block(b.end, a.end).Has(p) && free.Has(p)) {
      assert !(a.Has(p) && free.Has(p));
    }
  }

  lemma ShrunkSame(w: World, s: nat, a: Block)
    ensures Shrunk(w, w, s, a, a)
  {
  }

  /** `dry_allocate()`: pages that were free, of the size and alignment asked for, each mapped to a frame of its own and
      read as zeros if that was asked for. Frames in use keep their references and their data. If it fails, then no page
      that was not free has changed, and no data. */
  method DryAllocate(m: Machine, pa: PageAllocator, s: nat, flags: Flags, size: nat, align: nat, zero: bool)
    returns (r: Result<Block>)
    requires m.Valid() && pa.Valid() && Live(m.W(), s) && Huge !in flags && size > 0 && Alignment(align)
    requires UnmappedBlock(m.W(), s, pa.block)
    modifies m`mem, m`held, m.frames, pa
    ensures m.Valid() && pa.Valid() && m.held == old(m.held) && m.roots == old(m.roots)
    ensures pa.initialBlock == old(pa.initialBlock) && old(pa.block).Contains(pa.block)
    ensures UnmappedBlock(m.W(), s, pa.block)
    ensures r.Ok? ==>
      && r.value.start <= r.value.end && r.value.Count() == CeilDiv(size, PAGE_SIZE) && Aligned(r.value.start, align)
      && old(pa.block).Contains(r.value) && Apart(r.value, pa.block) && MappedBlock(m.W(), s, r.value)
      && (forall p: nat {:trigger Own(m.W(), s, p)} :: r.value.Has(p) ==> Own(m.W(), s, p))
      && Recovered(r.value, size)
      && (zero ==> ZerosAfter(m.W(), s, r.value, 0))
      && Aside(old(m.W()), m.W(), s, r.value)
      && MappedFrom(m.W(), s, r.value, 0, flags)
      && pa.block.start == old(pa.block).start && pa.block.end + Demand(size, align) == old(pa.block).end
      && RightsKept(old(m.W()), m.W(), s, r.value.start, r.value.end, Gains(flags))
    ensures r.Err? ==> Safe(old(m.W()), m.W(), s, old(pa.block).start, old(pa.block).end)
    ensures r.Err? ==>
      || FillRefused(old(m.W()), m.W(), s, old(pa.block), flags, r.error)
      || (r.error == NoPage && Demand(size, align) > old(pa.block).Count())
  {
    hide Consistent, WellLinked, View, PathOf, Uses, Progress, InHalf, CeilDiv, Alignment, MappedBlock, UnmappedBlock,
         Aligned, SamePages, Demand, InUse, Untouched, Safe, Partly, MapStopped, Own, ZeroPage, Recovered,
         RightsKept, MapRefused, FillRefused, Gains;
    ghost var w, free := m.W(), pa.block;
    SafeSelf(w, s, free.start, free.end);
    var reserved := pa.Allocate(size, align);
    if reserved.Err? {
      return Err(reserved.error);
    }
    var b := reserved.value;
    assert Apart(b, pa.block) by { assert pa.given[|pa.given| - 1] == b; }
    GivenAccepted(pa, |pa.given| - 1, size);
    UnmappedPart(w, s, free, b);
    var mapped := MapFilled(m, s, b, flags, zero);
    if mapped.Err? {
      PartIsPartly(w, m.W(), s, b.start, b.Count(), flags);
      PartlySafe(w, m.W(), s, b, s, 0);
      SafePages(w, m.W(), s, b.start, b.end);
      StillUnmapped(w, m.W(), s, free, b, pa.block);
      SafeWider(w, m.W(), s, b, free);
      NotEmpty(b, size);
      RefusedPart(w, w, m.W(), s, b, free, flags, mapped.error);
      return Err(mapped.error);
    }
    AllMapped(m.W(), s, b, flags);
    ProgressSame(w, m.W(), s, b);
    StillUnmapped(w, m.W(), s, free, b, pa.block);
    forall f: nat | InUse(w, f) ensures Untouched(w, m.W(), f) {
      MappedAside(w, m.W(), s, b, f);
    }
    IsAside(w, m.W(), s, b);
    r := Ok(b);
  }

  lemma NotEmpty(b: Block, size: nat)
    requires b.start <= b.end && b.Count() == CeilDiv(size, PAGE_SIZE) && size > 0
    ensures b.start < b.end
  {
  }

  /** Only pages of the block changed, and frames in use were left alone. */
  ghost predicate Aside(w: World, w': World, s: nat, b: Block) {
    && SamePages(w, w', s, b.start, b.end)
    && forall f: nat {:trigger InUse(w, f)} :: InUse(w, f) ==> Untouched(w, w', f)
  }

  lemma IsAside(w: World, w': World, s: nat, b: Block)
    requires SamePages(w, w', s, b.start, b.end)
    requires forall f: nat {:trigger InUse(w, f)} :: InUse(w, f) ==> Untouched(w, w', f)
    ensures Aside(w, w', s, b)
  {
  }

  /** Allocating a block does not change what a program sees elsewhere. */
  lemma AllocatedSees(w: World, w': World, s: nat, b: Block, octet: (Pte, nat) -> bv8, x: nat)
    requires Consistent(w) && HoldsData(w, s) && Aside(w, w', s, b) && !b.Has(x / PAGE_SIZE)
    ensures Seen(w', s, octet)(x) == Seen(w, s, octet)(x)
  {
    hide PageView, Uses, Consistent;
    var p := x / PAGE_SIZE;
    if Page(p) {
      assert PageView(w', s, p) == PageView(w, s, p);
      var frame := LeafFrame(PageView(w, s, p));
      if frame.Some? {
        assert Backs(w, s, p, frame.value);
        BackedIsNamed(w, s, p, frame.value);
      }
    }
  }

  /** The pages of a space hold data after each of the three operations as they did before. */
  lemma AllocatedHolds(w: World, w': World, s: nat, b: Block)
    requires Consistent(w) && HoldsData(w, s) && Aside(w, w', s, b)
    requires forall p: nat {:trigger Own(w', s, p)} :: b.Has(p) ==> Own(w', s, p)
    ensures HoldsData(w', s)
  {
    hide PageView, Uses, Consistent;
    forall p: nat, f: nat | Page(p) && Backs(w', s, p, f) ensures Data(w', f) {
      if b.Has(p) {
        assert Own(w', s, p);
      } else {
        assert Backs(w, s, p, f);
        BackedIsNamed(w, s, p, f);
      }
    }
  }

  lemma GrownHolds(w: World, w': World, s: nat, a: Block, b: Block)
    requires Consistent(w) && HoldsData(w, s) && Grown(w, w', s, a, b) && InHalf(a) && DataAfter(w', s, b, a.Count())
    ensures HoldsData(w', s)
  {
    hide PageView, Uses, Consistent, InHalf;
    forall p: nat, f: nat | Page(p) && Backs(w', s, p, f) ensures Data(w', f) {
      if b.Has(p) && p < b.start + a.Count() {
        var i: nat := p - b.start;
        assert SameBacking(w, w', s, a, b, i) && a.Has(a.start + i);
        InHalfPage(a, a.start + i);
        assert Backs(w, s, a.start + i, f);
        BackedIsNamed(w, s, a.start + i, f);
      } else if b.Has(p) {
        assert DataPage(w', s, p);
      } else {
        assert !a.Has(p) && Backs(w, s, p, f);
        BackedIsNamed(w, s, p, f);
      }
    }
  }

  lemma ShrunkHolds(w: World, w': World, s: nat, a: Block, b: Block)
    requires HoldsData(w, s) && Shrunk(w, w', s, a, b)
    ensures HoldsData(w', s)
  {
    hide PageView, Uses;
    forall p: nat, f: nat | Page(p) && Backs(w', s, p, f) ensures Data(w', f) {
      assert !(b.end <= p < a.end) && Backs(w, s, p, f);
    }
  }

  lemma ProgressSame(w: World, w': World, s: nat, b: Block)
    requires b.start <= b.end && Progress(w, w', s, b.start, b.Count(), b.Count(), s, 0, 0)
    ensures SamePages(w, w', s, b.start, b.end)
  {
  }
}
