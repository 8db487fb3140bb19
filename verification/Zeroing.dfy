/** Mapping a block of pages and filling it with zeros. */
module Zeroing {
  import opened Mmu
  import opened PageTree
  import opened FrameAllocator
  import opened World
  import opened Machine
  import opened Pages
  import opened PA = PageAllocator
  import opened AddressSpace
  import opened Rights

  /** Frame `f` backs some page of the block. */
  ghost predicate BackedBy(w: World, s: nat, b: Block, f: nat) {
    exists p: nat :: b.Has(p) && Backs(w, s, p, f)
  }

  /** The page is mapped to a frame that holds data. */
  ghost predicate DataPage(w: World, s: nat, p: nat) {
    var frame := LeafFrame(PageView(w, s, p));
    frame.Some? && Data(w, frame.value)
  }

  /** Nothing changed but contents of frames, and page tables are as they were. */
  ghost predicate SameTables(w: World, w': World) {
    && w'.counts == w.counts && w'.free == w.free && w'.roots == w.roots && w'.held == w.held
    && |w'.mem| == |w.mem|
    && (forall s: nat, p: nat {:trigger PageView(w', s, p)} :: PageView(w', s, p) == PageView(w, s, p))
    && (forall floor: nat, f: nat {:trigger Uses(w', floor, f)} :: Uses(w', floor, f) == Uses(w, floor, f))
    && SameRights(w, w')
  }

  ghost predicate SameRights(w: World, w': World) {
    forall p: Path, a: Flag {:trigger Right(w', p, a)} :: |p| == TOP + 1 ==> Right(w', p, a) == Right(w, p, a)
  }

  /** The pages of the block read as zeros, and nothing else changed. */
  ghost predicate Zeroed(w: World, w': World, s: nat, b: Block) {
    && SameTables(w, w')
    && forall f: nat {:trigger w'.mem[f]} {:trigger BackedBy(w, s, b, f)} :: f < |w.mem| ==>
         w'.mem[f] == if BackedBy(w, s, b, f) then EMPTY_TABLE else w.mem[f]
  }

  /** Writing to a frame that is no node keeps the page tables. */
  lemma FillKeeps(w: World, f: nat, t: Table)
    requires Consistent(w) && Data(w, f)
    ensures var w' := w.(mem := w.mem[f := t]); Consistent(w') && SameTables(w, w')
  {
    var w' := w.(mem := w.mem[f := t]);
    assert forall x: nat :: x < |w.mem| && w'.mem[x] != w.mem[x] ==> x == f;
    Frame(w.mem, w'.mem, w.roots, TOP);
    SameTreesRights(w, w');
  }

  lemma ZeroedStep(w: World, w1: World, w2: World, s: nat, lo: nat, page: nat, f: nat)
    requires lo <= page && Zeroed(w, w1, s, Block(lo, page)) && SameTables(w1, w2) && Backs(w, s, page, f)
    requires f < |w1.mem| && w2.mem == w1.mem[f := EMPTY_TABLE]
    ensures Zeroed(w, w2, s, Block(lo, page + 1))
  {
    hide PageView, Uses, Right;
    SameRightsThen(w, w1, w2);
    forall g: nat | g < |w.mem|
      ensures w2.mem[g] == if BackedBy(w, s, Block(lo, page + 1), g) then EMPTY_TABLE else w.mem[g]
    {
      if g == f {
        assert Block(lo, page + 1).Has(page);
      } else if BackedBy(w, s, Block(lo, page), g) {
        var p: nat :| Block(lo, page).Has(p) && Backs(w, s, p, g);
        assert Block(lo, page + 1).Has(p);
      } else if BackedBy(w, s, Block(lo, page + 1), g) {
        var p: nat :| Block(lo, page + 1).Has(p) && Backs(w, s, p, g);
      }
    }
  }

  lemma ZeroedNone(w: World, s: nat, lo: nat)
    ensures Zeroed(w, w, s, Block(lo, lo))
  {
  }

  /** `initialize_block()` with zeros, of pages mapped to frames that hold data. */
  method ZeroBlock(m: Machine, s: nat, b: Block)
    requires m.Valid() && b.start <= b.end
    requires forall p: nat {:trigger DataPage(m.W(), s, p)} :: b.Has(p) ==> DataPage(m.W(), s, p)
    modifies m`mem
    ensures m.Valid() && Zeroed(old(m.W()), m.W(), s, b)
  {
    hide Consistent, WellLinked, Uses, Zeroed, PathOf, SameRights;
    ghost var w := m.W();
    ZeroedNone(w, s, b.start);
    for page := b.start to b.end
      invariant m.Valid() && Zeroed(w, m.W(), s, Block(b.start, page)) && SameTables(w, m.W())
    {
      ghost var w1 := m.W();
      assert DataPage(w, s, page);
      assert PageView(w1, s, page) == PageView(w, s, page);
      // The processor finds the frame in the page tables.
      var f := Translate(m.mem, m.roots, TOP, PathOf(s, page)).frame;
      FillKeeps(w1, f, EMPTY_TABLE);
      m.mem := m.mem[f := EMPTY_TABLE];
      SameTablesThen(w, w1, m.W());
      ZeroedStep(w, w1, m.W(), s, b.start, page, f);
    }
    assert Block(b.start, b.end) == b;
  }

  lemma SameTablesThen(w: World, w1: World, w2: World)
    requires SameTables(w, w1) && SameTables(w1, w2)
    ensures SameTables(w, w2)
  {
    hide PageView, Uses, Right;
    SameRightsThen(w, w1, w2);
    forall s: nat, p: nat ensures PageView(w2, s, p) == PageView(w, s, p) {
      assert PageView(w1, s, p) == PageView(w, s, p);
    }
    forall floor: nat, f: nat ensures Uses(w2, floor, f) == Uses(w, floor, f) {
      assert Uses(w1, floor, f) == Uses(w, floor, f);
    }
  }

  lemma SameRightsThen(w: World, w1: World, w2: World)
    requires SameRights(w, w1) && SameRights(w1, w2)
    ensures SameRights(w, w2)
  {
    hide Right;
    forall p: Path, a: Flag | |p| == TOP + 1 ensures Right(w2, p, a) == Right(w, p, a) {
      assert Right(w1, p, a) == Right(w, p, a);
    }
  }

  /** The page reads as zeros. */
  ghost predicate ZeroPage(w: World, s: nat, p: nat) {
    var frame := LeafFrame(PageView(w, s, p));
    frame.Some? && frame.value < |w.mem| && w.mem[frame.value] == EMPTY_TABLE
  }

  /** A block was mapped to frames that were free, and these were filled: still only free frames changed. */
  lemma FilledProgress(w: World, w1: World, w2: World, s: nat, b: Block)
    requires b.start <= b.end && Progress(w, w1, s, b.start, b.Count(), b.Count(), s, 0, 0) && Zeroed(w1, w2, s, b)
    requires forall p: nat {:trigger Spare(w, w1, s, b.start, b.Count(), p)} :: b.Has(p) ==>
      Spare(w, w1, s, b.start, b.Count(), p)
    ensures Progress(w, w2, s, b.start, b.Count(), b.Count(), s, 0, 0)
  {
    hide PageView, Uses;
    forall s': nat, p: nat | Page(p) && !(s' == s && b.start <= p < b.start + b.Count())
      ensures PageView(w2, s', p) == PageView(w, s', p)
    {
      assert PageView(w1, s', p) == PageView(w, s', p);
    }
    forall f: nat | Stays(w, s, b.start, b.Count(), f) && Data(w, f)
      ensures w2.mem[f] == w.mem[f] && Uses(w2, 1, f) == 0
    {
      forall p: nat | b.Has(p) ensures !Backs(w1, s, p, f) {
        assert Spare(w, w1, s, b.start, b.Count(), p);
      }
    }
  }

  lemma FilledPage(w: World, w': World, s: nat, b: Block, flags: Flags, p: nat)
    requires Zeroed(w, w', s, b) && b.Has(p) && MappedAs(w, s, p, flags) && Own(w, s, p)
    ensures MappedAs(w', s, p, flags) && Own(w', s, p) && ZeroPage(w', s, p)
  {
    hide View, PathOf, Uses, Right;
    assert PageView(w', s, p) == PageView(w, s, p);
    var f := LeafFrame(PageView(w, s, p)).value;
    assert Backs(w, s, p, f);
    assert BackedBy(w, s, b, f);
    assert Data(w', f);
    GrantedEach(w, PathOf(s, p), flags);
    GrantedEach(w', PathOf(s, p), flags);
    forall s': nat, p': nat | Page(p') && Backs(w', s', p', f) ensures s' == s && p' == p {
      assert PageView(w', s', p') == PageView(w, s', p');
      assert Backs(w, s', p', f);
    }
  }

  lemma FilledRights(w: World, w1: World, w2: World, s: nat, lo: nat, hi: nat, more: Flags)
    requires RightsKept(w, w1, s, lo, hi, more) && SameRights(w1, w2)
    ensures RightsKept(w, w2, s, lo, hi, more)
  {
    hide Right, PathOf;
    forall s': nat, p: nat, a: Flag ensures PageRight(w2, s', p, a) == PageRight(w1, s', p, a) { }
  }

  /** A block that was mapped and filled is mapped still. */
  lemma FilledDone(w: World, w1: World, w2: World, s: nat, b: Block, flags: Flags)
    requires b.start <= b.end && MapDone(w, w1, s, b.start, b.Count(), b.Count(), flags) && Zeroed(w1, w2, s, b)
    ensures MapDone(w, w2, s, b.start, b.Count(), b.Count(), flags)
    ensures forall p: nat {:trigger ZeroPage(w2, s, p)} :: b.Has(p) ==> ZeroPage(w2, s, p)
  {
    hide View, PathOf, Uses, Data, Progress, Own, Spare, RightsKept, MappedAs, ZeroPage, SameRights, Gains;
    FilledProgress(w, w1, w2, s, b);
    FilledRights(w, w1, w2, s, b.start, b.end, Gains(flags));
    forall p: nat | b.Has(p)
      ensures MappedAs(w2, s, p, flags) && Own(w2, s, p) && ZeroPage(w2, s, p)
      ensures Spare(w, w2, s, b.start, b.Count(), p)
    {
      assert Own(w1, s, p) && MappedAs(w1, s, p, flags) && Spare(w, w1, s, b.start, b.Count(), p);
      FilledPage(w1, w2, s, b, flags, p);
      SpareKept(w, w1, w2, s, b.start, b.Count(), p);
    }
  }

  lemma OwnIsData(w: World, s: nat, p: nat)
    requires Own(w, s, p)
    ensures DataPage(w, s, p)
  {
  }

  /** `map()` and then `initialize_block()`: every page of the block is mapped to a frame of its own that was free, and
      reads as zeros if that was asked for. */
  method MapFilled(m: Machine, s: nat, b: Block, flags: Flags, zero: bool) returns (r: Result<()>)
    requires m.Valid() && Live(m.W(), s) && InHalf(b) && Huge !in flags
    modifies m`mem, m`held, m.frames
    ensures m.Valid()
    ensures r.Ok? ==>
      && !WrongSide(b, flags) && MapDone(old(m.W()), m.W(), s, b.start, b.Count(), b.Count(), flags)
      && (zero ==> forall p: nat {:trigger ZeroPage(m.W(), s, p)} :: b.Has(p) ==> ZeroPage(m.W(), s, p))
    ensures r.Err? ==> MapStopped(old(m.W()), m.W(), s, b.start, b.Count(), flags)
    ensures r.Err? ==> MapRefused(old(m.W()), m.W(), s, b, flags, r.error)
    ensures m.held == old(m.held) && m.roots == old(m.roots)
  {
    hide Consistent, WellLinked, View, Uses, Data, PathOf, DataPage, InHalf, ZeroPage, Zeroed, MapDone, MapStopped,
         MapRefused, WrongSide;
    ghost var w := m.W();
    HalfShape(b);
    r := MapBlock(m, s, b, flags);
    if r.Ok? && zero {
      ghost var w1 := m.W();
      forall p: nat | b.Has(p) ensures DataPage(w1, s, p) {
        DoneOwn(w, w1, s, b, flags, p);
        OwnIsData(w1, s, p);
      }
      ZeroBlock(m, s, b);
      FilledDone(w, w1, m.W(), s, b, flags);
    }
  }

  lemma DoneOwn(w: World, w': World, s: nat, b: Block, flags: Flags, p: nat)
    requires b.start <= b.end && MapDone(w, w', s, b.start, b.Count(), b.Count(), flags) && b.Has(p)
    ensures Own(w', s, p) && MappedAs(w', s, p, flags)
  {
    hide Progress, RightsKept;
    assert Own(w', s, p);
  }

  lemma HalfShape(b: Block)
    requires InHalf(b)
    ensures b.start <= b.end
  {
  }
}
