/** Copying the mapping of a block of pages, within one address space or between two. */
module BigPair {
  import opened Mmu
  import opened PageTree
  import opened FrameAllocator
  import opened World
  import opened Machine
  import opened Pages
  import opened PA = PageAllocator
  import opened AddressSpace
  import opened Rights
  import Paths
  import Mapping

  /** The flags that a page copied from one with flags `own` gets. */
  function CopyFlags(own: Flags, flags: Option<Flags>, dstFlags: Flags): Flags {
    if flags.Some? then flags.value else own + dstFlags
  }

  /** What a page that was `d` becomes when a page that is `t` is copied onto it. */
  function CopyResult(t: Translation, d: Translation, flags: Option<Flags>, dstFlags: Flags): Translation {
    if LeafFrame(t).Some? then
      Mapped(0, t.frame, CopyFlags(t.flags, flags, dstFlags) + {Present})
    else if LeafFrame(d).Some? then Unmapped
    else d
  }

  /** The page just dealt with, unmapped by now, was mapped again, with a reference to a source frame. */
  lemma ProgressAgain(w: World, w1: World, w2: World, s: nat, lo: nat, n: nat, i: nat, src: nat, from: nat, k: nat,
                      t: Translation, frame: nat)
    requires i < n && Page(lo + i) && Progress(w, w1, s, lo, n, i + 1, src, from, k)
    requires LeafFrame(PageView(w1, s, lo + i)).None?
    requires PageChanged(w1, w2, s, lo + i, t, Some(frame))
    requires LeafFrame(PageView(w, src, from + k)) == Some(frame)
    ensures Progress(w, w2, s, lo, n, i + 1, src, from, k + 1)
    ensures PageView(w2, s, lo + i) == t
  {
    hide PathOf, View, Uses;
    forall s': nat, p: nat | Page(p) && !(s' == s && lo <= p < lo + i + 1)
      ensures PageView(w2, s', p) == PageView(w, s', p)
    {
      assert PageView(w1, s', p) == PageView(w, s', p);
    }
    forall f: nat | Stays(w, s, lo, n, f)
      ensures Counted(w, w2, f, Names(w, src, from, k + 1, f) - Names(w, s, lo, i + 1, f))
      ensures Data(w, f) ==> w2.mem[f] == w.mem[f] && Uses(w2, 1, f) == 0
    {
      NamesGrow(w, s, lo, i + 1, n, f);
      assert InUse(w1, f);
      assert !Backs(w1, s, lo + i, f);
      if Data(w, f) { assert Data(w1, f); }
    }
  }

  lemma ProgressNoGain(w: World, w1: World, s: nat, lo: nat, n: nat, i: nat, src: nat, from: nat, k: nat)
    requires Progress(w, w1, s, lo, n, i, src, from, k)
    requires LeafFrame(PageView(w, src, from + k)).None?
    ensures Progress(w, w1, s, lo, n, i, src, from, k + 1)
  {
    hide PathOf, View, Uses;
    forall f: nat ensures Names(w, src, from, k + 1, f) == Names(w, src, from, k, f) {
      assert !Backs(w, src, from + k, f);
    }
  }

  /** Unmaps a page, if it is mapped. */
  method ClearPage(m: Machine, ghost w: World, s: nat, ghost lo: nat, ghost n: nat, ghost i: nat,
                   ghost src: nat, ghost from: nat, ghost k: nat, page: nat)
    requires m.Valid() && Live(m.W(), s) && page == lo + i && i < n && Page(page)
    requires Progress(w, m.W(), s, lo, n, i, src, from, k)
    modifies m`mem, m`held, m.frames
    ensures m.Valid()
    ensures Progress(w, m.W(), s, lo, n, i + 1, src, from, k)
    ensures LeafFrame(PageView(m.W(), s, page)).None?
    ensures PageView(m.W(), s, page) ==
      if LeafFrame(PageView(old(m.W()), s, page)).Some? then Unmapped else PageView(old(m.W()), s, page)
    ensures SamePages(old(m.W()), m.W(), s, page, page + 1)
    ensures RightsKept(old(m.W()), m.W(), s, page, page + 1, {})
  {
    hide Consistent, WellLinked, View, Uses, Data, PathOf, PageChanged, Progress, RightsKept;
    ghost var w1 := m.W();
    RightsKeptSelf(w1, s, page, page + 1, {});
    var r := UnmapPage(m, s, page);
    if r.Ok? {
      ProgressStep(w, w1, m.W(), s, lo, n, i, src, from, k, Unmapped, None, k);
      ChangedSame(w1, m.W(), s, page, Unmapped, None);
    } else {
      ProgressSkip(w, w1, s, lo, n, i, src, from, k, k);
    }
  }

  lemma ChangedSame(w: World, w': World, s: nat, page: nat, t: Translation, gain: Option<nat>)
    requires PageChanged(w, w', s, page, t, gain)
    ensures SamePages(w, w', s, page, page + 1)
  {
  }

  /** One round of the loop of `BigPair::copy_mapping()`. */
  method CopyPage(m: Machine, ghost w: World, src: nat, ghost from: nat, srcPage: nat, dst: nat, ghost lo: nat,
                  ghost n: nat,
                  dstPage: nat, ghost i: nat, flags: Option<Flags>, dstFlags: Flags) returns (r: Result<()>)
    requires m.Valid() && Live(m.W(), src) && Live(m.W(), dst) && Page(srcPage) && Page(dstPage)
    requires i < n && srcPage == from + i && dstPage == lo + i
    requires src == dst ==> srcPage != dstPage
    requires Progress(w, m.W(), dst, lo, n, i, src, from, i)
    requires PageView(m.W(), src, srcPage) == PageView(w, src, srcPage)
    requires (flags.Some? ==> Huge !in flags.value) && Huge !in dstFlags
    modifies m`mem, m`held, m.frames
    ensures m.Valid()
    ensures r.Ok? ==>
      && Progress(w, m.W(), dst, lo, n, i + 1, src, from, i + 1)
      && PageView(m.W(), dst, dstPage) ==
         CopyResult(PageView(w, src, srcPage), PageView(w, dst, dstPage), flags, dstFlags)
      && SamePages(old(m.W()), m.W(), dst, dstPage, dstPage + 1)
    ensures r.Ok? && LeafFrame(PageView(w, src, srcPage)).Some? ==>
      PageGranted(m.W(), dst, dstPage, CopyFlags(PageView(w, src, srcPage).flags, flags, dstFlags))
    ensures r.Ok? ==> RightsKept(old(m.W()), m.W(), dst, dstPage, dstPage + 1, FULL_ACCESS)
    ensures r.Err? ==> Progress(w, m.W(), dst, lo, n, i + 1, src, from, i)
    ensures r.Err? ==>
      PageRefused(m.W(), PageView(w, src, srcPage), PageView(w, dst, dstPage), dstPage, flags, dstFlags, r.error)
  {
    hide Consistent, WellLinked, View, Uses, Data, PathOf, PageChanged, Progress, PagePath, Find, PagesKept, RightsKept,
         PageGranted, Widened, UnderHuge, MissingNodes;
    ghost var w0 := m.W();
    ProgressPages(w, w0, dst, lo, n, i, src, from, i, dstPage);
    PathIsPagePath(m.roots, src, srcPage);
    var pte := Leaf(m, src, srcPage);
    if pte.None? || !pte.value.IsPresent() {
      ClearPage(m, w, dst, lo, n, i, src, from, i, dstPage);
      RightsKeptMore(w0, m.W(), dst, dstPage, dstPage + 1, {}, FULL_ACCESS);
      ProgressNoGain(w, m.W(), dst, lo, n, i + 1, src, from, i);
      return Ok(());
    }
    var pageFlags := CopyFlags(pte.value.flags, flags, dstFlags);
    ClearPage(m, w, dst, lo, n, i, src, from, i, dstPage);
    ghost var w1 := m.W();
    ProgressRoots(w, w0, dst, lo, n, i, src, from, i);
    ProgressRoots(w, w1, dst, lo, n, i + 1, src, from, i);
    assert PageView(w1, src, srcPage) == PageView(w0, src, srcPage);
    BackedIsNamed(w1, src, srcPage, pte.value.frame);
    UnderHugeIs(w1, dst, dstPage);
    r := MapPageToFrame(m, dst, dstPage, pte.value.frame, pageFlags);
    if r.Ok? {
      ghost var t := Mapped(0, pte.value.frame, pageFlags + {Present});
      ProgressAgain(w, w1, m.W(), dst, lo, n, i, src, from, i, t, pte.value.frame);
      ChangedSame(w1, m.W(), dst, dstPage, t, Some(pte.value.frame));
      SamePagesThen(w0, w1, m.W(), dst, dstPage);
      CopiedRights(w0, w1, m.W(), dst, dstPage, pageFlags);
    } else {
      ProgressKept(w, w1, m.W(), dst, lo, n, i + 1, src, from, i);
    }
  }

  lemma CopiedRights(w0: World, w1: World, w2: World, s: nat, page: nat, flags: Flags)
    requires RightsKept(w0, w1, s, page, page + 1, {}) && RightsKept(w1, w2, s, page, page + 1, Gains(flags))
    ensures RightsKept(w0, w2, s, page, page + 1, FULL_ACCESS)
  {
    hide RightsKept;
    RightsKeptMore(w0, w1, s, page, page + 1, {}, FULL_ACCESS);
    RightsKeptMore(w1, w2, s, page, page + 1, Gains(flags), FULL_ACCESS);
    RightsKeptAgain(w0, w1, w2, s, page, page + 1, FULL_ACCESS);
  }

  lemma RightsKeptAgain(w0: World, w1: World, w2: World, s: nat, lo: nat, hi: nat, more: Flags)
    requires RightsKept(w0, w1, s, lo, hi, more) && RightsKept(w1, w2, s, lo, hi, more)
    ensures RightsKept(w0, w2, s, lo, hi, more)
  {
    hide PageRight;
    forall s': nat, p: nat, a: Flag | Page(p) && !(s' == s && lo <= p < hi)
      ensures PageRight(w0, s', p, a) ==> PageRight(w2, s', p, a)
      ensures PageRight(w2, s', p, a) ==> PageRight(w0, s', p, a) || a in more
    {
      assert PageRight(w1, s', p, a) ==> PageRight(w0, s', p, a) || a in more;
    }
  }

  /** Why a page that is `t` could not be copied onto page `page`, which was `d`: its flags are for the other side, a
      huge page is in the way, or frames ran out, but for at most two. */
  ghost predicate PageRefused(w': World, t: Translation, d: Translation, page: nat, flags: Option<Flags>,
                              dstFlags: Flags, error: Error)
    ensures PageRefused(w', t, d, page, flags, dstFlags, error) ==> error in {PermissionDenied, Unimplemented, NoFrame}
  {
    && LeafFrame(t).Some?
    && (|| (error == PermissionDenied && IsUserPage(page) != (User in CopyFlags(t.flags, flags, dstFlags)))
        || (error == Unimplemented && d.Mapped? && d.level > 0)
        || (error == NoFrame && w'.free <= 2))
  }

  /** Why some page of the block could not be copied. */
  ghost predicate CopyRefused(w: World, w': World, src: nat, a: Block, dst: nat, b: Block, flags: Option<Flags>,
                              dstFlags: Flags, error: Error)
    ensures CopyRefused(w, w', src, a, dst, b, flags, dstFlags, error) ==>
      error in {PermissionDenied, Unimplemented, NoFrame}
  {
    a.start <= a.end && exists i: nat :: i < a.Count() && RefusedAt(w, w', src, a, dst, b, flags, dstFlags, error, i)
  }

  ghost predicate RefusedAt(w: World, w': World, src: nat, a: Block, dst: nat, b: Block, flags: Option<Flags>,
                            dstFlags: Flags, error: Error, i: nat) {
    PageRefused(w', PageView(w, src, a.start + i), PageView(w, dst, b.start + i), b.start + i, flags, dstFlags, error)
  }

  lemma SamePagesThen(w: World, w1: World, w2: World, s: nat, page: nat)
    requires SamePages(w, w1, s, page, page + 1) && SamePages(w1, w2, s, page, page + 1)
    ensures SamePages(w, w2, s, page, page + 1)
  {
    hide PathOf, View;
    forall s': nat, p: nat | Page(p) && !(s' == s && page <= p < page + 1)
      ensures PageView(w2, s', p) == PageView(w, s', p)
    {
      assert PageView(w1, s', p) == PageView(w, s', p);
    }
  }

  /** `Translate::translate()`: the leaf entry of a page, if its table exists. */
  method Leaf(m: Machine, s: nat, page: nat) returns (r: Option<Pte>)
    requires m.Valid() && PagePath(m.roots, PathOf(s, page))
    ensures r.Some? && r.value.IsPresent() ==>
      PageView(m.W(), s, page) == Mapped(0, r.value.frame, r.value.flags) && Huge !in r.value.flags
    ensures r.None? || !r.value.IsPresent() ==> LeafFrame(PageView(m.W(), s, page)).None?
  {
    hide Consistent, WellLinked, PathOf, PagePath, Find;
    var q := PathOf(s, page);
    var nodes := Paths.Walk(m, q);
    var level := Paths.DeepestPte(nodes);
    if level == LEAF_LEVEL {
      r := Some(Paths.Deref(m.mem, nodes[0].value));
      LeafNotHuge(m.W(), q);
    } else {
      r := None;
    }
  }

  lemma LeafNotHuge(w: World, q: Path)
    requires Consistent(w) && |q| == TOP + 1 && Find(w, q).level == 0
    ensures Find(w, q).pte.IsPresent() ==> Huge !in Find(w, q).pte.flags
  {
    if Find(w, q).pte.IsPresent() {
      Mapping.FoundReaches(w.mem, w.roots, TOP, q, 0);
      var n := NodeFrame(w.mem, w.roots, TOP, q, 0);
      assert At(w, q, 0, n);
      AtNode(w, q, 0, n);
      assert EntryFormed(w.mem, w.mem[n][q[0]], 0);
    }
  }

  /** The blocks share no page, or lie in different spaces. */
  predicate Separate(src: nat, a: Block, dst: nat, b: Block) {
    src != dst || a.Disjoint(b)
  }

  /** The loop of `BigPair::copy_mapping()`: page `i` of the target block becomes a copy of page `i` of the
      source block, sharing its frame; no other page changes; references add up. */
  method CopyPages(m: Machine, src: nat, a: Block, dst: nat, b: Block, flags: Option<Flags>, dstFlags: Flags)
    returns (r: Result<()>)
    requires m.Valid() && Live(m.W(), src) && Live(m.W(), dst) && InHalf(a) && InHalf(b)
    requires a.Count() == b.Count() && Separate(src, a, dst, b)
    requires (flags.Some? ==> Huge !in flags.value) && Huge !in dstFlags
    modifies m`mem, m`held, m.frames
    ensures m.Valid()
    ensures r.Ok? ==>
      && Progress(old(m.W()), m.W(), dst, b.start, b.Count(), b.Count(), src, a.start, a.Count())
      && (forall i :: 0 <= i < a.Count() ==> CopiedPage(old(m.W()), m.W(), src, a, dst, b, flags, dstFlags, i))
    ensures r.Ok? ==> RightsKept(old(m.W()), m.W(), dst, b.start, b.end, FULL_ACCESS)
    ensures r.Err? ==> Partly(old(m.W()), m.W(), dst, b.start, b.Count(), src, a.start)
    ensures r.Err? ==> CopyRefused(old(m.W()), m.W(), src, a, dst, b, flags, dstFlags, r.error)
    ensures m.held == old(m.held) && m.roots == old(m.roots)
  {
    hide Consistent, WellLinked, View, Uses, Data, PathOf, Progress, InHalf, RightsKept, PageGranted, CopiedPage,
         SamePages, PageRefused;
    ghost var w := m.W();
    var n := a.Count();
    ProgressStart(w, dst, b.start, n, src, a.start);
    RightsKeptSelf(w, dst, b.start, b.start, FULL_ACCESS);
    for i := 0 to n
      invariant m.Valid() && m.roots == w.roots && m.held == w.held
      invariant Progress(w, m.W(), dst, b.start, n, i, src, a.start, i)
      invariant forall j :: 0 <= j < i ==> CopiedPage(w, m.W(), src, a, dst, b, flags, dstFlags, j)
      invariant RightsKept(w, m.W(), dst, b.start, b.start + i, FULL_ACCESS)
    {
      ghost var w1 := m.W();
      InHalfPage(a, a.start + i);
      InHalfPage(b, b.start + i);
      SourceApart(src, a, dst, b, i);
      ProgressElsewhere(w, w1, dst, b.start, n, i, src, a.start, i, src, a.start + i);
      r := CopyPage(m, w, src, a.start, a.start + i, dst, b.start, n, b.start + i, i, flags, dstFlags);
      if r.Err? {
        ProgressRoots(w, m.W(), dst, b.start, n, i + 1, src, a.start, i);
        assert RefusedAt(w, m.W(), src, a, dst, b, flags, dstFlags, r.error, i);
        return;
      }
      ProgressRoots(w, m.W(), dst, b.start, n, i + 1, src, a.start, i + 1);
      RightsKeptThen(w, w1, m.W(), dst, b.start, b.start + i, b.start + i + 1, FULL_ACCESS);
      CopiedNext(w, m.W(), src, a, dst, b, flags, dstFlags, i);
      CopiedBefore(w, w1, m.W(), src, a, dst, b, flags, dstFlags, i);
    }
    r := Ok(());
  }

  ghost predicate CopiedPage(w: World, w': World, src: nat, a: Block, dst: nat, b: Block, flags: Option<Flags>,
                             dstFlags: Flags, i: nat) {
    && PageView(w', dst, b.start + i) ==
       CopyResult(PageView(w, src, a.start + i), PageView(w, dst, b.start + i), flags, dstFlags)
    && (LeafFrame(PageView(w, src, a.start + i)).Some? ==>
          PageGranted(w', dst, b.start + i, CopyFlags(PageView(w, src, a.start + i).flags, flags, dstFlags)))
  }

  lemma CopiedNext(w: World, w': World, src: nat, a: Block, dst: nat, b: Block, flags: Option<Flags>,
                   dstFlags: Flags, i: nat)
    requires PageView(w', dst, b.start + i) ==
             CopyResult(PageView(w, src, a.start + i), PageView(w, dst, b.start + i), flags, dstFlags)
    requires LeafFrame(PageView(w, src, a.start + i)).Some? ==>
      PageGranted(w', dst, b.start + i, CopyFlags(PageView(w, src, a.start + i).flags, flags, dstFlags))
    ensures CopiedPage(w, w', src, a, dst, b, flags, dstFlags, i)
  {
  }

  /** Copying the next page leaves the copies before it alone. */
  lemma CopiedBefore(w: World, w1: World, w2: World, src: nat, a: Block, dst: nat, b: Block, flags: Option<Flags>,
                     dstFlags: Flags, i: nat)
    requires Consistent(w2) && InHalf(b) && i < b.Count()
    requires forall j :: 0 <= j < i ==> CopiedPage(w, w1, src, a, dst, b, flags, dstFlags, j)
    requires SamePages(w1, w2, dst, b.start + i, b.start + i + 1)
    requires RightsKept(w1, w2, dst, b.start + i, b.start + i + 1, FULL_ACCESS)
    ensures forall j :: 0 <= j < i ==> CopiedPage(w, w2, src, a, dst, b, flags, dstFlags, j)
  {
    hide CopiedPage, SamePages, RightsKept, InHalf, WellFormed, Unshared, Balanced;
    forall j: nat | j < i ensures CopiedPage(w, w2, src, a, dst, b, flags, dstFlags, j) {
      InHalfPage(b, b.start + j);
      CopiedStays(w, w1, w2, src, a, dst, b, flags, dstFlags, i, j);
    }
  }

  lemma CopiedStays(w: World, w1: World, w2: World, src: nat, a: Block, dst: nat, b: Block, flags: Option<Flags>,
                    dstFlags: Flags, i: nat, j: nat)
    requires CopiedPage(w, w1, src, a, dst, b, flags, dstFlags, j) && Page(b.start + j) && j < i && ValidRoots(w2.roots)
    requires SamePages(w1, w2, dst, b.start + i, b.start + i + 1)
    requires RightsKept(w1, w2, dst, b.start + i, b.start + i + 1, FULL_ACCESS)
    ensures CopiedPage(w, w2, src, a, dst, b, flags, dstFlags, j)
  {
    hide View, PathOf, PageGranted;
    var p := b.start + j;
    assert PageView(w2, dst, p) == PageView(w1, dst, p);
    var t := PageView(w, src, a.start + j);
    if LeafFrame(t).Some? {
      GrantStays(w1, w2, dst, p, CopyFlags(t.flags, flags, dstFlags));
    }
  }

  lemma SourceApart(src: nat, a: Block, dst: nat, b: Block, i: nat)
    requires Separate(src, a, dst, b) && a.Valid() && b.Valid() && a.Count() == b.Count() && i < a.Count()
    ensures src == dst ==> !b.Has(a.start + i) && a.start + i != b.start + i
  {
    if src == dst { DisjointIsApart(a, b); }
  }

  lemma ProgressElsewhere(w: World, w': World, s: nat, lo: nat, n: nat, i: nat, src: nat, from: nat, k: nat, s': nat,
                          page: nat)
    requires Progress(w, w', s, lo, n, i, src, from, k) && Page(page) && !(s' == s && lo <= page < lo + i)
    ensures PageView(w', s', page) == PageView(w, s', page)
  {
  }

  // ---------------------------------------------------------------------------------------------
  // Changing flags in place

  /** Setting the flags of a leaf entry, present bit included, keeps the references balanced exactly when the
      entry was present or its frame is not tracked: an entry that was not present, being cleared, comes to name
      frame 0, which nobody took a reference to. */
  lemma SetLeafFlagsWhen(w: World, q: Path, n: nat, flags: Flags)
    requires Consistent(w) && At(w, q, 0, n) && Present in flags && Huge !in flags
    ensures w.mem[n][q[0]].IsPresent() || w.mem[n][q[0]].frame == 0
    ensures Redirected(w, Put(w, n, q[0], Pte(w.mem[n][q[0]].frame, flags)), q, 0, Pte(w.mem[n][q[0]].frame, flags))
    ensures var e := w.mem[n][q[0]];
      Consistent(Put(w, n, q[0], Pte(e.frame, flags))) <==> e.IsPresent() || !Tracked(w.counts, e.frame)
    ensures DataKept(w, Put(w, n, q[0], Pte(w.mem[n][q[0]].frame, flags)))
  {
    hide Count, CountAt, WellFormed, Unshared;
    var e := w.mem[n][q[0]];
    var e' := Pte(e.frame, flags);
    AtNode(w, q, 0, n);
    assert EntryFormed(w.mem, e, 0);
    hide EntryFormed;
    if e.IsPresent() {
      LeafCounted(w, n, q);
      FlagsKeep(w, q, 0, n, flags);
    } else {
      var w' := Put(w, n, q[0], e');
      NewEntry(w.mem, 0, e.frame, e');
      assert forall floor: nat, f: nat :: CountAt(w.mem, e, 0, floor, f) == 0 by { NotPresentCounts(w.mem, e, 0); }
      UsedOnce(w);
      PutKeeps(w, w', q, 0, n, e');
      assert Uses(w', 0, e.frame) == Uses(w, 0, e.frame) + 1;
      PutKeepsData(w, w', n);
      if !Tracked(w.counts, e.frame) {
        forall f: nat | f < |w'.counts| && w'.counts[f].Some? ensures Uses(w', 0, f) == Uses(w, 0, f) { }
      }
    }
  }

  lemma NotPresentCounts(mem: Memory, e: Pte, l: nat)
    requires !e.IsPresent()
    ensures forall floor: nat, f: nat :: CountAt(mem, e, l, floor, f) == 0
  {
  }

  lemma LeafCounted(w: World, n: nat, q: Path)
    requires n < |w.mem| && |q| > 0 && q[0] < ENTRY_COUNT && EntryFormed(w.mem, w.mem[n][q[0]], 0)
    ensures w.mem[n][q[0]].IsPresent() ==> w.mem[n][q[0]].Counted()
  {
  }

  /** The leaf table of page `p` of space `s` exists. */
  ghost predicate HasLeaf(w: World, s: nat, p: nat) { Find(w, PathOf(s, p)).level == LEAF_LEVEL }

  /** The frame that the leaf entry of a page names: that of the page, or frame 0 when the entry is cleared. */
  ghost function LeafName(w: World, s: nat, p: nat): nat {
    var frame := LeafFrame(PageView(w, s, p));
    if frame.Some? then frame.value else 0
  }

  /** Page `p` of space `s` is mapped, with new flags, to the frame that its leaf entry named before. */
  ghost predicate Reflagged(w: World, w': World, s: nat, p: nat, flags: Flags) {
    PageView(w', s, p) == Mapped(0, LeafName(w, s, p), flags + {Present})
  }

  /** No node came or went. */
  ghost predicate SameLeaves(w: World, w': World) {
    forall s: nat, p: nat {:trigger HasLeaf(w', s, p)} :: HasLeaf(w', s, p) <==> HasLeaf(w, s, p)
  }

  /** New flags for one page, whose leaf table must exist. A page that is not mapped becomes mapped to frame 0. */
  method RemapPage(m: Machine, s: nat, page: nat, flags: Flags) returns (r: Result<()>)
    requires m.Valid() && Live(m.W(), s) && Page(page) && Huge !in flags
    modifies m`mem
    ensures m.Valid()
    ensures r.Ok? <==> HasLeaf(old(m.W()), s, page)
    ensures r.Err? ==>
      m.W() == old(m.W()) && r.error == if PageView(m.W(), s, page).Mapped? then Unimplemented else NoPage
    ensures r.Ok? ==> Reflagged(old(m.W()), m.W(), s, page, flags)
    ensures SamePages(old(m.W()), m.W(), s, page, page + 1) && SameLeaves(old(m.W()), m.W())
    ensures DataKept(old(m.W()), m.W()) && RightsKept(old(m.W()), m.W(), s, page, page + 1, {})
    ensures WaysWidened(old(m.W()), m.W(), {})
  {
    hide Consistent, WellLinked, PathOf, PagePath, Uses, Find, RightsKept, SameLeaves, Tracks, DataKept, View,
         SamePages, WaysWidened;
    ghost var w := m.W();
    var q := PathOf(s, page);
    PathIsPagePath(m.roots, s, page);
    var nodes := Paths.Walk(m, q);
    var level := Paths.DeepestPte(nodes);
    RemapNothing(w, s, page);
    WaysSelf(w, w, {});
    if level != LEAF_LEVEL {
      NoLeafThere(w, q, level, nodes[level].value.frame);
      return Err(if Paths.Deref(m.mem, nodes[level].value).IsHuge() then Unimplemented else NoPage);
    }
    SetLeafFlags(m, s, page, nodes[0].value.frame, flags);
    r := Ok(());
  }

  /** Where a path ends above the leaf table there is a huge page, or nothing. */
  lemma NoLeafThere(w: World, q: Path, l: nat, n: nat)
    requires Consistent(w) && PagePath(w.roots, q) && At(w, q, l, n) && 0 < l == Find(w, q).level
    requires Find(w, q).pte == w.mem[n][q[l]]
    ensures w.mem[n][q[l]].IsHuge() <==> View(w, q).Mapped?
  {
    hide Consistent, At, Find;
    Paths.WalkStep(w, q, l, n);
  }

  /** Writes the flags of a leaf, whose table is in frame `n`. */
  method SetLeafFlags(m: Machine, s: nat, page: nat, n: nat, flags: Flags)
    requires m.Valid() && Live(m.W(), s) && Page(page) && Huge !in flags
    requires At(m.W(), PathOf(s, page), 0, n) && HasLeaf(m.W(), s, page)
    modifies m`mem
    ensures m.Valid() && Reflagged(old(m.W()), m.W(), s, page, flags)
    ensures SamePages(old(m.W()), m.W(), s, page, page + 1) && SameLeaves(old(m.W()), m.W())
    ensures DataKept(old(m.W()), m.W()) && RightsKept(old(m.W()), m.W(), s, page, page + 1, {})
    ensures WaysWidened(old(m.W()), m.W(), {})
  {
    hide Consistent, WellLinked, PathOf, PagePath, Uses, Find, RightsKept, SameLeaves, DataKept, At, WaysWidened;
    ghost var w := m.W();
    var q := PathOf(s, page);
    PathIsPagePath(m.roots, s, page);
    Paths.WalkStep(w, q, 0, n);
    var e := Pte(m.mem[n][q[0]].frame, flags + {Present});
    SetLeafFlagsWhen(w, q, n, flags + {Present});
    m.mem := Write(m.mem, n, q[0], e);
    LeafRedirected(w, m.W(), q, e);
    OnlyViewPages(w, m.W(), s, page);
    RedirectedLeaves(w, m.W(), q, e);
    LeafWritten(w, m.W(), q, n, e);
    LeafWays(w, m.W(), q, n, e);
    WidenedButPage(w, m.W(), s, page, {});
  }

  lemma RemapNothing(w: World, s: nat, page: nat)
    ensures SameLeaves(w, w) && DataKept(w, w) && RightsKept(w, w, s, page, page + 1, {})
    ensures SamePages(w, w, s, page, page + 1)
  {
  }

  lemma RedirectedLeaves(w: World, w': World, q: Path, e: Pte)
    requires |q| == TOP + 1 && Redirected(w, w', q, 0, e) && Find(w, q).level == 0
    ensures SameLeaves(w, w')
  {
    hide PathOf;
    forall s: nat, p: nat ensures HasLeaf(w', s, p) <==> HasLeaf(w, s, p) {
      var path := PathOf(s, p);
      assert Find(w', path) == if Agree(path, q, 0, TOP) then DeepestAt(w.mem, e, 0, path) else Find(w, path);
      if Agree(path, q, 0, TOP) { assert path == q; }
    }
  }

  /** Every page of the block is mapped as a 4 KiB page. */
  ghost predicate MappedBlock(w: World, s: nat, b: Block) {
    forall p: nat {:trigger PageView(w, s, p)} :: b.Has(p) ==> LeafFrame(PageView(w, s, p)).Some?
  }

  /** The pages are on the side that the flags are for, and the leaf tables of all of them exist. */
  ghost predicate Remappable(w: World, s: nat, b: Block, flags: Flags) {
    !WrongSide(b, flags) && forall p: nat {:trigger HasLeaf(w, s, p)} :: b.Has(p) ==> HasLeaf(w, s, p)
  }

  /** Remapping was denied, or it stopped at the first page without a leaf table, with the pages before it done. */
  ghost predicate RemapStopped(w: World, w': World, s: nat, b: Block, flags: Flags, error: Error)
    ensures RemapStopped(w, w', s, b, flags, error) ==> error in {PermissionDenied, NoPage, Unimplemented}
  {
    if WrongSide(b, flags) then w' == w && error == PermissionDenied
    else
      && error in {NoPage, Unimplemented}
      && exists k: nat {:trigger HasLeaf(w, s, k)} :: b.Has(k) && RemappedTo(w, w', s, b.start, k, flags, error)
  }

  ghost predicate RemappedTo(w: World, w': World, s: nat, lo: nat, k: nat, flags: Flags, error: Error) {
    && !HasLeaf(w, s, k) && error == (if PageView(w, s, k).Mapped? then Unimplemented else NoPage)
    && (forall p: nat {:trigger Reflagged(w, w', s, p, flags)} :: lo <= p < k ==> Reflagged(w, w', s, p, flags))
    && (forall p: nat {:trigger HasLeaf(w, s, p)} :: lo <= p < k ==> HasLeaf(w, s, p))
    && SamePages(w, w', s, lo, k)
  }

  /** `AddressSpace::remap_block()`: new flags for all pages of a block, no reference changing hands. It succeeds
      exactly when the leaf tables of all pages exist; otherwise the pages before the first without one are done. */
  method RemapBlock(m: Machine, s: nat, b: Block, flags: Flags) returns (r: Result<()>)
    requires m.Valid() && Live(m.W(), s) && InHalf(b) && Huge !in flags
    modifies m`mem
    ensures m.Valid()
    ensures r.Ok? <==> Remappable(old(m.W()), s, b, flags)
    ensures r.Ok? ==> forall p: nat {:trigger Reflagged(old(m.W()), m.W(), s, p, flags)} ::
      b.Has(p) ==> Reflagged(old(m.W()), m.W(), s, p, flags)
    ensures r.Err? ==> RemapStopped(old(m.W()), m.W(), s, b, flags, r.error)
    ensures SamePages(old(m.W()), m.W(), s, b.start, b.end) && DataKept(old(m.W()), m.W())
    // The rights of the pages done are the new flags and those of the way (see `Rights.RightIsWayAndLeaf`).
    ensures RightsKept(old(m.W()), m.W(), s, b.start, b.end, {}) && WaysWidened(old(m.W()), m.W(), {})
  {
    hide Consistent, WellLinked, PathOf, View, Uses, InHalf, HasLeaf, DataKept, RightsKept, WaysWidened;
    ghost var w := m.W();
    WaysSelf(w, w, {});
    BlockShape(b);
    DataStays(w, w, w);
    RightsKeptSelf(w, s, b.start, b.start, {});
    RightsKeptSelf(w, s, b.start, b.end, {});
    if WrongSide(b, flags) {
      return Err(PermissionDenied);
    }
    for page := b.start to b.end
      invariant m.Valid() && SameLeaves(w, m.W()) && DataKept(w, m.W()) && WaysWidened(w, m.W(), {})
      invariant forall p: nat {:trigger HasLeaf(w, s, p)} :: b.start <= p < page ==> HasLeaf(w, s, p)
      invariant forall p: nat {:trigger Reflagged(w, m.W(), s, p, flags)} ::
        b.start <= p < page ==> Reflagged(w, m.W(), s, p, flags)
      invariant SamePages(w, m.W(), s, b.start, page) && RightsKept(w, m.W(), s, b.start, page, {})
    {
      ghost var w1 := m.W();
      InHalfPage(b, page);
      assert PageView(w1, s, page) == PageView(w, s, page);
      assert HasLeaf(w1, s, page) <==> HasLeaf(w, s, page);
      r := RemapPage(m, s, page, flags);
      DataStays(w, w1, m.W());
      RightsKeptThen(w, w1, m.W(), s, b.start, page, page + 1, {});
      WaysThen(w, w1, m.W(), {});
      if r.Err? {
        RightsKeptWider(w, m.W(), s, b.start, page + 1, b.end);
        assert RemappedTo(w, m.W(), s, b.start, page, flags, r.error);
        return;
      }
      RemapStep(w, w1, m.W(), s, b, page, flags);
    }
    r := Ok(());
  }

  lemma DataStays(w: World, w1: World, w2: World)
    ensures DataKept(w, w)
    ensures w1.counts == w.counts && DataKept(w, w1) && DataKept(w1, w2) ==> DataKept(w, w2)
  {
    if w1.counts == w.counts && DataKept(w, w1) && DataKept(w1, w2) {
      KeptThen(w, w1, w2);
    }
  }

  lemma RightsKeptWider(w: World, w': World, s: nat, lo: nat, mid: nat, hi: nat)
    requires RightsKept(w, w', s, lo, mid, {}) && mid <= hi
    ensures RightsKept(w, w', s, lo, hi, {})
  {
    hide PageRight;
  }

  lemma RemapStep(w: World, w1: World, w2: World, s: nat, b: Block, page: nat, flags: Flags)
    requires InHalf(b) && b.Has(page) && SamePages(w, w1, s, b.start, page) && SameLeaves(w, w1)
    requires forall p: nat {:trigger Reflagged(w, w1, s, p, flags)} ::
      b.start <= p < page ==> Reflagged(w, w1, s, p, flags)
    requires SamePages(w1, w2, s, page, page + 1) && SameLeaves(w1, w2) && Reflagged(w1, w2, s, page, flags)
    ensures SamePages(w, w2, s, b.start, page + 1) && SameLeaves(w, w2)
    ensures forall p: nat {:trigger Reflagged(w, w2, s, p, flags)} ::
      b.start <= p < page + 1 ==> Reflagged(w, w2, s, p, flags)
  {
    hide PathOf, View, InHalf, HasLeaf;
    forall s': nat, p: nat | Page(p) && !(s' == s && b.start <= p < page + 1)
      ensures PageView(w2, s', p) == PageView(w, s', p)
    {
      assert PageView(w1, s', p) == PageView(w, s', p);
    }
    InHalfPage(b, page);
    assert PageView(w1, s, page) == PageView(w, s, page);
    forall p: nat | b.start <= p < page + 1 ensures Reflagged(w, w2, s, p, flags) {
      InHalfPage(b, p);
      if p < page {
        assert Reflagged(w, w1, s, p, flags);
        assert PageView(w2, s, p) == PageView(w1, s, p);
      }
    }
    forall s': nat, p: nat ensures HasLeaf(w2, s', p) <==> HasLeaf(w, s', p) {
      assert HasLeaf(w1, s', p) <==> HasLeaf(w, s', p);
    }
  }

  // ---------------------------------------------------------------------------------------------

  /** The checks of `BigPair::copy_mapping()` on flags. */
  predicate FlagsAllowed(flags: Option<Flags>, dstFlags: Flags) {
    flags.Some? && User !in flags.value ==> flags.value == dstFlags
  }

  /** `BigPair::copy_mapping()`. Blocks of one space may overlap only if they coincide and flags are given;
      then only the flags change. */
  method CopyMapping(m: Machine, src: nat, a: Block, dst: nat, b: Block, flags: Option<Flags>, dstFlags: Flags)
    returns (r: Result<()>)
    requires m.Valid() && Live(m.W(), src) && Live(m.W(), dst) && InHalf(a) && InHalf(b)
    requires (flags.Some? ==> Huge !in flags.value) && Huge !in dstFlags
    modifies m`mem, m`held, m.frames
    ensures m.Valid() && m.held == old(m.held) && m.roots == old(m.roots)
    ensures a.Count() != b.Count() ==> r == Err(InvalidArgument)
    ensures !Separate(src, a, dst, b) && (a != b || flags.None?) ==> r == Err(InvalidArgument)
    ensures r.Ok? ==> a.Count() == b.Count() && FlagsAllowed(flags, dstFlags)
    ensures r == Err(InvalidArgument) <==>
      a.Count() != b.Count() || (!Separate(src, a, dst, b) && (a != b || flags.None?))
    ensures r.Err? && r.error != InvalidArgument && FlagsAllowed(flags, dstFlags) ==>
      if Separate(src, a, dst, b) then CopyRefused(old(m.W()), m.W(), src, a, dst, b, flags, dstFlags, r.error)
      else flags.Some? && RemapStopped(old(m.W()), m.W(), dst, a, flags.value, r.error)
    ensures r.Ok? ==> RightsKept(old(m.W()), m.W(), dst, b.start, b.end, FULL_ACCESS)
    ensures r.Ok? && Separate(src, a, dst, b) ==>
      && Progress(old(m.W()), m.W(), dst, b.start, b.Count(), b.Count(), src, a.start, a.Count())
      && (forall i :: 0 <= i < a.Count() ==> CopiedPage(old(m.W()), m.W(), src, a, dst, b, flags, dstFlags, i))
    ensures r.Ok? && !Separate(src, a, dst, b) ==>
      && m.W() == old(m.W()).(mem := m.mem) && SamePages(old(m.W()), m.W(), dst, b.start, b.end)
      && flags.Some? && Remappable(old(m.W()), dst, b, flags.value)
      && forall p: nat {:trigger Reflagged(old(m.W()), m.W(), dst, p, flags.value)} ::
           b.Has(p) ==> Reflagged(old(m.W()), m.W(), dst, p, flags.value)
    ensures r.Err? && Separate(src, a, dst, b) ==> Partly(old(m.W()), m.W(), dst, b.start, b.Count(), src, a.start)
    ensures !Separate(src, a, dst, b) ==> DataKept(old(m.W()), m.W())
    // Arguments that are refused change nothing.
    ensures r == Err(InvalidArgument) ==> m.W() == old(m.W())
    ensures r.Err? && r.error != InvalidArgument && !FlagsAllowed(flags, dstFlags) ==>
      r.error == PermissionDenied && m.W() == old(m.W())
    ensures r.Err? && !Separate(src, a, dst, b) ==>
      m.W() == old(m.W()).(mem := m.mem) && SamePages(old(m.W()), m.W(), dst, b.start, b.end)
  {
    hide Consistent, WellLinked, PathOf, View, Uses, InHalf, Progress, HasLeaf, RightsKept, PageRefused, WrongSide;
    BlockShape(a);
    BlockShape(b);
    ProgressStart(m.W(), dst, b.start, b.Count(), src, a.start);
    DataStays(m.W(), m.W(), m.W());
    if a.Count() != b.Count() {
      return Err(InvalidArgument);
    }
    if src == dst && !a.Disjoint(b) {
      if a == b && flags.Some? {
        if User !in flags.value && flags.value != dstFlags {
          return Err(PermissionDenied);
        }
        ghost var w := m.W();
        r := RemapBlock(m, dst, a, flags.value);
        RightsKeptMore(w, m.W(), dst, b.start, b.end, {}, FULL_ACCESS);
        return;
      }
      return Err(InvalidArgument);
    }
    if flags.Some? && User !in flags.value && flags.value != dstFlags {
      return Err(PermissionDenied);
    }
    r := CopyPages(m, src, a, dst, b, flags, dstFlags);
  }

  lemma BlockShape(b: Block)
    requires InHalf(b)
    ensures b.start <= b.end
  {
  }
}
