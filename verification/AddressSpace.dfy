/** Mapping and unmapping pages and blocks of pages of an address space. */
module AddressSpace {
  import opened Mmu
  import opened Frage
  import opened PageTree
  import opened FrameAllocator
  import opened World
  import opened Machine
  import opened Pages
  import opened Rights
  import opened Clearing
  import opened PA = PageAllocator
  import Paths
  import Mapping

  const USER_START := 32 * 0x800_0000
  const USER_END := 256 * 0x800_0000

  /** `range::is_user_page()`. */
  predicate IsUserPage(page: nat) { USER_START <= page < USER_END }

  /** Space `s` is live. */
  ghost predicate Live(w: World, s: nat) { s < |w.roots| && w.roots[s].Counted() }

  // ---------------------------------------------------------------------------------------------
  // Comparing the page maps of two states

  /** Only pages `lo .. hi` of space `s` may have changed. */
  ghost predicate SamePages(w: World, w': World, s: nat, lo: nat, hi: nat) {
    forall s': nat, p: nat {:trigger PageView(w', s', p)} ::
      Page(p) && !(s' == s && lo <= p < hi) ==> PageView(w', s', p) == PageView(w, s', p)
  }

  lemma OnlyViewPages(w: World, w': World, s: nat, page: nat)
    requires Page(page) && OnlyView(w, w', PathOf(s, page))
    ensures SamePages(w, w', s, page, page + 1)
  {
    hide View;
    forall s': nat, p: nat | Page(p) && !(s' == s && page <= p < page + 1)
      ensures PageView(w', s', p) == PageView(w, s', p)
    {
      if PathOf(s', p) == PathOf(s, page) { PathInjective(s', p, s, page); }
    }
  }

  /** How often pages `start .. start + n` of space `s` are mapped to frame `f`. */
  ghost function Names(w: World, s: nat, start: nat, n: nat, f: nat): nat {
    if n == 0 then 0
    else Names(w, s, start, n - 1, f) + if Backs(w, s, start + n - 1, f) then 1 else 0
  }

  /** Frame `f` backs page `page` of space `s`. */
  ghost predicate Backs(w: World, s: nat, page: nat, f: nat) {
    LeafFrame(PageView(w, s, page)) == Some(f)
  }

  lemma {:induction false} NamesGrow(w: World, s: nat, start: nat, i: nat, n: nat, f: nat)
    requires i <= n
    ensures Names(w, s, start, i, f) <= Names(w, s, start, n, f)
    decreases n
  {
    hide Backs;
    if i < n { NamesGrow(w, s, start, i, n - 1, f); }
  }

  lemma {:induction false} NamesSame(w: World, w': World, s: nat, start: nat, n: nat, f: nat)
    requires forall p: nat {:trigger PageView(w', s, p)} :: start <= p < start + n ==>
      PageView(w', s, p) == PageView(w, s, p)
    ensures Names(w', s, start, n, f) == Names(w, s, start, n, f)
    decreases n
  {
    hide View, PathOf;
    if n > 0 {
      NamesSame(w, w', s, start, n - 1, f);
      assert PageView(w', s, start + n - 1) == PageView(w, s, start + n - 1);
    }
  }

  /** Pages that are not mapped name nothing. */
  lemma {:induction false} NamesNothing(w: World, s: nat, start: nat, n: nat, f: nat)
    requires forall p: nat {:trigger PageView(w, s, p)} :: start <= p < start + n ==> LeafFrame(PageView(w, s, p)).None?
    ensures Names(w, s, start, n, f) == 0
    decreases n
  {
    hide View, PathOf;
    if n > 0 {
      NamesNothing(w, s, start, n - 1, f);
      assert LeafFrame(PageView(w, s, start + n - 1)).None?;
    }
  }

  /** The count of frame `f`, in use, changed by `delta`. */
  ghost predicate Counted(w: World, w': World, f: nat, delta: int) {
    && (Tracked(w.counts, f) <==> Tracked(w'.counts, f))
    && (Tracked(w.counts, f) ==> w'.counts[f].value == w.counts[f].value + delta)
  }

  ghost predicate InUse(w: World, f: nat) { Tracked(w.counts, f) ==> w.counts[f].value > 0 }

  /** A mapped page names its frame. */
  lemma BackedIsNamed(w: World, s: nat, page: nat, f: nat)
    requires Consistent(w) && Backs(w, s, page, f)
    ensures Uses(w, 0, f) > 0 && InUse(w, f)
  {
    var q := PathOf(s, page);
    Mapping.FoundReaches(w.mem, w.roots, TOP, q, 0);
    var n := NodeFrame(w.mem, w.roots, TOP, q, 0);
    assert At(w, q, 0, n);
    AtNode(w, q, 0, n);
    assert EntryFormed(w.mem, w.mem[n][q[0]], 0);
    EntryNames(w.mem, w.roots, TOP, q, 0);
    NamedHasCount(w, f);
  }

  // ---------------------------------------------------------------------------------------------
  // Rights of pages

  /** Page `page` of space `s` may be accessed by right `a`. */
  ghost predicate PageRight(w: World, s: nat, page: nat, a: Flag) { Right(w, PathOf(s, page), a) }

  /** Of the access rights the page has exactly those in `flags`. */
  ghost predicate PageGranted(w: World, s: nat, page: nat, flags: Flags) { Granted(w, PathOf(s, page), flags) }

  /** What other pages may gain when a page is mapped with these flags. */
  function Gains(flags: Flags): Flags { flags * FULL_ACCESS + {Present} }

  /** Pages other than `lo .. hi` of space `s` have lost no right, and gained none but those in `more`. */
  ghost predicate RightsKept(w: World, w': World, s: nat, lo: nat, hi: nat, more: Flags) {
    forall s': nat, p: nat, a: Flag {:trigger PageRight(w', s', p, a)} :: Page(p) && !(s' == s && lo <= p < hi) ==>
      && (PageRight(w, s', p, a) ==> PageRight(w', s', p, a))
      && (PageRight(w', s', p, a) ==> PageRight(w, s', p, a) || a in more)
  }

  lemma WidenedButPage(w: World, w': World, s: nat, page: nat, more: Flags)
    requires Page(page) && WidenedBut(w, w', PathOf(s, page), more)
    ensures RightsKept(w, w', s, page, page + 1, more)
  {
    hide Right, PathOf;
    forall s': nat, p: nat, a: Flag | Page(p) && !(s' == s && page <= p < page + 1)
      ensures PageRight(w, s', p, a) ==> PageRight(w', s', p, a)
      ensures PageRight(w', s', p, a) ==> PageRight(w, s', p, a) || a in more
    {
      if PathOf(s', p) == PathOf(s, page) { PathInjective(s', p, s, page); }
    }
  }

  lemma WidenedPages(w: World, w': World, s: nat, lo: nat, hi: nat, more: Flags)
    requires Widened(w, w', more)
    ensures RightsKept(w, w', s, lo, hi, more)
  {
    hide Right, PathOf;
  }

  lemma RightsKeptThen(w: World, w1: World, w2: World, s: nat, lo: nat, mid: nat, hi: nat, more: Flags)
    requires RightsKept(w, w1, s, lo, mid, more) && RightsKept(w1, w2, s, mid, hi, more) && lo <= mid <= hi
    ensures RightsKept(w, w2, s, lo, hi, more)
  {
    hide PageRight;
    forall s': nat, p: nat, a: Flag | Page(p) && !(s' == s && lo <= p < hi)
      ensures PageRight(w, s', p, a) ==> PageRight(w2, s', p, a)
      ensures PageRight(w2, s', p, a) ==> PageRight(w, s', p, a) || a in more
    {
      assert PageRight(w1, s', p, a) ==> PageRight(w, s', p, a) || a in more;
    }
  }

  lemma RightsKeptMore(w: World, w': World, s: nat, lo: nat, hi: nat, more: Flags, most: Flags)
    requires RightsKept(w, w', s, lo, hi, more) && more <= most
    ensures RightsKept(w, w', s, lo, hi, most)
  {
    hide PageRight;
  }

  lemma RightsKeptSelf(w: World, s: nat, lo: nat, hi: nat, more: Flags)
    ensures RightsKept(w, w, s, lo, hi, more)
  {
  }

  /** Every right of a page is one of its flags. */
  lemma RightIsFlag(w: World, s: nat, page: nat, a: Flag)
    requires ValidRoots(w.roots) && PageRight(w, s, page, a)
    ensures PageView(w, s, page).Mapped? && a in PageView(w, s, page).flags
  {
    GrantsDeepest(w.mem, Below(w.mem, w.roots[s]), ROOT_LEVEL, PathOf(s, page), a);
  }

  /** A page that stays mapped as it was and loses no right keeps the rights it was granted. */
  lemma GrantStays(w: World, w': World, s: nat, page: nat, flags: Flags)
    requires ValidRoots(w'.roots) && PageGranted(w, s, page, flags) && PageView(w', s, page) == PageView(w, s, page)
    requires PageView(w, s, page).Mapped? && PageView(w, s, page).flags == flags + {Present}
    requires forall a: Flag {:trigger PageRight(w', s, page, a)} ::
      PageRight(w, s, page, a) ==> PageRight(w', s, page, a)
    ensures PageGranted(w', s, page, flags)
  {
    hide Granted, PathOf, View;
    var q := PathOf(s, page);
    GrantedEach(w, q, flags);
    GrantedEach(w', q, flags);
    forall a: Flag | a in FULL_ACCESS ensures Right(w', q, a) <==> a in flags + {Present} {
      assert PageRight(w', s, page, a) == Right(w', q, a) && PageRight(w, s, page, a) == Right(w, q, a);
      if PageRight(w', s, page, a) { RightIsFlag(w', s, page, a); }
    }
  }

  /** A page keeps the rights it was granted, when others are mapped with the same flags. */
  lemma StaysGranted(w: World, w': World, s: nat, lo: nat, hi: nat, page: nat, flags: Flags, more: Flags)
    requires RightsKept(w, w', s, lo, hi, more) && more <= Gains(flags) && PageGranted(w, s, page, flags)
    requires Page(page) && !(lo <= page < hi)
    ensures PageGranted(w', s, page, flags)
  {
    hide Right, PathOf, Granted;
    var q := PathOf(s, page);
    GrantedEach(w, q, flags);
    GrantedEach(w', q, flags);
    forall a: Flag | a in FULL_ACCESS ensures Right(w', q, a) <==> a in flags + {Present} {
      assert PageRight(w', s, page, a) == Right(w', q, a) && PageRight(w, s, page, a) == Right(w, q, a);
      assert a in Gains(flags) ==> a in flags + {Present};
    }
  }

  // ---------------------------------------------------------------------------------------------
  // Pages

  /** A huge page is in the way of page `page`. */
  ghost predicate UnderHuge(w: World, s: nat, page: nat) { Find(w, PathOf(s, page)).pte.IsHuge() }

  /** How many nodes are missing on the path to the page. */
  ghost function MissingNodes(w: World, s: nat, page: nat): nat { Find(w, PathOf(s, page)).level }

  /** Page `page` of space `s` now is `t`; other pages are as before. Frame `gain`, if any, has a new
      reference, the old frame of the page, if it had one, has lost one. */
  ghost predicate PageChanged(w: World, w': World, s: nat, page: nat, t: Translation, gain: Option<nat>) {
    && PageView(w', s, page) == t && SamePages(w, w', s, page, page + 1)
    && w'.held == w.held && w'.roots == w.roots
    && DataKept(w, w')
    && forall f: nat {:trigger InUse(w, f)} :: InUse(w, f) ==>
         Counted(w, w', f, (if gain.Some? && gain.value == f then 1 else 0) - (if Backs(w, s, page, f) then 1 else 0))
  }

  /** No page changed, and no frame in use. */
  ghost predicate PagesKept(w: World, w': World) {
    && (forall s: nat, p: nat {:trigger PageView(w', s, p)} :: PageView(w', s, p) == PageView(w, s, p))
    && w'.held == w.held && w'.roots == w.roots
    && DataKept(w, w')
    && forall f: nat {:trigger InUse(w, f)} :: InUse(w, f) ==> Counted(w, w', f, 0)
  }

  lemma PagesKeptSelf(w: World)
    ensures PagesKept(w, w)
  {
  }

  /** Taking a reference and then mapping with it. */
  lemma MappedWith(w: World, w1: World, w': World, s: nat, page: nat, frame: nat, t: Translation)
    requires Page(page) && InUse(w, frame)
    requires w1 == w.(counts := Acquire(w.counts, frame), held := w.held + multiset{frame})
    requires Paths.Remapped(w1, w', PathOf(s, page), t) && w'.held == w1.held - multiset{frame}
    ensures PageChanged(w, w', s, page, t, Some(frame))
  {
    hide PathOf;
    var q := PathOf(s, page);
    assert View(w1, q) == View(w, q);
    forall p: Path | |p| == TOP + 1 && p != q ensures View(w', p) == View(w, p) {
      assert View(w1, p) == View(w, p);
    }
    OnlyViewPages(w, w', s, page);
    forall f: nat | Data(w, f) ensures w'.mem[f] == w.mem[f] && Uses(w', 1, f) == 0 {
      assert Data(w1, f);
    }
  }

  lemma MappingFailed(w: World, w1: World, w': World, frame: nat)
    requires InUse(w, frame)
    requires w1 == w.(counts := Acquire(w.counts, frame), held := w.held + multiset{frame})
    requires Paths.Failed(w1, w', frame) && w'.held == w1.held - multiset{frame} && w'.roots == w.roots
    ensures PagesKept(w, w')
  {
    hide PathOf;
    forall p: Path | |p| == TOP + 1 ensures View(w', p) == View(w, p) {
      assert View(w1, p) == View(w, p);
    }
    forall f: nat | Data(w, f) ensures w'.mem[f] == w.mem[f] && Uses(w', 1, f) == 0 {
      assert Data(w1, f);
    }
  }

  /** `AddressSpace::map_page_to_frame()`. */
  method MapPageToFrame(m: Machine, s: nat, page: nat, frame: nat, flags: Flags) returns (r: Result<()>)
    requires m.Valid() && Live(m.W(), s) && Page(page) && Huge !in flags && InUse(m.W(), frame)
    modifies m`mem, m`held, m.frames
    ensures m.Valid()
    ensures r.Ok? ==> PageChanged(old(m.W()), m.W(), s, page, Mapped(0, frame, flags + {Present}), Some(frame))
    ensures r.Err? ==> PagesKept(old(m.W()), m.W())
    ensures r.Ok? <==>
      && IsUserPage(page) == (User in flags) && !UnderHuge(old(m.W()), s, page)
      && MissingNodes(old(m.W()), s, page) <= old(m.W()).free
    ensures r.Err? && r.error == PermissionDenied <==> IsUserPage(page) != (User in flags)
    ensures r.Err? && r.error != PermissionDenied ==>
      r.error == if UnderHuge(old(m.W()), s, page) then Unimplemented else NoFrame
    ensures r.Ok? ==>
      PageGranted(m.W(), s, page, flags) && RightsKept(old(m.W()), m.W(), s, page, page + 1, Gains(flags))
    ensures r.Err? ==> Widened(old(m.W()), m.W(), Gains(flags))
    ensures r.Err? && r.error == NoFrame ==> m.W().free <= 1
  {
    hide Consistent, WellLinked, Find, View, Uses, Data, PathOf, PagePath, Paths.Remapped, Paths.Failed, PageChanged,
         PagesKept, Widened, WidenedBut, Granted, RightsKept;
    ghost var w := m.W();
    WidenedSelf(w, w, Gains(flags));
    if IsUserPage(page) != (User in flags) {
      PagesKeptSelf(w);
      return Err(PermissionDenied);
    }
    PathIsPagePath(m.roots, s, page);
    m.ReferenceFrame(frame);
    ghost var w1 := m.W();
    WidenedSelf(w, w1, Gains(flags));
    SameMissing(w, w1, s, page);
    r := Paths.MapPath(m, PathOf(s, page), frame, flags);
    if r.Ok? {
      assert m.roots == w.roots;
      MappedWith(w, w1, m.W(), s, page, frame, Mapped(0, frame, flags + {Present}));
      WidenedButThen(w, w1, m.W(), PathOf(s, page), Gains(flags));
      WidenedButPage(w, m.W(), s, page, Gains(flags));
    } else {
      MappingFailed(w, w1, m.W(), frame);
      WidenedThen(w, w1, m.W(), Gains(flags));
    }
  }

  lemma SameMissing(w: World, w': World, s: nat, page: nat)
    requires w'.mem == w.mem && w'.roots == w.roots
    ensures UnderHuge(w', s, page) == UnderHuge(w, s, page) && MissingNodes(w', s, page) == MissingNodes(w, s, page)
  {
  }

  /** `AddressSpace::unmap_page()`. */
  method UnmapPage(m: Machine, s: nat, page: nat) returns (r: Result<()>)
    requires m.Valid() && Live(m.W(), s) && Page(page)
    modifies m`mem, m`held, m.frames
    ensures m.Valid()
    ensures r.Ok? <==> LeafFrame(PageView(old(m.W()), s, page)).Some?
    ensures r.Ok? ==> PageChanged(old(m.W()), m.W(), s, page, Unmapped, None)
    ensures r.Err? ==>
      m.W() == old(m.W()) && r.error == if PageView(m.W(), s, page).Mapped? then Unimplemented else NoPage
    ensures r.Ok? ==> RightsKept(old(m.W()), m.W(), s, page, page + 1, {})
  {
    hide Consistent, WellLinked, Find, View, Uses, Data, PathOf, PagePath, Paths.Remapped, PageChanged, WidenedBut,
         RightsKept, Right;
    ghost var w := m.W();
    PathIsPagePath(m.roots, s, page);
    r := Paths.UnmapPath(m, PathOf(s, page));
    if r.Ok? {
      UnmappedPage(w, m.W(), s, page);
      WidenedButPage(w, m.W(), s, page, {});
    }
  }

  lemma UnmappedPage(w: World, w': World, s: nat, page: nat)
    requires Page(page) && Paths.Remapped(w, w', PathOf(s, page), Unmapped) && w'.held == w.held
    ensures PageChanged(w, w', s, page, Unmapped, None)
  {
    hide PathOf;
    OnlyViewPages(w, w', s, page);
  }

  /** `AddressSpace::map_page()`: the page is mapped to a frame that was free. */
  method MapPage(m: Machine, s: nat, page: nat, flags: Flags) returns (r: Result<nat>)
    requires m.Valid() && Live(m.W(), s) && Page(page) && Huge !in flags
    modifies m`mem, m`held, m.frames
    ensures m.Valid()
    ensures r.Ok? ==>
      && r.value < |old(m.W()).counts| && old(m.W()).counts[r.value] == Some(0)
      && PageChanged(old(m.W()), m.W(), s, page, Mapped(0, r.value, flags + {Present}), None)
      && Data(m.W(), r.value)
      && PageGranted(m.W(), s, page, flags) && RightsKept(old(m.W()), m.W(), s, page, page + 1, Gains(flags))
    ensures r.Err? ==> PagesKept(old(m.W()), m.W()) && Widened(old(m.W()), m.W(), Gains(flags))
    ensures r.Ok? <==>
      && IsUserPage(page) == (User in flags) && !UnderHuge(old(m.W()), s, page)
      && MissingNodes(old(m.W()), s, page) < old(m.W()).free
    ensures r.Err? ==>
      r.error == if old(m.W()).free == 0 then NoFrame else if IsUserPage(page) != (User in flags) then PermissionDenied
                 else if UnderHuge(old(m.W()), s, page) then Unimplemented else NoFrame
    ensures r.Err? && r.error == NoFrame ==> m.W().free <= 2
  {
    hide Consistent, WellLinked, View, Uses, Data, PageChanged, PagesKept, Widened, RightsKept, PageGranted, Gains,
         UnderHuge, MissingNodes, IsUserPage, Tracks;
    ghost var w := m.W();
    PagesKeptSelf(w);
    WidenedSelf(w, w, Gains(flags));
    var frame := m.AllocateFrame();
    if frame.None? {
      return Err(NoFrame);
    }
    ghost var w1 := m.W();
    SameMissing(w, w1, s, page);
    var mapped := MapPageToFrame(m, s, page, frame.value, flags);
    ghost var w2 := m.W();
    StillHeld(w, w1, w2, s, page, frame.value, flags, mapped.Ok?);
    m.DropGuard(frame.value);
    FreshRights(w, w1, w2, m.W(), s, page, flags, mapped.Ok?);
    if mapped.Err? {
      FreshDropped(w, w1, w2, m.W(), frame.value);
      return Err(mapped.error);
    }
    FreshMapped(w, w1, w2, m.W(), s, page, frame.value, Mapped(0, frame.value, flags + {Present}));
    FreshIsData(w, w1, w2, m.W(), s, page, frame.value, flags);
    r := Ok(frame.value);
  }

  /** Rights depend on the trees only. */
  lemma FreshRights(w: World, w1: World, w2: World, w3: World, s: nat, page: nat, flags: Flags, ok: bool)
    requires w1.mem == w.mem && w1.roots == w.roots && w3.mem == w2.mem && w3.roots == w2.roots
    requires if ok then PageGranted(w2, s, page, flags) && RightsKept(w1, w2, s, page, page + 1, Gains(flags))
      else Widened(w1, w2, Gains(flags))
    ensures if ok then PageGranted(w3, s, page, flags) && RightsKept(w, w3, s, page, page + 1, Gains(flags))
      else Widened(w, w3, Gains(flags))
  {
    hide PathOf;
    forall p: Path, a: Flag | |p| == TOP + 1
      ensures Right(w1, p, a) == Right(w, p, a) && Right(w3, p, a) == Right(w2, p, a) { }
    if ok {
      GrantedEach(w2, PathOf(s, page), flags);
      GrantedEach(w3, PathOf(s, page), flags);
      forall s': nat, p: nat, a: Flag
        ensures PageRight(w1, s', p, a) == PageRight(w, s', p, a)
        ensures PageRight(w3, s', p, a) == PageRight(w2, s', p, a) { }
    }
  }

  lemma StillHeld(w: World, w1: World, w2: World, s: nat, page: nat, frame: nat, flags: Flags, ok: bool)
    requires frame < |w.counts| && w.counts[frame] == Some(0) && w.free > 0 && w1 == TakeFrame(w, frame)
    requires if ok then PageChanged(w1, w2, s, page, Mapped(0, frame, flags + {Present}), Some(frame))
      else PagesKept(w1, w2)
    ensures frame in w2.held
  {
  }

  /** A free frame that was taken and mapped is no node. */
  lemma FreshIsData(w: World, w1: World, w2: World, w3: World, s: nat, page: nat, frame: nat, flags: Flags)
    requires Consistent(w) && Consistent(w3)
    requires frame < |w.counts| && w.counts[frame] == Some(0) && w.free > 0 && w1 == TakeFrame(w, frame)
    requires PageChanged(w1, w2, s, page, Mapped(0, frame, flags + {Present}), Some(frame))
    requires Dropped(w2, w3, Some(frame))
    ensures Data(w3, frame)
  {
    hide PathOf, View, SamePages;
    FreeIsUnused(w, frame);
    assert Uses(w1, 1, frame) == Uses(w, 1, frame);
    assert Data(w1, frame);
    assert Uses(w3, 1, frame) == Uses(w2, 1, frame);
    assert PageView(w3, s, page) == PageView(w2, s, page) by { SameTrees(w2, w3, s, page); }
    assert Backs(w3, s, page, frame);
    BackedIsNamed(w3, s, page, frame);
  }

  lemma SameTrees(w: World, w': World, s: nat, page: nat)
    requires w'.mem == w.mem && w'.roots == w.roots
    ensures PageView(w', s, page) == PageView(w, s, page)
  {
  }

  /** A free frame was taken and nothing came of it. */
  lemma FreshDropped(w: World, w1: World, w2: World, w3: World, frame: nat)
    requires frame < |w.counts| && w.counts[frame] == Some(0) && w.free > 0 && w1 == TakeFrame(w, frame)
    requires PagesKept(w1, w2) && Dropped(w2, w3, Some(frame))
    ensures PagesKept(w, w3)
  {
    hide PathOf;
    FreshFrames(w, w1, frame);
    forall s: nat, p: nat ensures PageView(w3, s, p) == PageView(w, s, p) {
      assert PageView(w1, s, p) == PageView(w, s, p) && PageView(w3, s, p) == PageView(w2, s, p);
    }
    forall f: nat | InUse(w, f) ensures Counted(w, w3, f, 0) { assert InUse(w1, f); }
    forall f: nat | Data(w, f) ensures w3.mem[f] == w.mem[f] && Uses(w3, 1, f) == 0 { assert Data(w1, f); }
  }

  lemma FreshFrames(w: World, w1: World, frame: nat)
    requires frame < |w.counts| && w.counts[frame] == Some(0) && w.free > 0 && w1 == TakeFrame(w, frame)
    ensures forall f: nat :: InUse(w, f) ==> f != frame && InUse(w1, f)
    ensures forall f: nat {:trigger Data(w1, f)} :: Data(w, f) ==> f != frame && Data(w1, f)
  {
    forall f: nat | Data(w, f) ensures f != frame && Data(w1, f) {
      assert Uses(w1, 1, f) == Uses(w, 1, f);
    }
  }

  /** A free frame was taken, mapped, and its guard dropped. */
  lemma FreshMapped(w: World, w1: World, w2: World, w3: World, s: nat, page: nat, frame: nat, t: Translation)
    requires frame < |w.counts| && w.counts[frame] == Some(0) && w.free > 0 && w1 == TakeFrame(w, frame)
    requires PageChanged(w1, w2, s, page, t, Some(frame)) && Dropped(w2, w3, Some(frame))
    ensures PageChanged(w, w3, s, page, t, None)
  {
    hide PathOf;
    FreshFrames(w, w1, frame);
    forall s': nat, p: nat
      ensures PageView(w1, s', p) == PageView(w, s', p) && PageView(w3, s', p) == PageView(w2, s', p) { }
    forall f: nat | InUse(w, f) ensures Counted(w, w3, f, if Backs(w, s, page, f) then -1 else 0) {
      assert InUse(w1, f);
      assert Backs(w1, s, page, f) == Backs(w, s, page, f);
    }
    forall f: nat | Data(w, f) ensures w3.mem[f] == w.mem[f] && Uses(w3, 1, f) == 0 { assert Data(w1, f); }
  }

  // ---------------------------------------------------------------------------------------------
  // Blocks

  /** Frame `f` keeps a reference even when pages `lo .. lo + n` of space `s` are unmapped. */
  ghost predicate Stays(w: World, s: nat, lo: nat, n: nat, f: nat) {
    Tracked(w.counts, f) ==> w.counts[f].value > Names(w, s, lo, n, f)
  }

  /** Of pages `lo .. lo + n` of space `s`, the first `i` were dealt with, and references were taken for
      the frames of pages `from .. from + k` of space `src`. */
  ghost predicate Progress(w: World, w': World, s: nat, lo: nat, n: nat, i: nat, src: nat, from: nat, k: nat) {
    && SamePages(w, w', s, lo, lo + i)
    && w'.held == w.held && w'.roots == w.roots && |w'.mem| == |w.mem|
    && forall f: nat {:trigger Stays(w, s, lo, n, f)} :: Stays(w, s, lo, n, f) ==>
         && Counted(w, w', f, Names(w, src, from, k, f) - Names(w, s, lo, i, f))
         && (Data(w, f) ==> w'.mem[f] == w.mem[f] && Uses(w', 1, f) == 0)
  }

  lemma ProgressStart(w: World, s: nat, lo: nat, n: nat, src: nat, from: nat)
    ensures Progress(w, w, s, lo, n, 0, src, from, 0)
  {
  }

  /** The next page was changed. */
  lemma ProgressStep(w: World, w1: World, w2: World, s: nat, lo: nat, n: nat, i: nat, src: nat, from: nat, k: nat,
                     t: Translation, gain: Option<nat>, k': nat)
    requires i < n && Page(lo + i) && Progress(w, w1, s, lo, n, i, src, from, k)
    requires PageChanged(w1, w2, s, lo + i, t, gain)
    requires if gain.Some? then k' == k + 1 && LeafFrame(PageView(w, src, from + k)) == gain else k' == k
    ensures Progress(w, w2, s, lo, n, i + 1, src, from, k')
    ensures PageView(w2, s, lo + i) == t
  {
    hide PathOf, View, Uses;
    assert PageView(w1, s, lo + i) == PageView(w, s, lo + i);
    forall s': nat, p: nat | Page(p) && !(s' == s && lo <= p < lo + i + 1)
      ensures PageView(w2, s', p) == PageView(w, s', p)
    {
      assert PageView(w1, s', p) == PageView(w, s', p);
    }
    forall f: nat | Stays(w, s, lo, n, f)
      ensures Counted(w, w2, f, Names(w, src, from, k', f) - Names(w, s, lo, i + 1, f))
      ensures Data(w, f) ==> w2.mem[f] == w.mem[f] && Uses(w2, 1, f) == 0
    {
      NamesGrow(w, s, lo, i, n, f);
      assert InUse(w1, f);
      assert Backs(w1, s, lo + i, f) == Backs(w, s, lo + i, f);
      if Data(w, f) { assert Data(w1, f); }
    }
  }

  /** The next page was left as it was, being unmapped. */
  lemma ProgressSkip(w: World, w1: World, s: nat, lo: nat, n: nat, i: nat, src: nat, from: nat, k: nat, k': nat)
    requires i < n && Page(lo + i) && Progress(w, w1, s, lo, n, i, src, from, k)
    requires LeafFrame(PageView(w1, s, lo + i)).None?
    requires k' == k || (k' == k + 1 && LeafFrame(PageView(w, src, from + k)).None?)
    ensures Progress(w, w1, s, lo, n, i + 1, src, from, k')
  {
    hide PathOf, View, Uses;
    assert PageView(w1, s, lo + i) == PageView(w, s, lo + i);
    forall f: nat | Stays(w, s, lo, n, f)
      ensures Counted(w, w1, f, Names(w, src, from, k', f) - Names(w, s, lo, i + 1, f))
    {
      assert !Backs(w, s, lo + i, f);
    }
  }

  /** Nothing that matters happened after all. */
  lemma ProgressKept(w: World, w1: World, w2: World, s: nat, lo: nat, n: nat, i: nat, src: nat, from: nat, k: nat)
    requires i <= n && Progress(w, w1, s, lo, n, i, src, from, k) && PagesKept(w1, w2)
    ensures Progress(w, w2, s, lo, n, i, src, from, k)
  {
    hide PathOf, View, Uses;
    forall s': nat, p: nat | Page(p) && !(s' == s && lo <= p < lo + i)
      ensures PageView(w2, s', p) == PageView(w, s', p)
    {
      assert PageView(w1, s', p) == PageView(w, s', p);
    }
    forall f: nat | Stays(w, s, lo, n, f)
      ensures Counted(w, w2, f, Names(w, src, from, k, f) - Names(w, s, lo, i, f))
      ensures Data(w, f) ==> w2.mem[f] == w.mem[f] && Uses(w2, 1, f) == 0
    {
      NamesGrow(w, s, lo, i, n, f);
      assert InUse(w1, f);
      if Data(w, f) { assert Data(w1, f); }
    }
  }

  /** An operation on block `b` of space `s` stopped part-way: some of its first pages were dealt with, and references
      were taken for no more pages of the source than that. */
  ghost predicate Partly(w: World, w': World, s: nat, lo: nat, n: nat, src: nat, from: nat) {
    exists i: nat, k: nat {:trigger Progress(w, w', s, lo, n, i, src, from, k)} ::
      k <= i <= n && Progress(w, w', s, lo, n, i, src, from, k)
  }

  /** Mapping pages `lo .. lo + n` stopped: the first of them are mapped, and no reference was taken but for these. */
  ghost predicate MapStopped(w: World, w': World, s: nat, lo: nat, n: nat, flags: Flags) {
    exists i: nat {:trigger Progress(w, w', s, lo, n, i, s, 0, 0)} ::
      && i <= n && Progress(w, w', s, lo, n, i, s, 0, 0) && RightsKept(w, w', s, lo, lo + i, Gains(flags))
      && forall p: nat {:trigger MappedAs(w', s, p, flags)} :: lo <= p < lo + i ==> MappedAs(w', s, p, flags)
  }

  /** Unmapping pages `lo .. lo + n` stopped: the first of them are unmapped, and the next one never was mapped. */
  ghost predicate UnmapStopped(w: World, w': World, s: nat, lo: nat, n: nat) {
    exists i: nat {:trigger Progress(w, w', s, lo, n, i, s, 0, 0)} ::
      && i <= n && Progress(w, w', s, lo, n, i, s, 0, 0)
      && (i < n && w' != w ==> LeafFrame(PageView(w, s, lo + i)).None?)
      && forall p: nat {:trigger PageView(w', s, p)} :: lo <= p < lo + i ==> PageView(w', s, p) == Unmapped
  }

  lemma PartIsPartly(w: World, w': World, s: nat, lo: nat, n: nat, flags: Flags)
    ensures MapStopped(w, w', s, lo, n, flags) ==> Partly(w, w', s, lo, n, s, 0)
    ensures UnmapStopped(w, w', s, lo, n) ==> Partly(w, w', s, lo, n, s, 0)
  {
    hide Progress, MappedAs;
  }

  lemma MappedNone(w: World, s: nat, lo: nat, n: nat, flags: Flags)
    ensures MapStopped(w, w, s, lo, n, flags) && UnmapStopped(w, w, s, lo, n)
  {
    ProgressStart(w, s, lo, n, s, 0);
    hide Progress;
    assert RightsKept(w, w, s, lo, lo + 0, Gains(flags));
  }

  /** Pages outside `lo .. hi` of space `s` that hold data have the data that they had. */
  ghost predicate WordsKept(w: World, w': World, s: nat, lo: nat, hi: nat) {
    forall s': nat, p: nat, f: nat {:trigger Backs(w, s', p, f)} ::
      Page(p) && !(s' == s && lo <= p < hi) && Backs(w, s', p, f) && Data(w, f) ==>
      Backs(w', s', p, f) && Data(w', f) && w'.mem[f] == w.mem[f]
  }

  lemma WordsStep(w: World, w1: World, w2: World, s: nat, lo: nat, page: nat, t: Translation, gain: Option<nat>)
    requires Consistent(w2) && lo <= page && WordsKept(w, w1, s, lo, page) && PageChanged(w1, w2, s, page, t, gain)
    ensures WordsKept(w, w2, s, lo, page + 1)
  {
    hide PathOf, View, Uses;
    forall s': nat, p: nat, f: nat |
      Page(p) && !(s' == s && lo <= p < page + 1) && Backs(w, s', p, f) && Data(w, f)
      ensures Backs(w2, s', p, f) && Data(w2, f) && w2.mem[f] == w.mem[f]
    {
      assert Backs(w1, s', p, f) && Data(w1, f);
      assert PageView(w2, s', p) == PageView(w1, s', p);
      BackedIsNamed(w2, s', p, f);
    }
  }

  /** `AddressSpace::unmap_block()`: succeeds exactly when every page is mapped as a 4 KiB page. */
  method UnmapBlock(m: Machine, s: nat, b: Block) returns (r: Result<()>)
    requires m.Valid() && Live(m.W(), s) && InHalf(b)
    modifies m`mem, m`held, m.frames
    ensures m.Valid()
    ensures r.Ok? <==>
      && ValidBlock(b)
      && forall p: nat {:trigger PageView(old(m.W()), s, p)} :: b.Has(p) ==>
           LeafFrame(PageView(old(m.W()), s, p)).Some?
    ensures r.Ok? ==>
      && Progress(old(m.W()), m.W(), s, b.start, b.Count(), b.Count(), s, 0, 0)
      && forall p: nat {:trigger PageView(m.W(), s, p)} :: b.Has(p) ==> PageView(m.W(), s, p) == Unmapped
    ensures r.Err? ==> UnmapStopped(old(m.W()), m.W(), s, b.start, b.Count())
    ensures WordsKept(old(m.W()), m.W(), s, b.start, b.end)
    ensures RightsKept(old(m.W()), m.W(), s, b.start, b.end, {})
    ensures r.Err? ==> (r.error == PermissionDenied <==> !ValidBlock(b))
    ensures !ValidBlock(b) ==> m.W() == old(m.W())
    ensures m.held == old(m.held) && m.roots == old(m.roots)
  {
    hide Consistent, WellLinked, Find, View, Uses, Data, PathOf, PageChanged, Progress, WordsKept, RightsKept,
         MapStopped;
    ghost var w, n := m.W(), b.Count();
    ProgressStart(w, s, b.start, n, s, 0);
    MappedNone(w, s, b.start, n, {});
    NothingTouched(w, s, b.start);
    if !ValidBlock(b) {
      return Err(PermissionDenied);
    }
    for page := b.start to b.end
      invariant m.Valid() && Live(m.W(), s) && m.held == w.held && m.roots == w.roots
      invariant Progress(w, m.W(), s, b.start, n, page - b.start, s, 0, 0)
      invariant forall p: nat {:trigger PageView(w, s, p)} :: b.start <= p < page ==> LeafFrame(PageView(w, s, p)).Some?
      invariant forall p: nat {:trigger PageView(m.W(), s, p)} :: b.start <= p < page ==>
        PageView(m.W(), s, p) == Unmapped
      invariant WordsKept(w, m.W(), s, b.start, page) && RightsKept(w, m.W(), s, b.start, page, {})
    {
      ghost var w1 := m.W();
      InHalfPage(b, page);
      ProgressPages(w, w1, s, b.start, n, page - b.start, s, 0, 0, page);
      var unmapped := UnmapPage(m, s, page);
      if unmapped.Err? {
        KeptWider(w, m.W(), s, b.start, page, b.end);
        assert page == b.start + (page - b.start);
        return Err(unmapped.error);
      }
      ProgressStep(w, w1, m.W(), s, b.start, n, page - b.start, s, 0, 0, Unmapped, None, 0);
      ProgressRoots(w, m.W(), s, b.start, n, page - b.start + 1, s, 0, 0);
      ChangedOthers(w1, m.W(), s, page, Unmapped, None, b.start);
      WordsStep(w, w1, m.W(), s, b.start, page, Unmapped, None);
      RightsKeptThen(w, w1, m.W(), s, b.start, page, page + 1, {});
    }
    r := Ok(());
  }

  lemma KeptWider(w: World, w': World, s: nat, lo: nat, mid: nat, hi: nat)
    requires WordsKept(w, w', s, lo, mid) && RightsKept(w, w', s, lo, mid, {}) && mid <= hi
    ensures WordsKept(w, w', s, lo, hi) && RightsKept(w, w', s, lo, hi, {})
  {
    hide PageRight, Data;
  }

  lemma NothingTouched(w: World, s: nat, lo: nat)
    ensures forall hi: nat :: lo <= hi ==> WordsKept(w, w, s, lo, hi) && RightsKept(w, w, s, lo, hi, {})
  {
  }

  /** `range::validate_block()`: all kernel pages or all user pages. */
  predicate ValidBlock(b: Block) { IsKernelBlock(b) != IsUserBlock(b) }

  predicate IsUserBlock(b: Block) { USER_START <= b.start && b.end <= USER_END }

  predicate IsKernelBlock(b: Block) { !IsUserBlock(b) && Block(USER_START, USER_END).Disjoint(b) }

  lemma InHalfPage(b: Block, page: nat)
    requires InHalf(b) && b.Has(page)
    ensures Page(page)
  {
    HalvesValues(L0_SIZE);
  }

  lemma ProgressPages(w: World, w': World, s: nat, lo: nat, n: nat, i: nat, src: nat, from: nat, k: nat, page: nat)
    requires Progress(w, w', s, lo, n, i, src, from, k) && Page(page) && page >= lo + i
    ensures PageView(w', s, page) == PageView(w, s, page)
  {
  }

  lemma ProgressRoots(w: World, w': World, s: nat, lo: nat, n: nat, i: nat, src: nat, from: nat, k: nat)
    requires Progress(w, w', s, lo, n, i, src, from, k)
    ensures w'.roots == w.roots && w'.held == w.held
  {
  }

  lemma ChangedOthers(w: World, w': World, s: nat, page: nat, t: Translation, gain: Option<nat>, lo: nat)
    requires Page(page) && PageChanged(w, w', s, page, t, gain)
    ensures PageView(w', s, page) == t
    ensures forall p: nat {:trigger PageView(w', s, p)} :: lo <= p < page && Page(p) ==>
      PageView(w', s, p) == PageView(w, s, p)
  {
  }

  /** The page is mapped to a frame that holds data and that no other page of any space is mapped to. */
  ghost predicate Own(w: World, s: nat, page: nat) {
    && LeafFrame(PageView(w, s, page)).Some?
    && var f := LeafFrame(PageView(w, s, page)).value;
    && Data(w, f)
    && forall s': nat, p: nat {:trigger Backs(w, s', p, f)} :: Page(p) && Backs(w, s', p, f) ==> s' == s && p == page
  }

  lemma OwnNew(w: World, w': World, s: nat, page: nat, frame: nat, flags: Flags)
    requires Consistent(w) && frame < |w.counts| && w.counts[frame] == Some(0) && Page(page)
    requires PageChanged(w, w', s, page, Mapped(0, frame, flags + {Present}), None) && Data(w', frame)
    ensures Own(w', s, page)
  {
    hide PathOf, View, Data, Uses;
    FreeIsUnused(w, frame);
    forall s': nat, p: nat | Page(p) && Backs(w', s', p, frame) ensures s' == s && p == page {
      if !(s' == s && p == page) {
        assert PageView(w', s', p) == PageView(w, s', p);
        BackedIsNamed(w, s', p, frame);
      }
    }
  }

  /** The page is mapped to a frame that nothing but pages `lo .. lo + n` of the space needed before. */
  ghost predicate Spare(w: World, w': World, s: nat, lo: nat, n: nat, page: nat) {
    LeafFrame(PageView(w', s, page)).Some? && !Stays(w, s, lo, n, LeafFrame(PageView(w', s, page)).value)
  }

  lemma SpareNew(w: World, w1: World, w2: World, s: nat, lo: nat, n: nat, i: nat, frame: nat, flags: Flags)
    requires i < n && Progress(w, w1, s, lo, n, i, s, 0, 0)
    requires frame < |w1.counts| && w1.counts[frame] == Some(0)
    requires PageView(w2, s, lo + i) == Mapped(0, frame, flags + {Present})
    ensures Spare(w, w2, s, lo, n, lo + i)
  {
    hide PathOf, View, Uses;
    NamesGrow(w, s, lo, i, n, frame);
  }

  lemma SpareKept(w: World, w1: World, w2: World, s: nat, lo: nat, n: nat, page: nat)
    requires Spare(w, w1, s, lo, n, page) && PageView(w2, s, page) == PageView(w1, s, page)
    ensures Spare(w, w2, s, lo, n, page)
  {
  }

  lemma OwnKept(w: World, w': World, s: nat, page: nat, frame: nat, flags: Flags, p: nat)
    requires Consistent(w) && Consistent(w') && frame < |w.counts| && w.counts[frame] == Some(0) && Page(page)
    requires PageChanged(w, w', s, page, Mapped(0, frame, flags + {Present}), None)
    requires Own(w, s, p) && Page(p) && p != page
    ensures Own(w', s, p)
  {
    hide PathOf, View, Uses;
    var g := LeafFrame(PageView(w, s, p)).value;
    assert PageView(w', s, p) == PageView(w, s, p);
    assert Backs(w, s, p, g) && Backs(w', s, p, g);
    BackedIsNamed(w, s, p, g);
    BackedIsNamed(w', s, p, g);
    forall s': nat, p': nat | Page(p') && Backs(w', s', p', g) ensures s' == s && p' == p {
      if !(s' == s && p' == page) {
        assert PageView(w', s', p') == PageView(w, s', p');
        assert Backs(w, s', p', g);
      }
    }
  }

  /** The page is mapped as a 4 KiB page with these flags, and its path lets them take effect. */
  ghost predicate MappedAs(w: World, s: nat, page: nat, flags: Flags) {
    var t := PageView(w, s, page);
    t.Mapped? && t.level == 0 && t.flags == flags + {Present} && PageGranted(w, s, page, flags)
  }

  /** The first `i` of pages `lo .. lo + n` are mapped, each to a frame of its own that nothing else needed. */
  ghost predicate MapDone(w: World, w': World, s: nat, lo: nat, n: nat, i: nat, flags: Flags) {
    && Progress(w, w', s, lo, n, i, s, 0, 0) && RightsKept(w, w', s, lo, lo + i, Gains(flags))
    && (forall p: nat {:trigger MappedAs(w', s, p, flags)} :: lo <= p < lo + i ==> MappedAs(w', s, p, flags))
    && (forall p: nat {:trigger Own(w', s, p)} :: lo <= p < lo + i ==> Own(w', s, p))
    && (forall p: nat {:trigger Spare(w, w', s, lo, n, p)} :: lo <= p < lo + i ==> Spare(w, w', s, lo, n, p))
  }

  lemma MapDoneNone(w: World, s: nat, lo: nat, n: nat, flags: Flags)
    ensures MapDone(w, w, s, lo, n, 0, flags)
  {
    ProgressStart(w, s, lo, n, s, 0);
    hide Progress;
  }

  /** One more page was mapped. */
  lemma MapDoneStep(w: World, w1: World, w2: World, s: nat, b: Block, i: nat, frame: nat, flags: Flags)
    requires InHalf(b) && i < b.Count() && MapDone(w, w1, s, b.start, b.Count(), i, flags)
    requires Consistent(w1) && Consistent(w2) && frame < |w1.counts| && w1.counts[frame] == Some(0)
    requires PageChanged(w1, w2, s, b.start + i, Mapped(0, frame, flags + {Present}), None) && Data(w2, frame)
    requires PageGranted(w2, s, b.start + i, flags)
    requires RightsKept(w1, w2, s, b.start + i, b.start + i + 1, Gains(flags))
    ensures MapDone(w, w2, s, b.start, b.Count(), i + 1, flags)
  {
    hide Consistent, Find, View, Uses, Data, PathOf, PageChanged, Progress, Own, Spare, RightsKept, PageGranted, Gains,
         InHalf;
    var lo, n, page := b.start, b.Count(), b.start + i;
    var t := Mapped(0, frame, flags + {Present});
    InHalfPage(b, page);
    ProgressStep(w, w1, w2, s, lo, n, i, s, 0, 0, t, None, 0);
    ChangedOthers(w1, w2, s, page, t, None, lo);
    RightsKeptThen(w, w1, w2, s, lo, page, page + 1, Gains(flags));
    OwnNew(w1, w2, s, page, frame, flags);
    SpareNew(w, w1, w2, s, lo, n, i, frame, flags);
    forall p: nat | lo <= p < page ensures MappedAs(w2, s, p, flags) && Own(w2, s, p) && Spare(w, w2, s, lo, n, p) {
      InHalfPage(b, p);
      assert MappedAs(w1, s, p, flags) && PageView(w2, s, p) == PageView(w1, s, p);
      StaysGranted(w1, w2, s, page, page + 1, p, flags, Gains(flags));
      SpareKept(w, w1, w2, s, lo, n, p);
      OwnKept(w1, w2, s, page, frame, flags, p);
    }
  }

  /** The next page could not be mapped. */
  lemma MapDoneStops(w: World, w1: World, w2: World, s: nat, b: Block, i: nat, flags: Flags)
    requires InHalf(b) && i <= b.Count() && MapDone(w, w1, s, b.start, b.Count(), i, flags)
    requires PagesKept(w1, w2) && Widened(w1, w2, Gains(flags))
    ensures MapStopped(w, w2, s, b.start, b.Count(), flags)
    ensures w2.held == w.held && w2.roots == w.roots
  {
    hide Find, View, Uses, Data, PathOf, Progress, Own, Spare, RightsKept, PageGranted, Gains, InHalf, Widened;
    var lo, n := b.start, b.Count();
    ProgressKept(w, w1, w2, s, lo, n, i, s, 0, 0);
    ProgressRoots(w, w2, s, lo, n, i, s, 0, 0);
    WidenedPages(w1, w2, s, lo + i, lo + i, Gains(flags));
    RightsKeptThen(w, w1, w2, s, lo, lo + i, lo + i, Gains(flags));
    forall p: nat | lo <= p < lo + i ensures MappedAs(w2, s, p, flags) {
      InHalfPage(b, p);
      assert MappedAs(w1, s, p, flags) && PageView(w2, s, p) == PageView(w1, s, p);
      StaysGranted(w1, w2, s, lo + i, lo + i, p, flags, Gains(flags));
    }
  }

  /** The pages of the block are not on the side that the flags are for. */
  predicate WrongSide(b: Block, flags: Flags) { !ValidBlock(b) || IsUserBlock(b) != (User in flags) }

  /** A page of the block is part of a huge page. */
  ghost predicate HugeIn(w: World, s: nat, b: Block) {
    exists p: nat {:trigger PageView(w, s, p)} :: b.Has(p) && PageView(w, s, p).Mapped? && PageView(w, s, p).level > 0
  }

  /** Why pages of the block could not be mapped; frames ran out, but for at most two. */
  ghost predicate MapRefused(w: World, w': World, s: nat, b: Block, flags: Flags, error: Error) {
    || (error == PermissionDenied && WrongSide(b, flags))
    || (error == Unimplemented && HugeIn(w, s, b))
    || (error == NoFrame && w'.free <= 2)
  }

  lemma UnderHugeIs(w: World, s: nat, page: nat)
    requires Consistent(w)
    ensures UnderHuge(w, s, page) ==> PageView(w, s, page).Mapped? && PageView(w, s, page).level > 0
  {
    var q := PathOf(s, page);
    if UnderHuge(w, s, page) {
      HugeFormed(w.mem, w.roots, TOP, q);
    }
  }

  lemma {:induction false} HugeFormed(mem: Memory, t: seq<Pte>, level: nat, q: Path)
    requires WellFormed(mem, t, level) && level < |q| && Deepest(mem, t, level, q).pte.IsHuge()
    ensures Deepest(mem, t, level, q).pte.IsPresent() && Deepest(mem, t, level, q).level > 0
    decreases level
  {
    if q[level] < |t| {
      assert EntryFormed(mem, t[q[level]], level);
      if level > 0 && t[q[level]].Counted() {
        assert Deepest(mem, t, level, q) == Deepest(mem, mem[t[q[level]].frame], level - 1, q);
        HugeFormed(mem, mem[t[q[level]].frame], level - 1, q);
      }
    }
  }

  lemma SideOfPage(b: Block, page: nat, flags: Flags)
    requires b.Has(page) && !WrongSide(b, flags)
    ensures IsUserPage(page) == (User in flags)
  {
  }

  /** `AddressSpace::map_block()`: every page of the block is mapped, to a frame of its own. */
  method MapBlock(m: Machine, s: nat, b: Block, flags: Flags) returns (r: Result<()>)
    requires m.Valid() && Live(m.W(), s) && InHalf(b) && Huge !in flags
    modifies m`mem, m`held, m.frames
    ensures m.Valid()
    ensures r.Ok? ==> !WrongSide(b, flags) && MapDone(old(m.W()), m.W(), s, b.start, b.Count(), b.Count(), flags)
    ensures r.Err? ==> MapStopped(old(m.W()), m.W(), s, b.start, b.Count(), flags)
    ensures r.Err? ==> MapRefused(old(m.W()), m.W(), s, b, flags, r.error)
    ensures m.held == old(m.held) && m.roots == old(m.roots)
  {
    hide Consistent, WellLinked, Find, View, Uses, Data, PathOf, PageChanged, Progress, PagesKept, MapDone, MapStopped,
         RightsKept, PageGranted, Gains, WrongSide, UnderHuge, MissingNodes, Widened;
    ghost var w, n := m.W(), b.Count();
    MapDoneNone(w, s, b.start, n, flags);
    MappedNone(w, s, b.start, n, flags);
    if WrongSide(b, flags) {
      return Err(PermissionDenied);
    }
    for page := b.start to b.end
      invariant m.Valid() && Live(m.W(), s) && m.held == w.held && m.roots == w.roots
      invariant MapDone(w, m.W(), s, b.start, n, page - b.start, flags)
    {
      ghost var w1, i := m.W(), page - b.start;
      InHalfPage(b, page);
      DonePage(w, w1, s, b.start, n, i, flags, page);
      UnderHugeIs(w1, s, page);
      SideOfPage(b, page, flags);
      var mapped := MapPage(m, s, page, flags);
      if mapped.Err? {
        MapDoneStops(w, w1, m.W(), s, b, i, flags);
        assert b.Has(page);
        return Err(mapped.error);
      }
      MapDoneStep(w, w1, m.W(), s, b, i, mapped.value, flags);
      DoneRoots(w, m.W(), s, b.start, n, i + 1, flags);
    }
    r := Ok(());
  }

  lemma DonePage(w: World, w': World, s: nat, lo: nat, n: nat, i: nat, flags: Flags, page: nat)
    requires MapDone(w, w', s, lo, n, i, flags) && Page(page) && page >= lo + i
    ensures PageView(w', s, page) == PageView(w, s, page)
  {
    hide Progress, RightsKept, MappedAs, Own, Spare, PageView;
    ProgressPages(w, w', s, lo, n, i, s, 0, 0, page);
  }

  lemma DoneRoots(w: World, w': World, s: nat, lo: nat, n: nat, i: nat, flags: Flags)
    requires MapDone(w, w', s, lo, n, i, flags)
    ensures w'.roots == w.roots && w'.held == w.held
  {
    hide Progress, RightsKept, MappedAs, Own, Spare, PageView;
    ProgressRoots(w, w', s, lo, n, i, s, 0, 0);
  }
}
