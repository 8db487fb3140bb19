/** Whole runs of the memory system: any sequence of calls on any number of address spaces. */
module Runs {
  import opened Mmu
  import opened PageTree
  import opened FrameAllocator
  import opened World
  import opened Machine
  import opened Pages
  import opened PageAllocator
  import opened AddressSpace
  import opened BigPair
  import opened Clearing
  import opened Stray
  import opened Copying
  import opened NodeCount
  import Paths
  import Mapping
  import Duplicate

  /** Guards are named by their place in the list of those that the caller holds. */
  datatype Call =
    | MapPage(s: nat, page: nat, flags: Flags)
    | UnmapPage(s: nat, page: nat)
    | RemapBlock(s: nat, block: Block, flags: Flags)
    | CopyMapping(s: nat, a: Block, to: nat, b: Block, copyFlags: Option<Flags>, flags: Flags)
    | Duplicate(s: nat)
    | Drop(s: nat)
    | Prune(s: nat)
    | AllocateGuard
    | ReferenceGuard(guard: nat)
    | DropGuard(guard: nat)
    | MapGuard(guard: nat, s: nat, page: nat, flags: Flags)

  /** The references to tracked frames beyond the page-table entries: those there were at the start, those of the
      guards, and those left over. */
  ghost predicate Conserved(w: World, w': World, tracked: iset<nat>, guards: seq<nat>, lost: multiset<nat>) {
    forall f: nat {:trigger f in tracked} :: f in tracked ==>
      && Tracked(w.counts, f) && Tracked(w'.counts, f)
      && w'.counts[f].value - Uses(w', 0, f) - multiset(guards)[f] - lost[f] == w.counts[f].value - Uses(w, 0, f)
  }

  lemma HeldConserves(w: World, w': World, tracked: iset<nat>, guards: seq<nat>, lost: multiset<nat>)
    requires Consistent(w) && Consistent(w') && Tracks(w.counts, tracked) && Tracks(w'.counts, tracked)
    requires w'.held == w.held + multiset(guards) + lost
    ensures Conserved(w, w', tracked, guards, lost)
  {
    hide Uses, WellFormed, Unshared;
    forall f: nat | f in tracked
      ensures Tracked(w.counts, f) && Tracked(w'.counts, f)
      ensures w'.counts[f].value - Uses(w', 0, f) - multiset(guards)[f] - lost[f] == w.counts[f].value - Uses(w, 0, f)
    {
      assert Tracked(w.counts, f) && Tracked(w'.counts, f);
    }
  }

  /** A free frame is named by no entry, is no node, and has no guard. */
  ghost predicate FreeIsFree(w: World, guards: seq<nat>) {
    forall f: nat {:trigger w.counts[f]} :: f < |w.counts| && w.counts[f] == Some(0) ==>
      Uses(w, 0, f) == 0 && Uses(w, 1, f) == 0 && f !in guards
  }

  lemma ConsistentFrees(w: World, guards: seq<nat>)
    requires Consistent(w) && multiset(guards) <= w.held
    ensures FreeIsFree(w, guards)
  {
    hide Uses, WellFormed, Unshared;
    forall f: nat | f < |w.counts| && w.counts[f] == Some(0)
      ensures Uses(w, 0, f) == 0 && Uses(w, 1, f) == 0 && f !in guards
    {
      FreeIsUnused(w, f);
      assert f in guards ==> multiset(guards)[f] > 0;
    }
  }

  predicate IsLive(m: Machine, s: nat)
    reads m
  {
    s < |m.roots| && m.roots[s].Counted()
  }

  function Without(guards: seq<nat>, i: nat): seq<nat>
    requires i < |guards|
  {
    guards[..i] + guards[i + 1..]
  }

  /** A guard less leaves a reference less. */
  lemma WithoutOne(guards: seq<nat>, i: nat, others: multiset<nat>)
    requires i < |guards|
    ensures guards[i] in others + multiset(guards)
    ensures others + multiset(guards) - multiset{guards[i]} == others + multiset(Without(guards, i))
  {
    assert guards == guards[..i] + [guards[i]] + guards[i + 1..];
  }

  lemma WithOne(guards: seq<nat>, f: nat, others: multiset<nat>)
    ensures others + multiset(guards) + multiset{f} == others + multiset(guards + [f])
  {
  }

  // ---------------------------------------------------------------------------------------------
  // What the calls do

  /** The memory, and the guards of the caller, between two calls. */
  datatype Moment = Moment(w: World, guards: seq<nat>)

  ghost predicate MapDoes(w: World, s: nat, page: nat, flags: Flags, ok: bool, w': World) {
    && (ok <==>
          IsUserPage(page) == (User in flags) && !UnderHuge(w, s, page) && MissingNodes(w, s, page) < w.free)
    && (ok ==> exists f: nat {:trigger WasFree(w, f)} ::
          WasFree(w, f) && PageChanged(w, w', s, page, Mapped(0, f, flags + {Present}), None))
    && (!ok ==> PagesKept(w, w'))
  }

  ghost predicate UnmapDoes(w: World, s: nat, page: nat, ok: bool, w': World) {
    && (ok <==> LeafFrame(PageView(w, s, page)).Some?)
    && if ok then PageChanged(w, w', s, page, Unmapped, None) else w' == w
  }

  ghost predicate RemapDoes(w: World, s: nat, b: Block, flags: Flags, ok: bool, w': World) {
    && (ok <==> Remappable(w, s, b, flags)) && SamePages(w, w', s, b.start, b.end)
    && (ok ==> forall p: nat {:trigger Reflagged(w, w', s, p, flags)} :: b.Has(p) ==> Reflagged(w, w', s, p, flags))
  }

  ghost predicate CopyDoes(w: World, s: nat, a: Block, to: nat, b: Block, copyFlags: Option<Flags>, flags: Flags,
                           ok: bool, w': World) {
    && SamePages(w, w', to, b.start, b.end)
    && (ok ==>
          && a.start <= a.end && b.start <= b.end && a.Count() == b.Count() && FlagsAllowed(copyFlags, flags)
          && if Separate(s, a, to, b)
             then forall i :: 0 <= i < a.Count() ==> CopiedPage(w, w', s, a, to, b, copyFlags, flags, i)
             else copyFlags.Some? && RemapDoes(w, to, b, copyFlags.value, true, w'))
    && (!ok && a.end - a.start == b.end - b.start && FlagsAllowed(copyFlags, flags) && Separate(s, a, to, b) ==>
          exists e: Error :: CopyRefused(w, w', s, a, to, b, copyFlags, flags, e))
  }

  /** The new space, the last one, translates as space `s` does, without the pages that are not copied. */
  ghost predicate DuplicateDoes(w: World, s: nat, ok: bool, w': World)
    requires s < |w.roots|
  {
    && (ok <==> NodesAt(w.mem, w.roots[s], TOP) <= w.free)
    && (ok ==> |w'.roots| == |w.roots| + 1)
    && (ok ==> forall p: Path {:trigger View(w', p)} :: |p| == TOP + 1 ==>
          && (p[TOP] < |w.roots| ==> View(w', p) == View(w, p))
          && (p[TOP] == |w.roots| ==> View(w', p) == CopyOf(View(w, Duplicate.InSpace(p, s)))))
    && (!ok ==> Abandoned(w, w'))
  }

  ghost predicate DropDoes(w: World, s: nat, w': World) {
    forall p: Path {:trigger View(w', p)} :: |p| == TOP + 1 ==>
      View(w', p) == if p[TOP] == s then Unmapped else View(w, p)
  }

  /** Of the guards, and of the memory, only as much changes as the call says. */
  ghost predicate GuardDoes(x: Moment, call: Call, ok: bool, y: Moment) {
    match call
    case AllocateGuard =>
      && (ok <==> x.w.free > 0)
      && if ok then |y.guards| == |x.guards| + 1 && x.guards <= y.guards && WasFree(x.w, y.guards[|x.guards|])
                    && y.w == TakeFrame(x.w, y.guards[|x.guards|])
         else y == x
    case ReferenceGuard(i) =>
      && (ok <==> i < |x.guards|)
      && if ok then y == Moment(Referenced(x.w, x.guards[i]), x.guards + [x.guards[i]]) else y == x
    case DropGuard(i) =>
      && (ok <==> i < |x.guards|)
      && if ok then y.guards == Without(x.guards, i) && Dropped(x.w, y.w, Some(x.guards[i])) else y == x
    case MapGuard(i, s, page, flags) =>
      if i < |x.guards| && Live(x.w, s) && Page(page) && Huge !in flags then
        && y.guards == Without(x.guards, i)
        && (ok <==> !UnderHuge(x.w, s, page) && MissingNodes(x.w, s, page) <= x.w.free)
        && if ok then Paths.Remapped(x.w, y.w, PathOf(s, page), Mapped(0, x.guards[i], flags + {Present}))
           else Paths.Failed(x.w, y.w, x.guards[i])
      else !ok && y == x
    case _ => false
  }

  ghost function Referenced(w: World, f: nat): World {
    w.(counts := Acquire(w.counts, f), held := w.held + multiset{f})
  }

  /** What a call does, and when it succeeds. */
  ghost predicate Does(x: Moment, call: Call, ok: bool, y: Moment) {
    if call.AllocateGuard? || call.ReferenceGuard? || call.DropGuard? || call.MapGuard? then GuardDoes(x, call, ok, y)
    else if !Sensible(x.w, call) then !ok && y == x
    else
      && y.guards == x.guards
      && match call
         case MapPage(s, page, flags) => MapDoes(x.w, s, page, flags, ok, y.w)
         case UnmapPage(s, page) => UnmapDoes(x.w, s, page, ok, y.w)
         case RemapBlock(s, b, flags) => RemapDoes(x.w, s, b, flags, ok, y.w)
         case CopyMapping(s, a, to, b, copyFlags, flags) => CopyDoes(x.w, s, a, to, b, copyFlags, flags, ok, y.w)
         case Duplicate(s) => DuplicateDoes(x.w, s, ok, y.w)
         case Drop(s) => ok && DropDoes(x.w, s, y.w)
         case Prune(s) =>
           && SameViews(x.w, y.w) && Mapping.Tight(y.w, Mapping.RootPath(s), ROOT_LEVEL, ENTRY_COUNT)
           && (ok <==> MappedUnder(x.w, Mapping.RootPath(s), ROOT_LEVEL))
         case _ => false
  }

  /** From each moment to the next one the call in between did what it should. */
  ghost predicate Told(history: seq<Moment>, calls: seq<Call>, oks: seq<bool>)
    ensures Told(history, calls, oks) ==> 0 < |history| == |oks| + 1 <= |calls| + 1
  {
    && 0 < |history| == |oks| + 1 <= |calls| + 1
    && forall n :: 0 <= n < |oks| ==> Does(history[n], calls[n], oks[n], history[n + 1])
  }

  lemma TellNothing(x: Moment, calls: seq<Call>)
    ensures Told([x], calls, [])
  {
  }

  lemma TellMore(history: seq<Moment>, calls: seq<Call>, oks: seq<bool>, ok: bool, y: Moment)
    requires Told(history, calls, oks) && |oks| < |calls| && Does(history[|oks|], calls[|oks|], ok, y)
    ensures Told(history + [y], calls, oks + [ok])
  {
    hide Does;
  }

  /** The call names live spaces, and is one that the types of the kernel admit. */
  ghost predicate Sensible(w: World, call: Call) {
    match call
    case MapPage(s, page, flags) => Live(w, s) && Page(page) && Huge !in flags
    case UnmapPage(s, page) => Live(w, s) && Page(page)
    case RemapBlock(s, b, flags) => Live(w, s) && InHalf(b) && Huge !in flags
    case CopyMapping(s, a, to, b, copyFlags, flags) =>
      && Live(w, s) && Live(w, to) && InHalf(a) && InHalf(b)
      && (copyFlags.Some? ==> Huge !in copyFlags.value) && Huge !in flags
    case Duplicate(s) => Live(w, s)
    case Drop(s) => Live(w, s)
    case Prune(s) => Live(w, s)
    case _ => true
  }

  // ---------------------------------------------------------------------------------------------
  // Frame 0 stays quiet

  lemma DataQuiet(w: World, w': World)
    requires Quiet(w) && !Tracked(w.counts, 0) && DataKept(w, w')
    ensures Quiet(w')
  {
    hide Uses;
    assert Data(w, 0);
  }

  lemma ProgressQuiet(w: World, w': World, s: nat, lo: nat, n: nat, src: nat, from: nat)
    requires Quiet(w) && !Tracked(w.counts, 0) && Partly(w, w', s, lo, n, src, from)
    ensures Quiet(w')
  {
    hide Uses, SamePages;
    var i: nat, k: nat :| k <= i <= n && Progress(w, w', s, lo, n, i, src, from, k);
    assert Stays(w, s, lo, n, 0) && Data(w, 0);
  }

  lemma TrimmedQuiet(w: World, w': World, s: nat)
    requires Quiet(w) && Touches(w, w', s) && FewerNodes(w, w')
    ensures Quiet(w')
  {
    hide NodeOf;
    if w'.mem[0] != w.mem[0] {
      Mapping.NodeOfCounts(w, s, 0);
      CountPart(w.mem, w.roots, s, TOP, 1, 0);
    }
  }

  lemma QuietSame(w: World, w': World)
    requires w'.mem == w.mem && w'.roots == w.roots
    ensures Quiet(w) ==> Quiet(w')
  {
  }

  lemma ZeroUntracked(m: Machine)
    requires m.Valid()
    ensures !Tracked(m.W().counts, 0)
  {
  }

  /** One call; calls that name no live space or guard, or that the types of the kernel rule out, are passed over. The
      caller holds `guards`; `base` and `lost` are the other references from outside the trees. If `broken` then a
      duplicate failed and the contents of frame 0 were dropped as page tables. */
  method Perform(m: Machine, call: Call, guards: seq<nat>, ghost base: multiset<nat>, ghost lost: multiset<nat>)
    returns (guards': seq<nat>, ok: bool, failed: bool, broken: bool, ghost lost': multiset<nat>)
    requires m.Valid() && m.held == base + multiset(guards) + lost
    modifies m, m.frames
    ensures !broken ==> m.Valid() && m.held == base + multiset(guards') + lost'
    ensures !broken ==> Does(Moment(old(m.W()), guards), call, ok, Moment(m.W(), guards'))
    ensures failed <==> call.Duplicate? && Live(old(m.W()), call.s) && !ok
    ensures !failed ==> lost' == lost
    ensures broken <==> failed && |old(m.mem)| > 0 && !NoneCounted(old(m.mem)[0])
    ensures !broken && Quiet(old(m.W())) ==> Quiet(m.W())
  {
    hide m.Valid, Consistent, View, Find, Uses, Progress, CopiedPage, SamePages, Count, CountAt, PageChanged, PagesKept,
         HasLeaf, Reflagged, Paths.Remapped, Quiet, NoneCounted, DataKept, Touches, FewerNodes, Partly, MapDoes,
         UnmapDoes, CopyDoes, DuplicateDoes, GuardDoes, Mapping.Tight, MappedUnder, NodesAt, InHalf;
    guards', ok, failed, broken, lost' := guards, false, false, false, lost;
    ghost var w := m.W();
    ZeroUntracked(m);
    match call
    case MapPage(s, page, flags) =>
      if IsLive(m, s) && Page(page) && Huge !in flags {
        ok := PerformMap(m, s, page, flags);
      }
    case UnmapPage(s, page) =>
      if IsLive(m, s) && Page(page) {
        ok := PerformUnmap(m, s, page);
      }
    case RemapBlock(s, b, flags) =>
      if IsLive(m, s) && InHalf(b) && Huge !in flags {
        var r := BigPair.RemapBlock(m, s, b, flags);
        ok := r.Ok?;
        if Quiet(w) { DataQuiet(w, m.W()); }
      }
    case CopyMapping(s, a, to, b, copyFlags, flags) =>
      if IsLive(m, s) && IsLive(m, to) && InHalf(a) && InHalf(b)
        && (copyFlags.Some? ==> Huge !in copyFlags.value) && Huge !in flags {
        ok := PerformCopy(m, s, a, to, b, copyFlags, flags);
      }
    case Duplicate(s) =>
      if IsLive(m, s) {
        failed, broken := PerformDuplicate(m, s);
        ok := !failed;
        if failed {
          lost' := lost + (m.held - (base + multiset(guards) + lost));
        }
      }
    case Drop(s) =>
      if IsLive(m, s) {
        Mapping.Drop(m, s);
        ok := true;
        if Quiet(w) { TrimmedQuiet(w, m.W(), s); }
      }
    case Prune(s) =>
      if IsLive(m, s) {
        ok := PerformPrune(m, s);
      }
    case _ => guards', ok := PerformGuard(m, call, guards, base + lost);
  }

  method PerformMap(m: Machine, s: nat, page: nat, flags: Flags) returns (ok: bool)
    requires m.Valid() && Live(m.W(), s) && Page(page) && Huge !in flags
    modifies m`mem, m`held, m.frames
    ensures m.Valid() && m.held == old(m.held) && (Quiet(old(m.W())) ==> Quiet(m.W()))
    ensures MapDoes(old(m.W()), s, page, flags, ok, m.W())
  {
    hide m.Valid, Consistent, View, SamePages, DataKept, Counted, Quiet;
    ghost var w := m.W();
    ZeroUntracked(m);
    DataStays(w, w, w);
    var r := AddressSpace.MapPage(m, s, page, flags);
    ok := r.Ok?;
    assert ok ==> WasFree(w, r.value);
    if Quiet(w) { DataQuiet(w, m.W()); }
  }

  method PerformUnmap(m: Machine, s: nat, page: nat) returns (ok: bool)
    requires m.Valid() && Live(m.W(), s) && Page(page)
    modifies m`mem, m`held, m.frames
    ensures m.Valid() && m.held == old(m.held) && (Quiet(old(m.W())) ==> Quiet(m.W()))
    ensures UnmapDoes(old(m.W()), s, page, ok, m.W())
  {
    hide m.Valid, Consistent, View, SamePages, DataKept, Counted, Quiet;
    ghost var w := m.W();
    ZeroUntracked(m);
    DataStays(w, w, w);
    var r := AddressSpace.UnmapPage(m, s, page);
    ok := r.Ok?;
    if Quiet(w) { DataQuiet(w, m.W()); }
  }

  method PerformCopy(m: Machine, src: nat, a: Block, dst: nat, b: Block, copyFlags: Option<Flags>, flags: Flags)
    returns (ok: bool)
    requires m.Valid() && Live(m.W(), src) && Live(m.W(), dst) && InHalf(a) && InHalf(b)
    requires (copyFlags.Some? ==> Huge !in copyFlags.value) && Huge !in flags
    modifies m`mem, m`held, m.frames
    ensures m.Valid() && m.held == old(m.held) && (Quiet(old(m.W())) ==> Quiet(m.W()))
    ensures CopyDoes(old(m.W()), src, a, dst, b, copyFlags, flags, ok, m.W())
  {
    hide m.Valid, Consistent, View, Find, Uses, Progress, CopiedPage, SamePages, HasLeaf, Reflagged, Quiet, DataKept,
         Partly, Separate, InHalf;
    ghost var w := m.W();
    ZeroUntracked(m);
    BlockShape(a);
    BlockShape(b);
    SamePagesSelf(w, dst, b.start, b.end);
    var r := BigPair.CopyMapping(m, src, a, dst, b, copyFlags, flags);
    ok := r.Ok?;
    if Separate(src, a, dst, b) {
      if r.Ok? { WholeIsPartly(w, m.W(), dst, b.start, b.Count(), src, a.start); }
      PartlySame(w, m.W(), dst, b.start, b.Count(), src, a.start);
    }
    if Quiet(w) {
      if !Separate(src, a, dst, b) {
        DataQuiet(w, m.W());
      } else {
        ProgressQuiet(w, m.W(), dst, b.start, b.Count(), src, a.start);
      }
    }
  }

  lemma SamePagesSelf(w: World, s: nat, lo: nat, hi: nat)
    ensures SamePages(w, w, s, lo, hi)
  {
  }

  lemma PartlySame(w: World, w': World, s: nat, lo: nat, n: nat, src: nat, from: nat)
    requires Partly(w, w', s, lo, n, src, from)
    ensures SamePages(w, w', s, lo, lo + n)
  {
    hide Uses;
  }

  lemma WholeIsPartly(w: World, w': World, s: nat, lo: nat, n: nat, src: nat, from: nat)
    requires Progress(w, w', s, lo, n, n, src, from, n)
    ensures Partly(w, w', s, lo, n, src, from)
  {
  }

  method PerformDuplicate(m: Machine, s: nat) returns (failed: bool, broken: bool)
    requires m.Valid() && Live(m.W(), s)
    modifies m, m.frames
    ensures !broken ==> m.Valid() && m.held >= old(m.held)
    ensures !failed ==> m.held == old(m.held)
    ensures broken <==> failed && |old(m.mem)| > 0 && !NoneCounted(old(m.mem)[0])
    ensures !broken && Quiet(old(m.W())) ==> Quiet(m.W())
    ensures !broken ==> DuplicateDoes(old(m.W()), s, !failed, m.W())
  {
    hide m.Valid, Consistent, View, Find, Uses, Count, CountAt, Quiet, NoneCounted, DropFrom, NodesAt;
    ghost var w := m.W();
    var quiet := |m.mem| > 0 && NoneCounted(m.mem[0]);
    var r, ok, left := Duplicate.Duplicate(m, s);
    failed, broken := r.Err?, r.Err? && !quiet;
    if failed && !broken {
      assert forall f: nat :: m.W().held[f] >= w.held[f];
    }
  }

  /** `unmap_unused_intermediate()`; whether its assertion holds is decided by `Mapping.UnmapUnusedIntermediate`. */
  method PerformPrune(m: Machine, s: nat) returns (ok: bool)
    requires m.Valid() && Live(m.W(), s)
    modifies m`mem, m.frames
    ensures m.Valid() && (Quiet(old(m.W())) ==> Quiet(m.W()))
    ensures SameViews(old(m.W()), m.W()) && Mapping.Tight(m.W(), Mapping.RootPath(s), ROOT_LEVEL, ENTRY_COUNT)
    ensures ok <==> MappedUnder(old(m.W()), Mapping.RootPath(s), ROOT_LEVEL)
  {
    hide Consistent, At, View, Find, Uses, Count, CountAt, Quiet;
    ghost var w, q := m.W(), Mapping.RootPath(s);
    Mapping.SpacePath(m.roots, s);
    GoIn(m.W(), q);
    var deleted := Mapping.DropSubtree(m, q, m.roots[s].frame, ROOT_LEVEL, false);
    ok := !deleted;
    if Quiet(w) { TrimmedQuiet(w, m.W(), s); }
  }

  method PerformGuard(m: Machine, call: Call, guards: seq<nat>, ghost others: multiset<nat>)
    returns (guards': seq<nat>, ok: bool)
    requires m.Valid() && m.held == others + multiset(guards)
    requires call.AllocateGuard? || call.ReferenceGuard? || call.DropGuard? || call.MapGuard?
    modifies m, m.frames
    ensures m.Valid() && m.held == others + multiset(guards') && (Quiet(old(m.W())) ==> Quiet(m.W()))
    ensures GuardDoes(Moment(old(m.W()), guards), call, ok, Moment(m.W(), guards'))
  {
    hide m.Valid, Page, Without, Quiet, Paths.Remapped, Paths.Failed, Dropped, PathOf, Find;
    guards', ok := guards, false;
    match call
    case AllocateGuard =>
      var frame := AllocateOne(m);
      if frame.Some? {
        WithOne(guards, frame.value, others);
        guards', ok := guards + [frame.value], true;
      }
    case ReferenceGuard(i) =>
      if i < |guards| {
        WithoutOne(guards, i, others);
        WithOne(guards, guards[i], others);
        ReferenceOne(m, guards[i]);
        guards', ok := guards + [guards[i]], true;
      }
    case DropGuard(i) =>
      if i < |guards| {
        WithoutOne(guards, i, others);
        DropOne(m, guards[i]);
        guards', ok := Without(guards, i), true;
      }
    case MapGuard(i, s, page, flags) =>
      if i < |guards| && IsLive(m, s) && Page(page) && Huge !in flags {
        WithoutOne(guards, i, others);
        ok := MapOne(m, s, page, guards[i], flags);
        guards' := Without(guards, i);
      }
  }

  method AllocateOne(m: Machine) returns (frame: Option<nat>)
    requires m.Valid()
    modifies m`held, m.frames
    ensures m.Valid() && (Quiet(old(m.W())) ==> Quiet(m.W()))
    ensures frame.None? <==> old(m.W()).free == 0
    ensures if frame.Some? then WasFree(old(m.W()), frame.value) && m.W() == TakeFrame(old(m.W()), frame.value)
            else m.W() == old(m.W())
  {
    hide m.Valid, Quiet;
    ghost var w := m.W();
    frame := m.AllocateFrame();
    QuietSame(w, m.W());
  }

  method ReferenceOne(m: Machine, f: nat)
    requires m.Valid() && f in m.held
    modifies m`held, m.frames
    ensures m.Valid() && m.W() == Referenced(old(m.W()), f) && (Quiet(old(m.W())) ==> Quiet(m.W()))
  {
    HeldIsCounted(m, f);
    hide m.Valid, Quiet;
    ghost var w := m.W();
    m.ReferenceFrame(f);
    QuietSame(w, m.W());
  }

  method DropOne(m: Machine, f: nat)
    requires m.Valid() && f in m.held
    modifies m`held, m.frames
    ensures m.Valid() && m.held == old(m.held) - multiset{f} && Dropped(old(m.W()), m.W(), Some(f))
    ensures Quiet(old(m.W())) ==> Quiet(m.W())
  {
    hide m.Valid, Quiet;
    ghost var w := m.W();
    m.DropGuard(f);
    QuietSame(w, m.W());
  }

  method MapOne(m: Machine, s: nat, page: nat, f: nat, flags: Flags) returns (ok: bool)
    requires m.Valid() && f in m.held && s < |m.roots| && m.roots[s].Counted() && Page(page) && Huge !in flags
    modifies m`mem, m`held, m.frames
    ensures m.Valid() && m.held == old(m.held) - multiset{f} && (Quiet(old(m.W())) ==> Quiet(m.W()))
    ensures ok <==> !UnderHuge(old(m.W()), s, page) && MissingNodes(old(m.W()), s, page) <= old(m.W()).free
    ensures if ok then Paths.Remapped(old(m.W()), m.W(), PathOf(s, page), Mapped(0, f, flags + {Present}))
            else Paths.Failed(old(m.W()), m.W(), f)
  {
    hide m.Valid, Consistent, View, Find, Uses, OnlyView, SameViews, Consumed, Dropped, PathOf, PagePath, Quiet,
         DataKept;
    ghost var w := m.W();
    ZeroUntracked(m);
    PathIsPagePath(m.roots, s, page);
    var r := Paths.MapPath(m, PathOf(s, page), f, flags);
    ok := r.Ok?;
    if Quiet(w) { DataQuiet(w, m.W()); }
  }

  lemma HeldIsCounted(m: Machine, f: nat)
    requires m.Valid() && f in m.held
    ensures Tracked(m.W().counts, f) ==> m.W().counts[f].value > 0
  {
    hide Uses;
    NamedHasCount(m.W(), f);
  }

  /** Over every run the count of a frame, less the entries that name it in all live trees and less the guards, does not
      change, but for references lost by duplicates that failed. The run ends, `broken`, with a duplicate that fails
      while an entry of frame 0 is counted. This never happens if at the start frame 0 is no node and has no such
      entry. Every call of the run does what it should, one after another. */
  method Run(m: Machine, calls: seq<Call>)
    returns (guards: seq<nat>, oks: seq<bool>, failures: nat, broken: bool, ghost lost: multiset<nat>,
             ghost history: seq<Moment>)
    requires m.Valid()
    modifies m, m.frames
    ensures !broken ==> m.Valid() && m.held == old(m.held) + multiset(guards) + lost
    ensures failures == 0 ==> lost == multiset{} && !broken
    ensures failures > 0 ==> broken || exists n :: 0 <= n < |oks| && !oks[n] && n < |calls| && calls[n].Duplicate?
    ensures !broken ==> Conserved(old(m.W()), m.W(), m.tracked, guards, lost) && FreeIsFree(m.W(), guards)
    ensures Quiet(old(m.W())) ==> !broken && Quiet(m.W())
    ensures Told(history, calls, oks) && history[0] == Moment(old(m.W()), [])
    ensures !broken ==> |oks| == |calls| && history[|calls|] == Moment(m.W(), guards)
  {
    ghost var w := m.W();
    assert Consistent(w) && Tracks(w.counts, m.tracked);
    hide Consistent, Conserved, Tracks, FreeIsFree, Quiet, Does, Told, NoneCounted, Live;
    guards, oks, failures, broken, lost := [], [], 0, false, multiset{};
    history := [Moment(w, [])];
    TellNothing(Moment(w, []), calls);
    for n := 0 to |calls|
      invariant |oks| == n && Told(history, calls, oks)
      invariant history[0] == Moment(w, []) && history[n] == Moment(m.W(), guards)
      invariant !broken && m.Valid() && m.held == w.held + multiset(guards) + lost
      invariant failures == 0 ==> lost == multiset{}
      invariant failures > 0 ==> exists k :: 0 <= k < n && !oks[k] && calls[k].Duplicate?
      invariant Quiet(w) ==> Quiet(m.W())
    {
      ghost var w1 := m.W();
      var ok, failed;
      guards, ok, failed, broken, lost := Perform(m, calls[n], guards, w.held, lost);
      if failed {
        failures := failures + 1;
      }
      if broken {
        assert !Quiet(w1) by { assert !NoneCounted(w1.mem[0]); NotQuiet(w1); }
        return;
      }
      TellMore(history, calls, oks, ok, Moment(m.W(), guards));
      oks, history := oks + [ok], history + [Moment(m.W(), guards)];
    }
    HeldConserves(w, m.W(), m.tracked, guards, lost);
    ConsistentFrees(m.W(), guards);
  }

  lemma NotQuiet(w: World)
    requires |w.mem| > 0 && !NoneCounted(w.mem[0])
    ensures !Quiet(w)
  {
  }
}
