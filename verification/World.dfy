/** The state of memory as one value, and what single steps do to it.

    `roots` is a table of level 4: entry `s` leads to the root node of live address space `s`.
    A page of a space is addressed by a path of five entry numbers, the space number last. */
module World {
  import opened Mmu
  import opened PageTree
  import opened FrameAllocator

  const TOP := 4

  /** `counts` and `free` come from the frame allocator; `held` are the references to frames that
      are held outside the trees: by live guards, or by whoever held a frame from the start. */
  datatype World = World(counts: Counts, free: nat, mem: Memory, roots: seq<Pte>, held: multiset<nat>)

  ghost predicate ValidRoots(roots: seq<Pte>) {
    forall s :: 0 <= s < |roots| ==> !roots[s].IsHuge()
  }

  /** How many entries of all trees name frame `f`; with `floor == 1`, name it as a node. */
  ghost function Uses(w: World, floor: nat, f: nat): nat {
    Count(w.mem, w.roots, TOP, floor, f)
  }

  /** Every reference to a tracked frame is an entry that names it or a holder outside the trees. */
  ghost predicate Balanced(w: World) {
    forall f: nat {:trigger w.counts[f]} {:trigger Uses(w, 0, f)} ::
      f < |w.counts| && w.counts[f].Some? ==> w.counts[f].value == Uses(w, 0, f) + w.held[f]
  }

  ghost predicate Consistent(w: World) {
    && |w.counts| <= |w.mem|
    && ValidRoots(w.roots)
    && WellFormed(w.mem, w.roots, TOP)
    && Unshared(w.mem, w.roots, TOP)
    && Balanced(w)
  }

  ghost function Find(w: World, p: Path): (h: Hit)
    requires |p| == TOP + 1
  {
    Deepest(w.mem, w.roots, TOP, p)
  }

  /** What the page of path `p` translates to. */
  ghost function View(w: World, p: Path): Translation
    requires |p| == TOP + 1
  {
    Meaning(Find(w, p))
  }

  /** The table of level `l` on path `q` is in frame `n`. */
  ghost predicate At(w: World, q: Path, l: nat, n: nat)
    ensures At(w, q, l, n) ==> |q| == TOP + 1 && l < TOP && n < |w.mem| && q[l] < ENTRY_COUNT
  {
    && |q| == TOP + 1 && l < TOP
    && Reaches(w.mem, w.roots, TOP, q, l)
    && NodeFrame(w.mem, w.roots, TOP, q, l) == n
  }

  /** Path `q` names a page of a live address space. */
  ghost predicate PagePath(roots: seq<Pte>, q: Path)
    ensures PagePath(roots, q) ==> |q| == TOP + 1 && q[TOP] < |roots| && roots[q[TOP]].Counted()
  {
    && |q| == TOP + 1
    && (forall l :: 0 <= l < TOP ==> q[l] < ENTRY_COUNT)
    && q[TOP] < |roots| && roots[q[TOP]].Counted()
  }

  // ---------------------------------------------------------------------------------------------
  // Comparing two states

  ghost predicate SameViews(w: World, w': World) {
    forall p: Path {:trigger View(w', p)} :: |p| == TOP + 1 ==> View(w', p) == View(w, p)
  }

  /** Only the translation of path `q` may differ. */
  ghost predicate OnlyView(w: World, w': World, q: Path) {
    forall p: Path {:trigger View(w', p)} :: |p| == TOP + 1 && p != q ==> View(w', p) == View(w, p)
  }

  /** Frame `f` is in use, and not as a node. */
  ghost predicate Data(w: World, f: nat) {
    && f < |w.mem|
    && Uses(w, 1, f) == 0
    && (f < |w.counts| && w.counts[f].Some? ==> w.counts[f].value > 0)
  }

  /** Contents of frames in use for data, and their being no nodes, are not disturbed. */
  ghost predicate DataKept(w: World, w': World) {
    && |w'.mem| == |w.mem|
    && forall f: nat {:trigger Data(w, f)} :: Data(w, f) ==> w'.mem[f] == w.mem[f] && Uses(w', 1, f) == 0
  }

  /** One reference to `gone`, if any, was given up; frames that were free may have been taken. */
  ghost predicate Consumed(c: Counts, c': Counts, gone: Option<nat>) {
    && |c'| == |c|
    && forall f: nat {:trigger c'[f]} {:trigger c[f]} :: f < |c| ==>
         && (c[f].None? <==> c'[f].None?)
         && (c[f].Some? && c[f].value > 0 ==>
               c'[f] == if gone.Some? && gone.value == f then Some(c[f].value - 1) else c[f])
  }

  /** The frame of a mapped 4 KiB page. */
  function LeafFrame(t: Translation): Option<nat> {
    if t.Mapped? && t.level == 0 then Some(t.frame) else None
  }

  lemma KeptThen(w: World, w': World, w'': World)
    requires Consumed(w.counts, w'.counts, None)
    requires DataKept(w, w') && DataKept(w', w'')
    ensures DataKept(w, w'')
  {
    forall f: nat | Data(w, f) ensures Data(w', f) {
      assert f < |w.counts| ==> w'.counts[f].None? == w.counts[f].None?;
    }
  }

  lemma ConsumedThen(c: Counts, c': Counts, c'': Counts, gone: Option<nat>)
    requires Consumed(c, c', None) && Consumed(c', c'', gone)
    ensures Consumed(c, c'', gone)
  {
  }

  lemma SameViewsThen(w: World, w': World, w'': World)
    requires SameViews(w, w') && SameViews(w', w'')
    ensures SameViews(w, w'')
  {
    forall p: Path | |p| == TOP + 1 ensures View(w'', p) == View(w, p) {
      assert View(w', p) == View(w, p);
    }
  }

  // ---------------------------------------------------------------------------------------------
  // References

  /** A frame that an entry names, or a guard holds, has a reference. */
  lemma NamedHasCount(w: World, f: nat)
    requires Consistent(w)
    requires Uses(w, 0, f) > 0 || f in w.held
    ensures Tracked(w.counts, f) ==> w.counts[f].value > 0
  {
  }

  /** A free frame is neither named by an entry nor held. */
  lemma FreeIsUnused(w: World, f: nat)
    requires Consistent(w) && f < |w.counts| && w.counts[f] == Some(0)
    ensures Uses(w, 0, f) == 0 && Uses(w, 1, f) == 0 && w.held[f] == 0
  {
    CountFloor(w.mem, w.roots, TOP, f);
  }

  lemma UsedOnce(w: World)
    requires Consistent(w)
    ensures forall f: nat {:trigger Uses(w, 1, f)} :: Uses(w, 1, f) <= 1
  {
  }

  function TakeFrame(w: World, f: nat): World
    requires f < |w.counts| && w.counts[f] == Some(0) && w.free > 0
  {
    w.(counts := w.counts[f := Some(1)], free := w.free - 1, held := w.held + multiset{f})
  }

  lemma TakeFrameKeeps(w: World, f: nat)
    requires Consistent(w) && f < |w.counts| && w.counts[f] == Some(0) && w.free > 0
    ensures Consistent(TakeFrame(w, f))
  {
    FreeIsUnused(w, f);
  }

  lemma AcquireKeeps(w: World, w': World, f: nat)
    requires Consistent(w)
    requires w' == w.(counts := Acquire(w.counts, f), held := w.held + multiset{f})
    ensures Consistent(w')
  {
  }

  lemma ReleaseKeeps(w: World, w': World, f: nat)
    requires Consistent(w) && f in w.held
    requires w' == w.(counts := Release(w.counts, f), held := w.held - multiset{f}, free := w'.free)
    ensures Consistent(w')
  {
    assert forall g: nat :: w'.held[g] == if g == f then w.held[g] - 1 else w.held[g];
    NamedHasCount(w, f);
  }

  // ---------------------------------------------------------------------------------------------
  // Entries

  /** Entry `e` replaced the entry of level `l` on path `q`: paths through it see `e`, others no change. */
  ghost predicate Redirected(w: World, w': World, q: Path, l: nat, e: Pte)
    requires |q| == TOP + 1 && l < TOP
  {
    forall p: Path {:trigger Find(w', p)} | |p| == TOP + 1 ::
      Find(w', p) == if Agree(p, q, l, TOP) then DeepestAt(w.mem, e, l, p) else Find(w, p)
  }

  /** Overwrites entry `i` of the table in frame `n`. */
  function Put(w: World, n: nat, i: nat, e: Pte): World
    requires n < |w.mem| && i < ENTRY_COUNT
  {
    w.(mem := Write(w.mem, n, i, e))
  }

  ghost predicate PutFits(w: World, q: Path, l: nat, n: nat, e: Pte)
    requires At(w, q, l, n)
  {
    && EntryFormed(w.mem, e, l)
    && CountAt(w.mem, e, l, 1, n) == 0
    && forall f: nat {:trigger Uses(w, 1, f)} ::
         Uses(w, 1, f) - CountAt(w.mem, w.mem[n][q[l]], l, 1, f) + CountAt(w.mem, e, l, 1, f) <= 1
  }

  /** Entry `e` of level `l` took the place of entry `d`. */
  ghost predicate PutUses(w: World, w': World, l: nat, floor: nat, d: Pte, e: Pte) {
    forall f: nat {:trigger Uses(w', floor, f)} ::
      Uses(w', floor, f) + CountAt(w.mem, d, l, floor, f) == Uses(w, floor, f) + CountAt(w.mem, e, l, floor, f)
  }

  lemma PutKeeps(w: World, w': World, q: Path, l: nat, n: nat, e: Pte)
    requires Consistent(w) && At(w, q, l, n) && PutFits(w, q, l, n, e)
    requires w'.mem == Write(w.mem, n, q[l], e) && w'.roots == w.roots
    ensures WellFormed(w'.mem, w'.roots, TOP) && Unshared(w'.mem, w'.roots, TOP)
    ensures At(w', q, l, n)
    ensures Redirected(w, w', q, l, e)
    ensures PutUses(w, w', l, 0, w.mem[n][q[l]], e)
    ensures PutUses(w, w', l, 1, w.mem[n][q[l]], e)
  {
    hide Count, CountAt, EntryFormed, WellFormed;
    forall f: nat
      ensures Count(w.mem, w.roots, TOP, 1, f) - CountAt(w.mem, w.mem[n][q[l]], l, 1, f) +
        CountAt(w.mem, e, l, 1, f) <= 1
    {
      assert Uses(w, 1, f) == Count(w.mem, w.roots, TOP, 1, f);
    }
    WriteKeeps(w.mem, w'.mem, w.roots, TOP, q, l, e);
    WriteInside(w.mem, w'.mem, w.roots, TOP, q, l, e);
    forall p: Path | |p| == TOP + 1
      ensures Find(w', p) == if Agree(p, q, l, TOP) then DeepestAt(w.mem, e, l, p) else Find(w, p)
    {
      WriteDeepest(w.mem, w'.mem, w.roots, TOP, q, l, e, p);
    }
    forall f: nat
      ensures Uses(w', 0, f) + CountAt(w.mem, w.mem[n][q[l]], l, 0, f) == Uses(w, 0, f) + CountAt(w.mem, e, l, 0, f)
    {
      WriteCount(w.mem, w'.mem, w.roots, TOP, q, l, e, 0, f);
    }
    forall f: nat
      ensures Uses(w', 1, f) + CountAt(w.mem, w.mem[n][q[l]], l, 1, f) == Uses(w, 1, f) + CountAt(w.mem, e, l, 1, f)
    {
      WriteCount(w.mem, w'.mem, w.roots, TOP, q, l, e, 1, f);
    }
  }

  /** The node of a path is a node, once, and not below itself. */
  lemma AtNode(w: World, q: Path, l: nat, n: nat)
    requires Consistent(w) && At(w, q, l, n)
    ensures Uses(w, 1, n) == 1
    ensures Count(w.mem, w.mem[n], l, 1, n) == 0
    ensures forall i :: 0 <= i < ENTRY_COUNT ==> EntryFormed(w.mem, w.mem[n][i], l)
    ensures Find(w, q) == DeepestAt(w.mem, w.mem[n][q[l]], l, q)
    ensures !Data(w, n)
  {
    InsideCounts(w.mem, w.roots, TOP, q, l, n);
    NodeOnce(w.mem, w.roots, TOP, q, l);
    FormedAt(w.mem, w.roots, TOP, q, l);
    DeepestReached(w.mem, w.roots, TOP, q, l, q);
  }

  /** Nodes that are neither `n` nor new keep their contents, so data is kept. */
  lemma PutKeepsData(w: World, w': World, n: nat)
    requires Uses(w, 1, n) > 0
    requires |w'.mem| == |w.mem| && forall x :: 0 <= x < |w.mem| && x != n ==> w'.mem[x] == w.mem[x]
    requires forall f :: Uses(w', 1, f) <= Uses(w, 1, f)
    ensures DataKept(w, w')
  {
  }

  // ---------------------------------------------------------------------------------------------
  // The steps of mapping and unmapping

  /** New flags for an entry that leads on (or maps a page). */
  lemma FlagsKeep(w: World, q: Path, l: nat, n: nat, flags: Flags)
    requires Consistent(w) && At(w, q, l, n) && w.mem[n][q[l]].Counted()
    requires Present in flags && Huge !in flags
    ensures var w' := Put(w, n, q[l], Pte(w.mem[n][q[l]].frame, flags));
      && Consistent(w') && At(w', q, l, n)
      && Redirected(w, w', q, l, Pte(w.mem[n][q[l]].frame, flags))
      && DataKept(w, w')
  {
    var e := Pte(w.mem[n][q[l]].frame, flags);
    assert forall floor, f :: CountAt(w.mem, e, l, floor, f) == CountAt(w.mem, w.mem[n][q[l]], l, floor, f);
    AtNode(w, q, l, n);
    CountPart(w.mem, w.mem[n], q[l], l, 1, n);
    assert EntryFormed(w.mem, w.mem[n][q[l]], l);
    PutKeeps(w, Put(w, n, q[l], e), q, l, n, e);
    PutKeepsData(w, Put(w, n, q[l], e), n);
  }

  /** Widening the flags of an intermediate entry changes nothing one can find below. */
  lemma WidenKeeps(w: World, q: Path, l: nat, n: nat, flags: Flags)
    requires Consistent(w) && At(w, q, l, n) && w.mem[n][q[l]].Counted() && l > 0
    requires Present in flags && Huge !in flags
    ensures var w' := Put(w, n, q[l], Pte(w.mem[n][q[l]].frame, flags));
      && Consistent(w') && At(w', q, l, n)
      && (forall p: Path :: |p| == TOP + 1 ==> Find(w', p) == Find(w, p))
      && SameViews(w, w') && DataKept(w, w')
  {
    FlagsKeep(w, q, l, n, flags);
    var w' := Put(w, n, q[l], Pte(w.mem[n][q[l]].frame, flags));
    forall p: Path | |p| == TOP + 1 ensures Find(w', p) == Find(w, p) {
      if Agree(p, q, l, TOP) {
        DeepestReached(w.mem, w.roots, TOP, q, l, p);
      }
    }
  }

  lemma GoDown(w: World, q: Path, l: nat, n: nat)
    requires Consistent(w) && PagePath(w.roots, q) && At(w, q, l, n) && l > 0 && w.mem[n][q[l]].Counted()
    ensures At(w, q, l - 1, w.mem[n][q[l]].frame)
  {
    AtNode(w, q, l, n);
    assert EntryFormed(w.mem, w.mem[n][q[l]], l);
    Descend(w.mem, w.roots, TOP, q, l);
  }

  lemma GoIn(w: World, q: Path)
    requires Consistent(w) && PagePath(w.roots, q)
    ensures At(w, q, ROOT_LEVEL, w.roots[q[TOP]].frame)
  {
    assert EntryFormed(w.mem, w.roots[q[TOP]], TOP);
    assert Reaches(w.mem, w.mem[w.roots[q[TOP]].frame], ROOT_LEVEL, q, ROOT_LEVEL);
  }

  /** An entry for a leaf, or for a node with no entries yet. */
  lemma NewEntry(mem: Memory, l: nat, f: nat, e: Pte)
    requires e.Counted() && e.frame == f
    requires l > 0 ==> f < |mem| && mem[f] == EMPTY_TABLE
    ensures EntryFormed(mem, e, l)
    ensures forall g, floor :: CountAt(mem, e, l, floor, g) == if g == f && l >= floor then 1 else 0
  {
    forall g, floor ensures CountAt(mem, e, l, floor, g) == if g == f && l >= floor then 1 else 0 {
      if l > 0 { CountNothing(mem, EMPTY_TABLE, l - 1, floor, g); }
    }
  }

  /** `FrameGuard::store()`: the entry takes over the guard's reference. */
  function PutGuard(w: World, n: nat, i: nat, f: nat, flags: Flags): World
    requires n < |w.mem| && i < ENTRY_COUNT
  {
    Put(w, n, i, Pte.Of(f, flags)).(held := w.held - multiset{f})
  }

  lemma PutGuardKeeps(w: World, q: Path, l: nat, n: nat, f: nat, flags: Flags)
    requires Consistent(w) && At(w, q, l, n) && !w.mem[n][q[l]].Counted()
    requires f in w.held && Huge !in flags
    requires l > 0 ==> f < |w.mem| && w.mem[f] == EMPTY_TABLE && f != n && Uses(w, 1, f) == 0
    ensures var w' := PutGuard(w, n, q[l], f, flags);
      && Consistent(w') && At(w', q, l, n)
      && Redirected(w, w', q, l, Pte.Of(f, flags))
      && (forall g :: Uses(w', 1, g) == Uses(w, 1, g) + if l > 0 && g == f then 1 else 0)
  {
    var e := Pte.Of(f, flags);
    NewEntry(w.mem, l, f, e);
    var w' := PutGuard(w, n, q[l], f, flags);
    PutKeeps(w, w', q, l, n, e);
    assert forall g: nat :: w'.held[g] == if g == f then w.held[g] - 1 else w.held[g];
  }

  /** `FrameGuard::load()` from a leaf: the guard takes over the entry's reference. */
  function TakeGuard(w: World, n: nat, i: nat): World
    requires n < |w.mem| && i < ENTRY_COUNT
  {
    if w.mem[n][i].IsPresent()
    then Put(w, n, i, EMPTY).(held := w.held + multiset{w.mem[n][i].frame})
    else w
  }

  lemma TakeGuardKeeps(w: World, q: Path, n: nat)
    requires Consistent(w) && At(w, q, 0, n)
    ensures var w' := TakeGuard(w, n, q[0]);
      && Consistent(w') && At(w', q, 0, n)
      && OnlyView(w, w', q) && View(w', q) == Unmapped
      && (forall g :: Uses(w', 1, g) == Uses(w, 1, g))
    ensures View(w, q) == Meaning(Hit(0, w.mem[n][q[0]]))
    ensures w.mem[n][q[0]].IsPresent() ==> w.mem[n][q[0]].Counted()
  {
    AtNode(w, q, 0, n);
    var e := w.mem[n][q[0]];
    assert EntryFormed(w.mem, e, 0);
    if e.IsPresent() {
      var w' := TakeGuard(w, n, q[0]);
      PutKeeps(w, w', q, 0, n, EMPTY);
      LeafRedirected(w, w', q, EMPTY);
    }
  }

  /** At level 0 a redirected path is a single page. */
  lemma LeafRedirected(w: World, w': World, q: Path, e: Pte)
    requires |q| == TOP + 1 && Redirected(w, w', q, 0, e)
    ensures OnlyView(w, w', q) && View(w', q) == Meaning(Hit(0, e))
  {
    assert Find(w', q) == Hit(0, e);
    forall p: Path | |p| == TOP + 1 && p != q ensures View(w', p) == View(w, p) {
      assert !Agree(p, q, 0, TOP);
      assert Find(w', p) == Find(w, p);
    }
  }

  /** `Mapping::allocate_node()`: a free frame is taken and filled with empty entries. */
  function TakeNode(w: World, f: nat): World
    requires f < |w.counts| <= |w.mem| && w.counts[f] == Some(0) && w.free > 0
  {
    World(w.counts[f := Some(1)], w.free - 1, w.mem[f := EMPTY_TABLE], w.roots, w.held + multiset{f})
  }

  lemma TakeNodeKeeps(w: World, f: nat)
    requires Consistent(w) && f < |w.counts| && w.counts[f] == Some(0) && w.free > 0
    ensures Consistent(TakeNode(w, f))
    ensures forall p: Path {:trigger Find(TakeNode(w, f), p)} :: |p| == TOP + 1 ==>
      Find(TakeNode(w, f), p) == Find(w, p)
    ensures forall floor, g :: Uses(TakeNode(w, f), floor, g) == Uses(w, floor, g)
    ensures Uses(w, 1, f) == 0
  {
    FreeIsUnused(w, f);
    var w' := TakeNode(w, f);
    assert forall x: nat :: x < |w.mem| && w'.mem[x] != w.mem[x] ==> x == f;
    Frame(w.mem, w'.mem, w.roots, TOP);
  }

  lemma TakeNodeAt(w: World, f: nat, q: Path, l: nat, n: nat)
    requires Consistent(w) && f < |w.counts| && w.counts[f] == Some(0) && w.free > 0
    requires At(w, q, l, n)
    ensures f != n && TakeNode(w, f).mem[n] == w.mem[n]
    ensures At(TakeNode(w, f), q, l, n)
  {
    FreeIsUnused(w, f);
    AtNode(w, q, l, n);
    var w' := TakeNode(w, f);
    assert forall x: nat :: x < |w.mem| && w'.mem[x] != w.mem[x] ==> x == f;
    FrameReaches(w.mem, w'.mem, w.roots, TOP, q, l);
  }

  /** Adding a missing node: no translation changes, and the path reaches one level further. */
  lemma AddNodeKeeps(w: World, q: Path, l: nat, n: nat, f: nat, flags: Flags)
    requires Consistent(w) && PagePath(w.roots, q) && At(w, q, l, n) && l > 0
    requires !w.mem[n][q[l]].IsPresent() && Huge !in flags
    requires f < |w.counts| && w.counts[f] == Some(0) && w.free > 0
    ensures var w' := PutGuard(TakeNode(w, f), n, q[l], f, flags);
      && Consistent(w') && At(w', q, l - 1, f)
      && SameViews(w, w') && DataKept(w, w') && Consumed(w.counts, w'.counts, None)
      && Find(w', q) == Hit(l - 1, EMPTY)
      && w'.held == w.held
  {
    hide Count, CountAt, EntryFormed, WellFormed, Unshared, Uses, SameViews, DataKept, Consumed;
    var w1 := TakeNode(w, f);
    TakeNodeKeeps(w, f);
    TakeNodeAt(w, f, q, l, n);
    AtNode(w, q, l, n);
    var w' := PutGuard(w1, n, q[l], f, flags);
    hide Consistent;
    PutGuardKeeps(w1, q, l, n, f, flags);
    GoDown(w', q, l, n);
    AddNodeViews(w, q, l, n, f, flags);
    AddNodeData(w, q, l, n, f, flags);
  }

  lemma AddNodeViews(w: World, q: Path, l: nat, n: nat, f: nat, flags: Flags)
    requires PagePath(w.roots, q) && At(w, q, l, n) && l > 0 && !w.mem[n][q[l]].IsPresent() && Huge !in flags
    requires f < |w.counts| <= |w.mem| && w.counts[f] == Some(0) && w.free > 0 && f != n
    requires var w1 := TakeNode(w, f);
      && (forall p: Path {:trigger Find(w1, p)} :: |p| == TOP + 1 ==> Find(w1, p) == Find(w, p))
      && Redirected(w1, PutGuard(w1, n, q[l], f, flags), q, l, Pte.Of(f, flags))
    ensures SameViews(w, PutGuard(TakeNode(w, f), n, q[l], f, flags))
    ensures Find(PutGuard(TakeNode(w, f), n, q[l], f, flags), q) == Hit(l - 1, EMPTY)
  {
    hide Count, CountAt, EntryFormed, WellFormed, Unshared, Uses;
    var w1 := TakeNode(w, f);
    var w' := PutGuard(w1, n, q[l], f, flags);
    var e := Pte.Of(f, flags);
    forall p: Path | |p| == TOP + 1 && Agree(p, q, l, TOP)
      ensures DeepestAt(w1.mem, e, l, p) == Hit(l - 1, EMPTY) && View(w, p) == Unmapped
    {
      DeepestReached(w.mem, w.roots, TOP, q, l, p);
    }
    forall p: Path | |p| == TOP + 1 ensures View(w', p) == View(w, p) {
      assert Find(w', p) == if Agree(p, q, l, TOP) then DeepestAt(w1.mem, e, l, p) else Find(w1, p);
    }
  }

  lemma AddNodeData(w: World, q: Path, l: nat, n: nat, f: nat, flags: Flags)
    requires f < |w.counts| <= |w.mem| && w.counts[f] == Some(0) && w.free > 0 && n < |w.mem| && n != f
    requires l < |q| && q[l] < ENTRY_COUNT
    requires l > 0 && Uses(w, 1, n) > 0
    requires var w1 := TakeNode(w, f);
      && (forall floor, g :: Uses(w1, floor, g) == Uses(w, floor, g))
      && (forall g :: Uses(PutGuard(w1, n, q[l], f, flags), 1, g) == Uses(w1, 1, g) + if l > 0 && g == f then 1 else 0)
    ensures DataKept(w, PutGuard(TakeNode(w, f), n, q[l], f, flags))
    ensures Consumed(w.counts, PutGuard(TakeNode(w, f), n, q[l], f, flags).counts, None)
  {
    hide Uses;
  }

  /** A new frame is written to a leaf; the guard of the old one is still held. */
  lemma PutLeafKeeps(w: World, w': World, q: Path, n: nat, frame: nat, flags: Flags)
    requires Consistent(w) && At(w, q, 0, n) && frame in w.held && Huge !in flags
    requires w' == PutGuard(TakeGuard(w, n, q[0]), n, q[0], frame, flags)
    ensures Consistent(w') && w'.counts == w.counts
    ensures View(w', q) == Mapped(0, frame, flags + {Present}) && OnlyView(w, w', q)
    ensures DataKept(w, w')
    ensures var gone := LeafFrame(View(w, q));
      w'.held == if gone.Some? then w.held - multiset{frame} + multiset{gone.value} else w.held - multiset{frame}
  {
    hide Count, CountAt, EntryFormed, WellFormed, Unshared, Balanced;
    AtNode(w, q, 0, n);
    TakeGuardKeeps(w, q, n);
    var w0 := TakeGuard(w, n, q[0]);
    PutGuardKeeps(w0, q, 0, n, frame, flags);
    LeafRedirected(w0, w', q, Pte.Of(frame, flags));
    forall p: Path | |p| == TOP + 1 && p != q ensures View(w', p) == View(w, p) {
      assert View(w', p) == View(w0, p) == View(w, p);
    }
    assert forall f :: Uses(w', 1, f) == Uses(w0, 1, f) == Uses(w, 1, f);
    PutKeepsData(w, w', n);
  }

  /** The leaf write of a mapping: the new frame goes in, the old one is released. */
  lemma ReplaceLeafKeeps(w: World, w1: World, w': World, q: Path, n: nat, frame: nat, flags: Flags)
    requires Consistent(w) && At(w, q, 0, n) && frame in w.held && Huge !in flags
    requires w1 == PutGuard(TakeGuard(w, n, q[0]), n, q[0], frame, flags)
    requires Dropped(w1, w', LeafFrame(View(w, q)))
    ensures Consistent(w')
    ensures w'.held == w.held - multiset{frame}
    ensures View(w', q) == Mapped(0, frame, flags + {Present}) && OnlyView(w, w', q)
    ensures DataKept(w, w') && Consumed(w.counts, w'.counts, LeafFrame(View(w, q)))
  {
    hide Count, CountAt, EntryFormed, WellFormed, Unshared, At, Balanced, TakeGuard, PutGuard;
    PutLeafKeeps(w, w1, q, n, frame, flags);
    DroppedKeeps(w1, w', LeafFrame(View(w, q)));
    forall p: Path | |p| == TOP + 1 && p != q ensures View(w', p) == View(w, p) {
      assert View(w', p) == View(w1, p);
    }
    assert View(w', q) == View(w1, q);
    forall f: nat | Data(w, f) ensures w'.mem[f] == w.mem[f] && Uses(w', 1, f) == 0 { }
  }

  /** The guard of `gone`, if there is one, was dropped. */
  ghost predicate Dropped(w: World, w': World, gone: Option<nat>) {
    w' == if gone.Some?
          then w.(counts := Release(w.counts, gone.value), held := w.held - multiset{gone.value}, free := w'.free)
          else w
  }

  lemma DroppedKeeps(w: World, w': World, gone: Option<nat>)
    requires Consistent(w) && Dropped(w, w', gone)
    requires gone.Some? ==> gone.value in w.held
    ensures Consistent(w')
    ensures SameViews(w, w')
    ensures forall f :: Uses(w', 1, f) == Uses(w, 1, f)
    ensures Consumed(w.counts, w'.counts, gone)
  {
    if gone.Some? {
      ReleaseKeeps(w, w', gone.value);
      NamedHasCount(w, gone.value);
    }
  }

  /** Unmapping a page: only its translation goes, and its frame is released. */
  lemma DropLeafKeeps(w: World, w': World, q: Path, n: nat)
    requires Consistent(w) && At(w, q, 0, n) && w.mem[n][q[0]].IsPresent()
    requires var w1 := TakeGuard(w, n, q[0]);
      var f := w.mem[n][q[0]].frame;
      w' == w1.(counts := Release(w1.counts, f), held := w1.held - multiset{f}, free := w'.free)
    ensures Consistent(w') && w'.held == w.held
    ensures View(w, q).Mapped? && View(w, q).level == 0
    ensures View(w', q) == Unmapped && OnlyView(w, w', q)
    ensures DataKept(w, w') && Consumed(w.counts, w'.counts, LeafFrame(View(w, q)))
  {
    hide Count, CountAt, EntryFormed, WellFormed, Unshared;
    AtNode(w, q, 0, n);
    TakeGuardKeeps(w, q, n);
    var w1 := TakeGuard(w, n, q[0]);
    ReleaseKeeps(w1, w', w.mem[n][q[0]].frame);
    forall p: Path | |p| == TOP + 1 ensures View(w', p) == View(w1, p) { }
    forall f: nat | Data(w, f) ensures f != n { }
    assert forall f :: Uses(w', 1, f) == Uses(w1, 1, f) == Uses(w, 1, f);
  }
}
