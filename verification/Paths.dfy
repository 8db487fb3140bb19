/** Paths from the root of an address space to the entry that maps a page: finding them,
    mapping and unmapping through them. */
module Paths {
  import opened Mmu
  import opened PageTree
  import opened World
  import opened Machine
  import opened Rights

  /** A pointer to one entry of one node. */
  datatype Slot = Slot(frame: nat, index: nat)

  /** The entry a slot points at. */
  function Deref(mem: Memory, s: Slot): Pte {
    if s.frame < |mem| && s.index < ENTRY_COUNT then mem[s.frame][s.index] else EMPTY
  }

  /** `nodes` points at the entries of path `q` from the root down to the deepest one, and no further. */
  ghost predicate Traces(w: World, q: Path, nodes: seq<Option<Slot>>)
    ensures Traces(w, q, nodes) ==>
      && |q| == TOP + 1 && |nodes| == TOP
      && Find(w, q).level < TOP && nodes[Find(w, q).level].Some?
      && (forall l :: 0 <= l < Find(w, q).level ==> nodes[l] == None)
  {
    && |q| == TOP + 1 && |nodes| == TOP
    && Find(w, q).level < TOP
    && (forall l :: 0 <= l < Find(w, q).level ==> nodes[l] == None)
    && (forall l :: Find(w, q).level <= l < TOP ==>
          nodes[l].Some? && nodes[l].value.index == q[l] && At(w, q, l, nodes[l].value.frame))
  }

  /** The assertions of `Path::validate()`. */
  ghost predicate Validated(mem: Memory, nodes: seq<Option<Slot>>) {
    && |nodes| == TOP
    && exists level: nat ::
         && level < TOP && nodes[level].Some?
         && (forall l :: 0 <= l < level ==> nodes[l] == None)
         && (forall l :: level < l < TOP ==> nodes[l].Some? && Deref(mem, nodes[l].value).IsPresent())
         && (level > LEAF_LEVEL ==>
               Deref(mem, nodes[level].value).IsPresent() == Deref(mem, nodes[level].value).IsHuge())
  }

  lemma {:induction false} DeepestBelow(mem: Memory, t: seq<Pte>, level: nat, q: Path)
    requires level < |q|
    ensures Deepest(mem, t, level, q).level <= level
    decreases level
  {
    if q[level] < |t| && level > 0 {
      DeepestBelow(mem, Below(mem, t[q[level]]), level - 1, q);
    }
  }

  /** Whatever path one follows from table `t` down, its nodes are in memory, and huge entries are present. The tables
      need not form a tree. */
  ghost predicate Walkable(mem: Memory, t: seq<Pte>, level: nat)
    decreases level
  {
    forall i {:trigger t[i]} :: 0 <= i < |t| ==>
      && (t[i].IsHuge() ==> t[i].IsPresent())
      && (level > 0 && t[i].Counted() ==> t[i].frame < |mem| && Walkable(mem, mem[t[i].frame], level - 1))
  }

  lemma {:induction false} FormedWalkable(mem: Memory, t: seq<Pte>, level: nat)
    requires WellFormed(mem, t, level)
    ensures Walkable(mem, t, level)
    decreases level
  {
    forall i | 0 <= i < |t|
      ensures t[i].IsHuge() ==> t[i].IsPresent()
      ensures level > 0 && t[i].Counted() ==> t[i].frame < |mem| && Walkable(mem, mem[t[i].frame], level - 1)
    {
      assert EntryFormed(mem, t[i], level);
      if level > 0 && t[i].Counted() { FormedWalkable(mem, mem[t[i].frame], level - 1); }
    }
  }

  lemma {:induction false} WalkableAt(mem: Memory, t: seq<Pte>, level: nat, q: Path, l: nat)
    requires l < level < |q| && Reaches(mem, t, level, q, l) && Walkable(mem, t, level)
    ensures Walkable(mem, mem[NodeFrame(mem, t, level, q, l)], l)
    decreases level
  {
    assert t[q[level]].Counted();
    if l < level - 1 {
      WalkableAt(mem, mem[t[q[level]].frame], level - 1, q, l);
    }
  }

  /** The entry of a reached table either is the deepest of its path or leads on. */
  lemma TraceStep(w: World, q: Path, l: nat, n: nat)
    requires Walkable(w.mem, w.roots, TOP) && PagePath(w.roots, q) && At(w, q, l, n)
    ensures Find(w, q).level <= l
    ensures Find(w, q).level == l ==> Find(w, q) == Hit(l, w.mem[n][q[l]])
    ensures Find(w, q).level == l <==> l == 0 || !w.mem[n][q[l]].Counted()
    ensures Find(w, q).level < l ==> At(w, q, l - 1, w.mem[n][q[l]].frame)
    ensures w.mem[n][q[l]].IsHuge() ==> w.mem[n][q[l]].IsPresent()
  {
    WalkableAt(w.mem, w.roots, TOP, q, l);
    DeepestReached(w.mem, w.roots, TOP, q, l, q);
    var e := w.mem[n][q[l]];
    if l > 0 && e.Counted() {
      Descend(w.mem, w.roots, TOP, q, l);
      DeepestBelow(w.mem, Below(w.mem, e), l - 1, q);
    }
  }

  lemma WalkStep(w: World, q: Path, l: nat, n: nat)
    requires Consistent(w) && PagePath(w.roots, q) && At(w, q, l, n)
    ensures Find(w, q).level <= l
    ensures Find(w, q).level == l ==> Find(w, q) == Hit(l, w.mem[n][q[l]])
    ensures Find(w, q).level == l <==> l == 0 || !w.mem[n][q[l]].Counted()
    ensures Find(w, q).level < l ==> At(w, q, l - 1, w.mem[n][q[l]].frame)
    ensures w.mem[n][q[l]].IsHuge() ==> w.mem[n][q[l]].IsPresent() && l > 0
  {
    AtNode(w, q, l, n);
    var e := w.mem[n][q[l]];
    assert EntryFormed(w.mem, e, l);
    if l > 0 && e.Counted() {
      GoDown(w, q, l, n);
      DeepestBelow(w.mem, Below(w.mem, e), l - 1, q);
    }
  }

  /** A traced path never trips the assertions of `Path::validate()`, and its deepest entry is the
      one that decides the translation. */
  lemma TracedIsValid(w: World, q: Path, nodes: seq<Option<Slot>>)
    requires Walkable(w.mem, w.roots, TOP) && PagePath(w.roots, q) && Traces(w, q, nodes)
    ensures Validated(w.mem, nodes)
    ensures Deref(w.mem, nodes[Find(w, q).level].value) == Find(w, q).pte
  {
    hide Walkable, Find, PagePath, At;
    var level := Find(w, q).level;
    forall l | level <= l < TOP
      ensures nodes[l].Some? && (l > level ==> Deref(w.mem, nodes[l].value).IsPresent())
    {
      TraceStep(w, q, l, nodes[l].value.frame);
    }
    TraceStep(w, q, level, nodes[level].value.frame);
  }

  /** `Mapping::path()`. */
  method Walk(m: Machine, q: Path) returns (nodes: seq<Option<Slot>>)
    requires m.Valid() && PagePath(m.roots, q)
    ensures Traces(m.W(), q, nodes)
    ensures Validated(m.mem, nodes)
    ensures Deref(m.mem, nodes[Find(m.W(), q).level].value) == Find(m.W(), q).pte
  {
    FormedWalkable(m.mem, m.roots, TOP);
    hide m.Valid, Consistent, Find, At, Walkable;
    nodes := Trace(m, q);
    TracedIsValid(m.W(), q, nodes);
  }

  /** `Mapping::path()` on tables that need not form a tree. */
  method Trace(m: Machine, q: Path) returns (nodes: seq<Option<Slot>>)
    requires Walkable(m.mem, m.roots, TOP) && PagePath(m.roots, q)
    ensures Traces(m.W(), q, nodes) && nodes[ROOT_LEVEL] == Some(Slot(m.roots[q[TOP]].frame, q[ROOT_LEVEL]))
    ensures Validated(m.mem, nodes)
  {
    TraceIn(m.W(), q);
    hide Walkable, Find, At;
    nodes := [None, None, None, None];
    var frame := m.roots[q[TOP]].frame;
    var level := ROOT_LEVEL + 1;
    while level > LEAF_LEVEL
      invariant 0 <= level <= TOP && |nodes| == TOP
      invariant level > 0 ==> At(m.W(), q, level - 1, frame)
      invariant level == 0 ==> Find(m.W(), q).level == 0
      invariant forall l :: 0 <= l < level ==> nodes[l] == None
      invariant forall l :: level <= l < TOP ==>
        nodes[l].Some? && nodes[l].value.index == q[l] && At(m.W(), q, l, nodes[l].value.frame)
      invariant level == TOP ==> frame == m.roots[q[TOP]].frame
      invariant level < TOP ==> nodes[ROOT_LEVEL].Some? && nodes[ROOT_LEVEL].value.frame == m.roots[q[TOP]].frame
    {
      level := level - 1;
      TraceStep(m.W(), q, level, frame);
      var pte := m.mem[frame][q[level]];
      nodes := nodes[level := Some(Slot(frame, q[level]))];
      if level > LEAF_LEVEL && pte.Counted() {
        frame := pte.frame;
      } else {
        break;
      }
    }
    TracedIsValid(m.W(), q, nodes);
  }

  lemma TraceIn(w: World, q: Path)
    requires Walkable(w.mem, w.roots, TOP) && PagePath(w.roots, q)
    ensures At(w, q, ROOT_LEVEL, w.roots[q[TOP]].frame)
  {
    assert w.roots[q[TOP]].Counted();
    assert Reaches(w.mem, w.mem[w.roots[q[TOP]].frame], ROOT_LEVEL, q, ROOT_LEVEL);
  }

  /** `Path::deepest_pte()`. */
  method DeepestPte(nodes: seq<Option<Slot>>) returns (level: nat)
    requires exists l :: 0 <= l < |nodes| && nodes[l].Some?
    ensures level < |nodes| && nodes[level].Some?
    ensures forall l :: 0 <= l < level ==> nodes[l] == None
  {
    level := 0;
    while nodes[level].None?
      invariant level < |nodes|
      invariant forall l :: 0 <= l < level ==> nodes[l] == None
      decreases |nodes| - level
    {
      level := level + 1;
    }
  }

  /** Nothing of the flat map changed, and data is where it was. */
  ghost predicate Undisturbed(w: World, w': World) {
    && SameViews(w, w') && DataKept(w, w') && Consumed(w.counts, w'.counts, None)
    && w'.held == w.held && w'.roots == w.roots
  }

  lemma UndisturbedSelf(w: World)
    ensures Undisturbed(w, w)
  {
  }

  lemma UndisturbedThen(w: World, w': World, w'': World)
    requires Undisturbed(w, w') && Undisturbed(w', w'')
    ensures Undisturbed(w, w'')
  {
    hide View, Data;
    SameViewsThen(w, w', w'');
    KeptThen(w, w', w'');
    ConsumedThen(w.counts, w'.counts, w''.counts, None);
  }

  /** Makes the missing node below one entry of a path. */
  method AddNode(m: Machine, q: Path, l: nat, n: nat, flags: Flags) returns (r: Option<nat>)
    requires m.Valid() && PagePath(m.roots, q)
    requires 0 < l && At(m.W(), q, l, n) && !m.mem[n][q[l]].IsPresent() && Huge !in flags
    modifies m`mem, m`held, m.frames
    ensures m.Valid() && Undisturbed(old(m.W()), m.W())
    ensures r.None? <==> old(m.W()).free == 0
    ensures r.Some? ==>
      && At(m.W(), q, l - 1, r.value)
      && m.W().free == old(m.W()).free - 1
      && Find(m.W(), q) == Hit(l - 1, EMPTY)
      && (Present in flags && Open(old(m.W()), q, l, n, flags) ==> Open(m.W(), q, l - 1, r.value, flags))
    ensures Present in flags ==> Widened(old(m.W()), m.W(), {}) && WaysWidened(old(m.W()), m.W(), flags)
  {
    hide Consistent, Find, At, View, Uses, Data, Open, Widened, WaysWidened;
    ghost var w := m.W();
    UndisturbedSelf(w);
    WidenedSelf(w, w, {});
    WaysSelf(w, w, flags);
    r := m.AllocateNode();
    if r.Some? {
      TakeNodeAt(w, r.value, q, l, n);
      TakeNodeKeeps(w, r.value);
      assert Uses(m.W(), 1, r.value) == 0;
      m.Store(q, l, n, q[l], r.value, flags);
      AddNodeKeeps(w, q, l, n, r.value, flags);
      if Present in flags {
        AddNodeRights(w, q, l, n, r.value, flags);
        AddNodeWays(w, q, l, n, r.value, flags);
      }
    }
  }

  /** Widens the flags of one entry on a path, if need be. */
  method WidenFlags(m: Machine, q: Path, l: nat, n: nat, required: Flags)
    requires m.Valid() && At(m.W(), q, l, n) && 0 < l && m.mem[n][q[l]].Counted() && Huge !in required
    modifies m`mem
    ensures m.Valid() && Undisturbed(old(m.W()), m.W())
    ensures At(m.W(), q, l, n) && Find(m.W(), q) == Find(old(m.W()), q)
    ensures m.mem[n][q[l]].Counted() && m.mem[n][q[l]].frame == old(m.mem[n][q[l]].frame)
    ensures m.mem[n][q[l]].flags == old(m.mem[n][q[l]].flags) + required && Widened(old(m.W()), m.W(), required)
    ensures Open(old(m.W()), q, l, n, required) ==> Open(m.W(), q, l, n, required)
    ensures WaysWidened(old(m.W()), m.W(), required)
  {
    hide Consistent, Find, At, View, Uses, Data, Open, Widened, WaysWidened;
    UndisturbedSelf(m.W());
    WidenedSelf(m.W(), m.W(), required);
    WaysSelf(m.W(), m.W(), required);
    var pte := m.mem[n][q[l]];
    if pte.flags * required != required {
      WidenKeeps(m.W(), q, l, n, pte.flags + required);
      WidenRights(m.W(), q, l, n, required);
      WidenWays(m.W(), q, l, n, required);
      m.mem := Write(m.mem, n, q[l], Pte(pte.frame, pte.flags + required));
    }
  }

  /** The first loop of `Path::map()`: makes the missing nodes of a path and widens the flags on the way. */
  method MakeNodes(m: Machine, q: Path, flags: Flags) returns (r: Option<nat>)
    requires m.Valid() && PagePath(m.roots, q)
    requires !Find(m.W(), q).pte.IsHuge()
    modifies m`mem, m`held, m.frames
    ensures m.Valid() && Undisturbed(old(m.W()), m.W()) && m.held == old(m.held)
    ensures r.Some? <==> Find(old(m.W()), q).level <= old(m.W()).free
    ensures r.Some? ==> At(m.W(), q, LEAF_LEVEL, r.value)
    ensures r.Some? ==> Open(m.W(), q, LEAF_LEVEL, r.value, flags * FULL_ACCESS + {Present})
    ensures r.None? ==> m.W().free == 0
    ensures Widened(old(m.W()), m.W(), flags * FULL_ACCESS + {Present})
    ensures WaysWidened(old(m.W()), m.W(), flags * FULL_ACCESS + {Present})
  {
    hide Consistent, Find, At, View, Uses, Data, PagePath, Open, Widened, WaysWidened;
    ghost var w, h := m.W(), Find(m.W(), q);
    var required := (flags * FULL_ACCESS) + {Present};
    UndisturbedSelf(w);
    GoIn(m.W(), q);
    var n := m.roots[q[TOP]].frame;
    var level := ROOT_LEVEL;
    OpenRoot(w, q, n, required);
    WidenedSelf(w, w, required);
    WaysSelf(w, w, required);
    WalkStep(m.W(), q, level, n);
    while level > LEAF_LEVEL
      invariant 0 <= level <= ROOT_LEVEL
      invariant m.Valid() && At(m.W(), q, level, n) && Undisturbed(w, m.W())
      invariant level >= h.level ==> Find(m.W(), q) == h && m.W().free == w.free
      invariant level < h.level ==> Find(m.W(), q) == Hit(level, EMPTY) && m.W().free == w.free - (h.level - level)
      invariant h.level <= ROOT_LEVEL
      invariant Open(m.W(), q, level, n, required) && Widened(w, m.W(), required) && WaysWidened(w, m.W(), required)
    {
      ghost var w1 := m.W();
      WalkStep(m.W(), q, level, n);
      if !m.mem[n][q[level]].IsPresent() {
        var node := AddNode(m, q, level, n, required);
        UndisturbedThen(w, w1, m.W());
        WidenedMore(w1, m.W(), required);
        WidenedThen(w, w1, m.W(), required);
        WaysThen(w, w1, m.W(), required);
        if node.None? { return None; }
        n := node.value;
      } else {
        WidenFlags(m, q, level, n, required);
        UndisturbedThen(w, w1, m.W());
        WidenedThen(w, w1, m.W(), required);
        WaysThen(w, w1, m.W(), required);
        GoDown(m.W(), q, level, n);
        OpenBelow(m.W(), q, level, n, m.mem[n][q[level]].frame, required);
        n := m.mem[n][q[level]].frame;
      }
      level := level - 1;
    }
    r := Some(n);
  }

  /** The outcome of mapping or unmapping the page of path `q`: its translation becomes `t` and no other
      changes, one reference to its old frame is given up, and no other frame in use is touched. */
  ghost predicate Remapped(w: World, w': World, q: Path, t: Translation)
    requires |q| == TOP + 1
  {
    && View(w', q) == t && OnlyView(w, w', q)
    && DataKept(w, w') && Consumed(w.counts, w'.counts, LeafFrame(View(w, q)))
    && w'.roots == w.roots
  }

  lemma UndisturbedRemapped(w: World, w': World, w'': World, q: Path, t: Translation)
    requires |q| == TOP + 1
    requires Undisturbed(w, w') && Remapped(w', w'', q, t)
    ensures Remapped(w, w'', q, t)
  {
    hide View, Data;
    KeptThen(w, w', w'');
    assert View(w', q) == View(w, q);
    ConsumedThen(w.counts, w'.counts, w''.counts, LeafFrame(View(w, q)));
    forall p: Path | |p| == TOP + 1 && p != q ensures View(w'', p) == View(w, p) {
      assert View(w', p) == View(w, p);
    }
  }

  /** The outcome of a mapping that failed: no translation changed, and the guard of `frame` is gone. */
  ghost predicate Failed(w: World, w': World, frame: nat) {
    SameViews(w, w') && DataKept(w, w') && Consumed(w.counts, w'.counts, Some(frame))
  }

  /** `Path::map()`: maps the page of path `q` to `frame`, making the missing nodes on the way.

      It succeeds exactly when the path does not end in a huge page and the free frames suffice for the
      missing nodes. On failure no translation changes, though nodes made before frames ran out stay.
      Either way the caller's guard of `frame` is consumed. */
  method MapPath(m: Machine, q: Path, frame: nat, flags: Flags) returns (r: Result<()>)
    requires m.Valid() && PagePath(m.roots, q)
    requires frame in m.held && Huge !in flags
    modifies m`mem, m`held, m.frames
    ensures m.Valid()
    ensures m.held == old(m.held) - multiset{frame}
    ensures r.Ok? <==> !Find(old(m.W()), q).pte.IsHuge() && Find(old(m.W()), q).level <= old(m.W()).free
    ensures r.Err? ==> r.error == if Find(old(m.W()), q).pte.IsHuge() then Unimplemented else NoFrame
    ensures r.Ok? ==> Remapped(old(m.W()), m.W(), q, Mapped(0, frame, flags + {Present}))
    ensures r.Err? ==> Failed(old(m.W()), m.W(), frame)
    // The rights of the page are those asked for; other pages lose none, and gain at most such as were asked for.
    ensures r.Ok? ==> Granted(m.W(), q, flags)
    ensures r.Ok? ==> WidenedBut(old(m.W()), m.W(), q, flags * FULL_ACCESS + {Present})
    ensures r.Err? ==> Widened(old(m.W()), m.W(), flags * FULL_ACCESS + {Present})
    // The ways to leaf tables, which later changes of leaf entries rely on, have no right added but those asked for.
    ensures WaysWidened(old(m.W()), m.W(), flags * FULL_ACCESS + {Present})
    ensures r.Err? && r.error == NoFrame ==> m.W().free <= 1
  {
    hide Consistent, Find, At, View, Uses, PagePath, Traces, Remapped, Undisturbed, Failed, Validated, Tracks,
         Granted, Widened, WidenedBut, Open, WaysWidened;
    ghost var w := m.W();
    ghost var required := flags * FULL_ACCESS + {Present};
    var nodes := Walk(m, q);
    var deepest := DeepestPte(nodes);
    if Deref(m.mem, nodes[deepest].value).IsHuge() {
      UndisturbedSelf(w);
      m.DropGuard(frame);
      WidenedSelf(w, m.W(), required);
      WaysSelf(w, m.W(), required);
      FailedKeeps(w, w, m.W(), frame);
      return Err(Unimplemented);
    }
    var leaf := MakeNodes(m, q, flags);
    ghost var w1 := m.W();
    if leaf.None? {
      m.DropGuard(frame);
      WidenedSelf(w1, m.W(), required);
      WidenedThen(w, w1, m.W(), required);
      WaysSelf(w1, m.W(), required);
      WaysThen(w, w1, m.W(), required);
      FailedKeeps(w, w1, m.W(), frame);
      return Err(NoFrame);
    }
    ReplaceLeaf(m, q, leaf.value, frame, flags);
    UndisturbedRemapped(w, w1, m.W(), q, Mapped(0, frame, flags + {Present}));
    WidenedMoreBut(w1, m.W(), q, required);
    WidenedButThen(w, w1, m.W(), q, required);
    WaysMore(w1, m.W(), required);
    WaysThen(w, w1, m.W(), required);
    r := Ok(());
  }

  lemma FailedKeeps(w: World, w1: World, w': World, frame: nat)
    requires Undisturbed(w, w1) && Consistent(w1) && frame in w1.held
    requires Dropped(w1, w', Some(frame))
    ensures Failed(w, w', frame)
  {
    hide View, Data;
    DroppedKeeps(w1, w', Some(frame));
    SameViewsThen(w, w1, w');
    ConsumedThen(w.counts, w1.counts, w'.counts, Some(frame));
    KeptDropped(w, w1, w');
  }

  lemma KeptDropped(w: World, w1: World, w': World)
    requires DataKept(w, w1)
    requires w'.mem == w1.mem && w'.roots == w1.roots
    ensures DataKept(w, w')
  {
  }

  /** The leaf write of `Path::map()`. */
  method ReplaceLeaf(m: Machine, q: Path, n: nat, frame: nat, flags: Flags)
    requires m.Valid() && At(m.W(), q, 0, n) && PagePath(m.roots, q)
    requires frame in m.held && Huge !in flags
    modifies m`mem, m`held, m.frames
    ensures m.Valid()
    ensures m.held == old(m.held) - multiset{frame}
    ensures Remapped(old(m.W()), m.W(), q, Mapped(0, frame, flags + {Present}))
    ensures WidenedBut(old(m.W()), m.W(), q, {}) && WaysWidened(old(m.W()), m.W(), {})
    ensures Open(old(m.W()), q, 0, n, flags * FULL_ACCESS + {Present}) ==> Granted(m.W(), q, flags)
  {
    hide Consistent, Find, At, View, Uses, Data, PagePath, Granted, Widened, WidenedBut, Open, TakeGuard, PutGuard,
         Tracks, OnlyView, DataKept, Consumed, WaysWidened;
    ghost var w := m.W();
    var oldFrame := m.Load(q, n, q[0]);
    EmptiedLeaf(w, q, n, frame);
    m.Store(q, 0, n, q[0], frame, flags);
    ghost var w1 := m.W();
    PutLeafKeeps(w, w1, q, n, frame, flags);
    m.DropAny(oldFrame);
    ReplaceLeafKeeps(w, w1, m.W(), q, n, frame, flags);
    ReplaceRights(w, m.W(), q, n, frame, flags);
  }

  lemma EmptiedLeaf(w: World, q: Path, n: nat, frame: nat)
    requires Consistent(w) && At(w, q, 0, n) && frame in w.held
    ensures frame in TakeGuard(w, n, q[0]).held
    ensures n < |TakeGuard(w, n, q[0]).mem| && !TakeGuard(w, n, q[0]).mem[n][q[0]].Counted()
  {
    TakeGuardKeeps(w, q, n);
  }

  /** `Path::unmap()`: fails, changing nothing, exactly when the page is not mapped as a 4 KiB page. */
  method UnmapPath(m: Machine, q: Path) returns (r: Result<()>)
    requires m.Valid() && PagePath(m.roots, q)
    modifies m`mem, m`held, m.frames
    ensures m.Valid() && m.held == old(m.held)
    ensures r.Ok? <==> LeafFrame(View(old(m.W()), q)).Some?
    ensures r.Ok? ==> Remapped(old(m.W()), m.W(), q, Unmapped)
    ensures r.Ok? ==> WidenedBut(old(m.W()), m.W(), q, {}) && forall a: Flag :: !Right(m.W(), q, a)
    ensures WaysWidened(old(m.W()), m.W(), {})
    ensures r.Err? ==>
      && m.W() == old(m.W())
      && r.error == if View(m.W(), q).Mapped? then Unimplemented else NoPage
  {
    hide Consistent, Find, At, Uses, Data, PagePath, Right, WaysWidened;
    ghost var w := m.W();
    WaysSelf(w, w, {});
    var nodes := Walk(m, q);
    var level := DeepestPte(nodes);
    var slot := nodes[level].value;
    if level != LEAF_LEVEL {
      WalkStep(w, q, level, slot.frame);
      return Err(if Deref(m.mem, slot).IsHuge() then Unimplemented else NoPage);
    }
    WalkStep(w, q, 0, slot.frame);
    var frame := m.Load(q, slot.frame, q[0]);
    if frame.None? {
      return Err(NoPage);
    }
    m.DropGuard(frame.value);
    DropLeafKeeps(w, m.W(), q, slot.frame);
    ClearRights(w, m.W(), q, slot.frame);
    LeafWays(w, m.W(), q, slot.frame, EMPTY);
    r := Ok(());
  }
}
