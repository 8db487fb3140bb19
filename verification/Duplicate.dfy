/** `Mapping::duplicate()` and the theorem that dropping a copy undoes it. */
module Duplicate {
  import opened Mmu
  import opened PageTree
  import opened FrameAllocator
  import opened World
  import opened Machine
  import opened Clearing
  import opened Copying
  import opened Stray
  import opened Rights
  import opened NodeCount
  import Mapping

  /** Under entries `0 .. hi`, the table in `dst` says what a copy of the table in `src` says. */
  ghost predicate Copied(w: World, src: nat, dst: nat, l: nat, hi: nat) {
    && src < |w.mem| && dst < |w.mem|
    && (forall p: Path {:trigger Translate(w.mem, w.mem[dst], l, p)} | l < |p| && p[l] < hi ::
          Translate(w.mem, w.mem[dst], l, p) == CopyOf(Translate(w.mem, w.mem[src], l, p)))
    && RightsCopied(w, src, dst, l, hi)
  }

  /** Under entries `0 .. hi`, the paths that are copied grant what they grant in the original. */
  ghost predicate RightsCopied(w: World, src: nat, dst: nat, l: nat, hi: nat)
    requires src < |w.mem| && dst < |w.mem|
  {
    forall p: Path, a: Flag {:trigger Grants(w.mem, w.mem[dst], l, p, a)} | l < |p| && p[l] < hi ::
      Grants(w.mem, w.mem[dst], l, p, a) <==>
      CopyOf(Translate(w.mem, w.mem[src], l, p)).Mapped? && Grants(w.mem, w.mem[src], l, p, a)
  }

  /** `e` is what the copy of entry `d` should be. */
  ghost predicate CopiedEntry(w: World, d: Pte, e: Pte, l: nat) {
    && (forall p: Path {:trigger DeepestAt(w.mem, e, l, p)} | l < |p| ::
          Meaning(DeepestAt(w.mem, e, l, p)) == CopyOf(Meaning(DeepestAt(w.mem, d, l, p))))
    && (forall p: Path, a: Flag {:trigger GrantsAt(w.mem, e, l, p, a)} | l < |p| ::
          GrantsAt(w.mem, e, l, p, a) <==>
          CopyOf(Meaning(DeepestAt(w.mem, d, l, p))).Mapped? && GrantsAt(w.mem, d, l, p, a))
  }

  /** Writing the copy of entry `i` extends what is copied. */
  lemma CopiedAttach(w0: World, w: World, w': World, q: Path, src: nat, dst: nat, l: nat, i: nat, e: Pte)
    requires Consistent(w) && At(w, q, l, src) && Building(w0, w, dst, l, e) && Uses(w, 1, dst) == 0
    requires i < ENTRY_COUNT && w.mem[dst][i] == EMPTY && w' == w.(mem := Write(w.mem, dst, i, e))
    requires Copied(w, src, dst, l, i) && CopiedEntry(w, w.mem[src][i], e, l)
    ensures Building(w0, w', dst, l, EMPTY) && Consistent(w') && At(w', q, l, src)
    ensures w'.mem[src] == w.mem[src]
    ensures Copied(w', src, dst, l, i + 1)
  {
    hide Count, CountAt, EntryFormed, WellFormed, Building, Reaches, NodeFrame;
    Attach(w0, w, w', dst, l, i, e);
    SourceKept(w, w', q, l, src);
    forall p: Path | l < |p| && p[l] < i + 1
      ensures Translate(w'.mem, w'.mem[dst], l, p) == CopyOf(Translate(w'.mem, w'.mem[src], l, p))
    {
      assert Deepest(w'.mem, w.mem[src], l, p) == Deepest(w.mem, w.mem[src], l, p);
      if p[l] < i {
        assert Translate(w.mem, w.mem[dst], l, p) == CopyOf(Translate(w.mem, w.mem[src], l, p));
      }
    }
    RightsAttach(w0, w, w', src, dst, l, i, e);
  }

  lemma RightsAttach(w0: World, w: World, w': World, src: nat, dst: nat, l: nat, i: nat, e: Pte)
    requires src < |w.mem| && Building(w0, w, dst, l, e) && i < ENTRY_COUNT && w.mem[dst][i] == EMPTY
    requires w'.mem == Write(w.mem, dst, i, e) && SameNodes(w.mem, w'.mem, w.mem[src], l) && w'.mem[src] == w.mem[src]
    requires RightsCopied(w, src, dst, l, i) && CopiedEntry(w, w.mem[src][i], e, l)
    ensures RightsCopied(w', src, dst, l, i + 1)
  {
    hide Count, CountAt, EntryFormed, WellFormed, Building;
    BuildingBounds(w0, w, dst, l, e);
    AttachTable(w0, w, w', dst, l, i, e);
    Frame(w.mem, w'.mem, w.mem[src], l);
    forall p: Path, a: Flag | l < |p| && p[l] < i + 1
      ensures Grants(w'.mem, w'.mem[dst], l, p, a) <==>
        CopyOf(Translate(w'.mem, w'.mem[src], l, p)).Mapped? && Grants(w'.mem, w'.mem[src], l, p, a)
    {
      FrameGrants(w.mem, w'.mem, w.mem[dst][i := e], l, p, a);
      FrameGrants(w.mem, w'.mem, w.mem[src], l, p, a);
      assert Deepest(w'.mem, w.mem[src], l, p) == Deepest(w.mem, w.mem[src], l, p);
      if p[l] < i {
        assert Grants(w.mem, w.mem[dst], l, p, a) <==>
          CopyOf(Translate(w.mem, w.mem[src], l, p)).Mapped? && Grants(w.mem, w.mem[src], l, p, a);
      } else {
        assert GrantsAt(w.mem, e, l, p, a) <==>
          CopyOf(Meaning(DeepestAt(w.mem, w.mem[src][i], l, p))).Mapped? && GrantsAt(w.mem, w.mem[src][i], l, p, a);
      }
    }
  }

  /** What the source says does not change while the trees are untouched. */
  lemma SourceKept(w: World, w': World, q: Path, l: nat, src: nat)
    requires Consistent(w) && At(w, q, l, src)
    requires SameNodes(w.mem, w'.mem, w.roots, TOP) && w'.roots == w.roots
    ensures At(w', q, l, src) && w'.mem[src] == w.mem[src]
    ensures forall p: Path {:trigger Deepest(w'.mem, w.mem[src], l, p)} | l < |p| ::
      Deepest(w'.mem, w.mem[src], l, p) == Deepest(w.mem, w.mem[src], l, p)
    ensures SameNodes(w.mem, w'.mem, w.mem[src], l)
  {
    FrameReaches(w.mem, w'.mem, w.roots, TOP, q, l);
    AtNode(w, q, l, src);
    assert Count(w.mem, w.roots, TOP, 1, src) == Uses(w, 1, src);
    forall x: nat | x < |w.mem| && w'.mem[x] != w.mem[x] ensures Count(w.mem, w.mem[src], l, 1, x) == 0 {
      if Count(w.mem, w.mem[src], l, 1, x) > 0 {
        InsideCounts(w.mem, w.roots, TOP, q, l, x);
      }
    }
    Frame(w.mem, w'.mem, w.mem[src], l);
  }

  /** What is copied stays copied while only free frames are written to. */
  lemma CopiedKept(w0: World, w: World, w': World, q: Path, src: nat, dst: nat, l: nat, hi: nat)
    requires Consistent(w) && At(w, q, l, src) && Building(w0, w, dst, l, EMPTY) && Grew(w, w')
    requires Copied(w, src, dst, l, hi)
    ensures Copied(w', src, dst, l, hi) && At(w', q, l, src) && w'.mem[src] == w.mem[src]
  {
    hide Count, CountAt, EntryFormed, WellFormed, Building, Reaches, NodeFrame;
    GrewForest(w, w');
    SourceKept(w, w', q, l, src);
    GrewBuilt(w0, w, w', dst, l);
    FrameAt(w.mem, w'.mem, EntryTo(dst), l + 1);
    forall p: Path | l < |p| && p[l] < hi
      ensures Translate(w'.mem, w'.mem[dst], l, p) == CopyOf(Translate(w'.mem, w'.mem[src], l, p))
    {
      TableOf(w, w', dst, l, p);
      assert Deepest(w'.mem, w.mem[src], l, p) == Deepest(w.mem, w.mem[src], l, p);
      assert Translate(w.mem, w.mem[dst], l, p) == CopyOf(Translate(w.mem, w.mem[src], l, p));
    }
    RightsStay(w, w', src, dst, l, hi);
  }

  lemma RightsStay(w: World, w': World, src: nat, dst: nat, l: nat, hi: nat)
    requires src < |w.mem| && dst < |w.mem| && SameNodes(w.mem, w'.mem, w.mem[src], l)
    requires w'.mem[src] == w.mem[src] && w'.mem[dst] == w.mem[dst]
    requires SameNodesAt(w.mem, w'.mem, EntryTo(dst), l + 1) && RightsCopied(w, src, dst, l, hi)
    ensures RightsCopied(w', src, dst, l, hi)
  {
    forall x: nat | x < |w.mem| && w'.mem[x] != w.mem[x] ensures Count(w.mem, w.mem[dst], l, 1, x) == 0 {
      assert CountAt(w.mem, EntryTo(dst), l + 1, 1, x) == 0;
    }
    Frame(w.mem, w'.mem, w.mem[src], l);
    hide Count, CountAt;
    forall p: Path, a: Flag | l < |p| && p[l] < hi
      ensures Grants(w'.mem, w'.mem[dst], l, p, a) <==>
        CopyOf(Translate(w'.mem, w'.mem[src], l, p)).Mapped? && Grants(w'.mem, w'.mem[src], l, p, a)
    {
      FrameGrants(w.mem, w'.mem, w.mem[dst], l, p, a);
      FrameGrants(w.mem, w'.mem, w.mem[src], l, p, a);
      assert Deepest(w'.mem, w.mem[src], l, p) == Deepest(w.mem, w.mem[src], l, p);
      assert Grants(w.mem, w.mem[dst], l, p, a) <==>
        CopyOf(Translate(w.mem, w.mem[src], l, p)).Mapped? && Grants(w.mem, w.mem[src], l, p, a);
    }
  }

  lemma TableOf(w: World, w': World, dst: nat, l: nat, p: Path)
    requires l < |p| && dst < |w.mem| && SameNodesAt(w.mem, w'.mem, EntryTo(dst), l + 1) && w'.mem[dst] == w.mem[dst]
    ensures Deepest(w'.mem, w'.mem[dst], l, p) == Deepest(w.mem, w.mem[dst], l, p)
  {
    FrameAt(w.mem, w'.mem, EntryTo(dst), l + 1);
    var p' := if l + 1 < |p| then p else p + seq(l + 2 - |p|, _ => 0);
    DeepestPrefix(w.mem, w.mem[dst], l, p, p');
    DeepestPrefix(w'.mem, w'.mem[dst], l, p, p');
    assert DeepestAt(w.mem, EntryTo(dst), l + 1, p') == DeepestAt(w'.mem, EntryTo(dst), l + 1, p');
  }

  lemma {:induction false} DeepestPrefix(mem: Memory, t: seq<Pte>, l: nat, p: Path, p': Path)
    requires l < |p| <= |p'| && p'[..|p|] == p
    ensures Deepest(mem, t, l, p') == Deepest(mem, t, l, p)
    decreases l
  {
    assert p'[l] == p'[..|p|][l];
    if l > 0 && p[l] < |t| {
      DeepestPrefix(mem, Below(mem, t[p[l]]), l - 1, p, p');
    }
  }

  lemma DstNotNode(w0: World, w: World, dst: nat, l: nat, e: Pte)
    requires Consistent(w0) && Consistent(w) && Building(w0, w, dst, l, e)
    ensures Uses(w, 1, dst) == 0
  {
    GrewForest(w0, w);
    Frame(w0.mem, w.mem, w0.roots, TOP);
    FreeIsUnused(w0, dst);
    assert Uses(w, 1, dst) == Count(w.mem, w.roots, TOP, 1, dst);
    assert Uses(w0, 1, dst) == Count(w0.mem, w0.roots, TOP, 1, dst);
  }

  // ---------------------------------------------------------------------------------------------

  /** Copies one leaf, or drops it if it belongs to the user. */
  method CopyLeaf(m: Machine, ghost w0: World, ghost q: Path, src: nat, dst: nat, i: nat)
    requires m.Valid() && Consistent(w0) && At(m.W(), q, LEAF_LEVEL, src)
    requires Building(w0, m.W(), dst, LEAF_LEVEL, EMPTY) && Copied(m.W(), src, dst, LEAF_LEVEL, i)
    requires i < ENTRY_COUNT && m.mem[dst][i] == EMPTY && m.mem[src][i].Counted()
    modifies m`mem, m`held, m.frames
    ensures m.Valid() && At(m.W(), q, LEAF_LEVEL, src) && dst < |m.mem|
    ensures Building(w0, m.W(), dst, LEAF_LEVEL, EMPTY) && Copied(m.W(), src, dst, LEAF_LEVEL, i + 1)
    ensures m.mem[dst] == old(m.mem[dst])[i := m.mem[dst][i]]
    ensures m.W().free == old(m.W()).free
  {
    hide Consistent, At, Building, Uses, Copied, WellLinked;
    ghost var w := m.W();
    var pte := m.mem[src][i];
    DstNotNode(w0, w, dst, 0, EMPTY);
    BuildingBounds(w0, w, dst, 0, EMPTY);
    if pte.IsUser() {
      NoEntry(w, pte, 0);
      WriteSame(m.mem, dst, i);
      CopiedAttach(w0, w, w, q, src, dst, 0, i, EMPTY);
    } else {
      SameEntry(w, pte, 0);
      LeafNamed(w, q, src, i);
      m.ReferenceFrame(pte.frame);
      ghost var w1 := m.W();
      AddReference(w0, w, w1, dst, pte);
      DstNotNode(w0, w1, dst, 0, pte);
      CopiedSame(w, w1, q, src, dst, 0, i);
      m.mem := Write(m.mem, dst, i, pte);
      CopiedAttach(w0, w1, m.W(), q, src, dst, 0, i, pte);
    }
  }

  /** An entry that is copied as it is. */
  lemma SameEntry(w: World, e: Pte, l: nat)
    requires l == 0 || e.IsHuge()
    requires l == 0 ==> !e.IsUser() || !e.IsPresent()
    ensures CopiedEntry(w, e, e, l)
  {
  }

  /** An entry that is left out. */
  lemma NoEntry(w: World, d: Pte, l: nat)
    requires !d.IsPresent() || (l == 0 && d.IsUser())
    ensures CopiedEntry(w, d, EMPTY, l)
  {
  }

  lemma BuildingBounds(w0: World, w: World, dst: nat, l: nat, e: Pte)
    requires Building(w0, w, dst, l, e)
    ensures dst < |w.mem| && Grew(w0, w) && WasFree(w0, dst)
    ensures w.held[dst] > w0.held[dst]
  {
  }

  lemma WriteSame(mem: Memory, n: nat, i: nat)
    requires n < |mem| && i < ENTRY_COUNT && mem[n][i] == EMPTY
    ensures Write(mem, n, i, EMPTY) == mem
  {
    assert mem[n][i := EMPTY] == mem[n];
  }

  lemma LeafNamed(w: World, q: Path, src: nat, i: nat)
    requires Consistent(w) && At(w, q, 0, src) && i < ENTRY_COUNT && w.mem[src][i].Counted()
    ensures Tracked(w.counts, w.mem[src][i].frame) ==> w.counts[w.mem[src][i].frame].value > 0
  {
    AtOther(w, q, q[0 := i], 0, src);
    CutNamed(w, q[0 := i], 0, src);
  }

  /** What is copied depends on memory alone. */
  lemma CopiedSame(w: World, w': World, q: Path, src: nat, dst: nat, l: nat, hi: nat)
    requires w'.mem == w.mem && w'.roots == w.roots
    ensures Copied(w, src, dst, l, hi) ==> Copied(w', src, dst, l, hi)
    ensures At(w, q, l, src) ==> At(w', q, l, src)
  {
  }

  /** `Mapping::duplicate_subtree()`.

      On success the copy, in frames that were free, translates as a copy should; the caller holds all
      the references it took. On failure no frame in use was disturbed, but references may be left over. */
  method DuplicateSubtree(m: Machine, ghost q: Path, src: nat, level: nat) returns (r: Result<nat>)
    requires m.Valid() && At(m.W(), q, level, src) && PagePath(m.roots, q)
    modifies m`mem, m`held, m.frames
    ensures m.Valid()
    ensures r.Ok? ==>
      && Building(old(m.W()), m.W(), r.value, level, EMPTY)
      && Copied(m.W(), src, r.value, level, ENTRY_COUNT)
    ensures r.Err? ==> r.error == NoFrame && Abandoned(old(m.W()), m.W())
    ensures r.Ok? <==> Nodes(old(m.mem), old(m.mem)[src], level) < old(m.W()).free
    ensures r.Ok? ==> m.W().free == old(m.W()).free - 1 - Nodes(old(m.mem), old(m.mem)[src], level)
    decreases level, 1
  {
    hide Consistent, At, Building, Uses, Copied, WellLinked, PagePath, Abandoned, Nodes, NodesAt;
    ghost var w0 := m.W();
    var node := m.AllocateNode();
    if node.None? {
      AbandonedSelf(w0);
      return Err(NoFrame);
    }
    var dst := node.value;
    StartBuilding(w0, dst, level);
    TakeNodeAt(w0, dst, q, level, src);
    CopiedNone(m.W(), src, dst, level);
    ghost var table := w0.mem[src];
    NoNodes(w0.mem, table, level);
    for i := 0 to ENTRY_COUNT
      invariant m.Valid() && At(m.W(), q, level, src) && dst < |m.mem|
      invariant Building(w0, m.W(), dst, level, EMPTY) && Copied(m.W(), src, dst, level, i)
      invariant forall j :: i <= j < ENTRY_COUNT ==> m.mem[dst][j] == EMPTY
      invariant m.W().free + 1 + Nodes(w0.mem, table[..i], level) == w0.free
    {
      SourceNodes(w0, m.W(), q, level, src, dst, i);
      NodesNext(w0.mem, table, level, i);
      NodesPrefix(w0.mem, table, level, i + 1);
      var ok := CopyEntry(m, w0, q, src, dst, level, i);
      if !ok {
        ghost var w1 := m.W();
        m.DropGuard(dst);
        GiveUp(w0, w1, m.W(), dst);
        return Err(NoFrame);
      }
    }
    assert table[..ENTRY_COUNT] == table;
    r := Ok(dst);
  }

  lemma NoNodes(mem: Memory, t: seq<Pte>, level: nat)
    ensures Nodes(mem, t[..0], level) == 0
  {
  }

  /** The source has the nodes that it had. */
  lemma SourceNodes(w0: World, w: World, q: Path, l: nat, src: nat, dst: nat, i: nat)
    requires Consistent(w0) && At(w0, q, l, src) && Building(w0, w, dst, l, EMPTY) && i < ENTRY_COUNT
    ensures src < |w.mem| && w.mem[src] == w0.mem[src]
    ensures NodesAt(w.mem, w.mem[src][i], l) == NodesAt(w0.mem, w0.mem[src][i], l)
  {
    hide Count, CountAt, EntryFormed, WellFormed, Building, Reaches, NodeFrame;
    BuildingBounds(w0, w, dst, l, EMPTY);
    GrewForest(w0, w);
    SourceKept(w0, w, q, l, src);
    forall x: nat | x < |w0.mem| && w.mem[x] != w0.mem[x] ensures CountAt(w0.mem, w0.mem[src][i], l, 1, x) == 0 {
      CountPart(w0.mem, w0.mem[src], i, l, 1, x);
    }
    NodesFrameAt(w0.mem, w.mem, w0.mem[src][i], l);
  }

  /** A building that cannot be finished; its root is still held. */
  ghost predicate Failing(w0: World, w: World, dst: nat)
    ensures Failing(w0, w, dst) ==> dst in w.held
  {
    && Grew(w0, w) && WasFree(w0, dst)
    && dst in w.held
    && forall f: nat {:trigger w.held[f]} :: w.held[f] >= w0.held[f] + if f == dst then 1 else 0
  }

  lemma GiveUp(w0: World, w: World, w': World, dst: nat)
    requires Consistent(w) && Failing(w0, w, dst) && Dropped(w, w', Some(dst))
    ensures Abandoned(w0, w')
  {
    hide Count, Consistent;
    NamedHasCount(w, dst);
    assert forall f: nat :: w'.held[f] == if f == dst then w.held[f] - 1 else w.held[f];
  }

  lemma ChildFailing(w0: World, w: World, w': World, dst: nat, l: nat)
    requires Building(w0, w, dst, l, EMPTY) && Abandoned(w, w')
    ensures Failing(w0, w', dst)
  {
    hide Count, WellFormed;
    GrewThen(w0, w, w');
    EmptyCounts(w.mem, l);
    forall f: nat ensures w'.held[f] >= w0.held[f] + if f == dst then 1 else 0 {
      assert Owns(w, dst, l, 0, f) >= if f == dst then 1 else 0;
      assert w.held[f] >= w0.held[f] + Owns(w, dst, l, 0, f);
    }
    assert w'.held[dst] > 0;
  }

  /** Copies one entry. */
  method CopyEntry(m: Machine, ghost w0: World, ghost q: Path, src: nat, dst: nat, level: nat, i: nat)
    returns (ok: bool)
    requires m.Valid() && Consistent(w0) && At(m.W(), q, level, src) && PagePath(m.roots, q)
    requires Building(w0, m.W(), dst, level, EMPTY) && Copied(m.W(), src, dst, level, i)
    requires i < ENTRY_COUNT && dst < |m.mem| && m.mem[dst][i] == EMPTY
    modifies m`mem, m`held, m.frames
    ensures m.Valid()
    ensures ok ==>
      && At(m.W(), q, level, src) && dst < |m.mem|
      && Building(w0, m.W(), dst, level, EMPTY) && Copied(m.W(), src, dst, level, i + 1)
      && m.mem[dst] == old(m.mem[dst])[i := m.mem[dst][i]]
    ensures !ok ==> Failing(w0, m.W(), dst)
    ensures ok <==> NodesAt(old(m.mem), old(m.mem)[src][i], level) <= old(m.W()).free
    ensures ok ==> m.W().free == old(m.W()).free - NodesAt(old(m.mem), old(m.mem)[src][i], level)
    decreases level, 0, 1
  {
    hide Consistent, At, Building, Uses, Copied, WellLinked, PagePath, Abandoned, Failing, EntryFormed;
    ghost var w := m.W();
    DstNotNode(w0, w, dst, level, EMPTY);
    AtNode(w, q, level, src);
    var pte := m.mem[src][i];
    ok := true;
    if !pte.IsPresent() {
      NoEntry(w, pte, level);
      WriteSame(m.mem, dst, i);
      CopiedAttach(w0, w, w, q, src, dst, level, i, EMPTY);
    } else if pte.IsHuge() {
      HugeEntry(w0, w, dst, level, pte);
      DstNotNode(w0, w, dst, level, pte);
      m.mem := Write(m.mem, dst, i, pte);
      CopiedAttach(w0, w, m.W(), q, src, dst, level, i, pte);
    } else if level == LEAF_LEVEL {
      CopyLeaf(m, w0, q, src, dst, i);
    } else {
      ok := CopyChild(m, w0, q, src, dst, level, i);
    }
  }

  lemma HugeEntry(w0: World, w: World, dst: nat, l: nat, e: Pte)
    requires Building(w0, w, dst, l, EMPTY) && EntryFormed(w.mem, e, l) && e.IsHuge()
    ensures Building(w0, w, dst, l, e) && CopiedEntry(w, e, e, l)
  {
    SameEntry(w, e, l);
    EmptyCounts(w.mem, l);
    forall f: nat, floor: nat ensures CountAt(w.mem, e, l, floor, f) == 0 { }
  }

  /** Copies the subtree below one entry. */
  method CopyChild(m: Machine, ghost w0: World, ghost q: Path, src: nat, dst: nat, level: nat, i: nat)
    returns (ok: bool)
    requires m.Valid() && Consistent(w0) && At(m.W(), q, level, src) && PagePath(m.roots, q)
    requires Building(w0, m.W(), dst, level, EMPTY) && Copied(m.W(), src, dst, level, i)
    requires i < ENTRY_COUNT && dst < |m.mem| && m.mem[dst][i] == EMPTY
    requires level > 0 && m.mem[src][i].Counted()
    modifies m`mem, m`held, m.frames
    ensures m.Valid()
    ensures ok ==>
      && At(m.W(), q, level, src) && dst < |m.mem|
      && Building(w0, m.W(), dst, level, EMPTY) && Copied(m.W(), src, dst, level, i + 1)
      && m.mem[dst] == old(m.mem[dst])[i := m.mem[dst][i]]
    ensures !ok ==> Failing(w0, m.W(), dst)
    ensures ok <==> NodesAt(old(m.mem), old(m.mem)[src][i], level) <= old(m.W()).free
    ensures ok ==> m.W().free == old(m.W()).free - NodesAt(old(m.mem), old(m.mem)[src][i], level)
    decreases level, 0, 0
  {
    hide Consistent, At, Building, Uses, Copied, WellLinked, PagePath, Abandoned, Failing, CopiedEntry;
    ghost var w, q' := m.W(), q[level := i];
    var pte := m.mem[src][i];
    AtOther(w, q, q', level, src);
    Mapping.ChildPath(m.roots, q, level, i);
    GoDown(w, q', level, src);
    var child := DuplicateSubtree(m, q', pte.frame, level - 1);
    ghost var w1 := m.W();
    if child.Err? {
      ChildFailing(w0, w, w1, dst, level);
      return false;
    }
    var e := Pte.Of(child.value, pte.flags);
    BuildingBounds(w, w1, child.value, level - 1, EMPTY);
    AddSubtree(w0, w, w1, dst, level, child.value, pte.flags);
    CopiedKept(w0, w, w1, q, src, dst, level, i);
    DstNotNode(w0, w1, dst, level, e);
    ChildCopied(w1, pte, e, level);
    m.mem := Write(m.mem, dst, i, e);
    CopiedAttach(w0, w1, m.W(), q, src, dst, level, i, e);
    ok := true;
  }

  lemma ChildCopied(w: World, d: Pte, e: Pte, l: nat)
    requires l > 0 && d.Counted() && e.Counted() && e.flags == d.flags
    requires Copied(w, d.frame, e.frame, l - 1, ENTRY_COUNT)
    ensures CopiedEntry(w, d, e, l)
  {
    forall p: Path, a: Flag | l < |p|
      ensures GrantsAt(w.mem, e, l, p, a) <==>
        CopyOf(Meaning(DeepestAt(w.mem, d, l, p))).Mapped? && GrantsAt(w.mem, d, l, p, a)
    {
      if p[l - 1] < ENTRY_COUNT {
        assert Grants(w.mem, w.mem[e.frame], l - 1, p, a) <==>
          CopyOf(Translate(w.mem, w.mem[d.frame], l - 1, p)).Mapped? && Grants(w.mem, w.mem[d.frame], l - 1, p, a);
      }
    }
    forall p: Path | l < |p| ensures Meaning(DeepestAt(w.mem, e, l, p)) == CopyOf(Meaning(DeepestAt(w.mem, d, l, p))) {
      if p[l - 1] < ENTRY_COUNT {
        assert Translate(w.mem, w.mem[e.frame], l - 1, p) == CopyOf(Translate(w.mem, w.mem[d.frame], l - 1, p));
      }
    }
  }

  lemma AbandonedSelf(w: World)
    ensures Abandoned(w, w)
  {
  }

  lemma CopiedNone(w: World, src: nat, dst: nat, l: nat)
    requires src < |w.mem| && dst < |w.mem|
    ensures Copied(w, src, dst, l, 0)
  {
  }

  // ---------------------------------------------------------------------------------------------

  /** A finished copy becomes the root of a new space, which takes over the references held for it. */
  ghost predicate Adopted(w0: World, w: World, w': World, dst: nat) {
    w' == w.(roots := w.roots + [EntryTo(dst)], held := w0.held)
  }

  lemma AdoptUses(w0: World, w: World, w': World, dst: nat, floor: nat, f: nat)
    requires Consistent(w0) && Building(w0, w, dst, ROOT_LEVEL, EMPTY) && Adopted(w0, w, w', dst)
    ensures Uses(w', floor, f) == Uses(w0, floor, f) + Owns(w', dst, ROOT_LEVEL, floor, f)
    ensures Uses(w, floor, f) == Uses(w0, floor, f)
  {
    hide WellFormed, Unshared, Building;
    BuildingBounds(w0, w, dst, ROOT_LEVEL, EMPTY);
    GrewForest(w0, w);
    Frame(w0.mem, w.mem, w0.roots, TOP);
    assert w'.roots[..|w'.roots| - 1] == w.roots;
  }

  lemma AdoptKeeps(w0: World, w: World, w': World, dst: nat)
    requires Consistent(w0) && Consistent(w)
    requires Building(w0, w, dst, ROOT_LEVEL, EMPTY) && Adopted(w0, w, w', dst)
    ensures Consistent(w')
  {
    hide Count, CountAt, EntryFormed;
    EmptyCounts(w.mem, ROOT_LEVEL);
    forall f: nat ensures Uses(w', 0, f) + w'.held[f] == Uses(w, 0, f) + w.held[f] {
      AdoptUses(w0, w, w', dst, 0, f);
      assert Owns(w', dst, ROOT_LEVEL, 0, f) == Owns(w, dst, ROOT_LEVEL, 0, f);
    }
    forall f: nat ensures Count(w'.mem, w'.roots, TOP, 1, f) <= 1 {
      AdoptUses(w0, w, w', dst, 1, f);
      UsedOnce(w0);
      assert Uses(w', 1, f) == Count(w'.mem, w'.roots, TOP, 1, f);
      assert Owns(w, dst, ROOT_LEVEL, 1, f) <= 1;
      if Owns(w, dst, ROOT_LEVEL, 1, f) > 0 { FreeIsUnused(w0, f); }
      assert Owns(w', dst, ROOT_LEVEL, 1, f) == Owns(w, dst, ROOT_LEVEL, 1, f);
    }
    assert EntryFormed(w'.mem, EntryTo(dst), TOP) by { RootFormed(w', dst); }
  }

  lemma RootFormed(w: World, dst: nat)
    requires dst < |w.mem| && WellFormed(w.mem, w.mem[dst], ROOT_LEVEL)
    ensures EntryFormed(w.mem, EntryTo(dst), TOP)
  {
  }

  /** Path `p` with its space replaced. */
  function InSpace(p: Path, s: nat): Path
    requires |p| == TOP + 1
  {
    p[TOP := s]
  }

  /** The new space translates every page as a copy of space `s` should; old spaces are as before. */
  lemma AdoptViews(w0: World, w: World, w': World, s: nat, dst: nat, p: Path)
    requires Consistent(w0) && s < |w0.roots| && w0.roots[s].Counted() && |p| == TOP + 1
    requires Building(w0, w, dst, ROOT_LEVEL, EMPTY) && Adopted(w0, w, w', dst)
    requires Copied(w, w0.roots[s].frame, dst, ROOT_LEVEL, ENTRY_COUNT)
    ensures p[TOP] < |w0.roots| ==> View(w', p) == View(w0, p)
    ensures p[TOP] == |w0.roots| ==> View(w', p) == CopyOf(View(w0, InSpace(p, s)))
  {
    hide Count, CountAt, WellFormed, Building, Unshared, EntryFormed, Copied;
    BuildingBounds(w0, w, dst, ROOT_LEVEL, EMPTY);
    GrewForest(w0, w);
    Frame(w0.mem, w.mem, w0.roots, TOP);
    if p[TOP] < |w0.roots| {
      assert Find(w', p) == Find(w, p) == Find(w0, p);
    } else if p[TOP] == |w0.roots| {
      AdoptNew(w0, w, w', s, dst, p);
    }
  }

  lemma AdoptNew(w0: World, w: World, w': World, s: nat, dst: nat, p: Path)
    requires s < |w0.roots| && w0.roots[s].Counted() && |p| == TOP + 1 && p[TOP] == |w0.roots|
    requires Adopted(w0, w, w', dst) && |w0.roots| == |w.roots| && w0.roots[s] == w.roots[s]
    requires Copied(w, w0.roots[s].frame, dst, ROOT_LEVEL, ENTRY_COUNT)
    requires Find(w0, InSpace(p, s)) == Find(w, InSpace(p, s))
    ensures View(w', p) == CopyOf(View(w0, InSpace(p, s)))
  {
    hide Copied;
    var o, root := InSpace(p, s), w0.roots[s].frame;
    CopiedBounds(w, root, dst, ROOT_LEVEL);
    SameBelow(w.mem, w.mem[root], ROOT_LEVEL, p, o);
    assert Find(w', p) == Deepest(w.mem, w.mem[dst], ROOT_LEVEL, p);
    assert Find(w, o) == Deepest(w.mem, w.mem[root], ROOT_LEVEL, o);
    CopiedAt(w, root, dst, ROOT_LEVEL, p);
  }

  lemma CopiedBounds(w: World, src: nat, dst: nat, l: nat)
    requires Copied(w, src, dst, l, ENTRY_COUNT)
    ensures src < |w.mem| && dst < |w.mem|
  {
  }

  lemma CopiedAt(w: World, src: nat, dst: nat, l: nat, p: Path)
    requires Copied(w, src, dst, l, ENTRY_COUNT) && l < |p|
    ensures Translate(w.mem, w.mem[dst], l, p) == CopyOf(Translate(w.mem, w.mem[src], l, p))
  {
  }

  lemma {:induction false} SameBelow(mem: Memory, t: seq<Pte>, l: nat, p: Path, o: Path)
    requires l < |p| && l < |o| && forall k :: 0 <= k <= l ==> o[k] == p[k]
    ensures Deepest(mem, t, l, o) == Deepest(mem, t, l, p)
    decreases l
  {
    if l > 0 && p[l] < |t| {
      SameBelow(mem, Below(mem, t[p[l]]), l - 1, p, o);
    }
  }

  /** `Mapping::duplicate()`: the copy is a new space, in frames that were free.

      If frames run out, the unfinished mapping, whose root is still frame 0, is dropped. Before that, in state `left`,
      no frame in use was disturbed. Dropping leaves that state alone if and only if no entry of frame 0 is counted;
      otherwise it clears entries and gives up references, or panics, and then `ok` is false. */
  method Duplicate(m: Machine, s: nat) returns (r: Result<nat>, ok: bool, ghost left: World)
    requires m.Valid() && s < |m.roots| && m.roots[s].Counted()
    modifies m`mem, m`held, m`roots, m.frames
    ensures m.frames.Valid() && |old(m.mem)| > 0
    ensures r.Ok? ==> ok && m.Valid()
    // There must be a free frame for each node of the original (see `NodeCount.SpaceNodes`).
    ensures r.Ok? <==> NodesAt(old(m.mem), old(m.roots)[s], TOP) <= old(m.W()).free
    ensures r.Ok? ==>
      && r.value == |old(m.roots)| && m.held == old(m.held)
      && |m.roots| == |old(m.roots)| + 1 && m.roots[..r.value] == old(m.roots) && m.roots[r.value].Counted()
      && Grew(old(m.W()), m.W().(roots := old(m.roots)))
    ensures r.Ok? ==> forall p: Path {:trigger View(m.W(), p)} :: |p| == TOP + 1 ==>
      && (p[TOP] < r.value ==> View(m.W(), p) == View(old(m.W()), p))
      && (p[TOP] == r.value ==> View(m.W(), p) == CopyOf(View(old(m.W()), InSpace(p, s))))
    // The copy shares no node with any other space: all of its nodes were free.
    ensures r.Ok? ==> forall f: nat {:trigger CountAt(m.mem, m.roots[r.value], TOP, 1, f)} ::
      CountAt(m.mem, m.roots[r.value], TOP, 1, f) > 0 ==> WasFree(old(m.W()), f)
    ensures r.Ok? ==> forall f: nat {:trigger Uses(m.W(), 0, f)} ::
      Uses(m.W(), 0, f) == Uses(old(m.W()), 0, f) + CountAt(m.mem, m.roots[r.value], TOP, 0, f)
    ensures r.Ok? ==> forall p: Path, a: Flag {:trigger Right(m.W(), p, a)} :: |p| == TOP + 1 ==>
      && (p[TOP] < r.value ==> Right(m.W(), p, a) == Right(old(m.W()), p, a))
      && (p[TOP] == r.value ==> Right(m.W(), p, a) == (View(m.W(), p).Mapped? && Right(old(m.W()), InSpace(p, s), a)))
    ensures r.Ok? && Quiet(old(m.W())) ==> Quiet(m.W())
    ensures r.Err? ==> r.error == NoFrame && Consistent(left) && Abandoned(old(m.W()), left) && |left.mem| > 0
    ensures r.Err? && ok ==> DroppedAtZero(left, m.W())
    ensures r.Err? && !ok ==> DropFrom(Store(left.mem, left.counts), 0, ROOT_LEVEL, 0).None?
    ensures r.Err? ==> (ok && m.W() == left <==> NoneCounted(old(m.mem)[0]))
    ensures r.Err? && NoneCounted(old(m.mem)[0]) ==> m.Valid() && (Quiet(old(m.W())) ==> Quiet(m.W()))
  {
    hide Consistent, At, Building, Uses, Copied, WellLinked, PagePath, Abandoned, Find, View, Count, CountAt, DropFrom,
         Right, Nodes, NodesAt;
    ghost var w0, q := m.W(), Mapping.RootPath(s);
    Mapping.SpacePath(m.roots, s);
    GoIn(w0, q);
    RootInMemory(w0, q, m.roots[s].frame);
    RootNodes(w0, s);
    assert Tracks(w0.counts, m.tracked);
    var copy := DuplicateSubtree(m, q, m.roots[s].frame, ROOT_LEVEL);
    left := m.W();
    ok := true;
    if copy.Err? {
      AbandonedZero(w0, left);
      ok := DropUnrooted(m);
      return Err(NoFrame), ok, left;
    }
    var dst := copy.value;
    ghost var w := m.W();
    BuildingBounds(w0, w, dst, ROOT_LEVEL, EMPTY);
    r := Ok(|m.roots|);
    m.roots := m.roots + [EntryTo(dst)];
    m.held := w0.held;
    ghost var w' := m.W();
    AdoptKeeps(w0, w, w', dst);
    forall p: Path | |p| == TOP + 1
      ensures p[TOP] < r.value ==> View(w', p) == View(w0, p)
      ensures p[TOP] == r.value ==> View(w', p) == CopyOf(View(w0, InSpace(p, s)))
    {
      AdoptViews(w0, w, w', s, dst, p);
    }
    forall f: nat
      ensures Uses(w', 0, f) == Uses(w0, 0, f) + CountAt(w'.mem, EntryTo(dst), TOP, 0, f)
      ensures CountAt(w'.mem, EntryTo(dst), TOP, 1, f) > 0 ==> WasFree(w0, f)
    {
      AdoptUses(w0, w, w', dst, 0, f);
      BuiltFree(w0, w, dst, f);
    }
    forall p: Path, a: Flag | |p| == TOP + 1
      ensures p[TOP] < r.value ==> Right(w', p, a) == Right(w0, p, a)
      ensures p[TOP] == r.value ==> Right(w', p, a) == (View(w', p).Mapped? && Right(w0, InSpace(p, s), a))
    {
      AdoptRights(w0, w, w', s, dst, p, a);
    }
    if Quiet(w0) {
      AdoptUses(w0, w, w', dst, 1, 0);
      BuiltFree(w0, w, dst, 0);
      GrewZero(w0, w);
    }
  }

  lemma RootNodes(w: World, s: nat)
    requires Consistent(w) && s < |w.roots| && w.roots[s].Counted()
    ensures w.roots[s].frame < |w.mem|
    ensures NodesAt(w.mem, w.roots[s], TOP) == 1 + Nodes(w.mem, w.mem[w.roots[s].frame], ROOT_LEVEL)
  {
    assert EntryFormed(w.mem, w.roots[s], TOP);
  }

  /** The new space grants what the original does; old spaces grant what they did. */
  lemma AdoptRights(w0: World, w: World, w': World, s: nat, dst: nat, p: Path, a: Flag)
    requires Consistent(w0) && s < |w0.roots| && w0.roots[s].Counted() && |p| == TOP + 1
    requires Building(w0, w, dst, ROOT_LEVEL, EMPTY) && Adopted(w0, w, w', dst)
    requires Copied(w, w0.roots[s].frame, dst, ROOT_LEVEL, ENTRY_COUNT)
    requires p[TOP] == |w0.roots| ==> View(w', p) == CopyOf(View(w0, InSpace(p, s)))
    ensures p[TOP] < |w0.roots| ==> Right(w', p, a) == Right(w0, p, a)
    ensures p[TOP] == |w0.roots| ==> Right(w', p, a) == (View(w', p).Mapped? && Right(w0, InSpace(p, s), a))
  {
    hide Count, CountAt, WellFormed, Building, Unshared, EntryFormed, Copied;
    BuildingBounds(w0, w, dst, ROOT_LEVEL, EMPTY);
    GrewForest(w0, w);
    FrameGrants(w0.mem, w.mem, w0.roots, TOP, p, a);
    if p[TOP] < |w0.roots| {
      assert w'.roots[p[TOP]] == w0.roots[p[TOP]];
    } else if p[TOP] == |w0.roots| {
      var o, root := InSpace(p, s), w0.roots[s].frame;
      FrameGrants(w0.mem, w.mem, w0.roots, TOP, o, a);
      Frame(w0.mem, w.mem, w0.roots, TOP);
      assert Find(w0, o) == Deepest(w.mem, w0.roots, TOP, o);
      NewRights(w, root, dst, p, o, a);
      assert View(w0, o) == Translate(w.mem, w.mem[root], ROOT_LEVEL, o) by { CopiedBounds(w, root, dst, ROOT_LEVEL); }
    }
  }

  lemma NewRights(w: World, root: nat, dst: nat, p: Path, o: Path, a: Flag)
    requires Copied(w, root, dst, ROOT_LEVEL, ENTRY_COUNT) && |p| == TOP + 1 && |o| == TOP + 1
    requires forall k :: 0 <= k < TOP ==> o[k] == p[k]
    ensures root < |w.mem| && dst < |w.mem|
    ensures Grants(w.mem, w.mem[dst], ROOT_LEVEL, p, a) ==
      (CopyOf(Translate(w.mem, w.mem[root], ROOT_LEVEL, o)).Mapped? && Grants(w.mem, w.mem[root], ROOT_LEVEL, o, a))
  {
    SameBelow(w.mem, w.mem[root], ROOT_LEVEL, p, o);
    SameGrants(w.mem, w.mem[root], ROOT_LEVEL, p, o, a);
    if p[ROOT_LEVEL] < ENTRY_COUNT {
      assert Grants(w.mem, w.mem[dst], ROOT_LEVEL, p, a) <==>
        CopyOf(Translate(w.mem, w.mem[root], ROOT_LEVEL, p)).Mapped? && Grants(w.mem, w.mem[root], ROOT_LEVEL, p, a);
    }
  }

  lemma {:induction false} SameGrants(mem: Memory, t: seq<Pte>, l: nat, p: Path, o: Path, a: Flag)
    requires l < |p| && l < |o| && forall k :: 0 <= k <= l ==> o[k] == p[k]
    ensures Grants(mem, t, l, o, a) == Grants(mem, t, l, p, a)
    decreases l
  {
    if l > 0 && p[l] < |t| {
      SameGrants(mem, Below(mem, t[p[l]]), l - 1, p, o, a);
    }
  }

  lemma RootInMemory(w: World, q: Path, n: nat)
    requires At(w, q, ROOT_LEVEL, n)
    ensures |w.mem| > 0
  {
  }

  /** Frame 0 is never free, so it is not written to. */
  lemma GrewZero(w: World, w': World)
    requires Grew(w, w') && !Tracked(w.counts, 0) && |w.mem| > 0
    ensures w'.mem[0] == w.mem[0]
  {
  }

  lemma AbandonedZero(w: World, w': World)
    requires Consistent(w) && Abandoned(w, w') && !Tracked(w.counts, 0) && |w.mem| > 0
    ensures |w'.mem| > 0 && w'.mem[0] == w.mem[0] && Uses(w', 1, 0) == Uses(w, 1, 0)
  {
    GrewForest(w, w');
    Frame(w.mem, w'.mem, w.roots, TOP);
  }

  lemma BuiltFree(w0: World, w: World, dst: nat, f: nat)
    requires Building(w0, w, dst, ROOT_LEVEL, EMPTY)
    ensures CountAt(w.mem, EntryTo(dst), TOP, 1, f) > 0 ==> WasFree(w0, f)
  {
    assert Owns(w, dst, ROOT_LEVEL, 1, f) == CountAt(w.mem, EntryTo(dst), TOP, 1, f);
  }

  /** Equal uses and holders mean equal counts: references are conserved. */
  lemma CountsDetermined(w: World, w': World)
    requires Consistent(w) && Consistent(w') && w'.held == w.held
    requires Mapping.SameTracked(w.counts, w'.counts)
    requires forall f: nat {:trigger Uses(w', 0, f)} :: Uses(w', 0, f) == Uses(w, 0, f)
    ensures w'.counts == w.counts
  {
    forall f: nat | f < |w.counts| ensures w'.counts[f] == w.counts[f] {
      assert Uses(w', 0, f) == Uses(w, 0, f);
    }
  }

  /** Duplicating a mapping and dropping the copy restores every count, so also the set of free frames,
      and every translation. */
  method DuplicateThenDrop(m: Machine, s: nat) returns (r: Result<()>)
    requires m.Valid() && s < |m.roots| && m.roots[s].Counted()
    modifies m`mem, m`held, m`roots, m.frames
    ensures r.Ok? ==> m.Valid() && m.held == old(m.held) && m.W().counts == old(m.W()).counts
    ensures r.Ok? <==> NodesAt(old(m.mem), old(m.roots)[s], TOP) <= old(m.W()).free
    ensures r.Ok? ==> m.roots == old(m.roots) + [EMPTY]
    ensures r.Ok? ==> forall p: Path :: |p| == TOP + 1 && p[TOP] < |old(m.roots)| ==>
      View(m.W(), p) == View(old(m.W()), p)
    ensures r.Ok? ==> forall p: Path, a: Flag {:trigger Right(m.W(), p, a)} ::
      |p| == TOP + 1 && p[TOP] < |old(m.roots)| ==> Right(m.W(), p, a) == Right(old(m.W()), p, a)
  {
    hide Consistent, Uses, WellLinked, Find, View, Count, CountAt, Right, NodesAt;
    ghost var w := m.W();
    var copy, ok, left := Duplicate(m, s);
    if copy.Err? {
      return Err(copy.error);
    }
    ghost var w1 := m.W();
    Mapping.Drop(m, copy.value);
    ghost var w2 := m.W();
    forall f: nat ensures Uses(w2, 0, f) == Uses(w, 0, f) {
      assert Uses(w1, 0, f) == Uses(w, 0, f) + CountAt(w1.mem, w1.roots[copy.value], TOP, 0, f);
    }
    CountsDetermined(w, w2);
    forall p: Path | |p| == TOP + 1 && p[TOP] < |w.roots| ensures View(w2, p) == View(w, p) {
      assert View(w2, p) == View(w1, p);
    }
    r := Ok(());
  }
}
