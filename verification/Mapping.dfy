/** Whole mappings: dropping, pruning and duplicating trees of page-table nodes. */
module Mapping {
  import opened Mmu
  import opened PageTree
  import opened FrameAllocator
  import opened World
  import opened Machine
  import opened Clearing
  import opened Rights

  // ---------------------------------------------------------------------------------------------
  // Dropping and pruning

  /** Entries of space `s` were cleared, and nothing else was written. */
  ghost predicate Trimmed(w: World, w': World, s: nat) {
    && OnlyCleared(w, w') && Touches(w, w', s) && FewerNodes(w, w')
    && w'.held == w.held && SameTracked(w.counts, w'.counts)
  }

  ghost predicate SameTracked(c: Counts, c': Counts) {
    |c'| == |c| && forall f: nat {:trigger c'[f]} {:trigger c[f]} :: f < |c| ==> (c'[f].Some? <==> c[f].Some?)
  }

  lemma TrimmedSelf(w: World, s: nat)
    ensures Trimmed(w, w, s)
  {
  }

  lemma TrimmedThen(w: World, w': World, w'': World, s: nat)
    requires Trimmed(w, w', s) && Trimmed(w', w'', s)
    ensures Trimmed(w, w'', s)
  {
    hide NodeOf;
    ClearedThen(w, w', w'');
    TouchesThen(w, w', w'', s);
    FewerThen(w, w', w'');
  }

  lemma FewerThen(w: World, w': World, w'': World)
    requires FewerNodes(w, w') && FewerNodes(w', w'')
    ensures FewerNodes(w, w'')
  {
    hide Uses;
    forall f: nat ensures Uses(w'', 1, f) <= Uses(w, 1, f) {
      assert Uses(w', 1, f) <= Uses(w, 1, f);
    }
  }

  /** Some page under entries `0 .. hi` of the table of level `l` on path `q` is mapped. */
  ghost predicate MappedBefore(w: World, q: Path, l: nat, hi: nat)
    requires |q| == TOP + 1 && l < TOP
  {
    exists p: Path :: |p| == TOP + 1 && Agree(p, q, l + 1, TOP) && p[l] < hi && View(w, p).Mapped?
  }

  /** Of the tables from level `l` down, under entries `0 .. hi` on path `q`, every entry that leads on
      leads to a mapped page. */
  ghost predicate Tight(w: World, q: Path, l: nat, hi: nat)
    requires |q| == TOP + 1 && l < TOP
  {
    forall p: Path, k: nat, n: nat {:trigger At(w, p, k, n)} ::
      At(w, p, k, n) && 0 < k <= l && Agree(p, q, l + 1, TOP) && p[l] < hi && w.mem[n][p[k]].Counted()
      ==> MappedUnder(w, p, k - 1)
  }

  lemma MappedSame(w: World, w': World, q: Path, l: nat)
    requires SameViews(w, w') && |q| == TOP + 1 && l <= TOP && MappedUnder(w, q, l)
    ensures MappedUnder(w', q, l)
  {
    var p: Path :| |p| == TOP + 1 && Agree(p, q, l + 1, TOP) && View(w, p).Mapped?;
    assert View(w', p) == View(w, p);
  }

  lemma TightLater(w: World, w': World, q: Path, l: nat, hi: nat)
    requires OnlyCleared(w, w') && SameViews(w, w')
    requires |q| == TOP + 1 && l < TOP && Tight(w, q, l, hi)
    ensures Tight(w', q, l, hi)
  {
    hide At, MappedUnder, View;
    forall p: Path, k: nat, n: nat
      | At(w', p, k, n) && 0 < k <= l && Agree(p, q, l + 1, TOP) && p[l] < hi && w'.mem[n][p[k]].Counted()
      ensures MappedUnder(w', p, k - 1)
    {
      AtBefore(w, w', p, k, n);
      assert w'.mem[n][p[k]] == w.mem[n][p[k]];
      MappedSame(w, w', p, k - 1);
    }
  }

  lemma {:induction false} ReachesIndex(mem: Memory, t: seq<Pte>, level: nat, q: Path, l: nat, k: nat)
    requires l <= k < level < |q| && Reaches(mem, t, level, q, l)
    ensures q[k] < ENTRY_COUNT
    decreases level
  {
    if k < level - 1 {
      ReachesIndex(mem, mem[t[q[level]].frame], level - 1, q, l, k);
    } else {
      assert Reaches(mem, mem[t[q[level]].frame], level - 1, q, l);
    }
  }

  /** One more entry is settled: it leads nowhere, or to a subtree that is settled and has a page. */
  lemma TightStep(w: World, q: Path, l: nat, n: nat, i: nat)
    requires At(w, q, l, n) && i < ENTRY_COUNT && Tight(w, q, l, i)
    requires l > 0 && w.mem[n][i].Counted() ==>
      Tight(w, q[l := i], l - 1, ENTRY_COUNT) && MappedUnder(w, q[l := i], l - 1)
    ensures Tight(w, q, l, i + 1)
  {
    hide MappedUnder;
    forall p: Path, k: nat, x: nat
      | At(w, p, k, x) && 0 < k <= l && Agree(p, q, l + 1, TOP) && p[l] < i + 1 && w.mem[x][p[k]].Counted()
      ensures MappedUnder(w, p, k - 1)
    {
      if p[l] == i {
        AtOther(w, q, p, l, n);
        MappedOther(w, q[l := i], p, l - 1);
        if k < l {
          ReachesIndex(w.mem, w.roots, TOP, p, k, l - 1);
          DownCounted(w, p, k, x, l, n);
        }
      }
    }
  }

  /** On a path that goes below a table, the entry taken in the table leads on. */
  lemma DownCounted(w: World, p: Path, k: nat, x: nat, l: nat, n: nat)
    requires At(w, p, k, x) && At(w, p, l, n) && k < l
    ensures w.mem[n][p[l]].Counted()
  {
    ReachesCounted(w.mem, w.roots, TOP, p, k, l);
  }

  lemma {:induction false} ReachesCounted(mem: Memory, t: seq<Pte>, level: nat, p: Path, k: nat, l: nat)
    requires k < l < level < |p| && Reaches(mem, t, level, p, k) && Reaches(mem, t, level, p, l)
    ensures mem[NodeFrame(mem, t, level, p, l)][p[l]].Counted()
    decreases level
  {
    if l < level - 1 {
      ReachesCounted(mem, mem[t[p[level]].frame], level - 1, p, k, l);
    } else {
      assert Reaches(mem, mem[t[p[level]].frame], l, p, k);
    }
  }

  lemma MappedOther(w: World, q: Path, p: Path, l: nat)
    requires |q| == TOP + 1 && |p| == TOP + 1 && l < TOP && Agree(p, q, l + 1, TOP)
    ensures MappedUnder(w, q, l) == MappedUnder(w, p, l)
  {
    if MappedUnder(w, q, l) {
      var a: Path :| |a| == TOP + 1 && Agree(a, q, l + 1, TOP) && View(w, a).Mapped?;
      assert Agree(a, p, l + 1, TOP);
    }
    if MappedUnder(w, p, l) {
      var a: Path :| |a| == TOP + 1 && Agree(a, p, l + 1, TOP) && View(w, a).Mapped?;
      assert Agree(a, q, l + 1, TOP);
    }
  }

  /** What one entry of a reached table says about the pages below it. */
  lemma EntryView(w: World, q: Path, l: nat, n: nat, p: Path)
    requires At(w, q, l, n) && |p| == TOP + 1 && Agree(p, q, l, TOP)
    ensures Find(w, p) == DeepestAt(w.mem, w.mem[n][q[l]], l, p)
  {
    DeepestReached(w.mem, w.roots, TOP, q, l, p);
  }

  /** The pages under entries `0 .. i + 1` are those under `0 .. i` and those under entry `i`. */
  lemma MappedNext(w: World, q: Path, l: nat, n: nat, i: nat)
    requires At(w, q, l, n) && i < ENTRY_COUNT
    ensures MappedBefore(w, q, l, i + 1) <==> MappedBefore(w, q, l, i) || PageAt(w, q, l, n, i)
  {
    var q' := q[l := i];
    AtOther(w, q, q', l, n);
    if MappedBefore(w, q, l, i + 1) && !MappedBefore(w, q, l, i) {
      var p: Path :| |p| == TOP + 1 && Agree(p, q, l + 1, TOP) && p[l] < i + 1 && View(w, p).Mapped?;
      assert Agree(p, q', l, TOP);
      EntryView(w, q', l, n, p);
    }
    if MappedBefore(w, q, l, i) {
      var p: Path :| |p| == TOP + 1 && Agree(p, q, l + 1, TOP) && p[l] < i && View(w, p).Mapped?;
      assert p[l] < i + 1;
    }
    if PageAt(w, q, l, n, i) {
      if l > 0 && w.mem[n][i].Counted() {
        var p: Path :| |p| == TOP + 1 && Agree(p, q', l, TOP) && View(w, p).Mapped?;
        assert p[l] == i && Agree(p, q, l + 1, TOP);
      } else {
        EntryView(w, q', l, n, q');
        assert q'[l] < i + 1 && Agree(q', q, l + 1, TOP);
      }
    }
  }

  /** Entry `i` maps a page, or leads to one. */
  ghost predicate PageAt(w: World, q: Path, l: nat, n: nat, i: nat)
    requires |q| == TOP + 1 && l < TOP && n < |w.mem| && i < ENTRY_COUNT
  {
    w.mem[n][i].IsPresent() && (l > 0 && w.mem[n][i].Counted() ==> MappedUnder(w, q[l := i], l - 1))
  }

  /** Entry numbers past the end of a table map nothing. */
  lemma MappedAll(w: World, q: Path, l: nat, n: nat)
    requires At(w, q, l, n)
    ensures MappedBefore(w, q, l, ENTRY_COUNT) <==> MappedUnder(w, q, l)
  {
    if MappedUnder(w, q, l) {
      var p: Path :| |p| == TOP + 1 && Agree(p, q, l + 1, TOP) && View(w, p).Mapped?;
      DeepestOutside(w.mem, w.roots, TOP, q, l, p);
    }
  }

  lemma {:induction false} DeepestOutside(mem: Memory, t: seq<Pte>, level: nat, q: Path, l: nat, p: Path)
    requires l < level < |q| && level < |p| && Reaches(mem, t, level, q, l)
    requires Agree(p, q, l + 1, level)
    ensures p[l] >= ENTRY_COUNT ==> Deepest(mem, t, level, p) == Hit(l, EMPTY)
    decreases level
  {
    assert p[level] == q[level];
    assert Deepest(mem, t, level, p) == Deepest(mem, mem[t[q[level]].frame], level - 1, p);
    if l < level - 1 {
      DeepestOutside(mem, mem[t[q[level]].frame], level - 1, q, l, p);
    }
  }

  /** Clears an entry and gives up its reference. */
  method CutEntry(m: Machine, ghost q: Path, l: nat, n: nat, i: nat)
    requires m.Valid() && At(m.W(), q, l, n) && q[l] == i
    requires m.mem[n][i].Counted() && Bare(m.W(), m.mem[n][i], l)
    modifies m`mem, m.frames
    ensures m.Valid() && At(m.W(), q, l, n)
    ensures Cut(old(m.W()), m.W(), n, i)
    ensures Redirected(old(m.W()), m.W(), q, l, EMPTY)
    ensures Trimmed(old(m.W()), m.W(), q[TOP])
  {
    hide Consistent, At, Find, Uses, WellLinked;
    ghost var w := m.W();
    CutNamed(w, q, l, n);
    m.frames.Deallocate(m.mem[n][i].frame);
    m.mem := Write(m.mem, n, i, EMPTY);
    CutKeeps(w, m.W(), q, l, n);
    assert NodeOf(w, q[TOP], n);
  }

  lemma OutsideThen(w: World, w': World, w'': World, q: Path, l: nat)
    requires |q| == TOP + 1 && l <= TOP && SameOutside(w, w', q, l) && SameOutside(w', w'', q, l)
    ensures SameOutside(w, w'', q, l)
  {
    hide Find;
    forall p: Path | |p| == TOP + 1 && !Agree(p, q, l + 1, TOP) ensures Find(w'', p) == Find(w, p) {
      assert Find(w', p) == Find(w, p);
    }
  }

  /** What happens below entry `i` of a table happens below the table. */
  lemma OutsideBelow(w: World, w': World, q: Path, l: nat, i: nat)
    requires |q| == TOP + 1 && 0 < l < TOP && SameOutside(w, w', q[l := i], l - 1)
    ensures SameOutside(w, w', q, l)
  {
    hide Find;
    forall p: Path | |p| == TOP + 1 && !Agree(p, q, l + 1, TOP) ensures Find(w', p) == Find(w, p) {
      assert !Agree(p, q[l := i], l, TOP);
    }
  }

  lemma OutsideCut(w: World, w': World, q: Path, l: nat, i: nat)
    requires |q| == TOP + 1 && l < TOP && Redirected(w, w', q[l := i], l, EMPTY)
    ensures SameOutside(w, w', q, l)
  {
    hide Find;
    forall p: Path | |p| == TOP + 1 && !Agree(p, q, l + 1, TOP) ensures Find(w', p) == Find(w, p) {
      assert !Agree(p, q[l := i], l, TOP);
    }
  }

  /** Clearing an entry with no mapped page below it changes no translation. */
  lemma PruneCut(w: World, w': World, q: Path, l: nat)
    requires |q| == TOP + 1 && 0 < l < TOP && Redirected(w, w', q, l, EMPTY)
    requires !MappedUnder(w, q, l - 1)
    ensures SameViews(w, w')
  {
    forall p: Path | |p| == TOP + 1 ensures View(w', p) == View(w, p) {
      assert Find(w', p) == if Agree(p, q, l, TOP) then Hit(l, EMPTY) else Find(w, p);
      assert Agree(p, q, l, TOP) ==> !View(w, p).Mapped?;
    }
  }

  lemma MappedBeforeSame(w: World, w': World, q: Path, l: nat, hi: nat)
    requires SameViews(w, w') && |q| == TOP + 1 && l < TOP
    ensures MappedBefore(w', q, l, hi) <==> MappedBefore(w, q, l, hi)
  {
    if MappedBefore(w, q, l, hi) {
      var p: Path :| |p| == TOP + 1 && Agree(p, q, l + 1, TOP) && p[l] < hi && View(w, p).Mapped?;
      assert View(w', p) == View(w, p);
    }
    if MappedBefore(w', q, l, hi) {
      var p: Path :| |p| == TOP + 1 && Agree(p, q, l + 1, TOP) && p[l] < hi && View(w', p).Mapped?;
      assert View(w', p) == View(w, p);
    }
  }

  /** Below entry `i` everything is settled: what leads on leads to a mapped page. */
  ghost predicate Settled(w: World, q: Path, l: nat, n: nat, i: nat)
    requires |q| == TOP + 1 && l < TOP && n < |w.mem| && i < ENTRY_COUNT
  {
    l > 0 && w.mem[n][i].Counted() ==> Tight(w, q[l := i], l - 1, ENTRY_COUNT) && MappedUnder(w, q[l := i], l - 1)
  }

  /** After the subtree below entry `i` was dealt with, the path still reaches the table, the entry is
      as it was, and the rest of the world is untouched. */
  lemma AfterChild(w: World, w': World, q: Path, l: nat, n: nat, i: nat)
    requires At(w, q, l, n) && 0 < l && i < ENTRY_COUNT && OnlyCleared(w, w')
    requires w.mem[n][i].Counted() && At(w', q[l := i], l - 1, w.mem[n][i].frame)
    ensures At(w', q, l, n) && At(w', q[l := i], l, n)
    ensures w'.mem[n][i] == w.mem[n][i]
  {
    var q' := q[l := i];
    AtOther(w, q, q', l, n);
    AtAbove(w, w', q', l, n, w.mem[n][i].frame);
    AtOther(w', q', q, l, n);
    DownCounted(w', q', l - 1, w.mem[n][i].frame, l, n);
  }

  /** The body of the loop of `Mapping::drop_subtree()`, for one present 4 KiB entry above the leaves. */
  method DropChild(m: Machine, ghost q: Path, node: nat, level: nat, i: nat, dropUsed: bool) returns (used: bool)
    requires m.Valid() && At(m.W(), q, level, node) && PagePath(m.roots, q)
    requires i < ENTRY_COUNT && 0 < level && m.mem[node][i].Counted()
    modifies m`mem, m.frames
    ensures m.Valid() && At(m.W(), q, level, node)
    ensures Trimmed(old(m.W()), m.W(), q[TOP]) && SameOutside(old(m.W()), m.W(), q, level)
    ensures dropUsed ==> !used
    ensures !used ==> !m.mem[node][i].Counted()
    ensures !dropUsed ==>
      && SameViews(old(m.W()), m.W()) && Settled(m.W(), q, level, node, i)
      && (used <==> PageAt(m.W(), q, level, node, i))
    decreases level, 0
  {
    hide Consistent, At, View, Find, Uses, PagePath, Trimmed, MappedUnder, Tight, SameOutside, SameViews, Redirected;
    ghost var w, q' := m.W(), q[level := i];
    var frame := m.mem[node][i].frame;
    AtOther(w, q, q', level, node);
    ChildPath(m.roots, q, level, i);
    GoDown(w, q', level, node);
    var deleted := DropSubtree(m, q', frame, level - 1, dropUsed);
    ghost var w1 := m.W();
    TrimmedCleared(w, w1, q[TOP]);
    AfterChild(w, w1, q, level, node, i);
    OutsideBelow(w, w1, q, level, i);
    if dropUsed || deleted {
      CutEntry(m, q', level, node, i);
      AtOther(m.W(), q', q, level, node);
      OutsideCut(w1, m.W(), q, level, i);
      OutsideThen(w, w1, m.W(), q, level);
      TrimmedThen(w, w1, m.W(), q[TOP]);
      used := false;
      if !dropUsed {
        NotMappedSame(w, w1, q', level - 1);
        PruneCut(w1, m.W(), q', level);
        SameViewsThen(w, w1, m.W());
      }
    } else {
      used := true;
      MappedSame(w, w1, q', level - 1);
    }
  }

  lemma ChildPath(roots: seq<Pte>, q: Path, l: nat, i: nat)
    requires PagePath(roots, q) && l < TOP && i < ENTRY_COUNT
    ensures PagePath(roots, q[l := i])
  {
  }

  lemma TrimmedCleared(w: World, w': World, s: nat)
    requires Trimmed(w, w', s)
    ensures OnlyCleared(w, w')
  {
  }

  lemma NotMappedSame(w: World, w': World, q: Path, l: nat)
    requires SameViews(w, w') && |q| == TOP + 1 && l <= TOP
    ensures MappedUnder(w', q, l) ==> MappedUnder(w, q, l)
  {
    if MappedUnder(w', q, l) {
      var p: Path :| |p| == TOP + 1 && Agree(p, q, l + 1, TOP) && View(w', p).Mapped?;
      assert View(w', p) == View(w, p);
    }
  }

  /** The body of the loop of `Mapping::drop_subtree()`. */
  method DropEntry(m: Machine, ghost q: Path, node: nat, level: nat, i: nat, dropUsed: bool) returns (used: bool)
    requires m.Valid() && At(m.W(), q, level, node) && PagePath(m.roots, q)
    requires i < ENTRY_COUNT
    modifies m`mem, m.frames
    ensures m.Valid() && At(m.W(), q, level, node)
    ensures Trimmed(old(m.W()), m.W(), q[TOP]) && SameOutside(old(m.W()), m.W(), q, level)
    ensures dropUsed ==> !used
    ensures !used ==> !m.mem[node][i].Counted()
    ensures !dropUsed ==>
      && SameViews(old(m.W()), m.W()) && Settled(m.W(), q, level, node, i)
      && (used <==> PageAt(m.W(), q, level, node, i))
    decreases level, 1
  {
    hide Consistent, At, View, Find, Uses, PagePath, Trimmed, MappedUnder, Tight, Redirected;
    ghost var w, q' := m.W(), q[level := i];
    TrimmedSelf(w, q[TOP]);
    var pte := m.mem[node][i];
    if !pte.IsPresent() {
      return false;
    }
    if pte.IsHuge() {
      return !dropUsed;
    }
    if level > LEAF_LEVEL {
      used := DropChild(m, q, node, level, i, dropUsed);
    } else if dropUsed {
      AtOther(w, q, q', level, node);
      CutEntry(m, q', level, node, i);
      AtOther(m.W(), q', q, level, node);
      OutsideCut(w, m.W(), q, level, i);
      used := false;
    } else {
      used := true;
    }
  }

  /** `Mapping::drop_subtree()`.

      With `dropUsed` every 4 KiB entry under `node` goes, and with it its reference. Without it, no
      translation changes, and what is left is tight: every entry that leads on leads to a mapped page.
      `deleted` says that nothing is left that `node` would be needed for. */
  method DropSubtree(m: Machine, ghost q: Path, node: nat, level: nat, dropUsed: bool) returns (deleted: bool)
    requires m.Valid() && At(m.W(), q, level, node) && PagePath(m.roots, q)
    modifies m`mem, m.frames
    ensures m.Valid() && At(m.W(), q, level, node)
    ensures Trimmed(old(m.W()), m.W(), q[TOP]) && SameOutside(old(m.W()), m.W(), q, level)
    ensures deleted ==> Bare(m.W(), Pte(node, {Present}), level + 1)
    ensures dropUsed ==> deleted
    ensures !dropUsed ==>
      && SameViews(old(m.W()), m.W()) && Tight(m.W(), q, level, ENTRY_COUNT)
      && (deleted <==> !MappedUnder(old(m.W()), q, level))
    decreases level, 2
  {
    hide Consistent, At, View, Find, Uses, PagePath, Trimmed, MappedUnder, Tight, Settled, PageAt, MappedBefore,
         SameOutside, SameViews;
    ghost var w := m.W();
    TrimmedSelf(w, q[TOP]);
    StartLoop(w, q, level);
    var hasUsed := false;
    for i := 0 to ENTRY_COUNT
      invariant m.Valid() && At(m.W(), q, level, node)
      invariant Trimmed(w, m.W(), q[TOP]) && SameOutside(w, m.W(), q, level)
      invariant dropUsed ==> !hasUsed
      invariant !dropUsed ==>
        && SameViews(w, m.W()) && Tight(m.W(), q, level, i)
        && (hasUsed <==> MappedBefore(m.W(), q, level, i))
      invariant !hasUsed ==> forall j :: 0 <= j < i ==> !m.mem[node][j].Counted()
    {
      ghost var w1 := m.W();
      var used := DropEntry(m, q, node, level, i, dropUsed);
      hasUsed := hasUsed || used;
      OutsideThen(w, w1, m.W(), q, level);
      TrimmedThen(w, w1, m.W(), q[TOP]);
      TrimmedCleared(w1, m.W(), q[TOP]);
      if !hasUsed {
        StillCleared(w1, m.W(), node, i);
      }
      if !dropUsed {
        LoopStep(w, w1, m.W(), q, level, node, i);
      }
    }
    deleted := dropUsed || !hasUsed;
    if !dropUsed {
      MappedAll(m.W(), q, level, node);
      MappedWhole(w, m.W(), q, level);
    }
  }

  lemma StartLoop(w: World, q: Path, l: nat)
    requires |q| == TOP + 1 && l < TOP
    ensures SameViews(w, w) && SameOutside(w, w, q, l) && Tight(w, q, l, 0) && !MappedBefore(w, q, l, 0)
  {
  }

  lemma StillCleared(w: World, w': World, n: nat, i: nat)
    requires OnlyCleared(w, w') && n < |w.mem| && i <= ENTRY_COUNT
    requires forall j :: 0 <= j < i ==> !w.mem[n][j].Counted()
    ensures forall j :: 0 <= j < i ==> !w'.mem[n][j].Counted()
  {
  }

  lemma LoopStep(w: World, w1: World, w': World, q: Path, l: nat, n: nat, i: nat)
    requires |q| == TOP + 1 && l < TOP && At(w', q, l, n) && i < ENTRY_COUNT
    requires SameViews(w, w1) && Tight(w1, q, l, i)
    requires OnlyCleared(w1, w') && SameViews(w1, w') && Settled(w', q, l, n, i)
    ensures SameViews(w, w') && Tight(w', q, l, i + 1)
    ensures MappedBefore(w', q, l, i + 1) <==> MappedBefore(w1, q, l, i) || PageAt(w', q, l, n, i)
  {
    hide View, MappedUnder, Tight, MappedBefore;
    SameViewsThen(w, w1, w');
    TightLater(w1, w', q, l, i);
    TightStep(w', q, l, n, i);
    MappedBeforeSame(w1, w', q, l, i);
    MappedNext(w', q, l, n, i);
  }

  lemma MappedWhole(w: World, w': World, q: Path, l: nat)
    requires SameViews(w, w') && |q| == TOP + 1 && l <= TOP
    ensures MappedUnder(w, q, l) <==> MappedUnder(w', q, l)
  {
    if MappedUnder(w, q, l) { MappedSame(w, w', q, l); }
    NotMappedSame(w, w', q, l);
  }

  // ---------------------------------------------------------------------------------------------
  // Pruning a whole mapping

  /** A page that is found at level `l` or below is found through the table of level `l`. */
  lemma {:induction false} FoundReaches(mem: Memory, t: seq<Pte>, level: nat, q: Path, l: nat)
    requires l < level < |q|
    requires Deepest(mem, t, level, q).pte.IsPresent() && Deepest(mem, t, level, q).level <= l
    ensures Reaches(mem, t, level, q, l)
    decreases level
  {
    var e := t[q[level]];
    assert Deepest(mem, t, level, q) == Deepest(mem, Below(mem, e), level - 1, q);
    assert e.frame < |mem|;
    if l < level - 1 {
      FoundReaches(mem, mem[e.frame], level - 1, q, l);
    } else {
      assert q[l] < |mem[e.frame]|;
    }
  }

  /** Pruning keeps exactly the nodes that are needed: a table below the root of space `s` survives,
      in its frame, if and only if some page below it is mapped. */
  lemma PrunedExactly(w: World, w': World, q: Path, p: Path, l: nat, n: nat)
    requires Consistent(w) && |q| == TOP + 1 && |p| == TOP + 1 && p[TOP] == q[TOP]
    requires OnlyCleared(w, w') && SameViews(w, w') && Tight(w', q, ROOT_LEVEL, ENTRY_COUNT)
    requires l < ROOT_LEVEL && p[l] < ENTRY_COUNT
    ensures At(w', p, l, n) <==> At(w, p, l, n) && MappedUnder(w, p, l)
  {
    if At(w', p, l, n) {
      AtBefore(w, w', p, l, n);
      ReachesAbove(w'.mem, w'.roots, TOP, p, l + 1);
      var above := NodeFrame(w'.mem, w'.roots, TOP, p, l + 1);
      ReachesIndex(w'.mem, w'.roots, TOP, p, l, ROOT_LEVEL);
      DownCounted(w', p, l, n, l + 1, above);
      assert At(w', p, l + 1, above);
      MappedWhole(w, w', p, l);
    }
    if At(w, p, l, n) && MappedUnder(w, p, l) {
      var a: Path :| |a| == TOP + 1 && Agree(a, p, l + 1, TOP) && View(w, a).Mapped?;
      DeepestOutside(w.mem, w.roots, TOP, p, l, a);
      AtOther(w, p, a, l, n);
      AtFindLevel(w, a, l, n);
      assert View(w', a) == View(w, a);
      FoundReaches(w'.mem, w'.roots, TOP, a, l);
      AtBefore(w, w', a, l, NodeFrame(w'.mem, w'.roots, TOP, a, l));
      AtOther(w', a, p, l, n);
    }
  }

  lemma AtFindLevel(w: World, q: Path, l: nat, n: nat)
    requires At(w, q, l, n)
    ensures Find(w, q).level <= l
  {
    EntryView(w, q, l, n, q);
    FindBelow(w.mem, w.mem[n][q[l]], l, q);
  }

  lemma {:induction false} FindBelow(mem: Memory, e: Pte, level: nat, q: Path)
    requires level < |q|
    ensures DeepestAt(mem, e, level, q).level <= level
    decreases level
  {
    if level > 0 && e.Counted() {
      var t := Below(mem, e);
      if q[level - 1] < |t| {
        FindBelow(mem, t[q[level - 1]], level - 1, q);
      }
    }
  }

  ghost function RootPath(s: nat): Path { [0, 0, 0, 0, s] }

  /** `Mapping::unmap_unused_intermediate()` on space `s`, which has some page mapped. */
  method UnmapUnusedIntermediate(m: Machine, s: nat)
    requires m.Valid() && s < |m.roots| && m.roots[s].Counted()
    requires MappedUnder(m.W(), RootPath(s), ROOT_LEVEL)
    modifies m`mem, m.frames
    ensures m.Valid() && SameViews(old(m.W()), m.W())
    ensures forall p: Path, a: Flag {:trigger Right(m.W(), p, a)} :: |p| == TOP + 1 ==>
      Right(m.W(), p, a) == Right(old(m.W()), p, a)
    ensures Trimmed(old(m.W()), m.W(), s)
    ensures Tight(m.W(), RootPath(s), ROOT_LEVEL, ENTRY_COUNT)
    ensures forall p: Path, l: nat, n: nat {:trigger At(m.W(), p, l, n)} ::
      |p| == TOP + 1 && p[TOP] == s && l < ROOT_LEVEL && p[l] < ENTRY_COUNT ==>
      (At(m.W(), p, l, n) <==> At(old(m.W()), p, l, n) && MappedUnder(old(m.W()), p, l))
  {
    hide Consistent, At, View, Find, Uses, MappedUnder, Tight, SameOutside, SameViews, Right;
    ghost var w, q := m.W(), RootPath(s);
    GoIn(w, q);
    var deleted := DropSubtree(m, q, m.roots[s].frame, ROOT_LEVEL, false);
    assert !deleted;
    PrunedRights(w, m.W());
    forall p: Path, l: nat, n: nat | |p| == TOP + 1 && p[TOP] == s && l < ROOT_LEVEL && p[l] < ENTRY_COUNT
      ensures At(m.W(), p, l, n) <==> At(w, p, l, n) && MappedUnder(w, p, l)
    {
      PrunedExactly(w, m.W(), q, p, l, n);
    }
  }

  lemma PrunedRights(w: World, w': World)
    requires OnlyCleared(w, w') && SameViews(w, w') && Consistent(w)
    ensures forall p: Path, a: Flag {:trigger Right(w', p, a)} :: |p| == TOP + 1 ==> Right(w', p, a) == Right(w, p, a)
  {
    hide Right, View, WellFormed, Unshared, Balanced;
    forall p: Path, a: Flag | |p| == TOP + 1 ensures Right(w', p, a) == Right(w, p, a) {
      assert View(w', p) == View(w, p);
      ClearedRights(w, w', p, a);
    }
  }

  // ---------------------------------------------------------------------------------------------
  // Dropping a whole mapping

  /** Space `s` is gone, and with it the root's reference. */
  ghost predicate RootCut(w: World, w': World, s: nat)
    requires s < |w.roots|
  {
    w' == w.(roots := w.roots[s := EMPTY], counts := Release(w.counts, w.roots[s].frame), free := w'.free)
  }

  lemma RootCutKeeps(w: World, w': World, s: nat)
    requires Consistent(w) && s < |w.roots| && w.roots[s].Counted() && Bare(w, w.roots[s], TOP)
    requires RootCut(w, w', s)
    ensures Consistent(w') && FewerNodes(w, w')
    ensures Tracked(w.counts, w.roots[s].frame) ==> w.counts[w.roots[s].frame].value > 0
  {
    hide Count, CountAt, WellFormed, EntryFormed;
    var root := w.roots[s].frame;
    RootNamed(w, s);
    BareCounts(w, w.roots[s], TOP);
    EmptyCounts(w.mem, TOP);
    forall f: nat, floor: nat
      ensures Uses(w', floor, f) == Uses(w, floor, f) - if f == root && TOP >= floor then 1 else 0
    {
      CountUpdate(w.mem, w.roots, s, EMPTY, TOP, floor, f);
    }
    forall f: nat ensures Count(w'.mem, w'.roots, TOP, 1, f) <= 1 {
      assert Uses(w', 1, f) <= Uses(w, 1, f);
      UsedOnce(w);
    }
    RootFormed(w, w', s);
  }

  lemma RootFormed(w: World, w': World, s: nat)
    requires s < |w.roots| && w'.mem == w.mem && w'.roots == w.roots[s := EMPTY]
    requires WellFormed(w.mem, w.roots, TOP)
    ensures WellFormed(w'.mem, w'.roots, TOP)
  {
    EmptyFormed(w.mem, TOP);
  }

  lemma RootNamed(w: World, s: nat)
    requires Consistent(w) && s < |w.roots| && w.roots[s].Counted()
    ensures Tracked(w.counts, w.roots[s].frame) ==> w.counts[w.roots[s].frame].value > 0
  {
    CountPart(w.mem, w.roots, s, TOP, 0, w.roots[s].frame);
    NamedHasCount(w, w.roots[s].frame);
  }

  lemma NodeOfCounts(w: World, s: nat, x: nat)
    requires NodeOf(w, s, x)
    ensures s < |w.roots| && CountAt(w.mem, w.roots[s], TOP, 1, x) > 0
  {
    var q: Path, l: nat :| At(w, q, l, x) && q[TOP] == s;
    InsideCounts(w.mem, w.roots, TOP, q, l, x);
  }

  /** The references of the other spaces do not depend on the nodes of space `s`. */
  lemma TouchedUses(w: World, w': World, s: nat, f: nat)
    requires Consistent(w) && s < |w.roots| && Touches(w, w', s)
    ensures Count(w'.mem, w.roots[s := EMPTY], TOP, 0, f) + CountAt(w.mem, w.roots[s], TOP, 0, f) == Uses(w, 0, f)
  {
    hide Count, CountAt, WellFormed, NodeOf;
    var others := w.roots[s := EMPTY];
    EmptyCounts(w.mem, TOP);
    EmptyCounts(w'.mem, TOP);
    forall j | 0 <= j < |others| ensures CountAt(w'.mem, others[j], TOP, 0, f) == CountAt(w.mem, others[j], TOP, 0, f) {
      if j != s {
        TouchedSibling(w, w', s, j);
        FrameAt(w.mem, w'.mem, w.roots[j], TOP);
      }
    }
    CountSame(w.mem, w'.mem, others, TOP, 0, f);
    CountUpdate(w.mem, w.roots, s, EMPTY, TOP, 0, f);
  }

  lemma TouchedSibling(w: World, w': World, s: nat, j: nat)
    requires Consistent(w) && s < |w.roots| && Touches(w, w', s) && j < |w.roots| && j != s
    ensures SameNodesAt(w.mem, w'.mem, w.roots[j], TOP)
  {
    hide NodeOf;
    forall x: nat | x < |w.mem| && w'.mem[x] != w.mem[x] ensures CountAt(w.mem, w.roots[j], TOP, 1, x) == 0 {
      assert NodeOf(w, s, x);
      NodeOfCounts(w, s, x);
      CountParts(w.mem, w.roots, s, j, TOP, 1, x);
      UsedOnce(w);
      assert Uses(w, 1, x) <= 1;
    }
  }

  /** `Drop for Mapping` on space `s`: all of its pages go, other spaces keep theirs, and exactly the
      references its trees held are given up. */
  method Drop(m: Machine, s: nat)
    requires m.Valid() && s < |m.roots| && m.roots[s].Counted()
    modifies m`mem, m`roots, m.frames
    ensures m.Valid() && m.held == old(m.held) && m.roots == old(m.roots)[s := EMPTY]
    ensures forall p: Path {:trigger View(m.W(), p)} :: |p| == TOP + 1 ==>
      View(m.W(), p) == if p[TOP] == s then Unmapped else View(old(m.W()), p)
    ensures forall f: nat {:trigger Uses(m.W(), 0, f)} ::
      Uses(m.W(), 0, f) == Uses(old(m.W()), 0, f) - CountAt(old(m.mem), old(m.roots)[s], TOP, 0, f)
    ensures SameTracked(old(m.W()).counts, m.W().counts)
    ensures Touches(old(m.W()), m.W(), s) && FewerNodes(old(m.W()), m.W())
    ensures forall p: Path, a: Flag {:trigger Right(m.W(), p, a)} :: |p| == TOP + 1 ==>
      Right(m.W(), p, a) == (p[TOP] != s && Right(old(m.W()), p, a))
  {
    hide Right, Consistent, At, Uses, SameOutside, PagePath, Tight, MappedUnder, NodeOf, Count, CountAt, WellLinked;
    ghost var w, q := m.W(), RootPath(s);
    SpacePath(m.roots, s);
    GoIn(w, q);
    var root := m.roots[s].frame;
    var deleted := DropSubtree(m, q, root, ROOT_LEVEL, true);
    ghost var w1 := m.W();
    RootNamed(w1, s);
    m.frames.Deallocate(root);
    m.roots := m.roots[s := EMPTY];
    RootCutKeeps(w1, m.W(), s);
    FewerThen(w, w1, m.W());
    DropViews(w, w1, m.W(), s);
    DropRights(w, w1, m.W(), s);
    forall f: nat ensures Uses(m.W(), 0, f) == Uses(w, 0, f) - CountAt(w.mem, w.roots[s], TOP, 0, f) {
      DropUses(w, m.W(), s, f);
    }
  }

  lemma SpacePath(roots: seq<Pte>, s: nat)
    requires s < |roots| && roots[s].Counted()
    ensures PagePath(roots, RootPath(s))
  {
  }

  lemma DropUses(w: World, w': World, s: nat, f: nat)
    requires Consistent(w) && s < |w.roots| && Touches(w, w', s) && w'.roots == w.roots[s := EMPTY]
    ensures Uses(w', 0, f) == Uses(w, 0, f) - CountAt(w.mem, w.roots[s], TOP, 0, f)
  {
    TouchedUses(w, w', s, f);
  }

  lemma DropRights(w: World, w1: World, w': World, s: nat)
    requires s < |w.roots| && SameOutside(w, w1, RootPath(s), ROOT_LEVEL) && OnlyCleared(w, w1) && Consistent(w)
    requires w'.mem == w1.mem && w1.roots == w.roots && w'.roots == w.roots[s := EMPTY]
    ensures forall p: Path, a: Flag {:trigger Right(w', p, a)} :: |p| == TOP + 1 ==>
      Right(w', p, a) == (p[TOP] != s && Right(w, p, a))
  {
    hide WellFormed, Unshared, Balanced;
    forall p: Path, a: Flag | |p| == TOP + 1 ensures Right(w', p, a) == (p[TOP] != s && Right(w, p, a)) {
      if p[TOP] != s {
        assert !Agree(p, RootPath(s), ROOT_LEVEL + 1, TOP);
        assert Find(w1, p) == Find(w, p);
        ClearedRights(w, w1, p, a);
      } else {
        assert !EMPTY.IsPresent();
      }
    }
  }

  lemma DropViews(w: World, w1: World, w': World, s: nat)
    requires s < |w.roots| && SameOutside(w, w1, RootPath(s), ROOT_LEVEL)
    requires w'.mem == w1.mem && w1.roots == w.roots && w'.roots == w.roots[s := EMPTY]
    ensures forall p: Path {:trigger View(w', p)} :: |p| == TOP + 1 ==>
      View(w', p) == if p[TOP] == s then Unmapped else View(w, p)
  {
    forall p: Path | |p| == TOP + 1 ensures View(w', p) == if p[TOP] == s then Unmapped else View(w, p) {
      if p[TOP] != s {
        assert !Agree(p, RootPath(s), ROOT_LEVEL + 1, TOP);
        assert Find(w1, p) == Find(w, p);
        assert Find(w', p) == Find(w1, p);
      }
    }
  }
}
