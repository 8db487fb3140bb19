/** Copying a tree of nodes into fresh frames. */
module Copying {
  import opened Mmu
  import opened PageTree
  import opened FrameAllocator
  import opened World
  import opened Clearing

  /** What a copy says where the original says `t`: 4 KiB user pages are left out. */
  function CopyOf(t: Translation): Translation {
    if t.Mapped? && t.level == LEAF_LEVEL && User in t.flags then Unmapped else t
  }

  /** The entry that would lead to a table in frame `n`. */
  function EntryTo(n: nat): Pte { Pte(n, {Present}) }

  /** References to `f` from the tree whose root table, of level `l`, is in frame `n`; its own included. */
  ghost function Owns(w: World, n: nat, l: nat, floor: nat, f: nat): nat {
    CountAt(w.mem, EntryTo(n), l + 1, floor, f)
  }

  ghost predicate WasFree(w: World, f: nat) { f < |w.counts| && w.counts[f] == Some(0) }

  /** Counts never fell, and only frames that were free were written to. */
  ghost predicate Grew(w: World, w': World) {
    && |w'.mem| == |w.mem| && w'.roots == w.roots && |w'.counts| == |w.counts|
    && (forall f: nat {:trigger w'.counts[f]} {:trigger w.counts[f]} :: f < |w.counts| ==>
          && (w.counts[f].Some? <==> w'.counts[f].Some?)
          && (w.counts[f].Some? ==> w.counts[f].value <= w'.counts[f].value))
    && (forall x: nat {:trigger w'.mem[x]} :: x < |w.mem| && w'.mem[x] != w.mem[x] ==> WasFree(w, x))
  }

  /** A copy is being built in frame `dst`, in frames that were free in `w0`. Whoever builds it holds
      the references of the part that is built, and those of entry `e`, which is to be added next. */
  ghost predicate Building(w0: World, w: World, dst: nat, l: nat, e: Pte) {
    && Grew(w0, w) && WasFree(w0, dst) && dst < |w.mem|
    && WellFormed(w.mem, w.mem[dst], l) && EntryFormed(w.mem, e, l)
    && (forall f: nat {:trigger w.held[f]} ::
          w.held[f] == w0.held[f] + Owns(w, dst, l, 0, f) + CountAt(w.mem, e, l, 0, f))
    && (forall f: nat {:trigger Owns(w, dst, l, 1, f)} ::
          && Owns(w, dst, l, 1, f) + CountAt(w.mem, e, l, 1, f) <= 1
          && (Owns(w, dst, l, 1, f) + CountAt(w.mem, e, l, 1, f) > 0 ==> WasFree(w0, f)))
  }

  // ---------------------------------------------------------------------------------------------

  /** The trees do not notice writes to frames that were free. */
  lemma GrewForest(w: World, w': World)
    requires Consistent(w) && Grew(w, w')
    ensures SameNodes(w.mem, w'.mem, w.roots, TOP)
  {
    forall x: nat | x < |w.mem| && w'.mem[x] != w.mem[x] ensures Count(w.mem, w.roots, TOP, 1, x) == 0 {
      FreeIsUnused(w, x);
    }
  }

  lemma GrewThen(w: World, w': World, w'': World)
    requires Grew(w, w') && Grew(w', w'')
    ensures Grew(w, w'')
  {
    forall x: nat | x < |w.mem| && w''.mem[x] != w.mem[x] ensures WasFree(w, x) {
      if w'.mem[x] == w.mem[x] {
        assert WasFree(w', x);
        assert w.counts[x].Some?;
      }
    }
  }

  /** The part already built does not notice further writes to free frames. */
  lemma GrewBuilt(w0: World, w: World, w': World, dst: nat, l: nat)
    requires Consistent(w) && Building(w0, w, dst, l, EMPTY) && Grew(w, w')
    ensures SameNodesAt(w.mem, w'.mem, EntryTo(dst), l + 1)
    ensures w'.mem[dst] == w.mem[dst]
    ensures forall f: nat {:trigger Owns(w, dst, l, 1, f)} :: WasFree(w, f) ==> Owns(w, dst, l, 1, f) == 0
  {
    hide Count, WellFormed, EntryFormed;
    forall f: nat | WasFree(w, f) ensures Owns(w, dst, l, 1, f) == 0 {
      BuiltIsHeld(w0, w, dst, l, f);
    }
    forall x: nat | x < |w.mem| && w'.mem[x] != w.mem[x] ensures CountAt(w.mem, EntryTo(dst), l + 1, 1, x) == 0 {
      assert WasFree(w, x);
      assert Owns(w, dst, l, 1, x) == 0;
    }
    assert CountAt(w.mem, EntryTo(dst), l + 1, 1, dst) > 0;
  }

  lemma BuiltIsHeld(w0: World, w: World, dst: nat, l: nat, f: nat)
    requires Consistent(w) && Building(w0, w, dst, l, EMPTY) && WasFree(w, f)
    ensures Owns(w, dst, l, 1, f) == 0
  {
    CountAtFloor(w.mem, EntryTo(dst), l + 1, f);
    FreeIsUnused(w, f);
  }

  /** Building starts with a fresh, empty node. */
  lemma StartBuilding(w0: World, dst: nat, l: nat)
    requires Consistent(w0) && WasFree(w0, dst) && w0.free > 0
    ensures Building(w0, TakeNode(w0, dst), dst, l, EMPTY)
  {
    var w := TakeNode(w0, dst);
    TakeNodeKeeps(w0, dst);
    forall f: nat, floor: nat | floor <= 1
      ensures Owns(w, dst, l, floor, f) == if f == dst then 1 else 0
    {
      CountNothing(w.mem, EMPTY_TABLE, l, floor, f);
    }
    EmptyCounts(w.mem, l);
    assert forall f: nat :: w.held[f] == w0.held[f] + if f == dst then 1 else 0;
  }

  /** The table under construction, with entry `e` written, as seen before and after the write. */
  lemma AttachTable(w0: World, w: World, w': World, dst: nat, l: nat, i: nat, e: Pte)
    requires Building(w0, w, dst, l, e) && i < ENTRY_COUNT && w.mem[dst][i] == EMPTY
    requires w'.mem == Write(w.mem, dst, i, e)
    ensures SameNodes(w.mem, w'.mem, w.mem[dst][i := e], l)
  {
    hide Count, EntryFormed, WellFormed, Grew;
    var t := w.mem[dst];
    EmptyCounts(w.mem, l);
    assert CountAt(w.mem, EntryTo(dst), l + 1, 1, dst) == 1 + Count(w.mem, t, l, 1, dst);
    assert Owns(w, dst, l, 1, dst) + CountAt(w.mem, e, l, 1, dst) <= 1;
    CountUpdate(w.mem, t, i, e, l, 1, dst);
  }

  lemma AttachOwns(w0: World, w: World, w': World, dst: nat, l: nat, i: nat, e: Pte, floor: nat, f: nat)
    requires Building(w0, w, dst, l, e) && i < ENTRY_COUNT && w.mem[dst][i] == EMPTY
    requires w'.mem == Write(w.mem, dst, i, e) && floor <= 1
    ensures Owns(w', dst, l, floor, f) == Owns(w, dst, l, floor, f) + CountAt(w.mem, e, l, floor, f)
  {
    hide EntryFormed, WellFormed, Grew;
    AttachTable(w0, w, w', dst, l, i, e);
    Frame(w.mem, w'.mem, w.mem[dst][i := e], l);
    EmptyCounts(w.mem, l);
    CountUpdate(w.mem, w.mem[dst], i, e, l, floor, f);
  }

  /** The entry to be added is written. */
  lemma Attach(w0: World, w: World, w': World, dst: nat, l: nat, i: nat, e: Pte)
    requires Consistent(w) && Building(w0, w, dst, l, e) && Uses(w, 1, dst) == 0
    requires i < ENTRY_COUNT && w.mem[dst][i] == EMPTY
    requires w' == w.(mem := Write(w.mem, dst, i, e))
    ensures Building(w0, w', dst, l, EMPTY) && Consistent(w')
    ensures SameNodes(w.mem, w'.mem, w.roots, TOP)
    ensures forall p: Path {:trigger Deepest(w'.mem, w'.mem[dst], l, p)} | l < |p| ::
      Deepest(w'.mem, w'.mem[dst], l, p) ==
      if p[l] == i then DeepestAt(w.mem, e, l, p) else Deepest(w.mem, w.mem[dst], l, p)
  {
    hide Count, CountAt, EntryFormed;
    EmptyCounts(w'.mem, l);
    EmptyFormed(w'.mem, l);
    AttachTable(w0, w, w', dst, l, i, e);
    Frame(w.mem, w'.mem, w.mem[dst][i := e], l);
    forall f: nat, floor: nat | floor <= 1
      ensures Owns(w', dst, l, floor, f) == Owns(w, dst, l, floor, f) + CountAt(w.mem, e, l, floor, f)
    {
      AttachOwns(w0, w, w', dst, l, i, e, floor, f);
    }
    assert Count(w.mem, w.roots, TOP, 1, dst) == Uses(w, 1, dst);
    AttachConsistent(w, w', dst);
    AttachGrew(w0, w, w', dst);
  }

  lemma AttachConsistent(w: World, w': World, dst: nat)
    requires Consistent(w) && SameNodes(w.mem, w'.mem, w.roots, TOP) && w' == w.(mem := w'.mem)
    ensures Consistent(w')
  {
    Frame(w.mem, w'.mem, w.roots, TOP);
    forall f: nat
      ensures Uses(w', 0, f) == Uses(w, 0, f) && Count(w'.mem, w'.roots, TOP, 1, f) == Count(w.mem, w.roots, TOP, 1, f)
    { }
  }

  lemma AttachGrew(w0: World, w: World, w': World, dst: nat)
    requires Grew(w0, w) && WasFree(w0, dst) && dst < |w.mem| && |w'.mem| == |w.mem|
    requires w' == w.(mem := w'.mem) && forall x :: 0 <= x < |w.mem| && x != dst ==> w'.mem[x] == w.mem[x]
    ensures Grew(w0, w')
  {
  }

  /** A leaf is about to be added, and its reference is taken. */
  lemma AddReference(w0: World, w: World, w': World, dst: nat, e: Pte)
    requires Consistent(w) && Building(w0, w, dst, LEAF_LEVEL, EMPTY)
    requires e.Counted() && (Tracked(w.counts, e.frame) ==> w.counts[e.frame].value > 0)
    requires w' == w.(counts := Acquire(w.counts, e.frame), held := w.held + multiset{e.frame})
    ensures Building(w0, w', dst, LEAF_LEVEL, e)
  {
    hide Count, WellFormed;
    EmptyCounts(w.mem, 0);
    forall f: nat, floor: nat ensures Owns(w', dst, 0, floor, f) == Owns(w, dst, 0, floor, f) { }
    assert EntryFormed(w'.mem, e, 0);
  }

  /** A subtree was copied, and its root is about to be added. */
  lemma AddSubtree(w0: World, w: World, w': World, dst: nat, l: nat, child: nat, flags: Flags)
    requires l > 0 && Consistent(w) && Building(w0, w, dst, l, EMPTY)
    requires Building(w, w', child, l - 1, EMPTY) && Huge !in flags
    ensures Building(w0, w', dst, l, Pte.Of(child, flags))
    ensures w'.mem[dst] == w.mem[dst]
  {
    hide Count, WellFormed;
    var e := Pte.Of(child, flags);
    EmptyCounts(w.mem, l);
    EmptyCounts(w'.mem, l - 1);
    GrewThen(w0, w, w');
    GrewBuilt(w0, w, w', dst, l);
    FrameAt(w.mem, w'.mem, EntryTo(dst), l + 1);
    AddedFormed(w, w', dst, l);
    assert EntryFormed(w'.mem, e, l);
    forall f: nat, floor: nat
      ensures Owns(w', dst, l, floor, f) == Owns(w, dst, l, floor, f)
      ensures CountAt(w'.mem, e, l, floor, f) == Owns(w', child, l - 1, floor, f)
    { }
    forall f: nat
      ensures Owns(w', dst, l, 1, f) + CountAt(w'.mem, e, l, 1, f) <= 1
      ensures Owns(w', dst, l, 1, f) + CountAt(w'.mem, e, l, 1, f) > 0 ==> WasFree(w0, f)
    {
      assert Owns(w', child, l - 1, 1, f) > 0 ==> WasFree(w, f);
      assert Owns(w, dst, l, 1, f) > 0 ==> WasFree(w0, f);
    }
  }

  lemma AddedFormed(w: World, w': World, dst: nat, l: nat)
    requires dst < |w.mem| && WellFormed(w.mem, w.mem[dst], l)
    requires SameNodesAt(w.mem, w'.mem, EntryTo(dst), l + 1) && w'.mem[dst] == w.mem[dst]
    ensures WellFormed(w'.mem, w'.mem[dst], l)
  {
    FrameAt(w.mem, w'.mem, EntryTo(dst), l + 1);
    assert EntryFormed(w.mem, EntryTo(dst), l + 1);
  }

  /** A building that is given up: nothing is lost for others, some references may be left over. */
  ghost predicate Abandoned(w0: World, w: World) {
    && Grew(w0, w)
    && forall f: nat {:trigger w.held[f]} :: w.held[f] >= w0.held[f]
  }
}
