/** Dropping a mapping that has no root yet.

    `Mapping::duplicate()` starts from a mapping whose root is the default frame, frame 0. When frames run out that
    mapping is dropped, and whatever is in frame 0 is read as a page table. */
module Stray {
  import opened Mmu
  import opened PageTree
  import opened FrameAllocator
  import opened World
  import opened Machine
  import opened Zeroing

  /** What dropping reads and writes. */
  datatype Store = Store(mem: Memory, counts: Counts)

  predicate IsFree(c: Counts, f: nat) { f < |c| && c[f] == Some(0) }

  /** `Mapping::drop_subtree()` from entry `i` of `node` on, on any memory: `None` if it panics, because an entry leads
      out of memory or to a frame that is free. */
  ghost function DropFrom(st: Store, node: nat, level: nat, i: nat): (r: Option<Store>)
    requires node < |st.mem| && i <= ENTRY_COUNT
    ensures r.Some? ==> |r.value.mem| == |st.mem|
    decreases level, ENTRY_COUNT - i
  {
    if i == ENTRY_COUNT then Some(st)
    else if !st.mem[node][i].Counted() then DropFrom(st, node, level, i + 1)
    else
      var f := st.mem[node][i].frame;
      var below := if level == 0 then Some(st) else if f < |st.mem| then DropFrom(st, f, level - 1, 0) else None;
      if below.None? || IsFree(below.value.counts, f) then None
      else DropFrom(Store(Write(below.value.mem, node, i, EMPTY), Release(below.value.counts, f)), node, level, i + 1)
  }

  predicate NoneCounted(t: Table) { forall i :: 0 <= i < ENTRY_COUNT ==> !t[i].Counted() }

  /** Entries were cleared and counts fell, nothing else. */
  ghost predicate Fell(st: Store, st': Store) {
    && |st'.mem| == |st.mem| && |st'.counts| == |st.counts|
    && (forall x: nat, i: nat {:trigger st'.mem[x][i]} :: x < |st.mem| && i < ENTRY_COUNT ==>
          st'.mem[x][i] == st.mem[x][i] || st'.mem[x][i] == EMPTY)
    && (forall f: nat {:trigger st'.counts[f]} :: f < |st.counts| ==>
          && (st'.counts[f].Some? <==> st.counts[f].Some?)
          && (st.counts[f].Some? ==> st'.counts[f].value <= st.counts[f].value))
  }

  lemma FellThen(st: Store, st1: Store, st2: Store)
    requires Fell(st, st1) && Fell(st1, st2)
    ensures Fell(st, st2)
  {
    forall x: nat, i: nat | x < |st.mem| && i < ENTRY_COUNT
      ensures st2.mem[x][i] == st.mem[x][i] || st2.mem[x][i] == EMPTY
    {
      assert st1.mem[x][i] == st.mem[x][i] || st1.mem[x][i] == EMPTY;
    }
    forall f: nat | f < |st.counts|
      ensures st2.counts[f].Some? <==> st.counts[f].Some?
      ensures st.counts[f].Some? ==> st2.counts[f].value <= st.counts[f].value
    {
      assert st1.counts[f].Some? <==> st.counts[f].Some?;
    }
  }

  lemma FellCut(st: Store, node: nat, i: nat, f: nat)
    requires node < |st.mem| && i < ENTRY_COUNT
    ensures Fell(st, Store(Write(st.mem, node, i, EMPTY), Release(st.counts, f)))
  {
  }

  /** Dropping clears every counted entry of the node. */
  lemma {:induction false} DropFalls(st: Store, node: nat, level: nat, i: nat)
    requires node < |st.mem| && i <= ENTRY_COUNT && DropFrom(st, node, level, i).Some?
    ensures Fell(st, DropFrom(st, node, level, i).value)
    ensures forall j: nat :: i <= j < ENTRY_COUNT ==> !DropFrom(st, node, level, i).value.mem[node][j].Counted()
    decreases level, ENTRY_COUNT - i
  {
    if i < ENTRY_COUNT {
      var f := st.mem[node][i].frame;
      var next := st;
      if st.mem[node][i].Counted() {
        var below := if level == 0 then st else DropFrom(st, f, level - 1, 0).value;
        if level > 0 { DropFalls(st, f, level - 1, 0); }
        next := Store(Write(below.mem, node, i, EMPTY), Release(below.counts, f));
        FellCut(below, node, i, f);
        FellThen(st, below, next);
      }
      DropFalls(next, node, level, i + 1);
      FellThen(st, next, DropFrom(st, node, level, i).value);
      assert !next.mem[node][i].Counted();
      var last := DropFrom(st, node, level, i).value;
      assert last.mem[node][i] == next.mem[node][i] || last.mem[node][i] == EMPTY;
    }
  }

  lemma {:induction false} DropNothing(st: Store, node: nat, level: nat, i: nat)
    requires node < |st.mem| && i <= ENTRY_COUNT && NoneCounted(st.mem[node])
    ensures DropFrom(st, node, level, i) == Some(st)
    decreases ENTRY_COUNT - i
  {
    if i < ENTRY_COUNT { DropNothing(st, node, level, i + 1); }
  }

  /** Dropping changes nothing if and only if the node has no counted entry. */
  lemma DropHarmless(st: Store, node: nat, level: nat)
    requires node < |st.mem|
    ensures DropFrom(st, node, level, 0) == Some(st) <==> NoneCounted(st.mem[node])
  {
    if NoneCounted(st.mem[node]) {
      DropNothing(st, node, level, 0);
    }
    if DropFrom(st, node, level, 0) == Some(st) {
      DropFalls(st, node, level, 0);
    }
  }

  /** One round of the loop, for an entry that is counted. */
  lemma DropStep(st: Store, node: nat, level: nat, i: nat, below: Option<Store>)
    requires node < |st.mem| && i < ENTRY_COUNT && st.mem[node][i].Counted()
    requires below == if level == 0 then Some(st)
      else if st.mem[node][i].frame < |st.mem| then DropFrom(st, st.mem[node][i].frame, level - 1, 0)
      else None
    ensures below.Some? ==> |below.value.mem| == |st.mem|
    ensures (
      var f := st.mem[node][i].frame;
      DropFrom(st, node, level, i) ==
      if below.None? || IsFree(below.value.counts, f) then None
      else DropFrom(Store(Write(below.value.mem, node, i, EMPTY), Release(below.value.counts, f)), node, level, i + 1))
  {
  }

  lemma DropSkip(st: Store, node: nat, level: nat, i: nat)
    requires node < |st.mem| && i <= ENTRY_COUNT && (i < ENTRY_COUNT ==> !st.mem[node][i].Counted())
    ensures DropFrom(st, node, level, i) == if i == ENTRY_COUNT then Some(st) else DropFrom(st, node, level, i + 1)
  {
  }

  lemma FreeIsZero(a: FrameAllocator, f: nat)
    requires a.Valid()
    ensures IsFree(a.counts, f) <==> f < |a.info| && a.info[f].Free?
  {
  }

  /** `Mapping::drop_subtree()` with `drop_used`, on whatever is in frame `node`. */
  method DropStray(m: Machine, node: nat, level: nat) returns (ok: bool)
    requires m.frames.Valid() && node < |m.mem|
    modifies m`mem, m.frames
    ensures m.frames.Valid()
    ensures ok <==> DropFrom(Store(old(m.mem), old(m.frames.counts)), node, level, 0).Some?
    ensures ok ==> DropFrom(Store(old(m.mem), old(m.frames.counts)), node, level, 0) ==
                   Some(Store(m.mem, m.frames.counts))
    ensures NoneCounted(old(m.mem)[node]) ==> m.frames.freeCount == old(m.frames.freeCount)
    decreases level
  {
    hide WellLinked, DropFrom, Release;
    ghost var st := Store(m.mem, m.frames.counts);
    for i := 0 to ENTRY_COUNT
      invariant m.frames.Valid() && |m.mem| == |st.mem|
      invariant DropFrom(st, node, level, 0) == DropFrom(Store(m.mem, m.frames.counts), node, level, i)
      invariant NoneCounted(st.mem[node]) ==> m.mem == st.mem && m.frames.freeCount == old(m.frames.freeCount)
    {
      var pte := m.mem[node][i];
      ghost var st1 := Store(m.mem, m.frames.counts);
      if !pte.Counted() {
        DropSkip(st1, node, level, i);
      } else {
        if level > LEAF_LEVEL {
          if pte.frame >= |m.mem| {
            DropStep(st1, node, level, i, None);
            return false;
          }
          ghost var below := DropFrom(st1, pte.frame, level - 1, 0);
          DropStep(st1, node, level, i, below);
          var done := DropStray(m, pte.frame, level - 1);
          if !done {
            return false;
          }
        } else {
          DropStep(st1, node, level, i, Some(st1));
        }
        FreeIsZero(m.frames, pte.frame);
        if pte.frame < |m.frames.info| && m.frames.info[pte.frame].Free? {
          return false;
        }
        m.frames.Deallocate(pte.frame);
        m.mem := Write(m.mem, node, i, EMPTY);
      }
    }
    DropSkip(Store(m.mem, m.frames.counts), node, level, ENTRY_COUNT);
    ok := true;
  }

  /** Frame 0 is no node, and nothing in it could be taken for an entry that leads on. */
  ghost predicate Quiet(w: World) { 0 < |w.mem| && Uses(w, 1, 0) == 0 && NoneCounted(w.mem[0]) }

  /** What dropping the tree at frame 0 leaves. */
  ghost predicate DroppedAtZero(w: World, w': World)
    requires 0 < |w.mem|
  {
    && w' == w.(mem := w'.mem, counts := w'.counts, free := w'.free)
    && DropFrom(Store(w.mem, w.counts), 0, ROOT_LEVEL, 0) == Some(Store(w'.mem, w'.counts))
  }

  /** `Drop for Mapping`, of a mapping whose root is frame 0. It changes nothing if and only if no entry of frame 0 is
      counted. */
  method DropUnrooted(m: Machine) returns (ok: bool)
    requires m.Valid() && 0 < |m.mem|
    modifies m`mem, m.frames
    ensures m.frames.Valid()
    ensures ok <==> DropFrom(Store(old(m.mem), old(m.frames.counts)), 0, ROOT_LEVEL, 0).Some?
    ensures ok ==> DroppedAtZero(old(m.W()), m.W())
    ensures ok && m.W() == old(m.W()) <==> NoneCounted(old(m.mem)[0])
  {
    hide WellLinked, DropFrom, Consistent;
    ghost var st := Store(m.mem, m.frames.counts);
    assert !Tracked(m.frames.counts, 0);
    DropHarmless(st, 0, ROOT_LEVEL);
    ok := DropStray(m, 0, ROOT_LEVEL);
    if ok {
      DropFalls(st, 0, ROOT_LEVEL, 0);
      FreeIsZero(m.frames, 0);
      m.frames.Deallocate(0);
    }
  }

  function OneEntry(f: nat): Table { EMPTY_TABLE[0 := Pte(f, {Present})] }

  /** In any state, with a frame `f` in use whose contents are zeros, let an entry that names `f` stand in frame 0. All
      is well with that state; but dropping the tree at frame 0 gives up a reference to `f` that nobody holds, so that
      with its last counted reference `f` becomes free while it is still named. */
  lemma StrayReleases(w: World, f: nat)
    requires Consistent(w) && !Tracked(w.counts, 0) && 0 < |w.mem| && Uses(w, 1, 0) == 0
    requires 0 < f < |w.mem| && Tracked(w.counts, f) && w.counts[f].value > 0 && NoneCounted(w.mem[f])
    ensures var w1 := w.(mem := w.mem[0 := OneEntry(f)]);
      && Consistent(w1) && SameTables(w, w1)
      && forall w': World :: DroppedAtZero(w1, w') ==>
           && w'.counts == w.counts[f := Some(w.counts[f].value - 1)]
           && Uses(w', 0, f) == Uses(w, 0, f) && w'.held == w.held && !Consistent(w')
    ensures DropFrom(Store(w.mem[0 := OneEntry(f)], w.counts), 0, ROOT_LEVEL, 0) ==
      Some(Store(w.mem[0 := EMPTY_TABLE], Release(w.counts, f)))
  {
    hide Consistent, Uses, DropFrom;
    var w1 := w.(mem := w.mem[0 := OneEntry(f)]);
    FillKeeps(w, 0, OneEntry(f));
    FillKeeps(w, 0, EMPTY_TABLE);
    DropOne(w1, f);
    assert w1.mem[0 := EMPTY_TABLE] == w.mem[0 := EMPTY_TABLE];
    forall w': World | DroppedAtZero(w1, w')
      ensures w'.counts == w.counts[f := Some(w.counts[f].value - 1)]
      ensures Uses(w', 0, f) == Uses(w, 0, f) && w'.held == w.held && !Consistent(w')
    {
      SameUses(w.(mem := w.mem[0 := EMPTY_TABLE]), w', 0, f);
      Unbalanced(w, w', f);
    }
  }

  lemma DropOne(w: World, f: nat)
    requires 0 < f < |w.mem| && w.mem[0] == OneEntry(f) && NoneCounted(w.mem[f]) && !IsFree(w.counts, f)
    ensures DropFrom(Store(w.mem, w.counts), 0, ROOT_LEVEL, 0) ==
      Some(Store(w.mem[0 := EMPTY_TABLE], Release(w.counts, f)))
  {
    hide DropFrom;
    var st := Store(w.mem, w.counts);
    assert st.mem[0][0] == Pte(f, {Present}) && st.mem[0][0].Counted();
    DropNothing(st, f, ROOT_LEVEL - 1, 0);
    DropStep(st, 0, ROOT_LEVEL, 0, Some(st));
    assert OneEntry(f)[0 := EMPTY] == EMPTY_TABLE;
    DropNothing(Store(w.mem[0 := EMPTY_TABLE], Release(w.counts, f)), 0, ROOT_LEVEL, 1);
  }

  lemma SameUses(w: World, w': World, floor: nat, f: nat)
    requires w'.mem == w.mem && w'.roots == w.roots
    ensures Uses(w', floor, f) == Uses(w, floor, f)
  {
  }

  lemma Unbalanced(w: World, w': World, f: nat)
    requires Consistent(w) && Tracked(w.counts, f) && Tracked(w'.counts, f)
    requires w'.counts[f].value != w.counts[f].value && Uses(w', 0, f) == Uses(w, 0, f) && w'.held == w.held
    ensures !Consistent(w')
  {
    hide Uses, WellFormed, Unshared;
  }
}
