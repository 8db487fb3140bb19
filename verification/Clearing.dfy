/** Taking entries out of the trees: what stays true while entries are only ever cleared. */
module Clearing {
  import opened Mmu
  import opened PageTree
  import opened FrameAllocator
  import opened World

  /** Every entry of memory is as it was, or cleared. */
  ghost predicate OnlyCleared(w: World, w': World) {
    && |w'.mem| == |w.mem| && w'.roots == w.roots
    && forall x, i :: 0 <= x < |w.mem| && 0 <= i < ENTRY_COUNT ==> w'.mem[x][i] == w.mem[x][i] || w'.mem[x][i] == EMPTY
  }

  /** No frame became a node. */
  ghost predicate FewerNodes(w: World, w': World) {
    forall f: nat {:trigger Uses(w', 1, f)} :: Uses(w', 1, f) <= Uses(w, 1, f)
  }

  lemma ClearedThen(w: World, w': World, w'': World)
    requires OnlyCleared(w, w') && OnlyCleared(w', w'')
    ensures OnlyCleared(w, w'')
  {
    forall x, i | 0 <= x < |w.mem| && 0 <= i < ENTRY_COUNT
      ensures w''.mem[x][i] == w.mem[x][i] || w''.mem[x][i] == EMPTY
    {
      assert w'.mem[x][i] == w.mem[x][i] || w'.mem[x][i] == EMPTY;
    }
  }

  /** A table that can still be reached could be reached before, by the same frames. */
  lemma {:induction false} ReachedBefore(w: World, w': World, t: seq<Pte>, t': seq<Pte>, level: nat, q: Path, l: nat)
    requires OnlyCleared(w, w')
    requires |t'| == |t| && forall i :: 0 <= i < |t| ==> t'[i] == t[i] || t'[i] == EMPTY
    requires l < level < |q| && Reaches(w'.mem, t', level, q, l)
    ensures Reaches(w.mem, t, level, q, l)
    ensures NodeFrame(w.mem, t, level, q, l) == NodeFrame(w'.mem, t', level, q, l)
    decreases level
  {
    var e := t'[q[level]];
    assert e == t[q[level]];
    if l < level - 1 {
      ReachedBefore(w, w', w.mem[e.frame], w'.mem[e.frame], level - 1, q, l);
    } else {
      assert Reaches(w'.mem, w'.mem[e.frame], l, q, l);
      assert Reaches(w.mem, w.mem[e.frame], l, q, l);
    }
  }

  lemma AtBefore(w: World, w': World, q: Path, l: nat, n: nat)
    requires OnlyCleared(w, w') && At(w', q, l, n)
    ensures At(w, q, l, n)
  {
    ReachedBefore(w, w', w.roots, w'.roots, TOP, q, l);
  }

  /** A table does not depend on the entry number taken in it, or further down. */
  lemma {:induction false} ReachesOther(mem: Memory, t: seq<Pte>, level: nat, q: Path, p: Path, l: nat)
    requires l < level < |q| && level < |p| && Reaches(mem, t, level, q, l)
    requires Agree(p, q, l + 1, level) && p[l] < ENTRY_COUNT
    ensures Reaches(mem, t, level, p, l)
    ensures NodeFrame(mem, t, level, p, l) == NodeFrame(mem, t, level, q, l)
    decreases level
  {
    assert p[level] == q[level];
    if l < level - 1 {
      ReachesOther(mem, mem[t[q[level]].frame], level - 1, q, p, l);
    } else {
      assert Reaches(mem, mem[t[q[level]].frame], l, p, l);
    }
  }

  lemma AtOther(w: World, q: Path, p: Path, l: nat, n: nat)
    requires At(w, q, l, n) && |p| == TOP + 1 && Agree(p, q, l + 1, TOP) && p[l] < ENTRY_COUNT
    ensures At(w, p, l, n)
  {
    ReachesOther(w.mem, w.roots, TOP, q, p, l);
  }

  /** If the table below is still reached, so is the table above it, in the same frame. */
  lemma AtAbove(w: World, w': World, q: Path, l: nat, n: nat, below: nat)
    requires OnlyCleared(w, w') && l > 0 && At(w, q, l, n) && At(w', q, l - 1, below)
    ensures At(w', q, l, n)
  {
    ReachesAbove(w'.mem, w'.roots, TOP, q, l);
    AtBefore(w, w', q, l, NodeFrame(w'.mem, w'.roots, TOP, q, l));
  }

  lemma {:induction false} ReachesAbove(mem: Memory, t: seq<Pte>, level: nat, q: Path, l: nat)
    requires 0 < l < level < |q| && Reaches(mem, t, level, q, l - 1)
    ensures Reaches(mem, t, level, q, l)
    decreases level
  {
    if l < level - 1 {
      ReachesAbove(mem, mem[t[q[level]].frame], level - 1, q, l);
    }
  }

  // ---------------------------------------------------------------------------------------------

  /** Some page below the table of level `l` on path `q` is mapped. */
  ghost predicate MappedUnder(w: World, q: Path, l: nat)
    requires |q| == TOP + 1 && l <= TOP
  {
    exists p: Path :: |p| == TOP + 1 && Agree(p, q, l + 1, TOP) && View(w, p).Mapped?
  }

  /** Frame `x` holds a node of space `s`. */
  ghost predicate NodeOf(w: World, s: nat, x: nat) {
    exists q: Path, l: nat :: At(w, q, l, x) && q[TOP] == s
  }

  /** Only nodes of space `s` were written to. */
  ghost predicate Touches(w: World, w': World, s: nat) {
    && |w'.mem| == |w.mem|
    && forall x: nat {:trigger NodeOf(w, s, x)} {:trigger w'.mem[x]} ::
         x < |w.mem| && w'.mem[x] != w.mem[x] ==> NodeOf(w, s, x)
  }

  lemma TouchesThen(w: World, w': World, w'': World, s: nat)
    requires OnlyCleared(w, w') && Touches(w, w', s) && Touches(w', w'', s)
    ensures Touches(w, w'', s)
  {
    forall x: nat | x < |w.mem| && w''.mem[x] != w.mem[x] ensures NodeOf(w, s, x) {
      if w'.mem[x] == w.mem[x] {
        assert NodeOf(w', s, x);
        var q: Path, l: nat :| At(w', q, l, x) && q[TOP] == s;
        AtBefore(w, w', q, l, x);
      }
    }
  }

  /** Paths that do not go through the table of level `l` on `q` find what they found before. */
  ghost predicate SameOutside(w: World, w': World, q: Path, l: nat)
    requires |q| == TOP + 1 && l <= TOP
  {
    forall p: Path {:trigger Find(w', p)} :: |p| == TOP + 1 && !Agree(p, q, l + 1, TOP) ==> Find(w', p) == Find(w, p)
  }

  // ---------------------------------------------------------------------------------------------
  // Clearing one entry

  /** An entry is cleared and its reference given up. */
  ghost predicate Cut(w: World, w': World, n: nat, i: nat)
    requires n < |w.mem| && i < ENTRY_COUNT
  {
    w' == w.(mem := Write(w.mem, n, i, EMPTY), counts := Release(w.counts, w.mem[n][i].frame), free := w'.free)
  }

  /** The table below an entry, if there is one, names nothing. */
  ghost predicate Bare(w: World, e: Pte, l: nat) {
    l > 0 ==> e.frame < |w.mem| && forall j :: 0 <= j < ENTRY_COUNT ==> !w.mem[e.frame][j].Counted()
  }

  lemma BareCounts(w: World, e: Pte, l: nat)
    requires e.Counted() && Bare(w, e, l)
    ensures forall floor: nat, f: nat :: CountAt(w.mem, e, l, floor, f) == if f == e.frame && l >= floor then 1 else 0
  {
    forall floor: nat, f: nat ensures CountAt(w.mem, e, l, floor, f) == if f == e.frame && l >= floor then 1 else 0 {
      if l > 0 { CountNothing(w.mem, w.mem[e.frame], l - 1, floor, f); }
    }
  }

  lemma CutKeeps(w: World, w': World, q: Path, l: nat, n: nat)
    requires Consistent(w) && At(w, q, l, n)
    requires w.mem[n][q[l]].Counted() && Bare(w, w.mem[n][q[l]], l)
    requires Cut(w, w', n, q[l])
    ensures Consistent(w') && At(w', q, l, n)
    ensures Redirected(w, w', q, l, EMPTY) && FewerNodes(w, w')
    ensures Tracked(w.counts, w.mem[n][q[l]].frame) ==> w.counts[w.mem[n][q[l]].frame].value > 0
  {
    hide Count, CountAt, EntryFormed, WellFormed, Unshared;
    var e := w.mem[n][q[l]];
    BareCounts(w, e, l);
    assert EntryFormed(w.mem, EMPTY, l) by { EmptyFormed(w.mem, l); }
    EmptyCounts(w.mem, l);
    UsedOnce(w);
    PutKeeps(w, w', q, l, n, EMPTY);
    CutNamed(w, q, l, n);
  }

  lemma EmptyFormed(mem: Memory, l: nat)
    ensures EntryFormed(mem, EMPTY, l)
  {
  }

  lemma EmptyCounts(mem: Memory, l: nat)
    ensures forall floor: nat, f: nat :: CountAt(mem, EMPTY, l, floor, f) == 0
  {
  }

  /** A counted entry of a reached table names its frame. */
  lemma CutNamed(w: World, q: Path, l: nat, n: nat)
    requires Consistent(w) && At(w, q, l, n) && w.mem[n][q[l]].Counted()
    ensures Uses(w, 0, w.mem[n][q[l]].frame) > 0
    ensures Tracked(w.counts, w.mem[n][q[l]].frame) ==> w.counts[w.mem[n][q[l]].frame].value > 0
  {
    EntryNames(w.mem, w.roots, TOP, q, l);
    NamedHasCount(w, w.mem[n][q[l]].frame);
  }

  lemma {:induction false} EntryNames(mem: Memory, t: seq<Pte>, level: nat, q: Path, l: nat)
    requires l < level < |q| && Reaches(mem, t, level, q, l)
    requires mem[NodeFrame(mem, t, level, q, l)][q[l]].Counted()
    ensures Count(mem, t, level, 0, mem[NodeFrame(mem, t, level, q, l)][q[l]].frame) > 0
    decreases level
  {
    var n := NodeFrame(mem, t, level, q, l);
    var f := mem[n][q[l]].frame;
    if l < level - 1 {
      EntryNames(mem, mem[t[q[level]].frame], level - 1, q, l);
    } else {
      CountPart(mem, mem[n], q[l], l, 0, f);
    }
    CountPart(mem, t, q[level], level, 0, f);
  }
}
