/** Iterating over the leaves of a mapping, unmapped stretches included. */
module Iterator {
  import opened Division
  import opened Mmu
  import opened Addr
  import opened Frage
  import opened PageTree
  import opened World
  import opened Machine
  import opened Pages
  import Paths

  /** The aligned block of pages that one entry of level `level` covers, around page `page`. */
  function BlockStart(page: nat, level: nat): nat { page / Reach(level) * Reach(level) }

  function BlockEnd(page: nat, level: nat): nat { BlockStart(page, level) + Reach(level) }

  /** `Path::pages()`, with its rounding up to the next multiple. */
  method PathPages(page: nat, level: nat) returns (start: nat, end: nat)
    ensures start == BlockStart(page, level) && end == BlockEnd(page, level)
    ensures start <= page < end
  {
    hide NextMultiple, Reach;
    RoundUp(page, Reach(level));
    end := NextMultiple(page + 1, Reach(level));
    start := end - Reach(level);
  }

  lemma RoundUp(page: nat, count: nat)
    requires count > 0
    ensures NextMultiple(page + 1, count) == page / count * count + count
    ensures page / count * count <= page < page / count * count + count
  {
    QuotientLaw(page + 1, count);
    var k, r := page / count, page % count;
    assert page == k * count + r;
    if r + 1 == count {
      assert page + 1 == (k + 1) * count + 0;
      DivUnique(page + 1, count, k + 1, 0);
    } else {
      DivUnique(page + 1, count, k, r + 1);
    }
  }

  /** Pages of one block take the same entries from that level up. */
  lemma SameBlock(s: nat, p: nat, c: nat, level: nat)
    requires level < TOP && p / Reach(level) == c / Reach(level)
    ensures Agree(PathOf(s, p), PathOf(s, c), level, TOP)
  {
    ReachValues();
    forall k | level <= k <= TOP ensures PathOf(s, p)[k] == PathOf(s, c)[k] {
      if k < TOP { SameBlockUp(p, c, level, k); }
      if k == 0 {} else if k == 1 {} else if k == 2 {} else if k == 3 {} else {}
    }
  }

  lemma SameBlockUp(p: nat, c: nat, level: nat, k: nat)
    requires level <= k < TOP && p / Reach(level) == c / Reach(level)
    ensures p / Reach(k) == c / Reach(k)
  {
    ReachValues();
    Cascade(p);
    Cascade(c);
  }

  lemma Cascade(p: nat)
    ensures p / 0x4_0000 == p / 512 / 512
    ensures p / 0x800_0000 == p / 0x4_0000 / 512
  {
  }

  /** A path that agrees with `q` from the level where `q` ends up finds the same entry. */
  lemma {:induction false} DeepestAgrees(mem: Memory, t: seq<Pte>, level: nat, p: Path, q: Path)
    requires level < |p| && level < |q|
    requires Deepest(mem, t, level, q).level <= level
    requires Agree(p, q, Deepest(mem, t, level, q).level, level)
    ensures Deepest(mem, t, level, p) == Deepest(mem, t, level, q)
    decreases level
  {
    assert p[level] == q[level];
    if q[level] < |t| && level > 0 && t[q[level]].Counted() {
      Paths.DeepestBelow(mem, Below(mem, t[q[level]]), level - 1, q);
      DeepestAgrees(mem, Below(mem, t[q[level]]), level - 1, p, q);
    }
  }

  /** The block of pages around `page` that share its entry. */
  ghost function LeafLevel(w: World, s: nat, page: nat): nat { Find(w, PathOf(s, page)).level }

  /** All pages of a yielded block are mapped by the same entry, and would be yielded in the same block. */
  lemma BlockShares(w: World, s: nat, page: nat, p: nat)
    requires LeafLevel(w, s, page) < TOP
    requires BlockStart(page, LeafLevel(w, s, page)) <= p < BlockEnd(page, LeafLevel(w, s, page))
    ensures Find(w, PathOf(s, p)) == Find(w, PathOf(s, page))
    ensures BlockStart(p, LeafLevel(w, s, p)) == BlockStart(page, LeafLevel(w, s, page))
  {
    var level := LeafLevel(w, s, page);
    var d, k := Reach(level), page / Reach(level);
    DivUnique(p, d, k, p - k * d);
    SameBlock(s, p, page, level);
    DeepestAgrees(w.mem, w.roots, TOP, PathOf(s, p), PathOf(s, page));
  }

  const END := 0x10_0000_0000_0000
  const LOWER_END := 0x8_0000_0000
  const HIGHER_START := 0xF_FFF8_0000_0000

  lemma Ends()
    ensures HigherHalfEnd(L0_SIZE) == END && HigherHalfStart(L0_SIZE) == HIGHER_START
    ensures LowerHalfEnd(L0_SIZE) == LOWER_END
  {
  }

  /** A block does not cross from one half to the other, and stepping over it leads to its end, or across the hole. */
  lemma BlockInHalf(page: nat, level: nat)
    requires Page(page) && level < TOP
    ensures Page(BlockStart(page, level))
    ensures forall p :: BlockStart(page, level) <= p < BlockEnd(page, level) ==> Page(p)
    ensures AdvanceIndex(L0_SIZE, BlockStart(page, level), Reach(level)) ==
            if BlockEnd(page, level) == LOWER_END then HIGHER_START else BlockEnd(page, level)
    ensures BlockEnd(page, level) <= LOWER_END || HIGHER_START <= BlockStart(page, level)
    ensures BlockEnd(page, level) <= END
  {
    Ends();
    ReachValues();
    BlockAligned(page, level);
    var start := BlockStart(page, level);
    ForwardLaw(L0_SIZE, start, Reach(level));
    HalvesValues(L0_SIZE);
    var next := ForwardChecked(L0_SIZE, start, Reach(level));
    if next.Some? && BlockEnd(page, level) < END {
      var target := if BlockEnd(page, level) == LOWER_END then HIGHER_START else BlockEnd(page, level);
      PositionInjective(L0_SIZE, next.value, target);
    }
  }

  lemma BlockAligned(page: nat, level: nat)
    requires Page(page) && level < TOP
    ensures BlockStart(page, level) <= page < BlockEnd(page, level)
    ensures page < LOWER_END ==> BlockEnd(page, level) <= LOWER_END
    ensures page >= HIGHER_START ==> HIGHER_START <= BlockStart(page, level) && BlockEnd(page, level) <= END
  {
    ReachValues();
    Ends();
    var r := Reach(level);
    var k := if level == 0 then LOWER_END else if level == 1 then 0x400_0000 else if level == 2 then 0x2_0000 else 256;
    assert LOWER_END == k * r && HIGHER_START == (0x1_FFFF * k) * r && END == (0x2_0000 * k) * r;
    hide Reach;
    RoundUp(page, r);
    RoundKeeps(page, r, k);
    RoundKeeps(page, r, 0x1_FFFF * k);
    RoundKeeps(page, r, 0x2_0000 * k);
  }

  /** Rounding down to a multiple does not go past another multiple. */
  lemma RoundKeeps(page: nat, r: nat, k: nat)
    requires r > 0
    ensures page < k * r ==> page / r * r + r <= k * r
    ensures page >= k * r ==> k * r <= page / r * r
  {
    var q := page / r;
    assert page == q * r + page % r && (q + 1) * r == q * r + r;
    MulLe(if q < k then q + 1 else 0, k, r);
    MulLe(if q < k then 0 else k, q, r);
  }

  /** What the iterator yields: the path to an entry, as the block of pages that the entry covers. */
  datatype Leaf = Leaf(start: nat, end: nat, level: nat)

  /** Page `curr` starts its block: it is first in its half, or the block before ends here. */
  ghost predicate Boundary(w: World, s: nat, curr: nat) {
    curr == END || (Page(curr) && LeafLevel(w, s, curr) < TOP && BlockStart(curr, LeafLevel(w, s, curr)) == curr)
  }

  /** The first block of a half, and every block that starts a root entry, starts at a boundary. */
  lemma RootBoundary(w: World, s: nat, page: nat)
    requires Page(page) && forall p: nat :: LeafLevel(w, s, p) < TOP
    ensures Boundary(w, s, AdvanceIndex(L0_SIZE, BlockStart(page, ROOT_LEVEL), Reach(ROOT_LEVEL)))
  {
    AfterBlock(page, ROOT_LEVEL);
    BlockInHalf(page, ROOT_LEVEL);
    Ends();
    ReachValues();
    var next := AdvanceIndex(L0_SIZE, BlockStart(page, ROOT_LEVEL), Reach(ROOT_LEVEL));
    if next < END {
      var k := next / Reach(ROOT_LEVEL);
      assert next == k * Reach(ROOT_LEVEL);
      MultipleStarts(k, LeafLevel(w, s, next));
    }
  }

  lemma MultipleStarts(k: nat, level: nat)
    requires level < TOP
    ensures BlockStart(k * Reach(ROOT_LEVEL), level) == k * Reach(ROOT_LEVEL)
  {
    ReachValues();
    var x, r := k * Reach(ROOT_LEVEL), Reach(level);
    var n := if level == 0 then 0x800_0000 else if level == 1 then 0x4_0000 else if level == 2 then 512 else 1;
    assert Reach(ROOT_LEVEL) == n * r;
    hide Reach;
    assert x == (k * n) * r;
    DivUnique(x, r, k * n, 0);
  }

  /** After a block comes a boundary. */
  lemma NextBoundary(w: World, s: nat, curr: nat)
    requires Boundary(w, s, curr) && curr < END && forall p: nat :: LeafLevel(w, s, p) < TOP
    ensures Boundary(w, s, AdvanceIndex(L0_SIZE, curr, Reach(LeafLevel(w, s, curr))))
    ensures curr < AdvanceIndex(L0_SIZE, curr, Reach(LeafLevel(w, s, curr))) <= END
  {
    var level := LeafLevel(w, s, curr);
    BlockInHalf(curr, level);
    BlockAligned(curr, level);
    var next := AdvanceIndex(L0_SIZE, curr, Reach(level));
    Ends();
    if next < END {
      var l := LeafLevel(w, s, next);
      BlockAligned(next, l);
      var start := BlockStart(next, l);
      if next == BlockEnd(curr, level) && start < next {
        var p := next - 1;
        BlockShares(w, s, next, p);
        BlockShares(w, s, curr, p);
      }
      if next == HIGHER_START { ReachValues(); }
    }
  }

  // ---------------------------------------------------------------------------------------------
  // Recursive entries

  ghost predicate LiveSpace(w: World, s: nat) {
    s < |w.roots| && w.roots[s].Counted() && w.roots[s].frame < |w.mem|
  }

  /** The path of the page goes through a root entry that leads back to the root. */
  ghost predicate Recurs(w: World, s: nat, page: nat)
    requires LiveSpace(w, s)
  {
    IsRecursive(w.mem, w.roots[s].frame, Index(page, ROOT_LEVEL))
  }

  /** `Path::is_recursive_entry()`. */
  predicate IsRecursive(mem: Memory, root: nat, index: nat)
    requires root < |mem| && index < ENTRY_COUNT
  {
    mem[root][index].Counted() && mem[root][index].frame == root
  }

  /** Pages under one root entry go through a recursive entry together. */
  lemma RecursTogether(w: World, s: nat, page: nat, p: nat, level: nat)
    requires LiveSpace(w, s) && level < TOP && BlockStart(page, level) <= p < BlockEnd(page, level)
    ensures Recurs(w, s, p) == Recurs(w, s, page)
  {
    var d, k := Reach(level), page / Reach(level);
    DivUnique(p, d, k, p - k * d);
    SameBlockUp(p, page, level, ROOT_LEVEL);
  }

  class MappingIterator {
    const space: nat
    var curr: nat
    var end: nat

    /** `Mapping::range_mut()`: pages from number `from` on and before number `to`. */
    constructor (s: nat, from: nat, to: nat)
      requires to <= END && (from >= to || Page(from))
      ensures space == s && curr == from && end == to
    {
      space := s;
      curr, end := from, to;
    }

    /** `MappingIterator::next()`: skips pages under recursive entries, yields the block around the next page, number
        `at`, and goes on to the page after it. Started at the beginning of a block it stays at beginnings. */
    method Next(m: Machine) returns (r: Option<Leaf>, ghost at: nat)
      requires Paths.Walkable(m.mem, m.roots, TOP) && LiveSpace(m.W(), space)
      requires end <= END && (curr >= end || Page(curr))
      modifies this`curr
      ensures old(curr) <= at <= curr && (curr >= end || Page(curr))
      ensures forall p: nat :: Page(p) && old(curr) <= p < at && p < end ==> Recurs(m.W(), space, p)
      ensures r == None <==> at >= end
      ensures r.Some? ==>
        && Page(at) && !Recurs(m.W(), space, at)
        && r.value.level == LeafLevel(m.W(), space, at) < TOP
        && r.value.start == BlockStart(at, r.value.level) && r.value.end == BlockEnd(at, r.value.level)
        && curr == AdvanceIndex(L0_SIZE, r.value.start, Reach(r.value.level)) && at < curr <= END
      ensures r == None ==> curr == at
      ensures Boundary(m.W(), space, old(curr)) && old(curr) < end ==>
        Boundary(m.W(), space, curr) && (r.Some? ==> Boundary(m.W(), space, at))
    {
      hide Paths.Walkable, Find, Boundary, AdvanceIndex, Reach, Recurs, BlockStart, BlockEnd;
      LevelsBelowTop(m.W(), space);
      while curr < end
        invariant old(curr) <= curr && (curr >= end || Page(curr))
        invariant forall p: nat :: Page(p) && old(curr) <= p < curr ==> Recurs(m.W(), space, p)
        invariant Boundary(m.W(), space, old(curr)) && old(curr) < end ==> Boundary(m.W(), space, curr)
        decreases END - curr
      {
        ghost var was := curr;
        var recursive, start, level := Inspect(m, space, curr);
        if recursive {
          Skips(m.W(), space, curr);
          curr := AdvanceIndex(L0_SIZE, start, Reach(level));
        } else {
          Steps(m.W(), space, curr);
          curr := AdvanceIndex(L0_SIZE, start, Reach(level));
          return Some(Leaf(start, start + Reach(level), level)), was;
        }
      }
      return None, curr;
    }
  }

  /** What the iterator looks at: whether the path of the page goes through a recursive entry, and the block of pages
      to pass. */
  method Inspect(m: Machine, s: nat, page: nat) returns (recursive: bool, start: nat, level: nat)
    requires Paths.Walkable(m.mem, m.roots, TOP) && LiveSpace(m.W(), s) && Page(page)
    ensures recursive == Recurs(m.W(), s, page)
    ensures level == (if recursive then ROOT_LEVEL else LeafLevel(m.W(), s, page)) < TOP
    ensures start == BlockStart(page, level) && BlockEnd(page, level) == start + Reach(level)
  {
    hide Paths.Walkable, Find, Reach, PagePath, Paths.Validated;
    PathIsPagePath(m.roots, s, page);
    var nodes := Paths.Trace(m, PathOf(s, page));
    RootIndex(s, page);
    recursive := IsRecursive(m.mem, m.roots[s].frame, nodes[ROOT_LEVEL].value.index);
    level := ROOT_LEVEL;
    if !recursive {
      level := Paths.DeepestPte(nodes);
    }
    var stop;
    start, stop := PathPages(page, level);
  }

  /** Passing the block of a page leads to another page, or the end. */
  lemma Steps(w: World, s: nat, curr: nat)
    requires LiveSpace(w, s) && Page(curr) && forall p: nat :: LeafLevel(w, s, p) < TOP
    ensures (
      var level := LeafLevel(w, s, curr);
      var next := AdvanceIndex(L0_SIZE, BlockStart(curr, level), Reach(level));
      && curr < next <= END && (next == END || Page(next))
      && (Boundary(w, s, curr) ==> Boundary(w, s, next)))
  {
    hide AdvanceIndex, Find;
    AfterBlock(curr, LeafLevel(w, s, curr));
    Ends();
    HoleBetween(curr);
    if Boundary(w, s, curr) {
      NextBoundary(w, s, curr);
    }
  }

  lemma RootIndex(s: nat, page: nat)
    ensures PathOf(s, page)[ROOT_LEVEL] == Index(page, ROOT_LEVEL) && PathOf(s, page)[TOP] == s
  {
  }

  /** Skipping a recursive entry passes pages under it only, and leads to a boundary. */
  lemma Skips(w: World, s: nat, curr: nat)
    requires LiveSpace(w, s) && Page(curr) && Recurs(w, s, curr) && forall p: nat :: LeafLevel(w, s, p) < TOP
    ensures (
      var next := AdvanceIndex(L0_SIZE, BlockStart(curr, ROOT_LEVEL), Reach(ROOT_LEVEL));
      && curr < next <= END && (next == END || Page(next)) && Boundary(w, s, next)
      && forall p: nat :: Page(p) && curr <= p < next ==> Recurs(w, s, p))
  {
    hide Recurs, AdvanceIndex;
    AfterBlock(curr, ROOT_LEVEL);
    BlockAligned(curr, ROOT_LEVEL);
    BlockInHalf(curr, ROOT_LEVEL);
    RootBoundary(w, s, curr);
    Ends();
    var next := AdvanceIndex(L0_SIZE, BlockStart(curr, ROOT_LEVEL), Reach(ROOT_LEVEL));
    forall p: nat | Page(p) && curr <= p < next ensures Recurs(w, s, p) {
      HoleBetween(p);
      RecursTogether(w, s, curr, p, ROOT_LEVEL);
    }
  }

  /** There are no pages in the hole. */
  lemma HoleBetween(p: nat)
    requires Page(p)
    ensures p < LOWER_END || HIGHER_START <= p < END
  {
    Ends();
    HalvesValues(L0_SIZE);
  }

  /** After a block comes a page, or the end. */
  lemma AfterBlock(page: nat, level: nat)
    requires Page(page) && level < TOP
    ensures (
      var next := AdvanceIndex(L0_SIZE, BlockStart(page, level), Reach(level));
      page < next <= END && (next == END || Page(next)))
  {
    BlockInHalf(page, level);
    BlockAligned(page, level);
    Ends();
  }

  lemma FirstPage()
    ensures Page(0)
  {
    Ends();
  }

  lemma BoundaryPage(w: World, s: nat, curr: nat)
    requires Boundary(w, s, curr) && curr < END
    ensures Page(curr) && LeafLevel(w, s, curr) < TOP && BlockStart(curr, LeafLevel(w, s, curr)) == curr
  {
  }

  lemma LevelsBelowTop(w: World, s: nat)
    requires s < |w.roots| && w.roots[s].Counted()
    ensures forall p: nat :: LeafLevel(w, s, p) < TOP
  {
    forall p: nat ensures LeafLevel(w, s, p) < TOP {
      Paths.DeepestBelow(w.mem, Below(w.mem, w.roots[s]), ROOT_LEVEL, PathOf(s, p));
    }
  }

  /** The iterator run to its end on an unchanged mapping: the leaves are the blocks of pages that share
      an entry, in order, and every page of the address space that is not under a recursive entry is in exactly one of
      them. */
  method Collect(m: Machine, s: nat) returns (leaves: seq<Leaf>)
    requires Paths.Walkable(m.mem, m.roots, TOP) && LiveSpace(m.W(), s)
    ensures forall k :: 0 <= k < |leaves| ==> Shared(m.W(), s, leaves[k])
    ensures forall j, k :: 0 <= j < k < |leaves| ==> leaves[j].end <= leaves[k].start
    ensures forall p: nat {:trigger Covered(leaves, p)} :: Covered(leaves, p) <==> Page(p) && !Recurs(m.W(), s, p)
  {
    hide Paths.Walkable, Find, Shared, AdvanceIndex, Reach, PathOf, Recurs, Boundary, Covered, BlockStart, BlockEnd;
    FirstPage();
    LevelsBelowTop(m.W(), s);
    StartBoundary(m.W(), s);
    // `Mapping::iter_mut()`
    var it := new MappingIterator(s, 0, END);
    leaves := [];
    NothingCovered(m.W(), s);
    while it.curr < END
      invariant it.space == s && it.end == END && it.curr <= END
      invariant Boundary(m.W(), s, it.curr) && (it.curr < END ==> Page(it.curr))
      invariant forall k :: 0 <= k < |leaves| ==> Shared(m.W(), s, leaves[k]) && leaves[k].end <= it.curr
      invariant forall j, k :: 0 <= j < k < |leaves| ==> leaves[j].end <= leaves[k].start
      invariant Covers(m.W(), s, leaves, it.curr)
      decreases END - it.curr
    {
      ghost var curr := it.curr;
      var leaf, at := it.Next(m);
      if leaf.None? {
        CoversSkip(m.W(), s, leaves, curr, it.curr);
        break;
      }
      CoversSkip(m.W(), s, leaves, curr, at);
      BoundaryPage(m.W(), s, at);
      BlockInHalf(at, leaf.value.level);
      YieldedShared(m.W(), s, at);
      SharedPages(m.W(), s, leaf.value);
      NotRecursive(m.W(), s, leaf.value, at);
      CoversNext(m.W(), s, leaves, leaf.value, it.curr);
      leaves := leaves + [leaf.value];
    }
    forall p: nat ensures Covered(leaves, p) <==> Page(p) && !Recurs(m.W(), s, p) {
      if Page(p) { HoleBetween(p); }
      assert Covered(leaves, p) <==> Page(p) && p < it.curr && !Recurs(m.W(), s, p);
    }
  }

  lemma StartBoundary(w: World, s: nat)
    requires forall p: nat :: LeafLevel(w, s, p) < TOP
    ensures Boundary(w, s, 0)
  {
    FirstPage();
    MultipleStarts(0, LeafLevel(w, s, 0));
  }

  /** The pages of a leaf are pages, and exactly one entry maps all of them. */
  ghost predicate Shared(w: World, s: nat, leaf: Leaf) {
    && leaf.level < TOP && leaf.start < leaf.end
    && forall p: nat :: leaf.start <= p < leaf.end ==>
         Page(p) && LeafLevel(w, s, p) == leaf.level && PageView(w, s, p) == PageView(w, s, leaf.start)
  }

  lemma SharedPages(w: World, s: nat, leaf: Leaf)
    requires Shared(w, s, leaf)
    ensures leaf.start < leaf.end && forall p: nat :: leaf.start <= p < leaf.end ==> Page(p)
  {
  }

  lemma NotRecursive(w: World, s: nat, leaf: Leaf, at: nat)
    requires LiveSpace(w, s) && leaf.level < TOP && !Recurs(w, s, at)
    requires leaf.start == BlockStart(at, leaf.level) && leaf.end == BlockEnd(at, leaf.level)
    ensures forall p: nat :: leaf.start <= p < leaf.end ==> !Recurs(w, s, p)
  {
    hide Recurs;
    forall p: nat | leaf.start <= p < leaf.end ensures !Recurs(w, s, p) {
      RecursTogether(w, s, at, p, leaf.level);
    }
  }

  lemma YieldedShared(w: World, s: nat, curr: nat)
    requires Page(curr) && LeafLevel(w, s, curr) < TOP && BlockStart(curr, LeafLevel(w, s, curr)) == curr
    ensures Shared(w, s, Leaf(curr, BlockEnd(curr, LeafLevel(w, s, curr)), LeafLevel(w, s, curr)))
  {
    var level := LeafLevel(w, s, curr);
    BlockInHalf(curr, level);
    forall p: nat | curr <= p < BlockEnd(curr, level)
      ensures Page(p) && LeafLevel(w, s, p) == level && PageView(w, s, p) == PageView(w, s, curr)
    {
      BlockShares(w, s, curr, p);
    }
  }

  ghost predicate Covered(leaves: seq<Leaf>, p: nat) {
    exists k :: 0 <= k < |leaves| && leaves[k].start <= p < leaves[k].end
  }

  /** The leaves so far hold exactly the pages before `curr` that are not under a recursive entry. */
  ghost predicate Covers(w: World, s: nat, leaves: seq<Leaf>, curr: nat)
    requires LiveSpace(w, s)
  {
    forall p: nat {:trigger Covered(leaves, p)} :: Covered(leaves, p) <==> Page(p) && p < curr && !Recurs(w, s, p)
  }

  lemma NothingCovered(w: World, s: nat)
    requires LiveSpace(w, s)
    ensures Covers(w, s, [], 0)
  {
  }

  lemma CoversSkip(w: World, s: nat, leaves: seq<Leaf>, curr: nat, at: nat)
    requires LiveSpace(w, s) && Covers(w, s, leaves, curr) && curr <= at
    requires forall p: nat :: Page(p) && curr <= p < at ==> Recurs(w, s, p)
    ensures Covers(w, s, leaves, at)
  {
  }

  lemma CoversNext(w: World, s: nat, leaves: seq<Leaf>, leaf: Leaf, curr: nat)
    requires LiveSpace(w, s) && Covers(w, s, leaves, leaf.start) && leaf.start < leaf.end
    requires forall p: nat :: leaf.start <= p < leaf.end ==> Page(p) && !Recurs(w, s, p)
    requires curr == if leaf.end == LOWER_END then HIGHER_START else leaf.end
    ensures Covers(w, s, leaves + [leaf], curr)
  {
    hide Recurs;
    Ends();
    var all := leaves + [leaf];
    forall p: nat ensures Covered(all, p) <==> Page(p) && p < curr && !Recurs(w, s, p) {
      assert Covered(leaves, p) <==> Page(p) && p < leaf.start && !Recurs(w, s, p);
      if Page(p) { HoleBetween(p); }
      if Covered(leaves, p) {
        var k :| 0 <= k < |leaves| && leaves[k].start <= p < leaves[k].end;
        assert all[k] == leaves[k];
      }
      if leaf.start <= p < leaf.end { assert all[|leaves|] == leaf; }
      if Covered(all, p) {
        var k :| 0 <= k < |all| && all[k].start <= p < all[k].end;
        if k < |leaves| { assert leaves[k] == all[k]; }
      }
    }
  }
}
