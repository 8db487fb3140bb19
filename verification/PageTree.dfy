/** The tree of page-table nodes, read off physical memory.

    A table of level `level` has entries that lead to tables of level `level - 1`; tables of
    level 0 hold the leaves. The same functions read a single node, a whole mapping (its root
    node has level 3), or every live mapping at once (a table of level 4 with one entry per
    mapping, see module Machine).

    A path `q` gives the entry number `q[l]` to take in the table of each level `l`. */
module PageTree {
  import opened Mmu

  type Path = seq<nat>

  function Below(mem: Memory, e: Pte): seq<Pte> {
    if e.frame < |mem| then mem[e.frame] else []
  }

  /** How many counted entries name frame `f` in the tables of level `floor` and up, from `t` down.
      With `floor == 0` these are all references to `f`; with `floor == 1` those that use `f` as a node. */
  ghost function Count(mem: Memory, t: seq<Pte>, level: nat, floor: nat, f: nat): nat
    decreases level, |t|
  {
    if |t| == 0 then 0
    else Count(mem, t[..|t| - 1], level, floor, f) + CountAt(mem, t[|t| - 1], level, floor, f)
  }

  ghost function CountAt(mem: Memory, e: Pte, level: nat, floor: nat, f: nat): nat
    decreases level, 0
  {
    if level < floor || !e.Counted() then 0
    else (if e.frame == f then 1 else 0)
         + (if level == 0 then 0 else Count(mem, Below(mem, e), level - 1, floor, f))
  }

  /** No frame serves as a node twice. */
  ghost predicate Unshared(mem: Memory, t: seq<Pte>, level: nat) {
    forall f: nat :: Count(mem, t, level, 1, f) <= 1
  }

  /** Huge entries are present, leaves are not huge, every node lies in memory, and entries that are not present are
      cleared, so that their address is that of frame 0. */
  ghost predicate WellFormed(mem: Memory, t: seq<Pte>, level: nat)
    decreases level, 1
  {
    forall i :: 0 <= i < |t| ==> EntryFormed(mem, t[i], level)
  }

  ghost predicate EntryFormed(mem: Memory, e: Pte, level: nat)
    decreases level, 0
  {
    && (e.IsHuge() ==> e.IsPresent() && level > 0)
    && (!e.IsPresent() ==> e.frame == 0)
    && (level > 0 && e.Counted() ==> e.frame < |mem| && WellFormed(mem, mem[e.frame], level - 1))
  }

  /** The entry nearest to the leaves on a path, with its level. */
  datatype Hit = Hit(level: nat, pte: Pte)

  function Deepest(mem: Memory, t: seq<Pte>, level: nat, q: Path): Hit
    requires level < |q|
    decreases level, 1
  {
    if q[level] < |t| then DeepestAt(mem, t[q[level]], level, q) else Hit(level, EMPTY)
  }

  function DeepestAt(mem: Memory, e: Pte, level: nat, q: Path): Hit
    requires level < |q|
    decreases level, 0
  {
    if level == 0 || !e.Counted() then Hit(level, e) else Deepest(mem, Below(mem, e), level - 1, q)
  }

  /** What the flat map says about a page: the level of its leaf, the frame and the leaf flags. */
  datatype Translation = Unmapped | Mapped(level: nat, frame: nat, flags: Flags)

  function Meaning(h: Hit): Translation {
    if h.pte.IsPresent() then Mapped(h.level, h.pte.frame, h.pte.flags) else Unmapped
  }

  function Translate(mem: Memory, t: seq<Pte>, level: nat, q: Path): Translation
    requires level < |q|
  {
    Meaning(Deepest(mem, t, level, q))
  }

  /** The table of level `l` exists on path `q`. */
  ghost predicate Reaches(mem: Memory, t: seq<Pte>, level: nat, q: Path, l: nat)
    requires l <= level < |q|
    decreases level
  {
    && q[level] < |t|
    && (l < level ==>
          && t[q[level]].Counted()
          && t[q[level]].frame < |mem|
          && Reaches(mem, mem[t[q[level]].frame], level - 1, q, l))
  }

  /** The frame that holds the table of level `l` on path `q`. */
  ghost function NodeFrame(mem: Memory, t: seq<Pte>, level: nat, q: Path, l: nat): (n: nat)
    requires l < level < |q| && Reaches(mem, t, level, q, l)
    ensures n < |mem|
    ensures q[l] < ENTRY_COUNT
    decreases level
  {
    if l == level - 1 then
      assert Reaches(mem, mem[t[q[level]].frame], l, q, l);
      t[q[level]].frame
    else NodeFrame(mem, mem[t[q[level]].frame], level - 1, q, l)
  }

  ghost predicate Agree(p: Path, q: Path, lo: nat, hi: nat)
    requires hi < |p| && hi < |q|
  {
    forall k :: lo <= k <= hi ==> p[k] == q[k]
  }

  // ---------------------------------------------------------------------------------------------
  // Sums over one table

  lemma {:induction false} CountUpdate(mem: Memory, t: seq<Pte>, i: nat, e: Pte, level: nat, floor: nat, f: nat)
    requires i < |t|
    ensures Count(mem, t[i := e], level, floor, f) + CountAt(mem, t[i], level, floor, f)
         == Count(mem, t, level, floor, f) + CountAt(mem, e, level, floor, f)
    decreases |t|
  {
    var last := |t| - 1;
    if i == last {
      assert t[i := e][..last] == t[..last];
    } else {
      assert t[i := e][..last] == t[..last][i := e];
      CountUpdate(mem, t[..last], i, e, level, floor, f);
    }
  }

  lemma {:induction false} CountPart(mem: Memory, t: seq<Pte>, i: nat, level: nat, floor: nat, f: nat)
    requires i < |t|
    ensures CountAt(mem, t[i], level, floor, f) <= Count(mem, t, level, floor, f)
    decreases |t|
  {
    if i < |t| - 1 {
      CountPart(mem, t[..|t| - 1], i, level, floor, f);
    }
  }

  lemma {:induction false} CountParts(mem: Memory, t: seq<Pte>, i: nat, j: nat, level: nat, floor: nat, f: nat)
    requires i < |t| && j < |t| && i != j
    ensures CountAt(mem, t[i], level, floor, f) + CountAt(mem, t[j], level, floor, f)
         <= Count(mem, t, level, floor, f)
    decreases |t|
  {
    var last := |t| - 1;
    if i == last {
      CountPart(mem, t[..last], j, level, floor, f);
    } else if j == last {
      CountPart(mem, t[..last], i, level, floor, f);
    } else {
      CountParts(mem, t[..last], i, j, level, floor, f);
    }
  }

  /** A table of which only entry `i` counts differently in the two memories. */
  lemma {:induction false} CountElsewhere(mem: Memory, mem': Memory, t: seq<Pte>, i: nat, level: nat, floor: nat,
                                          f: nat)
    requires i < |t|
    requires forall j :: 0 <= j < |t| && j != i ==>
      CountAt(mem', t[j], level, floor, f) == CountAt(mem, t[j], level, floor, f)
    ensures Count(mem', t, level, floor, f) + CountAt(mem, t[i], level, floor, f)
         == Count(mem, t, level, floor, f) + CountAt(mem', t[i], level, floor, f)
    decreases |t|
  {
    var last := |t| - 1;
    if i < last {
      CountElsewhere(mem, mem', t[..last], i, level, floor, f);
    } else {
      CountSame(mem, mem', t[..last], level, floor, f);
    }
  }

  lemma {:induction false} CountSame(mem: Memory, mem': Memory, t: seq<Pte>, level: nat, floor: nat, f: nat)
    requires forall j :: 0 <= j < |t| ==> CountAt(mem', t[j], level, floor, f) == CountAt(mem, t[j], level, floor, f)
    ensures Count(mem', t, level, floor, f) == Count(mem, t, level, floor, f)
    decreases |t|
  {
    if |t| > 0 {
      CountSame(mem, mem', t[..|t| - 1], level, floor, f);
    }
  }

  /** A table without counted entries names nothing. */
  lemma {:induction false} CountNothing(mem: Memory, t: seq<Pte>, level: nat, floor: nat, f: nat)
    requires forall i :: 0 <= i < |t| ==> !t[i].Counted()
    ensures Count(mem, t, level, floor, f) == 0
    decreases |t|
  {
    if |t| > 0 {
      CountNothing(mem, t[..|t| - 1], level, floor, f);
    }
  }

  /** Uses as a node are among all uses. */
  lemma {:induction false} CountFloor(mem: Memory, t: seq<Pte>, level: nat, f: nat)
    ensures Count(mem, t, level, 1, f) <= Count(mem, t, level, 0, f)
    decreases level, |t|, 1
  {
    if |t| > 0 {
      CountFloor(mem, t[..|t| - 1], level, f);
      CountAtFloor(mem, t[|t| - 1], level, f);
    }
  }

  lemma {:induction false} CountAtFloor(mem: Memory, e: Pte, level: nat, f: nat)
    ensures CountAt(mem, e, level, 1, f) <= CountAt(mem, e, level, 0, f)
    decreases level, 0, 0
  {
    if level > 0 {
      CountFloor(mem, Below(mem, e), level - 1, f);
    }
  }

  // ---------------------------------------------------------------------------------------------
  // Framing: a subtree depends only on the contents of its own nodes

  ghost predicate SameNodes(mem: Memory, mem': Memory, t: seq<Pte>, level: nat) {
    && |mem'| == |mem|
    && forall x: nat {:trigger Count(mem, t, level, 1, x)} ::
         x < |mem| && mem'[x] != mem[x] ==> Count(mem, t, level, 1, x) == 0
  }

  ghost predicate SameNodesAt(mem: Memory, mem': Memory, e: Pte, level: nat) {
    && |mem'| == |mem|
    && forall x: nat {:trigger CountAt(mem, e, level, 1, x)} ::
         x < |mem| && mem'[x] != mem[x] ==> CountAt(mem, e, level, 1, x) == 0
  }

  lemma {:induction false} Frame(mem: Memory, mem': Memory, t: seq<Pte>, level: nat)
    requires SameNodes(mem, mem', t, level)
    ensures forall floor, f :: Count(mem', t, level, floor, f) == Count(mem, t, level, floor, f)
    ensures forall q: Path :: level < |q| ==> Deepest(mem', t, level, q) == Deepest(mem, t, level, q)
    ensures WellFormed(mem, t, level) ==> WellFormed(mem', t, level)
    decreases level, 1
  {
    forall j | 0 <= j < |t|
      ensures forall floor, f :: CountAt(mem', t[j], level, floor, f) == CountAt(mem, t[j], level, floor, f)
      ensures forall q: Path :: level < |q| ==> DeepestAt(mem', t[j], level, q) == DeepestAt(mem, t[j], level, q)
      ensures EntryFormed(mem, t[j], level) ==> EntryFormed(mem', t[j], level)
    {
      forall x | 0 <= x < |mem| && mem'[x] != mem[x] ensures CountAt(mem, t[j], level, 1, x) == 0 {
        CountPart(mem, t, j, level, 1, x);
      }
      FrameAt(mem, mem', t[j], level);
    }
    forall floor, f ensures Count(mem', t, level, floor, f) == Count(mem, t, level, floor, f) {
      CountSame(mem, mem', t, level, floor, f);
    }
  }

  lemma {:induction false} FrameAt(mem: Memory, mem': Memory, e: Pte, level: nat)
    requires SameNodesAt(mem, mem', e, level)
    ensures forall floor, f :: CountAt(mem', e, level, floor, f) == CountAt(mem, e, level, floor, f)
    ensures forall q: Path :: level < |q| ==> DeepestAt(mem', e, level, q) == DeepestAt(mem, e, level, q)
    ensures EntryFormed(mem, e, level) ==> EntryFormed(mem', e, level)
    decreases level, 0
  {
    if level > 0 && e.Counted() {
      assert CountAt(mem, e, level, 1, e.frame) > 0;
      assert Below(mem', e) == Below(mem, e);
      forall x | 0 <= x < |mem| && mem'[x] != mem[x] ensures Count(mem, Below(mem, e), level - 1, 1, x) == 0 {
        assert CountAt(mem, e, level, 1, x) == 0;
      }
      Frame(mem, mem', Below(mem, e), level - 1);
    }
  }

  // ---------------------------------------------------------------------------------------------
  // Changing one subtree

  /** Frame `x` is the table of level `l` on path `q`, or a node below it. */
  ghost predicate Inside(mem: Memory, t: seq<Pte>, level: nat, q: Path, l: nat, x: nat)
    requires l < level < |q| && Reaches(mem, t, level, q, l)
  {
    var n := NodeFrame(mem, t, level, q, l);
    x == n || Count(mem, mem[n], l, 1, x) > 0
  }

  ghost predicate ChangesInside(mem: Memory, mem': Memory, t: seq<Pte>, level: nat, q: Path, l: nat)
    requires l < level < |q| && Reaches(mem, t, level, q, l)
  {
    && |mem'| == |mem|
    && forall x: nat {:trigger Inside(mem, t, level, q, l, x)} ::
         x < |mem| && mem'[x] != mem[x] ==> Inside(mem, t, level, q, l, x)
  }

  lemma {:induction false} InsideCounts(mem: Memory, t: seq<Pte>, level: nat, q: Path, l: nat, x: nat)
    requires l < level < |q| && Reaches(mem, t, level, q, l)
    requires Inside(mem, t, level, q, l, x)
    ensures CountAt(mem, t[q[level]], level, 1, x) > 0
    ensures Count(mem, t, level, 1, x) > 0
    decreases level
  {
    var e := t[q[level]];
    if l < level - 1 {
      InsideCounts(mem, mem[e.frame], level - 1, q, l, x);
    }
    CountPart(mem, t, q[level], level, 1, x);
  }

  /** A change inside one subtree leaves the siblings and the tables above alone. */
  lemma {:induction false} ChangeSiblings(mem: Memory, mem': Memory, t: seq<Pte>, level: nat, q: Path, l: nat, j: nat)
    requires l < level < |q| && Reaches(mem, t, level, q, l)
    requires Unshared(mem, t, level)
    requires ChangesInside(mem, mem', t, level, q, l)
    requires j < |t| && j != q[level]
    ensures SameNodesAt(mem, mem', t[j], level)
  {
    forall x | 0 <= x < |mem| && mem'[x] != mem[x] ensures CountAt(mem, t[j], level, 1, x) == 0 {
      InsideCounts(mem, t, level, q, l, x);
      CountParts(mem, t, q[level], j, level, 1, x);
      assert Count(mem, t, level, 1, x) <= 1;
    }
  }

  lemma {:induction false} UnsharedBelow(mem: Memory, t: seq<Pte>, level: nat, i: nat)
    requires Unshared(mem, t, level)
    requires i < |t| && level > 0 && t[i].Counted() && t[i].frame < |mem|
    ensures Unshared(mem, mem[t[i].frame], level - 1)
    ensures Count(mem, mem[t[i].frame], level - 1, 1, t[i].frame) == 0
  {
    forall f: nat
      ensures CountAt(mem, t[i], level, 1, f) <= 1
    {
      CountPart(mem, t, i, level, 1, f);
      assert Count(mem, t, level, 1, f) <= 1;
    }
    var c, below := mem[t[i].frame], level - 1;
    forall f: nat ensures Count(mem, c, below, 1, f) <= 1 {
      assert CountAt(mem, t[i], level, 1, f) <= 1;
    }
    assert CountAt(mem, t[i], level, 1, t[i].frame) <= 1;
  }

  lemma {:induction false} ChangeBelow(mem: Memory, mem': Memory, t: seq<Pte>, level: nat, q: Path, l: nat)
    requires l < level - 1 && level < |q| && Reaches(mem, t, level, q, l)
    requires Unshared(mem, t, level)
    requires ChangesInside(mem, mem', t, level, q, l)
    ensures mem'[t[q[level]].frame] == mem[t[q[level]].frame]
    ensures Unshared(mem, mem[t[q[level]].frame], level - 1)
    ensures ChangesInside(mem, mem', mem[t[q[level]].frame], level - 1, q, l)
  {
    var e := t[q[level]];
    UnsharedBelow(mem, t, level, q[level]);
    forall x: nat | x < |mem| && mem'[x] != mem[x]
      ensures Inside(mem, mem[e.frame], level - 1, q, l, x) && x != e.frame
    {
      assert Inside(mem, t, level, q, l, x);
      InsideCounts(mem, mem[e.frame], level - 1, q, l, x);
    }
  }

  /** The path survives a change inside the subtree it leads to. */
  lemma {:induction false} ChangeReaches(mem: Memory, mem': Memory, t: seq<Pte>, level: nat, q: Path, l: nat)
    requires l < level < |q| && Reaches(mem, t, level, q, l)
    requires Unshared(mem, t, level)
    requires ChangesInside(mem, mem', t, level, q, l)
    ensures Reaches(mem', t, level, q, l)
    ensures NodeFrame(mem', t, level, q, l) == NodeFrame(mem, t, level, q, l)
    decreases level
  {
    if l < level - 1 {
      ChangeBelow(mem, mem', t, level, q, l);
      ChangeReaches(mem, mem', mem[t[q[level]].frame], level - 1, q, l);
    }
  }

  /** The references counted from above change by what changed inside the subtree. */
  lemma {:induction false} ChangeCount(mem: Memory, mem': Memory, t: seq<Pte>, level: nat, q: Path, l: nat, floor: nat,
                                       f: nat)
    requires l < level < |q| && Reaches(mem, t, level, q, l)
    requires Unshared(mem, t, level)
    requires ChangesInside(mem, mem', t, level, q, l)
    requires floor <= l + 1
    ensures Count(mem', t, level, floor, f) + Count(mem, mem[NodeFrame(mem, t, level, q, l)], l, floor, f)
         == Count(mem, t, level, floor, f) + Count(mem', mem'[NodeFrame(mem, t, level, q, l)], l, floor, f)
    decreases level
  {
    var e := t[q[level]];
    if l < level - 1 {
      ChangeBelow(mem, mem', t, level, q, l);
      ChangeCount(mem, mem', mem[e.frame], level - 1, q, l, floor, f);
    }
    forall j | 0 <= j < |t| && j != q[level]
      ensures CountAt(mem', t[j], level, floor, f) == CountAt(mem, t[j], level, floor, f)
    {
      ChangeSiblings(mem, mem', t, level, q, l, j);
      FrameAt(mem, mem', t[j], level);
    }
    CountElsewhere(mem, mem', t, q[level], level, floor, f);
  }

  /** Paths that leave `q` above the subtree see no change; the others see the new subtree. */
  lemma {:induction false} ChangeDeepest(mem: Memory, mem': Memory, t: seq<Pte>, level: nat, q: Path, l: nat, p: Path)
    requires l < level < |q| && level < |p| && Reaches(mem, t, level, q, l)
    requires Unshared(mem, t, level)
    requires ChangesInside(mem, mem', t, level, q, l)
    ensures var n := NodeFrame(mem, t, level, q, l);
            if Agree(p, q, l + 1, level)
            then Deepest(mem', t, level, p) == Deepest(mem', mem'[n], l, p)
              && Deepest(mem, t, level, p) == Deepest(mem, mem[n], l, p)
            else Deepest(mem', t, level, p) == Deepest(mem, t, level, p)
    decreases level
  {
    if p[level] != q[level] {
      if p[level] < |t| {
        ChangeSiblings(mem, mem', t, level, q, l, p[level]);
        FrameAt(mem, mem', t[p[level]], level);
      }
    } else if l < level - 1 {
      ChangeBelow(mem, mem', t, level, q, l);
      ChangeDeepest(mem, mem', mem[t[q[level]].frame], level - 1, q, l, p);
    }
  }

  lemma {:induction false} ChangeFormed(mem: Memory, mem': Memory, t: seq<Pte>, level: nat, q: Path, l: nat)
    requires l < level < |q| && Reaches(mem, t, level, q, l)
    requires Unshared(mem, t, level)
    requires ChangesInside(mem, mem', t, level, q, l)
    requires WellFormed(mem, t, level)
    requires WellFormed(mem', mem'[NodeFrame(mem, t, level, q, l)], l)
    ensures WellFormed(mem', t, level)
    decreases level
  {
    assert EntryFormed(mem, t[q[level]], level);
    if l < level - 1 {
      ChangeBelow(mem, mem', t, level, q, l);
      ChangeFormed(mem, mem', mem[t[q[level]].frame], level - 1, q, l);
    }
    forall j | 0 <= j < |t| ensures EntryFormed(mem', t[j], level) {
      if j != q[level] {
        ChangeSiblings(mem, mem', t, level, q, l, j);
        FrameAt(mem, mem', t[j], level);
        assert EntryFormed(mem, t[j], level);
      }
    }
  }

  // ---------------------------------------------------------------------------------------------
  // Writing one entry

  /** Memory after entry `i` of the table in frame `n` is overwritten. */
  function Write(mem: Memory, n: nat, i: nat, e: Pte): Memory
    requires n < |mem| && i < ENTRY_COUNT
  {
    mem[n := mem[n][i := e]]
  }

  /** Entry `e` can be written at level `l` of path `q` and keep the tree a tree: the nodes below `e`
      are new to the tree, or are those of the entry it replaces. */
  ghost predicate Fits(mem: Memory, t: seq<Pte>, level: nat, q: Path, l: nat, e: Pte)
    requires l < level < |q| && Reaches(mem, t, level, q, l)
  {
    var n := NodeFrame(mem, t, level, q, l);
    && EntryFormed(mem, e, l)
    && CountAt(mem, e, l, 1, n) == 0
    && forall f :: Count(mem, t, level, 1, f) - CountAt(mem, mem[n][q[l]], l, 1, f) + CountAt(mem, e, l, 1, f) <= 1
  }

  ghost predicate Written(mem: Memory, mem': Memory, t: seq<Pte>, level: nat, q: Path, l: nat, e: Pte)
    requires l < level < |q| && Reaches(mem, t, level, q, l)
  {
    var n := NodeFrame(mem, t, level, q, l);
    mem' == Write(mem, n, q[l], e)
  }

  lemma {:induction false} WriteInside(mem: Memory, mem': Memory, t: seq<Pte>, level: nat, q: Path, l: nat, e: Pte)
    requires l < level < |q| && Reaches(mem, t, level, q, l) && Unshared(mem, t, level)
    requires Written(mem, mem', t, level, q, l, e)
    ensures ChangesInside(mem, mem', t, level, q, l)
    ensures Reaches(mem', t, level, q, l)
    ensures NodeFrame(mem', t, level, q, l) == NodeFrame(mem, t, level, q, l)
  {
    ChangeReaches(mem, mem', t, level, q, l);
  }

  /** No node on a path occurs again below itself. */
  lemma {:induction false} NodeOnce(mem: Memory, t: seq<Pte>, level: nat, q: Path, l: nat)
    requires l < level < |q| && Reaches(mem, t, level, q, l) && Unshared(mem, t, level)
    ensures Count(mem, mem[NodeFrame(mem, t, level, q, l)], l, 1, NodeFrame(mem, t, level, q, l)) == 0
    decreases level
  {
    UnsharedBelow(mem, t, level, q[level]);
    if l < level - 1 {
      NodeOnce(mem, mem[t[q[level]].frame], level - 1, q, l);
    }
  }

  /** The written table, seen in the new memory, is the written table seen in the old one. */
  lemma {:induction false} WriteTable(mem: Memory, mem': Memory, t: seq<Pte>, level: nat, q: Path, l: nat, e: Pte)
    requires l < level < |q| && Reaches(mem, t, level, q, l) && Unshared(mem, t, level)
    requires Fits(mem, t, level, q, l, e) && Written(mem, mem', t, level, q, l, e)
    ensures SameNodes(mem, mem', mem'[NodeFrame(mem, t, level, q, l)], l)
  {
    var n := NodeFrame(mem, t, level, q, l);
    NodeOnce(mem, t, level, q, l);
    CountUpdate(mem, mem[n], q[l], e, l, 1, n);
  }

  lemma {:induction false} WriteCount(mem: Memory, mem': Memory, t: seq<Pte>, level: nat, q: Path, l: nat, e: Pte,
                                      floor: nat, f: nat)
    requires l < level < |q| && Reaches(mem, t, level, q, l) && Unshared(mem, t, level)
    requires Fits(mem, t, level, q, l, e) && Written(mem, mem', t, level, q, l, e)
    requires floor <= 1
    ensures Count(mem', t, level, floor, f) + CountAt(mem, mem[NodeFrame(mem, t, level, q, l)][q[l]], l, floor, f)
         == Count(mem, t, level, floor, f) + CountAt(mem, e, l, floor, f)
  {
    var n := NodeFrame(mem, t, level, q, l);
    WriteInside(mem, mem', t, level, q, l, e);
    WriteTable(mem, mem', t, level, q, l, e);
    Frame(mem, mem', mem'[n], l);
    ChangeCount(mem, mem', t, level, q, l, floor, f);
    CountUpdate(mem, mem[n], q[l], e, l, floor, f);
  }

  lemma {:induction false} WriteDeepest(mem: Memory, mem': Memory, t: seq<Pte>, level: nat, q: Path, l: nat, e: Pte,
                                        p: Path)
    requires l < level < |q| && level < |p| && Reaches(mem, t, level, q, l) && Unshared(mem, t, level)
    requires Fits(mem, t, level, q, l, e) && Written(mem, mem', t, level, q, l, e)
    ensures Deepest(mem', t, level, p) ==
            if Agree(p, q, l, level) then DeepestAt(mem, e, l, p) else Deepest(mem, t, level, p)
  {
    var n := NodeFrame(mem, t, level, q, l);
    WriteInside(mem, mem', t, level, q, l, e);
    WriteTable(mem, mem', t, level, q, l, e);
    Frame(mem, mem', mem'[n], l);
    ChangeDeepest(mem, mem', t, level, q, l, p);
  }

  /** Writing a fitting entry keeps the tree a well-formed tree. */
  lemma {:induction false} WriteKeeps(mem: Memory, mem': Memory, t: seq<Pte>, level: nat, q: Path, l: nat, e: Pte)
    requires l < level < |q| && Reaches(mem, t, level, q, l) && Unshared(mem, t, level)
    requires Fits(mem, t, level, q, l, e) && Written(mem, mem', t, level, q, l, e)
    requires WellFormed(mem, t, level)
    ensures Unshared(mem', t, level)
    ensures WellFormed(mem', t, level)
  {
    var n := NodeFrame(mem, t, level, q, l);
    WriteInside(mem, mem', t, level, q, l, e);
    WriteTable(mem, mem', t, level, q, l, e);
    FormedAt(mem, t, level, q, l);
    Frame(mem, mem', mem'[n], l);
    ChangeFormed(mem, mem', t, level, q, l);
    forall f: nat ensures Count(mem', t, level, 1, f) <= 1 {
      WriteCount(mem, mem', t, level, q, l, e, 1, f);
    }
  }

  lemma {:induction false} FormedAt(mem: Memory, t: seq<Pte>, level: nat, q: Path, l: nat)
    requires l < level < |q| && Reaches(mem, t, level, q, l) && WellFormed(mem, t, level)
    ensures WellFormed(mem, mem[NodeFrame(mem, t, level, q, l)], l)
    decreases level
  {
    assert EntryFormed(mem, t[q[level]], level);
    if l < level - 1 {
      FormedAt(mem, mem[t[q[level]].frame], level - 1, q, l);
    }
  }

  // ---------------------------------------------------------------------------------------------
  // Going one level down

  lemma {:induction false} Descend(mem: Memory, t: seq<Pte>, level: nat, q: Path, l: nat)
    requires 0 < l < level < |q| && Reaches(mem, t, level, q, l)
    requires var e := mem[NodeFrame(mem, t, level, q, l)][q[l]]; e.Counted() && e.frame < |mem|
    requires q[l - 1] < ENTRY_COUNT
    ensures Reaches(mem, t, level, q, l - 1)
    ensures NodeFrame(mem, t, level, q, l - 1) == mem[NodeFrame(mem, t, level, q, l)][q[l]].frame
    decreases level
  {
    var c := mem[t[q[level]].frame];
    if l < level - 1 {
      Descend(mem, c, level - 1, q, l);
    } else {
      assert Reaches(mem, mem[c[q[l]].frame], l - 1, q, l - 1);
    }
  }

  lemma {:induction false} DeepestReached(mem: Memory, t: seq<Pte>, level: nat, q: Path, l: nat, p: Path)
    requires l < level < |q| && level < |p| && Reaches(mem, t, level, q, l)
    requires Agree(p, q, l, level)
    ensures Deepest(mem, t, level, p) == DeepestAt(mem, mem[NodeFrame(mem, t, level, q, l)][q[l]], l, p)
    decreases level
  {
    assert p[l] == q[l] && p[level] == q[level];
    var e := t[q[level]];
    assert Deepest(mem, t, level, p) == Deepest(mem, mem[e.frame], level - 1, p);
    if l < level - 1 {
      DeepestReached(mem, mem[e.frame], level - 1, q, l, p);
    } else {
      assert Reaches(mem, mem[e.frame], l, q, l);
    }
  }

  lemma {:induction false} FrameReaches(mem: Memory, mem': Memory, t: seq<Pte>, level: nat, q: Path, l: nat)
    requires l < level < |q| && Reaches(mem, t, level, q, l)
    requires SameNodes(mem, mem', t, level)
    ensures Reaches(mem', t, level, q, l)
    ensures NodeFrame(mem', t, level, q, l) == NodeFrame(mem, t, level, q, l)
    decreases level
  {
    var e := t[q[level]];
    CountPart(mem, t, q[level], level, 1, e.frame);
    assert mem'[e.frame] == mem[e.frame];
    if l < level - 1 {
      forall x | 0 <= x < |mem| && mem'[x] != mem[x] ensures Count(mem, mem[e.frame], level - 1, 1, x) == 0 {
        CountPart(mem, t, q[level], level, 1, x);
      }
      FrameReaches(mem, mem', mem[e.frame], level - 1, q, l);
    }
  }
}
