/** What a path allows: the rights that every entry on it grants. */
module Rights {
  import opened Mmu
  import opened PageTree
  import opened World
  import opened Clearing

  /** Every entry of path `q`, from table `t` of level `level` down to the one that maps the page, grants right `a`. The
      entries of level 4, which only lead to the root of a space, do not matter. */
  ghost predicate Grants(mem: Memory, t: seq<Pte>, level: nat, q: Path, a: Flag)
    requires level < |q|
    decreases level, 1
  {
    q[level] < |t| && GrantsAt(mem, t[q[level]], level, q, a)
  }

  ghost predicate GrantsAt(mem: Memory, e: Pte, level: nat, q: Path, a: Flag)
    requires level < |q|
    decreases level, 0
  {
    && e.IsPresent() && (level <= ROOT_LEVEL ==> a in e.flags)
    && (level > 0 && !e.IsHuge() ==> Grants(mem, Below(mem, e), level - 1, q, a))
  }

  /** The page of path `p` may be accessed by right `a`. */
  ghost predicate Right(w: World, p: Path, a: Flag)
    requires |p| == TOP + 1
  {
    Grants(w.mem, w.roots, TOP, p, a)
  }

  /** The effective rights of a path: the intersection of the flags of its entries, nothing if it is not mapped. */
  ghost function RightsOf(w: World, p: Path): Flags
    requires |p| == TOP + 1
  {
    set a: Flag | Right(w, p, a)
  }

  /** What a path grants is among the flags of the entry it ends in, which maps the page. */
  lemma {:induction false} GrantsDeepest(mem: Memory, t: seq<Pte>, level: nat, q: Path, a: Flag)
    requires level < |q| && level <= ROOT_LEVEL && Grants(mem, t, level, q, a)
    ensures Deepest(mem, t, level, q).pte.IsPresent() && a in Deepest(mem, t, level, q).pte.flags
    decreases level
  {
    var e := t[q[level]];
    if level > 0 && e.Counted() {
      GrantsDeepest(mem, Below(mem, e), level - 1, q, a);
    }
  }

  // ---------------------------------------------------------------------------------------------
  // Framing

  lemma {:induction false} FrameGrants(mem: Memory, mem': Memory, t: seq<Pte>, level: nat, q: Path, a: Flag)
    requires SameNodes(mem, mem', t, level) && level < |q|
    ensures Grants(mem', t, level, q, a) == Grants(mem, t, level, q, a)
    decreases level, 1
  {
    if q[level] < |t| {
      forall x | 0 <= x < |mem| && mem'[x] != mem[x] ensures CountAt(mem, t[q[level]], level, 1, x) == 0 {
        CountPart(mem, t, q[level], level, 1, x);
      }
      FrameGrantsAt(mem, mem', t[q[level]], level, q, a);
    }
  }

  lemma {:induction false} FrameGrantsAt(mem: Memory, mem': Memory, e: Pte, level: nat, q: Path, a: Flag)
    requires SameNodesAt(mem, mem', e, level) && level < |q|
    ensures GrantsAt(mem', e, level, q, a) == GrantsAt(mem, e, level, q, a)
    decreases level, 0
  {
    if level > 0 && e.Counted() {
      assert CountAt(mem, e, level, 1, e.frame) > 0;
      assert Below(mem', e) == Below(mem, e);
      forall x | 0 <= x < |mem| && mem'[x] != mem[x] ensures Count(mem, Below(mem, e), level - 1, 1, x) == 0 {
        assert CountAt(mem, e, level, 1, x) == 0;
      }
      FrameGrants(mem, mem', Below(mem, e), level - 1, q, a);
    }
  }

  // ---------------------------------------------------------------------------------------------
  // Writing one entry

  /** The entries of path `q` above level `l` grant `a`. */
  ghost predicate Above(mem: Memory, t: seq<Pte>, level: nat, q: Path, l: nat, a: Flag)
    requires l < level < |q| && Reaches(mem, t, level, q, l)
    decreases level
  {
    && (level <= ROOT_LEVEL ==> a in t[q[level]].flags)
    && (l < level - 1 ==> Above(mem, mem[t[q[level]].frame], level - 1, q, l, a))
  }

  /** Paths that leave `q` above the subtree see no change; the others see the new subtree. */
  lemma {:induction false} ChangeGrants(mem: Memory, mem': Memory, t: seq<Pte>, level: nat, q: Path, l: nat, p: Path,
                                        a: Flag)
    requires l < level < |q| && level < |p| && Reaches(mem, t, level, q, l) && Unshared(mem, t, level)
    requires ChangesInside(mem, mem', t, level, q, l)
    ensures var n := NodeFrame(mem, t, level, q, l);
            if Agree(p, q, l + 1, level)
            then Grants(mem', t, level, p, a) == (Above(mem, t, level, q, l, a) && Grants(mem', mem'[n], l, p, a))
              && Grants(mem, t, level, p, a) == (Above(mem, t, level, q, l, a) && Grants(mem, mem[n], l, p, a))
            else Grants(mem', t, level, p, a) == Grants(mem, t, level, p, a)
    ensures Reaches(mem', t, level, q, l) && Above(mem', t, level, q, l, a) == Above(mem, t, level, q, l, a)
    decreases level
  {
    if l < level - 1 {
      ChangeBelow(mem, mem', t, level, q, l);
      ChangeGrants(mem, mem', mem[t[q[level]].frame], level - 1, q, l, p, a);
    }
    if p[level] != q[level] && p[level] < |t| {
      ChangeSiblings(mem, mem', t, level, q, l, p[level]);
      FrameGrantsAt(mem, mem', t[p[level]], level, p, a);
    }
  }

  lemma {:induction false} WriteGrants(mem: Memory, mem': Memory, t: seq<Pte>, level: nat, q: Path, l: nat, e: Pte,
                                       p: Path, a: Flag)
    requires l < level < |q| && level < |p| && Reaches(mem, t, level, q, l) && Unshared(mem, t, level)
    requires Fits(mem, t, level, q, l, e) && Written(mem, mem', t, level, q, l, e)
    ensures Grants(mem', t, level, p, a) ==
            if Agree(p, q, l, level) then Above(mem, t, level, q, l, a) && GrantsAt(mem, e, l, p, a)
            else Grants(mem, t, level, p, a)
    ensures Reaches(mem', t, level, q, l) && Above(mem', t, level, q, l, a) == Above(mem, t, level, q, l, a)
  {
    var n := NodeFrame(mem, t, level, q, l);
    WriteInside(mem, mem', t, level, q, l, e);
    WriteTable(mem, mem', t, level, q, l, e);
    FrameGrants(mem, mem', mem'[n], l, p, a);
    ChangeGrants(mem, mem', t, level, q, l, p, a);
  }

  /** The path through a table and what it grants. */
  lemma {:induction false} GrantsReached(mem: Memory, t: seq<Pte>, level: nat, q: Path, l: nat, p: Path, a: Flag)
    requires l < level < |q| && level < |p| && Reaches(mem, t, level, q, l) && Agree(p, q, l, level)
    ensures Grants(mem, t, level, p, a) ==
            (Above(mem, t, level, q, l, a) && GrantsAt(mem, mem[NodeFrame(mem, t, level, q, l)][q[l]], l, p, a))
    decreases level
  {
    assert p[l] == q[l] && p[level] == q[level];
    var e := t[q[level]];
    if l < level - 1 {
      GrantsReached(mem, mem[e.frame], level - 1, q, l, p, a);
    } else {
      assert Reaches(mem, mem[e.frame], l, q, l);
      assert e.Counted() && NodeFrame(mem, t, level, q, l) == e.frame;
      assert Grants(mem, mem[e.frame], l, p, a) == GrantsAt(mem, mem[e.frame][q[l]], l, p, a);
    }
  }

  lemma {:induction false} AboveNext(mem: Memory, t: seq<Pte>, level: nat, q: Path, l: nat, a: Flag)
    requires 0 < l < level < |q| && Reaches(mem, t, level, q, l) && Reaches(mem, t, level, q, l - 1)
    ensures Above(mem, t, level, q, l - 1, a) ==
      (Above(mem, t, level, q, l, a) && (l <= ROOT_LEVEL ==> a in mem[NodeFrame(mem, t, level, q, l)][q[l]].flags))
    decreases level
  {
    var c := mem[t[q[level]].frame];
    if l < level - 1 {
      AboveNext(mem, c, level - 1, q, l, a);
    } else {
      assert Reaches(mem, c, l, q, l - 1);
    }
  }

  // ---------------------------------------------------------------------------------------------
  // Worlds

  /** The entries of path `q` above level `l` grant everything in `required`. */
  ghost predicate Open(w: World, q: Path, l: nat, n: nat, required: Flags)
    requires At(w, q, l, n)
  {
    forall a {:trigger a in required} :: a in required ==> Above(w.mem, w.roots, TOP, q, l, a)
  }

  /** No path lost a right, and what some path gained is in `more`. */
  ghost predicate Widened(w: World, w': World, more: Flags) {
    forall p: Path, a: Flag {:trigger Right(w', p, a)} :: |p| == TOP + 1 ==>
      && (Right(w, p, a) ==> Right(w', p, a))
      && (Right(w', p, a) ==> Right(w, p, a) || a in more)
  }

  /** The same for all paths but `q`. */
  ghost predicate WidenedBut(w: World, w': World, q: Path, more: Flags) {
    forall p: Path, a: Flag {:trigger Right(w', p, a)} :: |p| == TOP + 1 && p != q ==>
      && (Right(w, p, a) ==> Right(w', p, a))
      && (Right(w', p, a) ==> Right(w, p, a) || a in more)
  }

  lemma WidenedSelf(w: World, w': World, more: Flags)
    requires w'.mem == w.mem && w'.roots == w.roots
    ensures Widened(w, w', more)
  {
  }

  lemma WidenedMore(w: World, w': World, more: Flags)
    requires Widened(w, w', {})
    ensures Widened(w, w', more)
  {
    hide Right;
  }

  lemma WidenedMoreBut(w: World, w': World, q: Path, more: Flags)
    requires WidenedBut(w, w', q, {})
    ensures WidenedBut(w, w', q, more)
  {
    hide Right;
  }

  lemma WidenedThen(w: World, w1: World, w2: World, more: Flags)
    requires Widened(w, w1, more) && Widened(w1, w2, more)
    ensures Widened(w, w2, more)
  {
    hide Right;
    forall p: Path, a: Flag | |p| == TOP + 1
      ensures Right(w, p, a) ==> Right(w2, p, a)
      ensures Right(w2, p, a) ==> Right(w, p, a) || a in more
    {
      assert Right(w1, p, a) ==> Right(w, p, a) || a in more;
    }
  }

  lemma WidenedButThen(w: World, w1: World, w2: World, q: Path, more: Flags)
    requires Widened(w, w1, more) && WidenedBut(w1, w2, q, more)
    ensures WidenedBut(w, w2, q, more)
  {
    hide Right;
    forall p: Path, a: Flag | |p| == TOP + 1 && p != q
      ensures Right(w, p, a) ==> Right(w2, p, a)
      ensures Right(w2, p, a) ==> Right(w, p, a) || a in more
    {
      assert Right(w1, p, a) ==> Right(w, p, a) || a in more;
    }
  }

  lemma PutIsWritten(w: World, w': World, q: Path, l: nat, n: nat, e: Pte)
    requires Consistent(w) && At(w, q, l, n) && PutFits(w, q, l, n, e)
    requires w'.mem == Write(w.mem, n, q[l], e) && w'.roots == w.roots
    ensures Fits(w.mem, w.roots, TOP, q, l, e) && Written(w.mem, w'.mem, w.roots, TOP, q, l, e)
  {
    hide Count, CountAt, EntryFormed, WellFormed;
    forall f: nat
      ensures Count(w.mem, w.roots, TOP, 1, f) - CountAt(w.mem, w.mem[n][q[l]], l, 1, f) +
        CountAt(w.mem, e, l, 1, f) <= 1
    {
      assert Uses(w, 1, f) == Count(w.mem, w.roots, TOP, 1, f);
    }
  }

  /** What a write does to the rights of a path. */
  lemma PutRight(w: World, w': World, q: Path, l: nat, n: nat, e: Pte, p: Path, a: Flag)
    requires Consistent(w) && At(w, q, l, n) && PutFits(w, q, l, n, e) && |p| == TOP + 1
    requires w'.mem == Write(w.mem, n, q[l], e) && w'.roots == w.roots
    ensures At(w', q, l, n)
    ensures Right(w', p, a) ==
      if Agree(p, q, l, TOP) then Above(w.mem, w.roots, TOP, q, l, a) && GrantsAt(w.mem, e, l, p, a) else Right(w, p, a)
    ensures Agree(p, q, l, TOP) ==>
      Right(w, p, a) == (Above(w.mem, w.roots, TOP, q, l, a) && GrantsAt(w.mem, w.mem[n][q[l]], l, p, a))
    ensures Above(w'.mem, w'.roots, TOP, q, l, a) == Above(w.mem, w.roots, TOP, q, l, a)
  {
    hide Count, CountAt, EntryFormed, WellFormed;
    PutIsWritten(w, w', q, l, n, e);
    WriteGrants(w.mem, w'.mem, w.roots, TOP, q, l, e, p, a);
    WriteInside(w.mem, w'.mem, w.roots, TOP, q, l, e);
    if Agree(p, q, l, TOP) {
      GrantsReached(w.mem, w.roots, TOP, q, l, p, a);
    }
  }

  // ---------------------------------------------------------------------------------------------
  // The steps of mapping and unmapping

  lemma FlagsFit(w: World, q: Path, l: nat, n: nat, flags: Flags)
    requires Consistent(w) && At(w, q, l, n) && w.mem[n][q[l]].Counted() && Present in flags && Huge !in flags
    ensures PutFits(w, q, l, n, Pte(w.mem[n][q[l]].frame, flags))
  {
    var e := Pte(w.mem[n][q[l]].frame, flags);
    assert forall floor, f :: CountAt(w.mem, e, l, floor, f) == CountAt(w.mem, w.mem[n][q[l]], l, floor, f);
    AtNode(w, q, l, n);
    CountPart(w.mem, w.mem[n], q[l], l, 1, n);
    assert EntryFormed(w.mem, w.mem[n][q[l]], l);
    UsedOnce(w);
  }

  /** An intermediate entry gets more flags: the paths through it may gain these, and no path loses anything. */
  lemma WidenRights(w: World, q: Path, l: nat, n: nat, required: Flags)
    requires Consistent(w) && At(w, q, l, n) && 0 < l && w.mem[n][q[l]].Counted() && Huge !in required
    ensures var e := w.mem[n][q[l]];
      var w' := Put(w, n, q[l], Pte(e.frame, e.flags + required));
      && At(w', q, l, n) && Widened(w, w', required) && (Open(w, q, l, n, required) ==> Open(w', q, l, n, required))
  {
    hide Consistent, Count, CountAt, Reaches, NodeFrame;
    var e := w.mem[n][q[l]];
    var e' := Pte(e.frame, e.flags + required);
    var w' := Put(w, n, q[l], e');
    FlagsFit(w, q, l, n, e.flags + required);
    forall p: Path, a: Flag | |p| == TOP + 1
      ensures Right(w, p, a) ==> Right(w', p, a)
      ensures Right(w', p, a) ==> Right(w, p, a) || a in required
    {
      PutRight(w, w', q, l, n, e', p, a);
    }
    forall a | a in required
      ensures At(w', q, l, n) && Above(w'.mem, w'.roots, TOP, q, l, a) == Above(w.mem, w.roots, TOP, q, l, a)
    {
      PutRight(w, w', q, l, n, e', q, a);
    }
    PutRight(w, w', q, l, n, e', q, Present);
  }

  /** One level down. */
  lemma OpenBelow(w: World, q: Path, l: nat, n: nat, below: nat, required: Flags)
    requires At(w, q, l, n) && 0 < l && At(w, q, l - 1, below) && Open(w, q, l, n, required)
    requires required <= w.mem[n][q[l]].flags
    ensures Open(w, q, l - 1, below, required)
  {
    forall a | a in required ensures Above(w.mem, w.roots, TOP, q, l - 1, a) {
      AboveNext(w.mem, w.roots, TOP, q, l, a);
    }
  }

  /** At the root nothing has been granted or denied yet. */
  lemma OpenRoot(w: World, q: Path, n: nat, required: Flags)
    requires At(w, q, ROOT_LEVEL, n)
    ensures Open(w, q, ROOT_LEVEL, n, required)
  {
  }

  lemma {:induction false} FrameAbove(mem: Memory, mem': Memory, t: seq<Pte>, level: nat, q: Path, l: nat, a: Flag)
    requires l < level < |q| && Reaches(mem, t, level, q, l) && Reaches(mem', t, level, q, l)
    requires SameNodes(mem, mem', t, level)
    ensures Above(mem', t, level, q, l, a) == Above(mem, t, level, q, l, a)
    decreases level
  {
    var e := t[q[level]];
    CountPart(mem, t, q[level], level, 1, e.frame);
    if l < level - 1 {
      assert CountAt(mem, e, level, 1, e.frame) > 0;
      assert mem'[e.frame] == mem[e.frame];
      forall x: nat | x < |mem| && mem'[x] != mem[x] ensures Count(mem, mem[e.frame], level - 1, 1, x) == 0 {
        CountPart(mem, t, q[level], level, 1, x);
      }
      FrameAbove(mem, mem', mem[e.frame], level - 1, q, l, a);
    }
  }

  /** Trees that are left alone keep their rights. */
  lemma SameTreesRights(w: World, w': World)
    requires w'.roots == w.roots && SameNodes(w.mem, w'.mem, w.roots, TOP)
    ensures forall p: Path, a: Flag {:trigger Right(w', p, a)} :: |p| == TOP + 1 ==> Right(w', p, a) == Right(w, p, a)
  {
    forall p: Path, a: Flag | |p| == TOP + 1 ensures Right(w', p, a) == Right(w, p, a) {
      FrameGrants(w.mem, w'.mem, w.roots, TOP, p, a);
    }
  }

  /** A missing node is added: no right changes, and the new entry grants its flags. */
  lemma AddNodeRights(w: World, q: Path, l: nat, n: nat, f: nat, flags: Flags)
    requires Consistent(w) && PagePath(w.roots, q) && At(w, q, l, n) && l > 0
    requires !w.mem[n][q[l]].IsPresent() && Huge !in flags && Present in flags
    requires f < |w.counts| && w.counts[f] == Some(0) && w.free > 0
    ensures var w' := PutGuard(TakeNode(w, f), n, q[l], f, flags);
      Widened(w, w', {}) && At(w', q, l - 1, f) && (Open(w, q, l, n, flags) ==> Open(w', q, l - 1, f, flags))
  {
    var w1 := TakeNode(w, f);
    FreeIsUnused(w, f);
    assert forall x: nat :: x < |w.mem| && w1.mem[x] != w.mem[x] ==> x == f;
    assert SameNodes(w.mem, w1.mem, w.roots, TOP);
    TakeNodeKeeps(w, f);
    TakeNodeAt(w, f, q, l, n);
    hide Count, CountAt, Consistent, Uses, TakeNode, Reaches, NodeFrame;
    SameTreesRights(w, w1);
    NodeRights(w, w1, q, l, n, f, flags);
    AddNodeKeeps(w, q, l, n, f, flags);
    if Open(w, q, l, n, flags) {
      OpenFramed(w, w1, q, l, n, flags);
      NodeOpen(w1, q, l, n, f, flags);
    }
  }

  lemma OpenFramed(w: World, w': World, q: Path, l: nat, n: nat, required: Flags)
    requires At(w, q, l, n) && At(w', q, l, n) && w'.roots == w.roots && SameNodes(w.mem, w'.mem, w.roots, TOP)
    requires Open(w, q, l, n, required)
    ensures Open(w', q, l, n, required)
  {
    forall a | a in required ensures Above(w'.mem, w'.roots, TOP, q, l, a) {
      FrameAbove(w.mem, w'.mem, w.roots, TOP, q, l, a);
    }
  }

  lemma NodeRights(w: World, w1: World, q: Path, l: nat, n: nat, f: nat, flags: Flags)
    requires Consistent(w1) && At(w1, q, l, n) && l > 0 && !w1.mem[n][q[l]].IsPresent() && Huge !in flags
    requires f < |w1.mem| && w1.mem[f] == EMPTY_TABLE && f != n && Uses(w1, 1, f) == 0
    requires forall p: Path, a: Flag {:trigger Right(w1, p, a)} :: |p| == TOP + 1 ==> Right(w1, p, a) == Right(w, p, a)
    ensures Widened(w, PutGuard(w1, n, q[l], f, flags), {})
  {
    hide Consistent, Count, CountAt, Reaches, NodeFrame, Right;
    var w' := PutGuard(w1, n, q[l], f, flags);
    NodeFits(w1, q, l, n, f, flags);
    forall p: Path, a: Flag | |p| == TOP + 1 ensures Right(w', p, a) == Right(w, p, a) {
      PutRight(w1, w', q, l, n, Pte.Of(f, flags), p, a);
      EmptyGrants(w1.mem, Pte.Of(f, flags), l, p, a);
    }
  }

  /** A new node grants nothing yet. */
  lemma EmptyGrants(mem: Memory, e: Pte, l: nat, p: Path, a: Flag)
    requires 0 < l < |p| && e.frame < |mem| && mem[e.frame] == EMPTY_TABLE && !e.IsHuge()
    ensures !GrantsAt(mem, e, l, p, a)
  {
    assert !EMPTY.IsPresent();
    if p[l - 1] < ENTRY_COUNT {
      assert EMPTY_TABLE[p[l - 1]] == EMPTY;
    }
    assert !Grants(mem, Below(mem, e), l - 1, p, a);
  }

  lemma NodeFits(w: World, q: Path, l: nat, n: nat, f: nat, flags: Flags)
    requires Consistent(w) && At(w, q, l, n) && l > 0 && !w.mem[n][q[l]].IsPresent() && Huge !in flags
    requires f < |w.mem| && w.mem[f] == EMPTY_TABLE && f != n && Uses(w, 1, f) == 0
    ensures PutFits(w, q, l, n, Pte.Of(f, flags))
  {
    NewEntry(w.mem, l, f, Pte.Of(f, flags));
    UsedOnce(w);
    assert forall g: nat :: CountAt(w.mem, w.mem[n][q[l]], l, 1, g) == 0;
  }

  lemma NodeOpen(w: World, q: Path, l: nat, n: nat, f: nat, flags: Flags)
    requires Consistent(w) && PagePath(w.roots, q) && At(w, q, l, n) && l > 0 && !w.mem[n][q[l]].IsPresent()
    requires Huge !in flags && Present in flags && f in w.held
    requires f < |w.mem| && w.mem[f] == EMPTY_TABLE && f != n && Uses(w, 1, f) == 0 && Open(w, q, l, n, flags)
    ensures var w' := PutGuard(w, n, q[l], f, flags); At(w', q, l - 1, f) && Open(w', q, l - 1, f, flags)
  {
    hide Count, CountAt, Reaches, NodeFrame;
    var w' := PutGuard(w, n, q[l], f, flags);
    NodeFits(w, q, l, n, f, flags);
    PutGuardKeeps(w, q, l, n, f, flags);
    GoDown(w', q, l, n);
    hide Consistent;
    forall a | a in flags ensures Above(w'.mem, w'.roots, TOP, q, l, a) {
      PutRight(w, w', q, l, n, Pte.Of(f, flags), q, a);
    }
    OpenBelow(w', q, l, n, f, flags);
  }

  /** A leaf is written: only its page is affected, and the rights of that are those of the way and of the leaf. */
  lemma LeafRights(w: World, w': World, q: Path, n: nat, e: Pte, p: Path, a: Flag)
    requires Consistent(w) && At(w, q, 0, n) && PutFits(w, q, 0, n, e) && |p| == TOP + 1
    requires w'.mem == Write(w.mem, n, q[0], e) && w'.roots == w.roots
    ensures p != q ==> Right(w', p, a) == Right(w, p, a)
    ensures Right(w', q, a) == (Above(w.mem, w.roots, TOP, q, 0, a) && e.IsPresent() && a in e.flags)
    ensures At(w', q, 0, n) && Above(w'.mem, w'.roots, TOP, q, 0, a) == Above(w.mem, w.roots, TOP, q, 0, a)
  {
    hide Consistent, Count, CountAt, Reaches, NodeFrame;
    PutRight(w, w', q, 0, n, e, p, a);
    PutRight(w, w', q, 0, n, e, q, a);
    if Agree(p, q, 0, TOP) { assert p == q; }
  }

  /** Of the access rights the page of path `q` has exactly those in `flags`. */
  ghost predicate Granted(w: World, q: Path, flags: Flags)
    requires |q| == TOP + 1
  {
    RightsOf(w, q) * FULL_ACCESS == flags * FULL_ACCESS + {Present}
  }

  lemma GrantedEach(w: World, q: Path, flags: Flags)
    requires |q| == TOP + 1
    ensures Granted(w, q, flags) <==>
      forall a: Flag :: a in FULL_ACCESS ==> (Right(w, q, a) <==> a in flags + {Present})
  {
    hide Right;
    var r, g := RightsOf(w, q) * FULL_ACCESS, flags * FULL_ACCESS + {Present};
    assert forall a: Flag :: a in r <==> a in FULL_ACCESS && Right(w, q, a);
    if forall a: Flag :: a in FULL_ACCESS ==> (Right(w, q, a) <==> a in flags + {Present}) {
      forall a: Flag ensures a in r <==> a in g { }
    }
    if r == g {
      forall a: Flag | a in FULL_ACCESS ensures Right(w, q, a) <==> a in flags + {Present} {
        assert a in r <==> a in g;
      }
    }
  }

  /** A leaf is emptied if need be, and then written. */
  lemma ReplaceRights(w: World, w': World, q: Path, n: nat, frame: nat, flags: Flags)
    requires Consistent(w) && At(w, q, 0, n) && Huge !in flags && frame in TakeGuard(w, n, q[0]).held
    requires w'.roots == w.roots && w'.mem == PutGuard(TakeGuard(w, n, q[0]), n, q[0], frame, flags).mem
    ensures WidenedBut(w, w', q, {}) && WaysWidened(w, w', {})
    ensures Open(w, q, 0, n, flags * FULL_ACCESS + {Present}) ==> Granted(w', q, flags)
  {
    hide WaysWidened, Count, CountAt, Reaches, NodeFrame, WellFormed, Unshared;
    var e := Pte.Of(frame, flags);
    AtNode(w, q, 0, n);
    assert EntryFormed(w.mem, w.mem[n][q[0]], 0);
    LeafFits(w, q, n, e);
    assert w.mem[n][q[0] := EMPTY][q[0] := e] == w.mem[n][q[0] := e];
    assert w'.mem == Write(w.mem, n, q[0], e);
    LeafWays(w, w', q, n, e);
    hide Consistent;
    forall p: Path, a: Flag | |p| == TOP + 1 && p != q ensures Right(w', p, a) == Right(w, p, a) {
      LeafRights(w, w', q, n, e, p, a);
    }
    if Open(w, q, 0, n, flags * FULL_ACCESS + {Present}) {
      forall a | a in FULL_ACCESS ensures Right(w', q, a) <==> a in flags + {Present} {
        LeafRights(w, w', q, n, e, q, a);
        assert a in flags + {Present} ==> a in flags * FULL_ACCESS + {Present};
      }
      GrantedEach(w', q, flags);
    }
  }

  lemma LeafFits(w: World, q: Path, n: nat, e: Pte)
    requires Consistent(w) && At(w, q, 0, n) && EntryFormed(w.mem, e, 0)
    ensures PutFits(w, q, 0, n, e)
  {
    UsedOnce(w);
    assert forall g: nat, d: Pte :: CountAt(w.mem, d, 0, 1, g) == 0;
  }

  /** A leaf is written: no other page is affected. */
  lemma LeafWritten(w: World, w': World, q: Path, n: nat, e: Pte)
    requires Consistent(w) && At(w, q, 0, n) && EntryFormed(w.mem, e, 0)
    requires w'.mem == Write(w.mem, n, q[0], e) && w'.roots == w.roots
    ensures WidenedBut(w, w', q, {})
  {
    hide Count, CountAt, Reaches, NodeFrame;
    LeafFits(w, q, n, e);
    hide Consistent;
    forall p: Path, a: Flag | |p| == TOP + 1 && p != q ensures Right(w', p, a) == Right(w, p, a) {
      LeafRights(w, w', q, n, e, p, a);
    }
  }

  /** A leaf is cleared: its page loses all rights, no other changes. */
  lemma ClearRights(w: World, w': World, q: Path, n: nat)
    requires Consistent(w) && At(w, q, 0, n) && w'.mem == Write(w.mem, n, q[0], EMPTY) && w'.roots == w.roots
    ensures WidenedBut(w, w', q, {}) && forall a: Flag {:trigger Right(w', q, a)} :: !Right(w', q, a)
  {
    hide Count, CountAt, Reaches, NodeFrame;
    LeafFits(w, q, n, EMPTY);
    hide Consistent;
    forall p: Path, a: Flag | |p| == TOP + 1 && p != q ensures Right(w', p, a) == Right(w, p, a) {
      LeafRights(w, w', q, n, EMPTY, p, a);
    }
    forall a: Flag ensures !Right(w', q, a) {
      LeafRights(w, w', q, n, EMPTY, q, a);
    }
  }

  // ---------------------------------------------------------------------------------------------
  // Clearing entries

  lemma {:induction false} GrantsBefore(w: World, w': World, t: seq<Pte>, t': seq<Pte>, level: nat, p: Path, a: Flag)
    requires OnlyCleared(w, w') && level < |p|
    requires |t'| == |t| && forall i :: 0 <= i < |t| ==> t'[i] == t[i] || t'[i] == EMPTY
    ensures Grants(w'.mem, t', level, p, a) ==> Grants(w.mem, t, level, p, a)
    ensures Grants(w.mem, t, level, p, a) && Deepest(w'.mem, t', level, p).pte.IsPresent() ==>
      Grants(w'.mem, t', level, p, a)
    decreases level
  {
    GrantsStep(w.mem, t, level, p, a);
    GrantsStep(w'.mem, t', level, p, a);
    if p[level] < |t| && t'[p[level]] == t[p[level]] {
      var e := t[p[level]];
      if level > 0 && e.Counted() {
        GrantsBefore(w, w', Below(w.mem, e), Below(w'.mem, e), level - 1, p, a);
        assert Deepest(w'.mem, t', level, p) == Deepest(w'.mem, Below(w'.mem, e), level - 1, p);
      }
    } else if p[level] < |t| {
      assert t'[p[level]] == EMPTY;
      assert DeepestAt(w'.mem, EMPTY, level, p) == Hit(level, EMPTY);
    }
  }

  lemma GrantsStep(mem: Memory, t: seq<Pte>, level: nat, p: Path, a: Flag)
    requires level < |p|
    ensures Grants(mem, t, level, p, a) == (p[level] < |t| &&
      var e := t[p[level]];
      && e.IsPresent() && (level <= ROOT_LEVEL ==> a in e.flags)
      && (level > 0 && !e.IsHuge() ==> Grants(mem, Below(mem, e), level - 1, p, a)))
  {
  }

  /** Clearing entries takes no right from a page that is found as before. */
  lemma ClearedRights(w: World, w': World, p: Path, a: Flag)
    requires OnlyCleared(w, w') && ValidRoots(w.roots) && |p| == TOP + 1 && View(w', p) == View(w, p)
    ensures Right(w', p, a) == Right(w, p, a)
  {
    GrantsBefore(w, w', w.roots, w'.roots, TOP, p, a);
    if Right(w, p, a) {
      GrantsDeepest(w.mem, Below(w.mem, w.roots[p[TOP]]), ROOT_LEVEL, p, a);
      assert View(w, p).Mapped?;
    }
  }

  // ---------------------------------------------------------------------------------------------
  // The way to a leaf table

  /** Path `q` leads from table `t` of level `level` to a leaf table, and every entry on the way grants right `a`. */
  ghost predicate Leads(mem: Memory, t: seq<Pte>, level: nat, q: Path, a: Flag)
    requires level < |q|
    decreases level, 1
  {
    q[level] < |t| && (level > 0 ==> LeadsAt(mem, t[q[level]], level, q, a))
  }

  ghost predicate LeadsAt(mem: Memory, e: Pte, level: nat, q: Path, a: Flag)
    requires 0 < level < |q|
    decreases level, 0
  {
    e.Counted() && (level <= ROOT_LEVEL ==> a in e.flags) && Leads(mem, Below(mem, e), level - 1, q, a)
  }

  /** There is a leaf table for path `p`, and the way to it grants right `a`. */
  ghost predicate Way(w: World, p: Path, a: Flag)
    requires |p| == TOP + 1
  {
    Leads(w.mem, w.roots, TOP, p, a)
  }

  /** No way lost a right, and what some way gained, or has from the start if it is new, is in `more`. */
  ghost predicate WaysWidened(w: World, w': World, more: Flags) {
    forall p: Path, a: Flag {:trigger Way(w', p, a)} :: |p| == TOP + 1 ==>
      && (Way(w, p, a) ==> Way(w', p, a))
      && (Way(w', p, a) ==> Way(w, p, a) || a in more)
  }

  lemma WaysSelf(w: World, w': World, more: Flags)
    requires w'.mem == w.mem && w'.roots == w.roots
    ensures WaysWidened(w, w', more)
  {
  }

  lemma WaysMore(w: World, w': World, more: Flags)
    requires WaysWidened(w, w', {})
    ensures WaysWidened(w, w', more)
  {
    hide Way;
  }

  lemma WaysThen(w: World, w1: World, w2: World, more: Flags)
    requires WaysWidened(w, w1, more) && WaysWidened(w1, w2, more)
    ensures WaysWidened(w, w2, more)
  {
    hide Way;
    forall p: Path, a: Flag | |p| == TOP + 1
      ensures Way(w, p, a) ==> Way(w2, p, a)
      ensures Way(w2, p, a) ==> Way(w, p, a) || a in more
    {
      assert Way(w1, p, a) || !Way(w1, p, a);
    }
  }

  lemma {:induction false} FrameLeads(mem: Memory, mem': Memory, t: seq<Pte>, level: nat, q: Path, a: Flag)
    requires SameNodes(mem, mem', t, level) && level < |q|
    ensures Leads(mem', t, level, q, a) == Leads(mem, t, level, q, a)
    decreases level, 1
  {
    if level > 0 && q[level] < |t| {
      forall x | 0 <= x < |mem| && mem'[x] != mem[x] ensures CountAt(mem, t[q[level]], level, 1, x) == 0 {
        CountPart(mem, t, q[level], level, 1, x);
      }
      FrameLeadsAt(mem, mem', t[q[level]], level, q, a);
    }
  }

  lemma {:induction false} FrameLeadsAt(mem: Memory, mem': Memory, e: Pte, level: nat, q: Path, a: Flag)
    requires SameNodesAt(mem, mem', e, level) && 0 < level < |q|
    ensures LeadsAt(mem', e, level, q, a) == LeadsAt(mem, e, level, q, a)
    decreases level, 0
  {
    if e.Counted() {
      assert CountAt(mem, e, level, 1, e.frame) > 0;
      assert Below(mem', e) == Below(mem, e);
      forall x | 0 <= x < |mem| && mem'[x] != mem[x] ensures Count(mem, Below(mem, e), level - 1, 1, x) == 0 {
        assert CountAt(mem, e, level, 1, x) == 0;
      }
      FrameLeads(mem, mem', Below(mem, e), level - 1, q, a);
    }
  }

  /** Paths that leave `q` above the subtree see no change; the others see the new subtree. */
  lemma {:induction false} ChangeLeads(mem: Memory, mem': Memory, t: seq<Pte>, level: nat, q: Path, l: nat, p: Path,
                                       a: Flag)
    requires l < level < |q| && level < |p| && Reaches(mem, t, level, q, l) && Unshared(mem, t, level)
    requires ChangesInside(mem, mem', t, level, q, l)
    ensures var n := NodeFrame(mem, t, level, q, l);
            if Agree(p, q, l + 1, level)
            then Leads(mem', t, level, p, a) == (Above(mem, t, level, q, l, a) && Leads(mem', mem'[n], l, p, a))
              && Leads(mem, t, level, p, a) == (Above(mem, t, level, q, l, a) && Leads(mem, mem[n], l, p, a))
            else Leads(mem', t, level, p, a) == Leads(mem, t, level, p, a)
    decreases level
  {
    if l < level - 1 {
      ChangeBelow(mem, mem', t, level, q, l);
      ChangeLeads(mem, mem', mem[t[q[level]].frame], level - 1, q, l, p, a);
    }
    if p[level] != q[level] && p[level] < |t| {
      ChangeSiblings(mem, mem', t, level, q, l, p[level]);
      FrameLeadsAt(mem, mem', t[p[level]], level, p, a);
    }
  }

  /** What a write does to the way of a path. */
  lemma PutWay(w: World, w': World, q: Path, l: nat, n: nat, e: Pte, p: Path, a: Flag)
    requires Consistent(w) && At(w, q, l, n) && PutFits(w, q, l, n, e) && |p| == TOP + 1
    requires w'.mem == Write(w.mem, n, q[l], e) && w'.roots == w.roots
    ensures l > 0 && Agree(p, q, l, TOP) ==>
      && Way(w', p, a) == (Above(w.mem, w.roots, TOP, q, l, a) && LeadsAt(w.mem, e, l, p, a))
      && Way(w, p, a) == (Above(w.mem, w.roots, TOP, q, l, a) && LeadsAt(w.mem, w.mem[n][q[l]], l, p, a))
    ensures l == 0 || !Agree(p, q, l, TOP) ==> Way(w', p, a) == Way(w, p, a)
  {
    hide Count, CountAt, EntryFormed, WellFormed;
    PutIsWritten(w, w', q, l, n, e);
    WriteInside(w.mem, w'.mem, w.roots, TOP, q, l, e);
    WriteTable(w.mem, w'.mem, w.roots, TOP, q, l, e);
    FrameLeads(w.mem, w'.mem, w'.mem[n], l, p, a);
    ChangeLeads(w.mem, w'.mem, w.roots, TOP, q, l, p, a);
  }

  lemma WidenWays(w: World, q: Path, l: nat, n: nat, required: Flags)
    requires Consistent(w) && At(w, q, l, n) && 0 < l && w.mem[n][q[l]].Counted() && Huge !in required
    ensures var e := w.mem[n][q[l]];
      WaysWidened(w, Put(w, n, q[l], Pte(e.frame, e.flags + required)), required)
  {
    hide Consistent, Count, CountAt, Reaches, NodeFrame, Way;
    var e := w.mem[n][q[l]];
    var e' := Pte(e.frame, e.flags + required);
    var w' := Put(w, n, q[l], e');
    FlagsFit(w, q, l, n, e.flags + required);
    forall p: Path, a: Flag | |p| == TOP + 1
      ensures Way(w, p, a) ==> Way(w', p, a)
      ensures Way(w', p, a) ==> Way(w, p, a) || a in required
    {
      PutWay(w, w', q, l, n, e', p, a);
    }
  }

  /** A node is added: the ways through it are new, and have no right but those of its entry. */
  lemma AddNodeWays(w: World, q: Path, l: nat, n: nat, f: nat, flags: Flags)
    requires Consistent(w) && At(w, q, l, n) && l > 0
    requires !w.mem[n][q[l]].IsPresent() && Huge !in flags && Present in flags
    requires f < |w.counts| && w.counts[f] == Some(0) && w.free > 0
    ensures WaysWidened(w, PutGuard(TakeNode(w, f), n, q[l], f, flags), flags)
  {
    var w1 := TakeNode(w, f);
    FreeIsUnused(w, f);
    assert SameNodes(w.mem, w1.mem, w.roots, TOP);
    TakeNodeKeeps(w, f);
    TakeNodeAt(w, f, q, l, n);
    var w' := PutGuard(w1, n, q[l], f, flags);
    hide Count, CountAt, Consistent, Uses, TakeNode, Reaches, NodeFrame, Way;
    NodeFits(w1, q, l, n, f, flags);
    forall p: Path, a: Flag | |p| == TOP + 1
      ensures Way(w, p, a) ==> Way(w', p, a)
      ensures Way(w', p, a) ==> Way(w, p, a) || a in flags
    {
      FrameWay(w, w1, p, a);
      PutWay(w1, w', q, l, n, Pte.Of(f, flags), p, a);
      AtLevel(w1, q, l, n);
    }
  }

  lemma FrameWay(w: World, w': World, p: Path, a: Flag)
    requires w'.roots == w.roots && SameNodes(w.mem, w'.mem, w.roots, TOP) && |p| == TOP + 1
    ensures Way(w', p, a) == Way(w, p, a)
  {
    FrameLeads(w.mem, w'.mem, w.roots, TOP, p, a);
  }

  lemma AtLevel(w: World, q: Path, l: nat, n: nat)
    requires At(w, q, l, n)
    ensures l <= ROOT_LEVEL
  {
  }

  /** Writing a leaf changes no way. */
  lemma LeafWays(w: World, w': World, q: Path, n: nat, e: Pte)
    requires Consistent(w) && At(w, q, 0, n) && EntryFormed(w.mem, e, 0)
    requires w'.mem == Write(w.mem, n, q[0], e) && w'.roots == w.roots
    ensures WaysWidened(w, w', {})
  {
    hide Count, CountAt, Reaches, NodeFrame, Way;
    LeafFits(w, q, n, e);
    hide Consistent;
    forall p: Path, a: Flag | |p| == TOP + 1 ensures Way(w', p, a) == Way(w, p, a) {
      PutWay(w, w', q, 0, n, e, p, a);
    }
  }

  lemma {:induction false} WayAndLeaf(mem: Memory, t: seq<Pte>, level: nat, q: Path, a: Flag)
    requires level < |q| && Deepest(mem, t, level, q).level == 0
    ensures Grants(mem, t, level, q, a) ==
      (Leads(mem, t, level, q, a) && Deepest(mem, t, level, q).pte.IsPresent() &&
       a in Deepest(mem, t, level, q).pte.flags)
    decreases level
  {
    if level > 0 {
      WayAndLeaf(mem, Below(mem, t[q[level]]), level - 1, q, a);
    }
  }

  /** A page has exactly the rights that both the way to its leaf table and its leaf entry grant. */
  lemma RightIsWayAndLeaf(w: World, q: Path, a: Flag)
    requires |q| == TOP + 1 && Find(w, q).level == LEAF_LEVEL
    ensures Right(w, q, a) <==> Way(w, q, a) && View(w, q).Mapped? && a in View(w, q).flags
  {
    WayAndLeaf(w.mem, w.roots, TOP, q, a);
  }
}
