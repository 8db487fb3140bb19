/** How many nodes a tree of page tables has. */
module NodeCount {
  import opened Mmu
  import opened PageTree
  import opened World

  /** The nodes below table `t` of level `level`, each as often as it is reached. */
  ghost function Nodes(mem: Memory, t: seq<Pte>, level: nat): nat
    decreases level, |t|
  {
    if |t| == 0 then 0 else Nodes(mem, t[..|t| - 1], level) + NodesAt(mem, t[|t| - 1], level)
  }

  ghost function NodesAt(mem: Memory, e: Pte, level: nat): nat
    decreases level, 0
  {
    if level == 0 || !e.Counted() then 0 else 1 + Nodes(mem, Below(mem, e), level - 1)
  }

  lemma {:induction false} NodesFrame(mem: Memory, mem': Memory, t: seq<Pte>, level: nat)
    requires SameNodes(mem, mem', t, level)
    ensures Nodes(mem', t, level) == Nodes(mem, t, level)
    decreases level, |t|, 1
  {
    if |t| > 0 {
      var n := |t| - 1;
      forall x: nat | x < |mem| && mem'[x] != mem[x]
        ensures Count(mem, t[..n], level, 1, x) == 0 && CountAt(mem, t[n], level, 1, x) == 0
      {
        assert Count(mem, t, level, 1, x) == 0;
      }
      NodesFrame(mem, mem', t[..n], level);
      NodesFrameAt(mem, mem', t[n], level);
    }
  }

  lemma {:induction false} NodesFrameAt(mem: Memory, mem': Memory, e: Pte, level: nat)
    requires SameNodesAt(mem, mem', e, level)
    ensures NodesAt(mem', e, level) == NodesAt(mem, e, level)
    decreases level, 0, 0
  {
    if level > 0 && e.Counted() {
      assert CountAt(mem, e, level, 1, e.frame) > 0;
      assert Below(mem', e) == Below(mem, e);
      forall x: nat | x < |mem| && mem'[x] != mem[x] ensures Count(mem, Below(mem, e), level - 1, 1, x) == 0 {
        assert CountAt(mem, e, level, 1, x) == 0;
      }
      NodesFrame(mem, mem', Below(mem, e), level - 1);
    }
  }

  lemma {:induction false} NodesPrefix(mem: Memory, t: seq<Pte>, level: nat, i: nat)
    requires i <= |t|
    ensures Nodes(mem, t[..i], level) <= Nodes(mem, t, level)
    decreases |t|
  {
    if i < |t| {
      NodesPrefix(mem, t[..|t| - 1], level, i);
      assert t[..|t| - 1][..i] == t[..i];
    } else {
      assert t[..i] == t;
    }
  }

  lemma NodesNext(mem: Memory, t: seq<Pte>, level: nat, i: nat)
    requires i < |t|
    ensures Nodes(mem, t[..i + 1], level) == Nodes(mem, t[..i], level) + NodesAt(mem, t[i], level)
  {
    assert t[..i + 1][..i] == t[..i];
  }

  // ---------------------------------------------------------------------------------------------
  // In an unshared tree these are as many as there are frames used as nodes

  /** The frames that are nodes below the table. */
  ghost function NodeFrames(mem: Memory, t: seq<Pte>, level: nat): (r: set<nat>)
    ensures forall f: nat :: f in r <==> f < |mem| && Count(mem, t, level, 1, f) > 0
  {
    set f: nat | f < |mem| && Count(mem, t, level, 1, f) > 0
  }

  ghost function NodeFramesAt(mem: Memory, e: Pte, level: nat): (r: set<nat>)
    ensures forall f: nat :: f in r <==> f < |mem| && CountAt(mem, e, level, 1, f) > 0
  {
    set f: nat | f < |mem| && CountAt(mem, e, level, 1, f) > 0
  }

  lemma {:induction false} NodesAreFrames(mem: Memory, t: seq<Pte>, level: nat)
    requires WellFormed(mem, t, level) && Unshared(mem, t, level)
    ensures Nodes(mem, t, level) == |NodeFrames(mem, t, level)|
    decreases level, |t|, 1
  {
    if |t| == 0 {
      assert NodeFrames(mem, t, level) == {};
    } else {
      var n := |t| - 1;
      forall f: nat
        ensures Count(mem, t[..n], level, 1, f) <= 1 && CountAt(mem, t[n], level, 1, f) <= 1
        ensures !(Count(mem, t[..n], level, 1, f) > 0 && CountAt(mem, t[n], level, 1, f) > 0)
      {
        assert Count(mem, t, level, 1, f) <= 1;
      }
      assert EntryFormed(mem, t[n], level);
      NodesAreFrames(mem, t[..n], level);
      NodesAreFramesAt(mem, t[n], level);
      var a, b := NodeFrames(mem, t[..n], level), NodeFramesAt(mem, t[n], level);
      assert a !! b && NodeFrames(mem, t, level) == a + b;
    }
  }

  lemma {:induction false} NodesAreFramesAt(mem: Memory, e: Pte, level: nat)
    requires EntryFormed(mem, e, level) && forall f: nat :: CountAt(mem, e, level, 1, f) <= 1
    ensures NodesAt(mem, e, level) == |NodeFramesAt(mem, e, level)|
    decreases level, 0, 0
  {
    if level == 0 || !e.Counted() {
      assert NodeFramesAt(mem, e, level) == {};
    } else {
      var c, down := mem[e.frame], level - 1;
      forall f: nat ensures Count(mem, c, down, 1, f) <= 1 {
        assert CountAt(mem, e, level, 1, f) <= 1;
      }
      assert CountAt(mem, e, level, 1, e.frame) <= 1;
      NodesAreFrames(mem, c, down);
      var below := NodeFrames(mem, c, down);
      assert e.frame !in below && NodeFramesAt(mem, e, level) == below + {e.frame};
    }
  }

  /** The nodes of space `s` are as many as the frames that it uses as nodes. */
  lemma SpaceNodes(w: World, s: nat)
    requires Consistent(w) && s < |w.roots|
    ensures NodesAt(w.mem, w.roots[s], TOP) == |NodeFramesAt(w.mem, w.roots[s], TOP)|
  {
    assert EntryFormed(w.mem, w.roots[s], TOP);
    forall f: nat ensures CountAt(w.mem, w.roots[s], TOP, 1, f) <= 1 {
      CountPart(w.mem, w.roots, s, TOP, 1, f);
      assert Count(w.mem, w.roots, TOP, 1, f) <= 1;
    }
    NodesAreFramesAt(w.mem, w.roots[s], TOP);
  }
}
