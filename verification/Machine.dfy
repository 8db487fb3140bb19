/** Physical memory together with its frame allocator, and the ownership moves of frame guards.
    A frame guard is a frame number counted in `held`. */
module Machine {
  import opened Mmu
  import opened PageTree
  import opened FrameAllocator
  import opened World

  /** Frame 0 is not tracked: the memory map has a region of its own for it, which is neither usable nor of
      the kernel. */
  ghost predicate Tracks(c: Counts, tracked: iset<nat>) {
    0 !in tracked && forall f: nat {:trigger f in tracked} {:trigger Tracked(c, f)} :: Tracked(c, f) <==> f in tracked
  }

  class Machine {
    const frames: FrameAllocator
    var mem: Memory
    var roots: seq<Pte>
    ghost var held: multiset<nat>
    /** The frames that the frame allocator counts references to; these are always the same. */
    ghost const tracked: iset<nat>

    ghost function W(): World
      reads this, frames
    {
      World(frames.counts, frames.freeCount, mem, roots, held)
    }

    ghost predicate Valid()
      reads this, frames
    {
      frames.Valid() && Consistent(W()) && Tracks(frames.counts, tracked)
    }

    /** A machine with page tables already in memory, no frame of which has too few references. */
    constructor (frames: FrameAllocator, mem: Memory, roots: seq<Pte>)
      requires frames.Valid() && |frames.info| <= |mem| && !Tracked(frames.counts, 0)
      requires ValidRoots(roots) && WellFormed(mem, roots, TOP) && Unshared(mem, roots, TOP)
      requires EnoughReferences(frames.counts, mem, roots)
      ensures Valid() && this.frames == frames && this.mem == mem && this.roots == roots
    {
      this.frames, this.mem, this.roots := frames, mem, roots;
      held := Surplus(frames.counts, mem, roots);
      tracked := iset f: nat | Tracked(frames.counts, f);
      new;
      SurplusBalances(frames.counts, mem, roots);
      assert Balanced(W()) by {
        forall f: nat | f < |W().counts| && W().counts[f].Some?
          ensures W().counts[f].value == Uses(W(), 0, f) + W().held[f] { }
      }
    }

    /** `FrameGuard::allocate()`: fails exactly when no frame is free. */
    method AllocateFrame() returns (r: Option<nat>)
      requires Valid()
      modifies this`held, frames
      ensures Valid()
      ensures r == None <==> old(W()).free == 0
      ensures r == None ==> W() == old(W())
      ensures r.Some? ==>
        && r.value < |old(W()).counts| && old(W()).counts[r.value] == Some(0)
        && W() == TakeFrame(old(W()), r.value)
    {
      hide Consistent, WellLinked;
      ghost var w := W();
      r := frames.Allocate();
      if r.Some? {
        held := held + multiset{r.value};
        TakeFrameKeeps(w, r.value);
      }
    }

    /** `FrameGuard::reference()`. */
    method ReferenceFrame(f: nat)
      requires Valid()
      requires Tracked(W().counts, f) ==> W().counts[f].value > 0
      modifies this`held, frames
      ensures Valid()
      ensures W() == old(W()).(counts := Acquire(old(W()).counts, f), held := old(W()).held + multiset{f})
    {
      hide Consistent, WellLinked;
      ghost var w := W();
      frames.Reference(f);
      held := held + multiset{f};
      AcquireKeeps(w, W(), f);
    }

    /** `FrameGuard::drop()`. */
    method DropGuard(f: nat)
      requires Valid()
      requires f in held
      modifies this`held, frames
      ensures Valid()
      ensures Dropped(old(W()), W(), Some(f))
      ensures old(W()).free <= W().free <= old(W()).free + 1
    {
      hide Consistent, WellLinked;
      ghost var w := W();
      NamedHasCount(w, f);
      frames.Deallocate(f);
      held := held - multiset{f};
      ReleaseKeeps(w, W(), f);
    }

    /** Drops the guard, if there is one. */
    method DropAny(f: Option<nat>)
      requires Valid()
      requires f.Some? ==> f.value in held
      modifies this`held, frames
      ensures Valid()
      ensures Dropped(old(W()), W(), f)
    {
      hide Consistent, WellLinked;
      if f.Some? {
        DropGuard(f.value);
      }
    }

    /** `Mapping::allocate_node()`. */
    method AllocateNode() returns (r: Option<nat>)
      requires Valid()
      modifies this`mem, this`held, frames
      ensures Valid()
      ensures r == None <==> old(W()).free == 0
      ensures r == None ==> W() == old(W())
      ensures r.Some? ==>
        && r.value < |old(W()).counts| <= |old(W()).mem| && old(W()).counts[r.value] == Some(0)
        && W() == TakeNode(old(W()), r.value)
    {
      ghost var w := W();
      assert |w.counts| <= |w.mem|;
      hide Consistent, WellLinked;
      r := AllocateFrame();
      if r.Some? {
        mem := mem[r.value := EMPTY_TABLE];
        TakeNodeKeeps(w, r.value);
      }
    }

    /** `FrameGuard::store()`. */
    method Store(ghost q: Path, l: nat, n: nat, i: nat, f: nat, flags: Flags)
      requires Valid() && At(W(), q, l, n) && i == q[l]
      requires !mem[n][i].Counted()
      requires f in held && Huge !in flags
      requires l > 0 ==> f < |mem| && mem[f] == EMPTY_TABLE && f != n && Uses(W(), 1, f) == 0
      modifies this`mem, this`held
      ensures Valid()
      ensures W() == PutGuard(old(W()), n, i, f, flags)
    {
      hide Consistent, WellLinked, Uses, At;
      PutGuardKeeps(W(), q, l, n, f, flags);
      mem := Write(mem, n, i, Pte.Of(f, flags));
      held := held - multiset{f};
    }

    /** `FrameGuard::load()` from a leaf. */
    method Load(ghost q: Path, n: nat, i: nat) returns (r: Option<nat>)
      requires Valid() && At(W(), q, 0, n) && i == q[0]
      modifies this`mem, this`held
      ensures Valid() && At(W(), q, 0, n)
      ensures r == LeafFrame(View(old(W()), q))
      ensures W() == TakeGuard(old(W()), n, i)
    {
      hide Consistent, WellLinked, Uses, At;
      TakeGuardKeeps(W(), q, n);
      var e := mem[n][i];
      if e.IsPresent() {
        r := Some(e.frame);
        mem := Write(mem, n, i, EMPTY);
        held := held + multiset{e.frame};
      } else {
        r := None;
      }
    }
  }

  // ---------------------------------------------------------------------------------------------
  // Starting up

  ghost predicate EnoughReferences(c: Counts, mem: Memory, roots: seq<Pte>) {
    forall f: nat {:trigger c[f]} :: f < |c| && c[f].Some? ==> Count(mem, roots, TOP, 0, f) <= c[f].value
  }

  /** The references that no entry accounts for. */
  ghost function Surplus(c: Counts, mem: Memory, roots: seq<Pte>): multiset<nat> {
    if |c| == 0 then multiset{}
    else
      var f := |c| - 1;
      var rest := Surplus(c[..f], mem, roots);
      if c[f].Some? && c[f].value >= Count(mem, roots, TOP, 0, f)
      then rest[f := c[f].value - Count(mem, roots, TOP, 0, f)] else rest
  }

  lemma {:induction false} SurplusBalances(c: Counts, mem: Memory, roots: seq<Pte>)
    requires EnoughReferences(c, mem, roots)
    ensures forall f: nat {:trigger c[f]} :: f < |c| && c[f].Some? ==>
              c[f].value == Count(mem, roots, TOP, 0, f) + Surplus(c, mem, roots)[f]
    ensures forall f :: f in Surplus(c, mem, roots) ==> f < |c|
  {
    if |c| > 0 {
      SurplusBalances(c[..|c| - 1], mem, roots);
    }
  }
}
