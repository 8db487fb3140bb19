/** The allocator of physical frames: per-frame metadata, reference counts and an intrusive
    list of free frames threaded through the metadata. */
module FrameAllocator {
  import opened Lists
  import opened Mmu

  datatype FrameInfo =
    | Absent
    | Free(nextFree: Option<nat>)
    | Used(referenceCount: nat)

  /** Reference counts as `reference_count()` reports them: `None` for an untracked frame. */
  type Counts = seq<Option<nat>>

  function CountOf(i: FrameInfo): Option<nat> {
    match i
    case Absent => None
    case Free(_) => Some(0)
    case Used(n) => Some(n)
  }

  predicate Tracked(c: Counts, f: nat) { f < |c| && c[f].Some? }

  /** The counts after one more reference to `f` is taken. */
  function Acquire(c: Counts, f: nat): (r: Counts)
    ensures |r| == |c|
  {
    if Tracked(c, f) then c[f := Some(c[f].value + 1)] else c
  }

  /** The counts after one reference to `f` is given up. */
  function Release(c: Counts, f: nat): (r: Counts)
    ensures |r| == |c|
  {
    if Tracked(c, f) && c[f].value > 0 then c[f := Some(c[f].value - 1)] else c
  }

  // ---------------------------------------------------------------------------------------------
  // The free list

  /** `chain` is what one visits by following the links from `head`. */
  ghost predicate Linked(info: seq<FrameInfo>, head: Option<nat>, chain: seq<nat>)
    decreases |chain|
  {
    if |chain| == 0 then head == None
    else
      && head == Some(chain[0])
      && chain[0] < |info|
      && info[chain[0]].Free?
      && Linked(info, info[chain[0]].nextFree, chain[1..])
  }

  /** The chain is acyclic, visits exactly the free frames, and used frames have references. */
  ghost predicate WellLinked(info: seq<FrameInfo>, head: Option<nat>, chain: seq<nat>) {
    && Linked(info, head, chain)
    && Distinct(chain)
    && (forall f :: 0 <= f < |info| && info[f].Free? ==> f in chain)
    && (forall f :: 0 <= f < |info| && info[f].Used? ==> info[f].referenceCount > 0)
  }

  lemma {:induction false} LinkedFree(info: seq<FrameInfo>, head: Option<nat>, chain: seq<nat>)
    requires Linked(info, head, chain)
    ensures forall f :: f in chain ==> f < |info| && info[f].Free?
    decreases |chain|
  {
    if |chain| > 0 {
      LinkedFree(info, info[chain[0]].nextFree, chain[1..]);
      forall f | f in chain ensures f < |info| && info[f].Free? {
        assert f == chain[0] || f in chain[1..];
      }
    }
  }

  /** Links off the chain do not matter. */
  lemma {:induction false} LinkedFrame(info: seq<FrameInfo>, info': seq<FrameInfo>, head: Option<nat>, chain: seq<nat>)
    requires Linked(info, head, chain)
    requires forall f :: f in chain && f < |info| ==> f < |info'| && info'[f] == info[f]
    ensures Linked(info', head, chain)
    decreases |chain|
  {
    if |chain| > 0 {
      assert chain[0] in chain;
      forall f | f in chain[1..] && f < |info| ensures f < |info'| && info'[f] == info[f] {
        assert f in chain;
      }
      LinkedFrame(info, info', info[chain[0]].nextFree, chain[1..]);
    }
  }

  lemma {:induction false} PushLinked(info: seq<FrameInfo>, head: Option<nat>, chain: seq<nat>, f: nat)
    requires WellLinked(info, head, chain)
    requires f < |info| && !info[f].Free?
    ensures WellLinked(info[f := Free(head)], Some(f), [f] + chain)
  {
    LinkedFree(info, head, chain);
    var info' := info[f := Free(head)];
    LinkedFrame(info, info', head, chain);
    assert ([f] + chain)[1..] == chain;
    forall g | 0 <= g < |info'| && info'[g].Free? ensures g in [f] + chain {
      if g != f { assert info[g].Free?; }
    }
  }

  lemma {:induction false} SetUsedLinked(info: seq<FrameInfo>, head: Option<nat>, chain: seq<nat>, f: nat, n: nat)
    requires WellLinked(info, head, chain)
    requires f < |info| && !info[f].Free? && n > 0
    ensures WellLinked(info[f := Used(n)], head, chain)
  {
    LinkedFree(info, head, chain);
    LinkedFrame(info, info[f := Used(n)], head, chain);
  }

  lemma {:induction false} PopLinked(info: seq<FrameInfo>, chain: seq<nat>, f: nat)
    requires WellLinked(info, Some(f), chain)
    ensures |chain| > 0 && chain[0] == f < |info| && info[f].Free?
    ensures WellLinked(info[f := Used(1)], info[f].nextFree, chain[1..])
  {
    var info' := info[f := Used(1)];
    forall g | g in chain[1..] ensures g != f && g in chain {
    }
    LinkedFrame(info, info', info[f].nextFree, chain[1..]);
    forall g | 0 <= g < |info'| && info'[g].Free? ensures g in chain[1..] {
      assert info[g].Free? && g in chain;
      assert chain == [chain[0]] + chain[1..];
    }
  }

  // ---------------------------------------------------------------------------------------------
  // Boot: the memory map

  datatype RegionKind = Usable | Kernel | Other

  datatype Region = Region(start: nat, end: nat, kind: RegionKind) {
    predicate Has(f: nat) { start <= f < end }
  }

  ghost predicate DisjointRegions(regions: seq<Region>) {
    forall i, j, f :: 0 <= i < j < |regions| && regions[i].Has(f) ==> !regions[j].Has(f)
  }

  /** What the memory map says about frame `f`: the first region that holds it decides. */
  ghost function Initial(regions: seq<Region>, f: nat): Option<nat> {
    if |regions| == 0 then None
    else if regions[0].Has(f) then
      match regions[0].kind
      case Usable => Some(0)
      case Kernel => Some(1)
      case Other => None
    else Initial(regions[1..], f)
  }

  class FrameAllocator {
    var info: seq<FrameInfo>
    var freeFrame: Option<nat>
    var freeCount: nat
    /** Set by an access for writing to metadata beyond the storage. */
    var accessBeyondInfo: bool
    ghost var chain: seq<nat>
    ghost var counts: Counts

    ghost predicate Valid()
      reads this
    {
      && WellLinked(info, freeFrame, chain)
      && freeCount == |chain| && !accessBeyondInfo
      && |counts| == |info|
      && (forall f: nat :: f < |info| ==> counts[f] == CountOf(info[f]))
    }

    constructor (storage: nat)
      ensures Valid()
      ensures info == seq(storage, _ => Absent)
    {
      info := seq(storage, _ => Absent);
      freeFrame, freeCount, accessBeyondInfo := None, 0, false;
      chain := [];
      counts := seq(storage, _ => None);
    }

    /** Hands out a free frame with one reference; fails exactly when no frame is free. */
    method Allocate() returns (r: Option<nat>)
      requires Valid()
      modifies this
      ensures Valid()
      ensures r == None <==> forall f :: 0 <= f < |old(info)| ==> !old(info)[f].Free?
      ensures r == None <==> old(freeCount) == 0
      ensures r == None ==> info == old(info) && freeCount == old(freeCount) && counts == old(counts)
      ensures r.Some? ==>
        && r.value < |old(info)| && old(info)[r.value].Free?
        && info == old(info)[r.value := Used(1)]
        && counts == old(counts)[r.value := Some(1)]
        && freeCount == old(freeCount) - 1
    {
      if freeCount == 0 || freeFrame.None? {
        forall f | 0 <= f < |info| ensures !info[f].Free? {
          assert f !in chain;
        }
        return None;
      }
      var f := freeFrame.value;
      PopLinked(info, chain, f);
      assert info[f].Free?;
      match info[f] {
        case Free(next) =>
          freeFrame := next;
          freeCount := freeCount - 1;
          info := info[f := Used(1)];
          chain := chain[1..];
          counts := counts[f := Some(1)];
          r := Some(f);
      }
    }

    /** Drops one reference; the frame becomes free when none is left. */
    method Deallocate(f: nat)
      requires Valid()
      requires f < |info| ==> !info[f].Free?
      modifies this
      ensures Valid()
      ensures |info| == |old(info)|
      ensures counts == Release(old(counts), f)
      ensures forall g :: 0 <= g < |info| && g != f ==> info[g] == old(info)[g]
      ensures freeCount == old(freeCount) + if Tracked(old(counts), f) && old(counts)[f].value == 1 then 1 else 0
    {
      if f >= |info| { return; }
      match info[f] {
        case Absent => return;
        case Used(n) =>
          if n - 1 == 0 {
            PushLinked(info, freeFrame, chain, f);
            info := info[f := Free(freeFrame)];
            freeFrame := Some(f);
            freeCount := freeCount + 1;
            chain := [f] + chain;
            counts := counts[f := Some(0)];
          } else {
            SetUsedLinked(info, freeFrame, chain, f, n - 1);
            info := info[f := Used(n - 1)];
            counts := counts[f := Some(n - 1)];
          }
      }
    }

    /** Adds one reference to a frame in use; untracked frames are not counted. */
    method Reference(f: nat)
      requires Valid()
      requires f < |info| ==> !info[f].Free?
      modifies this
      ensures Valid()
      ensures |info| == |old(info)|
      ensures counts == Acquire(old(counts), f)
      ensures freeCount == old(freeCount)
      ensures forall g :: 0 <= g < |info| && g != f ==> info[g] == old(info)[g]
    {
      if f >= |info| { return; }
      match info[f] {
        case Absent => return;
        case Used(n) =>
          SetUsedLinked(info, freeFrame, chain, f, n + 1);
          info := info[f := Used(n + 1)];
          counts := counts[f := Some(n + 1)];
      }
    }

    method AddFree(start: nat, end: nat)
      requires Valid() && start <= end <= |info|
      requires forall f :: start <= f < end ==> info[f] == Absent
      modifies this
      ensures Valid() && |info| == |old(info)|
      ensures forall f :: 0 <= f < |info| && !(start <= f < end) ==> info[f] == old(info)[f]
      ensures forall f :: start <= f < end ==> info[f].Free?
    {
      for i := start to end
        invariant Valid() && |info| == |old(info)|
        invariant forall f :: 0 <= f < |info| && !(start <= f < i) ==> info[f] == old(info)[f]
        invariant forall f :: start <= f < i ==> info[f].Free?
      {
        PushLinked(info, freeFrame, chain, i);
        hide WellLinked;
        chain := [i] + chain;
        counts := counts[i := Some(0)];
        info := info[i := Free(freeFrame)];
        freeFrame := Some(i);
        freeCount := freeCount + 1;
      }
    }

    method AddUsed(start: nat, end: nat)
      requires Valid() && start <= end <= |info|
      requires forall f :: start <= f < end ==> info[f] == Absent
      modifies this
      ensures Valid() && |info| == |old(info)|
      ensures forall f :: 0 <= f < |info| && !(start <= f < end) ==> info[f] == old(info)[f]
      ensures forall f :: start <= f < end ==> info[f] == Used(1)
    {
      for i := start to end
        invariant Valid() && |info| == |old(info)|
        invariant forall f :: 0 <= f < |info| && !(start <= f < i) ==> info[f] == old(info)[f]
        invariant forall f :: start <= f < i ==> info[f] == Used(1)
      {
        SetUsedLinked(info, freeFrame, chain, i, 1);
        hide WellLinked;
        info := info[i := Used(1)];
        counts := counts[i := Some(1)];
      }
    }

    method InitRegion(region: Region, lo: nat, hi: nat)
      requires Valid() && hi <= |info|
      requires forall f :: lo <= f < hi && region.Has(f) ==> info[f] == Absent
      modifies this
      ensures Valid() && |info| == |old(info)|
      ensures forall f :: 0 <= f < |info| && !(lo <= f < hi && region.Has(f)) ==> info[f] == old(info)[f]
      ensures forall f :: lo <= f < hi && region.Has(f) ==> CountOf(info[f]) == Initial([region], f)
    {
      hide WellLinked;
      var start := if region.start < lo then lo else region.start;
      var end := if region.end > hi then hi else region.end;
      if start >= end { return; }
      match region.kind {
        case Usable => AddFree(start, end);
        case Kernel => AddUsed(start, end);
        case Other =>
      }
    }

    /** Fills the metadata of frames `lo .. hi` from a memory map with disjoint regions. */
    method InitFrameInfo(regions: seq<Region>, lo: nat, hi: nat)
      requires Valid() && hi <= |info|
      requires DisjointRegions(regions)
      requires forall f :: lo <= f < hi ==> info[f] == Absent
      modifies this
      ensures Valid() && |info| == |old(info)|
      ensures forall f :: 0 <= f < |info| && !(lo <= f < hi) ==> info[f] == old(info)[f]
      ensures forall f :: lo <= f < hi ==> CountOf(info[f]) == Initial(regions, f)
    {
      for k := 0 to |regions|
        invariant Valid() && |info| == |old(info)|
        invariant forall f :: 0 <= f < |info| && !(lo <= f < hi) ==> info[f] == old(info)[f]
        invariant forall f :: lo <= f < hi ==> CountOf(info[f]) == Initial(regions[..k], f)
      {
        forall f | lo <= f < hi ensures Initial(regions[..k + 1], f) ==
          if regions[k].Has(f) then Initial([regions[k]], f) else Initial(regions[..k], f)
        {
          InitialSnoc(regions, k, f);
        }
        forall f | lo <= f < hi && regions[k].Has(f) ensures info[f] == Absent {
          InitialOutside(regions[..k], f);
        }
        InitRegion(regions[k], lo, hi);
      }
      assert regions[..|regions|] == regions;
    }

    /** Moves the metadata to longer storage and fills the rest from the memory map. The assertion that no metadata
        beyond the old storage was accessed holds, since nothing ever sets the flag. */
    method Resize(storage: nat, regions: seq<Region>)
      requires Valid()
      requires |info| <= storage
      requires DisjointRegions(regions)
      modifies this
      ensures Valid() && |info| == storage
      ensures info[..|old(info)|] == old(info)
      ensures forall f :: |old(info)| <= f < storage ==> CountOf(info[f]) == Initial(regions, f)
    {
      assert !accessBeyondInfo;
      var oldLen := |info|;
      LinkedFree(info, freeFrame, chain);
      var info' := info + seq(storage - oldLen, _ => Absent);
      LinkedFrame(info, info', freeFrame, chain);
      info := info';
      counts := counts + seq(storage - oldLen, _ => None);
      if storage > oldLen {
        InitFrameInfo(regions, oldLen, storage);
      }
    }
  }

  /** A reference to frame `f`, beyond the storage, is taken before `resize()` and dropped after it. The assertion of
      `resize()` is meant to rule this out and does not: if the memory map has the frame as free then dropping the
      reference panics, and if it has it as used then the count falls below what the memory map says. Nothing happens
      if and only if the frame is still untracked. */
  method GuardOverResize(a: FrameAllocator, f: nat, storage: nat, regions: seq<Region>) returns (panics: bool)
    requires a.Valid() && |a.info| <= f && |a.info| <= storage && DisjointRegions(regions)
    modifies a
    ensures a.Valid() && |a.counts| == storage
    ensures panics <==> f < storage && Initial(regions, f) == Some(0)
    ensures !panics && f < storage && Initial(regions, f).Some? ==> a.counts[f] == Some(Initial(regions, f).value - 1)
    ensures forall g: nat :: |old(a.info)| <= g < storage && g != f ==> a.counts[g] == Initial(regions, g)
  {
    a.Reference(f);
    a.Resize(storage, regions);
    panics := f < |a.info| && a.info[f].Free?;
    if !panics {
      a.Deallocate(f);
    }
  }

  lemma {:induction false} InitialOutside(regions: seq<Region>, f: nat)
    requires forall i :: 0 <= i < |regions| ==> !regions[i].Has(f)
    ensures Initial(regions, f) == None
  {
    if |regions| > 0 { InitialOutside(regions[1..], f); }
  }

  lemma {:induction false} InitialSnoc(regions: seq<Region>, k: nat, f: nat)
    requires k < |regions| && DisjointRegions(regions)
    ensures Initial(regions[..k + 1], f) ==
      if regions[k].Has(f) then Initial([regions[k]], f) else Initial(regions[..k], f)
    decreases k
  {
    var m := regions[..k + 1];
    if k == 0 {
      assert m == [regions[0]];
    } else {
      assert m[1..] == regions[1..][..k] && regions[..k][1..] == regions[1..][..k - 1];
      InitialSnoc(regions[1..], k - 1, f);
    }
  }

  // ---------------------------------------------------------------------------------------------

  /** The chain of a valid allocator is exactly the set of free frames, each once. */
  lemma ChainIsFreeSet(a: FrameAllocator, f: nat)
    requires a.Valid()
    ensures f in a.chain <==> f < |a.info| && a.info[f].Free?
    ensures f in a.chain <==> f < |a.counts| && a.counts[f] == Some(0)
    ensures a.freeCount == |Elements(a.chain)|
    ensures a.freeCount == 0 <==> a.freeFrame.None?
  {
    LinkedFree(a.info, a.freeFrame, a.chain);
    DistinctSize(a.chain);
  }
}
