/** A size class under concurrent use: threads allocate and free through its clip, taking the clip's lock and
    the allocator's lock in turn. Each critical section is one step; a schedule interleaves them at will. */
module Cache {
  import opened Lists
  import opened Mmu
  import opened Fallback
  import opened Quarry
  import opened FixedSize

  /** Where a thread is between two critical sections of `fixed_size_allocate()` or
      `fixed_size_deallocate()`. */
  datatype Phase =
    | Idle
    | Wanting             // found the clip empty, waits for the allocator
    | Holding             // holds the allocator, which has been stocked up
    | Returning(ptr: nat)     // is to put a block into the clip
    | Overflowing(ptr: nat)   // found the clip full, waits for the allocator
    | Unfilling(ptr: nat)     // holds the allocator
  {
    predicate HasBlock() { Returning? || Overflowing? || Unfilling? }
    predicate HasLock() { Holding? || Unfilling? }
  }

  /** What an idle thread does next. */
  datatype Call = Allocate | Free(ptr: nat)

  datatype Turn = Turn(thread: nat, call: Call)

  datatype Event =
    | Given(ptr: nat)
    | Returned(ptr: nat)
    | Refused             // null, with the slabs exhausted
    | OutOfMemory         // null, with no pages to stock up from

  // ---------------------------------------------------------------------------------------------
  // The allocator without a cache, as seen from outside

  function After(out: set<nat>, e: Event): set<nat> {
    match e
    case Given(p) => out + {p}
    case Returned(p) => out - {p}
    case _ => out
  }

  /** Blocks given and not returned. */
  function Outstanding(trace: seq<Event>): set<nat> {
    if trace == [] then {} else After(Outstanding(trace[..|trace| - 1]), trace[|trace| - 1])
  }

  /** A block is given only when it is not out, returned only when it is, and refused only when all are out. */
  predicate Allowed(out: set<nat>, e: Event, capacity: nat) {
    match e
    case Given(p) => p !in out
    case Returned(p) => p in out
    case Refused => |out| == capacity
    case OutOfMemory => true
  }

  predicate Legal(trace: seq<Event>, capacity: nat) {
    trace == [] ||
    (Legal(trace[..|trace| - 1], capacity) && Allowed(Outstanding(trace[..|trace| - 1]), trace[|trace| - 1], capacity))
  }

  lemma Extend(trace: seq<Event>, e: Event, capacity: nat)
    requires Legal(trace, capacity) && Allowed(Outstanding(trace), e, capacity)
    ensures Legal(trace + [e], capacity) && Outstanding(trace + [e]) == After(Outstanding(trace), e)
  {
    assert (trace + [e])[..|trace|] == trace;
  }

  // ---------------------------------------------------------------------------------------------
  // Where the blocks that are out are

  ghost function InHand(phases: seq<Phase>): set<nat> {
    set t | 0 <= t < |phases| && phases[t].HasBlock() :: phases[t].ptr
  }

  /** The blocks out are those the callers hold and those in the hands of running calls, each in one place. */
  ghost predicate Accounted(out: set<nat>, held: set<nat>, phases: seq<Phase>) {
    && out == held + InHand(phases)
    && (forall t :: 0 <= t < |phases| && phases[t].HasBlock() ==> phases[t].ptr !in held)
    && (forall t, u :: 0 <= t < u < |phases| && phases[t].HasBlock() && phases[u].HasBlock() ==>
          phases[t].ptr != phases[u].ptr)
  }

  ghost function Hand(ph: Phase): set<nat> { if ph.HasBlock() then {ph.ptr} else {} }

  /** Thread `t` moves on. */
  lemma Moves(out: set<nat>, held: set<nat>, phases: seq<Phase>, t: nat, ph: Phase, out': set<nat>, held': set<nat>)
    requires Accounted(out, held, phases) && t < |phases|
    requires held' + Hand(ph) !! (out - held - Hand(phases[t])) && held' !! Hand(ph)
    requires out' == (out - held - Hand(phases[t])) + held' + Hand(ph)
    ensures Accounted(out', held', phases[t := ph])
  {
    var after := phases[t := ph];
    var rest := out - held - Hand(phases[t]);
    forall u | 0 <= u < |phases| && u != t && phases[u].HasBlock() ensures phases[u].ptr in rest {
      assert phases[u].ptr in InHand(phases);
      assert phases[t].HasBlock() ==> phases[u].ptr != phases[t].ptr;
    }
    forall p ensures p in InHand(after) <==> p in rest + Hand(ph) {
      if p in rest {
        assert p in InHand(phases);
        var u :| 0 <= u < |phases| && phases[u].HasBlock() && phases[u].ptr == p;
        assert u != t && after[u] == phases[u];
      }
      if p in Hand(ph) {
        assert after[t].ptr == p;
      }
      if p in InHand(after) {
        var u :| 0 <= u < |after| && after[u].HasBlock() && after[u].ptr == p;
        assert u != t ==> phases[u].ptr in rest;
      }
    }
  }

  /** A thread changes its phase, keeping in hand what it has. */
  lemma MovesOn(out: set<nat>, held: set<nat>, phases: seq<Phase>, t: nat, ph: Phase)
    requires Accounted(out, held, phases) && t < |phases| && Hand(ph) == Hand(phases[t])
    ensures Accounted(out, held, phases[t := ph])
  {
    HandInHand(out, held, phases, t);
    Moves(out, held, phases, t, ph, out, held);
  }

  /** A thread gives a block that was not out to its caller. */
  lemma MovesGive(out: set<nat>, held: set<nat>, phases: seq<Phase>, t: nat, p: nat)
    requires Accounted(out, held, phases) && t < |phases| && !phases[t].HasBlock() && p !in out
    ensures Accounted(out + {p}, held + {p}, phases[t := Idle])
  {
    Moves(out, held, phases, t, Idle, out + {p}, held + {p});
  }

  /** A caller starts to free a block. */
  lemma MovesStart(out: set<nat>, held: set<nat>, phases: seq<Phase>, t: nat, p: nat)
    requires Accounted(out, held, phases) && t < |phases| && !phases[t].HasBlock() && p in held
    ensures Accounted(out, held - {p}, phases[t := Returning(p)])
  {
    Moves(out, held, phases, t, Returning(p), out, held - {p});
  }

  /** A thread has put away the block in its hand. */
  lemma MovesReturn(out: set<nat>, held: set<nat>, phases: seq<Phase>, t: nat)
    requires Accounted(out, held, phases) && t < |phases| && phases[t].HasBlock()
    ensures phases[t].ptr in out && Accounted(out - {phases[t].ptr}, held, phases[t := Idle])
  {
    HandInHand(out, held, phases, t);
    Moves(out, held, phases, t, Idle, out - {phases[t].ptr}, held);
  }

  lemma AccountedApart(out: set<nat>, held: set<nat>, phases: seq<Phase>)
    requires Accounted(out, held, phases)
    ensures out == held + InHand(phases) && held !! InHand(phases)
  {
  }

  lemma HandInHand(out: set<nat>, held: set<nat>, phases: seq<Phase>, t: nat)
    requires Accounted(out, held, phases) && t < |phases|
    ensures Hand(phases[t]) <= out && Hand(phases[t]) !! held
  {
    assert phases[t].HasBlock() ==> phases[t].ptr in InHand(phases);
  }

  // ---------------------------------------------------------------------------------------------
  // What a critical section does

  /** All that the sections of one size class work on; of its bitmap the number of free blocks. */
  datatype View = View(phases: seq<Phase>, lock: Option<nat>, held: set<nat>, trace: seq<Event>, failed: bool,
                       clip: seq<nat>, free: nat, refusals: nat)
  {
    function To(t: nat, ph: Phase): View
      requires t < |phases|
    {
      this.(phases := phases[t := ph])
    }

    function Say(e: Event): View { this.(trace := trace + [e]) }
  }

  function Front(clip: seq<nat>): seq<nat> { if clip == [] then [] else clip[..|clip| - 1] }

  /** An idle thread turns to a call: a block in the clip is given at once, and one that is held is taken back. */
  ghost predicate Called(x: View, t: nat, call: Call, y: View)
    requires t < |x.phases|
  {
    match call
    case Allocate =>
      if x.clip == [] then y == x.To(t, Wanting)
      else
        var p := x.clip[|x.clip| - 1];
        y == x.Say(Given(p)).(clip := Front(x.clip), held := x.held + {p})
    case Free(p) => y == if p in x.held then x.To(t, Returning(p)).(held := x.held - {p}) else x
  }

  lemma GivenLast(x: View, y: View, t: nat, p: nat)
    requires t < |x.phases| && x.clip != [] && p == x.clip[|x.clip| - 1]
    requires y == x.Say(Given(p)).(clip := Front(x.clip), held := x.held + {p})
    ensures Called(x, t, Allocate, y)
  {
  }

  /** A thread that found the clip empty stocks up under the lock, and fails only for want of pages. */
  ghost predicate Supplied(x: View, t: nat, y: View)
    requires t < |x.phases|
  {
    if x.lock.Some? then y == x
    else if y.failed then x.free == 0 && y.refusals > x.refusals && y.trace == x.trace + [OutOfMemory]
    else
      && y == x.To(t, Holding).(lock := Some(t), free := y.free)
      && if x.free > 0 then y.free == x.free else y.free <= CLIP_SIZE
  }

  /** The clip is filled to one half and its last block is given, and null only if there is none at all. */
  ghost predicate Filling(x: View, t: nat, y: View)
    requires t < |x.phases|
  {
    var n := Filled(|x.clip|, CLIP_SIZE / 2, x.free);
    var z := x.To(t, Idle).(lock := None);
    if n == 0 then y == z.Say(Refused)
    else
      && |y.clip| == n - 1
      && (exists p :: y == z.Say(Given(p)).(clip := y.clip, free := y.free, held := x.held + {p}) &&
                      x.clip <= y.clip + [p])
      && y.free == x.free + |x.clip| - n
  }

  /** The block goes into the clip, if there is room. */
  ghost predicate Pushed(x: View, t: nat, p: nat, y: View)
    requires t < |x.phases|
  {
    y == if |x.clip| < CLIP_SIZE then x.To(t, Idle).Say(Returned(p)).(clip := x.clip + [p]) else x.To(t, Overflowing(p))
  }

  /** Half of the clip is freed, and the block goes into it. */
  ghost predicate Unfilled(x: View, t: nat, p: nat, y: View)
    requires t < |x.phases|
  {
    var half := CLIP_SIZE / 2;
    var left := if half < |x.clip| then x.clip[..half] else x.clip;
    y == x.To(t, Idle).Say(Returned(p)).(lock := None, clip := left + [p], free := x.free + |x.clip| - |left|)
  }

  /** The next critical section of a thread. */
  ghost predicate Section(x: View, turn: Turn, y: View) {
    if x.failed || turn.thread >= |x.phases| then y == x
    else
      match x.phases[turn.thread]
      case Idle => Called(x, turn.thread, turn.call, y)
      case Wanting => Supplied(x, turn.thread, y)
      case Holding => Filling(x, turn.thread, y)
      case Returning(p) => Pushed(x, turn.thread, p, y)
      case Overflowing(p) =>
        y == if x.lock.Some? then x else x.To(turn.thread, Unfilling(p)).(lock := Some(turn.thread))
      case Unfilling(p) => Unfilled(x, turn.thread, p, y)
  }

  /** A section that is short of pages ends the run; every other one leaves the page allocator's count of refusals
      as it was and does not answer so. */
  lemma SectionFails(x: View, turn: Turn, y: View)
    requires Section(x, turn, y)
    ensures x.failed ==> y == x
    ensures !x.failed && y.failed ==> y.refusals > x.refusals && y.trace == x.trace + [OutOfMemory]
    ensures !x.failed && !y.failed ==> y.refusals == x.refusals && (OutOfMemory in y.trace ==> OutOfMemory in x.trace)
  {
  }

  // ---------------------------------------------------------------------------------------------

  /** Threads at work on one size class. */
  class Threads {
    const c: SizeClass
    const f: Fallback
    var phases: seq<Phase>
    var lock: Option<nat>
    var held: set<nat>
    var trace: seq<Event>
    /** The pages ran out while stocking up; what the size class is then like is not modelled. */
    var failed: bool

    ghost predicate Locked()
      reads this
    {
      && (forall t :: 0 <= t < |phases| && phases[t].HasLock() ==> lock.Some? && lock.value == t)
      && (lock.Some? ==> lock.value < |phases| && phases[lock.value].HasLock())
    }

    /** Every block taken from the bitmap is in the clip, or with a caller, or in the hand of a running call,
        and in one of these places only. */
    ghost predicate Sound()
      reads this, c, c.dynamic, c.bitmap, c.quarry, f, f.pages
    {
      && f.Valid() && c.Valid(f.space) && Locked()
      && Accounted(c.Out(), held, phases) && Outstanding(trace) == c.Out()
      && (lock.Some? && phases[lock.value].Holding? ==> c.bitmap.free > 0 || c.bitmap.len == c.Capacity())
    }

    ghost predicate Valid()
      reads this, c, c.dynamic, c.bitmap, c.quarry, f, f.pages
    {
      BlockSize(c.size) && Legal(trace, c.Capacity()) && (!failed ==> Sound())
    }

    constructor (c: SizeClass, f: Fallback, threads: nat)
      requires f.Valid() && c.Valid(f.space) && c.Out() == {}
      ensures this.c == c && this.f == f && Valid() && !failed && trace == [] && |phases| == threads
      ensures AtRest(phases)
    {
      this.c, this.f := c, f;
      phases := seq(threads, _ => Idle);
      lock, held, trace, failed := None, {}, [], false;
    }

    ghost function Look(): View
      reads this, c, c.bitmap, f
    {
      View(phases, lock, held, trace, failed, c.clip, c.bitmap.free, f.refusals)
    }

    /** The next critical section of thread `turn.thread`. */
    method Step(turn: Turn)
      requires Valid()
      modifies this, c, c.dynamic, c.bitmap, c.quarry, f, f.pages
      ensures Valid() && |phases| == |old(phases)| && Section(old(Look()), turn, Look())
    {
      hide Valid, Filling, Pushed, Unfilled;
      if failed || turn.thread >= |phases| {
        return;
      }
      var t := turn.thread;
      match phases[t]
      case Idle =>
        if turn.call.Allocate? {
          TryPop(t);
        } else if turn.call.ptr in held {
          StartFree(t, turn.call.ptr);
        }
      case Wanting =>
        if lock == None {
          LockAndStock(t);
        }
      case Holding => FillAndPop(t);
      case Returning(p) => TryPush(t, p);
      case Overflowing(p) =>
        if lock == None {
          LockToUnfill(t, p);
        }
      case Unfilling(p) => UnfillAndPush(t, p);
    }

    method TryPop(t: nat)
      requires Valid() && !failed && t < |phases| && phases[t].Idle?
      modifies this, c`clip
      ensures Valid() && |phases| == |old(phases)| && Called(old(Look()), t, Allocate, Look())
    {
      hide Accounted, Outstanding, Legal, c.Valid, c.Out, f.Valid, PerSlab, BlockSize, c.Capacity;
      var given := PopGive(t);
      if !given {
        MovesOn(c.Out(), held, phases, t, Wanting);
        phases := phases[t := Wanting];
      }
    }

    /** Gives the caller a block from the clip, if there is one. */
    method PopGive(t: nat) returns (given: bool)
      requires Valid() && !failed && t < |phases| && phases[t].Idle?
      modifies this`held, this`trace, c`clip
      ensures Valid() && given == (old(c.clip) != [])
      ensures given ==> Called(old(Look()), t, Allocate, Look())
      ensures !given ==> Look() == old(Look())
    {
      hide Accounted, Outstanding, Legal, c.Valid, c.Out, f.Valid, PerSlab, BlockSize, c.Capacity, Called;
      ghost var out := c.Out();
      var r := c.PopClip(f.space);
      if r.None? {
        return false;
      }
      Extend(trace, Given(r.value), c.Capacity());
      MovesGive(out, held, phases, t, r.value);
      assert phases[t := Idle] == phases;
      ghost var x := Look().(clip := old(c.clip));
      held, trace := held + {r.value}, trace + [Given(r.value)];
      given := true;
      GivenLast(x, Look(), t, r.value);
    }

    method StartFree(t: nat, p: nat)
      requires Valid() && !failed && t < |phases| && phases[t].Idle? && p in held
      modifies this
      ensures Valid() && |phases| == |old(phases)| && Called(old(Look()), t, Free(p), Look())
    {
      hide Accounted, Outstanding, Legal, c.Valid, c.Out, f.Valid, PerSlab, BlockSize, c.Capacity;
      MovesStart(c.Out(), held, phases, t, p);
      held := held - {p};
      phases := phases[t := Returning(p)];
    }

    /** Takes the allocator and stocks it up if it has no free block. */
    method LockAndStock(t: nat)
      requires Valid() && !failed && t < |phases| && phases[t].Wanting? && lock == None
      modifies this, c, c.dynamic, c.bitmap, c.quarry, f, f.pages
      ensures Valid() && |phases| == |old(phases)| && Supplied(old(Look()), t, Look())
    {
      hide Accounted, Outstanding, Legal, c.Valid, c.Stocked, c.Taken, Others, f.Valid, PerSlab, Footprint;
      MovesOn(c.Out(), held, phases, t, Holding);
      c.LenBound(f.space);
      if c.bitmap.free == 0 {
        var r := c.StockUp(f);
        if r.Err? {
          Extend(trace, OutOfMemory, c.Capacity());
          trace := trace + [OutOfMemory];
          failed := true;
          return;
        }
      }
      lock := Some(t);
      phases := phases[t := Holding];
    }

    /** Fills the clip to one half and takes a block from it. There is one, unless all blocks are out. */
    method FillAndPop(t: nat)
      requires Valid() && !failed && t < |phases| && phases[t].Holding?
      modifies this, c`clip, c.bitmap
      ensures Valid() && |phases| == |old(phases)| && Filling(old(Look()), t, Look())
    {
      hide Accounted, Outstanding, Legal, c.Valid, c.Out, f.Valid, PerSlab, BlockSize;
      MovesOn(c.Out(), held, phases, t, Idle);
      phases, lock := phases[t := Idle], None;
      assert c.bitmap.free > 0 || c.bitmap.len == c.Capacity();
      c.FillClip(CLIP_SIZE / 2, f.space);
      assert Valid();
      var given := PopGive(t);
      if !given {
        c.AllOut(f.space);
        Extend(trace, Refused, c.Capacity());
        trace := trace + [Refused];
      }
    }

    method TryPush(t: nat, p: nat)
      requires Valid() && !failed && t < |phases| && phases[t] == Returning(p)
      modifies this, c`clip
      ensures Valid() && |phases| == |old(phases)| && Pushed(old(Look()), t, p, Look())
    {
      hide Accounted, Outstanding, Legal, c.Valid, c.Out, f.Valid, PerSlab, BlockSize, c.Capacity;
      ghost var out := c.Out();
      MovesReturn(out, held, phases, t);
      if |c.clip| < CLIP_SIZE {
        Extend(trace, Returned(p), c.Capacity());
        c.PushClip(p, f.space);
        trace := trace + [Returned(p)];
        phases := phases[t := Idle];
      } else {
        MovesOn(out, held, phases, t, Overflowing(p));
        phases := phases[t := Overflowing(p)];
      }
    }

    method LockToUnfill(t: nat, p: nat)
      requires Valid() && !failed && t < |phases| && phases[t] == Overflowing(p) && lock == None
      modifies this
      ensures Valid() && |phases| == |old(phases)| && Look() == old(Look()).To(t, Unfilling(p)).(lock := Some(t))
    {
      hide Accounted, Outstanding, Legal, c.Valid, c.Out, f.Valid, PerSlab, BlockSize, c.Capacity;
      MovesOn(c.Out(), held, phases, t, Unfilling(p));
      phases, lock := phases[t := Unfilling(p)], Some(t);
    }

    /** Frees half of the clip, after which there is room in it. */
    method UnfillAndPush(t: nat, p: nat)
      requires Valid() && !failed && t < |phases| && phases[t] == Unfilling(p)
      modifies this, c`clip, c.bitmap
      ensures Valid() && |phases| == |old(phases)| && Unfilled(old(Look()), t, p, Look())
    {
      hide Accounted, Outstanding, Legal, c.Valid, c.Out, f.Valid, PerSlab, BlockSize, c.Capacity;
      MovesOn(c.Out(), held, phases, t, Returning(p));
      phases, lock := phases[t := Returning(p)], None;
      c.UnfillClip(CLIP_SIZE / 2, f.space);
      TryPush(t, p);
      assert old(phases)[t := Returning(p)][t := Idle] == old(phases)[t := Idle];
    }
  }

  /** From each view to the next one a turn was taken. */
  ghost predicate Played(views: seq<View>, turns: seq<Turn>)
    ensures Played(views, turns) ==> 0 < |views| <= |turns| + 1
  {
    && 0 < |views| <= |turns| + 1
    && forall n :: 0 <= n < |views| - 1 ==> Section(views[n], turns[n], views[n + 1])
  }

  lemma PlayedNone(x: View, turns: seq<Turn>)
    ensures Played([x], turns)
  {
  }

  lemma PlayedMore(views: seq<View>, turns: seq<Turn>, y: View)
    requires Played(views, turns) && |views| <= |turns| && Section(views[|views| - 1], turns[|views| - 1], y)
    ensures Played(views + [y], turns)
  {
    hide Section;
  }

  ghost predicate Partition(all: set<nat>, a: set<nat>, b: set<nat>, d: set<nat>) {
    all == a + b + d && a !! b && a !! d && b !! d
  }

  /** Any interleaving: what is handed out, taken back and refused is what an allocator without a cache
      could have done, and at the end every block is in exactly one place. */
  method Run(c: SizeClass, f: Fallback, threads: nat, turns: seq<Turn>)
    returns (trace: seq<Event>, held: set<nat>, phases: seq<Phase>, failed: bool, ghost views: seq<View>)
    requires f.Valid() && c.Valid(f.space) && c.Out() == {}
    modifies c, c.dynamic, c.bitmap, c.quarry, f, f.pages
    ensures BlockSize(c.size) && Legal(trace, c.Capacity())
    ensures !failed ==> f.Valid() && c.Valid(f.space) && |c.clip| <= CLIP_SIZE
    ensures !failed ==> Outstanding(trace) == held + InHand(phases)
    ensures !failed ==> Partition(c.Taken(), Elements(c.clip), held, InHand(phases))
    ensures failed <==> OutOfMemory in trace
    ensures if failed then f.refusals > old(f.refusals) else f.refusals == old(f.refusals)
    // Each turn is one section, from the first view to the last.
    ensures Played(views, turns) && |views| == |turns| + 1
    ensures |views[0].phases| == threads && AtRest(views[0].phases) && views[0].trace == []
    ensures views[|turns|].trace == trace && views[|turns|].held == held && views[|turns|].phases == phases
  {
    var system := new Threads(c, f, threads);
    hide system.Valid, c.Valid, f.Valid, c.Out, c.Taken, Outstanding, Legal, Partition, PerSlab, Played, AtRest;
    views := Drive(system, turns);
    Conclude(system);
    trace, held, phases, failed := system.trace, system.held, system.phases, system.failed;
  }

  predicate AtRest(phases: seq<Phase>) { forall t :: 0 <= t < |phases| ==> phases[t].Idle? }

  method Drive(x: Threads, turns: seq<Turn>) returns (ghost views: seq<View>)
    requires x.Valid() && !x.failed && x.trace == []
    modifies x, x.c, x.c.dynamic, x.c.bitmap, x.c.quarry, x.f, x.f.pages
    ensures x.Valid() && (x.failed <==> OutOfMemory in x.trace)
    ensures if x.failed then x.f.refusals > old(x.f.refusals) else x.f.refusals == old(x.f.refusals)
    ensures Played(views, turns) && |views| == |turns| + 1 && views[0] == old(x.Look()) && views[|turns|] == x.Look()
  {
    hide x.Valid, Section, Played;
    views := [x.Look()];
    PlayedNone(x.Look(), turns);
    for n := 0 to |turns|
      invariant x.Valid() && (x.failed <==> OutOfMemory in x.trace)
      invariant if x.failed then x.f.refusals > old(x.f.refusals) else x.f.refusals == old(x.f.refusals)
      invariant |views| == n + 1 && Played(views, turns) && views[0] == old(x.Look()) && views[n] == x.Look()
    {
      x.Step(turns[n]);
      SectionFails(views[n], turns[n], x.Look());
      PlayedMore(views, turns, x.Look());
      views := views + [x.Look()];
    }
  }

  /** The answer to a call, when the sections of one thread come one after another. */
  ghost predicate Answer(call: Call, before: seq<Event>, after: seq<Event>, clip: seq<nat>) {
    match call
    case Allocate =>
      && |after| == |before| + 1 && before <= after
      && (clip != [] ==> after[|before|] == Given(clip[|clip| - 1]))
      && (after[|before|].Given? || after[|before|].Refused?)
    case Free(p) => after == before + [Returned(p)]
  }

  /** How far a call has come after `turns` turns of thread `t` alone. */
  ghost predicate OnTheWay(x: View, t: nat, call: Call, turns: nat, y: View)
    requires t < |x.phases|
  {
    if y.failed then call.Allocate? && y.refusals > x.refusals
    else
      && |y.phases| == |x.phases| && y.phases == x.phases[t := y.phases[t]] && y.refusals == x.refusals
      && (match y.phases[t]
          case Idle => Answer(call, x.trace, y.trace, x.clip) && y.lock == None
          case Wanting => turns == 1 && call.Allocate? && x.clip == [] && y.trace == x.trace && y.lock == None
          case Holding => turns == 2 && call.Allocate? && x.clip == [] && y.trace == x.trace
          case Returning(p) => turns == 1 && call == Free(p) && y.trace == x.trace && y.lock == None
          case Overflowing(p) => turns == 2 && call == Free(p) && y.trace == x.trace && y.lock == None
          case Unfilling(p) => turns == 3 && call == Free(p) && y.trace == x.trace)
  }

  lemma SetsOut(x: View, t: nat, call: Call, y: View)
    requires t < |x.phases| && !x.failed && x.phases[t].Idle? && x.lock == None && (call.Free? ==> call.ptr in x.held)
    requires Section(x, Turn(t, call), y)
    ensures OnTheWay(x, t, call, 1, y)
  {
    assert x.phases[t := x.phases[t]] == x.phases;
  }

  lemma GoesOn(x: View, t: nat, call: Call, turns: nat, y: View, z: View)
    requires t < |x.phases| && OnTheWay(x, t, call, turns, y) && !y.failed && !y.phases[t].Idle?
    requires Section(y, Turn(t, call), z)
    ensures OnTheWay(x, t, call, turns + 1, z) && turns < 4
  {
    if !z.failed {
      assert x.phases[t := y.phases[t]][t := z.phases[t]] == x.phases[t := z.phases[t]];
    }
  }

  /** An undisturbed call is answered within four turns: a block, or null with all blocks out, or null for want of
      pages; and a block that is held is always taken back. */
  method Alone(x: Threads, t: nat, call: Call) returns (turns: nat)
    requires x.Valid() && !x.failed && t < |x.phases| && x.phases[t].Idle? && x.lock == None
    requires call.Free? ==> call.ptr in x.held
    modifies x, x.c, x.c.dynamic, x.c.bitmap, x.c.quarry, x.f, x.f.pages
    ensures x.Valid() && turns <= 4 && |x.phases| == |old(x.phases)|
    ensures if x.failed then call.Allocate? && x.f.refusals > old(x.f.refusals) else x.f.refusals == old(x.f.refusals)
    ensures !x.failed ==> x.phases == old(x.phases) && x.lock == None
    ensures !x.failed ==> Answer(call, old(x.trace), x.trace, old(x.c.clip))
  {
    hide x.Valid, Answer;
    turns := 1;
    x.Step(Turn(t, call));
    SetsOut(old(x.Look()), t, call, x.Look());
    while !x.failed && !x.phases[t].Idle?
      invariant x.Valid() && |x.phases| == |old(x.phases)| && 1 <= turns <= 4
      invariant OnTheWay(old(x.Look()), t, call, turns, x.Look())
      decreases 4 - turns
    {
      ghost var before := x.Look();
      x.Step(Turn(t, call));
      GoesOn(old(x.Look()), t, call, turns, before, x.Look());
      turns := turns + 1;
    }
    assert !x.failed ==> old(x.phases)[t := Idle] == old(x.phases);
  }

  lemma Conclude(x: Threads)
    requires x.Valid()
    ensures BlockSize(x.c.size) && Legal(x.trace, x.c.Capacity())
    ensures !x.failed ==> x.f.Valid() && x.c.Valid(x.f.space) && |x.c.clip| <= CLIP_SIZE
    ensures !x.failed ==> Outstanding(x.trace) == x.held + InHand(x.phases)
    ensures !x.failed ==> Partition(x.c.Taken(), Elements(x.c.clip), x.held, InHand(x.phases))
  {
    hide x.f.Valid, x.c.Stocked, x.c.Taken, Outstanding, Legal, Accounted, PerSlab, Elements, Distinct;
    if !x.failed {
      AccountedApart(x.c.Out(), x.held, x.phases);
    }
  }
}
