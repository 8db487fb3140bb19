/** The process table, whose slots are told apart by epochs, and the scheduler's queue of process ids. */
module ProcessTable {
  import opened Lists
  import opened Mmu
  import opened Bitmap

  /** Epochs are not bounded here; the kernel stops when one would not fit 32 bits. */
  datatype Pid = Current | Id(epoch: nat, slot: nat)

  const MAX_COUNT := 0x1_0000

  datatype Process = Process(pid: Pid, code: nat)

  datatype Slot = Free(pid: Pid, next: Option<Pid>) | Used(process: Process)

  datatype ProcessError = NoProcess | NoProcessSlot

  datatype Answer<+T> = Fine(value: T) | Failed(error: ProcessError)

  /** The id that the slot has now, or gives out next. */
  function PidOf(s: Slot): Pid { if s.Free? then s.pid else s.process.pid }

  ghost predicate OwnIds(table: seq<Slot>) {
    forall s: nat :: s < |table| ==> PidOf(table[s]).Id? && PidOf(table[s]).slot == s
  }

  /** `chain` lists the free slots, from `head` on along the `next` links. */
  ghost predicate Linked(table: seq<Slot>, head: Option<Pid>, chain: seq<nat>)
    decreases |chain|
  {
    if chain == [] then head == None
    else
      && chain[0] < |table| && table[chain[0]].Free? && head == Some(table[chain[0]].pid)
      && Linked(table, table[chain[0]].next, chain[1..])
  }

  ghost predicate FreeSlots(table: seq<Slot>, chain: seq<nat>) {
    && Distinct(chain) && (forall i :: 0 <= i < |chain| ==> chain[i] < |table|)
    && (forall s: nat :: s < |table| ==> (table[s].Free? <==> s in chain))
  }

  /** Ids given out for a slot are older than the one it gives out next, or that of its process. */
  ghost predicate Dated(table: seq<Slot>, issued: set<Pid>, freed: set<Pid>) {
    && freed <= issued
    && (forall p :: p in issued ==> p.Id? && p.slot < |table| && PidOf(table[p.slot]).Id?)
    && (forall p :: p in issued ==> p.epoch <= PidOf(table[p.slot]).epoch)
    && (forall p :: p in issued ==> (p in freed <==> p.epoch < PidOf(table[p.slot]).epoch))
    && (forall s: nat :: s < |table| ==> (PidOf(table[s]) in issued <==> table[s].Used?))
  }

  lemma {:induction false} LinkedAside(table: seq<Slot>, head: Option<Pid>, chain: seq<nat>, s: nat, slot: Slot)
    requires Linked(table, head, chain) && s < |table| && s !in chain
    ensures Linked(table[s := slot], head, chain)
    decreases |chain|
  {
    if chain != [] { LinkedAside(table, table[chain[0]].next, chain[1..], s, slot); }
  }

  /** The slots of a new table, each leading to the next one. */
  function NewSlot(s: nat, len: nat): Slot { Free(Id(0, s), if s + 1 < len then Some(Id(0, s + 1)) else None) }

  ghost function UpFrom(s: nat, len: nat): (r: seq<nat>)
    requires s <= len
    ensures |r| == len - s && forall i :: 0 <= i < |r| ==> r[i] == s + i
  {
    seq(len - s, i => s + i)
  }

  lemma {:induction false} NewLinked(table: seq<Slot>, len: nat, s: nat)
    requires |table| == len && s <= len && forall i: nat :: i < len ==> table[i] == NewSlot(i, len)
    ensures Linked(table, if s < len then Some(Id(0, s)) else None, UpFrom(s, len))
    ensures s == 0 ==> FreeSlots(table, UpFrom(s, len))
    decreases len - s
  {
    if s < len {
      NewLinked(table, len, s + 1);
      assert UpFrom(s, len)[1..] == UpFrom(s + 1, len);
    }
    if s == 0 {
      forall i: nat | i < len ensures i in UpFrom(0, len) { assert UpFrom(0, len)[i] == i; }
    }
  }

  lemma TakeFirst(table: seq<Slot>, chain: seq<nat>, process: Process)
    requires FreeSlots(table, chain) && chain != [] && chain[0] < |table|
    ensures FreeSlots(table[chain[0] := Used(process)], chain[1..]) && chain[0] !in chain[1..]
  {
    forall s: nat | s < |table| && s != chain[0] ensures s in chain <==> s in chain[1..] {
      assert chain == [chain[0]] + chain[1..];
    }
  }

  /** The id that a free slot has ready becomes that of its process. */
  lemma Dates(table: seq<Slot>, issued: set<Pid>, freed: set<Pid>, slot: nat, process: Process)
    requires OwnIds(table) && Dated(table, issued, freed) && slot < |table| && table[slot].Free?
    requires process.pid == table[slot].pid
    ensures OwnIds(table[slot := Used(process)]) && Dated(table[slot := Used(process)], issued + {process.pid}, freed)
    ensures process.pid !in issued
  {
  }

  lemma GiveBack(table: seq<Slot>, chain: seq<nat>, slot: nat, gone: Slot)
    requires FreeSlots(table, chain) && slot < |table| && table[slot].Used? && gone.Free?
    ensures FreeSlots(table[slot := gone], [slot] + chain) && slot !in chain
    ensures |chain| < |table|
  {
    assert slot !in chain;
    ChainSize([slot] + chain, |table|);
  }

  /** The process of the slot is gone, and the slot's next id is a newer one. */
  lemma Ages(table: seq<Slot>, issued: set<Pid>, freed: set<Pid>, slot: nat, gone: Slot)
    requires OwnIds(table) && Dated(table, issued, freed) && slot < |table| && table[slot].Used?
    requires gone.Free? && gone.pid == Id(PidOf(table[slot]).epoch + 1, slot)
    ensures OwnIds(table[slot := gone]) && Dated(table[slot := gone], issued, freed + {PidOf(table[slot])})
  {
  }

  lemma {:induction false} ChainSize(chain: seq<nat>, n: nat)
    requires Distinct(chain) && forall i :: 0 <= i < |chain| ==> chain[i] < n
    ensures |Elements(chain)| == |chain| <= n
  {
    if chain != [] {
      PopElements(chain);
      ChainSize(chain[..|chain| - 1], n);
    }
    Subset(Elements(chain), Below(n));
  }

  class Table {
    var free: Option<Pid>
    var processCount: nat
    var table: seq<Slot>
    ghost var chain: seq<nat>
    /** All ids that were ever given to a process, and those whose process is gone. */
    ghost var issued: set<Pid>
    ghost var freed: set<Pid>

    ghost predicate Valid()
      reads this
    {
      && OwnIds(table) && Linked(table, free, chain) && FreeSlots(table, chain) && Dated(table, issued, freed)
      && processCount + |chain| == |table|
    }

    /** `Table::new()`. */
    constructor (len: nat)
      requires len <= MAX_COUNT
      ensures Valid() && |table| == len && processCount == 0 && issued == freed == {}
    {
      var slots: seq<Slot> := [];
      for slot := 0 to len
        invariant |slots| == slot && forall s: nat :: s < slot ==> slots[s] == NewSlot(s, len)
      {
        slots := slots + [NewSlot(slot, len)];
      }
      table := slots;
      free := if len > 0 then Some(Id(0, 0)) else None;
      processCount := 0;
      chain := UpFrom(0, len);
      issued, freed := {}, {};
      new;
      NewLinked(table, len, 0);
    }

    /** `Table::allocate()`: an id never given out before, unless all slots are used. */
    method Allocate(process: Process) returns (r: Answer<Pid>)
      requires Valid()
      modifies this
      ensures Valid() && |table| == |old(table)| && freed == old(freed)
      ensures r.Failed? <==> old(processCount) == |table|
      ensures r.Failed? ==>
        r.error == NoProcessSlot && issued == old(issued) && table == old(table) && processCount == old(processCount)
      ensures r.Fine? ==>
        && r.value.Id? && old(free) == Some(r.value) && r.value !in old(issued) && issued == old(issued) + {r.value}
        && table == old(table)[r.value.slot := Used(process.(pid := r.value))]
        && processCount == old(processCount) + 1
    {
      if free == None {
        assert chain == [];
        return Failed(NoProcessSlot);
      }
      var pid := free.value;
      var slot := pid.slot;
      assert slot == chain[0] && table[slot].Free?;
      var next := table[slot].next;
      TakeFirst(table, chain, process.(pid := pid));
      Dates(table, issued, freed, slot, process.(pid := pid));
      hide Dated, FreeSlots, OwnIds, Distinct;
      LinkedAside(table, next, chain[1..], slot, Used(process.(pid := pid)));
      table := table[slot := Used(process.(pid := pid))];
      free := next;
      processCount := processCount + 1;
      chain, issued := chain[1..], issued + {pid};
      r := Fine(pid);
    }

    /** `Table::free()`: succeeds exactly for the id of a present process, and ages its slot. */
    method Free(pid: Pid) returns (r: Answer<()>)
      requires Valid() && pid.Id?
      modifies this
      ensures Valid() && |table| == |old(table)| && issued == old(issued)
      ensures r.Fine? <==> pid in old(issued) && pid !in old(freed)
      ensures r.Failed? ==>
        r.error == NoProcess && table == old(table) && freed == old(freed) && processCount == old(processCount)
      ensures r.Fine? ==> freed == old(freed) + {pid} && old(processCount) > 0 && processCount == old(processCount) - 1
      // The slot is the first to be used again, under a newer id, and other slots are as they were.
      ensures r.Fine? ==> free == Some(Id(pid.epoch + 1, pid.slot))
      ensures r.Fine? ==> forall i :: 0 <= i < |table| && i != pid.slot ==> table[i] == old(table)[i]
    {
      AliveIsUsed(pid);
      var slot := pid.slot;
      if slot >= |table| || table[slot].Free? || table[slot].process.pid != pid {
        return Failed(NoProcess);
      }
      var next := Id(pid.epoch + 1, slot);
      var gone := Slot.Free(next, free);
      Ages(table, issued, freed, slot, gone);
      GiveBack(table, chain, slot, gone);
      hide Dated, FreeSlots, OwnIds, Distinct;
      LinkedAside(table, free, chain, slot, gone);
      assert ([slot] + chain)[1..] == chain;
      table := table[slot := gone];
      free := Some(next);
      processCount := processCount - 1;
      chain, freed := [slot] + chain, freed + {pid};
      r := Fine(());
    }

    /** `Table::get()`: the process of that id, never a later occupant of its slot. */
    method Get(pid: Pid) returns (r: Answer<Process>)
      requires Valid() && pid.Id?
      ensures r.Fine? <==> pid in issued && pid !in freed
      ensures r.Fine? ==> r.value.pid == pid && pid.slot < |table| && table[pid.slot] == Used(r.value)
      ensures r.Failed? ==> r.error == NoProcess
    {
      AliveIsUsed(pid);
      if pid.slot >= |table| {
        return Failed(NoProcess);
      }
      match table[pid.slot]
      case Used(process) => r := if process.pid != pid then Failed(NoProcess) else Fine(process);
      case Free(_, _) => r := Failed(NoProcess);
    }

    /** An id is alive exactly when its slot holds its process. */
    lemma AliveIsUsed(pid: Pid)
      requires Valid() && pid.Id?
      ensures pid in issued && pid !in freed <==>
        pid.slot < |table| && table[pid.slot].Used? && table[pid.slot].process.pid == pid
    {
    }
  }

  // ---------------------------------------------------------------------------------------------
  // The scheduler

  class Scheduler {
    var queue: seq<Pid>

    constructor ()
      ensures queue == []
    {
      queue := [];
    }

    /** `Scheduler::enqueue()`. */
    method Enqueue(pid: Pid)
      modifies this
      ensures queue == old(queue) + [pid]
    {
      queue := queue + [pid];
    }

    /** `Scheduler::dequeue()`. */
    method Dequeue() returns (r: Option<Pid>)
      modifies this
      ensures r == if old(queue) == [] then None else Some(old(queue)[0])
      ensures queue == if old(queue) == [] then [] else old(queue)[1..]
    {
      if queue == [] {
        return None;
      }
      r := Some(queue[0]);
      queue := queue[1..];
    }

    /** `Scheduler::run_one()`: runs the process of the first id in the queue, if it is still there, and queues it
        again if it is preempted. A stale id is dropped. */
    method RunOne(t: Table, preempted: bool) returns (some: bool, ran: Option<Process>)
      requires t.Valid() && forall i :: 0 <= i < |queue| ==> queue[i].Id?
      modifies this
      ensures some <==> old(queue) != []
      ensures ran.Some? <==> some && old(queue)[0] in t.issued && old(queue)[0] !in t.freed
      ensures ran.Some? ==> ran.value.pid == old(queue)[0]
      ensures queue == (
        if !some then [] else old(queue)[1..] + if ran.Some? && preempted then [old(queue)[0]] else [])
    {
      var first := Dequeue();
      if first.None? {
        return false, None;
      }
      var process := t.Get(first.value);
      if process.Fine? {
        if preempted {
          Enqueue(first.value);
        }
        return true, Some(process.value);
      }
      return true, None;
    }
  }

  // ---------------------------------------------------------------------------------------------
  // Runs

  datatype Action = Spawn(code: nat) | Kill(pid: Pid) | Queue(pid: Pid) | Run(preempted: bool)

  datatype Happened = Started(pid: Pid) | Killed(pid: Pid) | Ran(pid: Pid)

  ghost predicate Knows(log: seq<Happened>, issued: set<Pid>, freed: set<Pid>) {
    && (forall p :: p in issued <==> Started(p) in log)
    && (forall p :: p in freed <==> Killed(p) in log)
  }

  /** No id is given out twice, only what was started and not killed runs, and each is killed at most once. */
  ghost predicate Sane(log: seq<Happened>) {
    forall j :: 0 <= j < |log| ==>
      match log[j]
      case Started(p) => Started(p) !in log[..j]
      case Killed(p) => Started(p) in log[..j] && Killed(p) !in log[..j]
      case Ran(p) => Started(p) in log[..j] && Killed(p) !in log[..j]
  }

  lemma Grows(log: seq<Happened>, e: Happened)
    requires Sane(log)
    requires match e
             case Started(p) => Started(p) !in log
             case Killed(p) => Started(p) in log && Killed(p) !in log
             case Ran(p) => Started(p) in log && Killed(p) !in log
    ensures Sane(log + [e])
  {
    var after := log + [e];
    forall j | 0 <= j < |after| ensures after[..j] == if j < |log| then log[..j] else log { }
  }

  /** What is known between two actions: what has happened, the queue, and the number of processes. */
  datatype Scene = Scene(log: seq<Happened>, queue: seq<Pid>, count: nat) {
    predicate Alive(p: Pid) { Started(p) in log && Killed(p) !in log }

    function Then(e: Happened): Scene { this.(log := log + [e]) }
  }

  /** What an action does with a table of `len` slots. */
  ghost predicate Follows(x: Scene, action: Action, y: Scene, len: nat) {
    match action
    case Spawn(_) =>
      if x.count == len then y == x
      else |y.log| == |x.log| + 1 && y.log[|x.log|].Started? && y == x.Then(y.log[|x.log|]).(count := x.count + 1)
    case Kill(p) =>
      if x.Alive(p) then x.count > 0 && y == x.Then(Killed(p)).(count := x.count - 1) else y == x
    case Queue(p) => y == x.(queue := x.queue + [p])
    case Run(preempted) =>
      if x.queue == [] then y == x
      else if x.Alive(x.queue[0]) then
        y == x.Then(Ran(x.queue[0])).(queue := x.queue[1..] + if preempted then [x.queue[0]] else [])
      else y == x.(queue := x.queue[1..])
  }

  /** From each scene the action leads to the next one. */
  ghost predicate Played(scenes: seq<Scene>, actions: seq<Action>, len: nat) {
    && 0 < |scenes| <= |actions| + 1 && scenes[0] == Scene([], [], 0)
    && forall n :: 0 <= n < |scenes| - 1 ==> Follows(scenes[n], actions[n], scenes[n + 1], len)
  }

  lemma PlayedMore(scenes: seq<Scene>, actions: seq<Action>, len: nat, y: Scene)
    requires Played(scenes, actions, len) && |scenes| <= |actions|
    requires Follows(scenes[|scenes| - 1], actions[|scenes| - 1], y, len)
    ensures Played(scenes + [y], actions, len)
  {
    hide Follows;
  }

  /** Any sequence of calls on the table and the scheduler. */
  method Play(len: nat, actions: seq<Action>) returns (log: seq<Happened>, ghost scenes: seq<Scene>)
    requires len <= MAX_COUNT
    requires forall n :: 0 <= n < |actions| ==> (actions[n].Kill? || actions[n].Queue? ==> actions[n].pid.Id?)
    ensures Sane(log) && Played(scenes, actions, len)
    ensures |scenes| == |actions| + 1 && scenes[|actions|].log == log
  {
    var t := new Table(len);
    var s := new Scheduler();
    log, scenes := [], [Scene([], [], 0)];
    hide t.Valid, Sane, Knows, Follows;
    KnowsNothing();
    for n := 0 to |actions|
      invariant t.Valid() && |t.table| == len && Sane(log) && Knows(log, t.issued, t.freed)
      invariant forall i :: 0 <= i < |s.queue| ==> s.queue[i].Id?
      invariant |scenes| == n + 1 && Played(scenes, actions, len)
      invariant scenes[n] == Scene(log, s.queue, t.processCount)
    {
      log := PlayOne(t, s, log, actions[n]);
      PlayedMore(scenes, actions, len, Scene(log, s.queue, t.processCount));
      scenes := scenes + [Scene(log, s.queue, t.processCount)];
    }
  }

  lemma KnowsNothing()
    ensures Sane([]) && Knows([], {}, {})
  {
  }

  method PlayOne(t: Table, s: Scheduler, log: seq<Happened>, action: Action) returns (log': seq<Happened>)
    requires t.Valid() && Sane(log) && Knows(log, t.issued, t.freed)
    requires forall i :: 0 <= i < |s.queue| ==> s.queue[i].Id?
    requires action.Kill? || action.Queue? ==> action.pid.Id?
    modifies t, s
    ensures t.Valid() && Sane(log') && Knows(log', t.issued, t.freed) && |t.table| == |old(t.table)|
    ensures Follows(Scene(log, old(s.queue), old(t.processCount)), action, Scene(log', s.queue, t.processCount),
                    |t.table|)
    ensures forall i :: 0 <= i < |s.queue| ==> s.queue[i].Id?
  {
    hide t.Valid, Sane;
    log' := log;
    match action
    case Spawn(code) =>
      var r := t.Allocate(Process(Current, code));
      if r.Fine? {
        Grows(log, Started(r.value));
        log' := log + [Started(r.value)];
      }
    case Kill(pid) =>
      var r := t.Free(pid);
      if r.Fine? {
        Grows(log, Killed(pid));
        log' := log + [Killed(pid)];
      }
    case Queue(pid) => s.Enqueue(pid);
    case Run(preempted) =>
      var some, ran := s.RunOne(t, preempted);
      if ran.Some? {
        Grows(log, Ran(ran.value.pid));
        log' := log + [Ran(ran.value.pid)];
      }
  }
}
