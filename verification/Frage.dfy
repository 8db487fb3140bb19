/** Numbers of virtual pages and stepping over them, for each page size of the architecture. */
module Frage {
  import opened Mmu
  import opened Addr

  const L0_SIZE := PAGE_SIZE
  const L1_SIZE := 0x20_0000
  const L2_SIZE := 0x4000_0000

  predicate ValidSize(size: nat) { size == L0_SIZE || size == L1_SIZE || size == L2_SIZE }

  /** `Frage::from_index()` for pages. */
  function FromIndex(size: nat, i: nat): Result<nat> {
    if i * size >= WORD then Err(Overflow)
    else if NewVirt(i * size).Ok? then Ok(i) else Err(InvalidArgument)
  }

  function LowerHalfEnd(size: nat): nat
    requires ValidSize(size)
  {
    HALF / size
  }

  function HigherHalfStart(size: nat): nat
    requires ValidSize(size)
  {
    (WORD - HALF) / size
  }

  function HigherHalfEnd(size: nat): nat
    requires ValidSize(size)
  {
    (WORD - 1) / size + 1
  }

  /** Length of the range of page numbers between the two halves. */
  function HoleCount(size: nat): nat
    requires ValidSize(size)
  {
    if LowerHalfEnd(size) <= HigherHalfStart(size) then HigherHalfStart(size) - LowerHalfEnd(size) else 0
  }

  /** `i` is the number of a virtual page. */
  predicate IsPage(size: nat, i: nat)
    requires ValidSize(size)
  {
    i < LowerHalfEnd(size) || HigherHalfStart(size) <= i < HigherHalfEnd(size)
  }

  /** How many pages come before page `i`. */
  function Position(size: nat, i: nat): int
    requires ValidSize(size)
  {
    if i < LowerHalfEnd(size) then i else i - HoleCount(size)
  }

  /** `Step::forward_checked()`. */
  function ForwardChecked(size: nat, start: nat, count: nat): Option<nat>
    requires ValidSize(size)
  {
    if start + count >= WORD then None
    else
      var crosses := start < LowerHalfEnd(size) && LowerHalfEnd(size) <= start + count;
      var advanced := if crosses then start + count + HoleCount(size) else start + count;
      if advanced >= WORD || FromIndex(size, advanced).Err? then None else Some(advanced)
  }

  /** `Step::backward_checked()`, without its `expect()`, which `StepLaws` shows to hold. */
  function BackwardChecked(size: nat, start: nat, count: nat): Option<nat>
    requires ValidSize(size)
  {
    if start < count then None
    else
      var crosses := start - count < HigherHalfStart(size) && HigherHalfStart(size) <= start;
      if crosses && start - count < HoleCount(size) then None
      else Some(if crosses then start - count - HoleCount(size) else start - count)
  }

  /** `Step::steps_between()`. */
  function StepsBetween(size: nat, start: nat, end: nat): (nat, Option<nat>)
    requires ValidSize(size) && IsPage(size, start) && IsPage(size, end)
  {
    HalvesValues(size);
    if start <= end then
      var steps := if (start < LowerHalfEnd(size)) == (end < LowerHalfEnd(size)) then end - start
                   else end - start - HoleCount(size);
      (steps, Some(steps))
    else (0, None)
  }

  /** `ElasticPage::advance_index()`. */
  function AdvanceIndex(size: nat, start: nat, count: nat): nat
    requires ValidSize(size)
  {
    var next := ForwardChecked(size, start, count);
    if next.Some? then next.value else HigherHalfEnd(size)
  }

  lemma HalvesValues(size: nat)
    requires ValidSize(size)
    ensures HigherHalfEnd(size) == 0x2_0000 * LowerHalfEnd(size) <= WORD
    ensures HigherHalfStart(size) == 0x1_FFFF * LowerHalfEnd(size)
    ensures LowerHalfEnd(size) == if size == L0_SIZE then 0x8_0000_0000 else if size == L1_SIZE then 0x400_0000
      else 0x2_0000
  {
  }

  /** `from_index()` accepts exactly the numbers of canonical pages. */
  lemma FromIndexIsPage(size: nat, i: nat)
    requires ValidSize(size)
    ensures FromIndex(size, i).Ok? <==> IsPage(size, i)
  {
    HalvesValues(size);
    if i * size < WORD { NewVirtIsCanonical(i * size); }
  }

  /** Forward steps move the position by the count, across the hole as well, and fail exactly past the
      last page. */
  lemma ForwardLaw(size: nat, i: nat, n: nat)
    requires ValidSize(size) && IsPage(size, i)
    ensures ForwardChecked(size, i, n).Some? <==> Position(size, i) + n < 2 * LowerHalfEnd(size)
    ensures ForwardChecked(size, i, n).Some? ==>
      && IsPage(size, ForwardChecked(size, i, n).value)
      && Position(size, ForwardChecked(size, i, n).value) == Position(size, i) + n
  {
    HalvesValues(size);
    FromIndexIsPage(size, i + n);
    FromIndexIsPage(size, i + n + HoleCount(size));
  }

  /** Backward steps move the position back, fail exactly before the first page, and always land on a page. */
  lemma BackwardLaw(size: nat, i: nat, n: nat)
    requires ValidSize(size) && IsPage(size, i)
    ensures BackwardChecked(size, i, n).Some? <==> n <= Position(size, i)
    ensures BackwardChecked(size, i, n).Some? ==>
      && IsPage(size, BackwardChecked(size, i, n).value)
      && FromIndex(size, BackwardChecked(size, i, n).value).Ok?
      && Position(size, BackwardChecked(size, i, n).value) == Position(size, i) - n
  {
    HalvesValues(size);
    if BackwardChecked(size, i, n).Some? { FromIndexIsPage(size, BackwardChecked(size, i, n).value); }
  }

  lemma PositionInjective(size: nat, i: nat, j: nat)
    requires ValidSize(size) && IsPage(size, i) && IsPage(size, j)
    ensures Position(size, i) == Position(size, j) <==> i == j
    ensures Position(size, i) <= Position(size, j) <==> i <= j
    ensures 0 <= Position(size, i) < 2 * LowerHalfEnd(size)
  {
    HalvesValues(size);
  }

  /** Backward undoes forward and forward undoes backward; `steps_between()` counts forward steps. */
  lemma StepLaws(size: nat, i: nat, j: nat, n: nat)
    requires ValidSize(size) && IsPage(size, i) && IsPage(size, j)
    ensures ForwardChecked(size, i, n) == Some(j) <==> BackwardChecked(size, j, n) == Some(i)
    ensures ForwardChecked(size, i, n) == Some(j) <==> StepsBetween(size, i, j) == (n, Some(n))
  {
    hide ForwardChecked, BackwardChecked, StepsBetween, Position, IsPage, ValidSize;
    ForwardLaw(size, i, n);
    BackwardLaw(size, j, n);
    BetweenLaw(size, i, j);
    PositionInjective(size, i, j);
    PositionInjective(size, j, i);
    if ForwardChecked(size, i, n).Some? { PositionInjective(size, ForwardChecked(size, i, n).value, j); }
    if BackwardChecked(size, j, n).Some? { PositionInjective(size, BackwardChecked(size, j, n).value, i); }
  }

  lemma BetweenLaw(size: nat, i: nat, j: nat)
    requires ValidSize(size) && IsPage(size, i) && IsPage(size, j)
    ensures StepsBetween(size, i, j).1.Some? <==> i <= j
    ensures i <= j ==>
      StepsBetween(size, i, j).0 == StepsBetween(size, i, j).1.value == Position(size, j) - Position(size, i)
  {
    HalvesValues(size);
  }

  /** Steps compose. */
  lemma StepsCompose(size: nat, i: nat, n: nat, k: nat)
    requires ValidSize(size) && IsPage(size, i) && ForwardChecked(size, i, n).Some?
    ensures ForwardChecked(size, ForwardChecked(size, i, n).value, k) == ForwardChecked(size, i, n + k)
  {
    hide ForwardChecked, Position, IsPage, ValidSize;
    ForwardLaw(size, i, n);
    ForwardLaw(size, i, n + k);
    var j := ForwardChecked(size, i, n).value;
    ForwardLaw(size, j, k);
    if ForwardChecked(size, j, k).Some? {
      PositionInjective(size, ForwardChecked(size, j, k).value, ForwardChecked(size, i, n + k).value);
    }
  }
}
