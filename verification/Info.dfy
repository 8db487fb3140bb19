/** Statistics of the allocator. Counters only grow; the balance is what is live. */
module Info {
  import opened Mmu
  import opened Addr

  datatype Counter = Counter(negative: nat, positive: nat) {
    predicate IsValid() { negative <= positive }

    function Balance(): int { positive - negative }

    function Plus(c: Counter): Counter { Counter(negative + c.negative, positive + c.positive) }

    /** `Counter::sub()`. */
    function Minus(c: Counter): Result<Counter> {
      if negative < c.negative || positive < c.positive then Err(Overflow)
      else Ok(Counter(negative - c.negative, positive - c.positive))
    }
  }

  const ZERO := Counter(0, 0)

  datatype Info = Info(bytes: Counter, allocations: Counter, pages: Counter, requested: Counter) {
    /** `Info::is_valid()`. */
    predicate IsValid() {
      && bytes.IsValid() && allocations.IsValid() && pages.IsValid() && requested.IsValid()
      && requested.Balance() <= bytes.Balance()
      && requested.negative <= bytes.negative
      && bytes.Balance() <= pages.Balance() * PAGE_SIZE
    }

    function Plus(i: Info): Info {
      Info(bytes.Plus(i.bytes), allocations.Plus(i.allocations), pages.Plus(i.pages), requested.Plus(i.requested))
    }

    /** `Info::sub()`. */
    function Minus(i: Info): Result<Info> {
      var a, n, p, r :=
        bytes.Minus(i.bytes), allocations.Minus(i.allocations), pages.Minus(i.pages), requested.Minus(i.requested);
      if a.Err? then Err(a.error)
      else if n.Err? then Err(n.error)
      else if p.Err? then Err(p.error)
      else if r.Err? then Err(r.error)
      else Ok(Info(a.value, n.value, p.value, r.value))
    }

    /** `Info::allocation()` and `Info::deallocation()`. */
    function Allocation(request: nat, block: nat, newPages: nat): Info {
      Plus(Info(Counter(0, block), Counter(0, 1), Counter(0, newPages), Counter(0, request)))
    }

    function Deallocation(request: nat, block: nat, oldPages: nat): Info {
      Plus(Info(Counter(block, 0), Counter(1, 0), Counter(oldPages, 0), Counter(request, 0)))
    }

    function PagesAllocation(n: nat): Info { this.(pages := pages.Plus(Counter(0, n))) }

    function PagesDeallocation(n: nat): Info { this.(pages := pages.Plus(Counter(n, 0))) }
  }

  const NO_INFO := Info(ZERO, ZERO, ZERO, ZERO)

  ghost function Sum(infos: seq<Info>): Info {
    if infos == [] then NO_INFO else infos[0].Plus(Sum(infos[1..]))
  }

  lemma NothingPlus(nothing: Info, i: Info)
    requires nothing == NO_INFO
    ensures nothing.Plus(i) == i
  {
  }

  /** Subtraction succeeds exactly on sums, and undoes them. */
  lemma MinusUndoesPlus(a: Info, b: Info, d: Info)
    ensures a.Minus(b) == Ok(d) <==> a == b.Plus(d)
  {
  }

  lemma {:induction false} SumUpdate(infos: seq<Info>, i: nat, x: Info, d: Info)
    requires i < |infos| && x == infos[i].Plus(d)
    ensures Sum(infos[i := x]) == Sum(infos).Plus(d)
  {
    var after := infos[i := x];
    if i > 0 {
      assert after[1..] == infos[1..][i - 1 := x];
      SumUpdate(infos[1..], i - 1, x, d);
    } else {
      assert after[1..] == infos[1..];
    }
  }

  /** What a call adds to the counters: pages stocked up, and the block if there was one. */
  function Gain(pages: nat, given: bool, request: nat, size: nat): Info {
    if given then Info(Counter(0, size), Counter(0, 1), Counter(0, pages), Counter(0, request))
    else Info(Counter(0, 0), Counter(0, 0), Counter(0, pages), Counter(0, 0))
  }

  function Loss(request: nat, size: nat, pages: nat): Info {
    Info(Counter(size, 0), Counter(1, 0), Counter(pages, 0), Counter(request, 0))
  }

  lemma GainIs(i: Info, pages: nat, request: nat, size: nat)
    ensures i.PagesAllocation(pages) == i.Plus(Gain(pages, false, request, size))
    ensures i.PagesAllocation(pages).Allocation(request, size, 0) == i.Plus(Gain(pages, true, request, size))
    ensures i.PagesAllocation(0) == i
  {
  }

  lemma LossIs(i: Info, request: nat, size: nat, pages: nat)
    ensures i.Deallocation(request, size, pages) == i.Plus(Loss(request, size, pages))
  {
  }

  datatype DetailedInfo = DetailedInfo(total: Info, fallback: Info, fixedSize: seq<Info>)

  /** What the statistics have to satisfy: all parts valid, and the total the sum of the parts. */
  ghost predicate AddsUp(d: DetailedInfo) {
    && d.total.IsValid() && d.fallback.IsValid()
    && (forall i :: 0 <= i < |d.fixedSize| ==> d.fixedSize[i].IsValid())
    && d.total == d.fallback.Plus(Sum(d.fixedSize))
  }

  /** `DetailedInfo::is_valid()`: subtracting part after part decides exactly that. */
  method DetailedIsValid(d: DetailedInfo) returns (r: bool)
    ensures r <==> AddsUp(d)
  {
    hide Info.Plus, Info.Minus, Info.IsValid;
    if !d.total.IsValid() || !d.fallback.IsValid() {
      return false;
    }
    var first := d.total.Minus(d.fallback);
    MinusUndoesPlus(d.total, d.fallback, Sum(d.fixedSize));
    if first.Err? {
      return false;
    }
    var balance := first.value;
    assert d.fixedSize[0..] == d.fixedSize;
    for i := 0 to |d.fixedSize|
      invariant forall k :: 0 <= k < i ==> d.fixedSize[k].IsValid()
      invariant d.total == d.fallback.Plus(Sum(d.fixedSize)) <==> balance == Sum(d.fixedSize[i..])
    {
      if !d.fixedSize[i].IsValid() {
        return false;
      }
      var next := balance.Minus(d.fixedSize[i]);
      MinusUndoesPlus(balance, d.fixedSize[i], Sum(d.fixedSize[i + 1..]));
      if next.Err? {
        return false;
      }
      balance := next.value;
    }
    r := balance == NO_INFO;
  }
}
