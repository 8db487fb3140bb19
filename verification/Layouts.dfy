/** Requests for memory, and the size classes that serve them. */
module Layouts {
  import opened Division
  import opened Mmu
  import opened Addr
  import opened Quarry

  const MIN_SIZE := 8
  const FIXED_SIZE_COUNT := 2047

  datatype Layout = Layout(size: nat, align: nat)

  /** Sizes are not zero and alignments are powers of two. */
  ghost predicate ValidLayout(l: Layout) { l.size > 0 && exists k: nat :: l.align == Pow2(k) }

  /** Size of the blocks of a size class. */
  function GetSize(index: nat): nat { (index + 1) * MIN_SIZE }

  /** `Dispatcher::get_fixed_size_index()`. */
  function FixedSizeIndex(l: Layout): Option<nat>
    requires l.align > 0
  {
    var size, align := NextMultiple(l.size, MIN_SIZE), NextMultiple(l.align, MIN_SIZE);
    NextMultipleLaw(l.align, MIN_SIZE);
    NextMultipleLaw(if size > align then size else align, align);
    var required := NextMultiple(if size > align then size else align, align);
    if required % PAGE_SIZE == 0 || required > FIXED_SIZE_COUNT * MIN_SIZE then None
    else Some(required / MIN_SIZE - 1)
  }

  lemma Pow2Divides(j: nat, k: nat)
    requires j <= k
    ensures Pow2(j) > 0 && Pow2(k) % Pow2(j) == 0
  {
    Pow2Positive(j);
    Pow2Add(k - j, j);
    DivUnique(Pow2(k), Pow2(j), Pow2(k - j), 0);
  }

  lemma DividesTrans(a: nat, b: nat, c: nat)
    requires a > 0 && b > 0 && b % a == 0 && c % b == 0
    ensures c % a == 0
  {
    var m, n := b / a, c / b;
    assert b == m * a && c == n * b;
    assert c == (n * m) * a;
    DivUnique(c, a, n * m, 0);
  }

  /** The alignment rounded up to 8 is still a multiple of the alignment, and of 8. */
  lemma RoundedAlign(k: nat)
    ensures Pow2(k) > 0
    ensures NextMultiple(Pow2(k), MIN_SIZE) == if k < 3 then MIN_SIZE else Pow2(k)
    ensures NextMultiple(Pow2(k), MIN_SIZE) % Pow2(k) == 0 && NextMultiple(Pow2(k), MIN_SIZE) % MIN_SIZE == 0
  {
    hide Pow2, NextMultiple;
    Pow2Positive(k);
    SmallPowers();
    if k < 3 {
      SmallRounded(Pow2(k));
    } else {
      Pow2Divides(3, k);
      MultipleStays(Pow2(k));
    }
  }

  lemma SmallPowers()
    ensures Pow2(0) == 1 && Pow2(1) == 2 && Pow2(2) == 4 && Pow2(3) == 8
  {
  }

  lemma SmallRounded(x: nat)
    requires x == 1 || x == 2 || x == 4
    ensures NextMultiple(x, MIN_SIZE) == MIN_SIZE && MIN_SIZE % x == 0
  {
    QuotientLaw(x, MIN_SIZE);
  }

  lemma MultipleStays(x: nat)
    requires x % MIN_SIZE == 0
    ensures NextMultiple(x, MIN_SIZE) == x
  {
    QuotientLaw(x, MIN_SIZE);
  }

  lemma PageIsPow2()
    ensures Pow2(12) == PAGE_SIZE
  {
    assert Pow2(9) == 512;
  }

  /** Every request sent to a size class fits its blocks, whose size is a multiple of the alignment asked for, and
      the alignment divides the page size. */
  lemma ClassServes(l: Layout)
    requires ValidLayout(l)
    ensures l.align > 0
    ensures FixedSizeIndex(l).Some? ==> (
      var index := FixedSizeIndex(l).value;
      && index < FIXED_SIZE_COUNT && l.size <= GetSize(index)
      && GetSize(index) % l.align == 0 && PAGE_SIZE % l.align == 0)
  {
    var k: nat :| l.align == Pow2(k);
    RoundedAlign(k);
    var size, align := NextMultiple(l.size, MIN_SIZE), NextMultiple(l.align, MIN_SIZE);
    var most := if size > align then size else align;
    var required := NextMultiple(most, align);
    NextMultipleLaw(l.size, MIN_SIZE);
    NextMultipleLaw(most, align);
    DividesTrans(MIN_SIZE, align, required);
    DividesTrans(l.align, align, required);
    PageIsPow2();
    if k >= 12 {
      Pow2Divides(12, k);
      DividesTrans(PAGE_SIZE, align, required);
    } else {
      Pow2Divides(k, 12);
    }
  }

  lemma MultiplesOrder(q: nat, n: nat, m: nat)
    requires q * m < n * m + m
    ensures q * m <= n * m
  {
    assert (n + 1) * m == n * m + m;
    MulLe(if n < q then n + 1 else 0, q, m);
    MulLe(if n < q then 0 else q, n, m);
  }

  lemma NextMultipleLeast(x: nat, m: nat, g: nat)
    requires m > 0 && g % m == 0 && x <= g
    ensures NextMultiple(x, m) <= g
  {
    NextMultipleLaw(x, m);
    assert g == (g / m) * m;
    MultiplesOrder(NextMultiple(x, m) / m, g / m, m);
  }

  /** No smaller class would do. */
  lemma ClassSmallest(l: Layout, j: nat)
    requires ValidLayout(l) && l.align > 0 && FixedSizeIndex(l).Some?
    requires l.size <= GetSize(j) && GetSize(j) % l.align == 0
    ensures FixedSizeIndex(l).value <= j
  {
    hide NextMultiple, Pow2;
    var k: nat :| l.align == Pow2(k);
    RoundedAlign(k);
    var size, align := NextMultiple(l.size, MIN_SIZE), NextMultiple(l.align, MIN_SIZE);
    NextMultipleLaw(l.align, MIN_SIZE);
    NextMultipleLeast(l.size, MIN_SIZE, GetSize(j));
    assert GetSize(j) % align == 0;
    MultipleAtLeast(GetSize(j), align);
    NextMultipleLeast(if size > align then size else align, align, GetSize(j));
  }

  /** A block of `g` bytes could serve the request in some size class. */
  ghost predicate Serves(l: Layout, g: nat)
    requires l.align > 0
  {
    l.size <= g && g % MIN_SIZE == 0 && g % l.align == 0
  }

  /** There is a class for the request if and only if the least size that serves it is that of a class, the largest of
      which has blocks of 16376 bytes, and is not a number of whole pages. */
  lemma ClassWhen(l: Layout) returns (least: nat)
    requires ValidLayout(l)
    ensures l.align > 0 && Serves(l, least) && forall g: nat :: Serves(l, g) ==> least <= g
    ensures FixedSizeIndex(l).Some? <==> least <= 16376 && least % PAGE_SIZE != 0
    ensures FixedSizeIndex(l).Some? ==> GetSize(FixedSizeIndex(l).value) == least
  {
    hide NextMultiple, Pow2;
    var k: nat :| l.align == Pow2(k);
    RoundedAlign(k);
    var size, align := NextMultiple(l.size, MIN_SIZE), NextMultiple(l.align, MIN_SIZE);
    var most := if size > align then size else align;
    least := NextMultiple(most, align);
    NextMultipleLaw(l.size, MIN_SIZE);
    NextMultipleLaw(most, align);
    DividesTrans(MIN_SIZE, align, least);
    DividesTrans(l.align, align, least);
    forall g: nat | Serves(l, g) ensures least <= g {
      NextMultipleLeast(l.size, MIN_SIZE, g);
      assert g % align == 0;
      MultipleAtLeast(g, align);
      NextMultipleLeast(most, align, g);
    }
  }

  lemma MultipleAtLeast(g: nat, m: nat)
    requires m > 0 && g > 0 && g % m == 0
    ensures g >= m
  {
  }

  /** Blocks of the class that serves a request start at multiples of its alignment. */
  lemma BlocksAligned(l: Layout, slabs: seq<nat>, i: nat)
    requires ValidLayout(l) && l.align > 0 && FixedSizeIndex(l).Some?
    requires BlockSize(GetSize(FixedSizeIndex(l).value))
    requires SlabIndex(GetSize(FixedSizeIndex(l).value), i) < |slabs|
    ensures Address(slabs, GetSize(FixedSizeIndex(l).value), i) % l.align == 0
  {
    hide SlabIndex, SlabOffset, FixedSizeIndex;
    ClassServes(l);
    var size := GetSize(FixedSizeIndex(l).value);
    SpanLaw(size, SlabOffset(size, i));
    MultiplesAdd(l.align, slabs[SlabIndex(size, i)], PAGE_SIZE, SlabOffset(size, i), size);
  }

  lemma MultiplesAdd(d: nat, a: nat, x: nat, b: nat, y: nat)
    requires d > 0 && x % d == 0 && y % d == 0
    ensures (a * x + b * y) % d == 0
  {
    var m, n := x / d, y / d;
    assert x == m * d && y == n * d;
    assert a * x + b * y == (a * m + b * n) * d by {
      assert a * x == (a * m) * d && b * y == (b * n) * d;
    }
    DivUnique(a * x + b * y, d, a * m + b * n, 0);
  }

  lemma ClassSizes(index: nat)
    requires index < FIXED_SIZE_COUNT
    ensures BlockSize(GetSize(index)) && GetSize(index) % MIN_SIZE == 0
  {
  }
}
