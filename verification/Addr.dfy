/** Virtual addresses of the x86-64 architecture: canonical form, halves, page-table indexes. */
module Addr {
  import opened Mmu

  /** A machine word holds `0 .. WORD`. */
  const WORD := 0x1_0000_0000_0000_0000
  const HALF := 0x8000_0000_0000
  const SPAN := 0x1_0000_0000_0000
  const PAGE_SIZE := 0x1000
  const UNUSED_BITS := 16

  /** Number of bits needed to write `a`. */
  function BitLength(a: nat): nat { if a == 0 then 0 else 1 + BitLength(a / 2) }

  function Pow2(k: nat): nat { if k == 0 then 1 else 2 * Pow2(k - 1) }

  /** `usize::leading_zeros()` and `usize::leading_ones()`. */
  function LeadingZeros(a: nat): int { 64 - BitLength(a) }
  function LeadingOnes(a: nat): int
    requires a < WORD
  {
    LeadingZeros(WORD - 1 - a)
  }

  /** An address is canonical when bits 47 to 63 are all equal. */
  predicate Canonical(a: nat) { a < HALF || WORD - HALF <= a < WORD }

  /** `Virt::new()`. */
  function NewVirt(a: nat): Result<nat>
    requires a < WORD
  {
    if LeadingZeros(a) > UNUSED_BITS || LeadingOnes(a) > UNUSED_BITS then Ok(a) else Err(InvalidArgument)
  }

  lemma {:induction false} BitLengthBound(a: nat, k: nat)
    ensures BitLength(a) <= k <==> a < Pow2(k)
    decreases k
  {
    if a > 0 && k > 0 { BitLengthBound(a / 2, k - 1); }
    if k == 0 && a > 0 { assert BitLength(a) >= 1; }
    if a == 0 { Pow2Positive(k); }
  }

  lemma {:induction false} Pow2Positive(k: nat)
    ensures Pow2(k) > 0
  {
    if k > 0 { Pow2Positive(k - 1); }
  }

  lemma Pow2Of47()
    ensures Pow2(47) == HALF
  {
    assert Pow2(7) == 128;
    assert Pow2(12) == 0x1000 by { assert Pow2(9) == 512; }
    assert Pow2(24) == 0x100_0000 by { Pow2Add(12, 12); }
    assert Pow2(36) == 0x10_0000_0000 by { Pow2Add(24, 12); }
    Pow2Add(36, 11);
    assert Pow2(11) == 0x800;
  }

  lemma {:induction false} Pow2Add(a: nat, b: nat)
    ensures Pow2(a + b) == Pow2(a) * Pow2(b)
  {
    if a > 0 { Pow2Add(a - 1, b); }
  }

  /** The bit tests of `Virt::new()` accept exactly the two halves. */
  lemma NewVirtIsCanonical(a: nat)
    requires a < WORD
    ensures NewVirt(a).Ok? <==> Canonical(a)
    ensures NewVirt(a).Ok? ==> NewVirt(a).value == a
  {
    hide Pow2, BitLength;
    Pow2Of47();
    BitLengthBound(a, 47);
    BitLengthBound(WORD - 1 - a, 47);
  }

  /** `Virt::canonize()`: the sign extension is or-ed in when the address is past the lower half. */
  function Canonize(a: nat): (r: nat)
    requires a < WORD
    ensures r < WORD
  {
    if a > (SPAN - 1) / 2 then (a % SPAN) + (WORD - SPAN) else a
  }

  /** Canonizing a 48-bit pattern sign-extends it. A longer pattern with bit 47 clear does not come out
      canonical, unlike what the name promises. */
  lemma CanonizeWhen(a: nat)
    requires a < WORD
    ensures Canonical(Canonize(a)) <==> a < HALF || a % SPAN >= HALF
    ensures a < SPAN ==> Canonical(Canonize(a)) && Canonize(a) % SPAN == a
    ensures Canonical(a) ==> Canonize(a) == a
  {
    assert WORD - SPAN == 0xFFFF * SPAN;
    if a >= WORD - HALF {
      assert a - (WORD - SPAN) == a - 0xFFFF * SPAN;
      assert a / SPAN == 0xFFFF && a % SPAN == a - 0xFFFF * SPAN;
    }
  }

  lemma CanonizeFails()
    ensures !Canonical(Canonize(SPAN))
  {
    CanonizeWhen(SPAN);
  }

  /** `VirtTag::is_same_half()`. */
  predicate SameHalf(x: nat, y: nat) { (x / HALF) == (y / HALF) }

  /** Checked addition and subtraction of an offset, within one half. */
  function Add(v: nat, n: nat): Result<nat>
    requires v < WORD
  {
    if v + n >= WORD then Err(Overflow)
    else if NewVirt(v + n).Err? then Err(InvalidArgument)
    else if SameHalf(v, v + n) then Ok(v + n) else Err(Overflow)
  }

  function Sub(v: nat, n: nat): Result<nat>
    requires v < WORD
  {
    if v < n then Err(Overflow)
    else if NewVirt(v - n).Err? then Err(InvalidArgument)
    else if SameHalf(v, v - n) then Ok(v - n) else Err(Overflow)
  }

  predicate Lower(v: nat) { v < HALF }

  /** Addition succeeds exactly while the sum stays in the half of the address, and subtraction undoes it. */
  lemma AddWithinHalf(v: nat, n: nat)
    requires Canonical(v)
    ensures Add(v, n).Ok? <==> v + n < (if Lower(v) then HALF else WORD)
    ensures Add(v, n).Ok? ==> Canonical(v + n) && Lower(v + n) == Lower(v) && Sub(v + n, n) == Ok(v)
    ensures Sub(v, n).Ok? <==> v >= n + (if Lower(v) then 0 else WORD - HALF)
    ensures Sub(v, n).Ok? ==> Canonical(v - n) && Lower(v - n) == Lower(v) && Add(v - n, n) == Ok(v)
  {
    hide NewVirt;
    HalfOf(v);
    NewVirtIsCanonical(v);
    if v + n < WORD { NewVirtIsCanonical(v + n); if Canonical(v + n) { HalfOf(v + n); } }
    if v >= n { NewVirtIsCanonical(v - n); if Canonical(v - n) { HalfOf(v - n); } }
  }

  lemma HalfOf(v: nat)
    requires Canonical(v)
    ensures v / HALF == if Lower(v) then 0 else 0x1_FFFF
  {
    if !Lower(v) {
      assert WORD - HALF == 0x1_FFFF * HALF;
      assert WORD == 0x2_0000 * HALF;
      assert 0x1_FFFF * HALF <= v < 0x2_0000 * HALF;
      assert v == 0x1_FFFF * HALF + (v - 0x1_FFFF * HALF);
    } else {
      assert v < HALF;
    }
  }

  // ---------------------------------------------------------------------------------------------
  // Page-table indexes

  /** 512 to the power `level`: the number of pages under one entry of a table of that level. */
  function Reach(level: nat): (r: nat)
    ensures r > 0
  {
    if level == 0 then 1 else ENTRY_COUNT * Reach(level - 1)
  }

  /** `Virt::page_table_index()`. */
  function PageTableIndex(v: nat, level: nat): nat {
    (v / (PAGE_SIZE * Reach(level))) % ENTRY_COUNT
  }

  /** The bits of an address, most significant index first. */
  function Bits(idx: seq<nat>, offset: nat): nat
    requires |idx| == 4
  {
    (((idx[3] * 512 + idx[2]) * 512 + idx[1]) * 512 + idx[0]) * PAGE_SIZE + offset
  }

  /** `Virt::from_page_table_indexes()`. The shifts and ors are sums, since the fields do not overlap. */
  method FromPageTableIndexes(idx: seq<nat>, offset: nat) returns (v: nat)
    requires |idx| == 4 && (forall l :: 0 <= l < 4 ==> idx[l] < ENTRY_COUNT) && offset < PAGE_SIZE
    ensures Canonical(v) && v % PAGE_SIZE == offset
    ensures forall l :: 0 <= l < 4 ==> PageTableIndex(v, l) == idx[l]
    ensures v == Canonize(Bits(idx, offset))
  {
    var bits := 0;
    var level := 4;
    while level > 0
      invariant 0 <= level <= 4
      invariant bits == if level == 4 then 0 else if level == 3 then idx[3] else
                        if level == 2 then idx[3] * 512 + idx[2] else
                        if level == 1 then (idx[3] * 512 + idx[2]) * 512 + idx[1] else
                        ((idx[3] * 512 + idx[2]) * 512 + idx[1]) * 512 + idx[0]
    {
      level := level - 1;
      bits := bits * ENTRY_COUNT + idx[level];
    }
    bits := bits * PAGE_SIZE + offset;
    IndexesRoundTrip(idx, offset);
    v := Canonize(bits);
  }

  /** Digits of a number in base 512. */
  lemma Digits(a: nat, b: nat, c: nat, d: nat, o: nat)
    requires a < 512 && b < 512 && c < 512 && d < 512 && o < PAGE_SIZE
    ensures var v := (((a * 512 + b) * 512 + c) * 512 + d) * PAGE_SIZE + o;
      && v < SPAN && v % PAGE_SIZE == o
      && (v / PAGE_SIZE) % 512 == d
      && (v / (PAGE_SIZE * 512)) % 512 == c
      && (v / (PAGE_SIZE * 0x4_0000)) % 512 == b
      && (v / (PAGE_SIZE * 0x800_0000)) % 512 == a
  {
    var v := (((a * 512 + b) * 512 + c) * 512 + d) * PAGE_SIZE + o;
    assert v / PAGE_SIZE == ((a * 512 + b) * 512 + c) * 512 + d;
    assert v / (PAGE_SIZE * 512) == (a * 512 + b) * 512 + c;
    assert v / (PAGE_SIZE * 0x4_0000) == a * 512 + b;
    assert v / (PAGE_SIZE * 0x800_0000) == a;
  }

  lemma ReachValues()
    ensures Reach(0) == 1 && Reach(1) == 512 && Reach(2) == 0x4_0000 && Reach(3) == 0x800_0000
  {
    assert Reach(1) == 512 * Reach(0);
    assert Reach(2) == 512 * Reach(1);
    assert Reach(3) == 512 * Reach(2);
  }

  lemma MulLe(a: nat, b: nat, d: nat)
    requires a <= b
    ensures a * d <= b * d
  {
    assert b * d == a * d + (b - a) * d;
  }

  lemma DivUnique(x: nat, d: nat, q: nat, r: nat)
    requires d > 0 && x == q * d + r && r < d
    ensures x / d == q && x % d == r
  {
    var k := x / d;
    assert x == k * d + x % d;
    assert (q + 1) * d == q * d + d;
    assert (k + 1) * d == k * d + d;
    if k > q {
      MulLe(q + 1, k, d);
    } else if k < q {
      MulLe(k + 1, q, d);
    }
  }

  lemma DivShift(b: nat, d: nat, k: nat)
    requires d > 0
    ensures (b + k * d) / d == b / d + k
  {
    assert b == (b / d) * d + b % d;
    assert b + k * d == (b / d + k) * d + b % d;
    DivUnique(b + k * d, d, b / d + k, b % d);
  }

  /** Sign extension does not reach the index bits. */
  lemma IndexModSpan(b: nat, l: nat)
    requires b < SPAN && l < 4
    ensures PageTableIndex(b + (WORD - SPAN), l) == PageTableIndex(b, l)
  {
    ReachValues();
    var d := PAGE_SIZE * Reach(l);
    var k := if l == 0 then 0x7FF_F800_0000 else if l == 1 then 0x3_FFFC_0000 else if l == 2 then 0x1FF_FE00
      else 0xFFFF;
    assert WORD - SPAN == (k * 512) * d;
    DivShift(b, d, k * 512);
  }

  /** Composing an address from its indexes and taking it apart again. */
  lemma IndexesRoundTrip(idx: seq<nat>, offset: nat)
    requires |idx| == 4 && (forall l :: 0 <= l < 4 ==> idx[l] < ENTRY_COUNT) && offset < PAGE_SIZE
    ensures Bits(idx, offset) < SPAN
    ensures Canonical(Canonize(Bits(idx, offset)))
    ensures Canonize(Bits(idx, offset)) % PAGE_SIZE == offset
    ensures forall l :: 0 <= l < 4 ==> PageTableIndex(Canonize(Bits(idx, offset)), l) == idx[l]
  {
    hide PageTableIndex, Bits;
    var b := Bits(idx, offset);
    BitsIndexes(idx, offset);
    forall l | 0 <= l < 4 ensures PageTableIndex(Canonize(b), l) == idx[l] {
      IndexModSpan(b, l);
    }
    CanonizeWhen(b);
    assert WORD - SPAN == 0xF_FFF0_0000_0000 * PAGE_SIZE;
    assert (b + 0xF_FFF0_0000_0000 * PAGE_SIZE) % PAGE_SIZE == b % PAGE_SIZE;
  }

  lemma BitsIndexes(idx: seq<nat>, offset: nat)
    requires |idx| == 4 && (forall l :: 0 <= l < 4 ==> idx[l] < ENTRY_COUNT) && offset < PAGE_SIZE
    ensures Bits(idx, offset) < SPAN && Bits(idx, offset) % PAGE_SIZE == offset
    ensures forall l :: 0 <= l < 4 ==> PageTableIndex(Bits(idx, offset), l) == idx[l]
  {
    Digits(idx[3], idx[2], idx[1], idx[0], offset);
    ReachValues();
    forall l | 0 <= l < 4 ensures PageTableIndex(Bits(idx, offset), l) == idx[l] {
      if l == 0 {} else if l == 1 {} else if l == 2 {} else {}
    }
  }

  function Indexes(v: nat): seq<nat> {
    [PageTableIndex(v, 0), PageTableIndex(v, 1), PageTableIndex(v, 2), PageTableIndex(v, 3)]
  }

  /** Taking a canonical address apart and composing it again. */
  lemma AddressRoundTrip(v: nat)
    requires Canonical(v)
    ensures Canonize(Bits(Indexes(v), v % PAGE_SIZE)) == v
  {
    hide PageTableIndex, Bits;
    var b := if v < HALF then v else v - (WORD - SPAN);
    if v >= HALF {
      forall l | 0 <= l < 4 ensures PageTableIndex(v, l) == PageTableIndex(b, l) { IndexModSpan(b, l); }
      assert v % PAGE_SIZE == b % PAGE_SIZE;
    }
    assert Indexes(v) == Indexes(b);
    Recompose(b);
  }

  lemma Recompose(b: nat)
    requires b < SPAN
    ensures Bits(Indexes(b), b % PAGE_SIZE) == b
  {
    ReachValues();
    var p := b / PAGE_SIZE;
    assert b / (PAGE_SIZE * 512) == p / 512;
    assert b / (PAGE_SIZE * 0x4_0000) == p / 512 / 512;
    assert b / (PAGE_SIZE * 0x800_0000) == p / 512 / 512 / 512;
    assert p / 512 / 512 / 512 < 512;
  }
}
