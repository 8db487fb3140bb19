/** Division, and rounding up. */
module Division {
  import opened Addr

  /** Division as repeated subtraction, which is how the solver can follow it (see `QuotientLaw`). */
  function Quotient(x: nat, d: nat): nat
    requires d > 0
    decreases x
  {
    if x < d then 0 else 1 + Quotient(x - d, d)
  }

  function Remainder(x: nat, d: nat): nat
    requires d > 0
    decreases x
  {
    if x < d then x else Remainder(x - d, d)
  }

  lemma DivMod(d: nat, x: nat)
    requires d > 0
    ensures x == (x / d) * d + x % d && x % d < d
  {
  }

  lemma {:induction false} QuotientLaw(x: nat, d: nat)
    requires d > 0
    ensures Quotient(x, d) == x / d && Remainder(x, d) == x % d
    ensures x == Quotient(x, d) * d + Remainder(x, d) && Remainder(x, d) < d
    decreases x
  {
    if x >= d {
      QuotientLaw(x - d, d);
      assert (Quotient(x - d, d) + 1) * d == Quotient(x - d, d) * d + d;
    }
    DivUnique(x, d, Quotient(x, d), Remainder(x, d));
  }

  lemma DigitsUnique(x: nat, d: nat, q: nat, r: nat)
    requires x == q * d + r && r < d
    ensures Quotient(x, d) == q && Remainder(x, d) == r
  {
    QuotientLaw(x, d);
    DivUnique(x, d, q, r);
  }

  /** `usize::next_multiple_of()`. */
  function NextMultiple(x: nat, m: nat): nat
    requires m > 0
  {
    QuotientLaw(x, m);
    var r := Remainder(x, m);
    if r == 0 then x else x + (m - r)
  }

  lemma NextMultipleLaw(x: nat, m: nat)
    requires m > 0
    ensures x <= NextMultiple(x, m) < x + m && NextMultiple(x, m) % m == 0
    ensures NextMultiple(x, m) == (NextMultiple(x, m) / m) * m
  {
    QuotientLaw(x, m);
    var q := Quotient(x, m) + if Remainder(x, m) == 0 then 0 else 1;
    assert (Quotient(x, m) + 1) * m == Quotient(x, m) * m + m;
    DivUnique(NextMultiple(x, m), m, q, 0);
  }
}
