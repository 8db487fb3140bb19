/** The contents of memory, by virtual address, and what moving whole pages does to them. */
module Contents {
  import opened Addr
  import opened PA = PageAllocator

  function ByteAt(memory: nat -> bv8, start: nat, x: nat): bv8 { memory(start + x) }

  /** The first `n` bytes from `q` on are, after, what the first `n` bytes from `p` on were before. */
  ghost predicate SameBytes(before: nat -> bv8, p: nat, after: nat -> bv8, q: nat, n: nat) {
    forall x: nat | x < n :: ByteAt(after, q, x) == ByteAt(before, p, x)
  }

  function LeastCount(a: Block, b: Block): nat
    requires a.Valid() && b.Valid()
  {
    if a.Count() < b.Count() then a.Count() else b.Count()
  }

  /** Block `a` became block `b`: page by page, as far as both go, its bytes are there now, and pages outside the two
      blocks are as they were. */
  ghost predicate BytesMoved(before: nat -> bv8, after: nat -> bv8, a: Block, b: Block)
    requires a.Valid() && b.Valid()
  {
    && SameBytes(before, a.start * PAGE_SIZE, after, b.start * PAGE_SIZE, LeastCount(a, b) * PAGE_SIZE)
    && forall x: nat | !a.Has(x / PAGE_SIZE) && !b.Has(x / PAGE_SIZE) :: after(x) == before(x)
  }

  /** Bytes `from .. from + n` are copied to `to`. */
  function Copied(memory: nat -> bv8, from: nat, to: nat, n: nat): nat -> bv8 {
    (x: nat) => if to <= x < to + n then memory(from + (x - to)) else memory(x)
  }

  lemma CopiedSame(memory: nat -> bv8, from: nat, to: nat, n: nat, k: nat)
    requires k <= n
    ensures SameBytes(memory, from, Copied(memory, from, to, n), to, k) && SameBytes(memory, from, memory, from, k)
  {
  }

  /** Such a memory exists. */
  lemma CanMove(memory: nat -> bv8, a: Block, b: Block)
    requires a.Valid() && b.Valid()
    ensures BytesMoved(
      memory, Copied(memory, a.start * PAGE_SIZE, b.start * PAGE_SIZE, LeastCount(a, b) * PAGE_SIZE), a, b)
  {
    var n := LeastCount(a, b) * PAGE_SIZE;
    CopiedSame(memory, a.start * PAGE_SIZE, b.start * PAGE_SIZE, n, n);
  }

  lemma SameShorter(before: nat -> bv8, p: nat, after: nat -> bv8, q: nat, n: nat, k: nat)
    requires SameBytes(before, p, after, q, n) && k <= n
    ensures SameBytes(before, p, after, q, k)
  {
  }
}
