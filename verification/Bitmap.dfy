/** The bitmap of occupied elements (`Bitmap`) and its growable form (`DynamicBitmap`). */
module Bitmap {
  import opened Lists
  import opened Mmu
  import opened Addr
  import opened PageAllocator

  const BITS := 64
  const WORDS_PER_PAGE := 512
  const BITS_PER_PAGE := 32768

  /** The bits of a 64-bit word, the least significant first. */
  type Word = w: seq<bool> | |w| == BITS witness seq(BITS, _ => false)

  function ZeroWord(): (w: Word)
    ensures forall i :: 0 <= i < BITS ==> !w[i]
  {
    seq(BITS, _ => false)
  }

  /** `u64::trailing_ones()`. */
  function TrailingOnes(w: seq<bool>): (n: nat)
    ensures n <= |w| && (n < |w| ==> !w[n])
    ensures forall i :: 0 <= i < n ==> w[i]
  {
    if |w| == 0 || !w[0] then 0 else 1 + TrailingOnes(w[1..])
  }

  /** Zero bits among the first `n`: `u64::count_zeros()` when `n` is the width. */
  function CountZeros(w: Word, n: nat): nat
    requires n <= BITS
  {
    if n == 0 then 0 else CountZeros(w, n - 1) + if w[n - 1] then 0 else 1
  }

  predicate Bit(words: seq<Word>, i: nat)
    requires i < BITS * |words|
  {
    words[i / BITS][i % BITS]
  }

  /** The occupied elements among the first `len`. */
  ghost function UsedIn(words: seq<Word>, len: nat): set<nat>
    requires len <= BITS * |words|
  {
    set i: nat | i < len && Bit(words, i)
  }

  lemma UsedBound(words: seq<Word>, len: nat)
    requires len <= BITS * |words|
    ensures |UsedIn(words, len)| <= len
    ensures |UsedIn(words, len)| == len ==> forall i: nat | i < len :: Bit(words, i)
  {
    var all := Below(len);
    Subset(UsedIn(words, len), all);
    if |UsedIn(words, len)| == len {
      forall i: nat | i < len ensures Bit(words, i) {
        assert i in all;
      }
    }
  }

  function Below(n: nat): (s: set<nat>)
    ensures forall i: nat :: i in s <==> i < n
    ensures |s| == n
  {
    if n == 0 then {} else Below(n - 1) + {n - 1}
  }

  lemma Subset(a: set<nat>, b: set<nat>)
    requires a <= b
    ensures |a| <= |b| && (|a| == |b| ==> a == b)
  {
    assert b == a + (b - a);
  }

  lemma UsedNext(words: seq<Word>, n: nat)
    requires n < BITS * |words|
    ensures |UsedIn(words, n + 1)| == |UsedIn(words, n)| + if Bit(words, n) then 1 else 0
  {
    hide Bit;
    if Bit(words, n) {
      assert UsedIn(words, n + 1) == UsedIn(words, n) + {n};
    } else {
      assert UsedIn(words, n + 1) == UsedIn(words, n);
    }
  }

  lemma {:induction false} UsedInWord(words: seq<Word>, k: nat, n: nat)
    requires k < |words| && n <= BITS
    ensures |UsedIn(words, BITS * k + n)| == |UsedIn(words, BITS * k)| + n - CountZeros(words[k], n)
  {
    if n > 0 {
      UsedInWord(words, k, n - 1);
      UsedNext(words, BITS * k + n - 1);
      assert (BITS * k + n - 1) / BITS == k && (BITS * k + n - 1) % BITS == n - 1;
    }
  }

  /** `Bitmap::count_free()`. */
  method CountFree(words: seq<Word>, len: nat) returns (free: nat)
    requires CeilDiv(len, BITS) <= |words|
    ensures free == len - |UsedIn(words, len)|
  {
    var full := len / BITS;
    free := 0;
    for k := 0 to full
      invariant free == BITS * k - |UsedIn(words, BITS * k)|
    {
      UsedInWord(words, k, BITS);
      free := free + CountZeros(words[k], BITS);
    }
    for n := 0 to len % BITS
      invariant free == BITS * full + n - |UsedIn(words, BITS * full + n)|
    {
      UsedNext(words, BITS * full + n);
      if !Bit(words, BITS * full + n) {
        free := free + 1;
      }
    }
  }

  /** Every element of word `k` is occupied, those past the end aside. */
  ghost predicate Full(words: seq<Word>, len: nat, k: nat)
    requires k < |words|
  {
    forall j :: 0 <= j < BITS && BITS * k + j < len ==> words[k][j]
  }

  lemma AllFull(words: seq<Word>, len: nat)
    requires CeilDiv(len, BITS) <= |words|
    requires forall k :: 0 <= k < CeilDiv(len, BITS) ==> Full(words, len, k)
    ensures |UsedIn(words, len)| == len
  {
    forall i: nat | i < len ensures Bit(words, i) {
      assert Full(words, len, i / BITS);
      assert BITS * (i / BITS) + i % BITS < len;
    }
    assert UsedIn(words, len) == Below(len);
  }

  lemma SetBit(words: seq<Word>, len: nat, k: nat, j: nat, b: bool)
    requires len <= BITS * |words| && k < |words| && j < BITS && BITS * k + j < len
    ensures forall i: nat | i < BITS * |words| ::
              Bit(words[k := words[k][j := b]], i) == if i == BITS * k + j then b else Bit(words, i)
  {
    assert (BITS * k + j) / BITS == k && (BITS * k + j) % BITS == j;
    var set_ := words[k := words[k][j := b]];
    forall i: nat | i < BITS * |words|
      ensures Bit(set_, i) == if i == BITS * k + j then b else Bit(words, i)
    {
      assert i == BITS * (i / BITS) + i % BITS;
    }
  }

  /** `Bitmap` over the mapped words of a `DynamicBitmap`: only the first `CeilDiv(len, BITS)` words
      belong to it. */
  class Bitmap {
    var words: seq<Word>
    var cursor: nat
    var free: nat
    var len: nat

    /** The free count is the number of zero bits below `len`; past `len` all mapped bits are zero. */
    ghost predicate Valid()
      reads this
      ensures Valid() ==> len <= BITS * |words|
    {
      && CeilDiv(len, BITS) <= |words| == WORDS_PER_PAGE * CeilDiv(len, BITS_PER_PAGE)
      && (cursor == 0 || cursor < CeilDiv(len, BITS))
      && free == len - |Used()|
      && ZeroFrom(words, len)
    }

    ghost function Used(): set<nat>
      requires len <= BITS * |words|
      reads this
    {
      UsedIn(words, len)
    }

    /** `DynamicBitmap::new()`. */
    constructor ()
      ensures Valid() && len == free == 0 && Used() == {}
    {
      words, cursor, free, len := [], 0, 0, 0;
    }

    /** `Bitmap::is_free()`. */
    method IsFree(number: nat) returns (r: bool)
      requires Valid() && number < len
      ensures r == (number !in Used())
    {
      r := !Bit(words, number);
    }

    /** `Bitmap::set_free()`. */
    method SetFree(number: nat)
      requires Valid() && number in Used()
      modifies this
      ensures Valid() && len == old(len) && free == old(free) + 1
      ensures Used() == old(Used()) - {number}
    {
      var k, j := number / BITS, number % BITS;
      ClearBit(words, len, k, j);
      hide ZeroFrom, UsedIn, Bit;
      words := words[k := words[k][j := false]];
      free := free + 1;
    }

    /** `Bitmap::allocate()`: from any cursor the search ends at a free element if there is one, so the
        `unreachable_unchecked()` after it is not reached. */
    method Allocate() returns (r: Option<nat>)
      requires Valid()
      modifies this
      ensures Valid() && len == old(len)
      ensures r.None? <==> old(free) == 0
      ensures r.None? ==> Used() == old(Used()) && free == old(free)
      ensures r.Some? ==>
        && r.value < len && r.value !in old(Used())
        && Used() == old(Used()) + {r.value} && free == old(free) - 1
    {
      hide ZeroFrom, Bit;
      UsedBound(words, len);
      if free == 0 {
        return None;
      }
      var count := CeilDiv(len, BITS);
      var start := cursor;
      for offset := 0 to count
        invariant words == old(words) && len == old(len) && free == old(free) && cursor == old(cursor)
        invariant forall o :: 0 <= o < offset ==> Full(words, len, Wrap(start, o, count))
      {
        var k := Wrap(start, offset, count);
        var entry := words[k];
        var j := TrailingOnes(entry);
        if j < BITS && BITS * k + j < len {
          TakeBit(words, len, k, j);
          words := words[k := words[k][j := true]];
          cursor := k;
          free := free - 1;
          return Some(BITS * k + j);
        }
      }
      forall k | 0 <= k < count ensures Full(words, len, k) {
        var o: nat := if k >= start then k - start else k + count - start;
        assert Wrap(start, o, count) == k;
      }
      AllFull(words, len);
      assert false;
    }

    /** `Bitmap::bulk_allocate()`. */
    method BulkAllocate(count: nat) returns (r: seq<nat>)
      requires Valid()
      modifies this
      ensures Valid() && len == old(len)
      ensures |r| == (if count < old(free) then count else old(free)) && free == old(free) - |r|
      ensures Used() == old(Used()) + Elements(r)
      ensures Distinct(r) && Outside(r, old(Used()), len)
    {
      hide ZeroFrom, UsedIn, Bit, Distinct, CeilDiv, Elements, Outside;
      r := [];
      NothingYet(Used());
      var toAllocate := if count < free then count else free;
      for n := 0 to toAllocate
        invariant Valid() && len == old(len) && |r| == n && free == old(free) - n
        invariant Used() == old(Used()) + Elements(r)
        invariant Distinct(r) && Outside(r, old(Used()), len)
      {
        var next := Allocate();
        PushOutside(r, next.value, old(Used()), len);
        r := r + [next.value];
      }
    }

    /** `DynamicBitmap::map()`, the pages it needs having been mapped: old elements are kept, the new ones
        are free. Returns the number of pages added. */
    method Grow(newLen: nat) returns (pages: nat)
      requires Valid() && newLen > len
      modifies this
      ensures Valid() && len == newLen
      ensures Used() == old(Used()) && free == old(free) + (newLen - old(len))
      ensures pages == CeilDiv(newLen, BITS_PER_PAGE) - CeilDiv(old(len), BITS_PER_PAGE)
    {
      var oldPages, newPages := CeilDiv(len, BITS_PER_PAGE), CeilDiv(newLen, BITS_PER_PAGE);
      pages := newPages - oldPages;
      GrowKeeps(words, WORDS_PER_PAGE * pages, len, newLen);
      words := words + seq(WORDS_PER_PAGE * pages, _ => ZeroWord());
      // `Bitmap::new()`
      free := free + (newLen - len);
      len := newLen;
      UsedBound(words, len);
      cursor := StartCursor(len, free);
    }

    /** `DynamicBitmap::unmap()`. */
    method Unmap() returns (pages: nat)
      requires Valid() && free == len
      modifies this
      ensures Valid() && len == 0 && Used() == {}
      ensures pages == CeilDiv(old(len), BITS_PER_PAGE)
    {
      pages := CeilDiv(len, BITS_PER_PAGE);
      words, cursor, free, len := [], 0, 0, 0;
    }
  }

  /** The cursor of `Bitmap::new()`. */
  function StartCursor(len: nat, free: nat): (cursor: nat)
    requires free <= len
    ensures cursor == 0 || cursor < CeilDiv(len, BITS)
  {
    var cursor := (len - free) / BITS;
    if cursor >= CeilDiv(len, BITS) then 0 else cursor
  }

  /** Position `offset` after `start` on a ring of `count` words. */
  function Wrap(start: nat, offset: nat, count: nat): (k: nat)
    requires (start == 0 || start < count) && offset < count
    ensures k < count && k == if start + offset < count then start + offset else start + offset - count
  {
    assert start + offset >= count ==> (start + offset) % count == start + offset - count by {
      if start + offset >= count { DivUnique(start + offset, count, 1, start + offset - count); }
    }
    assert start + offset < count ==> (start + offset) % count == start + offset by {
      if start + offset < count { DivUnique(start + offset, count, 0, start + offset); }
    }
    (start + offset) % count
  }

  ghost predicate ZeroFrom(words: seq<Word>, len: nat) {
    forall i: nat | len <= i < BITS * |words| :: !Bit(words, i)
  }

  lemma ClearBit(words: seq<Word>, len: nat, k: nat, j: nat)
    requires ZeroFrom(words, len) && len <= BITS * |words|
    requires k < |words| && j < BITS && BITS * k + j in UsedIn(words, len)
    ensures ZeroFrom(words[k := words[k][j := false]], len)
    ensures UsedIn(words[k := words[k][j := false]], len) == UsedIn(words, len) - {BITS * k + j}
    ensures |UsedIn(words[k := words[k][j := false]], len)| == |UsedIn(words, len)| - 1
  {
    SetBit(words, len, k, j, false);
    var cleared := words[k := words[k][j := false]];
    forall i: nat | len <= i < BITS * |words| ensures !Bit(cleared, i) {
      assert !Bit(words, i);
    }
  }

  lemma TakeBit(words: seq<Word>, len: nat, k: nat, j: nat)
    requires ZeroFrom(words, len) && len <= BITS * |words|
    requires k < |words| && j < BITS && BITS * k + j < len && !words[k][j]
    ensures ZeroFrom(words[k := words[k][j := true]], len)
    ensures BITS * k + j !in UsedIn(words, len)
    ensures UsedIn(words[k := words[k][j := true]], len) == UsedIn(words, len) + {BITS * k + j}
  {
    SetBit(words, len, k, j, true);
    var taken := words[k := words[k][j := true]];
    forall i: nat | len <= i < BITS * |words| ensures !Bit(taken, i) {
      assert !Bit(words, i);
    }
    assert (BITS * k + j) / BITS == k && (BITS * k + j) % BITS == j;
  }

  lemma GrowKeeps(words: seq<Word>, n: nat, len: nat, newLen: nat)
    requires len <= BITS * |words| && len <= newLen <= BITS * (|words| + n) && ZeroFrom(words, len)
    ensures ZeroFrom(words + seq(n, _ => ZeroWord()), newLen)
    ensures UsedIn(words + seq(n, _ => ZeroWord()), newLen) == UsedIn(words, len)
  {
    var grown := words + seq(n, _ => ZeroWord());
    forall i: nat | i < BITS * |grown| ensures Bit(grown, i) == (i < len && Bit(words, i)) {
      if i < BITS * |words| {
        assert grown[i / BITS] == words[i / BITS];
        assert i >= len ==> !Bit(words, i);
      }
    }
  }

  /** Elements below `len` that are not in `used`. */
  ghost predicate Outside(s: seq<nat>, used: set<nat>, len: nat) {
    forall i :: 0 <= i < |s| ==> s[i] < len && s[i] !in used
  }

  lemma NothingYet(used: set<nat>)
    ensures Elements([]) == {} && Distinct([]) && forall len: nat :: Outside([], used, len)
  {
  }

  lemma PushOutside(s: seq<nat>, x: nat, used: set<nat>, len: nat)
    requires Distinct(s) && Outside(s, used, len) && x < len && x !in used + Elements(s)
    ensures Distinct(s + [x]) && Outside(s + [x], used, len) && Elements(s + [x]) == Elements(s) + {x}
  {
    PushElements(s, x);
    PushDistinct(s, x);
  }
}
