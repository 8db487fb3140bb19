/** Pages of an address space and their paths in its page tables. */
module Pages {
  import opened Mmu
  import opened Addr
  import opened Frage
  import opened PageTree
  import opened World

  /** The page numbers of 4 KiB pages. */
  predicate Page(i: nat) { IsPage(L0_SIZE, i) }

  /** The path of page `page` of space `s`. */
  function PathOf(s: nat, page: nat): (q: Path)
    ensures |q| == TOP + 1 && q[TOP] == s
    ensures forall l :: 0 <= l < TOP ==> q[l] < ENTRY_COUNT
  {
    [Index(page, 0), Index(page, 1), Index(page, 2), Index(page, 3), s]
  }

  function Index(page: nat, level: nat): (i: nat)
    ensures i < ENTRY_COUNT
  {
    (page / Reach(level)) % ENTRY_COUNT
  }

  /** The path takes in each table the entry that the address selects. */
  lemma IndexOfAddress(page: nat, level: nat)
    requires level < TOP
    ensures Index(page, level) == PageTableIndex(page * PAGE_SIZE, level)
  {
    ReachValues();
    if level == 0 {} else if level == 1 {} else if level == 2 {} else {}
  }

  /** The low 36 bits of a page number are its four indexes. */
  lemma LowBits(page: nat)
    ensures page % 0x10_0000_0000 ==
      ((Index(page, 3) * 512 + Index(page, 2)) * 512 + Index(page, 1)) * 512 + Index(page, 0)
  {
    ReachValues();
    var a := page / 512;
    var b := a / 512;
    var c := b / 512;
    var e := c / 512;
    assert page / 0x4_0000 == b && page / 0x800_0000 == c;
    var low := ((c % 512 * 512 + b % 512) * 512 + a % 512) * 512 + page % 512;
    assert page == e * 0x10_0000_0000 + low;
    DivUnique(page, 0x10_0000_0000, e, low);
  }

  /** A page number is determined by its low 36 bits. */
  lemma LowBitsDecide(p: nat, p': nat)
    requires Page(p) && Page(p') && p % 0x10_0000_0000 == p' % 0x10_0000_0000
    ensures p == p'
  {
    HalvesValues(L0_SIZE);
    LowBitsOf(p);
    LowBitsOf(p');
  }

  lemma LowBitsOf(p: nat)
    requires Page(p)
    ensures p % 0x10_0000_0000 == if p < 0x8_0000_0000 then p else p - 0xF_FFF0_0000_0000
    ensures p < 0x8_0000_0000 || 0xF_FFF8_0000_0000 <= p < 0x10_0000_0000_0000
  {
    HalvesValues(L0_SIZE);
  }

  /** Different pages have different paths. */
  lemma PathInjective(s: nat, p: nat, s': nat, p': nat)
    requires Page(p) && Page(p') && PathOf(s, p) == PathOf(s', p')
    ensures s == s' && p == p'
  {
    hide Index;
    LowBits(p);
    LowBits(p');
    assert PathOf(s, p)[0] == PathOf(s', p')[0];
    assert PathOf(s, p)[1] == PathOf(s', p')[1];
    assert PathOf(s, p)[2] == PathOf(s', p')[2];
    assert PathOf(s, p)[3] == PathOf(s', p')[3];
    assert PathOf(s, p)[4] == PathOf(s', p')[4];
    LowBitsDecide(p, p');
  }

  lemma PathIsPagePath(roots: seq<Pte>, s: nat, page: nat)
    requires s < |roots| && roots[s].Counted()
    ensures PagePath(roots, PathOf(s, page))
  {
  }

  /** What page `page` of space `s` is mapped to. */
  ghost function PageView(w: World, s: nat, page: nat): Translation {
    View(w, PathOf(s, page))
  }
}
