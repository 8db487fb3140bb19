/** The text screen: a buffer of as many rows as the screen has, scrolled in place, shows the end of an
    unbounded page of rows. */
module Grid {
  import opened Addr

  datatype Glyph = Glyph(character: nat, attribute: nat)

  const SPACE := 32
  const QUESTION := 63
  const TAB := 9
  const NEWLINE := 10
  const RETURN := 13

  predicate IsPrintable(octet: nat) { SPACE <= octet < 0x7F }

  predicate IsGraphical(octet: nat) { octet != SPACE && IsPrintable(octet) }

  /** What is displayed for a character: `ch as u8` keeps its low octet only. */
  function Displayed(ch: nat): nat {
    var octet := ch % 256;
    if IsGraphical(octet) || octet == SPACE then octet else QUESTION
  }

  /** What the documentation promises: the character itself if it is printable ASCII, otherwise a question mark. */
  function Promised(ch: nat): nat { if IsPrintable(ch) then ch else QUESTION }

  /** The promise is broken exactly for characters past the first 256 whose low octet happens to be printable. */
  lemma DisplayedWhen(ch: nat)
    ensures Displayed(ch) == Promised(ch) <==> ch < 256 || !IsPrintable(ch % 256) || ch % 256 == QUESTION
  {
    assert ch < 256 ==> ch % 256 == ch;
  }

  /** The letter U+0141 is shown as an A. */
  lemma DisplayedFails()
    ensures Displayed(0x141) == 0x41 && Promised(0x141) == QUESTION
  {
  }

  // ---------------------------------------------------------------------------------------------
  // The page

  /** Rows one after another, and the place to print at: the start of its row, and the column. */
  datatype Page = Page(cells: seq<Glyph>, start: nat, column: nat) {
    function Position(): nat { start + column }
  }

  predicate Multiple(x: nat, w: nat) { w > 0 && x % w == 0 }

  ghost predicate PageOk(p: Page, w: nat) {
    w > 0 && Multiple(|p.cells|, w) && Multiple(p.start, w) && p.column < w && p.start + w <= |p.cells|
  }

  function Blank(n: nat, attribute: nat): (r: seq<Glyph>)
    ensures |r| == n && forall i :: 0 <= i < n ==> r[i] == Glyph(SPACE, attribute)
  {
    seq(n, _ => Glyph(SPACE, attribute))
  }

  /** Goes on to the next row when the row is full, and adds a blank row when there is none. */
  function Settle(p: Page, w: nat, attribute: nat): Page {
    var q := if p.column >= w then p.(start := p.start + w, column := 0) else p;
    if q.start >= |q.cells| then q.(cells := q.cells + Blank(w, attribute)) else q
  }

  function Put(p: Page, g: Glyph, w: nat): Page
    requires p.Position() < |p.cells|
  {
    Settle(p.(cells := p.cells[p.Position() := g], column := p.column + 1), w, g.attribute)
  }

  /** The row is blanked from the place to print at on, and left. */
  function Cleared(p: Page, w: nat, attribute: nat): Page
    requires p.column < w && p.start + w <= |p.cells|
  {
    var end := p.start + w;
    Page(p.cells[..p.Position()] + Blank(end - p.Position(), attribute) + p.cells[end..], end, 0)
  }

  function NextRow(p: Page, w: nat, attribute: nat): Page
    requires p.column < w && p.start + w <= |p.cells|
  {
    Settle(Cleared(p, w, attribute), w, attribute)
  }

  function LineStart(position: nat, w: nat): nat
    requires w > 0
  {
    position / w * w
  }

  function TabStop(column: nat, w: nat, tabWidth: nat): nat {
    if tabWidth > 0 then
      var next := (column / tabWidth + 1) * tabWidth;
      if next < w then next else w
    else column + 1
  }

  lemma TabStopLaw(column: nat, w: nat, tabWidth: nat)
    requires column < w
    ensures column < TabStop(column, w, tabWidth) <= w
    ensures tabWidth > 0 ==> TabStop(column, w, tabWidth) <= column + tabWidth
    ensures tabWidth > 0 && TabStop(column, w, tabWidth) < w ==> TabStop(column, w, tabWidth) % tabWidth == 0
  {
    if tabWidth > 0 {
      var q := column / tabWidth;
      assert column == q * tabWidth + column % tabWidth;
      assert (q + 1) * tabWidth == q * tabWidth + tabWidth;
      DivUnique((q + 1) * tabWidth, tabWidth, q + 1, 0);
    }
  }

  lemma PutOk(p: Page, g: Glyph, w: nat)
    requires PageOk(p, w)
    ensures PageOk(Put(p, g, w), w)
  {
    RowsOf(p, w);
  }

  lemma NextRowOk(p: Page, w: nat, attribute: nat)
    requires PageOk(p, w)
    ensures PageOk(NextRow(p, w, attribute), w)
  {
    RowsOf(p, w);
  }

  /** Multiples of the width: the next row, if any, is whole. */
  lemma RowsOf(p: Page, w: nat)
    requires PageOk(p, w)
    ensures Multiple(p.start + w, w) && Multiple(|p.cells| + w, w)
    ensures p.start + w < |p.cells| ==> p.start + 2 * w <= |p.cells|
  {
    MultipleNext(p.start, w);
    MultipleNext(|p.cells|, w);
    if p.start + w < |p.cells| { MultipleGap(p.start + w, |p.cells|, w); }
  }

  lemma MultipleNext(x: nat, w: nat)
    requires Multiple(x, w)
    ensures Multiple(x + w, w)
  {
    assert x == (x / w) * w;
    assert x + w == (x / w + 1) * w;
    DivUnique(x + w, w, x / w + 1, 0);
  }

  lemma MultipleGap(x: nat, y: nat, w: nat)
    requires Multiple(x, w) && Multiple(y, w) && x < y
    ensures x + w <= y
  {
    assert x == (x / w) * w && y == (y / w) * w;
    assert (x / w + 1) * w == x + w;
    MulLe(if y / w <= x / w then y / w else 0, x / w, w);
    MulLe(if x / w < y / w then x / w + 1 else 0, y / w, w);
  }

  /** Printing `n` blanks. */
  function Spaces(p: Page, n: nat, w: nat, attribute: nat): Page
    requires PageOk(p, w)
    decreases n
  {
    if n == 0 then p
    else
      PutOk(p, Glyph(SPACE, attribute), w);
      Spaces(Put(p, Glyph(SPACE, attribute), w), n - 1, w, attribute)
  }

  /** What a character does to the page. */
  function Typed(p: Page, ch: nat, w: nat, tabWidth: nat, attribute: nat): Page
    requires PageOk(p, w)
  {
    if ch == TAB then
      TabStopLaw(p.column, w, tabWidth);
      Spaces(p, TabStop(p.column, w, tabWidth) - p.column, w, attribute)
    else if ch == RETURN then p.(column := 0)
    else if ch == NEWLINE then NextRow(p, w, attribute)
    else Put(p, Glyph(Displayed(ch), attribute), w)
  }

  lemma {:induction false} SpacesOk(p: Page, n: nat, w: nat, attribute: nat)
    requires PageOk(p, w)
    ensures PageOk(Spaces(p, n, w, attribute), w)
    ensures Above(p, Spaces(p, n, w, attribute))
    decreases n
  {
    if n > 0 {
      PutOk(p, Glyph(SPACE, attribute), w);
      SpacesOk(Put(p, Glyph(SPACE, attribute), w), n - 1, w, attribute);
    }
  }

  /** Rows above the place to print at are left alone, and it does not go back above them. */
  ghost predicate Above(p: Page, q: Page) {
    p.start <= q.start && p.start <= |p.cells| <= |q.cells| && q.cells[..p.start] == p.cells[..p.start]
  }

  lemma TypedOk(p: Page, ch: nat, w: nat, tabWidth: nat, attribute: nat)
    requires PageOk(p, w)
    ensures PageOk(Typed(p, ch, w, tabWidth, attribute), w)
    ensures Above(p, Typed(p, ch, w, tabWidth, attribute))
  {
    if ch == TAB {
      TabStopLaw(p.column, w, tabWidth);
      SpacesOk(p, TabStop(p.column, w, tabWidth) - p.column, w, attribute);
    } else if ch == NEWLINE {
      NextRowOk(p, w, attribute);
    } else if ch != RETURN {
      PutOk(p, Glyph(Displayed(ch), attribute), w);
    }
  }

  function TypedAll(p: Page, text: seq<nat>, w: nat, tabWidth: nat, attribute: nat): Page
    requires PageOk(p, w)
    decreases |text|
  {
    if text == [] then p
    else
      TypedOk(p, text[0], w, tabWidth, attribute);
      TypedAll(Typed(p, text[0], w, tabWidth, attribute), text[1..], w, tabWidth, attribute)
  }

  lemma {:induction false} TypedMore(p: Page, text: seq<nat>, ch: nat, w: nat, tabWidth: nat, attribute: nat)
    requires PageOk(p, w)
    ensures PageOk(TypedAll(p, text, w, tabWidth, attribute), w)
    ensures TypedAll(p, text + [ch], w, tabWidth, attribute) ==
      Typed(TypedAll(p, text, w, tabWidth, attribute), ch, w, tabWidth, attribute)
    decreases |text|
  {
    hide PageOk, Typed;
    if text != [] {
      assert (text + [ch])[1..] == text[1..] + [ch];
      TypedOk(p, text[0], w, tabWidth, attribute);
      TypedMore(Typed(p, text[0], w, tabWidth, attribute), text[1..], ch, w, tabWidth, attribute);
    } else {
      TypedOk(p, ch, w, tabWidth, attribute);
      assert (text + [ch])[1..] == [];
    }
  }

  /** Printable text stands on the page from the place to print at on, running over from row to row. */
  lemma {:induction false} TextStands(p: Page, text: seq<nat>, w: nat, tabWidth: nat, attribute: nat)
    requires PageOk(p, w) && forall i :: 0 <= i < |text| ==> IsPrintable(text[i])
    ensures (
      var q := TypedAll(p, text, w, tabWidth, attribute);
      && q.Position() == p.Position() + |text| && p.Position() + |text| <= |q.cells|
      && q.cells[..p.Position()] == p.cells[..p.Position()]
      && forall i :: 0 <= i < |text| ==> q.cells[p.Position() + i] == Glyph(text[i], attribute))
    decreases |text|
  {
    hide PageOk, Put, Typed;
    assert p.Position() <= |p.cells| by { Inside(p, w); }
    if text != [] {
      PutStands(p, text[0], w, tabWidth, attribute);
      var next := Typed(p, text[0], w, tabWidth, attribute);
      TextStands(next, text[1..], w, tabWidth, attribute);
      var q := TypedAll(next, text[1..], w, tabWidth, attribute);
      assert q.cells[p.Position()] == q.cells[..next.Position()][p.Position()];
      assert q.cells[..p.Position()] == q.cells[..next.Position()][..p.Position()];
      forall i | 0 < i < |text| ensures q.cells[p.Position() + i] == Glyph(text[i], attribute) {
        assert q.cells[next.Position() + (i - 1)] == Glyph(text[1..][i - 1], attribute);
      }
    }
  }

  lemma Inside(p: Page, w: nat)
    requires PageOk(p, w)
    ensures p.Position() < |p.cells|
  {
  }

  /** A printable character stands where it was printed, with the next place right after it. */
  lemma PutStands(p: Page, ch: nat, w: nat, tabWidth: nat, attribute: nat)
    requires PageOk(p, w) && IsPrintable(ch)
    ensures (
      var q := Typed(p, ch, w, tabWidth, attribute);
      && PageOk(q, w) && q.Position() == p.Position() + 1 <= |q.cells|
      && q.cells[..p.Position()] == p.cells[..p.Position()] && q.cells[p.Position()] == Glyph(ch, attribute))
  {
    PutOk(p, Glyph(ch, attribute), w);
  }

  /** Any character but the three that control the position changes exactly one cell, which becomes a question mark
      unless its low octet is printable, and goes one place on; a row that this adds is blank. */
  lemma CharacterStands(p: Page, ch: nat, w: nat, tabWidth: nat, attribute: nat)
    requires PageOk(p, w) && ch !in {TAB, NEWLINE, RETURN}
    ensures (
      var q := Typed(p, ch, w, tabWidth, attribute);
      var shown := if IsPrintable(ch % 256) then ch % 256 else QUESTION;
      && q.Position() == p.Position() + 1 && |q.cells| >= |p.cells| > p.Position()
      && q.cells[p.Position()] == Glyph(shown, attribute)
      && (forall i :: 0 <= i < |p.cells| && i != p.Position() ==> q.cells[i] == p.cells[i])
      && (forall i :: |p.cells| <= i < |q.cells| ==> q.cells[i] == Glyph(SPACE, attribute)))
  {
  }

  /** A carriage return changes no cell and goes to the start of the row, so that printable text after it stands from
      there on. */
  lemma ReturnStands(p: Page, text: seq<nat>, w: nat, tabWidth: nat, attribute: nat)
    requires PageOk(p, w) && forall i :: 0 <= i < |text| ==> IsPrintable(text[i])
    ensures (
      var q := Typed(p, RETURN, w, tabWidth, attribute);
      q.cells == p.cells && q.start == p.start && q.column == 0)
    ensures (
      var q := TypedAll(p, [RETURN] + text, w, tabWidth, attribute);
      && q.Position() == p.start + |text| <= |q.cells| && q.cells[..p.start] == p.cells[..p.start]
      && forall i :: 0 <= i < |text| ==> q.cells[p.start + i] == Glyph(text[i], attribute))
  {
    assert ([RETURN] + text)[1..] == text;
    TypedOk(p, RETURN, w, tabWidth, attribute);
    TextStands(Typed(p, RETURN, w, tabWidth, attribute), text, w, tabWidth, attribute);
  }

  /** A newline blanks the rest of the row, touches nothing else, and goes to the start of the next row. */
  lemma NewlineStands(p: Page, w: nat, tabWidth: nat, attribute: nat)
    requires PageOk(p, w)
    ensures (
      var q := Typed(p, NEWLINE, w, tabWidth, attribute);
      && q.start == p.start + w && q.column == 0 && |q.cells| >= |p.cells|
      && (forall i :: p.Position() <= i < p.start + w ==> q.cells[i] == Glyph(SPACE, attribute))
      && (forall i :: 0 <= i < |p.cells| && !(p.Position() <= i < p.start + w) ==> q.cells[i] == p.cells[i])
      && (forall i :: |p.cells| <= i < |q.cells| ==> q.cells[i] == Glyph(SPACE, attribute)))
  {
  }

  /** A tab puts blanks up to the tab stop, touches nothing else, and goes there. */
  lemma TabStands(p: Page, w: nat, tabWidth: nat, attribute: nat)
    requires PageOk(p, w)
    ensures (
      var q := Typed(p, TAB, w, tabWidth, attribute);
      var end := p.start + TabStop(p.column, w, tabWidth);
      && q.Position() == end && |q.cells| >= |p.cells| && p.Position() < end <= |p.cells|
      && (forall i :: p.Position() <= i < end ==> q.cells[i] == Glyph(SPACE, attribute))
      && (forall i :: 0 <= i < |p.cells| && !(p.Position() <= i < end) ==> q.cells[i] == p.cells[i]))
  {
    TabStopLaw(p.column, w, tabWidth);
    BlanksStand(p, TabStop(p.column, w, tabWidth) - p.column, w, attribute);
  }

  lemma {:induction false} BlanksStand(p: Page, n: nat, w: nat, attribute: nat)
    requires PageOk(p, w) && p.column + n <= w
    ensures (
      var q := Spaces(p, n, w, attribute);
      && q.Position() == p.Position() + n && |q.cells| >= |p.cells|
      && (forall i :: p.Position() <= i < p.Position() + n ==> q.cells[i] == Glyph(SPACE, attribute))
      && (forall i :: 0 <= i < |p.cells| && !(p.Position() <= i < p.Position() + n) ==> q.cells[i] == p.cells[i]))
    decreases n
  {
    if n > 0 {
      var g := Glyph(SPACE, attribute);
      PutOk(p, g, w);
      var next := Put(p, g, w);
      assert next.Position() == p.Position() + 1 && |next.cells| >= |p.cells|;
      assert forall i :: 0 <= i < |p.cells| ==> next.cells[i] == if i == p.Position() then g else p.cells[i];
      if p.column + 1 < w || n > 1 {
        hide Put, PageOk;
        BlanksStand(next, n - 1, w, attribute);
      }
    }
  }

  // ---------------------------------------------------------------------------------------------
  // The screen

  /** The buffer shows the last rows of the page, and the place to print at is the same. */
  ghost predicate Shows(buffer: seq<Glyph>, rowStart: nat, column: nat, p: Page) {
    && |buffer| <= |p.cells| && buffer == p.cells[|p.cells| - |buffer|..]
    && p.start == rowStart + (|p.cells| - |buffer|) && p.column == column
  }

  function Least(x: nat, y: nat): nat { if x < y then x else y }

  /** Printing goes on at `end`: not before the cursor nor before anything displayed, and no further. */
  ghost predicate IsPrintedEnd(buffer: seq<Glyph>, cursor: nat, end: nat) {
    && Least(cursor, |buffer|) <= end <= |buffer|
    && (forall i :: end <= i < |buffer| ==> !IsGraphical(buffer[i].character))
    && (end == Least(cursor, |buffer|) || (end > 0 && IsGraphical(buffer[end - 1].character)))
  }

  class Grid {
    const buffer: array<Glyph>
    const columnCount: nat
    const tabWidth: nat
    var attribute: nat
    var rowStart: nat
    var column: nat
    ghost var page: Page

    ghost predicate Shape() {
      columnCount > 0 && Multiple(buffer.Length, columnCount) && buffer.Length >= 3 * columnCount
    }

    ghost predicate Valid()
      reads this, buffer
    {
      && Shape() && Multiple(rowStart, columnCount) && column < columnCount && rowStart + columnCount <= buffer.Length
      && PageOk(page, columnCount) && Shows(buffer[..], rowStart, column, page)
    }

    function Position(): nat
      reads this
    {
      rowStart + column
    }

    /** `Grid::new()`. */
    constructor (buffer: array<Glyph>, columnCount: nat, rowCount: nat, tabWidth: nat, attribute: nat)
      requires columnCount >= 4 && rowCount >= 3 && columnCount * rowCount == buffer.Length
      ensures Valid() && this.buffer == buffer && this.columnCount == columnCount && this.tabWidth == tabWidth
      ensures rowStart == column == 0 && page == Page(buffer[..], 0, 0)
    {
      this.buffer, this.columnCount, this.tabWidth, this.attribute := buffer, columnCount, tabWidth, attribute;
      rowStart, column, page := 0, 0, Page(buffer[..], 0, 0);
      MulLe(3, rowCount, columnCount);
      DivUnique(buffer.Length, columnCount, rowCount, 0);
      DivUnique(0, columnCount, 0, 0);
    }

    /** `Grid::clear()`. */
    method Clear(from: nat, to: nat)
      requires from <= to <= buffer.Length
      modifies buffer
      ensures buffer[..] == old(buffer[..from]) + Blank(to - from, attribute) + old(buffer[to..])
    {
      var glyph := Glyph(SPACE, attribute);
      for i := from to to
        invariant buffer[..] == old(buffer[..from]) + Blank(i - from, attribute) + old(buffer[i..])
      {
        buffer[i] := glyph;
      }
    }

    /** `Grid::scroll()`: one row up, the last one blank. */
    method Scroll()
      requires columnCount <= buffer.Length
      modifies this`rowStart, buffer
      ensures buffer[..] == old(buffer[columnCount..]) + Blank(columnCount, attribute)
      ensures rowStart == if old(rowStart) >= columnCount then old(rowStart) - columnCount else old(rowStart)
    {
      var kept := buffer.Length - columnCount;
      MoveUp(kept);
      assert old(buffer[..])[columnCount..] == old(buffer[columnCount..]);
      Clear(kept, buffer.Length);
      if rowStart >= columnCount {
        rowStart := rowStart - columnCount;
      }
    }

    method MoveUp(kept: nat)
      requires kept + columnCount == buffer.Length
      modifies buffer
      ensures buffer[..kept] == old(buffer[..])[columnCount..]
    {
      ghost var was := buffer[..];
      for i := 0 to kept
        invariant buffer[..i] == was[columnCount..columnCount + i] && buffer[i..] == was[i..]
      {
        assert buffer[i + columnCount] == buffer[i..][columnCount];
        ghost var before := buffer[..];
        buffer[i] := buffer[i + columnCount];
        assert buffer[..] == before[i := was[i + columnCount]];
      }
    }

    /** `Grid::adjust_position()`. */
    method AdjustPosition(ghost p: Page)
      requires Shape() && Shows(buffer[..], rowStart, column, p) && column <= columnCount && rowStart <= buffer.Length
      requires column == columnCount ==> rowStart + columnCount <= buffer.Length
      modifies this`rowStart, this`column, buffer
      ensures Shows(buffer[..], rowStart, column, Settle(p, columnCount, attribute))
    {
      hide Multiple;
      if column >= columnCount {
        column := 0;
        rowStart := rowStart + columnCount;
      }
      if rowStart >= buffer.Length {
        assert old(buffer[..])[columnCount..] == old(buffer[columnCount..]);
        Scroll();
      }
    }

    /** Goes on from a page that the screen shows already, but for its position. */
    method SettleTo(ghost p: Page)
      requires Shape() && Shows(buffer[..], rowStart, column, p) && column <= columnCount && rowStart <= buffer.Length
      requires column == columnCount ==> rowStart + columnCount <= buffer.Length
      requires PageOk(Settle(p, columnCount, attribute), columnCount)
      modifies this`rowStart, this`column, this`page, buffer
      ensures Valid() && page == Settle(p, columnCount, attribute)
    {
      hide Multiple, Settle, PageOk, Shows;
      AdjustPosition(p);
      page := Settle(p, columnCount, attribute);
      InRange(buffer[..], rowStart, column, page, columnCount);
    }

    /** Writes a glyph at the position and goes on. */
    method PutGlyph(g: Glyph)
      requires Valid() && g.attribute == attribute
      modifies this`rowStart, this`column, this`page, buffer
      ensures Valid() && page == Put(old(page), g, columnCount)
    {
      hide Multiple, PageOk, Shows, Settle;
      Inside(page, columnCount);
      ghost var p := page.(cells := page.cells[page.Position() := g], column := page.column + 1);
      WriteShows(buffer[..], rowStart, column, page, g);
      PutOk(page, g, columnCount);
      ghost var before := buffer[..];
      buffer[Position()] := g;
      assert buffer[..] == before[rowStart + column := g];
      column := column + 1;
      SettleTo(p);
    }

    /** `Grid::character()`. */
    method Character(ch: nat)
      requires Valid()
      modifies this`rowStart, this`column, this`page, buffer
      ensures Valid() && page == Put(old(page), Glyph(Displayed(ch), attribute), columnCount)
    {
      PutGlyph(Glyph(Displayed(ch), attribute));
    }

    /** `Grid::newline()`. */
    method Newline()
      requires Valid()
      modifies this`rowStart, this`column, this`page, buffer
      ensures Valid() && page == NextRow(old(page), columnCount, attribute)
    {
      hide Multiple, Settle, Cleared, Shows;
      ghost var cleared := Cleared(page, columnCount, attribute);
      assert NextRow(page, columnCount, attribute) == Settle(cleared, columnCount, attribute);
      NextRowOk(page, columnCount, attribute);
      hide NextRow, PageOk;
      ClearRest();
      column := 0;
      rowStart := rowStart + columnCount;
      SettleTo(cleared);
    }

    /** Blanks the row from the position on. */
    method ClearRest()
      requires Valid()
      modifies buffer
      ensures page.column < columnCount && page.start + columnCount <= |page.cells|
      ensures Shows(buffer[..], rowStart + columnCount, 0, Cleared(page, columnCount, attribute))
    {
      assert page.column < columnCount && page.start + columnCount <= |page.cells|;
      hide Multiple, LineStart, Cleared, PageOk, Shows, Blank;
      var position := Position();
      RowOf(rowStart, column, columnCount);
      var lineEnd := LineStart(position, columnCount) + columnCount;
      ghost var before := buffer[..];
      ClearShows(before, rowStart, column, page, columnCount, attribute);
      assert before[..position] == buffer[..position] && before[lineEnd..] == buffer[lineEnd..];
      Clear(position, lineEnd);
    }

    /** `Grid::tab()`. */
    method Tab()
      requires Valid()
      modifies this`rowStart, this`column, this`page, buffer
      ensures Valid()
      ensures page == Spaces(old(page), TabStop(old(page).column, columnCount, tabWidth) - old(page).column,
                             columnCount, attribute)
    {
      assert column == page.column;
      hide PageOk, Shows, Put, Spaces, TabStop;
      TabStopLaw(column, columnCount, tabWidth);
      var count := TabStop(column, columnCount, tabWidth) - column;
      for i := 0 to count
        invariant Valid() &&
          Spaces(page, count - i, columnCount, attribute) == Spaces(old(page), count, columnCount, attribute)
      {
        SpacesStep(page, count - i, columnCount, attribute);
        PutGlyph(Glyph(SPACE, attribute));
      }
      SpacesStep(page, 0, columnCount, attribute);
    }

    /** `Grid::print_character()`. */
    method PrintCharacter(ch: nat)
      requires Valid()
      modifies this`rowStart, this`column, this`page, buffer
      ensures Valid() && page == Typed(old(page), ch, columnCount, tabWidth, attribute)
    {
      if ch == TAB {
        Tab();
      } else if ch == RETURN {
        column := 0;
        page := page.(column := 0);
      } else if ch == NEWLINE {
        Newline();
      } else {
        Character(ch);
      }
    }

    /** Any text: the screen shows the end of the page that the text makes. */
    method Print(text: seq<nat>)
      requires Valid()
      modifies this`rowStart, this`column, this`page, buffer
      ensures Valid() && page == TypedAll(old(page), text, columnCount, tabWidth, attribute)
      ensures Position() < buffer.Length && buffer[..] == page.cells[|page.cells| - buffer.Length..]
    {
      for n := 0 to |text|
        invariant Valid() && page == TypedAll(old(page), text[..n], columnCount, tabWidth, attribute)
      {
        hide PageOk, Shows, Typed, TypedAll;
        TypedMore(old(page), text[..n], text[n], columnCount, tabWidth, attribute);
        assert text[..n] + [text[n]] == text[..n + 1];
        PrintCharacter(text[n]);
      }
      assert text[..|text|] == text;
    }

    /** `Grid::printed_data_end()`: past the cursor and past everything displayed, and no further. */
    method PrintedDataEnd(cursor: nat) returns (end: nat)
      ensures IsPrintedEnd(buffer[..], cursor, end)
    {
      var position := Least(cursor, buffer.Length);
      end := position;
      for i := position to buffer.Length
        invariant position <= end <= i
        invariant forall k :: end <= k < i ==> !IsGraphical(buffer[k].character)
        invariant end == position || IsGraphical(buffer[end - 1].character)
      {
        if IsGraphical(buffer[i].character) {
          end := i + 1;
        }
      }
    }

    /** `Grid::init()`: printing goes on after what is displayed; a full screen is scrolled first. */
    method Init(cursor: nat) returns (position: nat)
      requires Valid()
      modifies this`rowStart, this`column, this`page, buffer
      ensures IsPrintedEnd(old(buffer[..]), cursor, position)
      ensures Valid() && position <= buffer.Length && page == Page(buffer[..], rowStart, column)
      ensures position < buffer.Length ==>
        && rowStart + column == position
        && buffer[..] == old(buffer[..position]) + Blank(buffer.Length - position, attribute)
      ensures position == buffer.Length ==>
        && rowStart + columnCount == buffer.Length && column == 0
        && buffer[..] == old(buffer[columnCount..]) + Blank(columnCount, attribute)
    {
      hide Multiple;
      position := PrintedDataEnd(cursor);
      LogPrinted(position);
      if rowStart >= buffer.Length {
        Scroll();
        MultipleZero(columnCount);
        MultipleMinus(buffer.Length, columnCount, columnCount);
      } else {
        MultipleGap(rowStart, buffer.Length, columnCount);
        Clear(position, buffer.Length);
      }
      page := Page(buffer[..], rowStart, column);
    }

    /** The part of `Grid::log_printed_data()` that finds the row and column of `position`. */
    method LogPrinted(position: nat)
      requires Shape() && position <= buffer.Length
      modifies this`rowStart, this`column
      ensures rowStart + column == position && Multiple(rowStart, columnCount) && column < columnCount
    {
      hide Multiple;
      rowStart, column := 0, 0;
      MultipleZero(columnCount);
      for i := 0 to position
        invariant rowStart + column == i && Multiple(rowStart, columnCount) && column < columnCount
      {
        column := column + 1;
        if column >= columnCount {
          MultipleNext(rowStart, columnCount);
          rowStart := rowStart + columnCount;
          column := 0;
        }
      }
    }

    /** `Grid::set_position()`. */
    method SetPosition(position: nat)
      requires Valid() && position < buffer.Length
      modifies this`rowStart, this`column, this`page
      ensures Valid() && rowStart + column == position && page.cells == old(page).cells
    {
      hide PageOk, Multiple;
      Coordinates(position, columnCount, buffer.Length);
      ghost var r, c := rowStart, column;
      column := position % columnCount;
      rowStart := position - column;
      Relocated(buffer[..], r, c, page, columnCount, rowStart, column);
      page := page.(start := rowStart + (|page.cells| - buffer.Length), column := column);
    }
  }

  lemma WriteShows(buffer: seq<Glyph>, rowStart: nat, column: nat, p: Page, g: Glyph)
    requires Shows(buffer, rowStart, column, p) && rowStart + column < |buffer|
    ensures p.Position() < |p.cells|
    ensures Shows(buffer[rowStart + column := g], rowStart, column + 1,
                  p.(cells := p.cells[p.Position() := g], column := p.column + 1))
  {
  }

  lemma ClearShows(buffer: seq<Glyph>, rowStart: nat, column: nat, p: Page, w: nat, attribute: nat)
    requires Shows(buffer, rowStart, column, p) && column < w && rowStart + w <= |buffer|
    ensures Shows(
      buffer[..rowStart + column] + Blank(w - column, attribute) + buffer[rowStart + w..], rowStart + w, 0,
      Cleared(p, w, attribute))
  {
  }

  lemma RowOf(rowStart: nat, column: nat, w: nat)
    requires Multiple(rowStart, w) && column < w
    ensures LineStart(rowStart + column, w) == rowStart
  {
    assert rowStart == (rowStart / w) * w;
    DivUnique(rowStart + column, w, rowStart / w, column);
  }

  lemma InRange(buffer: seq<Glyph>, rowStart: nat, column: nat, p: Page, w: nat)
    requires PageOk(p, w) && Shows(buffer, rowStart, column, p) && Multiple(|buffer|, w)
    ensures Multiple(rowStart, w) && rowStart + w <= |buffer| && column < w
  {
    var top := |p.cells| - |buffer|;
    MultipleMinus(|p.cells|, |buffer|, w);
    MultipleMinus(p.start, top, w);
  }

  lemma MultipleMinus(x: nat, y: nat, w: nat)
    requires Multiple(x, w) && Multiple(y, w) && y <= x
    ensures Multiple(x - y, w)
  {
    assert x == (x / w) * w && y == (y / w) * w;
    assert x - y == (x / w - y / w) * w;
    MulLe(if x / w < y / w then x / w + 1 else 0, y / w, w);
    DivUnique(x - y, w, x / w - y / w, 0);
  }

  lemma SpacesStep(p: Page, n: nat, w: nat, attribute: nat)
    requires PageOk(p, w)
    ensures Spaces(p, 0, w, attribute) == p && p.Position() < |p.cells|
    ensures PageOk(Put(p, Glyph(SPACE, attribute), w), w)
    ensures n > 0 ==> Spaces(p, n, w, attribute) == Spaces(Put(p, Glyph(SPACE, attribute), w), n - 1, w, attribute)
  {
    PutOk(p, Glyph(SPACE, attribute), w);
  }

  lemma MultipleZero(w: nat)
    requires w > 0
    ensures Multiple(0, w) && Multiple(w, w)
  {
    DivUnique(0, w, 0, 0);
    DivUnique(w, w, 1, 0);
  }

  lemma MultiplePlus(x: nat, y: nat, w: nat)
    requires Multiple(x, w) && Multiple(y, w)
    ensures Multiple(x + y, w)
  {
    assert x == (x / w) * w && y == (y / w) * w;
    assert x + y == (x / w + y / w) * w;
    DivUnique(x + y, w, x / w + y / w, 0);
  }

  lemma Relocated(buffer: seq<Glyph>, rowStart: nat, column: nat, p: Page, w: nat, start: nat, c: nat)
    requires PageOk(p, w) && Shows(buffer, rowStart, column, p) && Multiple(|buffer|, w)
    requires Multiple(start, w) && c < w && start + w <= |buffer|
    ensures (
      var q := p.(start := start + (|p.cells| - |buffer|), column := c);
      PageOk(q, w) && Shows(buffer, start, c, q))
  {
    hide Multiple;
    MultipleMinus(|p.cells|, |buffer|, w);
    MultiplePlus(start, |p.cells| - |buffer|, w);
  }

  lemma Coordinates(position: nat, w: nat, len: nat)
    requires position < len && Multiple(len, w)
    ensures position % w < w && position % w <= position
    ensures Multiple(position - position % w, w) && position - position % w + w <= len
  {
    var q := position / w;
    assert position == q * w + position % w;
    DivUnique(q * w, w, q, 0);
    MultipleGap(q * w, len, w);
  }
}
