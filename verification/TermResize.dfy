/** tresize of package/simple-terminal/src/main.c. */
module TermResize {
  import opened TermScreen
  import opened TermClass

  /** The rows from `from` on, `kept` of them, at the width col, and blank rows below them: what
      a kept row showed it shows still, as far as it is wide enough. */
  predicate Resized(l0: seq<Row>, l1: seq<Row>, from: int, kept: int, row: int, col: int) {
    && |l1| == row && 0 <= from && 0 <= kept <= row && from + kept <= |l0| && WidthOk(l1, col)
    && (forall y :: 0 <= y < kept ==> KeptRow(l0[from + y], l1[y]))
    && (forall y :: kept <= y < row ==> BlankRow(l1[y]))
  }

  predicate KeptRow(r0: Row, r1: Row) {
    && r1.id == r0.id
    && forall x :: 0 <= x < |r1.cells| ==>
         if x < |r0.cells| then r1.cells[x] == r0.cells[x] else !r1.cells[x].isSet
  }

  /** The rows before `from` and after the kept ones are freed, each once. */
  predicate FreedRest(l0: seq<Row>, freed: seq<nat>, from: int, kept: int) {
    0 <= from && 0 <= kept && from + kept <= |l0| && freed == Ids(l0[..from]) + Ids(l0[from + kept..])
  }

  /** Every old buffer is kept or freed, and none is both or twice: the buffers of the old
      screen are those freed and those that the new screen has on top. */
  lemma KeptOrFreed(l0: seq<Row>, l1: seq<Row>, freed: seq<nat>, from: int, kept: int, row: int, col: int)
    requires Resized(l0, l1, from, kept, row, col) && FreedRest(l0, freed, from, kept)
    ensures multiset(Ids(l0)) == multiset(freed) + multiset(Ids(l1)[..kept])
  {
    var k := Ids(l1)[..kept];
    assert k == Ids(l0)[from..from + kept];
    assert Ids(l0[..from]) == Ids(l0)[..from];
    assert Ids(l0[from + kept..]) == Ids(l0)[from + kept..];
    assert Ids(l0) == Ids(l0)[..from] + k + Ids(l0)[from + kept..];
  }

  /** More than every id. */
  function Unused(rows: seq<Row>): (n: nat)
    ensures forall y :: 0 <= y < |rows| ==> rows[y].id < n
  {
    if rows == [] then 0 else Max(Unused(rows[..|rows| - 1]), rows[|rows| - 1].id + 1)
  }

  /** The free loops: the rows from a to b are freed. */
  method FreeRows(rows: seq<Row>, a: int, b: int) returns (freed: seq<nat>)
    requires 0 <= a <= b <= |rows|
    ensures freed == Ids(rows[a..b])
  {
    freed := [];
    var i := a;
    while i < b
      invariant a <= i <= b && freed == Ids(rows[a..i])
    {
      freed := freed + [rows[i].id];
      i := i + 1;
    }
  }

  /** xrealloc of a row, and GLYPH_SET off in the columns that are new; otherwise they hold
      whatever was there. */
  method Rewidth(r: Row, col: int) returns (s: Row)
    requires col >= 0
    ensures |s.cells| == col && KeptRow(r, s)
  {
    var n := Min(|r.cells|, col);
    var cells := r.cells[..n];
    while |cells| < col
      invariant n <= |cells| <= col && cells[..n] == r.cells[..n]
      invariant forall x :: n <= x < |cells| ==> !cells[x].isSet
    {
      var junk: Glyph := *;
      cells := cells + [junk.(isSet := false)];
    }
    s := Row(r.id, cells);
    assert forall x :: 0 <= x < n ==> cells[x] == cells[..n][x];
  }

  /** The loops that give every kept row its new width, and that allocate the rows missing. */
  method ResizeRows(rows: seq<Row>, unused: nat, row: int, col: int) returns (l: seq<Row>)
    requires |rows| <= row && 0 <= col
    ensures Resized(rows, l, 0, |rows|, row, col)
    ensures forall y :: |rows| <= y < row ==> l[y].id == unused + y
  {
    hide KeptRow; hide BlankRow;
    l := [];
    while |l| < |rows|
      invariant |l| <= |rows|
      invariant forall y :: 0 <= y < |l| ==> |l[y].cells| == col && KeptRow(rows[y], l[y])
    {
      var r := Rewidth(rows[|l|], col);
      l := l + [r];
    }
    while |l| < row
      invariant |rows| <= |l| <= row
      invariant forall y :: 0 <= y < |rows| ==> KeptRow(rows[y], l[y])
      invariant forall y :: |rows| <= y < |l| ==> BlankRow(l[y]) && l[y].id == unused + y
      invariant forall y :: 0 <= y < |l| ==> |l[y].cells| == col
    {
      ZeroBlank(unused + |l|, col);
      l := l + [Row(unused + |l|, seq(col, x => ZERO_GLYPH))];
    }
  }

  lemma ZeroBlank(id: nat, col: nat)
    ensures BlankRow(Row(id, seq(col, x => ZERO_GLYPH)))
  {
  }

  /** The last tab stop, or column 0 if there is none. */
  function LastStop(tabs: seq<bool>): nat {
    if |tabs| <= 1 then 0 else if tabs[|tabs| - 1] then |tabs| - 1 else LastStop(tabs[..|tabs| - 1])
  }

  /** The tab stops at another width: the old ones as far as they fit; and if the screen became
      wider, one every TABSPACES columns from the last. */
  predicate TabsResized(t0: seq<bool>, t1: seq<bool>, col: int) {
    && |t1| == col
    && forall k :: 0 <= k < col ==>
         t1[k] == ((k < |t0| && t0[k]) || (col > |t0| && k > LastStop(t0) && (k - LastStop(t0)) % TABSPACES == 0))
  }

  method ResizeTabs(tabs: seq<bool>, col: int) returns (t: seq<bool>)
    requires 1 <= |tabs| && 1 <= col
    ensures TabsResized(tabs, t, col)
  {
    if col <= |tabs| { return tabs[..col]; }
    t := tabs + seq(col - |tabs|, k => false);
    var bp := |tabs| - 1;
    assert tabs[..|tabs|] == tabs;
    while bp > 0 && !t[bp]
      invariant 0 <= bp < |tabs| && LastStop(tabs[..bp + 1]) == LastStop(tabs)
    {
      assert tabs[..bp + 1][..bp] == tabs[..bp];
      bp := bp - 1;
    }
    t := AddStops(t, bp);
  }

  /** Its last loop: a stop every TABSPACES columns after the last one. */
  method AddStops(tabs: seq<bool>, last: nat) returns (t: seq<bool>)
    ensures |t| == |tabs|
    ensures forall k :: 0 <= k < |t| ==> t[k] == (tabs[k] || (k > last && (k - last) % TABSPACES == 0))
  {
    t := tabs;
    var bp := last + TABSPACES;
    while bp < |t|
      invariant last + TABSPACES <= bp && (bp - last) % TABSPACES == 0 && |t| == |tabs|
      invariant forall k :: 0 <= k < |t| ==> t[k] == (tabs[k] || (last < k < bp && (k - last) % TABSPACES == 0))
    {
      t := t[bp := true];
      bp := bp + TABSPACES;
    }
  }

  lemma TabsLength(t0: seq<bool>, t1: seq<bool>, col: int)
    requires TabsResized(t0, t1, col)
    ensures |t1| == col
  {
  }

  /** The two screens after the loops are as they should be. */
  lemma ResizedScreens(row0: int, col0: int, l0: seq<Row>, a0: seq<Row>, d0: seq<bool>, t0: seq<bool>,
                       row: int, col: int, l1: seq<Row>, a1: seq<Row>, d1: seq<bool>, t1: seq<bool>,
                       from: int, kept: int, n: nat, m: nat)
    requires ScreenOk(row0, col0, l0, a0, d0, t0) && 1 <= row && 1 <= col && |d1| == row && |t1| == col
    requires Resized(l0, l1, from, kept, row, col) && Resized(a0, a1, from, kept, row, col)
    requires forall y :: 0 <= y < |l0| ==> l0[y].id < n
    requires forall y :: 0 <= y < |a0| ==> a0[y].id < n
    requires m == n + row
    requires forall y :: kept <= y < row ==> l1[y].id == n + y
    requires forall y :: kept <= y < row ==> a1[y].id == m + y
    ensures ScreenOk(row, col, l1, a1, d1, t1)
  {
    hide BlankRow;
    forall y | 0 <= y < kept
      ensures l1[y].id == l0[from + y].id && l1[y].id < n && a1[y].id == a0[from + y].id && a1[y].id < n
    {
      assert KeptRow(l0[from + y], l1[y]) && KeptRow(a0[from + y], a1[y]);
    }
    DistinctFrom(l0, l1, from, kept, n);
    DistinctFrom(a0, a1, from, kept, m);
    ApartFrom(l0, a0, l1, a1, from, kept, n, m);
  }

  lemma DistinctFrom(l0: seq<Row>, l1: seq<Row>, from: int, kept: int, n: nat)
    requires Distinct(l0) && 0 <= from && 0 <= kept <= |l1| && from + kept <= |l0|
    requires forall y :: 0 <= y < kept ==> l1[y].id == l0[from + y].id && l1[y].id < n
    requires forall y :: kept <= y < |l1| ==> l1[y].id == n + y
    ensures Distinct(l1)
  {
  }

  lemma ApartFrom(l0: seq<Row>, a0: seq<Row>, l1: seq<Row>, a1: seq<Row>, from: int, kept: int, n: nat, m: nat)
    requires Apart(l0, a0) && 0 <= from && 0 <= kept <= |l1| == |a1| && from + kept <= |l0| == |a0| && m == n + |l1|
    requires forall y :: 0 <= y < kept ==> l1[y].id == l0[from + y].id && l1[y].id < n
    requires forall y :: 0 <= y < kept ==> a1[y].id == a0[from + y].id && a1[y].id < n
    requires forall y :: kept <= y < |l1| ==> l1[y].id == n + y
    requires forall y :: kept <= y < |a1| ==> a1[y].id == m + y
    ensures Apart(l1, a1)
  {
  }

  /** The first part of tresize for one screen: rows are freed at the top if the screen slides,
      the rest moves up, and rows are freed at the bottom if there are too many. */
  method CutRows(rows: seq<Row>, slide: int, row: int) returns (cut: seq<Row>, freed: seq<nat>)
    requires 1 <= row && (slide > 0 ==> slide + row <= |rows|)
    ensures var from, kept := Max(slide, 0), Min(row, |rows|);
            from + kept <= |rows| && cut == rows[from..from + kept] && FreedRest(rows, freed, from, kept)
  {
    var i := 0;
    cut, freed := rows, [];
    if slide > 0 {
      freed := FreeRows(cut, 0, slide);
      cut := rows[slide..slide + row] + rows[row..];
      i := slide;
    }
    i := i + row;
    if i < |rows| {
      var rest := FreeRows(cut, i, |rows|);
      assert cut[i..|rows|] == rows[i..];
      freed := freed + rest;
    }
    assert i < |rows| || Ids(rows[Max(slide, 0) + Min(row, |rows|)..]) == [];
    assert slide > 0 || Ids(rows[..0]) == [];
    cut := cut[..Min(row, |rows|)];
  }

  lemma ResizedFrom(rows: seq<Row>, l: seq<Row>, from: int, kept: int, row: int, col: int)
    requires 0 <= from && 0 <= kept <= row && from + kept <= |rows|
    requires Resized(rows[from..from + kept], l, 0, kept, row, col)
    ensures Resized(rows, l, from, kept, row, col)
  {
    hide KeptRow; hide BlankRow;
    var cut := rows[from..from + kept];
    forall y | 0 <= y < kept ensures KeptRow(rows[from + y], l[y]) { assert cut[0 + y] == rows[from + y]; }
  }

  /** The loops of tresize, on both screens. */
  method ResizeScreens(row0: int, col0: int, line0: seq<Row>, alt0: seq<Row>, dirty0: seq<bool>, tabs0: seq<bool>,
                       slide: int, row: int, col: int)
    returns (line: seq<Row>, alt: seq<Row>, dirty: seq<bool>, tabs: seq<bool>, freedLine: seq<nat>, freedAlt: seq<nat>)
    requires ScreenOk(row0, col0, line0, alt0, dirty0, tabs0) && 1 <= row && 1 <= col
    requires slide > 0 ==> slide + row <= row0
    ensures ScreenOk(row, col, line, alt, dirty, tabs) && AllMarked(dirty) && TabsResized(tabs0, tabs, col)
    ensures Resized(line0, line, Max(slide, 0), Min(row, row0), row, col) && FreedRest(line0, freedLine, Max(slide, 0), Min(row, row0))
    ensures Resized(alt0, alt, Max(slide, 0), Min(row, row0), row, col) && FreedRest(alt0, freedAlt, Max(slide, 0), Min(row, row0))
  {
    hide ScreenOk; hide Resized; hide FreedRest; hide TabsResized;
    Sizes(row0, col0, line0, alt0, dirty0, tabs0);
    ghost var from, kept := Max(slide, 0), Min(row, row0);
    var n := Max(Unused(line0), Unused(alt0));
    line, freedLine := CutRows(line0, slide, row);
    alt, freedAlt := CutRows(alt0, slide, row);
    line := ResizeRows(line, n, row, col);
    alt := ResizeRows(alt, n + row, row, col);
    dirty := seq(row, y => true);
    tabs := ResizeTabs(tabs0, col);
    TabsLength(tabs0, tabs, col);
    ResizedFrom(line0, line, from, kept, row, col);
    ResizedFrom(alt0, alt, from, kept, row, col);
    ResizedScreens(row0, col0, line0, alt0, dirty0, tabs0, row, col, line, alt, dirty, tabs, from, kept, n, n + row);
  }

  /** The surface is created anew. */
  function EmptySurface(row: nat): (s: seq<Painted>)
    ensures |s| == row
  {
    seq(row, y => Painted([], false))
  }

  /** How far the screen slides up: enough to keep the cursor on it. */
  function Slide(c: Cursor, row: int): int { c.y - row + 1 }

  /** The cursor is still in the row it was in. */
  predicate CursorKept(l0: seq<Row>, c0: Cursor, l1: seq<Row>, c1: Cursor, row: int, col: int) {
    && 1 <= row && 1 <= col && c1 == Moved(c0, row, col, c0.x, c0.y)
    && 0 <= c0.y < |l0| && c1.y < |l1| && l1[c1.y].id == l0[c0.y].id
  }

  lemma CursorStays(l0: seq<Row>, c0: Cursor, l1: seq<Row>, row: int, col: int)
    requires 1 <= row && 1 <= col && 0 <= c0.y < |l0|
    requires Resized(l0, l1, Max(Slide(c0, row), 0), Min(row, |l0|), row, col)
    ensures CursorKept(l0, c0, l1, Moved(c0, row, col, c0.x, c0.y), row, col)
  {
    var from, kept := Max(Slide(c0, row), 0), Min(row, |l0|);
    assert KeptRow(l0[from + (c0.y - from)], l1[c0.y - from]);
  }

  /** The last part of tresize: the new screens and sizes, the cursor cut off at them, and the
      whole screen as scrolling region. */
  method Install(t: Term, line: seq<Row>, alt: seq<Row>, dirty: seq<bool>, tabs: seq<bool>, col: int, row: int)
    requires t.Valid() && ScreenOk(row, col, line, alt, dirty, tabs) && AllMarked(dirty) && 1 <= row && 1 <= col
    modifies t`row, t`col, t`line, t`alt, t`dirty, t`tabs, t`shown, t`c, t`top, t`bot
    ensures t.Valid() && t.line == line && t.alt == alt && t.dirty == dirty && t.tabs == tabs && t.row == row && t.col == col
    ensures t.c == Moved(old(t.c), row, col, old(t.c).x, old(t.c).y) && t.top == 0 && t.bot == row - 1
  {
    hide ScreenOk; hide Fresh; hide AllMarked; hide PenOk; hide EmptySurface;
    Sizes(row, col, line, alt, dirty, tabs);
    t.line, t.alt, t.dirty, t.tabs := line, alt, dirty, tabs;
    t.shown := EmptySurface(row);
    AllMarkedFresh(line, dirty, t.shown, ReverseVideo in t.mode);
    t.col, t.row := col, row;
    t.c := Moved(t.c, row, col, t.c.x, t.c.y);
    t.top, t.bot := 0, row - 1;
  }

  /** tresize. The screen slides up if the cursor would be cut off; every old row is kept or
      freed once; and the cursor is still in the row it was in. */
  method Resize(t: Term, col: int, row: int) returns (slid: bool, freedLine: seq<nat>, freedAlt: seq<nat>)
    requires t.Valid()
    modifies t`row, t`col, t`line, t`alt, t`dirty, t`tabs, t`shown, t`c, t`top, t`bot
    ensures t.Valid()
    ensures col < 1 || row < 1 ==> !slid && freedLine == freedAlt == [] && t.line == old(t.line) && t.alt == old(t.alt)
                                   && t.row == old(t.row) && t.col == old(t.col) && t.c == old(t.c)
    ensures col >= 1 && row >= 1 ==>
              var from, kept := Max(Slide(old(t.c), row), 0), Min(row, old(t.row));
              && t.row == row && t.col == col && slid == (Slide(old(t.c), row) > 0)
              && Resized(old(t.line), t.line, from, kept, row, col) && FreedRest(old(t.line), freedLine, from, kept)
              && Resized(old(t.alt), t.alt, from, kept, row, col) && FreedRest(old(t.alt), freedAlt, from, kept)
    ensures col >= 1 && row >= 1 ==> CursorKept(old(t.line), old(t.c), t.line, t.c, row, col)
    ensures col >= 1 && row >= 1 ==> TabsResized(old(t.tabs), t.tabs, col) && AllMarked(t.dirty) && t.top == 0 && t.bot == row - 1
  {
    hide ScreenOk; hide Fresh; hide Resized; hide FreedRest; hide AllMarked; hide CursorKept; hide PenOk; hide TabsResized;
    freedLine, freedAlt := [], [];
    var slide := Slide(t.c, row);
    if col < 1 || row < 1 { return false, [], []; }
    Sizes(t.row, t.col, t.line, t.alt, t.dirty, t.tabs);
    var line, alt, dirty, tabs;
    line, alt, dirty, tabs, freedLine, freedAlt :=
      ResizeScreens(t.row, t.col, t.line, t.alt, t.dirty, t.tabs, slide, row, col);
    CursorStays(t.line, t.c, line, row, col);
    Install(t, line, alt, dirty, tabs, col, row);
    slid := slide > 0;
  }
}
