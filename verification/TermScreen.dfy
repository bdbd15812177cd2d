/** The screen of package/simple-terminal/src/main.c: row buffers, two screens of them, and
    the dirty marks of the visible one. */
module TermScreen {

  datatype Attr = Reverse | Underline | Bold | Gfx | Italic | Blink

  /** Attributes of a character: mode flags and colour indexes. */
  datatype Pen = Pen(mode: set<Attr>, fg: int, bg: int)

  const DEFAULT_FG := 7
  const DEFAULT_BG := 0
  const TABSPACES := 4

  predicate PenOk(p: Pen) { 0 <= p.fg <= 255 && 0 <= p.bg <= 255 }

  /** A cell: its character, its attributes, and GLYPH_SET. */
  datatype Glyph = Glyph(c: nat, pen: Pen, isSet: bool)

  /** A zeroed cell. */
  const ZERO_GLYPH := Glyph(0, Pen({}, 0, 0), false)

  /** A row buffer. The id stands for its address: line and alt hold row pointers, which
      scrolling and resizing move around. */
  datatype Row = Row(id: nat, cells: seq<Glyph>)

  function Ids(rows: seq<Row>): (ids: seq<nat>)
    ensures |ids| == |rows| && forall y :: 0 <= y < |rows| ==> ids[y] == rows[y].id
  {
    seq(|rows|, y requires 0 <= y < |rows| => rows[y].id)
  }

  predicate WidthOk(rows: seq<Row>, col: int) {
    forall y :: 0 <= y < |rows| ==> |rows[y].cells| == col
  }

  /** No buffer is pointed to twice. */
  predicate Distinct(rows: seq<Row>) {
    forall i, j :: 0 <= i < j < |rows| ==> rows[i].id != rows[j].id
  }

  /** No buffer is on both screens. */
  predicate Apart(a: seq<Row>, b: seq<Row>) {
    forall i, j :: 0 <= i < |a| && 0 <= j < |b| ==> a[i].id != b[j].id
  }

  /** Two screens of row distinct buffers of col cells each. */
  predicate ScreenOk(row: int, col: int, line: seq<Row>, alt: seq<Row>, dirty: seq<bool>, tabs: seq<bool>) {
    && 1 <= row && 1 <= col
    && |line| == row && |alt| == row && |dirty| == row && |tabs| == col
    && WidthOk(line, col) && WidthOk(alt, col)
    && Distinct(line) && Distinct(alt) && Apart(line, alt)
  }

  lemma Sizes(row: int, col: int, line: seq<Row>, alt: seq<Row>, dirty: seq<bool>, tabs: seq<bool>)
    requires ScreenOk(row, col, line, alt, dirty, tabs)
    ensures 1 <= row && 1 <= col && |line| == |alt| == |dirty| == row && |tabs| == col && WidthOk(line, col)
  {
  }

  lemma OtherMarks(row: int, col: int, line: seq<Row>, alt: seq<Row>, d0: seq<bool>, tabs: seq<bool>, d1: seq<bool>)
    requires ScreenOk(row, col, line, alt, d0, tabs) && |d1| == |d0|
    ensures ScreenOk(row, col, line, alt, d1, tabs)
  {
  }

  lemma OtherTabs(row: int, col: int, line: seq<Row>, alt: seq<Row>, dirty: seq<bool>, t0: seq<bool>, t1: seq<bool>)
    requires ScreenOk(row, col, line, alt, dirty, t0) && |t1| == |t0|
    ensures ScreenOk(row, col, line, alt, dirty, t1)
  {
  }

  /** TCursor: the attributes to print with, the position, CURSOR_HIDE and CURSOR_WRAPNEXT. */
  datatype Cursor = Cursor(pen: Pen, x: int, y: int, hidden: bool, wrapNext: bool)

  predicate CursorOk(row: int, col: int, c: Cursor, top: int, bot: int) {
    && 0 <= c.x < col && 0 <= c.y < row && 0 <= top <= bot < row
    && (c.wrapNext ==> c.x == col - 1) && PenOk(c.pen)
  }

  /** tmoveto */
  function Moved(c: Cursor, row: int, col: int, x: int, y: int): (m: Cursor)
    requires 1 <= row && 1 <= col
    ensures 0 <= m.x < col && 0 <= m.y < row && !m.wrapNext && m.pen == c.pen && m.hidden == c.hidden
    ensures 0 <= x < col ==> m.x == x
    ensures 0 <= y < row ==> m.y == y
  {
    c.(x := Limit(x, 0, col - 1), y := Limit(y, 0, row - 1), wrapNext := false)
  }

  /** From screen l0 with marks d0 to l1 with d1: no mark is lost, and a row that shows
      something else than before is marked. */
  predicate Tracked(l0: seq<Row>, d0: seq<bool>, l1: seq<Row>, d1: seq<bool>) {
    && |l0| == |l1| == |d0| == |d1|
    && forall y :: 0 <= y < |l0| ==> (d0[y] ==> d1[y]) && (l0[y].cells != l1[y].cells ==> d1[y])
  }

  lemma TrackedTwice(l0: seq<Row>, d0: seq<bool>, l1: seq<Row>, d1: seq<bool>, l2: seq<Row>, d2: seq<bool>)
    requires Tracked(l0, d0, l1, d1) && Tracked(l1, d1, l2, d2)
    ensures Tracked(l0, d0, l2, d2)
  {
  }

  lemma TrackedSame(l: seq<Row>, d: seq<bool>)
    requires |l| == |d|
    ensures Tracked(l, d, l, d)
  {
  }

  /** What the surface shows of a row: its cells, in normal or reverse video. */
  datatype Painted = Painted(cells: seq<Glyph>, reverse: bool)

  /** A row that is not marked is shown as it is. */
  predicate Fresh(line: seq<Row>, dirty: seq<bool>, shown: seq<Painted>, reverse: bool) {
    && |line| == |dirty| == |shown|
    && forall y :: 0 <= y < |line| && !dirty[y] ==> shown[y] == Painted(line[y].cells, reverse)
  }

  lemma TrackedFresh(l0: seq<Row>, d0: seq<bool>, l1: seq<Row>, d1: seq<bool>, shown: seq<Painted>, reverse: bool)
    requires Tracked(l0, d0, l1, d1) && Fresh(l0, d0, shown, reverse)
    ensures Fresh(l1, d1, shown, reverse)
  {
  }

  /** d1 is d0 with the rows from a to b marked. */
  predicate Marked(d0: seq<bool>, d1: seq<bool>, a: int, b: int) {
    |d1| == |d0| && forall y :: 0 <= y < |d0| ==> d1[y] == (d0[y] || a <= y <= b)
  }

  /** Rows outside a to b are the same buffers with the same contents. */
  predicate SameOutside(l0: seq<Row>, l1: seq<Row>, a: int, b: int) {
    |l1| == |l0| && forall y :: 0 <= y < |l0| && !(a <= y <= b) ==> l1[y] == l0[y]
  }

  lemma MarkedTracked(l0: seq<Row>, d0: seq<bool>, l1: seq<Row>, d1: seq<bool>, a: int, b: int)
    requires SameOutside(l0, l1, a, b) && Marked(d0, d1, a, b) && |d0| == |l0|
    ensures Tracked(l0, d0, l1, d1)
  {
  }

  function Limit(x: int, a: int, b: int): int { if x < a then a else if x > b then b else x }

  function Min(x: int, y: int): int { if x < y then x else y }

  function Max(x: int, y: int): int { if x < y then y else x }

  /** A cell after tclearregion. */
  function Cleared(g: Glyph): Glyph { g.(isSet := false) }

  predicate BlankRow(r: Row) { forall x :: 0 <= x < |r.cells| ==> !r.cells[x].isSet }

  /** Row r1 is r0 with the cells from x1 to x2 cleared. */
  predicate RowCleared(r0: Row, r1: Row, x1: int, x2: int) {
    && r1.id == r0.id && |r1.cells| == |r0.cells|
    && forall x :: 0 <= x < |r0.cells| ==>
         r1.cells[x] == if x1 <= x <= x2 then Cleared(r0.cells[x]) else r0.cells[x]
  }

  /** What tclearregion leaves of the screen, for bounds that are in order and on it. */
  predicate ClearedRegion(l0: seq<Row>, l1: seq<Row>, x1: int, y1: int, x2: int, y2: int) {
    SameOutside(l0, l1, y1, y2)
    && forall y :: 0 <= y < |l0| && y1 <= y <= y2 ==> RowCleared(l0[y], l1[y], x1, x2)
  }

  predicate SameBuffers(l0: seq<Row>, l1: seq<Row>) {
    && |l1| == |l0|
    && forall y :: 0 <= y < |l0| ==> l1[y].id == l0[y].id && |l1[y].cells| == |l0[y].cells|
  }

  lemma ClearedSame(l0: seq<Row>, l1: seq<Row>, x1: int, y1: int, x2: int, y2: int)
    requires ClearedRegion(l0, l1, x1, y1, x2, y2)
    ensures SameBuffers(l0, l1)
  {
  }

  lemma BuffersOk(row: int, col: int, l0: seq<Row>, alt: seq<Row>, d0: seq<bool>, tabs: seq<bool>, l1: seq<Row>, d1: seq<bool>)
    requires ScreenOk(row, col, l0, alt, d0, tabs) && SameBuffers(l0, l1) && |d1| == |d0|
    ensures ScreenOk(row, col, l1, alt, d1, tabs)
  {
  }

  lemma ClearStep(l0: seq<Row>, l: seq<Row>, r: Row, x1: int, y1: int, x2: int, i: int)
    requires 0 <= y1 <= i < |l0| && ClearedRegion(l0, l, x1, y1, x2, i - 1) && RowCleared(l[i], r, x1, x2)
    ensures ClearedRegion(l0, l[i := r], x1, y1, x2, i)
  {
  }

  lemma ClearNone(l0: seq<Row>, x1: int, y1: int, x2: int)
    ensures ClearedRegion(l0, l0, x1, y1, x2, y1 - 1)
  {
  }

  lemma ClearedWidth(l0: seq<Row>, l: seq<Row>, x1: int, y1: int, x2: int, y2: int, col: int, i: int)
    requires WidthOk(l0, col) && ClearedRegion(l0, l, x1, y1, x2, y2) && 0 <= i < |l0|
    ensures |l| == |l0| && |l[i].cells| == col
  {
    ClearedSame(l0, l, x1, y1, x2, y2);
  }

  lemma ClearedKeeps(row: int, col: int, l0: seq<Row>, alt: seq<Row>, d0: seq<bool>, tabs: seq<bool>,
                     l1: seq<Row>, d1: seq<bool>, x1: int, y1: int, x2: int, y2: int)
    requires ScreenOk(row, col, l0, alt, d0, tabs)
    requires ClearedRegion(l0, l1, x1, y1, x2, y2) && Marked(d0, d1, y1, y2)
    ensures ScreenOk(row, col, l1, alt, d1, tabs) && Tracked(l0, d0, l1, d1)
  {
    hide WidthOk; hide Distinct; hide Apart; hide RowCleared;
    ClearedSame(l0, l1, x1, y1, x2, y2);
    BuffersOk(row, col, l0, alt, d0, tabs, l1, d1);
    MarkedTracked(l0, d0, l1, d1, y1, y2);
  }

  /** The screen with other cells in row y. */
  function WithCells(l: seq<Row>, y: int, cells: seq<Glyph>): seq<Row>
    requires 0 <= y < |l|
  {
    l[y := l[y].(cells := cells)]
  }

  lemma CellsKeep(row: int, col: int, l0: seq<Row>, alt: seq<Row>, d0: seq<bool>, tabs: seq<bool>, y: int, cells: seq<Glyph>)
    requires ScreenOk(row, col, l0, alt, d0, tabs) && 0 <= y < row && |cells| == col
    ensures ScreenOk(row, col, WithCells(l0, y, cells), alt, d0[y := true], tabs)
    ensures Tracked(l0, d0, WithCells(l0, y, cells), d0[y := true]) && Marked(d0, d0[y := true], y, y)
  {
    var l1 := WithCells(l0, y, cells);
    assert SameBuffers(l0, l1);
    BuffersOk(row, col, l0, alt, d0, tabs, l1, d0[y := true]);
  }

  // ---- deleting and inserting characters

  /** In row y the cells from x on move left by n; what nothing moves onto is blank. */
  predicate CharsDeleted(l0: seq<Row>, l1: seq<Row>, y: int, x: int, n: int) {
    && SameOutside(l0, l1, y, y) && 0 <= y < |l0| && 0 <= x && 0 <= n
    && l1[y].id == l0[y].id && |l1[y].cells| == |l0[y].cells|
    && forall k {:trigger l1[y].cells[k]} :: 0 <= k < |l0[y].cells| ==>
         if k < x then l1[y].cells[k] == l0[y].cells[k]
         else if k + n < |l0[y].cells| then l1[y].cells[k] == l0[y].cells[k + n]
         else !l1[y].cells[k].isSet
  }

  /** In row y the cells from x on move right by n; what nothing moves onto is blank. */
  predicate BlanksInserted(l0: seq<Row>, l1: seq<Row>, y: int, x: int, n: int) {
    && SameOutside(l0, l1, y, y) && 0 <= y < |l0| && 0 <= x && 0 <= n
    && l1[y].id == l0[y].id && |l1[y].cells| == |l0[y].cells|
    && forall k {:trigger l1[y].cells[k]} :: 0 <= k < |l0[y].cells| ==>
         if k < x then l1[y].cells[k] == l0[y].cells[k]
         else if k - n >= x then l1[y].cells[k] == l0[y].cells[k - n]
         else !l1[y].cells[k].isSet
  }

  /** memmove within a row: size cells from src to dst. */
  function MoveCells(s: seq<Glyph>, dst: nat, src: nat, size: nat): (t: seq<Glyph>)
    requires dst + size <= |s| && src + size <= |s|
    ensures |t| == |s|
  {
    s[..dst] + s[src..src + size] + s[dst + size..]
  }

  lemma DeleteEffect(l0: seq<Row>, l1: seq<Row>, y: int, x: nat, n: nat, col: int)
    requires 0 <= y < |l0| && |l0[y].cells| == col && x + n < col && n >= 1
    requires ClearedRegion(WithCells(l0, y, MoveCells(l0[y].cells, x, x + n, col - x - n)), l1, col - n, y, col - 1, y)
    ensures CharsDeleted(l0, l1, y, x, n)
  {
    var m := WithCells(l0, y, MoveCells(l0[y].cells, x, x + n, col - x - n));
    assert RowCleared(m[y], l1[y], col - n, col - 1);
  }

  lemma InsertEffect(l0: seq<Row>, l1: seq<Row>, y: int, x: nat, n: nat, col: int)
    requires 0 <= y < |l0| && |l0[y].cells| == col && x + n < col && n >= 1
    requires ClearedRegion(WithCells(l0, y, MoveCells(l0[y].cells, x + n, x, col - x - n)), l1, x, y, x + n - 1, y)
    ensures BlanksInserted(l0, l1, y, x, n)
  {
    var m := WithCells(l0, y, MoveCells(l0[y].cells, x + n, x, col - x - n));
    assert RowCleared(m[y], l1[y], x, x + n - 1);
  }

  /** With nothing left to move, the row is blank from x on. */
  lemma EmptiedEffect(l0: seq<Row>, l1: seq<Row>, y: int, x: nat, n: nat, col: int)
    requires 0 <= y < |l0| && |l0[y].cells| == col && x < col <= x + n
    requires ClearedRegion(l0, l1, x, y, col - 1, y)
    ensures CharsDeleted(l0, l1, y, x, n) && BlanksInserted(l0, l1, y, x, n)
  {
    assert RowCleared(l0[y], l1[y], x, col - 1);
  }

  // ---- scrolling

  /** The same buffers, in another order. */
  predicate Permuted(l0: seq<Row>, l1: seq<Row>) {
    |l1| == |l0| && multiset(Ids(l1)) == multiset(Ids(l0))
  }

  /** The rows from orig to bot moved up by n: those that survive keep their order, the last n
      are blank, and the buffers are all still there. */
  predicate ScrolledUp(l0: seq<Row>, l1: seq<Row>, orig: int, bot: int, n: int) {
    && 0 <= orig && bot < |l0| && 1 <= n <= bot - orig + 1
    && Permuted(l0, l1) && SameOutside(l0, l1, orig, bot)
    && (forall y :: orig <= y <= bot - n ==> l1[y] == l0[y + n])
    && (forall y :: bot - n < y <= bot ==> BlankRow(l1[y]))
  }

  /** The rows from orig to bot moved down by n. */
  predicate ScrolledDown(l0: seq<Row>, l1: seq<Row>, orig: int, bot: int, n: int) {
    && 0 <= orig && bot < |l0| && 1 <= n <= bot - orig + 1
    && Permuted(l0, l1) && SameOutside(l0, l1, orig, bot)
    && (forall y :: orig + n <= y <= bot ==> l1[y] == l0[y - n])
    && (forall y :: orig <= y < orig + n ==> BlankRow(l1[y]))
  }

  /** Deleting as many lines as were inserted brings back every row but the last n of the region,
      which the insertion pushed out. */
  lemma DeleteUndoesInsert(l0: seq<Row>, l1: seq<Row>, l2: seq<Row>, orig: int, bot: int, n: int)
    requires ScrolledDown(l0, l1, orig, bot, n) && ScrolledUp(l1, l2, orig, bot, n)
    ensures |l2| == |l0| && forall y :: 0 <= y < |l0| && !(bot - n < y <= bot) ==> l2[y] == l0[y]
    ensures forall y :: bot - n < y <= bot ==> BlankRow(l2[y])
  {
    hide Permuted; hide BlankRow;
    forall y | orig <= y <= bot - n ensures l2[y] == l0[y] { assert l1[y + n] == l0[y]; }
  }

  /** Deleting as many characters as blanks were inserted brings back all but the last n. */
  lemma DeleteUndoesBlanks(l0: seq<Row>, l1: seq<Row>, l2: seq<Row>, y: int, x: int, n: int)
    requires BlanksInserted(l0, l1, y, x, n) && CharsDeleted(l1, l2, y, x, n)
    ensures SameOutside(l0, l2, y, y) && |l2[y].cells| == |l0[y].cells|
    ensures forall k :: 0 <= k < |l0[y].cells| ==>
              if k < x || k + n < |l0[y].cells| then l2[y].cells[k] == l0[y].cells[k] else !l2[y].cells[k].isSet
  {
    var w := |l0[y].cells|;
    forall k | 0 <= k < w
      ensures if k < x || k + n < w then l2[y].cells[k] == l0[y].cells[k] else !l2[y].cells[k].isSet
    {
      if k < x {
        assert l1[y].cells[k] == l0[y].cells[k];
      } else if k + n < w {
        assert l1[y].cells[k + n] == l0[y].cells[k + n - n];
      }
    }
    forall r | 0 <= r < |l0| && r != y ensures l2[r] == l0[r] { assert l1[r] == l0[r]; }
  }

  /** The loop of tscrollup before it swaps row i: blank rows from i to i + n - 1. */
  predicate UpTo(l0: seq<Row>, l: seq<Row>, orig: int, i: int, n: int) {
    && 0 <= orig <= i && 1 <= n && i + n <= |l0| && Permuted(l0, l)
    && SameOutside(l0, l, orig, i + n - 1)
    && (forall y :: orig <= y < i ==> l[y] == l0[y + n])
    && (forall y :: i <= y < i + n ==> BlankRow(l[y]))
  }

  /** The loop of tscrolldown before it swaps row i: blank rows from i - n + 1 to i. */
  predicate DownTo(l0: seq<Row>, l: seq<Row>, bot: int, i: int, n: int) {
    && bot < |l0| && i <= bot && 1 <= n && 0 <= i - n + 1 && Permuted(l0, l)
    && SameOutside(l0, l, i - n + 1, bot)
    && (forall y :: i < y <= bot ==> l[y] == l0[y - n])
    && (forall y :: i - n < y <= i ==> BlankRow(l[y]))
  }

  function Swapped(l: seq<Row>, i: int, j: int): (m: seq<Row>)
    requires 0 <= i < |l| && 0 <= j < |l|
    ensures |m| == |l| && m[i] == l[j] && m[j] == l[i]
    ensures forall k :: 0 <= k < |l| && k != i && k != j ==> m[k] == l[k]
  {
    l[i := l[j]][j := l[i]]
  }

  lemma SwapPermutes(l0: seq<Row>, l: seq<Row>, i: int, j: int)
    requires 0 <= i < |l| && 0 <= j < |l| && Permuted(l0, l)
    ensures Permuted(l0, Swapped(l, i, j))
  {
    var a, b := Ids(l), Ids(Swapped(l, i, j));
    assert b == a[i := a[j]][j := a[i]];
  }

  lemma SwapKeeps(row: int, col: int, l: seq<Row>, alt: seq<Row>, d0: seq<bool>, tabs: seq<bool>, i: int, j: int, d1: seq<bool>)
    requires ScreenOk(row, col, l, alt, d0, tabs) && 0 <= i < row && 0 <= j < row && |d1| == row
    ensures ScreenOk(row, col, Swapped(l, i, j), alt, d1, tabs)
  {
  }

  /** Clearing the rows that scroll out starts the loop. */
  lemma UpStart(l0: seq<Row>, l: seq<Row>, col: int, orig: int, n: int)
    requires 0 <= orig && 1 <= n && orig + n <= |l0| && WidthOk(l0, col)
    requires ClearedRegion(l0, l, 0, orig, col - 1, orig + n - 1)
    ensures UpTo(l0, l, orig, orig, n)
  {
    ClearedBlank(l0, l, col, orig, orig + n - 1);
  }

  lemma DownStart(l0: seq<Row>, l: seq<Row>, col: int, bot: int, n: int)
    requires bot < |l0| && 1 <= n && 0 <= bot - n + 1 && WidthOk(l0, col)
    requires ClearedRegion(l0, l, 0, bot - n + 1, col - 1, bot)
    ensures DownTo(l0, l, bot, bot, n)
  {
    ClearedBlank(l0, l, col, bot - n + 1, bot);
  }

  lemma ClearedBlank(l0: seq<Row>, l: seq<Row>, col: int, y1: int, y2: int)
    requires 0 <= y1 && y2 < |l0| && WidthOk(l0, col) && ClearedRegion(l0, l, 0, y1, col - 1, y2)
    ensures Permuted(l0, l) && forall y :: y1 <= y <= y2 ==> BlankRow(l[y])
  {
    ClearedSame(l0, l, 0, y1, col - 1, y2);
    assert Ids(l) == Ids(l0);
    forall y | y1 <= y <= y2 ensures BlankRow(l[y]) { assert RowCleared(l0[y], l[y], 0, col - 1); }
  }

  lemma UpStep(l0: seq<Row>, l: seq<Row>, orig: int, i: int, n: int)
    requires UpTo(l0, l, orig, i, n) && i + n < |l0|
    ensures UpTo(l0, Swapped(l, i, i + n), orig, i + 1, n)
  {
    hide BlankRow; hide Permuted; hide Swapped;
    SwapPermutes(l0, l, i, i + n);
    assert l[i + n] == l0[i + n];
    assert BlankRow(l[i]);
  }

  lemma DownStep(l0: seq<Row>, l: seq<Row>, bot: int, i: int, n: int)
    requires DownTo(l0, l, bot, i, n) && i - n >= 0
    ensures DownTo(l0, Swapped(l, i, i - n), bot, i - 1, n)
  {
    hide BlankRow; hide Permuted; hide Swapped;
    SwapPermutes(l0, l, i, i - n);
    assert l[i - n] == l0[i - n];
    assert BlankRow(l[i]);
  }

  lemma MarkStep(d0: seq<bool>, d: seq<bool>, a: int, b: int, i: int, j: int, a1: int, b1: int)
    requires Marked(d0, d, a, b) && 0 <= i < |d0| && 0 <= j < |d0| && a <= b
    requires a1 <= a && b <= b1 && a1 <= i <= b1
    requires (j == b1 && a1 == a && b1 == b + 1) || (j == a1 && b1 == b && a1 == a - 1)
    ensures Marked(d0, d[i := true][j := true], a1, b1)
  {
  }

  predicate AllMarked(d: seq<bool>) { forall y :: 0 <= y < |d| ==> d[y] }

  predicate AllBlank(l: seq<Row>) { forall y :: 0 <= y < |l| ==> BlankRow(l[y]) }

  lemma AllCleared(l0: seq<Row>, d0: seq<bool>, l1: seq<Row>, d1: seq<bool>, row: int, col: int, shown: seq<Painted>, reverse: bool)
    requires |l0| == |d0| == |shown| == row && WidthOk(l0, col)
    requires ClearedRegion(l0, l1, 0, 0, col - 1, row - 1) && Marked(d0, d1, 0, row - 1)
    ensures AllBlank(l1) && AllMarked(d1) && Fresh(l1, d1, shown, reverse)
  {
    ClearedBlank(l0, l1, col, 0, row - 1);
  }

  lemma UpDone(l0: seq<Row>, d0: seq<bool>, l1: seq<Row>, d1: seq<bool>, orig: int, bot: int, n: int)
    requires UpTo(l0, l1, orig, bot - n + 1, n) && |d0| == |l0| && Marked(d0, d1, orig, bot)
    ensures ScrolledUp(l0, l1, orig, bot, n) && Tracked(l0, d0, l1, d1)
  {
    hide Permuted; hide BlankRow;
    PermutedLength(l0, l1);
    MarkedTracked(l0, d0, l1, d1, orig, bot);
  }

  lemma DownDone(l0: seq<Row>, d0: seq<bool>, l1: seq<Row>, d1: seq<bool>, orig: int, bot: int, n: int)
    requires DownTo(l0, l1, bot, orig + n - 1, n) && |d0| == |l0| && Marked(d0, d1, orig, bot)
    ensures ScrolledDown(l0, l1, orig, bot, n) && Tracked(l0, d0, l1, d1)
  {
    hide Permuted; hide BlankRow;
    PermutedLength(l0, l1);
    MarkedTracked(l0, d0, l1, d1, orig, bot);
  }

  lemma PermutedLength(l0: seq<Row>, l1: seq<Row>)
    requires Permuted(l0, l1)
    ensures |l1| == |l0|
  {
  }

  lemma SwapScreens(row: int, col: int, line: seq<Row>, alt: seq<Row>, d0: seq<bool>, tabs: seq<bool>, d1: seq<bool>)
    requires ScreenOk(row, col, line, alt, d0, tabs) && |d1| == row
    ensures ScreenOk(row, col, alt, line, d1, tabs)
  {
  }

  lemma AllMarkedFresh(line: seq<Row>, dirty: seq<bool>, shown: seq<Painted>, reverse: bool)
    requires AllMarked(dirty) && |line| == |dirty| == |shown|
    ensures Fresh(line, dirty, shown, reverse)
  {
  }

  lemma MarkedAll(d0: seq<bool>, d1: seq<bool>)
    requires Marked(d0, d1, 0, |d0| - 1)
    ensures AllMarked(d1)
  {
  }

  lemma AllMarkedTracked(l0: seq<Row>, d0: seq<bool>, l1: seq<Row>, d1: seq<bool>)
    requires AllMarked(d1) && |l0| == |l1| == |d0| == |d1|
    ensures Tracked(l0, d0, l1, d1)
  {
  }

  lemma MarkedLength(d0: seq<bool>, d1: seq<bool>, a: int, b: int)
    requires Marked(d0, d1, a, b)
    ensures |d1| == |d0|
  {
  }

  lemma RowWidth(l: seq<Row>, col: int, y: int)
    requires WidthOk(l, col) && 0 <= y < |l|
    ensures |l[y].cells| == col
  {
  }

  /** The line drawing characters from 0x41 to 0x7e; 0 where there is none. */
  const VT100: seq<nat> :=
    [0x2191, 0x2193, 0x2192, 0x2190, 0x2588, 0x259A, 0x2603]
    + [0, 0, 0, 0, 0, 0, 0, 0]
    + [0, 0, 0, 0, 0, 0, 0, 0]
    + [0, 0, 0, 0, 0, 0, 0, 0x20]
    + [0x25C6, 0x2592, 0x2409, 0x240C, 0x240D, 0x240A, 0xB0, 0xB1]
    + [0x2424, 0x240B, 0x2518, 0x2510, 0x250C, 0x2514, 0x253C, 0x23BA]
    + [0x23BB, 0x2500, 0x23BC, 0x23BD, 0x251C, 0x2524, 0x2534, 0x252C]
    + [0x2502, 0x2264, 0x2265, 0x3C0, 0x2260, 0xA3, 0xB7]

  /** The character that tsetchar stores for ch. */
  function Charset(ch: nat, p: Pen): nat {
    if Gfx in p.mode && 0x41 <= ch <= 0x7E && VT100[ch - 0x41] != 0 then VT100[ch - 0x41] else ch
  }

  lemma FreshSize(line: seq<Row>, dirty: seq<bool>, shown: seq<Painted>, reverse: bool)
    requires Fresh(line, dirty, shown, reverse)
    ensures |shown| == |line|
  {
  }

  /** Every cell shows ch. */
  predicate Filled(l: seq<Row>, g: Glyph) {
    forall y :: 0 <= y < |l| ==> forall x :: 0 <= x < |l[y].cells| ==> l[y].cells[x] == g
  }

  /** The visible screen and the other one, before and after something was read, with the
      alternate screen on or off. Off, the other screen does not change; switching on puts the
      main screen aside as it is, on it stays aside, and switching off brings it back. */
  predicate MainKept(on0: bool, l0: seq<Row>, a0: seq<Row>, on1: bool, l1: seq<Row>, a1: seq<Row>) {
    && (on0 == on1 ==> a1 == a0)
    && (!on0 && on1 ==> a1 == l0)
    && (on0 && !on1 ==> l1 == a0)
  }

  // ---- erasing in display

  /** The cells from (x, y) to the end of the screen, in reading order, are cleared. */
  predicate ErasedAfter(l0: seq<Row>, l1: seq<Row>, x: int, y: int) {
    SameBuffers(l0, l1)
    && forall r :: 0 <= r < |l0| ==> forall k :: 0 <= k < |l0[r].cells| ==>
         l1[r].cells[k] == if r > y || (r == y && k >= x) then Cleared(l0[r].cells[k]) else l0[r].cells[k]
  }

  /** The cells up to (x, y), in reading order, are cleared. */
  predicate ErasedBefore(l0: seq<Row>, l1: seq<Row>, x: int, y: int) {
    SameBuffers(l0, l1)
    && forall r :: 0 <= r < |l0| ==> forall k :: 0 <= k < |l0[r].cells| ==>
         l1[r].cells[k] == if r < y || (r == y && k <= x) then Cleared(l0[r].cells[k]) else l0[r].cells[k]
  }

  lemma EraseAfterFacts(l0: seq<Row>, l: seq<Row>, l1: seq<Row>, x: int, y: int, col: int)
    requires 0 <= x < col && 0 <= y < |l0| && WidthOk(l0, col)
    requires ClearedRegion(l0, l, x, y, col - 1, y)
    requires if y < |l0| - 1 then ClearedRegion(l, l1, 0, y + 1, col - 1, |l0| - 1) else l1 == l
    ensures ErasedAfter(l0, l1, x, y)
  {
    hide Cleared;
    forall r | 0 <= r < |l0|
      ensures r < y ==> l1[r] == l0[r]
      ensures r == y ==> RowCleared(l0[r], l1[r], x, col - 1)
      ensures r > y ==> RowCleared(l0[r], l1[r], 0, col - 1)
    {
      if r <= y { assert l1[r] == l[r]; } else { assert l[r] == l0[r]; }
    }
  }

  lemma EraseBeforeFacts(l0: seq<Row>, l: seq<Row>, l1: seq<Row>, x: int, y: int, col: int)
    requires 0 <= x < col && 0 <= y < |l0| && WidthOk(l0, col)
    requires if y > 0 then ClearedRegion(l0, l, 0, 0, col - 1, y - 1) else l == l0
    requires ClearedRegion(l, l1, 0, y, x, y)
    ensures ErasedBefore(l0, l1, x, y)
  {
    hide Cleared;
    forall r | 0 <= r < |l0|
      ensures r > y ==> l1[r] == l0[r]
      ensures r == y ==> RowCleared(l0[r], l1[r], 0, x)
      ensures r < y ==> RowCleared(l0[r], l1[r], 0, col - 1)
    {
      if r < y { assert l1[r] == l[r]; } else { assert l[r] == l0[r]; }
    }
  }
}
