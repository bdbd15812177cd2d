/** The terminal of package/simple-terminal/src/main.c: the screen operations. */
module TermClass {
  import opened TermScreen
  import opened TermCsi

  datatype Mode = Wrap | Insert | AppKeypad | AltScreen | Crlf | MouseBtn | MouseMotion | ReverseVideo | KbdLock

  /** MODBIT */
  function ModeBit(m: set<Mode>, on: bool, b: Mode): set<Mode> { if on then m + {b} else m - {b} }

  /** Is to the next tab stop from x, or the margin if there is none? */
  predicate TabFound(tabs: seq<bool>, x: int, to: int, forward: bool)
    requires 0 <= x < |tabs|
  {
    if forward then
      && (x < to < |tabs| || to == x == |tabs| - 1) && (to == |tabs| - 1 || tabs[to])
      && forall k :: x < k < to ==> !tabs[k]
    else
      && (0 <= to < x || to == x == 0) && (to == 0 || tabs[to])
      && forall k :: to < k < x ==> !tabs[k]
  }

  /** The tab stop that n tabs lead to from x. */
  function StopsFrom(tabs: seq<bool>, x: int, n: nat, forward: bool): (to: int)
    requires 0 <= x < |tabs|
    ensures 0 <= to < |tabs|
  {
    if n == 0 then x else StopFrom(tabs, StopsFrom(tabs, x, n - 1, forward), forward)
  }

  function StopFrom(tabs: seq<bool>, x: int, forward: bool): (to: int)
    requires 0 <= x < |tabs|
    ensures 0 <= to < |tabs| && TabFound(tabs, x, to, forward)
    decreases if forward then |tabs| - x else x
  {
    if forward then
      if x == |tabs| - 1 then x else if x + 1 == |tabs| - 1 || tabs[x + 1] then x + 1 else StopFrom(tabs, x + 1, true)
    else
      if x == 0 then x else if x - 1 == 0 || tabs[x - 1] then x - 1 else StopFrom(tabs, x - 1, false)
  }

  lemma OneStop(tabs: seq<bool>, x: int, a: int, forward: bool)
    requires 0 <= x < |tabs| && TabFound(tabs, x, a, forward)
    ensures a == StopFrom(tabs, x, forward)
  {
  }

  /** Where tputc shows a character: on the line below if one is due. */
  function PrintAt(c: Cursor, row: int, col: int, bot: int, wrap: bool): Cursor
    requires 1 <= row && 1 <= col
  {
    if wrap && c.wrapNext then Moved(c, row, col, 0, if c.y == bot then bot else c.y + 1) else c
  }

  /** A tab stop every TABSPACES columns, but none in column 0. */
  predicate DefaultTabs(tabs: seq<bool>) {
    forall i :: 0 <= i < |tabs| ==> (tabs[i] <==> i > 0 && i % TABSPACES == 0)
  }

  /** The fields of a terminal at one moment, except for what the surface shows. */
  datatype State = State(row: int, col: int, line: seq<Row>, alt: seq<Row>, dirty: seq<bool>, tabs: seq<bool>,
                         c: Cursor, saved: Cursor, top: int, bot: int, mode: set<Mode>)

  /** Every row but the last of the region is what scrolling up by one line makes it. */
  predicate UpByOne(l0: seq<Row>, l1: seq<Row>, top: int, bot: int) {
    && 0 <= top <= bot < |l0| == |l1|
    && forall y {:trigger l1[y]} :: 0 <= y < |l0| && y != bot ==> l1[y] == if top <= y < bot then l0[y + 1] else l0[y]
  }

  lemma ScrolledByOne(l0: seq<Row>, l: seq<Row>, top: int, bot: int, cells: seq<Glyph>)
    requires ScrolledUp(l0, l, top, bot, 1)
    ensures 0 <= bot < |l| && UpByOne(l0, WithCells(l, bot, cells), top, bot)
  {
    hide Permuted; hide BlankRow;
    PermutedLength(l0, l);
  }

  /** What is printed: the character is where the cursor was, or at the start of the next line
      if one was due; nothing else on the screen changes, but for the scrolling of that line. */
  predicate PrintedChar(ch: nat, s0: State, s1: State) {
    && 1 <= s0.row && 1 <= s0.col
    && var at := PrintAt(s0.c, s0.row, s0.col, s0.bot, Wrap in s0.mode);
       && s1.c == (if at.x + 1 < s0.col then at.(x := at.x + 1, wrapNext := false) else at.(wrapNext := true))
       && 0 <= at.y < |s1.line| == |s0.line| && 0 <= at.x < |s1.line[at.y].cells|
       && s1 == s0.(line := s1.line, dirty := s1.dirty, c := s1.c)
       && s1.line[at.y].cells[at.x] == Glyph(Charset(ch, at.pen), at.pen, true)
       && (at != s0.c && s0.c.y == s0.bot ==> UpByOne(s0.line, s1.line, s0.top, s0.bot))
       && ((at == s0.c || s0.c.y != s0.bot) ==>
             (at.x < |s0.line[at.y].cells|
              && s1.line == WithCells(s0.line, at.y, s0.line[at.y].cells[at.x := Glyph(Charset(ch, at.pen), at.pen, true)])))
  }

  class Term {
    var row: int
    var col: int
    var line: seq<Row>
    var alt: seq<Row>
    var dirty: seq<bool>
    var tabs: seq<bool>
    var shown: seq<Painted>
    var c: Cursor
    var saved: Cursor
    var top: int
    var bot: int
    var mode: set<Mode>

    ghost predicate Valid()
      reads this
    {
      && ScreenOk(row, col, line, alt, dirty, tabs)
      && Fresh(line, dirty, shown, ReverseVideo in mode)
      && CursorOk(row, col, c, top, bot)
      && PenOk(saved.pen)
    }

    ghost function Now(): State
      reads this
    {
      State(row, col, line, alt, dirty, tabs, c, saved, top, bot, mode)
    }

    /** tnew: the two screens are freshly allocated rows with whatever was in them, and the
        surface shows whatever it shows. */
    constructor (col: int, row: int, line: seq<Row>, alt: seq<Row>, surface: seq<Painted>)
      requires 1 <= col && 1 <= row && |line| == |alt| == |surface| == row && WidthOk(line, col) && WidthOk(alt, col)
      requires Distinct(line) && Distinct(alt) && Apart(line, alt)
      ensures Valid() && this.col == col && this.row == row && this.alt == alt && AllBlank(this.line)
      ensures c == Cursor(Pen({}, DEFAULT_FG, DEFAULT_BG), 0, 0, false, false) && DefaultTabs(tabs)
      ensures top == 0 && bot == row - 1 && mode == {Wrap}
    {
      this.row, this.col, this.line, this.alt := row, col, line, alt;
      dirty, tabs, shown := seq(row, y => false), seq(col, x => false), surface;
      saved, mode := Cursor(Pen({}, 0, 0), 0, 0, false, false), {};
      new;
      Reset();
    }

    /** tsetdirt */
    method SetDirt(from: int, to: int)
      requires |dirty| == row >= 1
      modifies `dirty
      ensures Marked(old(dirty), dirty, Limit(from, 0, row - 1), Limit(to, 0, row - 1))
    {
      var a, b := Limit(from, 0, row - 1), Limit(to, 0, row - 1);
      var i := a;
      while i <= b
        invariant a <= i && |dirty| == row
        invariant forall k :: 0 <= k < row ==> dirty[k] == (old(dirty)[k] || (a <= k < i && k <= b))
      {
        dirty := dirty[i := true];
        i := i + 1;
      }
    }

    /** draw: every marked row is painted, and its mark removed. */
    method Draw(visible: bool)
      requires |line| == |dirty| == |shown| == row && Fresh(line, dirty, shown, ReverseVideo in mode)
      modifies `dirty, `shown
      ensures |line| == |dirty| == |shown| == row && Fresh(line, dirty, shown, ReverseVideo in mode)
      ensures visible ==> forall k :: 0 <= k < row ==>
                !dirty[k] && shown[k] == Painted(line[k].cells, ReverseVideo in mode)
      ensures !visible ==> dirty == old(dirty) && shown == old(shown)
    {
      if !visible { return; }
      var i := 0;
      while i < row
        invariant 0 <= i <= row && |dirty| == row && Fresh(line, dirty, shown, ReverseVideo in mode)
        invariant forall k :: 0 <= k < i ==> !dirty[k]
      {
        if dirty[i] {
          dirty := dirty[i := false];
          shown := shown[i := Painted(line[i].cells, ReverseVideo in mode)];
        }
        i := i + 1;
      }
    }

    /** redraw, which DECSCNM calls after it toggled reverse video: everything is marked before
        it is drawn, so nothing needs to be shown as it is when this is called. */
    method Redraw(visible: bool)
      requires |line| == |dirty| == |shown| == row >= 1
      modifies `dirty, `shown
      ensures |dirty| == row && Fresh(line, dirty, shown, ReverseVideo in mode)
    {
      SetDirt(0, row - 1);
      Draw(visible);
    }

    /** The inner loop of tclearregion: the state of the cells from x1 to x2 of one row. */
    method ClearRow(i: int, x1: int, x2: int)
      requires 0 <= i < |line| && 0 <= x1 && x2 < |line[i].cells|
      modifies `line
      ensures |line| == |old(line)| && line == old(line)[i := line[i]] && RowCleared(old(line)[i], line[i], x1, x2)
    {
      var k := x1;
      while k <= x2
        invariant x1 <= k && |line| == |old(line)|
        invariant line == old(line)[i := line[i]]
        invariant line[i].id == old(line)[i].id && |line[i].cells| == |old(line)[i].cells|
        invariant forall j :: 0 <= j < |line[i].cells| ==>
                    line[i].cells[j] == if x1 <= j < k && j <= x2 then Cleared(old(line)[i].cells[j]) else old(line)[i].cells[j]
      {
        line := line[i := line[i].(cells := line[i].cells[k := Cleared(line[i].cells[k])])];
        k := k + 1;
      }
    }

    /** tclearregion: corners in any order, cut off at the screen. */
    method ClearRegion(xa: int, ya: int, xb: int, yb: int)
      requires ScreenOk(row, col, line, alt, dirty, tabs)
      modifies `line, `dirty
      ensures ScreenOk(row, col, line, alt, dirty, tabs) && Tracked(old(line), old(dirty), line, dirty)
      ensures old(Fresh(line, dirty, shown, ReverseVideo in mode)) ==> Fresh(line, dirty, shown, ReverseVideo in mode)
      ensures var x1, x2 := Limit(Min(xa, xb), 0, col - 1), Limit(Max(xa, xb), 0, col - 1);
              var y1, y2 := Limit(Min(ya, yb), 0, row - 1), Limit(Max(ya, yb), 0, row - 1);
              ClearedRegion(old(line), line, x1, y1, x2, y2) && Marked(old(dirty), dirty, y1, y2)
    {
      hide Distinct; hide Apart; hide RowCleared; hide Fresh; hide Tracked; hide ClearedRegion; hide WidthOk;
      var x1, x2 := Limit(Min(xa, xb), 0, col - 1), Limit(Max(xa, xb), 0, col - 1);
      var y1, y2 := Limit(Min(ya, yb), 0, row - 1), Limit(Max(ya, yb), 0, row - 1);
      var i := y1;
      ClearNone(line, x1, y1, x2);
      while i <= y2
        invariant y1 <= i <= y2 + 1 && |dirty| == row
        invariant ClearedRegion(old(line), line, x1, y1, x2, i - 1)
        invariant Marked(old(dirty), dirty, y1, i - 1)
      {
        dirty := dirty[i := true];
        ClearedWidth(old(line), line, x1, y1, x2, i - 1, col, i);
        ghost var l := line;
        ClearRow(i, x1, x2);
        ClearStep(old(line), l, line[i], x1, y1, x2, i);
        i := i + 1;
      }
      ClearedKeeps(row, col, old(line), alt, old(dirty), tabs, line, dirty, x1, y1, x2, y2);
      if old(Fresh(line, dirty, shown, ReverseVideo in mode)) {
        TrackedFresh(old(line), old(dirty), line, dirty, shown, ReverseVideo in mode);
      }
    }

    /** tmoveto */
    method MoveTo(x: int, y: int)
      requires Valid()
      modifies `c
      ensures Valid() && c == Moved(old(c), row, col, x, y)
    {
      hide WidthOk; hide Distinct; hide Apart; hide Fresh;
      c := c.(x := Limit(x, 0, col - 1), y := Limit(y, 0, row - 1), wrapNext := false);
    }

    /** tcursor: what is loaded is cut off at the screen, which may have shrunk since. */
    method SaveOrLoad(save: bool)
      requires Valid()
      modifies `c, `saved
      ensures Valid()
      ensures save ==> saved == c == old(c)
      ensures !save ==> saved == old(saved) && c == Moved(saved, row, col, saved.x, saved.y)
    {
      hide WidthOk; hide Distinct; hide Apart; hide Fresh;
      if save {
        saved := c;
      } else {
        c := saved;
        c := c.(x := Limit(c.x, 0, col - 1), y := Limit(c.y, 0, row - 1), wrapNext := false);
      }
    }

    method ResetTabs()
      requires col >= 1
      modifies `tabs
      ensures |tabs| == col && DefaultTabs(tabs)
    {
      tabs := seq(col, k => false);
      var i := TABSPACES;
      while i < col
        invariant 0 < i && i % TABSPACES == 0 && |tabs| == col
        invariant forall k :: 0 <= k < col ==> (tabs[k] <==> 0 < k < i && k % TABSPACES == 0)
      {
        tabs := tabs[i := true];
        i := i + TABSPACES;
      }
    }

    /** treset: home, default attributes, a tab stop every TABSPACES columns, a blank screen. */
    method Reset()
      requires ScreenOk(row, col, line, alt, dirty, tabs) && PenOk(saved.pen) && |shown| == row
      modifies `c, `tabs, `top, `bot, `mode, `line, `dirty
      ensures Valid() && Tracked(old(line), old(dirty), line, dirty)
      ensures c == Cursor(Pen({}, DEFAULT_FG, DEFAULT_BG), 0, 0, false, false) && DefaultTabs(tabs)
      ensures top == 0 && bot == row - 1 && mode == {Wrap}
      ensures AllMarked(dirty) && AllBlank(line) && SameBuffers(old(line), line)
    {
      hide ScreenOk; hide Tracked; hide Fresh;
      hide ClearedRegion; hide Marked; hide AllMarked; hide AllBlank; hide DefaultTabs; hide SameBuffers;
      Sizes(row, col, line, alt, dirty, tabs);
      c := Cursor(Pen({}, DEFAULT_FG, DEFAULT_BG), 0, 0, false, false);
      ResetTabs();
      OtherTabs(row, col, line, alt, dirty, old(tabs), tabs);
      top, bot, mode := 0, row - 1, {Wrap};
      ClearRegion(0, 0, col - 1, row - 1);
      AllCleared(old(line), old(dirty), line, dirty, row, col, shown, ReverseVideo in mode);
      ClearedSame(old(line), line, 0, 0, col - 1, row - 1);
    }
  
    /** tscrollup */
    method ScrollUp(orig: int, m: int)
      requires Valid() && top <= orig <= bot && m >= 1
      modifies `line, `dirty
      ensures Valid() && Tracked(old(line), old(dirty), line, dirty)
      ensures ScrolledUp(old(line), line, orig, bot, Min(m, bot - orig + 1)) && Marked(old(dirty), dirty, orig, bot)
    {
      hide ScreenOk; hide Fresh; hide Tracked; hide ClearedRegion; hide Marked; hide UpTo; hide ScrolledUp; hide WidthOk;
      var n := Limit(m, 0, bot - orig + 1);
      Sizes(row, col, line, alt, dirty, tabs);
      ClearRegion(0, orig, col - 1, orig + n - 1);
      UpStart(old(line), line, col, orig, n);
      var i := orig;
      while i <= bot - n
        invariant orig <= i <= bot - n + 1
        invariant UpTo(old(line), line, orig, i, n)
        invariant Marked(old(dirty), dirty, orig, i + n - 1)
        invariant ScreenOk(row, col, line, alt, dirty, tabs)
      {
        Sizes(row, col, line, alt, dirty, tabs);
        ghost var l, d := line, dirty;
        var temp := line[i];
        line := line[i := line[i + n]];
        line := line[i + n := temp];
        dirty := dirty[i := true];
        dirty := dirty[i + n := true];
        UpStep(old(line), l, orig, i, n);
        MarkStep(old(dirty), d, orig, i + n - 1, i, i + n, orig, i + n);
        SwapKeeps(row, col, l, alt, d, tabs, i, i + n, dirty);
        i := i + 1;
      }
      UpDone(old(line), old(dirty), line, dirty, orig, bot, n);
      TrackedFresh(old(line), old(dirty), line, dirty, shown, ReverseVideo in mode);
    }

    /** tscrolldown */
    method ScrollDown(orig: int, m: int)
      requires Valid() && top <= orig <= bot && m >= 1
      modifies `line, `dirty
      ensures Valid() && Tracked(old(line), old(dirty), line, dirty)
      ensures ScrolledDown(old(line), line, orig, bot, Min(m, bot - orig + 1)) && Marked(old(dirty), dirty, orig, bot)
    {
      hide ScreenOk; hide Fresh; hide Tracked; hide ClearedRegion; hide Marked; hide DownTo; hide ScrolledDown; hide WidthOk;
      var n := Limit(m, 0, bot - orig + 1);
      Sizes(row, col, line, alt, dirty, tabs);
      ClearRegion(0, bot - n + 1, col - 1, bot);
      DownStart(old(line), line, col, bot, n);
      var i := bot;
      while i >= orig + n
        invariant orig + n - 1 <= i <= bot
        invariant DownTo(old(line), line, bot, i, n)
        invariant Marked(old(dirty), dirty, i - n + 1, bot)
        invariant ScreenOk(row, col, line, alt, dirty, tabs)
      {
        Sizes(row, col, line, alt, dirty, tabs);
        ghost var l, d := line, dirty;
        var temp := line[i];
        line := line[i := line[i - n]];
        line := line[i - n := temp];
        dirty := dirty[i := true];
        dirty := dirty[i - n := true];
        DownStep(old(line), l, bot, i, n);
        MarkStep(old(dirty), d, i - n + 1, bot, i, i - n, i - n, bot);
        SwapKeeps(row, col, l, alt, d, tabs, i, i - n, dirty);
        i := i - 1;
      }
      DownDone(old(line), old(dirty), line, dirty, orig, bot, n);
      TrackedFresh(old(line), old(dirty), line, dirty, shown, ReverseVideo in mode);
    }

    /** tnewline */
    method NewLine(firstCol: bool)
      requires Valid()
      modifies `line, `dirty, `c
      ensures Valid() && Tracked(old(line), old(dirty), line, dirty)
      ensures if old(c).y == bot then ScrolledUp(old(line), line, top, bot, 1) else line == old(line) && dirty == old(dirty)
      ensures c == Moved(old(c), row, col, if firstCol then 0 else old(c).x, if old(c).y == bot then bot else old(c).y + 1)
    {
      hide Distinct; hide Apart; hide WidthOk; hide Fresh; hide Tracked; hide ScrolledUp; hide Marked;
      var y := c.y;
      if y == bot {
        ScrollUp(top, 1);
      } else {
        y := y + 1;
        TrackedSame(line, dirty);
      }
      MoveTo(if firstCol then 0 else c.x, y);
    }

    /** tputtab */
    method PutTab(forward: bool)
      requires Valid()
      modifies `c
      ensures Valid() && TabFound(tabs, old(c).x, c.x, forward)
      ensures c == if !forward && old(c).x == 0 then old(c) else old(c).(x := c.x, wrapNext := false)
    {
      hide Distinct; hide Apart; hide WidthOk; hide Fresh;
      var x := c.x;
      if forward {
        x := x + 1;
        while x < col && !tabs[x]
          invariant c.x < x <= col && forall k :: c.x < k < x ==> !tabs[k]
        {
          x := x + 1;
        }
      } else {
        if x == 0 { return; }
        x := x - 1;
        while x > 0 && !tabs[x]
          invariant 0 <= x < c.x && forall k :: x < k < c.x ==> !tabs[k]
        {
          x := x - 1;
        }
      }
      MoveTo(x, c.y);
    }

    /** tsetchar */
    method SetChar(ch: nat, x: int, y: int)
      requires Valid() && 0 <= x < col && 0 <= y < row && |line| == row && |line[y].cells| == col
      modifies `line, `dirty
      ensures Valid() && Tracked(old(line), old(dirty), line, dirty)
      ensures |old(line)[y].cells| == col
      ensures line == WithCells(old(line), y, old(line)[y].cells[x := Glyph(Charset(ch, c.pen), c.pen, true)])
      ensures dirty == old(dirty)[y := true]
    {
      hide Distinct; hide Apart; hide WidthOk; hide Fresh; hide Tracked;
      dirty := dirty[y := true];
      line := line[y := line[y].(cells := line[y].cells[x := Glyph(Charset(ch, c.pen), c.pen, true)])];
      CellsKeep(row, col, old(line), alt, old(dirty), tabs, y, line[y].cells);
      TrackedFresh(old(line), old(dirty), line, dirty, shown, ReverseVideo in mode);
    }

    /** tdeletechar */
    method DeleteChar(n: int)
      requires Valid() && n >= 1
      modifies `line, `dirty
      ensures Valid() && Tracked(old(line), old(dirty), line, dirty)
      ensures CharsDeleted(old(line), line, c.y, c.x, n)
    {
      hide ScreenOk; hide Fresh; hide Tracked; hide ClearedRegion; hide CharsDeleted; hide BlanksInserted; hide Marked;
      hide WithCells; hide MoveCells;
      var src, dst, size := c.x + n, c.x, col - (c.x + n);
      Sizes(row, col, line, alt, dirty, tabs);
      if src >= col {
        MarkRow();
        ClearRegion(c.x, c.y, col - 1, c.y);
        EmptiedEffect(old(line), line, c.y, c.x, n, col);
        TrackedTwice(old(line), old(dirty), old(line), old(dirty)[c.y := true], line, dirty);
        return;
      }
      ghost var cells := MoveCells(line[c.y].cells, dst, src, size);
      MoveInRow(dst, src, size);
      ClearRegion(col - n, c.y, col - 1, c.y);
      DeleteEffect(old(line), line, c.y, c.x, n, col);
      TrackedTwice(old(line), old(dirty), WithCells(old(line), c.y, cells), old(dirty)[c.y := true], line, dirty);
    }

    /** tinsertblank */
    method InsertBlank(n: int)
      requires Valid() && n >= 1
      modifies `line, `dirty
      ensures Valid() && Tracked(old(line), old(dirty), line, dirty)
      ensures BlanksInserted(old(line), line, c.y, c.x, n)
    {
      hide ScreenOk; hide Fresh; hide Tracked; hide ClearedRegion; hide CharsDeleted; hide BlanksInserted; hide Marked;
      hide WithCells; hide MoveCells;
      var src, dst, size := c.x, c.x + n, col - (c.x + n);
      Sizes(row, col, line, alt, dirty, tabs);
      if dst >= col {
        MarkRow();
        ClearRegion(c.x, c.y, col - 1, c.y);
        EmptiedEffect(old(line), line, c.y, c.x, n, col);
        TrackedTwice(old(line), old(dirty), old(line), old(dirty)[c.y := true], line, dirty);
        return;
      }
      ghost var cells := MoveCells(line[c.y].cells, dst, src, size);
      MoveInRow(dst, src, size);
      ClearRegion(src, c.y, dst - 1, c.y);
      InsertEffect(old(line), line, c.y, c.x, n, col);
      TrackedTwice(old(line), old(dirty), WithCells(old(line), c.y, cells), old(dirty)[c.y := true], line, dirty);
    }

    /** What both begin with: a mark on the row of the cursor. */
    method MarkRow()
      requires Valid() && |dirty| == row
      modifies `dirty
      ensures Valid() && dirty == old(dirty)[c.y := true] && Tracked(line, old(dirty), line, dirty)
    {
      hide Distinct; hide Apart; hide WidthOk; hide Fresh; hide Tracked;
      dirty := dirty[c.y := true];
      assert WithCells(line, c.y, line[c.y].cells) == line;
      Sizes(row, col, line, alt, old(dirty), tabs);
      RowWidth(line, col, c.y);
      CellsKeep(row, col, line, alt, old(dirty), tabs, c.y, line[c.y].cells);
      TrackedFresh(line, old(dirty), line, dirty, shown, ReverseVideo in mode);
    }

    /** The mark and the memmove. */
    method MoveInRow(dst: nat, src: nat, size: nat)
      requires Valid() && |dirty| == |line| == row && |line[c.y].cells| == col && dst + size <= col && src + size <= col
      modifies `dirty, `line
      ensures Valid() && |old(line)[c.y].cells| == col
      ensures line == WithCells(old(line), c.y, MoveCells(old(line)[c.y].cells, dst, src, size))
      ensures dirty == old(dirty)[c.y := true] && Tracked(old(line), old(dirty), line, dirty)
    {
      hide Distinct; hide Apart; hide WidthOk; hide Fresh; hide Tracked;
      dirty := dirty[c.y := true];
      line := line[c.y := line[c.y].(cells := MoveCells(line[c.y].cells, dst, src, size))];
      CellsKeep(row, col, old(line), alt, old(dirty), tabs, c.y, line[c.y].cells);
      TrackedFresh(old(line), old(dirty), line, dirty, shown, ReverseVideo in mode);
    }

    /** tinsertblankline */
    method InsertBlankLine(n: int)
      requires Valid() && n >= 1
      modifies `line, `dirty
      ensures Valid() && Tracked(old(line), old(dirty), line, dirty)
      ensures if top <= c.y <= bot then ScrolledDown(old(line), line, c.y, bot, Min(n, bot - c.y + 1))
              else line == old(line) && dirty == old(dirty)
    {
      hide Distinct; hide Apart; hide WidthOk; hide Fresh; hide Tracked; hide ScrolledDown; hide Marked;
      if c.y < top || c.y > bot {
        TrackedSame(line, dirty);
        return;
      }
      ScrollDown(c.y, n);
    }

    /** tdeleteline */
    method DeleteLine(n: int)
      requires Valid() && n >= 1
      modifies `line, `dirty
      ensures Valid() && Tracked(old(line), old(dirty), line, dirty)
      ensures if top <= c.y <= bot then ScrolledUp(old(line), line, c.y, bot, Min(n, bot - c.y + 1))
              else line == old(line) && dirty == old(dirty)
    {
      hide Distinct; hide Apart; hide WidthOk; hide Fresh; hide Tracked; hide ScrolledUp; hide Marked;
      if c.y < top || c.y > bot {
        TrackedSame(line, dirty);
        return;
      }
      ScrollUp(c.y, n);
    }

    /** tswapscreen */
    method SwapScreen()
      requires Valid()
      modifies `line, `alt, `mode, `dirty
      ensures Valid() && Tracked(old(line), old(dirty), line, dirty)
      ensures line == old(alt) && alt == old(line) && AllMarked(dirty)
      ensures mode == ModeBit(old(mode), AltScreen !in old(mode), AltScreen)
    {
      hide Distinct; hide Apart; hide WidthOk; hide Fresh; hide Tracked; hide Marked; hide AllMarked;
      FreshSize(line, dirty, shown, ReverseVideo in mode);
      var tmp := line;
      line := alt;
      alt := tmp;
      mode := ModeBit(mode, AltScreen !in mode, AltScreen);
      SetDirt(0, row - 1);
      MarkedAll(old(dirty), dirty);
      MarkedLength(old(dirty), dirty, 0, row - 1);
      SwapScreens(row, col, old(line), old(alt), old(dirty), tabs, dirty);
      AllMarkedFresh(line, dirty, shown, ReverseVideo in mode);
      AllMarkedTracked(old(line), old(dirty), line, dirty);
    }

    /** tsetscroll */
    method SetScroll(a: int, b: int)
      requires Valid()
      modifies `top, `bot
      ensures Valid()
      ensures top == Min(Limit(a, 0, row - 1), Limit(b, 0, row - 1)) && bot == Max(Limit(a, 0, row - 1), Limit(b, 0, row - 1))
    {
      hide Distinct; hide Apart; hide WidthOk; hide Fresh;
      var t, u := Limit(a, 0, row - 1), Limit(b, 0, row - 1);
      if t > u { t, u := u, t; }
      top, bot := t, u;
    }

    /** tsetattr */
    method SetAttr(attr: seq<int>)
      requires Valid()
      modifies `c
      ensures Valid() && c == old(c).(pen := Sgr(old(c).pen, attr))
    {
      hide Distinct; hide Apart; hide WidthOk; hide Fresh; hide SgrOne; hide SetExtended;
      var i := 0;
      while i < |attr|
        invariant 0 <= i <= |attr| && CursorOk(row, col, c, top, bot)
        invariant c == old(c).(pen := c.pen) && Sgr(c.pen, attr[i..]) == Sgr(old(c).pen, attr)
      {
        assert attr[i..][1..] == attr[i + 1..];
        if (attr[i] == 38 || attr[i] == 48) && i + 2 < |attr| && attr[i + 1] == 5 {
          assert Extended(attr[i..]) && attr[i..][3..] == attr[i + 3..];
          i := i + 2;
          c := c.(pen := SetExtended(c.pen, attr[i - 2], attr[i]));
        } else {
          c := c.(pen := SgrOne(c.pen, attr[i]));
        }
        i := i + 1;
      }
    }
  
    /** The last part of tputc: a character is shown where the cursor is, on the next line if
        one was due. In the last column the cursor stays, and the next line becomes due. */
    method Print(ch: nat)
      requires Valid()
      modifies `line, `dirty, `c
      ensures Valid() && Tracked(old(line), old(dirty), line, dirty)
      ensures PrintedChar(ch, old(Now()), Now())
    {
      hide Distinct; hide Apart; hide WidthOk; hide Fresh; hide Tracked; hide ScrolledUp; hide Marked; hide Charset; hide UpByOne;
      if Wrap in mode && c.wrapNext { NewLine(true); } else { TrackedSame(line, dirty); }
      ghost var l, d := line, dirty;
      RowWidth(line, col, c.y);
      SetChar(ch, c.x, c.y);
      TrackedTwice(old(line), old(dirty), l, d, line, dirty);
      if c != old(c) && old(c).y == bot { ScrolledByOne(old(line), l, top, bot, line[c.y].cells); }
      if c.x + 1 < col {
        MoveTo(c.x + 1, c.y);
      } else {
        c := c.(wrapNext := true);
      }
    }

    /** ESC D */
    method Index()
      requires Valid()
      modifies `line, `dirty, `c
      ensures Valid() && Tracked(old(line), old(dirty), line, dirty)
      ensures if old(c).y == bot then c == old(c) && ScrolledUp(old(line), line, top, bot, 1)
              else c == Moved(old(c), row, col, old(c).x, old(c).y + 1) && line == old(line) && dirty == old(dirty)
    {
      hide Distinct; hide Apart; hide WidthOk; hide Fresh; hide Tracked; hide ScrolledUp; hide Marked;
      if c.y == bot {
        ScrollUp(top, 1);
      } else {
        TrackedSame(line, dirty);
        MoveTo(c.x, c.y + 1);
      }
    }

    /** ESC M */
    method ReverseIndex()
      requires Valid()
      modifies `line, `dirty, `c
      ensures Valid() && Tracked(old(line), old(dirty), line, dirty)
      ensures if old(c).y == top then c == old(c) && ScrolledDown(old(line), line, top, bot, 1)
              else c == Moved(old(c), row, col, old(c).x, old(c).y - 1) && line == old(line) && dirty == old(dirty)
    {
      hide Distinct; hide Apart; hide WidthOk; hide Fresh; hide Tracked; hide ScrolledDown; hide Marked;
      if c.y == top {
        ScrollDown(top, 1);
      } else {
        TrackedSame(line, dirty);
        MoveTo(c.x, c.y - 1);
      }
    }

    /** ESC # 8: the screen alignment test. */
    method AlignmentTest()
      requires Valid()
      modifies `line, `dirty
      ensures Valid() && Tracked(old(line), old(dirty), line, dirty)
      ensures Filled(line, Glyph(Charset('E' as nat, c.pen), c.pen, true)) && SameBuffers(old(line), line)
    {
      hide Distinct; hide Apart; hide Fresh; hide Tracked; hide Charset;
      ghost var g := Glyph(Charset('E' as nat, c.pen), c.pen, true);
      TrackedSame(line, dirty);
      var x := 0;
      while x < col
        invariant 0 <= x <= col && Valid() && Tracked(old(line), old(dirty), line, dirty)
        invariant forall i :: 0 <= i < row ==> line[i].id == old(line)[i].id
        invariant forall i, j :: 0 <= i < row && 0 <= j < x ==> line[i].cells[j] == g
      {
        ghost var l, d := line, dirty;
        FillColumn(x);
        TrackedTwice(old(line), old(dirty), l, d, line, dirty);
        x := x + 1;
      }
    }

    /** The inner loop of the alignment test. */
    method FillColumn(x: int)
      requires Valid() && 0 <= x < col
      modifies `line, `dirty
      ensures Valid() && Tracked(old(line), old(dirty), line, dirty)
      ensures forall i :: 0 <= i < row ==> line[i].id == old(line)[i].id
      ensures forall i :: 0 <= i < row ==>
                line[i].cells == old(line)[i].cells[x := Glyph(Charset('E' as nat, c.pen), c.pen, true)]
    {
      hide Distinct; hide Apart; hide Fresh; hide Tracked; hide Charset;
      ghost var g := Glyph(Charset('E' as nat, c.pen), c.pen, true);
      TrackedSame(line, dirty);
      var y := 0;
      while y < row
        invariant 0 <= y <= row && Valid() && Tracked(old(line), old(dirty), line, dirty)
        invariant forall i :: 0 <= i < row ==> line[i].id == old(line)[i].id
        invariant forall i :: 0 <= i < row ==> line[i].cells == if i < y then old(line)[i].cells[x := g] else old(line)[i].cells
      {
        ghost var l, d := line, dirty;
        SetChar('E' as nat, x, y);
        TrackedTwice(old(line), old(dirty), l, d, line, dirty);
        y := y + 1;
      }
    }
  }
}
