/** csihandle of package/simple-terminal/src/main.c: what a control sequence does to the
    terminal. */
module TermControl {
  import opened TermScreen
  import opened TermCsi
  import opened TermClass
  import opened TermMode

  /** DEFAULT */
  function Default(a: int, b: int): int { if a == 0 then b else a }

  predicate MovesCursor(f: char) {
    f in {'A', 'e', 'B', 'C', 'a', 'D', 'E', 'F', 'G', '`', 'H', 'f', 'd'}
  }

  datatype Position = Position(x: int, y: int)

  /** Where a cursor control function moves to, before the screen cuts it off. */
  function Target(f: char, arg: seq<int>, c: Cursor): Position
    requires ArgsOk(arg)
  {
    var n, m := Default(arg[0], 1), Default(arg[1], 1);
    match f
    case 'A' => Position(c.x, c.y - n)
    case 'e' => Position(c.x, c.y - n)
    case 'B' => Position(c.x, c.y + n)
    case 'C' => Position(c.x + n, c.y)
    case 'a' => Position(c.x + n, c.y)
    case 'D' => Position(c.x - n, c.y)
    case 'E' => Position(0, c.y + n)
    case 'F' => Position(0, c.y - n)
    case 'G' => Position(n - 1, c.y)
    case '`' => Position(n - 1, c.y)
    case 'd' => Position(c.x, n - 1)
    case _ => Position(m - 1, n - 1)
  }

  predicate ShiftsText(f: char) { f in {'@', 'P', 'L', 'M', 'S', 'T'} }

  /** What the control functions do that move text. */
  predicate TextShifted(f: char, n: int, l0: seq<Row>, l1: seq<Row>, c: Cursor, top: int, bot: int) {
    var inside := top <= c.y <= bot;
    match f
    case '@' => BlanksInserted(l0, l1, c.y, c.x, n)
    case 'P' => CharsDeleted(l0, l1, c.y, c.x, n)
    case 'L' => if inside then ScrolledDown(l0, l1, c.y, bot, Min(n, bot - c.y + 1)) else l1 == l0
    case 'M' => if inside then ScrolledUp(l0, l1, c.y, bot, Min(n, bot - c.y + 1)) else l1 == l0
    case 'S' => ScrolledUp(l0, l1, top, bot, Min(n, bot - top + 1))
    case _ => ScrolledDown(l0, l1, top, bot, Min(n, bot - top + 1))
  }

  method ShiftText(t: Term, f: char, n: int)
    requires t.Valid() && ShiftsText(f) && n >= 1
    modifies t`line, t`dirty
    ensures t.Valid() && Tracked(old(t.line), old(t.dirty), t.line, t.dirty)
    ensures TextShifted(f, n, old(t.line), t.line, t.c, t.top, t.bot)
  {
    hide ScreenOk; hide Fresh; hide Tracked; hide BlanksInserted; hide CharsDeleted; hide ScrolledDown; hide ScrolledUp;
    hide Marked; hide PenOk;
    match f {
      case '@' => t.InsertBlank(n);
      case 'P' => t.DeleteChar(n);
      case 'L' => t.InsertBlankLine(n);
      case 'M' => t.DeleteLine(n);
      case 'S' => t.ScrollUp(t.top, n);
      case _ => t.ScrollDown(t.top, n);
    }
  }

  predicate Erases(f: char) { f in {'J', 'K', 'X'} }

  /** What the control functions do that erase. ED with parameter 1 leaves row 0 alone when the
      cursor is in row 1; ECH erases one cell more than its parameter. */
  predicate TextErased(f: char, a: int, l0: seq<Row>, l1: seq<Row>, c: Cursor, col: int) {
    if f == 'X' then ClearedRegion(l0, l1, c.x, c.y, Min(c.x + Default(a, 1), col - 1), c.y)
    else if f == 'K' then
      if a == 0 then ClearedRegion(l0, l1, c.x, c.y, col - 1, c.y)
      else if a == 1 then ClearedRegion(l0, l1, 0, c.y, c.x, c.y)
      else if a == 2 then ClearedRegion(l0, l1, 0, c.y, col - 1, c.y)
      else l1 == l0
    else if a == 0 then ErasedAfter(l0, l1, c.x, c.y)
    else if a == 1 then
      if c.y == 1 then ClearedRegion(l0, l1, 0, 1, c.x, 1) else ErasedBefore(l0, l1, c.x, c.y)
    else if a == 2 then ClearedRegion(l0, l1, 0, 0, col - 1, |l0| - 1)
    else l1 == l0
  }

  method Erase(t: Term, f: char, a: int)
    requires t.Valid() && Erases(f) && a >= 0
    modifies t`line, t`dirty
    ensures t.Valid() && Tracked(old(t.line), old(t.dirty), t.line, t.dirty)
    ensures TextErased(f, a, old(t.line), t.line, t.c, t.col)
  {
    hide ScreenOk; hide Fresh; hide Tracked; hide ClearedRegion; hide ErasedAfter; hide ErasedBefore; hide Marked; hide PenOk;
    hide WidthOk;
    Sizes(t.row, t.col, t.line, t.alt, t.dirty, t.tabs);
    TrackedSame(t.line, t.dirty);
    if f == 'J' {
      EraseDisplay(t, a);
    } else if f == 'K' {
      if a == 0 {
        t.ClearRegion(t.c.x, t.c.y, t.col - 1, t.c.y);
      } else if a == 1 {
        t.ClearRegion(0, t.c.y, t.c.x, t.c.y);
      } else if a == 2 {
        t.ClearRegion(0, t.c.y, t.col - 1, t.c.y);
      }
    } else {
      t.ClearRegion(t.c.x, t.c.y, t.c.x + Default(a, 1), t.c.y);
    }
  }

  /** ED */
  method EraseDisplay(t: Term, a: int)
    requires t.Valid() && a >= 0
    modifies t`line, t`dirty
    ensures t.Valid() && Tracked(old(t.line), old(t.dirty), t.line, t.dirty)
    ensures TextErased('J', a, old(t.line), t.line, t.c, t.col)
  {
    hide ScreenOk; hide Fresh; hide Tracked; hide ClearedRegion; hide ErasedAfter; hide ErasedBefore; hide Marked; hide PenOk;
    hide WidthOk;
    Sizes(t.row, t.col, t.line, t.alt, t.dirty, t.tabs);
    TrackedSame(t.line, t.dirty);
    if a == 0 {
      t.ClearRegion(t.c.x, t.c.y, t.col - 1, t.c.y);
      ghost var l, d := t.line, t.dirty;
      if t.c.y < t.row - 1 {
        t.ClearRegion(0, t.c.y + 1, t.col - 1, t.row - 1);
        TrackedTwice(old(t.line), old(t.dirty), l, d, t.line, t.dirty);
      }
      EraseAfterFacts(old(t.line), l, t.line, t.c.x, t.c.y, t.col);
    } else if a == 1 {
      if t.c.y > 1 {
        t.ClearRegion(0, 0, t.col - 1, t.c.y - 1);
      }
      ghost var l, d := t.line, t.dirty;
      t.ClearRegion(0, t.c.y, t.c.x, t.c.y);
      TrackedTwice(old(t.line), old(t.dirty), l, d, t.line, t.dirty);
      if t.c.y != 1 { EraseBeforeFacts(old(t.line), l, t.line, t.c.x, t.c.y, t.col); }
    } else if a == 2 {
      t.ClearRegion(0, 0, t.col - 1, t.row - 1);
    }
  }

  /** TBC: one tab stop or all of them. */
  function TabsCleared(tabs: seq<bool>, x: int, a: int): seq<bool> {
    if a == 0 && 0 <= x < |tabs| then tabs[x := false] else if a == 3 then seq(|tabs|, k => false) else tabs
  }

  method ClearTabs(t: Term, a: int)
    requires t.Valid()
    modifies t`tabs
    ensures t.Valid() && t.tabs == TabsCleared(old(t.tabs), t.c.x, a)
  {
    hide WidthOk; hide Distinct; hide Apart; hide Fresh; hide PenOk;
    if a == 0 {
      t.tabs := t.tabs[t.c.x := false];
    } else if a == 3 {
      t.tabs := seq(t.col, k => false);
    }
  }

  /** What CHT and CBT leave. */
  predicate Tabbed(tabs: seq<bool>, c0: Cursor, c1: Cursor, n: nat, forward: bool) {
    && 0 <= c0.x < |tabs| && c1 == c0.(x := c1.x, wrapNext := c1.wrapNext)
    && c1.x == StopsFrom(tabs, c0.x, n, forward)
  }

  /** CHT, CBT */
  method Tabulate(t: Term, f: char, n: nat)
    requires t.Valid()
    modifies t`c
    ensures t.Valid() && Tabbed(t.tabs, old(t.c), t.c, n, f == 'I')
  {
    hide WidthOk; hide Distinct; hide Apart; hide Fresh; hide PenOk; hide TabFound; hide StopFrom;
    var i := 0;
    while i < n
      invariant 0 <= i <= n && t.Valid() && Tabbed(t.tabs, old(t.c), t.c, i, f == 'I')
    {
      ghost var x := t.c.x;
      t.PutTab(f == 'I');
      OneStop(t.tabs, x, t.c.x, f == 'I');
      i := i + 1;
    }
  }

  /** A step that keeps the main screen while the alternate one is shown. */
  predicate MainStep(s0: State, s1: State) {
    MainKept(AltScreen in s0.mode, s0.line, s0.alt, AltScreen in s1.mode, s1.line, s1.alt)
  }

  /** From s0 to s1, csihandle did what the sequence asks for, as far as it concerns the screen,
      the cursor, the scrolling region and the modes. */
  predicate CsiDone(csi: Csi, s0: State, s1: State) {
    var f, args := csi.mode, csi.arg;
    && ArgsOk(args) && csi.narg <= ESC_ARG_SIZ
    && s1.row == s0.row >= 1 && s1.col == s0.col >= 1
    && MainStep(s0, s1)
    && (if MovesCursor(f) then
          var to := Target(f, args, s0.c);
          s1.c == Moved(s0.c, s0.row, s0.col, to.x, to.y)
        else if f == 'm' then s1.c == s0.c.(pen := Sgr(s0.c.pen, args[..csi.narg]))
        else if f == 's' then s1.saved == s1.c == s0.c
        else if f == 'u' then s1.saved == s0.saved && s1.c == Moved(s0.saved, s0.row, s0.col, s0.saved.x, s0.saved.y)
        else if f == 'I' || f == 'Z' then Tabbed(s0.tabs, s0.c, s1.c, Default(args[0], 1), f == 'I')
        else if f == 'h' || f == 'l' then
          Cursors(s1.c, s1.saved)
          == AllCursorsSet(Cursors(s0.c, s0.saved), s0.row, s0.col, csi.priv, f == 'h', args[..csi.narg])
        else (f == 'r' && !csi.priv) || s1.c == s0.c)
    && (f in {'h', 'l', 's'} || s1.saved == s0.saved)
    && s1.tabs == (if f == 'g' then TabsCleared(s0.tabs, s0.c.x, args[0]) else s0.tabs)
    && (if ShiftsText(f) then TextShifted(f, Default(args[0], 1), s0.line, s1.line, s0.c, s0.top, s0.bot)
        else if Erases(f) then TextErased(f, args[0], s0.line, s1.line, s0.c, s0.col)
        else if f == 'h' || f == 'l' then
          (csi.priv && exists i :: 0 <= i < csi.narg && SwitchesScreen(args[i])) || s1.line == s0.line
        else s1.line == s0.line && s1.dirty == s0.dirty)
    && s1.mode == (if f in {'h', 'l'} then ModesSet(s0.mode, f == 'h', Flags(csi.priv, args[..csi.narg])) else s0.mode)
    && (if f == 'r' && !csi.priv then
          var a, b := Limit(Default(args[0], 1) - 1, 0, s0.row - 1), Limit(Default(args[1], s0.row) - 1, 0, s0.row - 1);
          s1.top == Min(a, b) && s1.bot == Max(a, b) && s1.c == Moved(s0.c, s0.row, s0.col, 0, 0)
        else s1.top == s0.top && s1.bot == s0.bot)
  }

  /** Unless reverse video was toggled, no mark is lost and what changed is marked. */
  predicate MarksKept(s0: State, s1: State) {
    (ReverseVideo in s1.mode <==> ReverseVideo in s0.mode) ==> Tracked(s0.line, s0.dirty, s1.line, s1.dirty)
  }

  /** The functions that change the text. */
  method HandleText(t: Term, csi: Csi)
    requires t.Valid() && ArgsOk(csi.arg) && csi.narg <= ESC_ARG_SIZ && (ShiftsText(csi.mode) || Erases(csi.mode))
    modifies t`line, t`dirty
    ensures t.Valid() && CsiDone(csi, old(t.Now()), t.Now()) && MarksKept(old(t.Now()), t.Now())
  {
    hide ScreenOk; hide Fresh; hide Tracked; hide TextErased; hide TextShifted; hide CursorOk; hide PenOk;
    Sizes(t.row, t.col, t.line, t.alt, t.dirty, t.tabs);
    if ShiftsText(csi.mode) {
      ShiftText(t, csi.mode, Default(csi.arg[0], 1));
    } else {
      Erase(t, csi.mode, csi.arg[0]);
    }
  }

  /** SM, RM and their private forms. */
  method HandleMode(t: Term, csi: Csi, visible: bool)
    requires t.Valid() && ArgsOk(csi.arg) && csi.narg <= ESC_ARG_SIZ && csi.mode in {'h', 'l'}
    modifies t`line, t`alt, t`dirty, t`shown, t`mode, t`c, t`saved
    ensures t.Valid() && CsiDone(csi, old(t.Now()), t.Now()) && MarksKept(old(t.Now()), t.Now())
  {
    hide ScreenOk; hide Fresh; hide Tracked; hide CursorOk; hide Flags; hide PenOk; hide AllCursorsSet; hide SwitchesScreen;
    Sizes(t.row, t.col, t.line, t.alt, t.dirty, t.tabs);
    SetMode(t, csi.priv, csi.mode == 'h', csi.arg[..csi.narg], visible);
  }

  /** The functions that concern the cursor, the tab stops and the scrolling region, and those
      that are not known. */
  method HandleCursor(t: Term, csi: Csi)
    requires t.Valid() && ArgsOk(csi.arg) && csi.narg <= ESC_ARG_SIZ
    requires !ShiftsText(csi.mode) && !Erases(csi.mode) && csi.mode !in {'h', 'l'}
    modifies t`c, t`saved, t`tabs, t`top, t`bot
    ensures t.Valid() && CsiDone(csi, old(t.Now()), t.Now()) && MarksKept(old(t.Now()), t.Now())
  {
    hide ScreenOk; hide Fresh; hide Tracked; hide CursorOk; hide Sgr; hide PenOk; hide Tabbed; hide TabsCleared;
    Sizes(t.row, t.col, t.line, t.alt, t.dirty, t.tabs);
    TrackedSame(t.line, t.dirty);
    var f, a := csi.mode, csi.arg[0];
    if MovesCursor(f) {
      var to := Target(f, csi.arg, t.c);
      t.MoveTo(to.x, to.y);
    } else if f == 'g' {
      ClearTabs(t, a);
    } else if f == 'I' || f == 'Z' {
      Tabulate(t, f, Default(a, 1));
    } else if f == 'm' {
      t.SetAttr(csi.arg[..csi.narg]);
    } else if f == 'r' {
      if !csi.priv {
        t.SetScroll(Default(a, 1) - 1, Default(csi.arg[1], t.row) - 1);
        t.MoveTo(0, 0);
      }
    } else if f == 's' || f == 'u' {
      t.SaveOrLoad(f == 's');
    }
  }

  method CsiHandle(t: Term, csi: Csi, visible: bool)
    requires t.Valid() && ArgsOk(csi.arg) && csi.narg <= ESC_ARG_SIZ
    modifies t`line, t`alt, t`dirty, t`shown, t`mode, t`c, t`saved, t`tabs, t`top, t`bot
    ensures t.Valid() && CsiDone(csi, old(t.Now()), t.Now()) && MarksKept(old(t.Now()), t.Now())
  {
    hide ScreenOk; hide Fresh; hide CursorOk; hide PenOk; hide CsiDone; hide MarksKept;
    if ShiftsText(csi.mode) || Erases(csi.mode) {
      HandleText(t, csi);
    } else if csi.mode == 'h' || csi.mode == 'l' {
      HandleMode(t, csi, visible);
    } else {
      HandleCursor(t, csi);
    }
  }
}
