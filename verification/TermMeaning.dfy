/** What the control codes and control functions of package/simple-terminal/src/main.c mean for
    the text on the screen and the cursor, as a program that uses them counts on it. Functions as
    in section 8.3 of ECMA-48. */
module TermMeaning {
  import opened Numerals
  import opened TermScreen
  import opened TermCsi
  import opened TermClass
  import opened TermMode
  import opened TermControl
  import opened TermVt
  import opened TermRun

  /** ESC [ args f */
  function Seq(args: seq<nat>, f: char): Csi
    requires |args| <= ESC_ARG_SIZ
  {
    Csi(false, Stored(NO_ARGS, args, 0), |args|, f)
  }

  /** The cursor and the margins are on the screen. */
  predicate OnScreen(s: State) {
    && |s.line| == s.row && WidthOk(s.line, s.col) && |s.tabs| == s.col
    && 0 <= s.c.x < s.col && 0 <= s.c.y < s.row && 0 <= s.top <= s.bot < s.row
  }

  // ---- text that moves

  lemma ShiftedText(f: char, n: nat, s0: State, s1: State)
    requires ShiftsText(f) && n >= 1 && CsiDone(Seq([n], f), s0, s1)
    ensures TextShifted(f, n, s0.line, s1.line, s0.c, s0.top, s0.bot)
    ensures s1.c == s0.c && s1.top == s0.top && s1.bot == s0.bot
  {
    hide TextShifted; hide MainStep;
    StoredOne(n);
  }

  /** IL: within the margins the rows from the cursor on move down by n, blank rows come in, and
      DL brings them back but for those pushed out at the bottom. */
  lemma LinesMove(n: nat, s0: State, s1: State, s2: State)
    requires OnScreen(s0) && n >= 1 && s0.top <= s0.c.y <= s0.bot
    requires CsiDone(Seq([n], 'L'), s0, s1) && CsiDone(Seq([n], 'M'), s1, s2)
    ensures var k := Min(n, s0.bot - s0.c.y + 1);
            && RowsDown(s0.line, s1.line, s0.c.y, s0.bot, k) && RowsUp(s1.line, s2.line, s0.c.y, s0.bot, k)
            && |s2.line| == |s0.line|
            && (forall y :: 0 <= y < s0.row && !(s0.bot - k < y <= s0.bot) ==> s2.line[y] == s0.line[y])
  {
    hide ScrolledDown; hide ScrolledUp; hide RowsUp; hide RowsDown; hide WidthOk; hide CsiDone;
    var k := Min(n, s0.bot - s0.c.y + 1);
    ShiftedText('L', n, s0, s1);
    ShiftedText('M', n, s1, s2);
    DeleteUndoesInsert(s0.line, s1.line, s2.line, s0.c.y, s0.bot, k);
    DownRows(s0.line, s1.line, s0.c.y, s0.bot, k);
    UpRows(s1.line, s2.line, s0.c.y, s0.bot, k);
  }

  lemma StoredOne(n: nat)
    ensures Stored(NO_ARGS, [n], 0)[0] == n && Stored(NO_ARGS, [n], 0)[..1] == [n]
  {
  }

  /** Outside the margins neither does anything. */
  lemma LinesStay(f: char, n: nat, s0: State, s1: State)
    requires (f == 'L' || f == 'M') && !(s0.top <= s0.c.y <= s0.bot) && CsiDone(Seq([n], f), s0, s1)
    ensures s1.line == s0.line
  {
  }

  /** ICH: the cells from the cursor on move right by n, blanks come in, and DCH brings the cells
      back but for those pushed out at the margin. */
  lemma CharsMove(n: nat, s0: State, s1: State, s2: State)
    requires OnScreen(s0) && n >= 1
    requires CsiDone(Seq([n], '@'), s0, s1) && CsiDone(Seq([n], 'P'), s1, s2)
    ensures var (x, y) := (s0.c.x, s0.c.y);
            && |s1.line| == |s2.line| == |s0.line| && |s1.line[y].cells| == |s2.line[y].cells| == s0.col
            && (forall k :: x <= k < s0.col ==>
                  if k < x + n then !s1.line[y].cells[k].isSet else s1.line[y].cells[k] == s0.line[y].cells[k - n])
            && (forall k :: 0 <= k < s0.col && (k < x || k + n < s0.col) ==> s2.line[y].cells[k] == s0.line[y].cells[k])
            && (forall r :: 0 <= r < s0.row && r != y ==> s2.line[r] == s0.line[r])
  {
    hide CsiDone;
    ShiftedText('@', n, s0, s1);
    ShiftedText('P', n, s1, s2);
    RowWidth(s0.line, s0.col, s0.c.y);
    BlanksShift(s0.line, s1.line, s0.c.y, s0.c.x, n);
    DeleteUndoesBlanks(s0.line, s1.line, s2.line, s0.c.y, s0.c.x, n);
    hide CharsDeleted; hide BlanksInserted;
  }

  lemma BlanksShift(l0: seq<Row>, l1: seq<Row>, y: int, x: int, n: int)
    requires BlanksInserted(l0, l1, y, x, n)
    ensures |l1| == |l0| && |l1[y].cells| == |l0[y].cells|
    ensures forall k :: x <= k < |l0[y].cells| ==>
              if k < x + n then !l1[y].cells[k].isSet else l1[y].cells[k] == l0[y].cells[k - n]
  {
  }

  /** SU and SD: the region scrolls up or down, wherever the cursor is. */
  lemma RegionScrolls(n: nat, s0: State, s1: State)
    requires OnScreen(s0) && n >= 1
    ensures var k := Min(n, s0.bot - s0.top + 1);
            CsiDone(Seq([n], 'S'), s0, s1) ==> s1.c == s0.c && RowsUp(s0.line, s1.line, s0.top, s0.bot, k)
    ensures var k := Min(n, s0.bot - s0.top + 1);
            CsiDone(Seq([n], 'T'), s0, s1) ==> s1.c == s0.c && RowsDown(s0.line, s1.line, s0.top, s0.bot, k)
  {
    hide ScrolledUp; hide ScrolledDown; hide RowsUp; hide RowsDown; hide WidthOk; hide CsiDone;
    var k := Min(n, s0.bot - s0.top + 1);
    if CsiDone(Seq([n], 'S'), s0, s1) {
      ShiftedText('S', n, s0, s1);
      UpRows(s0.line, s1.line, s0.top, s0.bot, k);
    }
    if CsiDone(Seq([n], 'T'), s0, s1) {
      ShiftedText('T', n, s0, s1);
      DownRows(s0.line, s1.line, s0.top, s0.bot, k);
    }
  }

  /** The rows from top to bot are k rows further up, or blank; all others are as they were. */
  ghost predicate RowsUp(l0: seq<Row>, l1: seq<Row>, top: int, bot: int, k: int) {
    && |l1| == |l0| && 0 <= top <= bot < |l0| && 1 <= k
    && forall y {:trigger l1[y]} :: 0 <= y < |l0| ==>
         if !(top <= y <= bot) then l1[y] == l0[y] else if y + k <= bot then l1[y] == l0[y + k] else BlankRow(l1[y])
  }

  /** They are k rows further down. */
  ghost predicate RowsDown(l0: seq<Row>, l1: seq<Row>, top: int, bot: int, k: int) {
    && |l1| == |l0| && 0 <= top <= bot < |l0| && 1 <= k
    && forall y {:trigger l1[y]} :: 0 <= y < |l0| ==>
         if !(top <= y <= bot) then l1[y] == l0[y] else if y - k >= top then l1[y] == l0[y - k] else BlankRow(l1[y])
  }

  lemma UpRows(l0: seq<Row>, l1: seq<Row>, top: int, bot: int, k: int)
    requires ScrolledUp(l0, l1, top, bot, k)
    ensures RowsUp(l0, l1, top, bot, k)
  {
    hide Permuted; hide BlankRow;
  }

  lemma DownRows(l0: seq<Row>, l1: seq<Row>, top: int, bot: int, k: int)
    requires ScrolledDown(l0, l1, top, bot, k)
    ensures RowsDown(l0, l1, top, bot, k)
  {
    hide Permuted; hide BlankRow;
  }

  // ---- text that is erased

  /** The cells of the part are erased, all others are as they were. */
  ghost predicate ErasedPart(l0: seq<Row>, l1: seq<Row>, part: (int, int) -> bool) {
    && |l1| == |l0|
    && forall y :: 0 <= y < |l0| ==>
         && |l1[y].cells| == |l0[y].cells|
         && forall x :: 0 <= x < |l0[y].cells| ==>
              l1[y].cells[x] == if part(x, y) then l0[y].cells[x].(isSet := false) else l0[y].cells[x]
  }

  lemma RegionPart(l0: seq<Row>, l1: seq<Row>, x1: int, y1: int, x2: int, y2: int)
    requires ClearedRegion(l0, l1, x1, y1, x2, y2)
    ensures ErasedPart(l0, l1, (x, y) => x1 <= x <= x2 && y1 <= y <= y2)
  {
    forall y | 0 <= y < |l0|
      ensures |l1[y].cells| == |l0[y].cells|
      ensures forall x :: 0 <= x < |l0[y].cells| ==>
                l1[y].cells[x] == if x1 <= x <= x2 && y1 <= y <= y2 then l0[y].cells[x].(isSet := false) else l0[y].cells[x]
    {
      if y1 <= y <= y2 { assert RowCleared(l0[y], l1[y], x1, x2); }
    }
  }

  lemma SamePart(l0: seq<Row>, l1: seq<Row>, col: int, p: (int, int) -> bool, q: (int, int) -> bool)
    requires ErasedPart(l0, l1, p) && WidthOk(l0, col)
    requires forall x, y :: 0 <= x < col && 0 <= y < |l0| ==> p(x, y) == q(x, y)
    ensures ErasedPart(l0, l1, q)
  {
  }

  /** EL: from the cursor, up to it, or the whole line. ECH: n cells from the cursor, and one
      more. */
  lemma LineErased(a: nat, s0: State, s1: State)
    requires OnScreen(s0)
    ensures a == 0 && CsiDone(Seq([a], 'K'), s0, s1) ==> ErasedPart(s0.line, s1.line, (x, y) => y == s0.c.y && x >= s0.c.x)
    ensures a == 1 && CsiDone(Seq([a], 'K'), s0, s1) ==> ErasedPart(s0.line, s1.line, (x, y) => y == s0.c.y && x <= s0.c.x)
    ensures a == 2 && CsiDone(Seq([a], 'K'), s0, s1) ==> ErasedPart(s0.line, s1.line, (x, y) => y == s0.c.y)
    ensures a >= 1 && CsiDone(Seq([a], 'X'), s0, s1) ==>
              ErasedPart(s0.line, s1.line, (x, y) => y == s0.c.y && s0.c.x <= x <= s0.c.x + a)
  {
    hide ErasedPart; hide ClearedRegion; hide MainStep;
    StoredOne(a);
    var (l0, l1, c, w) := (s0.line, s1.line, s0.c, s0.col);
    if a == 0 && CsiDone(Seq([a], 'K'), s0, s1) {
      RegionPart(l0, l1, c.x, c.y, w - 1, c.y);
      SamePart(l0, l1, w, (x, y) => c.x <= x <= w - 1 && c.y <= y <= c.y, (x, y) => y == s0.c.y && x >= s0.c.x);
    }
    if a == 1 && CsiDone(Seq([a], 'K'), s0, s1) {
      RegionPart(l0, l1, 0, c.y, c.x, c.y);
      SamePart(l0, l1, w, (x, y) => 0 <= x <= c.x && c.y <= y <= c.y, (x, y) => y == s0.c.y && x <= s0.c.x);
    }
    if a == 2 && CsiDone(Seq([a], 'K'), s0, s1) {
      RegionPart(l0, l1, 0, c.y, w - 1, c.y);
      SamePart(l0, l1, w, (x, y) => 0 <= x <= w - 1 && c.y <= y <= c.y, (x, y) => y == s0.c.y);
    }
    if a >= 1 && CsiDone(Seq([a], 'X'), s0, s1) {
      var to := Min(c.x + a, w - 1);
      RegionPart(l0, l1, c.x, c.y, to, c.y);
      SamePart(l0, l1, w, (x, y) => c.x <= x <= to && c.y <= y <= c.y, (x, y) => y == s0.c.y && s0.c.x <= x <= s0.c.x + a);
    }
  }

  lemma ErasedText(f: char, a: nat, s0: State, s1: State)
    requires Erases(f) && CsiDone(Seq([a], f), s0, s1)
    ensures TextErased(f, a, s0.line, s1.line, s0.c, s0.col)
  {
    hide TextErased; hide MainStep;
    StoredOne(a);
  }

  lemma AfterPart(l0: seq<Row>, l1: seq<Row>, x: int, y: int)
    ensures ErasedAfter(l0, l1, x, y) ==> ErasedPart(l0, l1, (k, r) => r > y || (r == y && k >= x))
    ensures ErasedBefore(l0, l1, x, y) ==> ErasedPart(l0, l1, (k, r) => r < y || (r == y && k <= x))
  {
  }

  /** ED: from the cursor to the end of the screen, from its start to the cursor, or all of it.
      From row 1 on the start is taken for that of the row. */
  lemma DisplayErased(a: nat, s0: State, s1: State)
    requires OnScreen(s0) && CsiDone(Seq([a], 'J'), s0, s1)
    ensures var (cx, cy) := (s0.c.x, s0.c.y);
            && (a == 0 ==> ErasedPart(s0.line, s1.line, (x, y) => y > cy || (y == cy && x >= cx)))
            && (a == 1 && cy != 1 ==> ErasedPart(s0.line, s1.line, (x, y) => y < cy || (y == cy && x <= cx)))
            && (a == 1 && cy == 1 ==> ErasedPart(s0.line, s1.line, (x, y) => y == 1 && x <= cx))
            && (a == 2 ==> ErasedPart(s0.line, s1.line, (x, y) => true))
            && (a > 2 ==> s1.line == s0.line)
  {
    hide ErasedPart; hide ClearedRegion; hide CsiDone; hide ErasedAfter; hide ErasedBefore;
    ErasedText('J', a, s0, s1);
    var (l0, l1, c, w) := (s0.line, s1.line, s0.c, s0.col);
    AfterPart(l0, l1, c.x, c.y);
    if a == 1 && c.y == 1 {
      RegionPart(l0, l1, 0, 1, c.x, 1);
      SamePart(l0, l1, w, (x, y) => 0 <= x <= c.x && 1 <= y <= 1, (x, y) => y == 1 && x <= s0.c.x);
    }
    if a == 2 {
      RegionPart(l0, l1, 0, 0, w - 1, |l0| - 1);
      SamePart(l0, l1, w, (x, y) => 0 <= x <= w - 1 && 0 <= y <= |l0| - 1, (x, y) => true);
    }
    if a == 0 {
      SamePart(l0, l1, w, (k, r) => r > c.y || (r == c.y && k >= c.x), (x, y) => y > s0.c.y || (y == s0.c.y && x >= s0.c.x));
    }
    if a == 1 && c.y != 1 {
      SamePart(l0, l1, w, (k, r) => r < c.y || (r == c.y && k <= c.x), (x, y) => y < s0.c.y || (y == s0.c.y && x <= s0.c.x));
    }
  }

  // ---- margins, modes, the cursor

  lemma StoredTwo(a: nat, b: nat)
    ensures Stored(NO_ARGS, [a, b], 0)[0] == a && Stored(NO_ARGS, [a, b], 0)[1] == b
  {
  }

  /** DECSTBM: lines a to b, counted from 1, become the scrolling region; without parameters the
      whole screen does. The cursor goes home. */
  lemma MarginsSet(a: nat, b: nat, s0: State, s1: State)
    requires OnScreen(s0)
    ensures 1 <= a < b <= s0.row && CsiDone(Seq([a, b], 'r'), s0, s1) ==>
              s1.top == a - 1 && s1.bot == b - 1 && s1.c == s0.c.(x := 0, y := 0, wrapNext := false)
    ensures CsiDone(Seq([], 'r'), s0, s1) || CsiDone(Csi(false, NO_ARGS, 1, 'r'), s0, s1) ==>
              s1.top == 0 && s1.bot == s0.row - 1 && s1.c == s0.c.(x := 0, y := 0, wrapNext := false)
  {
    hide MainStep; hide WidthOk;
    StoredTwo(a, b);
    assert Stored(NO_ARGS, [], 0) == NO_ARGS;
  }

  /** The parameter and the kind of each mode; 47 and 1047 stand for 1049 too. */
  function ModeNumber(m: Mode): (bool, int) {
    match m
    case AppKeypad => (true, 1)
    case ReverseVideo => (true, 5)
    case Wrap => (true, 7)
    case MouseBtn => (true, 1000)
    case MouseMotion => (true, 1002)
    case AltScreen => (true, 1049)
    case KbdLock => (false, 2)
    case Insert => (false, 4)
    case Crlf => (false, 20)
  }

  /** SM sets and RM clears exactly the mode with that number. */
  lemma ModeSwitched(m: Mode, s0: State, s1: State)
    ensures var (priv, a) := ModeNumber(m);
            && (CsiDone(Csi(priv, Stored(NO_ARGS, [a], 0), 1, 'h'), s0, s1) ==> s1.mode == s0.mode + {m})
            && (CsiDone(Csi(priv, Stored(NO_ARGS, [a], 0), 1, 'l'), s0, s1) ==> s1.mode == s0.mode - {m})
  {
    hide MainStep;
    var (priv, a) := ModeNumber(m);
    StoredOne(a);
    OneFlag(priv, a);
  }

  lemma OneFlag(priv: bool, a: int)
    ensures Flags(priv, [a]) == Flag(priv, a)
    ensures Flag(true, 47) == Flag(true, 1047) == Flag(true, 1049)
  {
    assert [a][..0] == [];
  }

  /** DECTCEM shows and hides the cursor. */
  lemma CursorShown(on: bool, s0: State, s1: State)
    requires CsiDone(Csi(true, Stored(NO_ARGS, [25], 0), 1, if on then 'h' else 'l'), s0, s1)
    ensures s1.c == s0.c.(hidden := !on) && s1.mode == s0.mode && s1.line == s0.line
  {
    hide MainStep;
    StoredOne(25);
    OneFlag(true, 25);
    OneCursors(Cursors(s0.c, s0.saved), s0.row, s0.col, true, on, 25);
    assert ModesSet(s0.mode, on, {}) == s0.mode;
  }

  lemma OneCursors(x: Cursors, row: int, col: int, priv: bool, on: bool, a: int)
    requires 1 <= row && 1 <= col
    ensures AllCursorsSet(x, row, col, priv, on, [a]) == CursorsSet(x, row, col, priv, on, a)
  {
    assert [a][..0] == [];
  }

  /** SM and RM of 1048. */
  lemma SavedByMode(on: bool, s0: State, s1: State)
    requires CsiDone(Csi(true, Stored(NO_ARGS, [1048], 0), 1, if on then 'h' else 'l'), s0, s1)
    ensures 1 <= s0.row && 1 <= s0.col
    ensures Cursors(s1.c, s1.saved) == SavedOrLoaded(Cursors(s0.c, s0.saved), s0.row, s0.col, on)
  {
    hide MainStep;
    StoredOne(1048);
    OneCursors(Cursors(s0.c, s0.saved), s0.row, s0.col, true, on, 1048);
  }

  ghost predicate Saves(s0: State, s1: State) {
    EscapeDone('7', s0, s1) || CsiDone(Seq([0], 's'), s0, s1)
    || CsiDone(Csi(true, Stored(NO_ARGS, [1048], 0), 1, 'h'), s0, s1)
  }

  ghost predicate Loads(s0: State, s1: State) {
    EscapeDone('8', s0, s1) || CsiDone(Seq([0], 'u'), s0, s1)
    || CsiDone(Csi(true, Stored(NO_ARGS, [1048], 0), 1, 'l'), s0, s1)
  }

  /** ESC 8, CSI u and RM of 1048 bring back the cursor, attributes included, that ESC 7, CSI s or
      SM of 1048 saved, whatever came in between, as long as the screen has kept its size and
      nothing else was saved. */
  lemma CursorComesBack(s0: State, s1: State, s2: State, s3: State)
    requires OnScreen(s0) && s2.saved == s1.saved && s2.row == s0.row && s2.col == s0.col
    requires Saves(s0, s1) && Loads(s2, s3)
    ensures s3.c == s0.c.(wrapNext := false)
  {
    hide MainStep; hide WidthOk; hide AllCursorsSet; hide Flags;
    assert s1.saved == s0.c by {
      if CsiDone(Csi(true, Stored(NO_ARGS, [1048], 0), 1, 'h'), s0, s1) { SavedByMode(true, s0, s1); }
    }
    if CsiDone(Csi(true, Stored(NO_ARGS, [1048], 0), 1, 'l'), s2, s3) { SavedByMode(false, s2, s3); }
  }

  lemma SameMove(csi: Csi, f: char, g: char, s0: State, s1: State)
    requires MovesCursor(f) && MovesCursor(g) && (ArgsOk(csi.arg) ==> Target(f, csi.arg, s0.c) == Target(g, csi.arg, s0.c))
    ensures CsiDone(csi.(mode := f), s0, s1) <==> CsiDone(csi.(mode := g), s0, s1)
  {
    hide MainStep; hide Target; hide Sgr; hide TextShifted; hide TextErased; hide Tabbed; hide AllCursorsSet; hide Flags;
  }

  /** HPR, HPA, HVP are CUF, CHA, CUP; what ECMA-48 calls VPR is CUU here. */
  lemma SameMoves(csi: Csi, s0: State, s1: State)
    ensures CsiDone(csi.(mode := 'a'), s0, s1) <==> CsiDone(csi.(mode := 'C'), s0, s1)
    ensures CsiDone(csi.(mode := '`'), s0, s1) <==> CsiDone(csi.(mode := 'G'), s0, s1)
    ensures CsiDone(csi.(mode := 'f'), s0, s1) <==> CsiDone(csi.(mode := 'H'), s0, s1)
    ensures CsiDone(csi.(mode := 'e'), s0, s1) <==> CsiDone(csi.(mode := 'A'), s0, s1)
  {
    hide CsiDone;
    SameMove(csi, 'a', 'C', s0, s1);
    SameMove(csi, '`', 'G', s0, s1);
    SameMove(csi, 'f', 'H', s0, s1);
    SameMove(csi, 'e', 'A', s0, s1);
  }

  // ---- control codes

  /** CR, BS, and LF, VT and FF where the screen need not scroll. */
  lemma CodesMove(a: char, s0: State, s1: State)
    requires OnScreen(s0) && ControlDone(a, s0, s1)
    ensures a == '\r' ==> s1 == s0.(c := s0.c.(x := 0, wrapNext := false))
    ensures a == BS ==> s1 == s0.(c := s0.c.(x := Max(s0.c.x - 1, 0), wrapNext := false))
    ensures a in {'\n', VT, FF} && s0.c.y != s0.bot && s0.c.y + 1 < s0.row ==>
              s1 == s0.(c := s0.c.(x := if Crlf in s0.mode then 0 else s0.c.x, y := s0.c.y + 1, wrapNext := false))
  {
    hide WidthOk;
  }

  /** At the lower margin LF, VT, FF, IND and NEL scroll the region up by one row; the cursor
      keeps its row. */
  lemma MarginScrollsUp(a: char, s0: State, s1: State)
    requires OnScreen(s0) && s0.c.y == s0.bot
    requires (a in {'\n', VT, FF} && ControlDone(a, s0, s1)) || (a in {'D', 'E'} && EscapeDone(a, s0, s1))
    ensures s1.c.y == s0.c.y && RowsUp(s0.line, s1.line, s0.top, s0.bot, 1)
  {
    hide WidthOk; hide RowsUp; hide ScrolledUp;
    UpRows(s0.line, s1.line, s0.top, s0.bot, 1);
  }

  /** At the upper one RI scrolls it down. */
  lemma MarginScrollsDown(s0: State, s1: State)
    requires OnScreen(s0) && s0.c.y == s0.top && EscapeDone('M', s0, s1)
    ensures s1.c == s0.c && RowsDown(s0.line, s1.line, s0.top, s0.bot, 1)
  {
    hide WidthOk; hide RowsDown; hide ScrolledDown;
    DownRows(s0.line, s1.line, s0.top, s0.bot, 1);
  }

  /** Elsewhere IND, NEL and RI move one row. */
  lemma IndexMoves(s0: State, s1: State)
    requires OnScreen(s0)
    ensures EscapeDone('D', s0, s1) && s0.c.y != s0.bot ==> s1 == s0.(c := s0.c.(y := Min(s0.c.y + 1, s0.row - 1), wrapNext := false))
    ensures EscapeDone('E', s0, s1) && s0.c.y != s0.bot ==>
              s1 == s0.(c := s0.c.(x := 0, y := Min(s0.c.y + 1, s0.row - 1), wrapNext := false))
    ensures EscapeDone('M', s0, s1) && s0.c.y != s0.top ==> s1 == s0.(c := s0.c.(y := Max(s0.c.y - 1, 0), wrapNext := false))
  {
    hide WidthOk;
  }

  // ---- tab stops

  /** HT goes no further than a stop that HTS set. */
  lemma StopSet(x: int, s0: State, s1: State, s2: State)
    requires OnScreen(s0) && EscapeDone('H', s0, s1) && 0 <= x < s0.c.x
    requires ControlDone('\t', s1.(c := s1.c.(x := x)), s2)
    ensures x < s2.c.x <= s0.c.x
  {
    hide WidthOk;
    assert s1.tabs[s0.c.x];
  }

  /** It does not stop where TBC cleared a stop, except at the margin, and after TBC of all stops
      it goes to the margin. */
  lemma StopCleared(x: int, s0: State, s1: State, s2: State)
    requires OnScreen(s0) && 0 <= x < s0.col - 1 && ControlDone('\t', s1.(c := s1.c.(x := x)), s2)
    ensures CsiDone(Seq([0], 'g'), s0, s1) ==> s2.c.x != s0.c.x || s0.c.x == s0.col - 1
    ensures CsiDone(Seq([3], 'g'), s0, s1) ==> s2.c.x == s0.col - 1
  {
    hide MainStep; hide WidthOk;
    StoredOne(0);
    StoredOne(3);
  }

  /** CHT and CBT go through as many stops as asked, forwards and backwards. */
  lemma TabMoves(n: nat, s0: State, s1: State)
    requires OnScreen(s0) && n >= 1
    ensures CsiDone(Seq([n], 'I'), s0, s1) ==>
              s0.c.x <= s1.c.x && (s1.c.x == s0.col - 1 || (s0.tabs[s1.c.x] && StopsPassed(s0.tabs, s0.c.x, s1.c.x) == n))
    ensures CsiDone(Seq([n], 'Z'), s0, s1) ==>
              s1.c.x <= s0.c.x && (s1.c.x == 0 || (s0.tabs[s1.c.x] && StopsPassed(s0.tabs, s1.c.x - 1, s0.c.x - 1) == n))
  {
    hide MainStep; hide WidthOk; hide StopsFrom; hide StopsPassed;
    StoredOne(n);
    StopsForward(s0.tabs, s0.c.x, n);
    StopsBack(s0.tabs, s0.c.x, n);
  }

  /** The number of stops after column a, up to column b. */
  function StopsPassed(tabs: seq<bool>, a: int, b: int): nat
    requires -1 <= a <= b < |tabs|
    decreases b
  {
    if a == b then 0
    else
      var before := StopsPassed(tabs, a, b - 1);
      if tabs[b] then before + 1 else before
  }

  lemma {:induction false} PassedJoin(tabs: seq<bool>, a: int, b: int, c: int)
    requires -1 <= a <= b <= c < |tabs|
    ensures StopsPassed(tabs, a, c) == StopsPassed(tabs, a, b) + StopsPassed(tabs, b, c)
    decreases c
  {
    if b < c { PassedJoin(tabs, a, b, c - 1); }
  }

  lemma {:induction false} PassedNone(tabs: seq<bool>, a: int, b: int)
    requires -1 <= a <= b < |tabs| && forall k :: a < k <= b ==> !tabs[k]
    ensures StopsPassed(tabs, a, b) == 0
    decreases b
  {
    if a < b { PassedNone(tabs, a, b - 1); }
  }

  lemma {:induction false} StopsForward(tabs: seq<bool>, x: int, n: nat)
    requires 0 <= x < |tabs|
    ensures var to := StopsFrom(tabs, x, n, true);
            x <= to && (n == 0 ==> to == x) && (n > 0 && to < |tabs| - 1 ==> tabs[to] && StopsPassed(tabs, x, to) == n)
    ensures n == 0 ==> StopsPassed(tabs, x, x) == 0
  {
    if n > 0 {
      StopsForward(tabs, x, n - 1);
      var (m, to) := (StopsFrom(tabs, x, n - 1, true), StopsFrom(tabs, x, n, true));
      assert TabFound(tabs, m, to, true);
      if to < |tabs| - 1 {
        PassedNone(tabs, m, to - 1);
        PassedJoin(tabs, x, m, to);
      }
    }
  }

  lemma {:induction false} StopsBack(tabs: seq<bool>, x: int, n: nat)
    requires 0 <= x < |tabs|
    ensures var to := StopsFrom(tabs, x, n, false);
            to <= x && (n == 0 ==> to == x) && (n > 0 && to > 0 ==> tabs[to] && StopsPassed(tabs, to - 1, x - 1) == n)
    ensures n == 0 ==> StopsPassed(tabs, x - 1, x - 1) == 0
  {
    if n > 0 {
      StopsBack(tabs, x, n - 1);
      var (m, to) := (StopsFrom(tabs, x, n - 1, false), StopsFrom(tabs, x, n, false));
      assert TabFound(tabs, m, to, false);
      if to > 0 {
        PassedNone(tabs, to, m - 1);
        PassedJoin(tabs, to - 1, to, m - 1);
        PassedJoin(tabs, to - 1, m - 1, x - 1);
      }
    }
  }

  // ---- characters

  /** The DEC special graphics of a terminal that draws lines: corners, tees, crossing, bars. */
  lemma LineDrawing(p: Pen)
    requires Gfx in p.mode
    ensures Charset('j' as nat, p) == 0x2518 && Charset('k' as nat, p) == 0x2510 && Charset('l' as nat, p) == 0x250C
    ensures Charset('m' as nat, p) == 0x2514 && Charset('n' as nat, p) == 0x253C && Charset('q' as nat, p) == 0x2500
    ensures Charset('t' as nat, p) == 0x251C && Charset('u' as nat, p) == 0x2524 && Charset('v' as nat, p) == 0x2534
    ensures Charset('w' as nat, p) == 0x252C && Charset('x' as nat, p) == 0x2502 && Charset('a' as nat, p) == 0x2592
    ensures Charset('`' as nat, p) == 0x25C6 && Charset('~' as nat, p) == 0xB7 && Charset('_' as nat, p) == 0x20
    ensures forall ch: nat :: ch < 'A' as nat || ch > '~' as nat || 'H' as nat <= ch <= '^' as nat ==> Charset(ch, p) == ch
  {
  }

  /** Without it, and after SI, ESC ( B or a reset, every character stands for itself. */
  lemma OwnCharacters(p: Pen, ch: nat)
    ensures Gfx !in p.mode ==> Charset(ch, p) == ch
    ensures Charset(ch, WithGfx(p, false)) == ch && Gfx in WithGfx(p, true).mode
  {
  }

  /** SO turns the line drawing set on and SI off. */
  lemma CharsetShifted(a: char, s0: State, s1: State)
    requires (a == SO || a == SI) && ControlDone(a, s0, s1)
    ensures s1 == s0.(c := s0.c.(pen := s1.c.pen)) && s1.c.pen == s0.c.pen.(mode := s1.c.pen.mode)
    ensures forall x: Attr :: x in s1.c.pen.mode <==> if x == Gfx then a == SO else x in s0.c.pen.mode
  {
  }

  /** So do ESC ( 0 and ESC ( B, sent in any state but inside a string. */
  lemma CharsetSelected(f: char, p0: Parser, s0: State, p1: Parser, s1: State, p2: Parser, s2: State, p3: Parser, s3: State)
    requires f == '0' || f == 'B'
    requires InStr !in p0.esc && CharStep(ESC as nat, p0, s0, p1, s1)
    requires CharStep('(' as nat, p1, s1, p2, s2) && CharStep(f as nat, p2, s2, p3, s3)
    ensures p3.esc == {} && s3 == s0.(c := s0.c.(pen := s3.c.pen)) && s3.c.pen == s0.c.pen.(mode := s3.c.pen.mode)
    ensures forall x: Attr :: x in s3.c.pen.mode <==> if x == Gfx then f == '0' else x in s0.c.pen.mode
  {
    hide CsiDone; hide EscapeDone; hide ControlDone; hide PrintedChar; hide Filled;
  }

  /** ESC = and ESC > switch the keypad, as mode 1 does. */
  lemma KeypadSwitched(s0: State, s1: State)
    ensures EscapeDone('=', s0, s1) ==> s1 == s0.(mode := s0.mode + {AppKeypad})
    ensures EscapeDone('>', s0, s1) ==> s1 == s0.(mode := s0.mode - {AppKeypad})
  {
  }

  /** Text typed after ESC [ 30+n m appears in foreground colour n, on the background and with the
      flags that were set before. */
  method TypeColoured(vt: Vt, n: nat, text: seq<nat>)
    requires vt.Valid() && vt.esc == {} && n <= 7 && !vt.term.c.wrapNext && vt.term.c.x + |text| <= vt.term.col
    requires forall i :: 0 <= i < |text| ==> !Control(Ascii(text[i]))
    modifies vt, vt.term, vt.csiBuf, vt.strBuf
    ensures vt.Valid()
    ensures var c := old(vt.term.c);
            && 0 <= c.x && 0 <= c.y < |vt.term.line| && |vt.term.line[c.y].cells| == vt.term.col == old(vt.term.col)
            && forall i :: 0 <= i < |text| ==>
                 vt.term.line[c.y].cells[c.x + i].pen == Pen(c.pen.mode, n, c.pen.bg)
                 && vt.term.line[c.y].cells[c.x + i].c == Charset(text[i], c.pen) && vt.term.line[c.y].cells[c.x + i].isSet
  {
    hide ScreenOk; hide Fresh; hide PenOk; hide ParserOk; hide CsiDone; hide Control; hide Ascii; hide CursorOk; hide Sgr;
    ghost var s0 := vt.term.Now();
    ColourText(30 + n);
    Send(vt, [30 + n], 'm', false);
    Coloured(n, s0, vt.term.Now());
    TypeText(vt, text);
    assert forall p: Pen, ch: nat :: Charset(ch, p.(fg := n)) == Charset(ch, p);
  }

  lemma ColourText(a: nat)
    requires 30 <= a <= 37
    ensures |Formatted([a], 'm')| <= 3
  {
    assert |Decimal(a / 10)| == 1 && |Decimal(a)| == 2;
  }

  lemma Coloured(n: nat, s0: State, s1: State)
    requires n <= 7 && CsiDone(Csi(false, Stored(NO_ARGS, [30 + n], 0), 1, 'm'), s0, s1)
    ensures s1.c == s0.c.(pen := s0.c.pen.(fg := n)) && s1.line == s0.line && s1.col == s0.col
  {
    hide Sgr; hide MainStep;
    StoredOne(30 + n);
    SgrColours(s0.c.pen, n);
    SgrExtended(s0.c.pen, n);
  }
}
