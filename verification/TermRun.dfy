/** Whole runs of package/simple-terminal/src/main.c: bytes read in any chunks, the window
    resized and drawn in between. */
module TermRun {
  import opened Numerals
  import opened TermScreen
  import opened TermCsi
  import opened TermClass
  import opened TermControl
  import opened TermVt
  import opened TermUtf8
  import TermMode
  import TermResize

  datatype Event = Read(bytes: seq<byte>, visible: bool) | Resize(col: int, row: int) | Draw(visible: bool)

  /** The bytes of all the reads, in order. */
  function BytesRead(events: seq<Event>): seq<byte> {
    if events == [] then [] else
      var e := events[|events| - 1];
      BytesRead(events[..|events| - 1]) + if e.Read? then e.bytes else []
  }

  /** The parser and the terminal between two characters. */
  datatype Moment = Moment(p: Parser, s: State)

  /** What every character does: its step, no mark lost, and the main screen kept unless it is
      ESC c while the alternate one is shown. */
  predicate Stepped(ch: nat, m0: Moment, m1: Moment) {
    && CharStep(ch, m0.p, m0.s, m1.p, m1.s) && MarksKept(m0.s, m1.s)
    && (MainStep(m0.s, m1.s) <==> !LosesMain(ch, m0.p, m0.s))
  }

  /** The moments of a run over chars. */
  predicate IsTrace(chars: seq<nat>, trace: seq<Moment>) {
    |trace| == |chars| + 1 && forall i :: 0 <= i < |chars| ==> Stepped(chars[i], trace[i], trace[i + 1])
  }

  /** Characters for tputc, one after the other. */
  method PutAll(vt: Vt, chars: seq<nat>, visible: bool) returns (ghost trace: seq<Moment>)
    requires vt.Valid()
    modifies vt, vt.term, vt.csiBuf, vt.strBuf
    ensures vt.Valid() && IsTrace(chars, trace)
    ensures trace[0] == old(Moment(vt.Standing(), vt.term.Now())) && trace[|chars|] == Moment(vt.Standing(), vt.term.Now())
  {
    hide MarksKept; hide ScreenOk; hide Fresh; hide CursorOk; hide PenOk; hide ParserOk; hide CharStep; hide MainStep;
    hide LosesMain;
    trace := [Moment(vt.Standing(), vt.term.Now())];
    var i := 0;
    while i < |chars|
      invariant 0 <= i <= |chars| && vt.Valid() && |trace| == i + 1
      invariant trace[0] == old(Moment(vt.Standing(), vt.term.Now())) && trace[i] == Moment(vt.Standing(), vt.term.Now())
      invariant forall k :: 0 <= k < i ==> Stepped(chars[k], trace[k], trace[k + 1])
    {
      vt.PutC(chars[i], visible);
      trace := trace + [Moment(vt.Standing(), vt.term.Now())];
      i := i + 1;
    }
  }

  /** The main screen is shown at the first and the last moment, the alternate one in between. */
  predicate IsExcursion(trace: seq<Moment>) {
    && |trace| >= 3 && AltScreen !in trace[0].s.mode && AltScreen !in trace[|trace| - 1].s.mode
    && forall i :: 0 < i < |trace| - 1 ==> AltScreen in trace[i].s.mode
  }

  /** ESC c ends an excursion, so it is not among the steps before the last. */
  lemma MainStepWithin(ch: nat, m0: Moment, m1: Moment)
    requires Stepped(ch, m0, m1) && AltScreen in m1.s.mode
    ensures MainStep(m0.s, m1.s)
  {
    if LosesMain(ch, m0.p, m0.s) {
      assert false;
    }
  }

  /** An excursion to the alternate screen, whatever is read during it, gives the main screen
      back as it was if and only if it is not ended by ESC c. */
  lemma {:induction false} MainScreenRestored(chars: seq<nat>, trace: seq<Moment>)
    requires IsTrace(chars, trace) && IsExcursion(trace)
    ensures var n := |chars| - 1;
            trace[n + 1].s.line == trace[0].s.line <==> !LosesMain(chars[n], trace[n].p, trace[n].s)
  {
    hide CharStep; hide MarksKept; hide LosesMain;
    var n := |chars| - 1;
    var i := 1;
    assert Stepped(chars[0], trace[0], trace[1]);
    MainStepWithin(chars[0], trace[0], trace[1]);
    while i < n
      invariant 1 <= i <= n && trace[i].s.alt == trace[0].s.line
    {
      assert Stepped(chars[i], trace[i], trace[i + 1]);
      MainStepWithin(chars[i], trace[i], trace[i + 1]);
      i := i + 1;
    }
    assert Stepped(chars[n], trace[n], trace[n + 1]);
  }

  /** The same of a run: characters that lead to the alternate screen and back, and are read one
      after the other. */
  method Excursion(vt: Vt, chars: seq<nat>, visible: bool) returns (ghost trace: seq<Moment>)
    requires vt.Valid() && AltScreen !in vt.term.mode
    modifies vt, vt.term, vt.csiBuf, vt.strBuf
    ensures vt.Valid() && IsTrace(chars, trace)
    ensures trace[0] == old(Moment(vt.Standing(), vt.term.Now())) && trace[|chars|] == Moment(vt.Standing(), vt.term.Now())
    ensures var n := |chars| - 1;
            IsExcursion(trace) ==>
              (vt.term.line == old(vt.term.line) <==> !LosesMain(chars[n], trace[n].p, trace[n].s))
  {
    hide ScreenOk; hide Fresh; hide CursorOk; hide PenOk; hide ParserOk; hide Stepped; hide LosesMain;
    trace := PutAll(vt, chars, visible);
    if IsExcursion(trace) {
      MainScreenRestored(chars, trace);
    }
  }

  /** Every run keeps the terminal in order, with the same characters passed on and the same
      bytes left over as if everything had been read at once. */
  method Run(vt: Vt, tty: Tty, events: seq<Event>)
    requires vt.Valid() && tty.buf == [] && tty.values == [] && tty.Encoded()
    modifies vt, vt.term, vt.csiBuf, vt.strBuf, tty
    ensures vt.Valid()
    ensures tty.values == Drain(BytesRead(events)).values && tty.buf == Drain(BytesRead(events)).left && tty.Encoded()
  {
    hide ScreenOk; hide Fresh; hide CursorOk; hide PenOk; hide ParserOk; hide Drain;
    DrainEmpty();
    var i := 0;
    while i < |events|
      invariant 0 <= i <= |events| && vt.Valid() && tty.Encoded()
      invariant tty.values == Drain(BytesRead(events[..i])).values && tty.buf == Drain(BytesRead(events[..i])).left
    {
      assert events[..i + 1][..i] == events[..i];
      OneMore(BytesRead(events[..i]));
      Step(vt, tty, events[i], BytesRead(events[..i]));
      i := i + 1;
    }
    assert events[..i] == events;
  }

  lemma OneMore(s: seq<byte>)
    ensures s + [] == s
  {
  }

  method Step(vt: Vt, tty: Tty, e: Event, ghost before: seq<byte>)
    requires vt.Valid() && tty.values == Drain(before).values && tty.buf == Drain(before).left && tty.Encoded()
    modifies vt, vt.term, vt.csiBuf, vt.strBuf, tty
    ensures vt.Valid()
    ensures var all := before + if e.Read? then e.bytes else [];
            tty.values == Drain(all).values && tty.buf == Drain(all).left && tty.Encoded()
  {
    hide ScreenOk; hide Fresh; hide CursorOk; hide PenOk; hide ParserOk; hide Drain;
    OneMore(before);
    match e {
      case Read(bytes, visible) =>
        DrainSplit(before, bytes);
        var n := |tty.values|;
        tty.TtyRead(bytes);
        ghost var trace := PutAll(vt, tty.values[n..], visible);
      case Resize(col, row) =>
        var slid, freedLine, freedAlt := TermResize.Resize(vt.term, col, row);
      case Draw(visible) =>
        DrawNow(vt.term, visible);
    }
  }

  method DrawNow(t: Term, visible: bool)
    requires t.Valid()
    modifies t`dirty, t`shown
    ensures t.Valid()
    ensures |t.shown| == |t.line| == t.row
    ensures visible ==> forall k :: 0 <= k < t.row ==> t.shown[k] == Painted(t.line[k].cells, ReverseVideo in t.mode)
  {
    hide ScreenOk; hide Fresh; hide CursorOk; hide PenOk;
    Sizes(t.row, t.col, t.line, t.alt, t.dirty, t.tabs);
    FreshSize(t.line, t.dirty, t.shown, ReverseVideo in t.mode);
    t.Draw(visible);
    OtherMarks(t.row, t.col, t.line, t.alt, old(t.dirty), t.tabs, t.dirty);
  }

  /** After any run, drawing shows exactly the screen. */
  method RunThenDraw(vt: Vt, tty: Tty, events: seq<Event>)
    requires vt.Valid() && tty.buf == [] && tty.values == [] && tty.Encoded()
    modifies vt, vt.term, vt.csiBuf, vt.strBuf, tty
    ensures vt.Valid() && |vt.term.shown| == |vt.term.line| == vt.term.row
    ensures forall k :: 0 <= k < vt.term.row ==>
              vt.term.shown[k] == Painted(vt.term.line[k].cells, ReverseVideo in vt.term.mode)
  {
    hide ScreenOk; hide Fresh; hide CursorOk; hide PenOk; hide ParserOk; hide Drain;
    Run(vt, tty, events);
    DrawNow(vt.term, true);
  }

  // ---- control sequences, byte by byte

  lemma {:induction false} FormattedChars(args: seq<nat>, final: char)
    requires args != []
    ensures var s := Formatted(args, final);
            s != [] && s[|s| - 1] == final && forall i :: 0 <= i < |s| - 1 ==> Digit(s[i]) || s[i] == ';'
  {
    DecimalChars(args[0]);
    if |args| > 1 { FormattedChars(args[1..], final); }
  }

  /** ESC [ and the parameters and the final byte, sent at any time but in the middle of a
      string: the function is carried out with these parameters. */
  method Send(vt: Vt, args: seq<nat>, final: char, priv: bool)
    requires vt.Valid() && InStr !in vt.esc && 1 <= |args| <= ESC_ARG_SIZ && Final(final)
    requires |Formatted(args, final)| + 1 < ESC_BUF_SIZ
    modifies vt, vt.term, vt.csiBuf, vt.strBuf
    ensures vt.Valid() && vt.esc == {}
    ensures CsiDone(Csi(priv, Stored(NO_ARGS, args, 0), |args|, final), old(vt.term.Now()), vt.term.Now())
  {
    hide ScreenOk; hide Fresh; hide CursorOk; hide PenOk; hide ParserOk; hide CsiDone; hide MarksKept; hide Parsed;
    hide PrintedChar; hide Formatted; hide MainKept; hide Ascii;
    FormattedChars(args, final);
    SendEsc(vt);
    AsciiOf('[');
    vt.PutC('[' as nat, true);
    ParsedFormatted(args, final, priv);
    if priv {
      AsciiOf('?');
      vt.PutC('?' as nat, true);
      SendText(vt, ['?'], Formatted(args, final));
    } else {
      assert [] + Formatted(args, final) == Formatted(args, final);
      SendText(vt, [], Formatted(args, final));
    }
  }

  method SendText(vt: Vt, before: seq<char>, s: seq<char>)
    requires vt.Valid() && vt.esc == {Start, InCsi} && vt.Standing().text == before && |before| + |s| < ESC_BUF_SIZ
    requires s != [] && Final(s[|s| - 1]) && forall i :: 0 <= i < |s| - 1 ==> Digit(s[i]) || s[i] == ';'
    modifies vt, vt.term, vt.csiBuf, vt.strBuf
    ensures vt.Valid() && vt.esc == {} && CsiDone(Parsed(before + s), old(vt.term.Now()), vt.term.Now())
  {
    hide ScreenOk; hide Fresh; hide CursorOk; hide PenOk; hide ParserOk; hide CsiDone; hide MarksKept; hide Parsed;
    hide PrintedChar; hide MainKept; hide Ascii;
    var i := 0;
    assert before + s[..0] == before;
    while i < |s| - 1
      invariant 0 <= i <= |s| - 1 && vt.Valid() && vt.term.Now() == old(vt.term.Now())
      invariant vt.esc == {Start, InCsi} && vt.Standing().text == before + s[..i]
    {
      AsciiOf(s[i]);
      vt.PutC(s[i] as nat, true);
      assert before + s[..i + 1] == before + s[..i] + [s[i]];
      i := i + 1;
    }
    AsciiOf(s[i]);
    vt.PutC(s[i] as nat, true);
    assert before + s == before + s[..i] + [s[i]];
  }

  method SendEsc(vt: Vt)
    requires vt.Valid() && InStr !in vt.esc
    modifies vt, vt.term, vt.csiBuf, vt.strBuf
    ensures vt.Valid() && vt.term.Now() == old(vt.term.Now())
    ensures vt.esc == {Start} && vt.Standing().text == []
  {
    hide ScreenOk; hide Fresh; hide CursorOk; hide PenOk; hide ParserOk; hide CsiDone; hide MarksKept; hide Parsed;
    AsciiOf(ESC);
    vt.PutC(ESC as nat, true);
  }

  lemma AsciiOf(c: char)
    requires c < 128 as char
    ensures Ascii(c as nat) == c
  {
  }

  lemma SwitchText(a: nat)
    requires a == 47 || a == 1047 || a == 1049
    ensures |Formatted([a], 'h')| <= 5
  {
    assert |Decimal(a / 100)| <= 2 && |Decimal(a / 10)| <= 3 && |Decimal(a)| <= 4;
  }

  /** DECSET with one of the parameters that switch screens puts the main screen aside. */
  lemma SwitchedOn(a: nat, s0: State, s1: State)
    requires TermMode.SwitchesScreen(a) && CsiDone(Csi(true, Stored(NO_ARGS, [a], 0), 1, 'h'), s0, s1)
    ensures AltScreen in s1.mode && (AltScreen !in s0.mode ==> s1.alt == s0.line)
  {
    var args := Stored(NO_ARGS, [a], 0)[..1];
    assert args == [a] && args[..0] == [];
    assert TermMode.Flags(true, args) == TermMode.Flags(true, []) + {AltScreen};
  }

  lemma ResetShows(s0: State, s1: State)
    requires ResetDone(s0, s1) && ScreenOk(s1.row, s1.col, s1.line, s1.alt, s1.dirty, s1.tabs)
    ensures AltScreen !in s1.mode && s1.alt == s0.alt && s1.line != s0.alt
  {
    assert s1.line[0].id != s1.alt[0].id;
  }

  /** From any valid terminal outside a string: switching to the alternate screen and resetting
      there leaves the main screen aside, and what was the alternate screen is shown as the main
      one from then on. */
  method ResetAside(vt: Vt, a: nat)
    requires vt.Valid() && InStr !in vt.esc && AltScreen !in vt.term.mode && (a == 47 || a == 1047 || a == 1049)
    modifies vt, vt.term, vt.csiBuf, vt.strBuf
    ensures vt.Valid() && AltScreen !in vt.term.mode
    ensures vt.term.alt == old(vt.term.line) && vt.term.line != old(vt.term.line)
  {
    hide ScreenOk; hide Fresh; hide CursorOk; hide PenOk; hide ParserOk; hide CsiDone; hide MarksKept; hide Parsed;
    hide ResetDone; hide MainStep; hide Formatted; hide Ascii;
    SwitchText(a);
    ghost var s0 := vt.term.Now();
    Send(vt, [a], 'h', true);
    SwitchedOn(a, s0, vt.term.Now());
    SendEsc(vt);
    AsciiOf('c');
    ghost var s := vt.term.Now();
    vt.PutC('c' as nat, true);
    ResetShows(s, vt.term.Now());
  }

  /** ESC [ n ; m H moves the cursor to line n and column m, counted from 1, or as near as there
      is a line and a column. */
  lemma CursorPosition(n: nat, m: nat, s0: State, s1: State)
    requires n >= 1 && m >= 1 && CsiDone(Csi(false, Stored(NO_ARGS, [n, m], 0), 2, 'H'), s0, s1)
    ensures s1.c.x == Min(m, s0.col) - 1 && s1.c.y == Min(n, s0.row) - 1 && !s1.c.wrapNext && s1.line == s0.line
  {
  }

  /** CUU, CUD, CUF, CUB move by n in their direction or to the margin; CNL and CPL do so to the
      first column; CHA and VPA go to a column or line counted from 1. */
  lemma CursorMoves(f: char, n: nat, s0: State, s1: State)
    requires n >= 1 && CsiDone(Csi(false, Stored(NO_ARGS, [n], 0), 1, f), s0, s1)
    requires 0 <= s0.c.x < s0.col && 0 <= s0.c.y < s0.row && f in {'A', 'B', 'C', 'D', 'E', 'F', 'G', 'd'}
    ensures !s1.c.wrapNext && s1.line == s0.line && s1.c.pen == s0.c.pen
    ensures s1.c.y == if f == 'A' || f == 'F' then Max(s0.c.y - n, 0)
                      else if f == 'B' || f == 'E' then Min(s0.c.y + n, s0.row - 1)
                      else if f == 'd' then Min(n, s0.row) - 1
                      else s0.c.y
    ensures s1.c.x == if f == 'C' then Min(s0.c.x + n, s0.col - 1)
                      else if f == 'D' then Max(s0.c.x - n, 0)
                      else if f == 'E' || f == 'F' then 0
                      else if f == 'G' then Min(n, s0.col) - 1
                      else s0.c.x
  {
    assert Stored(NO_ARGS, [n], 0)[0] == n;
  }

  // ---- text

  function ShownAs(ch: nat, p: Pen): Glyph { Glyph(Charset(ch, p), p, true) }

  /** The cells of a row with the text from column x on. */
  function Overwritten(cells: seq<Glyph>, x: nat, text: seq<nat>, p: Pen): (r: seq<Glyph>)
    requires x + |text| <= |cells|
    ensures |r| == |cells|
    ensures forall k :: 0 <= k < |cells| ==> r[k] == if x <= k < x + |text| then ShownAs(text[k - x], p) else cells[k]
  {
    seq(|cells|, k requires 0 <= k < |cells| => if x <= k < x + |text| then ShownAs(text[k - x], p) else cells[k])
  }

  lemma OneMoreChar(cells: seq<Glyph>, x: nat, text: seq<nat>, i: nat, p: Pen)
    requires x + |text| <= |cells| && i < |text|
    ensures Overwritten(cells, x, text[..i + 1], p) == Overwritten(cells, x, text[..i], p)[x + i := ShownAs(text[i], p)]
  {
    hide ShownAs;
  }

  /** The cursor after n characters typed from c on. */
  function Advanced(c: Cursor, n: nat, col: int): Cursor {
    if c.x + n < col then c.(x := c.x + n) else c.(x := col - 1, wrapNext := n > 0)
  }

  /** Text that fits in the row of the cursor appears there and changes nothing else: even if it
      ends in the last column, the screen does not scroll before one more character comes. */
  method TypeText(vt: Vt, text: seq<nat>)
    requires vt.Valid() && vt.esc == {} && !vt.term.c.wrapNext && vt.term.c.x + |text| <= vt.term.col
    requires forall i :: 0 <= i < |text| ==> !Control(Ascii(text[i]))
    modifies vt, vt.term, vt.csiBuf, vt.strBuf
    ensures vt.Valid() && vt.esc == {} && vt.term.c == Advanced(old(vt.term.c), |text|, vt.term.col)
    ensures var c := old(vt.term.c);
            && vt.term.col == old(vt.term.col) && 0 <= c.x && 0 <= c.y < |old(vt.term.line)|
            && |old(vt.term.line)[c.y].cells| == vt.term.col
            && vt.term.line == WithCells(old(vt.term.line), c.y, Overwritten(old(vt.term.line)[c.y].cells, c.x, text, c.pen))
  {
    hide ScreenOk; hide Fresh; hide PenOk; hide ParserOk; hide SequenceStep; hide MarksKept; hide MainKept; hide Control;
    hide Ascii; hide Charset;
    ghost var l, c := vt.term.line, vt.term.c;
    Sizes(vt.term.row, vt.term.col, l, vt.term.alt, vt.term.dirty, vt.term.tabs);
    RowWidth(l, vt.term.col, c.y);
    ghost var cells := l[c.y].cells;
    assert Overwritten(cells, c.x, text[..0], c.pen) == cells;
    var i := 0;
    while i < |text|
      invariant 0 <= i <= |text| && vt.Valid() && vt.esc == {} && vt.term.col == |cells|
      invariant vt.term.c == Advanced(c, i, vt.term.col)
      invariant vt.term.line == WithCells(l, c.y, Overwritten(cells, c.x, text[..i], c.pen))
    {
      vt.PutC(text[i], true);
      OneMoreChar(cells, c.x, text, i, c.pen);
      i := i + 1;
    }
    assert text[..i] == text;
  }
}
