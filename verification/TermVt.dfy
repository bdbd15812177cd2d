/** tputc of package/simple-terminal/src/main.c: the state machine over the characters read. */
module TermVt {
  import opened Numerals
  import opened TermScreen
  import opened TermCsi
  import opened TermClass
  import opened TermControl
  import TermUtf8

  datatype Esc = Start | InCsi | InStr | AltCharset | StrEnd | Test

  const ENQ := 5 as char
  const BEL := 7 as char
  const BS := 8 as char
  const VT := 11 as char
  const FF := 12 as char
  const SO := 14 as char
  const SI := 15 as char
  const XON := 17 as char
  const XOFF := 19 as char
  const CAN := 24 as char
  const SUB := 26 as char
  const ESC := 27 as char
  const DEL := 127 as char

  /** The first byte of a character in UTF-8. */
  function Ascii(ch: nat): (a: char)
    ensures ch < 128 ==> a == ch as char
    ensures ch >= 128 ==> a > DEL
  {
    TermUtf8.Encode(ch)[0] as char
  }

  predicate Control(a: char) { a < ' ' || a == DEL }

  predicate Final(a: char) { '@' <= a <= '~' }

  const CSI_RESET := Csi(false, NO_ARGS, 0, '\0')

  /** Of the flags of term.esc at most one is set beside ESC_START. */
  predicate EscOk(esc: set<Esc>) {
    || esc == {} || esc == {Start} || esc == {Start, InCsi} || esc == {Start, InStr}
    || esc == {Start, AltCharset} || esc == {Start, Test} || esc == {Start, StrEnd}
  }

  /** What the next character of a sequence relies on. */
  predicate ParserOk(esc: set<Esc>, csi: Csi, csiLen: nat, strLen: nat) {
    && EscOk(esc)
    && csiLen <= ESC_BUF_SIZ && strLen <= STR_BUF_SIZ
    && (InCsi in esc || esc == {Start} ==> csiLen < ESC_BUF_SIZ && csi == CSI_RESET)
    && (InStr in esc ==> strLen + 1 < STR_BUF_SIZ)
  }

  /** Where a sequence stands: the flags, the text of a control sequence, and the type and the
      text of a string. */
  datatype Parser = Parser(esc: set<Esc>, text: seq<char>, strType: char, str: seq<char>)

  /** A step that changes the text and the cursor and nothing else. */
  predicate OnlyText(s0: State, s1: State) { s1 == s0.(line := s1.line, dirty := s1.dirty, c := s1.c) }

  /** A line feed: the cursor goes to the next line, and at the end of the scrolling region the
      region scrolls up under it. */
  predicate LineFed(s0: State, s1: State, firstCol: bool) {
    && 1 <= s0.row && 1 <= s0.col && OnlyText(s0, s1)
    && s1.c == Moved(s0.c, s0.row, s0.col, if firstCol then 0 else s0.c.x, if s0.c.y == s0.bot then s0.bot else s0.c.y + 1)
    && if s0.c.y == s0.bot then ScrolledUp(s0.line, s1.line, s0.top, s0.bot, 1) else s1.line == s0.line && s1.dirty == s0.dirty
  }

  function WithGfx(p: Pen, on: bool): Pen { p.(mode := if on then p.mode + {Gfx} else p.mode - {Gfx}) }

  /** The control codes that do something to the terminal. */
  predicate Acts(a: char) { a in {'\t', '\r', '\n', BS, VT, FF, SO, SI} }

  /** CAN and SUB, which empty the control sequence they come in but do not end it. */
  predicate Empties(a: char) { a == CAN || a == SUB }

  predicate Ignored(a: char) { a in {'\0', ENQ, BEL, XON, XOFF, DEL} }

  predicate ControlDone(a: char, s0: State, s1: State) {
    && 1 <= s0.row && 1 <= s0.col
    && if a == '\t' then
         0 <= s0.c.x < |s0.tabs| && TabFound(s0.tabs, s0.c.x, s1.c.x, true)
         && s1 == s0.(c := s0.c.(x := s1.c.x, wrapNext := false))
       else if a == '\r' then s1 == s0.(c := Moved(s0.c, s0.row, s0.col, 0, s0.c.y))
       else if a == BS then s1 == s0.(c := Moved(s0.c, s0.row, s0.col, s0.c.x - 1, s0.c.y))
       else if a == SO || a == SI then s1 == s0.(c := s0.c.(pen := WithGfx(s0.c.pen, a == SO)))
       else LineFed(s0, s1, Crlf in s0.mode)
  }

  /** What a reset leaves: the visible screen blank but in the same buffers, everything else but
      the saved cursor and the other screen as in a new terminal. */
  predicate ResetDone(s0: State, s1: State) {
    && s1 == State(s0.row, s0.col, s1.line, s0.alt, s1.dirty, s1.tabs,
                   Cursor(Pen({}, DEFAULT_FG, DEFAULT_BG), 0, 0, false, false), s0.saved, 0, s0.row - 1, {Wrap})
    && SameBuffers(s0.line, s1.line) && AllBlank(s1.line) && AllMarked(s1.dirty) && DefaultTabs(s1.tabs)
  }

  /** What the sequences of ESC and one character do. */
  predicate EscapeDone(a: char, s0: State, s1: State) {
    && 1 <= s0.row && 1 <= s0.col
    && if a == 'D' then
         if s0.c.y == s0.bot then OnlyText(s0, s1) && s1.c == s0.c && ScrolledUp(s0.line, s1.line, s0.top, s0.bot, 1)
         else s1 == s0.(c := Moved(s0.c, s0.row, s0.col, s0.c.x, s0.c.y + 1))
       else if a == 'E' then LineFed(s0, s1, true)
       else if a == 'H' then 0 <= s0.c.x < |s0.tabs| && s1 == s0.(tabs := s0.tabs[s0.c.x := true])
       else if a == 'M' then
         if s0.c.y == s0.top then OnlyText(s0, s1) && s1.c == s0.c && ScrolledDown(s0.line, s1.line, s0.top, s0.bot, 1)
         else s1 == s0.(c := Moved(s0.c, s0.row, s0.col, s0.c.x, s0.c.y - 1))
       else if a == 'c' then ResetDone(s0, s1)
       else if a == '=' || a == '>' then s1 == s0.(mode := ModeBit(s0.mode, a == '=', AppKeypad))
       else if a == '7' then s1 == s0.(saved := s0.c)
       else if a == '8' then s1 == s0.(c := Moved(s0.saved, s0.row, s0.col, s0.saved.x, s0.saved.y))
       else s1 == s0
  }

  /** The characters after ESC that begin a longer sequence. */
  predicate Opens(a: char) { OpensString(a) || a in {'[', '#', '('} }

  predicate OpensString(a: char) { a in {'P', '_', '^', ']', 'k'} }

  /** The parser after a character that begins a longer sequence. */
  function Opened(a: char, p: Parser): Parser
    requires Opens(a)
  {
    if OpensString(a) then p.(esc := {Start, InStr}, strType := a, str := [])
    else p.(esc := {Start, if a == '[' then InCsi else if a == '#' then Test else AltCharset})
  }

  /** A string takes everything but ESC and BEL; a full buffer ends it too. */
  function StringStep(a: char, p: Parser): Parser {
    if a == ESC then p.(esc := {Start, StrEnd})
    else if a == BEL then p.(esc := {})
    else p.(esc := if |p.str| + 2 >= STR_BUF_SIZ then {} else p.esc, str := p.str + [a])
  }

  /** Control codes act at once and leave the sequence they come in as it is, but ESC begins a
      new one. Codes that are not listed are shown if the line drawing set is on. */
  predicate ControlStep(ch: nat, p0: Parser, s0: State, p1: Parser, s1: State) {
    var a := Ascii(ch);
    if a == ESC then p1 == p0.(esc := {Start}, text := []) && s1 == s0
    else if Empties(a) then p1 == p0.(text := []) && s1 == s0
    else
      && p1 == p0
      && if Acts(a) then ControlDone(a, s0, s1)
         else if Ignored(a) || Gfx !in s0.c.pen.mode then s1 == s0
         else PrintedChar(ch, s0, s1)
  }

  /** Other characters that come in a sequence belong to it. */
  predicate SequenceStep(a: char, p0: Parser, s0: State, p1: Parser, s1: State) {
    if p0.esc == {Start} then
      if Opens(a) then p1 == Opened(a, p0) && s1 == s0 else p1 == p0.(esc := {}) && EscapeDone(a, s0, s1)
    else if InCsi in p0.esc then
      var text := p0.text + [a];
      if Final(a) || |text| >= ESC_BUF_SIZ then p1 == p0.(esc := {}, text := text) && CsiDone(Parsed(text), s0, s1)
      else p1 == p0.(text := text) && s1 == s0
    else
      && p1 == p0.(esc := {})
      && if AltCharset in p0.esc && (a == '0' || a == 'B') then s1 == s0.(c := s0.c.(pen := WithGfx(s0.c.pen, a == '0')))
         else if Test in p0.esc && a == '8' then
           && OnlyText(s0, s1) && s1.c == s0.c && SameBuffers(s0.line, s1.line)
           && Filled(s1.line, Glyph(Charset('E' as nat, s0.c.pen), s0.c.pen, true))
         else s1 == s0
  }

  /** The parser and the terminal, before and after any character. */
  predicate CharStep(ch: nat, p0: Parser, s0: State, p1: Parser, s1: State) {
    var a := Ascii(ch);
    if InStr in p0.esc then p1 == StringStep(a, p0) && s1 == s0
    else if Control(a) then ControlStep(ch, p0, s0, p1, s1)
    else if Start in p0.esc then SequenceStep(a, p0, s0, p1, s1)
    else p1 == p0 && PrintedChar(ch, s0, s1)
  }

  /** ESC c while the alternate screen is shown: the one character that loses the main screen. */
  predicate LosesMain(ch: nat, p: Parser, s: State) { p.esc == {Start} && ch == 'c' as nat && AltScreen in s.mode }

  class Vt {
    const term: Term
    var esc: set<Esc>
    const csiBuf: array<char>
    var csiLen: nat
    var csi: Csi
    const strBuf: array<char>
    var strLen: nat
    var strType: char

    ghost predicate Valid()
      reads this, term
    {
      && term.Valid()
      && csiBuf.Length == ESC_BUF_SIZ && strBuf.Length == STR_BUF_SIZ && csiBuf != strBuf
      && ParserOk(esc, csi, csiLen, strLen)
    }

    ghost function Standing(): Parser
      requires Valid()
      reads this, term, csiBuf, strBuf
    {
      Parser(esc, csiBuf[..csiLen], strType, strBuf[..strLen])
    }

    constructor (t: Term)
      requires t.Valid()
      ensures Valid() && term == t && esc == {} && fresh(csiBuf) && fresh(strBuf)
    {
      term, esc, csiLen, strLen, strType := t, {}, 0, 0, '\0';
      csi := CSI_RESET;
      csiBuf := new char[ESC_BUF_SIZ];
      strBuf := new char[STR_BUF_SIZ];
    }

    /** The character at p; past the end of the buffer, the low byte of its length. */
    function At(p: nat): char
      requires csiLen <= csiBuf.Length
      reads this, csiBuf
    {
      if p < csiLen then csiBuf[p] else '\0'
    }

    /** csiparse */
    method CsiParse()
      requires csiLen <= csiBuf.Length && csi == CSI_RESET
      modifies `csi
      ensures csi == Parsed(csiBuf[..csiLen])
    {
      hide Number; hide ArgsOk;
      ghost var s := csiBuf[..csiLen];
      var p := 0;
      NoArgsOk();
      csi := csi.(narg := 0);
      if At(p) == '?' {
        csi := csi.(priv := true);
        p := 1;
      }
      assert csiLen > 0 ==> s[0] == csiBuf[0];
      assert s[0..] == s;
      while p < csiLen
        invariant 0 <= p <= csiLen && ArgsOk(csi.arg) && csi.narg < ESC_ARG_SIZ && csi.mode == '\0'
        invariant Parsed(s) == Params(s[p..], csi.priv, csi.arg, csi.narg)
      {
        p := ParseNumber(p);
        if At(p) == ';' && csi.narg + 1 < ESC_ARG_SIZ {
          csi := csi.(narg := csi.narg + 1);
          assert s[p..][1..] == s[p + 1..];
          p := p + 1;
        } else {
          csi := csi.(mode := At(p), narg := csi.narg + 1);
          return;
        }
      }
    }

    /** The inner loop of csiparse: the digits from p on. */
    method ParseNumber(from: nat) returns (p: nat)
      requires from < csiLen <= csiBuf.Length && ArgsOk(csi.arg) && csi.narg < ESC_ARG_SIZ
      modifies `csi
      ensures from <= p <= csiLen && ArgsOk(csi.arg)
      ensures var v := Number(csiBuf[from..csiLen], old(csi).arg[old(csi).narg]);
              csi == old(csi).(arg := old(csi).arg[old(csi).narg := v.value]) && v.rest == csiBuf[p..csiLen]
    {
      p := from;
      assert old(csi).arg[csi.narg := old(csi).arg[csi.narg]] == old(csi).arg;
      while Digit(At(p))
        invariant from <= p <= csiLen && ArgsOk(csi.arg)
        invariant csi == old(csi).(arg := old(csi).arg[old(csi).narg := csi.arg[old(csi).narg]])
        decreases csiLen - p
        invariant Number(csiBuf[p..csiLen], csi.arg[csi.narg]) == Number(csiBuf[from..csiLen], old(csi).arg[csi.narg])
      {
        assert csiBuf[p..csiLen][1..] == csiBuf[p + 1..csiLen];
        var n := csi.narg;
        csi := csi.(arg := csi.arg[n := csi.arg[n] * 10 + DigitValue(csiBuf[p])]);
        p := p + 1;
      }
    }
  
    /** csireset */
    method CsiReset()
      modifies `csiLen, `csi
      ensures csiLen == 0 && csi == CSI_RESET
    {
      csiLen, csi := 0, CSI_RESET;
    }

    /** A character of a string sequence: it ends the string or is kept, and a full buffer ends
        the string too. */
    method PutString(a: char)
      requires Valid() && InStr in esc
      modifies `esc, `strLen, strBuf
      ensures Valid() && Standing() == StringStep(a, old(Standing()))
    {
      hide ScreenOk; hide Fresh; hide CursorOk; hide PenOk;
      if a == ESC {
        esc := {Start, StrEnd};
      } else if a == BEL {
        esc := {};
      } else {
        strBuf[strLen] := a;
        strLen := strLen + 1;
        assert strBuf[..strLen] == old(strBuf[..strLen]) + [a];
        if strLen + 1 >= STR_BUF_SIZ { esc := {}; }
      }
    }

    /** Control codes. Those that are not listed fall through, and are shown if the line drawing
        set is on. */
    method PutControl(ch: nat) returns (done: bool)
      requires Valid() && Control(Ascii(ch)) && InStr !in esc
      modifies `esc, `csiLen, `csi, term`line, term`dirty, term`c
      ensures Valid() && Tracked(old(term.line), old(term.dirty), term.line, term.dirty)
      ensures done ==> ControlStep(ch, old(Standing()), old(term.Now()), Standing(), term.Now())
      ensures !done ==> Standing() == old(Standing()) && term.Now() == old(term.Now())
      ensures done <==> var a := Ascii(ch); a == ESC || Empties(a) || Acts(a) || Ignored(a)
    {
      hide ScreenOk; hide Fresh; hide Tracked; hide PenOk; hide ScrolledUp; hide TabFound; hide PrintedChar;
      Sizes(term.row, term.col, term.line, term.alt, term.dirty, term.tabs);
      TrackedSame(term.line, term.dirty);
      var a := Ascii(ch);
      done := true;
      if a == '\t' {
        term.PutTab(true);
      } else if a == BS {
        term.MoveTo(term.c.x - 1, term.c.y);
      } else if a == '\r' {
        term.MoveTo(0, term.c.y);
      } else if a == FF || a == VT || a == '\n' {
        term.NewLine(Crlf in term.mode);
      } else if a == ESC {
        CsiReset();
        esc := {Start};
      } else if a == SO {
        SetGfx(true);
      } else if a == SI {
        SetGfx(false);
      } else if a == SUB || a == CAN {
        CsiReset();
      } else {
        done := a == BEL || a == ENQ || a == '\0' || a == XON || a == XOFF || a == DEL;
      }
    }

    /** ATTR_GFX on or off. */
    method SetGfx(on: bool)
      requires term.Valid()
      modifies term`c
      ensures term.Valid()
      ensures term.c == old(term.c).(pen := WithGfx(old(term.c).pen, on))
    {
      hide ScreenOk; hide Fresh;
      term.c := term.c.(pen := WithGfx(term.c.pen, on));
    }

    /** A character of a control sequence: it is kept, and the last one, or the one that fills
        the buffer, has the sequence parsed and handled. */
    method PutCsi(a: char, visible: bool)
      requires Valid() && InCsi in esc
      modifies `esc, `csiLen, `csi, csiBuf
      modifies term`line, term`alt, term`dirty, term`shown, term`mode, term`c, term`saved, term`tabs, term`top, term`bot
      ensures Valid() && MarksKept(old(term.Now()), term.Now()) && MainStep(old(term.Now()), term.Now())
      ensures SequenceStep(a, old(Standing()), old(term.Now()), Standing(), term.Now())
    {
      hide ScreenOk; hide Fresh; hide CursorOk; hide PenOk; hide Tracked; hide CsiDone; hide Parsed; hide EscapeDone;
      csiBuf[csiLen] := a;
      csiLen := csiLen + 1;
      assert csiBuf[..csiLen] == old(csiBuf[..csiLen]) + [a];
      if Final(a) || csiLen >= ESC_BUF_SIZ {
        esc := {};
        CsiParse();
        CsiHandle(term, csi, visible);
        DoneKeepsMain(csi, old(term.Now()), term.Now());
      } else {
        Sizes(term.row, term.col, term.line, term.alt, term.dirty, term.tabs);
        UnchangedMarks(term.Now());
      }
    }

    /** The character after ESC, if it is not part of a longer sequence yet. */
    method PutEscape(a: char)
      requires Valid() && esc == {Start} && !Control(a)
      modifies `esc, `strLen, `strType
      modifies term`line, term`dirty, term`mode, term`c, term`saved, term`tabs, term`top, term`bot
      ensures Valid() && Tracked(old(term.line), old(term.dirty), term.line, term.dirty)
      ensures SequenceStep(a, old(Standing()), old(term.Now()), Standing(), term.Now())
    {
      hide ScreenOk; hide Fresh; hide CursorOk; hide PenOk; hide Tracked; hide EscapeDone;
      Sizes(term.row, term.col, term.line, term.alt, term.dirty, term.tabs);
      TrackedSame(term.line, term.dirty);
      if a == '[' {
        esc := esc + {InCsi};
      } else if a == '#' {
        esc := esc + {Test};
      } else if a in {'P', '_', '^', ']', 'k'} {
        strLen, strType := 0, a;
        esc := esc + {InStr};
      } else if a == '(' {
        esc := esc + {AltCharset};
      } else {
        esc := {};
        PutSingle(a);
      }
    }

    /** Those that end with one character. */
    method PutSingle(a: char)
      requires Valid() && esc == {} && !Opens(a)
      modifies term`line, term`dirty, term`mode, term`c, term`saved, term`tabs, term`top, term`bot
      ensures Valid() && Tracked(old(term.line), old(term.dirty), term.line, term.dirty)
      ensures EscapeDone(a, old(term.Now()), term.Now())
    {
      hide ScreenOk; hide Fresh; hide Tracked; hide ScrolledUp; hide ScrolledDown; hide AllBlank; hide PenOk;
      hide AllMarked; hide DefaultTabs; hide SameBuffers;
      Sizes(term.row, term.col, term.line, term.alt, term.dirty, term.tabs);
      TrackedSame(term.line, term.dirty);
      if a == 'D' {
        term.Index();
      } else if a == 'E' {
        term.NewLine(true);
      } else if a == 'H' {
        term.tabs := term.tabs[term.c.x := true];
        OtherTabs(term.row, term.col, term.line, term.alt, term.dirty, old(term.tabs), term.tabs);
      } else if a == 'M' {
        term.ReverseIndex();
      } else if a == 'c' {
        FreshSize(term.line, term.dirty, term.shown, ReverseVideo in term.mode);
        term.Reset();
      } else if a == '=' || a == '>' {
        term.mode := ModeBit(term.mode, a == '=', AppKeypad);
      } else if a == '7' || a == '8' {
        term.SaveOrLoad(a == '7');
      }
    }

    /** A character of a sequence that is not a control code. */
    method PutSequence(a: char, visible: bool)
      requires Valid() && Start in esc && InStr !in esc && !Control(a)
      modifies `esc, `csiLen, `csi, `strLen, `strType, csiBuf
      modifies term`line, term`alt, term`dirty, term`shown, term`mode, term`c, term`saved, term`tabs, term`top, term`bot
      ensures Valid() && MarksKept(old(term.Now()), term.Now())
      ensures SequenceStep(a, old(Standing()), old(term.Now()), Standing(), term.Now())
      ensures MainStep(old(term.Now()), term.Now()) <==> !(old(esc) == {Start} && a == 'c' && AltScreen in old(term.mode))
    {
      hide ScreenOk; hide Fresh; hide CursorOk; hide PenOk; hide Tracked; hide CsiDone; hide Parsed; hide EscapeDone;
      hide SameBuffers; hide Filled;
      Sizes(term.row, term.col, term.line, term.alt, term.dirty, term.tabs);
      TrackedSame(term.line, term.dirty);
      if InCsi in esc {
        PutCsi(a, visible);
      } else if StrEnd in esc {
        esc := {};
      } else if AltCharset in esc {
        if a == '0' { SetGfx(true); } else if a == 'B' { SetGfx(false); }
        esc := {};
      } else if Test in esc {
        if a == '8' { term.AlignmentTest(); }
        esc := {};
      } else {
        assert esc == {Start};
        PutEscape(a);
        EscapeKeepsMain(a, old(Standing()), old(term.Now()), Standing(), term.Now());
      }
    }

    /** tputc */
    method PutC(ch: nat, visible: bool)
      requires Valid()
      modifies `esc, `csiLen, `csi, `strLen, `strType, csiBuf, strBuf
      modifies term`line, term`alt, term`dirty, term`shown, term`mode, term`c, term`saved, term`tabs, term`top, term`bot
      ensures Valid() && MarksKept(old(term.Now()), term.Now())
      ensures CharStep(ch, old(Standing()), old(term.Now()), Standing(), term.Now())
      ensures MainStep(old(term.Now()), term.Now()) <==> !LosesMain(ch, old(Standing()), old(term.Now()))
    {
      hide ScreenOk; hide Fresh; hide CursorOk; hide PenOk; hide Tracked; hide SequenceStep; hide Ascii; hide PrintedChar;
      hide ControlStep;
      Sizes(term.row, term.col, term.line, term.alt, term.dirty, term.tabs);
      var a := Ascii(ch);
      CharOf(ch);
      if InStr in esc {
        PutString(a);
        UnchangedMarks(term.Now());
        return;
      }
      if Control(a) {
        var done := PutControl(ch);
        if done { return; }
        NotListed(ch, Standing(), term.Now(), term.Now());
        if Gfx !in term.c.pen.mode { return; }
      } else if Start in esc {
        PutSequence(a, visible);
        return;
      }
      term.Print(ch);
      if Control(a) { NotListed(ch, Standing(), old(term.Now()), term.Now()); }
    }
  }

  lemma DoneKeepsMain(csi: Csi, s0: State, s1: State)
    requires CsiDone(csi, s0, s1)
    ensures MainStep(s0, s1)
  {
  }

  /** Of the sequences of ESC and one character, ESC c alone can lose the main screen, and does
      exactly when the alternate one is shown: it then stays where the alternate one was. */
  lemma EscapeKeepsMain(a: char, p0: Parser, s0: State, p1: Parser, s1: State)
    requires p0.esc == {Start} && SequenceStep(a, p0, s0, p1, s1)
    requires ScreenOk(s0.row, s0.col, s0.line, s0.alt, s0.dirty, s0.tabs)
    ensures MainStep(s0, s1) <==> !(a == 'c' && AltScreen in s0.mode)
  {
    hide ScrolledUp; hide ScrolledDown; hide AllBlank; hide AllMarked; hide DefaultTabs; hide Distinct; hide WidthOk;
    if a == 'c' {
      assert s1.line[0].id == s0.line[0].id != s0.alt[0].id;
    }
  }

  lemma UnchangedMarks(s: State)
    requires |s.line| == |s.dirty|
    ensures MarksKept(s, s)
  {
  }

  lemma NoArgsOk()
    ensures ArgsOk(NO_ARGS)
  {
  }

  lemma CharOf(ch: nat)
    ensures Ascii(ch) == 'c' <==> ch == 'c' as nat
  {
  }

  /** A control code that is not listed. */
  lemma NotListed(ch: nat, p: Parser, s0: State, s1: State)
    requires var a := Ascii(ch); a != ESC && !Empties(a) && !Acts(a) && !Ignored(a)
    ensures Gfx !in s0.c.pen.mode ==> ControlStep(ch, p, s0, p, s0)
    ensures Gfx in s0.c.pen.mode && PrintedChar(ch, s0, s1) ==> ControlStep(ch, p, s0, p, s1)
  {
  }
}
