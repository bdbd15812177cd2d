/** tsetmode of package/simple-terminal/src/main.c: modes, the alternate screen, reverse video. */
module TermMode {
  import opened TermScreen
  import opened TermClass

  /** Private modes that switch to the alternate screen and back. */
  predicate SwitchesScreen(a: int) { a == 47 || a == 1047 || a == 1049 }

  /** The mode flag that a parameter stands for, if it stands for one. */
  function Flag(priv: bool, a: int): set<Mode> {
    if priv then
      if a == 1 then {AppKeypad} else if a == 5 then {ReverseVideo} else if a == 7 then {Wrap}
      else if a == 1000 then {MouseBtn} else if a == 1002 then {MouseMotion}
      else if SwitchesScreen(a) then {AltScreen} else {}
    else
      if a == 2 then {KbdLock} else if a == 4 then {Insert} else if a == 20 then {Crlf} else {}
  }

  function Flags(priv: bool, args: seq<int>): set<Mode> {
    if args == [] then {} else Flags(priv, args[..|args| - 1]) + Flag(priv, args[|args| - 1])
  }

  function ModesSet(m: set<Mode>, on: bool, flags: set<Mode>): set<Mode> { if on then m + flags else m - flags }

  /** The cursor and the saved one. */
  datatype Cursors = Cursors(c: Cursor, saved: Cursor)

  /** tcursor */
  function SavedOrLoaded(x: Cursors, row: int, col: int, save: bool): Cursors
    requires 1 <= row && 1 <= col
  {
    if save then Cursors(x.c, x.c) else Cursors(Moved(x.saved, row, col, x.saved.x, x.saved.y), x.saved)
  }

  /** What one parameter does to them. */
  function CursorsSet(x: Cursors, row: int, col: int, priv: bool, on: bool, a: int): Cursors
    requires 1 <= row && 1 <= col
  {
    if priv && a == 25 then x.(c := x.c.(hidden := !on))
    else if priv && (a == 1048 || a == 1049) then SavedOrLoaded(x, row, col, on)
    else x
  }

  /** What a list of parameters does to them. */
  function AllCursorsSet(x: Cursors, row: int, col: int, priv: bool, on: bool, args: seq<int>): Cursors
    requires 1 <= row && 1 <= col
  {
    if args == [] then x
    else CursorsSet(AllCursorsSet(x, row, col, priv, on, args[..|args| - 1]), row, col, priv, on, args[|args| - 1])
  }

  /** One parameter that does not touch the screen. */
  method SetFlag(t: Term, priv: bool, on: bool, a: int)
    requires t.Valid() && !(priv && (a == 5 || SwitchesScreen(a)))
    modifies t`mode, t`c, t`saved
    ensures t.Valid() && t.mode == ModesSet(old(t.mode), on, Flag(priv, a))
    ensures 1 <= t.row && 1 <= t.col
            && Cursors(t.c, t.saved) == CursorsSet(Cursors(old(t.c), old(t.saved)), t.row, t.col, priv, on, a)
  {
    hide WidthOk; hide Distinct; hide Apart; hide Fresh;
    if priv {
      if a == 1 {
        t.mode := ModeBit(t.mode, on, AppKeypad);
      } else if a == 7 {
        t.mode := ModeBit(t.mode, on, Wrap);
      } else if a == 25 {
        t.c := t.c.(hidden := !on);
      } else if a == 1000 {
        t.mode := ModeBit(t.mode, on, MouseBtn);
      } else if a == 1002 {
        t.mode := ModeBit(t.mode, on, MouseMotion);
      } else if a == 1048 {
        t.SaveOrLoad(on);
      }
    } else {
      if a == 2 {
        t.mode := ModeBit(t.mode, on, KbdLock);
      } else if a == 4 {
        t.mode := ModeBit(t.mode, on, Insert);
      } else if a == 20 {
        t.mode := ModeBit(t.mode, on, Crlf);
      }
    }
  }

  /** 1049, 1047, 47: the alternate screen is blank when it is left, and when it is asked for
      while it is shown. */
  method SwitchScreen(t: Term, on: bool, a: int)
    requires t.Valid() && SwitchesScreen(a)
    modifies t`line, t`alt, t`dirty, t`mode, t`c, t`saved
    ensures t.Valid() && t.mode == ModeBit(old(t.mode), on, AltScreen)
    ensures Tracked(old(t.line), old(t.dirty), t.line, t.dirty)
    ensures MainKept(AltScreen in old(t.mode), old(t.line), old(t.alt), on, t.line, t.alt)
    ensures AltScreen in old(t.mode) ==> AllBlank(if on then t.line else t.alt)
    ensures AltScreen !in old(t.mode) ==> t.line == if on then old(t.alt) else old(t.line)
    ensures 1 <= t.row && 1 <= t.col
            && Cursors(t.c, t.saved) == CursorsSet(Cursors(old(t.c), old(t.saved)), t.row, t.col, true, on, a)
  {
    hide ScreenOk; hide Fresh; hide Tracked; hide AllBlank; hide Marked; hide ClearedRegion; hide AllMarked;
    Sizes(t.row, t.col, t.line, t.alt, t.dirty, t.tabs);
    TrackedSame(t.line, t.dirty);
    ghost var was := AltScreen in t.mode;
    if AltScreen in t.mode {
      FreshSize(t.line, t.dirty, t.shown, ReverseVideo in t.mode);
      t.ClearRegion(0, 0, t.col - 1, t.row - 1);
      AllCleared(old(t.line), old(t.dirty), t.line, t.dirty, t.row, t.col, t.shown, ReverseVideo in t.mode);
    }
    ghost var l, d := t.line, t.dirty;
    if (on && AltScreen !in t.mode) || (!on && AltScreen in t.mode) {
      t.SwapScreen();
      TrackedTwice(old(t.line), old(t.dirty), l, d, t.line, t.dirty);
    }
    if a == 1049 { t.SaveOrLoad(on); }
  }

  /** One parameter of tsetmode. */
  method SetOne(t: Term, priv: bool, on: bool, a: int, visible: bool)
    requires t.Valid()
    modifies t`line, t`alt, t`dirty, t`shown, t`mode, t`c, t`saved
    ensures t.Valid() && t.mode == ModesSet(old(t.mode), on, Flag(priv, a))
    ensures !(priv && a == 5) || (on <==> ReverseVideo in old(t.mode)) ==> Tracked(old(t.line), old(t.dirty), t.line, t.dirty)
    ensures MainKept(AltScreen in old(t.mode), old(t.line), old(t.alt), AltScreen in t.mode, t.line, t.alt)
    ensures AltScreen in old(t.mode) || AltScreen in t.mode || t.line == old(t.line)
    ensures (priv && SwitchesScreen(a)) || t.line == old(t.line)
    ensures 1 <= t.row && 1 <= t.col
            && Cursors(t.c, t.saved) == CursorsSet(Cursors(old(t.c), old(t.saved)), t.row, t.col, priv, on, a)
  {
    hide ScreenOk; hide Fresh; hide Tracked; hide AllBlank; hide Marked;
    Sizes(t.row, t.col, t.line, t.alt, t.dirty, t.tabs);
    TrackedSame(t.line, t.dirty);
    if priv && a == 5 {
      var mode := t.mode;
      FreshSize(t.line, t.dirty, t.shown, ReverseVideo in t.mode);
      t.mode := ModeBit(t.mode, on, ReverseVideo);
      if mode != t.mode {
        t.Redraw(visible);
        OtherMarks(t.row, t.col, t.line, t.alt, old(t.dirty), t.tabs, t.dirty);
      }
    } else if priv && SwitchesScreen(a) {
      SwitchScreen(t, on, a);
    } else {
      SetFlag(t, priv, on, a);
    }
  }

  /** tsetmode: the flags of all parameters are set or cleared; unless reverse video was
      toggled, no mark is lost; and the main screen is kept while the other one is shown. */
  method SetMode(t: Term, priv: bool, on: bool, args: seq<int>, visible: bool)
    requires t.Valid()
    modifies t`line, t`alt, t`dirty, t`shown, t`mode, t`c, t`saved
    ensures t.Valid() && t.mode == ModesSet(old(t.mode), on, Flags(priv, args))
    ensures (ReverseVideo in t.mode <==> ReverseVideo in old(t.mode)) ==> Tracked(old(t.line), old(t.dirty), t.line, t.dirty)
    ensures MainKept(AltScreen in old(t.mode), old(t.line), old(t.alt), AltScreen in t.mode, t.line, t.alt)
    ensures (priv && exists i :: 0 <= i < |args| && SwitchesScreen(args[i])) || t.line == old(t.line)
    ensures 1 <= t.row && 1 <= t.col
            && Cursors(t.c, t.saved) == AllCursorsSet(Cursors(old(t.c), old(t.saved)), t.row, t.col, priv, on, args)
  {
    hide ScreenOk; hide Fresh; hide Tracked; hide Flag; hide CursorOk; hide PenOk; hide CursorsSet;
    Sizes(t.row, t.col, t.line, t.alt, t.dirty, t.tabs);
    TrackedSame(t.line, t.dirty);
    var i := 0;
    while i < |args|
      invariant 0 <= i <= |args| && t.Valid() && t.mode == ModesSet(old(t.mode), on, Flags(priv, args[..i]))
      invariant (ReverseVideo in t.mode <==> ReverseVideo in old(t.mode)) ==> Tracked(old(t.line), old(t.dirty), t.line, t.dirty)
      invariant MainKept(AltScreen in old(t.mode), old(t.line), old(t.alt), AltScreen in t.mode, t.line, t.alt)
      invariant AltScreen in old(t.mode) || AltScreen in t.mode || t.line == old(t.line)
      invariant (priv && exists k :: 0 <= k < i && SwitchesScreen(args[k])) || t.line == old(t.line)
      invariant Cursors(t.c, t.saved) == AllCursorsSet(Cursors(old(t.c), old(t.saved)), t.row, t.col, priv, on, args[..i])
    {
      ghost var l, d := t.line, t.dirty;
      SetOne(t, priv, on, args[i], visible);
      assert args[..i + 1][..i] == args[..i];
      ReverseFlag(priv, args[i]);
      if Tracked(old(t.line), old(t.dirty), l, d) && Tracked(l, d, t.line, t.dirty) {
        TrackedTwice(old(t.line), old(t.dirty), l, d, t.line, t.dirty);
      }
      i := i + 1;
    }
    assert args[..i] == args;
  }

  lemma ReverseFlag(priv: bool, a: int)
    ensures ReverseVideo in Flag(priv, a) <==> priv && a == 5
  {
  }
}
