/** Control sequences of package/simple-terminal/src/main.c: csiparse and the attributes that
    tsetattr sets. Control sequences as in section 5.4 of ECMA-48. */
module TermCsi {
  import opened Numerals
  import opened TermScreen

  const ESC_BUF_SIZ := 256
  const STR_BUF_SIZ := 256
  const ESC_ARG_SIZ := 16

  /** The fields of CSIEscape that csiparse fills in. */
  datatype Csi = Csi(priv: bool, arg: seq<int>, narg: nat, mode: char)

  function DigitValue(c: char): (v: int)
    requires Digit(c)
    ensures 0 <= v <= 9
  {
    c as int - '0' as int
  }

  /** A number read so far, and the text after it. */
  datatype Numeral = Numeral(value: int, rest: seq<char>)

  /** The digits at the start of s continue the number v. */
  function Number(s: seq<char>, v: int): (r: Numeral)
    requires v >= 0
    ensures r.value >= 0 && |r.rest| <= |s| && (r.rest != [] ==> !Digit(r.rest[0]))
  {
    if s != [] && Digit(s[0]) then Number(s[1..], v * 10 + DigitValue(s[0])) else Numeral(v, s)
  }

  predicate ArgsOk(arg: seq<int>) { |arg| == ESC_ARG_SIZ && forall i :: 0 <= i < |arg| ==> arg[i] >= 0 }

  /** csiparse from the parameter n on. The character past a full buffer is 0: the low byte of
      the length, which is 256. */
  function Params(s: seq<char>, priv: bool, arg: seq<int>, n: nat): (r: Csi)
    requires ArgsOk(arg) && n < ESC_ARG_SIZ
    ensures ArgsOk(r.arg) && r.narg <= ESC_ARG_SIZ && r.priv == priv
    decreases |s|
  {
    if s == [] then Csi(priv, arg, n, '\0')
    else
      var v := Number(s, arg[n]);
      if v.rest == [] then Csi(priv, arg[n := v.value], n + 1, '\0')
      else if v.rest[0] == ';' && n + 1 < ESC_ARG_SIZ then Params(v.rest[1..], priv, arg[n := v.value], n + 1)
      else Csi(priv, arg[n := v.value], n + 1, v.rest[0])
  }

  const NO_ARGS: seq<int> := [0, 0, 0, 0, 0, 0, 0, 0, 0, 0, 0, 0, 0, 0, 0, 0]

  /** csiparse on a buffer just reset. */
  function Parsed(s: seq<char>): (r: Csi)
    ensures ArgsOk(r.arg) && r.narg <= ESC_ARG_SIZ
  {
    if s != [] && s[0] == '?' then Params(s[1..], true, NO_ARGS, 0) else Params(s, false, NO_ARGS, 0)
  }

  // ---- what a well-formed control sequence parses to

  /** Parameters separated by semicolons, and the final byte. */
  function Formatted(args: seq<nat>, final: char): seq<char>
    requires args != []
  {
    if |args| == 1 then Decimal(args[0]) + [final] else Decimal(args[0]) + [';'] + Formatted(args[1..], final)
  }

  lemma {:induction false} NumberDigit(n: nat, s: seq<char>, v: nat)
    requires n < 10
    ensures Number([(n + '0' as int) as char] + s, v) == Number(s, v * 10 + n)
  {
    assert ([(n + '0' as int) as char] + s)[1..] == s;
  }

  lemma {:induction false} NumberDecimalFrom(n: nat, s: seq<char>, v: nat)
    requires v == 0
    ensures Number(Decimal(n) + s, v) == Number(s, n)
    decreases n
  {
    if n < 10 {
      NumberDigit(n, s, 0);
    } else {
      var last := [(n % 10 + '0' as int) as char];
      assert Decimal(n) + s == Decimal(n / 10) + (last + s);
      NumberDecimalFrom(n / 10, last + s, 0);
      NumberDigit(n % 10, s, n / 10);
    }
  }

  /** A numeral followed by something that is not a digit is read back. */
  lemma NumberDecimal(n: nat, s: seq<char>)
    requires s != [] && !Digit(s[0])
    ensures Number(Decimal(n) + s, 0) == Numeral(n, s)
  {
    NumberDecimalFrom(n, s, 0);
  }

  /** arg with the values of args from n on. */
  function Stored(arg: seq<int>, args: seq<nat>, n: nat): (r: seq<int>)
    requires n + |args| <= |arg|
    ensures |r| == |arg|
    ensures forall i :: 0 <= i < |arg| ==> r[i] == if n <= i < n + |args| then args[i - n] else arg[i]
  {
    seq(|arg|, i requires 0 <= i < |arg| => if n <= i < n + |args| then args[i - n] else arg[i])
  }

  lemma ParamsNext(a: nat, t: seq<char>, priv: bool, arg: seq<int>, n: nat)
    requires ArgsOk(arg) && n + 1 < ESC_ARG_SIZ && arg[n] == 0
    ensures Params(Decimal(a) + [';'] + t, priv, arg, n) == Params(t, priv, arg[n := a], n + 1)
  {
    NumberDecimal(a, [';'] + t);
    assert Decimal(a) + [';'] + t == Decimal(a) + ([';'] + t);
  }

  lemma StoredNext(arg: seq<int>, args: seq<nat>, n: nat)
    requires args != [] && n + |args| <= |arg|
    ensures Stored(arg[n := args[0]], args[1..], n + 1) == Stored(arg, args, n)
  {
  }

  lemma {:induction false} ParamsFormatted(args: seq<nat>, final: char, priv: bool, arg: seq<int>, n: nat)
    requires args != [] && n + |args| <= ESC_ARG_SIZ && ArgsOk(arg) && forall i :: n <= i < |arg| ==> arg[i] == 0
    requires !Digit(final) && final != ';'
    ensures Params(Formatted(args, final), priv, arg, n) == Csi(priv, Stored(arg, args, n), n + |args|, final)
    decreases |args|
  {
    if |args| == 1 {
      NumberDecimal(args[0], [final]);
      assert arg[n := args[0]] == Stored(arg, args, n);
    } else {
      ParamsNext(args[0], Formatted(args[1..], final), priv, arg, n);
      ParamsFormatted(args[1..], final, priv, arg[n := args[0]], n + 1);
      StoredNext(arg, args, n);
    }
  }

  /** A control sequence with one to sixteen decimal parameters is read back: the parameters in
      order, the rest zero, and the final byte. */
  lemma ParsedFormatted(args: seq<nat>, final: char, priv: bool)
    requires 1 <= |args| <= ESC_ARG_SIZ && '@' <= final <= '~'
    ensures Parsed((if priv then ['?'] else []) + Formatted(args, final))
            == Csi(priv, Stored(NO_ARGS, args, 0), |args|, final)
  {
    ParamsFormatted(args, final, priv, NO_ARGS, 0);
    var s := Formatted(args, final);
    assert s[0] == Decimal(args[0])[0];
    if priv { assert (['?'] + s)[1..] == s; } else { assert [] + s == s; }
  }

  /** A control sequence with no parameter at all has the one parameter 0. */
  lemma ParsedBare(final: char)
    requires '@' <= final <= '~'
    ensures Parsed([final]) == Csi(false, NO_ARGS, 1, final)
  {
    assert Number([final], 0) == Numeral(0, [final]);
    assert NO_ARGS[0 := 0] == NO_ARGS;
  }

  // ---- tsetattr

  const SGR_FLAGS := {Reverse, Underline, Bold, Italic, Blink}

  /** One attribute other than an extended colour. */
  function SgrOne(p: Pen, a: int): (q: Pen)
    ensures PenOk(p) ==> PenOk(q)
    ensures Gfx in q.mode <==> Gfx in p.mode
  {
    if a == 0 then Pen(p.mode - SGR_FLAGS, DEFAULT_FG, DEFAULT_BG)
    else if a == 1 then p.(mode := p.mode + {Bold})
    else if a == 3 then p.(mode := p.mode + {Italic})
    else if a == 4 then p.(mode := p.mode + {Underline})
    else if a == 5 then p.(mode := p.mode + {Blink})
    else if a == 7 then p.(mode := p.mode + {Reverse})
    else if a == 21 || a == 22 then p.(mode := p.mode - {Bold})
    else if a == 23 then p.(mode := p.mode - {Italic})
    else if a == 24 then p.(mode := p.mode - {Underline})
    else if a == 25 then p.(mode := p.mode - {Blink})
    else if a == 27 then p.(mode := p.mode - {Reverse})
    else if a == 39 then p.(fg := DEFAULT_FG)
    else if a == 49 then p.(bg := DEFAULT_BG)
    else if 30 <= a <= 37 then p.(fg := a - 30)
    else if 40 <= a <= 47 then p.(bg := a - 40)
    else if 90 <= a <= 97 then p.(fg := a - 90 + 8)
    else if 100 <= a <= 107 then p.(bg := a - 100 + 8)
    else p
  }

  /** Does a start with an extended colour, 38;5;n or 48;5;n? */
  predicate Extended(a: seq<int>) { |a| >= 3 && (a[0] == 38 || a[0] == 48) && a[1] == 5 }

  function SetExtended(p: Pen, which: int, n: int): (q: Pen)
    ensures PenOk(p) ==> PenOk(q)
    ensures Gfx in q.mode <==> Gfx in p.mode
  {
    if !(0 <= n <= 255) then p else if which == 38 then p.(fg := n) else p.(bg := n)
  }

  /** The attributes after a whole list. */
  function Sgr(p: Pen, a: seq<int>): (q: Pen)
    ensures PenOk(p) ==> PenOk(q)
    ensures Gfx in q.mode <==> Gfx in p.mode
    decreases |a|
  {
    if a == [] then p
    else if Extended(a) then Sgr(SetExtended(p, a[0], a[2]), a[3..])
    else Sgr(SgrOne(p, a[0]), a[1..])
  }

  /** No extended colour starts in a. */
  predicate PlainSgr(a: seq<int>) { forall i :: 0 <= i < |a| ==> a[i] != 38 && a[i] != 48 }

  /** Lists of plain attributes may be sent in one sequence or in several. */
  lemma {:induction false} SgrSplit(p: Pen, a: seq<int>, b: seq<int>)
    requires PlainSgr(a)
    ensures Sgr(p, a + b) == Sgr(Sgr(p, a), b)
    decreases |a|
  {
    hide SgrOne;
    if a == [] {
      assert [] + b == b;
    } else {
      assert (a + b)[1..] == a[1..] + b && (a + b)[0] == a[0];
      SgrSplit(SgrOne(p, a[0]), a[1..], b);
    }
  }

  lemma ResetForgets(p: Pen, q: Pen)
    requires Gfx in p.mode <==> Gfx in q.mode
    ensures SgrOne(p, 0) == SgrOne(q, 0)
  {
    forall x: Attr ensures x in SGR_FLAGS <==> x != Gfx {
      match x { case Reverse => case Underline => case Bold => case Gfx => case Italic => case Blink => }
    }
    assert p.mode - SGR_FLAGS == q.mode - SGR_FLAGS;
  }

  /** What came before attribute 0 does not matter, but for the character set. */
  lemma SgrReset(p: Pen, q: Pen, a: seq<int>, b: seq<int>)
    requires PlainSgr(a) && (Gfx in p.mode <==> Gfx in q.mode)
    ensures Sgr(p, a + ([0] + b)) == Sgr(q, [0] + b)
  {
    hide SgrOne;
    SgrSplit(p, a, [0] + b);
    assert ([0] + b)[1..] == b;
    ResetForgets(Sgr(p, a), q);
  }

  // ---- what the attributes mean

  /** 38;5;n sets the foreground to colour n and 48;5;n the background, and nothing else; a number
      that is no colour changes nothing. */
  lemma SgrExtended(p: Pen, n: int)
    ensures Sgr(p, [38, 5, n]) == if 0 <= n <= 255 then p.(fg := n) else p
    ensures Sgr(p, [48, 5, n]) == if 0 <= n <= 255 then p.(bg := n) else p
  {
    assert Sgr(p, [38, 5, n]) == Sgr(SetExtended(p, 38, n), [38, 5, n][3..]);
    assert Sgr(p, [48, 5, n]) == Sgr(SetExtended(p, 48, n), [48, 5, n][3..]);
  }

  /** The short forms of the first sixteen colours. */
  lemma SgrColours(p: Pen, n: nat)
    requires n <= 7
    ensures Sgr(p, [30 + n]) == Sgr(p, [38, 5, n]) && Sgr(p, [40 + n]) == Sgr(p, [48, 5, n])
    ensures Sgr(p, [90 + n]) == Sgr(p, [38, 5, 8 + n]) && Sgr(p, [100 + n]) == Sgr(p, [48, 5, 8 + n])
    ensures Sgr(p, [39]) == Sgr(p, [38, 5, DEFAULT_FG]) && Sgr(p, [49]) == Sgr(p, [48, 5, DEFAULT_BG])
  {
    SgrExtended(p, n);
    SgrExtended(p, 8 + n);
    SgrExtended(p, DEFAULT_FG);
    SgrExtended(p, DEFAULT_BG);
    forall a: int
      ensures Sgr(p, [a]) == SgrOne(p, a)
    {
      SgrSingle(p, a);
    }
  }

  lemma SgrSingle(p: Pen, a: int)
    ensures Sgr(p, [a]) == SgrOne(p, a)
  {
    assert [a][1..] == [];
  }

  /** The parameter that sets a flag, and the one that undoes it. */
  function SgrOn(x: Attr): int
    requires x != Gfx
  {
    match x case Bold => 1 case Italic => 3 case Underline => 4 case Blink => 5 case Reverse => 7
  }

  function SgrOff(x: Attr): int
    requires x != Gfx
  {
    if x == Bold then 22 else SgrOn(x) + 20
  }

  /** Each sets or clears its one flag and leaves the others and the colours alone; clearing what
      was just set gives the attributes back, if the flag was not set before. */
  lemma SgrFlag(p: Pen, x: Attr)
    requires x != Gfx
    ensures Sgr(p, [SgrOn(x)]) == p.(mode := p.mode + {x}) && Sgr(p, [SgrOff(x)]) == p.(mode := p.mode - {x})
    ensures x !in p.mode ==> Sgr(p, [SgrOn(x), SgrOff(x)]) == p
    ensures Sgr(p, [21]) == Sgr(p, [SgrOff(Bold)])
  {
    hide Sgr; hide SgrOne;
    FlagOne(p, x);
    FlagOne(p.(mode := p.mode + {x}), x);
    SgrSingle(p, 21);
    SgrSingle(p, 22);
    SgrSplit(p, [SgrOn(x)], [SgrOff(x)]);
    assert [SgrOn(x)] + [SgrOff(x)] == [SgrOn(x), SgrOff(x)];
    if x !in p.mode { assert p.mode + {x} - {x} == p.mode; }
  }

  lemma FlagOne(p: Pen, x: Attr)
    requires x != Gfx
    ensures Sgr(p, [SgrOn(x)]) == p.(mode := p.mode + {x}) && Sgr(p, [SgrOff(x)]) == p.(mode := p.mode - {x})
    ensures SgrOne(p, 21) == SgrOne(p, 22)
  {
    hide Sgr;
    SgrSingle(p, SgrOn(x));
    SgrSingle(p, SgrOff(x));
  }

  /** Attribute 0 is what undoes all of them. */
  lemma SgrZero(p: Pen)
    ensures var q := Sgr(p, [0]);
            q.fg == DEFAULT_FG && q.bg == DEFAULT_BG && q.mode == if Gfx in p.mode then {Gfx} else {}
  {
    SgrSingle(p, 0);
    forall x: Attr ensures x in SGR_FLAGS <==> x != Gfx {
      match x { case Reverse => case Underline => case Bold => case Gfx => case Italic => case Blink => }
    }
  }

  /** No other parameter does anything. */
  lemma SgrOthers(p: Pen, a: int)
    requires a !in {0, 1, 3, 4, 5, 7, 21, 22, 23, 24, 25, 27, 39, 49}
    requires !(30 <= a <= 37) && !(40 <= a <= 47) && !(90 <= a <= 97) && !(100 <= a <= 107)
    ensures Sgr(p, [a]) == p
  {
    SgrSingle(p, a);
  }
}
