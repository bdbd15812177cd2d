/** The lines of a .config file: conf_write_symbol and kconfig_print_symbol write them, the
    line handling of conf_read_simple and conf_set_sym_val read them
    (support/kconfig/confdata.c). */
module ConfFile {
  import opened KconfigExpr
  import opened ConfEscape
  import opened Numerals

  /** def[S_DEF_USER] as a line of the file sets it. */
  datatype UserVal = UserTri(tri: Tristate) | UserText(text: string)

  /** The symbols outside choices, by name. y, m and n are never names of such symbols. */
  type Types = map<string, SymType>

  datatype Entry = Entry(name: string, ty: SymType, val: UserVal)

  const NOT_SET := "is not set"

  predicate IsXDigit(c: char) { Digit(c) || 'a' <= c <= 'f' || 'A' <= c <= 'F' }

  predicate XDigits(s: string) { s != [] && forall k :: 0 <= k < |s| ==> IsXDigit(s[k]) }

  /** The decimal text of an integer, or -0. */
  ghost predicate IntText(s: string) {
    (exists n: nat :: s == Decimal(n)) || (exists n: nat :: s == "-" + Decimal(n))
  }

  /** Hex digits, alone or after 0x or 0X. */
  ghost predicate HexText(s: string) {
    exists d :: XDigits(d) && (s == d || s == "0x" + d || s == "0X" + d)
  }

  /** The texts that a symbol of a type admits. */
  ghost predicate Admits(ty: SymType, s: string) {
    match ty
    case SString => true
    case SInt => IntText(s)
    case SHex => HexText(s)
    case SBoolean => s != [] && s[0] in "yYmMnN"
    case STristate => s != [] && s[0] in "yYmMnN"
    case _ => false
  }

  /** The value part of the line: sym_get_string_value, quoted for a string. */
  function ValueText(e: Entry): string {
    match e.val
    case UserTri(t) => TriString(t)
    case UserText(s) => if e.ty == SString then Quote(s) else s
  }

  /** kconfig_print_symbol */
  function LineOf(prefix: string, e: Entry): string {
    if (e.ty == SBoolean || e.ty == STristate) && e.val == UserTri(NO)
    then "# " + prefix + e.name + " " + NOT_SET + "\n"
    else prefix + e.name + "=" + ValueText(e) + "\n"
  }

  /** strchr */
  function Find(s: string, c: char): (r: Option<nat>)
    ensures r.Some? ==> r.value < |s| && s[r.value] == c && forall k :: 0 <= k < r.value ==> s[k] != c
    ensures r.None? ==> c !in s
  {
    if s == [] then None
    else if s[0] == c then Some(0)
    else match Find(s[1..], c) case None => None case Some(i) => Some(i + 1)
  }

  /** conf_set_sym_val, when it sets a value. */
  ghost function SetVal(ty: SymType, p: string): Option<UserVal> {
    match ty
    case STristate =>
      if p != [] && p[0] == 'm' then Some(UserTri(MOD)) else SetBool(p)
    case SBoolean => SetBool(p)
    case SString =>
      if p == [] || p[0] != '"' then None
      else (match Unescape(p[1..]) case None => None case Some(s) => Some(UserText(s)))
    case SInt => if IntText(p) then Some(UserText(p)) else None
    case SHex => if HexText(p) then Some(UserText(p)) else None
    case _ => None
  }

  function SetBool(p: string): Option<UserVal> {
    if p != [] && p[0] == 'y' then Some(UserTri(YES))
    else if p != [] && p[0] == 'n' then Some(UserTri(NO))
    else None
  }

  /** The value without its line end; a carriage return before the newline goes too. */
  function CutLine(p: string): string {
    match Find(p, '\n')
    case None => p
    case Some(j) => if j > 0 && p[j - 1] == '\r' then p[..j - 1] else p[..j]
  }

  /** What one line of the file does: the symbol it sets and the value, if any. */
  ghost function LineEffect(prefix: string, types: Types, line: string): Option<(string, UserVal)> {
    if line != [] && line[0] == '#' then UnsetEffect(prefix, types, line)
    else if prefix <= line then AssignEffect(types, line[|prefix|..])
    else None
  }

  /** `# PREFIXname is not set` */
  ghost function UnsetEffect(prefix: string, types: Types, line: string): Option<(string, UserVal)> {
    if |line| < 2 || !(prefix <= line[2..]) then None
    else
      var rest := line[2..][|prefix|..];
      match Find(rest, ' ')
      case None => None
      case Some(i) =>
        var name := rest[..i];
        if !(NOT_SET <= rest[i + 1..]) || name !in types then None
        else if types[name] == SBoolean || types[name] == STristate then Some((name, UserTri(NO)))
        else None
  }

  /** `name=value` */
  ghost function AssignEffect(types: Types, rest: string): Option<(string, UserVal)> {
    match Find(rest, '=')
    case None => None
    case Some(i) =>
      var name := rest[..i];
      if name !in types then None
      else match SetVal(types[name], CutLine(rest[i + 1..]))
           case None => None
           case Some(v) => Some((name, v))
  }

  predicate NameOk(prefix: string, name: string) {
    && name != [] && ' ' !in name && '=' !in name
    && (prefix + name)[0] != '#'
  }

  /** A value the symbol's type admits; strings have no newline. */
  ghost predicate ValueOk(ty: SymType, v: UserVal) {
    match ty
    case SBoolean => v.UserTri? && v.tri != MOD
    case STristate => v.UserTri?
    case SInt => v.UserText? && IntText(v.text)
    case SHex => v.UserText? && HexText(v.text)
    case SString => v.UserText? && '\n' !in v.text && NUL !in v.text
    case _ => false
  }

  ghost predicate EntryOk(prefix: string, types: Types, e: Entry) {
    NameOk(prefix, e.name) && e.name in types && types[e.name] == e.ty && ValueOk(e.ty, e.val)
  }

  lemma {:induction false} FindAt(a: string, c: char, b: string)
    requires c !in a
    ensures Find(a + [c] + b, c) == Some(|a|)
  {
    var s := a + [c] + b;
    assert s[|a|] == c;
    assert forall k :: 0 <= k < |a| ==> s[k] == a[k];
  }

  lemma {:induction false} EscapeNoNewline(s: string)
    requires '\n' !in s
    ensures '\n' !in Escape(s)
  {
    if s != [] {
      assert s == [s[0]] + s[1..];
      EscapeNoNewline(s[1..]);
    }
  }

  lemma ValueTextOk(e: Entry)
    requires ValueOk(e.ty, e.val)
    ensures '\n' !in ValueText(e) && ValueText(e) != []
    ensures var t := ValueText(e); t[|t| - 1] != '\r'
    ensures SetVal(e.ty, ValueText(e)) == Some(e.val)
  {
    var t := ValueText(e);
    if e.ty == SString {
      EscapeNoNewline(e.val.text);
      UnescapeInverts(e.val.text, []);
      assert t[1..] == Escape(e.val.text) + ['"'] + [];
    } else if e.ty == SInt || e.ty == SHex {
      NumberText(t);
    }
  }

  lemma NumberText(t: string)
    requires IntText(t) || HexText(t)
    ensures t != [] && '\n' !in t && '\r' !in t && NUL !in t
  {
    if n: nat :| t == Decimal(n) { DecimalChars(n); }
    if n: nat :| t == "-" + Decimal(n) { DecimalChars(n); }
  }

  lemma CutLineEnd(t: string)
    requires '\n' !in t && (t != [] ==> t[|t| - 1] != '\r')
    ensures CutLine(t + "\n") == t
  {
    FindAt(t, '\n', []);
    assert t + ['\n'] + [] == t + "\n";
  }

  lemma UnsetRoundTrip(prefix: string, types: Types, name: string)
    requires name in types && (types[name] == SBoolean || types[name] == STristate) && ' ' !in name
    ensures LineEffect(prefix, types, "# " + prefix + name + " " + NOT_SET + "\n") == Some((name, UserTri(NO)))
  {
    hide UnsetEffect;
    UnsetForm(prefix, types, " ", name, "\n");
    assert "# " + prefix + name + " " + NOT_SET + "\n" == "#" + " " + prefix + name + " " + NOT_SET + "\n";
  }

  lemma AssignRoundTrip(prefix: string, types: Types, name: string, text: string)
    requires name in types && '=' !in name && name != [] && (prefix + name)[0] != '#'
    requires '\n' !in text && (text != [] ==> text[|text| - 1] != '\r')
    ensures LineEffect(prefix, types, prefix + name + "=" + text + "\n") ==
            match SetVal(types[name], text) case None => None case Some(v) => Some((name, v))
  {
    hide Find; hide SetVal; hide CutLine;
    var tail := text + "\n";
    var rest := name + ['='] + tail;
    var line := prefix + name + "=" + text + "\n";
    assert line == prefix + rest && line[0] == (prefix + name)[0] && line[|prefix|..] == rest;
    FindAt(name, '=', tail);
    assert rest[..|name|] == name && rest[|name| + 1..] == tail;
    CutLineEnd(text);
  }

  // ---- what a line sets, exactly

  /** A bool takes y and n, a tristate m too, whatever follows. */
  lemma SetTriExact(ty: SymType, p: string, v: UserVal)
    requires ty == SBoolean || ty == STristate
    ensures SetVal(ty, p) == Some(v) <==>
            exists t: Tristate, rest :: p == TriString(t) + rest && v == UserTri(t) && (t == MOD ==> ty == STristate)
  {
    if SetVal(ty, p) == Some(v) {
      assert p == TriString(v.tri) + p[1..];
    }
  }

  /** A string takes what stands between the quotes that its escapes spell. */
  lemma SetStringExact(p: string, v: UserVal)
    ensures SetVal(SString, p) == Some(v) <==>
            v.UserText? && exists e, more :: p == "\"" + e + "\"" + more && Spells(e, v.text)
  {
    hide Spells; hide Unescape;
    forall e, more ensures p == "\"" + e + "\"" + more <==> p != [] && p[0] == '"' && p[1..] == e + ['"'] + more {
      QuoteFirst(p, e, more);
    }
    if p != [] && p[0] == '"' && v.UserText? { UnescapeExact(p[1..], v.text); }
  }

  lemma QuoteFirst(p: string, e: string, more: string)
    ensures p == "\"" + e + "\"" + more <==> p != [] && p[0] == '"' && p[1..] == e + ['"'] + more
  {
    Assoc("\"" + e, "\"", more);
    Assoc("\"", e, "\"" + more);
    Assoc(e, "\"", more);
  }

  /** The value ends before the first newline, or before a carriage return just before it. */
  lemma CutExact(p: string, t: string)
    ensures CutLine(p) == t <==>
            if '\n' !in p then t == p
            else '\n' !in t && exists more ::
                   p == t + "\r\n" + more || (p == t + "\n" + more && (t != [] ==> t[|t| - 1] != '\r'))
  {
    if '\n' in p {
      var j := Find(p, '\n').value;
      assert p == p[..j] + "\n" + p[j + 1..];
      if j > 0 && p[j - 1] == '\r' { assert p == p[..j - 1] + "\r\n" + p[j + 1..]; }
      if '\n' !in t {
        forall more | p == t + "\r\n" + more ensures j == |t| + 1 { FindAt(t + "\r", '\n', more); assert p == (t + "\r") + ['\n'] + more; }
        forall more | p == t + "\n" + more ensures j == |t| { FindAt(t, '\n', more); assert p == t + ['\n'] + more; }
      }
    }
  }

  /** A comment line sets a symbol only if it is `#`, some character, the prefix, the symbol's
      name and ` is not set`, whatever follows, and then to n. */
  lemma UnsetExact(prefix: string, types: Types, line: string, name: string, v: UserVal)
    requires line != [] && line[0] == '#'
    ensures LineEffect(prefix, types, line) == Some((name, v)) <==>
            && v == UserTri(NO) && ' ' !in name && name in types && (types[name] == SBoolean || types[name] == STristate)
            && exists c: char, more :: line == "#" + [c] + prefix + name + " " + NOT_SET + more
  {
    hide UnsetEffect;
    if UnsetEffect(prefix, types, line) == Some((name, v)) {
      var c, more := UnsetShape(prefix, types, line, name, v);
    }
    if ' ' !in name {
      forall c: char, more | line == "#" + [c] + prefix + name + " " + NOT_SET + more
        ensures name in types && (types[name] == SBoolean || types[name] == STristate) ==>
                  UnsetEffect(prefix, types, line) == Some((name, UserTri(NO)))
      {
        if name in types && (types[name] == SBoolean || types[name] == STristate) { UnsetForm(prefix, types, [c], name, more); }
      }
    }
  }

  lemma UnsetShape(prefix: string, types: Types, line: string, name: string, v: UserVal) returns (c: char, more: string)
    requires line != [] && line[0] == '#' && UnsetEffect(prefix, types, line) == Some((name, v))
    ensures v == UserTri(NO) && ' ' !in name && name in types && (types[name] == SBoolean || types[name] == STristate)
    ensures line == "#" + [c] + prefix + name + " " + NOT_SET + more
  {
    hide Find;
    var rest := line[2..][|prefix|..];
    var tail := rest[|name| + 1..];
    c, more := line[1], tail[|NOT_SET|..];
    assert line == "#" + [c] + line[2..] && line[2..] == prefix + rest;
    assert rest == name + " " + tail && tail == NOT_SET + more;
    Regroup("#" + [c], prefix, name, " ", NOT_SET, more);
  }

  lemma Assoc(a: string, b: string, c: string)
    ensures a + b + c == a + (b + c)
  {
  }

  lemma Regroup(a: string, b: string, c: string, d: string, e: string, f: string)
    ensures a + b + c + d + e + f == a + (b + (c + d + (e + f)))
  {
    Assoc(a + b + c + d, e, f);
    Assoc(a + b + c, d, e + f);
    Assoc(a + b, c, d + (e + f));
    Assoc(c, d, e + f);
    Assoc(a, b, c + d + (e + f));
  }

  lemma UnsetForm(prefix: string, types: Types, c: string, name: string, more: string)
    requires |c| == 1 && ' ' !in name && name in types && (types[name] == SBoolean || types[name] == STristate)
    ensures UnsetEffect(prefix, types, "#" + c + prefix + name + " " + NOT_SET + more) == Some((name, UserTri(NO)))
  {
    hide Find;
    var tail := NOT_SET + more;
    var rest := name + " " + tail;
    var line := "#" + c + prefix + name + " " + NOT_SET + more;
    Regroup("#" + c, prefix, name, " ", NOT_SET, more);
    assert line[2..] == prefix + rest && line[2..][|prefix|..] == rest;
    FindAt(name, ' ', tail);
    assert rest[..|name|] == name && rest[|name| + 1..] == tail && NOT_SET <= tail;
  }

  /** Any other line sets a symbol only if it is the prefix, the symbol's name, `=` and a text
      whose part before the line end is a value of the symbol, and then to that value. */
  lemma AssignExact(prefix: string, types: Types, line: string, name: string, v: UserVal)
    requires line != [] ==> line[0] != '#'
    ensures LineEffect(prefix, types, line) == Some((name, v)) <==>
            && '=' !in name && name in types
            && exists text :: line == prefix + name + "=" + text && SetVal(types[name], CutLine(text)) == Some(v)
  {
    hide Find; hide SetVal; hide CutLine;
    if LineEffect(prefix, types, line) == Some((name, v)) {
      var rest := line[|prefix|..];
      var text := rest[|name| + 1..];
      assert line == prefix + rest && rest == name + "=" + text;
      assert line == prefix + name + "=" + text;
    }
    if '=' !in name && name in types {
      forall text | line == prefix + name + "=" + text
        ensures AssignEffect(types, line[|prefix|..]) == match SetVal(types[name], CutLine(text)) case None => None case Some(u) => Some((name, u))
      {
        assert line == prefix + (name + ['='] + text);
        assert line[|prefix|..] == name + ['='] + text;
        FindAt(name, '=', text);
        assert (name + ['='] + text)[..|name|] == name && (name + ['='] + text)[|name| + 1..] == text;
      }
    }
  }

  /** Reading the line written for an entry sets that symbol to that value. */
  lemma LineRoundTrip(prefix: string, types: Types, e: Entry)
    requires EntryOk(prefix, types, e)
    ensures LineEffect(prefix, types, LineOf(prefix, e)) == Some((e.name, e.val))
  {
    hide LineEffect; hide ValueText; hide SetVal;
    if (e.ty == SBoolean || e.ty == STristate) && e.val == UserTri(NO) {
      UnsetRoundTrip(prefix, types, e.name);
    } else {
      ValueTextOk(e);
      AssignRoundTrip(prefix, types, e.name, ValueText(e));
    }
  }

  /** The bytes from a position of a line buffer to the terminator, copied (xstrdup). */
  method DupText(buf: array<char>, p: nat, ghost e: nat) returns (s: string)
    requires p <= e < buf.Length && buf[e] == NUL && forall k :: p <= k < e ==> buf[k] != NUL
    ensures s == buf[p..e]
  {
    var i := p;
    while buf[i] != NUL
      invariant p <= i <= e
      decreases e - i
    {
      i := i + 1;
    }
    s := buf[p..i];
  }

  /** The text in a line buffer of its own. */
  method Terminated(p: string) returns (buf: array<char>)
    requires NUL !in p
    ensures fresh(buf) && buf.Length == |p| + 1 && buf[|p|] == NUL && buf[..|p|] == p
    ensures forall k :: 0 <= k < |p| ==> buf[k] != NUL
  {
    buf := new char[|p| + 1](i requires 0 <= i => if i < |p| then p[i] else NUL);
  }

  /** The digits of an int: a zero stands alone. */
  predicate Numeral(d: string) { d != [] && Digits(d) && (d[0] == '0' ==> |d| == 1) }

  lemma IntForm(s: string)
    ensures IntText(s) <==> Numeral(if s != [] && s[0] == '-' then s[1..] else s)
  {
    var d := if s != [] && s[0] == '-' then s[1..] else s;
    if Numeral(d) {
      var n := DigitsDecimal(d);
      assert s == Decimal(n) || s == "-" + Decimal(n);
    }
    if n: nat :| s == Decimal(n) { DecimalChars(n); }
    if n: nat :| s == "-" + Decimal(n) { DecimalChars(n); }
  }

  lemma HexForm(s: string)
    ensures HexText(s) <==> XDigits(if |s| >= 2 && s[0] == '0' && (s[1] == 'x' || s[1] == 'X') then s[2..] else s)
  {
    var d := if |s| >= 2 && s[0] == '0' && (s[1] == 'x' || s[1] == 'X') then s[2..] else s;
    if XDigits(d) {
      assert s == d || s == "0x" + d || s == "0X" + d;
    }
  }

  /** sym_string_valid: it reads the text at p up to the terminator at e. */
  method SymStringValid(ty: SymType, text: array<char>, p: nat, ghost e: nat) returns (ok: bool)
    requires p <= e < text.Length && text[e] == NUL && forall k :: p <= k < e ==> text[k] != NUL
    ensures ok <==> Admits(ty, text[p..e])
  {
    match ty
    case SString => ok := true;
    case SInt => ok := IntValid(text, p, e);
    case SHex => ok := HexValid(text, p, e);
    case SBoolean => ok := text[p] in "yYmMnN";
    case STristate => ok := text[p] in "yYmMnN";
    case _ => ok := false;
  }

  method IntValid(text: array<char>, p: nat, ghost e: nat) returns (ok: bool)
    requires p <= e < text.Length && text[e] == NUL && forall k :: p <= k < e ==> text[k] != NUL
    ensures ok <==> IntText(text[p..e])
  {
    hide IntText; hide Numeral;
    ghost var s := text[p..e];
    IntForm(s);
    if text[p] == '-' {
      assert s[1..] == text[p + 1..e];
      ok := NumeralAt(text, p + 1, e);
    } else {
      ok := NumeralAt(text, p, e);
    }
  }

  method NumeralAt(text: array<char>, p: nat, ghost e: nat) returns (ok: bool)
    requires p <= e < text.Length && text[e] == NUL && forall k :: p <= k < e ==> text[k] != NUL
    ensures ok <==> Numeral(text[p..e])
  {
    ghost var d := text[p..e];
    if !Digit(text[p]) { return false; }
    if text[p] == '0' && text[p + 1] != NUL { return false; }
    var i := p + 1;
    while text[i] != NUL
      invariant p < i <= e && forall k :: p <= k < i ==> Digit(text[k])
      decreases e - i
    {
      if !Digit(text[i]) {
        assert d[i - p] == text[i];
        return false;
      }
      i := i + 1;
    }
    ok := true;
  }

  method HexValid(text: array<char>, p: nat, ghost e: nat) returns (ok: bool)
    requires p <= e < text.Length && text[e] == NUL && forall k :: p <= k < e ==> text[k] != NUL
    ensures ok <==> HexText(text[p..e])
  {
    hide HexText; hide XDigits;
    ghost var s := text[p..e];
    HexForm(s);
    if text[p] == '0' && (text[p + 1] == 'x' || text[p + 1] == 'X') {
      assert s[2..] == text[p + 2..e];
      ok := XDigitsAt(text, p + 2, e);
    } else {
      ok := XDigitsAt(text, p, e);
    }
  }

  /** The loop tests before it looks for the end, so that there is at least one digit. */
  method XDigitsAt(text: array<char>, p: nat, ghost e: nat) returns (ok: bool)
    requires p <= e < text.Length && text[e] == NUL && forall k :: p <= k < e ==> text[k] != NUL
    ensures ok <==> XDigits(text[p..e])
  {
    ghost var d := text[p..e];
    var i := p;
    while true
      invariant p <= i <= e && (i > p ==> text[i] != NUL) && forall k :: p <= k < i ==> IsXDigit(text[k])
      decreases e - i
    {
      if !IsXDigit(text[i]) {
        if i < e { assert d[i - p] == text[i]; }
        return false;
      }
      i := i + 1;
      if text[i] == NUL { break; }
    }
    ok := true;
  }

  /** The symbols' user values while a file is read. */
  class Reader {
    const prefix: string
    const types: Types
    var user: map<string, UserVal>

    /** The loop before the first line: no symbol has a user value. */
    constructor (prefix: string, types: Types)
      ensures this.prefix == prefix && this.types == types && user == map[]
    {
      this.prefix, this.types, user := prefix, types, map[];
    }

    /** What user becomes when a line has the given effect. */
    function After(effect: Option<(string, UserVal)>): map<string, UserVal>
      reads this
    {
      match effect case None => user case Some(u) => user[u.0 := u.1]
    }

    /** conf_set_sym_val for a user value; the string case works in the line buffer. */
    method SetSymVal(name: string, p: string)
      requires name in types && NUL !in p
      modifies this
      ensures user == old(After(match SetVal(types[name], p) case None => None case Some(v) => Some((name, v))))
    {
      var ty := types[name];
      if ty == STristate && p != [] && p[0] == 'm' {
        user := user[name := UserTri(MOD)];
      } else if ty == STristate || ty == SBoolean {
        if p != [] && p[0] == 'y' {
          user := user[name := UserTri(YES)];
        } else if p != [] && p[0] == 'n' {
          user := user[name := UserTri(NO)];
        }
      } else if ty == SString && p != [] && p[0] == '"' {
        var s := UnquoteLine(p);
        if s.Some? { user := user[name := UserText(s.value)]; }
      } else if ty == SInt || ty == SHex {
        var buf := Terminated(p);
        var ok := SymStringValid(ty, buf, 0, |p|);
        if ok {
          var s := DupText(buf, 0, |p|);
          user := user[name := UserText(s)];
        }
      }
    }

    /** One line of conf_read_simple. */
    method ReadLine(line: string)
      requires NUL !in line
      modifies this
      ensures user == old(After(LineEffect(prefix, types, line)))
    {
      hide UnsetEffect; hide AssignEffect;
      if line != [] && line[0] == '#' {
        ReadUnset(line);
      } else if prefix <= line {
        ReadAssign(line[|prefix|..]);
      }
    }

    /** A comment line: it may say that a symbol is not set. */
    method ReadUnset(line: string)
      modifies this
      ensures user == old(After(UnsetEffect(prefix, types, line)))
    {
      hide Find;
      if |line| < 2 || !(prefix <= line[2..]) { return; }
      var rest := line[2..][|prefix|..];
      var i := Find(rest, ' ');
      if i.None? { return; }
      var name := rest[..i.value];
      if NOT_SET <= rest[i.value + 1..] && name in types {
        if types[name] == SBoolean || types[name] == STristate {
          user := user[name := UserTri(NO)];
        }
      }
    }

    /** A line that starts with the prefix, without it. */
    method ReadAssign(rest: string)
      requires NUL !in rest
      modifies this
      ensures user == old(After(AssignEffect(types, rest)))
    {
      hide Find; hide SetVal; hide CutLine;
      var i := Find(rest, '=');
      if i.None? { return; }
      var name := rest[..i.value];
      if name in types {
        CutNoNul(rest[i.value + 1..]);
        SetSymVal(name, CutLine(rest[i.value + 1..]));
      }
    }
  }

  lemma CutNoNul(p: string)
    requires NUL !in p
    ensures NUL !in CutLine(p)
  {
  }

  /** The string case: the value in a terminated buffer, unescaped in place. */
  method UnquoteLine(p: string) returns (s: Option<string>)
    requires p != [] && p[0] == '"' && NUL !in p
    ensures s == Unescape(p[1..])
  {
    var buf := Terminated(p);
    ghost var e;
    var ok;
    ok, e := UnescapeInPlace(buf, 1, |p|);
    if !ok { return None; }
    UnescapeNoNul(p[1..]);
    assert forall k :: 1 <= k < e ==> buf[k] == buf[1..e][k - 1];
    var t := DupText(buf, 1, e);
    s := Some(t);
  }

  lemma {:induction false} UnescapeNoNul(t: string)
    requires NUL !in t
    ensures Unescape(t).Some? ==> NUL !in Unescape(t).value
  {
    if |t| >= 1 { UnescapeNoNul(t[1..]); }
    if |t| >= 2 { UnescapeNoNul(t[2..]); }
  }

  /** Writing a list of distinctly named symbols with valid values and reading the file back
      gives exactly those values to exactly those symbols. */
  method WriteThenRead(prefix: string, types: Types, entries: seq<Entry>) returns (user: map<string, UserVal>)
    requires NUL !in prefix
    requires forall i :: 0 <= i < |entries| ==> EntryOk(prefix, types, entries[i]) && NUL !in entries[i].name
    requires forall i, j :: 0 <= i < j < |entries| ==> entries[i].name != entries[j].name
    ensures user.Keys == set i | 0 <= i < |entries| :: entries[i].name
    ensures forall i :: 0 <= i < |entries| ==> user[entries[i].name] == entries[i].val
  {
    hide EntryOk;
    hide LineOf;
    var lines := [];
    var i := 0;
    while i < |entries|
      invariant 0 <= i <= |entries| && |lines| == i
      invariant forall k :: 0 <= k < i ==> lines[k] == LineOf(prefix, entries[k])
    {
      lines := lines + [LineOf(prefix, entries[i])];
      i := i + 1;
    }
    var reader := new Reader(prefix, types);
    i := 0;
    while i < |lines|
      invariant 0 <= i <= |lines| && reader.prefix == prefix && reader.types == types && fresh(reader)
      invariant reader.user.Keys == set k | 0 <= k < i :: entries[k].name
      invariant forall k :: 0 <= k < i ==> reader.user[entries[k].name] == entries[k].val
    {
      LineRoundTrip(prefix, types, entries[i]);
      LineNoNul(prefix, types, entries[i]);
      reader.ReadLine(lines[i]);
      i := i + 1;
    }
    user := reader.user;
  }

  lemma LineNoNul(prefix: string, types: Types, e: Entry)
    requires EntryOk(prefix, types, e) && NUL !in prefix && NUL !in e.name
    ensures NUL !in LineOf(prefix, e)
  {
    if e.ty == SString {
      EscapeNoNul(e.val.text);
    } else if e.ty == SInt || e.ty == SHex {
      NumberText(ValueText(e));
    }
  }

  lemma {:induction false} EscapeNoNul(s: string)
    requires NUL !in s
    ensures NUL !in Escape(s)
  {
    if s != [] {
      assert s == [s[0]] + s[1..];
      EscapeNoNul(s[1..]);
    }
  }
}
