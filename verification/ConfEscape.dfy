/** Quoting of string values: sym_escape_string_value of support/kconfig/symbol.c, and the
    in-place unescaping of conf_set_sym_val in support/kconfig/confdata.c. */
module ConfEscape {
  import opened KconfigExpr

  const NUL := '\0'

  predicate IsSpecial(c: char) { c == '"' || c == '\\' }

  /** A backslash before every quote and backslash. */
  function Escape(s: string): string {
    if s == [] then []
    else (if IsSpecial(s[0]) then ['\\', s[0]] else [s[0]]) + Escape(s[1..])
  }

  function Quote(s: string): string { ['"'] + Escape(s) + ['"'] }

  /** The text up to the first quote that is not escaped; None if there is none. */
  function Unescape(t: string): Option<string> {
    if t == [] then None
    else if t[0] == '"' then Some([])
    else if t[0] == '\\' then
      if |t| == 1 then None else Prepend([t[1]], Unescape(t[2..]))
    else Prepend([t[0]], Unescape(t[1..]))
  }

  function Prepend(p: string, r: Option<string>): Option<string> {
    match r case None => None case Some(s) => Some(p + s)
  }

  /** Unescaping inverts escaping, for every string, quotes and backslashes included. */
  lemma {:induction false} UnescapeInverts(s: string, tail: string)
    ensures Unescape(Escape(s) + ['"'] + tail) == Some(s)
  {
    if s == [] {
      assert Escape(s) + ['"'] + tail == ['"'] + tail;
    } else {
      var rest := Escape(s[1..]) + ['"'] + tail;
      UnescapeInverts(s[1..], tail);
      var head := if IsSpecial(s[0]) then ['\\', s[0]] else [s[0]];
      var t := Escape(s) + ['"'] + tail;
      assert t == head + rest;
      assert s == [s[0]] + s[1..];
      if IsSpecial(s[0]) {
        assert t[0] == '\\' && t[1] == s[0] && t[2..] == rest;
      } else {
        assert t[0] == s[0] && t[1..] == rest;
      }
    }
  }

  /** e spells s: each character stands for itself or follows a backslash, quotes and
      backslashes always do. */
  ghost predicate Spells(e: string, s: string) {
    if e == [] then s == []
    else if e[0] == '\\' then |e| >= 2 && s != [] && e[1] == s[0] && Spells(e[2..], s[1..])
    else e[0] != '"' && s != [] && e[0] == s[0] && Spells(e[1..], s[1..])
  }

  /** What unescaping gives is exactly what is spelled before a closing quote. */
  lemma {:induction false} UnescapeExact(t: string, s: string)
    ensures Unescape(t) == Some(s) <==> exists e, more :: t == e + ['"'] + more && Spells(e, s)
  {
    if Unescape(t) == Some(s) {
      var e, more := SpellingOf(t, s);
    }
    if exists e, more :: t == e + ['"'] + more && Spells(e, s) {
      var e, more :| t == e + ['"'] + more && Spells(e, s);
      SpelledBack(e, more, s);
    }
  }

  lemma {:induction false} SpellingOf(t: string, s: string) returns (e: string, more: string)
    requires Unescape(t) == Some(s)
    ensures t == e + ['"'] + more && Spells(e, s)
  {
    if t[0] == '"' {
      e, more := [], t[1..];
    } else {
      var n := if t[0] == '\\' then 2 else 1;
      var e', more' := SpellingOf(t[n..], s[1..]);
      e, more := t[..n] + e', more';
      assert e[n..] == e' && t == t[..n] + t[n..];
    }
  }

  lemma {:induction false} SpelledBack(e: string, more: string, s: string)
    requires Spells(e, s)
    ensures Unescape(e + ['"'] + more) == Some(s)
  {
    var t := e + ['"'] + more;
    if e != [] {
      var n := if e[0] == '\\' then 2 else 1;
      SpelledBack(e[n..], more, s[1..]);
      assert t[n..] == e[n..] + ['"'] + more && s == [s[0]] + s[1..];
    }
  }

  /** Different strings are written differently. */
  lemma QuoteInjective(a: string, b: string)
    requires Quote(a) == Quote(b)
    ensures a == b
  {
    UnescapeInverts(a, []);
    UnescapeInverts(b, []);
    assert Quote(a)[1..] == Escape(a) + ['"'] + [] && Quote(b)[1..] == Escape(b) + ['"'] + [];
  }

  function SpecialCount(s: string): nat {
    if s == [] then 0 else (if IsSpecial(s[0]) then 1 else 0) + SpecialCount(s[1..])
  }

  lemma {:induction false} EscapeAppend(a: string, b: string)
    ensures Escape(a + b) == Escape(a) + Escape(b)
    ensures SpecialCount(a + b) == SpecialCount(a) + SpecialCount(b)
  {
    if a == [] {
      assert a + b == b;
    } else {
      assert (a + b)[1..] == a[1..] + b;
      EscapeAppend(a[1..], b);
    }
  }

  lemma {:induction false} EscapeLength(s: string)
    ensures |Escape(s)| == |s| + SpecialCount(s)
  {
    if s != [] { EscapeLength(s[1..]); }
  }

  lemma {:induction false} EscapePlain(s: string)
    requires forall k :: 0 <= k < |s| ==> !IsSpecial(s[k])
    ensures Escape(s) == s && SpecialCount(s) == 0
  {
    if s != [] { EscapePlain(s[1..]); }
  }

  lemma EscapeOne(c: char)
    requires IsSpecial(c)
    ensures Escape([c]) == ['\\', c] && SpecialCount([c]) == 1
  {
    assert Escape([c]) == ['\\', c] + Escape([]);
  }

  /** strcspn(p, "\"\\"): how many plain characters follow. */
  method PlainSpan(s: string, from: nat) returns (n: nat)
    requires from <= |s|
    ensures from + n <= |s| && (from + n < |s| ==> IsSpecial(s[from + n]))
    ensures forall k :: from <= k < from + n ==> !IsSpecial(s[k])
  {
    n := 0;
    while from + n < |s| && !IsSpecial(s[from + n])
      invariant from + n <= |s|
      invariant forall k :: from <= k < from + n ==> !IsSpecial(s[k])
    {
      n := n + 1;
    }
  }

  /** A run of plain characters and the special character that ends it, if any. */
  lemma SpanStep(s: string, from: nat, n: nat)
    requires from + n <= |s| && (from + n < |s| ==> IsSpecial(s[from + n]))
    requires forall k :: from <= k < from + n ==> !IsSpecial(s[k])
    ensures Escape(s[..from + n]) == Escape(s[..from]) + s[from..from + n]
    ensures SpecialCount(s[..from + n]) == SpecialCount(s[..from])
    ensures from + n < |s| ==>
              && Escape(s[..from + n + 1]) == Escape(s[..from + n]) + ['\\', s[from + n]]
              && SpecialCount(s[..from + n + 1]) == SpecialCount(s[..from]) + 1
  {
    assert s[..from + n] == s[..from] + s[from..from + n];
    EscapeAppend(s[..from], s[from..from + n]);
    EscapePlain(s[from..from + n]);
    if from + n < |s| {
      assert s[..from + n + 1] == s[..from + n] + [s[from + n]];
      EscapeAppend(s[..from + n], [s[from + n]]);
      EscapeOne(s[from + n]);
    }
  }

  /** The first pass: the size to allocate, terminator included. */
  method EscapedSize(s: string) returns (size: nat)
    ensures size == |Quote(s)| + 1
  {
    size := |s| + 2 + 1;
    var p := 0;
    while true
      invariant p <= |s| && size == |s| + 3 + SpecialCount(s[..p])
      decreases |s| - p
    {
      var l := PlainSpan(s, p);
      SpanStep(s, p, l);
      p := p + l;
      if p == |s| { break; }
      size := size + 1;
      p := p + 1;
    }
    assert s[..p] == s;
    EscapeLength(s);
  }

  /** A NUL-terminated buffer that strcat and strncat append to. */
  class Buffer {
    var data: array<char>
    ghost var len: nat

    ghost predicate Valid()
      reads this, data
    {
      len < data.Length && data[len] == NUL && forall k :: 0 <= k < len ==> data[k] != NUL
    }

    ghost function Text(): string
      reads this, data
      requires Valid()
    {
      data[..len]
    }

    constructor (size: nat)
      requires size > 0
      ensures Valid() && Text() == [] && data.Length == size && fresh(data)
    {
      data := new char[size];
      len := 0;
      new;
      data[0] := NUL;
    }

    /** strcat, strncat: find the end, copy, terminate. */
    method Append(t: string)
      requires Valid() && NUL !in t && |Text()| + |t| < data.Length
      modifies this`len, data
      ensures Valid() && data == old(data) && Text() == old(Text()) + t
    {
      var i := 0;
      while data[i] != NUL
        invariant 0 <= i <= len
        decreases len - i
      {
        i := i + 1;
      }
      ghost var before := data[..len];
      var k := 0;
      while k < |t|
        invariant 0 <= k <= |t| && len == old(len)
        invariant data[..i + k] == before + t[..k]
      {
        data[i + k] := t[k];
        k := k + 1;
      }
      data[i + |t|] := NUL;
      len := len + |t|;
      assert t[..|t|] == t && data[..len] == before + t;
      forall j | 0 <= j < len
        ensures data[j] != NUL
      {
        assert data[j] == (before + t)[j];
      }
    }
  }

  /** sym_escape_string_value: the buffer allocated after the first pass is filled exactly. */
  method EscapeString(s: string) returns (res: Buffer)
    requires NUL !in s
    ensures fresh(res) && fresh(res.data) && res.Valid() && res.Text() == Quote(s)
    ensures res.data.Length == |res.Text()| + 1
  {
    hide Escape;
    hide SpecialCount;
    var size := EscapedSize(s);
    EscapedPrefix(s, 0);
    assert s[..0] == [];
    res := new Buffer(size);
    res.Append("\"");
    var p := 0;
    while true
      invariant p <= |s| && res.Valid() && fresh(res) && fresh(res.data) && res.data.Length == size
      invariant res.Text() == ['"'] + Escape(s[..p])
      decreases |s| - p
    {
      var l := PlainSpan(s, p);
      AppendPlain(res, s, p, l);
      p := p + l;
      if p == |s| { break; }
      AppendSpecial(res, s, p);
      p := p + 1;
    }
    assert s[..p] == s;
    res.Append("\"");
  }

  method AppendPlain(res: Buffer, s: string, p: nat, l: nat)
    requires res.Valid() && NUL !in s && p + l <= |s| && forall k :: p <= k < p + l ==> !IsSpecial(s[k])
    requires res.Text() == ['"'] + Escape(s[..p]) && res.data.Length == |Escape(s)| + 3
    modifies res`len, res.data
    ensures res.Valid() && res.data == old(res.data) && res.Text() == ['"'] + Escape(s[..p + l])
  {
    hide Escape;
    EscapePart(s, p, l);
    EscapedPrefix(s, p + l);
    res.Append(s[p..p + l]);
  }

  method AppendSpecial(res: Buffer, s: string, p: nat)
    requires res.Valid() && NUL !in s && p < |s| && IsSpecial(s[p])
    requires res.Text() == ['"'] + Escape(s[..p]) && res.data.Length == |Escape(s)| + 3
    modifies res`len, res.data
    ensures res.Valid() && res.data == old(res.data) && res.Text() == ['"'] + Escape(s[..p + 1])
  {
    hide Escape;
    EscapeNext(s, p);
    EscapedPrefix(s, p + 1);
    res.Append("\\");
    res.Append([s[p]]);
  }

  lemma EscapePart(s: string, p: nat, l: nat)
    requires p + l <= |s| && forall k :: p <= k < p + l ==> !IsSpecial(s[k])
    ensures Escape(s[..p + l]) == Escape(s[..p]) + s[p..p + l]
  {
    assert s[..p + l] == s[..p] + s[p..p + l];
    EscapeAppend(s[..p], s[p..p + l]);
    EscapePlain(s[p..p + l]);
  }

  lemma EscapeNext(s: string, p: nat)
    requires p < |s| && IsSpecial(s[p])
    ensures Escape(s[..p + 1]) == Escape(s[..p]) + ['\\', s[p]]
  {
    assert s[..p + 1] == s[..p] + [s[p]];
    EscapeAppend(s[..p], [s[p]]);
    EscapeOne(s[p]);
  }

  lemma EscapedPrefix(s: string, n: nat)
    requires n <= |s|
    ensures |Escape(s[..n])| <= |Escape(s)| && Escape(s[..0]) == []
  {
    assert s == s[..n] + s[n..];
    EscapeAppend(s[..n], s[n..]);
  }

  /** strpbrk(p2, "\"\\") in a terminated buffer. */
  method FindSpecial(buf: array<char>, from: nat, ghost end: nat) returns (r: Option<nat>)
    requires from <= end < buf.Length && buf[end] == NUL
    ensures match r
            case Some(i) => from <= i < end && IsSpecial(buf[i]) && (forall k :: from <= k < i ==> buf[k] != NUL && !IsSpecial(buf[k]))
            case None => exists e :: from <= e <= end && buf[e] == NUL && forall k :: from <= k < e ==> buf[k] != NUL && !IsSpecial(buf[k])
  {
    var i := from;
    while buf[i] != NUL && !IsSpecial(buf[i])
      invariant from <= i <= end
      invariant forall k :: from <= k < i ==> buf[k] != NUL && !IsSpecial(buf[k])
      decreases end - i
    {
      i := i + 1;
    }
    r := if buf[i] == NUL then None else Some(i);
  }

  lemma {:induction false} UnescapePlain(t: string, n: nat)
    requires n <= |t| && forall k :: 0 <= k < n ==> !IsSpecial(t[k])
    ensures Unescape(t) == Prepend(t[..n], Unescape(t[n..]))
  {
    if n > 0 {
      assert t[1..][..n - 1] == t[1..n] && t[1..][n - 1..] == t[n..];
      UnescapePlain(t[1..], n - 1);
      assert [t[0]] + t[1..n] == t[..n];
      if Unescape(t[n..]).Some? {
        var x := Unescape(t[n..]).value;
        assert [t[0]] + (t[1..n] + x) == t[..n] + x;
      }
    } else {
      assert t[0..] == t && (Unescape(t).Some? ==> [] + Unescape(t).value == Unescape(t).value);
    }
  }

  lemma PrependTwice(a: string, b: string, r: Option<string>)
    ensures Prepend(a, Prepend(b, r)) == Prepend(a + b, r)
  {
    if r.Some? { assert a + (b + r.value) == a + b + r.value; }
  }

  lemma PrependNothing(r: Option<string>)
    ensures Prepend([], r) == r
  {
    if r.Some? { assert [] + r.value == r.value; }
  }

  lemma PrependEnd(p: string)
    ensures Prepend(p, None) == None && Prepend(p, Some([])) == Some(p)
  {
    assert p + [] == p;
  }

  /** memmove(p2, p2 + 1, strlen(p2)): the text after p2, terminator included, one down. */
  method MoveDown(buf: array<char>, p2: nat, ghost n: nat)
    requires p2 < n < buf.Length && buf[n] == NUL && NUL !in buf[p2..n]
    modifies buf
    ensures forall k :: p2 <= k < n ==> buf[k] == old(buf[k + 1])
    ensures forall k :: 0 <= k < buf.Length && !(p2 <= k < n) ==> buf[k] == old(buf[k])
  {
    var end := p2;
    while buf[end] != NUL
      invariant p2 <= end <= n
      decreases n - end
    {
      end := end + 1;
    }
    forall k | p2 <= k < end {
      buf[k] := buf[k + 1];
    }
  }

  /** Plain characters stand for themselves. */
  lemma SkipPlain(buf: array<char>, p: nat, p2: nat, q: nat, n: nat, want: Option<string>)
    requires p <= p2 <= q <= n < buf.Length && want == Prepend(buf[p..p2], Unescape(buf[p2..n]))
    requires forall k :: p2 <= k < q ==> !IsSpecial(buf[k])
    ensures want == Prepend(buf[p..q], Unescape(buf[q..n]))
    ensures buf[n..n] == []
  {
    var rest := buf[p2..n];
    var d := q - p2;
    UnescapePlain(rest, d);
    PrependTwice(buf[p..p2], rest[..d], Unescape(rest[d..]));
    JoinSlices(buf[..], p, p2, q, n);
    assert rest == buf[..][p2..n] && buf[p..p2] == buf[..][p..p2] && buf[p..q] == buf[..][p..q] && buf[q..n] == buf[..][q..n];
  }

  lemma JoinSlices(s: string, p: nat, p2: nat, q: nat, n: nat)
    requires p <= p2 <= q <= n <= |s|
    ensures s[p..p2] + s[p2..n][..q - p2] == s[p..q] && s[p2..n][q - p2..] == s[q..n]
  {
  }

  /** Removing the backslash at p2: the character after it is kept as it is. */
  method DropBackslash(buf: array<char>, ghost p: nat, p2: nat, ghost n: nat, ghost want: Option<string>)
    requires p <= p2 < n < buf.Length && buf[n] == NUL && NUL !in buf[p2..n] && buf[p2] == '\\'
    requires want == Prepend(buf[p..p2], Unescape(buf[p2..n]))
    modifies buf
    ensures buf[n - 1] == NUL && buf[n] == NUL
    ensures p2 + 1 < n ==> NUL !in buf[p2 + 1..n - 1] && want == Prepend(buf[p..p2 + 1], Unescape(buf[p2 + 1..n - 1]))
    ensures p2 + 1 == n ==> want.None?
    ensures forall k :: 0 <= k < p ==> buf[k] == old(buf[k])
  {
    ghost var head, tail := buf[p..p2], buf[p2..n];
    MoveDown(buf, p2, n);
    assert buf[p..p2] == head && buf[p2..n - 1] == tail[1..];
    if |tail| > 1 {
      PrependTwice(head, [tail[1]], Unescape(tail[2..]));
      assert buf[p..p2 + 1] == head + [tail[1]] && buf[p2 + 1..n - 1] == tail[2..];
    }
  }

  /** Text ends at the closing quote, and is no string without one. */
  lemma UnescapeEnds(t: string)
    ensures t == [] ==> Unescape(t) == None
    ensures t != [] && t[0] == '"' ==> Unescape(t) == Some([])
  {
  }

  /** The loop of conf_set_sym_val on the text after the opening quote. Backslashes are
      removed by moving the rest of the line one place down; the closing quote becomes the
      terminator. */
  method UnescapeInPlace(buf: array<char>, p: nat, ghost n: nat) returns (ok: bool, ghost e: nat)
    requires p <= n < buf.Length && buf[n] == NUL && NUL !in buf[p..n]
    modifies buf
    ensures match Unescape(old(buf[p..n]))
            case None => !ok
            case Some(s) => ok && p <= e < buf.Length && buf[e] == NUL && buf[p..e] == s
    ensures forall k :: 0 <= k < p ==> buf[k] == old(buf[k])
  {
    hide Prepend; hide Unescape;
    ghost var want := Unescape(buf[p..n]);
    ghost var n' := n;
    e := p;
    var p2 := p;
    assert buf[p..p] == [];
    PrependNothing(want);
    while true
      invariant p <= p2 && 0 <= n' < buf.Length && buf[n'] == NUL
      invariant p2 <= n' ==> NUL !in buf[p2..n'] && want == Prepend(buf[p..p2], Unescape(buf[p2..n']))
      invariant p2 > n' ==> p2 == n' + 1 < buf.Length && buf[p2] == NUL && want.None?
      invariant forall k :: 0 <= k < p ==> buf[k] == old(buf[k])
      decreases n' - p2
    {
      var r := FindSpecial(buf, p2, if p2 <= n' then n' else p2);
      if r.None? {
        ok := false;
        if p2 <= n' {
          assert forall k :: p2 <= k < n' ==> buf[k] == buf[p2..n'][k - p2] && buf[k] != NUL;
          SkipPlain(buf, p, p2, n', n', want);
          UnescapeEnds([]);
          PrependEnd(buf[p..n']);
        }
        return;
      }
      SkipPlain(buf, p, p2, r.value, n', want);
      p2 := r.value;
      if buf[p2] == '"' {
        UnescapeEnds(buf[p2..n']);
        PrependEnd(buf[p..p2]);
        buf[p2] := NUL;
        e := p2;
        ok := true;
        return;
      }
      DropBackslash(buf, p, p2, n', want);
      n' := n' - 1;
      p2 := p2 + 1;
    }
  }
}
