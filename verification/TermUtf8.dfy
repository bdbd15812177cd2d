/** The input side of package/simple-terminal/src/main.c: utf8decode, utf8encode, isfullutf8
    and the loop of ttyread. UTF-8 as in section 3 of RFC 3629. */
module TermUtf8 {

  type byte = x: int | 0 <= x < 0x100

  const UTF_SIZ := 4
  const REPLACEMENT := 0xFFFD

  /** 10xxxxxx */
  predicate IsCont(c: byte) { 0x80 <= c < 0xC0 }

  /** How many continuation bytes the first byte announces; 4 if it announces nothing valid. */
  function Announced(c: byte): nat {
    if c < 0x80 then 0
    else if 0xC0 <= c < 0xE0 then 1
    else if 0xE0 <= c < 0xF0 then 2
    else if 0xF0 <= c < 0xF8 then 3
    else 4
  }

  /** The payload bits of a first byte that announces n continuation bytes. */
  function FirstBits(c: byte, n: nat): nat {
    if n == 0 then c else if n == 1 then c % 0x20 else if n == 2 then c % 0x10 else c % 0x08
  }

  /** The decoded value and the number of bytes used. */
  datatype Decoded = Decoded(used: nat, u: nat)

  predicate TooShort(n: nat, u: nat) {
    (n == 1 && u < 0x80) || (n == 2 && u < 0x800) || (n == 3 && u < 0x1_0000) || 0xD800 <= u <= 0xDFFF
  }

  /** The continuation loop of utf8decode: i bytes still to come, rtn used so far. */
  function DecodeRest(s: seq<byte>, n: nat, i: nat, rtn: nat, u: nat): (d: Decoded)
    requires n == 0 ==> i == 0
    ensures rtn <= d.used <= rtn + i
    decreases i
  {
    if i == 0 then Decoded(rtn, if TooShort(n, u) then REPLACEMENT else u)
    else if rtn >= |s| || !IsCont(s[rtn]) then Decoded(rtn, REPLACEMENT)
    else DecodeRest(s, n, i - 1, rtn + 1, u * 0x40 + s[rtn] % 0x40)
  }

  /** utf8decode */
  function Decode(s: seq<byte>): (d: Decoded)
    requires s != []
    ensures 1 <= d.used <= UTF_SIZ
  {
    var n := Announced(s[0]);
    if n == 0 then Decoded(1, s[0])
    else if n == 4 then Decoded(1, REPLACEMENT)
    else DecodeRest(s, n, n, 1, FirstBits(s[0], n))
  }

  /** utf8encode */
  function Encode(u: nat): (s: seq<byte>)
    ensures 1 <= |s| <= UTF_SIZ
  {
    if u < 0x80 then [u]
    else if u < 0x800 then [0xC0 + u / 0x40, 0x80 + u % 0x40]
    else if u < 0x1_0000 then [0xE0 + u / 0x1000, 0x80 + u / 0x40 % 0x40, 0x80 + u % 0x40]
    else if u <= 0x10_FFFF then
      [0xF0 + u / 0x4_0000, 0x80 + u / 0x1000 % 0x40, 0x80 + u / 0x40 % 0x40, 0x80 + u % 0x40]
    else [0xEF, 0xBF, 0xBD]
  }

  /** isfullutf8 on fewer than UTF_SIZ bytes: false while the sequence may still go on. */
  predicate IsFull(s: seq<byte>) {
    if s == [] then false
    else
      var n := Announced(s[0]);
      !(n == 1 && |s| == 1)
      && !(n == 2 && (|s| == 1 || (|s| == 2 && IsCont(s[1]))))
      && !(n == 3 && (|s| == 1 || (|s| == 2 && IsCont(s[1])) || (|s| == 3 && IsCont(s[1]) && IsCont(s[2]))))
  }

  /** The loop condition of ttyread. */
  predicate Ready(s: seq<byte>) { |s| >= UTF_SIZ || IsFull(s) }

  predicate IsScalar(u: nat) { u < 0xD800 || 0xE000 <= u <= 0x10_FFFF }

  /** The bytes of one scalar value in its shortest form: what RFC 3629 calls well-formed. */
  ghost predicate WellFormed(s: seq<byte>) {
    exists u: nat :: IsScalar(u) && s == Encode(u)
  }

  /** One continuation byte carries six more bits. */
  lemma OneMore(s: seq<byte>, n: nat, i: nat, rtn: nat, q: nat)
    requires n > 0 && i > 0 && rtn < |s| && s[rtn] == 0x80 + q % 0x40
    ensures DecodeRest(s, n, i, rtn, q / 0x40) == DecodeRest(s, n, i - 1, rtn + 1, q)
  {
    assert q / 0x40 * 0x40 + s[rtn] % 0x40 == q;
  }

  lemma TwoBytes(u: nat, s: seq<byte>)
    requires 0x80 <= u < 0x800 && |s| >= 2 && s[0] == 0xC0 + u / 0x40 && s[1] == 0x80 + u % 0x40
    ensures Decode(s) == Decoded(2, u)
  {
    hide DecodeRest;
    OneMore(s, 1, 1, 1, u);
    LastByte(s, 1, 2, u);
  }

  lemma ThreeBytes(u: nat, s: seq<byte>)
    requires 0x800 <= u < 0x1_0000 && IsScalar(u) && |s| >= 3
    requires s[0] == 0xE0 + u / 0x1000 && s[1] == 0x80 + u / 0x40 % 0x40 && s[2] == 0x80 + u % 0x40
    ensures Decode(s) == Decoded(3, u)
  {
    hide DecodeRest;
    OneMore(s, 2, 2, 1, u / 0x40);
    OneMore(s, 2, 1, 2, u);
    LastByte(s, 2, 3, u);
  }

  lemma FourBytes(u: nat, s: seq<byte>)
    requires 0x1_0000 <= u <= 0x10_FFFF && |s| >= 4
    requires s[0] == 0xF0 + u / 0x4_0000 && s[1] == 0x80 + u / 0x1000 % 0x40
    requires s[2] == 0x80 + u / 0x40 % 0x40 && s[3] == 0x80 + u % 0x40
    ensures Decode(s) == Decoded(4, u)
  {
    hide DecodeRest;
    OneMore(s, 3, 3, 1, u / 0x1000);
    OneMore(s, 3, 2, 2, u / 0x40);
    OneMore(s, 3, 1, 3, u);
    LastByte(s, 3, 4, u);
  }

  lemma LastByte(s: seq<byte>, n: nat, rtn: nat, u: nat)
    requires !TooShort(n, u)
    ensures DecodeRest(s, n, 0, rtn, u) == Decoded(rtn, u)
  {
  }

  /** Decoding inverts encoding on every scalar value, whatever follows it. */
  lemma DecodeEncode(u: nat, tail: seq<byte>)
    requires IsScalar(u)
    ensures Decode(Encode(u) + tail) == Decoded(|Encode(u)|, u)
  {
    hide DecodeRest;
    var e := Encode(u);
    var s := e + tail;
    assert forall k :: 0 <= k < |e| ==> s[k] == e[k];
    if u < 0x80 {
    } else if u < 0x800 {
      TwoBytes(u, s);
    } else if u < 0x1_0000 {
      ThreeBytes(u, s);
    } else {
      FourBytes(u, s);
    }
  }

  lemma Split(q: nat, c: byte)
    requires IsCont(c)
    ensures var u := q * 0x40 + c % 0x40; u / 0x40 == q && 0x80 + u % 0x40 == c
  {
  }

  /** The value before the last i continuation bytes, and these bytes. */
  lemma {:induction false} RestBytes(s: seq<byte>, n: nat, i: nat, rtn: nat, q: nat)
    requires n > 0 && DecodeRest(s, n, i, rtn, q).u != REPLACEMENT && i <= 3
    ensures var d := DecodeRest(s, n, i, rtn, q);
            && d.used == rtn + i && !TooShort(n, d.u) && (i > 0 ==> rtn + i <= |s|)
            && (i > 0 ==> s[rtn + i - 1] == 0x80 + d.u % 0x40)
            && (i > 1 ==> s[rtn + i - 2] == 0x80 + d.u / 0x40 % 0x40)
            && (i > 2 ==> s[rtn + i - 3] == 0x80 + d.u / 0x1000 % 0x40)
            && q == if i == 0 then d.u else if i == 1 then d.u / 0x40 else if i == 2 then d.u / 0x1000 else d.u / 0x4_0000
    decreases i
  {
    if i > 0 {
      Split(q, s[rtn]);
      RestBytes(s, n, i - 1, rtn + 1, q * 0x40 + s[rtn] % 0x40);
    }
  }

  /** What decodes to a scalar value other than the replacement character is its encoding: no
      longer form and no broken sequence is accepted. */
  lemma OnlyShortestForm(s: seq<byte>)
    requires s != [] && Decode(s).u != REPLACEMENT && Decode(s).u <= 0x10_FFFF
    ensures Decode(s).used <= |s| && s[..Decode(s).used] == Encode(Decode(s).u)
  {
    hide DecodeRest; hide Encode; hide TooShort;
    var n := Announced(s[0]);
    if n < 4 {
      if n > 0 { RestBytes(s, n, n, 1, FirstBits(s[0], n)); }
      FirstByte(s[0], n, Decode(s).u);
    }
  }

  /** The form of an encoding, from its first byte. */
  lemma FirstByte(c: byte, n: nat, u: nat)
    requires n == Announced(c) < 4 && (n > 0 ==> !TooShort(n, u)) && u <= 0x10_FFFF
    requires FirstBits(c, n) == if n == 0 then u else if n == 1 then u / 0x40 else if n == 2 then u / 0x1000 else u / 0x4_0000
    ensures Encode(u) == if n == 0 then [c]
                         else if n == 1 then [c, 0x80 + u % 0x40]
                         else if n == 2 then [c, 0x80 + u / 0x40 % 0x40, 0x80 + u % 0x40]
                         else [c, 0x80 + u / 0x1000 % 0x40, 0x80 + u / 0x40 % 0x40, 0x80 + u % 0x40]
  {
  }

  /** Whatever is decoded, what ttyread passes on is well-formed. */
  lemma EncodedWellFormed(u: nat)
    requires IsScalar(u) || u > 0x10_FFFF
    ensures WellFormed(Encode(u))
  {
    if u > 0x10_FFFF {
      assert Encode(u) == Encode(REPLACEMENT);
    }
  }

  lemma {:induction false} RestScalar(s: seq<byte>, n: nat, i: nat, rtn: nat, u: nat)
    requires n == 0 ==> i == 0
    ensures var d := DecodeRest(s, n, i, rtn, u); IsScalar(d.u) || d.u > 0x10_FFFF
    decreases i
  {
    if i > 0 && rtn < |s| && IsCont(s[rtn]) {
      RestScalar(s, n, i - 1, rtn + 1, u * 0x40 + s[rtn] % 0x40);
    }
  }

  /** A decoded value is a scalar value or too large for one, never a surrogate. */
  lemma DecodedScalar(s: seq<byte>)
    requires s != []
    ensures IsScalar(Decode(s).u) || Decode(s).u > 0x10_FFFF
  {
    var n := Announced(s[0]);
    if 0 < n < 4 { RestScalar(s, n, n, 1, FirstBits(s[0], n)); }
  }

  /** Bytes that stay: decoding looks at no more than it has, once it is allowed to start. */
  lemma {:induction false} RestStable(s: seq<byte>, t: seq<byte>, n: nat, i: nat, rtn: nat, u: nat)
    requires n > 0 && rtn + i <= |s|
    ensures DecodeRest(s + t, n, i, rtn, u) == DecodeRest(s, n, i, rtn, u)
    decreases i
  {
    if i > 0 {
      assert (s + t)[rtn] == s[rtn];
      if IsCont(s[rtn]) { RestStable(s, t, n, i - 1, rtn + 1, u * 0x40 + s[rtn] % 0x40); }
    }
  }

  /** A sequence that is ready stays ready when more bytes arrive, and decodes to the same; it
      uses only bytes that are there. */
  lemma ReadyStable(s: seq<byte>, t: seq<byte>)
    requires Ready(s)
    ensures Ready(s + t) && Decode(s + t) == Decode(s) && Decode(s).used <= |s|
  {
    var n := Announced(s[0]);
    assert (s + t)[0] == s[0];
    if 0 < n < 4 {
      if n < |s| {
        RestStable(s, t, n, n, 1, FirstBits(s[0], n));
      } else {
        BrokenStable(s, t, n);
      }
    }
  }

  lemma {:induction false} RestBroken(s: seq<byte>, t: seq<byte>, n: nat, i: nat, rtn: nat, u: nat, k: nat)
    requires n > 0 && rtn <= k < |s| && k < rtn + i && !IsCont(s[k])
    ensures DecodeRest(s + t, n, i, rtn, u) == DecodeRest(s, n, i, rtn, u)
    ensures DecodeRest(s, n, i, rtn, u).used <= k
    decreases i
  {
    assert (s + t)[rtn] == s[rtn];
    if IsCont(s[rtn]) { RestBroken(s, t, n, i - 1, rtn + 1, u * 0x40 + s[rtn] % 0x40, k); }
  }

  /** Fewer bytes than announced, but one of them already breaks the sequence. */
  lemma BrokenStable(s: seq<byte>, t: seq<byte>, n: nat)
    requires IsFull(s) && |s| < UTF_SIZ && n == Announced(s[0]) && 0 < n < 4 && |s| <= n
    ensures Ready(s + t) && Decode(s + t) == Decode(s) && Decode(s).used < |s|
  {
    assert forall k :: 0 <= k < |s| ==> (s + t)[k] == s[k];
    assert |s| >= 2;
    var k := if IsCont(s[1]) then 2 else 1;
    RestBroken(s, t, n, n, 1, FirstBits(s[0], n), k);
  }

  /** A sequence that breaks off after k of its bytes, because the next is missing or does not
      continue it, gives one U+FFFD, and the byte that breaks it is not used up. */
  lemma BrokenUsed(s: seq<byte>, k: nat)
    requires 1 <= k <= |s| && k <= Announced(s[0]) < 4 && (k < |s| ==> !IsCont(s[k]))
    requires forall j :: 1 <= j < k ==> IsCont(s[j])
    ensures Decode(s) == Decoded(k, REPLACEMENT)
  {
    var n := Announced(s[0]);
    RestBreaks(s, n, n, 1, FirstBits(s[0], n), k);
  }

  lemma {:induction false} RestBreaks(s: seq<byte>, n: nat, i: nat, rtn: nat, u: nat, k: nat)
    requires n > 0 && rtn <= k <= |s| && k < rtn + i && (k < |s| ==> !IsCont(s[k]))
    requires forall j :: rtn <= j < k ==> IsCont(s[j])
    ensures DecodeRest(s, n, i, rtn, u) == Decoded(k, REPLACEMENT)
    decreases i
  {
    if rtn < k { RestBreaks(s, n, i - 1, rtn + 1, u * 0x40 + s[rtn] % 0x40, k); }
  }

  /** A byte that can begin no sequence gives one U+FFFD by itself. */
  lemma StrayUsed(s: seq<byte>)
    requires s != [] && (IsCont(s[0]) || s[0] >= 0xF8)
    ensures Decode(s) == Decoded(1, REPLACEMENT)
  {
  }

  lemma {:induction false} RestUsed(s: seq<byte>, n: nat, i: nat, rtn: nat, u: nat)
    requires n > 0 && rtn + i <= |s| && forall j :: rtn <= j < rtn + i ==> IsCont(s[j])
    ensures DecodeRest(s, n, i, rtn, u).used == rtn + i
    decreases i
  {
    if i > 0 { RestUsed(s, n, i - 1, rtn + 1, u * 0x40 + s[rtn] % 0x40); }
  }

  /** ttyread waits exactly as long as bytes that may still come could belong to the sequence. */
  lemma ReadyExact(s: seq<byte>)
    requires s != []
    ensures Ready(s) <==> forall t: seq<byte> :: Decode(s + t).used <= |s|
  {
    hide Decode;
    if Ready(s) {
      forall t: seq<byte> ensures Decode(s + t).used <= |s| { ReadyStable(s, t); }
    } else {
      var t := seq(4 - |s|, _ => 0x80 as byte);
      Unfinished(s, t);
      assert Decode(s + t).used > |s|;
    }
  }

  lemma Unfinished(s: seq<byte>, t: seq<byte>)
    requires s != [] && !Ready(s) && |s + t| == 4 && forall j :: 0 <= j < |t| ==> IsCont(t[j])
    ensures Decode(s + t).used > |s|
  {
    var n := Announced(s[0]);
    RestUsed(s + t, n, n, 1, FirstBits(s[0], n));
  }

  /** The character that ttyread passes on for a decoded value: utf8encode writes U+FFFD for
      one that is too large. */
  function Passed(u: nat): nat { if u > 0x10_FFFF then REPLACEMENT else u }

  lemma PassedEncoding(u: nat)
    ensures Encode(Passed(u)) == Encode(u)
  {
    if u > 0x10_FFFF { assert Encode(REPLACEMENT) == [0xEF, 0xBF, 0xBD]; }
  }

  /** What a stream of bytes comes to: the characters passed on and the bytes kept for later. */
  datatype Read = Read(values: seq<nat>, left: seq<byte>)

  /** The loop of ttyread on a buffer. */
  function Drain(s: seq<byte>): (r: Read)
    ensures |r.left| < UTF_SIZ && !Ready(r.left)
    decreases |s|
  {
    if !Ready(s) then Read([], s)
    else
      var d := Decode(s);
      ReadyStable(s, []);
      var r := Drain(s[d.used..]);
      Read([Passed(d.u)] + r.values, r.left)
  }

  /** A stream cut anywhere is read the same: first the one part, then what was left of it
      with the other. */
  lemma {:induction false} DrainSplit(s: seq<byte>, t: seq<byte>)
    ensures var a := Drain(s);
            var b := Drain(a.left + t);
            Drain(s + t) == Read(a.values + b.values, b.left)
    decreases |s|
  {
    hide Decode;
    hide Ready;
    var a := Drain(s);
    if Ready(s) {
      ReadyStable(s, t);
      ReadyStable(s, []);
      var d := Decode(s);
      assert (s + t)[d.used..] == s[d.used..] + t;
      DrainSplit(s[d.used..], t);
      var rest := Drain(s[d.used..]);
      var b := Drain(a.left + t);
      var c := Passed(d.u);
      assert [c] + (rest.values + b.values) == [c] + rest.values + b.values;
    } else {
      assert [] + Drain(s + t).values == Drain(s + t).values;
    }
  }

  /** Whatever comes in, only scalar values are passed on. */
  lemma {:induction false} DrainScalar(s: seq<byte>)
    ensures forall i :: 0 <= i < |Drain(s).values| ==> IsScalar(Drain(s).values[i])
    decreases |s|
  {
    hide Decode;
    hide Ready;
    if Ready(s) {
      ReadyStable(s, []);
      DecodedScalar(s);
      DrainScalar(s[Decode(s).used..]);
    }
  }

  /** All the bytes of a list of chunks, in order. */
  function Joined(chunks: seq<seq<byte>>): seq<byte> {
    if chunks == [] then [] else Joined(chunks[..|chunks| - 1]) + chunks[|chunks| - 1]
  }

  /** The buffer of ttyread between calls, and what was passed to tputc: the bytes of each
      character, and the characters themselves. */
  class Tty {
    var buf: seq<byte>
    var passed: seq<seq<byte>>
    var values: seq<nat>

    /** The bytes are the encodings of the characters. */
    predicate Encoded()
      reads this
    {
      |passed| == |values| && forall i :: 0 <= i < |values| ==> passed[i] == Encode(values[i])
    }

    constructor ()
      ensures buf == [] && values == [] && Encoded()
    {
      buf, passed, values := [], [], [];
    }

    /** utf8encode and tputc of one decoded value. */
    method PassOn(u: nat)
      requires Encoded()
      modifies this
      ensures buf == old(buf) && values == old(values) + [Passed(u)] && passed == old(passed) + [Encode(u)]
      ensures Encoded()
    {
      hide Encode;
      PassedEncoding(u);
      values := values + [Passed(u)];
      passed := passed + [Encode(u)];
    }

    /** One call of ttyread that reads a chunk: what utf8decode found is encoded again for
        tputc. */
    method TtyRead(chunk: seq<byte>)
      requires Encoded()
      modifies this
      ensures buf == Drain(old(buf) + chunk).left
      ensures values == old(values) + Drain(old(buf) + chunk).values
      ensures Encoded() && old(passed) <= passed
    {
      hide Decode;
      hide Ready;
      hide Encode;
      var p := buf + chunk;
      ghost var all, before := Drain(p), values;
      ghost var out: seq<nat> := [];
      while Ready(p)
        invariant all == Read(out + Drain(p).values, Drain(p).left)
        invariant values == before + out && Encoded() && old(passed) <= passed
        decreases |p|
      {
        ReadyStable(p, []);
        var d := Decode(p);
        ghost var c := Passed(d.u);
        assert Drain(p).values == [c] + Drain(p[d.used..]).values;
        assert out + ([c] + Drain(p[d.used..]).values) == out + [c] + Drain(p[d.used..]).values;
        out := out + [c];
        PassOn(d.u);
        p := p[d.used..];
      }
      buf := p;
    }
  }

  /** However a stream is cut into reads, the characters passed on and the bytes left over are those
      of the whole stream read at once. */
  method ReadChunks(chunks: seq<seq<byte>>) returns (tty: Tty)
    ensures fresh(tty) && tty.values == Drain(Joined(chunks)).values && tty.buf == Drain(Joined(chunks)).left
    ensures tty.Encoded()
  {
    hide Drain;
    tty := new Tty();
    var i := 0;
    DrainEmpty();
    while i < |chunks|
      invariant 0 <= i <= |chunks| && fresh(tty) && tty.Encoded()
      invariant tty.values == Drain(Joined(chunks[..i])).values && tty.buf == Drain(Joined(chunks[..i])).left
    {
      assert chunks[..i + 1][..i] == chunks[..i];
      DrainSplit(Joined(chunks[..i]), chunks[i]);
      tty.TtyRead(chunks[i]);
      i := i + 1;
    }
    assert chunks[..i] == chunks;
  }

  lemma DrainEmpty()
    ensures Drain([]) == Read([], [])
  {
  }
}
