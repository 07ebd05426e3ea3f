/** What unescaping makes of any text, with each of its flags. */
module UriReading {
  import opened Common
  import opened UriEscape

  predicate IsHex(c: byte) {
    DigitValue(c) >= 0
  }

  /** How a text is taken apart: a character, an escape with two digits, a percent sign with no digit behind it,
      and one with a single digit. */
  datatype Token = Char(c: byte) | Code(h: byte, l: byte) | Bad(c: byte) | Half(h: byte, c: byte)

  predicate Proper(t: Token) {
    match t
    case Char(c) => c != PERCENT
    case Code(h, l) => IsHex(h) && IsHex(l)
    case Bad(c) => !IsHex(c)
    case Half(h, c) => IsHex(h) && !IsHex(c)
  }

  predicate AllProper(ts: seq<Token>) {
    forall i | 0 <= i < |ts| :: Proper(ts[i])
  }

  function TokenText(t: Token): seq<byte> {
    match t
    case Char(c) => [c]
    case Code(h, l) => [PERCENT, h, l]
    case Bad(c) => [PERCENT, c]
    case Half(h, c) => [PERCENT, h, c]
  }

  function Text(ts: seq<Token>): seq<byte> {
    if ts == [] then [] else TokenText(ts[0]) + Text(ts[1..])
  }

  /** An escape that the text ends in. */
  predicate Cut(tail: seq<byte>) {
    tail == [] || tail == [PERCENT] || (|tail| == 2 && tail[0] == PERCENT && IsHex(tail[1]))
  }

  function CodeValue(h: byte, l: byte): byte
    requires IsHex(h) && IsHex(l)
  {
    16 * DigitValue(h) + DigitValue(l)
  }

  /** What a token gives: a redirect keeps the escapes of characters that are not plain ASCII behind the percent
      sign, unless the flag for a URI is set as well and the second digit is a letter. */
  function Meaning(t: Token, uri: bool, redirect: bool): seq<byte>
    requires Proper(t)
  {
    match t
    case Char(c) => [c]
    case Code(h, l) =>
      var v := CodeValue(h, l);
      if redirect && !(uri && l > 0x39) && !(PERCENT < v < 0x7f) then TokenText(t) else [v]
    case Bad(c) => [c]
    case Half(_, _) => []
  }

  /** A question mark, escaped or not, ends the path of a URI. */
  predicate EndsPath(t: Token)
    requires Proper(t)
  {
    t == Char(0x3f) || (t.Code? && CodeValue(t.h, t.l) == 0x3f)
  }

  predicate Stops(t: Token, uri: bool, redirect: bool)
    requires Proper(t)
  {
    EndsPath(t) && (uri || redirect)
  }

  function Meanings(ts: seq<Token>, uri: bool, redirect: bool): seq<byte>
    requires AllProper(ts)
  {
    if ts == [] then []
    else Meaning(ts[0], uri, redirect) + if Stops(ts[0], uri, redirect) then [] else Meanings(ts[1..], uri, redirect)
  }

  // ---- The state machine ----

  function Usually(out: seq<byte>, d: nat): Reader {
    Reader(out, Usual, d, false)
  }

  lemma ReadOne(r: Reader, before: byte, c: byte, rest: seq<byte>, uri: bool, redirect: bool)
    requires !r.done
    ensures ReadAll(r, before, [c] + rest, uri, redirect) == ReadAll(Read(r, before, c, uri, redirect), c, rest, uri, redirect)
  {
    assert ([c] + rest)[1..] == rest;
  }

  lemma ReadDone(r: Reader, before: byte, s: seq<byte>, uri: bool, redirect: bool)
    requires r.done
    ensures ReadAll(r, before, s, uri, redirect) == r
  {
  }

  /** Behind a percent sign and a digit. */
  lemma ReadFirst(out: seq<byte>, d: nat, before: byte, h: byte, rest: seq<byte>, uri: bool, redirect: bool)
    requires IsHex(h)
    ensures ReadAll(Usually(out, d), before, [PERCENT, h] + rest, uri, redirect)
         == ReadAll(Reader(out, Second, DigitValue(h), false), h, rest, uri, redirect)
  {
    assert [PERCENT, h] + rest == [PERCENT] + ([h] + rest);
    ReadOne(Usually(out, d), before, PERCENT, [h] + rest, uri, redirect);
    ReadOne(Reader(out, Quoted, d, false), PERCENT, h, rest, uri, redirect);
  }

  lemma ReadSecond(out: seq<byte>, h: byte, l: byte, uri: bool, redirect: bool)
    requires IsHex(h) && IsHex(l)
    ensures var r := Read(Reader(out, Second, DigitValue(h), false), h, l, uri, redirect);
            r == Reader(out + Meaning(Code(h, l), uri, redirect), Usual, 0, Stops(Code(h, l), uri, redirect))
  {
    Below(h, l);
  }

  lemma Below(h: byte, l: byte)
    requires IsHex(h) && IsHex(l)
    ensures (DigitValue(h) * 16 + DigitValue(l)) % 256 == CodeValue(h, l)
    ensures CodeValue(h, l) == 0x3f ==> l > 0x39
    ensures l > 0x39 <==> !(0x30 <= l <= 0x39)
  {
  }

  lemma ReadToken(out: seq<byte>, d: nat, before: byte, t: Token, rest: seq<byte>, uri: bool, redirect: bool)
      returns (d': nat, last: byte)
    requires Proper(t)
    ensures ReadAll(Usually(out, d), before, TokenText(t) + rest, uri, redirect)
         == ReadAll(Reader(out + Meaning(t, uri, redirect), Usual, d', Stops(t, uri, redirect)), last, rest, uri, redirect)
  {
    match t
    case Char(c) =>
      ReadOne(Usually(out, d), before, c, rest, uri, redirect);
      d', last := d, c;
    case Code(h, l) =>
      assert TokenText(t) + rest == [PERCENT, h] + ([l] + rest);
      ReadFirst(out, d, before, h, [l] + rest, uri, redirect);
      ReadOne(Reader(out, Second, DigitValue(h), false), h, l, rest, uri, redirect);
      ReadSecond(out, h, l, uri, redirect);
      d', last := 0, l;
    case Bad(c) =>
      assert TokenText(t) + rest == [PERCENT] + ([c] + rest);
      ReadOne(Usually(out, d), before, PERCENT, [c] + rest, uri, redirect);
      ReadOne(Reader(out, Quoted, d, false), PERCENT, c, rest, uri, redirect);
      d', last := d, c;
    case Half(h, c) =>
      assert TokenText(t) + rest == [PERCENT, h] + ([c] + rest);
      ReadFirst(out, d, before, h, [c] + rest, uri, redirect);
      ReadOne(Reader(out, Second, DigitValue(h), false), h, c, rest, uri, redirect);
      assert out + [] == out;
      d', last := DigitValue(h), c;
  }

  lemma ReadCut(out: seq<byte>, d: nat, before: byte, tail: seq<byte>, uri: bool, redirect: bool)
    requires Cut(tail)
    ensures ReadAll(Usually(out, d), before, tail, uri, redirect).out == out
  {
    if tail == [PERCENT] {
      assert tail == [PERCENT] + [];
      ReadOne(Usually(out, d), before, PERCENT, [], uri, redirect);
    } else if tail != [] {
      assert tail == [PERCENT, tail[1]] + [];
      ReadFirst(out, d, before, tail[1], [], uri, redirect);
    }
  }

  lemma {:induction false} ReadFrom(out: seq<byte>, d: nat, before: byte, ts: seq<Token>, tail: seq<byte>, uri: bool, redirect: bool)
    requires AllProper(ts) && Cut(tail)
    ensures ReadAll(Usually(out, d), before, Text(ts) + tail, uri, redirect).out == out + Meanings(ts, uri, redirect)
    decreases |ts|
  {
    if ts == [] {
      assert Text(ts) + tail == tail;
      ReadCut(out, d, before, tail, uri, redirect);
      assert out + [] == out;
    } else {
      var t, rest := ts[0], Text(ts[1..]) + tail;
      assert Text(ts) + tail == TokenText(t) + rest;
      var d', last := ReadToken(out, d, before, t, rest, uri, redirect);
      var more := out + Meaning(t, uri, redirect);
      if Stops(t, uri, redirect) {
        ReadDone(Reader(more, Usual, d', true), last, rest, uri, redirect);
        assert Meanings(ts, uri, redirect) == Meaning(t, uri, redirect);
      } else {
        ReadFrom(more, d', last, ts[1..], tail, uri, redirect);
        Regroup(out, Meaning(t, uri, redirect), Meanings(ts[1..], uri, redirect));
      }
    }
  }

  /** Each token of a text gives what it stands for, up to the question mark if a flag is set. */
  lemma ReadText(ts: seq<Token>, tail: seq<byte>, uri: bool, redirect: bool)
    requires AllProper(ts) && Cut(tail)
    ensures ReadAll(START, 0, Text(ts) + tail, uri, redirect).out == Meanings(ts, uri, redirect)
  {
    ReadFrom([], 0, 0, ts, tail, uri, redirect);
    assert [] + Meanings(ts, uri, redirect) == Meanings(ts, uri, redirect);
  }

  /** Every text can be taken apart in this way. */
  lemma {:induction false} TakenApart(s: seq<byte>) returns (ts: seq<Token>, tail: seq<byte>)
    ensures AllProper(ts) && Cut(tail) && s == Text(ts) + tail
    decreases |s|
  {
    if Cut(s) {
      ts, tail := [], s;
    } else {
      var t := if s[0] != PERCENT then Char(s[0])
               else if !IsHex(s[1]) then Bad(s[1])
               else if IsHex(s[2]) then Code(s[1], s[2]) else Half(s[1], s[2]);
      var n := |TokenText(t)|;
      assert s == TokenText(t) + s[n..];
      var more;
      more, tail := TakenApart(s[n..]);
      ts := [t] + more;
      assert ts[1..] == more;
    }
  }
}
