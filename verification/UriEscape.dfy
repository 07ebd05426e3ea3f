/** Escaping of URIs and its undoing. */
module UriEscape {
  import opened Common

  const PERCENT: byte := 0x25

  datatype Kind = Uri | Args | UriComponent | Html | Refresh | Memcached | MailAuth

  /** The word of a kind's table that has the bits for 32 characters. */
  function Word(kind: Kind, k: nat): bv32 {
    if kind == Memcached || kind == MailAuth then
      if k == 0 then 0xffff_ffff else if k == 1 then 0x0000_0021 else 0
    else if k == 1 then
      match kind
      case Uri => 0x8000_0029
      case Args => 0x8800_0869
      case UriComponent => 0xfc00_9fff
      case Html => 0x0000_00ad
      case _ => 0x0000_0085
    else if k == 2 then (if kind == UriComponent then 0x7800_0001 else 0)
    else if k == 3 then (if kind == UriComponent then 0xb800_0001 else 0x8000_0000)
    else 0xffff_ffff
  }

  /** A character is escaped if its bit is set. */
  predicate Special(kind: Kind, c: byte) {
    Word(kind, c / 32) & ((1 as bv32) << (c % 32)) != 0
  }

  function Hex(n: nat): byte
    requires n < 16
  {
    if n < 10 then 0x30 + n else 0x41 + n - 10
  }

  function EscapedChar(kind: Kind, c: byte): seq<byte> {
    if Special(kind, c) then [PERCENT, Hex(c / 16), Hex(c % 16)] else [c]
  }

  /** What a function gives for the characters of a text, one after the other. */
  function Each(f: byte -> seq<byte>, s: seq<byte>): seq<byte> {
    if s == [] then [] else Each(f, s[..|s| - 1]) + f(s[|s| - 1])
  }

  function Writer(kind: Kind): byte -> seq<byte> {
    (c: byte) => EscapedChar(kind, c)
  }

  function Escaped(kind: Kind, s: seq<byte>): seq<byte> {
    Each(Writer(kind), s)
  }

  /** How many characters are to be escaped. */
  function Count(kind: Kind, s: seq<byte>): nat {
    if s == [] then 0 else Count(kind, s[..|s| - 1]) + if Special(kind, s[|s| - 1]) then 1 else 0
  }

  method CountEscapes(kind: Kind, s: seq<byte>) returns (n: nat)
    ensures n == Count(kind, s)
  {
    n := 0;
    var i := 0;
    while i < |s|
      invariant i <= |s| && n == Count(kind, s[..i])
    {
      assert s[..i + 1][..i] == s[..i];
      if Special(kind, s[i]) {
        n := n + 1;
      }
      i := i + 1;
    }
    assert s[..i] == s;
  }

  method Escape(kind: Kind, s: seq<byte>) returns (dst: seq<byte>)
    ensures dst == Escaped(kind, s)
  {
    dst := [];
    var i := 0;
    while i < |s|
      invariant i <= |s| && dst == Escaped(kind, s[..i])
    {
      assert s[..i + 1][..i] == s[..i];
      if Special(kind, s[i]) {
        dst := dst + [PERCENT, Hex(s[i] / 16), Hex(s[i] % 16)];
      } else {
        dst := dst + [s[i]];
      }
      i := i + 1;
    }
    assert s[..i] == s;
  }

  /** The counting pass says how much longer the text gets. */
  lemma {:induction false} Growth(kind: Kind, s: seq<byte>)
    ensures |Escaped(kind, s)| == |s| + 2 * Count(kind, s)
  {
    if s != [] {
      Growth(kind, s[..|s| - 1]);
    }
  }

  // ---- Unescaping ----

  datatype Mode = Usual | Quoted | Second

  /** What has been written, the state, the digit seen, and whether reading is over. */
  datatype Reader = Reader(out: seq<byte>, mode: Mode, decoded: nat, done: bool)

  /** The value of a hexadecimal digit, or -1; `c | 0x20` makes a letter small. */
  function DigitValue(c: byte): int {
    if 0x30 <= c <= 0x39 then c - 0x30
    else if 0x41 <= c <= 0x46 then c - 0x41 + 10
    else if 0x61 <= c <= 0x66 then c - 0x61 + 10
    else -1
  }

  /** A character that was written as two digits, the last one `c`; `uri` and `redirect` are the flags. */
  function Finish(r: Reader, first: byte, c: byte, uri: bool, redirect: bool): Reader {
    var v := (r.decoded * 16 + DigitValue(c)) % 256;
    var letter := !(0x30 <= c <= 0x39);
    if redirect && !(letter && uri) then
      if letter && v == 0x3f then Reader(r.out + [v], Usual, 0, true)
      else if PERCENT < v < 0x7f then Reader(r.out + [v], Usual, 0, false)
      else Reader(r.out + [PERCENT, first, c], Usual, 0, false)
    else if letter && uri && v == 0x3f then Reader(r.out + [v], Usual, 0, true)
    else Reader(r.out + [v], Usual, 0, false)
  }

  /** The effect of one character; `first` is the one before it. */
  function Read(r: Reader, first: byte, c: byte, uri: bool, redirect: bool): Reader {
    match r.mode
    case Usual =>
      if c == 0x3f && (uri || redirect) then Reader(r.out + [c], Usual, r.decoded, true)
      else if c == PERCENT then r.(mode := Quoted)
      else r.(out := r.out + [c])
    case Quoted =>
      if DigitValue(c) >= 0 then r.(decoded := DigitValue(c), mode := Second)
      else Reader(r.out + [c], Usual, r.decoded, false)
    case Second =>
      if DigitValue(c) >= 0 then Finish(r, first, c, uri, redirect)
      else r.(mode := Usual)
  }

  function ReadAll(r: Reader, before: byte, s: seq<byte>, uri: bool, redirect: bool): Reader
    decreases |s|
  {
    if s == [] || r.done then r else ReadAll(Read(r, before, s[0], uri, redirect), s[0], s[1..], uri, redirect)
  }

  const START := Reader([], Usual, 0, false)

  /** The text that is written, and how many characters are read. */
  method Unescape(s: seq<byte>, uri: bool, redirect: bool) returns (dst: seq<byte>, n: nat)
    ensures dst == ReadAll(START, 0, s, uri, redirect).out
    ensures n <= |s| && (n < |s| ==> ReadAll(START, 0, s[..n], uri, redirect).done)
    ensures n > 0 ==> !ReadAll(START, 0, s[..n - 1], uri, redirect).done
  {
    var r, before := START, 0;
    n := 0;
    assert s[0..] == s;
    while n < |s| && !r.done
      invariant n <= |s| && ReadAll(r, before, s[n..], uri, redirect) == ReadAll(START, 0, s, uri, redirect)
      invariant n > 0 ==> !ReadAll(START, 0, s[..n - 1], uri, redirect).done
      invariant r == ReadAll(START, 0, s[..n], uri, redirect) && before == (if n == 0 then 0 else s[n - 1])
    {
      assert s[n..][1..] == s[n + 1..];
      ReadMore(START, 0, s, n, uri, redirect);
      r, before := Read(r, before, s[n], uri, redirect), s[n];
      n := n + 1;
    }
    dst := r.out;
  }

  lemma {:induction false} ReadMore(r: Reader, before: byte, s: seq<byte>, n: nat, uri: bool, redirect: bool)
    requires n < |s| && !ReadAll(r, before, s[..n], uri, redirect).done
    ensures ReadAll(r, before, s[..n + 1], uri, redirect) ==
      Read(ReadAll(r, before, s[..n], uri, redirect), if n == 0 then before else s[n - 1], s[n], uri, redirect)
    decreases n
  {
    if n == 0 {
      assert s[..1][1..] == [];
    } else {
      var r' := Read(r, before, s[0], uri, redirect);
      assert s[..n][1..] == s[1..][..n - 1];
      assert s[..n + 1][1..] == s[1..][..n];
      if !r.done {
        ReadMore(r', s[0], s[1..], n - 1, uri, redirect);
      }
    }
  }

  // ---- Unescaping undoes escaping ----

  lemma HexValue(n: nat)
    requires n < 16
    ensures DigitValue(Hex(n)) == n
  {
  }

  lemma ByteValue(c: byte)
    ensures (c / 16 * 16 + c % 16) % 256 == c
  {
  }

  /** A character written with digits is read as the character. */
  lemma ReadEscaped(out: seq<byte>, d: nat, before: byte, c: byte, rest: seq<byte>)
    ensures ReadAll(Reader(out, Usual, d, false), before, [PERCENT, Hex(c / 16), Hex(c % 16)] + rest, false, false) ==
      ReadAll(Reader(out + [c], Usual, 0, false), Hex(c % 16), rest, false, false)
  {
    var h, l := Hex(c / 16), Hex(c % 16);
    HexValue(c / 16);
    HexValue(c % 16);
    ByteValue(c);
    var t := [PERCENT, h, l] + rest;
    assert t[1..] == [h, l] + rest;
    assert ([h, l] + rest)[1..] == [l] + rest;
    assert ([l] + rest)[1..] == rest;
    var r0, r1, r2 := Reader(out, Usual, d, false), Reader(out, Quoted, d, false), Reader(out, Second, c / 16, false);
    assert ReadAll(r0, before, t, false, false) == ReadAll(r1, PERCENT, [h, l] + rest, false, false);
    assert ReadAll(r1, PERCENT, [h, l] + rest, false, false) == ReadAll(r2, h, [l] + rest, false, false);
    assert Read(r2, h, l, false, false) == Reader(out + [c], Usual, 0, false);
  }

  lemma ReadPlain(out: seq<byte>, d: nat, before: byte, c: byte, rest: seq<byte>)
    requires c != PERCENT
    ensures ReadAll(Reader(out, Usual, d, false), before, [c] + rest, false, false) ==
      ReadAll(Reader(out + [c], Usual, d, false), c, rest, false, false)
  {
    assert ([c] + rest)[1..] == rest;
  }

  lemma EscapedOne(kind: Kind, c: byte)
    ensures Escaped(kind, [c]) == EscapedChar(kind, c)
  {
    assert [c][..0] == [];
    assert Each(Writer(kind), [c]) == Each(Writer(kind), []) + EscapedChar(kind, c);
  }

  lemma Regroup(x: seq<byte>, y: seq<byte>, z: seq<byte>)
    ensures (x + y) + z == x + (y + z)
  {
  }

  lemma EachLast(f: byte -> seq<byte>, s: seq<byte>, c: byte)
    ensures Each(f, s + [c]) == Each(f, s) + f(c)
  {
    assert (s + [c])[..|s|] == s;
  }

  lemma {:induction false} EachConcat(f: byte -> seq<byte>, a: seq<byte>, b: seq<byte>)
    ensures Each(f, a + b) == Each(f, a) + Each(f, b)
    decreases |b|
  {
    if b == [] {
      assert a + b == a;
    } else {
      var front, c := b[..|b| - 1], b[|b| - 1];
      EachConcat(f, a, front);
      assert a + b == (a + front) + [c];
      EachLast(f, a + front, c);
      Regroup(Each(f, a), Each(f, front), f(c));
    }
  }

  lemma EscapedFront(kind: Kind, s: seq<byte>)
    requires s != []
    ensures Escaped(kind, s) == EscapedChar(kind, s[0]) + Escaped(kind, s[1..])
  {
    assert s == [s[0]] + s[1..];
    EachConcat(Writer(kind), [s[0]], s[1..]);
    EscapedOne(kind, s[0]);
  }

  lemma {:induction false} ReadBack(kind: Kind, s: seq<byte>, out: seq<byte>, d: nat, before: byte)
    requires Special(kind, PERCENT) || PERCENT !in s
    ensures var r := ReadAll(Reader(out, Usual, d, false), before, Escaped(kind, s), false, false);
            r.out == out + s && !r.done && r.mode == Usual
    decreases |s|
  {
    if s != [] {
      var c, rest := s[0], Escaped(kind, s[1..]);
      EscapedFront(kind, s);
      assert out + s == (out + [c]) + s[1..];
      if Special(kind, c) {
        ReadEscaped(out, d, before, c, rest);
        ReadBack(kind, s[1..], out + [c], 0, Hex(c % 16));
      } else {
        ReadPlain(out, d, before, c, rest);
        ReadBack(kind, s[1..], out + [c], d, c);
      }
    }
  }

  /** All kinds but one escape the percent sign. */
  lemma PercentSpecial(kind: Kind)
    ensures Special(kind, PERCENT) <==> kind != Refresh
  {
  }

  /** Unescaping without flags gives back the text. */
  predicate Survives(kind: Kind, s: seq<byte>) {
    ReadAll(START, 0, Escaped(kind, s), false, false).out == s
  }

  lemma RoundTrip(kind: Kind, s: seq<byte>)
    requires kind != Refresh || PERCENT !in s
    ensures Survives(kind, s)
  {
    PercentSpecial(kind);
    ReadBack(kind, s, [], 0, 0);
    assert [] + s == s;
  }
}
