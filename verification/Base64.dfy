/** Base64 with the two alphabets of sections 4 and 5 of RFC 4648. */
module Base64 {
  import opened Common

  datatype Result = Ok(bytes: seq<byte>) | Error

  const BAD := 77

  /** The character for six bits. */
  function Letter(n: nat, url: bool): char
    requires n < 64
  {
    if n < 26 then 'A' + n as char
    else if n < 52 then 'a' + (n - 26) as char
    else if n < 62 then '0' + (n - 52) as char
    else if n == 62 then (if url then '-' else '+')
    else (if url then '_' else '/')
  }

  /** The six bits of a character, or BAD. */
  function Value(c: char, url: bool): nat {
    if 'A' <= c <= 'Z' then c as int - 'A' as int
    else if 'a' <= c <= 'z' then c as int - 'a' as int + 26
    else if '0' <= c <= '9' then c as int - '0' as int + 52
    else if c == (if url then '-' else '+') then 62
    else if c == (if url then '_' else '/') then 63
    else BAD
  }

  lemma LetterValue(n: nat, url: bool)
    requires n < 64
    ensures Value(Letter(n, url), url) == n && Letter(n, url) != '='
  {
  }

  const CAPITALS := "ABCDEFGHIJKLMNOPQRSTUVWXYZ"
  const SMALL := "abcdefghijklmnopqrstuvwxyz"
  const NUMERALS := "0123456789"

  /** Table 1 of RFC 4648, and table 2. */
  function Table(url: bool): string {
    CAPITALS + SMALL + NUMERALS + if url then "-_" else "+/"
  }

  /** The letters are those of the table, and all other characters are refused. */
  lemma Alphabet(n: nat, c: char, url: bool)
    requires n < 64
    ensures |Table(url)| == 64 && Letter(n, url) == Table(url)[n]
    ensures Value(c, url) == BAD || (Value(c, url) < 64 && Table(url)[Value(c, url)] == c)
    ensures c in Table(url) ==> Value(c, url) != BAD
  {
    LetterIs(n, url);
    if Value(c, url) < 64 {
      LetterIs(Value(c, url), url);
    }
    if c in Table(url) {
      var k :| 0 <= k < 64 && Table(url)[k] == c;
      LetterIs(k, url);
      LetterValue(k, url);
    }
  }

  lemma LetterIs(n: nat, url: bool)
    requires n < 64
    ensures |Table(url)| == 64 && Letter(n, url) == Table(url)[n]
  {
    if n < 26 {
      assert CAPITALS[n] == 'A' + n as char;
    } else if n < 52 {
      assert SMALL[n - 26] == 'a' + (n - 26) as char;
    } else if n < 62 {
      assert NUMERALS[n - 52] == '0' + (n - 52) as char;
    }
  }

  // ---- Groups of bytes ----

  function First(a: byte): nat { a / 4 }

  function Second(a: byte, b: byte): nat { a % 4 * 16 + b / 16 }

  function Third(b: byte, c: byte): nat { b % 16 * 4 + c / 64 }

  function Fourth(c: byte): nat { c % 64 }

  function Group(a: byte, b: byte, c: byte, url: bool): string {
    [Letter(First(a), url), Letter(Second(a, b), url), Letter(Third(b, c), url), Letter(Fourth(c), url)]
  }

  function Encoded(s: seq<byte>, url: bool, padding: bool): string {
    if s == [] then []
    else if |s| == 1 then
      [Letter(First(s[0]), url), Letter(Second(s[0], 0), url)] + (if padding then "==" else "")
    else if |s| == 2 then
      [Letter(First(s[0]), url), Letter(Second(s[0], s[1]), url), Letter(Third(s[1], 0), url)] + (if padding then "=" else "")
    else Group(s[0], s[1], s[2], url) + Encoded(s[3..], url, padding)
  }

  method Encode(src: seq<byte>, url: bool, padding: bool) returns (dst: string)
    ensures dst == Encoded(src, url, padding)
  {
    dst := [];
    var i := 0;
    while |src| - i > 2
      invariant 0 <= i <= |src| && dst + Encoded(src[i..], url, padding) == Encoded(src, url, padding)
    {
      EncodedStep(src, i, url, padding, dst);
      dst := dst + Group(src[i], src[i + 1], src[i + 2], url);
      i := i + 3;
    }
    var s := src[i..];
    if s != [] {
      var tail := [Letter(First(s[0]), url)];
      if |s| == 1 {
        tail := tail + [Letter(s[0] % 4 * 16, url)];
        if padding {
          tail := tail + ['='];
        }
      } else {
        tail := tail + [Letter(Second(s[0], s[1]), url), Letter(s[1] % 16 * 4, url)];
      }
      if padding {
        tail := tail + ['='];
      }
      assert tail == Encoded(s, url, padding);
      dst := dst + tail;
    }
  }

  lemma EncodedStep(src: seq<byte>, i: nat, url: bool, padding: bool, dst: string)
    requires i + 2 < |src|
    ensures dst + Encoded(src[i..], url, padding) ==
      (dst + Group(src[i], src[i + 1], src[i + 2], url)) + Encoded(src[i + 3..], url, padding)
  {
    assert src[i..][3..] == src[i + 3..];
  }

  // ---- Decoding ----

  /** Where the padding starts, or the end; a bad character before it is an error. */
  function Meaningful(t: string, i: nat, url: bool): (n: int)
    requires i <= |t|
    ensures n == -1 || i <= n <= |t|
    decreases |t| - i
  {
    if i == |t| || t[i] == '=' then i
    else if Value(t[i], url) == BAD then -1
    else Meaningful(t, i + 1, url)
  }

  function Byte1(a: nat, b: nat): byte { (a * 4 + b / 16) % 256 }

  function Byte2(b: nat, c: nat): byte { (b % 16 * 16 + c / 4) % 256 }

  function Byte3(c: nat, d: nat): byte { (c % 4 * 64 + d) % 256 }

  /** The bytes of good characters. */
  function Bytes(t: string, url: bool): seq<byte> {
    if |t| < 2 then []
    else
      var a, b := Value(t[0], url), Value(t[1], url);
      if |t| == 2 then [Byte1(a, b)]
      else
        var c := Value(t[2], url);
        if |t| == 3 then [Byte1(a, b), Byte2(b, c)]
        else [Byte1(a, b), Byte2(b, c), Byte3(c, Value(t[3], url))] + Bytes(t[4..], url)
  }

  function Decoded(t: string, url: bool): Result {
    var n := Meaningful(t, 0, url);
    if n == -1 || n % 4 == 1 then Error else Ok(Bytes(t[..n], url))
  }

  method Decode(src: string, url: bool) returns (r: Result)
    ensures r == Decoded(src, url)
  {
    var len := 0;
    while len < |src| && src[len] != '='
      invariant len <= |src| && Meaningful(src, len, url) == Meaningful(src, 0, url)
    {
      if Value(src[len], url) == BAD {
        return Error;
      }
      len := len + 1;
    }
    if len % 4 == 1 {
      return Error;
    }
    var t, dst := src[..len], [];
    var i := 0;
    while |t| - i > 3
      invariant 0 <= i <= |t| && dst + Bytes(t[i..], url) == Bytes(t, url)
    {
      BytesStep(t, i, url, dst);
      var a, b, c, d := Value(t[i], url), Value(t[i + 1], url), Value(t[i + 2], url), Value(t[i + 3], url);
      dst := dst + [Byte1(a, b), Byte2(b, c), Byte3(c, d)];
      i := i + 4;
    }
    var s := t[i..];
    if |s| > 1 {
      dst := dst + [Byte1(Value(s[0], url), Value(s[1], url))];
    }
    if |s| > 2 {
      dst := dst + [Byte2(Value(s[1], url), Value(s[2], url))];
    }
    return Ok(dst);
  }

  lemma BytesStep(t: string, i: nat, url: bool, dst: seq<byte>)
    requires i + 3 < |t|
    ensures var a, b, c, d := Value(t[i], url), Value(t[i + 1], url), Value(t[i + 2], url), Value(t[i + 3], url);
            dst + Bytes(t[i..], url) == (dst + [Byte1(a, b), Byte2(b, c), Byte3(c, d)]) + Bytes(t[i + 4..], url)
  {
    assert t[i..][4..] == t[i + 4..];
  }

  // ---- Decoding undoes encoding ----

  lemma Parts16(hi: nat, lo: nat)
    requires lo < 16
    ensures (hi * 16 + lo) / 16 == hi && (hi * 16 + lo) % 16 == lo
  {
  }

  lemma Parts4(hi: nat, lo: nat)
    requires lo < 4
    ensures (hi * 4 + lo) / 4 == hi && (hi * 4 + lo) % 4 == lo
  {
  }

  lemma Restored1(a: byte, b: byte)
    ensures Byte1(First(a), Second(a, b)) == a
  {
    Parts16(a % 4, b / 16);
  }

  lemma Restored2(a: byte, b: byte, c: byte)
    ensures Byte2(Second(a, b), Third(b, c)) == b
  {
    Parts16(a % 4, b / 16);
    Parts4(b % 16, c / 64);
  }

  lemma Restored3(b: byte, c: byte)
    ensures Byte3(Third(b, c), Fourth(c)) == c
  {
    Parts4(b % 16, c / 64);
  }

  predicate Good(c: char, url: bool) {
    c != '=' && Value(c, url) != BAD
  }

  lemma GroupBytes(a: byte, b: byte, c: byte, url: bool, rest: string)
    ensures Bytes(Group(a, b, c, url) + rest, url) == [a, b, c] + Bytes(rest, url)
    ensures forall x | x in Group(a, b, c, url) :: Good(x, url)
  {
    Restored1(a, b);
    Restored2(a, b, c);
    Restored3(b, c);
    LetterValue(First(a), url);
    LetterValue(Second(a, b), url);
    LetterValue(Third(b, c), url);
    LetterValue(Fourth(c), url);
    var t := Group(a, b, c, url) + rest;
    assert t[4..] == rest;
  }

  lemma OneBytes(a: byte, url: bool)
    ensures var t := [Letter(First(a), url), Letter(Second(a, 0), url)];
            Bytes(t, url) == [a] && forall x | x in t :: Good(x, url)
  {
    Restored1(a, 0);
    LetterValue(First(a), url);
    LetterValue(Second(a, 0), url);
  }

  lemma TwoBytes(a: byte, b: byte, url: bool)
    ensures var t := [Letter(First(a), url), Letter(Second(a, b), url), Letter(Third(b, 0), url)];
            Bytes(t, url) == [a, b] && forall x | x in t :: Good(x, url)
  {
    Restored1(a, b);
    Restored2(a, b, 0);
    LetterValue(First(a), url);
    LetterValue(Second(a, b), url);
    LetterValue(Third(b, 0), url);
  }

  /** The good characters of an encoded text. */
  function Body(s: seq<byte>, url: bool): string {
    Encoded(s, url, false)
  }

  /** A text whose good characters are those of `s`. */
  ghost predicate Carries(t: string, s: seq<byte>, url: bool) {
    Bytes(t, url) == s && |t| % 4 != 1 && forall c | c in t :: Good(c, url)
  }

  lemma ShortBody(s: seq<byte>, url: bool)
    requires |s| < 3
    ensures Carries(Body(s, url), s, url)
  {
    if |s| == 1 {
      OneBytes(s[0], url);
      assert Body(s, url) == [Letter(First(s[0]), url), Letter(Second(s[0], 0), url)];
    } else if |s| == 2 {
      TwoBytes(s[0], s[1], url);
      assert Body(s, url) == [Letter(First(s[0]), url), Letter(Second(s[0], s[1]), url), Letter(Third(s[1], 0), url)];
    }
  }

  lemma GoodMore(g: string, rest: string, url: bool)
    requires |g| == 4 && (forall x | x in g :: Good(x, url)) && forall x | x in rest :: Good(x, url)
    ensures forall x | x in g + rest :: Good(x, url)
  {
  }

  lemma FourMore(g: string, rest: string)
    requires |g| == 4 && |rest| % 4 != 1
    ensures |g + rest| % 4 != 1
  {
  }

  lemma {:induction false} BodyBytes(s: seq<byte>, url: bool)
    ensures Carries(Body(s, url), s, url)
  {
    if |s| < 3 {
      ShortBody(s, url);
    } else {
      BodyBytes(s[3..], url);
      GroupBytes(s[0], s[1], s[2], url, Body(s[3..], url));
      GoodMore(Group(s[0], s[1], s[2], url), Body(s[3..], url), url);
      FourMore(Group(s[0], s[1], s[2], url), Body(s[3..], url));
      assert s == [s[0], s[1], s[2]] + s[3..];
    }
  }

  lemma {:induction false} PaddedIs(s: seq<byte>, url: bool)
    ensures var b, e := Body(s, url), Encoded(s, url, true); b <= e && forall i | |b| <= i < |e| :: e[i] == '='
  {
    if |s| > 2 {
      PaddedIs(s[3..], url);
      var g, b, e := Group(s[0], s[1], s[2], url), Body(s[3..], url), Encoded(s[3..], url, true);
      assert forall i | |b| <= i < |e| :: (g + e)[i + 4] == e[i];
      assert forall i | |b| + 4 <= i < |e| + 4 :: (g + e)[i] == e[i - 4];
    }
  }

  lemma {:induction false} MeaningfulIs(t: string, i: nat, n: nat, url: bool)
    requires i <= n <= |t| && (forall k | i <= k < n :: Good(t[k], url)) && (n < |t| ==> t[n] == '=')
    ensures Meaningful(t, i, url) == n
    decreases n - i
  {
    if i < n {
      MeaningfulIs(t, i + 1, n, url);
    }
  }

  lemma RoundTrip(s: seq<byte>, url: bool, padding: bool)
    ensures Decoded(Encoded(s, url, padding), url) == Ok(s)
  {
    var b, e := Body(s, url), Encoded(s, url, padding);
    BodyBytes(s, url);
    PaddedIs(s, url);
    assert forall k | 0 <= k < |b| :: e[k] == b[k] && b[k] in b;
    MeaningfulIs(e, 0, |b|, url);
    assert e[..|b|] == b;
  }
}
