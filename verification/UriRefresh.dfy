/** The one kind of escaping that leaves percent signs as they are, and why no text with a
    percent sign is given back by unescaping then. */
module UriRefresh {
  import opened Common
  import opened UriEscape
  import UriSets

  function Rest(r: Reader, before: byte, t: seq<byte>): seq<byte> {
    ReadAll(r, before, t, false, false).out
  }

  function Plain(out: seq<byte>, d: nat): Reader {
    Reader(out, Usual, d, false)
  }

  /** What has been written stays. */
  lemma {:induction false} Grows(r: Reader, before: byte, t: seq<byte>)
    ensures r.out <= Rest(r, before, t)
    decreases |t|
  {
    if t != [] && !r.done {
      Grows(Read(r, before, t[0], false, false), t[0], t[1..]);
    }
  }

  /** A text whose beginning is wrong is wrong. */
  lemma {:induction false} WrongStart(r: Reader, before: byte, t: seq<byte>, s: seq<byte>)
    requires !(r.out <= s)
    ensures Rest(r, before, t) != s
  {
    Grows(r, before, t);
  }

  lemma {:induction false} ReadOne(r: Reader, before: byte, c: byte, t: seq<byte>)
    requires !r.done
    ensures Rest(r, before, [c] + t) == Rest(Read(r, before, c, false, false), c, t)
  {
    assert ([c] + t)[1..] == t;
  }

  // ---- The characters that are escaped ----

  /** Control characters, the space, both quotation marks, and all that is not ASCII. */
  lemma Escapes(c: byte)
    ensures Special(Refresh, c) <==> c < 0x21 || c == 0x22 || c == 0x27 || c >= 0x7f
  {
    UriSets.EscapeSet(Refresh, c);
  }

  // ---- Reading what was written for the text from the j-th character on ----

  function From(s: seq<byte>, j: nat): seq<byte>
    requires j <= |s|
  {
    Escaped(Refresh, s[j..])
  }

  lemma FromFront(s: seq<byte>, j: nat)
    requires j < |s|
    ensures From(s, j) == EscapedChar(Refresh, s[j]) + From(s, j + 1)
  {
    EscapedFront(Refresh, s[j..]);
    assert s[j..][1..] == s[j + 1..];
  }

  /** The two digits of a character are not escaped themselves. */
  lemma Digits(c: byte)
    ensures var x, y := Hex(c / 16), Hex(c % 16);
            !Special(Refresh, x) && !Special(Refresh, y) && x != PERCENT && y != PERCENT
    ensures DigitValue(c) >= 0 ==> !Special(Refresh, c)
  {
    Escapes(Hex(c / 16));
    Escapes(Hex(c % 16));
    Escapes(c);
  }

  lemma {:induction false} TwoPlain(out: seq<byte>, d: nat, before: byte, x: byte, y: byte, t: seq<byte>)
    requires x != PERCENT && y != PERCENT
    ensures Rest(Plain(out, d), before, [x, y] + t) == Rest(Plain(out + [x, y], d), y, t)
  {
    assert [x, y] + t == [x] + ([y] + t);
    ReadOne(Plain(out, d), before, x, [y] + t);
    ReadOne(Plain(out + [x], d), x, y, t);
    assert out + [x] + [y] == out + [x, y];
  }

  lemma {:induction false} StepPlain(s: seq<byte>, j: nat, out: seq<byte>, d: nat, before: byte) returns (d': nat, b: byte)
    requires j < |s| && s[j] != PERCENT
    ensures Rest(Plain(out, d), before, From(s, j)) == Rest(Plain(out + [s[j]], d'), b, From(s, j + 1))
  {
    var c := s[j];
    FromFront(s, j);
    if Special(Refresh, c) {
      ReadEscaped(out, d, before, c, From(s, j + 1));
      return 0, Hex(c % 16);
    } else {
      ReadOne(Plain(out, d), before, c, From(s, j + 1));
      return d, c;
    }
  }

  lemma {:induction false} StepPercent(s: seq<byte>, j: nat, out: seq<byte>, d: nat, before: byte)
    requires j < |s| && s[j] == PERCENT
    ensures Rest(Plain(out, d), before, From(s, j)) == Rest(Reader(out, Quoted, d, false), PERCENT, From(s, j + 1))
  {
    FromFront(s, j);
    PercentSpecial(Refresh);
    ReadOne(Plain(out, d), before, PERCENT, From(s, j + 1));
  }

  lemma {:induction false} QuotedEscape(out: seq<byte>, d: nat, before: byte, x: byte, y: byte, t: seq<byte>)
    requires x != PERCENT && y != PERCENT
    ensures Rest(Reader(out, Quoted, d, false), before, [PERCENT, x, y] + t) == Rest(Plain(out + [PERCENT, x, y], d), y, t)
  {
    assert [PERCENT, x, y] + t == [PERCENT] + ([x, y] + t);
    ReadOne(Reader(out, Quoted, d, false), before, PERCENT, [x, y] + t);
    TwoPlain(out + [PERCENT], d, PERCENT, x, y, t);
    assert out + [PERCENT] + [x, y] == out + [PERCENT, x, y];
  }

  /** After a percent sign: an escaped character is written out with its escape, one that is no digit is
      written, a digit waits for the second one. */
  lemma {:induction false} StepQuoted(s: seq<byte>, j: nat, out: seq<byte>, d: nat, before: byte, q: seq<byte>)
    requires j < |s| && q == Rest(Reader(out, Quoted, d, false), before, From(s, j))
    ensures Special(Refresh, s[j]) ==>
              q == Rest(Plain(out + [PERCENT, Hex(s[j] / 16), Hex(s[j] % 16)], d), Hex(s[j] % 16), From(s, j + 1))
    ensures !Special(Refresh, s[j]) && DigitValue(s[j]) < 0 ==> q == Rest(Plain(out + [s[j]], d), s[j], From(s, j + 1))
    ensures DigitValue(s[j]) >= 0 ==> q == Rest(Reader(out, Second, DigitValue(s[j]), false), s[j], From(s, j + 1))
  {
    var c, t := s[j], From(s, j + 1);
    FromFront(s, j);
    Digits(c);
    if Special(Refresh, c) {
      QuotedEscape(out, d, before, Hex(c / 16), Hex(c % 16), t);
    } else {
      ReadOne(Reader(out, Quoted, d, false), before, c, t);
    }
  }

  lemma {:induction false} SecondEscape(out: seq<byte>, d: nat, before: byte, x: byte, y: byte, t: seq<byte>)
    requires x != PERCENT && y != PERCENT
    ensures Rest(Reader(out, Second, d, false), before, [PERCENT, x, y] + t) == Rest(Plain(out + [x, y], d), y, t)
  {
    assert [PERCENT, x, y] + t == [PERCENT] + ([x, y] + t);
    ReadOne(Reader(out, Second, d, false), before, PERCENT, [x, y] + t);
    TwoPlain(out, d, PERCENT, x, y, t);
  }

  lemma {:induction false} SecondChar(out: seq<byte>, d: nat, before: byte, c: byte, t: seq<byte>)
      returns (more: seq<byte>, d': nat)
    ensures |more| <= 1 && Rest(Reader(out, Second, d, false), before, [c] + t) == Rest(Plain(out + more, d'), c, t)
  {
    ReadOne(Reader(out, Second, d, false), before, c, t);
    if DigitValue(c) >= 0 {
      return [(d * 16 + DigitValue(c)) % 256], 0;
    }
    assert out + [] == out;
    return [], d;
  }

  /** After a percent sign and a digit: an escaped character leaves its digits, another digit makes a
      character, and anything else is dropped. */
  lemma {:induction false} StepSecond(s: seq<byte>, j: nat, out: seq<byte>, d: nat, before: byte)
      returns (more: seq<byte>, d': nat, b: byte)
    requires j < |s|
    ensures |more| <= 2
    ensures Rest(Reader(out, Second, d, false), before, From(s, j)) == Rest(Plain(out + more, d'), b, From(s, j + 1))
  {
    var c, t := s[j], From(s, j + 1);
    FromFront(s, j);
    if Special(Refresh, c) {
      Digits(c);
      SecondEscape(out, d, before, Hex(c / 16), Hex(c % 16), t);
      return [Hex(c / 16), Hex(c % 16)], d, Hex(c % 16);
    }
    more, d' := SecondChar(out, d, before, c, t);
    b := c;
  }

  // ---- The text is not given back ----

  /** The end of the text after a percent sign. */
  lemma {:induction false} AtEnd(s: seq<byte>, r: Reader, before: byte)
    requires |r.out| < |s|
    ensures Rest(r, before, From(s, |s|)) != s
  {
    assert s[|s|..] == [];
    assert From(s, |s|) == [];
  }

  /** An escaped character after a percent sign in a text of which less than three characters are missing. */
  lemma {:induction false} NoCatchUp(s: seq<byte>, j: nat, out: seq<byte>, more: seq<byte>)
    requires j + 1 < |s| && s[j] == PERCENT && Special(Refresh, s[j + 1]) && |out| <= j <= |out| + 2
    requires |more| == 3 && more[1] != PERCENT && more[2] != PERCENT && more[1] != s[j + 1]
    ensures !(out + more <= s)
  {
    assert (out + more)[|out| + 1] == more[1] && (out + more)[|out| + 2] == more[2];
  }

  /** With characters missing, or with a percent sign to come at `k`, the text is not given back.  Characters
      go missing at every percent sign but for one before an escaped character, which writes one more than
      it reads; and that does not make up for the last ones that are missing. */
  lemma {:induction false} Differs(s: seq<byte>, j: nat, k: nat, out: seq<byte>, d: nat, before: byte)
    requires j <= |s| && |out| <= j && (|out| == j ==> j <= k < |s| && s[k] == PERCENT)
    ensures Rest(Plain(out, d), before, From(s, j)) != s
    decreases |s| - j, 1
  {
    if j == |s| {
      AtEnd(s, Plain(out, d), before);
    } else if s[j] != PERCENT {
      var d', b := StepPlain(s, j, out, d, before);
      Differs(s, j + 1, k, out + [s[j]], d', b);
    } else {
      StepPercent(s, j, out, d, before);
      if j + 1 == |s| {
        AtEnd(s, Reader(out, Quoted, d, false), PERCENT);
      } else {
        DiffersQuoted(s, j + 1, out, d);
      }
    }
  }

  lemma {:induction false} DiffersQuoted(s: seq<byte>, j: nat, out: seq<byte>, d: nat)
    requires 0 < j < |s| && s[j - 1] == PERCENT && |out| < j
    ensures Rest(Reader(out, Quoted, d, false), PERCENT, From(s, j)) != s
    decreases |s| - j, 2
  {
    var c := s[j];
    StepQuoted(s, j, out, d, PERCENT, Rest(Reader(out, Quoted, d, false), PERCENT, From(s, j)));
    if Special(Refresh, c) {
      DiffersEscape(s, j, out, [PERCENT, Hex(c / 16), Hex(c % 16)], d);
    } else if DigitValue(c) < 0 {
      Differs(s, j + 1, 0, out + [c], d, c);
    } else {
      DiffersSecond(s, j + 1, out, DigitValue(c), c);
    }
  }

  lemma {:induction false} DiffersEscape(s: seq<byte>, j: nat, out: seq<byte>, more: seq<byte>, d: nat)
    requires 0 < j < |s| && s[j - 1] == PERCENT && |out| < j && Special(Refresh, s[j])
    requires more == [PERCENT, Hex(s[j] / 16), Hex(s[j] % 16)]
    ensures Rest(Plain(out + more, d), Hex(s[j] % 16), From(s, j + 1)) != s
    decreases |s| - j, 1
  {
    if j <= |out| + 3 {
      Digits(s[j]);
      NoCatchUp(s, j - 1, out, more);
      WrongStart(Plain(out + more, d), Hex(s[j] % 16), From(s, j + 1), s);
    } else {
      Differs(s, j + 1, 0, out + more, d, Hex(s[j] % 16));
    }
  }

  lemma {:induction false} DiffersSecond(s: seq<byte>, j: nat, out: seq<byte>, d: nat, before: byte)
    requires j <= |s| && |out| + 1 < j
    ensures Rest(Reader(out, Second, d, false), before, From(s, j)) != s
    decreases |s| - j, 2
  {
    if j == |s| {
      AtEnd(s, Reader(out, Second, d, false), before);
    } else {
      var more, d', b := StepSecond(s, j, out, d, before);
      Differs(s, j + 1, 0, out + more, d', b);
    }
  }

  /** Unescaping without flags gives back a text exactly if the kind is another one, or the text has no
      percent sign. */
  lemma {:induction false} SurvivesIff(kind: Kind, s: seq<byte>)
    ensures Survives(kind, s) <==> kind != Refresh || PERCENT !in s
  {
    if kind != Refresh || PERCENT !in s {
      RoundTrip(kind, s);
    } else {
      var k :| 0 <= k < |s| && s[k] == PERCENT;
      assert s[0..] == s;
      Differs(s, 0, k, [], 0, 0);
    }
  }

  /** A kind is safe for all texts exactly if it is not this one. */
  lemma {:induction false} SafeKinds(kind: Kind)
    ensures (forall s :: Survives(kind, s)) <==> kind != Refresh
  {
    SurvivesIff(kind, [PERCENT]);
    forall s | kind != Refresh
      ensures Survives(kind, s)
    {
      SurvivesIff(kind, s);
    }
  }
}
