/** Exactly which texts are read as addresses, and as which ones. */
module InetTexts {
  import opened Common
  import opened Inet

  /** The parts of a text between separators. */
  function Split(s: string, sep: char): (ws: seq<string>)
    ensures ws != []
  {
    if s == [] then [[]]
    else
      var more := Split(s[1..], sep);
      if s[0] == sep then [[]] + more else [[s[0]] + more[0]] + more[1..]
  }

  // ---- IPv4 ----

  predicate AllDigits(w: string) {
    forall i | 0 <= i < |w| :: IsDigit(w[i])
  }

  /** The number that some digits behind those of `n` make. */
  function Extended(n: nat, w: string): nat
    requires AllDigits(w)
    decreases |w|
  {
    if w == [] then n else Extended(n * 10 + (w[0] as int - '0' as int), w[1..])
  }

  lemma {:induction false} ExtendedGrows(n: nat, w: string)
    requires AllDigits(w)
    ensures n <= Extended(n, w)
    decreases |w|
  {
    if w != [] {
      ExtendedGrows(n * 10 + (w[0] as int - '0' as int), w[1..]);
    }
  }

  predicate OctetOk(n: nat, w: string) {
    AllDigits(w) && Extended(n, w) <= 255
  }

  lemma OctetMore(n: nat, c: char, w: string)
    ensures OctetOk(n, [c] + w) <==> IsDigit(c) && OctetOk(n * 10 + (c as int - '0' as int), w)
    ensures OctetOk(n, [c] + w) ==> Extended(n, [c] + w) == Extended(n * 10 + (c as int - '0' as int), w)
  {
    var s := [c] + w;
    assert s[1..] == w && s[0] == c;
    assert AllDigits(s) <==> IsDigit(c) && AllDigits(w) by {
      assert forall i | 0 <= i < |w| :: s[i + 1] == w[i];
    }
  }

  /** Reading the parts; the first one goes on with `octet`. */
  function Parts(addr: nat, octet: nat, n: nat, ws: seq<string>): V4
    requires ws != []
    decreases |ws|
  {
    if !OctetOk(octet, ws[0]) then Bad
    else if |ws| == 1 then V4(addr, Extended(octet, ws[0]), n)
    else Parts((addr * 256 + Extended(octet, ws[0])) % WORD, 0, n + 1, ws[1..])
  }

  lemma {:induction false} ReadParts(s: string, addr: nat, octet: nat, n: nat)
    requires octet <= 255
    ensures V4All(V4(addr, octet, n), s) == Parts(addr, octet, n, Split(s, '.'))
    decreases |s|
  {
    if s != [] {
      var more := Split(s[1..], '.');
      if s[0] == '.' {
        assert ([[]] + more)[1..] == more;
        ReadParts(s[1..], (addr * 256 + octet) % WORD, 0, n + 1);
      } else {
        var ws := [[s[0]] + more[0]] + more[1..];
        OctetMore(octet, s[0], more[0]);
        assert ws[1..] == more[1..];
        if IsDigit(s[0]) {
          var o := octet * 10 + (s[0] as int - '0' as int);
          if o <= 255 {
            ReadParts(s[1..], addr, o, n);
          } else if AllDigits(more[0]) {
            ExtendedGrows(o, more[0]);
          }
        }
      }
    }
  }

  predicate FourOctets(ws: seq<string>) {
    |ws| == 4 && OctetOk(0, ws[0]) && OctetOk(0, ws[1]) && OctetOk(0, ws[2]) && OctetOk(0, ws[3])
  }

  function Octets(ws: seq<string>): nat
    requires FourOctets(ws)
  {
    ((Extended(0, ws[0]) * 256 + Extended(0, ws[1])) * 256 + Extended(0, ws[2])) * 256 + Extended(0, ws[3])
  }

  lemma {:induction false} PartsCount(addr: nat, n: nat, ws: seq<string>)
    requires ws != []
    ensures Parts(addr, 0, n, ws).V4? ==> Parts(addr, 0, n, ws).n == n + |ws| - 1
    decreases |ws|
  {
    if OctetOk(0, ws[0]) && |ws| > 1 {
      PartsCount((addr * 256 + Extended(0, ws[0])) % WORD, n + 1, ws[1..]);
    }
  }

  lemma PartsOfFour(ws: seq<string>)
    requires |ws| == 4
    ensures Parts(0, 0, 0, ws) == if !FourOctets(ws) then Bad else
      V4((Extended(0, ws[0]) * 256 + Extended(0, ws[1])) * 256 + Extended(0, ws[2]), Extended(0, ws[3]), 3)
  {
    var w1, w2, w3 := ws[1..], ws[2..], ws[3..];
    assert w1[1..] == w2 && w2[1..] == w3;
    if OctetOk(0, ws[0]) {
      var a := Extended(0, ws[0]);
      assert Parts(0, 0, 0, ws) == Parts(a, 0, 1, w1);
      if OctetOk(0, ws[1]) {
        var b := a * 256 + Extended(0, ws[1]);
        assert Parts(a, 0, 1, w1) == Parts(b, 0, 2, w2);
        if OctetOk(0, ws[2]) {
          assert Parts(b, 0, 2, w2) == Parts(b * 256 + Extended(0, ws[2]), 0, 3, w3);
        }
      }
    }
  }

  /** A text is an address exactly if its parts between dots are four, each of digits that make at most 255; a part
      may be empty, and may have zeros in front. */
  lemma InetIs(s: string)
    ensures var ws := Split(s, '.'); InetValue(s) == if FourOctets(ws) then Octets(ws) else ADDR_NONE
  {
    var ws := Split(s, '.');
    ReadParts(s, 0, 0, 0);
    PartsCount(0, 0, ws);
    if |ws| == 4 {
      PartsOfFour(ws);
    }
  }

  // ---- IPv6: one part ----

  predicate AllHex(w: string) {
    forall i | 0 <= i < |w| :: HexValue(w[i]) >= 0
  }

  function HexNumber(w: string): nat
    requires AllHex(w)
  {
    if w == [] then 0 else HexNumber(w[..|w| - 1]) * 16 + HexValue(w[|w| - 1])
  }

  predicate GroupOk(w: string) {
    1 <= |w| <= 4 && AllHex(w)
  }

  /** An IPv4 address whose first part has one to four characters, all of them hexadecimal digits. */
  predicate DottedOk(w: string) {
    '.' in w && GroupOk(Split(w, '.')[0]) && InetValue(w) != ADDR_NONE
  }

  function FourBytes(v: nat): seq<byte> {
    TwoBytes(v / 0x1_0000) + TwoBytes(v % 0x1_0000)
  }

  /** The bytes of the last part: a group, an IPv4 address or, if it is empty, zeros. */
  function LastBytes(w: string): (b: seq<byte>)
    ensures 2 <= |b| <= 4
  {
    if w == [] then [0, 0] else if GroupOk(w) then TwoBytes(HexNumber(w)) else FourBytes(InetValue(w))
  }

  /** What the last part may be; `gap` says that there was a "::" and `colon` that there was a colon. */
  predicate LastOk(w: string, gap: bool, colon: bool) {
    (w == [] && gap) || GroupOk(w) || (colon && DottedOk(w))
  }

  // ---- IPv6: part by part ----

  function LastPart(out: seq<byte>, zero: int, colon: bool, w: string): Option<seq<byte>> {
    if LastOk(w, zero != -1, colon) && |out| + |LastBytes(w)| <= 16 then Whole(out + LastBytes(w), zero) else None
  }

  function Fields(out: seq<byte>, zero: int, colon: bool, ws: seq<string>): Option<seq<byte>>
    requires ws != []
    decreases |ws|
  {
    if |ws| == 1 then LastPart(out, zero, colon, ws[0])
    else if ws[0] == [] then (if zero == -1 then Fields(out, |out|, true, ws[1..]) else None)
    else if GroupOk(ws[0]) && |out| < 14 then Fields(out + TwoBytes(HexNumber(ws[0])), zero, true, ws[1..])
    else None
  }

  lemma {:induction false} SplitFirst(a: string, b: string, sep: char)
    requires sep !in a
    ensures a <= Split(a + b, sep)[0] && (b != [] && b[0] == sep ==> Split(a + b, sep)[0] == a)
    decreases |a|
  {
    if a == [] {
      assert a + b == b;
    } else {
      assert (a + b)[1..] == a[1..] + b;
      SplitFirst(a[1..], b, sep);
      assert a == [a[0]] + a[1..];
    }
  }

  lemma {:induction false} BadChar(s: string, i: nat, st: V4)
    requires i < |s| && !IsDigit(s[i]) && s[i] != '.'
    ensures V4All(st, s).Bad?
    decreases |s|
  {
    if st.V4? && i > 0 {
      BadChar(s[1..], i - 1, V4Step(st, s[0]));
    }
  }

  lemma NotInet(s: string)
    requires ':' in s
    ensures InetValue(s) == ADDR_NONE
  {
    var i :| 0 <= i < |s| && s[i] == ':';
    BadChar(s, i, V4(0, 0, 0));
  }

  lemma {:induction false} SplitHas(s: string, sep: char)
    ensures |Split(s, sep)| > 1 <==> sep in s
    ensures |Split(s, sep)| == 1 ==> Split(s, sep)[0] == s
    decreases |s|
  {
    if s != [] {
      SplitHas(s[1..], sep);
      assert s == [s[0]] + s[1..];
    }
  }

  /** The state while a part is read, of which `w` has been seen. */
  function Within(out: seq<byte>, zero: int, colon: bool, w: string, s: string): V6
    requires AllHex(w)
  {
    V6(out, zero, if colon then Some(w + s) else None, |w|, HexNumber(w))
  }

  /** The parts of what is left, the first one with what has been seen of it. */
  function Left(w: string, s: string): (ws: seq<string>)
    ensures ws != []
  {
    var more := Split(s, ':');
    [w + more[0]] + more[1..]
  }

  lemma NotGroup(w: string, c: char, rest: string)
    requires HexValue(c) < 0 || |w| >= 4
    ensures !GroupOk(w + [c] + rest)
  {
    assert (w + [c] + rest)[|w|] == c;
  }

  lemma NotDotted(w: string, c: char, rest: string)
    requires '.' !in w && (if c == '.' then w == [] else HexValue(c) < 0 || |w| >= 4)
    ensures !DottedOk(w + [c] + rest)
  {
    if c == '.' {
      assert w + [c] + rest == [] + ([c] + rest);
      SplitFirst([], [c] + rest, '.');
    } else {
      SplitFirst(w + [c], rest, '.');
      var first := Split(w + [c] + rest, '.')[0];
      assert first[|w|] == c;
    }
  }

  lemma HexNoDot(w: string)
    requires AllHex(w)
    ensures '.' !in w && ':' !in w
  {
  }

  lemma LeftAfter(w: string, c: char, s: string)
    requires c != ':'
    ensures Left(w, [c] + s) == Left(w + [c], s)
    ensures Left(w, [c] + s)[0] == w + [c] + Split(s, ':')[0]
  {
    assert ([c] + s)[1..] == s;
    var more := Split(s, ':');
    assert w + ([c] + more[0]) == w + [c] + more[0];
  }

  /** A character that a part cannot have. */
  lemma PartFails(out: seq<byte>, zero: int, colon: bool, w: string, c: char, s: string)
    requires AllHex(w) && c != ':' && (if c == '.' then w == [] else HexValue(c) < 0 || |w| >= 4)
    ensures Fields(out, zero, colon, Left(w, [c] + s)) == None
    ensures Scan([c] + s, Within(out, zero, colon, w, [c] + s)) == None
  {
    var rest := Split(s, ':')[0];
    LeftAfter(w, c, s);
    HexNoDot(w);
    NotGroup(w, c, rest);
    NotDotted(w, c, rest);
  }

  /** A dot behind some digits. */
  lemma DotPart(out: seq<byte>, zero: int, colon: bool, w: string, s: string)
    requires AllHex(w) && 1 <= |w| <= 4 && |out| <= 14 && zero <= |out|
    ensures Scan(['.'] + s, Within(out, zero, colon, w, ['.'] + s)) == Fields(out, zero, colon, Left(w, ['.'] + s))
  {
    var part := Split(s, ':')[0];
    var f := w + ['.'] + part;
    LeftAfter(w, '.', s);
    NotGroup(w, '.', part);
    SplitHas(s, ':');
    HexNoDot(w);
    SplitFirst(w, ['.'] + part, '.');
    assert w + (['.'] + part) == f;
    assert '.' in f by {
      assert f[|w|] == '.';
    }
    var all := w + (['.'] + s);
    if ':' in s {
      assert all == w + ['.'] + s;
      assert ':' in all by {
        var i :| 0 <= i < |s| && s[i] == ':';
        assert all[|w| + 1 + i] == ':';
      }
      NotInet(all);
    } else {
      assert all == f;
      DotLast(out, zero, colon, w, f, ['.'] + s);
    }
  }

  lemma DotLast(out: seq<byte>, zero: int, colon: bool, w: string, f: string, s: string)
    requires AllHex(w) && 1 <= |w| <= 4 && |out| <= 14 && zero <= |out| && f == w + s
    requires !GroupOk(f) && f != [] && '.' in f && GroupOk(Split(f, '.')[0])
    ensures Dotted(Within(out, zero, colon, w, s)) == LastPart(out, zero, colon, f)
  {
    var v := InetValue(f);
    if colon && v != ADDR_NONE {
      assert out + FourBytes(v) == out + TwoBytes(v / 0x1_0000) + TwoBytes(v % 0x1_0000);
    }
  }

  lemma HexMore(w: string, c: char)
    requires AllHex(w) && HexValue(c) >= 0
    ensures AllHex(w + [c]) && HexNumber(w + [c]) == HexNumber(w) * 16 + HexValue(c)
  {
    assert (w + [c])[..|w|] == w;
  }

  lemma ReadEnd(out: seq<byte>, zero: int, colon: bool, w: string)
    requires AllHex(w) && |w| <= 4 && |out| <= 14 && -1 <= zero <= |out|
    ensures Scan([], Within(out, zero, colon, w, [])) == Fields(out, zero, colon, Left(w, []))
  {
    assert w + [] == w;
  }

  lemma ReadGroup(rest: string, out: seq<byte>, zero: int, colon: bool, w: string, s: string)
    requires AllHex(w) && 1 <= |w| <= 4 && |out| <= 14 && |out| % 2 == 0 && -1 <= zero <= |out| && s == [':'] + rest
    ensures Scan(s, Within(out, zero, colon, w, s)) ==
      if |out| < 14 then Scan(rest, Within(out + TwoBytes(HexNumber(w)), zero, true, [], rest)) else None
    ensures Fields(out, zero, colon, Left(w, s)) ==
      if |out| < 14 then Fields(out + TwoBytes(HexNumber(w)), zero, true, Left([], rest)) else None
  {
    ReadColon(rest, out, zero, colon, w);
    assert s[1..] == rest;
  }

  lemma ReadGap(rest: string, out: seq<byte>, zero: int, colon: bool, s: string)
    requires |out| <= 14 && -1 <= zero <= |out| && s == [':'] + rest
    ensures Scan(s, Within(out, zero, colon, [], s)) ==
      if zero == -1 then Scan(rest, Within(out, |out|, true, [], rest)) else None
    ensures Fields(out, zero, colon, Left([], s)) ==
      if zero == -1 then Fields(out, |out|, true, Left([], rest)) else None
  {
    ReadColon(rest, out, zero, colon, []);
    assert s[1..] == rest;
  }

  lemma ReadDigit(rest: string, out: seq<byte>, zero: int, colon: bool, w: string, c: char, s: string)
    requires AllHex(w) && |w| < 4 && HexValue(c) >= 0 && s == [c] + rest
    ensures AllHex(w + [c])
    ensures Scan(s, Within(out, zero, colon, w, s)) == Scan(rest, Within(out, zero, colon, w + [c], rest))
    ensures Left(w, s) == Left(w + [c], rest)
  {
    HexMore(w, c);
    LeftAfter(w, c, rest);
    assert s[1..] == rest;
    assert w + [c] + rest == w + s;
  }

  lemma {:induction false} ReadFields(s: string, out: seq<byte>, zero: int, colon: bool, w: string)
    requires AllHex(w) && |w| <= 4 && |out| <= 14 && |out| % 2 == 0 && -1 <= zero <= |out|
    ensures Scan(s, Within(out, zero, colon, w, s)) == Fields(out, zero, colon, Left(w, s))
    decreases |s|
  {
    if s == [] {
      ReadEnd(out, zero, colon, w);
    } else {
      var c, rest := s[0], s[1..];
      assert s == [c] + rest;
      if c == ':' {
        if w == [] {
          ReadGap(rest, out, zero, colon, s);
          if zero == -1 {
            ReadFields(rest, out, |out|, true, []);
          }
        } else {
          ReadGroup(rest, out, zero, colon, w, s);
          if |out| < 14 {
            ReadFields(rest, out + TwoBytes(HexNumber(w)), zero, true, []);
          }
        }
      } else if c == '.' && w != [] {
        DotPart(out, zero, colon, w, rest);
      } else if |w| >= 4 || HexValue(c) < 0 {
        PartFails(out, zero, colon, w, c, rest);
      } else {
        ReadDigit(rest, out, zero, colon, w, c, s);
        ReadFields(rest, out, zero, colon, w + [c]);
      }
    }
  }

  /** A colon ends a part. */
  lemma ReadColon(rest: string, out: seq<byte>, zero: int, colon: bool, w: string)
    requires AllHex(w) && |w| <= 4 && |out| <= 14 && -1 <= zero <= |out|
    ensures Left(w, [':'] + rest) == [w] + Left([], rest) && |Left(w, [':'] + rest)| > 1
    ensures Left(w, [':'] + rest)[0] == w && Left(w, [':'] + rest)[1..] == Left([], rest)
    ensures [] + rest == rest
  {
    assert ([':'] + rest)[1..] == rest;
    var more := Split(rest, ':');
    assert w + [] == w && [] + more[0] == more[0];
    assert [more[0]] + more[1..] == more;
  }

  // ---- IPv6: the whole text ----

  predicate AllGroups(ws: seq<string>) {
    forall i | 0 <= i < |ws| :: GroupOk(ws[i])
  }

  function Bytes(ws: seq<string>): (b: seq<byte>)
    requires AllGroups(ws)
    ensures |b| == 2 * |ws|
  {
    if ws == [] then [] else TwoBytes(HexNumber(ws[0])) + Bytes(ws[1..])
  }

  /** The place of the first empty part before the last one, or of the last one. */
  function FirstGap(ws: seq<string>): (g: nat)
    requires ws != []
    ensures g < |ws|
  {
    if |ws| == 1 || ws[0] == [] then 0 else 1 + FirstGap(ws[1..])
  }

  /** Without "::": seven groups and a last one, or six and an IPv4 address. */
  function WithoutGap(out: seq<byte>, colon: bool, ws: seq<string>): Option<seq<byte>>
    requires ws != []
  {
    var m := |ws| - 1;
    if AllGroups(ws[..m]) && LastOk(ws[m], false, colon || m > 0) && |out| + 2 * m + |LastBytes(ws[m])| == 16
    then Some(out + Bytes(ws[..m]) + LastBytes(ws[m])) else None
  }

  /** With "::": fewer, and zeros in its place. */
  function WithGap(before: seq<byte>, out: seq<byte>, ws: seq<string>): Option<seq<byte>>
    requires ws != []
  {
    var m := |ws| - 1;
    var n := |before| + |out| + 2 * m + |LastBytes(ws[m])|;
    if AllGroups(ws[..m]) && LastOk(ws[m], true, true) && n < 16
    then Some(before + Zeros(16 - n) + (out + Bytes(ws[..m]) + LastBytes(ws[m]))) else None
  }

  /** The address that a text with these parts stands for. */
  function Address(ws: seq<string>): Option<seq<byte>>
    requires ws != []
  {
    var g := FirstGap(ws);
    if g == |ws| - 1 then WithoutGap([], false, ws)
    else if AllGroups(ws[..g]) then WithGap(Bytes(ws[..g]), [], ws[g + 1..]) else None
  }

  lemma GroupsFront(ws: seq<string>, m: nat)
    requires 1 <= m <= |ws|
    ensures ws[..m][0] == ws[0] && ws[..m][1..] == ws[1..][..m - 1]
    ensures AllGroups(ws[..m]) <==> GroupOk(ws[0]) && AllGroups(ws[1..][..m - 1])
    ensures AllGroups(ws[..m]) ==> Bytes(ws[..m]) == TwoBytes(HexNumber(ws[0])) + Bytes(ws[1..][..m - 1])
  {
    var a, b := ws[..m], ws[1..][..m - 1];
    assert a[1..] == b;
    assert forall i | 0 <= i < |b| :: b[i] == a[i + 1];
  }

  lemma Longer(out: seq<byte>, a: seq<byte>, b: seq<byte>)
    ensures (out + a) + b == out + (a + b)
  {
  }

  lemma {:induction false} GapStep(before: seq<byte>, out: seq<byte>, ws: seq<string>, two: seq<byte>)
    requires |ws| > 1 && GroupOk(ws[0]) && two == TwoBytes(HexNumber(ws[0]))
    ensures WithGap(before, out + two, ws[1..]) == WithGap(before, out, ws)
  {
    var m := |ws| - 1;
    GroupsFront(ws, m);
    assert ws[1..][m - 1] == ws[m];
    if AllGroups(ws[..m]) {
      Longer(out, two, Bytes(ws[1..][..m - 1]));
    }
  }

  /** Behind the "::". */
  lemma {:induction false} AfterGap(before: seq<byte>, out: seq<byte>, all: seq<byte>, ws: seq<string>)
    requires ws != [] && all == before + out && |all| <= 14 && |all| % 2 == 0
    ensures Fields(all, |before|, true, ws) == WithGap(before, out, ws)
    decreases |ws|
  {
    var m := |ws| - 1;
    if m == 0 {
      GapEnds(before, out, ws[0]);
      assert ws[..0] == [] && out + [] == out;
    } else if GroupOk(ws[0]) {
      var two := TwoBytes(HexNumber(ws[0]));
      GapStep(before, out, ws, two);
      if |all| < 14 {
        Longer(before, out, two);
        AfterGap(before, out + two, all + two, ws[1..]);
      }
    } else {
      GroupsFront(ws, m);
    }
  }

  lemma GapEnds(before: seq<byte>, out: seq<byte>, w: string)
    requires |before| + |out| <= 14
    ensures LastPart(before + out, |before|, true, w) ==
      var n := |before| + |out| + |LastBytes(w)|;
      if LastOk(w, true, true) && n < 16 then Some(before + Zeros(16 - n) + (out + LastBytes(w))) else None
  {
    var all := before + out + LastBytes(w);
    assert all[..|before|] == before && all[|before|..] == out + LastBytes(w);
  }

  lemma {:induction false} NoGap(out: seq<byte>, colon: bool, ws: seq<string>)
    requires ws != [] && |out| <= 14 && |out| % 2 == 0 && FirstGap(ws) == |ws| - 1
    ensures Fields(out, -1, colon, ws) == WithoutGap(out, colon, ws)
    decreases |ws|
  {
    var m := |ws| - 1;
    if m == 0 {
      assert ws[..0] == [] && out + [] == out;
    } else {
      GroupsFront(ws, m);
      assert ws[1..][m - 1] == ws[m];
      if GroupOk(ws[0]) {
        var two := TwoBytes(HexNumber(ws[0]));
        if AllGroups(ws[..m]) {
          Longer(out, two, Bytes(ws[1..][..m - 1]));
        }
        if |out| < 14 {
          NoGap(out + two, true, ws[1..]);
        }
      }
    }
  }

  lemma {:induction false} UpToGap(out: seq<byte>, colon: bool, ws: seq<string>)
    requires ws != [] && |out| <= 14 && |out| % 2 == 0 && FirstGap(ws) < |ws| - 1
    ensures var g := FirstGap(ws);
            Fields(out, -1, colon, ws) ==
            if AllGroups(ws[..g]) && |out| + 2 * g <= 14
            then Fields(out + Bytes(ws[..g]), |out| + 2 * g, true, ws[g + 1..]) else None
    decreases |ws|
  {
    var g := FirstGap(ws);
    if g == 0 {
      assert ws[..0] == [] && out + [] == out;
    } else {
      GroupsFront(ws, g);
      if GroupOk(ws[0]) {
        var two := TwoBytes(HexNumber(ws[0]));
        if AllGroups(ws[..g]) {
          Longer(out, two, Bytes(ws[1..][..g - 1]));
        }
        if |out| < 14 {
          UpToGap(out + two, true, ws[1..]);
          assert ws[1..][g..] == ws[g + 1..];
        }
      }
    }
  }

  lemma FieldsIs(ws: seq<string>)
    requires ws != []
    ensures Fields([], -1, false, ws) == Address(ws)
  {
    var g := FirstGap(ws);
    if g == |ws| - 1 {
      NoGap([], false, ws);
    } else {
      UpToGap([], false, ws);
      if AllGroups(ws[..g]) {
        var b := Bytes(ws[..g]);
        assert [] + b == b && b + [] == b;
        if 2 * g <= 14 {
          AfterGap(b, [], b, ws[g + 1..]);
        }
      }
    }
  }

  /** A text, but for one colon in front that is skipped, is an address exactly if its parts between colons are:
      groups of one to four digits, at most one empty part before the last one, and a last part that is a group, an
      IPv4 address or, after an empty one, empty; with eight groups in all if no part before the last is empty, and
      with fewer otherwise. */
  lemma Inet6Is(text: string)
    requires text != []
    ensures Parsed(text) == Address(Split(if text[0] == ':' then text[1..] else text, ':'))
  {
    var s := if text[0] == ':' then text[1..] else text;
    ReadFields(s, [], -1, false, []);
    var ws := Split(s, ':');
    assert Left([], s) == ws by {
      assert [] + ws[0] == ws[0];
      assert [ws[0]] + ws[1..] == ws;
    }
    FieldsIs(ws);
  }

  /** "::" at the end counts as a group of its own: behind seven groups it is refused, though it stands for the
      eighth one. */
  lemma GapAtEnd(ws: seq<string>, all: seq<string>)
    requires AllGroups(ws) && all == ws + [[], []]
    ensures var b := Bytes(ws); Address(all) == if |b| < 14 then Some(b + Zeros(16 - |b|)) else None
  {
    GapBehind(ws, all);
    var rest := EndParts(ws, all);
    AddressGap(all, ws, rest);
    ZerosBehind(Bytes(ws), rest);
  }

  lemma EndParts(ws: seq<string>, all: seq<string>) returns (rest: seq<string>)
    requires all == ws + [[], []]
    ensures |all| == |ws| + 2 && all[..|ws|] == ws && all[|ws| + 1..] == rest && |rest| == 1 && rest[0] == []
  {
    rest := all[|ws| + 1..];
  }

  lemma AddressGap(all: seq<string>, ws: seq<string>, rest: seq<string>)
    requires all != [] && FirstGap(all) == |ws| < |all| - 1 && all[..|ws|] == ws && all[|ws| + 1..] == rest && AllGroups(ws)
    ensures Address(all) == WithGap(Bytes(ws), [], rest)
  {
  }

  lemma ZerosBehind(b: seq<byte>, ws: seq<string>)
    requires |ws| == 1 && ws[0] == []
    ensures WithGap(b, [], ws) == if |b| < 14 then Some(b + Zeros(16 - |b|)) else None
  {
    assert ws[..0] == [] && Bytes([]) == [];
    assert [] + [] + LastBytes([]) == [0, 0];
    if |b| < 14 {
      assert b + Zeros(14 - |b|) + [0, 0] == b + Zeros(16 - |b|);
    }
  }

  lemma {:induction false} GapBehind(ws: seq<string>, all: seq<string>)
    requires AllGroups(ws) && all == ws + [[], []]
    ensures FirstGap(all) == |ws|
    decreases |ws|
  {
    if ws != [] {
      assert all[0] == ws[0];
      GapBehind(ws[1..], all[1..]);
    }
  }

  lemma {:induction false} SplitAt(a: string, s: string)
    requires ':' !in a
    ensures Split(a + [':'] + s, ':') == [a] + Split(s, ':')
    decreases |a|
  {
    var t := a + [':'] + s;
    if a == [] {
      assert t[1..] == s;
    } else {
      assert t[1..] == a[1..] + [':'] + s;
      SplitAt(a[1..], s);
      assert [a[0]] + a[1..] == a;
    }
  }

  /** The groups with a colon behind each. */
  function Joined(ws: seq<string>): string {
    if ws == [] then [] else ws[0] + [':'] + Joined(ws[1..])
  }

  lemma {:induction false} SplitJoined(ws: seq<string>, s: string)
    requires AllGroups(ws)
    ensures Split(Joined(ws) + s, ':') == ws + Split(s, ':')
    decreases |ws|
  {
    if ws == [] {
      assert Joined(ws) + s == s && ws + Split(s, ':') == Split(s, ':');
    } else {
      HexNoDot(ws[0]);
      assert Joined(ws) + s == ws[0] + [':'] + (Joined(ws[1..]) + s);
      SplitAt(ws[0], Joined(ws[1..]) + s);
      SplitJoined(ws[1..], s);
      assert [ws[0]] + (ws[1..] + Split(s, ':')) == ws + Split(s, ':');
    }
  }

  /** Groups and "::" behind them are read if and only if there are fewer than seven: "1:2:3:4:5:6:7::" is refused,
      though it stands for an address. */
  lemma ReadGapAtEnd(ws: seq<string>)
    requires AllGroups(ws) && ws != []
    ensures Parsed(Joined(ws) + ":") == if |ws| < 7 then Some(Bytes(ws) + Zeros(16 - |Bytes(ws)|)) else None
  {
    var text := Joined(ws) + ":";
    HexNoDot(ws[0]);
    assert text[0] == ws[0][0];
    Inet6Is(text);
    SplitJoined(ws, ":");
    LoneColon();
    GapAtEnd(ws, ws + Split(":", ':'));
  }

  lemma LoneColon()
    ensures Split(":", ':') == [[], []]
  {
    assert ":"[1..] == [];
  }
}
