/** A printed IPv6 address is read back, but for two addresses. */
module InetProofs {
  import opened Common
  import opened Inet
  import opened InetPrint

  // ---- Hexadecimal groups ----

  lemma {:induction false} HexDigitValue(n: nat)
    requires n < 16
    ensures HexValue(HexDigit(n)) == n && HexDigit(n) != ':' && HexDigit(n) != '.'
  {
  }

  lemma {:induction false} HexLength(n: nat)
    requires n < 0x1_0000
    ensures 1 <= |Hex(n)| <= 4 && (n < 0x1000 ==> |Hex(n)| <= 3) && (n < 0x100 ==> |Hex(n)| <= 2)
    ensures n < 0x10 ==> |Hex(n)| == 1
    decreases n
  {
    if n >= 16 {
      HexLength(n / 16);
    }
  }

  /** Reading one digit. */
  lemma {:induction false} DigitRead(d: nat, rest: string, st: V6, s: string)
    requires d < 16 && st.nibbles < 4 && s == [HexDigit(d)] + rest
    ensures Scan(s, st) == Scan(rest, st.(nibbles := st.nibbles + 1, word := st.word * 16 + d))
  {
    HexDigitValue(d);
    assert s[1..] == rest;
  }

  lemma {:induction false} HexRead(n: nat, rest: string, st: V6)
    requires n < 0x1_0000 && st.nibbles == 0 && st.word == 0
    ensures Scan(Hex(n) + rest, st) == Scan(rest, st.(nibbles := |Hex(n)|, word := n))
    decreases n
  {
    if n < 16 {
      DigitRead(n, rest, st, Hex(n) + rest);
    } else {
      var more := [HexDigit(n % 16)] + rest;
      assert Hex(n) + rest == Hex(n / 16) + more;
      HexRead(n / 16, more, st);
      HexLength(n / 16);
      DigitRead(n % 16, rest, st.(nibbles := |Hex(n / 16)|, word := n / 16), more);
    }
  }

  lemma {:induction false} GroupBytes(a: Address, k: nat)
    requires k < 8
    ensures Group(a, k) < 0x1_0000 && TwoBytes(Group(a, k)) == a[2 * k..2 * k + 2]
  {
  }

  /** Reading a group and its colon. */
  lemma {:induction false} ColonRead(n: nat, rest: string, st: V6)
    requires n < 0x1_0000 && st.nibbles == 0 && st.word == 0 && |st.out| + 2 < 16
    ensures Scan(Hex(n) + ":" + rest, st) == Scan(rest, V6(st.out + TwoBytes(n), st.zero, Some(rest), 0, 0))
  {
    assert Hex(n) + ":" + rest == Hex(n) + (":" + rest);
    HexRead(n, ":" + rest, st);
    HexLength(n);
    assert (":" + rest)[1..] == rest;
  }

  lemma {:induction false} Regroup(x: string, h: string, rest: string)
    ensures (x + h + ":") + rest == x + (h + ":" + rest)
  {
  }

  lemma {:induction false} BytesMore(a: Address, out: seq<byte>, i: nat, k: nat)
    requires i <= k < 8
    ensures (out + a[2 * i..2 * k]) + TwoBytes(Group(a, k)) == out + a[2 * i..2 * k + 2]
  {
    GroupBytes(a, k);
    assert a[2 * i..2 * k] + a[2 * k..2 * k + 2] == a[2 * i..2 * k + 2];
  }

  lemma {:induction false} OneMore(a: Address, i: nat, k: nat, rest: string, st: V6, h: string, more: string, mid: V6)
    requires i <= k < 8 && |st.out| + 2 * (k + 1 - i) < 16 && h == Hex(Group(a, k)) && more == h + ":" + rest
    requires mid.out == st.out + a[2 * i..2 * k] && mid.zero == st.zero && mid.nibbles == 0 && mid.word == 0
    ensures Scan(more, mid) == Scan(rest, V6(st.out + a[2 * i..2 * k + 2], st.zero, Some(rest), 0, 0))
  {
    GroupBytes(a, k);
    ColonRead(Group(a, k), rest, mid);
    BytesMore(a, st.out, i, k);
  }

  lemma {:induction false} GroupsRead(a: Address, i: nat, j: nat, rest: string, st: V6)
    requires i <= j <= 8 && st.nibbles == 0 && st.word == 0 && |st.out| + 2 * (j - i) < 16
    ensures Scan(Groups(a, i, j) + rest, st) ==
      Scan(rest, V6(st.out + a[2 * i..2 * j], st.zero, if i == j then st.digit else Some(rest), 0, 0))
    decreases j - i
  {
    if i == j {
      assert Groups(a, i, j) + rest == rest;
      assert st.out + [] == st.out;
    } else {
      var k := j - 1;
      var h := Hex(Group(a, k));
      var more := h + ":" + rest;
      Regroup(Groups(a, i, k), h, rest);
      GroupsRead(a, i, k, more, st);
      var mid := V6(st.out + a[2 * i..2 * k], st.zero, if i == k then st.digit else Some(more), 0, 0);
      OneMore(a, i, k, rest, st, h, more, mid);
    }
  }

  /** Reading the groups at the end. */
  lemma {:induction false} EndRead(a: Address, i: nat, st: V6)
    requires i < 8 && st.nibbles == 0 && st.word == 0 && |st.out| + 2 * (7 - i) < 16
    ensures Scan(ToEnd(a, i), st) == Whole(st.out + a[2 * i..16], st.zero)
  {
    var last := Hex(Group(a, 7));
    GroupsRead(a, i, 7, last, st);
    GroupBytes(a, 7);
    HexLength(Group(a, 7));
    var mid := V6(st.out + a[2 * i..14], st.zero, if i == 7 then st.digit else Some(last), 0, 0);
    HexRead(Group(a, 7), [], mid);
    assert last + [] == last;
    BytesMore(a, st.out, i, 7);
  }

  // ---- The last 32 bits as an IPv4 address ----

  lemma {:induction false} DecDigit(n: nat)
    requires n < 10
    ensures var c := '0' + n as char;
            IsDigit(c) && c as int - '0' as int == n && HexValue(c) == n && c != ':' && c != '.'
  {
  }

  lemma {:induction false} DecLength(n: nat)
    requires n < 1000
    ensures 1 <= |Dec(n)| <= 3 && (n < 100 ==> |Dec(n)| <= 2) && (n < 10 ==> |Dec(n)| == 1)
    decreases n
  {
    if n >= 10 {
      DecLength(n / 10);
    }
  }

  lemma {:induction false} OctetDigit(d: nat, rest: string, addr: nat, octet: nat, n: nat, s: string)
    requires d < 10 && octet * 10 + d < 256 && s == ['0' + d as char] + rest
    ensures V4All(V4(addr, octet, n), s) == V4All(V4(addr, octet * 10 + d, n), rest)
  {
    DecDigit(d);
    assert s[1..] == rest;
  }

  lemma {:induction false} OctetRead(b: nat, rest: string, addr: nat, n: nat)
    requires b < 256
    ensures V4All(V4(addr, 0, n), Dec(b) + rest) == V4All(V4(addr, b, n), rest)
    decreases b
  {
    if b < 10 {
      OctetDigit(b, rest, addr, 0, n, Dec(b) + rest);
    } else {
      var more := ['0' + (b % 10) as char] + rest;
      assert Dec(b) + rest == Dec(b / 10) + more;
      OctetRead(b / 10, more, addr, n);
      OctetDigit(b % 10, rest, addr, b / 10, n, more);
    }
  }

  lemma {:induction false} DotRead(b: nat, rest: string, addr: nat, n: nat)
    requires b < 256 && addr * 256 + b < WORD
    ensures V4All(V4(addr, 0, n), Dec(b) + ("." + rest)) == V4All(V4(addr * 256 + b, 0, n + 1), rest)
  {
    OctetRead(b, "." + rest, addr, n);
    assert ("." + rest)[1..] == rest;
  }

  function Value4(p: byte, q: byte, r: byte, s: byte): nat {
    p as int * 0x100_0000 + q as int * 0x1_0000 + r as int * 0x100 + s as int
  }

  lemma {:induction false} Dots(p: string, q: string, r: string, s: string)
    ensures p + "." + q + "." + r + "." + s == p + ("." + (q + ("." + (r + ("." + s)))))
  {
  }

  lemma {:induction false} LastOctet(s: nat, addr: nat, n: nat)
    requires s < 256
    ensures V4All(V4(addr, 0, n), Dec(s)) == V4(addr, s, n)
  {
    OctetRead(s, [], addr, n);
    assert Dec(s) + [] == Dec(s);
  }

  lemma {:induction false} TwoOctets(r: nat, s: nat, addr: nat, n: nat)
    requires r < 256 && s < 256 && addr * 256 + r < WORD
    ensures V4All(V4(addr, 0, n), Dec(r) + ("." + Dec(s))) == V4(addr * 256 + r, s, n + 1)
  {
    DotRead(r, Dec(s), addr, n);
    LastOctet(s, addr * 256 + r, n + 1);
  }

  lemma {:induction false} ThreeOctets(q: nat, r: nat, s: nat, addr: nat, n: nat)
    requires q < 256 && r < 256 && s < 256 && addr < 256
    ensures V4All(V4(addr, 0, n), Dec(q) + ("." + (Dec(r) + ("." + Dec(s))))) == V4((addr * 256 + q) * 256 + r, s, n + 2)
  {
    var t := Dec(r) + ("." + Dec(s));
    DotRead(q, t, addr, n);
    TwoOctets(r, s, addr * 256 + q, n + 1);
  }

  lemma {:induction false} FourOctets(p: nat, q: nat, r: nat, s: nat)
    requires p < 256 && q < 256 && r < 256 && s < 256
    ensures V4All(V4(0, 0, 0), Dec(p) + ("." + (Dec(q) + ("." + (Dec(r) + ("." + Dec(s))))))) ==
      V4((p * 256 + q) * 256 + r, s, 3)
  {
    var t := Dec(q) + ("." + (Dec(r) + ("." + Dec(s))));
    DotRead(p, t, 0, 0);
    ThreeOctets(q, r, s, p, 1);
  }

  lemma {:induction false} InetRead(a: Address)
    ensures InetValue(Dotted4(a)) == Value4(a[12], a[13], a[14], a[15])
  {
    Dots(Dec(a[12]), Dec(a[13]), Dec(a[14]), Dec(a[15]));
    FourOctets(a[12], a[13], a[14], a[15]);
  }

  lemma {:induction false} DecAsHex(b: nat, rest: string, st: V6) returns (w: nat)
    requires b < 1000 && st.nibbles == 0
    ensures Scan(Dec(b) + rest, st) == Scan(rest, st.(nibbles := |Dec(b)|, word := w))
    decreases b
  {
    if b < 10 {
      DecDigit(b);
      assert (Dec(b) + rest)[1..] == rest;
      w := st.word * 16 + b;
    } else {
      var more := ['0' + (b % 10) as char] + rest;
      assert Dec(b) + rest == Dec(b / 10) + more;
      var v := DecAsHex(b / 10, more, st);
      DecLength(b / 10);
      DecDigit(b % 10);
      assert more[1..] == rest;
      w := v * 16 + b % 10;
    }
  }

  lemma {:induction false} Value4Bytes(p: byte, q: byte, r: byte, s: byte)
    ensures var v := Value4(p, q, r, s);
            v < WORD && TwoBytes(v / 0x1_0000) == [p, q] && TwoBytes(v % 0x1_0000) == [r, s]
            && (v == ADDR_NONE <==> p == q == r == s == 255)
  {
    var v := Value4(p, q, r, s);
    var hi, lo := p as int * 256 + q as int, r as int * 256 + s as int;
    assert v == hi * 0x1_0000 + lo;
    assert v / 0x1_0000 == hi && v % 0x1_0000 == lo;
  }

  /** The IPv4 address in the text is refused only if it is 255.255.255.255. */
  lemma {:induction false} V4Read(a: Address, st: V6)
    requires st.nibbles == 0 && st.digit == Some(Dotted4(a)) && |st.out| <= 12
    ensures Scan(Dotted4(a), st) == if a[12..] == [255, 255, 255, 255] then None else Whole(st.out + a[12..], st.zero)
  {
    var rest := "." + (Dec(a[13]) + ("." + (Dec(a[14]) + ("." + Dec(a[15])))));
    Dots(Dec(a[12]), Dec(a[13]), Dec(a[14]), Dec(a[15]));
    var w := DecAsHex(a[12], rest, st);
    DecLength(a[12]);
    InetRead(a);
    Value4Bytes(a[12], a[13], a[14], a[15]);
    assert a[12..] == [a[12], a[13]] + [a[14], a[15]];
    assert st.out + [a[12], a[13]] + [a[14], a[15]] == st.out + a[12..];
  }

  // ---- The whole address ----

  const START := V6([], -1, None, 0, 0)

  function Read(a: Address): Option<seq<byte>> {
    var bytes: seq<byte> := a;
    Some(bytes)
  }

  lemma {:induction false} HexStarts(n: nat, rest: string)
    ensures (Hex(n) + rest) != [] && (Hex(n) + rest)[0] != ':'
    decreases n
  {
    if n >= 16 {
      var more := [HexDigit(n % 16)] + rest;
      assert Hex(n) + rest == Hex(n / 16) + more;
      HexStarts(n / 16, more);
    } else {
      HexDigitValue(n);
    }
  }

  lemma {:induction false} GroupsStart(a: Address, i: nat, j: nat, rest: string)
    requires i < j <= 8
    ensures (Groups(a, i, j) + rest) != [] && (Groups(a, i, j) + rest)[0] != ':'
    decreases j
  {
    var k := j - 1;
    var h := Hex(Group(a, k));
    Regroup(Groups(a, i, k), h, rest);
    if i < k {
      GroupsStart(a, i, k, h + ":" + rest);
    } else {
      HexStarts(Group(a, k), ":" + rest);
      assert Groups(a, i, k) + (h + ":" + rest) == h + (":" + rest);
    }
  }

  lemma {:induction false} NoRun(a: Address)
    ensures Parsed(ToEnd(a, 0)) == Read(a)
  {
    GroupsStart(a, 0, 7, Hex(Group(a, 7)));
    EndRead(a, 0, START);
    assert [] + a[0..16] == a;
  }

  lemma {:induction false} ZeroBytes(a: Address, i: nat, j: nat)
    requires i <= j <= 8 && ZeroRun(a, i, j)
    ensures a[2 * i..2 * j] == Zeros(2 * j - 2 * i)
  {
    forall k | 2 * i <= k < 2 * j
      ensures a[k] == 0
    {
      assert Group(a, k / 2) == 0;
    }
  }

  /** An address without its zeros from byte `x` to byte `y`. */
  lemma {:induction false} ZerosBack(a: Address, x: nat, y: nat, out: seq<byte>)
    requires x < y <= 16 && a[x..y] == Zeros(y - x) && out == a[..x] + a[y..16]
    ensures Whole(out, x) == Read(a)
  {
    assert out[..x] == a[..x] && out[x..] == a[y..16];
    assert a == a[..x] + a[x..y] + a[y..16];
  }

  lemma {:induction false} EndingZeros(a: Address, x: nat)
    requires x < 14 && a[x..16] == Zeros(16 - x)
    ensures Whole(a[..x] + TwoBytes(0), x) == Read(a)
  {
    assert a[14..16] == a[x..16][14 - x..];
    assert a[x..14] == a[x..16][..14 - x];
    assert TwoBytes(0) == Zeros(2) == a[14..16];
    ZerosBack(a, x, 14, a[..x] + a[14..16]);
  }

  /** Behind "::" come the groups from `k` on. */
  lemma {:induction false} RestRead(a: Address, z: nat, k: nat, st: V6)
    requires z + 2 <= k <= 8 && ZeroRun(a, z, k) && st.out == a[..2 * z] && st.zero == 2 * z && st.nibbles == 0 && st.word == 0
    ensures Scan(ToEnd(a, k), st) == Read(a)
  {
    ZeroBytes(a, z, k);
    if k == 8 {
      EndingZeros(a, 2 * z);
    } else {
      EndRead(a, k, st);
      ZerosBack(a, 2 * z, 2 * k, st.out + a[2 * k..16]);
    }
  }

  /** The colon that makes a pair, and what follows. */
  lemma {:induction false} PairRead(a: Address, z: nat, k: nat, before: V6, rest: string, tail: string)
    requires z + 2 <= k <= 8 && ZeroRun(a, z, k) && before.out == a[..2 * z] && before.zero == -1
    requires before.nibbles == 0 && before.word == 0 && rest == ToEnd(a, k) && tail == ":" + rest
    ensures Scan(tail, before) == Read(a)
  {
    assert tail[1..] == rest;
    RestRead(a, z, k, before.(zero := 2 * z, digit := Some(rest)));
  }

  lemma {:induction false} FirstRun(a: Address, max: nat)
    requires IsRun(a, 0, max) && !WithV4(a, 0, max)
    ensures Parsed(TextOf(a, 0, max)) == Read(a)
  {
    var rest := ToEnd(a, max);
    var tail := ":" + rest;
    assert a[..0] == [];
    PairRead(a, 0, max, START, rest, tail);
    var text := TextOf(a, 0, max);
    assert text == ":" + tail;
    assert text[1..] == tail;
  }

  lemma {:induction false} LaterText(a: Address, zero: nat, max: nat, rest: string)
    requires IsRun(a, zero, max) && zero > 0 && rest == ToEnd(a, zero + max)
    ensures TextOf(a, zero, max) == Groups(a, 0, zero) + (":" + rest)
  {
    assert Groups(a, 0, zero) + ":" + rest == Groups(a, 0, zero) + (":" + rest);
  }

  lemma {:induction false} PlainStart(text: string)
    requires text != [] && text[0] != ':'
    ensures Parsed(text) == Scan(text, START)
  {
  }

  lemma {:induction false} LaterRun(a: Address, zero: nat, max: nat)
    requires IsRun(a, zero, max) && zero > 0
    ensures Parsed(TextOf(a, zero, max)) == Read(a)
  {
    var rest := ToEnd(a, zero + max);
    var tail := ":" + rest;
    LaterText(a, zero, max, rest);
    GroupsStart(a, 0, zero, tail);
    PlainStart(Groups(a, 0, zero) + tail);
    LaterScan(a, zero, max, rest, tail);
  }

  lemma {:induction false} LaterScan(a: Address, zero: nat, max: nat, rest: string, tail: string)
    requires IsRun(a, zero, max) && zero > 0 && rest == ToEnd(a, zero + max) && tail == ":" + rest
    ensures Scan(Groups(a, 0, zero) + tail, START) == Read(a)
  {
    GroupsRead(a, 0, zero, tail, START);
    assert [] + a[0..2 * zero] == a[..2 * zero];
    PairRead(a, zero, zero + max, V6(a[..2 * zero], -1, Some(tail), 0, 0), rest, tail);
  }

  // ---- With an IPv4 address ----

  predicate AllOnes(a: Address) {
    a[12] == 255 && a[13] == 255 && a[14] == 255 && a[15] == 255
  }

  lemma {:induction false} V4Tail(a: Address, y: nat, st: V6)
    requires 0 < y <= 12 && a[0..y] == Zeros(y) && st.out == a[y..12] && st.zero == 0 && st.nibbles == 0
    requires st.digit == Some(Dotted4(a))
    ensures Scan(Dotted4(a), st) == if AllOnes(a) then None else Read(a)
  {
    V4Read(a, st);
    V4Whole(a, y, st.out);
    assert a[12..] == [a[12], a[13], a[14], a[15]];
  }

  lemma {:induction false} V4Whole(a: Address, y: nat, out: seq<byte>)
    requires 0 < y <= 12 && a[0..y] == Zeros(y) && out == a[y..12]
    ensures Whole(out + a[12..], 0) == Read(a)
  {
    assert out + a[12..] == a[..0] + a[y..16];
    ZerosBack(a, 0, y, out + a[12..]);
  }

  lemma {:induction false} TwoColons(text: string, rest: string)
    requires text == "::" + rest
    ensures Parsed(text) == Scan(rest, V6([], 0, Some(rest), 0, 0))
  {
    assert text[1..] == ":" + rest;
    assert (":" + rest)[1..] == rest;
  }

  lemma {:induction false} V4Five(a: Address, v4: string, rest: string)
    requires a[0..10] == Zeros(10) && v4 == Dotted4(a) && rest == Hex(Group(a, 5)) + ":" + v4
    ensures Scan(rest, V6([], 0, Some(rest), 0, 0)) == if AllOnes(a) then None else Read(a)
  {
    GroupBytes(a, 5);
    ColonRead(Group(a, 5), v4, V6([], 0, Some(rest), 0, 0));
    assert [] + TwoBytes(Group(a, 5)) == a[10..12];
    V4Tail(a, 10, V6(a[10..12], 0, Some(v4), 0, 0));
  }

  lemma {:induction false} V4Six(a: Address, max: nat, v4: string)
    requires 6 <= max <= 7 && a[0..2 * max] == Zeros(2 * max) && v4 == Dotted4(a)
    ensures Scan(v4, V6([], 0, Some(v4), 0, 0)) == if AllOnes(a) then None else Read(a)
  {
    assert a[0..12] == a[0..2 * max][..12];
    assert a[12..12] == [];
    V4Tail(a, 12, V6([], 0, Some(v4), 0, 0));
  }

  lemma {:induction false} V4Run(a: Address, max: nat)
    requires IsRun(a, 0, max) && WithV4(a, 0, max)
    ensures Parsed(TextOf(a, 0, max)) == if AllOnes(a) then None else Read(a)
  {
    ZeroBytes(a, 0, max);
    var v4 := Dotted4(a);
    var middle := if max == 5 then Hex(Group(a, 5)) + ":" else [];
    assert "::" + middle + v4 == "::" + (middle + v4);
    TwoColons(TextOf(a, 0, max), middle + v4);
    if max == 5 {
      V4Five(a, v4, middle + v4);
    } else {
      assert middle + v4 == v4;
      V4Six(a, max, v4);
    }
  }

  /** Every address is read back from the text around a run of zeros, unless it ends with an IPv4 address
      of all ones in the text. */
  lemma {:induction false} RoundTrip(a: Address, zero: int, max: nat)
    requires IsRun(a, zero, max)
    ensures Parsed(TextOf(a, zero, max)) == if WithV4(a, zero, max) && AllOnes(a) then None else Read(a)
  {
    if zero == -1 {
      NoRun(a);
    } else if zero > 0 {
      LaterRun(a, zero, max);
    } else if WithV4(a, zero, max) {
      V4Run(a, max);
    } else {
      FirstRun(a, max);
    }
  }

  /** The two addresses that are not read back. */
  predicate Exception(a: Address) {
    AllOnes(a) && ((a[..12] == Zeros(12)) || (a[..10] == Zeros(10) && a[10] == 255 && a[11] == 255))
  }

  /** With the run that the printer takes, only ::255.255.255.255 and ::ffff:255.255.255.255 fail. */
  lemma {:induction false} Exceptions(a: Address, zero: int, max: nat)
    requires IsRun(a, zero, max) && (zero == -1 ==> max == 1)
    requires forall i, j | 0 <= i < j <= 8 && ZeroRun(a, i, j) :: j - i <= max
    ensures WithV4(a, zero, max) && AllOnes(a) <==> Exception(a)
  {
    if zero == 0 && WithV4(a, zero, max) && AllOnes(a) {
      ZeroBytes(a, 0, max);
      assert max < 7 by { assert Group(a, 6) != 0; }
      assert a[..2 * max] == a[0..2 * max];
    }
    if Exception(a) {
      ExceptionRun(a, zero, max);
    }
  }

  lemma {:induction false} ExceptionRun(a: Address, zero: int, max: nat)
    requires IsRun(a, zero, max) && (zero == -1 ==> max == 1) && Exception(a)
    requires forall i, j | 0 <= i < j <= 8 && ZeroRun(a, i, j) :: j - i <= max
    ensures WithV4(a, zero, max)
  {
    var n := if a[..12] == Zeros(12) then 6 else 5;
    assert forall k | 0 <= k < n :: a[2 * k] == a[..2 * n][2 * k] && a[2 * k + 1] == a[..2 * n][2 * k + 1];
    assert ZeroRun(a, 0, n);
    assert max >= n;
    assert Group(a, 6) != 0 && Group(a, 7) != 0 && (n == 5 ==> Group(a, 5) != 0);
  }

  /** What the printer says of its text. */
  predicate Printed(a: Address, text: string, zero: int, max: nat) {
    && IsRun(a, zero, max) && text == TextOf(a, zero, max) && (zero == -1 ==> max == 1)
    && forall i, j | 0 <= i < j <= 8 && ZeroRun(a, i, j) :: j - i <= max
  }

  /** The text of an address is read back as the address, unless it is one of the two. */
  lemma {:induction false} PrintedRead(a: Address, text: string, zero: int, max: nat)
    requires Printed(a, text, zero, max)
    ensures Parsed(text) == if Exception(a) then None else Read(a)
  {
    RoundTrip(a, zero, max);
    Exceptions(a, zero, max);
  }

  /** Prints an address and reads the text. */
  method PrintAndRead(a: Address, addr: array<byte>) returns (text: string, ok: bool)
    requires addr.Length == 16
    modifies addr
    ensures Parsed(text) == if Exception(a) then None else Read(a)
    ensures ok <==> !Exception(a)
    ensures ok ==> addr[..] == a
  {
    var zero, max;
    text, zero, max := Inet6Ntop(a);
    PrintedRead(a, text, zero, max);
    ok := Inet6Addr(text, addr);
  }

  const BROADCAST: Address := [0, 0, 0, 0, 0, 0, 0, 0, 0, 0, 0, 0, 255, 255, 255, 255]

  lemma {:induction false} BroadcastText()
    ensures IsRun(BROADCAST, 0, 6) && TextOf(BROADCAST, 0, 6) == "::255.255.255.255"
  {
    assert Dec(25) == "25" && Dec(255) == Dec(25) + "5";
    assert Dotted4(BROADCAST) == "255.255.255.255";
    assert TextOf(BROADCAST, 0, 6) == "::" + [] + Dotted4(BROADCAST);
  }

  /** One of the two addresses: its text is refused. */
  lemma {:induction false} BroadcastFails()
    ensures Printed(BROADCAST, "::255.255.255.255", 0, 6) && Parsed("::255.255.255.255") == None
  {
    var a := BROADCAST;
    BroadcastText();
    assert Group(a, 6) != 0 && Group(a, 7) != 0;
    assert forall i, j | 0 <= i < j <= 8 && ZeroRun(a, i, j) :: !(i <= 6 < j);
    assert a[..12] == Zeros(12);
    PrintedRead(a, "::255.255.255.255", 0, 6);
  }
}
