/** IPv4 and IPv6 addresses as text: reading. */
module Inet {
  import opened Common

  const ADDR_NONE: nat := 0xffff_ffff
  const WORD: nat := 0x1_0000_0000

  // ---- IPv4 ----

  /** While reading: the bytes so far, the current one, and the number of dots. */
  datatype V4 = V4(addr: nat, octet: nat, n: nat) | Bad

  predicate IsDigit(c: char) {
    '0' <= c <= '9'
  }

  function V4Step(st: V4, c: char): V4
    requires st.V4?
  {
    if IsDigit(c) then
      var octet := st.octet * 10 + (c as int - '0' as int);
      if octet > 255 then Bad else st.(octet := octet)
    else if c == '.' then V4((st.addr * 256 + st.octet) % WORD, 0, st.n + 1)
    else Bad
  }

  function V4All(st: V4, s: string): V4
    decreases |s|
  {
    if s == [] || st.Bad? then st else V4All(V4Step(st, s[0]), s[1..])
  }

  /** The address as a number, or ADDR_NONE. */
  function InetValue(s: string): nat {
    var st := V4All(V4(0, 0, 0), s);
    if st.V4? && st.n == 3 then (st.addr * 256 + st.octet) % WORD else ADDR_NONE
  }

  method InetAddr(text: string) returns (addr: nat)
    ensures addr == InetValue(text)
  {
    addr := 0;
    var octet: nat, n: nat, i: nat := 0, 0, 0;
    assert text[0..] == text;
    while i < |text|
      invariant i <= |text| && V4All(V4(addr, octet, n), text[i..]) == V4All(V4(0, 0, 0), text)
    {
      var c := text[i];
      assert text[i..][1..] == text[i + 1..];
      i := i + 1;
      if IsDigit(c) {
        octet := octet * 10 + (c as int - '0' as int);
        if octet > 255 {
          return ADDR_NONE;
        }
      } else if c == '.' {
        addr := (addr * 256 + octet) % WORD;
        octet := 0;
        n := n + 1;
      } else {
        return ADDR_NONE;
      }
    }
    if n == 3 {
      addr := (addr * 256 + octet) % WORD;
    } else {
      addr := ADDR_NONE;
    }
  }

  // ---- IPv6 ----

  /** The value of a hexadecimal digit, or -1. */
  function HexValue(c: char): int {
    if '0' <= c <= '9' then c as int - '0' as int
    else if 'a' <= c <= 'f' then c as int - 'a' as int + 10
    else if 'A' <= c <= 'F' then c as int - 'A' as int + 10
    else -1
  }

  /** While reading: the bytes so far, where "::" is in them (-1 for nowhere), the text behind the last
      colon, and the digits and the value of the current group. */
  datatype V6 = V6(out: seq<byte>, zero: int, digit: Option<string>, nibbles: nat, word: nat)

  function TwoBytes(w: nat): seq<byte> {
    [w / 256 % 256, w % 256]
  }

  /** The whole address, with the bytes that "::" stands for. */
  function Whole(out: seq<byte>, zero: int): Option<seq<byte>> {
    if |out| < 16 then
      if 0 <= zero <= |out| then Some(out[..zero] + Zeros(16 - |out|) + out[zero..]) else None
    else if zero == -1 then Some(out) else None
  }

  function Finish(st: V6): Option<seq<byte>> {
    if st.nibbles == 0 && st.zero == -1 then None else Whole(st.out + TwoBytes(st.word), st.zero)
  }

  function Scan(s: string, st: V6): Option<seq<byte>>
    decreases |s|
  {
    if s == [] then Finish(st)
    else if s[0] == ':' then
      if st.nibbles > 0 then
        var out := st.out + TwoBytes(st.word);
        if |out| < 16 then Scan(s[1..], V6(out, st.zero, Some(s[1..]), 0, 0)) else None
      else if st.zero == -1 then Scan(s[1..], st.(zero := |st.out|, digit := Some(s[1..])))
      else None
    else if s[0] == '.' && st.nibbles > 0 then Dotted(st)
    else if st.nibbles >= 4 || HexValue(s[0]) < 0 then None
    else Scan(s[1..], st.(nibbles := st.nibbles + 1, word := st.word * 16 + HexValue(s[0])))
  }

  /** The last 32 bits written as an IPv4 address. */
  function Dotted(st: V6): Option<seq<byte>> {
    if |st.out| > 12 || st.digit == None then None
    else
      var v := InetValue(st.digit.value);
      if v == ADDR_NONE then None
      else Finish(st.(out := st.out + TwoBytes(v / 0x1_0000), word := v % 0x1_0000, nibbles := 1))
  }

  function Parsed(text: string): Option<seq<byte>> {
    if text == [] then None
    else Scan(if text[0] == ':' then text[1..] else text, V6([], -1, None, 0, 0))
  }

  method Write(addr: array<byte>, k: nat, w: nat)
    requires k + 2 <= addr.Length
    modifies addr
    ensures addr[..k + 2] == old(addr[..k]) + TwoBytes(w)
  {
    addr[k] := w / 256 % 256;
    addr[k + 1] := w % 256;
  }

  /** Moves the bytes from `zero` on up by `n`, the last one first. */
  method MoveUp(addr: array<byte>, zero: nat, k: nat, n: nat)
    requires zero <= k && k + n <= addr.Length
    modifies addr
    ensures forall i | 0 <= i < zero :: addr[i] == old(addr[i])
    ensures forall i | zero + n <= i < k + n :: addr[i] == old(addr[i - n])
  {
    var s := k - 1;
    while s >= zero
      invariant zero - 1 <= s < k
      invariant forall i | 0 <= i <= s :: addr[i] == old(addr[i])
      invariant forall i | s + n < i < k + n :: addr[i] == old(addr[i - n])
    {
      addr[s + n] := addr[s];
      s := s - 1;
    }
  }

  lemma {:induction false} SpreadIs(a: seq<byte>, b: seq<byte>, zero: nat, k: nat, n: nat)
    requires zero <= k && |a| == |b| == k + n
    requires (forall i | 0 <= i < zero :: b[i] == a[i]) && (forall i | zero <= i < zero + n :: b[i] == 0)
    requires forall i | zero + n <= i < k + n :: b[i] == a[i - n]
    ensures b == a[..zero] + Zeros(n) + a[zero..k]
  {
  }

  /** Moves the bytes from `zero` on to the end of the address, and puts zeros in their place. */
  method Spread(addr: array<byte>, zero: nat, k: nat)
    requires zero <= k < addr.Length
    modifies addr
    ensures addr[..] == old(addr[..])[..zero] + Zeros(addr.Length - k) + old(addr[..])[zero..k]
  {
    var n := addr.Length - k;
    MoveUp(addr, zero, k, n);
    forall i | zero <= i < zero + n {
      addr[i] := 0;
    }
    SpreadIs(old(addr[..]), addr[..], zero, k, n);
  }

  function Behind(text: string, digit: int): Option<string> {
    if 0 <= digit <= |text| then Some(text[digit..]) else None
  }

  /** Where the reading stands. */
  ghost function Ahead(text: string, i: nat, out: seq<byte>, zero: int, digit: int, nibbles: nat, word: nat): Option<seq<byte>>
    requires i <= |text|
  {
    Scan(text[i..], V6(out, zero, Behind(text, digit), nibbles, word))
  }

  method Complete(addr: array<byte>, k: nat, zero: int, nibbles: nat, word: nat, ghost st: V6) returns (ok: bool)
    requires addr.Length == 16 && k <= 14 && zero <= k && st.out == addr[..k] && st.zero == zero >= -1
    requires st.nibbles == nibbles && st.word == word
    modifies addr
    ensures ok <==> Finish(st).Some?
    ensures ok ==> addr[..] == Finish(st).value
  {
    if nibbles == 0 && zero == -1 {
      return false;
    }
    Write(addr, k, word);
    ghost var out := addr[..k + 2];
    if k + 2 < 16 {
      if zero == -1 {
        return false;
      }
      ghost var all := addr[..];
      Spread(addr, zero, k + 2);
      assert all[..zero] == out[..zero] && all[zero..k + 2] == out[zero..];
      return true;
    }
    assert addr[..] == out;
    return zero == -1;
  }

  /** Reads an address into 16 bytes. */
  method Inet6Addr(text: string, addr: array<byte>) returns (ok: bool)
    requires addr.Length == 16
    modifies addr
    ensures ok <==> Parsed(text).Some?
    ensures ok ==> addr[..] == Parsed(text).value
  {
    if text == [] {
      return false;
    }
    var zero, digit := -1, -1;
    var nibbles: nat, word: nat, k: nat := 0, 0, 0;
    var i: nat := if text[0] == ':' then 1 else 0;
    assert text[0..] == text;
    while i < |text|
      invariant i <= |text| && k % 2 == 0 && k <= 14 && -1 <= zero <= k && -1 <= digit <= |text|
      invariant Ahead(text, i, addr[..k], zero, digit, nibbles, word) == Parsed(text)
      decreases |text| - i
    {
      var c := text[i];
      ghost var st := V6(addr[..k], zero, Behind(text, digit), nibbles, word);
      ScanStep(text, i, st);
      i := i + 1;
      if c == ':' {
        if nibbles > 0 {
          digit := i;
          Write(addr, k, word);
          k := k + 2;
          if k == 16 {
            return false;
          }
          nibbles, word := 0, 0;
        } else if zero == -1 {
          digit := i;
          zero := k;
        } else {
          return false;
        }
      } else if c == '.' && nibbles > 0 {
        if k > 12 || digit == -1 {
          return false;
        }
        word := InetAddr(text[digit..]);
        if word == ADDR_NONE {
          return false;
        }
        Write(addr, k, word / 0x1_0000);
        ok := Complete(addr, k + 2, zero, nibbles, word % 0x1_0000,
                       st.(out := addr[..k + 2], word := word % 0x1_0000, nibbles := nibbles));
        return;
      } else {
        nibbles := nibbles + 1;
        if nibbles > 4 || HexValue(c) < 0 {
          return false;
        }
        word := word * 16 + HexValue(c);
      }
    }
    ok := Complete(addr, k, zero, nibbles, word, V6(addr[..k], zero, Behind(text, digit), nibbles, word));
  }

  lemma {:induction false} ScanStep(text: string, i: nat, st: V6)
    requires i < |text|
    ensures text[i..] != [] && text[i..][0] == text[i] && text[i..][1..] == text[i + 1..]
  {
  }
}
