/** IPv6 addresses as text: printing. */
module InetPrint {
  import opened Common
  import opened Inet

  function HexDigit(n: nat): char
    requires n < 16
  {
    if n < 10 then '0' + n as char else 'a' + (n - 10) as char
  }

  function Hex(n: nat): string {
    if n < 16 then [HexDigit(n)] else Hex(n / 16) + [HexDigit(n % 16)]
  }

  const LOWER := "0123456789abcdef"

  lemma LowerDigit(n: nat)
    requires n < 16
    ensures HexDigit(n) == LOWER[n]
  {
  }

  /** The digits are small letters and numerals, and there are no zeros in front. */
  lemma {:induction false} LowerHex(n: nat)
    ensures Hex(n) != [] && (forall i | 0 <= i < |Hex(n)| :: Hex(n)[i] in LOWER) && (n > 0 ==> Hex(n)[0] != '0')
  {
    LowerDigit(n % 16);
    if n >= 16 {
      LowerHex(n / 16);
    }
  }

  function Dec(n: nat): string {
    if n < 10 then ['0' + n as char] else Dec(n / 10) + ['0' + (n % 10) as char]
  }

  type Address = a: seq<byte> | |a| == 16 witness seq(16, _ => 0)

  /** The k-th group of 16 bits. */
  function Group(a: Address, k: nat): nat
    requires k < 8
  {
    a[2 * k] as int * 256 + a[2 * k + 1] as int
  }

  /** Groups `i` to `j`, each with a colon. */
  function Groups(a: Address, i: nat, j: nat): string
    requires i <= j <= 8
    decreases j - i
  {
    if i == j then [] else Groups(a, i, j - 1) + Hex(Group(a, j - 1)) + ":"
  }

  /** Groups from `i` on to the end. */
  function ToEnd(a: Address, i: nat): string
    requires i <= 8
  {
    if i == 8 then [] else Groups(a, i, 7) + Hex(Group(a, 7))
  }

  function Dotted4(a: Address): string {
    Dec(a[12]) + "." + Dec(a[13]) + "." + Dec(a[14]) + "." + Dec(a[15])
  }

  predicate ZeroRun(a: Address, i: nat, j: nat)
    requires j <= 8
  {
    forall k | i <= k < j :: Group(a, k) == 0
  }

  /** Zeros that the text leaves out: `max` groups from group `zero` on, -1 for none. */
  predicate IsRun(a: Address, zero: int, max: nat) {
    zero == -1 || (0 <= zero && max >= 2 && zero + max <= 8 && ZeroRun(a, zero, zero + max))
  }

  /** Addresses that end with an IPv4 address in the text. */
  predicate WithV4(a: Address, zero: int, max: nat) {
    zero == 0 && ((max == 5 && a[10] == 0xff && a[11] == 0xff) || max == 6 || (max == 7 && a[14] != 0 && a[15] != 1))
  }

  function TextOf(a: Address, zero: int, max: nat): string
    requires IsRun(a, zero, max)
  {
    if zero == -1 then ToEnd(a, 0)
    else if WithV4(a, zero, max) then "::" + (if max == 5 then Hex(Group(a, 5)) + ":" else []) + Dotted4(a)
    else (if zero == 0 then ":" else Groups(a, 0, zero)) + ":" + ToEnd(a, zero + max)
  }

  /** The first of the longest runs of at least two zero groups. */
  method FindRun(a: Address) returns (zero: int, max: nat)
    ensures IsRun(a, zero, max)
    ensures zero == -1 ==> max == 1
    ensures forall i, j | 0 <= i < j <= 8 && ZeroRun(a, i, j) :: j - i <= max
    ensures Earliest(a, zero, max)
  {
    zero, max := -1, 1;
    var last, n, i := -1, 0, 0;
    while i < 8
      invariant i <= 8 && IsRun(a, zero, max) && if zero == -1 then max == 1 else max >= 2
      invariant 0 <= n <= i && (n > 0 ==> last == i - n) && ZeroRun(a, i - n, i)
      invariant Longest(a, i, n, max) && (n < i ==> Group(a, i - n - 1) != 0) && Earliest(a, zero, max)
    {
      if a[2 * i] != 0 || a[2 * i + 1] != 0 {
        RunEnds(a, i, n, max);
        if max < n {
          NoneEarlier(a, i, n, max);
          zero, max := last, n;
        }
        n := 0;
      } else {
        RunGrows(a, i, n, max);
        if n == 0 {
          last := i;
        }
        n := n + 1;
      }
      i := i + 1;
    }
    if max < n {
      NoneEarlier(a, 8, n, max);
      zero, max := last, n;
    }
  }

  /** No run of `n` zero groups starts before group `zero`. */
  ghost predicate Earliest(a: Address, zero: int, n: nat) {
    forall x, y | 0 <= x < zero && y == x + n && y <= 8 :: !ZeroRun(a, x, y)
  }

  lemma NoneEarlier(a: Address, i: nat, n: nat, max: nat)
    requires n <= i <= 8 && max < n && Longest(a, i, n, max)
    ensures Earliest(a, i - n, n)
  {
  }

  /** A run before group `i` is no longer than `max`, or it is in the last `n` groups. */
  ghost predicate Longest(a: Address, i: nat, n: nat, max: nat)
    requires i <= 8
  {
    forall x, y | 0 <= x < y <= i && ZeroRun(a, x, y) :: y - x <= max || x >= i - n
  }

  lemma {:induction false} RunEnds(a: Address, i: nat, n: nat, max: nat)
    requires i < 8 && n <= i && Group(a, i) != 0 && Longest(a, i, n, max)
    ensures Longest(a, i + 1, 0, if max < n then n else max)
  {
    forall x, y | 0 <= x < y <= i + 1 && ZeroRun(a, x, y)
      ensures y - x <= if max < n then n else max
    {
      assert y != i + 1;
    }
  }

  lemma {:induction false} RunGrows(a: Address, i: nat, n: nat, max: nat)
    requires i < 8 && n <= i && Group(a, i) == 0 && ZeroRun(a, i - n, i) && Longest(a, i, n, max) && max >= 1
    requires n < i ==> Group(a, i - n - 1) != 0
    ensures Longest(a, i + 1, n + 1, max) && ZeroRun(a, i - n, i + 1)
  {
    forall x, y | 0 <= x < y <= i + 1 && ZeroRun(a, x, y)
      ensures y - x <= max || x >= i - n
    {
      assert y == i + 1 ==> x >= i - n;
    }
  }

  /** What is printed before group `i`. */
  function SoFar(a: Address, zero: int, max: nat, i: nat): string
    requires IsRun(a, zero, max) && i <= 8 && (zero == -1 || i <= zero || i >= zero + max)
  {
    if zero == -1 then (if i == 8 then ToEnd(a, 0) else Groups(a, 0, i))
    else if i <= zero then (if zero == 0 then ":" else Groups(a, 0, i))
    else (if zero == 0 then ":" else Groups(a, 0, zero)) + ":" + if i == 8 then ToEnd(a, zero + max) else Groups(a, zero + max, i)
  }

  /** Groups up to `i`, the last of all without a colon. */
  lemma {:induction false} GroupsMore(a: Address, j: nat, i: nat)
    requires j <= i < 8
    ensures Groups(a, j, i) + Hex(Group(a, i)) + (if i < 7 then ":" else []) ==
      if i == 7 then ToEnd(a, j) else Groups(a, j, i + 1)
  {
    if i == 7 {
      var t := Groups(a, j, 7) + Hex(Group(a, 7));
      assert t + [] == t;
    }
  }

  lemma {:induction false} SoFarMore(a: Address, zero: int, max: nat, i: nat)
    requires IsRun(a, zero, max) && i < 8 && i != zero && (zero == -1 || i <= zero || i >= zero + max)
    ensures SoFar(a, zero, max, i) + Hex(Group(a, i)) + (if i < 7 then ":" else []) == SoFar(a, zero, max, i + 1)
  {
    if zero == -1 || i < zero {
      GroupsMore(a, 0, i);
    } else {
      GroupsMore(a, zero + max, i);
      var x := (if zero == 0 then ":" else Groups(a, 0, zero)) + ":";
      Regroup(x, Groups(a, zero + max, i), Hex(Group(a, i)), if i < 7 then ":" else []);
    }
  }

  lemma {:induction false} Regroup(x: string, g: string, h: string, c: string)
    ensures (x + g) + h + c == x + (g + h + c)
  {
  }

  lemma {:induction false} SoFarSkip(a: Address, zero: int, max: nat)
    requires IsRun(a, zero, max) && zero >= 0
    ensures SoFar(a, zero, max, zero) + ":" == SoFar(a, zero, max, zero + max)
  {
    var x := (if zero == 0 then ":" else Groups(a, 0, zero)) + ":";
    assert x + [] == x;
  }

  method PrintGroups(a: Address, zero: int, max: nat, n: nat) returns (text: string, i: nat)
    requires IsRun(a, zero, max) && n <= 8
    ensures n <= i <= 8 && (i == n || i == zero + max) && (zero == -1 || i <= zero || i >= zero + max)
    ensures text == SoFar(a, zero, max, i)
  {
    text := if zero == 0 then ":" else "";
    i := 0;
    while i < n
      invariant i <= 8 && (i <= n || i == zero + max) && (zero == -1 || i <= zero || i >= zero + max)
      invariant text == SoFar(a, zero, max, i)
    {
      if i == zero {
        SoFarSkip(a, zero, max);
        text := text + ":";
        i := i + max;
      } else {
        SoFarMore(a, zero, max, i);
        text := text + Hex(Group(a, i)) + if i < 7 then ":" else [];
        i := i + 1;
      }
    }
  }

  method PrintAround(a: Address, zero: int, max: nat) returns (text: string)
    requires IsRun(a, zero, max)
    ensures text == TextOf(a, zero, max)
  {
    var n := if WithV4(a, zero, max) then 6 else 8;
    var i;
    text, i := PrintGroups(a, zero, max, n);
    if n == 6 {
      text := AddV4(a, max, i, text);
    }
  }

  method AddV4(a: Address, max: nat, i: nat, text: string) returns (all: string)
    requires IsRun(a, 0, max) && WithV4(a, 0, max) && max <= i && 6 <= i <= 7 && text == SoFar(a, 0, max, i)
    requires i == 7 ==> max == 7
    ensures all == TextOf(a, 0, max)
  {
    all := text + Dec(a[12]) + "." + Dec(a[13]) + "." + Dec(a[14]) + "." + Dec(a[15]);
    assert Groups(a, 5, 6) == Hex(Group(a, 5)) + ":" by { assert Groups(a, 5, 5) == []; }
    assert text == "::" + (if max == 5 then Hex(Group(a, 5)) + ":" else []);
    Appended(text, Dec(a[12]), Dec(a[13]), Dec(a[14]), Dec(a[15]));
  }

  lemma {:induction false} Appended(x: string, p: string, q: string, r: string, s: string)
    ensures x + p + "." + q + "." + r + "." + s == x + (p + "." + q + "." + r + "." + s)
  {
  }

  /** Prints an address. */
  method Inet6Ntop(a: Address) returns (text: string, zero: int, max: nat)
    ensures IsRun(a, zero, max) && text == TextOf(a, zero, max)
    ensures zero == -1 ==> max == 1
    ensures forall i, j | 0 <= i < j <= 8 && ZeroRun(a, i, j) :: j - i <= max
    ensures Earliest(a, zero, max)
  {
    zero, max := FindRun(a);
    text := PrintAround(a, zero, max);
  }
}
