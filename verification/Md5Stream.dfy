/** Folding a block function over a message that comes in pieces, and the padding
    of sections 3.1 and 3.2 of RFC 1321. */
module Md5Stream {
  import opened Common
  import opened Md5Body

  /** What a block of 64 bytes does to the registers. */
  type Block = (Regs, seq<byte>) -> Regs

  /** The registers after the full blocks of a message. */
  function Blocks(f: Block, r: Regs, m: seq<byte>): Regs
    decreases |m|
  {
    if |m| < 64 then r else Blocks(f, f(r, m[..64]), m[64..])
  }

  /** What is left after the full blocks. */
  function Tail(m: seq<byte>): (t: seq<byte>)
    ensures |t| == |m| % 64
  {
    m[|m| - |m| % 64..]
  }

  function Full(m: seq<byte>): (t: seq<byte>)
    ensures |t| % 64 == 0
  {
    Multiple(|m|);
    m[..|m| - |m| % 64]
  }

  lemma Multiple(n: nat)
    ensures (n - n % 64) % 64 == 0
  {
  }

  lemma {:induction false} BlocksConcat(f: Block, r: Regs, x: seq<byte>, y: seq<byte>)
    requires |x| % 64 == 0
    ensures Blocks(f, r, x + y) == Blocks(f, Blocks(f, r, x), y)
    decreases |x|
  {
    if x == [] {
      assert x + y == y;
    } else {
      assert |x| >= 64;
      assert (x + y)[..64] == x[..64];
      assert (x + y)[64..] == x[64..] + y;
      BlocksConcat(f, f(r, x[..64]), x[64..], y);
    }
  }

  lemma {:induction false} BlocksFull(f: Block, r: Regs, m: seq<byte>)
    ensures Blocks(f, r, m) == Blocks(f, r, Full(m))
  {
    assert m == Full(m) + Tail(m);
    BlocksConcat(f, r, Full(m), Tail(m));
  }

  lemma Split(m: seq<byte>, x: seq<byte>)
    ensures m + x == Full(m) + (Tail(m) + x)
  {
    assert m == Full(m) + Tail(m);
  }

  lemma TailMore(m: seq<byte>, x: seq<byte>)
    ensures Tail(m + x) == Tail(Tail(m) + x)
  {
    Split(m, x);
    TailAfter(Full(m), Tail(m) + x);
  }

  lemma TailAfter(a: seq<byte>, b: seq<byte>)
    requires |a| % 64 == 0
    ensures Tail(a + b) == Tail(b)
  {
    SameRest(|a|, |b|);
    EndOf(a, b, |b| % 64);
  }

  lemma EndOf(a: seq<byte>, b: seq<byte>, n: nat)
    requires n <= |b|
    ensures (a + b)[|a + b| - n..] == b[|b| - n..]
  {
  }

  lemma SameRest(m: nat, x: nat)
    requires m % 64 == 0
    ensures (m + x) % 64 == x % 64
  {
  }

  /** Bytes are taken up after the tail of what came before. */
  lemma {:induction false} BlocksMore(f: Block, r: Regs, m: seq<byte>, x: seq<byte>)
    ensures Blocks(f, r, m + x) == Blocks(f, Blocks(f, r, m), Tail(m) + x)
  {
    BlocksFull(f, r, m);
    Split(m, x);
    BlocksConcat(f, r, Full(m), Tail(m) + x);
  }

  // ---- Padding ----

  const WORD: nat := 0x1_0000_0000_0000_0000

  /** A number as eight bytes, the lowest one first. */
  function EightBytes(n: nat): seq<byte> {
    [n % 0x100, n / 0x100 % 0x100, n / 0x1_0000 % 0x100, n / 0x100_0000 % 0x100,
     n / 0x1_0000_0000 % 0x100, n / 0x100_0000_0000 % 0x100, n / 0x1_0000_0000_0000 % 0x100,
     n / 0x100_0000_0000_0000 % 0x100]
  }

  /** The value of some bytes, the lowest one first. */
  function Value(s: seq<byte>): nat {
    if s == [] then 0 else s[0] as int + 0x100 * Value(s[1..])
  }

  lemma {:induction false} EightBytesValue(n: nat)
    requires n < WORD
    ensures Value(EightBytes(n)) == n
  {
    var s := EightBytes(n);
    Shifts(n);
    assert n / 0x100_0000_0000_0000 < 0x100;
    ValueStep(s, 7, n / 0x100_0000_0000_0000);
    ValueStep(s, 6, n / 0x1_0000_0000_0000);
    ValueStep(s, 5, n / 0x100_0000_0000);
    ValueStep(s, 4, n / 0x1_0000_0000);
    ValueStep(s, 3, n / 0x100_0000);
    ValueStep(s, 2, n / 0x1_0000);
    ValueStep(s, 1, n / 0x100);
    ValueStep(s, 0, n);
    assert s[0..] == s;
  }

  lemma Shifts(n: nat)
    ensures n / 0x100 / 0x100 == n / 0x1_0000 && n / 0x1_0000 / 0x100 == n / 0x100_0000
    ensures n / 0x100_0000 / 0x100 == n / 0x1_0000_0000 && n / 0x1_0000_0000 / 0x100 == n / 0x100_0000_0000
    ensures n / 0x100_0000_0000 / 0x100 == n / 0x1_0000_0000_0000
    ensures n / 0x1_0000_0000_0000 / 0x100 == n / 0x100_0000_0000_0000
  {
  }

  lemma {:induction false} ValueStep(s: seq<byte>, i: nat, n: nat)
    requires i < |s| && s[i] == n % 0x100 && Value(s[i + 1..]) == n / 0x100
    ensures Value(s[i..]) == n
  {
    assert s[i..][1..] == s[i + 1..];
  }

  /** The zeros that bring a message with its 0x80 to 56 bytes after a multiple of 64. */
  function ZeroCount(n: nat): nat {
    (119 - n % 64) % 64
  }

  /** The message with its padding and its length in bits. */
  function Padded(m: seq<byte>): seq<byte> {
    m + [0x80] + Zeros(ZeroCount(|m|)) + EightBytes(8 * |m| % WORD)
  }

  /** The length is congruent to 56 before the length is added, and so a multiple of 64 after it. */
  lemma PaddedLength(m: seq<byte>)
    ensures (|m| + 1 + ZeroCount(|m|)) % 64 == 56 && |Padded(m)| % 64 == 0
  {
    PadArithmetic(|m| / 64, |m| % 64);
  }

  lemma PadArithmetic(q: nat, r: nat)
    requires r < 64
    ensures (q * 64 + r + 1 + (119 - r) % 64) % 64 == 56 && (q * 64 + r + 1 + (119 - r) % 64 + 8) % 64 == 0
  {
    assert (119 - r) % 64 == if r < 56 then 55 - r else 119 - r;
  }
}
