/** The MD5 context: a message taken in pieces of any size through a buffer of one block. */
module Md5 {
  import opened Common
  import opened Md5Body
  import opened Md5Stream

  const INITIAL := Regs(0x6745_2301, 0xefcd_ab89, 0x98ba_dcfe, 0x1032_5476)

  /** The transformation of one block; other lengths do not occur. */
  function OneBlock(r: Regs, p: seq<byte>): Regs {
    if |p| == 64 then Compress(r, p) else r
  }

  /** A register as four bytes, the lowest one first. */
  function RegBytes(x: bv32): seq<byte> {
    [(x & 0xff) as byte, ((x >> 8) & 0xff) as byte, ((x >> 16) & 0xff) as byte, (x >> 24) as byte]
  }

  /** The bytes of a register are read back by the words of a block. */
  lemma RegBytesRead(x: bv32)
    ensures Word(RegBytes(x), 0) == x
  {
    var s := RegBytes(x);
    Back(x & 0xff, s[0]);
    Back((x >> 8) & 0xff, s[1]);
    Back((x >> 16) & 0xff, s[2]);
    Back(x >> 24, s[3]);
    BytesOf(x, x & 0xff, (x >> 8) & 0xff, (x >> 16) & 0xff, x >> 24);
  }

  lemma Back(b: bv32, i: byte)
    requires i == b as int
    ensures i as bv32 == b
  {
  }

  lemma BytesOf(x: bv32, b0: bv32, b1: bv32, b2: bv32, b3: bv32)
    requires b0 == x & 0xff && b1 == (x >> 8) & 0xff && b2 == (x >> 16) & 0xff && b3 == x >> 24
    ensures (b3 << 24) | (b2 << 16) | (b1 << 8) | b0 == x
  {
  }

  function RegsBytes(r: Regs): seq<byte> {
    RegBytes(r.a) + RegBytes(r.b) + RegBytes(r.c) + RegBytes(r.d)
  }

  /** The digest of RFC 1321: all the blocks of the padded message. */
  function Digest(f: Block, m: seq<byte>): seq<byte> {
    RegsBytes(Blocks(f, INITIAL, Padded(m)))
  }

  /** The blocks of some data whose length is a multiple of 64. */
  method Body(f: Block, regs: Regs, data: seq<byte>) returns (r: Regs)
    requires |data| % 64 == 0
    ensures r == Blocks(f, regs, data)
  {
    r := regs;
    var i := 0;
    while i < |data|
      invariant i % 64 == 0 && i <= |data|
      invariant Blocks(f, regs, data) == Blocks(f, r, data[i..])
    {
      assert data[i..][..64] == data[i..i + 64] && data[i..][64..] == data[i + 64..];
      r := f(r, data[i..i + 64]);
      i := i + 64;
    }
  }

  /** Some bytes written into a buffer. */
  function Written(buffer: seq<byte>, at: nat, data: seq<byte>): seq<byte>
    requires at + |data| <= |buffer|
  {
    buffer[..at] + data + buffer[at + |data|..]
  }

  method CopyInto(buffer: array<byte>, at: nat, data: seq<byte>)
    requires at + |data| <= buffer.Length
    modifies buffer
    ensures buffer[..] == Written(old(buffer[..]), at, data)
  {
    var i := 0;
    while i < |data|
      invariant i <= |data|
      invariant forall k :: 0 <= k < at ==> buffer[k] == old(buffer[k])
      invariant forall k :: at <= k < at + i ==> buffer[k] == data[k - at]
      invariant forall k :: at + i <= k < buffer.Length ==> buffer[k] == old(buffer[k])
    {
      buffer[at + i] := data[i];
      i := i + 1;
    }
  }

  // ---- What the buffer and the registers come to ----

  lemma RestOf(n: nat)
    ensures n % WORD % 64 == n % 64
  {
    Drop64(n / WORD, n % WORD);
  }

  lemma Drop64(q: nat, r: nat)
    ensures (q * 0x1_0000_0000_0000_0000 + r) % 64 == r % 64
  {
  }

  lemma DropWord(q: nat, r: nat)
    ensures (q * 0x1_0000_0000_0000_0000 + r) % 0x1_0000_0000_0000_0000 == r % 0x1_0000_0000_0000_0000
  {
  }

  /** The counter, which wraps, agrees with the length. */
  lemma WrapAdd(n: nat, k: nat)
    ensures (n % WORD + k) % WORD == (n + k) % WORD
  {
    DropWord(n / WORD, n % WORD + k);
  }

  lemma WrapShift(n: nat)
    ensures 8 * (n % WORD) % WORD == 8 * n % WORD
  {
    DropWord(8 * (n / WORD), 8 * (n % WORD));
  }

  /** The registers have the full blocks of the message, the buffer begins with the tail. */
  predicate Holds(f: Block, regs: Regs, buffer: seq<byte>, m: seq<byte>) {
    && |buffer| == 64
    && regs == Blocks(f, INITIAL, m)
    && buffer[..|m| % 64] == Tail(m)
  }

  lemma {:induction false} SingleBlock(f: Block, r: Regs, b: seq<byte>)
    requires |b| == 64
    ensures Blocks(f, r, b) == f(r, b)
  {
    assert b[..64] == b;
  }

  /** Too little for a block. */
  lemma {:induction false} Little(f: Block, regs: Regs, buffer: seq<byte>, m: seq<byte>, x: seq<byte>)
    requires Holds(f, regs, buffer, m) && |m| % 64 + |x| < 64
    ensures Holds(f, regs, Written(buffer, |m| % 64, x), m + x)
  {
    BlocksMore(f, INITIAL, m, x);
    TailMore(m, x);
    Short(Tail(m) + x);
    Begins(buffer, |m| % 64, x);
  }

  lemma Short(t: seq<byte>)
    requires |t| < 64
    ensures Tail(t) == t
  {
  }

  lemma Begins(buffer: seq<byte>, at: nat, x: seq<byte>)
    requires at + |x| <= |buffer|
    ensures Written(buffer, at, x)[..at + |x|] == buffer[..at] + x
  {
  }

  /** Enough to complete the block that was begun; what the buffer has then does not matter. */
  lemma {:induction false} Enough(f: Block, regs: Regs, buffer: seq<byte>, m: seq<byte>, x: seq<byte>)
    requires Holds(f, regs, buffer, m) && |m| % 64 + |x| == 64
    ensures |m + x| % 64 == 0
    ensures f(regs, Written(buffer, |m| % 64, x)) == Blocks(f, INITIAL, m + x)
  {
    Begins(buffer, |m| % 64, x);
    assert Written(buffer, |m| % 64, x) == Tail(m) + x;
    BlocksMore(f, INITIAL, m, x);
    TailMore(m, x);
    SingleBlock(f, regs, Tail(m) + x);
  }

  lemma Rejoin(m: seq<byte>, x: seq<byte>, k: nat)
    requires k <= |x|
    ensures m + x[..k] + x[k..] == m + x
  {
  }

  /** Data at the start of a block. */
  lemma {:induction false} AtBlock(f: Block, regs: Regs, buffer: seq<byte>, m: seq<byte>, x: seq<byte>)
    requires |m| % 64 == 0 && regs == Blocks(f, INITIAL, m) && |buffer| == 64
    ensures Holds(f, Blocks(f, regs, x), Written(buffer, 0, Tail(x)), m + x)
  {
    BlocksConcat(f, INITIAL, m, x);
    TailAfter(m, x);
    Begins(buffer, 0, Tail(x));
    SameRest(|m|, |x|);
  }

  // ---- The end of the message ----

  function Ending(used: nat, length: seq<byte>): seq<byte>
    requires used < 64
  {
    [0x80] + Zeros((119 - used) % 64) + length
  }

  /** The padding and the length fit after the tail. */
  lemma {:induction false} EndsHere(f: Block, r: Regs, t: seq<byte>, length: seq<byte>)
    requires |t| < 56 && |length| == 8
    ensures Blocks(f, r, t + Ending(|t|, length)) == f(r, t + [0x80] + Zeros(55 - |t|) + length)
  {
    var p := t + [0x80] + Zeros(55 - |t|) + length;
    assert (119 - |t|) % 64 == 55 - |t|;
    assert t + Ending(|t|, length) == p;
    SingleBlock(f, r, p);
  }

  /** They take one block more. */
  lemma {:induction false} EndsLater(f: Block, r: Regs, t: seq<byte>, length: seq<byte>)
    requires 56 <= |t| < 64 && |length| == 8
    ensures Blocks(f, r, t + Ending(|t|, length)) == f(f(r, t + [0x80] + Zeros(63 - |t|)), Zeros(56) + length)
  {
    var a, b := t + [0x80] + Zeros(63 - |t|), Zeros(56) + length;
    assert (119 - |t|) % 64 == 119 - |t|;
    assert Zeros(119 - |t|) == Zeros(63 - |t|) + Zeros(56);
    assert t + Ending(|t|, length) == a + b;
    BlocksConcat(f, r, a, b);
    SingleBlock(f, r, a);
    SingleBlock(f, f(r, a), b);
  }

  lemma {:induction false} PaddedBlocks(f: Block, r: Regs, m: seq<byte>)
    ensures Blocks(f, r, Padded(m))
         == Blocks(f, Blocks(f, r, m), Tail(m) + Ending(|Tail(m)|, EightBytes(8 * |m| % WORD)))
  {
    var length := EightBytes(8 * |m| % WORD);
    assert Padded(m) == m + Ending(|m| % 64, length);
    BlocksMore(f, r, m, Ending(|m| % 64, length));
  }

  /** What the end of the message makes of the buffer. */
  lemma {:induction false} ClosesHere(f: Block, regs: Regs, buffer: seq<byte>, u: nat, length: seq<byte>)
    requires |buffer| == 64 && u < 56 && |length| == 8
    ensures f(regs, Written(Written(Written(buffer, u, [0x80]), u + 1, Zeros(55 - u)), 56, length))
         == Blocks(f, regs, buffer[..u] + Ending(u, length))
  {
    EndsHere(f, regs, buffer[..u], length);
    Laid(buffer, u, length);
  }

  lemma Laid(buffer: seq<byte>, u: nat, length: seq<byte>)
    requires |buffer| == 64 && u < 56 && |length| == 8
    ensures Written(Written(Written(buffer, u, [0x80]), u + 1, Zeros(55 - u)), 56, length)
         == buffer[..u] + [0x80] + Zeros(55 - u) + length
  {
  }

  lemma {:induction false} ClosesLater(f: Block, regs: Regs, buffer: seq<byte>, u: nat, length: seq<byte>)
    requires |buffer| == 64 && 56 <= u < 64 && |length| == 8
    ensures var b := Written(Written(buffer, u, [0x80]), u + 1, Zeros(63 - u));
            f(f(regs, b), Written(Written(b, 0, Zeros(56)), 56, length))
              == Blocks(f, regs, buffer[..u] + Ending(u, length))
  {
    var b := Written(Written(buffer, u, [0x80]), u + 1, Zeros(63 - u));
    EndsLater(f, regs, buffer[..u], length);
    assert b == buffer[..u] + [0x80] + Zeros(63 - u);
    assert Written(Written(b, 0, Zeros(56)), 56, length) == Zeros(56) + length;
  }

  class Context {
    const f: Block
    var regs: Regs
    var bytes: nat
    const buffer: array<byte>

    /** All that was given to the context so far. */
    ghost var message: seq<byte>

    ghost predicate Valid()
      reads this, buffer
    {
      && bytes == |message| % WORD
      && Holds(f, regs, buffer[..], message)
    }

    constructor ()
      ensures Valid() && message == [] && f == OneBlock && fresh(buffer)
    {
      f := OneBlock;
      regs := INITIAL;
      bytes := 0;
      buffer := new byte[64];
      message := [];
    }

    method Update(data: seq<byte>)
      requires Valid()
      modifies this, buffer
      ensures Valid() && message == old(message) + data
    {
      var used := bytes % 64;
      RestOf(|message|);
      WrapAdd(|message|, |data|);
      bytes := (bytes + |data|) % WORD;
      var rest := data;
      if used != 0 {
        var free := 64 - used;
        if |data| < free {
          Little(f, regs, buffer[..], message, data);
          CopyInto(buffer, used, data);
          message := message + data;
          return;
        }
        rest := data[free..];
        Enough(f, regs, buffer[..], message, data[..free]);
        CopyInto(buffer, used, data[..free]);
        regs := f(regs, buffer[..]);
        Rejoin(message, data, free);
        message := message + data[..free];
      }
      Take(rest);
    }

    /** The rest of an update, at the start of a block. */
    method Take(data: seq<byte>)
      requires buffer.Length == 64 && |message| % 64 == 0 && regs == Blocks(f, INITIAL, message)
      modifies `regs, `message, buffer
      ensures Holds(f, regs, buffer[..], message) && message == old(message) + data
    {
      AtBlock(f, regs, buffer[..], message, data);
      BlocksFull(f, regs, data);
      var rest := data;
      if |data| >= 64 {
        var n := |data| - |data| % 64;
        Multiple(|data|);
        regs := Body(f, regs, data[..n]);
        rest := data[n..];
      }
      CopyInto(buffer, 0, rest);
      message := message + data;
    }

    /** The last block, or the last two. */
    method Close(used: nat, length: seq<byte>)
      requires buffer.Length == 64 && used < 64 && |length| == 8
      modifies `regs, buffer
      ensures regs == Blocks(f, old(regs), old(buffer[..used]) + Ending(used, length))
    {
      CopyInto(buffer, used, [0x80]);
      if 64 - (used + 1) < 8 {
        ClosesLater(f, regs, old(buffer[..]), used, length);
        CopyInto(buffer, used + 1, Zeros(63 - used));
        regs := f(regs, buffer[..]);
        CopyInto(buffer, 0, Zeros(56));
      } else {
        ClosesHere(f, regs, old(buffer[..]), used, length);
        CopyInto(buffer, used + 1, Zeros(55 - used));
      }
      CopyInto(buffer, 56, length);
      regs := f(regs, buffer[..]);
    }

    /** The digest; the context is spent. */
    method Final() returns (result: seq<byte>)
      requires Valid()
      modifies this, buffer
      ensures result == Digest(f, old(message))
    {
      RestOf(|message|);
      WrapShift(|message|);
      PaddedBlocks(f, INITIAL, message);
      Close(bytes % 64, EightBytes(8 * bytes % WORD));
      result := RegsBytes(regs);
      regs := Regs(0, 0, 0, 0);
      bytes := 0;
      CopyInto(buffer, 0, Zeros(64));
    }
  }
}
