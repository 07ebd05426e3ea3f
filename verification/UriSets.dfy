/** Which characters each kind of escaping replaces. */
module UriSets {
  import opened Common
  import opened UriEscape

  predicate Alphanumeric(c: byte) {
    0x30 <= c <= 0x39 || 0x41 <= c <= 0x5a || 0x61 <= c <= 0x7a
  }

  /** Control characters, the space, and what is not ASCII. */
  predicate Unprintable(c: byte) {
    c <= 0x20 || c >= 0x7f
  }

  /** The set of a kind. `Args` has the semicolon too. */
  predicate InSet(kind: Kind, c: byte) {
    match kind
    case Uri => Unprintable(c) || c == '#' as int || c == '%' as int || c == '?' as int
    case Args =>
      Unprintable(c) || c == '#' as int || c == '%' as int || c == '&' as int || c == '+' as int || c == ';' as int
      || c == '?' as int
    case UriComponent =>
      !Alphanumeric(c) && c != '-' as int && c != '.' as int && c != '_' as int && c != '~' as int
    case Html => Unprintable(c) || c == '"' as int || c == '#' as int || c == '%' as int || c == '\'' as int
    case Refresh => Unprintable(c) || c == '"' as int || c == '\'' as int
    case _ => c <= 0x20 || c == '%' as int
  }

  predicate Bit(word: bv32, b: nat)
    requires b < 32
  {
    word & ((1 as bv32) << b) != 0
  }

  // The words of the tables, bit by bit.

  lemma AllSet(b: nat)
    requires b < 32
    ensures Bit(0xffff_ffff, b) && !Bit(0, b) && (Bit(0x8000_0000, b) <==> b == 31)
  {
  }

  lemma UriWord(b: nat)
    requires b < 32
    ensures Bit(0x8000_0029, b) <==> b == 0 || b == 3 || b == 5 || b == 31
    ensures Bit(0x8800_0869, b) <==> b == 0 || b == 3 || b == 5 || b == 6 || b == 11 || b == 27 || b == 31
  {
  }

  lemma ComponentWord(b: nat)
    requires b < 32
    ensures Bit(0xfc00_9fff, b) <==> b < 13 || b == 15 || b >= 26
    ensures Bit(0x7800_0001, b) <==> b == 0 || 27 <= b < 31
    ensures Bit(0xb800_0001, b) <==> b == 0 || 27 <= b < 30 || b == 31
  {
  }

  lemma TextWord(b: nat)
    requires b < 32
    ensures Bit(0x0000_00ad, b) <==> b == 0 || b == 2 || b == 3 || b == 5 || b == 7
    ensures Bit(0x0000_0085, b) <==> b == 0 || b == 2 || b == 7
    ensures Bit(0x0000_0021, b) <==> b == 0 || b == 5
  {
  }

  lemma LowBit(kind: Kind, b: nat)
    requires b < 32
    ensures Bit(Word(kind, 0), b) <==> InSet(kind, b)
    ensures Bit(Word(kind, 1), b) <==> InSet(kind, 32 + b)
  {
    AllSet(b);
    UriWord(b);
    ComponentWord(b);
    TextWord(b);
  }

  lemma MiddleBit(kind: Kind, b: nat)
    requires b < 32
    ensures Bit(Word(kind, 2), b) <==> InSet(kind, 64 + b)
    ensures Bit(Word(kind, 3), b) <==> InSet(kind, 96 + b)
  {
    AllSet(b);
    ComponentWord(b);
  }

  lemma HighBit(kind: Kind, k: nat, b: nat)
    requires 4 <= k < 8 && b < 32
    ensures Bit(Word(kind, k), b) <==> InSet(kind, 32 * k + b)
  {
    AllSet(b);
  }

  lemma WordBit(kind: Kind, k: nat, b: nat)
    requires k < 8 && b < 32
    ensures Bit(Word(kind, k), b) <==> InSet(kind, 32 * k + b)
  {
    if k == 0 || k == 1 {
      LowBit(kind, b);
    } else if k == 2 || k == 3 {
      MiddleBit(kind, b);
    } else {
      HighBit(kind, k, b);
    }
  }

  lemma SpecialBit(kind: Kind, c: byte, k: nat, b: nat)
    requires k == c as int / 32 && b == c as int % 32
    ensures Special(kind, c) <==> Bit(Word(kind, k), b)
  {
  }

  /** A character is replaced exactly if it is in the set of the kind. */
  lemma EscapeSet(kind: Kind, c: byte)
    ensures Special(kind, c) <==> InSet(kind, c)
  {
    var k, b := c / 32, c % 32;
    assert c == 32 * k + b;
    SpecialBit(kind, c, k, b);
    WordBit(kind, k, b);
  }

  /** The digits that are written are capitals. */
  lemma UpperHex(n: nat)
    requires n < 16
    ensures Hex(n) == "0123456789ABCDEF"[n] as int
  {
  }
}
