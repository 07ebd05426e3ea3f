/** The configuration file as it is read: through a buffer that is refilled when
    its end is reached, keeping the current word. */
module ConfFile {
  import opened ConfToken

  const CONF_BUFFER: nat := 4096

  /** Buffer `b` from `start` to `last` holds what is before `offset` in the text. */
  ghost predicate Shows(b: seq<char>, start: nat, pos: nat, last: nat, text: string, offset: nat) {
    start <= pos <= last <= |b| && last <= offset <= |text| && b[start..last] == text[offset - last + start..offset]
  }

  class Reader {
    const text: string          // what the file contains
    const buf: array<char>
    var pos: nat                // in the buffer
    var last: nat               // the end of what the buffer holds
    var offset: nat             // how much of the file has been read
    var line: nat
    var words: seq<string>

    /** The buffer from `start` on holds the text before the file offset. */
    ghost predicate Holds(start: nat)
      reads this, buf
    {
      buf.Length == CONF_BUFFER && Shows(buf[..], start, pos, last, text, offset)
    }

    ghost predicate Valid()
      reads this, buf
    {
      Holds(pos)
    }

    /** Where in the file the reader is. */
    ghost function At(): int
      reads this
    {
      offset - last + pos
    }

    constructor (text: string)
      ensures Valid() && this.text == text && At() == 0 && line == 1 && fresh(buf)
    {
      this.text := text;
      buf := new char[CONF_BUFFER];
      pos, last, offset, line, words := 0, 0, 0, 1, [];
    }

    /** Moves `len` characters to the front of the buffer. */
    method MoveFront(start: nat, len: nat)
      requires start + len <= buf.Length
      modifies buf
      ensures buf[..][..len] == old(buf[..])[start..start + len]
    {
      forall i | 0 <= i < len {
        buf[i] := buf[start + i];
      }
    }

    /** Reads `size` characters of the file into the buffer behind the first `len`. */
    method ReadFile(len: nat, size: nat)
      requires len + size <= buf.Length && offset + size <= |text|
      modifies buf
      ensures buf[..][..len] == old(buf[..])[..len] && buf[..][len..len + size] == text[offset..offset + size]
    {
      forall i | 0 <= i < size {
        buf[len + i] := text[offset + i];
      }
    }

    /** Keeps the current word and fills the rest of the buffer from the file. */
    method Refill(start: nat)
      requires Holds(start) && pos == last && offset < |text| && pos - start < CONF_BUFFER
      modifies this`pos, this`last, this`offset, buf
      ensures Holds(0) && pos == old(pos) - start && At() == old(At()) && pos < last
    {
      var len := pos - start;
      ghost var b0 := buf[..];
      MoveFront(start, len);
      ghost var b1 := buf[..];
      var size := |text| - offset;
      if size > CONF_BUFFER - len {
        size := CONF_BUFFER - len;
      }
      ReadFile(len, size);
      Refilled(b0, b1, buf[..], start, len, size, text, offset);
      pos := len;
      last := len + size;
      offset := offset + size;
    }

    /** What reading on will come to, with the current word from `start` on. */
    ghost function Ahead(rule: Rule, start: nat, st: State): End
      requires Holds(start)
      reads this, buf
    {
      Scan(rule, text, offset - last + pos, offset - last + start, st, CONF_BUFFER)
    }

    /** Makes sure that there is a character in the buffer, unless reading ends here. */
    method Fetch(rule: Rule, start: nat, st: State) returns (stop: bool, code: Code, end: State, begin: nat)
      requires Holds(start)
      modifies this`pos, this`last, this`offset, buf
      ensures At() == old(At())
      ensures stop ==> Holds(pos) && old(Ahead(rule, start, st)) == End(code, end, At())
      ensures !stop ==> end == st && Holds(begin) && pos < last && old(Ahead(rule, start, st)) == Ahead(rule, begin, st)
    {
      stop, code, end, begin := false, Ok, st, start;
      if pos < last {
        return;
      }
      HoldsLess(start, pos);
      if offset >= |text| {
        return true, if st.words != [] || !st.lastSpace then UnexpectedEnd else FileDone, st, start;
      }
      if pos - start == CONF_BUFFER {
        return true, TooLong, st.(line := st.startLine), start;
      }
      Refill(start);
      begin := 0;
    }

    /** What the next character in the buffer does. */
    method TakeNext(rule: Rule, start: nat, st: State) returns (stop: bool, code: Code, next: State, begin: nat)
      requires Holds(start) && pos < last
      ensures begin <= pos + 1 && Shows(buf[..], begin, pos + 1, last, text, offset)
      ensures stop ==> begin == pos + 1 && Ahead(rule, start, st) == End(code, next, At() + 1)
      ensures !stop ==> Ahead(rule, start, st) == Scan(rule, text, At() + 1, offset - last + begin, next, CONF_BUFFER)
    {
      var out := rule(st, buf[pos], buf[start..pos]);
      TakeChar(buf[..], start, pos, last, text, offset, rule, st, out);
      if out.Stop? {
        return true, out.code, out.last, pos + 1;
      }
      return false, Ok, out.st, Marked(out.mark, start, pos);
    }

    /** Takes the next character in the buffer, with the end of it all in sight. */
    method Advance(rule: Rule, start: nat, st: State, ghost e: End) returns (stop: bool, code: Code, next: State, begin: nat)
      requires Holds(start) && pos < last && Ahead(rule, start, st) == e
      modifies this`pos
      ensures At() == old(At()) + 1
      ensures stop ==> Valid() && e == End(code, next, At())
      ensures !stop ==> Holds(begin) && Ahead(rule, begin, next) == e
    {
      stop, code, next, begin := TakeNext(rule, start, st);
      pos := pos + 1;
    }

    /** Reads one character. */
    method ReadOne(rule: Rule, start: nat, st: State, ghost e: End) returns (stop: bool, code: Code, next: State, begin: nat)
      requires Holds(start) && Ahead(rule, start, st) == e
      modifies this`pos, this`last, this`offset, buf
      ensures stop ==> Valid() && e == End(code, next, At())
      ensures !stop ==> Holds(begin) && Ahead(rule, begin, next) == e && At() == old(At()) + 1
    {
      stop, code, next, begin := Fetch(rule, start, st);
      if !stop {
        stop, code, next, begin := Advance(rule, begin, next, e);
      }
    }

    /** Reads on until the rule says stop, the file ends, or a word does not fit into the buffer. */
    method ReadBy(rule: Rule) returns (code: Code)
      requires Valid()
      modifies this, buf
      ensures Valid()
      ensures var e := Scan(rule, text, old(At()), old(At()), Fresh(old(line)), CONF_BUFFER);
              code == e.code && words == e.st.words && line == e.st.line && At() == e.pos
    {
      var st, start := Fresh(line), pos;
      ghost var e := Ahead(rule, start, st);
      var stop := false;
      code := Ok;
      while !stop
        invariant stop ==> Valid() && e == End(code, st, At())
        invariant !stop ==> Holds(start) && Ahead(rule, start, st) == e
        decreases !stop, |text| - At()
      {
        stop, code, st, start := ReadOne(rule, start, st, e);
      }
      words, line := st.words, st.line;
    }

    /** Reads a directive, the start or end of a block, or the end of the file. */
    method ReadToken() returns (code: Code)
      requires Valid()
      modifies this, buf
      ensures Valid()
      ensures var e := Scan(Step, text, old(At()), old(At()), Fresh(old(line)), CONF_BUFFER);
              code == e.code && words == e.st.words && line == e.st.line && At() == e.pos
      ensures code != TooLong ==>
                var e := Scan(Step, text, old(At()), old(At()), Fresh(old(line)), |text| + 1);
                code == e.code && words == e.st.words && line == e.st.line && At() == e.pos
    {
      ghost var at, st := At(), Fresh(line);
      code := ReadBy(Step);
      if code != TooLong {
        LikeWhole(text, at, at, st, CONF_BUFFER);
      }
    }

    lemma HoldsLess(start: nat, s: nat)
      requires Holds(start) && start <= s <= pos
      ensures Holds(s)
    {
      ShowsLess(buf[..], start, s, pos, last, text, offset);
    }
  }

  /** The current word moved to the front, and more of the text behind it. */
  lemma Refilled(b0: seq<char>, b1: seq<char>, b: seq<char>, start: nat, len: nat, size: nat, text: seq<char>, offset: nat)
    requires |b0| == |b1| == |b| && Shows(b0, start, start + len, start + len, text, offset)
    requires len + size <= |b| && offset + size <= |text|
    requires b1[..len] == b0[start..start + len] && b[..len] == b1[..len] && b[len..len + size] == text[offset..offset + size]
    ensures Shows(b, 0, len, len + size, text, offset + size)
  {
    Joined(b, len, size, text, offset - len);
  }

  lemma Joined(b: seq<char>, len: nat, size: nat, text: seq<char>, from: nat)
    requires len + size <= |b| && from + len + size <= |text|
    requires b[..len] == text[from..from + len] && b[len..len + size] == text[from + len..from + len + size]
    ensures Shows(b, 0, len, len + size, text, from + len + size)
  {
    assert b[0..len + size] == b[..len] + b[len..len + size];
    assert text[from..from + len + size] == text[from..from + len] + text[from + len..from + len + size];
  }

  lemma Slices(s: seq<char>, i: nat, j: nat, k: nat)
    requires i <= j <= k <= |s|
    ensures s[i..k][..j - i] == s[i..j] && s[i..k][j - i..] == s[j..k]
  {
  }

  lemma ShowsLess(b: seq<char>, start: nat, s: nat, pos: nat, last: nat, text: string, offset: nat)
    requires Shows(b, start, pos, last, text, offset) && start <= s <= last
    ensures Shows(b, s, if s <= pos then pos else s, last, text, offset)
  {
    Slices(b, start, s, last);
    Slices(text, offset - last + start, offset - last + s, offset);
  }

  lemma ShownChar(b: seq<char>, start: nat, pos: nat, last: nat, text: string, offset: nat)
    requires Shows(b, start, pos, last, text, offset) && pos < last
    ensures b[pos] == text[offset - last + pos]
    ensures b[start..pos] == text[offset - last + start..offset - last + pos]
  {
    assert b[pos] == b[start..last][pos - start];
    Slices(b, start, pos, last);
    Slices(text, offset - last + start, offset - last + pos, offset);
  }

  /** One character from the buffer does what the same character does in the text. */
  lemma TakeChar(b: seq<char>, start: nat, pos: nat, last: nat, text: string, offset: nat, rule: Rule, st: State, out: Out)
    requires Shows(b, start, pos, last, text, offset) && pos < last && |b| == CONF_BUFFER
    requires out == rule(st, b[pos], b[start..pos])
    ensures var at := offset - last;
            Scan(rule, text, at + pos, at + start, st, CONF_BUFFER) ==
            if out.Stop? then End(out.code, out.last, at + pos + 1)
            else Scan(rule, text, at + pos + 1, at + Marked(out.mark, start, pos), out.st, CONF_BUFFER)
    ensures Shows(b, pos + 1, pos + 1, last, text, offset)
    ensures out.Go? ==> Shows(b, Marked(out.mark, start, pos), pos + 1, last, text, offset)
  {
    ShownChar(b, start, pos, last, text, offset);
    ShowsLess(b, start, pos + 1, pos, last, text, offset);
    if out.Go? {
      ShowsLess(b, start, Marked(out.mark, start, pos), pos, last, text, offset);
      assert Marked(out.mark, offset - last + start, offset - last + pos) == offset - last + Marked(out.mark, start, pos);
    }
  }
}
