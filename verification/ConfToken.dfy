/** Reading one directive's words from a configuration file: what each character
    does, and the reader that sees the file through a small buffer. */
module ConfToken {

  datatype Code = Ok | BlockStart | BlockDone | FileDone | UnexpectedEnd | Unexpected | TooLong

  datatype State = State(needSpace: bool, lastSpace: bool, comment: bool, variable: bool, quoted: bool,
                         single: bool, double: bool, words: seq<string>, line: nat, startLine: nat)

  /** What happens to the start of the current word: nothing, it is the character just read, or the one
      after it. */
  datatype Mark = Keep | Here | After

  datatype Out = Go(st: State, mark: Mark) | Stop(code: Code, last: State)

  function Fresh(line: nat): State {
    State(false, true, false, false, false, false, false, [], line, line)
  }

  predicate Blank(ch: char) {
    ch == ' ' || ch == '\t' || ch == '\r' || ch == '\n'
  }

  /** The word in `t[i..end]` with its escapes replaced; `t` has the character behind the word too. */
  function Unescape(t: string, i: nat, end: nat): string
    requires end < |t|
    decreases end - i
  {
    if i >= end then []
    else if t[i] == '\\' && t[i + 1] in ['"', '\'', '\\'] then [t[i + 1]] + Unescape(t, i + 2, end)
    else if t[i] == '\\' && t[i + 1] == 't' then ['\t'] + Unescape(t, i + 2, end)
    else if t[i] == '\\' && t[i + 1] == 'r' then ['\r'] + Unescape(t, i + 2, end)
    else if t[i] == '\\' && t[i + 1] == 'n' then ['\n'] + Unescape(t, i + 2, end)
    else [t[i]] + Unescape(t, i + 1, end)
  }

  /** The effect of character `ch`; `token` is the current word up to it. */
  function Step(st0: State, ch: char, token: string): Out {
    var st := if ch == '\n' then st0.(line := st0.line + 1, comment := false) else st0;
    if st.comment then Go(st, Keep)
    else if st.quoted then Go(st.(quoted := false), Keep)
    else if st.needSpace then
      if Blank(ch) then Go(st.(lastSpace := true, needSpace := false), Keep)
      else if ch == ';' then Stop(Ok, st)
      else if ch == '{' then Stop(BlockStart, st)
      else if ch == ')' then FirstChar(st.(lastSpace := true, needSpace := false), ch)
      else Stop(Unexpected, st)
    else if st.lastSpace then FirstChar(st, ch)
    else InWord(st, ch, token)
  }

  function FirstChar(st0: State, ch: char): Out {
    if Blank(ch) then Go(st0, Keep)
    else
      var st := st0.(startLine := st0.line);
      if ch == ';' || ch == '{' then
        if st.words == [] then Stop(Unexpected, st)
        else if ch == '{' then Stop(BlockStart, st)
        else Stop(Ok, st)
      else if ch == '}' then (if st.words != [] then Stop(Unexpected, st) else Stop(BlockDone, st))
      else if ch == '#' then Go(st.(comment := true), Here)
      else if ch == '\\' then Go(st.(quoted := true, lastSpace := false), Here)
      else if ch == '"' then Go(st.(double := true, lastSpace := false), After)
      else if ch == '\'' then Go(st.(single := true, lastSpace := false), After)
      else Go(st.(lastSpace := false), Here)
  }

  function InWord(st0: State, ch: char, token: string): Out {
    if ch == '{' && st0.variable then Go(st0, Keep)
    else
      var st := st0.(variable := false);
      if ch == '\\' then Go(st.(quoted := true), Keep)
      else if ch == '$' then Go(st.(variable := true), Keep)
      else if st.double then
        if ch == '"' then AddWord(st.(double := false, needSpace := true), ch, token) else Go(st, Keep)
      else if st.single then
        if ch == '\'' then AddWord(st.(single := false, needSpace := true), ch, token) else Go(st, Keep)
      else if Blank(ch) || ch == ';' || ch == '{' then AddWord(st.(lastSpace := true), ch, token)
      else Go(st, Keep)
  }

  function AddWord(st0: State, ch: char, token: string): Out {
    var st := st0.(words := st0.words + [Unescape(token + [ch], 0, |token|)]);
    if ch == ';' then Stop(Ok, st)
    else if ch == '{' then Stop(BlockStart, st)
    else Go(st, Keep)
  }

  // ---- Reading a text that is all there ----

  /** How reading ends: the code, the words and the line, and the position behind what was read. */
  datatype End = End(code: Code, st: State, pos: nat)

  function Marked(mark: Mark, start: nat, pos: nat): (r: nat)
    ensures start <= pos ==> r <= pos + 1
  {
    match mark
    case Keep => start
    case Here => pos
    case After => pos + 1
  }

  /** What one character does to the state and the word so far. */
  type Rule = (State, char, string) -> Out

  /** Reading on from `pos`, with the current word from `start` on, if a word and what follows it up to
      the next one may have fewer than `limit` characters. */
  function Scan(rule: Rule, text: string, pos: nat, start: nat, st: State, limit: nat): End
    requires start <= pos <= |text|
    decreases |text| - pos
  {
    if pos == |text| then
      End(if st.words != [] || !st.lastSpace then UnexpectedEnd else FileDone, st, pos)
    else if pos - start == limit then End(TooLong, st.(line := st.startLine), pos)
    else
      match rule(st, text[pos], text[start..pos])
      case Stop(code, last) => End(code, last, pos + 1)
      case Go(st', mark) => Scan(rule, text, pos + 1, Marked(mark, start, pos), st', limit)
  }

  /** The limit makes no difference but that the reading may stop early with this error. */
  lemma {:induction false} LimitOnly(rule: Rule, text: string, pos: nat, start: nat, st: State, limit: nat, other: nat)
    requires start <= pos <= |text|
    requires Scan(rule, text, pos, start, st, limit).code != TooLong
    requires Scan(rule, text, pos, start, st, other).code != TooLong
    ensures Scan(rule, text, pos, start, st, limit) == Scan(rule, text, pos, start, st, other)
    decreases |text| - pos
  {
    if pos < |text| {
      var out := rule(st, text[pos], text[start..pos]);
      if out.Go? {
        LimitOnly(rule, text, pos + 1, Marked(out.mark, start, pos), out.st, limit, other);
      }
    }
  }

  /** With a limit longer than the text the error does not occur. */
  lemma {:induction false} NoLimit(text: string, pos: nat, start: nat, st: State, limit: nat)
    requires start <= pos <= |text| < limit
    ensures Scan(Step, text, pos, start, st, limit).code != TooLong
    decreases |text| - pos
  {
    if pos < |text| {
      var out := Step(st, text[pos], text[start..pos]);
      if out.Go? {
        NoLimit(text, pos + 1, Marked(out.mark, start, pos), out.st, limit);
      } else {
        StopCode(st, text[pos], text[start..pos]);
      }
    }
  }

  lemma StopCode(st: State, ch: char, token: string)
    ensures Step(st, ch, token).Stop? ==> Step(st, ch, token).code != TooLong
  {
  }

  /** Whenever the error is not raised, reading with a limit is reading the whole text at once. */
  lemma {:induction false} LikeWhole(text: string, pos: nat, start: nat, st: State, limit: nat)
    requires start <= pos <= |text| && Scan(Step, text, pos, start, st, limit).code != TooLong
    ensures Scan(Step, text, pos, start, st, limit) == Scan(Step, text, pos, start, st, |text| + 1)
  {
    NoLimit(text, pos, start, st, |text| + 1);
    LimitOnly(Step, text, pos, start, st, limit, |text| + 1);
  }
}
