/** Reading the next directive of a configuration file: what each text comes to. */
module ConfDirective {
  import opened ConfToken
  import opened ConfWords

  /** What reading a text from its start comes to. */
  function Whole(text: string, line: nat): End {
    Scan(Step, text, 0, 0, Fresh(line), |text| + 1)
  }

  function AtEnd(st: State, pos: nat): End {
    End(if st.words != [] || !st.lastSpace then UnexpectedEnd else FileDone, st, pos)
  }

  /** Reading the text with a limit it does not reach follows the rule. */
  lemma ScanFollows(rule: Rule, text: string) returns (f: Reading)
    ensures Follows(f, rule, text) && forall st :: f(0, 0, st) == Scan(rule, text, 0, 0, st, |text| + 1)
    ensures forall s: nat, st | s <= |text| :: f(|text|, s, st) == AtEnd(st, |text|)
  {
    f := (p: nat, s: nat, st: State) =>
      if s <= p <= |text| then Scan(rule, text, p, s, st, |text| + 1) else End(FileDone, st, p);
    forall p, s, st {:trigger FollowsAt(f, rule, text, p, s, st)}
      ensures FollowsAt(f, rule, text, p, s, st)
    {
    }
  }

  lemma StepReads()
    ensures Reads(Step)
  {
    StepInside();
    StepBare();
    StepClose();
    StepEnd();
  }

  /** What comes before the last word of a directive, or before what ends it. */
  datatype Opening = Opening(lead: seq<Space>, parts: seq<Part>)

  function OpeningText(o: Opening): string {
    Gap(o.lead) + Parts(o.parts)
  }

  predicate ProperOpening(o: Opening) {
    ProperGap(o.lead) && ProperParts(o.parts)
  }

  lemma {:induction false} ReadOpening(f: Reading, rule: Rule, text: string, end: nat, o: Opening, st: State)
      returns (st': State, start': nat)
    requires Reads(rule) && Follows(f, rule, text) && Sees(text, 0, end, OpeningText(o))
    requires At(st, Ready) && st.words == [] && ProperOpening(o)
    ensures At(st', Ready) && st'.words == Words(o.parts)
    ensures start' <= end && f(0, 0, st) == f(end, start', st')
  {
    var mid := SeesParts(text, 0, end, Gap(o.lead), Parts(o.parts));
    var next, begin := ReadGap(f, rule, text, 0, mid, 0, st, o.lead);
    st', start' := ReadParts(f, rule, text, mid, end, begin, next, o.parts);
    assert [] + Words(o.parts) == Words(o.parts);
  }

  lemma SeesPrefix(a: string, b: string)
    ensures Sees(a + b, 0, |a|, a)
  {
    assert (a + b)[0..|a|] == a;
  }

  // ---- Directives ----

  lemma {:induction false} WordEndBy(rule: Rule, text: string, mid: nat, end: nat, o: Opening, w: Word, ch: char, st: State)
    requires Reads(rule) && At(st, Ready) && st.words == [] && ProperOpening(o) && Proper(w) && Stops(w, ch)
    requires Sees(text, 0, mid, OpeningText(o)) && Sees(text, mid, end, WordText(w) + [ch])
    ensures var e := Scan(rule, text, 0, 0, st, |text| + 1);
            e.code == EndCode(ch) && e.st.words == Words(o.parts) + Values(w) && e.pos == end
  {
    var f := ScanFollows(rule, text);
    var next, begin := ReadOpening(f, rule, text, mid, o, st);
    WordEnd(f, rule, text, mid, end, begin, next, w, ch);
  }

  lemma DirectiveIn(text: string, mid: nat, end: nat, o: Opening, w: Word, ch: char, line: nat)
    requires ProperOpening(o) && Proper(w) && Stops(w, ch)
    requires Sees(text, 0, mid, OpeningText(o)) && Sees(text, mid, end, WordText(w) + [ch])
    ensures var e := Whole(text, line); e.code == EndCode(ch) && e.st.words == Words(o.parts) + Values(w) && e.pos == end
  {
    StepReads();
    WordEndBy(Step, text, mid, end, o, w, ch, Fresh(line));
  }

  /** Any directive whose last word is followed at once by a semicolon or a brace is read as its words,
      and reading ends behind it, whatever follows. */
  lemma ReadDirective(o: Opening, w: Word, ch: char, rest: string, line: nat)
    requires ProperOpening(o) && Proper(w) && Stops(w, ch)
    ensures var all := OpeningText(o) + (WordText(w) + [ch]);
            var e := Whole(all + rest, line);
            e.code == EndCode(ch) && e.st.words == Words(o.parts) + Values(w) && e.pos == |all|
  {
    var all := OpeningText(o) + (WordText(w) + [ch]);
    SeesPrefix(all, rest);
    var mid := SeesParts(all + rest, 0, |all|, OpeningText(o), WordText(w) + [ch]);
    DirectiveIn(all + rest, mid, |all|, o, w, ch, line);
  }

  lemma {:induction false} StopBy(rule: Rule, text: string, mid: nat, o: Opening, ch: char, st: State)
      returns (st': State, token: string)
    requires Reads(rule) && At(st, Ready) && st.words == [] && ProperOpening(o)
    requires Sees(text, 0, mid, OpeningText(o)) && mid < |text| && text[mid] == ch
    ensures At(st', Ready) && st'.words == Words(o.parts)
    ensures var out := rule(st', ch, token);
            out.Stop? ==> Scan(rule, text, 0, 0, st, |text| + 1) == End(out.code, out.last, mid + 1)
  {
    var f := ScanFollows(rule, text);
    var begin;
    st', begin := ReadOpening(f, rule, text, mid, o, st);
    token := text[begin..mid];
    assert FollowsAt(f, rule, text, mid, begin, st');
  }

  lemma StopIn(text: string, mid: nat, o: Opening, ch: char, line: nat) returns (st: State, token: string)
    requires ProperOpening(o) && Sees(text, 0, mid, OpeningText(o)) && mid < |text| && text[mid] == ch
    ensures At(st, Ready) && st.words == Words(o.parts)
    ensures var out := Step(st, ch, token); out.Stop? ==> Whole(text, line) == End(out.code, out.last, mid + 1)
  {
    StepReads();
    st, token := StopBy(Step, text, mid, o, ch, Fresh(line));
  }

  /** What reading comes to if it stops at a character where a word could start. */
  lemma StopAt(o: Opening, ch: char, rest: string, line: nat) returns (st: State, token: string)
    requires ProperOpening(o)
    ensures At(st, Ready) && st.words == Words(o.parts)
    ensures var all, out := OpeningText(o) + [ch], Step(st, ch, token);
            out.Stop? ==> Whole(all + rest, line) == End(out.code, out.last, |all|)
  {
    var all := OpeningText(o) + [ch];
    SeesPrefix(all, rest);
    var mid := SeesLast(all + rest, 0, |all|, OpeningText(o), ch);
    st, token := StopIn(all + rest, mid, o, ch, line);
  }

  lemma SomeWords(ps: seq<Part>)
    requires ps != []
    ensures Words(ps) != []
  {
    assert Words(ps) == Values(ps[0].word) + Words(ps[1..]);
  }

  /** What a semicolon or a brace means where a word could start: the end of a directive that has words. */
  lemma ReadEnd(o: Opening, ch: char, rest: string, line: nat)
    requires ProperOpening(o) && ch in ";{"
    ensures var all := OpeningText(o) + [ch];
            var e := Whole(all + rest, line);
            e.code == (if o.parts == [] then Unexpected else EndCode(ch)) && e.st.words == Words(o.parts) && e.pos == |all|
  {
    var st, token := StopAt(o, ch, rest, line);
    if o.parts != [] {
      SomeWords(o.parts);
    }
  }

  /** A closing brace where a word could start ends a block if there are no words before it. */
  lemma ReadClose(o: Opening, rest: string, line: nat)
    requires ProperOpening(o)
    ensures var all := OpeningText(o) + "}";
            var e := Whole(all + rest, line);
            e.code == (if o.parts == [] then BlockDone else Unexpected) && e.st.words == Words(o.parts) && e.pos == |all|
  {
    var st, token := StopAt(o, '}', rest, line);
    if o.parts != [] {
      SomeWords(o.parts);
    }
  }

  // ---- The end of the text ----

  lemma {:induction false} TextEndBy(rule: Rule, o: Opening, st: State) returns (st': State)
    requires Reads(rule) && At(st, Ready) && st.words == [] && ProperOpening(o)
    ensures At(st', Ready) && st'.words == Words(o.parts)
    ensures Scan(rule, OpeningText(o), 0, 0, st, |OpeningText(o)| + 1) == AtEnd(st', |OpeningText(o)|)
  {
    var text := OpeningText(o);
    assert text[0..|text|] == text;
    var f := ScanFollows(rule, text);
    var begin;
    st', begin := ReadOpening(f, rule, text, |text|, o, st);
  }

  /** A text may end where a directive could start, and not after a word. */
  lemma ReadTextEnd(o: Opening, line: nat)
    requires ProperOpening(o)
    ensures var e := Whole(OpeningText(o), line);
            e.code == (if o.parts == [] then FileDone else UnexpectedEnd) && e.st.words == Words(o.parts)
            && e.pos == |OpeningText(o)|
  {
    StepReads();
    var st := TextEndBy(Step, o, Fresh(line));
    if o.parts != [] {
      SomeWords(o.parts);
    }
  }

  /** What may be unfinished at the end of a text: a word, one in quotation marks that are not closed, or
      a comment. */
  datatype Rest = Open(w: Word) | Unclosed(mark: char, pieces: seq<Piece>) | Remark(s: string)

  function RestText(r: Rest): string {
    match r
    case Open(w) => WordText(w)
    case Unclosed(mark, ps) => [mark] + Text(ps)
    case Remark(s) => ['#'] + s
  }

  predicate ProperRest(r: Rest) {
    match r
    case Open(w) => Proper(w)
    case Unclosed(mark, ps) => ProperQuoted(mark, ps)
    case Remark(s) => '\n' !in s
  }

  lemma {:induction false} ReadRest(f: Reading, rule: Rule, text: string, pos: nat, end: nat, start: nat, st: State, r: Rest)
      returns (st': State, start': nat)
    requires Reads(rule) && Follows(f, rule, text) && start <= pos && Sees(text, pos, end, RestText(r))
    requires At(st, Ready) && ProperRest(r)
    ensures if r.Remark? then st'.words == st.words && st'.lastSpace else st'.words != [] || !st'.lastSpace
    ensures start' <= end && f(pos, start, st) == f(end, start', st')
  {
    match r
    case Open(w) =>
      if w.Quoted? {
        st' := ReadQuoted(f, rule, text, pos, end, start, st, w.mark, w.pieces);
        start' := pos + 1;
      } else {
        st', start' := ReadOpen(f, rule, text, pos, end, start, st, w);
      }
    case Unclosed(mark, ps) =>
      st' := ReadInside(f, rule, text, pos, end, start, st, mark, ps);
      start' := pos + 1;
    case Remark(s) =>
      var mid := SeesParts(text, pos, end, ['#'], s);
      SeesFirst(text, pos, mid, ['#']);
      assert FollowsAt(f, rule, text, pos, start, st);
      st' := ReadComment(f, rule, text, mid, end, pos, rule(st, '#', text[start..pos]).st, s);
      start' := pos;
  }

  lemma {:induction false} RestBy(rule: Rule, text: string, mid: nat, o: Opening, r: Rest, st: State) returns (st': State)
    requires Reads(rule) && At(st, Ready) && st.words == [] && ProperOpening(o) && ProperRest(r)
    requires Sees(text, 0, mid, OpeningText(o)) && Sees(text, mid, |text|, RestText(r))
    ensures Scan(rule, text, 0, 0, st, |text| + 1) == AtEnd(st', |text|)
    ensures if r.Remark? then st'.words == Words(o.parts) && st'.lastSpace else st'.words != [] || !st'.lastSpace
  {
    var f := ScanFollows(rule, text);
    var next, begin := ReadOpening(f, rule, text, mid, o, st);
    st', begin := ReadRest(f, rule, text, mid, |text|, begin, next, r);
  }

  lemma RestIn(text: string, mid: nat, o: Opening, r: Rest, line: nat)
    requires ProperOpening(o) && ProperRest(r)
    requires Sees(text, 0, mid, OpeningText(o)) && Sees(text, mid, |text|, RestText(r))
    ensures Whole(text, line).code == if r.Remark? && o.parts == [] then FileDone else UnexpectedEnd
    ensures Whole(text, line).pos == |text|
  {
    StepReads();
    var st := RestBy(Step, text, mid, o, r, Fresh(line));
    if o.parts != [] {
      SomeWords(o.parts);
    }
  }

  /** A text may end in a comment, and not in a word or inside quotation marks. */
  lemma ReadUnfinished(o: Opening, r: Rest, line: nat)
    requires ProperOpening(o) && ProperRest(r)
    ensures var text := OpeningText(o) + RestText(r);
            var e := Whole(text, line);
            e.code == (if r.Remark? && o.parts == [] then FileDone else UnexpectedEnd) && e.pos == |text|
  {
    var text := OpeningText(o) + RestText(r);
    assert text[0..|text|] == text;
    var mid := SeesParts(text, 0, |text|, OpeningText(o), RestText(r));
    RestIn(text, mid, o, r, line);
  }

  // ---- What may follow a quotation mark ----

  lemma {:induction false} BehindBy(rule: Rule, text: string, mid: nat, end: nat, o: Opening, mark: char, ps: seq<Piece>, st: State)
      returns (st': State, token: string)
    requires Reads(rule) && At(st, Ready) && st.words == [] && ProperOpening(o) && ProperQuoted(mark, ps)
    requires Sees(text, 0, mid, OpeningText(o)) && Sees(text, mid, end, QuotedText(mark, ps)) && end < |text|
    ensures At(st', Closed) && st'.words == Words(o.parts) + [Value(ps)]
    ensures var out := rule(st', text[end], token);
            out.Stop? ==> Scan(rule, text, 0, 0, st, |text| + 1) == End(out.code, out.last, end + 1)
  {
    var f := ScanFollows(rule, text);
    var next, begin := ReadOpening(f, rule, text, mid, o, st);
    st' := ReadQuoted(f, rule, text, mid, end, begin, next, mark, ps);
    token := text[mid + 1..end];
    assert FollowsAt(f, rule, text, end, mid + 1, st');
  }

  lemma BehindAt(text: string, mid: nat, end: nat, o: Opening, mark: char, ps: seq<Piece>, line: nat)
      returns (st: State, token: string)
    requires ProperOpening(o) && ProperQuoted(mark, ps)
    requires Sees(text, 0, mid, OpeningText(o)) && Sees(text, mid, end, QuotedText(mark, ps)) && end < |text|
    ensures At(st, Closed) && st.words == Words(o.parts) + [Value(ps)]
    ensures var out := Step(st, text[end], token); out.Stop? ==> Whole(text, line) == End(out.code, out.last, end + 1)
  {
    StepReads();
    st, token := BehindBy(Step, text, mid, end, o, mark, ps, Fresh(line));
  }

  lemma BehindIn(text: string, mid: nat, end: nat, o: Opening, mark: char, ps: seq<Piece>, line: nat)
    requires ProperOpening(o) && ProperQuoted(mark, ps)
    requires Sees(text, 0, mid, OpeningText(o)) && Sees(text, mid, end, QuotedText(mark, ps)) && end < |text|
    requires !Blank(text[end]) && text[end] !in ";{)"
    ensures var e := Whole(text, line);
            e.code == Unexpected && e.st.words == Words(o.parts) + [Value(ps)] && e.pos == end + 1
  {
    var st, token := BehindAt(text, mid, end, o, mark, ps, line);
  }

  /** Behind a closing quotation mark nothing but a blank, the end of the directive or a closing
      parenthesis is accepted. */
  lemma ReadBehind(o: Opening, mark: char, ps: seq<Piece>, ch: char, rest: string, line: nat)
    requires ProperOpening(o) && ProperQuoted(mark, ps) && !Blank(ch) && ch !in ";{)"
    ensures var all := OpeningText(o) + QuotedText(mark, ps);
            var e := Whole(all + ([ch] + rest), line);
            e.code == Unexpected && e.st.words == Words(o.parts) + [Value(ps)] && e.pos == |all| + 1
  {
    var all := OpeningText(o) + QuotedText(mark, ps);
    var text := all + ([ch] + rest);
    SeesPrefix(all, [ch] + rest);
    var mid := SeesParts(text, 0, |all|, OpeningText(o), QuotedText(mark, ps));
    BehindIn(text, mid, |all|, o, mark, ps, line);
  }

  // ---- Lines ----

  function Newlines(s: string): nat {
    if s == [] then 0 else (if s[0] == '\n' then 1 else 0) + Newlines(s[1..])
  }

  lemma NewlinesFrom(text: string, pos: nat, end: nat)
    requires pos < end <= |text|
    ensures Newlines(text[pos..end]) == (if text[pos] == '\n' then 1 else 0) + Newlines(text[pos + 1..end])
  {
    assert text[pos..end][1..] == text[pos + 1..end];
  }

  predicate CountsLine(out: Out, st: State, ch: char) {
    (if out.Go? then out.st else out.last).line == if ch == '\n' then st.line + 1 else st.line
  }

  lemma StepLine(st: State, ch: char, token: string)
    ensures CountsLine(Step(st, ch, token), st, ch)
  {
  }

  ghost predicate Counts(rule: Rule) {
    forall st, ch, token :: CountsLine(rule(st, ch, token), st, ch)
  }

  lemma {:induction false} LinesBy(rule: Rule, text: string, pos: nat, start: nat, st: State, limit: nat)
    requires start <= pos <= |text| && Counts(rule)
    ensures var e := Scan(rule, text, pos, start, st, limit);
            pos <= e.pos <= |text| && (e.st.line == st.line + Newlines(text[pos..e.pos]) || e.code == TooLong)
    decreases |text| - pos
  {
    if pos < |text| && pos - start != limit {
      var out := rule(st, text[pos], text[start..pos]);
      assert CountsLine(out, st, text[pos]);
      var e := Scan(rule, text, pos, start, st, limit);
      if out.Go? {
        LinesBy(rule, text, pos + 1, Marked(out.mark, start, pos), out.st, limit);
      }
      NewlinesFrom(text, pos, e.pos);
    }
  }

  /** The line is the one reading started in and one more for each line end read: also in comments and
      inside quotation marks. */
  lemma LineCount(text: string, line: nat)
    ensures var e := Whole(text, line); e.pos <= |text| && e.st.line == line + Newlines(text[..e.pos])
  {
    forall st, ch, token
      ensures CountsLine(Step(st, ch, token), st, ch)
    {
      StepLine(st, ch, token);
    }
    LinesBy(Step, text, 0, 0, Fresh(line), |text| + 1);
    NoLimit(text, 0, 0, Fresh(line), |text| + 1);
    var e := Whole(text, line);
    assert text[0..e.pos] == text[..e.pos];
  }

  predicate MarksLine(out: Out, st: State, ch: char) {
    match out
    case Go(st', Keep) => st'.startLine == st.startLine
    case Go(st', _) => st'.startLine == st.line && ch != '\n'
    case Stop(code, _) => code != TooLong
  }

  lemma StepMark(st: State, ch: char, token: string)
    ensures MarksLine(Step(st, ch, token), st, ch)
  {
  }

  lemma {:induction false} NewlinesUpTo(text: string, pos: nat)
    requires pos < |text|
    ensures Newlines(text[..pos + 1]) == Newlines(text[..pos]) + if text[pos] == '\n' then 1 else 0
  {
    if pos == 0 {
      assert text[..1][1..] == [];
    } else {
      NewlinesUpTo(text[1..], pos - 1);
      assert text[..pos + 1][1..] == text[1..][..pos];
      assert text[..pos][1..] == text[1..][..pos - 1];
    }
  }

  /** `line` and `startLine` are the lines of the position and of the start of the current word. */
  predicate LinesOf(text: string, pos: nat, start: nat, st: State, line: nat) {
    start <= pos <= |text| && st.line == line + Newlines(text[..pos]) && st.startLine == line + Newlines(text[..start])
  }

  lemma LinesNext(text: string, pos: nat, start: nat, st: State, line: nat, out: Out)
    requires LinesOf(text, pos, start, st, line) && pos < |text| && out.Go?
    requires CountsLine(out, st, text[pos]) && MarksLine(out, st, text[pos])
    ensures LinesOf(text, pos + 1, Marked(out.mark, start, pos), out.st, line)
  {
    NewlinesUpTo(text, pos);
  }

  lemma {:induction false} TooLongFrom(text: string, pos: nat, start: nat, st: State, line: nat, limit: nat)
    requires LinesOf(text, pos, start, st, line)
    ensures var e := Scan(Step, text, pos, start, st, limit);
            e.code == TooLong ==> limit <= e.pos <= |text| && e.st.line == line + Newlines(text[..e.pos - limit])
    decreases |text| - pos
  {
    if pos < |text| && pos - start != limit {
      var out := Step(st, text[pos], text[start..pos]);
      StepLine(st, text[pos], text[start..pos]);
      StepMark(st, text[pos], text[start..pos]);
      if out.Go? {
        LinesNext(text, pos, start, st, line, out);
        TooLongFrom(text, pos + 1, Marked(out.mark, start, pos), out.st, line, limit);
      }
    }
  }

  /** For a word that is too long the line is that of its start. */
  lemma TooLongLine(text: string, line: nat, limit: nat)
    ensures var e := Scan(Step, text, 0, 0, Fresh(line), limit);
            e.code == TooLong ==> limit <= e.pos <= |text| && e.st.line == line + Newlines(text[..e.pos - limit])
  {
    TooLongFrom(text, 0, 0, Fresh(line), line, limit);
  }

  // ---- Plain words, and any words in quotation marks ----

  predicate PlainChar(c: char) {
    !Blank(c) && c !in ";{}\"\'\\$"
  }

  predicate PlainWord(w: string) {
    w != [] && w[0] != '#' && forall i | 0 <= i < |w| :: PlainChar(w[i])
  }

  function Plainly(w: string): seq<Piece> {
    if w == [] then [] else [Plain(w[0])] + Plainly(w[1..])
  }

  lemma {:induction false} PlainlyRuns(w: string)
    requires forall i | 0 <= i < |w| :: PlainChar(w[i])
    ensures Run(InBare(false), Plainly(w)) && Last(InBare(false), Plainly(w)) == InBare(false)
    ensures Text(Plainly(w)) == w && Value(Plainly(w)) == w
    decreases |w|
  {
    if w != [] {
      assert PlainChar(w[0]);
      PlainlyRuns(w[1..]);
      assert Plainly(w)[1..] == Plainly(w[1..]);
      assert w == [w[0]] + w[1..];
    }
  }

  lemma PlainProper(w: string)
    requires PlainWord(w)
    ensures var b := Bare(Plainly(w));
            Proper(b) && WordText(b) == w && Values(b) == [w] && forall ch | ch in ";{" :: Stops(b, ch)
  {
    assert PlainChar(w[0]);
    PlainlyRuns(w);
    PlainlyRuns(w[1..]);
    assert Plainly(w)[1..] == Plainly(w[1..]);
  }

  predicate Blanks(s: string) {
    forall i | 0 <= i < |s| :: Blank(s[i])
  }

  function White(s: string): seq<Space> {
    if s == [] then [] else [Space.White(s[0])] + White(s[1..])
  }

  lemma {:induction false} WhiteGap(s: string)
    requires Blanks(s)
    ensures ProperGap(White(s)) && Gap(White(s)) == s
    decreases |s|
  {
    if s != [] {
      WhiteGap(s[1..]);
      assert White(s)[1..] == White(s[1..]);
      assert s == [s[0]] + s[1..];
    }
  }

  /** Plain words, each with the blanks behind it. */
  function Line(ws: seq<string>, gaps: seq<string>): string
    requires |ws| == |gaps|
  {
    if ws == [] then [] else ws[0] + gaps[0] + Line(ws[1..], gaps[1..])
  }

  predicate PlainLine(ws: seq<string>, gaps: seq<string>) {
    |ws| == |gaps| && forall i | 0 <= i < |ws| :: PlainWord(ws[i]) && gaps[i] != [] && Blanks(gaps[i])
  }

  function PlainPart(w: string, gap: string): Part
    requires gap != []
  {
    Part(Bare(Plainly(w)), gap[0], White(gap[1..]))
  }

  function PlainParts(ws: seq<string>, gaps: seq<string>): seq<Part>
    requires PlainLine(ws, gaps)
  {
    if ws == [] then [] else [PlainPart(ws[0], gaps[0])] + PlainParts(ws[1..], gaps[1..])
  }

  lemma PlainPartIs(w: string, gap: string)
    requires PlainWord(w) && gap != [] && Blanks(gap)
    ensures ProperPart(PlainPart(w, gap)) && PartText(PlainPart(w, gap)) == w + gap && Values(PlainPart(w, gap).word) == [w]
  {
    PlainProper(w);
    WhiteGap(gap[1..]);
    WithGap(w, gap);
  }

  lemma WithGap(w: string, gap: string)
    requires gap != []
    ensures w + [gap[0]] + gap[1..] == w + gap
  {
  }

  lemma {:induction false} PlainPartsAre(ws: seq<string>, gaps: seq<string>)
    requires PlainLine(ws, gaps)
    ensures var ps := PlainParts(ws, gaps); ProperParts(ps) && Parts(ps) == Line(ws, gaps) && Words(ps) == ws
    decreases |ws|
  {
    if ws != [] {
      PlainPartIs(ws[0], gaps[0]);
      PlainPartsAre(ws[1..], gaps[1..]);
      assert PlainParts(ws, gaps)[1..] == PlainParts(ws[1..], gaps[1..]);
      assert ws == [ws[0]] + ws[1..];
    }
  }

  /** Plain words with blanks between them are read back, with a semicolon or a brace right behind the
      last one or after blanks. */
  lemma ReadPlain(ws: seq<string>, gaps: seq<string>, last: string, ch: char, rest: string, line: nat)
    requires PlainLine(ws, gaps) && PlainWord(last) && ch in ";{"
    ensures var all := Line(ws, gaps) + (last + [ch]);
            var e := Whole(all + rest, line);
            e.code == EndCode(ch) && e.st.words == ws + [last] && e.pos == |all|
    ensures ws != [] ==>
              var all := Line(ws, gaps) + [ch];
              var e := Whole(all + rest, line);
              e.code == EndCode(ch) && e.st.words == ws && e.pos == |all|
  {
    var o := Opening([], PlainParts(ws, gaps));
    PlainPartsAre(ws, gaps);
    PlainProper(last);
    assert OpeningText(o) == Line(ws, gaps);
    ReadDirective(o, Bare(Plainly(last)), ch, rest, line);
    ReadEnd(o, ch, rest, line);
  }

  /** The first character of a word is not looked at as a dollar sign: without quotation marks a word
      cannot start with a variable in braces, since the brace starts a block. */
  lemma LeadingVariable(o: Opening, rest: string, line: nat)
    requires ProperOpening(o)
    ensures var all := OpeningText(o) + "${";
            var e := Whole(all + rest, line);
            e.code == BlockStart && e.st.words == Words(o.parts) + ["$"] && e.pos == |all|
  {
    var w := Bare([Plain('$')]);
    assert WordText(w) == "$" && Value(w.pieces) == "$" by {
      assert w.pieces[1..] == [];
    }
    assert w.pieces[1..] == [];
    assert "$" + ['{'] == "${";
    ReadDirective(o, w, '{', rest, line);
  }

  function Quoting(mark: char, w: string): seq<Piece> {
    if w == [] then [] else
      [if w[0] == '\\' || w[0] == mark then Escape(w[0]) else Plain(w[0])] + Quoting(mark, w[1..])
  }

  lemma {:induction false} QuotingIs(mark: char, w: string)
    requires mark in "\"\'"
    ensures ProperQuoted(mark, Quoting(mark, w)) && Value(Quoting(mark, w)) == w
    decreases |w|
  {
    if w != [] {
      QuotingIs(mark, w[1..]);
      assert Quoting(mark, w)[1..] == Quoting(mark, w[1..]);
      assert w == [w[0]] + w[1..];
    }
  }

  /** The words in quotation marks, with a space behind each. */
  function QuotedParts(mark: char, ws: seq<string>): seq<Part> {
    if ws == [] then [] else [Part(Quoted(mark, Quoting(mark, ws[0])), ' ', [])] + QuotedParts(mark, ws[1..])
  }

  lemma {:induction false} QuotedPartsAre(mark: char, ws: seq<string>)
    requires mark in "\"\'"
    ensures var ps := QuotedParts(mark, ws); ProperParts(ps) && Words(ps) == ws && |ps| == |ws|
    decreases |ws|
  {
    if ws != [] {
      QuotingIs(mark, ws[0]);
      QuotedPartsAre(mark, ws[1..]);
      assert QuotedParts(mark, ws)[1..] == QuotedParts(mark, ws[1..]);
      assert ws == [ws[0]] + ws[1..];
    }
  }

  /** Any words, written in quotation marks, are read back, whatever follows the directive. */
  lemma ReadBack(mark: char, ws: seq<string>, ch: char, rest: string, line: nat)
    requires mark in "\"\'" && ws != [] && ch in ";{"
    ensures var all := Parts(QuotedParts(mark, ws)) + [ch];
            var e := Whole(all + rest, line);
            e.code == EndCode(ch) && e.st.words == ws && e.pos == |all|
  {
    QuotedPartsAre(mark, ws);
    var o := Opening([], QuotedParts(mark, ws));
    assert OpeningText(o) == Parts(QuotedParts(mark, ws));
    ReadEnd(o, ch, rest, line);
  }
}
