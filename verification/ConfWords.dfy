/** How a directive may be written, and that the reader finds the words that were
    written, whatever the blanks, comments, quotation marks and escapes. */
module ConfWords {
  import opened ConfToken

  // ---- Words as they are written ----

  /** A character as it is, or one behind a backslash. */
  datatype Piece = Plain(c: char) | Escape(c: char)

  /** What is written without blanks: a word, one in quotation marks, or one in quotation marks and a
      second word that starts with a closing parenthesis. */
  datatype Word = Bare(pieces: seq<Piece>)
                | Quoted(mark: char, pieces: seq<Piece>)
                | Joined(mark: char, inner: seq<Piece>, pieces: seq<Piece>)

  function PieceText(p: Piece): string {
    match p
    case Plain(c) => [c]
    case Escape(c) => ['\\', c]
  }

  function PieceValue(p: Piece): string {
    match p
    case Plain(c) => [c]
    case Escape(c) =>
      if c in ['"', '\'', '\\'] then [c]
      else if c == 't' then ['\t']
      else if c == 'r' then ['\r']
      else if c == 'n' then ['\n']
      else ['\\', c]
  }

  function Text(ps: seq<Piece>): string {
    if ps == [] then [] else PieceText(ps[0]) + Text(ps[1..])
  }

  /** What the pieces stand for. */
  function Value(ps: seq<Piece>): string {
    if ps == [] then [] else PieceValue(ps[0]) + Value(ps[1..])
  }

  function QuotedText(mark: char, ps: seq<Piece>): string {
    [mark] + Text(ps) + [mark]
  }

  function WordText(w: Word): string {
    match w
    case Bare(ps) => Text(ps)
    case Quoted(mark, ps) => QuotedText(mark, ps)
    case Joined(mark, inner, ps) => QuotedText(mark, inner) + Text(ps)
  }

  function Values(w: Word): seq<string> {
    if w.Joined? then [Value(w.inner), Value(w.pieces)] else [Value(w.pieces)]
  }

  /** Where the reader is: before a word, in a word, behind a closing quotation mark. `variable` is set
      behind a dollar sign that is not the first character of the word. */
  datatype Place = Ready | InBare(variable: bool) | Inside(mark: char) | Closed

  /** Whether a word may go on with this piece. */
  predicate Continues(m: Place, p: Piece) {
    p.Plain? ==>
      p.c != '\\' &&
      match m
      case InBare(variable) => !Blank(p.c) && p.c != ';' && (p.c == '{' ==> variable)
      case Inside(mark) => p.c != mark
      case _ => false
  }

  function Next(m: Place, p: Piece): Place {
    if m.InBare? then InBare(p.Plain? && p.c in "${") else m
  }

  predicate Run(m: Place, ps: seq<Piece>)
    decreases |ps|
  {
    ps == [] || (Continues(m, ps[0]) && Run(Next(m, ps[0]), ps[1..]))
  }

  /** Where the reader is behind the pieces. */
  function Last(m: Place, ps: seq<Piece>): (r: Place)
    ensures if m.InBare? then r.InBare? else r == m
    decreases |ps|
  {
    if ps == [] then m else Last(Next(m, ps[0]), ps[1..])
  }

  predicate Opens(p: Piece) {
    p.Plain? ==> !Blank(p.c) && p.c !in ";{}#\\\"\'"
  }

  predicate ProperBare(ps: seq<Piece>) {
    ps != [] && Opens(ps[0]) && Run(InBare(false), ps[1..])
  }

  predicate ProperQuoted(mark: char, ps: seq<Piece>) {
    mark in "\"\'" && Run(Inside(mark), ps)
  }

  predicate Proper(w: Word) {
    match w
    case Bare(ps) => ProperBare(ps)
    case Quoted(mark, ps) => ProperQuoted(mark, ps)
    case Joined(mark, inner, ps) => ProperQuoted(mark, inner) && ProperBare(ps) && ps[0] == Plain(')')
  }

  // ---- Directives as they are written ----

  /** What may stand between words; a comment ends with its line. */
  datatype Space = White(c: char) | Comment(s: string)

  function SpaceText(s: Space): string {
    match s
    case White(c) => [c]
    case Comment(s) => ['#'] + s + ['\n']
  }

  predicate ProperSpace(s: Space) {
    match s
    case White(c) => Blank(c)
    case Comment(s) => '\n' !in s
  }

  function Gap(g: seq<Space>): string {
    if g == [] then [] else SpaceText(g[0]) + Gap(g[1..])
  }

  predicate ProperGap(g: seq<Space>) {
    forall i | 0 <= i < |g| :: ProperSpace(g[i])
  }

  /** A word, at least one blank, and what more there is before the next word. */
  datatype Part = Part(word: Word, blank: char, gap: seq<Space>)

  function PartText(p: Part): string {
    WordText(p.word) + [p.blank] + Gap(p.gap)
  }

  predicate ProperPart(p: Part) {
    Proper(p.word) && Blank(p.blank) && ProperGap(p.gap)
  }

  function Parts(ps: seq<Part>): string {
    if ps == [] then [] else PartText(ps[0]) + Parts(ps[1..])
  }

  predicate ProperParts(ps: seq<Part>) {
    forall i | 0 <= i < |ps| :: ProperPart(ps[i])
  }

  function Words(ps: seq<Part>): seq<string> {
    if ps == [] then [] else Values(ps[0].word) + Words(ps[1..])
  }

  // ---- Replacing the escapes ----

  predicate NoBackslash(ps: seq<Piece>) {
    forall i | 0 <= i < |ps| :: ps[i] != Plain('\\')
  }

  lemma {:induction false} RunClean(m: Place, ps: seq<Piece>)
    requires Run(m, ps)
    ensures NoBackslash(ps)
    decreases |ps|
  {
    if ps != [] {
      RunClean(Next(m, ps[0]), ps[1..]);
      assert forall i | 0 < i < |ps| :: ps[i] == ps[1..][i - 1];
    }
  }

  lemma BareClean(ps: seq<Piece>)
    requires ProperBare(ps)
    ensures NoBackslash(ps)
  {
    RunClean(InBare(false), ps[1..]);
    assert forall i | 0 < i < |ps| :: ps[i] == ps[1..][i - 1];
  }

  /** The text has `s` from `pos` to `end`. */
  predicate Sees(text: string, pos: nat, end: nat, s: string) {
    pos <= end <= |text| && text[pos..end] == s
  }

  lemma SeesParts(text: string, pos: nat, end: nat, a: string, b: string) returns (mid: nat)
    requires Sees(text, pos, end, a + b)
    ensures mid == pos + |a| && mid + |b| == end && Sees(text, pos, mid, a) && Sees(text, mid, end, b)
  {
    mid := pos + |a|;
    var s := text[pos..end];
    assert text[pos..mid] == s[..|a|];
    assert text[mid..end] == s[|a|..];
  }

  lemma SeesFirst(text: string, pos: nat, end: nat, s: string)
    requires Sees(text, pos, end, s) && s != []
    ensures pos < end && text[pos] == s[0]
  {
    assert text[pos] == text[pos..end][0];
  }

  lemma SeesLast(text: string, pos: nat, end: nat, a: string, ch: char) returns (mid: nat)
    requires Sees(text, pos, end, a + [ch])
    ensures mid == pos + |a| && mid + 1 == end && Sees(text, pos, mid, a) && text[mid] == ch
  {
    mid := SeesParts(text, pos, end, a, [ch]);
    SeesFirst(text, mid, end, [ch]);
  }

  lemma SeesPiece(text: string, pos: nat, end: nat, p: Piece)
    requires Sees(text, pos, end, PieceText(p))
    ensures pos < end && end == (if p.Plain? then pos + 1 else pos + 2)
    ensures text[pos] == PieceText(p)[0] && (p.Escape? ==> text[pos + 1] == p.c)
  {
    SeesFirst(text, pos, end, PieceText(p));
    if p.Escape? {
      assert text[pos + 1] == text[pos..end][1];
    }
  }

  lemma UnescapePiece(t: string, i: nat, j: nat, p: Piece, end: nat)
    requires p != Plain('\\') && Sees(t, i, j, PieceText(p)) && j <= end < |t|
    ensures Unescape(t, i, end) == PieceValue(p) + Unescape(t, j, end)
  {
    SeesPiece(t, i, j, p);
    if p.Escape? && p.c !in ['"', '\'', '\\'] && p.c != 't' && p.c != 'r' && p.c != 'n' {
      var rest := Unescape(t, j, end);
      assert Unescape(t, i + 1, end) == [p.c] + rest;
      Twice('\\', p.c, rest);
    }
  }

  lemma Twice(a: char, b: char, rest: string)
    ensures [a] + ([b] + rest) == [a, b] + rest
  {
  }

  lemma {:induction false} UnescapeFrom(t: string, i: nat, ps: seq<Piece>, end: nat)
    requires NoBackslash(ps) && Sees(t, i, end, Text(ps)) && end < |t|
    ensures Unescape(t, i, end) == Value(ps)
    decreases |ps|
  {
    if ps != [] {
      var j := SeesParts(t, i, end, PieceText(ps[0]), Text(ps[1..]));
      assert NoBackslash(ps[1..]) by {
        assert forall k | 0 <= k < |ps[1..]| :: ps[1..][k] == ps[k + 1];
      }
      UnescapePiece(t, i, j, ps[0], end);
      UnescapeFrom(t, j, ps[1..], end);
    }
  }

  /** Copying a word replaces the six escapes and keeps all else. */
  lemma Unescaped(ps: seq<Piece>, ch: char)
    requires NoBackslash(ps)
    ensures Unescape(Text(ps) + [ch], 0, |Text(ps)|) == Value(ps)
  {
    var s := Text(ps);
    assert (s + [ch])[0..|s|] == s;
    UnescapeFrom(s + [ch], 0, ps, |s|);
  }

  // ---- What each character does ----

  predicate Base(st: State, m: Place) {
    match m
    case Ready => st.lastSpace && !st.needSpace && !st.double && !st.single && !st.variable
    case InBare(variable) => !st.lastSpace && !st.needSpace && !st.double && !st.single && st.variable == variable
    case Inside(mark) =>
      !st.lastSpace && !st.needSpace && mark in "\"\'" && st.double == (mark == '"') && st.single == (mark == '\'')
    case Closed => st.needSpace && !st.double && !st.single && !st.variable
  }

  predicate At(st: State, m: Place) {
    !st.quoted && !st.comment && Base(st, m)
  }

  /** Behind a backslash. */
  predicate Escaping(st: State, m: Place) {
    st.quoted && !st.comment && Base(st, m)
  }

  predicate Commenting(st: State) {
    !st.quoted && st.comment && Base(st, Ready)
  }

  predicate Goes(out: Out, mark: Mark, words: seq<string>) {
    out.Go? && out.mark == mark && out.st.words == words
  }

  predicate Moves(out: Out, mark: Mark, words: seq<string>, m: Place) {
    Goes(out, mark, words) && At(out.st, m)
  }

  predicate Ends(out: Out, code: Code, words: seq<string>) {
    out.Stop? && out.code == code && out.last.words == words
  }

  function EndCode(ch: char): Code {
    if ch == ';' then Ok else BlockStart
  }

  ghost predicate InsideOk(rule: Rule) {
    && (forall st, p: Piece, m, token | At(st, m) && (m.InBare? || m.Inside?) && p.Plain? && Continues(m, p) ::
          Moves(rule(st, p.c, token), Keep, st.words, Next(m, p)))
    && (forall st, m, token | At(st, m) && (m.InBare? || m.Inside?) ::
          Goes(rule(st, '\\', token), Keep, st.words) && Escaping(rule(st, '\\', token).st, Next(m, Escape(' '))))
    && (forall st, m, ch, token | Escaping(st, m) && (m.InBare? || m.Inside?) ::
          Moves(rule(st, ch, token), Keep, st.words, m))
  }

  ghost predicate OpenOk(rule: Rule) {
    && (forall st, ch, token | At(st, Ready) && Opens(Plain(ch)) ::
          Moves(rule(st, ch, token), Here, st.words, InBare(false)))
    && (forall st, token | At(st, Ready) ::
          Goes(rule(st, '\\', token), Here, st.words) && Escaping(rule(st, '\\', token).st, InBare(false)))
    && (forall st, ch, token | At(st, Ready) && ch in "\"\'" ::
          Moves(rule(st, ch, token), After, st.words, Inside(ch)))
  }

  ghost predicate SpaceOk(rule: Rule) {
    && (forall st, ch, token | Blank(ch) && (At(st, Ready) || At(st, Closed)) ::
          Moves(rule(st, ch, token), Keep, st.words, Ready))
    && (forall st, token | At(st, Ready) ::
          Goes(rule(st, '#', token), Here, st.words) && Commenting(rule(st, '#', token).st))
    && (forall st, ch, token | Commenting(st) && ch != '\n' ::
          Goes(rule(st, ch, token), Keep, st.words) && Commenting(rule(st, ch, token).st))
    && (forall st, token | Commenting(st) :: Moves(rule(st, '\n', token), Keep, st.words, Ready))
  }

  ghost predicate BareOk(rule: Rule) {
    forall st, ps, ch, v | NoBackslash(ps) && Blank(ch) && At(st, InBare(v)) ::
      Moves(rule(st, ch, Text(ps)), Keep, st.words + [Value(ps)], Ready)
  }

  ghost predicate CloseOk(rule: Rule) {
    && (forall st, ps, ch | NoBackslash(ps) && At(st, Inside(ch)) ::
          Moves(rule(st, ch, Text(ps)), Keep, st.words + [Value(ps)], Closed))
    && (forall st, token | At(st, Closed) :: Moves(rule(st, ')', token), Here, st.words, InBare(false)))
  }

  ghost predicate EndOk(rule: Rule) {
    && (forall st, ps, ch, v | NoBackslash(ps) && (ch == ';' || (ch == '{' && !v)) && At(st, InBare(v)) ::
          Ends(rule(st, ch, Text(ps)), EndCode(ch), st.words + [Value(ps)]))
    && (forall st, ch, token | ch in ";{" && (At(st, Closed) || (At(st, Ready) && st.words != [])) ::
          Ends(rule(st, ch, token), EndCode(ch), st.words))
  }

  ghost predicate Reads(rule: Rule) {
    InsideOk(rule) && OpenOk(rule) && SpaceOk(rule) && BareOk(rule) && CloseOk(rule) && EndOk(rule)
  }

  lemma StepInside()
    ensures InsideOk(Step) && OpenOk(Step) && SpaceOk(Step)
  {
  }

  lemma StepBare()
    ensures BareOk(Step)
  {
    forall st, ps, ch, v | NoBackslash(ps) && Blank(ch) && At(st, InBare(v))
      ensures Moves(Step(st, ch, Text(ps)), Keep, st.words + [Value(ps)], Ready)
    {
      Unescaped(ps, ch);
    }
  }

  lemma StepClose()
    ensures CloseOk(Step)
  {
    forall st, ps, ch | NoBackslash(ps) && At(st, Inside(ch))
      ensures Moves(Step(st, ch, Text(ps)), Keep, st.words + [Value(ps)], Closed)
    {
      Unescaped(ps, ch);
    }
  }

  lemma StepEnd()
    ensures EndOk(Step)
  {
    forall st, ps, ch, v | NoBackslash(ps) && (ch == ';' || (ch == '{' && !v)) && At(st, InBare(v))
      ensures Ends(Step(st, ch, Text(ps)), EndCode(ch), st.words + [Value(ps)])
    {
      Unescaped(ps, ch);
    }
  }

  /** What reading comes to from a position, the start of the current word and a state on. */
  type Reading = (nat, nat, State) -> End

  predicate FollowsAt(f: Reading, rule: Rule, text: string, p: nat, s: nat, st: State) {
    s <= p < |text| ==>
      f(p, s, st) ==
      match rule(st, text[p], text[s..p])
      case Stop(code, last) => End(code, last, p + 1)
      case Go(st', mark) => f(p + 1, Marked(mark, s, p), st')
  }

  /** It follows the rule at each character. */
  ghost predicate Follows(f: Reading, rule: Rule, text: string) {
    forall p, s, st {:trigger FollowsAt(f, rule, text, p, s, st)} :: FollowsAt(f, rule, text, p, s, st)
  }

  // ---- Reading words ----

  /** A piece inside a word. */
  lemma {:induction false} ReadPiece(f: Reading, rule: Rule, text: string, pos: nat, end: nat, start: nat, st: State,
                                     m: Place, p: Piece)
      returns (st': State)
    requires InsideOk(rule) && Follows(f, rule, text) && start <= pos && Sees(text, pos, end, PieceText(p))
    requires At(st, m) && (m.InBare? || m.Inside?) && Continues(m, p)
    ensures At(st', Next(m, p)) && st'.words == st.words && f(pos, start, st) == f(end, start, st')
  {
    SeesPiece(text, pos, end, p);
    assert FollowsAt(f, rule, text, pos, start, st);
    st' := rule(st, text[pos], text[start..pos]).st;
    if p.Escape? {
      assert Next(m, p) == Next(m, Escape(' '));
      assert FollowsAt(f, rule, text, pos + 1, start, st');
      st' := rule(st', p.c, text[start..pos + 1]).st;
    }
  }

  lemma {:induction false} ReadPieces(f: Reading, rule: Rule, text: string, pos: nat, end: nat, start: nat, st: State,
                                      m: Place, ps: seq<Piece>)
      returns (st': State)
    requires InsideOk(rule) && Follows(f, rule, text) && start <= pos && Sees(text, pos, end, Text(ps))
    requires At(st, m) && (m.InBare? || m.Inside?) && Run(m, ps)
    ensures At(st', Last(m, ps)) && st'.words == st.words && f(pos, start, st) == f(end, start, st')
    decreases |ps|
  {
    if ps == [] {
      st' := st;
    } else {
      var mid := SeesParts(text, pos, end, PieceText(ps[0]), Text(ps[1..]));
      var next := ReadPiece(f, rule, text, pos, mid, start, st, m, ps[0]);
      st' := ReadPieces(f, rule, text, mid, end, start, next, Next(m, ps[0]), ps[1..]);
    }
  }

  lemma {:induction false} ReadFirst(f: Reading, rule: Rule, text: string, pos: nat, end: nat, start: nat, st: State,
                                     p: Piece)
      returns (st': State)
    requires InsideOk(rule) && OpenOk(rule) && Follows(f, rule, text) && start <= pos && Sees(text, pos, end, PieceText(p))
    requires At(st, Ready) && Opens(p)
    ensures At(st', InBare(false)) && st'.words == st.words && f(pos, start, st) == f(end, pos, st')
  {
    SeesPiece(text, pos, end, p);
    assert FollowsAt(f, rule, text, pos, start, st);
    st' := rule(st, text[pos], text[start..pos]).st;
    if p.Escape? {
      assert FollowsAt(f, rule, text, pos + 1, pos, st');
      st' := rule(st', p.c, text[pos..pos + 1]).st;
    }
  }

  /** Up to the end of a word without quotation marks. */
  lemma {:induction false} ReadBare(f: Reading, rule: Rule, text: string, pos: nat, end: nat, start: nat, st: State,
                                    ps: seq<Piece>)
      returns (st': State)
    requires InsideOk(rule) && OpenOk(rule) && Follows(f, rule, text) && start <= pos && Sees(text, pos, end, Text(ps))
    requires At(st, Ready) && ProperBare(ps)
    ensures At(st', Last(InBare(false), ps[1..])) && st'.words == st.words && f(pos, start, st) == f(end, pos, st')
  {
    var mid := SeesParts(text, pos, end, PieceText(ps[0]), Text(ps[1..]));
    var next := ReadFirst(f, rule, text, pos, mid, start, st, ps[0]);
    st' := ReadPieces(f, rule, text, mid, end, pos, next, InBare(false), ps[1..]);
  }

  /** From a quotation mark to the next one of this kind. */
  lemma {:induction false} ReadInside(f: Reading, rule: Rule, text: string, pos: nat, end: nat, start: nat, st: State,
                                      mark: char, ps: seq<Piece>)
      returns (st': State)
    requires InsideOk(rule) && OpenOk(rule) && Follows(f, rule, text) && start <= pos
    requires At(st, Ready) && ProperQuoted(mark, ps) && Sees(text, pos, end, [mark] + Text(ps))
    ensures At(st', Inside(mark)) && st'.words == st.words && f(pos, start, st) == f(end, pos + 1, st')
    ensures pos < end && text[pos + 1..end] == Text(ps)
  {
    var mid := SeesParts(text, pos, end, [mark], Text(ps));
    SeesFirst(text, pos, mid, [mark]);
    assert FollowsAt(f, rule, text, pos, start, st);
    var next := rule(st, mark, text[start..pos]).st;
    st' := ReadPieces(f, rule, text, mid, end, mid, next, Inside(mark), ps);
  }

  lemma {:induction false} ReadQuoted(f: Reading, rule: Rule, text: string, pos: nat, end: nat, start: nat, st: State,
                                      mark: char, ps: seq<Piece>)
      returns (st': State)
    requires InsideOk(rule) && OpenOk(rule) && CloseOk(rule) && Follows(f, rule, text) && start <= pos
    requires At(st, Ready) && ProperQuoted(mark, ps) && Sees(text, pos, end, QuotedText(mark, ps))
    ensures pos < end
    ensures At(st', Closed) && st'.words == st.words + [Value(ps)] && f(pos, start, st) == f(end, pos + 1, st')
  {
    var mid := SeesLast(text, pos, end, [mark] + Text(ps), mark);
    var next := ReadInside(f, rule, text, pos, mid, start, st, mark, ps);
    assert FollowsAt(f, rule, text, mid, pos + 1, next);
    RunClean(Inside(mark), ps);
    st' := rule(next, mark, Text(ps)).st;
  }

  /** A word in quotation marks and a second word behind it. */
  lemma {:induction false} ReadJoined(f: Reading, rule: Rule, text: string, pos: nat, mid: nat, end: nat, start: nat,
                                      st: State, mark: char, inner: seq<Piece>, ps: seq<Piece>)
      returns (st': State)
    requires InsideOk(rule) && OpenOk(rule) && CloseOk(rule) && Follows(f, rule, text) && start <= pos
    requires At(st, Ready) && ProperQuoted(mark, inner) && ProperBare(ps) && ps[0] == Plain(')')
    requires Sees(text, pos, mid, QuotedText(mark, inner)) && Sees(text, mid, end, Text(ps))
    ensures At(st', Last(InBare(false), ps[1..])) && st'.words == st.words + [Value(inner)]
    ensures f(pos, start, st) == f(end, mid, st')
  {
    var closed := ReadQuoted(f, rule, text, pos, mid, start, st, mark, inner);
    var second := SeesParts(text, mid, end, PieceText(ps[0]), Text(ps[1..]));
    SeesPiece(text, mid, second, ps[0]);
    assert FollowsAt(f, rule, text, mid, pos + 1, closed);
    var next := rule(closed, ')', text[pos + 1..mid]).st;
    st' := ReadPieces(f, rule, text, second, end, mid, next, InBare(false), ps[1..]);
  }

  /** Up to the end of what is not closed by a quotation mark. */
  lemma {:induction false} ReadOpen(f: Reading, rule: Rule, text: string, pos: nat, end: nat, start: nat, st: State, w: Word)
      returns (st': State, start': nat)
    requires Reads(rule) && Follows(f, rule, text) && start <= pos && Sees(text, pos, end, WordText(w))
    requires At(st, Ready) && Proper(w) && !w.Quoted?
    ensures At(st', Last(InBare(false), w.pieces[1..])) && st'.words + [Value(w.pieces)] == st.words + Values(w)
    ensures start' <= end && text[start'..end] == Text(w.pieces) && f(pos, start, st) == f(end, start', st')
  {
    if w.Bare? {
      st' := ReadBare(f, rule, text, pos, end, start, st, w.pieces);
      start' := pos;
    } else {
      start' := SeesParts(text, pos, end, QuotedText(w.mark, w.inner), Text(w.pieces));
      st' := ReadJoined(f, rule, text, pos, start', end, start, st, w.mark, w.inner, w.pieces);
    }
  }

  lemma OpenClean(w: Word)
    requires Proper(w) && !w.Quoted?
    ensures NoBackslash(w.pieces) && w.pieces != []
  {
    BareClean(w.pieces);
  }

  /** A word and a blank. */
  lemma {:induction false} WordBlank(f: Reading, rule: Rule, text: string, pos: nat, end: nat, start: nat, st: State,
                                     w: Word, b: char)
      returns (st': State, start': nat)
    requires Reads(rule) && Follows(f, rule, text) && start <= pos && Sees(text, pos, end, WordText(w) + [b])
    requires At(st, Ready) && Proper(w) && Blank(b)
    ensures At(st', Ready) && st'.words == st.words + Values(w)
    ensures start' <= end && f(pos, start, st) == f(end, start', st')
  {
    var mid := SeesLast(text, pos, end, WordText(w), b);
    var next;
    if w.Quoted? {
      next := ReadQuoted(f, rule, text, pos, mid, start, st, w.mark, w.pieces);
      start' := pos + 1;
    } else {
      OpenClean(w);
      next, start' := ReadOpen(f, rule, text, pos, mid, start, st, w);
    }
    assert FollowsAt(f, rule, text, mid, start', next);
    st' := rule(next, b, text[start'..mid]).st;
  }

  /** Whether `ch` behind the word ends the directive: not a brace that belongs to a variable's name. */
  predicate Stops(w: Word, ch: char)
    requires Proper(w)
  {
    ch == ';' || (ch == '{' && (w.Quoted? || !Last(InBare(false), w.pieces[1..]).variable))
  }

  /** A word and the end of the directive right behind it. */
  lemma {:induction false} WordEnd(f: Reading, rule: Rule, text: string, pos: nat, end: nat, start: nat, st: State,
                                   w: Word, ch: char)
    requires Reads(rule) && Follows(f, rule, text) && start <= pos && Sees(text, pos, end, WordText(w) + [ch])
    requires At(st, Ready) && Proper(w) && Stops(w, ch)
    ensures var e := f(pos, start, st); e.code == EndCode(ch) && e.st.words == st.words + Values(w) && e.pos == end
  {
    var mid := SeesLast(text, pos, end, WordText(w), ch);
    if w.Quoted? {
      var next := ReadQuoted(f, rule, text, pos, mid, start, st, w.mark, w.pieces);
      assert FollowsAt(f, rule, text, mid, pos + 1, next);
    } else {
      OpenClean(w);
      var next, begin := ReadOpen(f, rule, text, pos, mid, start, st, w);
      assert FollowsAt(f, rule, text, mid, begin, next);
    }
  }

  // ---- Reading what is between words ----

  lemma {:induction false} ReadComment(f: Reading, rule: Rule, text: string, pos: nat, end: nat, start: nat, st: State,
                                       s: string)
      returns (st': State)
    requires SpaceOk(rule) && Follows(f, rule, text) && start <= pos && Sees(text, pos, end, s)
    requires Commenting(st) && '\n' !in s
    ensures Commenting(st') && st'.words == st.words && f(pos, start, st) == f(end, start, st')
    decreases |s|
  {
    if s == [] {
      st' := st;
    } else {
      assert s == [s[0]] + s[1..];
      var mid := SeesParts(text, pos, end, [s[0]], s[1..]);
      SeesFirst(text, pos, end, s);
      assert FollowsAt(f, rule, text, pos, start, st);
      var next := rule(st, s[0], text[start..pos]).st;
      st' := ReadComment(f, rule, text, mid, end, start, next, s[1..]);
    }
  }

  lemma {:induction false} ReadSpace(f: Reading, rule: Rule, text: string, pos: nat, end: nat, start: nat, st: State,
                                     s: Space)
      returns (st': State, start': nat)
    requires SpaceOk(rule) && Follows(f, rule, text) && start <= pos && Sees(text, pos, end, SpaceText(s))
    requires At(st, Ready) && ProperSpace(s)
    ensures At(st', Ready) && st'.words == st.words && start' <= end && f(pos, start, st) == f(end, start', st')
  {
    SeesFirst(text, pos, end, SpaceText(s));
    assert FollowsAt(f, rule, text, pos, start, st);
    st', start' := rule(st, text[pos], text[start..pos]).st, start;
    if s.Comment? {
      var close := SeesLast(text, pos, end, ['#'] + s.s, '\n');
      var mid := SeesParts(text, pos, close, ['#'], s.s);
      start' := pos;
      var next := ReadComment(f, rule, text, mid, close, pos, st', s.s);
      assert FollowsAt(f, rule, text, close, pos, next);
      st' := rule(next, '\n', text[pos..close]).st;
    }
  }

  lemma {:induction false} ReadGap(f: Reading, rule: Rule, text: string, pos: nat, end: nat, start: nat, st: State,
                                   g: seq<Space>)
      returns (st': State, start': nat)
    requires SpaceOk(rule) && Follows(f, rule, text) && start <= pos && Sees(text, pos, end, Gap(g))
    requires At(st, Ready) && ProperGap(g)
    ensures At(st', Ready) && st'.words == st.words && start' <= end && f(pos, start, st) == f(end, start', st')
    decreases |g|
  {
    if g == [] {
      st', start' := st, start;
    } else {
      var mid := SeesParts(text, pos, end, SpaceText(g[0]), Gap(g[1..]));
      var next, begin := ReadSpace(f, rule, text, pos, mid, start, st, g[0]);
      st', start' := ReadGap(f, rule, text, mid, end, begin, next, g[1..]);
    }
  }

  // ---- Reading a directive ----

  lemma {:induction false} ReadPart(f: Reading, rule: Rule, text: string, pos: nat, end: nat, start: nat, st: State,
                                    p: Part)
      returns (st': State, start': nat)
    requires Reads(rule) && Follows(f, rule, text) && start <= pos && Sees(text, pos, end, PartText(p))
    requires At(st, Ready) && ProperPart(p)
    ensures At(st', Ready) && st'.words == st.words + Values(p.word)
    ensures start' <= end && f(pos, start, st) == f(end, start', st')
  {
    var mid := SeesParts(text, pos, end, WordText(p.word) + [p.blank], Gap(p.gap));
    var next, begin := WordBlank(f, rule, text, pos, mid, start, st, p.word, p.blank);
    st', start' := ReadGap(f, rule, text, mid, end, begin, next, p.gap);
  }

  lemma MoveWord(a: seq<string>, ps: seq<Part>)
    requires ps != []
    ensures a + Words(ps) == a + Values(ps[0].word) + Words(ps[1..])
  {
  }

  lemma {:induction false} ReadParts(f: Reading, rule: Rule, text: string, pos: nat, end: nat, start: nat, st: State,
                                     ps: seq<Part>)
      returns (st': State, start': nat)
    requires Reads(rule) && Follows(f, rule, text) && start <= pos && Sees(text, pos, end, Parts(ps))
    requires At(st, Ready) && ProperParts(ps)
    ensures At(st', Ready) && st'.words == st.words + Words(ps)
    ensures start' <= end && f(pos, start, st) == f(end, start', st')
    decreases |ps|
  {
    if ps == [] {
      st', start' := st, start;
    } else {
      var mid := SeesParts(text, pos, end, PartText(ps[0]), Parts(ps[1..]));
      var next, begin := ReadPart(f, rule, text, pos, mid, start, st, ps[0]);
      MoveWord(st.words, ps);
      st', start' := ReadParts(f, rule, text, mid, end, begin, next, ps[1..]);
    }
  }
}
