/** A host looked up in a hash of wildcard names, in terms of the patterns as they are written. */
module WildcardSearch {
  import opened WildcardNames
  import opened Wildcard
  import opened WildcardFind
  import opened WildcardHosts

  /** ".x", "*.x" or "x.*", and its value. */
  datatype Written = DotFront(x: string, value: nat) | StarFront(x: string, value: nat) | StarEnd(x: string, value: nat)

  /** ".x" is for x and the names below it, "*.x" for the names below x, and "x.*" for what begins with x
      and a dot. */
  predicate Covers(w: Written, host: string) {
    match w
    case DotFront(x, _) => host == x || Ends(host, "." + x)
    case StarFront(x, _) => Ends(host, "." + x)
    case StarEnd(x, _) => x + "." <= host
  }

  /** The name under which a pattern is kept. */
  predicate KeptAs(w: Written, k: Key) {
    && w.value == k.value
    && match w
       case DotFront(x, _) => Labelled(x) && k.name == Reversed(x)
       case StarFront(x, _) => Labelled(x) && k.name == Reversed("." + x)
       case StarEnd(x, _) => !Pat(x).star && k.name == x
  }

  /** The patterns of a hash, all with the wildcard at the same end, and the names they are kept under. */
  predicate AllKept(ws: seq<Written>, names: seq<Key>, tail: bool) {
    |ws| == |names| && forall i | 0 <= i < |ws| :: KeptAs(ws[i], names[i]) && (ws[i].StarEnd? <==> tail)
  }

  ghost predicate IsBest(ws: seq<Written>, host: string, i: nat) {
    && i < |ws| && Covers(ws[i], host)
    && forall j | 0 <= j < |ws| && Covers(ws[j], host) :: |ws[j].x| <= |ws[i].x|
  }

  /** `v` is the value of the longest pattern for the host, 0 if there is none. */
  ghost predicate Best(ws: seq<Written>, host: string, v: nat) {
    || (v == 0 && forall i | 0 <= i < |ws| :: !Covers(ws[i], host))
    || (exists i: nat :: IsBest(ws, host, i) && v == ws[i].value)
  }

  function LabelsOf(host: string, tail: bool): (r: seq<string>)
    ensures r != []
  {
    if tail then TailLabels(host) else HeadLabels(host)
  }

  lemma CoversIff(w: Written, k: Key, host: string)
    requires KeptAs(w, k)
    ensures Covers(w, host) <==> Matches(k.name, LabelsOf(host, w.StarEnd?), w.StarEnd?)
  {
    match w
    case DotFront(x, _) => DotPattern(x, host);
    case StarFront(x, _) => StarPattern(x, host);
    case StarEnd(x, _) => TailPattern(x, host);
  }

  lemma KeptLabels(w: Written, k: Key)
    requires KeptAs(w, k)
    ensures Pat(k.name).labels == LabelsOf(w.x, w.StarEnd?)
  {
    match w
    case DotFront(x, _) => ReversedPat(x);
    case StarFront(x, _) =>
      ReversedPat(x);
      ReversedStar(x);
      StarPat(Reversed(x));
    case StarEnd(x, _) => TailPat(x);
  }

  lemma HeadNoLonger(x: string, y: string)
    requires HeadLabels(x) <= HeadLabels(y)
    ensures |x| <= |y|
  {
    HeadMatch(x, y);
    if |HeadLabels(x)| == |HeadLabels(y)| {
      assert HeadLabels(x) == HeadLabels(y);
    }
  }

  lemma TailNoLonger(x: string, y: string)
    requires TailLabels(x) <= TailLabels(y)
    ensures |x| <= |y|
  {
    if |TailLabels(x)| < |TailLabels(y)| {
      TailLonger(x, y);
    } else {
      assert TailLabels(x) == TailLabels(y);
      JoinTailLabels(x);
      JoinTailLabels(y);
    }
  }

  lemma PrefixNoLonger(x: string, y: string, tail: bool, a: seq<string>, b: seq<string>, h: seq<string>)
    requires a == LabelsOf(x, tail) && b == LabelsOf(y, tail) && a <= h && b <= h && |a| <= |b|
    ensures |x| <= |y|
  {
    assert a == b[..|a|];
    if tail {
      TailNoLonger(x, y);
    } else {
      HeadNoLonger(x, y);
    }
  }

  lemma CoversLabels(w: Written, k: Key, host: string)
    requires KeptAs(w, k) && Covers(w, host)
    ensures LabelsOf(w.x, w.StarEnd?) <= LabelsOf(host, w.StarEnd?) && Pat(k.name).labels == LabelsOf(w.x, w.StarEnd?)
  {
    CoversIff(w, k, host);
    KeptLabels(w, k);
  }

  /** Of two patterns for one host, the one with fewer labels is not longer. */
  lemma FewerNoLonger(w: Written, k: Key, w': Written, k': Key, host: string)
    requires KeptAs(w, k) && KeptAs(w', k') && w.StarEnd? == w'.StarEnd? && Covers(w, host) && Covers(w', host)
    requires |Pat(k.name).labels| <= |Pat(k'.name).labels|
    ensures |w.x| <= |w'.x|
  {
    var tail := w.StarEnd?;
    CoversLabels(w, k, host);
    CoversLabels(w', k', host);
    PrefixNoLonger(w.x, w'.x, tail, LabelsOf(w.x, tail), LabelsOf(w'.x, tail), LabelsOf(host, tail));
  }

  lemma BestIs(ws: seq<Written>, names: seq<Key>, tail: bool, host: string, k: Key) returns (i: nat)
    requires AllKept(ws, names, tail) && IsLongest(names, LabelsOf(host, tail), tail, k)
    ensures IsBest(ws, host, i) && ws[i].value == k.value
  {
    i :| 0 <= i < |names| && names[i] == k;
    CoversIff(ws[i], names[i], host);
    forall j | 0 <= j < |ws| && Covers(ws[j], host)
      ensures |ws[j].x| <= |ws[i].x|
    {
      CoversIff(ws[j], names[j], host);
      FewerNoLonger(ws[j], names[j], ws[i], names[i], host);
    }
  }

  /** The longest matching name is that of the longest pattern. */
  lemma AnswersBest(ws: seq<Written>, names: seq<Key>, tail: bool, host: string, v: nat)
    requires AllKept(ws, names, tail) && Answers(names, LabelsOf(host, tail), tail, v)
    ensures Best(ws, host, v)
  {
    if k :| IsLongest(names, LabelsOf(host, tail), tail, k) && v == k.value {
      var i := BestIs(ws, names, tail, host, k);
    } else {
      forall i | 0 <= i < |ws|
        ensures !Covers(ws[i], host)
      {
        CoversIff(ws[i], names[i], host);
      }
    }
  }

  /** The search from the end of a host in the hash that was built from the names. */
  method SearchHead(h: Wdc, ghost ws: seq<Written>, ghost names: seq<Key>, host: string) returns (v: nat)
    requires Good(names) && Built(h, names) && AllKept(ws, names, false)
    ensures Best(ws, host, v)
  {
    v := FindHead(h, host);
    HeadSearch(h, names, host);
    AnswersBest(ws, names, false, host, v);
  }

  /** The search from its start. */
  method SearchTail(h: Wdc, ghost ws: seq<Written>, ghost names: seq<Key>, host: string) returns (v: nat)
    requires Good(names) && Built(h, names) && AllKept(ws, names, true)
    ensures Best(ws, host, v)
  {
    forall k | k in names
      ensures !Pat(k.name).star
    {
      var i :| 0 <= i < |names| && names[i] == k;
      assert KeptAs(ws[i], names[i]);
    }
    v := FindTail(h, host);
    TailSearch(h, names, host);
    AnswersBest(ws, names, true, host, v);
  }
}
