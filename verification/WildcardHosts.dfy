/** Hosts and patterns as they are written: what it means for the labels to match,
    and the searches on the characters of a host name. */
module WildcardHosts {
  import opened WildcardNames
  import opened Wildcard
  import opened WildcardFind

  /** Where the last label starts. */
  function LastLabel(s: string): (n: nat)
    ensures n <= |s| && '.' !in s[n..] && (n > 0 ==> s[n - 1] == '.')
  {
    if s == [] then 0
    else if s[|s| - 1] == '.' then |s|
    else
      var n := LastLabel(s[..|s| - 1]);
      assert s[n..] == s[..|s| - 1][n..] + [s[|s| - 1]];
      n
  }

  /** The labels of a host, the last one first. */
  function HeadLabels(s: string): (r: seq<string>)
    ensures r != []
    decreases |s|
  {
    var n := LastLabel(s);
    if n == 0 then [s] else [s[n..]] + HeadLabels(s[..n - 1])
  }

  /** The labels of a host in the order in which they are written. */
  function TailLabels(s: string): (r: seq<string>)
    ensures r != []
    decreases |s|
  {
    if Dot(s) == |s| then [s] else [First(s)] + TailLabels(s[Dot(s) + 1..])
  }

  lemma {:induction false} HeadDotFree(s: string)
    ensures DotFree(HeadLabels(s))
    decreases |s|
  {
    var n := LastLabel(s);
    if n > 0 {
      HeadDotFree(s[..n - 1]);
    } else {
      assert s[0..] == s;
    }
  }

  lemma {:induction false} TailDotFree(s: string)
    ensures DotFree(TailLabels(s))
    decreases |s|
  {
    if Dot(s) < |s| {
      TailDotFree(s[Dot(s) + 1..]);
    } else {
      assert s[..|s|] == s;
    }
  }

  // ---- The searches ----

  method FindHead(h: Wdc, name: string) returns (v: nat)
    ensures v == Lookup(h, HeadLabels(name), false)
    decreases |name|
  {
    var n := |name|;
    while n > 0 && name[n - 1] != '.'
      invariant 0 <= n <= |name| && '.' !in name[n..]
    {
      n := n - 1;
    }
    LastLabelAt(name, n);
    var part := name[n..];
    assert n == 0 ==> part == name;
    if part !in h.table {
      return h.value;
    }
    var e := h.table[part];
    if e.Sub? {
      if n == 0 {
        if e.subOnly {
          return 0;
        }
        return e.wdc.value;
      }
      v := FindHead(e.wdc, name[..n - 1]);
      if v != 0 {
        return;
      }
      return e.wdc.value;
    }
    if e.subOnly {
      if n == 0 {
        return 0;
      }
      return e.value;
    }
    return e.value;
  }

  lemma {:induction false} LastLabelAt(s: string, n: nat)
    requires n <= |s| && '.' !in s[n..] && (n > 0 ==> s[n - 1] == '.')
    ensures LastLabel(s) == n
  {
    if n < |s| {
      assert s[n..][|s| - 1 - n] == s[|s| - 1];
      assert s[n..] == s[..|s| - 1][n..] + [s[|s| - 1]];
      LastLabelAt(s[..|s| - 1], n);
    }
  }

  method FindTail(h: Wdc, name: string) returns (v: nat)
    ensures v == Lookup(h, TailLabels(name), true)
    decreases |name|
  {
    var i := 0;
    while i < |name| && name[i] != '.'
      invariant i <= |name| && '.' !in name[..i]
    {
      i := i + 1;
    }
    DotAt(name, i);
    if i == |name| {
      return 0;
    }
    var part := name[..i];
    if part !in h.table {
      return h.value;
    }
    var e := h.table[part];
    if e.Sub? {
      v := FindTail(e.wdc, name[i + 1..]);
      if v != 0 {
        return;
      }
      return e.wdc.value;
    }
    return e.value;
  }

  /** In a hash built from good names the search from the end finds the longest matching name. */
  lemma HeadSearch(h: Wdc, names: seq<Key>, host: string)
    requires Good(names) && Built(h, names)
    ensures Answers(names, HeadLabels(host), false, Lookup(h, HeadLabels(host), false))
  {
    HeadDotFree(host);
    LookupAnswers(h, names, HeadLabels(host), false);
  }

  lemma TailSearch(h: Wdc, names: seq<Key>, host: string)
    requires Good(names) && Built(h, names) && forall k | k in names :: !Pat(k.name).star
    ensures Answers(names, TailLabels(host), true, Lookup(h, TailLabels(host), true))
  {
    TailDotFree(host);
    LookupAnswers(h, names, TailLabels(host), true);
  }

  // ---- Patterns as they are written ----

  /** A name with its labels in reverse order. */
  function Reversed(s: string): string
    decreases |s|
  {
    var n := LastLabel(s);
    if n == 0 then s else s[n..] + "." + Reversed(s[..n - 1])
  }

  /** With `len` characters of a label seen before position `i`, `p` holds what comes before it in the
      reversed name. */
  predicate Pending(s: string, i: nat, len: nat, p: string) {
    i + len <= |s| && '.' !in s[i..i + len] && p + Reversed(s[..i + len]) == Reversed(s)
  }

  lemma PendingDot(s: string, i: nat, len: nat, p: string)
    requires 0 < i && Pending(s, i, len, p) && s[i - 1] == '.'
    ensures Pending(s, i - 1, 0, p + s[i..i + len] + ".")
  {
    var t, a := s[..i + len], s[i..i + len];
    assert t[i..] == a && t[..i - 1] == s[..i - 1];
    LastLabelAt(t, i);
    Regrouped(p, a, Reversed(s[..i - 1]));
    assert s[..i - 1 + 0] == s[..i - 1];
  }

  lemma Regrouped(p: string, a: string, r: string)
    ensures p + (a + "." + r) == (p + a + ".") + r
  {
  }

  lemma PendingChar(s: string, i: nat, len: nat, p: string)
    requires 0 < i && Pending(s, i, len, p) && s[i - 1] != '.'
    ensures Pending(s, i - 1, len + 1, p)
  {
    assert s[i - 1..i + len] == [s[i - 1]] + s[i..i + len];
  }

  lemma PendingEnd(s: string, len: nat, p: string)
    requires Pending(s, 0, len, p)
    ensures p + s[0..len] == Reversed(s)
  {
    assert s[0..len] == s[..len];
    LastLabelNone(s[..len]);
  }

  /** "*.example.com" becomes "com.example." and ".example.com" becomes "com.example". */
  method Convert(key: string) returns (p: string)
    requires key != []
    ensures p == Reversed(key[1..])
  {
    var s := key[1..];
    p := [];
    var len, i := 0, |s|;
    assert s[..i + len] == s;
    while i != 0
      invariant 0 <= i <= |s| && Pending(s, i, len, p)
    {
      if s[i - 1] == '.' {
        PendingDot(s, i, len, p);
        p := p + s[i..i + len] + ".";
        len := 0;
      } else {
        PendingChar(s, i, len, p);
        len := len + 1;
      }
      i := i - 1;
    }
    PendingEnd(s, len, p);
    p := p + s[0..len];
  }

  lemma LastLabelNone(s: string)
    requires '.' !in s
    ensures LastLabel(s) == 0
  {
    assert s[0..] == s;
    LastLabelAt(s, 0);
  }

  predicate Ends(s: string, x: string) {
    |x| <= |s| && s[|s| - |x|..] == x
  }

  /** Every label of `x` has a character. */
  predicate Labelled(x: string)
    decreases |x|
  {
    var n := LastLabel(x);
    n < |x| && (n > 0 ==> Labelled(x[..n - 1]))
  }

  lemma {:induction false} ReversedPat(x: string)
    requires Labelled(x)
    ensures Reversed(x) != [] && WellFormed(Reversed(x)) && Pat(Reversed(x)) == Pattern(HeadLabels(x), false)
    decreases |x|
  {
    var n := LastLabel(x);
    if n == 0 {
      assert x[0..] == x;
      DotAt(x, |x|);
      assert x[..|x|] == x;
    } else {
      ReversedPat(x[..n - 1]);
      Joined(x[n..], Reversed(x[..n - 1]));
    }
  }

  lemma {:induction false} StarPat(s: string)
    requires WellFormed(s) && !Pat(s).star
    ensures WellFormed(s + ".") && Pat(s + ".") == Pattern(Pat(s).labels, true)
    decreases |s|
  {
    var d := Dot(s);
    assert (s + ".")[..d] == s[..d];
    DotAt(s + ".", d);
    if HasMore(s) {
      StarPat(Rest(s));
      assert Rest(s + ".") == Rest(s) + ".";
    }
  }

  lemma {:induction false} ReversedStar(x: string)
    ensures Reversed("." + x) == Reversed(x) + "."
    decreases |x|
  {
    var s, n := "." + x, LastLabel(x);
    assert s[n + 1..] == x[n..];
    LastLabelAt(s, n + 1);
    if n == 0 {
      assert s[..0] == [] && Reversed([]) == [];
      assert s[1..] == x;
    } else {
      assert s[..n] == "." + x[..n - 1];
      ReversedStar(x[..n - 1]);
    }
  }

  // ---- Labels put together again ----

  function Join(r: seq<string>): string
    requires r != []
  {
    if |r| == 1 then r[0] else Join(r[1..]) + "." + r[0]
  }

  lemma SplitAt(x: string, n: nat)
    requires 0 < n <= |x| && x[n - 1] == '.'
    ensures x == x[..n - 1] + "." + x[n..]
  {
  }

  lemma Regroup(u: string, r: string, a: string)
    ensures u + "." + (r + "." + a) == (u + "." + r) + "." + a
  {
  }

  lemma EndsAfter(u: string, x: string)
    ensures Ends(u + "." + x, "." + x)
  {
    assert u + "." + x == u + ("." + x);
  }

  lemma {:induction false} JoinHead(s: string)
    ensures Join(HeadLabels(s)) == s
    decreases |s|
  {
    var n := LastLabel(s);
    if n > 0 {
      JoinHead(s[..n - 1]);
      assert HeadLabels(s)[1..] == HeadLabels(s[..n - 1]);
      SplitAt(s, n);
    }
  }

  lemma {:induction false} JoinConcat(a: seq<string>, b: seq<string>)
    requires a != [] && b != []
    ensures Join(a + b) == Join(b) + "." + Join(a)
  {
    if |a| == 1 {
      assert (a + b)[1..] == b;
    } else {
      assert (a + b)[1..] == a[1..] + b;
      JoinConcat(a[1..], b);
    }
  }

  lemma HeadOne(u: string, a: string)
    requires '.' !in a
    ensures HeadLabels(u + "." + a) == [a] + HeadLabels(u)
  {
    var s := u + "." + a;
    assert s[|u| + 1..] == a;
    LastLabelAt(s, |u| + 1);
    assert s[..|u|] == u;
  }

  lemma {:induction false} HeadConcat(u: string, x: string)
    ensures HeadLabels(u + "." + x) == HeadLabels(x) + HeadLabels(u)
    decreases |x|
  {
    var n := LastLabel(x);
    if n == 0 {
      assert x[0..] == x;
      HeadOne(u, x);
    } else {
      var r, a := x[..n - 1], x[n..];
      SplitAt(x, n);
      Regroup(u, r, a);
      HeadOne(u + "." + r, a);
      HeadConcat(u, r);
      assert HeadLabels(x) + HeadLabels(u) == [a] + (HeadLabels(r) + HeadLabels(u));
    }
  }

  lemma HeadLonger(x: string, host: string)
    requires HeadLabels(x) <= HeadLabels(host) && |HeadLabels(x)| < |HeadLabels(host)|
    ensures Ends(host, "." + x)
  {
    var a, h := HeadLabels(x), HeadLabels(host);
    JoinHead(x);
    JoinHead(host);
    var b := h[|a|..];
    assert h == a + b;
    JoinConcat(a, b);
    EndsAfter(Join(b), x);
  }

  lemma HeadEnds(x: string, host: string)
    requires Ends(host, "." + x)
    ensures HeadLabels(x) <= HeadLabels(host) && |HeadLabels(x)| < |HeadLabels(host)|
  {
    var u := host[..|host| - |x| - 1];
    assert host == u + ("." + x);
    assert host == u + "." + x;
    HeadConcat(u, x);
  }

  lemma HeadMatch(x: string, host: string)
    ensures HeadLabels(x) <= HeadLabels(host) && |HeadLabels(x)| < |HeadLabels(host)| <==> Ends(host, "." + x)
    ensures HeadLabels(x) == HeadLabels(host) <==> host == x
  {
    JoinHead(x);
    JoinHead(host);
    if HeadLabels(x) <= HeadLabels(host) && |HeadLabels(x)| < |HeadLabels(host)| {
      HeadLonger(x, host);
    }
    if Ends(host, "." + x) {
      HeadEnds(x, host);
    }
  }

  /** ".x" matches x and every name below it. */
  lemma DotPattern(x: string, host: string)
    requires Labelled(x)
    ensures WellFormed(Reversed(x))
    ensures Matches(Reversed(x), HeadLabels(host), false) <==> host == x || Ends(host, "." + x)
  {
    ReversedPat(x);
    HeadMatch(x, host);
    var a, h := HeadLabels(x), HeadLabels(host);
    assert a <= h && |a| == |h| ==> a == h;
  }

  /** "*.x" matches the names below x only. */
  lemma StarPattern(x: string, host: string)
    requires Labelled(x)
    ensures WellFormed(Reversed("." + x))
    ensures Matches(Reversed("." + x), HeadLabels(host), false) <==> Ends(host, "." + x)
  {
    ReversedPat(x);
    ReversedStar(x);
    StarPat(Reversed(x));
    HeadMatch(x, host);
  }

  // ---- The same for the wildcard at the end ----

  function JoinTail(r: seq<string>): string
    requires r != []
  {
    if |r| == 1 then r[0] else r[0] + "." + JoinTail(r[1..])
  }

  lemma {:induction false} JoinTailLabels(s: string)
    ensures JoinTail(TailLabels(s)) == s
    decreases |s|
  {
    var d := Dot(s);
    if d < |s| {
      JoinTailLabels(s[d + 1..]);
      assert TailLabels(s)[1..] == TailLabels(s[d + 1..]);
      SplitAt(s, d + 1);
    }
  }

  lemma {:induction false} JoinTailConcat(a: seq<string>, b: seq<string>)
    requires a != [] && b != []
    ensures JoinTail(a + b) == JoinTail(a) + "." + JoinTail(b)
  {
    if |a| == 1 {
      assert (a + b)[1..] == b;
    } else {
      assert (a + b)[1..] == a[1..] + b;
      JoinTailConcat(a[1..], b);
    }
  }

  lemma TailOne(a: string, u: string)
    requires '.' !in a
    ensures TailLabels(a + "." + u) == [a] + TailLabels(u)
  {
    var s := a + "." + u;
    assert s[..|a|] == a;
    DotAt(s, |a|);
    assert s[|a| + 1..] == u;
  }

  lemma {:induction false} TailConcat(x: string, u: string)
    ensures TailLabels(x + "." + u) == TailLabels(x) + TailLabels(u)
    decreases |x|
  {
    var d := Dot(x);
    if d == |x| {
      assert x[..d] == x;
      TailOne(x, u);
    } else {
      var a, r := x[..d], x[d + 1..];
      SplitAt(x, d + 1);
      Regroup(a, r, u);
      TailOne(a, r + "." + u);
      TailConcat(r, u);
    }
  }

  lemma {:induction false} TailPat(x: string)
    requires !Pat(x).star
    ensures Pat(x).labels == TailLabels(x)
    decreases |x|
  {
    if HasMore(x) {
      TailPat(Rest(x));
    }
  }

  lemma TailLonger(x: string, host: string)
    requires TailLabels(x) <= TailLabels(host) && |TailLabels(x)| < |TailLabels(host)|
    ensures x + "." <= host
  {
    var a, h := TailLabels(x), TailLabels(host);
    JoinTailLabels(x);
    JoinTailLabels(host);
    var b := h[|a|..];
    assert h == a + b;
    JoinTailConcat(a, b);
  }

  lemma TailBegins(x: string, host: string)
    requires x + "." <= host
    ensures TailLabels(x) <= TailLabels(host) && |TailLabels(x)| < |TailLabels(host)|
  {
    var u := host[|x| + 1..];
    assert host == x + "." + u;
    TailConcat(x, u);
  }

  /** "x.*" matches what begins with x and a dot. */
  lemma TailPattern(x: string, host: string)
    requires !Pat(x).star
    ensures Matches(x, TailLabels(host), true) <==> x + "." <= host
  {
    TailPat(x);
    if Matches(x, TailLabels(host), true) {
      TailLonger(x, host);
    }
    if x + "." <= host {
      TailBegins(x, host);
    }
  }
}
