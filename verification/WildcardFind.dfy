/** Searching a wildcard hash gives the value of the longest matching name. */
module WildcardFind {
  import opened WildcardNames
  import opened Wildcard

  /** A name matches the labels of a host if they begin with its labels; one with a star needs a
      further label, and so do all names in the hash of names with the wildcard at the end. */
  predicate Matches(s: string, host: seq<string>, tail: bool) {
    var p := Pat(s);
    p.labels <= host && (p.star || tail ==> |p.labels| < |host|)
  }

  ghost predicate IsLongest(names: seq<Key>, host: seq<string>, tail: bool, k: Key) {
    && k in names && Matches(k.name, host, tail)
    && forall m | m in names && Matches(m.name, host, tail) :: |Pat(m.name).labels| <= |Pat(k.name).labels|
  }

  /** `v` is the value of the longest matching name, 0 if none matches. */
  ghost predicate Answers(names: seq<Key>, host: seq<string>, tail: bool, v: nat) {
    || (v == 0 && forall m | m in names :: !Matches(m.name, host, tail))
    || (exists k :: IsLongest(names, host, tail, k) && v == k.value)
  }

  /** What the searches do, label by label. */
  function Lookup(h: Wdc, host: seq<string>, tail: bool): nat
    requires host != []
    decreases |host|
  {
    if tail && |host| == 1 then 0
    else if host[0] !in h.table then h.value
    else
      match h.table[host[0]]
      case Data(v, so) => if |host| == 1 && so then 0 else v
      case Sub(w, so) =>
        if |host| == 1 then (if so then 0 else w.value)
        else
          var r := Lookup(w, host[1..], tail);
          if r != 0 then r else w.value
  }

  // ---- Names and their first labels ----

  predicate DotFree(host: seq<string>) {
    forall i | 0 <= i < |host| :: '.' !in host[i]
  }

  lemma MatchFirst(s: string, host: seq<string>, tail: bool)
    requires host != [] && Matches(s, host, tail)
    ensures First(s) == host[0]
  {
  }

  lemma MatchOwn(s: string, host: seq<string>, tail: bool)
    requires host != [] && IsOwn(s, host[0])
    ensures |Pat(s).labels| == 1
    ensures Matches(s, host, tail) <==> (Pat(s).star || tail ==> |host| > 1)
  {
    assert Pat(s).labels == [host[0]];
  }

  lemma MatchSub(s: string, host: seq<string>, tail: bool)
    requires host != [] && Has(s, host[0])
    ensures |Pat(s).labels| == 1 + |Pat(Rest(s)).labels|
    ensures Matches(s, host, tail) <==> |host| > 1 && Matches(Rest(s), host[1..], tail)
  {
    var p, q := Pat(s).labels, Pat(Rest(s)).labels;
    assert p == [host[0]] + q;
    assert p <= host <==> q <= host[1..];
  }

  lemma OwnUnique(names: seq<Key>, a: string, k: Key)
    requires Good(names) && k in names && IsOwn(k.name, a)
    ensures Own(names, a) == Some(Pat(k.name).star, k.value)
  {
    OwnMember(names, a);
    if Own(names, a).Some? {
      var m :| m in names && IsOwn(m.name, a) && m.value == Own(names, a).value && Pat(m.name).star == Own(names, a).star;
      assert Pat(m.name).labels == [a] && Pat(k.name).labels == [a];
    }
  }

  /** Where a name with first label `a` is: it is the label alone, or it is among the cut names. */
  lemma Placed(names: seq<Key>, a: string, m: Key)
    requires m in names && First(m.name) == a
    ensures Has(m.name, a) ==> Key(Rest(m.name), m.value) in Subs(names, a)
  {
    if Has(m.name, a) {
      Split(m.name);
      SubsMember(names, a, Key(Rest(m.name), m.value));
    }
  }

  // ---- From the cut names back to the names ----

  lemma LiftFound(names: seq<Key>, host: seq<string>, tail: bool, k: Key)
    requires Good(names) && |host| > 1 && DotFree(host)
    requires IsLongest(Subs(names, host[0]), host[1..], tail, k)
    ensures IsLongest(names, host, tail, Key(host[0] + "." + k.name, k.value))
  {
    var a := host[0];
    SubsNonEmpty(names, a, k);
    SubsMember(names, a, k);
    Joined(a, k.name);
    var l := Key(a + "." + k.name, k.value);
    MatchSub(l.name, host, tail);
    forall m | m in names && Matches(m.name, host, tail)
      ensures |Pat(m.name).labels| <= |Pat(l.name).labels|
    {
      MatchFirst(m.name, host, tail);
      Placed(names, a, m);
      if HasMore(m.name) {
        MatchSub(m.name, host, tail);
      } else {
        MatchOwn(m.name, host, tail);
      }
    }
  }

  lemma LiftMissed(names: seq<Key>, host: seq<string>, tail: bool, m: Key)
    requires Good(names) && host != [] && m in names && Matches(m.name, host, tail)
    requires |host| > 1 ==> forall k | k in Subs(names, host[0]) :: !Matches(k.name, host[1..], tail)
    ensures IsOwn(m.name, host[0]) && |Pat(m.name).labels| == 1
  {
    MatchFirst(m.name, host, tail);
    Placed(names, host[0], m);
    if HasMore(m.name) {
      MatchSub(m.name, host, tail);
    } else {
      MatchOwn(m.name, host, tail);
    }
  }

  /** No cut name matches: what is left is the label alone. */
  lemma OwnAnswers(names: seq<Key>, host: seq<string>, tail: bool, v: nat)
    requires Good(names) && host != []
    requires |host| > 1 ==> forall k | k in Subs(names, host[0]) :: !Matches(k.name, host[1..], tail)
    requires var own := Own(names, host[0]);
             v == if own.Some? && (own.star || tail ==> |host| > 1) then own.value else 0
    ensures Answers(names, host, tail, v)
  {
    var own := Own(names, host[0]);
    OwnMember(names, host[0]);
    forall m | m in names && Matches(m.name, host, tail)
      ensures IsOwn(m.name, host[0]) && |Pat(m.name).labels| == 1 && own == Some(Pat(m.name).star, m.value)
    {
      LiftMissed(names, host, tail, m);
      OwnUnique(names, host[0], m);
    }
    if own.Some? {
      var k :| k in names && IsOwn(k.name, host[0]) && k.value == own.value && Pat(k.name).star == own.star;
      MatchOwn(k.name, host, tail);
      if own.star || tail ==> |host| > 1 {
        assert IsLongest(names, host, tail, k);
      } else {
        forall m | m in names
          ensures !Matches(m.name, host, tail)
        {
          if Matches(m.name, host, tail) {
            MatchOwn(m.name, host, tail);
          }
        }
      }
    }
  }

  lemma {:induction false} OtherValue(h: Wdc, v: nat, host: seq<string>, tail: bool)
    requires host != [] && h.value == 0
    ensures var r := Lookup(h, host, tail);
            var r' := Lookup(h.(value := v), host, tail);
            (if r' != 0 then r' else v) == if r != 0 then r else v
  {
  }

  /** The central fact: the tables answer for the names they were built from. */
  lemma {:induction false} LookupAnswers(h: Wdc, names: seq<Key>, host: seq<string>, tail: bool)
    requires Good(names) && Built(h, names) && host != [] && DotFree(host)
    requires tail ==> forall k | k in names :: !Pat(k.name).star
    ensures Answers(names, host, tail, Lookup(h, host, tail))
    decreases |host|
  {
    var a := host[0];
    EntryFor(h, names, a);
    var own, subs := Own(names, a), Subs(names, a);
    if |host| > 1 && subs != [] {
      var w := h.table[a].wdc;
      var w0 := w.(value := 0);
      GoodSubs(names, a);
      SubsNoStar(names, a, tail);
      LookupAnswers(w0, subs, host[1..], tail);
      OtherValue(w0, w.value, host[1..], tail);
      assert w0.(value := w.value) == w;
      var r := Lookup(w0, host[1..], tail);
      if r != 0 {
        var k :| IsLongest(subs, host[1..], tail, k) && r == k.value;
        LiftFound(names, host, tail, k);
      } else {
        assert forall k | k in subs :: k.value != 0;
        OwnAnswers(names, host, tail, w.value);
      }
    } else {
      OwnAnswers(names, host, tail, Lookup(h, host, tail));
    }
  }

  lemma SubsNoStar(names: seq<Key>, a: string, tail: bool)
    requires '.' !in a && (tail ==> forall k | k in names :: !Pat(k.name).star)
    ensures tail ==> forall k | k in Subs(names, a) :: !Pat(k.name).star
  {
    if tail {
      forall k | k in Subs(names, a)
        ensures !Pat(k.name).star
      {
        SubsNonEmpty(names, a, k);
        SubsMember(names, a, k);
        Joined(a, k.name);
      }
    }
  }
}
