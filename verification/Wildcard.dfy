/** The wildcard hash: a tree of hash tables built from sorted names, one table
    for each run of names with common first labels, and the two searches in it. */
module Wildcard {
  import opened WildcardNames

  /** An entry is a value or a further table; `subOnly` is the low bit of the tag. */
  datatype Entry = Data(value: nat, subOnly: bool) | Sub(wdc: Wdc, subOnly: bool)

  /** `value` is 0 for none. */
  datatype Wdc = Wdc(table: map<string, Entry>, value: nat)

  // ---- How the tables belong to the names ----

  ghost predicate EntryOk(e: Entry, own: OwnEntry, subs: seq<Key>)
    decreases Size(subs), 2
  {
    match e
    case Data(v, so) => subs == [] && own == Some(so, v)
    case Sub(w, so) =>
      && subs != [] && w.value == (if own.Some? then own.value else 0) && so == (own == None || own.star)
      && Built(w.(value := 0), subs)
  }

  ghost predicate GroupOk(table: map<string, Entry>, names: seq<Key>, a: string)
    decreases Size(names), 0
  {
    if Own(names, a) == None && Subs(names, a) == [] then a !in table
    else
      SubsSmaller(names, a);
      a in table && EntryOk(table[a], Own(names, a), Subs(names, a))
  }

  ghost predicate Built(h: Wdc, names: seq<Key>)
    decreases Size(names), 1
  {
    h.value == 0 && forall a {:trigger GroupOk(h.table, names, a)} :: GroupOk(h.table, names, a)
  }

  lemma EntryFor(h: Wdc, names: seq<Key>, a: string)
    requires Built(h, names)
    ensures if Own(names, a) == None && Subs(names, a) == [] then a !in h.table
            else a in h.table && EntryOk(h.table[a], Own(names, a), Subs(names, a))
  {
    assert GroupOk(h.table, names, a);
  }

  // ---- Building ----

  lemma OwnIsFirst(names: seq<Key>, n: nat, i: nat)
    requires Good(names) && n < i < |names| && First(names[i].name) == First(names[n].name)
    ensures HasMore(names[i].name)
  {
    var x, y := names[n].name, names[i].name;
    if !HasMore(y) {
      if HasMore(x) {
        assert y <= x;
        LePrefix(x, y);
      }
      assert Pat(x).labels == [First(x)];
      assert false;
    }
  }

  lemma GroupEnds(names: seq<Key>, n: nat, i: nat, j: nat)
    requires Good(names) && n < i <= j < |names| && First(names[i].name) != First(names[n].name)
    ensures First(names[j].name) != First(names[n].name)
  {
    var a := First(names[n].name);
    if First(names[j].name) == a {
      StartsFirst(names[n].name, a);
      StartsFirst(names[i].name, a);
      StartsFirst(names[j].name, a);
      if i < j {
        Between(a, names[n].name, names[i].name, names[j].name);
      }
    }
  }

  /** The test on the characters that a name `y` goes on with the run of `x`, of which `cut` characters
      are the first label with its dot if it has one. */
  predicate InRun(x: string, y: string, cut: nat, dot: bool)
    requires cut <= |x|
  {
    x[..cut] <= y && (dot || |y| <= cut || y[cut] == '.')
  }

  lemma RunTest(names: seq<Key>, n: nat, i: nat, cut: nat, dot: bool)
    requires Good(names) && n < i < |names|
    requires var d := Dot(names[n].name); dot == (d < |names[n].name|) && cut == if dot then d + 1 else d
    ensures InRun(names[n].name, names[i].name, cut, dot) <==> First(names[i].name) == First(names[n].name)
  {
    var x, y, d := names[n].name, names[i].name, Dot(names[n].name);
    var a := First(x);
    StartsFirst(y, a);
    assert x[..d] == a;
    if First(y) == a {
      OwnIsFirst(names, n, i);
      assert y[..d] == a && y[d] == '.';
      assert x[..cut] <= y;
    } else if x[..cut] <= y {
      assert a <= y by { assert x[..cut][..d] == a; }
    }
  }

  method ScanLabel(s: string) returns (len: nat, dot: bool)
    ensures len == Dot(s) && dot == (Dot(s) < |s|)
  {
    len, dot := 0, false;
    while len < |s|
      invariant len <= |s| && '.' !in s[..len] && !dot
    {
      if s[len] == '.' {
        dot := true;
        break;
      }
      len := len + 1;
    }
    DotAt(s, len);
  }

  lemma SubsOne(names: seq<Key>, n: nat, i: nat, a: string)
    requires n <= i < |names|
    ensures Subs(names[n..i + 1], a) ==
      Subs(names[n..i], a) + if Has(names[i].name, a) then [Key(Rest(names[i].name), names[i].value)] else []
  {
    assert names[n..i + 1] == names[n..i] + [names[i]];
    SubsAppend(names[n..i], [names[i]], a);
    assert [names[i]][1..] == [];
  }

  /** What the test on name `i` decides for the run from `n` on. */
  ghost predicate Decided(names: seq<Key>, n: nat, i: nat, cut: nat, dot: bool)
    requires n < i < |names| && cut <= |names[n].name|
  {
    var x, y := names[n].name, names[i].name;
    if InRun(x, y, cut, dot) then
      && First(y) == First(x) && |y| > Dot(x)
      && Subs(names[n..i + 1], First(x)) == Subs(names[n..i], First(x)) + [Key(y[Dot(x) + 1..], names[i].value)]
    else First(y) != First(x)
  }

  lemma RunStep(names: seq<Key>, n: nat, i: nat, cut: nat, dot: bool)
    requires Good(names) && n < i < |names|
    requires var d := Dot(names[n].name); dot == (d < |names[n].name|) && cut == if dot then d + 1 else d
    ensures Decided(names, n, i, cut, dot)
  {
    RunTest(names, n, i, cut, dot);
    if First(names[i].name) == First(names[n].name) {
      OwnIsFirst(names, n, i);
      SubsOne(names, n, i, First(names[n].name));
    }
  }

  lemma RunSteps(names: seq<Key>, n: nat, cut: nat, dot: bool)
    requires Good(names) && n < |names|
    requires var d := Dot(names[n].name); dot == (d < |names[n].name|) && cut == if dot then d + 1 else d
    ensures forall i | n < i < |names| :: Decided(names, n, i, cut, dot)
    ensures Subs(names[n..n + 1], First(names[n].name)) ==
      if |names[n].name| != cut then [Key(names[n].name[cut..], names[n].value)] else []
  {
    forall i | n < i < |names|
      ensures Decided(names, n, i, cut, dot)
    {
      RunStep(names, n, i, cut, dot);
    }
    SubsOne(names, n, n, First(names[n].name));
    assert names[n..n] == [];
  }

  /** The run of names from `n` on with the same first label, cut after that label. */
  method CollectRun(names: seq<Key>, n: nat, len: nat, cut: nat, dot: bool) returns (next: seq<Key>, i: nat)
    requires n < |names| && len == Dot(names[n].name) && cut <= |names[n].name|
    requires forall j | n < j < |names| :: Decided(names, n, j, cut, dot)
    requires Subs(names[n..n + 1], First(names[n].name)) ==
      if |names[n].name| != cut then [Key(names[n].name[cut..], names[n].value)] else []
    ensures n < i <= |names|
    ensures forall j | n <= j < i :: First(names[j].name) == First(names[n].name)
    ensures i < |names| ==> First(names[i].name) != First(names[n].name)
    ensures next == Subs(names[n..i], First(names[n].name))
  {
    var x := names[n].name;
    next := if |x| != cut then [Key(x[cut..], names[n].value)] else [];
    i := n + 1;
    while i < |names|
      invariant n < i <= |names| && next == Subs(names[n..i], First(x))
      invariant forall j | n <= j < i :: First(names[j].name) == First(x)
    {
      var y := names[i].name;
      assert Decided(names, n, i, cut, dot);
      if !InRun(x, y, cut, dot) {
        return;
      }
      next := next + [Key(y[len + 1..], names[i].value)];
      i := i + 1;
    }
  }

  lemma RunEnds(names: seq<Key>, n: nat, i: nat)
    requires Good(names) && n < i <= |names| && (i < |names| ==> First(names[i].name) != First(names[n].name))
    ensures forall j | i <= j < |names| :: First(names[j].name) != First(names[n].name)
  {
    forall j | i <= j < |names|
      ensures First(names[j].name) != First(names[n].name)
    {
      GroupEnds(names, n, i, j);
    }
  }

  /** The names of a run, and no others, decide about its label. */
  lemma RunOnly(names: seq<Key>, n: nat, i: nat, b: string)
    requires n < i <= |names| && forall j | n <= j < i :: First(names[j].name) == First(names[n].name)
    requires forall j, k | 0 <= j < n <= k < |names| :: First(names[j].name) != First(names[k].name)
    ensures b != First(names[n].name) ==>
      Subs(names[..i], b) == Subs(names[..n], b) && Own(names[..i], b) == Own(names[..n], b)
    ensures b == First(names[n].name) ==>
      Subs(names[..i], b) == Subs(names[n..i], b) && Own(names[..i], b) == Own(names[n..i], b)
  {
    assert names[..i] == names[..n] + names[n..i];
    SubsAppend(names[..n], names[n..i], b);
    OwnAppend(names[..n], names[n..i], b);
    if b == First(names[n].name) {
      NoneFirst(names[..n], b);
    } else {
      NoneFirst(names[n..i], b);
    }
  }

  lemma RunOwn(names: seq<Key>, n: nat, i: nat)
    requires Good(names) && n < i <= |names| && forall j | n <= j < i :: First(names[j].name) == First(names[n].name)
    ensures Own(names[n..i], First(names[n].name)) ==
      if HasMore(names[n].name) then None else Some(Pat(names[n].name).star, names[n].value)
  {
    var a := First(names[n].name);
    var run := names[n..i];
    if HasMore(names[n].name) {
      forall k | k in run
        ensures !IsOwn(k.name, a)
      {
        var j :| 0 <= j < |run| && run[j] == k;
        assert k == names[n + j];
        if j > 0 {
          OwnIsFirst(names, n, n + j);
        }
      }
      OwnMember(run, a);
    }
  }

  lemma GoodRun(names: seq<Key>, n: nat, i: nat)
    requires Good(names) && n < i <= |names|
    ensures Good(names[n..i])
  {
    var run := names[n..i];
    assert forall k | k in run :: k in names;
  }

  lemma {:induction false} SizeSlice(names: seq<Key>, n: nat, i: nat)
    requires n <= i <= |names|
    ensures Size(names[n..i]) <= Size(names)
  {
    if n > 0 {
      assert names[n..i] == names[1..][n - 1..i - 1];
      SizeSlice(names[1..], n - 1, i - 1);
    } else if i > 0 {
      assert names[0..i][1..] == names[1..][0..i - 1];
      SizeSlice(names[1..], 0, i - 1);
    }
  }

  lemma RunFacts(names: seq<Key>, n: nat, i: nat)
    requires Good(names) && n < i <= |names| && forall j | n <= j < i :: First(names[j].name) == First(names[n].name)
    requires i < |names| ==> First(names[i].name) != First(names[n].name)
    ensures var next := Subs(names[n..i], First(names[n].name)); Good(next) && Size(next) < Size(names)
    ensures forall j | i <= j < |names| :: First(names[j].name) != First(names[n].name)
    ensures Own(names[n..i], First(names[n].name)) ==
      if HasMore(names[n].name) then None else Some(Pat(names[n].name).star, names[n].value)
  {
    var a := First(names[n].name);
    GoodRun(names, n, i);
    GoodSubs(names[n..i], a);
    SubsSmaller(names[n..i], a);
    SizeSlice(names, n, i);
    RunOwn(names, n, i);
    RunEnds(names, n, i);
  }

  /** A run and its entry, added to the tables of the names before it. */
  lemma AddRun(before: map<string, Entry>, names: seq<Key>, n: nat, i: nat, e: Entry)
    requires n < i <= |names| && forall j | n <= j < i :: First(names[j].name) == First(names[n].name)
    requires forall j, k | 0 <= j < n <= k < |names| :: First(names[j].name) != First(names[k].name)
    requires forall a {:trigger GroupOk(before, names[..n], a)} :: GroupOk(before, names[..n], a)
    requires var a := First(names[n].name); EntryOk(e, Own(names[n..i], a), Subs(names[n..i], a))
    ensures var table := before[First(names[n].name) := e];
            forall a {:trigger GroupOk(table, names[..i], a)} :: GroupOk(table, names[..i], a)
  {
    var table := before[First(names[n].name) := e];
    forall b
      ensures GroupOk(table, names[..i], b)
    {
      assert GroupOk(before, names[..n], b);
      RunOnly(names, n, i, b);
      if b == First(names[n].name) {
        Nothing(names, n, i);
      }
    }
  }

  lemma Nothing(names: seq<Key>, n: nat, i: nat)
    requires n < i <= |names|
    ensures Own(names[n..i], First(names[n].name)) != None || Subs(names[n..i], First(names[n].name)) != []
  {
  }

  method Build(names: seq<Key>) returns (h: Wdc)
    requires Good(names)
    ensures Built(h, names)
    decreases Size(names)
  {
    var table: map<string, Entry> := map[];
    var n := 0;
    assert names[..0] == [];
    while n < |names|
      invariant n <= |names|
      invariant forall a {:trigger GroupOk(table, names[..n], a)} :: GroupOk(table, names[..n], a)
      invariant forall j, k | 0 <= j < n <= k < |names| :: First(names[j].name) != First(names[k].name)
    {
      var len, dot := ScanLabel(names[n].name);
      var cut := if dot then len + 1 else len;
      RunSteps(names, n, cut, dot);
      var next, i := CollectRun(names, n, len, cut, dot);
      var a := names[n].name[..len];
      RunFacts(names, n, i);
      var e;
      if next != [] {
        var w := Build(next);
        var own := if |names[n].name| == cut then names[n].value else 0;
        e := Sub(w.(value := own), dot);
        assert w.(value := own).(value := 0) == w;
      } else {
        e := Data(names[n].value, dot);
      }
      AddRun(table, names, n, i, e);
      table := table[a := e];
      n := i;
    }
    assert names[..n] == names;
    h := Wdc(table, 0);
  }
}
