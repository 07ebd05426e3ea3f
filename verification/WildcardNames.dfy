/** Names of a wildcard hash.  They are kept with the label that is looked at
    first in front: "com.example." stands for "*.example.com", "com.example" for
    ".example.com", and "www.example" for "www.example.*". */
module WildcardNames {

  datatype Key = Key(name: string, value: nat)

  datatype Pattern = Pattern(labels: seq<string>, star: bool)

  datatype OwnEntry = None | Some(star: bool, value: nat)

  /** Where the first dot is, or the end. */
  function Dot(s: string): (n: nat)
    ensures n <= |s| && '.' !in s[..n] && (n < |s| ==> s[n] == '.')
  {
    if s == [] || s[0] == '.' then 0
    else
      var n := 1 + Dot(s[1..]);
      assert s[..n] == [s[0]] + s[1..][..n - 1];
      n
  }

  function First(s: string): string {
    s[..Dot(s)]
  }

  /** There are further labels after the first one. */
  predicate HasMore(s: string) {
    Dot(s) + 1 < |s|
  }

  function Rest(s: string): string
    requires HasMore(s)
  {
    s[Dot(s) + 1..]
  }

  function Pat(s: string): (p: Pattern)
    ensures p.labels != [] && p.labels[0] == First(s)
    decreases |s|
  {
    if Dot(s) == |s| then Pattern([s], false)
    else if Dot(s) + 1 == |s| then Pattern([First(s)], true)
    else Pattern([First(s)] + Pat(Rest(s)).labels, Pat(Rest(s)).star)
  }

  /** No label is empty. */
  predicate WellFormed(s: string)
    decreases |s|
  {
    First(s) != "" && (HasMore(s) ==> WellFormed(Rest(s)))
  }

  lemma {:induction false} DotAt(s: string, n: nat)
    requires n <= |s| && '.' !in s[..n] && (n < |s| ==> s[n] == '.')
    ensures Dot(s) == n
  {
    if n > 0 {
      assert s[0] == s[..n][0];
      assert s[..n] == [s[0]] + s[1..][..n - 1];
      DotAt(s[1..], n - 1);
    }
  }

  lemma Joined(a: string, r: string)
    requires '.' !in a && r != []
    ensures First(a + "." + r) == a && HasMore(a + "." + r) && Rest(a + "." + r) == r
  {
    var s := a + "." + r;
    assert s[..|a|] == a;
    DotAt(s, |a|);
  }

  lemma Split(s: string)
    requires HasMore(s)
    ensures s == First(s) + "." + Rest(s) && '.' !in First(s)
  {
  }

  // ---- The order in which the names come: a dot is lower than other characters ----

  function Rank(c: char): int {
    if c == '.' then 0 else c as int + 1
  }

  predicate Le(s: string, t: string) {
    if s == [] then true
    else if t == [] then false
    else if s[0] == t[0] then Le(s[1..], t[1..])
    else Rank(s[0]) < Rank(t[0])
  }

  predicate Sorted(names: seq<Key>) {
    forall i, j | 0 <= i < j < |names| :: Le(names[i].name, names[j].name)
  }

  /** `s` is `a`, perhaps followed by a dot and more. */
  predicate Starts(s: string, a: string) {
    a <= s && (|s| == |a| || s[|a|] == '.')
  }

  lemma StartsFirst(s: string, a: string)
    requires '.' !in a
    ensures Starts(s, a) <==> First(s) == a
  {
    if Starts(s, a) {
      assert s[..|a|] == a;
      DotAt(s, |a|);
    }
  }

  lemma {:induction false} Between(a: string, x: string, y: string, z: string)
    requires Starts(x, a) && Starts(z, a) && Le(x, y) && Le(y, z)
    ensures Starts(y, a)
    decreases |a|
  {
    if a == [] {
    } else {
      assert x[0] == a[0] && z[0] == a[0] && y[0] == a[0];
      assert a[1..] <= x[1..] && a[1..] <= z[1..];
      Between(a[1..], x[1..], y[1..], z[1..]);
      assert a == [a[0]] + a[1..];
    }
  }

  lemma {:induction false} LePrefix(s: string, t: string)
    requires Le(s, t) && t <= s
    ensures s == t
  {
    if s != [] && t != [] {
      LePrefix(s[1..], t[1..]);
      assert s == [s[0]] + s[1..];
      assert t == [t[0]] + t[1..];
    }
  }

  lemma {:induction false} LeAfter(a: string, s: string, t: string)
    requires Le(a + s, a + t)
    ensures Le(s, t)
  {
    if a == [] {
      assert a + s == s && a + t == t;
    } else {
      assert (a + s)[1..] == a[1..] + s;
      assert (a + t)[1..] == a[1..] + t;
      LeAfter(a[1..], s, t);
    }
  }

  // ---- The names with one first label ----

  predicate Has(s: string, a: string) {
    First(s) == a && HasMore(s)
  }

  predicate IsOwn(s: string, a: string) {
    First(s) == a && !HasMore(s)
  }

  /** What follows the label `a` in the names that have more labels. */
  function Subs(names: seq<Key>, a: string): seq<Key> {
    if names == [] then []
    else (if Has(names[0].name, a) then [Key(Rest(names[0].name), names[0].value)] else []) + Subs(names[1..], a)
  }

  /** The name that consists of the label `a` alone. */
  function Own(names: seq<Key>, a: string): OwnEntry {
    if names == [] then None
    else if IsOwn(names[0].name, a) then Some(Pat(names[0].name).star, names[0].value)
    else Own(names[1..], a)
  }

  function Size(names: seq<Key>): nat {
    if names == [] then 0 else |names[0].name| + 1 + Size(names[1..])
  }

  lemma {:induction false} SubsSmaller(names: seq<Key>, a: string)
    ensures Size(Subs(names, a)) <= Size(names) && (names != [] ==> Size(Subs(names, a)) < Size(names))
  {
    if names != [] {
      SubsSmaller(names[1..], a);
      if Has(names[0].name, a) {
        var k := Key(Rest(names[0].name), names[0].value);
        assert Subs(names, a)[0] == k;
        assert Subs(names, a)[1..] == Subs(names[1..], a);
      } else {
        assert Subs(names, a) == Subs(names[1..], a);
      }
    }
  }

  lemma {:induction false} SubsMember(names: seq<Key>, a: string, k: Key)
    requires '.' !in a && k.name != []
    ensures k in Subs(names, a) <==> Key(a + "." + k.name, k.value) in names
  {
    if names != [] {
      SubsMember(names[1..], a, k);
      var x := names[0];
      Joined(a, k.name);
      if Has(x.name, a) {
        Split(x.name);
      }
    }
  }

  lemma {:induction false} SubsNonEmpty(names: seq<Key>, a: string, k: Key)
    requires k in Subs(names, a)
    ensures k.name != []
  {
    if names != [] && k in Subs(names[1..], a) {
      SubsNonEmpty(names[1..], a, k);
    }
  }

  lemma {:induction false} OwnMember(names: seq<Key>, a: string)
    ensures match Own(names, a)
            case None => forall k | k in names :: !IsOwn(k.name, a)
            case Some(star, v) => exists k | k in names :: IsOwn(k.name, a) && k.value == v && Pat(k.name).star == star
  {
    if names != [] {
      OwnMember(names[1..], a);
      assert names == [names[0]] + names[1..];
      assert IsOwn(names[0].name, a) ==> names[0] in names;
    }
  }

  lemma {:induction false} SubsAppend(names: seq<Key>, more: seq<Key>, a: string)
    ensures Subs(names + more, a) == Subs(names, a) + Subs(more, a)
  {
    if names == [] {
      assert names + more == more;
    } else {
      assert (names + more)[1..] == names[1..] + more;
      SubsAppend(names[1..], more, a);
    }
  }

  lemma {:induction false} OwnAppend(names: seq<Key>, more: seq<Key>, a: string)
    ensures Own(names + more, a) == if Own(names, a) == None then Own(more, a) else Own(names, a)
  {
    if names == [] {
      assert names + more == more;
    } else {
      assert (names + more)[1..] == names[1..] + more;
      OwnAppend(names[1..], more, a);
    }
  }

  lemma {:induction false} NoneFirst(names: seq<Key>, a: string)
    requires forall k | k in names :: First(k.name) != a
    ensures Subs(names, a) == [] && Own(names, a) == None
  {
    if names != [] {
      assert names[0] in names;
      NoneFirst(names[1..], a);
    }
  }

  // ---- What a set of names must be like ----

  predicate Distinct(names: seq<Key>) {
    forall i, j | 0 <= i < j < |names| :: Pat(names[i].name).labels != Pat(names[j].name).labels
  }

  predicate Good(names: seq<Key>) {
    Sorted(names) && Distinct(names) && forall k | k in names :: WellFormed(k.name) && k.value != 0
  }

  lemma GoodTail(names: seq<Key>)
    requires Good(names) && names != []
    ensures Good(names[1..])
  {
    assert forall k | k in names[1..] :: k in names;
  }

  lemma SubLater(names: seq<Key>, a: string, k: Key)
    requires Good(names) && names != [] && Has(names[0].name, a) && k in Subs(names[1..], a)
    ensures Le(Rest(names[0].name), k.name) && Pat(Rest(names[0].name)).labels != Pat(k.name).labels
  {
    SubsNonEmpty(names[1..], a, k);
    Split(names[0].name);
    SubsMember(names[1..], a, k);
    Joined(a, k.name);
    var j :| 0 <= j < |names[1..]| && names[1..][j] == Key(a + "." + k.name, k.value);
    assert names[j + 1].name == a + "." + k.name;
    LeAfter(a + ".", Rest(names[0].name), k.name);
  }

  lemma {:induction false} GoodSubs(names: seq<Key>, a: string)
    requires Good(names)
    ensures Good(Subs(names, a))
  {
    if names != [] {
      GoodTail(names);
      GoodSubs(names[1..], a);
      var rest := Subs(names[1..], a);
      if Has(names[0].name, a) {
        var k0 := Key(Rest(names[0].name), names[0].value);
        forall k | k in rest
          ensures Le(k0.name, k.name) && Pat(k0.name).labels != Pat(k.name).labels
        {
          SubLater(names, a, k);
        }
        assert names[0] in names;
        GoodCons(k0, rest);
      } else {
        assert Subs(names, a) == rest;
      }
    }
  }

  lemma GoodCons(k0: Key, rest: seq<Key>)
    requires Good(rest) && WellFormed(k0.name) && k0.value != 0
    requires forall k | k in rest :: Le(k0.name, k.name) && Pat(k0.name).labels != Pat(k.name).labels
    ensures Good([k0] + rest)
  {
    var all := [k0] + rest;
    forall i, j | 0 <= i < j < |all|
      ensures Le(all[i].name, all[j].name) && Pat(all[i].name).labels != Pat(all[j].name).labels
    {
      assert all[j] == rest[j - 1];
      assert rest[j - 1] in rest;
    }
  }
}
