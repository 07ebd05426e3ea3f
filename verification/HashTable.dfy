/** The hash table: choosing a size, laying the buckets out, filling them, and
    searching. */
module HashTable {
  import opened Common
  import opened HashLayout

  const NULL := -1

  /** `buckets` holds the address of each bucket, or NULL for an empty one. */
  datatype Table<V> = Table(buckets: seq<int>, mem: seq<Byte<V>>)

  // ---- What a table holds ----

  ghost predicate BucketOk<V>(t: Table<V>, names: seq<Name<V>>, i: nat)
    requires i < |t.buckets|
  {
    var es, b := Elems(names, |names|, |t.buckets|, i), t.buckets[i];
    if es == [] then b == NULL
    else b >= 0 && b % PTR == 0 && Chain(t.mem, b, es) && Ended(t.mem, b, es)
  }

  ghost predicate Represents<V>(t: Table<V>, names: seq<Name<V>>) {
    t.buckets != [] && forall i: nat | i < |t.buckets| :: BucketOk(t, names, i)
  }

  /** The value of the first of `n` names that is `name` in lower case. */
  function Pick<V>(names: seq<Name<V>>, n: nat, name: string): Option<V>
    requires n <= |names|
  {
    if n == 0 then None
    else
      var r := Pick(names, n - 1, name);
      if r.Some? then r
      else if !names[n - 1].gone && Lowered(names[n - 1].key) == name then Some(names[n - 1].value)
      else None
  }

  lemma {:induction false} PickMember<V>(names: seq<Name<V>>, n: nat, name: string)
    requires n <= |names|
    ensures Pick(names, n, name) == None ==> forall k | 0 <= k < n :: names[k].gone || Lowered(names[k].key) != name
    ensures Pick(names, n, name).Some? ==>
      exists k :: 0 <= k < n && !names[k].gone && Lowered(names[k].key) == name
                  && names[k].value == Pick(names, n, name).value
  {
    if n > 0 {
      PickMember(names, n - 1, name);
    }
  }

  lemma {:induction false} PickPrefix<V>(a: seq<Name<V>>, b: seq<Name<V>>, n: nat, name: string)
    requires n <= |a| && n <= |b| && forall k | 0 <= k < n :: a[k] == b[k]
    ensures Pick(a, n, name) == Pick(b, n, name)
  {
    if n > 0 {
      PickPrefix(a, b, n - 1, name);
    }
  }

  /** Only one bucket has to be searched, if all names that are equal to `name` are in it. */
  lemma {:induction false} PickBucket<V>(names: seq<Name<V>>, n: nat, size: nat, i: nat, name: string)
    requires size > 0 && n <= |names|
    requires forall k | 0 <= k < n && !names[k].gone && Lowered(names[k].key) == name :: In(names[k], size, i)
    ensures var es := Elems(names, n, size, i); Pick(es, |es|, name) == Pick(names, n, name)
  {
    if n > 0 {
      PickBucket(names, n - 1, size, i, name);
      var es, last := Elems(names, n - 1, size, i), names[n - 1];
      if In(last, size, i) {
        var more := es + [last];
        assert Elems(names, n, size, i) == more && more[|es|] == last;
        PickPrefix(es, more, |es|, name);
      } else {
        assert Elems(names, n, size, i) == es;
      }
    }
  }

  // ---- Searching ----

  lemma {:induction false} HoldsPart<V>(mem: seq<Byte<V>>, a: nat, x: seq<Byte<V>>, y: seq<Byte<V>>)
    requires Holds(mem, a, x + y)
    ensures Holds(mem, a, x) && Holds(mem, a + |x|, y)
  {
    var all := mem[a..a + |x + y|];
    assert mem[a..a + |x|] == all[..|x|];
    assert mem[a + |x|..a + |x| + |y|] == all[|x|..];
  }

  lemma {:induction false} HoldsFirst<V>(mem: seq<Byte<V>>, a: nat, x: seq<Byte<V>>)
    requires Holds(mem, a, x) && x != []
    ensures mem[a] == x[0]
  {
    assert mem[a] == mem[a..a + |x|][0];
  }

  lemma {:induction false} ElementBytes<V>(mem: seq<Byte<V>>, a: nat, e: Name<V>)
    requires Holds(mem, a, Image(e))
    ensures a + PTR + 2 + |e.key| <= |mem| && mem[a] == OfPtr(Some(e.value), 0) && mem[a + PTR] == OfLen(|e.key|, 0)
    ensures Holds(mem, a + PTR + 2, CharImage(Lowered(e.key)))
  {
    var p, l, c := PtrImage(Some(e.value)), [OfLen(|e.key|, 0), OfLen(|e.key|, 1)], CharImage(Lowered(e.key));
    HoldsPart(mem, a, p + l, c);
    HoldsPart(mem, a, p, l);
    HoldsFirst(mem, a, p);
    HoldsFirst(mem, a + PTR, l);
  }

  /** Compares a name with the characters from `a` on. */
  method SameName<V>(mem: seq<Byte<V>>, a: nat, name: string, ghost key: string) returns (same: bool)
    requires Holds(mem, a, CharImage(key)) && |key| == |name|
    ensures same <==> key == name
  {
    var i := 0;
    while i < |name|
      invariant i <= |name| && forall j | 0 <= j < i :: key[j] == name[j]
    {
      assert mem[a + i] == mem[a..a + |key|][i];
      if name[i] != mem[a + i].c {
        return false;
      }
      i := i + 1;
    }
    return true;
  }

  lemma {:induction false} PickStays<V>(es: seq<Name<V>>, k: nat, n: nat, name: string)
    requires k <= n <= |es| && Pick(es, k, name).Some?
    ensures Pick(es, n, name) == Pick(es, k, name)
  {
    if k < n {
      PickStays(es, k, n - 1, name);
    }
  }

  lemma {:induction false} ElemsLive<V>(names: seq<Name<V>>, n: nat, size: nat, i: nat)
    requires size > 0 && n <= |names|
    ensures forall e | e in Elems(names, n, size, i) :: !e.gone
  {
    if n > 0 {
      ElemsLive(names, n - 1, size, i);
    }
  }

  /** The search finds what was stored under the name first, and nothing else. */
  method Find<V>(t: Table<V>, hash: nat, name: string, ghost names: seq<Name<V>>) returns (r: Option<V>)
    requires Represents(t, names)
    requires forall n | 0 <= n < |names| && !names[n].gone && Lowered(names[n].key) == name :: names[n].hash == hash
    ensures r == Pick(names, |names|, name)
  {
    var i := hash % |t.buckets|;
    ghost var es := Elems(names, |names|, |t.buckets|, i);
    assert BucketOk(t, names, i);
    PickBucket(names, |names|, |t.buckets|, i, name);
    if t.buckets[i] == NULL {
      return None;
    }
    ElemsLive(names, |names|, |t.buckets|, i);
    r := Walk(t.mem, t.buckets[i], name, es);
  }

  /** What the search sees at the k-th element, or behind the last one. */
  lemma {:induction false} AtElement<V>(mem: seq<Byte<V>>, b: nat, es: seq<Name<V>>, k: nat)
    requires b % PTR == 0 && Chain(mem, b, es) && Ended(mem, b, es) && k <= |es|
    ensures var a := b + Offset(es, k);
            && a < |mem| && mem[a] == OfPtr(if k < |es| then Some(es[k].value) else None, 0)
            && (k < |es| ==>
                  && a + PTR < |mem| && mem[a + PTR] == OfLen(|es[k].key|, 0)
                  && Holds(mem, a + PTR + 2, CharImage(Lowered(es[k].key))))
  {
    var a := b + Offset(es, k);
    assert ElemAt(mem, b, es, k);
    if k < |es| {
      ElementBytes(mem, a, es[k]);
    } else {
      HoldsFirst(mem, a, PtrImage(None));
    }
  }

  /** The address of the next element. */
  method Advance<V>(elt: nat, len: nat, ghost b: nat, ghost es: seq<Name<V>>, ghost k: nat) returns (next: nat)
    requires k < |es| && b % PTR == 0 && elt == b + Offset(es, k) && len == |es[k].key|
    ensures next == b + Offset(es, k + 1)
  {
    OffsetAligned(es, k);
    Stride(elt, len);
    next := Align(elt + PTR + 2 + len, PTR);
  }

  /** The value an element has, and its length if it has one. */
  method Read<V>(mem: seq<Byte<V>>, elt: nat, ghost b: nat, ghost es: seq<Name<V>>, ghost k: nat)
      returns (p: Option<V>, len: nat)
    requires b % PTR == 0 && Chain(mem, b, es) && Ended(mem, b, es) && k <= |es| && elt == b + Offset(es, k)
    ensures if k < |es| then p == Some(es[k].value) && len == |es[k].key| else p == None
  {
    AtElement(mem, b, es, k);
    p := mem[elt].p;
    len := if p.Some? then mem[elt + PTR].n else 0;
  }

  /** Compares a name with that of an element. */
  method Compare<V>(mem: seq<Byte<V>>, elt: nat, len: nat, name: string, ghost b: nat, ghost es: seq<Name<V>>, ghost k: nat)
      returns (same: bool)
    requires b % PTR == 0 && Chain(mem, b, es) && Ended(mem, b, es) && k < |es| && elt == b + Offset(es, k)
    requires len == |es[k].key|
    ensures same <==> Lowered(es[k].key) == name
  {
    AtElement(mem, b, es, k);
    if |name| != len {
      return false;
    }
    same := SameName(mem, elt + PTR + 2, name, Lowered(es[k].key));
  }

  method Walk<V>(mem: seq<Byte<V>>, b: nat, name: string, ghost es: seq<Name<V>>) returns (r: Option<V>)
    requires b % PTR == 0 && Chain(mem, b, es) && Ended(mem, b, es) && forall e | e in es :: !e.gone
    ensures r == Pick(es, |es|, name)
  {
    var elt := b;
    ghost var k := 0;
    var p, len := Read(mem, elt, b, es, k);
    while p != None
      invariant k <= |es| && elt == b + Offset(es, k) && Pick(es, k, name) == None
      invariant if k < |es| then p == Some(es[k].value) && len == |es[k].key| else p == None
      decreases |es| - k
    {
      var same := Compare(mem, elt, len, name, b, es, k);
      if same {
        PickStays(es, k + 1, |es|, name);
        return p;
      }
      elt := Advance(elt, len, b, es, k);
      k := k + 1;
      p, len := Read(mem, elt, b, es, k);
    }
    return None;
  }
}
