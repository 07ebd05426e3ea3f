/** The memory of a hash table: elements of different lengths packed into buckets,
    each bucket a run of elements that ends with an empty pointer. */
module HashLayout {
  import opened Common

  const PTR := 8             // bytes in a pointer
  const SHORT := 0x1_0000    // values of the 16-bit counters

  /** A byte of memory, and what was stored over it. */
  datatype Byte<V> = Junk | OfPtr(p: Option<V>, k: nat) | OfLen(n: nat, k: nat) | Char(c: char)

  /** `gone` marks a name whose data pointer is NULL. */
  datatype Name<V> = Name(key: string, hash: nat, value: V, gone: bool)

  function Lower(c: char): char {
    if 'A' <= c <= 'Z' then c + 32 as char else c
  }

  function Lowered(s: string): string {
    seq(|s|, i requires 0 <= i < |s| => Lower(s[i]))
  }

  lemma {:induction false} DivMod(x: nat, a: nat)
    requires a > 0
    ensures x / a * a <= x < x / a * a + a
  {
    assert x == x / a * a + x % a;
  }

  lemma {:induction false} MulPtr(q: nat, m: nat)
    ensures q * (PTR * m) % PTR == 0
  {
    assert q * (PTR * m) == PTR * (q * m);
  }

  lemma {:induction false} AlignIs(x: nat, a: nat)
    requires a > 0 && a % PTR == 0
    ensures x <= Align(x, a) < x + a && Align(x, a) % PTR == 0
  {
    DivMod(x + (a - 1), a);
    MulPtr((x + (a - 1)) / a, a / PTR);
    assert a == PTR * (a / PTR);
  }

  /** The space an element takes. */
  function EltSize(len: nat): nat {
    PTR + Align(len + 2, PTR)
  }

  /** The step from an element to the next one, as the search computes it from the element's length. */
  lemma {:induction false} Stride(a: nat, len: nat)
    requires a % PTR == 0
    ensures Align(a + PTR + 2 + len, PTR) == a + EltSize(len)
  {
  }

  // ---- Elements in memory ----

  function PtrImage<V>(p: Option<V>): (r: seq<Byte<V>>)
    ensures |r| == PTR
  {
    seq(PTR, (k: nat) => OfPtr(p, k))
  }

  function CharImage<V>(s: string): (r: seq<Byte<V>>)
    ensures |r| == |s|
  {
    seq(|s|, i requires 0 <= i < |s| => Char(s[i]))
  }

  /** The bytes of an element: its value, the length of its name, and the name in lower case. */
  function Image<V>(e: Name<V>): (r: seq<Byte<V>>)
    ensures |r| == PTR + 2 + |e.key|
  {
    PtrImage(Some(e.value)) + [OfLen(|e.key|, 0), OfLen(|e.key|, 1)] + CharImage(Lowered(e.key))
  }

  predicate Holds<V(==)>(mem: seq<Byte<V>>, a: nat, bytes: seq<Byte<V>>) {
    a + |bytes| <= |mem| && mem[a..a + |bytes|] == bytes
  }

  function Put<V>(mem: seq<Byte<V>>, a: nat, bytes: seq<Byte<V>>): (r: seq<Byte<V>>)
    requires a + |bytes| <= |mem|
    ensures |r| == |mem|
  {
    mem[..a] + bytes + mem[a + |bytes|..]
  }

  lemma {:induction false} PutHolds<V>(mem: seq<Byte<V>>, a: nat, bytes: seq<Byte<V>>)
    requires a + |bytes| <= |mem|
    ensures Holds(Put(mem, a, bytes), a, bytes)
  {
  }

  lemma {:induction false} PutKeeps<V>(mem: seq<Byte<V>>, a: nat, bytes: seq<Byte<V>>, b: nat, other: seq<Byte<V>>)
    requires a + |bytes| <= |mem| && Holds(mem, b, other) && (b + |other| <= a || a + |bytes| <= b)
    ensures Holds(Put(mem, a, bytes), b, other)
  {
    var r := Put(mem, a, bytes);
    assert r[b..b + |other|] == mem[b..b + |other|];
  }

  // ---- The elements of a bucket ----

  predicate In<V>(n: Name<V>, size: nat, i: nat)
    requires size > 0
  {
    !n.gone && n.hash % size == i
  }

  /** Of the first `n` names the ones that go into bucket `i`, in the order in which they are given. */
  function Elems<V>(names: seq<Name<V>>, n: nat, size: nat, i: nat): seq<Name<V>>
    requires size > 0 && n <= |names|
  {
    if n == 0 then []
    else Elems(names, n - 1, size, i) + if In(names[n - 1], size, i) then [names[n - 1]] else []
  }

  /** Where the k-th element is, from the start of its bucket. */
  function Offset<V>(es: seq<Name<V>>, k: nat): nat
    requires k <= |es|
  {
    if k == 0 then 0 else Offset(es, k - 1) + EltSize(|es[k - 1].key|)
  }

  function Total<V>(names: seq<Name<V>>, n: nat, size: nat, i: nat): nat
    requires size > 0 && n <= |names|
  {
    if n == 0 then 0
    else Total(names, n - 1, size, i) + if In(names[n - 1], size, i) then EltSize(|names[n - 1].key|) else 0
  }

  lemma {:induction false} OffsetMore<V>(es: seq<Name<V>>, e: Name<V>, k: nat)
    requires k <= |es|
    ensures Offset(es + [e], k) == Offset(es, k)
  {
    if k > 0 {
      OffsetMore(es, e, k - 1);
    }
  }

  lemma {:induction false} OffsetGrows<V>(es: seq<Name<V>>, j: nat, k: nat)
    requires j < k <= |es|
    ensures Offset(es, j) + EltSize(|es[j].key|) <= Offset(es, k)
  {
    if j < k - 1 {
      OffsetGrows(es, j, k - 1);
    }
  }

  lemma {:induction false} OffsetAligned<V>(es: seq<Name<V>>, k: nat)
    requires k <= |es|
    ensures Offset(es, k) % PTR == 0
  {
    if k > 0 {
      OffsetAligned(es, k - 1);
    }
  }

  lemma {:induction false} TotalIs<V>(names: seq<Name<V>>, n: nat, size: nat, i: nat)
    requires size > 0 && n <= |names|
    ensures var es := Elems(names, n, size, i); Total(names, n, size, i) == Offset(es, |es|)
  {
    if n > 0 {
      TotalIs(names, n - 1, size, i);
      var es, e := Elems(names, n - 1, size, i), names[n - 1];
      if In(e, size, i) {
        OffsetMore(es, e, |es|);
        var more := es + [e];
        assert Elems(names, n, size, i) == more && more[|es|] == e;
        assert Offset(more, |more|) == Offset(more, |es|) + EltSize(|e.key|);
      } else {
        assert Elems(names, n, size, i) == es;
      }
    }
  }

  lemma {:induction false} TotalGrows<V>(names: seq<Name<V>>, m: nat, n: nat, size: nat, i: nat)
    requires size > 0 && m <= n <= |names|
    ensures Total(names, m, size, i) <= Total(names, n, size, i)
  {
    if m < n {
      TotalGrows(names, m, n - 1, size, i);
    }
  }

  lemma {:induction false} EmptyIff<V>(names: seq<Name<V>>, n: nat, size: nat, i: nat)
    requires size > 0 && n <= |names|
    ensures Total(names, n, size, i) == 0 <==> Elems(names, n, size, i) == []
  {
    if n > 0 {
      EmptyIff(names, n - 1, size, i);
    }
  }

  predicate ElemAt<V(==)>(mem: seq<Byte<V>>, a: nat, es: seq<Name<V>>, k: nat) {
    k < |es| ==> Holds(mem, a + Offset(es, k), Image(es[k]))
  }

  /** Elements `es` stand one after the other from address `a` on. */
  ghost predicate Chain<V>(mem: seq<Byte<V>>, a: nat, es: seq<Name<V>>) {
    forall k: nat {:trigger ElemAt(mem, a, es, k)} :: ElemAt(mem, a, es, k)
  }

  /** The empty pointer after them. */
  ghost predicate Ended<V>(mem: seq<Byte<V>>, a: nat, es: seq<Name<V>>) {
    Holds(mem, a + Offset(es, |es|), PtrImage(None))
  }
}
