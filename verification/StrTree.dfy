/** Red-black trees of strings: nodes ordered by hash, then length, then bytes. */
module StrTree {
  import opened RbShape
  import opened RbHeap
  import opened RbInsert
  import opened RbFixup

  datatype StrKey = StrKey(hash: nat, data: seq<nat>)

  /** `memcmp` of two byte strings of one length. */
  function MemCmp(a: seq<nat>, b: seq<nat>): int
    requires |a| == |b|
  {
    if a == [] then 0
    else if a[0] != b[0] then a[0] - b[0]
    else MemCmp(a[1..], b[1..])
  }

  predicate Less(a: StrKey, b: StrKey) {
    if a.hash != b.hash then a.hash < b.hash
    else if |a.data| != |b.data| then |a.data| < |b.data|
    else MemCmp(a.data, b.data) < 0
  }

  lemma MemCmpOrder(a: seq<nat>, b: seq<nat>, c: seq<nat>)
    requires |a| == |b| == |c|
    ensures MemCmp(a, b) == 0 <==> a == b
    ensures MemCmp(a, b) < 0 <==> MemCmp(b, a) > 0
    ensures MemCmp(a, b) <= 0 && MemCmp(b, c) <= 0 ==> MemCmp(a, c) <= 0
  {
    if a != [] {
      MemCmpOrder(a[1..], b[1..], c[1..]);
      assert a == [a[0]] + a[1..] && b == [b[0]] + b[1..];
    }
  }

  lemma LessOrder(a: StrKey, b: StrKey, c: StrKey)
    ensures Less(a, b) ==> !Less(b, a)
    ensures !Less(b, a) && !Less(c, b) ==> !Less(c, a)
    ensures !Less(a, b) && !Less(b, a) <==> a == b
  {
    MemCmpSym(a.data, b.data);
    MemCmpSym(b.data, c.data);
    MemCmpSym(a.data, c.data);
    if |a.data| == |b.data| == |c.data| {
      MemCmpOrder(a.data, b.data, c.data);
    }
  }

  lemma MemCmpSym(a: seq<nat>, b: seq<nat>)
    ensures |a| == |b| ==>
      && (MemCmp(a, b) < 0 <==> MemCmp(b, a) > 0) && (MemCmp(b, a) < 0 <==> MemCmp(a, b) > 0)
      && (MemCmp(a, b) == 0 <==> a == b)
  {
    if |a| == |b| {
      MemCmpOrder(a, b, a);
      MemCmpOrder(b, a, b);
    }
  }

  function StrOf(str: map<Ref, StrKey>, v: Ref): StrKey {
    if v in str then str[v] else StrKey(0, [])
  }

  function Before(str: map<Ref, StrKey>): (Ref, Ref) -> bool {
    (a, b) => Less(StrOf(str, a), StrOf(str, b))
  }

  lemma BeforeOrder(str: map<Ref, StrKey>, s: seq<Ref>)
    ensures WeakOrder(Before(str), s)
  {
    forall a, b | a in s && b in s && Before(str)(a, b) ensures !Before(str)(b, a) {
      LessOrder(StrOf(str, a), StrOf(str, b), StrOf(str, a));
    }
    forall a, b, c | a in s && b in s && c in s && !Before(str)(b, a) && !Before(str)(c, b) ensures !Before(str)(c, a) {
      LessOrder(StrOf(str, a), StrOf(str, b), StrOf(str, c));
    }
  }

  /** The wanted key is neither before nor after a subtree whose root sends the search elsewhere. */
  lemma Elsewhere(str: map<Ref, StrKey>, c: Ctx, t: Tree, want: StrKey, v: Ref)
    requires t.Node? && Sorted(Before(str), Pre(c) + Seq(t) + Post(c))
    ensures Less(want, StrOf(str, t.x)) && v in Seq(t.r) ==> StrOf(str, v) != want
    ensures Less(StrOf(str, t.x), want) && v in Seq(t.l) ==> StrOf(str, v) != want
  {
    SortedAround(Before(str), Pre(c), Seq(t.l), t.x, Seq(t.r), Post(c), v);
  }

  class Strings {
    var heap: Heap
    var root: Ref
    var str: map<Ref, StrKey>
    ghost var t: Tree

    ghost predicate Valid()
      reads this
    {
      IsTree(heap, root, t) && Sorted(Before(str), Seq(t))
    }

    constructor ()
      ensures Valid() && Seq(t) == []
    {
      heap, root, str := map[], Sentinel, map[];
      t := Leaf;
      assert Black(Leaf, 0);
    }

    /** Inserts node `z` with the given hash and bytes. */
    method InsertStr(z: Ref, k: StrKey)
      requires Valid() && z.N? && z !in Seq(t)
      modifies this
      ensures Valid() && str == old(str)[z := k]
      ensures forall v :: v in Seq(t) <==> v in old(Seq(t)) || v == z
    {
      ghost var s := Seq(t);
      SortedSameStrs(str, str[z := k], s);
      str := str[z := k];
      var h, r, t', at := Insert(heap, root, z, Before(str), t);
      BeforeOrder(str, s + [z]);
      InsertedMembers(s, at, z);
      heap, root, t := h, r, t';
    }

    /** Deletes node `z`. */
    method DeleteStr(z: Ref)
      requires Valid() && z in Seq(t)
      modifies this
      ensures Valid() && str == old(str)
      ensures forall v :: v in Seq(t) <==> v in old(Seq(t)) && v != z
    {
      ghost var s := Seq(t);
      TreeNodes(heap, root, t);
      var h, r, t', at := Delete(heap, root, z, t);
      SortedWithout(Before(str), s, at);
      WithoutMembers(s, at);
      heap, root, t := h, r, t';
    }

    /** Finds a node with the given hash and bytes whenever the tree has one. */
    method Lookup(want: StrKey) returns (found: Ref)
      requires Valid()
      ensures found == Null || (found in Seq(t) && StrOf(str, found) == want)
      ensures found == Null <==> forall v | v in Seq(t) :: StrOf(str, v) != want
    {
      TreeNodes(heap, root, t);
      var node := root;
      ghost var c, s := Top, t;
      while node != Sentinel
        invariant Focus(heap, root, c, s, node) && Plug(c, s) == t
        invariant forall v | v in Pre(c) || v in Post(c) :: StrOf(str, v) != want
        decreases s
      {
        RepRef(heap, s, node, if c.Hole? then c.x else At(heap, node).parent);
        PlugSeq(c, s);
        var k := StrOf(str, node);
        var d;
        if want.hash != k.hash {
          d := if want.hash < k.hash then Left else Right;
        } else if |want.data| != |k.data| {
          d := if |want.data| < |k.data| then Left else Right;
        } else {
          var rc := MemCmp(want.data, k.data);
          MemCmpOrder(want.data, k.data, k.data);
          if rc < 0 {
            d := Left;
          } else if rc > 0 {
            d := Right;
          } else {
            assert node in Seq(s);
            return node;
          }
        }
        LessOrder(want, k, want);
        FocusDown(heap, root, c, s, node, d);
        forall v | v in Seq(Sub(s, d.Other())) ensures StrOf(str, v) != want {
          Elsewhere(str, c, s, want, v);
        }
        assert Mk(d, s.x, s.red, Sub(s, d), Sub(s, d.Other())) == s;
        c, s := Hole(c, s.x, s.red, d, Sub(s, d.Other())), Sub(s, d);
        node := At(heap, node).Child(d);
      }
      RepRef(heap, s, node, if c.Hole? then c.x else At(heap, node).parent);
      PlugSeq(c, s);
      return Null;
    }
  }

  lemma SortedSameStrs(str: map<Ref, StrKey>, str': map<Ref, StrKey>, s: seq<Ref>)
    requires Sorted(Before(str), s) && forall v | v in s :: StrOf(str', v) == StrOf(str, v)
    ensures Sorted(Before(str'), s)
  {
    forall i, j | 0 <= i < j < |s| ensures !Before(str')(s[j], s[i]) {
      assert !Before(str)(s[j], s[i]);
    }
  }
}
