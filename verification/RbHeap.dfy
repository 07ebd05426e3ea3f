/** Red-black trees in memory: cells linked by child and parent pointers, with
    one shared black sentinel in place of every missing child.  The parent
    pointer of the root is never relied on. */
module RbHeap {
  import opened RbShape

  datatype Cell = Cell(left: Ref, right: Ref, parent: Ref, red: bool) {

    function Child(d: Dir): Ref {
      if d == Left then left else right
    }

    function SetChild(d: Dir, to: Ref): Cell {
      if d == Left then this.(left := to) else this.(right := to)
    }
  }

  type Heap = map<Ref, Cell>

  function At(h: Heap, x: Ref): Cell {
    if x in h then h[x] else Cell(Null, Null, Null, false)
  }

  /** The cells from `ref` down are the tree `t`, hanging under `p`. */
  ghost predicate Rep(h: Heap, t: Tree, ref: Ref, p: Ref) {
    match t
    case Leaf => ref == Sentinel
    case Node(x, red, l, r) =>
      && ref == x && x.N? && At(h, x).parent == p && At(h, x).red == red
      && Rep(h, l, At(h, x).left, x) && Rep(h, r, At(h, x).right, x)
  }

  /** The cells above `ref` are the context `c` of a tree with this root. */
  ghost predicate RepC(h: Heap, c: Ctx, root: Ref, ref: Ref) {
    match c
    case Top => root == ref
    case Hole(up, x, red, d, sib) =>
      && x.N? && At(h, x).Child(d) == ref && At(h, x).red == red
      && Rep(h, sib, At(h, x).Child(d.Other()), x)
      && (up.Hole? ==> At(h, x).parent == up.x)
      && RepC(h, up, root, x)
  }

  predicate Uniq(s: seq<Ref>) {
    forall i, j | 0 <= i < j < |s| :: s[i] != s[j]
  }

  /** The tree in memory, seen at the subtree `t` whose root is `ref`. */
  ghost predicate Focus(h: Heap, root: Ref, c: Ctx, t: Tree, ref: Ref) {
    && RepC(h, c, root, ref)
    && Rep(h, t, ref, if c.Hole? then c.x else At(h, ref).parent)
    && Uniq(Pre(c) + Seq(t) + Post(c))
    && !At(h, Sentinel).red
  }

  /** The root reference of a tree. */
  function RefOf(t: Tree): Ref {
    if t.Leaf? then Sentinel else t.x
  }

  lemma MkRep(h: Heap, d: Dir, x: Ref, red: bool, a: Tree, b: Tree, ref: Ref, p: Ref)
    ensures Rep(h, Mk(d, x, red, a, b), ref, p) <==>
      && ref == x && x.N? && At(h, x).parent == p && At(h, x).red == red
      && Rep(h, a, At(h, x).Child(d), x) && Rep(h, b, At(h, x).Child(d.Other()), x)
  {
  }

  lemma RepRef(h: Heap, t: Tree, ref: Ref, p: Ref)
    requires Rep(h, t, ref, p)
    ensures ref == RefOf(t) && (t.Node? ==> ref.N?)
    ensures forall v | v in Seq(t) :: v.N?
  {
    match t
    case Leaf =>
    case Node(x, _, l, r) =>
      RepRef(h, l, At(h, x).left, x);
      RepRef(h, r, At(h, x).right, x);
  }

  lemma RepCRefs(h: Heap, c: Ctx, root: Ref, ref: Ref)
    requires RepC(h, c, root, ref)
    ensures forall v | v in Pre(c) || v in Post(c) :: v.N?
  {
    match c
    case Top =>
    case Hole(up, x, _, d, sib) =>
      RepCRefs(h, up, root, x);
      RepRef(h, sib, At(h, x).Child(d.Other()), x);
  }

  lemma RepFrame(h: Heap, h': Heap, t: Tree, ref: Ref, p: Ref)
    requires Rep(h, t, ref, p) && forall v | v in Seq(t) :: At(h', v) == At(h, v)
    ensures Rep(h', t, ref, p)
  {
    match t
    case Leaf =>
    case Node(x, _, l, r) =>
      assert x in Seq(t);
      RepFrame(h, h', l, At(h, x).left, x);
      RepFrame(h, h', r, At(h, x).right, x);
  }

  /** A tree whose root cell changes only its parent. */
  lemma Reparent(h: Heap, h': Heap, t: Tree, ref: Ref, p: Ref, q: Ref)
    requires Rep(h, t, ref, p) && Uniq(Seq(t))
    requires forall v | v in Seq(t) && v != ref :: At(h', v) == At(h, v)
    requires t.Node? ==> At(h', ref) == At(h, ref).(parent := q)
    ensures Rep(h', t, ref, q)
  {
    match t
    case Leaf =>
    case Node(x, _, l, r) =>
      UniqNode(l, x, r);
      RepFrame(h, h', l, At(h, x).left, x);
      RepFrame(h, h', r, At(h, x).right, x);
  }

  lemma RepCFrame(h: Heap, h': Heap, c: Ctx, root: Ref, ref: Ref)
    requires RepC(h, c, root, ref)
    requires forall v | v in Pre(c) || v in Post(c) :: At(h', v) == At(h, v)
    ensures RepC(h', c, root, ref)
  {
    match c
    case Top =>
    case Hole(up, x, _, d, sib) =>
      assert x in Pre(c) || x in Post(c);
      RepFrame(h, h', sib, At(h, x).Child(d.Other()), x);
      RepCFrame(h, h', up, root, x);
  }

  lemma UniqSplit(a: seq<Ref>, b: seq<Ref>)
    requires Uniq(a + b)
    ensures Uniq(a) && Uniq(b) && forall v | v in a :: v !in b
  {
    var s := a + b;
    forall i, j | 0 <= i < j < |a| ensures a[i] != a[j] {
      assert s[i] == a[i] && s[j] == a[j];
    }
    forall i, j | 0 <= i < j < |b| ensures b[i] != b[j] {
      assert s[|a| + i] == b[i] && s[|a| + j] == b[j];
    }
    forall v | v in a ensures v !in b {
      var i :| 0 <= i < |a| && a[i] == v;
      forall j | 0 <= j < |b| ensures b[j] != v {
        assert s[i] == a[i] && s[|a| + j] == b[j];
      }
    }
  }

  lemma UniqNode(l: Tree, x: Ref, r: Tree)
    requires Uniq(Seq(l) + [x] + Seq(r))
    ensures Uniq(Seq(l)) && Uniq(Seq(r)) && x !in Seq(l) && x !in Seq(r)
    ensures forall v | v in Seq(l) :: v !in Seq(r)
  {
    UniqSplit(Seq(l) + [x], Seq(r));
    UniqSplit(Seq(l), [x]);
    assert x in Seq(l) + [x];
    assert x in [x];
    forall v | v in Seq(l) ensures v !in Seq(r) {
      assert v in Seq(l) + [x];
    }
  }

  /** The nodes of a subtree are not in its context. */
  lemma UniqApart(c: Ctx, t: Tree)
    requires Uniq(Pre(c) + Seq(t) + Post(c))
    ensures Uniq(Seq(t)) && forall v | v in Seq(t) :: v !in Pre(c) && v !in Post(c)
  {
    UniqSplit(Pre(c) + Seq(t), Post(c));
    UniqSplit(Pre(c), Seq(t));
    forall v | v in Seq(t) ensures v !in Pre(c) && v !in Post(c) {
      assert v in Pre(c) + Seq(t);
    }
  }

  /** The node of a context is not elsewhere in the tree. */
  lemma UniqHole(c: Ctx, t: Tree)
    requires c.Hole? && Uniq(Pre(c) + Seq(t) + Post(c))
    ensures Uniq(Pre(c.up) + Seq(Mk(c.d, c.x, c.red, t, c.sib)) + Post(c.up))
    ensures c.x !in Pre(c.up) && c.x !in Post(c.up) && c.x !in Seq(c.sib) && c.x !in Seq(t)
    ensures forall v | v in Seq(t) :: v !in Seq(c.sib)
  {
    HoleSeq(c, t);
    var s := Mk(c.d, c.x, c.red, t, c.sib);
    UniqApart(c.up, s);
    if c.d == Left {
      UniqNode(t, c.x, c.sib);
    } else {
      UniqNode(c.sib, c.x, t);
    }
    assert c.x in Seq(s);
  }

  /** Looking at the parent instead. */
  lemma FocusUp(h: Heap, root: Ref, c: Ctx, t: Tree, ref: Ref)
    requires Focus(h, root, c, t, ref) && c.Hole?
    ensures Focus(h, root, c.up, Mk(c.d, c.x, c.red, t, c.sib), c.x)
  {
    UniqHole(c, t);
  }

  /** Looking at a child instead. */
  lemma FocusDown(h: Heap, root: Ref, c: Ctx, t: Tree, ref: Ref, d: Dir)
    requires Focus(h, root, c, t, ref) && t.Node?
    ensures Focus(h, root, Hole(c, t.x, t.red, d, Sub(t, d.Other())), Sub(t, d), At(h, t.x).Child(d))
  {
    HoleSeq(Hole(c, t.x, t.red, d, Sub(t, d.Other())), Sub(t, d));
    assert Mk(d, t.x, t.red, Sub(t, d), Sub(t, d.Other())) == t;
  }

  /** The node in question is the root exactly when nothing is above it, and is the child it is of
      its parent on one side only. */
  lemma WhichChild(h: Heap, root: Ref, c: Ctx, t: Tree, ref: Ref)
    requires Focus(h, root, c, t, ref) && t.Node?
    ensures ref == root <==> c.Top?
    ensures c.Hole? ==> At(h, ref).parent == c.x && (At(h, c.x).Child(Left) == ref <==> c.d == Left)
  {
    UniqApart(c, t);
    assert ref in Seq(t);
    if c.Hole? {
      RootInContext(h, root, c, ref);
      UniqHole(c, t);
      RepRef(h, c.sib, At(h, c.x).Child(c.d.Other()), c.x);
      assert c.sib.Node? ==> c.sib.x in Seq(c.sib);
    }
  }

  lemma RootInContext(h: Heap, root: Ref, c: Ctx, ref: Ref)
    requires RepC(h, c, root, ref) && c.Hole?
    ensures root in Pre(c) || root in Post(c)
  {
    if c.up.Hole? {
      RootInContext(h, root, c.up, c.x);
    }
  }

  /** Hanging another tree in the place of a context: the words the source writes. */
  function Hang(h: Heap, c: Ctx, to: Ref): Heap {
    if c.Top? then h else h[c.x := At(h, c.x).SetChild(c.d, to)]
  }

  lemma HangRep(h: Heap, h': Heap, c: Ctx, root: Ref, ref: Ref, to: Ref)
    requires RepC(h, c, root, ref) && Uniq(Pre(c) + Post(c))
    requires c.Hole? ==> At(h', c.x) == At(h, c.x).SetChild(c.d, to)
    requires forall v | (v in Pre(c) || v in Post(c)) && (c.Hole? ==> v != c.x) :: At(h', v) == At(h, v)
    ensures RepC(h', c, if c.Top? then to else root, to)
  {
    match c
    case Top =>
    case Hole(up, x, _, d, sib) =>
      HoleApart(c);
      RepFrame(h, h', sib, At(h, x).Child(d.Other()), x);
      RepCFrame(h, h', up, root, x);
  }

  lemma HoleApart(c: Ctx)
    requires c.Hole? && Uniq(Pre(c) + Post(c))
    ensures c.x !in Pre(c.up) && c.x !in Post(c.up) && c.x !in Seq(c.sib)
  {
    assert Pre(c) + Seq(Leaf) + Post(c) == Pre(c) + Post(c);
    UniqHole(c, Leaf);
  }

  lemma UniqOutside(c: Ctx, t: Tree)
    requires Uniq(Pre(c) + Seq(t) + Post(c))
    ensures Uniq(Pre(c) + Post(c))
  {
    UniqSplit(Pre(c) + Seq(t), Post(c));
    UniqSplit(Pre(c), Seq(t));
    var s := Pre(c) + Post(c);
    forall i, j | 0 <= i < j < |s| ensures s[i] != s[j] {
      if i < |Pre(c)| <= j {
        assert s[i] in Pre(c) + Seq(t);
        assert s[j] in Post(c);
      }
    }
  }
}
