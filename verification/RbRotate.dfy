/** The rotation, on cells. */
module RbRotate {
  import opened RbShape
  import opened RbHeap

  /** The distinct places a rotation touches and leaves alone. */
  ghost predicate Pieces(c: Ctx, x: Ref, y: Ref, a: Tree, b: Tree, z: Tree) {
    && x.N? && y.N? && x != y
    && x !in Seq(a) && x !in Seq(b) && x !in Seq(z) && y !in Seq(a) && y !in Seq(b) && y !in Seq(z)
    && (forall v | v in Seq(b) :: v !in Seq(a) && v !in Seq(z))
    && (forall v | v in Seq(a) || v in Seq(b) || v in Seq(z) || v == x || v == y :: v !in Pre(c) && v !in Post(c))
    && Uniq(Seq(b)) && Uniq(Pre(c) + Post(c))
  }

  lemma SplitPieces(c: Ctx, d: Dir, x: Ref, rx: bool, y: Ref, ry: bool, a: Tree, b: Tree, z: Tree)
    requires Uniq(Pre(c) + Seq(Mk(d, x, rx, a, Mk(d, y, ry, b, z))) + Post(c)) && x.N? && y.N?
    ensures Pieces(c, x, y, a, b, z)
  {
    var s, t := Mk(d, y, ry, b, z), Mk(d, x, rx, a, Mk(d, y, ry, b, z));
    UniqApart(c, t);
    UniqOutside(c, t);
    if d == Left {
      UniqNode(a, x, s);
      UniqNode(b, y, z);
    } else {
      UniqNode(s, x, a);
      UniqNode(z, y, b);
    }
    assert y in Seq(s);
    assert forall v | v in Seq(b) || v in Seq(z) :: v in Seq(s);
    assert x in Seq(t) && forall v | v in Seq(a) || v in Seq(s) :: v in Seq(t);
  }

  /** What a rotation at `x` towards `d` leaves in the cells. */
  ghost predicate Rotated(h: Heap, h': Heap, c: Ctx, d: Dir, x: Ref, y: Ref, b: Ref) {
    && At(h', x) == At(h, x).SetChild(d.Other(), b).(parent := y)
    && At(h', y) == At(h, y).SetChild(d, x).(parent := At(h, x).parent)
    && (b != Sentinel ==> At(h', b) == At(h, b).(parent := x))
    && (c.Hole? ==> At(h', c.x) == At(h, c.x).SetChild(c.d, y))
    && (forall v | v !in {x, y, b} && (c.Hole? ==> v != c.x) :: At(h', v) == At(h, v))
    && (b == Sentinel ==> At(h', b) == At(h, b))
  }

  lemma RotatedRep(h: Heap, h': Heap, c: Ctx, d: Dir, x: Ref, rx: bool, y: Ref, ry: bool,
                   a: Tree, b: Tree, z: Tree, p: Ref)
    requires Rep(h, Mk(d, x, rx, a, Mk(d, y, ry, b, z)), x, p) && Pieces(c, x, y, a, b, z)
    requires Rotated(h, h', c, d, x, y, RefOf(b))
    requires c.Hole? ==> c.x in Pre(c) || c.x in Post(c)
    ensures Rep(h', Mk(d, y, ry, Mk(d, x, rx, a, b), z), y, p)
  {
    RotatedSubtrees(h, h', c, d, x, rx, y, ry, a, b, z, p);
    MkRep(h', d, y, ry, Mk(d, x, rx, a, b), z, y, p);
    MkRep(h', d, x, rx, a, b, x, y);
  }

  lemma RotatedSubtrees(h: Heap, h': Heap, c: Ctx, d: Dir, x: Ref, rx: bool, y: Ref, ry: bool,
                        a: Tree, b: Tree, z: Tree, p: Ref)
    requires Rep(h, Mk(d, x, rx, a, Mk(d, y, ry, b, z)), x, p) && Pieces(c, x, y, a, b, z)
    requires Rotated(h, h', c, d, x, y, RefOf(b))
    requires c.Hole? ==> c.x in Pre(c) || c.x in Post(c)
    ensures At(h, x).parent == p && At(h, x).red == rx && At(h, y).red == ry
    ensures Rep(h', a, At(h, x).Child(d), x) && Rep(h', z, At(h, y).Child(d.Other()), y) && Rep(h', b, RefOf(b), x)
  {
    MkRep(h, d, x, rx, a, Mk(d, y, ry, b, z), x, p);
    MkRep(h, d, y, ry, b, z, At(h, x).Child(d.Other()), x);
    RepRef(h, a, At(h, x).Child(d), x);
    RepRef(h, b, At(h, y).Child(d), y);
    RepRef(h, z, At(h, y).Child(d.Other()), y);
    assert b.Node? ==> b.x in Seq(b);
    RepFrame(h, h', a, At(h, x).Child(d), x);
    RepFrame(h, h', z, At(h, y).Child(d.Other()), y);
    Reparent(h, h', b, RefOf(b), y, x);
  }

  /** The rotation at `x` towards `d`, word by word. */
  method RotateCells(h: Heap, root: Ref, x: Ref, d: Dir, ghost c: Ctx, ghost y: Ref, ghost b: Ref)
    returns (h': Heap, root': Ref)
    requires x.N? && y.N? && x != y && (b == Sentinel || (b.N? && b != x && b != y))
    requires At(h, x).Child(d.Other()) == y && At(h, y).Child(d) == b
    requires x == root <==> c.Top?
    requires c.Hole? ==>
      && c.x.N? && c.x != x && c.x != y && c.x != b && At(h, x).parent == c.x
      && (At(h, c.x).Child(d) == x <==> c.d == d)
    ensures Rotated(h, h', c, d, x, y, b) && root' == if c.Top? then y else root
  {
    var o := d.Other();
    h', root' := h, root;
    var temp := At(h', x).Child(o);
    h' := h'[x := At(h', x).SetChild(o, At(h', temp).Child(d))];
    if At(h', temp).Child(d) != Sentinel {
      var inner := At(h', temp).Child(d);
      h' := h'[inner := At(h', inner).(parent := x)];
    }
    h' := h'[temp := At(h', temp).(parent := At(h', x).parent)];
    if x == root {
      root' := temp;
    } else {
      var p := At(h', x).parent;
      var side := if At(h', p).Child(d) == x then d else o;
      h' := h'[p := At(h', p).SetChild(side, temp)];
    }
    h' := h'[temp := At(h', temp).SetChild(d, x)];
    h' := h'[x := At(h', x).(parent := temp)];
  }

  /** The rotation at `x` towards `d`: the child of `x` on the other side takes its place. */
  method Rotate(h: Heap, root: Ref, x: Ref, d: Dir,
                ghost c: Ctx, ghost rx: bool, ghost y: Ref, ghost ry: bool, ghost a: Tree, ghost b: Tree, ghost z: Tree)
    returns (h': Heap, root': Ref)
    requires Focus(h, root, c, Mk(d, x, rx, a, Mk(d, y, ry, b, z)), x)
    ensures Focus(h', root', c, Mk(d, y, ry, Mk(d, x, rx, a, b), z), y)
    ensures At(h', Sentinel) == At(h, Sentinel)
  {
    ghost var t := Mk(d, x, rx, a, Mk(d, y, ry, b, z));
    ghost var p := if c.Hole? then c.x else At(h, x).parent;
    RotateFacts(h, root, c, d, x, rx, y, ry, a, b, z);
    h', root' := RotateCells(h, root, x, d, c, y, RefOf(b));
    RotatedRep(h, h', c, d, x, rx, y, ry, a, b, z, p);
    HangRep(h, h', c, root, x, y);
    RotateSeq(d, x, rx, y, ry, a, b, z);
  }

  lemma RotateFacts(h: Heap, root: Ref, c: Ctx, d: Dir, x: Ref, rx: bool, y: Ref, ry: bool, a: Tree, b: Tree, z: Tree)
    requires Focus(h, root, c, Mk(d, x, rx, a, Mk(d, y, ry, b, z)), x)
    ensures Pieces(c, x, y, a, b, z)
    ensures At(h, x).Child(d.Other()) == y && At(h, y).Child(d) == RefOf(b)
    ensures RefOf(b) == Sentinel || (RefOf(b).N? && RefOf(b) in Seq(b))
    ensures x == root <==> c.Top?
    ensures c.Hole? ==>
      && c.x.N? && (c.x in Pre(c) || c.x in Post(c)) && At(h, x).parent == c.x
      && (At(h, c.x).Child(d) == x <==> c.d == d)
  {
    var t := Mk(d, x, rx, a, Mk(d, y, ry, b, z));
    MkRep(h, d, x, rx, a, Mk(d, y, ry, b, z), x, if c.Hole? then c.x else At(h, x).parent);
    MkRep(h, d, y, ry, b, z, At(h, x).Child(d.Other()), x);
    SplitPieces(c, d, x, rx, y, ry, a, b, z);
    WhichChild(h, root, c, t, x);
    RepRef(h, b, At(h, y).Child(d), y);
    if c.Hole? { OtherChild(h, root, c, t, x); }
  }

  lemma OtherChild(h: Heap, root: Ref, c: Ctx, t: Tree, ref: Ref)
    requires Focus(h, root, c, t, ref) && t.Node? && c.Hole?
    ensures At(h, c.x).Child(c.d.Other()) != ref
  {
    UniqHole(c, t);
    assert ref in Seq(t);
    RepRef(h, c.sib, At(h, c.x).Child(c.d.Other()), c.x);
    assert c.sib.Node? ==> c.sib.x in Seq(c.sib);
  }
}
