/** Deletion from a red-black tree: restoring the black heights. */
module RbFixup {
  import opened RbShape
  import opened RbHeap
  import opened RbRotate
  import opened RbInsert
  import opened RbDelete

  /** The side of its parent on which the short subtree hangs, found by comparing pointers. */
  lemma ShortSide(h: Heap, root: Ref, c: Ctx, t: Tree, ref: Ref, n: nat, total: nat)
    requires FocusP(h, root, c, t, ref) && DeleteState(c, t, n, total)
    ensures ref == root <==> c.Top?
    ensures c.Hole? ==> c.sib.Node? && (At(h, c.x).left == ref <==> c.d == Left)
    ensures c.Hole? ==> At(h, c.x).Child(c.d.Other()) == c.sib.x && c.sib.x.N?
  {
    RepRef(h, t, ref, if c.Hole? then c.x else At(h, ref).parent);
    if c.Hole? {
      SiblingExists(c, t, n, total);
      RepRef(h, c.sib, At(h, c.x).Child(c.d.Other()), c.x);
      UniqHole(c, t);
      assert c.sib.x in Seq(c.sib);
      assert t.Node? ==> t.x in Seq(t);
      UniqApart(c, t);
      RepCRefs(h, c, root, ref);
      RootInContext(h, root, c, ref);
    }
  }

  /** The colours of the children of the sibling, as read from the cells. */
  lemma SiblingColours(h: Heap, root: Ref, c: Ctx, t: Tree, ref: Ref)
    requires Focus(h, root, c, t, ref) && c.Hole? && c.sib.Node?
    ensures At(h, c.sib.x).red == c.sib.red
    ensures forall d: Dir :: At(h, At(h, c.sib.x).Child(d)).red == Red(Sub(c.sib, d))
    ensures forall d: Dir :: At(h, c.sib.x).Child(d) == RefOf(Sub(c.sib, d))
    ensures At(h, At(h, c.sib.x).left).red == Red(c.sib.l) && At(h, At(h, c.sib.x).right).red == Red(c.sib.r)
  {
    assert At(h, c.sib.x).left == At(h, c.sib.x).Child(Left) && At(h, c.sib.x).right == At(h, c.sib.x).Child(Right);
    forall d: Dir ensures At(h, At(h, c.sib.x).Child(d)).red == Red(Sub(c.sib, d))
      && At(h, c.sib.x).Child(d) == RefOf(Sub(c.sib, d))
    {
      RepRef(h, Sub(c.sib, d), At(h, c.sib.x).Child(d), c.sib.x);
    }
  }

  /** Sibling red: it becomes black, the parent red, and the parent sinks on this side. */
  method RedSibling(h: Heap, root: Ref, temp: Ref, d: Dir, w: Ref, ghost c: Ctx, ghost t: Tree, ghost n: nat, ghost total: nat)
    returns (h': Heap, root': Ref, w': Ref, ghost c': Ctx)
    requires FocusP(h, root, c, t, temp) && DeleteState(c, t, n, total)
    requires c.Hole? && c.d == d && Red(c.sib) && w == c.sib.x
    ensures FocusP(h', root', c', t, temp) && DeleteState(c', t, n, total)
    ensures c'.Hole? && c'.x == c.x && c'.d == d && c'.red && c'.sib.Node? && !c'.sib.red && w' == c'.sib.x
    ensures Seq(Plug(c', t)) == Seq(Plug(c, t))
  {
    ghost var b, z := Sub(c.sib, d), Sub(c.sib, d.Other());
    assert c.sib == Mk(d, w, true, b, z);
    var x := At(h, temp).parent;
    h' := Paint(h, w, false);
    PaintSibling(h, root, c, t, temp, false);
    ghost var h1, c1 := h', c.(sib := Mk(d, w, false, b, z));
    h' := Paint(h', x, true);
    PaintUp(h1, root, c1, t, temp, true);
    FocusUp(h', root, c1.(red := true), t, temp);
    SiblingNames(h, root, c, t, temp);
    assert At(h', Sentinel).parent == At(h, Sentinel).parent;
    ghost var s1 := At(h', Sentinel);
    h', root' := Rotate(h', root, x, d, c.up, true, w, false, t, b, z);
    ghost var q := Mk(d, x, true, t, b);
    FocusDown(h', root', c.up, Mk(d, w, false, q, z), w, d);
    ghost var k := Hole(c.up, w, false, d, z);
    MkRep(h', d, x, true, t, b, At(h', w).Child(d), w);
    FocusDown(h', root', k, q, x, d);
    c' := Hole(k, x, true, d, b);
    RepRef(h', t, At(h', x).Child(d), x);
    RepRef(h, t, temp, c.x);
    DeleteRedSibling(c.up, c.x, c.red, d, w, b, z, t, n, total);
    w' := At(h', x).Child(d.Other());
    RepRef(h', b, w', x);
    RotateSeq(d, x, c.red, w, true, t, b, z);
    PlugSeq(c.up, Mk(d, x, c.red, t, Mk(d, w, true, b, z)));
    PlugSeq(c.up, Mk(d, w, false, q, z));
  }

  lemma SiblingNames(h: Heap, root: Ref, c: Ctx, t: Tree, ref: Ref)
    requires Focus(h, root, c, t, ref) && c.Hole? && c.sib.Node?
    ensures c.x.N? && c.sib.x.N? && c.x != c.sib.x
  {
    UniqHole(c, t);
    assert c.sib.x in Seq(c.sib);
  }

  /** Both children of the black sibling black: it becomes red and the parent is next. */
  method PushUp(h: Heap, root: Ref, temp: Ref, w: Ref, ghost c: Ctx, ghost t: Tree, ghost n: nat, ghost total: nat)
    returns (h': Heap, temp': Ref, ghost t': Tree, ghost n': nat)
    requires FocusP(h, root, c, t, temp) && DeleteState(c, t, n, total) && !Red(t)
    requires c.Hole? && c.sib.Node? && !c.sib.red && !Red(c.sib.l) && !Red(c.sib.r) && w == c.sib.x
    ensures FocusP(h', root, c.up, t', temp') && DeleteState(c.up, t', n', total)
    ensures t'.Node? && t'.red == c.red && temp' == c.x && Seq(Plug(c.up, t')) == Seq(Plug(c, t))
  {
    h' := Paint(h, w, true);
    PaintSibling(h, root, c, t, temp, true);
    ghost var c1 := c.(sib := Painted(c.sib, true));
    FocusUp(h', root, c1, t, temp);
    temp' := At(h', temp).parent;
    SiblingNames(h, root, c, t, temp);
    SiblingApart(c, t);
    RepRef(h, t, temp, c.x);
    t', n' := Mk(c.d, c.x, c.red, t, Painted(c.sib, true)), if c.red then n else n + 1;
    DeletePushUp(c.up, c.x, c.red, c.d, c.sib, t, n, total);
    PlugSeq(c.up, t');
    PlugSeq(c.up, Mk(c.d, c.x, c.red, t, c.sib));
  }

  lemma SiblingApart(c: Ctx, t: Tree)
    requires c.Hole? && c.sib.Node? && Uniq(Pre(c) + Seq(t) + Post(c))
    ensures t.Node? ==> t.x != c.sib.x
  {
    UniqHole(c, t);
    assert c.sib.x in Seq(c.sib);
    assert t.Node? ==> t.x in Seq(t);
  }

  /** Only the inner child of the black sibling red: it rises over the sibling. */
  method InnerNephew(h: Heap, root: Ref, temp: Ref, d: Dir, w: Ref, ghost c: Ctx, ghost t: Tree, ghost n: nat, ghost total: nat)
    returns (h': Heap, root': Ref, w': Ref, ghost c': Ctx)
    requires FocusP(h, root, c, t, temp) && DeleteState(c, t, n, total)
    requires c.Hole? && c.d == d && c.sib.Node? && !c.sib.red && w == c.sib.x
    requires Red(Sub(c.sib, d)) && !Red(Sub(c.sib, d.Other()))
    ensures FocusP(h', root', c', t, temp) && DeleteState(c', t, n, total)
    ensures c'.Hole? && c'.x == c.x && c'.d == d && c'.red == c.red && c'.up == c.up
    ensures c'.sib.Node? && !c'.sib.red && Red(Sub(c'.sib, d.Other())) && w' == c'.sib.x
    ensures Seq(Plug(c', t)) == Seq(Plug(c, t))
  {
    var o := d.Other();
    ghost var inner, z := Sub(c.sib, d), Sub(c.sib, o);
    ghost var a, b := Sub(inner, d), Sub(inner, o);
    assert inner == Mk(d, inner.x, true, a, b) && c.sib == Mk(d, w, false, inner, z);
    FocusUp(h, root, c, t, temp);
    ghost var s := Mk(d, c.x, c.red, t, c.sib);
    FocusDown(h, root, c.up, s, c.x, o);
    ghost var k := Hole(c.up, c.x, c.red, o, t);
    RepRef(h, c.sib, At(h, c.x).Child(o), c.x);
    FocusDown(h, root, k, c.sib, w, d);
    var v := At(h, w).Child(d);
    RepRef(h, inner, v, w);
    PaintFocus(h, root, Hole(k, w, false, d, z), inner, v, false);
    h' := Paint(h, v, false);
    ghost var h1 := h';
    FocusUp(h', root, Hole(k, w, false, d, z), Painted(inner, false), v);
    PaintFocus(h', root, k, Mk(d, w, false, Painted(inner, false), z), w, true);
    h' := Paint(h', w, true);
    InnerNames(h, root, c, t, temp, d);
    assert At(h', Sentinel) == At(h, Sentinel);
    assert Mk(d, w, true, Mk(d, v, false, a, b), z) == Mk(o, w, true, z, Mk(o, v, false, b, a));
    h', root' := Rotate(h', root, w, o, k, true, v, false, z, b, a);
    ghost var sib' := Mk(o, v, false, Mk(o, w, true, z, b), a);
    assert sib' == Mk(d, v, false, a, Mk(d, w, true, b, z));
    FocusUp(h', root', k, sib', v);
    assert Mk(o, c.x, c.red, sib', t) == Mk(d, c.x, c.red, t, sib');
    FocusDown(h', root', c.up, Mk(d, c.x, c.red, t, sib'), c.x, d);
    c' := c.(sib := sib');
    RepRef(h', t, At(h', c.x).Child(d), c.x);
    RepRef(h, t, temp, c.x);
    DeleteInner(c.up, c.x, c.red, d, w, v, a, b, z, t, n, total);
    var x := At(h', temp).parent;
    w' := At(h', x).Child(o);
    RepRef(h', sib', At(h', c.x).Child(o), c.x);
    InnerSeq(c, t, d, w, v, a, b, z);
  }

  lemma InnerNames(h: Heap, root: Ref, c: Ctx, t: Tree, ref: Ref, d: Dir)
    requires Focus(h, root, c, t, ref) && c.Hole? && c.sib.Node? && Sub(c.sib, d).Node?
    ensures Sub(c.sib, d).x.N? && c.sib.x.N?
  {
    RepRef(h, c.sib, At(h, c.x).Child(c.d.Other()), c.x);
    RepRef(h, Sub(c.sib, d), At(h, c.sib.x).Child(d), c.sib.x);
  }

  lemma InnerSeq(c: Ctx, t: Tree, d: Dir, w: Ref, v: Ref, a: Tree, b: Tree, z: Tree)
    requires c.Hole? && c.sib == Mk(d, w, false, Mk(d, v, true, a, b), z)
    ensures Seq(Plug(c.(sib := Mk(d, v, false, a, Mk(d, w, true, b, z))), t)) == Seq(Plug(c, t))
  {
    var sib' := Mk(d, v, false, a, Mk(d, w, true, b, z));
    RotateSeq(d, v, false, w, true, a, b, z);
    Recoloured(d, w, true, false, Mk(d, v, false, a, b), Mk(d, v, true, a, b), z);
    SameSibling(c, t, sib');
  }

  lemma Recoloured(d: Dir, x: Ref, red: bool, red': bool, a: Tree, a': Tree, b: Tree)
    requires Seq(a) == Seq(a')
    ensures Seq(Mk(d, x, red, a, b)) == Seq(Mk(d, x, red', a', b))
  {
  }

  lemma SameSibling(c: Ctx, t: Tree, sib': Tree)
    requires c.Hole? && Seq(sib') == Seq(c.sib)
    ensures Seq(Plug(c.(sib := sib'), t)) == Seq(Plug(c, t))
  {
    PlugSeq(c.up, Mk(c.d, c.x, c.red, t, sib'));
    PlugSeq(c.up, Mk(c.d, c.x, c.red, t, c.sib));
  }

  /** The outer child of the black sibling red: the sibling rises over the parent and takes its colour. */
  method OuterNephew(h: Heap, root: Ref, temp: Ref, d: Dir, w: Ref, ghost c: Ctx, ghost t: Tree, ghost n: nat, ghost total: nat)
    returns (h': Heap, root': Ref, ghost whole: Tree)
    requires FocusP(h, root, c, t, temp) && DeleteState(c, t, n, total) && !Red(t)
    requires c.Hole? && c.d == d && c.sib.Node? && !c.sib.red && Red(Sub(c.sib, d.Other())) && w == c.sib.x
    ensures Focus(h', root', Top, whole, root') && whole.Node? && DeleteState(Top, whole, total, total)
    ensures Seq(whole) == Seq(Plug(c, t))
  {
    var o := d.Other();
    ghost var b, z := Sub(c.sib, d), Sub(c.sib, o);
    assert c.sib == Mk(d, w, false, b, z);
    var x := At(h, temp).parent;
    SiblingNames(h, root, c, t, temp);
    h' := Paint(h, w, At(h, x).red);
    PaintSibling(h, root, c, t, temp, c.red);
    ghost var h1, c1 := h', c.(sib := Mk(d, w, c.red, b, z));
    h' := Paint(h', x, false);
    PaintUp(h1, root, c1, t, temp, false);
    ghost var h2, c2 := h', c1.(red := false);
    var far := At(h', w).Child(o);
    InnerNames(h2, root, c2, t, temp, o);
    SiblingColours(h2, root, c2, t, temp);
    h' := Paint(h', far, false);
    PaintNephew(h2, root, c2, t, temp, o);
    ghost var sib := Mk(d, w, c.red, b, Blacken(z));
    FocusUp(h', root, c2.(sib := sib), t, temp);
    h', root' := Rotate(h', root, x, d, c.up, false, w, c.red, t, b, Blacken(z));
    ghost var top := Mk(d, w, c.red, Mk(d, x, false, t, b), Blacken(z));
    FocusTop(h', root', c.up, top, w);
    whole := Plug(c.up, top);
    DeleteOuter(c.up, c.x, c.red, d, w, b, z, t, n, total);
    OuterSeq2(c, t, d, w, b, z);
  }

  /** Painting a child of the sibling black. */
  lemma PaintNephew(h: Heap, root: Ref, c: Ctx, t: Tree, ref: Ref, o: Dir)
    requires Focus(h, root, c, t, ref) && c.Hole? && c.d.Other() == o && c.sib.Node? && Sub(c.sib, o).Node?
    ensures var z := Sub(c.sib, o);
            Focus(Paint(h, z.x, false), root,
                  c.(sib := Mk(c.d, c.sib.x, c.sib.red, Sub(c.sib, c.d), Blacken(z))), t, ref)
  {
    var z, d, w := Sub(c.sib, o), c.d, c.sib.x;
    FocusUp(h, root, c, t, ref);
    FocusDown(h, root, c.up, Mk(d, c.x, c.red, t, c.sib), c.x, o);
    var k := Hole(c.up, c.x, c.red, o, t);
    RepRef(h, c.sib, At(h, c.x).Child(o), c.x);
    FocusDown(h, root, k, c.sib, w, o);
    var k2 := Hole(k, w, c.sib.red, o, Sub(c.sib, d));
    RepRef(h, z, At(h, w).Child(o), w);
    PaintFocus(h, root, k2, z, z.x, false);
    var h' := Paint(h, z.x, false);
    FocusUp(h', root, k2, Painted(z, false), z.x);
    var sib := Mk(o, w, c.sib.red, Painted(z, false), Sub(c.sib, d));
    FocusUp(h', root, k, sib, w);
    FocusDown(h', root, c.up, Mk(o, c.x, c.red, sib, t), c.x, d);
    RepRef(h, t, ref, c.x);
    RepRef(h', t, At(h', c.x).Child(d), c.x);
  }

  lemma OuterSeq2(c: Ctx, t: Tree, d: Dir, w: Ref, b: Tree, z: Tree)
    requires c.Hole? && c.d == d && c.sib == Mk(d, w, false, b, z)
    ensures Seq(Plug(c.up, Mk(d, w, c.red, Mk(d, c.x, false, t, b), Blacken(z)))) == Seq(Plug(c, t))
  {
    var top := Mk(d, w, c.red, Mk(d, c.x, false, t, b), Blacken(z));
    assert Seq(Blacken(z)) == Seq(z);
    assert Seq(Mk(d, w, c.red, b, Blacken(z))) == Seq(c.sib);
    assert Seq(Mk(d, c.x, false, t, Mk(d, w, c.red, b, Blacken(z)))) == Seq(Mk(d, c.x, c.red, t, c.sib));
    RotateSeq(d, c.x, false, w, c.red, t, b, Blacken(z));
    PlugSeq(c.up, top);
    PlugSeq(c.up, Mk(d, c.x, c.red, t, c.sib));
  }

  /** The loop that restores the black heights; at the end the short subtree is painted black. */
  method Repair(h: Heap, root: Ref, temp0: Ref, ghost c0: Ctx, ghost t0: Tree, ghost n0: nat, ghost total: nat)
    returns (h': Heap, root': Ref, ghost w': Tree)
    requires FocusP(h, root, c0, t0, temp0) && DeleteState(c0, t0, n0, total)
    ensures IsTree(h', root', w') && Seq(w') == Seq(Plug(c0, t0))
  {
    h', root' := h, root;
    var temp := temp0;
    ghost var c, t, n := c0, t0, n0;
    ShortSide(h', root', c, t, temp, n, total);
    while temp != root' && !At(h', temp).red
      invariant FocusP(h', root', c, t, temp) && DeleteState(c, t, n, total)
      invariant Seq(Plug(c, t)) == Seq(Plug(c0, t0))
      invariant temp == root' <==> c.Top?
      decreases if Red(t) || c.Top? then 0 else Depth(c)
    {
      RepRef(h', t, temp, c.x);
      ShortSide(h', root', c, t, temp, n, total);
      var x := At(h', temp).parent;
      var d := if temp == At(h', x).left then Left else Right;
      var w := At(h', x).Child(d.Other());
      SiblingColours(h', root', c, t, temp);
      if At(h', w).red {
        h', root', w, c := RedSibling(h', root', temp, d, w, c, t, n, total);
        SiblingColours(h', root', c, t, temp);
      }
      if !At(h', At(h', w).left).red && !At(h', At(h', w).right).red {
        h', temp, t, n := PushUp(h', root', temp, w, c, t, n, total);
        c := c.up;
      } else {
        if !At(h', At(h', w).Child(d.Other())).red {
          h', root', w, c := InnerNephew(h', root', temp, d, w, c, t, n, total);
        }
        h', root', t := OuterNephew(h', root', temp, d, w, c, t, n, total);
        temp, c, n := root', Top, total;
      }
      ShortSide(h', root', c, t, temp, n, total);
    }
    FinishRepair(h', root', c, t, temp, n, total);
    h' := Paint(h', temp, false);
    w' := Plug(c, Blacken(t));
  }

  lemma FinishRepair(h: Heap, root: Ref, c: Ctx, t: Tree, temp: Ref, n: nat, total: nat)
    requires FocusP(h, root, c, t, temp) && DeleteState(c, t, n, total) && (c.Top? || At(h, temp).red)
    ensures IsTree(Paint(h, temp, false), root, Plug(c, Blacken(t))) && Seq(Plug(c, Blacken(t))) == Seq(Plug(c, t))
  {
    RepRef(h, t, temp, if c.Hole? then c.x else At(h, temp).parent);
    DeleteDone(c, t, n, total);
    PlugSeq(c, t);
    PlugSeq(c, Blacken(t));
    if t.Node? {
      PaintFocus(h, root, c, t, temp, false);
      FocusTop(Paint(h, temp, false), root, c, Blacken(t), temp);
    } else {
      FocusForeign(h, Paint(h, temp, false), root, c, t, temp);
    }
  }

  /** Deletes a node with at most one child. */
  method DeleteSimple(h: Heap, root: Ref, node: Ref, temp: Ref, ghost t: Tree, ghost c: Ctx, ghost s: Tree, ghost r: Tree)
    returns (h': Heap, root': Ref, ghost t': Tree)
    requires IsTree(h, root, t) && t == Plug(c, s) && s.Node? && Focus(h, root, c, s, node)
    requires ((s.l == Leaf && r == s.r) || (s.r == Leaf && r == s.l)) && temp == RefOf(r)
    ensures IsTree(h', root', t') && Seq(t') == Pre(c) + Seq(r) + Post(c)
  {
    WhichChild(h, root, c, s, node);
    PlugSeq(c, r);
    if node == root {
      RootRemoved(h, node, s, r);
      h' := Clear(Paint(h, temp, false), node);
      root', t' := temp, Blacken(r);
    } else {
      var red := At(h, node).red;
      h' := RemoveSimple(h, root, node, temp, c, s, r);
      root' := root;
      ghost var n, total := AfterRemoval(c, s, r);
      if red {
        RedRemoved(h', root, c, r, temp, n, total);
        t' := Plug(c, r);
      } else {
        h', root', t' := Repair(h', root, temp, c, r, n, total);
      }
    }
  }

  /** The only child of the root takes its place. */
  lemma RootRemoved(h: Heap, node: Ref, s: Tree, r: Tree)
    requires Focus(h, node, Top, s, node) && s.Node? && RedBlack(s)
    requires (s.l == Leaf && r == s.r) || (s.r == Leaf && r == s.l)
    ensures IsTree(Clear(Paint(h, RefOf(r), false), node), RefOf(r), Blacken(r)) && Seq(Blacken(r)) == Seq(r)
  {
    var h' := Clear(Paint(h, RefOf(r), false), node);
    OneSided(Top, s, r);
    RepRef(h, s.l, At(h, node).left, node);
    RepRef(h, s.r, At(h, node).right, node);
    assert node.N? && Rep(h, r, RefOf(r), node);
    RootChild(h, h', r, node);
    OnlyChild(s, r);
  }

  lemma RootChild(h: Heap, h': Heap, r: Tree, node: Ref)
    requires Rep(h, r, RefOf(r), node) && node !in Seq(r) && Uniq(Seq(r)) && node.N? && !At(h, Sentinel).red
    requires h' == Clear(Paint(h, RefOf(r), false), node)
    ensures Focus(h', RefOf(r), Top, Blacken(r), RefOf(r))
  {
    RepRef(h, r, RefOf(r), node);
    assert Pre(Top) + Seq(Blacken(r)) + Post(Top) == Seq(r);
    if r.Node? {
      UniqNode(r.l, r.x, r.r);
      assert r.x in Seq(r);
      RepFrame(h, h', r.l, At(h, r.x).left, r.x);
      RepFrame(h, h', r.r, At(h, r.x).right, r.x);
    }
  }

  lemma OnlyChild(s: Tree, r: Tree)
    requires RedBlack(s) && s.Node? && ((s.l == Leaf && r == s.r) || (s.r == Leaf && r == s.l))
    ensures RedBlack(Blacken(r))
  {
    var n: nat :| Black(s, n);
    assert Black(r, n - 1) && NoRedRed(r);
    NoRedRedBlacken(r);
    assert Black(Blacken(r), if Red(r) then n else n - 1);
  }

  /** What is left when a node with at most one child is gone: whole if the node was red, one black
      node short otherwise. */
  lemma AfterRemoval(c: Ctx, s: Tree, r: Tree) returns (n: nat, total: nat)
    requires RedBlack(Plug(c, s)) && s.Node? && c.Hole? && ((s.l == Leaf && r == s.r) || (s.r == Leaf && r == s.l))
    ensures s.red ==> Black(r, n) && CBlack(c, n, total) && NoRedRed(r) && CNoRedRed(c) && CRootBlack(c) && !Red(r)
    ensures !s.red ==> DeleteState(c, r, n, total)
  {
    total :| Black(Plug(c, s), total);
    var k := UnplugBlack(c, s, total);
    UnplugNoRedRed(c, s);
    UnplugRootBlack(c, s);
    n := if s.red then k else k - 1;
    NoRedRedBlacken(r);
  }

  lemma RedRemoved(h: Heap, root: Ref, c: Ctx, r: Tree, temp: Ref, n: nat, total: nat)
    requires FocusP(h, root, c, r, temp) && c.Hole?
    requires Black(r, n) && CBlack(c, n, total) && NoRedRed(r) && CNoRedRed(c) && CRootBlack(c) && !Red(r)
    ensures IsTree(h, root, Plug(c, r))
  {
    PlugBlack(c, r, n, total);
    PlugNoRedRed(c, r);
    PlugRootBlack(c, r);
    FocusUp(h, root, c, r, temp);
    FocusTop(h, root, c.up, Mk(c.d, c.x, c.red, r, c.sib), c.x);
  }

  /** Deletes a node with two children. */
  method DeleteInnerNode(h: Heap, root: Ref, node: Ref, ghost t: Tree, ghost c: Ctx, ghost s: Tree)
    returns (h': Heap, root': Ref, ghost t': Tree)
    requires IsTree(h, root, t) && t == Plug(c, s) && s.Node? && Focus(h, root, c, s, node) && s.l.Node? && s.r.Node?
    ensures IsTree(h', root', t') && Seq(t') == Pre(c) + Seq(s.l) + Seq(s.r) + Post(c)
  {
    FocusDown(h, root, c, s, node, Right);
    RepRef(h, s.r, At(h, node).right, node);
    ghost var base := Hole(c, node, s.red, Right, s.l);
    var subst, kr, sred, rt := Min(h, root, At(h, node).right, base, s.r);
    ghost var m := Node(subst, sred, Leaf, rt);
    RepRef(h, rt, At(h, subst).right, subst);
    var temp := At(h, subst).right;
    var red := At(h, subst).red;
    h', root' := RemoveInner(h, root, node, subst, temp, c, s.red, s.l, kr, sred, rt);
    ghost var k, k' := Append(kr, base), Append(kr, Hole(c, subst, s.red, Right, s.l));
    AppendPlug(kr, base, m);
    ghost var n, total := AfterInnerRemoval(kr, c, node, subst, s.red, s.l, m, rt, t);
    InnerRemovalSeq(kr, c, node, subst, s, m, rt);
    if red {
      RedRemoved(h', root', k', rt, temp, n, total);
      t' := Plug(k', rt);
    } else {
      h', root', t' := Repair(h', root', temp, k', rt, n, total);
    }
  }

  lemma AfterInnerRemoval(kr: Ctx, c: Ctx, node: Ref, subst: Ref, red: bool, l: Tree, m: Tree, rt: Tree, t: Tree)
    returns (n: nat, total: nat)
    requires t == Plug(Append(kr, Hole(c, node, red, Right, l)), m) && RedBlack(t) && m.Node? && m.l == Leaf && m.r == rt
    ensures var k' := Append(kr, Hole(c, subst, red, Right, l));
            && k'.Hole?
            && (m.red ==> Black(rt, n) && CBlack(k', n, total) && NoRedRed(rt) && CNoRedRed(k') && CRootBlack(k') && !Red(rt))
            && (!m.red ==> DeleteState(k', rt, n, total))
  {
    AppendRename(kr, c, node, subst, red, Right, l);
    n, total := AfterRemoval(Append(kr, Hole(c, node, red, Right, l)), m, rt);
  }

  lemma InnerRemovalSeq(kr: Ctx, c: Ctx, node: Ref, subst: Ref, s: Tree, m: Tree, rt: Tree)
    requires s.Node? && s.r == Plug(kr, m) && m.Node? && m == Node(subst, m.red, Leaf, rt) && Pre(kr) == []
    ensures Seq(Plug(Append(kr, Hole(c, subst, s.red, Right, s.l)), rt)) == Pre(c) + Seq(s.l) + Seq(s.r) + Post(c)
  {
    var k' := Append(kr, Hole(c, subst, s.red, Right, s.l));
    AppendPlug(kr, Hole(c, subst, s.red, Right, s.l), rt);
    PlugSeq(c, Node(subst, s.red, s.l, Plug(kr, rt)));
    MinSeq(kr, subst, m.red, rt);
    CatNode(Pre(c), Seq(s.l), subst, Seq(Plug(kr, rt)), Post(c));
    Assoc(Pre(c) + Seq(s.l), [subst], Seq(Plug(kr, rt)));
    Assoc(Pre(c) + Seq(s.l) + [subst], Seq(Plug(kr, rt)), Post(c));
  }

  /** Deletes `node`, which is in the tree. */
  method Delete(h: Heap, root: Ref, node: Ref, ghost t: Tree) returns (h': Heap, root': Ref, ghost t': Tree, ghost at: nat)
    requires IsTree(h, root, t) && node in Seq(t)
    ensures IsTree(h', root', t')
    ensures at < |Seq(t)| && Seq(t)[at] == node && Seq(t') == Seq(t)[..at] + Seq(t)[at + 1..]
  {
    ghost var c, s := FindNode(t, node);
    FocusUnplug(h, root, c, s);
    RepRef(h, s.l, At(h, node).left, node);
    RepRef(h, s.r, At(h, node).right, node);
    at := SeqAt(c, s);
    if At(h, node).left == Sentinel {
      h', root', t' := DeleteSimple(h, root, node, At(h, node).right, t, c, s, s.r);
      assert Pre(c) + Seq(s.r) + Post(c) == Pre(c) + Seq(s.l) + Seq(s.r) + Post(c);
    } else if At(h, node).right == Sentinel {
      h', root', t' := DeleteSimple(h, root, node, At(h, node).left, t, c, s, s.l);
      assert Pre(c) + Seq(s.l) + Post(c) == Pre(c) + Seq(s.l) + Seq(s.r) + Post(c);
    } else {
      h', root', t' := DeleteInnerNode(h, root, node, t, c, s);
    }
  }

  /** The position of a node in the order. */
  lemma SeqAt(c: Ctx, s: Tree) returns (at: nat)
    requires s.Node?
    ensures var w := Seq(Plug(c, s));
            at < |w| && w[at] == s.x && w[..at] + w[at + 1..] == Pre(c) + Seq(s.l) + Seq(s.r) + Post(c)
  {
    PlugSeq(c, s);
    at := |Pre(c)| + |Seq(s.l)|;
    CatNode(Pre(c), Seq(s.l), s.x, Seq(s.r), Post(c));
    var w, a, b := Seq(Plug(c, s)), Pre(c) + Seq(s.l), Seq(s.r) + Post(c);
    assert w == a + [s.x] + b;
    assert w[..at] == a && w[at + 1..] == b;
    Assoc(a, Seq(s.r), Post(c));
  }

  // ---- The nodes of a tree in memory, as a sequence ----

  lemma TreeNodes(h: Heap, root: Ref, t: Tree)
    requires IsTree(h, root, t)
    ensures Uniq(Seq(t)) && (forall v | v in Seq(t) :: v.N?) && root == RefOf(t) && (root == Sentinel <==> Seq(t) == [])
  {
    assert Pre(Top) + Seq(t) + Post(Top) == Seq(t);
    RepRef(h, t, root, At(h, root).parent);
  }

  lemma SortedWithout(lt: (Ref, Ref) -> bool, s: seq<Ref>, at: nat)
    requires Sorted(lt, s) && at < |s|
    ensures Sorted(lt, s[..at] + s[at + 1..])
  {
    var w := s[..at] + s[at + 1..];
    forall i, j | 0 <= i < j < |w| ensures !lt(w[j], w[i]) {
      var i', j' := if i < at then i else i + 1, if j < at then j else j + 1;
      assert w[i] == s[i'] && w[j] == s[j'];
    }
  }

  lemma WithoutMembers(s: seq<Ref>, at: nat)
    requires Uniq(s) && at < |s|
    ensures forall v :: v in s[..at] + s[at + 1..] <==> v in s && v != s[at]
  {
    var w := s[..at] + s[at + 1..];
    forall v | v in s && v != s[at] ensures v in w {
      var i :| 0 <= i < |s| && s[i] == v;
      assert w[if i < at then i else i - 1] == v;
    }
    forall v | v in w ensures v in s && v != s[at] {
      var i :| 0 <= i < |w| && w[i] == v;
      assert s[if i < at then i else i + 1] == v;
    }
  }

  lemma InsertedMembers(s: seq<Ref>, at: nat, z: Ref)
    requires at <= |s|
    ensures forall v :: v in s[..at] + [z] + s[at..] <==> v in s || v == z
  {
    assert s == s[..at] + s[at..];
  }
}
