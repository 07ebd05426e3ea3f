/** Insertion into a red-black tree. */
module RbInsert {
  import opened RbShape
  import opened RbHeap
  import opened RbRotate

  function Paint(h: Heap, x: Ref, red: bool): Heap {
    h[x := At(h, x).(red := red)]
  }

  function Painted(t: Tree, red: bool): Tree
    requires t.Node?
  {
    t.(red := red)
  }

  lemma PaintFocus(h: Heap, root: Ref, c: Ctx, t: Tree, ref: Ref, red: bool)
    requires Focus(h, root, c, t, ref) && t.Node?
    ensures Focus(Paint(h, ref, red), root, c, Painted(t, red), ref)
  {
    var h' := Paint(h, ref, red);
    UniqApart(c, t);
    UniqNode(t.l, t.x, t.r);
    assert ref in Seq(t);
    RepFrame(h, h', t.l, At(h, ref).left, ref);
    RepFrame(h, h', t.r, At(h, ref).right, ref);
    RepCFrame(h, h', c, root, ref);
  }

  /** Painting the parent. */
  lemma PaintUp(h: Heap, root: Ref, c: Ctx, t: Tree, ref: Ref, red: bool)
    requires Focus(h, root, c, t, ref) && c.Hole?
    ensures Focus(Paint(h, c.x, red), root, c.(red := red), t, ref)
  {
    FocusUp(h, root, c, t, ref);
    var s := Mk(c.d, c.x, c.red, t, c.sib);
    PaintFocus(h, root, c.up, s, c.x, red);
    FocusDown(Paint(h, c.x, red), root, c.up, Painted(s, red), c.x, c.d);
  }

  /** Painting the sibling. */
  lemma PaintSibling(h: Heap, root: Ref, c: Ctx, t: Tree, ref: Ref, red: bool)
    requires Focus(h, root, c, t, ref) && c.Hole? && c.sib.Node?
    ensures Focus(Paint(h, c.sib.x, red), root, c.(sib := Painted(c.sib, red)), t, ref)
  {
    FocusUp(h, root, c, t, ref);
    var s := Mk(c.d, c.x, c.red, t, c.sib);
    var o := c.d.Other();
    FocusDown(h, root, c.up, s, c.x, o);
    var k := Hole(c.up, c.x, c.red, o, t);
    PaintFocus(h, root, k, c.sib, c.sib.x, red);
    var h' := Paint(h, c.sib.x, red);
    FocusUp(h', root, k, Painted(c.sib, red), c.sib.x);
    FocusDown(h', root, c.up, Mk(o, c.x, c.red, Painted(c.sib, red), t), c.x, c.d);
    UniqHole(c, t);
    assert c.sib.x in Seq(c.sib);
    RepRef(h, t, ref, c.x);
  }

  /** Painting the grandparent. */
  lemma PaintUpUp(h: Heap, root: Ref, c: Ctx, t: Tree, ref: Ref, red: bool)
    requires Focus(h, root, c, t, ref) && c.Hole? && c.up.Hole?
    ensures Focus(Paint(h, c.up.x, red), root, c.(up := c.up.(red := red)), t, ref)
  {
    FocusUp(h, root, c, t, ref);
    var s := Mk(c.d, c.x, c.red, t, c.sib);
    PaintUp(h, root, c.up, s, c.x, red);
    FocusDown(Paint(h, c.up.x, red), root, c.up.(red := red), s, c.x, c.d);
    UniqHole(c, t);
    assert c.up.x in Pre(c.up) || c.up.x in Post(c.up);
  }

  // ---- Order ----

  /** `lt` orders these nodes up to ties. */
  ghost predicate WeakOrder(lt: (Ref, Ref) -> bool, s: seq<Ref>) {
    && (forall a, b | a in s && b in s && lt(a, b) :: !lt(b, a))
    && (forall a, b, c | a in s && b in s && c in s && !lt(b, a) && !lt(c, b) :: !lt(c, a))
  }

  ghost predicate Sorted(lt: (Ref, Ref) -> bool, s: seq<Ref>) {
    forall i, j | 0 <= i < j < |s| :: !lt(s[j], s[i])
  }

  /** A new node fits between the nodes not after it and the nodes after it. */
  ghost predicate Between(lt: (Ref, Ref) -> bool, before: seq<Ref>, z: Ref, after: seq<Ref>) {
    (forall v | v in before :: !lt(z, v)) && (forall v | v in after :: lt(z, v))
  }

  lemma SortedInsert(lt: (Ref, Ref) -> bool, before: seq<Ref>, z: Ref, after: seq<Ref>)
    requires Sorted(lt, before + after) && WeakOrder(lt, before + [z] + after) && Between(lt, before, z, after)
    ensures Sorted(lt, before + [z] + after)
  {
    var s, w := before + after, before + [z] + after;
    forall i, j | 0 <= i < j < |w| ensures !lt(w[j], w[i]) {
      if i == |before| {
        assert w[j] in after && w[i] == z && w[j] in w && z in w;
      } else if j == |before| {
        assert w[i] in before;
      } else {
        var i', j' := if i < |before| then i else i - 1, if j < |before| then j else j - 1;
        assert w[i] == s[i'] && w[j] == s[j'];
      }
    }
  }

  /** One step down keeps the new node between what is left behind on either side. */
  lemma StepBetween(lt: (Ref, Ref) -> bool, c: Ctx, t: Tree, z: Ref, d: Dir)
    requires t.Node? && d == (if lt(z, t.x) then Left else Right)
    requires Sorted(lt, Pre(c) + Seq(t) + Post(c)) && WeakOrder(lt, Pre(c) + Seq(t) + Post(c) + [z])
    requires Between(lt, Pre(c), z, Post(c))
    ensures var k := Hole(c, t.x, t.red, d, Sub(t, d.Other())); Between(lt, Pre(k), z, Post(k))
  {
    forall v | v in Seq(t.r) && d == Left ensures lt(z, v) {
      AfterNode(lt, c, t, v);
      Weak3(lt, Pre(c) + Seq(t) + Post(c) + [z], t.x, v, z);
    }
    forall v | v in Seq(t.l) && d == Right ensures !lt(z, v) {
      BeforeNode(lt, c, t, v);
      Weak3(lt, Pre(c) + Seq(t) + Post(c) + [z], v, t.x, z);
    }
  }

  lemma Weak3(lt: (Ref, Ref) -> bool, s: seq<Ref>, a: Ref, b: Ref, c: Ref)
    requires WeakOrder(lt, s) && a in s && b in s && c in s
    ensures !lt(b, a) && !lt(c, b) ==> !lt(c, a)
  {
  }

  lemma {:induction false} AfterNode(lt: (Ref, Ref) -> bool, c: Ctx, t: Tree, v: Ref)
    requires t.Node? && v in Seq(t.r) && Sorted(lt, Pre(c) + Seq(t) + Post(c))
    ensures !lt(v, t.x)
  {
    SortedAround(lt, Pre(c), Seq(t.l), t.x, Seq(t.r), Post(c), v);
  }

  lemma {:induction false} BeforeNode(lt: (Ref, Ref) -> bool, c: Ctx, t: Tree, v: Ref)
    requires t.Node? && v in Seq(t.l) && Sorted(lt, Pre(c) + Seq(t) + Post(c))
    ensures !lt(t.x, v)
  {
    SortedAround(lt, Pre(c), Seq(t.l), t.x, Seq(t.r), Post(c), v);
  }

  lemma SortedAround(lt: (Ref, Ref) -> bool, p: seq<Ref>, l: seq<Ref>, x: Ref, r: seq<Ref>, q: seq<Ref>, v: Ref)
    requires Sorted(lt, p + (l + [x] + r) + q)
    ensures v in l ==> !lt(x, v)
    ensures v in r ==> !lt(v, x)
  {
    var s, m := p + (l + [x] + r) + q, |p| + |l|;
    assert s[m] == x;
    if v in l {
      var i :| 0 <= i < |l| && l[i] == v;
      assert s[|p| + i] == v;
    }
    if v in r {
      var i :| 0 <= i < |r| && r[i] == v;
      assert s[m + 1 + i] == v;
    }
  }

  // ---- The operation ----

  /** The tree in memory is the red-black tree `t`. */
  ghost predicate IsTree(h: Heap, root: Ref, t: Tree) {
    Focus(h, root, Top, t, root) && RedBlack(t)
  }

  /** Finds the missing child where `z` belongs, going left where `z` is less. */
  method Descend(h: Heap, root: Ref, z: Ref, lt: (Ref, Ref) -> bool, ghost t: Tree) returns (temp: Ref, d: Dir, ghost k: Ctx)
    requires Focus(h, root, Top, t, root) && t.Node?
    ensures k.Hole? && k.x == temp && k.d == d && Focus(h, root, k, Leaf, Sentinel) && Plug(k, Leaf) == t
    ensures Sorted(lt, Seq(t)) && WeakOrder(lt, Seq(t) + [z]) ==> Between(lt, Pre(k), z, Post(k))
  {
    temp := root;
    ghost var c, s := Top, t;
    ghost var ordered := Sorted(lt, Seq(t)) && WeakOrder(lt, Seq(t) + [z]);
    while true
      invariant Focus(h, root, c, s, temp) && s.Node? && Plug(c, s) == t
      invariant ordered ==> Between(lt, Pre(c), z, Post(c))
      decreases s
    {
      d := if lt(z, temp) then Left else Right;
      k := Hole(c, s.x, s.red, d, Sub(s, d.Other()));
      FocusDown(h, root, c, s, temp, d);
      assert Mk(d, s.x, s.red, Sub(s, d), Sub(s, d.Other())) == s;
      if ordered {
        PlugSeq(c, s);
        StepBetween(lt, c, s, z, d);
      }
      RepRef(h, Sub(s, d), At(h, temp).Child(d), temp);
      if At(h, temp).Child(d) == Sentinel {
        assert Sub(s, d) == Leaf;
        return;
      }
      temp := At(h, temp).Child(d);
      c, s := k, Sub(s, d);
    }
  }

  /** Hangs the new red node `z` in the place found. */
  method Attach(h: Heap, root: Ref, z: Ref, temp: Ref, d: Dir, ghost k: Ctx) returns (h': Heap)
    requires k.Hole? && k.x == temp && k.d == d && Focus(h, root, k, Leaf, Sentinel)
    requires z.N? && z !in Pre(k) && z !in Post(k)
    ensures Focus(h', root, k, Node(z, true, Leaf, Leaf), z)
  {
    h' := h[temp := At(h, temp).SetChild(d, z)];
    h' := h'[z := Cell(Sentinel, Sentinel, temp, true)];
    assert temp in Pre(k) || temp in Post(k);
    assert Pre(k) + Seq(Leaf) + Post(k) == Pre(k) + Post(k);
    HangRep(h, h', k, root, Sentinel, z);
    UniqAdd(Pre(k), z, Post(k));
    assert Seq(Node(z, true, Leaf, Leaf)) == [z];
  }

  lemma UniqAdd(a: seq<Ref>, z: Ref, b: seq<Ref>)
    requires Uniq(a + b) && z !in a && z !in b
    ensures Uniq(a + [z] + b)
  {
    var s, w := a + b, a + [z] + b;
    forall i, j | 0 <= i < j < |w| ensures w[i] != w[j] {
      if i == |a| {
        assert w[j] in b;
      } else if j == |a| {
        assert w[i] in a;
      } else {
        var i', j' := if i < |a| then i else i - 1, if j < |a| then j else j - 1;
        assert w[i] == s[i'] && w[j] == s[j'];
      }
    }
  }

  function Depth(c: Ctx): nat {
    if c.Top? then 0 else 1 + Depth(c.up)
  }

  /** One turn of the insertion loop with a red uncle. */
  method RecolorStep(h: Heap, root: Ref, node: Ref, uncle: Ref, ghost c: Ctx, ghost t: Tree, ghost n: nat, ghost total: nat)
    returns (h': Heap, node': Ref, ghost c': Ctx, ghost t': Tree)
    requires Focus(h, root, c, t, node) && InsertState(c, t, n, total)
    requires c.Hole? && c.red && c.up.Hole? && uncle == RefOf(c.up.sib) && Red(c.up.sib)
    ensures Focus(h', root, c', t', node') && InsertState(c', t', n + 1, total)
    ensures c' == c.up.up && Seq(Plug(c', t')) == Seq(Plug(c, t))
  {
    var p := At(h, node).parent;
    var g := At(h, p).parent;
    h' := Paint(h, p, false);
    PaintUp(h, root, c, t, node, false);
    ghost var c1 := c.(red := false);
    FocusUp(h', root, c1, t, node);
    ghost var q := Mk(c.d, c.x, false, t, c.sib);
    PaintSibling(h', root, c.up, q, p, false);
    h' := Paint(h', uncle, false);
    ghost var c2 := c.up.(sib := Blacken(c.up.sib));
    PaintUp(h', root, c2, q, p, true);
    h' := Paint(h', g, true);
    FocusUp(h', root, c2.(red := true), q, p);
    node' := g;
    c', t' := c.up.up, Mk(c.up.d, c.up.x, true, q, Blacken(c.up.sib));
    InsertRecolor(c.up.up, c.up.x, c.up.d, c.up.sib, c.x, c.d, c.sib, t, c.up.red, n, total);
    PlugSeq(c', t');
    PlugSeq(c', Mk(c.up.d, c.up.x, c.up.red, Mk(c.d, c.x, c.red, t, c.sib), c.up.sib));
    SeqColour(c.up.d, c.up.x, q, c.up.sib, Mk(c.d, c.x, c.red, t, c.sib), c.up.red);
  }

  lemma SeqColour(d: Dir, x: Ref, q: Tree, u: Tree, q0: Tree, red: bool)
    requires Seq(q) == Seq(q0)
    ensures Seq(Mk(d, x, true, q, Blacken(u))) == Seq(Mk(d, x, red, q0, u))
  {
  }

  /** The node on the inner side: its parent becomes the node in question and sinks. */
  method InnerStep(h: Heap, root: Ref, node: Ref, ghost c: Ctx, ghost t: Tree, ghost n: nat, ghost total: nat)
    returns (h': Heap, root': Ref, node': Ref, ghost c': Ctx, ghost t': Tree)
    requires Focus(h, root, c, t, node) && InsertState(c, t, n, total)
    requires c.Hole? && c.red && c.up.Hole? && c.d == c.up.d.Other()
    ensures Focus(h', root', c', t', node') && InsertState(c', t', n, total)
    ensures c'.Hole? && c'.red && c'.up == c.up && c'.d == c.up.d
    ensures Seq(Plug(c', t')) == Seq(Plug(c, t))
  {
    ghost var gd := c.up.d;
    ghost var a, b := Sub(t, gd), Sub(t, gd.Other());
    node' := At(h, node).parent;
    FocusUp(h, root, c, t, node);
    assert Mk(c.d, c.x, true, t, c.sib) == Mk(gd, c.x, true, c.sib, Mk(gd, t.x, true, a, b));
    var g := At(h, node').parent;
    var side := if At(h, g).left == node' then Left else Right;
    WhichChild(h, root, c.up, Mk(c.d, c.x, true, t, c.sib), node');
    h', root' := Rotate(h, root, node', side, c.up, true, t.x, true, c.sib, a, b);
    ghost var top := Mk(gd, t.x, true, Mk(gd, c.x, true, c.sib, a), b);
    FocusDown(h', root', c.up, top, t.x, gd);
    c', t' := Hole(c.up, t.x, true, gd, b), Mk(gd, c.x, true, c.sib, a);
    MkRep(h', gd, t.x, true, t', b, t.x, c.up.x);
    RepRef(h', t', At(h', t.x).Child(gd), t.x);
    InsertInner(c.up.up, c.up.x, gd, c.up.sib, c.x, c.sib, t.x, a, b, c.up.red, n, total);
    RotateSeq(gd, c.x, true, t.x, true, c.sib, a, b);
    PlugSeq(c.up, top);
    PlugSeq(c.up, Mk(c.d, c.x, true, t, c.sib));
  }

  /** The node on the outer side: its parent becomes black, its grandparent red and sinks. */
  method OuterStep(h: Heap, root: Ref, node: Ref, ghost c: Ctx, ghost t: Tree, ghost n: nat, ghost total: nat)
    returns (h': Heap, root': Ref, ghost c': Ctx)
    requires Focus(h, root, c, t, node) && InsertState(c, t, n, total)
    requires c.Hole? && c.red && c.up.Hole? && c.d == c.up.d && !Red(c.up.sib)
    ensures Focus(h', root', c', t, node) && InsertState(c', t, n, total) && !CRed(c')
    ensures Seq(Plug(c', t)) == Seq(Plug(c, t))
  {
    ghost var gd, u, up := c.up.d, c.up.sib, c.up.up;
    var p := At(h, node).parent;
    var g := At(h, p).parent;
    WhichChild(h, root, c, t, node);
    ghost var q0 := Mk(gd, c.x, true, t, c.sib);
    assert At(h, p).parent == c.up.x;
    h' := Paint(h, p, false);
    PaintUp(h, root, c, t, node, false);
    h' := Paint(h', g, true);
    PaintUpUp(Paint(h, p, false), root, c.(red := false), t, node, true);
    ghost var c2 := Hole(Hole(up, c.up.x, true, gd, u), c.x, false, gd, c.sib);
    FocusUp(h', root, c2, t, node);
    ghost var q := Mk(gd, c.x, false, t, c.sib);
    FocusUp(h', root, c2.up, q, c.x);
    ghost var o := gd.Other();
    assert Mk(gd, c.up.x, true, q, u) == Mk(o, c.up.x, true, u, Mk(o, c.x, false, c.sib, t));
    var side := if At(h, g).left == p then Right else Left;
    FocusUp(h, root, c, t, node);
    WhichChild(h, root, c.up, q0, p);
    h', root' := Rotate(h', root, g, side, up, true, c.x, false, u, c.sib, t);
    ghost var top := Mk(o, c.x, false, Mk(o, c.up.x, true, u, c.sib), t);
    FocusDown(h', root', up, top, c.x, gd);
    c' := Hole(up, c.x, false, gd, Mk(o, c.up.x, true, u, c.sib));
    RepRef(h', t, At(h', c.x).Child(gd), c.x);
    InsertOuter(up, c.up.x, gd, u, c.x, c.sib, t, c.up.red, n, total);
    OuterSeq(c, t);
  }

  lemma OuterSeq(c: Ctx, t: Tree)
    requires c.Hole? && c.up.Hole? && c.d == c.up.d
    ensures var o := c.d.Other();
            Seq(Plug(Hole(c.up.up, c.x, false, c.d, Mk(o, c.up.x, true, c.up.sib, c.sib)), t)) == Seq(Plug(c, t))
  {
    var o, up, u := c.d.Other(), c.up.up, c.up.sib;
    var x := Mk(o, c.up.x, true, u, Mk(o, c.x, false, c.sib, t));
    var y := Mk(o, c.x, false, Mk(o, c.up.x, true, u, c.sib), t);
    RotateSeq(o, c.up.x, true, c.x, false, u, c.sib, t);
    PlugSeq(up, x);
    PlugSeq(up, y);
    PlugSeq(up, Mk(c.d, c.up.x, c.up.red, Mk(c.d, c.x, c.red, t, c.sib), u));
  }

  /** The loop that removes the red pair left by the new node. */
  method Rebalance(h: Heap, root: Ref, z: Ref, ghost c0: Ctx, ghost t0: Tree, ghost n0: nat, ghost total: nat)
    returns (h': Heap, root': Ref, ghost w: Tree)
    requires Focus(h, root, c0, t0, z) && InsertState(c0, t0, n0, total)
    ensures Focus(h', root', Top, w, root') && w.Node? && RedBlack(Blacken(w)) && Seq(w) == Seq(Plug(c0, t0))
  {
    h', root' := h, root;
    var node := z;
    ghost var c, t, n := c0, t0, n0;
    WhichChild(h', root', c, t, node);
    while node != root' && At(h', At(h', node).parent).red
      invariant Focus(h', root', c, t, node) && InsertState(c, t, n, total)
      invariant Seq(Plug(c, t)) == Seq(Plug(c0, t0))
      invariant node == root' <==> c.Top?
      invariant c.Hole? ==> At(h', node).parent == c.x
      decreases if CRed(c) then Depth(c) + 1 else 0
    {
      RedHasParent(c);
      FocusUp(h', root', c, t, node);
      var p := At(h', node).parent;
      WhichChild(h', root', c.up, Mk(c.d, c.x, c.red, t, c.sib), p);
      var g := At(h', p).parent;
      var gd := if p == At(h', g).left then Left else Right;
      var uncle := At(h', g).Child(gd.Other());
      RepRef(h', c.up.sib, uncle, g);
      if At(h', uncle).red {
        assert Depth(c) == 2 + Depth(c.up.up);
        h', node, c, t := RecolorStep(h', root', node, uncle, c, t, n, total);
        n := n + 1;
      } else {
        ChildOf(h', root', c, t, node, gd.Other());
        if node == At(h', p).Child(gd.Other()) {
          h', root', node, c, t := InnerStep(h', root', node, c, t, n, total);
        }
        h', root', c := OuterStep(h', root', node, c, t, n, total);
      }
      WhichChild(h', root', c, t, node);
    }
    InsertDone(c, t, n, total);
    w := Plug(c, t);
    FocusTop(h', root', c, t, node);
  }

  lemma ChildOf(h: Heap, root: Ref, c: Ctx, t: Tree, ref: Ref, d: Dir)
    requires Focus(h, root, c, t, ref) && t.Node? && c.Hole?
    ensures ref == At(h, c.x).Child(d) <==> c.d == d
  {
    OtherChild(h, root, c, t, ref);
  }

  /** Looking at the whole tree. */
  lemma FocusTop(h: Heap, root: Ref, c: Ctx, t: Tree, ref: Ref)
    requires Focus(h, root, c, t, ref) && t.Node?
    ensures Focus(h, root, Top, Plug(c, t), root) && Plug(c, t).Node?
    decreases c
  {
    if c.Hole? {
      FocusUp(h, root, c, t, ref);
      FocusTop(h, root, c.up, Mk(c.d, c.x, c.red, t, c.sib), c.x);
    }
  }

  /** Inserts node `z`, which is not in the tree. */
  method Insert(h: Heap, root: Ref, z: Ref, lt: (Ref, Ref) -> bool, ghost t: Tree)
    returns (h': Heap, root': Ref, ghost t': Tree, ghost at: nat)
    requires IsTree(h, root, t) && z.N? && z !in Seq(t)
    ensures IsTree(h', root', t')
    ensures at <= |Seq(t)| && Seq(t') == Seq(t)[..at] + [z] + Seq(t)[at..]
    ensures Sorted(lt, Seq(t)) && WeakOrder(lt, Seq(t) + [z]) ==> Sorted(lt, Seq(t'))
  {
    RepRef(h, t, root, At(h, root).parent);
    if root == Sentinel {
      h' := h[z := Cell(Sentinel, Sentinel, Null, false)];
      root', t', at := z, Node(z, false, Leaf, Leaf), 0;
      assert Black(t', 1) && Rep(h', t', z, Null);
      assert Seq(t') == [z] && Pre(Top) + Seq(t') + Post(Top) == [z];
    } else {
      var temp, d, k := Descend(h, root, z, lt, t);
      PlugSeq(k, Leaf);
      assert Seq(t) == Pre(k) + Post(k);
      h' := Attach(h, root, z, temp, d, k);
      ghost var s := Node(z, true, Leaf, Leaf);
      ghost var total := StartInsert(k, z, t);
      ghost var w;
      h', root', w := Rebalance(h', root, z, k, s, 0, total);
      PaintFocus(h', root', Top, w, root', false);
      h' := Paint(h', root', false);
      t', at := Blacken(w), |Pre(k)|;
      PlugSeq(k, s);
      assert Seq(w) == Pre(k) + [z] + Post(k);
      if Sorted(lt, Seq(t)) && WeakOrder(lt, Seq(t) + [z]) {
        WeakOrderMoved(lt, Pre(k), z, Post(k));
        SortedInsert(lt, Pre(k), z, Post(k));
      }
    }
  }

  lemma WeakOrderMoved(lt: (Ref, Ref) -> bool, a: seq<Ref>, z: Ref, b: seq<Ref>)
    requires WeakOrder(lt, a + b + [z])
    ensures WeakOrder(lt, a + [z] + b)
  {
    assert forall v :: v in a + [z] + b <==> v in a + b + [z];
  }

  /** A new red leaf in a red-black tree starts the loop. */
  lemma StartInsert(k: Ctx, z: Ref, t: Tree) returns (total: nat)
    requires RedBlack(t) && t == Plug(k, Leaf) && k.Hole?
    ensures InsertState(k, Node(z, true, Leaf, Leaf), 0, total)
  {
    total :| Black(t, total);
    var n := UnplugBlack(k, Leaf, total);
    UnplugNoRedRed(k, Leaf);
    UnplugRootBlack(k, Leaf);
  }
}
