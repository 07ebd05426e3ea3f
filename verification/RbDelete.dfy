/** Deletion from a red-black tree: taking the node out. */
module RbDelete {
  import opened RbShape
  import opened RbHeap
  import opened RbRotate
  import opened RbInsert

  /** The context `k` continued by the context `base` above it. */
  function Append(k: Ctx, base: Ctx): Ctx {
    if k.Top? then base else k.(up := Append(k.up, base))
  }

  lemma AppendPlug(k: Ctx, base: Ctx, t: Tree)
    ensures Plug(Append(k, base), t) == Plug(base, Plug(k, t))
  {
    if k.Hole? { AppendPlug(k.up, base, Mk(k.d, k.x, k.red, t, k.sib)); }
  }

  lemma {:induction false} AppendSeq(k: Ctx, base: Ctx)
    ensures Pre(Append(k, base)) == Pre(base) + Pre(k) && Post(Append(k, base)) == Post(k) + Post(base)
  {
    if k.Hole? {
      AppendSeq(k.up, base);
      if k.d == Left {
        Assoc([k.x] + Seq(k.sib), Post(k.up), Post(base));
      } else {
        Assoc(Pre(base) + Pre(k.up), Seq(k.sib), [k.x]);
        Assoc(Pre(base), Pre(k.up), Seq(k.sib) + [k.x]);
        Assoc(Pre(k.up), Seq(k.sib), [k.x]);
      }
    }
  }

  lemma Assoc(a: seq<Ref>, b: seq<Ref>, c: seq<Ref>)
    ensures (a + b) + c == a + (b + c)
  {
  }

  /** Colours and heights do not depend on which nodes the context is made of. */
  lemma AppendRename(k: Ctx, c: Ctx, x: Ref, y: Ref, red: bool, d: Dir, sib: Tree)
    ensures var a, b := Append(k, Hole(c, x, red, d, sib)), Append(k, Hole(c, y, red, d, sib));
            && (CNoRedRed(a) <==> CNoRedRed(b)) && (CRootBlack(a) <==> CRootBlack(b)) && (CRed(a) <==> CRed(b))
            && a.Hole? && b.Hole?
            && (forall n: nat, total: nat :: CBlack(a, n, total) <==> CBlack(b, n, total))
  {
    if k.Hole? { AppendRename(k.up, c, x, y, red, d, sib); }
  }

  /** Looking at a subtree of the whole tree. */
  lemma FocusUnplug(h: Heap, root: Ref, c: Ctx, t: Tree)
    requires Focus(h, root, Top, Plug(c, t), root)
    ensures Focus(h, root, c, t, RefOf(t))
    decreases c
  {
    if c.Top? {
      RepRef(h, t, root, At(h, root).parent);
    } else {
      var s := Mk(c.d, c.x, c.red, t, c.sib);
      FocusUnplug(h, root, c.up, s);
      FocusDown(h, root, c.up, s, c.x, c.d);
      RepRef(h, t, At(h, c.x).Child(c.d), c.x);
    }
  }

  /** The place of a node in a tree. */
  lemma FindNode(t: Tree, v: Ref) returns (c: Ctx, s: Tree)
    requires v in Seq(t)
    ensures s.Node? && s.x == v && Plug(c, s) == t
  {
    if v == t.x {
      c, s := Top, t;
    } else {
      var d := if v in Seq(t.l) then Left else Right;
      var k;
      k, s := FindNode(Sub(t, d), v);
      c := Append(k, Hole(Top, t.x, t.red, d, Sub(t, d.Other())));
      AppendPlug(k, Hole(Top, t.x, t.red, d, Sub(t, d.Other())), s);
    }
  }

  /** The tree seen at `t`, with the parent pointer of `ref` right even if `ref` is the sentinel. */
  ghost predicate FocusP(h: Heap, root: Ref, c: Ctx, t: Tree, ref: Ref) {
    Focus(h, root, c, t, ref) && (c.Hole? ==> At(h, ref).parent == c.x)
  }

  /** The leftmost node of the subtree at `x`. */
  method Min(h: Heap, root: Ref, x: Ref, ghost c: Ctx, ghost t: Tree)
    returns (m: Ref, ghost k: Ctx, ghost red: bool, ghost r: Tree)
    requires Focus(h, root, c, t, x) && t.Node?
    ensures m.N? && t == Plug(k, Node(m, red, Leaf, r)) && Pre(k) == []
    ensures Focus(h, root, Append(k, c), Node(m, red, Leaf, r), m)
    ensures m == Seq(t)[0] && m in Seq(t)
  {
    m, k := x, Top;
    ghost var s := t;
    RepRef(h, t, x, if c.Hole? then c.x else At(h, x).parent);
    while At(h, m).left != Sentinel
      invariant s.Node? && Focus(h, root, Append(k, c), s, m) && t == Plug(k, s) && Pre(k) == []
      decreases s
    {
      FocusDown(h, root, Append(k, c), s, m, Left);
      RepRef(h, s.l, At(h, m).left, m);
      m := At(h, m).left;
      k, s := Hole(k, s.x, s.red, Left, s.r), s.l;
    }
    RepRef(h, s.l, At(h, m).left, m);
    red, r := s.red, s.r;
    PlugSeq(k, s);
    assert Seq(s) == [m] + Seq(r);
    assert Seq(t) == [m] + Seq(r) + Post(k);
  }

  /** Hanging `r`, the only subtree of the removed node, in that node's place. */
  method Splice(h: Heap, root: Ref, temp: Ref, parent: Ref, x: Ref, ghost c: Ctx, ghost s: Tree, ghost r: Tree, ghost q: Ref)
    returns (h': Heap)
    requires Focus(h, root, c, s, x) && c.Hole? && c.x == parent && s.Node?
    requires Rep(h, r, temp, x) && Uniq(Seq(r)) && (forall v | v in Seq(r) :: v in Seq(s) && v != x)
    requires Uniq(Pre(c) + Seq(r) + Post(c))
    ensures RepC(h', c, root, temp) && Rep(h', r, temp, At(h', temp).parent)
    ensures h' == Hang(h, c, temp)
  {
    WhichChild(h, root, c, s, x);
    OtherChild(h, root, c, s, x);
    UniqApart(c, s);
    UniqOutside(c, s);
    assert c.x in Pre(c) || c.x in Post(c);
    var side := if x == At(h, parent).left then Left else Right;
    h' := h[parent := At(h, parent).SetChild(side, temp)];
    HangRep(h, h', c, root, x, temp);
    RepFrame(h, h', r, temp, x);
    RepRef(h, r, temp, x);
    assert r.Node? ==> r.x in Seq(r);
  }

  /** Writing the words of a cell that is neither in the tree nor the sentinel, or the parent of the sentinel. */
  lemma FocusForeign(h: Heap, h': Heap, root: Ref, c: Ctx, t: Tree, ref: Ref)
    requires Focus(h, root, c, t, ref) && !At(h', Sentinel).red
    requires forall v | v in Pre(c) || v in Seq(t) || v in Post(c) :: At(h', v) == At(h, v)
    ensures Focus(h', root, c, t, ref)
  {
    RepRef(h, t, ref, if c.Hole? then c.x else At(h, ref).parent);
    assert t.Node? ==> t.x in Seq(t);
    RepFrame(h, h', t, ref, if c.Hole? then c.x else At(h, ref).parent);
    RepCFrame(h, h', c, root, ref);
  }

  const CLEARED := Cell(Null, Null, Null, false)

  function Clear(h: Heap, x: Ref): Heap {
    h[x := CLEARED.(red := At(h, x).red)]
  }

  /** What remains of a subtree without its root, when one side is empty. */
  lemma OneSided(c: Ctx, s: Tree, r: Tree)
    requires s.Node? && Uniq(Pre(c) + Seq(s) + Post(c)) && ((s.l == Leaf && r == s.r) || (s.r == Leaf && r == s.l))
    ensures Uniq(Seq(r)) && (forall v | v in Seq(r) :: v in Seq(s) && v != s.x) && Uniq(Pre(c) + Seq(r) + Post(c))
    ensures s.x !in Pre(c) && s.x !in Seq(r) && s.x !in Post(c)
  {
    UniqApart(c, s);
    UniqNode(s.l, s.x, s.r);
    assert s.x in Seq(s);
    UniqOutside(c, s);
    UniqInsert(Pre(c), Seq(r), Post(c));
  }

  lemma UniqInsert(a: seq<Ref>, m: seq<Ref>, b: seq<Ref>)
    requires Uniq(a + b) && Uniq(m) && forall v | v in m :: v !in a && v !in b
    ensures Uniq(a + m + b)
  {
    var s, w := a + b, a + m + b;
    forall i, j | 0 <= i < j < |w| ensures w[i] != w[j] {
      if |a| <= i < |a| + |m| {
        assert w[i] in m;
        if j < |a| + |m| { assert w[i] == m[i - |a|] && w[j] == m[j - |a|]; } else { assert w[j] in b; }
      } else if |a| <= j < |a| + |m| {
        assert w[j] in m && w[i] in a;
      } else {
        var i', j' := if i < |a| then i else i - |m|, if j < |a| then j else j - |m|;
        assert w[i] == s[i'] && w[j] == s[j'];
      }
    }
  }

  /** Takes out a node with at most one child, not the root. */
  method RemoveSimple(h: Heap, root: Ref, node: Ref, temp: Ref, ghost c: Ctx, ghost s: Tree, ghost r: Tree) returns (h': Heap)
    requires Focus(h, root, c, s, node) && c.Hole? && s.Node? && temp == RefOf(r)
    requires (s.l == Leaf && r == s.r) || (s.r == Leaf && r == s.l)
    ensures FocusP(h', root, c, r, temp)
  {
    OneSided(c, s, r);
    var parent := At(h, node).parent;
    RepRef(h, s.l, At(h, node).left, node);
    RepRef(h, s.r, At(h, node).right, node);
    h' := Splice(h, root, temp, parent, node, c, s, r, node);
    ghost var h1 := h';
    h' := h'[temp := At(h', temp).(parent := parent)];
    RepRef(h1, r, temp, At(h1, temp).parent);
    UniqApart(c, r);
    assert r.Node? ==> r.x in Seq(r);
    Reparent(h1, h', r, temp, At(h1, temp).parent, parent);
    RepCRefs(h1, c, root, temp);
    RepCFrame(h1, h', c, root, temp);
    ghost var h2 := h';
    h' := Clear(h', node);
    FocusForeign(h2, h', root, c, r, temp);
    RepRef(h2, r, temp, parent);
  }

  /** The cells after `subst` has taken the place of `node`. */
  ghost predicate Swapped(h: Heap, h': Heap, c: Ctx, node: Ref, subst: Ref) {
    var left, right := At(h, node).left, At(h, node).right;
    && At(h', subst) == At(h, node)
    && (c.Hole? ==> At(h', c.x) == At(h, c.x).SetChild(c.d, subst))
    && (left != Sentinel ==> At(h', left) == At(h, left).(parent := subst))
    && (right != Sentinel ==> At(h', right) == At(h, right).(parent := subst))
    && At(h', Sentinel) == At(h, Sentinel)
    && (forall v | v !in {node, subst, left, right} && (c.Hole? ==> v != c.x) :: At(h', v) == At(h, v))
  }

  /** The nodes involved when `subst` takes the place of `node` are distinct. */
  ghost predicate SwapPieces(c: Ctx, node: Ref, subst: Ref, l: Tree, r: Tree) {
    && node.N? && subst.N? && node != subst
    && node !in Pre(c) && node !in Post(c) && node !in Seq(l) && node !in Seq(r)
    && subst !in Pre(c) && subst !in Post(c) && subst !in Seq(l) && subst !in Seq(r)
    && (forall v | v in Seq(l) :: v !in Seq(r) && v !in Pre(c) && v !in Post(c))
    && (forall v | v in Seq(r) :: v !in Pre(c) && v !in Post(c))
    && Uniq(Seq(l)) && Uniq(Seq(r)) && Uniq(Pre(c) + Post(c))
  }

  lemma SwapSplit(c: Ctx, node: Ref, subst: Ref, red: bool, l: Tree, r: Tree)
    requires Uniq(Pre(c) + Seq(Node(subst, red, l, r)) + Post(c))
    requires node !in Pre(c) && node !in Post(c) && node !in Seq(l) && node !in Seq(r)
    requires subst.N? && node.N? && node != subst
    ensures SwapPieces(c, node, subst, l, r)
  {
    var s := Node(subst, red, l, r);
    UniqApart(c, s);
    UniqOutside(c, s);
    UniqNode(l, subst, r);
    assert subst in Seq(s) && forall v | v in Seq(l) || v in Seq(r) :: v in Seq(s);
  }

  lemma SwappedTree(h: Heap, h': Heap, c: Ctx, node: Ref, subst: Ref, red: bool, l: Tree, r: Tree, q: Ref)
    requires At(h, node).red == red && SwapPieces(c, node, subst, l, r) && Swapped(h, h', c, node, subst)
    requires Rep(h, l, At(h, node).left, node) && Rep(h, r, At(h, node).right, q)
    ensures Rep(h', Node(subst, red, l, r), subst, At(h, node).parent)
  {
    RepRef(h, l, At(h, node).left, node);
    RepRef(h, r, At(h, node).right, q);
    assert l.Node? ==> l.x in Seq(l);
    assert r.Node? ==> r.x in Seq(r);
    assert c.Hole? ==> c.x in Pre(c) || c.x in Post(c);
    Reparent(h, h', l, RefOf(l), node, subst);
    Reparent(h, h', r, RefOf(r), q, subst);
  }

  lemma SwappedCtx(h: Heap, h': Heap, root: Ref, c: Ctx, node: Ref, subst: Ref, l: Tree, r: Tree, q: Ref)
    requires RepC(h, c, root, node) && SwapPieces(c, node, subst, l, r) && Swapped(h, h', c, node, subst)
    requires Rep(h, l, At(h, node).left, node) && Rep(h, r, At(h, node).right, q)
    ensures RepC(h', c, if c.Top? then subst else root, subst)
  {
    RepRef(h, l, At(h, node).left, node);
    RepRef(h, r, At(h, node).right, q);
    assert l.Node? ==> l.x in Seq(l);
    assert r.Node? ==> r.x in Seq(r);
    RepCRefs(h, c, root, node);
    HangRep(h, h', c, root, node, subst);
  }

  lemma SwappedFocus(h: Heap, h': Heap, root: Ref, c: Ctx, node: Ref, subst: Ref, red: bool, l: Tree, r: Tree, q: Ref)
    requires RepC(h, c, root, node) && At(h, node).red == red && (c.Hole? ==> At(h, node).parent == c.x)
    requires Rep(h, l, At(h, node).left, node) && Rep(h, r, At(h, node).right, q)
    requires Uniq(Pre(c) + Seq(Node(subst, red, l, r)) + Post(c)) && !At(h, Sentinel).red
    requires node !in Pre(c) && node !in Post(c) && node !in Seq(l) && node !in Seq(r)
    requires subst.N? && node.N? && node != subst
    requires Swapped(h, h', c, node, subst)
    ensures Focus(h', if c.Top? then subst else root, c, Node(subst, red, l, r), subst)
  {
    SwapSplit(c, node, subst, red, l, r);
    SwappedTree(h, h', c, node, subst, red, l, r, q);
    SwappedCtx(h, h', root, c, node, subst, l, r, q);
  }

  /** Looking at the top of a context instead of its bottom. */
  lemma FocusAppend(h: Heap, root: Ref, k: Ctx, base: Ctx, t: Tree, ref: Ref)
    requires Focus(h, root, Append(k, base), t, ref)
    ensures Focus(h, root, base, Plug(k, t), RefOf(Plug(k, t)))
    decreases k
  {
    if k.Top? {
      RepRef(h, t, ref, if base.Hole? then base.x else At(h, ref).parent);
    } else {
      FocusUp(h, root, Append(k, base), t, ref);
      FocusAppend(h, root, k.up, base, Mk(k.d, k.x, k.red, t, k.sib), k.x);
    }
  }

  lemma UniqRemove(a: seq<Ref>, x: Ref, b: seq<Ref>)
    requires Uniq(a + [x] + b)
    ensures Uniq(a + b) && x !in a && x !in b
  {
    var s, w := a + b, a + [x] + b;
    assert w[|a|] == x;
    forall i, j | 0 <= i < j < |s| ensures s[i] != s[j] {
      var i', j' := if i < |a| then i else i + 1, if j < |a| then j else j + 1;
      assert w[i'] == s[i] && w[j'] == s[j];
    }
    forall i | 0 <= i < |a| ensures a[i] != x { assert w[i] == a[i]; }
    forall i | 0 <= i < |b| ensures b[i] != x { assert w[|a| + 1 + i] == b[i]; }
  }

  lemma CatNode(p: seq<Ref>, l: seq<Ref>, x: Ref, m: seq<Ref>, q: seq<Ref>)
    ensures p + (l + [x] + m) + q == (p + l) + [x] + (m + q)
  {
  }

  /** The nodes in order before and after `subst`, the first node right of `node`, has replaced `node`. */
  lemma SwapSeq(c: Ctx, node: Ref, red: bool, l: Tree, kr: Ctx, subst: Ref, sred: bool, rt: Tree)
    requires Pre(kr) == []
    requires Uniq(Pre(c) + Seq(Node(node, red, l, Plug(kr, Node(subst, sred, Leaf, rt)))) + Post(c))
    ensures var before, after := Pre(c) + Seq(l), [subst] + Seq(Plug(kr, rt)) + Post(c);
            && Pre(c) + Seq(Node(node, red, l, Plug(kr, Node(subst, sred, Leaf, rt)))) + Post(c) == before + [node] + after
            && Pre(c) + Seq(Node(subst, red, l, Plug(kr, rt))) + Post(c) == before + after
            && Uniq(before + after) && node !in before && node !in after
  {
    MinSeq(kr, subst, sred, rt);
    SwapCat(Pre(c), Seq(l), node, subst, Seq(Plug(kr, rt)), Post(c));
  }

  lemma MinSeq(kr: Ctx, subst: Ref, sred: bool, rt: Tree)
    requires Pre(kr) == []
    ensures Seq(Plug(kr, Node(subst, sred, Leaf, rt))) == [subst] + Seq(Plug(kr, rt))
  {
    PlugSeq(kr, Node(subst, sred, Leaf, rt));
    PlugSeq(kr, rt);
    assert Seq(Node(subst, sred, Leaf, rt)) == [subst] + Seq(rt);
    Assoc([subst], Seq(rt), Post(kr));
  }

  lemma SwapCat(p: seq<Ref>, l: seq<Ref>, node: Ref, subst: Ref, m: seq<Ref>, q: seq<Ref>)
    requires Uniq(p + (l + [node] + ([subst] + m)) + q)
    ensures var before, after := p + l, [subst] + m + q;
            && p + (l + [node] + ([subst] + m)) + q == before + [node] + after
            && p + (l + [subst] + m) + q == before + after
            && Uniq(before + after) && node !in before && node !in after
  {
    CatNode(p, l, node, [subst] + m, q);
    CatNode(p, l, subst, m, q);
    Assoc(p + l, [subst], m + q);
    Assoc([subst], m, q);
    UniqRemove(p + l, node, [subst] + m + q);
  }

  /** Takes `subst` out from under its parent; `temp`, its right child, takes its place. */
  method DetachMin(h: Heap, root: Ref, node: Ref, subst: Ref, temp: Ref,
                   ghost kr: Ctx, ghost base: Ctx, ghost sred: bool, ghost rt: Tree) returns (h': Heap)
    requires base.Hole? && base.x == node && base.d == Right
    requires Focus(h, root, Append(kr, base), Node(subst, sred, Leaf, rt), subst) && temp == RefOf(rt)
    ensures RepC(h', base.up, root, node) && node.N? && (base.up.Hole? ==> At(h', node).parent == base.up.x)
    ensures At(h', node).red == base.red && Rep(h', base.sib, At(h', node).left, node)
    ensures Rep(h', Plug(kr, rt), At(h', node).right, if kr.Top? then subst else node)
    ensures At(h', temp).parent == (if kr.Top? then subst else kr.x) && !At(h', Sentinel).red
  {
    ghost var k, s := Append(kr, base), Node(subst, sred, Leaf, rt);
    assert k.Hole? && k.x == if kr.Top? then node else kr.x;
    OneSided(k, s, rt);
    var parent := At(h, subst).parent;
    RepRef(h, rt, At(h, subst).right, subst);
    h' := Splice(h, root, temp, parent, subst, k, s, rt, subst);
    ghost var h1 := h';
    h' := h'[temp := At(h', temp).(parent := if parent == node then subst else parent)];
    ParentIsNode(h, root, kr, base, s, subst);
    RepRef(h1, rt, temp, At(h1, temp).parent);
    UniqApart(k, rt);
    assert rt.Node? ==> rt.x in Seq(rt);
    Reparent(h1, h', rt, temp, At(h1, temp).parent, if kr.Top? then subst else kr.x);
    RepCRefs(h1, k, root, temp);
    RepCFrame(h1, h', k, root, temp);
    if kr.Hole? {
      FocusAppend(h', root, kr, base, rt, temp);
    }
  }

  /** `subst` hangs directly under `node` exactly when nothing is between them. */
  lemma ParentIsNode(h: Heap, root: Ref, kr: Ctx, base: Ctx, s: Tree, subst: Ref)
    requires Focus(h, root, Append(kr, base), s, subst) && s.Node? && base.Hole?
    ensures At(h, subst).parent == (if kr.Top? then base.x else kr.x)
    ensures At(h, subst).parent == base.x <==> kr.Top?
  {
    if kr.Hole? {
      FocusUp(h, root, Append(kr, base), s, subst);
      var up := Append(kr.up, base);
      UniqApart(up, Mk(kr.d, kr.x, kr.red, s, kr.sib));
      AppendSeq(kr.up, base);
      assert base.x in Pre(up) || base.x in Post(up);
      assert kr.x in Seq(Mk(kr.d, kr.x, kr.red, s, kr.sib));
    }
  }

  /** Puts `subst` in the place of `node`, word by word, and clears `node`. */
  method TakePlace(h: Heap, root: Ref, node: Ref, subst: Ref, ghost c: Ctx) returns (h': Heap, root': Ref)
    requires node.N? && subst.N? && node != subst
    requires var left, right := At(h, node).left, At(h, node).right;
             && (left == Sentinel || (left.N? && left != node && left != subst && left != right))
             && (right == Sentinel || (right.N? && right != node && right != subst))
             && (c.Hole? ==> c.x.N? && c.x != node && c.x != subst && c.x != left && c.x != right)
    requires node == root <==> c.Top?
    requires c.Hole? ==> At(h, node).parent == c.x && (At(h, c.x).left == node <==> c.d == Left)
    ensures Swapped(h, h', c, node, subst) && root' == if c.Top? then subst else root
  {
    h', root' := h, root;
    h' := h'[subst := Cell(At(h', node).left, At(h', node).right, At(h', node).parent, At(h', node).red)];
    if node == root {
      root' := subst;
    } else {
      var p := At(h', node).parent;
      var side := if node == At(h', p).left then Left else Right;
      h' := h'[p := At(h', p).SetChild(side, subst)];
    }
    var left := At(h', subst).left;
    if left != Sentinel {
      h' := h'[left := At(h', left).(parent := subst)];
    }
    var right := At(h', subst).right;
    if right != Sentinel {
      h' := h'[right := At(h', right).(parent := subst)];
    }
    h' := Clear(h', node);
  }

  /** Takes out a node with two children: the next node in order takes its place. */
  method RemoveInner(h: Heap, root: Ref, node: Ref, subst: Ref, temp: Ref,
                     ghost c: Ctx, ghost red: bool, ghost l: Tree, ghost kr: Ctx, ghost sred: bool, ghost rt: Tree)
    returns (h': Heap, root': Ref)
    requires Focus(h, root, c, Node(node, red, l, Plug(kr, Node(subst, sred, Leaf, rt))), node)
    requires Focus(h, root, Append(kr, Hole(c, node, red, Right, l)), Node(subst, sred, Leaf, rt), subst)
    requires Pre(kr) == [] && subst.N? && temp == RefOf(rt)
    ensures FocusP(h', root', Append(kr, Hole(c, subst, red, Right, l)), rt, temp)
  {
    ghost var s := Node(node, red, l, Plug(kr, Node(subst, sred, Leaf, rt)));
    ghost var base, r := Hole(c, node, red, Right, l), Plug(kr, rt);
    WhichChild(h, root, c, s, node);
    SwapSeq(c, node, red, l, kr, subst, sred, rt);
    SwapOut(c, node, red, l, kr, subst, sred, rt);
    var h1 := DetachMin(h, root, node, subst, temp, kr, base, sred, rt);
    SwapSplit(c, node, subst, red, l, r);
    RepRef(h1, l, At(h1, node).left, node);
    RepRef(h1, r, At(h1, node).right, if kr.Top? then subst else node);
    RootKept(h1, root, c, node);
    ChildKept(h1, root, c, node, l, r);
    assert l.Node? ==> l.x in Seq(l);
    assert r.Node? ==> r.x in Seq(r);
    h', root' := TakePlace(h1, root, node, subst, c);
    SwappedFocus(h1, h', root, c, node, subst, red, l, r, if kr.Top? then subst else node);
    FocusInner(h', root', c, subst, red, l, kr, rt);
    SentinelParent(h1, h', c, node, subst, rt);
  }

  /** Down to what is left of the right subtree. */
  lemma {:induction false} FocusInner(h: Heap, root: Ref, c: Ctx, x: Ref, red: bool, l: Tree, k: Ctx, rt: Tree)
    requires Focus(h, root, c, Node(x, red, l, Plug(k, rt)), x)
    ensures Focus(h, root, Append(k, Hole(c, x, red, Right, l)), rt, RefOf(rt))
  {
    FocusTop(h, root, c, Node(x, red, l, Plug(k, rt)), x);
    AppendPlug(k, Hole(c, x, red, Right, l), rt);
    FocusUnplug(h, root, Append(k, Hole(c, x, red, Right, l)), rt);
  }

  lemma SentinelParent(h: Heap, h': Heap, c: Ctx, node: Ref, subst: Ref, rt: Tree)
    requires Swapped(h, h', c, node, subst)
    ensures rt.Leaf? ==> At(h', RefOf(rt)).parent == At(h, RefOf(rt)).parent
  {
  }

  lemma RootKept(h: Heap, root: Ref, c: Ctx, node: Ref)
    requires RepC(h, c, root, node) && node !in Pre(c) && node !in Post(c)
    ensures node == root <==> c.Top?
    ensures c.Hole? ==> c.x.N? && (c.x in Pre(c) || c.x in Post(c))
  {
    if c.Hole? { RootInContext(h, root, c, node); }
  }

  lemma ChildKept(h: Heap, root: Ref, c: Ctx, node: Ref, l: Tree, r: Tree)
    requires RepC(h, c, root, node) && node.N? && node !in Pre(c) && node !in Post(c)
    ensures c.Hole? ==> (At(h, c.x).left == node <==> c.d == Left)
  {
    if c.Hole? {
      RepRef(h, c.sib, At(h, c.x).Child(c.d.Other()), c.x);
      assert c.sib.Node? ==> c.sib.x in Seq(c.sib);
      assert forall v | v in Seq(c.sib) :: v in Pre(c) || v in Post(c);
    }
  }

  lemma SwapOut(c: Ctx, node: Ref, red: bool, l: Tree, kr: Ctx, subst: Ref, sred: bool, rt: Tree)
    requires Pre(kr) == []
    requires Uniq(Pre(c) + Seq(Node(node, red, l, Plug(kr, Node(subst, sred, Leaf, rt)))) + Post(c))
    ensures node !in Pre(c) && node !in Post(c) && node !in Seq(l) && node !in Seq(Plug(kr, rt)) && node != subst
  {
    var s := Node(node, red, l, Plug(kr, Node(subst, sred, Leaf, rt)));
    UniqApart(c, s);
    assert node in Seq(s);
    UniqNode(l, node, Plug(kr, Node(subst, sred, Leaf, rt)));
    MinSeq(kr, subst, sred, rt);
  }
}
