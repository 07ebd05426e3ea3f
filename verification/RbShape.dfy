/** Red-black trees as values, and positions inside them.  A tree is seen at
    one of its subtrees: `Plug(c, t)` puts subtree `t` back into the place that
    the context `c` describes.  Left and right are two values of `Dir`, so that
    every mirrored pair of cases is stated once. */
module RbShape {

  datatype Ref = Null | Sentinel | N(id: nat)

  datatype Dir = Left | Right {
    function Other(): Dir {
      if this == Left then Right else Left
    }
  }

  datatype Tree = Leaf | Node(x: Ref, red: bool, l: Tree, r: Tree)

  /** The subtree in question is the `d` child of `x`, whose other child is `sib`. */
  datatype Ctx = Top | Hole(up: Ctx, x: Ref, red: bool, d: Dir, sib: Tree)

  function Mk(d: Dir, x: Ref, red: bool, a: Tree, b: Tree): Tree {
    if d == Left then Node(x, red, a, b) else Node(x, red, b, a)
  }

  function Sub(t: Tree, d: Dir): Tree
    requires t.Node?
  {
    if d == Left then t.l else t.r
  }

  function Plug(c: Ctx, t: Tree): Tree {
    match c
    case Top => t
    case Hole(up, x, red, d, sib) => Plug(up, Mk(d, x, red, t, sib))
  }

  /** The nodes in order. */
  function Seq(t: Tree): seq<Ref> {
    match t
    case Leaf => []
    case Node(x, _, l, r) => Seq(l) + [x] + Seq(r)
  }

  /** The nodes before and after the place of a context. */
  function Pre(c: Ctx): seq<Ref> {
    match c
    case Top => []
    case Hole(up, x, _, d, sib) => if d == Left then Pre(up) else Pre(up) + Seq(sib) + [x]
  }

  function Post(c: Ctx): seq<Ref> {
    match c
    case Top => []
    case Hole(up, x, _, d, sib) => if d == Left then [x] + Seq(sib) + Post(up) else Post(up)
  }

  lemma {:induction false} PlugSeq(c: Ctx, t: Tree)
    ensures Seq(Plug(c, t)) == Pre(c) + Seq(t) + Post(c)
  {
    match c
    case Top =>
    case Hole(up, x, red, d, sib) =>
      PlugSeq(up, Mk(d, x, red, t, sib));
      HoleSeq(c, t);
  }

  /** The node of a context counted with the subtree instead. */
  lemma HoleSeq(c: Ctx, t: Tree)
    requires c.Hole?
    ensures Pre(c) + Seq(t) + Post(c) == Pre(c.up) + Seq(Mk(c.d, c.x, c.red, t, c.sib)) + Post(c.up)
  {
    var s, x, before, after := Seq(c.sib), [c.x], Pre(c.up), Post(c.up);
    if c.d == Left {
      assert before + Seq(t) + (x + s + after) == before + (Seq(t) + x + s) + after;
    } else {
      assert (before + s + x) + Seq(t) + after == before + (s + x + Seq(t)) + after;
    }
  }

  predicate Red(t: Tree) {
    t.Node? && t.red
  }

  function Blacken(t: Tree): Tree {
    if t.Node? then t.(red := false) else t
  }

  /** Every path from the root to a leaf passes `n` black nodes. */
  predicate Black(t: Tree, n: nat) {
    match t
    case Leaf => n == 0
    case Node(_, red, l, r) =>
      if red then Black(l, n) && Black(r, n) else n > 0 && Black(l, n - 1) && Black(r, n - 1)
  }

  /** No red node has a red child. */
  predicate NoRedRed(t: Tree) {
    match t
    case Leaf => true
    case Node(_, red, l, r) => NoRedRed(l) && NoRedRed(r) && (red ==> !Red(l) && !Red(r))
  }

  predicate CRed(c: Ctx) {
    c.Hole? && c.red
  }

  /** A subtree of black height `n` in this place makes a tree of black height `total`. */
  predicate CBlack(c: Ctx, n: nat, total: nat) {
    match c
    case Top => n == total
    case Hole(up, _, red, _, sib) => Black(sib, n) && CBlack(up, if red then n else n + 1, total)
  }

  /** No red node of the context has a red child, the subtree in question left aside. */
  predicate CNoRedRed(c: Ctx) {
    match c
    case Top => true
    case Hole(up, _, red, _, sib) =>
      CNoRedRed(up) && NoRedRed(sib) && (red ==> !Red(sib) && !CRed(up))
  }

  /** The root, if it belongs to the context, is black. */
  predicate CRootBlack(c: Ctx) {
    match c
    case Top => true
    case Hole(up, _, red, _, _) => CRootBlack(up) && (up.Top? ==> !red)
  }

  lemma PlugBlack(c: Ctx, t: Tree, n: nat, total: nat)
    requires Black(t, n) && CBlack(c, n, total)
    ensures Black(Plug(c, t), total)
  {
    match c
    case Top =>
    case Hole(up, x, red, d, sib) => PlugBlack(up, Mk(d, x, red, t, sib), if red then n else n + 1, total);
  }

  lemma PlugNoRedRed(c: Ctx, t: Tree)
    requires NoRedRed(t) && CNoRedRed(c) && !(Red(t) && CRed(c))
    ensures NoRedRed(Plug(c, t))
  {
    match c
    case Top =>
    case Hole(up, x, red, d, sib) => PlugNoRedRed(up, Mk(d, x, red, t, sib));
  }

  lemma PlugRootBlack(c: Ctx, t: Tree)
    requires CRootBlack(c) && c.Hole?
    ensures Plug(c, t).Node? && !Plug(c, t).red
  {
    match c
    case Hole(up, x, red, d, sib) =>
      if up.Hole? { PlugRootBlack(up, Mk(d, x, red, t, sib)); }
  }

  /** Taking a tree apart the other way: what holds of the whole holds of context and subtree. */
  lemma UnplugBlack(c: Ctx, t: Tree, total: nat) returns (n: nat)
    requires Black(Plug(c, t), total)
    ensures Black(t, n) && CBlack(c, n, total)
  {
    match c
    case Top => n := total;
    case Hole(up, x, red, d, sib) =>
      var k := UnplugBlack(up, Mk(d, x, red, t, sib), total);
      n := if red then k else k - 1;
  }

  lemma UnplugNoRedRed(c: Ctx, t: Tree)
    requires NoRedRed(Plug(c, t))
    ensures NoRedRed(t) && CNoRedRed(c) && !(Red(t) && CRed(c))
  {
    match c
    case Top =>
    case Hole(up, x, red, d, sib) => UnplugNoRedRed(up, Mk(d, x, red, t, sib));
  }

  lemma UnplugRootBlack(c: Ctx, t: Tree)
    requires c.Hole? && !Red(Plug(c, t))
    ensures CRootBlack(c)
  {
    match c
    case Hole(up, x, red, d, sib) =>
      if up.Hole? { UnplugRootBlack(up, Mk(d, x, red, t, sib)); }
  }

  /** A red-black tree. */
  ghost predicate RedBlack(t: Tree) {
    !Red(t) && NoRedRed(t) && exists n :: Black(t, n)
  }

  /** The rotation at `x` towards `d`: the child of `x` on the other side rises. */
  lemma RotateSeq(d: Dir, x: Ref, rx: bool, y: Ref, ry: bool, a: Tree, b: Tree, c: Tree)
    ensures Seq(Mk(d, x, rx, a, Mk(d, y, ry, b, c))) == Seq(Mk(d, y, ry, Mk(d, x, rx, a, b), c))
  {
    if d == Left {
      assert Seq(a) + [x] + (Seq(b) + [y] + Seq(c)) == (Seq(a) + [x] + Seq(b)) + [y] + Seq(c);
    } else {
      assert (Seq(c) + [y] + Seq(b)) + [x] + Seq(a) == Seq(c) + [y] + (Seq(b) + [x] + Seq(a));
    }
  }

  // ---- Insertion ----

  /** The state of the insertion loop: the subtree has a red root, and the only red pair there may be
      is that root and its parent. */
  ghost predicate InsertState(c: Ctx, t: Tree, n: nat, total: nat) {
    && Red(t) && NoRedRed(t) && Black(t, n)
    && CBlack(c, n, total) && CNoRedRed(c) && CRootBlack(c)
  }

  /** A red parent has a parent. */
  lemma RedHasParent(c: Ctx)
    requires CRed(c) && CRootBlack(c)
    ensures c.up.Hole?
  {
  }

  /** Parent and uncle red: both become black, the grandparent red, and the loop goes on from there. */
  lemma InsertRecolor(up: Ctx, g: Ref, gd: Dir, u: Tree, p: Ref, d: Dir, s: Tree, t: Tree, gred: bool, n: nat, total: nat)
    requires InsertState(Hole(Hole(up, g, gred, gd, u), p, true, d, s), t, n, total) && Red(u)
    ensures !gred
    ensures InsertState(up, Mk(gd, g, true, Mk(d, p, false, t, s), Blacken(u)), n + 1, total)
  {
    var c := Hole(up, g, gred, gd, u);
    assert CNoRedRed(c) && CBlack(c, n, total) && CRootBlack(c);
    var q := Mk(d, p, false, t, s);
    assert Black(q, n + 1) && NoRedRed(q);
    assert Black(Blacken(u), n + 1) && NoRedRed(Blacken(u));
  }

  /** The node on the inner side: it rises over its parent, which becomes the node in question. */
  lemma InsertInner(up: Ctx, g: Ref, gd: Dir, u: Tree, p: Ref, s: Tree, z: Ref, a: Tree, b: Tree, gred: bool, n: nat, total: nat)
    requires InsertState(Hole(Hole(up, g, gred, gd, u), p, true, gd.Other(), s), Mk(gd, z, true, a, b), n, total)
    ensures InsertState(Hole(Hole(up, g, gred, gd, u), z, true, gd, b), Mk(gd, p, true, s, a), n, total)
  {
  }

  /** The node on the outer side, uncle black: the parent rises over the grandparent and the loop ends. */
  lemma InsertOuter(up: Ctx, g: Ref, gd: Dir, u: Tree, p: Ref, s: Tree, t: Tree, gred: bool, n: nat, total: nat)
    requires InsertState(Hole(Hole(up, g, gred, gd, u), p, true, gd, s), t, n, total) && !Red(u)
    ensures !gred && InsertState(Hole(up, p, false, gd, Mk(gd.Other(), g, true, u, s)), t, n, total)
  {
    var c := Hole(up, g, gred, gd, u);
    assert CNoRedRed(c) && CBlack(c, n, total) && CRootBlack(c);
    var q := Mk(gd.Other(), g, true, u, s);
    assert Black(q, n) && NoRedRed(q);
  }

  /** When the loop ends, blackening the root gives a red-black tree. */
  lemma InsertDone(c: Ctx, t: Tree, n: nat, total: nat)
    requires InsertState(c, t, n, total) && !CRed(c)
    ensures RedBlack(Blacken(Plug(c, t)))
  {
    PlugBlack(c, t, n, total);
    PlugNoRedRed(c, t);
    var w := Plug(c, t);
    assert Black(Blacken(w), if Red(w) then total + 1 else total);
  }

  // ---- Deletion ----

  /** The state of the deletion loop: the subtree is one black node short, or is the whole tree. */
  ghost predicate DeleteState(c: Ctx, t: Tree, n: nat, total: nat) {
    && NoRedRed(Blacken(t)) && Black(t, n)
    && (c.Hole? ==> CBlack(c, n + 1, total)) && CNoRedRed(c) && CRootBlack(c)
  }

  /** The sibling of a subtree that is one black node short is not a leaf. */
  lemma SiblingExists(c: Ctx, t: Tree, n: nat, total: nat)
    requires DeleteState(c, t, n, total) && c.Hole?
    ensures c.sib.Node?
  {
  }

  /** Sibling red: it rises over the parent, and the subtree gets a black sibling. */
  lemma DeleteRedSibling(up: Ctx, x: Ref, xred: bool, d: Dir, w: Ref, b: Tree, c: Tree, t: Tree, n: nat, total: nat)
    requires DeleteState(Hole(up, x, xred, d, Mk(d, w, true, b, c)), t, n, total)
    ensures !xred && DeleteState(Hole(Hole(up, w, false, d, c), x, true, d, b), t, n, total)
    ensures b.Node? && !b.red
  {
    assert Black(b, n + 1) && Black(c, n + 1) && NoRedRed(b) && NoRedRed(c);
    var k := Hole(up, w, false, d, c);
    assert CBlack(k, n + 1, total) && CNoRedRed(k) && CRootBlack(k);
  }

  /** Sibling black with black children: it becomes red, and the shortage moves to the parent. */
  lemma DeletePushUp(up: Ctx, x: Ref, xred: bool, d: Dir, w: Tree, t: Tree, n: nat, total: nat)
    requires DeleteState(Hole(up, x, xred, d, w), t, n, total) && !Red(t)
    requires w.Node? && !w.red && !Red(w.l) && !Red(w.r)
    ensures DeleteState(up, Mk(d, x, xred, t, w.(red := true)), if xred then n else n + 1, total)
  {
  }

  /** Sibling black, its inner child red, its outer child black: the inner child rises over it. */
  lemma DeleteInner(up: Ctx, x: Ref, xred: bool, d: Dir, w: Ref, v: Ref, a: Tree, b: Tree, c: Tree, t: Tree, n: nat, total: nat)
    requires DeleteState(Hole(up, x, xred, d, Mk(d, w, false, Mk(d, v, true, a, b), c)), t, n, total) && !Red(c)
    ensures DeleteState(Hole(up, x, xred, d, Mk(d, v, false, a, Mk(d, w, true, b, c))), t, n, total)
  {
    var inner, sib := Mk(d, v, true, a, b), Mk(d, w, false, Mk(d, v, true, a, b), c);
    assert Black(sib, n + 1) && NoRedRed(sib);
    assert Black(inner, n) && Black(c, n) && NoRedRed(inner) && NoRedRed(c);
    assert Black(a, n) && Black(b, n) && NoRedRed(a) && NoRedRed(b) && !Red(b);
    var q := Mk(d, w, true, b, c);
    assert Black(q, n) && NoRedRed(q);
  }

  /** Sibling black, its outer child red: the sibling rises over the parent and the tree is whole. */
  lemma DeleteOuter(up: Ctx, x: Ref, xred: bool, d: Dir, w: Ref, b: Tree, c: Tree, t: Tree, n: nat, total: nat)
    requires DeleteState(Hole(up, x, xred, d, Mk(d, w, false, b, c)), t, n, total) && Red(c) && !Red(t)
    ensures var whole := Plug(up, Mk(d, w, xred, Mk(d, x, false, t, b), Blacken(c)));
            DeleteState(Top, whole, total, total)
  {
    var sib, q := Mk(d, w, false, b, c), Mk(d, x, false, t, b);
    assert Black(sib, n + 1) && NoRedRed(sib);
    assert Black(b, n) && Black(c, n) && NoRedRed(b) && NoRedRed(c);
    assert Black(q, n + 1) && NoRedRed(q);
    assert Black(Blacken(c), n + 1) && NoRedRed(Blacken(c));
    var s := Mk(d, w, xred, q, Blacken(c));
    assert Black(s, if xred then n + 1 else n + 2) && NoRedRed(s);
    PlugBlack(up, s, if xred then n + 1 else n + 2, total);
    PlugNoRedRed(up, s);
    NoRedRedBlacken(Plug(up, s));
  }

  lemma NoRedRedBlacken(t: Tree)
    requires NoRedRed(t)
    ensures NoRedRed(Blacken(t))
  {
  }

  /** When the loop ends, blackening the subtree gives a red-black tree. */
  lemma DeleteDone(c: Ctx, t: Tree, n: nat, total: nat)
    requires DeleteState(c, t, n, total) && (c.Top? || Red(t))
    ensures RedBlack(Plug(c, Blacken(t)))
  {
    var b := Blacken(t);
    if c.Top? {
      assert Black(b, if Red(t) then n + 1 else n);
    } else {
      PlugBlack(c, b, n + 1, total);
      PlugNoRedRed(c, b);
      PlugRootBlack(c, b);
    }
  }
}
