/** The nodes of a radix tree: where each one is, and what the tree holds.
    Nodes are numbered in the order in which their memory was taken; a bit string
    leads from the root to a node.  Keys have any fixed number of bits. */
module RadixShape {

  type Path = seq<bool>

  const NULL := -1
  const NO_VALUE: nat := 0xffff_ffff_ffff_ffff

  datatype Node = Node(right: int, left: int, parent: int, value: nat)

  /** Whose a node is: it is in the tree at a path, or at a place in the stack of free nodes,
      or it has just been taken. */
  datatype Owner = InTree(path: Path) | Free(place: nat) | Taken

  function Slot(at: map<Path, nat>, p: Path): int {
    if p in at then at[p] else NULL
  }

  function Up(p: Path): Path
    requires p != []
  {
    p[..|p| - 1]
  }

  predicate LinksOk(nodes: seq<Node>, at: map<Path, nat>, p: Path)
    requires p in at && at[p] < |nodes|
  {
    var n := nodes[at[p]];
    && n.right == Slot(at, p + [true]) && n.left == Slot(at, p + [false])
    && n.parent == (if p == [] then NULL else Slot(at, Up(p)))
    && (p != [] ==> Up(p) in at)
  }

  predicate PathOk(nodes: seq<Node>, at: map<Path, nat>, owner: seq<Owner>, w: nat, p: Path) {
    p in at ==> |p| <= w && at[p] < |nodes| && at[p] < |owner| && owner[at[p]] == InTree(p) && LinksOk(nodes, at, p)
  }

  ghost predicate PathsOk(nodes: seq<Node>, at: map<Path, nat>, owner: seq<Owner>, w: nat) {
    forall p {:trigger PathOk(nodes, at, owner, w, p)} :: PathOk(nodes, at, owner, w, p)
  }

  /** The k-th node of the stack of free nodes is linked to the one below it. */
  predicate FreeAt(nodes: seq<Node>, owner: seq<Owner>, freed: seq<nat>, k: nat) {
    k < |freed| ==>
      freed[k] < |nodes| && freed[k] < |owner| && owner[freed[k]] == Free(k)
      && nodes[freed[k]].right == if k == 0 then NULL else freed[k - 1]
  }

  ghost predicate FreeOk(nodes: seq<Node>, owner: seq<Owner>, freed: seq<nat>) {
    forall k: nat {:trigger FreeAt(nodes, owner, freed, k)} :: FreeAt(nodes, owner, freed, k)
  }

  predicate OwnerOk(at: map<Path, nat>, owner: seq<Owner>, freed: seq<nat>, taken: int, i: nat)
    requires i < |owner|
  {
    match owner[i]
    case InTree(p) => p in at && at[p] == i
    case Free(k) => k < |freed| && freed[k] == i
    case Taken => i == taken
  }

  /** No node is forgotten: it is in the tree or free, or the one just taken. */
  ghost predicate OwnersOk(at: map<Path, nat>, owner: seq<Owner>, freed: seq<nat>, taken: int) {
    forall i: nat {:trigger OwnerOk(at, owner, freed, taken, i)} | i < |owner| :: OwnerOk(at, owner, freed, taken, i)
  }

  function Top(freed: seq<nat>): int {
    if freed == [] then NULL else freed[|freed| - 1]
  }

  ghost predicate Ok(nodes: seq<Node>, at: map<Path, nat>, owner: seq<Owner>, freed: seq<nat>, w: nat, taken: int) {
    && |owner| == |nodes| && [] in at && at[[]] == 0
    && (taken == NULL || (0 <= taken < |owner| && owner[taken] == Taken))
    && PathsOk(nodes, at, owner, w) && FreeOk(nodes, owner, freed) && OwnersOk(at, owner, freed, taken)
  }

  // ---- What the tree holds ----

  function ValueAt(nodes: seq<Node>, at: map<Path, nat>, p: Path): nat {
    if p in at && at[p] < |nodes| then nodes[at[p]].value else NO_VALUE
  }

  /** The stored prefixes with their values. */
  function Contents(nodes: seq<Node>, at: map<Path, nat>): map<Path, nat> {
    map p | p in at && ValueAt(nodes, at, p) != NO_VALUE :: ValueAt(nodes, at, p)
  }

  lemma SameContents(nodes: seq<Node>, at: map<Path, nat>, nodes': seq<Node>, at': map<Path, nat>)
    requires forall p {:trigger ValueAt(nodes, at, p)} {:trigger ValueAt(nodes', at', p)} ::
      ValueAt(nodes, at, p) == ValueAt(nodes', at', p)
    ensures Contents(nodes, at) == Contents(nodes', at')
  {
    var c, c' := Contents(nodes, at), Contents(nodes', at');
    forall p
      ensures p in c <==> p in c'
      ensures p in c ==> c[p] == c'[p]
    {
      assert ValueAt(nodes, at, p) == ValueAt(nodes', at', p);
    }
  }

  /** The value of the longest of the prefixes of `key` shorter than `n` that is stored. */
  function Best(m: map<Path, nat>, key: Path, n: nat): nat
    requires n <= |key| + 1
  {
    if n == 0 then NO_VALUE
    else if key[..n - 1] in m then m[key[..n - 1]]
    else Best(m, key, n - 1)
  }

  ghost predicate Longest(m: map<Path, nat>, key: Path, p: Path) {
    p in m && p <= key && forall q | q in m && q <= key :: |q| <= |p|
  }

  lemma {:induction false} BestFinds(m: map<Path, nat>, key: Path, n: nat, p: Path)
    requires n <= |key| + 1 && p in m && p <= key && |p| < n
    requires forall q | q in m && q <= key && |q| < n :: |q| <= |p|
    ensures Best(m, key, n) == m[p]
  {
    assert key[..n - 1] <= key;
    if |p| == n - 1 {
      assert p == key[..n - 1];
    } else {
      BestFinds(m, key, n - 1, p);
    }
  }

  lemma {:induction false} BestMisses(m: map<Path, nat>, key: Path, n: nat)
    requires n <= |key| + 1 && forall q | q in m && q <= key :: |q| >= n
    ensures Best(m, key, n) == NO_VALUE
  {
    if n > 0 {
      assert key[..n - 1] <= key;
      BestMisses(m, key, n - 1);
    }
  }

  /** `Best` over all prefixes is the value of the longest stored prefix of the key. */
  lemma BestIsLongest(m: map<Path, nat>, key: Path, p: Path)
    ensures Longest(m, key, p) ==> Best(m, key, |key| + 1) == m[p]
    ensures (forall q | q in m :: !(q <= key)) ==> Best(m, key, |key| + 1) == NO_VALUE
  {
    if Longest(m, key, p) {
      BestFinds(m, key, |key| + 1, p);
    }
    if forall q | q in m :: !(q <= key) {
      BestMisses(m, key, |key| + 1);
    }
  }

  // ---- Paths in the tree ----

  lemma {:induction false} Missing(nodes: seq<Node>, at: map<Path, nat>, owner: seq<Owner>, w: nat, p: Path, q: Path)
    requires PathsOk(nodes, at, owner, w) && p <= q && p !in at
    ensures q !in at
    decreases |q|
  {
    if |q| == |p| {
      assert q == p;
    } else {
      assert PathOk(nodes, at, owner, w, q);
      Missing(nodes, at, owner, w, p, Up(q));
    }
  }

  /** A node's child for a bit. */
  function Child(n: Node, b: bool): int {
    if b then n.right else n.left
  }

  lemma ChildIs(nodes: seq<Node>, at: map<Path, nat>, owner: seq<Owner>, w: nat, p: Path, b: bool)
    requires PathsOk(nodes, at, owner, w) && p in at
    ensures at[p] < |nodes| && |p| <= w && Child(nodes[at[p]], b) == Slot(at, p + [b])
    ensures p == [] || Up(p) in at
    ensures nodes[at[p]].parent == if p == [] then NULL else Slot(at, Up(p))
  {
    assert PathOk(nodes, at, owner, w, p);
  }

  lemma OnePath(nodes: seq<Node>, at: map<Path, nat>, owner: seq<Owner>, w: nat, p: Path, q: Path)
    requires PathsOk(nodes, at, owner, w) && p in at && q in at && at[p] == at[q]
    ensures p == q
  {
    assert PathOk(nodes, at, owner, w, p);
    assert PathOk(nodes, at, owner, w, q);
  }

  // ---- Taking a node ----

  lemma PopOk(nodes: seq<Node>, at: map<Path, nat>, owner: seq<Owner>, freed: seq<nat>, w: nat)
    requires Ok(nodes, at, owner, freed, w, NULL) && freed != []
    ensures Top(freed) < |nodes|
    ensures nodes[Top(freed)].right == Top(freed[..|freed| - 1])
    ensures Ok(nodes, at, owner[Top(freed) := Taken], freed[..|freed| - 1], w, Top(freed))
  {
    var y, freed', last := freed[|freed| - 1], freed[..|freed| - 1], |freed| - 1;
    assert FreeAt(nodes, owner, freed, last);
    var owner' := owner[y := Taken];
    forall p
      ensures PathOk(nodes, at, owner', w, p)
    {
      assert PathOk(nodes, at, owner, w, p);
    }
    forall k: nat
      ensures FreeAt(nodes, owner', freed', k)
    {
      assert FreeAt(nodes, owner, freed, k);
    }
    forall i: nat | i < |owner'|
      ensures OwnerOk(at, owner', freed', y, i)
    {
      assert OwnerOk(at, owner, freed, NULL, i);
    }
  }

  lemma GrowOk(nodes: seq<Node>, at: map<Path, nat>, owner: seq<Owner>, freed: seq<nat>, w: nat, n: Node)
    requires Ok(nodes, at, owner, freed, w, NULL)
    ensures Ok(nodes + [n], at, owner + [Taken], freed, w, |nodes|)
  {
    var nodes', owner' := nodes + [n], owner + [Taken];
    forall p
      ensures PathOk(nodes', at, owner', w, p)
    {
      assert PathOk(nodes, at, owner, w, p);
    }
    forall k: nat
      ensures FreeAt(nodes', owner', freed, k)
    {
      assert FreeAt(nodes, owner, freed, k);
    }
    forall i: nat | i < |owner'|
      ensures OwnerOk(at, owner', freed, |nodes|, i)
    {
      assert i < |owner| ==> OwnerOk(at, owner, freed, NULL, i);
    }
  }

  // ---- Hanging a node below another ----

  function SetChild(n: Node, b: bool, y: int): Node {
    if b then n.(right := y) else n.(left := y)
  }

  function Hang(nodes: seq<Node>, x: nat, b: bool, y: nat): seq<Node>
    requires x < |nodes| && y < |nodes|
  {
    var n := nodes[y := Node(NULL, NULL, x, NO_VALUE)];
    n[x := SetChild(n[x], b, y)]
  }

  lemma SameLast(q: Path, c: bool, p: Path, b: bool)
    ensures q + [c] == p + [b] ==> q == p && c == b
  {
    assert Up(q + [c]) == q && Up(p + [b]) == p && (q + [c])[|q|] == c && (p + [b])[|p|] == b;
  }

  /** The new path. */
  lemma {:induction false} HangNew(nodes: seq<Node>, at: map<Path, nat>, owner: seq<Owner>, w: nat, p: Path, b: bool, y: nat)
    requires PathsOk(nodes, at, owner, w) && p in at && p + [b] !in at && |p| < w
    requires y < |nodes| == |owner| && at[p] < |nodes| && at[p] != y
    ensures PathOk(Hang(nodes, at[p], b, y), at[p + [b] := y], owner[y := InTree(p + [b])], w, p + [b])
  {
    var q := p + [b];
    assert Up(q) == p && q != p;
    Missing(nodes, at, owner, w, q, q + [true]);
    Missing(nodes, at, owner, w, q, q + [false]);
  }

  /** A path that was there. */
  lemma {:induction false} HangOther(nodes: seq<Node>, at: map<Path, nat>, owner: seq<Owner>, w: nat, p: Path, b: bool, y: nat,
                                     q: Path)
    requires PathOk(nodes, at, owner, w, p) && PathOk(nodes, at, owner, w, q) && p in at && p + [b] !in at && q in at
    requires y < |nodes| == |owner| && owner[y] == Taken
    ensures PathOk(Hang(nodes, at[p], b, y), at[p + [b] := y], owner[y := InTree(p + [b])], w, q)
  {
    SameLast(q, true, p, b);
    SameLast(q, false, p, b);
    assert at[q] == at[p] ==> q == p;
  }

  lemma {:induction false} HangPath(nodes: seq<Node>, at: map<Path, nat>, owner: seq<Owner>, w: nat, p: Path, b: bool, y: nat,
                                    q: Path)
    requires PathsOk(nodes, at, owner, w) && p in at && p + [b] !in at && |p| < w
    requires y < |nodes| == |owner| && owner[y] == Taken && at[p] < |nodes|
    ensures PathOk(Hang(nodes, at[p], b, y), at[p + [b] := y], owner[y := InTree(p + [b])], w, q)
  {
    assert PathOk(nodes, at, owner, w, p);
    assert PathOk(nodes, at, owner, w, q);
    if q == p + [b] {
      HangNew(nodes, at, owner, w, p, b, y);
    } else if q in at {
      HangOther(nodes, at, owner, w, p, b, y, q);
    }
  }

  lemma HangOk(nodes: seq<Node>, at: map<Path, nat>, owner: seq<Owner>, freed: seq<nat>, w: nat, p: Path, b: bool, y: nat)
    requires Ok(nodes, at, owner, freed, w, y) && p in at && p + [b] !in at && |p| < w && at[p] < |nodes|
    ensures Ok(Hang(nodes, at[p], b, y), at[p + [b] := y], owner[y := InTree(p + [b])], freed, w, NULL)
  {
    var nodes', at', owner' := Hang(nodes, at[p], b, y), at[p + [b] := y], owner[y := InTree(p + [b])];
    forall q
      ensures PathOk(nodes', at', owner', w, q)
    {
      HangPath(nodes, at, owner, w, p, b, y, q);
    }
    assert PathOk(nodes, at, owner, w, p);
    forall k: nat
      ensures FreeAt(nodes', owner', freed, k)
    {
      assert FreeAt(nodes, owner, freed, k);
    }
    forall i: nat | i < |owner'|
      ensures OwnerOk(at', owner', freed, NULL, i)
    {
      assert OwnerOk(at, owner, freed, y, i);
    }
    assert p + [b] != [];
  }

  lemma HangContents(nodes: seq<Node>, at: map<Path, nat>, owner: seq<Owner>, w: nat, p: Path, b: bool, y: nat)
    requires PathsOk(nodes, at, owner, w) && p in at && p + [b] !in at && at[p] < |nodes|
    requires y < |nodes| == |owner| && owner[y] == Taken
    ensures Contents(Hang(nodes, at[p], b, y), at[p + [b] := y]) == Contents(nodes, at)
  {
    var nodes', at' := Hang(nodes, at[p], b, y), at[p + [b] := y];
    forall q
      ensures ValueAt(nodes, at, q) == ValueAt(nodes', at', q)
    {
      assert PathOk(nodes, at, owner, w, q);
      assert PathOk(nodes, at, owner, w, p);
    }
    SameContents(nodes, at, nodes', at');
  }

  // ---- Storing a value ----

  function Store(nodes: seq<Node>, x: nat, v: nat): seq<Node>
    requires x < |nodes|
  {
    nodes[x := nodes[x].(value := v)]
  }

  lemma StoreOk(nodes: seq<Node>, at: map<Path, nat>, owner: seq<Owner>, freed: seq<nat>, w: nat, p: Path, v: nat)
    requires Ok(nodes, at, owner, freed, w, NULL) && p in at && at[p] < |nodes|
    ensures Ok(Store(nodes, at[p], v), at, owner, freed, w, NULL)
  {
    var nodes' := Store(nodes, at[p], v);
    forall q
      ensures PathOk(nodes', at, owner, w, q)
    {
      assert PathOk(nodes, at, owner, w, q);
    }
    forall k: nat
      ensures FreeAt(nodes', owner, freed, k)
    {
      assert FreeAt(nodes, owner, freed, k);
    }
  }

  /** Contents after a value was put at `p`, which may be the mark for no value. */
  function With(m: map<Path, nat>, p: Path, v: nat): map<Path, nat> {
    if v == NO_VALUE then m - {p} else m[p := v]
  }

  lemma StoreContents(nodes: seq<Node>, at: map<Path, nat>, owner: seq<Owner>, w: nat, p: Path, v: nat)
    requires PathsOk(nodes, at, owner, w) && p in at && at[p] < |nodes|
    ensures Contents(Store(nodes, at[p], v), at) == With(Contents(nodes, at), p, v)
  {
    var nodes' := Store(nodes, at[p], v);
    var c, c' := With(Contents(nodes, at), p, v), Contents(nodes', at);
    forall q
      ensures q in c <==> q in c'
      ensures q in c ==> c[q] == c'[q]
    {
      if q in at && at[q] == at[p] {
        OnePath(nodes, at, owner, w, q, p);
      }
      assert q != p ==> ValueAt(nodes', at, q) == ValueAt(nodes, at, q);
      assert ValueAt(nodes', at, p) == v;
    }
  }

  // ---- Cutting a leaf off ----

  predicate Leaf(at: map<Path, nat>, p: Path) {
    p + [true] !in at && p + [false] !in at
  }

  /** Leaf `x` with parent `u` goes on top of the free nodes. */
  function Cut(nodes: seq<Node>, u: nat, x: nat, free: int): seq<Node>
    requires u < |nodes| && x < |nodes|
  {
    var n := nodes[u := SetChild(nodes[u], nodes[u].right == x, NULL)];
    n[x := n[x].(right := free)]
  }

  lemma LastBit(p: Path, q: Path, b: bool)
    requires p != []
    ensures q + [b] == p <==> q == Up(p) && b == p[|p| - 1]
  {
    assert Up(q + [b]) == q;
    assert p == Up(p) + [p[|p| - 1]];
  }

  /** A path other than the leaf's. */
  lemma {:induction false} CutOther(nodes: seq<Node>, at: map<Path, nat>, owner: seq<Owner>, w: nat, p: Path, q: Path, free: int,
                                    k: nat)
    requires PathOk(nodes, at, owner, w, p) && PathOk(nodes, at, owner, w, q) && p in at && p != [] && Leaf(at, p)
    requires Up(p) in at && PathOk(nodes, at, owner, w, Up(p)) && q in at && q != p
    requires (nodes[at[Up(p)]].right == at[p]) == p[|p| - 1]
    ensures PathOk(Cut(nodes, at[Up(p)], at[p], free), at - {p}, owner[at[p] := Free(k)], w, q)
  {
    LastBit(p, q, true);
    LastBit(p, q, false);
    assert at[q] == at[Up(p)] ==> q == Up(p);
    if q != [] {
      LastBit(q, Up(q), q[|q| - 1]);
    }
  }

  lemma {:induction false} CutPath(nodes: seq<Node>, at: map<Path, nat>, owner: seq<Owner>, freed: seq<nat>, w: nat, p: Path,
                                   q: Path)
    requires Ok(nodes, at, owner, freed, w, NULL) && p in at && p != [] && Leaf(at, p) && Up(p) in at
    requires at[p] < |nodes| && at[Up(p)] < |nodes|
    ensures PathOk(Cut(nodes, at[Up(p)], at[p], Top(freed)), at - {p}, owner[at[p] := Free(|freed|)], w, q)
  {
    assert PathOk(nodes, at, owner, w, p);
    assert PathOk(nodes, at, owner, w, q);
    assert PathOk(nodes, at, owner, w, Up(p));
    if q in at && q != p {
      CutParent(nodes, at, owner, w, p);
      CutOther(nodes, at, owner, w, p, q, Top(freed), |freed|);
    }
  }

  lemma CutParent(nodes: seq<Node>, at: map<Path, nat>, owner: seq<Owner>, w: nat, p: Path)
    requires PathsOk(nodes, at, owner, w) && p in at && p != [] && Up(p) in at && at[p] < |nodes| && at[Up(p)] < |nodes|
    ensures (nodes[at[Up(p)]].right == at[p]) == p[|p| - 1]
  {
    assert PathOk(nodes, at, owner, w, p);
    assert PathOk(nodes, at, owner, w, Up(p));
    LastBit(p, Up(p), true);
    if Up(p) + [true] in at && at[Up(p) + [true]] == at[p] {
      OnePath(nodes, at, owner, w, Up(p) + [true], p);
    }
  }

  lemma CutOk(nodes: seq<Node>, at: map<Path, nat>, owner: seq<Owner>, freed: seq<nat>, w: nat, p: Path)
    requires Ok(nodes, at, owner, freed, w, NULL) && p in at && p != [] && Leaf(at, p) && Up(p) in at
    requires at[p] < |nodes| && at[Up(p)] < |nodes|
    ensures Ok(Cut(nodes, at[Up(p)], at[p], Top(freed)), at - {p}, owner[at[p] := Free(|freed|)], freed + [at[p]], w, NULL)
  {
    var x := at[p];
    var nodes', at', owner', freed' := Cut(nodes, at[Up(p)], x, Top(freed)), at - {p}, owner[x := Free(|freed|)], freed + [x];
    assert PathOk(nodes, at, owner, w, p);
    assert PathOk(nodes, at, owner, w, Up(p));
    forall q
      ensures PathOk(nodes', at', owner', w, q)
    {
      CutPath(nodes, at, owner, freed, w, p, q);
    }
    forall k: nat
      ensures FreeAt(nodes', owner', freed', k)
    {
      assert FreeAt(nodes, owner, freed, k);
    }
    forall i: nat | i < |owner'|
      ensures OwnerOk(at', owner', freed', NULL, i)
    {
      assert OwnerOk(at, owner, freed, NULL, i);
    }
  }

  lemma CutContents(nodes: seq<Node>, at: map<Path, nat>, owner: seq<Owner>, w: nat, p: Path, free: int)
    requires PathsOk(nodes, at, owner, w) && p in at && p != [] && Up(p) in at
    requires at[p] < |nodes| && at[Up(p)] < |nodes|
    ensures Contents(Cut(nodes, at[Up(p)], at[p], free), at - {p}) == Contents(nodes, at) - {p}
  {
    var nodes', at' := Cut(nodes, at[Up(p)], at[p], free), at - {p};
    var c, c' := Contents(nodes, at) - {p}, Contents(nodes', at');
    forall q
      ensures q in c <==> q in c'
      ensures q in c ==> c[q] == c'[q]
    {
      if q in at && q != p {
        assert ValueAt(nodes', at', q) == ValueAt(nodes, at, q);
      }
    }
  }

  // ---- Trees without useless leaves ----

  predicate PrunedAt(at: map<Path, nat>, m: map<Path, nat>, p: Path) {
    p in at && p != [] && Leaf(at, p) ==> p in m
  }

  /** Every leaf but the root and perhaps `hole` has a value. */
  ghost predicate PrunedBut(at: map<Path, nat>, m: map<Path, nat>, hole: Path) {
    forall p {:trigger PrunedAt(at, m, p)} :: p != hole ==> PrunedAt(at, m, p)
  }

  ghost predicate Pruned(at: map<Path, nat>, m: map<Path, nat>) {
    PrunedBut(at, m, [])
  }

  lemma CutPruned(at: map<Path, nat>, m: map<Path, nat>, p: Path)
    requires p in at && p != [] && PrunedBut(at, m, p)
    ensures PrunedBut(at - {p}, m - {p}, Up(p))
  {
    forall q | q != Up(p)
      ensures PrunedAt(at - {p}, m - {p}, q)
    {
      LastBit(p, q, true);
      LastBit(p, q, false);
      assert q != p ==> PrunedAt(at, m, q);
    }
  }

  lemma HangPruned(at: map<Path, nat>, m: map<Path, nat>, p: Path, b: bool, y: nat)
    requires p in at && PrunedBut(at, m, p) && p + [b] !in at
    ensures PrunedBut(at[p + [b] := y], m, p + [b])
  {
    var at' := at[p + [b] := y];
    forall q | q != p + [b]
      ensures PrunedAt(at', m, q)
    {
      assert q != p ==> PrunedAt(at, m, q);
      if q == p {
        assert p + [b] in at';
      }
    }
  }
}
