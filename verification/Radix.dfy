/** The radix tree: insertion, deletion and longest-prefix search, walking with
    a moving bit, and the free list of nodes. */
module Radix {
  import opened Common
  import opened RadixShape

  datatype Result = Success | Busy | Failure

  /** The first bit from `i` on that is clear in the mask. */
  function Leading(mask: seq<bool>, i: nat): (n: nat)
    requires i <= |mask|
    ensures i <= n <= |mask|
    decreases |mask| - i
  {
    if i < |mask| && mask[i] then Leading(mask, i + 1) else i
  }

  /** The prefix that a key and a mask stand for. */
  function Prefix(key: Path, mask: seq<bool>): Path
    requires |key| == |mask|
  {
    key[..Leading(mask, 0)]
  }

  // ---- Counting with the leading bits of a key ----

  function NoBits(n: nat): seq<bool> {
    seq(n, _ => false)
  }

  /** The mask moved one bit down, with its highest bit set. */
  function Shifted(mask: seq<bool>): (m: seq<bool>)
    ensures |m| == |mask|
    ensures Leading(m, 0) == if Leading(mask, 0) < |mask| then Leading(mask, 0) + 1 else |mask|
  {
    if mask == [] then []
    else
      LeadingShifted(mask, 0);
      [true] + mask[..|mask| - 1]
  }

  lemma {:induction false} LeadingShifted(mask: seq<bool>, i: nat)
    requires i < |mask|
    ensures Leading([true] + mask[..|mask| - 1], i + 1) == if Leading(mask, i) < |mask| then Leading(mask, i) + 1 else |mask|
    decreases |mask| - i
  {
    var m := [true] + mask[..|mask| - 1];
    if i + 1 < |mask| {
      assert m[i + 1] == mask[i];
      LeadingShifted(mask, i + 1);
    }
  }

  /** The key with bit `j` added, the carry going to higher bits and past the highest one lost. */
  function AddBit(key: Path, j: nat): (k: Path)
    requires j < |key|
    ensures |k| == |key|
    decreases j
  {
    if !key[j] then key[j := true]
    else if j == 0 then key[0 := false]
    else AddBit(key[j := false], j - 1)
  }

  function Num(p: Path): nat {
    if p == [] then 0 else 2 * Num(Up(p)) + if p[|p| - 1] then 1 else 0
  }

  lemma {:induction false} NumBound(p: Path)
    ensures Num(p) < Pow2(|p|)
  {
    if p != [] {
      NumBound(Up(p));
    }
  }

  lemma {:induction false} NumOnly(p: Path, q: Path)
    requires |p| == |q| && Num(p) == Num(q)
    ensures p == q
  {
    if p != [] {
      NumOnly(Up(p), Up(q));
      assert p == Up(p) + [p[|p| - 1]];
      assert q == Up(q) + [q[|q| - 1]];
    }
  }

  lemma {:induction false} ZeroNum(p: Path)
    requires p == NoBits(|p|)
    ensures Num(p) == 0
  {
    if p != [] {
      assert Up(p) == NoBits(|p| - 1);
      ZeroNum(Up(p));
    }
  }

  lemma {:induction false} AddBitNum(key: Path, j: nat)
    requires j < |key|
    ensures AddBit(key, j)[j + 1..] == key[j + 1..]
    ensures Num(key[..j + 1]) + 1 < Pow2(j + 1) ==> Num(AddBit(key, j)[..j + 1]) == Num(key[..j + 1]) + 1
    ensures Num(key[..j + 1]) + 1 >= Pow2(j + 1) ==> AddBit(key, j)[..j + 1] == NoBits(j + 1)
    decreases j
  {
    var k := AddBit(key, j);
    assert Up(key[..j + 1]) == key[..j];
    assert Up(k[..j + 1]) == k[..j];
    NumBound(key[..j]);
    if !key[j] {
      assert k[..j] == key[..j];
    } else if j == 0 {
      assert key[..0] == [];
    } else {
      var key' := key[j := false];
      AddBitNum(key', j - 1);
      assert key'[..j] == key[..j];
      assert k[j..] == key'[j..];
      assert k[j] == key'[j..][0];
      assert k[j + 1..] == key[j + 1..] by {
        assert k[j + 1..] == k[j..][1..];
        assert key'[j..][1..] == key[j + 1..];
      }
    }
  }

  /** The strings of `len` bits with a number below `n` have nodes. */
  ghost predicate Below(at: map<Path, nat>, len: nat, n: nat) {
    forall q | |q| == len && Num(q) < n :: q in at
  }

  lemma Counted(before: map<Path, nat>, at: map<Path, nat>, p: Path)
    requires p in at && (forall q | q in before :: q in at) && Below(before, |p|, Num(p))
    ensures Below(at, |p|, Num(p) + 1)
  {
    forall q | |q| == |p| && Num(q) < Num(p) + 1
      ensures q in at
    {
      if Num(q) == Num(p) {
        NumOnly(q, p);
      }
    }
  }

  lemma AllBelow(at: map<Path, nat>, len: nat)
    requires Below(at, len, Pow2(len))
    ensures forall q | |q| == len :: q in at
  {
    forall q | |q| == len
      ensures q in at
    {
      NumBound(q);
    }
  }

  class Tree {
    const w: nat              // bits in a key
    var nodes: seq<Node>
    var free: int             // the top of the free nodes
    var room: nat             // nodes for which memory can still be had
    ghost var at: map<Path, nat>
    ghost var owner: seq<Owner>
    ghost var freed: seq<nat>

    ghost predicate Valid()
      reads this
    {
      Ok(nodes, at, owner, freed, w, NULL) && free == Top(freed)
    }

    ghost function Stored(): map<Path, nat>
      reads this
    {
      Contents(nodes, at)
    }

    /** No leaf without a value, as long as none is inserted without one. */
    ghost predicate Trim()
      reads this
    {
      Pruned(at, Contents(nodes, at))
    }

    constructor (w: nat, room: nat)
      ensures Valid() && Stored() == map[] && Trim() && this.w == w && this.room == room
    {
      this.w := w;
      nodes := [Node(NULL, NULL, NULL, NO_VALUE)];
      free := NULL;
      this.room := room;
      at := map[[] := 0];
      owner := [InTree([])];
      freed := [];
      new;
      assert forall p :: PathOk(nodes, at, owner, w, p);
      assert forall k: nat :: FreeAt(nodes, owner, freed, k);
      assert forall i: nat | i < |owner| :: OwnerOk(at, owner, freed, NULL, i);
      assert forall p :: PrunedAt(at, Contents(nodes, at), p);
    }

    /** The value of the longest stored prefix of the key. */
    method Find(key: Path) returns (value: nat)
      requires Valid() && |key| == w
      ensures value == Best(Stored(), key, w + 1)
    {
      var node, i := 0, 0;
      value := NO_VALUE;
      while node != NULL
        invariant i <= w + 1 && value == Best(Stored(), key, i)
        invariant node == if i <= w then Slot(at, key[..i]) else NULL
        decreases w + 1 - i
      {
        ghost var p := key[..i];
        var b := i < w && key[i];
        ChildIs(nodes, at, owner, w, p, b);
        assert ValueAt(nodes, at, p) == nodes[node].value;
        if nodes[node].value != NO_VALUE {
          value := nodes[node].value;
        }
        node := Child(nodes[node], b);
        assert i < w ==> p + [b] == key[..i + 1];
        assert i == w ==> PathOk(nodes, at, owner, w, p + [b]);
        i := i + 1;
      }
      Beyond(key, i);
    }

    /** A node missing on the way down ends the search for longer prefixes. */
    lemma {:induction false} Beyond(key: Path, i: nat)
      requires Valid() && |key| == w && i <= w + 1 && (i <= w ==> key[..i] !in at)
      ensures Best(Stored(), key, w + 1) == Best(Stored(), key, i)
      decreases w + 1 - i
    {
      if i <= w {
        if i < w {
          Missing(nodes, at, owner, w, key[..i], key[..i + 1]);
        }
        Beyond(key, i + 1);
      }
    }

    /** A new node below `node`, from the free nodes if there are any. */
    method AddNode(node: nat, b: bool, ghost p: Path) returns (next: int)
      requires Valid() && p in at && at[p] == node && |p| < w && p + [b] !in at && node < |nodes|
      modifies this
      ensures Valid() && Stored() == old(Stored())
      ensures next == NULL ==> freed == old(freed) == [] && room == old(room) == 0 && at == old(at)
      ensures next != NULL ==> next >= 0 && at == old(at)[p + [b] := next] && next < |nodes|
      ensures next != NULL ==> (p + [b] in at && at[p + [b]] == next)
      ensures |freed| + room == old(|freed| + room) - if next == NULL then 0 else 1
    {
      if free != NULL {
        PopOk(nodes, at, owner, freed, w);
        next := free;
        free := nodes[free].right;
        owner := owner[next := Taken];
        freed := freed[..|freed| - 1];
      } else if room == 0 {
        return NULL;
      } else {
        GrowOk(nodes, at, owner, freed, w, Node(NULL, NULL, NULL, NO_VALUE));
        assert Contents(nodes + [Node(NULL, NULL, NULL, NO_VALUE)], at) == Contents(nodes, at) by {
          GrowContents(nodes, at, owner, w, Node(NULL, NULL, NULL, NO_VALUE));
        }
        next := |nodes|;
        nodes := nodes + [Node(NULL, NULL, NULL, NO_VALUE)];
        owner := owner + [Taken];
        room := room - 1;
      }
      HangOk(nodes, at, owner, freed, w, p, b, next);
      HangContents(nodes, at, owner, w, p, b, next);
      nodes := nodes[next := Node(NULL, NULL, node, NO_VALUE)];
      nodes := nodes[node := SetChild(nodes[node], b, next)];
      owner := owner[next := InTree(p + [b])];
      at := at[p + [b] := next];
    }

    /** Down from the root as long as the mask has bits and the tree has nodes. */
    method Descend(key: Path, mask: seq<bool>) returns (i: nat, node: nat, next: int)
      requires Valid() && |key| == |mask| == w
      ensures i <= w && key[..i] in at && at[key[..i]] == node && node < |nodes| && Leading(mask, i) == Leading(mask, 0)
      ensures next != NULL ==> next == node && i == Leading(mask, 0)
      ensures next == NULL ==> i < w && mask[i] && key[..i + 1] !in at
    {
      i, node, next := 0, 0, 0;
      ChildIs(nodes, at, owner, w, [], true);
      while i < w && mask[i]
        invariant i <= w && Leading(mask, i) == Leading(mask, 0)
        invariant next == node && key[..i] in at && at[key[..i]] == node && node < |nodes|
        decreases w - i
      {
        ChildIs(nodes, at, owner, w, key[..i], key[i]);
        assert key[..i] + [key[i]] == key[..i + 1];
        next := Child(nodes[node], key[i]);
        if next == NULL {
          break;
        }
        i := i + 1;
        node := next;
        ChildIs(nodes, at, owner, w, key[..i], true);
      }
    }

    /** New nodes from the one that `i` bits of the key lead to down to the end of the prefix. */
    method Extend(key: Path, mask: seq<bool>, i: nat, node: nat) returns (last: int)
      requires Valid() && |key| == |mask| == w && i < w && mask[i] && Leading(mask, i) == Leading(mask, 0)
      requires key[..i] in at && at[key[..i]] == node && key[..i + 1] !in at
      modifies this
      ensures Valid() && Stored() == old(Stored())
      ensures last == NULL ==> old(|freed| + room) < |Prefix(key, mask)| && freed == [] && room == 0
      ensures last != NULL ==> Prefix(key, mask) in at && at[Prefix(key, mask)] == last && 0 <= last < |nodes|
      ensures forall q | q in old(at) :: q in at
      ensures forall q | q in at :: q in old(at) || q <= Prefix(key, mask)
      ensures old(Trim()) && last != NULL ==> PrunedBut(at, Stored(), Prefix(key, mask))
    {
      var j, x := i, node;
      ghost var p := Prefix(key, mask);
      while j < w && mask[j]
        invariant i <= j <= w && Leading(mask, j) == Leading(mask, 0)
        invariant Valid() && Stored() == old(Stored())
        invariant key[..j] in at && at[key[..j]] == x && (j < w ==> key[..j + 1] !in at)
        invariant |freed| + room == old(|freed| + room) - (j - i)
        invariant forall q | q in old(at) :: q in at
        invariant forall q | q in at :: q in old(at) || q <= key[..j]
        invariant old(Trim()) ==> PrunedBut(at, Stored(), key[..j])
        decreases w - j
      {
        ChildIs(nodes, at, owner, w, key[..j], key[j]);
        assert key[..j] + [key[j]] == key[..j + 1];
        if j + 1 < w {
          Missing(nodes, at, owner, w, key[..j + 1], key[..j + 2]);
        }
        ghost var at0 := at;
        var next := AddNode(x, key[j], key[..j]);
        if next == NULL {
          return NULL;
        }
        if old(Trim()) {
          HangPruned(at0, Stored(), key[..j], key[j], next);
        }
        j := j + 1;
        x := next;
      }
      ChildIs(nodes, at, owner, w, key[..j], true);
      last := x;
    }

    method Insert(key: Path, mask: seq<bool>, value: nat) returns (r: Result)
      requires Valid() && |key| == |mask| == w
      modifies this
      ensures Valid()
      ensures r == Busy <==> Prefix(key, mask) in old(Stored())
      ensures r == Success ==> Stored() == With(old(Stored()), Prefix(key, mask), value)
      ensures r != Success ==> Stored() == old(Stored())
      ensures r == Failure ==> old(|freed| + room) < |Prefix(key, mask)| && freed == [] && room == 0
      ensures r == Success ==> Prefix(key, mask) in at
      ensures forall q | q in old(at) :: q in at
      ensures forall q | q in at :: q in old(at) || q <= Prefix(key, mask)
      ensures old(Trim()) && value != NO_VALUE && r != Failure ==> Trim()
    {
      ghost var p := Prefix(key, mask);
      var i, node, next := Descend(key, mask);
      if next != NULL {
        assert ValueAt(nodes, at, p) == nodes[node].value;
        if nodes[node].value != NO_VALUE {
          return Busy;
        }
        StoreOk(nodes, at, owner, freed, w, p, value);
        StoreContents(nodes, at, owner, w, p, value);
        GainPruned(at, Contents(nodes, at), p, value);
        nodes := nodes[node := nodes[node].(value := value)];
        return Success;
      }
      assert key[..i + 1] <= p;
      Missing(nodes, at, owner, w, key[..i + 1], p);
      next := Extend(key, mask, i, node);
      if next == NULL {
        return Failure;
      }
      r := Success;
      ghost var c := Contents(nodes, at);
      StoreOk(nodes, at, owner, freed, w, p, value);
      StoreContents(nodes, at, owner, w, p, value);
      GainPruned(at, c, p, value);
      nodes := nodes[next := nodes[next].(value := value)];
    }

    method Locate(key: Path, mask: seq<bool>) returns (node: int)
      requires Valid() && |key| == |mask| == w
      ensures node == Slot(at, Prefix(key, mask))
    {
      var i := 0;
      node := 0;
      while node != NULL && i < w && mask[i]
        invariant i <= w && Leading(mask, i) == Leading(mask, 0) && node == Slot(at, key[..i])
        decreases w - i
      {
        ChildIs(nodes, at, owner, w, key[..i], key[i]);
        assert key[..i] + [key[i]] == key[..i + 1];
        node := Child(nodes[node], key[i]);
        i := i + 1;
      }
      if node == NULL {
        Missing(nodes, at, owner, w, key[..i], Prefix(key, mask));
      }
    }

    /** One leaf goes to the free nodes; its parent is returned. */
    method CutLeaf(x: nat, ghost p: Path) returns (u: nat)
      requires Valid() && p in at && at[p] == x && p != [] && Leaf(at, p)
      modifies this
      ensures Valid() && Up(p) in at && at[Up(p)] == u && u < |nodes| && at == old(at) - {p}
      ensures Stored() == old(Stored()) - {p}
      ensures old(PrunedBut(at, Stored(), p)) ==> PrunedBut(at, Stored(), Up(p))
      ensures freed == old(freed) + [x]
    {
      ChildIs(nodes, at, owner, w, p, true);
      ChildIs(nodes, at, owner, w, Up(p), true);
      u := nodes[x].parent;
      CutOk(nodes, at, owner, freed, w, p);
      CutContents(nodes, at, owner, w, p, free);
      if PrunedBut(at, Stored(), p) {
        CutPruned(at, Stored(), p);
      }
      nodes := nodes[u := SetChild(nodes[u], nodes[u].right == x, NULL)];
      nodes := nodes[x := nodes[x].(right := free)];
      free := x;
      owner := owner[x := Free(|freed|)];
      freed := freed + [x];
      at := at - {p};
    }

    /** Cuts off a leaf, and then each node above it that is left without children and value. */
    method Prune(node: nat, ghost p: Path)
      requires Valid() && p in at && at[p] == node && p != [] && Leaf(at, p)
      modifies this
      ensures Valid() && Stored() == old(Stored()) - {p}
      ensures old(Trim()) ==> Trim()
      ensures forall q | q in at :: q in old(at)
    {
      ghost var q := Up(p);
      var x := CutLeaf(node, p);
      while true
        invariant Valid() && Stored() == old(Stored()) - {p} && q in at && at[q] == x && x < |nodes|
        invariant old(Trim()) ==> PrunedBut(at, Stored(), q)
        invariant forall q' | q' in at :: q' in old(at)
        decreases |q|
      {
        ChildIs(nodes, at, owner, w, q, true);
        ChildIs(nodes, at, owner, w, q, false);
        assert ValueAt(nodes, at, q) == nodes[x].value;
        if nodes[x].right != NULL || nodes[x].left != NULL || nodes[x].value != NO_VALUE || nodes[x].parent == NULL {
          assert PrunedAt(at, Stored(), q);
          break;
        }
        ghost var c := Stored();
        assert c - {q} == c;
        x := CutLeaf(x, q);
        q := Up(q);
      }
    }

    method Delete(key: Path, mask: seq<bool>) returns (ok: bool)
      requires Valid() && |key| == |mask| == w
      requires Prefix(key, mask) != [] || !Leaf(at, [])
      modifies this
      ensures Valid()
      ensures ok <==> Prefix(key, mask) in old(Stored())
                      || (Prefix(key, mask) in old(at) && Leaf(old(at), Prefix(key, mask)))
      ensures Stored() == old(Stored()) - {Prefix(key, mask)}
      ensures old(Trim()) ==> Trim() && (ok <==> Prefix(key, mask) in old(Stored()))
      ensures forall q | q in at :: q in old(at)
    {
      ghost var p := Prefix(key, mask);
      ghost var c := Stored();
      var node := Locate(key, mask);
      if node == NULL {
        assert c - {p} == c;
        return false;
      }
      ChildIs(nodes, at, owner, w, p, true);
      ChildIs(nodes, at, owner, w, p, false);
      assert ValueAt(nodes, at, p) == nodes[node].value;
      if nodes[node].right != NULL || nodes[node].left != NULL {
        if nodes[node].value != NO_VALUE {
          StoreOk(nodes, at, owner, freed, w, p, NO_VALUE);
          StoreContents(nodes, at, owner, w, p, NO_VALUE);
          LosePruned(at, c, p);
          nodes := nodes[node := nodes[node].(value := NO_VALUE)];
          return true;
        }
        assert c - {p} == c;
        return false;
      }
      assert PrunedAt(at, c, p) ==> p in c;
      Prune(node, p);
      ok := true;
    }

    /** Makes the nodes for all bit strings of up to `n` bits, one length after the other. */
    method Preallocate(n: nat) returns (ok: bool)
      requires Valid() && Stored() == map[] && n <= w
      modifies this
      ensures Valid() && Stored() == map[]
      ensures ok ==> forall q | |q| <= n :: q in at
      ensures !ok ==> freed == [] && room == 0
    {
      var mask := NoBits(w);
      var len := 0;
      while len < n
        invariant len <= n && |mask| == w && Leading(mask, 0) == len && Valid() && Stored() == map[]
        invariant forall q | |q| <= len :: q in at
      {
        mask := Shifted(mask);
        len := len + 1;
        ok := FillLevel(mask, len);
        if !ok {
          return;
        }
      }
      ok := true;
    }

    /** Makes the nodes for all strings of `len` bits, counting the key up until it wraps around. */
    method FillLevel(mask: seq<bool>, len: nat) returns (ok: bool)
      requires Valid() && Stored() == map[] && |mask| == w && 0 < len <= w && Leading(mask, 0) == len
      modifies this
      ensures Valid() && Stored() == map[]
      ensures forall q | q in old(at) :: q in at
      ensures ok ==> forall q | |q| == len :: q in at
      ensures !ok ==> freed == [] && room == 0
    {
      var key := NoBits(w);
      ZeroNum(key[..len]);
      while true
        invariant |key| == w && Valid() && Stored() == map[]
        invariant forall q | q in old(at) :: q in at
        invariant Below(at, len, Num(key[..len]))
        invariant NoBits(w)[len..] == key[len..]
        decreases Pow2(len) - Num(key[..len])
      {
        ghost var before := at;
        var r := Insert(key, mask, NO_VALUE);
        if r != Success {
          return false;
        }
        Counted(before, at, key[..len]);
        AddBitNum(key, len - 1);
        NumBound(key[..len]);
        key := AddBit(key, len - 1);
        if key == NoBits(w) {
          AllBelow(at, len);
          return true;
        }
        assert key == key[..len] + key[len..];
        assert NoBits(w) == NoBits(len) + NoBits(w)[len..];
      }
    }
  }

  /** A node made in advance, which has no value: its deletion is reported as done, though nothing was
      stored under the key. */
  method DeletesNothing() returns (ok: bool, ghost stored: map<Path, nat>)
    ensures ok && stored == map[]
  {
    var t := new Tree(1, 8);
    var key, mask := [false], [true];
    assert Leading(mask, 1) == 1;
    assert Prefix(key, mask) == [false];
    var r := t.Insert(key, mask, NO_VALUE);
    stored := t.Stored();
    assert Leaf(t.at, [false]) by {
      assert PathOk(t.nodes, t.at, t.owner, t.w, [false] + [true]);
      assert PathOk(t.nodes, t.at, t.owner, t.w, [false] + [false]);
    }
    ok := t.Delete(key, mask);
  }

  lemma GainPruned(at: map<Path, nat>, m: map<Path, nat>, p: Path, v: nat)
    ensures PrunedBut(at, m, p) && v != NO_VALUE ==> Pruned(at, With(m, p, v))
    ensures Pruned(at, m) && v != NO_VALUE ==> Pruned(at, With(m, p, v))
  {
    if v != NO_VALUE {
      forall q
        ensures PrunedBut(at, m, p) || Pruned(at, m) ==> PrunedAt(at, With(m, p, v), q)
      {
        assert PrunedAt(at, m, q) ==> PrunedAt(at, With(m, p, v), q);
        assert PrunedAt(at, With(m, p, v), p);
      }
    }
  }

  lemma LosePruned(at: map<Path, nat>, m: map<Path, nat>, p: Path)
    requires !Leaf(at, p)
    ensures Pruned(at, m) ==> Pruned(at, m - {p})
  {
    if Pruned(at, m) {
      forall q
        ensures PrunedAt(at, m - {p}, q)
      {
        assert PrunedAt(at, m, q);
      }
    }
  }

  lemma GrowContents(nodes: seq<Node>, at: map<Path, nat>, owner: seq<Owner>, w: nat, n: Node)
    requires PathsOk(nodes, at, owner, w)
    ensures Contents(nodes + [n], at) == Contents(nodes, at)
  {
    forall q
      ensures ValueAt(nodes, at, q) == ValueAt(nodes + [n], at, q)
    {
      assert PathOk(nodes, at, owner, w, q);
    }
    SameContents(nodes, at, nodes + [n], at);
  }
}
