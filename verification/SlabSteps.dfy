/** Steps that change the use of one page: taking and releasing chunks, cutting
    a fresh page into chunks, and handing an emptied page back. */
module SlabSteps {
  import opened Rings
  import opened SlabLayout
  import opened SlabPages

  /** A page that is a block of its own. */
  predicate Single(k: Kind) {
    k == Block(1) || k.Chunks?
  }

  lemma SwapTiled(kind: seq<Kind>, i: nat, k: Kind)
    requires Tiled(kind) && i < |kind| && Single(kind[i]) && Single(k) && PageFits(kind[i := k], i)
    ensures Tiled(kind[i := k])
  {
    var k' := kind[i := k];
    forall j | 0 <= j < |k'| ensures PageFits(k', j) {
      assert PageFits(kind, j);
      if j != i {
        assert HeadOf(kind, j) != i;
        KeepsFit2(kind, k', i, j);
      }
    }
  }

  lemma KeepsFit2(kind: seq<Kind>, k': seq<Kind>, i: nat, j: nat)
    requires |kind| == |k'| && i < |kind| && j < |kind| && i != j && k' == kind[i := k'[i]]
    requires PageFits(kind, j) && Single(kind[i]) && Single(k'[i]) && HeadOf(kind, j) != i
    ensures PageFits(k', j)
  {
  }

  /** The conditions under which a step on page `i` alone is sound: the other pages keep their
      descriptors, the lists are still lists, and page `i` is on `h` or, if that is Null, on none. */
  ghost predicate OnePage(m: Memory, m': Memory, v: View, lists': Lists, i: nat, h: Node) {
    && Inv(m, v) && i < |v.kind| && Single(v.kind[i])
    && Shaped(m', |v.kind|) && KeepsPages(m, m', v.owner, i, i + 1)
    && AllRings(m'.next, m'.prev, lists', v.owner[i := h]) && Covered(lists', v.owner[i := h])
  }

  lemma OthersOk(m: Memory, m': Memory, v: View, lists': Lists, i: nat, h: Node, j: nat)
    requires OnePage(m, m', v, lists', i, h) && j < |v.kind| && j != i
    ensures PageOk(m', v.kind, j)
  {
    assert PageFits(v.kind, j) && PageOk(m, v.kind, j);
    OtherOk(m, m', v.kind, v.owner, i, j);
  }

  lemma OtherOk(m: Memory, m': Memory, kind: seq<Kind>, owner: seq<Node>, i: nat, j: nat)
    requires |owner| == |kind| && Shaped(m, |kind|) && Shaped(m', |kind|) && KeepsPages(m, m', owner, i, i + 1)
    requires i < |kind| && Single(kind[i]) && j < |kind| && j != i && PageFits(kind, j) && PageOk(m, kind, j)
    requires forall k | 0 <= k < |kind| :: owner[k] == Home(kind[k])
    ensures PageOk(m', kind, j)
  {
    if kind[j].FreeRun? && 2 <= kind[j].len {
      var t := j + kind[j].len - 1;
      assert kind[t] == FreeBody(j) && owner[t] == Null;
    }
    PageOkFrame(m, m', kind, j);
  }

  /** After a step on page `i` the invariant holds for its new use. */
  lemma StepInv(m: Memory, m': Memory, v: View, lists': Lists, i: nat, k: Kind)
    requires OnePage(m, m', v, lists', i, Home(k)) && Single(k)
    requires PageFits(v.kind[i := k], i) && PageOk(m', v.kind[i := k], i)
    ensures Inv(m', View(v.kind[i := k], lists', v.owner[i := Home(k)]))
  {
    SwapTiled(v.kind, i, k);
    var k' := v.kind[i := k];
    forall j | 0 <= j < |k'| ensures PageOk(m', k', j) {
      if j != i {
        OthersOk(m, m', v, lists', i, Home(k), j);
        SamePageOk(m', v.kind, k', j);
      }
    }
  }

  /** After page `i` has lost its last chunk it is ready to be freed as a block of one page. */
  lemma StepLeaving(m: Memory, m': Memory, v: View, lists': Lists, i: nat, h: Node)
    requires OnePage(m, m', v, lists', i, h) && IsHead(h)
    ensures Leaving(m', View(v.kind[i := Block(1)], lists', v.owner[i := h]), i, 1)
  {
    SwapTiled(v.kind, i, Block(1));
    var k' := v.kind[i := Block(1)];
    forall j | 0 <= j < |k'| && j != i ensures PageOk(m', k', j) {
      OthersOk(m, m', v, lists', i, h, j);
      SamePageOk(m', v.kind, k', j);
    }
  }
}
