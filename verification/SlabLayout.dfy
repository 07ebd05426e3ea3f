/** What a slab pool's pages are used for: the abstract state of the allocator.

    Every page is the head or the body of a free run, the head or the body of
    a multi-page block, or a page cut into chunks of one power-of-two size.
    Byte positions are offsets from the start of the page area, which is
    page-aligned. */
module SlabLayout {
  import opened Common

  const PAGE := 4096
  const PAGE_SHIFT := 12
  const EXACT_SHIFT := 6
  const MIN_SHIFT := 3
  const MAX_SHIFT := 11
  const WORD_BITS := 64

  datatype Kind =
    | FreeRun(len: nat)
    | FreeBody(head: nat)
    | Block(len: nat)
    | BlockBody(head: nat)
    | Chunks(shift: nat, used: set<nat>)

  /** `1 << n` */
  /** Chunks that fit in a page. */
  function Capacity(shift: nat): nat
    requires shift <= PAGE_SHIFT
  {
    Pow2(PAGE_SHIFT - shift)
  }

  /** Chunks at the start of a page that hold its own bitmap (small chunks only). */
  function Reserved(shift: nat): nat
    requires shift <= PAGE_SHIFT
  {
    if shift < EXACT_SHIFT then
      var n := Capacity(shift) / 8 / Pow2(shift);
      if n == 0 then 1 else n
    else 0
  }

  /** Words of the in-page bitmap. */
  function MapWords(shift: nat): nat
    requires shift <= PAGE_SHIFT
  {
    Capacity(shift) / WORD_BITS
  }

  predicate IsShift(shift: nat) {
    MIN_SHIFT <= shift <= MAX_SHIFT
  }

  /** The numbers for every chunk class; the bitmap of a small page fits in its reserved chunks. */
  lemma ClassTable(shift: nat)
    requires IsShift(shift)
    ensures Capacity(shift) * Pow2(shift) == PAGE
    ensures 2 <= Capacity(shift) && Reserved(shift) < Capacity(shift) - 1
    ensures shift < EXACT_SHIFT ==>
      && Capacity(shift) == WORD_BITS * MapWords(shift) && 1 <= Reserved(shift) <= 8
      && 2 <= MapWords(shift) <= 8
      && 8 * MapWords(shift) <= Reserved(shift) * Pow2(shift)
    ensures shift == EXACT_SHIFT ==> Capacity(shift) == 64
    ensures shift > EXACT_SHIFT ==> Capacity(shift) <= 32
    ensures shift == 3 ==> Pow2(shift) == 8 && Capacity(shift) == 512 && Reserved(shift) == 8
    ensures shift == 4 ==> Pow2(shift) == 16 && Capacity(shift) == 256 && Reserved(shift) == 2
    ensures shift == 5 ==> Pow2(shift) == 32 && Capacity(shift) == 128 && Reserved(shift) == 1
    ensures shift == 6 ==> Pow2(shift) == 64
    ensures shift == 7 ==> Pow2(shift) == 128 && Capacity(shift) == 32
    ensures shift == 8 ==> Pow2(shift) == 256 && Capacity(shift) == 16
    ensures shift == 9 ==> Pow2(shift) == 512 && Capacity(shift) == 8
    ensures shift == 10 ==> Pow2(shift) == 1024 && Capacity(shift) == 4
    ensures shift == 11 ==> Pow2(shift) == 2048 && Capacity(shift) == 2
  {
    assert Pow2(0) == 1 && Pow2(1) == 2 && Pow2(2) == 4;
    assert Pow2(3) == 8 && Pow2(4) == 16 && Pow2(5) == 32;
    assert Pow2(6) == 64 && Pow2(7) == 128 && Pow2(8) == 256;
    assert Pow2(9) == 512 && Pow2(10) == 1024 && Pow2(11) == 2048;
    assert shift == 3 || shift == 4 || shift == 5 || shift == 6 || shift == 7 || shift == 8
        || shift == 9 || shift == 10 || shift == 11;
  }

  predicate IsFree(k: Kind) {
    k.FreeRun? || k.FreeBody?
  }

  ghost predicate Full(k: Kind)
    requires k.Chunks? && k.shift <= PAGE_SHIFT
  {
    forall c | Reserved(k.shift) <= c < Capacity(k.shift) :: c in k.used
  }

  /** The page kinds tile the pool; no two free runs touch; no chunk page is empty. */
  ghost predicate PageFits(kind: seq<Kind>, i: nat)
    requires i < |kind|
  {
    match kind[i]
    case FreeRun(len) =>
      && 1 <= len && i + len <= |kind|
      && (forall j | i < j < i + len :: kind[j] == FreeBody(i))
      && (i + len < |kind| ==> !IsFree(kind[i + len]))
    case FreeBody(h) =>
      h < i && kind[h].FreeRun? && i < h + kind[h].len
    case Block(len) =>
      && 1 <= len && i + len <= |kind|
      && (forall j | i < j < i + len :: kind[j] == BlockBody(i))
    case BlockBody(h) =>
      h < i && kind[h].Block? && i < h + kind[h].len
    case Chunks(shift, used) =>
      && IsShift(shift) && used != {}
      && (forall c | c in used :: Reserved(shift) <= c < Capacity(shift))
  }

  ghost predicate Tiled(kind: seq<Kind>) {
    forall i | 0 <= i < |kind| :: PageFits(kind, i)
  }

  /** The first `n` pages of the free run at `f` become a block. */
  ghost function AfterAlloc(kind: seq<Kind>, f: nat, n: nat): seq<Kind>
    requires f < |kind| && kind[f].FreeRun?
  {
    seq(|kind|, j requires 0 <= j < |kind| =>
      if j == f then Block(n)
      else if f < j < f + n then BlockBody(f)
      else if j == f + n < f + kind[f].len then FreeRun(kind[f].len - n)
      else if f + n < j < f + kind[f].len then FreeBody(f + n)
      else kind[j])
  }

  lemma AllocTiled(kind: seq<Kind>, f: nat, n: nat)
    requires Tiled(kind) && f < |kind| && kind[f].FreeRun? && 1 <= n <= kind[f].len
    ensures Tiled(AfterAlloc(kind, f, n))
  {
    var k' := AfterAlloc(kind, f, n);
    forall i | 0 <= i < |k'| ensures PageFits(k', i) {
      if f <= i < f + kind[f].len {
        AllocInside(kind, f, n, i);
      } else {
        AllocOutside(kind, f, n, i);
      }
    }
  }

  /** The pages of the run that is taken. */
  lemma AllocInside(kind: seq<Kind>, f: nat, n: nat, i: nat)
    requires f < |kind| && kind[f].FreeRun? && 1 <= n <= kind[f].len && PageFits(kind, f) && f <= i < f + kind[f].len
    ensures PageFits(AfterAlloc(kind, f, n), i)
  {
  }

  /** The pages before and after it. */
  lemma AllocOutside(kind: seq<Kind>, f: nat, n: nat, i: nat)
    requires Tiled(kind) && f < |kind| && kind[f].FreeRun? && 1 <= n <= kind[f].len
    requires i < |kind| && !(f <= i < f + kind[f].len)
    ensures PageFits(AfterAlloc(kind, f, n), i)
  {
    assert PageFits(kind, f) && PageFits(kind, i);
    match kind[i]
    case FreeRun(len) =>
      if i < f { assert f >= i + len; }
    case FreeBody(h) => assert PageFits(kind, h);
    case Block(len) =>
    case BlockBody(h) => assert PageFits(kind, h);
    case Chunks(_, _) =>
  }

  /** The head of the run a block at `p` joins on its left, or `p`. */
  ghost function JoinHead(kind: seq<Kind>, p: nat): nat
    requires p < |kind|
  {
    if p > 0 && kind[p - 1].FreeRun? then p - 1
    else if p > 0 && kind[p - 1].FreeBody? then kind[p - 1].head
    else p
  }

  /** The end of the run a block ending at `e` joins on its right, or `e`. */
  ghost function JoinEnd(kind: seq<Kind>, e: nat): nat {
    if e < |kind| && kind[e].FreeRun? then e + kind[e].len else e
  }

  /** The block at `p` becomes free and joins the free runs on both sides. */
  ghost function AfterFree(kind: seq<Kind>, p: nat, n: nat): seq<Kind>
    requires p < |kind|
  {
    var h, e := JoinHead(kind, p), JoinEnd(kind, p + n);
    seq(|kind|, j requires 0 <= j < |kind| =>
      if j == h then FreeRun(if e >= h then e - h else 0)
      else if h < j < e then FreeBody(h)
      else kind[j])
  }

  /** What lies left of a block: at most one free run, and no free page beyond. */
  lemma LeftFacts(kind: seq<Kind>, p: nat)
    requires Tiled(kind) && p < |kind| && kind[p].Block?
    ensures var h := JoinHead(kind, p);
            && h <= p
            && (h < p ==> kind[h] == FreeRun(p - h))
            && (forall j | h < j < p :: kind[j] == FreeBody(h))
            && (h > 0 ==> !IsFree(kind[h - 1]))
  {
    var h := JoinHead(kind, p);
    if p > 0 { assert PageFits(kind, p - 1); }
    if h < p { assert PageFits(kind, h); }
    if h > 0 {
      assert PageFits(kind, h - 1);
      assert kind[h - 1].FreeBody? ==> PageFits(kind, kind[h - 1].head);
    }
  }

  /** A page after a block or run that ends at `e` is not the inside of anything. */
  lemma EndFacts(kind: seq<Kind>, i: nat, e: nat)
    requires Tiled(kind) && i < e < |kind|
    requires (kind[i].Block? || kind[i].FreeRun?) && i + kind[i].len == e
    ensures !kind[e].FreeBody? && !kind[e].BlockBody?
  {
    assert PageFits(kind, i) && PageFits(kind, e);
    assert kind[e].FreeBody? || kind[e].BlockBody? ==> PageFits(kind, kind[e].head);
  }

  /** What lies right of a block: at most one free run, and no free page beyond. */
  lemma RightFacts(kind: seq<Kind>, p: nat, n: nat)
    requires Tiled(kind) && p < |kind| && kind[p] == Block(n)
    ensures var e := JoinEnd(kind, p + n);
            && 1 <= n && p + n <= e <= |kind|
            && (forall j | p < j < p + n :: kind[j] == BlockBody(p))
            && (forall j | p + n < j < e :: kind[j] == FreeBody(p + n))
            && (p + n < e ==> kind[p + n] == FreeRun(e - p - n))
            && (e < |kind| ==> !IsFree(kind[e]) && !kind[e].BlockBody?)
  {
    var e := JoinEnd(kind, p + n);
    assert PageFits(kind, p);
    if p + n < |kind| {
      EndFacts(kind, p, p + n);
      assert PageFits(kind, p + n);
      if p + n < e < |kind| { EndFacts(kind, p + n, e); }
    }
  }

  lemma FreeTiled(kind: seq<Kind>, p: nat, n: nat)
    requires Tiled(kind) && p < |kind| && kind[p] == Block(n)
    ensures Tiled(AfterFree(kind, p, n))
  {
    var h, e := JoinHead(kind, p), JoinEnd(kind, p + n);
    var k' := AfterFree(kind, p, n);
    LeftFacts(kind, p);
    RightFacts(kind, p, n);
    forall i | 0 <= i < |k'| ensures PageFits(k', i) {
      if i < h {
        LeftOf(kind, h, i);
        KeepsFit(kind, k', i);
      } else if e <= i {
        RightOf(kind, e, i);
        KeepsFit(kind, k', i);
      } else {
        JoinedFits(kind, p, n, i);
      }
    }
  }

  lemma JoinedFits(kind: seq<Kind>, p: nat, n: nat, i: nat)
    requires Tiled(kind) && p < |kind| && kind[p] == Block(n)
    requires JoinHead(kind, p) <= i < JoinEnd(kind, p + n) && i < |kind|
    ensures PageFits(AfterFree(kind, p, n), i)
  {
    LeftFacts(kind, p);
    RightFacts(kind, p, n);
  }

  /** The page that decides how far the run or block around page `i` extends. */
  ghost function HeadOf(kind: seq<Kind>, i: nat): nat
    requires i < |kind|
  {
    if kind[i].FreeBody? || kind[i].BlockBody? then kind[i].head else i
  }

  /** A page keeps its place when the run or block it belongs to, and what follows a run, is unchanged. */
  lemma KeepsFit(kind: seq<Kind>, k': seq<Kind>, i: nat)
    requires i < |kind| == |k'| && PageFits(kind, i) && k'[i] == kind[i]
    requires HeadOf(kind, i) < |kind| && k'[HeadOf(kind, i)] == kind[HeadOf(kind, i)]
    requires kind[i].FreeRun? || kind[i].Block? ==> forall j | i < j < i + kind[i].len :: k'[j] == kind[j]
    requires kind[i].FreeRun? && i + kind[i].len < |kind| ==> k'[i + kind[i].len] == kind[i + kind[i].len]
    ensures PageFits(k', i)
  {
  }

  /** A page before a boundary at `h` belongs to a run or block that ends at or before `h`. */
  lemma LeftOf(kind: seq<Kind>, h: nat, i: nat)
    requires Tiled(kind) && i < h < |kind| && (kind[h].FreeRun? || kind[h].Block?)
    requires !IsFree(kind[h - 1])
    ensures PageFits(kind, i)
    ensures HeadOf(kind, i) < h
    ensures kind[i].FreeRun? ==> i + kind[i].len < h
    ensures kind[i].Block? ==> i + kind[i].len <= h
  {
    assert PageFits(kind, i);
  }

  /** A page from a boundary at `e` on belongs to a run or block that starts at or after `e`. */
  lemma RightOf(kind: seq<Kind>, e: nat, i: nat)
    requires Tiled(kind) && e <= i < |kind| && !IsFree(kind[e]) && e > 0 && !kind[e].BlockBody?
    ensures PageFits(kind, i)
    ensures e <= HeadOf(kind, i) < |kind|
  {
    assert PageFits(kind, i);
    if kind[i].FreeBody? || kind[i].BlockBody? {
      assert PageFits(kind, kind[i].head);
    }
  }
}
