/** The blocks a slab pool has handed out, read off its page table, and what
    holds of them in every tiled page table. */
module SlabBlocks {
  import opened Common
  import opened Rings
  import opened SlabLayout
  import opened SlabPages
  import opened SlabSteps
  import opened SlabChunks

  /** A run of whole pages, or one chunk of a page. */
  datatype Loc = Pages(i: nat, n: nat) | Chunk(i: nat, shift: nat, c: nat) {

    /** Byte offset from the start of the page area. */
    function Start(): nat {
      match this
      case Pages(i, n) => i * PAGE
      case Chunk(i, shift, c) => i * PAGE + c * Pow2(shift)
    }

    function Length(): nat {
      match this
      case Pages(i, n) => n * PAGE
      case Chunk(i, shift, c) => Pow2(shift)
    }

    function End(): nat {
      Start() + Length()
    }
  }

  ghost predicate Live(kind: seq<Kind>, x: Loc) {
    && x.i < |kind|
    && match x
       case Pages(i, n) => kind[i] == Block(n)
       case Chunk(i, shift, c) => kind[i].Chunks? && kind[i].shift == shift && c in kind[i].used
  }

  /** The pages a live block lies in. */
  ghost function LastPageOf(x: Loc): nat {
    match x
    case Pages(i, n) => i + n
    case Chunk(i, _, _) => i + 1
  }

  lemma InItsPages(kind: seq<Kind>, x: Loc)
    requires Tiled(kind) && Live(kind, x)
    ensures x.i * PAGE <= x.Start() && x.End() <= LastPageOf(x) * PAGE && LastPageOf(x) <= |kind|
    ensures x.Length() >= 1
  {
    assert PageFits(kind, x.i);
    if x.Chunk? {
      ClassTable(x.shift);
      ChunkEnd(x.c, Capacity(x.shift), Pow2(x.shift));
    }
  }

  lemma ChunkEnd(c: nat, cap: nat, size: nat)
    requires c < cap
    ensures c * size + size <= cap * size
  {
    assert c * size + size == (c + 1) * size;
    assert (c + 1) * size <= cap * size;
  }

  /** Every live block lies in the pool. */
  lemma LiveInPool(kind: seq<Kind>, x: Loc)
    requires Tiled(kind) && Live(kind, x)
    ensures x.End() <= |kind| * PAGE
  {
    InItsPages(kind, x);
  }

  /** Two live blocks never overlap. */
  lemma LiveDisjoint(kind: seq<Kind>, x: Loc, y: Loc)
    requires Tiled(kind) && Live(kind, x) && Live(kind, y) && x != y
    ensures x.End() <= y.Start() || y.End() <= x.Start()
  {
    InItsPages(kind, x);
    InItsPages(kind, y);
    if x.i == y.i {
      if x.c < y.c {
        ChunkEnd(x.c, y.c, Pow2(x.shift));
      } else {
        ChunkEnd(y.c, x.c, Pow2(x.shift));
      }
    } else if x.i < y.i {
      PagesApart(kind, x, y);
    } else {
      PagesApart(kind, y, x);
    }
  }

  lemma PagesApart(kind: seq<Kind>, x: Loc, y: Loc)
    requires Tiled(kind) && Live(kind, x) && Live(kind, y) && x.i < y.i
    ensures LastPageOf(x) <= y.i
  {
    assert PageFits(kind, x.i);
  }

  /** Every live chunk is aligned to its size and every live page run to a page. */
  lemma LiveAligned(kind: seq<Kind>, x: Loc)
    requires Tiled(kind) && Live(kind, x)
    ensures x.Start() % (if x.Pages? then PAGE else Pow2(x.shift)) == 0
  {
    assert PageFits(kind, x.i);
    if x.Chunk? {
      ClassTable(x.shift);
      AlignedStart(x.i, Capacity(x.shift), Pow2(x.shift), x.c);
    }
  }

  lemma AlignedStart(i: nat, cap: nat, size: nat, c: nat)
    requires size >= 1 && cap * size == PAGE
    ensures (i * PAGE + c * size) % size == 0
  {
    assert i * PAGE == i * cap * size;
    assert i * PAGE + c * size == (i * cap + c) * size;
    MultipleMod(i * cap + c, size);
  }

  lemma MultipleMod(k: nat, size: nat)
    requires size >= 1
    ensures (k * size) % size == 0
  {
    var q, r := (k * size) / size, (k * size) % size;
    assert (k - q) * size == r;
    MulSize(k - q, size);
  }

  lemma MulSize(d: int, size: int)
    requires size >= 1
    ensures d >= 1 ==> d * size >= size
    ensures d <= -1 ==> d * size <= -size
  {
  }

  /** No live chunk overlaps the bitmap at the start of its page. */
  lemma LiveClearOfBitmap(kind: seq<Kind>, x: Loc)
    requires Tiled(kind) && Live(kind, x) && x.Chunk? && x.shift < EXACT_SHIFT
    ensures x.i * PAGE + 8 * MapWords(x.shift) <= x.Start()
  {
    assert PageFits(kind, x.i);
    ClassTable(x.shift);
    assert Reserved(x.shift) * Pow2(x.shift) <= x.c * Pow2(x.shift);
  }

  /** With nothing live the whole pool is one free run, and it is the only one on the list. */
  lemma NothingLive(m: Memory, v: View)
    requires Inv(m, v) && |v.kind| > 0
    requires forall x :: !Live(v.kind, x)
    ensures v.kind[0] == FreeRun(|v.kind|) && v.lists[FreeHead] == [0]
  {
    var kind := v.kind;
    forall i | 0 <= i < |kind| ensures IsFree(kind[i]) {
      AllFree(kind, i);
    }
    assert PageFits(kind, 0);
    assert kind[0] == FreeRun(|kind|);
    var ms := v.lists[FreeHead];
    assert ListOk(m.next, m.prev, FreeHead, ms, v.owner);
    assert v.owner[0] == FreeHead && 0 in ms;
    forall k | 0 <= k < |ms| ensures ms[k] == 0 {
      assert v.owner[ms[k]] == FreeHead && PageFits(kind, ms[k]);
    }
    FirstTwo(ms);
  }

  lemma FirstTwo(ms: seq<nat>)
    requires Distinct(ms)
    ensures |ms| < 2 || ms[0] != ms[1]
  {
  }

  lemma AllFree(kind: seq<Kind>, i: nat)
    requires Tiled(kind) && i < |kind| && (forall x :: !Live(kind, x))
    ensures IsFree(kind[i])
  {
    assert PageFits(kind, i);
    match kind[i]
    case FreeRun(_) =>
    case FreeBody(_) =>
    case Block(n) => assert Live(kind, Pages(i, n));
    case BlockBody(h) => assert Live(kind, Pages(h, kind[h].len));
    case Chunks(shift, used) =>
      var c :| c in used;
      assert Live(kind, Chunk(i, shift, c));
  }

  /** Cutting a block off a free run makes exactly that block live. */
  lemma LiveAfterAlloc(kind: seq<Kind>, f: nat, n: nat, x: Loc)
    requires Tiled(kind) && f < |kind| && kind[f].FreeRun? && 1 <= n <= kind[f].len
    ensures Live(AfterAlloc(kind, f, n), x) <==> Live(kind, x) || x == Pages(f, n)
  {
    assert PageFits(kind, f);
  }

  /** Freeing a block takes exactly that block out of the live ones. */
  lemma LiveAfterFree(kind: seq<Kind>, p: nat, n: nat, x: Loc)
    requires Tiled(kind) && p < |kind| && kind[p] == Block(n)
    ensures Live(AfterFree(kind, p, n), x) <==> Live(kind, x) && x != Pages(p, n)
  {
    LeftFacts(kind, p);
    RightFacts(kind, p, n);
  }

  /** Releasing a chunk takes exactly that chunk out of the live ones, also when its page is freed. */
  lemma LiveAfterRelease(kind: seq<Kind>, i: nat, c: nat, x: Loc)
    requires Tiled(kind) && i < |kind| && kind[i].Chunks? && c in kind[i].used
    ensures Live(AfterRelease(kind, i, c), x) <==> Live(kind, x) && x != Chunk(i, kind[i].shift, c)
  {
    if kind[i].used - {c} == {} {
      assert kind[i].used == {c};
      SwapTiled(kind, i, Block(1));
      LiveAfterFree(kind[i := Block(1)], i, 1, x);
    }
  }

  /** The live block that starts at byte `p`. */
  ghost function LocAt(kind: seq<Kind>, p: nat): Option<Loc>
    requires Tiled(kind) && p < |kind| * PAGE
  {
    var i, off := p / PAGE, p % PAGE;
    assert PageFits(kind, i);
    match kind[i]
    case Block(n) => if off == 0 then Some(Pages(i, n)) else None
    case Chunks(shift, used) =>
      if off % Pow2(shift) == 0 && off / Pow2(shift) in used then Some(Chunk(i, shift, off / Pow2(shift))) else None
    case _ => None
  }

  /** `LocAt` finds the live block that starts at a byte whenever there is one. */
  lemma LocAtIff(kind: seq<Kind>, p: nat, x: Loc)
    requires Tiled(kind) && p < |kind| * PAGE
    ensures LocAt(kind, p) == Some(x) <==> Live(kind, x) && x.Start() == p
  {
    if LocAt(kind, p) == Some(x) {
      LocAtSound(kind, p, x);
    }
    if Live(kind, x) && x.Start() == p {
      LocAtComplete(kind, x);
    }
  }

  lemma LocAtSound(kind: seq<Kind>, p: nat, x: Loc)
    requires Tiled(kind) && p < |kind| * PAGE && LocAt(kind, p) == Some(x)
    ensures Live(kind, x) && x.Start() == p
  {
    var i, off := p / PAGE, p % PAGE;
    assert PageFits(kind, i);
    if x.Chunk? {
      DivModIs(off, Pow2(x.shift));
    }
  }

  lemma DivModIs(a: nat, size: nat)
    requires size >= 1
    ensures a == (a / size) * size + a % size
  {
  }

  lemma LocAtComplete(kind: seq<Kind>, x: Loc)
    requires Tiled(kind) && Live(kind, x)
    ensures x.Start() < |kind| * PAGE && LocAt(kind, x.Start()) == Some(x)
  {
    LiveInPool(kind, x);
    assert PageFits(kind, x.i);
    match x
    case Pages(i, n) => PageSplit(i, 0);
    case Chunk(i, shift, c) =>
      var size := Pow2(shift);
      ClassTable(shift);
      ChunkEnd(c, Capacity(shift), size);
      PageSplit(i, c * size);
      MultipleMod(c, size);
      MultipleDiv(c, size);
  }

  lemma PageSplit(i: nat, off: nat)
    requires off < PAGE
    ensures (i * PAGE + off) / PAGE == i && (i * PAGE + off) % PAGE == off
  {
  }

  lemma MultipleDiv(k: nat, size: nat)
    requires size >= 1
    ensures (k * size) / size == k
  {
    MultipleMod(k, size);
    var q := (k * size) / size;
    assert (k - q) * size == 0;
    MulSize(k - q, size);
  }
}
