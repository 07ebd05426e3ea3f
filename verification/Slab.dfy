/** The slab allocator: a pool object with allocation and release by byte
    offset.  The words are 64 bits, the pages 4096 bytes and the smallest chunk
    8 bytes, the only smallest chunk the program ever configures. */
module Slab {
  import opened Common
  import opened Rings
  import opened SlabLayout
  import opened SlabPages
  import opened SlabChunks
  import opened SlabBlocks

  const MAX_CHUNK := 2048
  const MIN_CHUNK := 8

  /** The whole pages needed for `size` bytes. */
  function PagesFor(size: nat): nat {
    size / PAGE + (if size % PAGE != 0 then 1 else 0)
  }

  /** `shift` is the chunk class of `size`: the smallest one that is large enough. */
  ghost predicate IsClass(shift: nat, size: nat) {
    IsShift(shift) && size <= Pow2(shift) && (shift == MIN_SHIFT || Pow2(shift - 1) < size)
  }

  /** Some page of this class has a free chunk. */
  ghost predicate PartlyUsed(kind: seq<Kind>, shift: nat) {
    exists i :: 0 <= i < |kind| && kind[i].Chunks? && kind[i].shift == shift && IsShift(shift) && !Full(kind[i])
  }

  ghost predicate HasRun(kind: seq<Kind>, n: nat) {
    exists i :: 0 <= i < |kind| && kind[i].FreeRun? && kind[i].len >= n
  }

  /** The block `x` is what a request for `size` bytes is owed. */
  ghost predicate Suits(x: Loc, size: nat) {
    && size <= x.Length()
    && match x
       case Pages(_, n) => size > MAX_CHUNK && n == PagesFor(size)
       case Chunk(_, shift, _) => size <= MAX_CHUNK && IsClass(shift, size)
  }

  /** When a request may be refused. */
  ghost predicate Exhausted(kind: seq<Kind>, size: nat) {
    if size > MAX_CHUNK then !HasRun(kind, PagesFor(size))
    else !HasRun(kind, 1) && forall shift | IsClass(shift, size) :: !PartlyUsed(kind, shift)
  }

  /** Binary digits of `a`. */
  ghost function BitLen(a: nat): nat {
    if a == 0 then 0 else 1 + BitLen(a / 2)
  }

  lemma {:induction false} BitLenBounds(a: nat)
    ensures a < Pow2(BitLen(a)) && (a >= 1 ==> Pow2(BitLen(a) - 1) <= a)
  {
    if a >= 1 {
      var h := a / 2;
      BitLenBounds(h);
      var n := BitLen(h);
      assert BitLen(a) == n + 1;
      assert Pow2(n + 1) == 2 * Pow2(n);
      if h >= 1 { assert Pow2(n) == 2 * Pow2(n - 1); }
    }
  }

  /** The chunk class of a size, found by counting shifts. */
  method SizeClass(size: nat) returns (shift: nat)
    requires size <= MAX_CHUNK
    ensures IsClass(shift, size)
  {
    if size > MIN_CHUNK {
      shift := 1;
      var s: nat := (size - 1) / 2;
      while s != 0
        invariant 1 <= shift && shift + BitLen(s) == BitLen(size - 1)
        decreases s
      {
        s := s / 2;
        shift := shift + 1;
      }
      BitLenBounds(size - 1);
      ClassBounds(shift, size);
    } else {
      shift := MIN_SHIFT;
      ClassTable(shift);
    }
  }

  lemma ClassBounds(shift: nat, size: nat)
    requires MIN_CHUNK < size <= MAX_CHUNK && 1 <= shift && size <= Pow2(shift) && Pow2(shift - 1) < size
    ensures IsClass(shift, size)
  {
    ClassTable(MIN_SHIFT);
    ClassTable(MAX_SHIFT);
    Pow2Mono(MAX_SHIFT, shift - 1);
    Pow2Mono(shift, MIN_SHIFT);
  }

  lemma Pow2Mono(a: nat, b: nat)
    ensures a <= b ==> Pow2(a) <= Pow2(b)
    decreases b
  {
    if a < b { Pow2Mono(a, b - 1); }
  }

  /** Why the release of an offset is refused, or that it is accepted. */
  datatype Verdict = Freed | Outside | WrongChunk | ChunkFree | PageFree | WrongPage

  /** The descriptor's tag and its `slab` word agree. */
  ghost predicate Readable(m: Memory, i: nat) {
    && i < |m.slab| == |m.words| && IsPageWords(m.words[i])
    && match Back(m.prev, Page(i)).tag
       case TagSmall => m.slab[i].Shift? && MIN_SHIFT <= m.slab[i].shift < EXACT_SHIFT
       case TagExact => m.slab[i].Map? && |m.slab[i].bits| == 64
       case TagBig => m.slab[i].BigMap? && EXACT_SHIFT < m.slab[i].shift <= MAX_SHIFT && |m.slab[i].bits| == 32
       case TagPage => true
  }

  lemma InvReadable(m: Memory, v: View, i: nat)
    requires Inv(m, v) && i < |v.kind|
    ensures Readable(m, i)
    ensures v.kind[i].Chunks? <==> Back(m.prev, Page(i)).tag != TagPage
    ensures v.kind[i].Chunks? ==> IsShift(v.kind[i].shift) && Back(m.prev, Page(i)).tag == HeadTag(SlotOf(v.kind[i].shift))
  {
    assert PageOk(m, v.kind, i) && PageFits(v.kind, i);
    if IsHead(v.owner[i]) {
      ListedWords(m, v, i);
    }
  }

  lemma OffsetChunk(off: nat, shift: nat)
    requires IsShift(shift) && off < PAGE
    ensures 0 <= off / Pow2(shift) < Capacity(shift)
  {
    QuotientBelow(off, shift);
    NotNegative(off, Pow2(shift));
  }

  lemma QuotientBelow(off: nat, shift: nat)
    requires IsShift(shift) && off < PAGE
    ensures off / Pow2(shift) < Capacity(shift)
  {
    ClassTable(shift);
  }

  lemma NotNegative(a: nat, d: nat)
    requires d > 0
    ensures a / d >= 0
  {
  }

  /** The tests made before anything is released, on the descriptor of the page at offset `p`. */
  function Check(m: Memory, p: nat): Verdict
    requires Readable(m, p / PAGE)
  {
    CheckAt(m, p / PAGE, p % PAGE)
  }

  function CheckAt(m: Memory, i: nat, off: nat): Verdict
    requires Readable(m, i) && off < PAGE
  {
    match Back(m.prev, Page(i)).tag
    case TagSmall =>
      var shift := m.slab[i].shift;
      OffsetChunk(off, shift);
      ClassTable(shift);
      var c := off / Pow2(shift);
      if off % Pow2(shift) != 0 then WrongChunk
      else if m.words[i][c / WORD_BITS][c % WORD_BITS] then Freed else ChunkFree
    case TagExact =>
      if off % 64 != 0 then WrongChunk
      else if m.slab[i].bits[off / 64] then Freed else ChunkFree
    case TagBig =>
      var shift := m.slab[i].shift;
      OffsetChunk(off, shift);
      ClassTable(shift);
      if off % Pow2(shift) != 0 then WrongChunk
      else if m.slab[i].bits[off / Pow2(shift)] then Freed else ChunkFree
    case TagPage =>
      if off != 0 then WrongChunk
      else if m.slab[i] == Count(0) then PageFree
      else if m.slab[i] == Busy then WrongPage
      else Freed
  }

  /** The bad offsets that pass the tests: the first page of a free run, and a chunk that holds the
      page's own bitmap. */
  ghost predicate Undetected(kind: seq<Kind>, p: nat)
    requires Tiled(kind) && p < |kind| * PAGE
  {
    var i, off := p / PAGE, p % PAGE;
    assert PageFits(kind, i);
    || (kind[i].FreeRun? && off == 0)
    || (kind[i].Chunks? && off % Pow2(kind[i].shift) == 0 && off / Pow2(kind[i].shift) < Reserved(kind[i].shift))
  }

  /** The tests accept exactly the starts of live blocks and the undetected offsets. */
  lemma CheckIff(m: Memory, v: View, p: nat)
    requires Inv(m, v) && p < |v.kind| * PAGE
    ensures Readable(m, p / PAGE)
    ensures Check(m, p) == Freed <==> LocAt(v.kind, p).Some? || Undetected(v.kind, p)
  {
    var i := p / PAGE;
    InvReadable(m, v, i);
    assert PageOk(m, v.kind, i) && PageFits(v.kind, i);
    if v.kind[i].Chunks? {
      CheckChunk(m, v, i, p % PAGE);
    }
  }

  lemma CheckChunk(m: Memory, v: View, i: nat, off: nat)
    requires Inv(m, v) && i < |v.kind| && v.kind[i].Chunks? && off < PAGE
    requires IsShift(v.kind[i].shift) && Back(m.prev, Page(i)).tag == HeadTag(SlotOf(v.kind[i].shift))
    requires Readable(m, i)
    ensures var shift, used := v.kind[i].shift, v.kind[i].used;
            CheckAt(m, i, off) == Freed <==>
              off % Pow2(shift) == 0 && (off / Pow2(shift) < Reserved(shift) || off / Pow2(shift) in used)
  {
    assert PageOk(m, v.kind, i);
    OffsetChunk(off, v.kind[i].shift);
    var c := off / Pow2(v.kind[i].shift);
    BitIs(m, v.kind[i].shift, v.kind[i].used, i, c);
    ClassTable(v.kind[i].shift);
  }

  /** The bit of a chunk in its page's bitmap. */
  lemma BitIs(m: Memory, shift: nat, used: set<nat>, i: nat, c: nat)
    requires i < |m.slab| == |m.words| && IsPageWords(m.words[i]) && IsShift(shift) && c < Capacity(shift)
    requires Encodes(m.slab[i], m.words[i], shift, used)
    ensures shift < EXACT_SHIFT ==>
              c / WORD_BITS < PAGE_WORDS && (m.words[i][c / WORD_BITS][c % WORD_BITS] <==> c < Reserved(shift) || c in used)
    ensures shift == EXACT_SHIFT ==> m.slab[i].Map? && |m.slab[i].bits| == 64 && (m.slab[i].bits[c] <==> c in used)
    ensures shift > EXACT_SHIFT ==> m.slab[i].BigMap? && c < |m.slab[i].bits| && (m.slab[i].bits[c] <==> c in used)
  {
    ClassTable(shift);
    if shift < EXACT_SHIFT {
      assert SmallBit(m.words[i], c) <==> c < Reserved(shift) || c in used;
    }
  }

  /** Exactly the block `x` has become live. */
  ghost predicate Gained(kind: seq<Kind>, kind': seq<Kind>, x: Loc) {
    |kind'| == |kind| && !Live(kind, x) && forall y :: Live(kind', y) <==> Live(kind, y) || y == x
  }

  /** Exactly the block `x` is no longer live. */
  ghost predicate Lost(kind: seq<Kind>, kind': seq<Kind>, x: Loc) {
    |kind'| == |kind| && Live(kind, x) && forall y :: Live(kind', y) <==> Live(kind, y) && y != x
  }

  lemma GainedPages(kind: seq<Kind>, f: nat, n: nat)
    requires Tiled(kind) && f < |kind| && kind[f].FreeRun? && 1 <= n <= kind[f].len
    ensures Gained(kind, AfterAlloc(kind, f, n), Pages(f, n))
  {
    forall y ensures Live(AfterAlloc(kind, f, n), y) <==> Live(kind, y) || y == Pages(f, n) {
      LiveAfterAlloc(kind, f, n, y);
    }
  }

  lemma GainedFresh(kind: seq<Kind>, f: nat, shift: nat)
    requires Tiled(kind) && f < |kind| && kind[f].FreeRun? && 1 <= kind[f].len && IsShift(shift)
    ensures Gained(kind, AfterAlloc(kind, f, 1)[f := Chunks(shift, {Reserved(shift)})], Chunk(f, shift, Reserved(shift)))
  {
    var kind' := AfterAlloc(kind, f, 1)[f := Chunks(shift, {Reserved(shift)})];
    forall y ensures Live(kind', y) <==> Live(kind, y) || y == Chunk(f, shift, Reserved(shift)) {
      LiveAfterAlloc(kind, f, 1, y);
    }
  }

  lemma LostRelease(kind: seq<Kind>, i: nat, c: nat)
    requires Tiled(kind) && i < |kind| && kind[i].Chunks? && c in kind[i].used
    ensures Lost(kind, AfterRelease(kind, i, c), Chunk(i, kind[i].shift, c))
  {
    forall y ensures Live(AfterRelease(kind, i, c), y) <==> Live(kind, y) && y != Chunk(i, kind[i].shift, c) {
      LiveAfterRelease(kind, i, c, y);
    }
  }

  lemma LostPages(kind: seq<Kind>, p: nat, n: nat)
    requires Tiled(kind) && p < |kind| && kind[p] == Block(n)
    ensures Lost(kind, AfterFree(kind, p, n), Pages(p, n))
  {
    forall y ensures Live(AfterFree(kind, p, n), y) <==> Live(kind, y) && y != Pages(p, n) {
      LiveAfterFree(kind, p, n, y);
    }
  }

  /** A class is determined by the size. */
  lemma ClassUnique(s: nat, t: nat, size: nat)
    requires IsClass(s, size) && IsClass(t, size)
    ensures s == t
  {
    Pow2Mono(s, t - 1);
    Pow2Mono(t, s - 1);
  }

  lemma GainedChunk(kind: seq<Kind>, i: nat, c: nat)
    requires i < |kind| && kind[i].Chunks? && c !in kind[i].used
    ensures Gained(kind, kind[i := Chunks(kind[i].shift, kind[i].used + {c})], Chunk(i, kind[i].shift, c))
  {
  }

  lemma NoPartly(kind: seq<Kind>, shift: nat, f: nat)
    requires IsShift(shift) && !PartlyUsed(kind, shift) && f < |kind| && kind[f].FreeRun?
    ensures forall j | 0 <= j < |kind| :: Home(AfterAlloc(kind, f, 1)[j]) != SlotOf(shift)
  {
    forall j | 0 <= j < |kind| ensures Home(AfterAlloc(kind, f, 1)[j]) != SlotOf(shift) {
      var k := AfterAlloc(kind, f, 1)[j];
      assert k.Chunks? ==> k == kind[j];
    }
  }

  /** Pages and lists after `n` pages were taken from the first run that is long enough, the one at `f`. */
  ghost predicate PagesTaken(v: View, v': View, n: nat, f: nat) {
    && f < |v.kind| && v.kind[f].FreeRun? && v'.kind == AfterAlloc(v.kind, f, n)
    && Took(v.kind, v.lists, n, f, v'.lists)
  }

  /** The same for one page that was cut into chunks: it is the only page on the list of its slot. */
  ghost predicate PageCut(v: View, v': View, shift: nat, f: nat) {
    && IsShift(shift) && f < |v.kind| && v.kind[f].FreeRun?
    && v'.kind == AfterAlloc(v.kind, f, 1)[f := Chunks(shift, {Reserved(shift)})]
    && var h := SlotOf(shift);
       h in v.lists && v.lists[h] == [] && h in v'.lists && v'.lists[h] == [f] && Took(v.kind, v.lists, 1, f, v'.lists[h := []])
  }

  /** A chunk is the lowest one that is free on the first page of the list of its slot, or on a fresh page
      if that list is empty. */
  ghost predicate ChunkTaken(v: View, v': View, x: Loc) {
    && x.Chunk? && IsShift(x.shift) && SlotOf(x.shift) in v.lists
    && if v.lists[SlotOf(x.shift)] == [] then x.c == Reserved(x.shift) && PageCut(v, v', x.shift, x.i)
       else OnFirstPage(v, v', x)
  }

  ghost predicate OnFirstPage(v: View, v': View, x: Loc)
    requires x.Chunk? && IsShift(x.shift) && SlotOf(x.shift) in v.lists && v.lists[SlotOf(x.shift)] != []
  {
    && x.i == v.lists[SlotOf(x.shift)][0] && x.i < |v.kind| && v.kind[x.i].Chunks? && v.kind[x.i].shift == x.shift
    && x.c >= Reserved(x.shift) && x.c !in v.kind[x.i].used
    && (forall j | Reserved(x.shift) <= j < x.c :: j in v.kind[x.i].used)
    && v'.kind == v.kind[x.i := Chunks(x.shift, v.kind[x.i].used + {x.c})]
    && v'.lists == TakenLists(v.lists, v'.kind, x.i, x.shift)
  }

  /** The first chunk of a fresh page. */
  method FreshChunk(m: Memory, shift: nat, ghost v: View) returns (r: Option<Loc>, m': Memory, ghost v': View)
    requires Inv(m, v) && IsShift(shift) && !PartlyUsed(v.kind, shift) && v.lists[SlotOf(shift)] == []
    ensures Inv(m', v')
    ensures r.None? ==> m' == m && v' == v && !HasRun(v.kind, 1)
    ensures r.Some? ==> r.value.Chunk? && r.value.shift == shift && Gained(v.kind, v'.kind, r.value)
    ensures r.Some? ==> r.value.c == Reserved(shift) && PageCut(v, v', shift, r.value.i)
  {
    var f;
    f, m', v' := AllocPages(m, 1, v);
    if f.None? {
      r := None;
    } else {
      GainedFresh(v.kind, f.value, shift);
      NoPartly(v.kind, shift, f.value);
      ghost var lists := v'.lists;
      m', v' := CutPage(m', f.value, shift, v');
      SlotApart(v.lists, lists, v'.lists, SlotOf(shift), f.value, v.kind);
      r := Some(Chunk(f.value, shift, Reserved(shift)));
    }
  }

  lemma SlotApart(l0: Lists, l1: Lists, l2: Lists, h: Node, f: nat, kind: seq<Kind>)
    requires h in l0 && l0[h] == [] && h.Slot? && Took(kind, l0, 1, f, l1) && l2 == l1[h := [f]]
    ensures h in l2 && l2[h] == [f] && l2[h := []] == l1
  {
  }

  /** A chunk from a partly used page of the class if there is one, else from a fresh page. */
  method AllocChunk(m: Memory, shift: nat, ghost v: View) returns (r: Option<Loc>, m': Memory, ghost v': View)
    requires Inv(m, v) && IsShift(shift)
    ensures Inv(m', v')
    ensures r.None? ==> m' == m && v' == v && !HasRun(v.kind, 1) && !PartlyUsed(v.kind, shift)
    ensures r.Some? ==> r.value.Chunk? && r.value.shift == shift && Gained(v.kind, v'.kind, r.value)
    ensures r.Some? ==> ChunkTaken(v, v', r.value)
  {
    var h := SlotOf(shift);
    FirstListed(m, v, h);
    ListedIffPartly(m, v, shift);
    var page := Next(m.next, h);
    if Next(m.next, page) != page {
      HomeSlot(v.kind[page.i], shift);
      var c;
      c, m', v' := TakeChunk(m, page.i, shift, v);
      GainedChunk(v.kind, page.i, c);
      r := Some(Chunk(page.i, shift, c));
    } else {
      r, m', v' := FreshChunk(m, shift, v);
    }
  }

  /** The list of a slot is empty exactly when no page of its class is partly used. */
  lemma ListedIffPartly(m: Memory, v: View, shift: nat)
    requires Inv(m, v) && IsShift(shift)
    ensures v.lists[SlotOf(shift)] != [] <==> PartlyUsed(v.kind, shift)
  {
    var h := SlotOf(shift);
    FirstListed(m, v, h);
    if PartlyUsed(v.kind, shift) {
      var i :| 0 <= i < |v.kind| && v.kind[i].Chunks? && v.kind[i].shift == shift && !Full(v.kind[i]);
      assert v.owner[i] == h;
      var k := Position(v.lists, v.owner, i);
    }
    if v.lists[h] != [] {
      var i := v.lists[h][0];
      HomeSlot(v.kind[i], shift);
    }
  }

  lemma HomeSlot(k: Kind, shift: nat)
    requires IsShift(shift) && Home(k) == SlotOf(shift)
    ensures k.Chunks? && k.shift == shift && !Full(k)
  {
  }

  const DESCRIPTOR := 24
  const SLOTS := 9

  lemma AlignIs(a: nat, n: nat)
    requires n >= 1
    ensures a <= Align(a, n) < a + n && Align(a, n) % n == 0
  {
    DivModIs(a + n - 1, n);
    MultipleMod((a + n - 1) / n, n);
  }

  /** Where the page area of a pool starts and how many pages it has, given the addresses of the
      pool, of the end of its segment, and the size of the pool header. */
  function Geometry(base: nat, header: nat, end: nat): (g: (nat, nat))
    requires base + header + 3 * (PAGE + DESCRIPTOR) <= end
    ensures g.0 % PAGE == 0 && 1 <= g.1 && g.0 + g.1 * PAGE <= end
    ensures base + header + SLOTS * DESCRIPTOR + g.1 * DESCRIPTOR <= g.0
    ensures g.1 == (end - (base + header)) / (PAGE + DESCRIPTOR) || g.1 == (end - g.0) / PAGE
  {
    var p := base + header;
    var size := end - p;
    var pages := size / (PAGE + DESCRIPTOR);
    var start := Align(p + SLOTS * DESCRIPTOR + pages * DESCRIPTOR, PAGE);
    AlignIs(p + SLOTS * DESCRIPTOR + pages * DESCRIPTOR, PAGE);
    var m := pages - (end - start) / PAGE;
    (start, if m > 0 then pages - m else pages)
  }

  /** A pool of `n` free pages, as it is laid out at the start. */
  function InitialMemory(n: nat): Memory
    requires n >= 1
  {
    Memory(map[FreeHead := Page(0), Page(0) := FreeHead,
               Slot(0) := Slot(0), Slot(1) := Slot(1), Slot(2) := Slot(2), Slot(3) := Slot(3), Slot(4) := Slot(4),
               Slot(5) := Slot(5), Slot(6) := Slot(6), Slot(7) := Slot(7), Slot(8) := Slot(8)],
           map[Page(0) := Prev(FreeHead, TagPage)],
           seq(n, i => if i == 0 then Count(n) else Count(0)),
           seq(n, i => seq(PAGE_WORDS, k => seq(WORD_BITS, b => false))))
  }

  ghost function InitialView(n: nat): View
    requires n >= 1
  {
    View(seq(n, i => if i == 0 then FreeRun(n) else FreeBody(0)),
         map[FreeHead := [0], Slot(0) := [], Slot(1) := [], Slot(2) := [], Slot(3) := [], Slot(4) := [],
             Slot(5) := [], Slot(6) := [], Slot(7) := [], Slot(8) := []],
         seq(n, i => if i == 0 then FreeHead else Null))
  }

  lemma InitialRing(n: nat, h: Node)
    requires n >= 1 && IsHead(h)
    ensures var m, v := InitialMemory(n), InitialView(n);
            h in v.lists && ListOk(m.next, m.prev, h, v.lists[h], v.owner)
  {
    var m := InitialMemory(n);
    assert h == FreeHead ==> LinkOk(m.next, m.prev, h, [0], TagPage, 0);
  }

  lemma InitialRings(n: nat)
    requires n >= 1
    ensures var m, v := InitialMemory(n), InitialView(n);
            AllRings(m.next, m.prev, v.lists, v.owner) && Covered(v.lists, v.owner)
  {
    var m, v := InitialMemory(n), InitialView(n);
    forall h | IsHead(h)
      ensures h in v.lists && ListOk(m.next, m.prev, h, v.lists[h], v.owner)
    {
      InitialRing(n, h);
    }
  }

  lemma InitialPages(n: nat)
    requires n >= 1
    ensures var m, v := InitialMemory(n), InitialView(n);
            && Shaped(m, n) && Tiled(v.kind)
            && forall i | 0 <= i < n :: v.owner[i] == Home(v.kind[i]) && PageOk(m, v.kind, i)
  {
    var m, v := InitialMemory(n), InitialView(n);
    assert Shaped(m, n);
    forall i | 0 <= i < n
      ensures PageFits(v.kind, i) && PageOk(m, v.kind, i)
    {
    }
  }

  lemma InitialInv(n: nat)
    requires n >= 1
    ensures Inv(InitialMemory(n), InitialView(n))
  {
    InitialRings(n);
    InitialPages(n);
  }

  /** Freeing the first page of a fresh pool passes the tests, though nothing is live there. */
  lemma FreePagePasses(n: nat)
    requires n >= 1
    ensures Inv(InitialMemory(n), InitialView(n)) && Readable(InitialMemory(n), 0)
    ensures Check(InitialMemory(n), 0) == Freed && LocAt(InitialView(n).kind, 0) == None
    ensures Undetected(InitialView(n).kind, 0)
  {
    InitialInv(n);
    CheckIff(InitialMemory(n), InitialView(n), 0);
  }

  /** So does freeing the start of a page that has its bitmap there. */
  lemma BitmapPasses(m: Memory, v: View, i: nat)
    requires Inv(m, v) && i < |v.kind| && v.kind[i].Chunks? && v.kind[i].shift < EXACT_SHIFT
    ensures Readable(m, i) && Check(m, i * PAGE) == Freed && LocAt(v.kind, i * PAGE) == None
    ensures Undetected(v.kind, i * PAGE)
  {
    assert PageFits(v.kind, i);
    CheckIff(m, v, i * PAGE);
  }

  /** The first allocation of 8 bytes in a fresh pool leaves such a page. */
  method BitmapReached(n: nat) returns (r: Option<Loc>, m: Memory, ghost v: View)
    requires n >= 1
    ensures r.Some? && r.value.i < |v.kind| && Inv(m, v) && Readable(m, r.value.i)
    ensures Check(m, r.value.i * PAGE) == Freed && LocAt(v.kind, r.value.i * PAGE) == None
  {
    InitialInv(n);
    assert !PartlyUsed(InitialView(n).kind, MIN_SHIFT);
    assert InitialView(n).kind[0] == FreeRun(n);
    r, m, v := FreshChunk(InitialMemory(n), MIN_SHIFT, InitialView(n));
    assert Live(v.kind, r.value);
    BitmapPasses(m, v, r.value.i);
  }

  /** A store into a live block does not disturb the allocator: no bitmap is written. */
  lemma StoreKeepsInv(m: Memory, v: View, x: Loc, i: nat, k: nat, w: seq<bool>)
    requires Inv(m, v) && Live(v.kind, x) && i < |v.kind| && k < PAGE_WORDS && |w| == WORD_BITS
    requires x.Start() <= i * PAGE + 8 * k && i * PAGE + 8 * k + 8 <= x.End()
    ensures Inv(m.(words := m.words[i := m.words[i][k := w]]), v)
  {
    var m' := m.(words := m.words[i := m.words[i][k := w]]);
    StorePage(v.kind, x, i, k);
    assert IsPageWords(m.words[i]);
    assert Shaped(m', |v.kind|);
    forall j | 0 <= j < |v.kind| ensures PageOk(m', v.kind, j) {
      assert PageOk(m, v.kind, j);
      if j == i && v.kind[i].Chunks? {
        StoredEncodes(m.slab[i], m.words[i], v.kind[i].shift, v.kind[i].used, k, w);
      }
    }
  }

  /** The page a store into a live block goes to: not a page with an in-page bitmap, or past it. */
  lemma StorePage(kind: seq<Kind>, x: Loc, i: nat, k: nat)
    requires Tiled(kind) && Live(kind, x) && i < |kind| && k < PAGE_WORDS
    requires x.Start() <= i * PAGE + 8 * k && i * PAGE + 8 * k + 8 <= x.End()
    ensures kind[i].Chunks? ==> IsShift(kind[i].shift) && (kind[i].shift < EXACT_SHIFT ==> k >= MapWords(kind[i].shift))
  {
    InItsPages(kind, x);
    assert PageFits(kind, x.i) && PageFits(kind, i);
    assert x.i <= i < LastPageOf(x);
    if x.Chunk? && x.shift < EXACT_SHIFT {
      LiveClearOfBitmap(kind, x);
    }
  }

  lemma StoredEncodes(w0: SlabWord, ws: seq<seq<bool>>, shift: nat, used: set<nat>, k: nat, w: seq<bool>)
    requires IsShift(shift) && IsPageWords(ws) && Encodes(w0, ws, shift, used)
    requires k < PAGE_WORDS && |w| == WORD_BITS && (shift < EXACT_SHIFT ==> k >= MapWords(shift))
    ensures IsPageWords(ws[k := w]) && Encodes(w0, ws[k := w], shift, used)
  {
    ClassTable(shift);
    if shift < EXACT_SHIFT {
      forall c | 0 <= c < Capacity(shift) ensures SmallBit(ws[k := w], c) == SmallBit(ws, c) {
        assert c / WORD_BITS < MapWords(shift);
      }
    }
  }

  /** Pages and lists after the block `x` was released: freed pages have joined their neighbours at the front
      of the list of free runs, and a page that was full is first on the list of its slot. */
  ghost predicate Released(v: View, v': View, x: Loc) {
    match x
    case Pages(i, n) =>
      i < |v.kind| && v'.kind == AfterFree(v.kind, i, n) && v'.lists == FreedLists(v.lists, Null, i, n, JoinHead(v.kind, i))
    case Chunk(i, shift, c) =>
      && i < |v.kind| && v.kind[i].Chunks? && v.kind[i].shift == shift && IsShift(shift)
      && v'.kind == AfterRelease(v.kind, i, c) && v'.lists == ReleasedLists(v.lists, v.kind, i, c)
  }

  /** Whole pages. */
  method AllocLarge(m: Memory, size: nat, ghost v: View) returns (p: Option<nat>, ghost x: Loc, m': Memory, ghost v': View)
    requires Inv(m, v) && size > MAX_CHUNK
    ensures Inv(m', v') && |v'.kind| == |v.kind|
    ensures p.None? ==> m' == m && v' == v && Exhausted(v.kind, size)
    ensures p.Some? ==> p.value == x.Start() && Suits(x, size) && Gained(v.kind, v'.kind, x)
    ensures p.Some? ==> PagesTaken(v, v', PagesFor(size), x.i)
  {
    var f;
    f, m', v' := AllocPages(m, PagesFor(size), v);
    if f.Some? {
      GainedPages(v.kind, f.value, PagesFor(size));
      x := Pages(f.value, PagesFor(size));
      p := Some(f.value * PAGE);
    } else {
      p, x := None, Pages(0, 0);
    }
  }

  /** A chunk. */
  method AllocSmall(m: Memory, size: nat, ghost v: View) returns (p: Option<nat>, ghost x: Loc, m': Memory, ghost v': View)
    requires Inv(m, v) && size <= MAX_CHUNK
    ensures Inv(m', v') && |v'.kind| == |v.kind|
    ensures p.None? ==> m' == m && v' == v && Exhausted(v.kind, size)
    ensures p.Some? ==> p.value == x.Start() && Suits(x, size) && Gained(v.kind, v'.kind, x)
    ensures p.Some? ==> ChunkTaken(v, v', x)
  {
    var shift := SizeClass(size);
    var r;
    r, m', v' := AllocChunk(m, shift, v);
    if r.Some? {
      x := r.value;
      var at := ChunkStart(r.value);
      p := Some(at);
    } else {
      p, x := None, Pages(0, 0);
      NoneLeft(v.kind, size, shift);
    }
  }

  function ChunkStart(x: Loc): (p: nat)
    requires x.Chunk?
    ensures p == x.Start()
  {
    x.i * PAGE + x.c * Pow2(x.shift)
  }

  lemma NoneLeft(kind: seq<Kind>, size: nat, shift: nat)
    requires size <= MAX_CHUNK && IsClass(shift, size) && !HasRun(kind, 1) && !PartlyUsed(kind, shift)
    ensures Exhausted(kind, size)
  {
    forall s | IsClass(s, size) ensures !PartlyUsed(kind, s) {
      ClassUnique(s, shift, size);
    }
  }

  class Pool {
    var m: Memory
    ghost var v: View
    /** Bytes between the start of the page area and the end of the segment. */
    const span: nat

    ghost predicate Valid()
      reads this
    {
      Inv(m, v) && |v.kind| * PAGE <= span
    }

    constructor (base: nat, header: nat, end: nat)
      requires base + header + 3 * (PAGE + DESCRIPTOR) <= end
      ensures Valid() && v == InitialView(Geometry(base, header, end).1)
      ensures forall x :: !Live(v.kind, x)
    {
      var g := Geometry(base, header, end);
      m := InitialMemory(g.1);
      v := InitialView(g.1);
      span := end - g.0;
      InitialInv(g.1);
    }

    /** Allocates `size` bytes; the result is the block's offset from the start of the page area. */
    method Alloc(size: nat) returns (p: Option<nat>, ghost x: Loc)
      requires Valid()
      modifies this
      ensures Valid()
      ensures p.None? ==> m == old(m) && v == old(v) && Exhausted(v.kind, size)
      ensures p.Some? ==> p.value == x.Start() && Suits(x, size) && Gained(old(v.kind), v.kind, x)
      ensures p.Some? ==> if size > MAX_CHUNK then PagesTaken(old(v), v, PagesFor(size), x.i) else ChunkTaken(old(v), v, x)
    {
      var m1;
      ghost var v1;
      if size > MAX_CHUNK {
        p, x, m1, v1 := AllocLarge(m, size, v);
      } else {
        p, x, m1, v1 := AllocSmall(m, size, v);
      }
      m, v := m1, v1;
    }

    /** Releases the block at offset `p`.  An offset that is not the start of a live block is
        refused and changes nothing, unless it is one the tests cannot tell from a live block. */
    method Free(p: int) returns (verdict: Verdict)
      requires Valid()
      requires p < |v.kind| * PAGE || p > span
      requires 0 <= p < |v.kind| * PAGE ==> !Undetected(v.kind, p)
      modifies this
      ensures Valid()
      ensures verdict == Outside <==> p < 0 || p > span
      ensures verdict == Freed <==> 0 <= p < |old(v.kind)| * PAGE && LocAt(old(v.kind), p).Some?
      ensures verdict == Freed ==> Lost(old(v.kind), v.kind, LocAt(old(v.kind), p).value)
      ensures verdict == Freed ==> Released(old(v), v, LocAt(old(v.kind), p).value)
      ensures verdict != Freed ==> m == old(m) && v == old(v)
    {
      if p < 0 || p > span {
        return Outside;
      }
      CheckIff(m, v, p);
      verdict := Check(m, p);
      if verdict == Freed {
        var i := p / PAGE;
        InvReadable(m, v, i);
        assert PageOk(m, v.kind, i);
        var m1;
        ghost var v1;
        if Back(m.prev, Page(i)).tag == TagPage {
          FreeLeaving(m, v, i);
          LostPages(v.kind, i, m.slab[i].n);
          m1, v1 := FreePages(m, i, m.slab[i].n, v);
        } else {
          var shift := if m.slab[i].Map? then EXACT_SHIFT else m.slab[i].shift;
          var c := (p % PAGE) / Pow2(shift);
          LostRelease(v.kind, i, c);
          m1, v1 := ReleaseChunk(m, i, shift, c, v);
        }
        m, v := m1, v1;
      }
    }
  }

  lemma FreeLeaving(m: Memory, v: View, i: nat)
    requires Inv(m, v) && i < |v.kind| && v.kind[i].Block?
    ensures m.slab[i] == Start(v.kind[i].len) && Leaving(m, v, i, v.kind[i].len)
  {
    assert PageOk(m, v.kind, i) && PageFits(v.kind, i);
    forall j | i < j < i + v.kind[i].len ensures v.owner[j] == Null {
      assert v.kind[j] == BlockBody(i);
    }
  }
}
