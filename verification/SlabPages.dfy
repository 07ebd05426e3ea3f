/** The slab pool in memory: page descriptors, slot heads, the list of free
    runs and the words of every page, with the operations on whole pages.
    A `View` says what the pages are used for and what is on each list; `Inv`
    ties it to the memory. */
module SlabPages {
  import opened Common
  import opened Rings
  import opened SlabLayout

  /** The `slab` word of a descriptor, by the way it is read. */
  datatype SlabWord =
    | Count(n: nat)                          // a run length; 0 marks the inside of a free run
    | Start(n: nat)                          // a block length with the top bit set
    | Busy                                   // the inside of a block
    | Shift(shift: nat)                      // small chunks: the bitmap is in the page
    | Map(bits: seq<bool>)                   // 64 chunks: the bitmap is the word
    | BigMap(bits: seq<bool>, shift: nat)    // big chunks: the bitmap is the high half of the word

  /** Everything the allocator reads and writes. */
  datatype Memory = Memory(next: NextWords, prev: PrevWords, slab: seq<SlabWord>, words: seq<seq<seq<bool>>>)

  /** What the pages are used for, the pages on each list, and the list each page is on. */
  datatype View = View(kind: seq<Kind>, lists: Lists, owner: seq<Node>)

  const PAGE_WORDS := 512

  ghost predicate IsPageWords(ws: seq<seq<bool>>) {
    |ws| == PAGE_WORDS && forall k | 0 <= k < PAGE_WORDS :: |ws[k]| == WORD_BITS
  }

  function SlotOf(shift: nat): Node
    requires MIN_SHIFT <= shift
  {
    Slot(shift - MIN_SHIFT)
  }

  ghost predicate BitsAre(bits: seq<bool>, n: nat, used: set<nat>) {
    |bits| == n && forall c | 0 <= c < n :: bits[c] <==> c in used
  }

  /** The bitmap of a chunk page marks its reserved and its used chunks, and nothing else. */
  ghost predicate Encodes(w: SlabWord, ws: seq<seq<bool>>, shift: nat, used: set<nat>)
    requires IsShift(shift) && IsPageWords(ws)
  {
    if shift < EXACT_SHIFT then
      w == Shift(shift) && forall c | 0 <= c < Capacity(shift) :: SmallBit(ws, c) <==> c < Reserved(shift) || c in used
    else if shift == EXACT_SHIFT then
      w.Map? && BitsAre(w.bits, 64, used)
    else
      w.BigMap? && w.shift == shift && BitsAre(w.bits, 32, used)
  }

  /** Bit `c` of the bitmap at the start of a page. */
  ghost predicate SmallBit(ws: seq<seq<bool>>, c: nat)
    requires IsPageWords(ws)
  {
    c / WORD_BITS < PAGE_WORDS && ws[c / WORD_BITS][c % WORD_BITS]
  }

  /** The list a page belongs on. */
  ghost function Home(k: Kind): Node {
    match k
    case FreeRun(_) => FreeHead
    case Chunks(shift, used) => if IsShift(shift) && !Full(k) then SlotOf(shift) else Null
    case _ => Null
  }

  ghost predicate Shaped(m: Memory, n: nat) {
    && |m.slab| == n && |m.words| == n
    && (forall i | 0 <= i < n :: IsPageWords(m.words[i]))
  }

  /** A descriptor on no list. */
  ghost predicate Loose(m: Memory, i: nat, tag: Tag) {
    Next(m.next, Page(i)) == Null && Back(m.prev, Page(i)) == Prev(Null, tag)
  }

  /** The descriptor of a page inside a free run; its back link may be stale. */
  ghost predicate Inside(m: Memory, i: nat)
    requires i < |m.slab|
  {
    m.slab[i] == Count(0) && Next(m.next, Page(i)) == Null && Back(m.prev, Page(i)).tag == TagPage
  }

  /** The descriptor of page `i` says what the page is used for.  The links of a page on a list
      are the business of its ring; the back link at the end of a free run leads to its head,
      except at the end of the pool, where nobody follows it. */
  ghost predicate PageOk(m: Memory, kind: seq<Kind>, i: nat)
    requires Shaped(m, |kind|) && i < |kind|
  {
    match kind[i]
    case FreeRun(len) =>
      && m.slab[i] == Count(len)
      && (2 <= len && i + len < |kind| ==> Back(m.prev, Page(i + len - 1)) == Prev(Page(i), TagPage))
    case FreeBody(_) => Inside(m, i)
    case Block(len) => m.slab[i] == Start(len) && Loose(m, i, TagPage)
    case BlockBody(_) => m.slab[i] == Busy && Loose(m, i, TagPage)
    case Chunks(shift, used) =>
      && IsShift(shift) && Encodes(m.slab[i], m.words[i], shift, used)
      && (Full(kind[i]) ==> Loose(m, i, HeadTag(SlotOf(shift))))
  }

  /** The invariant with the pages of [a, b), which are on no list, left aside. */
  ghost predicate Detached(m: Memory, v: View, a: nat, b: nat) {
    && Shaped(m, |v.kind|) && |v.owner| == |v.kind|
    && Tiled(v.kind)
    && AllRings(m.next, m.prev, v.lists, v.owner) && Covered(v.lists, v.owner)
    && (forall i | 0 <= i < |v.kind| :: v.owner[i] == if a <= i < b then Null else Home(v.kind[i]))
    && (forall i | 0 <= i < |v.kind| && !(a <= i < b) :: PageOk(m, v.kind, i))
  }

  ghost predicate Inv(m: Memory, v: View) {
    Detached(m, v, 0, 0)
  }

  /** A step that leaves alone every page outside [a, b), links of listed pages excepted. */
  ghost predicate KeepsPages(m: Memory, m': Memory, owner: seq<Node>, a: nat, b: nat)
    requires |m.slab| == |m.words| == |m'.slab| == |m'.words| == |owner|
  {
    && (forall i | 0 <= i < |owner| && !(a <= i < b) :: m'.slab[i] == m.slab[i] && m'.words[i] == m.words[i])
    && (forall i | 0 <= i < |owner| && !(a <= i < b) && owner[i] == Null ::
          SameLinks(m.next, m.prev, m'.next, m'.prev, Page(i)))
  }

  /** No free run crosses into [a, b) from the left. */
  ghost predicate Apart(kind: seq<Kind>, a: nat) {
    forall i | 0 <= i < a && i < |kind| && kind[i].FreeRun? :: i + kind[i].len <= a
  }

  /** The words that decide whether a descriptor is right. */
  lemma PageOkFrame(m: Memory, m': Memory, kind: seq<Kind>, i: nat)
    requires Shaped(m, |kind|) && Shaped(m', |kind|) && i < |kind| && PageOk(m, kind, i)
    requires m'.slab[i] == m.slab[i] && m'.words[i] == m.words[i]
    requires Home(kind[i]) == Null ==> SameLinks(m.next, m.prev, m'.next, m'.prev, Page(i))
    requires kind[i].FreeRun? && 2 <= kind[i].len && i + kind[i].len < |kind| ==>
               SameLinks(m.next, m.prev, m'.next, m'.prev, Page(i + kind[i].len - 1))
    ensures PageOk(m', kind, i)
  {
  }

  lemma PageKept(m: Memory, m': Memory, v: View, a: nat, b: nat, a': nat, b': nat, i: nat)
    requires Detached(m, v, a, b) && Shaped(m', |v.kind|) && KeepsPages(m, m', v.owner, a', b')
    requires a' <= a && b <= b' && i < |v.kind| && !(a' <= i < b') && Apart(v.kind, a') && a' < b'
    ensures PageOk(m', v.kind, i)
  {
    assert PageFits(v.kind, i) && PageOk(m, v.kind, i);
    if v.kind[i].FreeRun? && 2 <= v.kind[i].len {
      var t := i + v.kind[i].len - 1;
      assert v.kind[t] == FreeBody(i) && v.owner[t] == Null;
    }
    PageOkFrame(m, m', v.kind, i);
  }

  lemma OutsideKept(m: Memory, m': Memory, v: View, a: nat, b: nat, i: nat)
    requires Inv(m, v) && Shaped(m', |v.kind|) && KeepsPages(m, m', v.owner, a, b)
    requires i < |v.kind| && !(a <= i < b) && Apart(v.kind, a) && a < b
    ensures PageOk(m', v.kind, i)
  {
    assert Detached(m, v, a, a);
    PageKept(m, m', v, a, a, a, b, i);
  }

  /** What the descriptors say of the free run at `f`. */
  lemma RunFacts(m: Memory, v: View, f: nat)
    requires Inv(m, v) && f < |v.kind| && v.kind[f].FreeRun?
    ensures PageFits(v.kind, f) && m.slab[f] == Count(v.kind[f].len) && v.owner[f] == FreeHead
    ensures forall i | f < i < f + v.kind[f].len :: v.owner[i] == Null && Inside(m, i)
    ensures Apart(v.kind, f)
  {
    assert PageFits(v.kind, f) && PageOk(m, v.kind, f);
    forall i | f < i < f + v.kind[f].len ensures v.owner[i] == Null && Inside(m, i) {
      assert PageOk(m, v.kind, i);
    }
    forall i | 0 <= i < f && v.kind[i].FreeRun? ensures i + v.kind[i].len <= f {
      assert PageFits(v.kind, i);
    }
  }

  /** Fills the descriptors of the pages in [a, b), which are on no list. */
  method FillPages(m: Memory, a: nat, b: nat, w: SlabWord, ghost lists: Lists, ghost owner: seq<Node>) returns (m': Memory)
    requires a <= b <= |m.slab| == |owner| == |m.words| && AllRings(m.next, m.prev, lists, owner)
    requires forall i | a <= i < b :: owner[i] == Null
    ensures |m'.slab| == |m.slab| && m'.words == m.words && AllRings(m'.next, m'.prev, lists, owner)
    ensures forall i | a <= i < b :: m'.slab[i] == w && Loose(m', i, TagPage)
    ensures forall i | 0 <= i < |m.slab| && !(a <= i < b) ::
              m'.slab[i] == m.slab[i] && SameLinks(m.next, m.prev, m'.next, m'.prev, Page(i))
  {
    m' := m;
    var p := a;
    while p < b
      invariant a <= p <= b && |m'.slab| == |m.slab| && m'.words == m.words
      invariant AllRings(m'.next, m'.prev, lists, owner)
      invariant forall i | a <= i < p :: m'.slab[i] == w && Loose(m', i, TagPage)
      invariant forall i | 0 <= i < |m.slab| && !(a <= i < p) ::
                  m'.slab[i] == m.slab[i] && SameLinks(m.next, m.prev, m'.next, m'.prev, Page(i))
    {
      Write(m'.next, m'.prev, lists, owner, p, Null, NoPrev);
      m' := m'.(slab := m'.slab[p := w], next := m'.next[Page(p) := Null], prev := m'.prev[Page(p) := NoPrev]);
      p := p + 1;
    }
  }

  /** What is left of a free run of `len` pages at `f` once its first `n` pages are off the list. */
  ghost predicate Remnant(m: Memory, f: nat, n: nat, len: nat)
    requires f + len <= |m.slab|
  {
    && (n < len ==> m.slab[f + n] == Count(len - n))
    && (n + 1 < len ==> Back(m.prev, Page(f + len - 1)) == Prev(Page(f + n), TagPage))
    && (forall i | f + n < i < f + len :: Inside(m, i))
  }

  /** The owners once the first `n` pages of the run of `len` pages at `f` are off the list. */
  ghost function CutOwner(owner: seq<Node>, f: nat, n: nat, len: nat): seq<Node>
    requires f + len <= |owner| && 1 <= n <= len
  {
    if n < len then owner[f := Null][f + n := FreeHead] else owner[f := Null]
  }

  /** The list of free runs then: what is left of the run takes its place. */
  ghost function CutList(ms: seq<nat>, k: nat, f: nat, n: nat, len: nat): seq<nat>
    requires k < |ms|
  {
    if n < len then With(ms, k, f + n) else Without(ms, k)
  }

  lemma SplitRings(next: NextWords, prev: PrevWords, prev': PrevWords, lists: Lists, owner: seq<Node>,
                   f: nat, n: nat, len: nat, k: nat)
    requires AllRings(next, prev, lists, owner) && Covered(lists, owner) && k < |lists[FreeHead]| && lists[FreeHead][k] == f
    requires 1 <= n < len && f + len <= |owner| && owner[f + n] == Null && owner[f + len - 1] == Null
    requires prev' == prev[Page(f + len - 1) := Prev(Page(f + n), TagPage)]
    ensures var lists' := lists[FreeHead := With(lists[FreeHead], k, f + n)];
            && AllRings(ReplaceNext(next, prev', Page(f), f + n), ReplacePrev(next, prev', Page(f), f + n, TagPage),
                        lists', CutOwner(owner, f, n, len))
            && Covered(lists', CutOwner(owner, f, n, len))
  {
    WriteBack(next, prev, lists, owner, f + len - 1, Prev(Page(f + n), TagPage));
    Replace(next, prev', lists, owner, FreeHead, k, f + n);
    ReplaceCovered(lists, owner, FreeHead, k, f + n);
  }

  /** The memory after the run at `f` has been split: its end leads back to the new head, which takes
      the place of the old one on the list. */
  function SplitMemory(m: Memory, prev: PrevWords, f: nat, n: nat): Memory
    requires f < |m.slab| && m.slab[f].Count? && n < m.slab[f].n && f + n < |m.slab|
  {
    Memory(ReplaceNext(m.next, prev, Page(f), f + n), ReplacePrev(m.next, prev, Page(f), f + n, TagPage),
           m.slab[f + n := Count(m.slab[f].n - n)], m.words)
  }

  lemma SplitLinks(m: Memory, prev: PrevWords, f: nat, n: nat, ms: seq<nat>, owner: seq<Node>, k: nat)
    requires |m.slab| == |owner| && ListOk(m.next, m.prev, FreeHead, ms, owner) && k < |ms| && ms[k] == f < |owner|
    requires m.slab[f].Count? && 1 <= n < m.slab[f].n && f + m.slab[f].n <= |owner|
    requires owner[f + m.slab[f].n - 1] == Null && prev == m.prev[Page(f + m.slab[f].n - 1) := Prev(Page(f + n), TagPage)]
    ensures var m' := SplitMemory(m, prev, f, n);
            forall j | 0 <= j < |owner| && owner[j] == Null && j != f + n :: SameLinks(m.next, prev, m'.next, m'.prev, Page(j))
  {
    ListFrame(m.next, m.prev, m.next, prev, FreeHead, ms, owner, owner);
    ReplaceKept(m.next, prev, FreeHead, ms, owner, k, f + n);
  }

  lemma SplitKept(m: Memory, prev: PrevWords, f: nat, n: nat, ms: seq<nat>, owner: seq<Node>, k: nat)
    requires |m.slab| == |m.words| == |owner| && ListOk(m.next, m.prev, FreeHead, ms, owner)
    requires f < |m.slab| && m.slab[f].Count? && 1 <= n < m.slab[f].n && f + m.slab[f].n <= |m.slab|
    requires k < |ms| && ms[k] == f
    requires forall i | f < i < f + m.slab[f].n :: owner[i] == Null && Inside(m, i)
    requires prev == m.prev[Page(f + m.slab[f].n - 1) := Prev(Page(f + n), TagPage)]
    ensures KeepsPages(m, SplitMemory(m, prev, f, n), owner, f, f + m.slab[f].n)
    ensures Remnant(SplitMemory(m, prev, f, n), f, n, m.slab[f].n)
  {
    SplitLinks(m, prev, f, n, ms, owner, k);
    var m' := SplitMemory(m, prev, f, n);
    forall i | f + n < i < f + m.slab[f].n ensures Inside(m', i) {
      assert Inside(m, i) && SameLinks(m.next, prev, m'.next, m'.prev, Page(i));
    }
  }

  /** Takes the first `n` pages of the free run at `f` off the list of free runs.  When the run is
      longer, its end leads back to the new head, which takes the place of the old one on the list. */
  method CutRun(m: Memory, f: nat, n: nat, ghost lists: Lists, ghost owner: seq<Node>, ghost k: nat)
    returns (m': Memory, ghost lists': Lists)
    requires |m.slab| == |m.words| == |owner| && AllRings(m.next, m.prev, lists, owner) && Covered(lists, owner)
    requires f < |m.slab| && m.slab[f].Count? && 1 <= n <= m.slab[f].n && f + m.slab[f].n <= |m.slab|
    requires k < |lists[FreeHead]| && lists[FreeHead][k] == f
    requires forall i | f < i < f + m.slab[f].n :: owner[i] == Null && Inside(m, i)
    ensures |m'.slab| == |m.slab| && m'.words == m.words
    ensures AllRings(m'.next, m'.prev, lists', CutOwner(owner, f, n, m.slab[f].n))
    ensures Covered(lists', CutOwner(owner, f, n, m.slab[f].n))
    ensures KeepsPages(m, m', owner, f, f + m.slab[f].n)
    ensures Remnant(m', f, n, m.slab[f].n)
    ensures lists' == lists[FreeHead := CutList(lists[FreeHead], k, f, n, m.slab[f].n)]
  {
    var len := m.slab[f].n;
    if len > n {
      var prev := m.prev[Page(f + len - 1) := Prev(Page(f + n), TagPage)];
      m' := SplitMemory(m, prev, f, n);
      lists' := lists[FreeHead := With(lists[FreeHead], k, f + n)];
      SplitKept(m, prev, f, n, lists[FreeHead], owner, k);
      SplitRings(m.next, m.prev, prev, lists, owner, f, n, len, k);
    } else {
      m' := m.(next := UnlinkNext(m.next, m.prev, Page(f)), prev := UnlinkPrev(m.next, m.prev, Page(f)));
      lists' := lists[FreeHead := Without(lists[FreeHead], k)];
      Unlink(m.next, m.prev, lists, owner, FreeHead, k);
      UnlinkCovered(lists, owner, FreeHead, k);
    }
  }

  /** Marks the pages of [f, f + n), which are on no list, as a block. */
  method MarkBlock(m: Memory, f: nat, n: nat, ghost lists: Lists, ghost owner: seq<Node>) returns (m': Memory)
    requires 1 <= n && f + n <= |m.slab| == |owner| == |m.words| && AllRings(m.next, m.prev, lists, owner)
    requires forall i | f <= i < f + n :: owner[i] == Null
    ensures |m'.slab| == |m.slab| && m'.words == m.words && AllRings(m'.next, m'.prev, lists, owner)
    ensures m'.slab[f] == Start(n) && (forall i | f < i < f + n :: m'.slab[i] == Busy)
    ensures forall i | f <= i < f + n :: Loose(m', i, TagPage)
    ensures forall i | 0 <= i < |m.slab| && !(f <= i < f + n) ::
              m'.slab[i] == m.slab[i] && SameLinks(m.next, m.prev, m'.next, m'.prev, Page(i))
  {
    Write(m.next, m.prev, lists, owner, f, Null, NoPrev);
    m' := m.(slab := m.slab[f := Start(n)], next := m.next[Page(f) := Null], prev := m.prev[Page(f) := NoPrev]);
    m' := FillPages(m', f + 1, f + n, Busy, lists, owner);
  }

  /** The descriptors of a split run describe the split run. */
  lemma SplitPages(m: Memory, kind: seq<Kind>, f: nat, n: nat, i: nat)
    requires f < |kind| && kind[f].FreeRun? && 1 <= n <= kind[f].len && PageFits(kind, f)
    requires Shaped(m, |kind|) && Remnant(m, f, n, kind[f].len)
    requires m.slab[f] == Start(n) && (forall j | f < j < f + n :: m.slab[j] == Busy)
    requires forall j | f <= j < f + n :: Loose(m, j, TagPage)
    requires f <= i < f + kind[f].len
    ensures PageOk(m, AfterAlloc(kind, f, n), i)
  {
  }

  lemma SamePageOk(m: Memory, kind: seq<Kind>, k': seq<Kind>, i: nat)
    requires |kind| == |k'| && Shaped(m, |kind|) && i < |kind| && kind[i] == k'[i] && PageOk(m, kind, i)
    ensures PageOk(m, k', i)
  {
  }

  /** Detaching a free run that is then split: the invariant holds again. */
  lemma SplitInv(m: Memory, m': Memory, v: View, lists': Lists, f: nat, n: nat)
    requires Inv(m, v) && f < |v.kind| && v.kind[f].FreeRun? && 1 <= n <= v.kind[f].len && PageFits(v.kind, f)
    requires Shaped(m', |v.kind|) && KeepsPages(m, m', v.owner, f, f + v.kind[f].len) && Apart(v.kind, f)
    requires Remnant(m', f, n, v.kind[f].len)
    requires m'.slab[f] == Start(n) && (forall j | f < j < f + n :: m'.slab[j] == Busy)
    requires forall j | f <= j < f + n :: Loose(m', j, TagPage)
    requires AllRings(m'.next, m'.prev, lists', CutOwner(v.owner, f, n, v.kind[f].len))
    requires Covered(lists', CutOwner(v.owner, f, n, v.kind[f].len))
    ensures Inv(m', View(AfterAlloc(v.kind, f, n), lists', CutOwner(v.owner, f, n, v.kind[f].len)))
  {
    AllocTiled(v.kind, f, n);
    SplitOwners(v.kind, v.owner, f, n);
    SplitAllPages(m, m', v, f, n);
  }

  lemma SplitOwners(kind: seq<Kind>, owner: seq<Node>, f: nat, n: nat)
    requires f < |kind| == |owner| && kind[f].FreeRun? && 1 <= n <= kind[f].len && PageFits(kind, f)
    requires forall i | 0 <= i < |kind| :: owner[i] == Home(kind[i])
    ensures forall i | 0 <= i < |kind| :: CutOwner(owner, f, n, kind[f].len)[i] == Home(AfterAlloc(kind, f, n)[i])
  {
  }

  lemma SplitAllPages(m: Memory, m': Memory, v: View, f: nat, n: nat)
    requires Inv(m, v) && f < |v.kind| && v.kind[f].FreeRun? && 1 <= n <= v.kind[f].len && PageFits(v.kind, f)
    requires Shaped(m', |v.kind|) && KeepsPages(m, m', v.owner, f, f + v.kind[f].len) && Apart(v.kind, f)
    requires Remnant(m', f, n, v.kind[f].len)
    requires m'.slab[f] == Start(n) && (forall j | f < j < f + n :: m'.slab[j] == Busy)
    requires forall j | f <= j < f + n :: Loose(m', j, TagPage)
    ensures forall i | 0 <= i < |v.kind| :: PageOk(m', AfterAlloc(v.kind, f, n), i)
  {
    forall i | 0 <= i < |v.kind| ensures PageOk(m', AfterAlloc(v.kind, f, n), i) {
      SplitPage(m, m', v, f, n, i);
    }
  }

  lemma SplitPage(m: Memory, m': Memory, v: View, f: nat, n: nat, i: nat)
    requires Inv(m, v) && f < |v.kind| && v.kind[f].FreeRun? && 1 <= n <= v.kind[f].len && PageFits(v.kind, f)
    requires Shaped(m', |v.kind|) && KeepsPages(m, m', v.owner, f, f + v.kind[f].len) && Apart(v.kind, f)
    requires Remnant(m', f, n, v.kind[f].len)
    requires m'.slab[f] == Start(n) && (forall j | f < j < f + n :: m'.slab[j] == Busy)
    requires forall j | f <= j < f + n :: Loose(m', j, TagPage)
    requires i < |v.kind|
    ensures PageOk(m', AfterAlloc(v.kind, f, n), i)
  {
    if f <= i < f + v.kind[f].len {
      SplitPages(m', v.kind, f, n, i);
    } else {
      OutsideKept(m, m', v, f, f + v.kind[f].len, i);
      SamePageOk(m', v.kind, AfterAlloc(v.kind, f, n), i);
    }
  }

  /** Finds the position of a page on the list that owns it. */
  lemma Position(lists: Lists, owner: seq<Node>, i: nat) returns (k: nat)
    requires Covered(lists, owner) && i < |owner| && owner[i] in lists
    ensures k < |lists[owner[i]]| && lists[owner[i]][k] == i
  {
    var ms := lists[owner[i]];
    assert i in ms;
    k :| 0 <= k < |ms| && ms[k] == i;
  }

  /** A page on a list has a next page, and its back link carries the tag of the list. */
  lemma ListedWords(m: Memory, v: View, i: nat)
    requires AllRings(m.next, m.prev, v.lists, v.owner) && Covered(v.lists, v.owner)
    requires i < |v.owner| && IsHead(v.owner[i])
    ensures Next(m.next, Page(i)) != Null && Back(m.prev, Page(i)).tag == HeadTag(v.owner[i])
  {
    var h := v.owner[i];
    var k := Position(v.lists, v.owner, i);
    assert ListOk(m.next, m.prev, h, v.lists[h], v.owner);
    assert LinkOk(m.next, m.prev, h, v.lists[h], HeadTag(h), k);
  }

  /** The test by which the source recognises the head of a free run. */
  predicate LooksFree(m: Memory, i: nat) {
    Back(m.prev, Page(i)).tag == TagPage && Next(m.next, Page(i)) != Null
  }

  lemma LooksFreeIff(m: Memory, v: View, a: nat, b: nat, i: nat)
    requires Detached(m, v, a, b) && i < |v.kind| && !(a <= i < b)
    ensures LooksFree(m, i) <==> v.kind[i].FreeRun?
  {
    assert PageOk(m, v.kind, i) && PageFits(v.kind, i);
    if IsHead(v.owner[i]) {
      ListedWords(m, v, i);
    }
  }

  /** Descriptors like those of a free run of the pages of [a, b). */
  ghost predicate Looks(m: Memory, a: nat, b: nat)
    requires a < b <= |m.slab|
  {
    m.slab[a] == Count(b - a) && (forall i | a < i < b :: Inside(m, i))
  }

  /** A region [a, b) off every list, with descriptors like those of a free run. */
  ghost predicate Region(m: Memory, v: View, a: nat, b: nat) {
    && Detached(m, v, a, b) && a < b <= |v.kind|
    && Looks(m, a, b) && Apart(v.kind, a)
  }

  /** Taking run head `i` off its list and clearing the words of page `c`, which is `i` or unlisted. */
  lemma AbsorbRings(next: NextWords, prev: PrevWords, lists: Lists, owner: seq<Node>, k: nat, i: nat, c: nat)
    requires AllRings(next, prev, lists, owner) && Covered(lists, owner)
    requires k < |lists[FreeHead]| && lists[FreeHead][k] == i && c < |owner| && (c == i || owner[c] == Null)
    ensures i < |owner|
    ensures var lists' := lists[FreeHead := Without(lists[FreeHead], k)];
            && AllRings(UnlinkNext(next, prev, Page(i))[Page(c) := Null],
                        UnlinkPrev(next, prev, Page(i))[Page(c) := NoPrev], lists', owner[i := Null])
            && Covered(lists', owner[i := Null])
  {
    Unlink(next, prev, lists, owner, FreeHead, k);
    UnlinkCovered(lists, owner, FreeHead, k);
    Write(UnlinkNext(next, prev, Page(i)), UnlinkPrev(next, prev, Page(i)),
          lists[FreeHead := Without(lists[FreeHead], k)], owner[i := Null], c, Null, NoPrev);
  }

  /** The memory after the run at `i` has joined the page group at `c`, or the other way round:
      page `i` leaves the list, page `to` gets the total length and page `c` becomes an inside page. */
  function Absorbed(m: Memory, i: nat, to: nat, c: nat, total: nat): Memory
    requires to < |m.slab| && c < |m.slab|
  {
    Memory(UnlinkNext(m.next, m.prev, Page(i))[Page(c) := Null], UnlinkPrev(m.next, m.prev, Page(i))[Page(c) := NoPrev],
           m.slab[to := Count(total)][c := Count(0)], m.words)
  }

  lemma AbsorbKept(m: Memory, owner: seq<Node>, ms: seq<nat>, k: nat, i: nat, to: nat, c: nat, total: nat, a: nat, b: nat)
    requires |m.slab| == |m.words| == |owner| && ListOk(m.next, m.prev, FreeHead, ms, owner)
    requires k < |ms| && ms[k] == i && a <= to < c < b <= |owner| && (i == to || i == c)
    ensures KeepsPages(m, Absorbed(m, i, to, c, total), owner, a, b)
    ensures forall j | a <= j < b && j != to && j != c && owner[j] == Null && Inside(m, j) ::
              Inside(Absorbed(m, i, to, c, total), j)
    ensures Inside(Absorbed(m, i, to, c, total), c)
  {
    UnlinkKept(m.next, m.prev, FreeHead, ms, owner, k);
    var m' := Absorbed(m, i, to, c, total);
    var next1, prev1 := UnlinkNext(m.next, m.prev, Page(i)), UnlinkPrev(m.next, m.prev, Page(i));
    forall j | 0 <= j < |owner| && j != c && owner[j] == Null
      ensures SameLinks(m.next, m.prev, m'.next, m'.prev, Page(j))
    {
      assert SameLinks(m.next, m.prev, next1, prev1, Page(j));
    }
  }

  /** Widening the region left aside. */
  lemma Widen(m: Memory, m': Memory, v: View, v': View, a: nat, b: nat, a': nat, b': nat)
    requires Detached(m, v, a, b) && Shaped(m', |v.kind|) && KeepsPages(m, m', v.owner, a', b')
    requires a' <= a < b <= b' <= |v.kind| && Apart(v.kind, a')
    requires v'.kind == v.kind && |v'.owner| == |v.owner|
    requires forall i | 0 <= i < |v.kind| :: v'.owner[i] == if a' <= i < b' then Null else v.owner[i]
    requires AllRings(m'.next, m'.prev, v'.lists, v'.owner) && Covered(v'.lists, v'.owner)
    ensures Detached(m', v', a', b')
  {
    forall i | 0 <= i < |v.kind| && !(a' <= i < b') ensures PageOk(m', v'.kind, i) {
      PageKept(m, m', v, a, b, a', b', i);
    }
  }

  ghost function AbsorbView(v: View, i: nat, k: nat): View
    requires FreeHead in v.lists && k < |v.lists[FreeHead]| && i < |v.owner|
  {
    View(v.kind, v.lists[FreeHead := Without(v.lists[FreeHead], k)], v.owner[i := Null])
  }

  /** Once the run at `i` has left its list, the wider region [a', b') is off every list. */
  lemma AbsorbRegion(m: Memory, v: View, a: nat, b: nat, a': nat, b': nat, k: nat, i: nat, to: nat, c: nat, total: nat)
    requires Detached(m, v, a, b) && k < |v.lists[FreeHead]| && v.lists[FreeHead][k] == i && i < |v.owner|
    requires a' <= a < b <= b' <= |v.kind| && a' <= to < c < b' && (i == to || i == c)
    requires c == i || v.owner[c] == Null
    requires Apart(v.kind, a')
    requires forall j | a' <= j < b' && j != i :: v.owner[j] == Null
    requires Looks(Absorbed(m, i, to, c, total), a', b')
    ensures Region(Absorbed(m, i, to, c, total), AbsorbView(v, i, k), a', b')
  {
    AbsorbRings(m.next, m.prev, v.lists, v.owner, k, i, c);
    AbsorbKept(m, v.owner, v.lists[FreeHead], k, i, to, c, total, a', b');
    Widen(m, Absorbed(m, i, to, c, total), v, AbsorbView(v, i, k), a, b, a', b');
  }

  /** The free run right after a region, as the invariant describes it. */
  lemma RunAt(m: Memory, v: View, a: nat, b: nat, i: nat)
    requires Detached(m, v, a, b) && i < |v.kind| && !(a <= i < b) && v.kind[i].FreeRun?
    requires b <= i || i + v.kind[i].len <= a
    ensures PageFits(v.kind, i) && m.slab[i] == Count(v.kind[i].len) && v.owner[i] == FreeHead
    ensures forall j | i < j < i + v.kind[i].len :: v.owner[j] == Null && Inside(m, j)
  {
    assert PageFits(v.kind, i) && PageOk(m, v.kind, i);
    forall j | i < j < i + v.kind[i].len ensures v.owner[j] == Null && Inside(m, j) {
      assert PageOk(m, v.kind, j);
    }
  }

  lemma JoinLooks(m: Memory, owner: seq<Node>, ms: seq<nat>, k: nat, i: nat, a: nat, c: nat, b: nat)
    requires |m.slab| == |m.words| == |owner| && ListOk(m.next, m.prev, FreeHead, ms, owner)
    requires k < |ms| && ms[k] == i && a < c < b <= |owner| && (i == a || i == c)
    requires Looks(m, a, c) && Looks(m, c, b) && (forall j | a <= j < b && j != i :: owner[j] == Null)
    ensures Looks(Absorbed(m, i, a, c, m.slab[a].n + m.slab[c].n), a, b)
  {
    AbsorbKept(m, owner, ms, k, i, a, c, m.slab[a].n + m.slab[c].n, a, b);
  }

  lemma RightLooks(m: Memory, v: View, a: nat, b: nat, k: nat)
    requires Region(m, v, a, b) && b < |v.kind| && v.kind[b].FreeRun?
    requires k < |v.lists[FreeHead]| && v.lists[FreeHead][k] == b
    ensures 1 <= v.kind[b].len && b + v.kind[b].len <= |v.kind| && m.slab[b] == Count(v.kind[b].len)
    ensures Looks(Absorbed(m, b, a, b, m.slab[a].n + m.slab[b].n), a, b + v.kind[b].len)
    ensures forall j | a <= j < b + v.kind[b].len && j != b :: v.owner[j] == Null
  {
    RunAt(m, v, a, b, b);
    JoinLooks(m, v.owner, v.lists[FreeHead], k, b, a, b, b + v.kind[b].len);
  }

  /** A page that does not head a free run is not on their list. */
  lemma RemovedFrom(m: Memory, v: View, x: nat)
    requires AllRings(m.next, m.prev, v.lists, v.owner)
    ensures Distinct(v.lists[FreeHead])
    ensures x >= |v.owner| || v.owner[x] != FreeHead ==> v.lists[FreeHead := Removed(v.lists[FreeHead], x)] == v.lists
  {
    var ms := v.lists[FreeHead];
    assert ListOk(m.next, m.prev, FreeHead, ms, v.owner);
    if x >= |v.owner| || v.owner[x] != FreeHead {
      RemovedNone(ms, x);
    }
  }

  /** Joins the free run that starts where the region ends. */
  method AbsorbRight(m: Memory, a: nat, b: nat, ghost v: View) returns (m': Memory, b': nat, ghost v': View)
    requires Region(m, v, a, b) && b < |v.kind| && v.kind[b].FreeRun?
    ensures v'.kind == v.kind && b' == JoinEnd(v.kind, b) && Region(m', v', a, b') && m'.words == m.words
    ensures v'.lists == v.lists[FreeHead := Removed(v.lists[FreeHead], b)]
  {
    ghost var k := Position(v.lists, v.owner, b);
    RightLooks(m, v, a, b, k);
    var total := m.slab[a].n + m.slab[b].n;
    m' := Absorbed(m, b, a, b, total);
    b' := b + m.slab[b].n;
    v' := AbsorbView(v, b, k);
    AbsorbRegion(m, v, a, b, a, b', k, b, a, b, total);
    AbsorbLists(m, v, b, k);
  }

  lemma AbsorbLists(m: Memory, v: View, i: nat, k: nat)
    requires AllRings(m.next, m.prev, v.lists, v.owner) && k < |v.lists[FreeHead]| && v.lists[FreeHead][k] == i && i < |v.owner|
    ensures AbsorbView(v, i, k).lists == v.lists[FreeHead := Removed(v.lists[FreeHead], i)]
  {
    assert ListOk(m.next, m.prev, FreeHead, v.lists[FreeHead], v.owner);
    RemovedAt(v.lists[FreeHead], k);
  }

  /** Joins the free run that starts where the region ends, if there is one. */
  method JoinRight(m: Memory, a: nat, b: nat, ghost v: View) returns (m': Memory, b': nat, ghost v': View)
    requires Region(m, v, a, b)
    ensures v'.kind == v.kind && b' == JoinEnd(v.kind, b) && Region(m', v', a, b') && m'.words == m.words
    ensures v'.lists == v.lists[FreeHead := Removed(v.lists[FreeHead], b)]
  {
    if b < |m.slab| {
      LooksFreeIff(m, v, a, b, b);
      if LooksFree(m, b) {
        m', b', v' := AbsorbRight(m, a, b, v);
        return;
      }
    }
    RemovedFrom(m, v, b);
    return m, b, v;
  }

  /** What the descriptor before a region says about the run that ends there: the page before the
      region is either the only page of that run or its last page, whose back link leads to the head. */
  lemma LastPage(m: Memory, v: View, a: nat, b: nat)
    requires Detached(m, v, a, b) && 0 < a < b <= |v.kind| && v.kind[a].Block?
    ensures var h := JoinHead(v.kind, a);
            var before := m.slab[a - 1];
            && (h < a ==> Back(m.prev, Page(a - 1)).tag == TagPage)
            && (h == a - 1 ==> before != Count(0) && LooksFree(m, a - 1))
            && (h < a - 1 ==> before == Count(0) && Back(m.prev, Page(a - 1)).node == Page(h) && LooksFree(m, h))
            && (h == a ==> before != Count(0) && !LooksFree(m, a - 1))
  {
    LeftFacts(v.kind, a);
    if JoinHead(v.kind, a) < a {
      LastFree(m, v, a, b);
    } else {
      LastUsed(m, v, a, b);
    }
  }

  /** The page before is the end of a free run. */
  lemma LastFree(m: Memory, v: View, a: nat, b: nat)
    requires Detached(m, v, a, b) && 0 < a < b <= |v.kind| && v.kind[a].Block? && JoinHead(v.kind, a) < a
    ensures var h := JoinHead(v.kind, a);
            var before := m.slab[a - 1];
            && Back(m.prev, Page(a - 1)).tag == TagPage
            && (h == a - 1 ==> before != Count(0) && LooksFree(m, a - 1))
            && (h < a - 1 ==> before == Count(0) && Back(m.prev, Page(a - 1)).node == Page(h) && LooksFree(m, h))
  {
    LeftFacts(v.kind, a);
    var h := JoinHead(v.kind, a);
    assert PageOk(m, v.kind, a - 1);
    assert PageOk(m, v.kind, h);
    LooksFreeIff(m, v, a, b, a - 1);
    LooksFreeIff(m, v, a, b, h);
  }

  /** The page before is in use. */
  lemma LastUsed(m: Memory, v: View, a: nat, b: nat)
    requires Detached(m, v, a, b) && 0 < a < b <= |v.kind| && v.kind[a].Block? && JoinHead(v.kind, a) == a
    ensures m.slab[a - 1] != Count(0) && !LooksFree(m, a - 1)
  {
    LeftFacts(v.kind, a);
    assert PageOk(m, v.kind, a - 1);
    LooksFreeIff(m, v, a, b, a - 1);
  }

  lemma LeftRun(m: Memory, v: View, a: nat, b: nat, h: nat)
    requires Detached(m, v, a, b) && a < b <= |v.kind| && v.kind[a].Block? && h == JoinHead(v.kind, a) < a
    ensures v.owner[h] == FreeHead && Looks(m, h, a) && Apart(v.kind, h)
    ensures forall j | h < j < b :: v.owner[j] == Null
  {
    LeftFacts(v.kind, a);
    RunAt(m, v, a, b, h);
    ApartAt(v.kind, h);
  }

  lemma LeftLooks(m: Memory, v: View, a: nat, b: nat, h: nat, k: nat)
    requires Region(m, v, a, b) && h < a && Looks(m, h, a)
    requires k < |v.lists[FreeHead]| && v.lists[FreeHead][k] == h
    requires forall j | h < j < b :: v.owner[j] == Null
    ensures Looks(Absorbed(m, h, h, a, m.slab[h].n + m.slab[a].n), h, b)
  {
    JoinLooks(m, v.owner, v.lists[FreeHead], k, h, h, a, b);
  }

  lemma ApartAt(kind: seq<Kind>, a: nat)
    requires Tiled(kind) && a < |kind| && (kind[a].FreeRun? || kind[a].Block?)
    ensures Apart(kind, a)
  {
    forall i | 0 <= i < a && kind[i].FreeRun? ensures i + kind[i].len <= a {
      assert PageFits(kind, i);
    }
  }

  /** Joins the free run at `h` that ends where the region starts. */
  method AbsorbLeft(m: Memory, a: nat, b: nat, h: nat, ghost v: View) returns (m': Memory, ghost v': View)
    requires Region(m, v, a, b) && v.kind[a].Block? && h == JoinHead(v.kind, a) < a
    ensures v'.kind == v.kind && Region(m', v', h, b) && m'.words == m.words
    ensures v'.lists == v.lists[FreeHead := Removed(v.lists[FreeHead], h)]
  {
    LeftRun(m, v, a, b, h);
    ghost var k := Position(v.lists, v.owner, h);
    LeftLooks(m, v, a, b, h, k);
    var total := m.slab[h].n + m.slab[a].n;
    m' := Absorbed(m, h, h, a, total);
    v' := AbsorbView(v, h, k);
    AbsorbRegion(m, v, a, b, h, b, k, h, h, a, total);
    AbsorbLists(m, v, h, k);
  }

  /** Joins the free run that ends where the region starts, if there is one. */
  method JoinLeft(m: Memory, a: nat, b: nat, ghost v: View) returns (m': Memory, a': nat, ghost v': View)
    requires Region(m, v, a, b) && v.kind[a].Block?
    ensures v'.kind == v.kind && a' == JoinHead(v.kind, a) && Region(m', v', a', b) && m'.words == m.words
    ensures v'.lists == v.lists[FreeHead := Removed(v.lists[FreeHead], a')]
  {
    if a > 0 {
      LastPage(m, v, a, b);
      LeftFacts(v.kind, a);
      if Back(m.prev, Page(a - 1)).tag == TagPage {
        var join := if m.slab[a - 1] == Count(0) then Back(m.prev, Page(a - 1)).node else Page(a - 1);
        if Next(m.next, join) != Null {
          a' := join.i;
          m', v' := AbsorbLeft(m, a, b, a', v);
          return;
        }
      }
    }
    RemovedFrom(m, v, a);
    return m, a, v;
  }

  /** Page `p` starts a block of `n` pages that is about to be freed; a chunk page in that state may
      still be on the list of its slot. */
  ghost predicate Leaving(m: Memory, v: View, p: nat, n: nat) {
    && Shaped(m, |v.kind|) && |v.owner| == |v.kind|
    && Tiled(v.kind) && p < |v.kind| && v.kind[p] == Block(n) && 1 <= n && p + n <= |v.kind|
    && AllRings(m.next, m.prev, v.lists, v.owner) && Covered(v.lists, v.owner)
    && (forall i | 0 <= i < |v.kind| && i != p :: v.owner[i] == if p < i < p + n then Null else Home(v.kind[i]))
    && (if v.owner[p] == Null then Next(m.next, Page(p)) == Null else IsHead(v.owner[p]))
    && (forall i | 0 <= i < |v.kind| && !(p <= i < p + n) :: PageOk(m, v.kind, i))
  }

  /** `m.slab[p] := n`, the other descriptors of the block zeroed. */
  method ZeroBlock(m: Memory, p: nat, n: nat, ghost lists: Lists, ghost owner: seq<Node>) returns (m': Memory)
    requires 1 <= n && p + n <= |m.slab| == |m.words| == |owner| && AllRings(m.next, m.prev, lists, owner)
    requires forall i | p < i < p + n :: owner[i] == Null
    ensures |m'.slab| == |m.slab| && m'.words == m.words && AllRings(m'.next, m'.prev, lists, owner)
    ensures Looks(m', p, p + n) && SameLinks(m.next, m.prev, m'.next, m'.prev, Page(p))
    ensures KeepsPages(m, m', owner, p, p + n)
  {
    m' := m.(slab := m.slab[p := Count(n)]);
    m' := FillPages(m', p + 1, p + n, Count(0), lists, owner);
  }

  lemma UnlinkLooks(m: Memory, owner: seq<Node>, h: Node, ms: seq<nat>, k: nat, a: nat, b: nat)
    requires |m.slab| == |m.words| == |owner| && ListOk(m.next, m.prev, h, ms, owner) && IsHead(h)
    requires k < |ms| && ms[k] == a && a < b <= |owner| && Looks(m, a, b)
    requires forall j | a < j < b :: owner[j] == Null
    ensures var m' := m.(next := UnlinkNext(m.next, m.prev, Page(a)), prev := UnlinkPrev(m.next, m.prev, Page(a)));
            Looks(m', a, b) && KeepsPages(m, m', owner, a, b)
  {
    UnlinkKept(m.next, m.prev, h, ms, owner, k);
    var m' := m.(next := UnlinkNext(m.next, m.prev, Page(a)), prev := UnlinkPrev(m.next, m.prev, Page(a)));
    forall j | a < j < b ensures Inside(m', j) {
      assert Inside(m, j) && SameLinks(m.next, m.prev, m'.next, m'.prev, Page(j));
    }
  }

  /** The lists once page `p`, which is on the list of `h` or on none, has left it. */
  ghost function Unlisted(lists: Lists, h: Node, p: nat): Lists {
    if h in lists then lists[h := Removed(lists[h], p)] else lists
  }

  /** Turns a block into a region that is off every list. */
  method ClearBlock(m: Memory, p: nat, n: nat, ghost b: nat, ghost v: View) returns (m': Memory, ghost v': View)
    requires Leaving(m, v, p, n) && b == p + n
    ensures v'.kind == v.kind && Region(m', v', p, b) && m'.words == m.words
    ensures v'.lists == Unlisted(v.lists, v.owner[p], p)
  {
    m' := ZeroBlock(m, p, n, v.lists, v.owner);
    v' := v;
    ApartAt(v.kind, p);
    ghost var m1 := m';
    if Next(m'.next, Page(p)) != Null {
      ghost var h := v.owner[p];
      ghost var k := Position(v.lists, v.owner, p);
      m' := m'.(next := UnlinkNext(m'.next, m'.prev, Page(p)), prev := UnlinkPrev(m'.next, m'.prev, Page(p)));
      v' := View(v.kind, v.lists[h := Without(v.lists[h], k)], v.owner[p := Null]);
      Unlink(m1.next, m1.prev, v.lists, v.owner, h, k);
      UnlinkCovered(v.lists, v.owner, h, k);
      UnlinkLooks(m1, v.owner, h, v.lists[h], k, p, p + n);
      assert ListOk(m1.next, m1.prev, h, v.lists[h], v.owner);
      RemovedAt(v.lists[h], k);
      KeepsTrans(m, m1, m', v.owner, p, p + n);
      ClearedDetached(m, m', v, v', p, n);
    } else {
      NotListed(m1, v, p);
      ClearedDetached(m, m', v, v', p, n);
    }
  }

  lemma NotListed(m: Memory, v: View, p: nat)
    requires AllRings(m.next, m.prev, v.lists, v.owner) && Covered(v.lists, v.owner) && p < |v.owner|
    requires Next(m.next, Page(p)) == Null
    ensures !IsHead(v.owner[p])
  {
    if IsHead(v.owner[p]) {
      ListedWords(m, v, p);
    }
  }

  lemma KeepsTrans(m: Memory, m1: Memory, m2: Memory, owner: seq<Node>, a: nat, b: nat)
    requires |m.slab| == |m.words| == |m1.slab| == |m1.words| == |m2.slab| == |m2.words| == |owner|
    requires KeepsPages(m, m1, owner, a, b) && KeepsPages(m1, m2, owner, a, b)
    ensures KeepsPages(m, m2, owner, a, b)
  {
    forall i | 0 <= i < |owner| && !(a <= i < b) && owner[i] == Null
      ensures SameLinks(m.next, m.prev, m2.next, m2.prev, Page(i))
    {
      assert SameLinks(m.next, m.prev, m1.next, m1.prev, Page(i));
    }
  }

  lemma ClearedDetached(m: Memory, m': Memory, v: View, v': View, p: nat, n: nat)
    requires Leaving(m, v, p, n) && Shaped(m', |v.kind|) && KeepsPages(m, m', v.owner, p, p + n)
    requires v'.kind == v.kind && v'.owner == v.owner[p := Null] && Apart(v.kind, p)
    requires AllRings(m'.next, m'.prev, v'.lists, v'.owner) && Covered(v'.lists, v'.owner)
    ensures Detached(m', v', p, p + n)
  {
    forall i | 0 <= i < |v.kind| && !(p <= i < p + n) ensures PageOk(m', v.kind, i) {
      ClearedPage(m, m', v, p, n, i);
    }
  }

  lemma ClearedPage(m: Memory, m': Memory, v: View, p: nat, n: nat, i: nat)
    requires Leaving(m, v, p, n) && Shaped(m', |v.kind|) && KeepsPages(m, m', v.owner, p, p + n) && Apart(v.kind, p)
    requires i < |v.kind| && !(p <= i < p + n)
    ensures PageOk(m', v.kind, i)
  {
    assert PageFits(v.kind, i) && PageOk(m, v.kind, i);
    if v.kind[i].FreeRun? && 2 <= v.kind[i].len {
      var t := i + v.kind[i].len - 1;
      assert v.kind[t] == FreeBody(i) && v.owner[t] == Null;
    }
    PageOkFrame(m, m', v.kind, i);
  }

  /** The words written when the region [a, b) becomes a free run at the front of the list. */
  function FreedMemory(m: Memory, a: nat, b: nat): Memory {
    var prev := if b - a > 1 then m.prev[Page(b - 1) := Prev(Page(a), TagPage)] else m.prev;
    m.(next := PushNext(m.next, FreeHead, a), prev := PushPrev(m.next, prev, FreeHead, a))
  }

  lemma FreedRings(next: NextWords, prev: PrevWords, prev': PrevWords, lists: Lists, owner: seq<Node>, a: nat, b: nat)
    requires AllRings(next, prev, lists, owner) && Covered(lists, owner) && a < b <= |owner|
    requires forall j | a <= j < b :: owner[j] == Null
    requires prev' == if b - a > 1 then prev[Page(b - 1) := Prev(Page(a), TagPage)] else prev
    ensures var lists' := lists[FreeHead := [a] + lists[FreeHead]];
            && AllRings(PushNext(next, FreeHead, a), PushPrev(next, prev', FreeHead, a), lists', owner[a := FreeHead])
            && Covered(lists', owner[a := FreeHead])
  {
    if b - a > 1 {
      WriteBack(next, prev, lists, owner, b - 1, Prev(Page(a), TagPage));
    }
    Push(next, prev', lists, owner, FreeHead, a);
    PushCovered(lists, owner, FreeHead, a);
  }

  lemma FreedLooks(m: Memory, m': Memory, prev: PrevWords, owner: seq<Node>, ms: seq<nat>, a: nat, b: nat)
    requires |m.slab| == |m.words| == |owner| && ListOk(m.next, m.prev, FreeHead, ms, owner)
    requires a < b <= |owner| && Looks(m, a, b) && (forall j | a <= j < b :: owner[j] == Null)
    requires prev == if b - a > 1 then m.prev[Page(b - 1) := Prev(Page(a), TagPage)] else m.prev
    requires m' == m.(next := PushNext(m.next, FreeHead, a), prev := PushPrev(m.next, prev, FreeHead, a))
    ensures Looks(m', a, b) && KeepsPages(m, m', owner, a, b)
    ensures b - a > 1 ==> Back(m'.prev, Page(b - 1)) == Prev(Page(a), TagPage)
  {
    ListFrame(m.next, m.prev, m.next, prev, FreeHead, ms, owner, owner);
    PushKept(m.next, prev, FreeHead, ms, owner, a);
    forall j | 0 <= j < |owner| && j != a && owner[j] == Null
      ensures SameLinks(m.next, prev, m'.next, m'.prev, Page(j))
    {
    }
    forall j | a < j < b ensures Inside(m', j) {
      assert Inside(m, j) && SameLinks(m.next, prev, m'.next, m'.prev, Page(j));
    }
  }

  lemma JoinedPage(m: Memory, kind: seq<Kind>, p: nat, n: nat, i: nat)
    requires Tiled(kind) && Shaped(m, |kind|) && p < |kind| && kind[p] == Block(n)
    requires var a, b := JoinHead(kind, p), JoinEnd(kind, p + n);
             && a <= i < b <= |kind| && Looks(m, a, b)
             && (b - a > 1 ==> Back(m.prev, Page(b - 1)) == Prev(Page(a), TagPage))
    ensures PageOk(m, AfterFree(kind, p, n), i)
  {
  }

  lemma FreedInv(m: Memory, m': Memory, v: View, lists': Lists, p: nat, n: nat, a: nat, b: nat)
    requires Detached(m, v, a, b) && Apart(v.kind, a) && Shaped(m', |v.kind|)
    requires p < |v.kind| && v.kind[p] == Block(n) && a == JoinHead(v.kind, p) && b == JoinEnd(v.kind, p + n)
    requires a < b <= |v.kind| && KeepsPages(m, m', v.owner, a, b) && Looks(m', a, b)
    requires b - a > 1 ==> Back(m'.prev, Page(b - 1)) == Prev(Page(a), TagPage)
    requires AllRings(m'.next, m'.prev, lists', v.owner[a := FreeHead]) && Covered(lists', v.owner[a := FreeHead])
    ensures Inv(m', View(AfterFree(v.kind, p, n), lists', v.owner[a := FreeHead]))
  {
    var k' := AfterFree(v.kind, p, n);
    FreeTiled(v.kind, p, n);
    forall i | 0 <= i < |k'| ensures PageOk(m', k', i) {
      if a <= i < b {
        JoinedPage(m', v.kind, p, n, i);
      } else {
        PageKept(m, m', v, a, b, a, b, i);
        SamePageOk(m', v.kind, k', i);
      }
    }
  }

  /** The lists after the block at `p` was freed: its neighbours have left the list of free runs, and the
      joined run, which starts at `a`, is the first one. */
  ghost function FreedLists(lists: Lists, h: Node, p: nat, n: nat, a: nat): Lists {
    var rest := Unlisted(lists, h, p);
    if FreeHead in rest then rest[FreeHead := [a] + Removed(Removed(rest[FreeHead], p + n), a)] else rest
  }

  /** Frees the block of `n` pages at `p`: it joins the free runs on both sides, and the resulting
      run goes to the front of the list. */
  method FreePages(m: Memory, p: nat, n: nat, ghost v: View) returns (m': Memory, ghost v': View)
    requires Leaving(m, v, p, n)
    ensures Inv(m', v') && v'.kind == AfterFree(v.kind, p, n)
    ensures m'.words == m.words
    ensures v'.lists == FreedLists(v.lists, v.owner[p], p, n, JoinHead(v.kind, p))
  {
    var b := p + n;
    var m1, v1 := ClearBlock(m, p, n, b, v);
    var m2, a, e, v2 := JoinBoth(m1, p, b, v1);
    m', v' := ListRegion(m2, a, e, v2, p, n, b);
    FreedChain(v.lists, v1.lists, v2.lists, v'.lists, v.owner[p], p, n, b, a);
  }

  /** Joins the free runs on both sides. */
  method JoinBoth(m: Memory, p: nat, b: nat, ghost v: View) returns (m': Memory, a: nat, e: nat, ghost v': View)
    requires Region(m, v, p, b) && v.kind[p].Block?
    ensures v'.kind == v.kind && a == JoinHead(v.kind, p) && e == JoinEnd(v.kind, b)
    ensures Region(m', v', a, e) && m'.words == m.words
    ensures v'.lists == v.lists[FreeHead := Removed(Removed(v.lists[FreeHead], b), a)]
  {
    var m1;
    ghost var v1;
    m1, e, v1 := JoinRight(m, p, b, v);
    m', a, v' := JoinLeft(m1, p, e, v1);
    TwoRemoved(v.lists, v1.lists, v'.lists, b, a);
  }

  lemma TwoRemoved(l0: Lists, l1: Lists, l2: Lists, x: nat, y: nat)
    requires FreeHead in l0 && l1 == l0[FreeHead := Removed(l0[FreeHead], x)] && l2 == l1[FreeHead := Removed(l1[FreeHead], y)]
    ensures l2 == l0[FreeHead := Removed(Removed(l0[FreeHead], x), y)]
  {
  }

  lemma FreedChain(l0: Lists, l1: Lists, l2: Lists, l3: Lists, h: Node, p: nat, n: nat, b: nat, a: nat)
    requires b == p + n && FreeHead in l0 && l1 == Unlisted(l0, h, p)
    requires l2 == l1[FreeHead := Removed(Removed(l1[FreeHead], b), a)]
    requires l3 == l2[FreeHead := [a] + l2[FreeHead]]
    ensures l3 == FreedLists(l0, h, p, n, a)
  {
  }

  /** Makes the region [a, b) around the freed block a free run at the front of the list. */
  method ListRegion(m: Memory, a: nat, b: nat, ghost v: View, ghost p: nat, ghost n: nat, ghost q: nat)
    returns (m': Memory, ghost v': View)
    requires Region(m, v, a, b) && p < |v.kind| && v.kind[p] == Block(n)
    requires a == JoinHead(v.kind, p) && q == p + n && b == JoinEnd(v.kind, q)
    ensures Inv(m', v') && v'.kind == AfterFree(v.kind, p, n) && m'.words == m.words
    ensures v'.lists == v.lists[FreeHead := [a] + v.lists[FreeHead]]
  {
    m' := FreedMemory(m, a, b);
    ghost var prev := if b - a > 1 then m.prev[Page(b - 1) := Prev(Page(a), TagPage)] else m.prev;
    FreedRings(m.next, m.prev, prev, v.lists, v.owner, a, b);
    FreedLooks(m, m', prev, v.owner, v.lists[FreeHead], a, b);
    ghost var lists' := v.lists[FreeHead := [a] + v.lists[FreeHead]];
    FreedInv(m, m', v, lists', p, n, a, b);
    v' := View(AfterFree(v.kind, p, n), lists', v.owner[a := FreeHead]);
  }

  ghost predicate ShortRun(kind: seq<Kind>, f: nat, n: nat) {
    f < |kind| && kind[f].FreeRun? && kind[f].len < n
  }

  ghost predicate LongRun(kind: seq<Kind>, f: nat, n: nat) {
    f < |kind| && kind[f].FreeRun? && n <= kind[f].len
  }

  /** The k-th run of the list is the first one that is long enough. */
  ghost predicate FirstFit(kind: seq<Kind>, ms: seq<nat>, n: nat, k: nat) {
    k < |ms| && LongRun(kind, ms[k], n) && forall j | 0 <= j < k :: !LongRun(kind, ms[j], n)
  }

  /** The first run that is long enough is the one at `f`, and what is left of it takes its place. */
  ghost predicate Took(kind: seq<Kind>, lists: Lists, n: nat, f: nat, lists': Lists) {
    && FreeHead in lists && f < |kind| && kind[f].FreeRun?
    && exists k: nat :: FirstFit(kind, lists[FreeHead], n, k) && lists[FreeHead][k] == f
                        && lists' == lists[FreeHead := CutList(lists[FreeHead], k, f, n, kind[f].len)]
  }

  /** Looks for the first free run, in list order, that is long enough. */
  method FindRun(m: Memory, n: nat, ghost v: View) returns (r: Option<nat>, ghost k: nat)
    requires Inv(m, v)
    ensures r.None? ==> forall i | 0 <= i < |v.kind| && v.kind[i].FreeRun? :: v.kind[i].len < n
    ensures r.Some? ==> FirstFit(v.kind, v.lists[FreeHead], n, k) && v.lists[FreeHead][k] == r.value
  {
    ghost var ms := v.lists[FreeHead];
    assert ListOk(m.next, m.prev, FreeHead, ms, v.owner);
    var page := Next(m.next, FreeHead);
    k := 0;
    while page != FreeHead
      invariant 0 <= k <= |ms| && page == At(FreeHead, ms, k)
      invariant forall j | 0 <= j < k :: ShortRun(v.kind, ms[j], n)
      decreases |ms| - k
    {
      ghost var next := k + 1;
      ListedRun(m, v, ms, k, next);
      if m.slab[page.i].n >= n {
        return Some(page.i), k;
      }
      page := Next(m.next, page);
      k := next;
    }
    AllShort(m, v, n);
    return None, k;
  }

  lemma ListedRun(m: Memory, v: View, ms: seq<nat>, k: nat, next: nat)
    requires Inv(m, v) && ms == v.lists[FreeHead] && k < |ms| && next == k + 1
    ensures ms[k] < |v.kind| && v.kind[ms[k]].FreeRun? && m.slab[ms[k]] == Count(v.kind[ms[k]].len)
    ensures Next(m.next, Page(ms[k])) == At(FreeHead, ms, next)
  {
    assert ListOk(m.next, m.prev, FreeHead, ms, v.owner);
    assert v.owner[ms[k]] == FreeHead && LinkOk(m.next, m.prev, FreeHead, ms, TagPage, k);
    RunFacts(m, v, ms[k]);
  }

  lemma AllShort(m: Memory, v: View, n: nat)
    requires Inv(m, v) && forall j | 0 <= j < |v.lists[FreeHead]| :: ShortRun(v.kind, v.lists[FreeHead][j], n)
    ensures forall i | 0 <= i < |v.kind| && v.kind[i].FreeRun? :: v.kind[i].len < n
  {
    forall i | 0 <= i < |v.kind| && v.kind[i].FreeRun? ensures v.kind[i].len < n {
      var j := Position(v.lists, v.owner, i);
      assert ShortRun(v.kind, v.lists[FreeHead][j], n);
    }
  }

  /** Takes `n` pages from the first free run, in list order, that is long enough. */
  method AllocPages(m: Memory, n: nat, ghost v: View) returns (r: Option<nat>, m': Memory, ghost v': View)
    requires Inv(m, v) && 1 <= n
    ensures Inv(m', v') && m'.words == m.words
    ensures r.None? ==> m' == m && v' == v && forall i | 0 <= i < |v.kind| && v.kind[i].FreeRun? :: v.kind[i].len < n
    ensures r.Some? ==>
      && r.value < |v.kind| && v.kind[r.value].FreeRun? && n <= v.kind[r.value].len
      && v'.kind == AfterAlloc(v.kind, r.value, n) && Took(v.kind, v.lists, n, r.value, v'.lists)
  {
    ghost var k;
    r, k := FindRun(m, n, v);
    m', v' := m, v;
    if r.Some? {
      m', v' := TakeRun(m, r.value, n, v, k);
    }
  }

  /** Cuts `n` pages off the front of the free run at `f`. */
  method TakeRun(m: Memory, f: nat, n: nat, ghost v: View, ghost k: nat) returns (m': Memory, ghost v': View)
    requires Inv(m, v) && k < |v.lists[FreeHead]| && v.lists[FreeHead][k] == f
    requires f < |v.kind| && v.kind[f].FreeRun? && 1 <= n <= v.kind[f].len
    ensures Inv(m', v') && v'.kind == AfterAlloc(v.kind, f, n) && m'.words == m.words
    ensures v'.lists == v.lists[FreeHead := CutList(v.lists[FreeHead], k, f, n, v.kind[f].len)]
  {
    RunFacts(m, v, f);
    ghost var len := v.kind[f].len;
    ghost var owner := CutOwner(v.owner, f, n, len);
    var m1, lists' := CutRun(m, f, n, v.lists, v.owner, k);
    m' := MarkBlock(m1, f, n, lists', owner);
    MarkedKept(m, m1, m', v.owner, f, n, len);
    SplitInv(m, m', v, lists', f, n);
    v' := View(AfterAlloc(v.kind, f, n), lists', owner);
  }

  lemma MarkedKept(m: Memory, m1: Memory, m2: Memory, owner: seq<Node>, f: nat, n: nat, len: nat)
    requires |m.slab| == |m.words| == |m1.slab| == |m1.words| == |m2.slab| == |m2.words| == |owner|
    requires 1 <= n <= len && f + len <= |owner| && KeepsPages(m, m1, owner, f, f + len) && Remnant(m1, f, n, len)
    requires m2.words == m1.words
    requires forall i | 0 <= i < |owner| && !(f <= i < f + n) ::
               m2.slab[i] == m1.slab[i] && SameLinks(m1.next, m1.prev, m2.next, m2.prev, Page(i))
    ensures KeepsPages(m, m2, owner, f, f + len) && Remnant(m2, f, n, len)
  {
    forall i | 0 <= i < |owner| && !(f <= i < f + len) && owner[i] == Null
      ensures SameLinks(m.next, m.prev, m2.next, m2.prev, Page(i))
    {
      assert SameLinks(m.next, m.prev, m1.next, m1.prev, Page(i));
    }
    forall i | f + n < i < f + len ensures Inside(m2, i) {
      assert Inside(m1, i);
    }
  }
}
