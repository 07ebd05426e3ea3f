/** Taking and releasing chunks. */
module SlabChunks {
  import opened Rings
  import opened SlabLayout
  import opened SlabPages
  import opened SlabBits
  import opened SlabSteps

  /** Marks the first free chunk of a chunk page in its bitmap. */
  method MarkChunk(w: SlabWord, ws: seq<seq<bool>>, shift: nat, ghost used: set<nat>)
    returns (c: nat, w': SlabWord, ws': seq<seq<bool>>, full: bool)
    requires IsShift(shift) && IsPageWords(ws) && Encodes(w, ws, shift, used) && !Full(Chunks(shift, used))
    requires forall c | c in used :: Reserved(shift) <= c < Capacity(shift)
    ensures Reserved(shift) <= c < Capacity(shift) && c !in used
    ensures forall j | Reserved(shift) <= j < c :: j in used
    ensures IsPageWords(ws') && Encodes(w', ws', shift, used + {c})
    ensures full <==> Full(Chunks(shift, used + {c}))
  {
    ClassTable(shift);
    ghost var some :| Reserved(shift) <= some < Capacity(shift) && some !in used;
    w', ws' := w, ws;
    if shift < EXACT_SHIFT {
      c, ws', full := TakeSmall(ws, shift, used, some);
    } else if shift == EXACT_SHIFT {
      var bits;
      c, bits, full := TakeBit(w.bits, 64, used, some);
      w' := Map(bits);
    } else {
      var bits;
      c, bits, full := TakeBit(w.bits, Capacity(shift), used, some);
      w' := BigMap(bits, shift);
    }
  }

  /** Changing the bitmap of page `i` leaves the other pages and all links alone. */
  lemma RewriteKept(m: Memory, i: nat, w: SlabWord, ws: seq<seq<bool>>, owner: seq<Node>)
    requires Shaped(m, |owner|) && i < |owner| && IsPageWords(ws)
    ensures var m' := m.(slab := m.slab[i := w], words := m.words[i := ws]);
            Shaped(m', |owner|) && KeepsPages(m, m', owner, i, i + 1)
  {
  }

  /** The words written when page `i` has filled up: its new bitmap, and it leaves its list. */
  function FilledMemory(m: Memory, i: nat, w: SlabWord, ws: seq<seq<bool>>, tag: Tag): Memory
    requires i < |m.slab| == |m.words|
  {
    Memory(UnlinkNext(m.next, m.prev, Page(i))[Page(i) := Null],
           UnlinkPrev(m.next, m.prev, Page(i))[Page(i) := Prev(Null, tag)],
           m.slab[i := w], m.words[i := ws])
  }

  lemma FilledRings(next: NextWords, prev: PrevWords, lists: Lists, owner: seq<Node>, h: Node, k: nat, i: nat, tag: Tag)
    requires AllRings(next, prev, lists, owner) && Covered(lists, owner) && IsHead(h)
    requires k < |lists[h]| && lists[h][k] == i && i < |owner|
    ensures var lists' := lists[h := Without(lists[h], k)];
            && AllRings(UnlinkNext(next, prev, Page(i))[Page(i) := Null],
                        UnlinkPrev(next, prev, Page(i))[Page(i) := Prev(Null, tag)], lists', owner[i := Null])
            && Covered(lists', owner[i := Null])
  {
    Unlink(next, prev, lists, owner, h, k);
    UnlinkCovered(lists, owner, h, k);
    Write(UnlinkNext(next, prev, Page(i)), UnlinkPrev(next, prev, Page(i)),
          lists[h := Without(lists[h], k)], owner[i := Null], i, Null, Prev(Null, tag));
  }

  lemma FilledKept(m: Memory, owner: seq<Node>, h: Node, ms: seq<nat>, k: nat, i: nat, w: SlabWord, ws: seq<seq<bool>>, tag: Tag)
    requires Shaped(m, |owner|) && ListOk(m.next, m.prev, h, ms, owner) && IsHead(h)
    requires k < |ms| && ms[k] == i && i < |owner| && IsPageWords(ws)
    ensures var m' := FilledMemory(m, i, w, ws, tag);
            Shaped(m', |owner|) && KeepsPages(m, m', owner, i, i + 1) && Loose(m', i, tag)
  {
    UnlinkKept(m.next, m.prev, h, ms, owner, k);
    var m' := FilledMemory(m, i, w, ws, tag);
    forall j | 0 <= j < |owner| && j != i && owner[j] == Null
      ensures SameLinks(m.next, m.prev, m'.next, m'.prev, Page(j))
    {
      assert SameLinks(m.next, m.prev, UnlinkNext(m.next, m.prev, Page(i)), UnlinkPrev(m.next, m.prev, Page(i)), Page(j));
    }
  }

  /** The lists after a chunk of page `i` was taken: a page that is full leaves the list of its slot. */
  ghost function TakenLists(lists: Lists, kind: seq<Kind>, i: nat, shift: nat): Lists
    requires i < |kind| && kind[i].Chunks? && kind[i].shift == shift && IsShift(shift)
  {
    var h := SlotOf(shift);
    if Full(kind[i]) && h in lists then lists[h := Removed(lists[h], i)] else lists
  }

  /** Takes the first free chunk of page `i`, which is on the list of its slot. */
  method TakeChunk(m: Memory, i: nat, shift: nat, ghost v: View) returns (c: nat, m': Memory, ghost v': View)
    requires Inv(m, v) && i < |v.kind| && v.kind[i].Chunks? && v.kind[i].shift == shift && IsShift(shift)
    requires !Full(v.kind[i])
    ensures Reserved(shift) <= c < Capacity(shift) && c !in v.kind[i].used
    ensures forall j | Reserved(shift) <= j < c :: j in v.kind[i].used
    ensures Inv(m', v') && v'.kind == v.kind[i := Chunks(shift, v.kind[i].used + {c})]
    ensures forall j | 0 <= j < |v.kind| && j != i :: m'.words[j] == m.words[j]
    ensures v'.lists == TakenLists(v.lists, v'.kind, i, shift)
  {
    ghost var used := v.kind[i].used;
    assert PageOk(m, v.kind, i) && PageFits(v.kind, i);
    var w, ws, full;
    c, w, ws, full := MarkChunk(m.slab[i], m.words[i], shift, used);
    ghost var k := Chunks(shift, used + {c});
    if full {
      m', v' := FillPage(m, i, shift, w, ws, v, k);
    } else {
      m' := m.(slab := m.slab[i := w], words := m.words[i := ws]);
      RewriteKept(m, i, w, ws, v.owner);
      assert v.owner[i := Home(k)] == v.owner;
      StepInv(m, m', v, v.lists, i, k);
      v' := View(v.kind[i := k], v.lists, v.owner);
    }
  }

  /** Page `i` has filled up: it gets its new bitmap and leaves its list. */
  method FillPage(m: Memory, i: nat, shift: nat, w: SlabWord, ws: seq<seq<bool>>, ghost v: View, ghost k: Kind)
    returns (m': Memory, ghost v': View)
    requires Inv(m, v) && i < |v.kind| && v.kind[i].Chunks? && v.kind[i].shift == shift && IsShift(shift) && !Full(v.kind[i])
    requires IsPageWords(ws) && k.Chunks? && k.shift == shift && Encodes(w, ws, shift, k.used) && Full(k)
    requires PageFits(v.kind[i := k], i)
    ensures Inv(m', v') && v'.kind == v.kind[i := k] && m'.words == m.words[i := ws]
    ensures v'.lists == v.lists[SlotOf(shift) := Removed(v.lists[SlotOf(shift)], i)]
  {
    var tag := HeadTag(SlotOf(shift));
    ghost var h := SlotOf(shift);
    ghost var pos := Position(v.lists, v.owner, i);
    m' := FilledMemory(m, i, w, ws, tag);
    FilledRings(m.next, m.prev, v.lists, v.owner, h, pos, i, tag);
    FilledKept(m, v.owner, h, v.lists[h], pos, i, w, ws, tag);
    StepInv(m, m', v, v.lists[h := Without(v.lists[h], pos)], i, k);
    assert ListOk(m.next, m.prev, h, v.lists[h], v.owner);
    RemovedAt(v.lists[h], pos);
    v' := View(v.kind[i := k], v.lists[h := Without(v.lists[h], pos)], v.owner[i := Null]);
  }

  /** Writes the bitmap of a fresh page of small chunks: the reserved chunks and the first other one
      are taken (`bitmap[0] = (2 << n) - 1`, the other words zero). */
  method InitSmall(ws: seq<seq<bool>>, shift: nat) returns (ws': seq<seq<bool>>)
    requires MIN_SHIFT <= shift < EXACT_SHIFT && IsPageWords(ws)
    ensures IsPageWords(ws') && Encodes(Shift(shift), ws', shift, {Reserved(shift)})
  {
    ClassTable(shift);
    var n := Reserved(shift);
    ws' := ws[0 := seq(WORD_BITS, b => b <= n)];
    var map_ := MapWords(shift);
    var i := 1;
    while i < map_
      invariant 1 <= i <= map_ && IsPageWords(ws') && ws'[0] == seq(WORD_BITS, b => b <= n)
      invariant forall j | 1 <= j < i :: ws'[j] == ZERO
    {
      ws' := ws'[i := ZERO];
      i := i + 1;
    }
    forall c | 0 <= c < Capacity(shift) ensures SmallBit(ws', c) <==> c <= n {
      if c < WORD_BITS {
        assert c / WORD_BITS == 0 && c % WORD_BITS == c;
      } else {
        assert 1 <= c / WORD_BITS < map_;
      }
    }
  }

  /** The bitmap of a fresh chunk page: its first chunk that is not reserved is taken. */
  method InitChunks(ws: seq<seq<bool>>, shift: nat) returns (w: SlabWord, ws': seq<seq<bool>>)
    requires IsShift(shift) && IsPageWords(ws)
    ensures IsPageWords(ws') && Encodes(w, ws', shift, {Reserved(shift)})
  {
    ws' := ws;
    if shift < EXACT_SHIFT {
      ws' := InitSmall(ws, shift);
      w := Shift(shift);
    } else if shift == EXACT_SHIFT {
      w := Map(seq(64, b => b == 0));
    } else {
      w := BigMap(seq(32, b => b == 0), shift);
    }
  }

  /** The words written when page `f` becomes the only page on the list of slot `h`. */
  function FreshMemory(m: Memory, f: nat, h: Node, w: SlabWord, ws: seq<seq<bool>>): Memory
    requires f < |m.slab| == |m.words|
  {
    Memory(m.next[Page(f) := h][h := Page(f)], m.prev[Page(f) := Prev(h, HeadTag(h))],
           m.slab[f := w], m.words[f := ws])
  }

  lemma FreshRings(next: NextWords, prev: PrevWords, lists: Lists, owner: seq<Node>, h: Node, f: nat)
    requires AllRings(next, prev, lists, owner) && Covered(lists, owner) && IsHead(h)
    requires f < |owner| && owner[f] == Null && lists[h] == []
    ensures var lists' := lists[h := [f]];
            && AllRings(next[Page(f) := h][h := Page(f)], prev[Page(f) := Prev(h, HeadTag(h))], lists', owner[f := h])
            && Covered(lists', owner[f := h])
  {
    assert ListOk(next, prev, h, lists[h], owner);
    var next', prev' := next[Page(f) := h][h := Page(f)], prev[Page(f) := Prev(h, HeadTag(h))];
    assert LinkOk(next', prev', h, [f], HeadTag(h), 0);
    OneList(next, prev, next', prev', lists, owner, owner[f := h], h, [f], {f});
  }

  /** Cuts the fresh page `f` into chunks and takes the first one. */
  method CutPage(m: Memory, f: nat, shift: nat, ghost v: View) returns (m': Memory, ghost v': View)
    requires Inv(m, v) && f < |v.kind| && v.kind[f] == Block(1) && IsShift(shift)
    requires forall j | 0 <= j < |v.kind| :: Home(v.kind[j]) != SlotOf(shift)
    ensures Inv(m', v') && v'.kind == v.kind[f := Chunks(shift, {Reserved(shift)})]
    ensures forall j | 0 <= j < |v.kind| && j != f :: m'.words[j] == m.words[j]
    ensures v'.lists == v.lists[SlotOf(shift) := [f]]
  {
    ClassTable(shift);
    ghost var h := SlotOf(shift);
    var w, ws := InitChunks(m.words[f], shift);
    m' := FreshMemory(m, f, SlotOf(shift), w, ws);
    FirstListed(m, v, h);
    FreshStep(m, v, f, shift, w, ws);
    v' := View(v.kind[f := Chunks(shift, {Reserved(shift)})], v.lists[h := [f]], v.owner[f := h]);
  }

  /** The first page on a list belongs there. */
  lemma FirstListed(m: Memory, v: View, h: Node)
    requires Inv(m, v) && IsHead(h)
    ensures v.lists[h] != [] ==>
      && v.lists[h][0] < |v.kind| && Home(v.kind[v.lists[h][0]]) == h && Next(m.next, h) == Page(v.lists[h][0])
      && Next(m.next, Page(v.lists[h][0])) != Page(v.lists[h][0])
    ensures v.lists[h] == [] ==> Next(m.next, h) == h
  {
    var ms := v.lists[h];
    assert ListOk(m.next, m.prev, h, ms, v.owner);
    if ms != [] {
      assert v.owner[ms[0]] == h && LinkOk(m.next, m.prev, h, ms, HeadTag(h), 0);
    }
  }

  lemma FreshStep(m: Memory, v: View, f: nat, shift: nat, w: SlabWord, ws: seq<seq<bool>>)
    requires Inv(m, v) && f < |v.kind| && v.kind[f] == Block(1) && IsShift(shift) && v.lists[SlotOf(shift)] == []
    requires IsPageWords(ws) && Encodes(w, ws, shift, {Reserved(shift)})
    requires Reserved(shift) < Capacity(shift) - 1
    ensures var h := SlotOf(shift);
            Inv(FreshMemory(m, f, h, w, ws),
                View(v.kind[f := Chunks(shift, {Reserved(shift)})], v.lists[h := [f]], v.owner[f := h]))
  {
    var h := SlotOf(shift);
    var m' := FreshMemory(m, f, h, w, ws);
    var k := Chunks(shift, {Reserved(shift)});
    NotFull(shift, Reserved(shift));
    FreshRings(m.next, m.prev, v.lists, v.owner, h, f);
    FreshKept(m, f, h, w, ws, v.owner);
    StepInv(m, m', v, v.lists[h := [f]], f, k);
  }

  lemma NotFull(shift: nat, c: nat)
    requires IsShift(shift) && c == Reserved(shift) < Capacity(shift) - 1
    ensures !Full(Chunks(shift, {c})) && Home(Chunks(shift, {c})) == SlotOf(shift)
  {
    var last := Capacity(shift) - 1;
    assert last !in Chunks(shift, {c}).used;
  }

  lemma FreshKept(m: Memory, f: nat, h: Node, w: SlabWord, ws: seq<seq<bool>>, owner: seq<Node>)
    requires Shaped(m, |owner|) && f < |owner| && IsPageWords(ws) && !h.Page?
    ensures var m' := FreshMemory(m, f, h, w, ws);
            Shaped(m', |owner|) && KeepsPages(m, m', owner, f, f + 1)
  {
  }

  /** Clears chunk `c` of a chunk page in its bitmap and tells whether the page is now unused. */
  method ClearChunk(w: SlabWord, ws: seq<seq<bool>>, shift: nat, c: nat, ghost used: set<nat>)
    returns (w': SlabWord, ws': seq<seq<bool>>, empty: bool)
    requires IsShift(shift) && IsPageWords(ws) && Encodes(w, ws, shift, used) && c in used
    requires forall j | j in used :: Reserved(shift) <= j < Capacity(shift)
    ensures IsPageWords(ws') && Encodes(w', ws', shift, used - {c})
    ensures empty <==> used - {c} == {}
  {
    ClassTable(shift);
    w', ws' := w, ws;
    if shift < EXACT_SHIFT {
      ws', empty := ClearSmall(ws, shift, c, used);
    } else if shift == EXACT_SHIFT {
      var bits;
      bits, empty := ClearBit(w.bits, c, used);
      w' := Map(bits);
    } else {
      var bits;
      bits, empty := ClearBit(w.bits, c, used);
      w' := BigMap(bits, shift);
    }
  }

  /** The words written when a chunk of the full page `i` is released: the page goes back to the
      front of the list of slot `h`. */
  function RelistedMemory(m: Memory, i: nat, h: Node, w: SlabWord, ws: seq<seq<bool>>): Memory
    requires i < |m.slab| == |m.words|
  {
    Memory(PushNext(m.next, h, i), PushPrev(m.next, m.prev, h, i), m.slab[i := w], m.words[i := ws])
  }

  lemma RelistedKept(m: Memory, i: nat, h: Node, ms: seq<nat>, w: SlabWord, ws: seq<seq<bool>>, owner: seq<Node>)
    requires Shaped(m, |owner|) && i < |owner| && IsPageWords(ws)
    requires IsHead(h) && ListOk(m.next, m.prev, h, ms, owner)
    ensures var m' := RelistedMemory(m, i, h, w, ws);
            Shaped(m', |owner|) && KeepsPages(m, m', owner, i, i + 1)
  {
    PushKept(m.next, m.prev, h, ms, owner, i);
  }

  /** The lists once page `i` is on the list of its slot; one that was full comes first. */
  ghost function Relisted(lists: Lists, kind: seq<Kind>, i: nat, shift: nat): Lists
    requires i < |kind| && kind[i].Chunks? && kind[i].shift == shift && IsShift(shift)
  {
    var h := SlotOf(shift);
    if Full(kind[i]) && h in lists then lists[h := [i] + lists[h]] else lists
  }

  /** Rewrites the bitmap of page `i`, putting the page back on the list of its slot if it was full. */
  method Relist(m: Memory, i: nat, shift: nat, w: SlabWord, ws: seq<seq<bool>>, ghost v: View)
    returns (m': Memory, ghost lists': Lists)
    requires Inv(m, v) && i < |v.kind| && v.kind[i].Chunks? && v.kind[i].shift == shift && IsShift(shift)
    requires IsPageWords(ws)
    ensures OnePage(m, m', v, lists', i, SlotOf(shift))
    ensures m'.slab == m.slab[i := w] && m'.words == m.words[i := ws]
    ensures lists' == Relisted(v.lists, v.kind, i, shift)
  {
    var h := SlotOf(shift);
    assert PageOk(m, v.kind, i);
    if Next(m.next, Page(i)) == Null {
      NotListed(m, v, i);
      m' := RelistedMemory(m, i, h, w, ws);
      lists' := v.lists[h := [i] + v.lists[h]];
      Push(m.next, m.prev, v.lists, v.owner, h, i);
      PushCovered(v.lists, v.owner, h, i);
      RelistedKept(m, i, h, v.lists[h], w, ws, v.owner);
    } else {
      m' := m.(slab := m.slab[i := w], words := m.words[i := ws]);
      lists' := v.lists;
      RewriteKept(m, i, w, ws, v.owner);
      assert v.owner[i := h] == v.owner;
    }
  }

  /** What the page table becomes when chunk `c` of page `i` is released. */
  ghost function AfterRelease(kind: seq<Kind>, i: nat, c: nat): seq<Kind>
    requires i < |kind| && kind[i].Chunks?
  {
    if kind[i].used - {c} == {} then AfterFree(kind[i := Block(1)], i, 1)
    else kind[i := Chunks(kind[i].shift, kind[i].used - {c})]
  }

  /** What the lists become. */
  ghost function ReleasedLists(lists: Lists, kind: seq<Kind>, i: nat, c: nat): Lists
    requires i < |kind| && kind[i].Chunks? && IsShift(kind[i].shift)
  {
    var h, rest := SlotOf(kind[i].shift), Relisted(lists, kind, i, kind[i].shift);
    if kind[i].used - {c} == {} then FreedLists(rest, h, i, 1, JoinHead(kind[i := Block(1)], i)) else rest
  }

  /** Releases chunk `c` of page `i`; a page left without used chunks is freed. */
  method ReleaseChunk(m: Memory, i: nat, shift: nat, c: nat, ghost v: View) returns (m': Memory, ghost v': View)
    requires Inv(m, v) && i < |v.kind| && v.kind[i].Chunks? && v.kind[i].shift == shift && IsShift(shift)
    requires c in v.kind[i].used
    ensures Inv(m', v') && v'.kind == AfterRelease(v.kind, i, c)
    ensures forall j | 0 <= j < |v.kind| && j != i :: m'.words[j] == m.words[j]
    ensures v'.lists == ReleasedLists(v.lists, v.kind, i, c)
  {
    ghost var used := v.kind[i].used;
    assert PageOk(m, v.kind, i) && PageFits(v.kind, i);
    var w, ws, empty := ClearChunk(m.slab[i], m.words[i], shift, c, used);
    var m1, lists' := Relist(m, i, shift, w, ws, v);
    if empty {
      StepLeaving(m, m1, v, lists', i, SlotOf(shift));
      m', v' := FreePages(m1, i, 1, View(v.kind[i := Block(1)], lists', v.owner[i := SlotOf(shift)]));
    } else {
      ghost var k := Chunks(shift, used - {c});
      assert !Full(k) by { assert c !in k.used; }
      m' := m1;
      StepInv(m, m', v, lists', i, k);
      v' := View(v.kind[i := k], lists', v.owner[i := SlotOf(shift)]);
    }
  }
}
