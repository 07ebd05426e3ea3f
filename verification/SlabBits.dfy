/** The chunk bitmaps of the slab allocator, in their three layouts: words at
    the start of the page (small chunks), the whole `slab` word (64 chunks),
    the high half of the `slab` word (big chunks). */
module SlabBits {
  import opened SlabLayout
  import opened SlabPages

  const BUSY: seq<bool> := seq(WORD_BITS, _ => true)
  const ZERO: seq<bool> := seq(WORD_BITS, _ => false)

  /** The position of the lowest clear bit. */
  method LowestClear(bits: seq<bool>, ghost some: nat) returns (i: nat)
    requires some < |bits| && !bits[some]
    ensures i <= some && !bits[i] && forall j | 0 <= j < i :: bits[j]
  {
    i := 0;
    while bits[i]
      invariant i <= some && forall j | 0 <= j < i :: bits[j]
      decreases some - i
    {
      i := i + 1;
    }
  }

  lemma SplitIndex(n: nat, i: nat)
    requires i < WORD_BITS
    ensures (n * WORD_BITS + i) / WORD_BITS == n && (n * WORD_BITS + i) % WORD_BITS == i
  {
  }

  /** Setting or clearing one bit of the in-page bitmap. */
  lemma FlipSmall(ws: seq<seq<bool>>, n: nat, i: nat, b: bool)
    requires IsPageWords(ws) && n < PAGE_WORDS && i < WORD_BITS
    ensures IsPageWords(ws[n := ws[n][i := b]])
    ensures forall c: nat | c < PAGE_WORDS * WORD_BITS ::
              SmallBit(ws[n := ws[n][i := b]], c) <==> if c == n * WORD_BITS + i then b else SmallBit(ws, c)
  {
    var ws' := ws[n := ws[n][i := b]];
    forall c: nat | c < PAGE_WORDS * WORD_BITS
      ensures SmallBit(ws', c) <==> if c == n * WORD_BITS + i then b else SmallBit(ws, c)
    {
      if c / WORD_BITS == n && c % WORD_BITS == i {
        assert c == n * WORD_BITS + i;
      }
    }
  }

  ghost predicate SmallSet(ws: seq<seq<bool>>, lo: nat, hi: nat)
    requires IsPageWords(ws)
  {
    forall c: nat | lo <= c < hi :: SmallBit(ws, c)
  }

  /** A word of ones is 64 set bits. */
  lemma BusyWord(ws: seq<seq<bool>>, n: nat)
    requires IsPageWords(ws) && n < PAGE_WORDS
    ensures ws[n] == BUSY <==> SmallSet(ws, n * WORD_BITS, n * WORD_BITS + WORD_BITS)
  {
    if ws[n] == BUSY {
      forall c: nat | n * WORD_BITS <= c < n * WORD_BITS + WORD_BITS ensures SmallBit(ws, c) {
        SplitIndex(n, c - n * WORD_BITS);
      }
    }
    if SmallSet(ws, n * WORD_BITS, n * WORD_BITS + WORD_BITS) {
      forall i | 0 <= i < WORD_BITS ensures ws[n][i] {
        SplitIndex(n, i);
        assert SmallBit(ws, n * WORD_BITS + i);
      }
      assert ws[n] == BUSY;
    }
  }

  /** Takes the first free chunk of a page of small chunks, and tells whether it was the last. */
  method TakeSmall(ws: seq<seq<bool>>, shift: nat, ghost used: set<nat>, ghost some: nat)
    returns (c: nat, ws': seq<seq<bool>>, full: bool)
    requires MIN_SHIFT <= shift < EXACT_SHIFT && IsPageWords(ws) && Encodes(Shift(shift), ws, shift, used)
    requires some < Capacity(shift) && !SmallBit(ws, some)
    ensures Reserved(shift) <= c < Capacity(shift) && c !in used
    ensures forall j | Reserved(shift) <= j < c :: j in used
    ensures IsPageWords(ws') && Encodes(Shift(shift), ws', shift, used + {c})
    ensures full <==> Full(Chunks(shift, used + {c}))
  {
    ClassTable(shift);
    var map_ := MapWords(shift);
    var n := 0;
    while ws[n] == BUSY
      invariant n < map_ && n * WORD_BITS <= some && SmallSet(ws, 0, n * WORD_BITS)
      decreases map_ - n
    {
      BusyWord(ws, n);
      n := n + 1;
    }
    ghost var clear :| 0 <= clear < WORD_BITS && !ws[n][clear];
    var i := LowestClear(ws[n], clear);
    SplitIndex(n, i);
    c := n * WORD_BITS + i;
    assert !SmallBit(ws, c);
    forall j | Reserved(shift) <= j < c ensures j in used {
      assert j < n * WORD_BITS || (j / WORD_BITS == n && j % WORD_BITS < i);
      assert SmallBit(ws, j);
    }
    ws' := ws[n := ws[n][i := true]];
    FlipSmall(ws, n, i, true);
    full := AllBusyFrom(ws', n, map_);
    forall j: nat | j < n * WORD_BITS ensures SmallBit(ws', j) {
      assert SmallBit(ws, j) && j < PAGE_WORDS * WORD_BITS;
    }
    FullSmall(ws', shift, used + {c}, n);
  }

  /** Whether the words from `n` on are all ones: the check made when word `n` has just filled up. */
  method AllBusyFrom(ws: seq<seq<bool>>, n: nat, map_: nat) returns (full: bool)
    requires IsPageWords(ws) && n < map_ <= PAGE_WORDS
    ensures full <==> SmallSet(ws, n * WORD_BITS, map_ * WORD_BITS)
  {
    BusyWord(ws, n);
    if ws[n] != BUSY {
      return false;
    }
    var t := n + 1;
    while t < map_
      invariant n < t <= map_ && SmallSet(ws, n * WORD_BITS, t * WORD_BITS)
    {
      BusyWord(ws, t);
      if ws[t] != BUSY {
        return false;
      }
      t := t + 1;
    }
    return true;
  }

  lemma FullSmall(ws: seq<seq<bool>>, shift: nat, used: set<nat>, n: nat)
    requires MIN_SHIFT <= shift < EXACT_SHIFT && IsPageWords(ws) && Encodes(Shift(shift), ws, shift, used)
    requires n < MapWords(shift) && SmallSet(ws, 0, n * WORD_BITS)
    ensures SmallSet(ws, n * WORD_BITS, MapWords(shift) * WORD_BITS) <==> Full(Chunks(shift, used))
  {
    ClassTable(shift);
    if Full(Chunks(shift, used)) {
      forall c: nat | c < Capacity(shift) ensures SmallBit(ws, c) {
      }
    }
    if SmallSet(ws, n * WORD_BITS, MapWords(shift) * WORD_BITS) {
      forall c | Reserved(shift) <= c < Capacity(shift) ensures c in used {
        assert SmallBit(ws, c);
      }
    }
  }

  /** Takes the first free chunk of a bitmap of `n` chunks held in a word. */
  method TakeBit(bits: seq<bool>, n: nat, ghost used: set<nat>, ghost some: nat) returns (c: nat, bits': seq<bool>, full: bool)
    requires n <= |bits| && BitsAre(bits, |bits|, used) && some < n && some !in used
    ensures c < n && c !in used && (forall j | 0 <= j < c :: j in used)
    ensures |bits'| == |bits| && BitsAre(bits', |bits|, used + {c})
    ensures full <==> forall j | 0 <= j < n :: j in used + {c}
  {
    c := LowestClear(bits, some);
    bits' := bits[c := true];
    full := forall j | 0 <= j < n :: bits'[j];
  }

  /** Clears chunk `c` in the in-page bitmap and tells whether only the reserved chunks are left. */
  method ClearSmall(ws: seq<seq<bool>>, shift: nat, c: nat, ghost used: set<nat>) returns (ws': seq<seq<bool>>, empty: bool)
    requires MIN_SHIFT <= shift < EXACT_SHIFT && IsPageWords(ws) && Encodes(Shift(shift), ws, shift, used)
    requires Reserved(shift) <= c < Capacity(shift)
    requires forall j | j in used :: Reserved(shift) <= j < Capacity(shift)
    ensures IsPageWords(ws') && Encodes(Shift(shift), ws', shift, used - {c})
    ensures empty <==> used - {c} == {}
  {
    ClassTable(shift);
    var n := c / WORD_BITS;
    ws' := ws[n := ws[n][c % WORD_BITS := false]];
    FlipSmall(ws, n, c % WORD_BITS, false);
    ghost var rest := used - {c};
    assert Encodes(Shift(shift), ws', shift, rest) by {
      assert c == n * WORD_BITS + c % WORD_BITS;
      forall j | 0 <= j < Capacity(shift) ensures SmallBit(ws', j) <==> j < Reserved(shift) || j in rest {
        assert j < PAGE_WORDS * WORD_BITS;
        assert SmallBit(ws', j) <==> if j == n * WORD_BITS + c % WORD_BITS then false else SmallBit(ws, j);
        assert SmallBit(ws, j) <==> j < Reserved(shift) || j in used;
      }
    }
    var reserved := Reserved(shift);
    if exists b | reserved <= b < WORD_BITS :: ws'[0][b] {
      ghost var b :| reserved <= b < WORD_BITS && ws'[0][b];
      assert SmallBit(ws', b) && b in rest;
      return ws', false;
    }
    var map_ := MapWords(shift);
    var t := 1;
    while t < map_
      invariant 1 <= t <= map_
      invariant forall b | reserved <= b < t * WORD_BITS :: !SmallBit(ws', b)
    {
      if ws'[t] != ZERO {
        ghost var b :| 0 <= b < WORD_BITS && ws'[t][b];
        SplitIndex(t, b);
        assert SmallBit(ws', t * WORD_BITS + b) && t * WORD_BITS + b in rest;
        return ws', false;
      }
      forall b | t * WORD_BITS <= b < (t + 1) * WORD_BITS ensures !SmallBit(ws', b) {
        SplitIndex(t, b - t * WORD_BITS);
      }
      t := t + 1;
    }
    assert forall j | j in rest :: SmallBit(ws', j);
    assert rest == {};
    return ws', true;
  }

  /** Clears chunk `c` in a bitmap held in a word and tells whether no chunk is left. */
  method ClearBit(bits: seq<bool>, c: nat, ghost used: set<nat>) returns (bits': seq<bool>, empty: bool)
    requires BitsAre(bits, |bits|, used) && c < |bits| && (forall j | j in used :: j < |bits|)
    ensures |bits'| == |bits| && BitsAre(bits', |bits|, used - {c})
    ensures empty <==> used - {c} == {}
  {
    bits' := bits[c := false];
    empty := !exists b | 0 <= b < |bits'| :: bits'[b];
    ghost var rest := used - {c};
    assert rest != {} ==> exists j :: j in rest;
    assert forall j | j in rest :: bits'[j];
  }
}
