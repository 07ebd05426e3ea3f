/** Building a hash table.  Bucket sizes are counted in 16 bits, as in the source. */
module HashInit {
  import opened Common
  import opened HashLayout
  import opened HashTable

  // ---- Sizes of buckets ----

  ghost predicate Counted<V>(test: seq<nat>, base: nat, names: seq<Name<V>>, n: nat, size: nat)
    requires n <= |names| && size > 0
  {
    |test| == size && forall i: nat | i < size :: test[i] == base + Total(names, n, size, i)
  }

  ghost predicate Fits<V>(names: seq<Name<V>>, size: nat, cap: nat)
    requires size > 0
  {
    forall i: nat | i < size :: Total(names, |names|, size, i) <= cap
  }

  ghost predicate NoneFits<V>(names: seq<Name<V>>, start: nat, maxSize: nat, cap: nat)
    requires start > 0
  {
    forall s | start <= s <= maxSize :: !Fits(names, s, cap)
  }

  predicate SizesOk<V>(names: seq<Name<V>>, cap: nat) {
    forall n | 0 <= n < |names| :: EltSize(|names[n].key|) <= cap
  }

  /** Adds one element to the count of its bucket, in 16 bits. */
  method CountOne<V>(test: seq<nat>, ghost base: nat, names: seq<Name<V>>, n: nat, size: nat) returns (t: seq<nat>, key: nat)
    requires n < |names| && size > 0 && Counted(test, base, names, n, size) && !names[n].gone
    requires test[names[n].hash % size] + EltSize(|names[n].key|) < SHORT
    ensures Counted(t, base, names, n + 1, size) && key == names[n].hash % size
    ensures forall i | 0 <= i < size && i != key :: t[i] == test[i]
  {
    key := names[n].hash % size;
    t := test[key := (test[key] + EltSize(|names[n].key|)) % SHORT];
  }

  /** Whether every bucket of a table of this size holds its elements in `cap` bytes. */
  method FitTest<V>(names: seq<Name<V>>, size: nat, cap: nat) returns (ok: bool)
    requires size > 0 && cap < SHORT / 2 && SizesOk(names, cap)
    ensures ok <==> Fits(names, size, cap)
  {
    var test: seq<nat> := seq(size, _ => 0);
    var n, key := 0, 0;
    var limit := cap % SHORT;
    SmallMod(cap);
    while n < |names|
      invariant n <= |names| && Counted(test, 0, names, n, size)
      invariant forall i: nat | i < size :: test[i] <= cap
    {
      if !names[n].gone {
        test, key := CountOne(test, 0, names, n, size);
        if test[key] > limit {
          TooMuch(test, names, n + 1, size, cap, key);
          return false;
        }
      }
      n := n + 1;
    }
    return true;
  }

  lemma {:induction false} SmallMod(x: nat)
    requires x < SHORT
    ensures x % SHORT == x
  {
  }

  lemma {:induction false} TooMuch<V>(test: seq<nat>, names: seq<Name<V>>, n: nat, size: nat, cap: nat, i: nat)
    requires size > 0 && n <= |names| && Counted(test, 0, names, n, size) && i < size && test[i] > cap
    ensures !Fits(names, size, cap)
  {
    TotalGrows(names, n, |names|, size, i);
  }

  /** The first size from `start` on that fits, or the largest one if none does. */
  method ChooseSize<V>(names: seq<Name<V>>, start: nat, maxSize: nat, cap: nat) returns (size: nat, fits: bool)
    requires start > 0 && maxSize > 0 && cap < SHORT / 2 && SizesOk(names, cap)
    ensures fits ==> start <= size <= maxSize && Fits(names, size, cap)
    ensures fits ==> forall s | start <= s < size :: !Fits(names, s, cap)
    ensures !fits ==> size == maxSize && NoneFits(names, start, maxSize, cap)
  {
    size := start;
    while size <= maxSize
      invariant start <= size && forall s | start <= s < size :: !Fits(names, s, cap)
    {
      fits := FitTest(names, size, cap);
      if fits {
        return;
      }
      size := size + 1;
    }
    return maxSize, false;
  }

  // ---- Where the buckets are ----

  /** Where bucket `i` starts, if bucket sizes are `test` and empty buckets have just a pointer's size. */
  function Start(test: seq<nat>, i: nat): nat
    requires i <= |test|
  {
    if i == 0 then 0 else Start(test, i - 1) + if test[i - 1] == PTR then 0 else test[i - 1]
  }

  /** No bucket is too large for the 16-bit counters. */
  ghost predicate NoOverflow<V>(names: seq<Name<V>>, size: nat, c: nat)
    requires size > 0 && c > 0
  {
    forall i: nat | i < size :: Align(PTR + Total(names, |names|, size, i), c) < SHORT
  }

  /** A table that passed the fit test has no bucket that overflows. */
  lemma {:induction false} FitNoOverflow<V>(names: seq<Name<V>>, size: nat, c: nat, cap: nat)
    requires size > 0 && c > 0 && c % PTR == 0 && cap + PTR < SHORT / 2 && c <= SHORT / 2 && Fits(names, size, cap)
    ensures NoOverflow(names, size, c)
  {
    forall i: nat | i < size
      ensures Align(PTR + Total(names, |names|, size, i), c) < SHORT
    {
      AlignIs(PTR + Total(names, |names|, size, i), c);
    }
  }

  lemma {:induction false} StartGrows(test: seq<nat>, i: nat, j: nat)
    requires i < j <= |test| && test[i] != PTR
    ensures Start(test, i) + test[i] <= Start(test, j)
  {
    if i < j - 1 {
      StartGrows(test, i, j - 1);
    }
  }

  ghost predicate Aligned(test: seq<nat>) {
    forall i | 0 <= i < |test| :: test[i] % PTR == 0
  }

  lemma {:induction false} StartAligned(test: seq<nat>, i: nat)
    requires i <= |test| && Aligned(test)
    ensures Start(test, i) % PTR == 0
  {
    if i > 0 {
      StartAligned(test, i - 1);
      assert test[i - 1] % PTR == 0;
    }
  }

  /** The sizes of the buckets, with room for the elements and the pointer that ends them. */
  ghost predicate Roomy<V>(test: seq<nat>, names: seq<Name<V>>, size: nat)
    requires size > 0
  {
    && |test| == size && Aligned(test)
    && forall i: nat | i < size :: RoomAt(test[i], Total(names, |names|, size, i))
  }

  predicate RoomAt(t: nat, total: nat) {
    if total == 0 then t == PTR else t != PTR && PTR + total <= t
  }

  method CountSizes<V>(names: seq<Name<V>>, size: nat, ghost c: nat) returns (test: seq<nat>)
    requires size > 0 && c > 0 && c % PTR == 0 && NoOverflow(names, size, c)
    ensures Counted(test, PTR, names, |names|, size)
  {
    test := seq(size, _ => PTR);
    var n, key := 0, 0;
    while n < |names|
      invariant n <= |names| && Counted(test, PTR, names, n, size)
    {
      if !names[n].gone {
        Below(names, n, size, c, names[n].hash % size);
        test, key := CountOne(test, PTR, names, n, size);
      }
      n := n + 1;
    }
  }

  lemma {:induction false} Below<V>(names: seq<Name<V>>, n: nat, size: nat, c: nat, i: nat)
    requires n < |names| && size > 0 && c > 0 && c % PTR == 0 && NoOverflow(names, size, c) && In(names[n], size, i) && i < size
    ensures PTR + Total(names, n, size, i) + EltSize(|names[n].key|) < SHORT
  {
    TotalGrows(names, n + 1, |names|, size, i);
    AlignIs(PTR + Total(names, |names|, size, i), c);
  }

  /** Rounds the sizes of the buckets in use up to cache lines. */
  method RoundUp(sizes: seq<nat>, c: nat) returns (test: seq<nat>)
    requires c > 0 && forall i | 0 <= i < |sizes| :: Align(sizes[i], c) < SHORT
    ensures |test| == |sizes|
    ensures forall i | 0 <= i < |sizes| :: test[i] == if sizes[i] == PTR then PTR else Align(sizes[i], c)
  {
    test := sizes;
    var i := 0;
    while i < |sizes|
      invariant i <= |sizes| && |test| == |sizes|
      invariant forall j | 0 <= j < i :: test[j] == if sizes[j] == PTR then PTR else Align(sizes[j], c)
      invariant forall j | i <= j < |sizes| :: test[j] == sizes[j]
    {
      if test[i] != PTR {
        test := test[i := Align(test[i], c) % SHORT];
      }
      i := i + 1;
    }
  }

  lemma {:induction false} RoundedRoomy<V>(sizes: seq<nat>, test: seq<nat>, names: seq<Name<V>>, size: nat, c: nat)
    requires size > 0 && c > 0 && c % PTR == 0 && |test| == size && Counted(sizes, PTR, names, |names|, size)
    requires forall i | 0 <= i < size :: test[i] == if sizes[i] == PTR then PTR else Align(sizes[i], c)
    ensures Roomy(test, names, size)
  {
    forall i: nat | i < size
      ensures test[i] % PTR == 0 && RoomAt(test[i], Total(names, |names|, size, i))
    {
      AlignIs(sizes[i], c);
    }
  }

  predicate PlaceOk(buckets: seq<int>, test: seq<nat>, i: nat) {
    i < |test| && i < |buckets| ==> buckets[i] == if test[i] == PTR then NULL else Start(test, i)
  }

  ghost predicate LaidOut(buckets: seq<int>, test: seq<nat>) {
    forall i: nat {:trigger PlaceOk(buckets, test, i)} :: PlaceOk(buckets, test, i)
  }

  lemma {:induction false} PlaceMore(buckets: seq<int>, test: seq<nat>, b: int)
    requires LaidOut(buckets, test) && |buckets| < |test|
    requires b == if test[|buckets|] == PTR then NULL else Start(test, |buckets|)
    ensures LaidOut(buckets + [b], test)
  {
    forall i: nat
      ensures PlaceOk(buckets + [b], test, i)
    {
      assert PlaceOk(buckets, test, i);
    }
  }

  /** Gives each bucket in use its place. */
  method Place(test: seq<nat>) returns (buckets: seq<int>, len: nat)
    ensures |buckets| == |test| && LaidOut(buckets, test) && len == Start(test, |test|)
  {
    buckets, len := [], 0;
    assert forall i: nat :: PlaceOk(buckets, test, i);
    while |buckets| < |test|
      invariant |buckets| <= |test| && LaidOut(buckets, test) && len == Start(test, |buckets|)
    {
      var i := |buckets|;
      if test[i] == PTR {
        PlaceMore(buckets, test, NULL);
        buckets := buckets + [NULL];
      } else {
        PlaceMore(buckets, test, len);
        buckets := buckets + [len];
        len := len + test[i];
      }
    }
  }

  // ---- Filling the buckets ----

  lemma {:induction false} ChainKept<V>(mem: seq<Byte<V>>, a: nat, bytes: seq<Byte<V>>, b: nat, es: seq<Name<V>>)
    requires a + |bytes| <= |mem| && Chain(mem, b, es) && (b + Offset(es, |es|) <= a || a + |bytes| <= b)
    ensures Chain(Put(mem, a, bytes), b, es)
  {
    forall k: nat
      ensures ElemAt(Put(mem, a, bytes), b, es, k)
    {
      assert ElemAt(mem, b, es, k);
      if k < |es| {
        OffsetGrows(es, k, |es|);
        PutKeeps(mem, a, bytes, b + Offset(es, k), Image(es[k]));
      }
    }
  }

  lemma {:induction false} ChainMore<V>(mem: seq<Byte<V>>, b: nat, es: seq<Name<V>>, e: Name<V>)
    requires Chain(mem, b, es) && b + Offset(es, |es|) + |Image(e)| <= |mem|
    ensures Chain(Put(mem, b + Offset(es, |es|), Image(e)), b, es + [e])
  {
    var a := b + Offset(es, |es|);
    var mem', more := Put(mem, a, Image(e)), es + [e];
    ChainKept(mem, a, Image(e), b, es);
    PutHolds(mem, a, Image(e));
    forall k: nat
      ensures ElemAt(mem', b, more, k)
    {
      assert ElemAt(mem', b, es, k);
      if k < |more| {
        OffsetMore(es, e, k);
        assert k == |es| ==> more[k] == e;
      }
    }
  }

  ghost predicate ChainAt<V>(mem: seq<Byte<V>>, buckets: seq<int>, names: seq<Name<V>>, n: nat, i: nat)
    requires n <= |names| && |buckets| > 0
  {
    i < |buckets| && buckets[i] >= 0 ==> Chain(mem, buckets[i], Elems(names, n, |buckets|, i))
  }

  ghost predicate Filled<V>(mem: seq<Byte<V>>, buckets: seq<int>, names: seq<Name<V>>, n: nat)
    requires n <= |names| && |buckets| > 0
  {
    forall i: nat {:trigger ChainAt(mem, buckets, names, n, i)} :: ChainAt(mem, buckets, names, n, i)
  }

  /** A bucket in use lies in memory, with room for its elements and the pointer that ends them. */
  lemma {:induction false} InRoom<V>(buckets: seq<int>, test: seq<nat>, names: seq<Name<V>>, n: nat, i: nat)
    requires |buckets| == |test| > 0 && LaidOut(buckets, test) && Roomy(test, names, |test|) && n <= |names| && i < |test|
    ensures buckets[i] >= 0 <==> Total(names, |names|, |test|, i) > 0
    ensures buckets[i] >= 0 ==>
      && buckets[i] == Start(test, i) && buckets[i] + test[i] <= Start(test, |test|) && test[i] != PTR
      && Total(names, n, |test|, i) + PTR <= test[i]
  {
    assert PlaceOk(buckets, test, i);
    assert RoomAt(test[i], Total(names, |names|, |test|, i));
    TotalGrows(names, n, |names|, |test|, i);
    if test[i] != PTR {
      StartGrows(test, i, |test|);
    }
  }

  /** Buckets in use do not overlap. */
  lemma {:induction false} Apart(buckets: seq<int>, test: seq<nat>, i: nat, j: nat)
    requires |buckets| == |test| && LaidOut(buckets, test) && i < |test| && j < |test| && i != j
    requires buckets[i] >= 0 && buckets[j] >= 0
    ensures buckets[i] + test[i] <= buckets[j] || buckets[j] + test[j] <= buckets[i]
  {
    assert PlaceOk(buckets, test, i);
    assert PlaceOk(buckets, test, j);
    if i < j {
      StartGrows(test, i, j);
    } else {
      StartGrows(test, j, i);
    }
  }

  /** A place from `a` on for `len` bytes, in bucket `key` behind its first `n` elements. */
  ghost predicate Behind<V>(buckets: seq<int>, test: seq<nat>, names: seq<Name<V>>, n: nat, key: nat, a: nat, len: nat) {
    && |buckets| == |test| > 0 && n <= |names| && key < |test| && buckets[key] >= 0
    && a == buckets[key] + Total(names, n, |test|, key) && Total(names, n, |test|, key) + len <= test[key]
  }

  /** Writing there leaves the elements of every bucket alone. */
  lemma {:induction false} WriteApart<V>(mem: seq<Byte<V>>, buckets: seq<int>, test: seq<nat>, names: seq<Name<V>>, n: nat,
                                         key: nat, a: nat, bytes: seq<Byte<V>>, i: nat)
    requires Behind(buckets, test, names, n, key, a, |bytes|) && LaidOut(buckets, test) && Roomy(test, names, |test|)
    requires |mem| == Start(test, |test|) && ChainAt(mem, buckets, names, n, i)
    ensures a + |bytes| <= |mem| && ChainAt(Put(mem, a, bytes), buckets, names, n, i)
  {
    InRoom(buckets, test, names, n, key);
    if i < |test| && buckets[i] >= 0 {
      InRoom(buckets, test, names, n, i);
      if i != key {
        Apart(buckets, test, key, i);
      }
      TotalIs(names, n, |test|, i);
      ChainKept(mem, a, bytes, buckets[i], Elems(names, n, |test|, i));
    }
  }

  lemma {:induction false} ElementFits<V>(buckets: seq<int>, test: seq<nat>, names: seq<Name<V>>, n: nat, key: nat)
    requires |buckets| == |test| > 0 && LaidOut(buckets, test) && Roomy(test, names, |test|) && n < |names|
    requires key < |test| && In(names[n], |test|, key)
    ensures buckets[key] >= 0
    ensures Behind(buckets, test, names, n, key, buckets[key] + Total(names, n, |test|, key), |Image(names[n])|)
  {
    InRoom(buckets, test, names, n + 1, key);
    TotalGrows(names, n + 1, |names|, |test|, key);
  }

  lemma {:induction false} FillStep<V>(mem: seq<Byte<V>>, buckets: seq<int>, test: seq<nat>, names: seq<Name<V>>, n: nat,
                                       key: nat, a: nat)
    requires n < |names| && Behind(buckets, test, names, n, key, a, |Image(names[n])|)
    requires LaidOut(buckets, test) && Roomy(test, names, |test|) && In(names[n], |test|, key)
    requires |mem| == Start(test, |test|) && Filled(mem, buckets, names, n)
    ensures a + |Image(names[n])| <= |mem|
    ensures Filled(Put(mem, a, Image(names[n])), buckets, names, n + 1)
  {
    InRoom(buckets, test, names, n, key);
    var mem' := Put(mem, a, Image(names[n]));
    forall i: nat {:trigger ChainAt(mem', buckets, names, n + 1, i)}
      ensures ChainAt(mem', buckets, names, n + 1, i)
    {
      assert ChainAt(mem, buckets, names, n, i);
      if i == key {
        TotalIs(names, n, |test|, i);
        ChainMore(mem, buckets[i], Elems(names, n, |test|, i), names[n]);
      } else {
        WriteApart(mem, buckets, test, names, n, key, a, Image(names[n]), i);
        SameElems(mem', buckets, names, n, i);
      }
    }
  }

  lemma {:induction false} SameElems<V>(mem: seq<Byte<V>>, buckets: seq<int>, names: seq<Name<V>>, n: nat, i: nat)
    requires n < |names| && |buckets| > 0 && ChainAt(mem, buckets, names, n, i) && !In(names[n], |buckets|, i)
    ensures ChainAt(mem, buckets, names, n + 1, i)
  {
    assert Elems(names, n + 1, |buckets|, i) == Elems(names, n, |buckets|, i);
  }

  /** Stores the elements, one bucket's behind each other. */
  method Fill<V>(names: seq<Name<V>>, buckets: seq<int>, ghost test: seq<nat>, len: nat)
      returns (mem: seq<Byte<V>>, used: seq<nat>)
    requires |buckets| == |test| > 0 && LaidOut(buckets, test) && Roomy(test, names, |test|) && len == Start(test, |test|)
    requires forall i | 0 <= i < |test| :: test[i] < SHORT
    ensures |mem| == len && Filled(mem, buckets, names, |names|) && Counted(used, 0, names, |names|, |buckets|)
  {
    mem := seq(len, _ => Junk);
    used := seq(|buckets|, _ => 0);
    var n, key := 0, 0;
    FilledNone(mem, buckets, names);
    while n < |names|
      invariant n <= |names| && |mem| == len && Filled(mem, buckets, names, n) && Counted(used, 0, names, n, |buckets|)
    {
      if names[n].gone {
        FilledSkip(mem, buckets, names, n);
      } else {
        key := names[n].hash % |buckets|;
        ElementFits(buckets, test, names, n, key);
        UsedFits(used, buckets, test, names, n, key);
        FillStep(mem, buckets, test, names, n, key, buckets[key] + used[key]);
        mem := Put(mem, buckets[key] + used[key], Image(names[n]));
        used, key := CountOne(used, 0, names, n, |buckets|);
      }
      n := n + 1;
    }
  }

  lemma {:induction false} FilledNone<V>(mem: seq<Byte<V>>, buckets: seq<int>, names: seq<Name<V>>)
    requires |buckets| > 0
    ensures Filled(mem, buckets, names, 0)
  {
    forall i: nat {:trigger ChainAt(mem, buckets, names, 0, i)}
      ensures ChainAt(mem, buckets, names, 0, i)
    {
      if i < |buckets| && buckets[i] >= 0 {
        assert forall k: nat :: ElemAt(mem, buckets[i], Elems(names, 0, |buckets|, i), k);
      }
    }
  }

  lemma {:induction false} FilledSkip<V>(mem: seq<Byte<V>>, buckets: seq<int>, names: seq<Name<V>>, n: nat)
    requires n < |names| && |buckets| > 0 && Filled(mem, buckets, names, n) && names[n].gone
    ensures Filled(mem, buckets, names, n + 1)
  {
    forall i: nat {:trigger ChainAt(mem, buckets, names, n + 1, i)}
      ensures ChainAt(mem, buckets, names, n + 1, i)
    {
      assert ChainAt(mem, buckets, names, n, i);
      SameElems(mem, buckets, names, n, i);
    }
  }

  lemma {:induction false} UsedFits<V>(used: seq<nat>, buckets: seq<int>, test: seq<nat>, names: seq<Name<V>>, n: nat, key: nat)
    requires n < |names| && |buckets| == |test| > 0 && LaidOut(buckets, test) && Roomy(test, names, |test|)
    requires forall i | 0 <= i < |test| :: test[i] < SHORT
    requires key < |test| && In(names[n], |test|, key) && Counted(used, 0, names, n, |test|) && buckets[key] >= 0
    ensures used[key] == Total(names, n, |test|, key) && used[key] + EltSize(|names[n].key|) < SHORT
  {
    InRoom(buckets, test, names, n + 1, key);
  }

  ghost predicate EndAt<V>(mem: seq<Byte<V>>, buckets: seq<int>, names: seq<Name<V>>, i: nat)
    requires |buckets| > 0
  {
    i < |buckets| && buckets[i] >= 0 ==> Ended(mem, buckets[i], Elems(names, |names|, |buckets|, i))
  }

  /** Ending bucket `i` leaves the elements alone, and the ends of the other buckets. */
  lemma {:induction false} EndStep<V>(mem: seq<Byte<V>>, buckets: seq<int>, test: seq<nat>, names: seq<Name<V>>, i: nat, a: nat)
    requires Behind(buckets, test, names, |names|, i, a, PTR) && LaidOut(buckets, test) && Roomy(test, names, |test|)
    requires |mem| == Start(test, |test|) && Filled(mem, buckets, names, |names|)
    ensures a + PTR <= |mem|
    ensures Filled(Put(mem, a, PtrImage(None)), buckets, names, |names|)
    ensures EndAt(Put(mem, a, PtrImage(None)), buckets, names, i)
    ensures forall j: nat | j != i && EndAt(mem, buckets, names, j) :: EndAt(Put(mem, a, PtrImage(None)), buckets, names, j)
  {
    InRoom(buckets, test, names, |names|, i);
    var mem' := Put(mem, a, PtrImage(None));
    forall j: nat {:trigger ChainAt(mem', buckets, names, |names|, j)}
      ensures ChainAt(mem', buckets, names, |names|, j)
    {
      assert ChainAt(mem, buckets, names, |names|, j);
      WriteApart(mem, buckets, test, names, |names|, i, a, PtrImage(None), j);
    }
    TotalIs(names, |names|, |test|, i);
    PutHolds(mem, a, PtrImage(None));
    forall j: nat | j != i && EndAt(mem, buckets, names, j)
      ensures EndAt(mem', buckets, names, j)
    {
      EndKept(mem, buckets, test, names, i, a, j);
    }
  }

  lemma {:induction false} EndKept<V>(mem: seq<Byte<V>>, buckets: seq<int>, test: seq<nat>, names: seq<Name<V>>,
                                      i: nat, a: nat, j: nat)
    requires Behind(buckets, test, names, |names|, i, a, PTR) && LaidOut(buckets, test) && Roomy(test, names, |test|)
    requires |mem| == Start(test, |test|) && a + PTR <= |mem| && j != i && EndAt(mem, buckets, names, j)
    ensures EndAt(Put(mem, a, PtrImage(None)), buckets, names, j)
  {
    if j < |test| && buckets[j] >= 0 {
      InRoom(buckets, test, names, |names|, i);
      InRoom(buckets, test, names, |names|, j);
      Apart(buckets, test, i, j);
      TotalIs(names, |names|, |test|, j);
      PutKeeps(mem, a, PtrImage(None), buckets[j] + Total(names, |names|, |test|, j), PtrImage(None));
    }
  }

  /** Ends every bucket in use with an empty pointer. */
  method Finish<V>(mem0: seq<Byte<V>>, used: seq<nat>, buckets: seq<int>, ghost names: seq<Name<V>>, ghost test: seq<nat>)
      returns (mem: seq<Byte<V>>)
    requires |buckets| == |test| > 0 && LaidOut(buckets, test) && Roomy(test, names, |test|)
    requires |mem0| == Start(test, |test|) && Filled(mem0, buckets, names, |names|)
    requires Counted(used, 0, names, |names|, |buckets|)
    ensures Filled(mem, buckets, names, |names|) && forall j: nat | j < |buckets| :: EndAt(mem, buckets, names, j)
  {
    mem := mem0;
    var i := 0;
    while i < |buckets|
      invariant i <= |buckets| && |mem| == |mem0| && Filled(mem, buckets, names, |names|)
      invariant forall j: nat | j < i :: EndAt(mem, buckets, names, j)
    {
      assert PlaceOk(buckets, test, i);
      if buckets[i] != NULL {
        InRoom(buckets, test, names, |names|, i);
        EndStep(mem, buckets, test, names, i, buckets[i] + used[i]);
        mem := Put(mem, buckets[i] + used[i], PtrImage(None));
      }
      i := i + 1;
    }
  }

  lemma {:induction false} AllRepresented<V>(mem: seq<Byte<V>>, buckets: seq<int>, names: seq<Name<V>>, test: seq<nat>)
    requires |buckets| == |test| > 0 && LaidOut(buckets, test) && Roomy(test, names, |test|)
    requires Filled(mem, buckets, names, |names|) && forall j: nat | j < |buckets| :: EndAt(mem, buckets, names, j)
    ensures Represents(Table(buckets, mem), names)
  {
    var t := Table(buckets, mem);
    forall i: nat | i < |t.buckets|
      ensures BucketOk(t, names, i)
    {
      assert PlaceOk(buckets, test, i);
      assert RoomAt(test[i], Total(names, |names|, |test|, i));
      EmptyIff(names, |names|, |test|, i);
      assert ChainAt(mem, buckets, names, |names|, i);
      assert EndAt(mem, buckets, names, i);
      StartAligned(test, i);
    }
  }

  // ---- The whole construction ----

  /** The table sizes that are tried start here. */
  function FirstSize(nelts: nat, maxSize: nat, cap: nat): (start: nat)
    requires cap >= 2 * PTR && maxSize > 0
    ensures start > 0
  {
    if maxSize > 10000 && nelts != 0 && maxSize / nelts < 100 then maxSize - 1000
    else
      var start := nelts / (cap / (2 * PTR));
      if start == 0 then 1 else start
  }

  /** Names too long for a bucket, or no table size at all. */
  predicate Rejected<V>(names: seq<Name<V>>, maxSize: nat, bucketSize: nat) {
    maxSize == 0 || exists n | 0 <= n < |names| :: bucketSize < EltSize(|names[n].key|) + PTR
  }

  method Init<V>(names: seq<Name<V>>, maxSize: nat, bucketSize: nat, cacheline: nat) returns (r: Option<Table<V>>)
    requires 3 * PTR <= bucketSize < SHORT / 2 && 0 < cacheline <= SHORT / 2 && cacheline % PTR == 0
    requires maxSize > 0 && NoneFits(names, FirstSize(|names|, maxSize, bucketSize - PTR), maxSize, bucketSize - PTR)
             ==> NoOverflow(names, maxSize, cacheline)
    ensures r == None <==> Rejected(names, maxSize, bucketSize)
    ensures r.Some? ==> Represents(r.value, names)
  {
    if maxSize == 0 {
      return None;
    }
    var n := 0;
    while n < |names|
      invariant n <= |names| && forall k | 0 <= k < n :: bucketSize >= EltSize(|names[k].key|) + PTR
    {
      if bucketSize < EltSize(|names[n].key|) + PTR {
        return None;
      }
      n := n + 1;
    }
    var cap := bucketSize - PTR;
    var size, fits := ChooseSize(names, FirstSize(|names|, maxSize, cap), maxSize, cap);
    if fits {
      FitNoOverflow(names, size, cacheline, cap);
    }
    var t := Construct(names, size, cacheline);
    return Some(t);
  }

  method Construct<V>(names: seq<Name<V>>, size: nat, c: nat) returns (t: Table<V>)
    requires size > 0 && c > 0 && c % PTR == 0 && NoOverflow(names, size, c)
    ensures Represents(t, names)
  {
    var sizes := CountSizes(names, size, c);
    var test := RoundUp(sizes, c);
    RoundedRoomy(sizes, test, names, size, c);
    var buckets, len := Place(test);
    var mem, used := Fill(names, buckets, test, len);
    mem := Finish(mem, used, buckets, names, test);
    AllRepresented(mem, buckets, names, test);
    t := Table(buckets, mem);
  }
}
