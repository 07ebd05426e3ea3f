/** Event timers: a red-black tree of deadlines in a counter that wraps around. */
module EventTimer {
  import opened RbShape
  import opened RbHeap
  import opened RbInsert
  import opened RbDelete
  import opened RbFixup

  /** One more than the largest value of the millisecond counter. */
  const RANGE := 0x1_0000_0000_0000_0000
  const HALF := 0x8000_0000_0000_0000
  const LAZY_DELAY := 300
  const INFINITE := RANGE - 1

  type Msec = k: nat | k < RANGE

  /** The difference of two counter values, read as a signed number. */
  function SDiff(a: Msec, b: Msec): int {
    var d := (a - b) % RANGE;
    if d < HALF then d else d - RANGE
  }

  /** How far `k` is past `base`. */
  function Past(base: Msec, k: Msec): nat {
    (k - base) % RANGE
  }

  function KeyOf(key: map<Ref, Msec>, v: Ref): Msec {
    if v in key then key[v] else 0
  }

  /** The comparison used to place timers in the tree. */
  function Earlier(key: map<Ref, Msec>): (Ref, Ref) -> bool {
    (a, b) => SDiff(KeyOf(key, a), KeyOf(key, b)) < 0
  }

  /** All these values lie in half the counter's range, from `base` on. */
  ghost predicate InWindow(base: Msec, ks: set<Msec>) {
    forall k | k in ks :: Past(base, k) < HALF
  }

  ghost function Keys(key: map<Ref, Msec>, s: seq<Ref>): set<Msec> {
    set v | v in s :: KeyOf(key, v)
  }

  /** In half the range the signed difference is the difference of the distances from the base. */
  lemma WindowDiff(base: Msec, a: Msec, b: Msec)
    requires Past(base, a) < HALF && Past(base, b) < HALF
    ensures SDiff(a, b) == Past(base, a) - Past(base, b)
  {
    ModDiff(a, b, base);
  }

  lemma ModDiff(a: Msec, b: Msec, base: Msec)
    ensures (Past(base, a) - Past(base, b)) % RANGE == (a - b) % RANGE
  {
  }

  lemma WindowOrder(base: Msec, key: map<Ref, Msec>, s: seq<Ref>)
    requires InWindow(base, Keys(key, s))
    ensures WeakOrder(Earlier(key), s)
    ensures forall a, b | a in s && b in s ::
              Earlier(key)(a, b) <==> Past(base, KeyOf(key, a)) < Past(base, KeyOf(key, b))
  {
    forall a, b | a in s && b in s
      ensures Earlier(key)(a, b) <==> Past(base, KeyOf(key, a)) < Past(base, KeyOf(key, b))
    {
      assert KeyOf(key, a) in Keys(key, s) && KeyOf(key, b) in Keys(key, s);
      WindowDiff(base, KeyOf(key, a), KeyOf(key, b));
    }
  }

  lemma SortedSameKeys(key: map<Ref, Msec>, key': map<Ref, Msec>, s: seq<Ref>)
    requires Sorted(Earlier(key), s) && forall v | v in s :: KeyOf(key', v) == KeyOf(key, v)
    ensures Sorted(Earlier(key'), s)
  {
    forall i, j | 0 <= i < j < |s| ensures !Earlier(key')(s[j], s[i]) {
      assert !Earlier(key)(s[j], s[i]);
    }
  }

  function Positive(d: int): nat {
    if d > 0 then d else 0
  }

  /** The deadline of `v` is not after `now`. */
  ghost predicate Due(key: map<Ref, Msec>, now: Msec, v: Ref) {
    SDiff(KeyOf(key, v), now) <= 0
  }

  /** The first timer in the tree has the least remaining time, and is due if any is. */
  lemma FirstIsLeast(base: Msec, key: map<Ref, Msec>, now: Msec, s: seq<Ref>, v: Ref)
    requires Sorted(Earlier(key), s) && InWindow(base, Keys(key, s) + {now}) && v in s
    ensures SDiff(KeyOf(key, s[0]), now) <= SDiff(KeyOf(key, v), now)
  {
    WindowOrder(base, key, s);
    var i :| 0 <= i < |s| && s[i] == v;
    assert i > 0 ==> !Earlier(key)(s[i], s[0]);
    assert s[0] in s;
    assert KeyOf(key, v) in Keys(key, s) && KeyOf(key, s[0]) in Keys(key, s);
    WindowDiff(base, KeyOf(key, v), now);
    WindowDiff(base, KeyOf(key, s[0]), now);
  }

  /** The timers of `s` have the same deadlines. */
  ghost predicate SameKeys(key: map<Ref, Msec>, key': map<Ref, Msec>, s: seq<Ref>) {
    forall v | v in s :: KeyOf(key', v) == KeyOf(key, v)
  }

  /** Exactly the events of `fired` have been added to those that timed out. */
  ghost predicate Fired(was: set<Ref>, timedOut: set<Ref>, fired: seq<Ref>) {
    forall v :: v in timedOut <==> v in was || v in fired
  }

  ghost predicate AllDue(key: map<Ref, Msec>, now: Msec, s: seq<Ref>) {
    forall v | v in s :: Due(key, now, v)
  }

  /** One more timer is fired, the first of `s`. */
  lemma OneMore(key0: map<Ref, Msec>, key: map<Ref, Msec>, key': map<Ref, Msec>, was: set<Ref>, out: set<Ref>, out': set<Ref>,
                fired: seq<Ref>, s: seq<Ref>, now: Msec)
    requires s != [] && SameKeys(key0, key, s) && SameKeys(key, key', s[1..]) && Fired(was, out, fired) && AllDue(key0, now, fired)
    requires out' == out + {s[0]} && Due(key, now, s[0])
    ensures fired + s == (fired + [s[0]]) + s[1..]
    ensures SameKeys(key0, key', s[1..]) && Fired(was, out', fired + [s[0]]) && AllDue(key0, now, fired + [s[0]])
  {
    assert forall v | v in s[1..] :: v in s;
    assert s[0] in s;
  }

  class Timers {
    var heap: Heap
    var root: Ref
    var key: map<Ref, Msec>
    var timerSet: set<Ref>
    var timedOut: set<Ref>
    ghost var t: Tree

    ghost predicate Valid()
      reads this
    {
      IsTree(heap, root, t) && forall v :: v in Seq(t) <==> v in timerSet
    }

    /** The tree is ordered by deadline. */
    ghost predicate Ordered()
      reads this
    {
      Sorted(Earlier(key), Seq(t))
    }

    constructor ()
      ensures Valid() && Ordered() && timerSet == {}
    {
      heap, root, key, timerSet, timedOut := map[], Sentinel, map[], {}, {};
      t := Leaf;
      assert Black(Leaf, 0);
    }

    /** The time until the first deadline. */
    method FindTimer(now: Msec) returns (wait: Msec)
      requires Valid()
      ensures timerSet == {} ==> wait == INFINITE
      ensures forall base: Msec | timerSet != {} && Ordered() && InWindow(base, Keys(key, Seq(t)) + {now}) ::
                && (exists v :: v in timerSet && wait == Positive(SDiff(KeyOf(key, v), now)))
                && (forall v | v in timerSet :: wait <= Positive(SDiff(KeyOf(key, v), now)))
    {
      TreeNodes(heap, root, t);
      if root == Sentinel {
        return INFINITE;
      }
      var node, k, red, r := Min(heap, root, root, Top, t);
      var timer := SDiff(KeyOf(key, node), now);
      wait := Positive(timer);
      forall base: Msec, v | Ordered() && InWindow(base, Keys(key, Seq(t)) + {now}) && v in timerSet
        ensures wait <= Positive(SDiff(KeyOf(key, v), now))
      {
        FirstIsLeast(base, key, now, Seq(t), v);
      }
    }

    /** Removes the timer of `ev`. */
    method DelTimer(ev: Ref) returns (ghost at: nat)
      requires Valid() && ev in timerSet
      modifies this`heap, this`root, this`key, this`timerSet, this`t
      ensures Valid() && timerSet == old(timerSet) - {ev}
      ensures forall v | v != ev :: KeyOf(key, v) == old(KeyOf(key, v))
      ensures old(Ordered()) ==> Ordered()
      ensures at < |old(Seq(t))| && old(Seq(t))[at] == ev && Seq(t) == old(Seq(t))[..at] + old(Seq(t))[at + 1..]
    {
      TreeNodes(heap, root, t);
      ghost var s := Seq(t);
      var h, r;
      ghost var t';
      h, r, t', at := Delete(heap, root, ev, t);
      WithoutMembers(s, at);
      if Ordered() {
        SortedWithout(Earlier(key), s, at);
        SortedSameKeys(key, key[ev := 0], Seq(t'));
      }
      heap, root, t := h, r, t';
      key := key[ev := 0];
      timerSet := timerSet - {ev};
    }

    /** Puts `ev`, which has no timer, into the tree with deadline `k`. */
    method PutTimer(ev: Ref, k: Msec)
      requires Valid() && ev.N? && ev !in timerSet
      modifies this`heap, this`root, this`key, this`timerSet, this`t
      ensures Valid() && timerSet == old(timerSet) + {ev} && key == old(key)[ev := k]
      ensures forall base: Msec | old(Ordered()) && InWindow(base, Keys(key, Seq(t))) :: Ordered()
    {
      TreeNodes(heap, root, t);
      ghost var s, key0 := Seq(t), key;
      key := key[ev := k];
      var h, r, t', at := Insert(heap, root, ev, Earlier(key), t);
      InsertedMembers(s, at, ev);
      forall base: Msec | Sorted(Earlier(key0), s) && InWindow(base, Keys(key, Seq(t'))) ensures Sorted(Earlier(key), Seq(t')) {
        SortedSameKeys(key0, key, s);
        SameMembersKeys(key, s + [ev], Seq(t'));
        WindowOrder(base, key, s + [ev]);
      }
      heap, root, t := h, r, t';
      timerSet := timerSet + {ev};
    }

    /** Sets the timer of `ev` to `timer` milliseconds from now, unless the timer it already has is
        less than `LAZY_DELAY` away from that. */
    method AddTimer(ev: Ref, timer: Msec, now: Msec)
      requires Valid() && ev.N?
      modifies this`heap, this`root, this`key, this`timerSet, this`t
      ensures Valid() && timerSet == old(timerSet) + {ev}
      ensures forall v | v != ev :: KeyOf(key, v) == old(KeyOf(key, v))
      ensures -LAZY_DELAY < SDiff((now + timer) % RANGE, KeyOf(key, ev)) < LAZY_DELAY
      ensures ev !in old(timerSet) ==> KeyOf(key, ev) == (now + timer) % RANGE
      ensures forall base: Msec | old(Ordered()) && InWindow(base, Keys(key, Seq(t))) :: Ordered()
    {
      var k := (now + timer) % RANGE;
      if ev in timerSet {
        var diff := SDiff(k, KeyOf(key, ev));
        if (if diff < 0 then -diff else diff) < LAZY_DELAY {
          return;
        }
        var at := DelTimer(ev);
      }
      PutTimer(ev, k);
      assert SDiff(k, KeyOf(key, ev)) == 0;
    }

    /** Removes the first timer. */
    method DelFirst(node: Ref)
      requires Valid() && Seq(t) != [] && Seq(t)[0] == node && Uniq(Seq(t))
      modifies this`heap, this`root, this`key, this`timerSet, this`t
      ensures Valid() && Seq(t) == old(Seq(t))[1..]
      ensures SameKeys(old(key), key, Seq(t)) && (old(Ordered()) ==> Ordered())
    {
      ghost var s := Seq(t);
      assert s[0] in s;
      var at := DelTimer(node);
      FirstGone(s, node, at);
    }

    /** Fires the first timer. */
    method FireFirst(node: Ref)
      requires Valid() && Seq(t) != [] && Seq(t)[0] == node && Uniq(Seq(t))
      modifies this
      ensures Valid() && Seq(t) == old(Seq(t))[1..] && timedOut == old(timedOut) + {node}
      ensures SameKeys(old(key), key, Seq(t)) && (old(Ordered()) ==> Ordered())
    {
      DelFirst(node);
      timedOut := timedOut + {node};
    }

    /** The loop that fires timers until the first one is not due. */
    method FireWhileDue(now: Msec) returns (fired: seq<Ref>)
      requires Valid()
      modifies this
      ensures Valid() && old(Seq(t)) == fired + Seq(t)
      ensures Fired(old(timedOut), timedOut, fired) && AllDue(old(key), now, fired)
      ensures SameKeys(old(key), key, Seq(t)) && (old(Ordered()) ==> Ordered())
      ensures Seq(t) != [] ==> !Due(key, now, Seq(t)[0])
    {
      fired := [];
      while root != Sentinel
        invariant Valid() && old(Seq(t)) == fired + Seq(t)
        invariant Fired(old(timedOut), timedOut, fired) && AllDue(old(key), now, fired)
        invariant SameKeys(old(key), key, Seq(t)) && (old(Ordered()) ==> Ordered())
        decreases |Seq(t)|
      {
        var node := First();
        if SDiff(KeyOf(key, node), now) > 0 {
          break;
        }
        ghost var s, was, keys := Seq(t), timedOut, key;
        FireFirst(node);
        OneMore(old(key), keys, key, old(timedOut), was, timedOut, fired, s, now);
        fired := fired + [node];
      }
      if root == Sentinel {
        TreeNodes(heap, root, t);
      }
    }

    /** The first timer of a tree that is not empty. */
    method First() returns (node: Ref)
      requires Valid() && root != Sentinel
      ensures Seq(t) != [] && Seq(t)[0] == node && Uniq(Seq(t))
    {
      TreeNodes(heap, root, t);
      ghost var k, red, r;
      node, k, red, r := Min(heap, root, root, Top, t);
    }

    /** Fires exactly the timers that are due, in the order of their deadlines, when the deadlines and
        the current time lie in half the counter's range.  The handlers, which are not part of this
        model, set no timers. */
    method ExpireTimers(now: Msec) returns (fired: seq<Ref>)
      requires Valid()
      modifies this
      ensures Valid() && old(Seq(t)) == fired + Seq(t)
      ensures Fired(old(timedOut), timedOut, fired)
      ensures forall base: Msec | old(Ordered()) && old(InWindow(base, Keys(key, Seq(t)) + {now})) ::
                && Ordered() && old(Sorted(Earlier(key), fired))
                && (forall v | v in old(timerSet) :: v in fired <==> old(Due(key, now, v)))
    {
      ghost var s0, key0 := Seq(t), key;
      fired := FireWhileDue(now);
      forall base: Msec | Sorted(Earlier(key0), s0) && InWindow(base, Keys(key0, s0) + {now})
        ensures Sorted(Earlier(key0), fired) && forall v | v in old(timerSet) :: v in fired <==> Due(key0, now, v)
      {
        SortedPrefix(Earlier(key0), fired, Seq(t));
        forall v | v in old(timerSet) ensures v in fired <==> Due(key0, now, v) {
          assert v in s0;
          if v in Seq(t) {
            NoneDue(base, key0, key, now, fired, Seq(t), v);
          }
        }
      }
    }
  }

  lemma SortedPrefix(lt: (Ref, Ref) -> bool, a: seq<Ref>, b: seq<Ref>)
    requires Sorted(lt, a + b)
    ensures Sorted(lt, a)
  {
    var s := a + b;
    forall i, j | 0 <= i < j < |a| ensures !lt(a[j], a[i]) {
      assert s[i] == a[i] && s[j] == a[j];
    }
  }

  /** When the first of the remaining timers is not due, none is. */
  lemma NoneDue(base: Msec, key0: map<Ref, Msec>, key: map<Ref, Msec>, now: Msec, fired: seq<Ref>, s: seq<Ref>, v: Ref)
    requires InWindow(base, Keys(key0, fired + s) + {now}) && Sorted(Earlier(key), s) && v in s
    requires forall x | x in s :: KeyOf(key, x) == KeyOf(key0, x)
    requires SDiff(KeyOf(key, s[0]), now) > 0
    ensures !Due(key0, now, v)
  {
    forall k | k in Keys(key, s) ensures k in Keys(key0, fired + s) {
      var x :| x in s && KeyOf(key, x) == k;
      assert x in fired + s;
    }
    FirstIsLeast(base, key, now, s, v);
  }

  lemma SameMembersKeys(key: map<Ref, Msec>, a: seq<Ref>, b: seq<Ref>)
    requires forall v :: v in a <==> v in b
    ensures Keys(key, a) == Keys(key, b)
  {
  }

  /** Taking the first node out leaves the rest. */
  lemma FirstGone(s: seq<Ref>, node: Ref, at: nat)
    requires Uniq(s) && |s| > 0 && s[0] == node && at < |s| && s[at] == node
    ensures s[..at] + s[at + 1..] == s[1..] && forall v | v in s[1..] :: v != node
  {
    assert at == 0;
  }
}
