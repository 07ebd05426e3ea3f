/** The doubly linked lists threaded through the slab page descriptors.

    A descriptor is named by a node: one of the page descriptors, one of the
    slot heads, or the head of the list of free runs.  The low two bits of a
    `prev` word carry the page type, so a `prev` word is a node and a tag.
    All lists share the same `next` and `prev` words.  `lists` gives, for every
    head, the pages on its list in order; `owner` gives, for every page, the
    head of the list it is on. */
module Rings {

  datatype Node = Null | FreeHead | Slot(s: nat) | Page(i: nat)

  datatype Tag = TagPage | TagBig | TagExact | TagSmall

  datatype Prev = Prev(node: Node, tag: Tag)

  /** A zeroed `prev` word. */
  const NoPrev := Prev(Null, TagPage)

  type NextWords = map<Node, Node>
  type PrevWords = map<Node, Prev>
  type Lists = map<Node, seq<nat>>

  function Next(next: NextWords, x: Node): Node {
    if x in next then next[x] else Null
  }

  function Back(prev: PrevWords, x: Node): Prev {
    if x in prev then prev[x] else NoPrev
  }

  /** The node at position `k` of the ring of head `h`; the head itself sits at -1 and at the end. */
  ghost function At(h: Node, ms: seq<nat>, k: int): Node {
    if 0 <= k < |ms| then Page(ms[k]) else h
  }

  ghost predicate Distinct(ms: seq<nat>) {
    forall j, k | 0 <= j < k < |ms| :: ms[j] != ms[k]
  }

  ghost predicate LinkOk(next: NextWords, prev: PrevWords, h: Node, ms: seq<nat>, tag: Tag, k: nat)
    requires k < |ms|
  {
    && Next(next, Page(ms[k])) == At(h, ms, k + 1)
    && Back(prev, Page(ms[k])) == Prev(At(h, ms, k - 1), tag)
  }

  /** One circular list: forward links, and backward links carrying `tag`. */
  ghost predicate Ring(next: NextWords, prev: PrevWords, h: Node, ms: seq<nat>, tag: Tag) {
    && Next(next, h) == At(h, ms, 0)
    && Distinct(ms)
    && (forall k | 0 <= k < |ms| :: LinkOk(next, prev, h, ms, tag, k))
  }

  /** The tag carried by the backward links of the list with head `h`. */
  function HeadTag(h: Node): Tag {
    if h.Slot? then
      if h.s < 3 then TagSmall else if h.s == 3 then TagExact else TagBig
    else TagPage
  }

  ghost predicate IsHead(h: Node) {
    h == FreeHead || (h.Slot? && h.s < 9)
  }

  /** `ms` is the list of head `h`, and holds only pages owned by `h`. */
  ghost predicate ListOk(next: NextWords, prev: PrevWords, h: Node, ms: seq<nat>, owner: seq<Node>) {
    && Ring(next, prev, h, ms, HeadTag(h))
    && (forall k | 0 <= k < |ms| :: ms[k] < |owner| && owner[ms[k]] == h)
  }

  /** Every page owned by a head is on its list. */
  ghost predicate Covered(lists: Lists, owner: seq<Node>) {
    forall i | 0 <= i < |owner| && owner[i] in lists :: i in lists[owner[i]]
  }

  ghost predicate AllRings(next: NextWords, prev: PrevWords, lists: Lists, owner: seq<Node>) {
    && (forall h :: h in lists <==> IsHead(h))
    && (forall h | IsHead(h) :: ListOk(next, prev, h, lists[h], owner))
  }

  ghost function Without(ms: seq<nat>, k: nat): seq<nat>
    requires k < |ms|
  {
    ms[..k] + ms[k + 1..]
  }

  ghost function With(ms: seq<nat>, k: nat, q: nat): seq<nat>
    requires k < |ms|
  {
    ms[k := q]
  }

  /** A list without the page `x`. */
  ghost function Removed(ms: seq<nat>, x: nat): seq<nat> {
    if ms == [] then [] else if ms[0] == x then ms[1..] else [ms[0]] + Removed(ms[1..], x)
  }

  lemma {:induction false} RemovedAt(ms: seq<nat>, k: nat)
    requires k < |ms| && Distinct(ms)
    ensures Removed(ms, ms[k]) == Without(ms, k)
  {
    if k > 0 {
      assert ms[0] != ms[k] && ms[1..][k - 1] == ms[k];
      RemovedAt(ms[1..], k - 1);
      assert Without(ms, k) == [ms[0]] + Without(ms[1..], k - 1);
    }
  }

  lemma {:induction false} RemovedNone(ms: seq<nat>, x: nat)
    requires x !in ms
    ensures Removed(ms, x) == ms
  {
    if ms != [] {
      RemovedNone(ms[1..], x);
    }
  }

  ghost predicate SameLinks(next: NextWords, prev: PrevWords, next': NextWords, prev': PrevWords, x: Node) {
    Next(next', x) == Next(next, x) && Back(prev', x) == Back(prev, x)
  }

  /** A step that leaves alone the links of every page that is on no list, pages in `but` excepted. */
  ghost predicate LinksKept(next: NextWords, prev: PrevWords, next': NextWords, prev': PrevWords,
                            owner: seq<Node>, but: set<nat>)
  {
    forall i | 0 <= i < |owner| && i !in but && owner[i] == Null :: SameLinks(next, prev, next', prev', Page(i))
  }

  /** Writing words of nodes outside a list leaves it a list. */
  lemma ListFrame(next: NextWords, prev: PrevWords, next': NextWords, prev': PrevWords,
                  h: Node, ms: seq<nat>, owner: seq<Node>, owner': seq<Node>)
    requires ListOk(next, prev, h, ms, owner) && |owner| == |owner'|
    requires Next(next', h) == Next(next, h)
    requires forall i | 0 <= i < |owner| && owner[i] == h :: SameLinks(next, prev, next', prev', Page(i))
    requires forall i | 0 <= i < |owner| :: owner[i] == h <==> owner'[i] == h
    ensures ListOk(next', prev', h, ms, owner')
  {
    forall k | 0 <= k < |ms| ensures LinkOk(next', prev', h, ms, HeadTag(h), k) {
      assert LinkOk(next, prev, h, ms, HeadTag(h), k);
      assert owner[ms[k]] == h;
    }
  }

  lemma WithoutMembers(ms: seq<nat>, k: nat)
    requires k < |ms| && Distinct(ms)
    ensures Distinct(Without(ms, k))
    ensures forall p :: p in Without(ms, k) <==> p in ms && p != ms[k]
  {
    var rs := Without(ms, k);
    forall p | p in ms && p != ms[k] ensures p in rs {
      var j :| 0 <= j < |ms| && ms[j] == p;
      assert rs[if j < k then j else j - 1] == p;
    }
  }

  lemma WithMembers(ms: seq<nat>, k: nat, q: nat)
    requires k < |ms| && Distinct(ms)
    ensures forall p :: p in With(ms, k, q) <==> p == q || (p in ms && p != ms[k])
  {
    var rs := With(ms, k, q);
    assert rs[k] == q;
    forall p | p in ms && p != ms[k] ensures p in rs {
      var j :| 0 <= j < |ms| && ms[j] == p;
      assert rs[j] == p;
    }
    forall p | p in rs && p != q ensures p in ms && p != ms[k] {
      var j :| 0 <= j < |rs| && rs[j] == p;
      assert ms[j] == p;
    }
  }

  /** Unlinking the page at position `k` of a ring, as the source writes it. */
  lemma RingUnlink(next: NextWords, prev: PrevWords, h: Node, ms: seq<nat>, tag: Tag, k: nat)
    requires Ring(next, prev, h, ms, tag) && !h.Page? && k < |ms|
    ensures var p := Page(ms[k]);
            Ring(next[Back(prev, p).node := Next(next, p)], prev[Next(next, p) := Back(prev, p)],
                 h, Without(ms, k), tag)
  {
    WithoutMembers(ms, k);
    var p := Page(ms[k]);
    var rs := Without(ms, k);
    assert LinkOk(next, prev, h, ms, tag, k);
    var next' := next[Back(prev, p).node := Next(next, p)];
    var prev' := prev[Next(next, p) := Back(prev, p)];
    forall j | 0 <= j < |rs| ensures LinkOk(next', prev', h, rs, tag, j) {
      var i := if j < k then j else j + 1;
      assert rs[j] == ms[i] && LinkOk(next, prev, h, ms, tag, i);
      assert At(h, rs, j + 1) == if j + 1 == k then At(h, ms, k + 1) else At(h, ms, i + 1);
      assert At(h, rs, j - 1) == if j == k then At(h, ms, k - 1) else At(h, ms, i - 1);
    }
  }

  /** Pushing a page to the front of a ring. */
  lemma RingPush(next: NextWords, prev: PrevWords, h: Node, ms: seq<nat>, tag: Tag, q: nat)
    requires Ring(next, prev, h, ms, tag) && !h.Page? && q !in ms
    ensures Ring(next[Page(q) := Next(next, h)][h := Page(q)],
                 prev[Page(q) := Prev(h, tag)][Next(next, h) := Prev(Page(q), tag)],
                 h, [q] + ms, tag)
  {
    var rs := [q] + ms;
    var next' := next[Page(q) := Next(next, h)][h := Page(q)];
    var prev' := prev[Page(q) := Prev(h, tag)][Next(next, h) := Prev(Page(q), tag)];
    forall j | 0 <= j < |rs| ensures LinkOk(next', prev', h, rs, tag, j) {
      if j > 0 {
        assert rs[j] == ms[j - 1] && LinkOk(next, prev, h, ms, tag, j - 1);
      }
    }
  }

  /** Putting page `q` in the place of the page at position `k`. */
  lemma RingReplace(next: NextWords, prev: PrevWords, h: Node, ms: seq<nat>, tag: Tag, k: nat, q: nat)
    requires Ring(next, prev, h, ms, tag) && !h.Page? && k < |ms| && q !in ms
    ensures var p := Page(ms[k]);
            Ring(next[Page(q) := Next(next, p)][Back(prev, p).node := Page(q)],
                 prev[Page(q) := Back(prev, p)][Next(next, p) := Prev(Page(q), tag)],
                 h, With(ms, k, q), tag)
  {
    var p := Page(ms[k]);
    var rs := With(ms, k, q);
    assert LinkOk(next, prev, h, ms, tag, k);
    var next' := next[Page(q) := Next(next, p)][Back(prev, p).node := Page(q)];
    var prev' := prev[Page(q) := Back(prev, p)][Next(next, p) := Prev(Page(q), tag)];
    forall j | 0 <= j < |rs| ensures LinkOk(next', prev', h, rs, tag, j) {
      assert LinkOk(next, prev, h, ms, tag, j);
    }
  }

  /** The neighbours of a page on a list are the head or pages of the same list. */
  lemma AtOwned(h: Node, ms: seq<nat>, owner: seq<Node>, k: int)
    requires forall j | 0 <= j < |ms| :: ms[j] < |owner| && owner[ms[j]] == h
    ensures var x := At(h, ms, k); x == h || (x.Page? && x.i < |owner| && owner[x.i] == h)
  {
  }

  /** The other heads and the pages on other lists keep their words. */
  ghost predicate Elsewhere(next: NextWords, prev: PrevWords, next': NextWords, prev': PrevWords,
                            owner: seq<Node>, h: Node, but: set<nat>)
  {
    && (forall g | IsHead(g) && g != h :: Next(next', g) == Next(next, g))
    && (forall i | 0 <= i < |owner| && i !in but && owner[i] != h && owner[i] != Null ::
          SameLinks(next, prev, next', prev', Page(i)))
  }

  /** A step that changes only the list of `h` and the pages on it or on no list. */
  lemma OneList(next: NextWords, prev: PrevWords, next': NextWords, prev': PrevWords,
                lists: Lists, owner: seq<Node>, owner': seq<Node>, h: Node, ms: seq<nat>, but: set<nat>)
    requires AllRings(next, prev, lists, owner) && IsHead(h) && |owner| == |owner'|
    requires ListOk(next', prev', h, ms, owner')
    requires Elsewhere(next, prev, next', prev', owner, h, but)
    requires forall i | i in but :: i < |owner| && owner[i] == Null
    requires forall i | 0 <= i < |owner| :: owner'[i] == owner[i] || (owner[i] in {h, Null} && owner'[i] in {h, Null})
    ensures AllRings(next', prev', lists[h := ms], owner')
  {
    forall g | IsHead(g) && g != h ensures ListOk(next', prev', g, lists[g], owner') {
      ListFrame(next, prev, next', prev', g, lists[g], owner, owner');
    }
  }

  /** The words written to take the page `p` off its list. */
  function UnlinkNext(next: NextWords, prev: PrevWords, p: Node): NextWords {
    next[Back(prev, p).node := Next(next, p)]
  }

  function UnlinkPrev(next: NextWords, prev: PrevWords, p: Node): PrevWords {
    prev[Next(next, p) := Back(prev, p)]
  }

  /** Unlinking a page keeps every list. */
  lemma Unlink(next: NextWords, prev: PrevWords, lists: Lists, owner: seq<Node>, h: Node, k: nat)
    requires AllRings(next, prev, lists, owner) && IsHead(h) && k < |lists[h]|
    ensures var i := lists[h][k];
            var next', prev' := UnlinkNext(next, prev, Page(i)), UnlinkPrev(next, prev, Page(i));
            && i < |owner|
            && AllRings(next', prev', lists[h := Without(lists[h], k)], owner[i := Null])
            && LinksKept(next, prev, next', prev', owner, {})
            && SameLinks(next, prev, next', prev', Page(i))
  {
    var ms := lists[h];
    var p := Page(ms[k]);
    var next', prev' := UnlinkNext(next, prev, p), UnlinkPrev(next, prev, p);
    UnlinkOwn(next, prev, h, ms, owner, k);
    UnlinkKept(next, prev, h, ms, owner, k);
    OneList(next, prev, next', prev', lists, owner, owner[ms[k] := Null], h, Without(ms, k), {});
  }

  lemma UnlinkKept(next: NextWords, prev: PrevWords, h: Node, ms: seq<nat>, owner: seq<Node>, k: nat)
    requires ListOk(next, prev, h, ms, owner) && IsHead(h) && k < |ms|
    ensures var p := Page(ms[k]);
            var next', prev' := UnlinkNext(next, prev, p), UnlinkPrev(next, prev, p);
            && Elsewhere(next, prev, next', prev', owner, h, {})
            && LinksKept(next, prev, next', prev', owner, {})
            && SameLinks(next, prev, next', prev', p)
  {
    assert LinkOk(next, prev, h, ms, HeadTag(h), k);
    AtOwned(h, ms, owner, k - 1);
    AtOwned(h, ms, owner, k + 1);
  }

  lemma UnlinkOwn(next: NextWords, prev: PrevWords, h: Node, ms: seq<nat>, owner: seq<Node>, k: nat)
    requires ListOk(next, prev, h, ms, owner) && IsHead(h) && k < |ms|
    ensures var p := Page(ms[k]);
            ListOk(UnlinkNext(next, prev, p), UnlinkPrev(next, prev, p), h, Without(ms, k), owner[ms[k] := Null])
  {
    RingUnlink(next, prev, h, ms, HeadTag(h), k);
    WithoutMembers(ms, k);
    var rs := Without(ms, k);
    forall j | 0 <= j < |rs| ensures rs[j] < |owner| && owner[ms[k] := Null][rs[j]] == h {
      assert rs[j] in ms;
    }
  }

  /** The words written to put page `q` at the front of the list of `h`. */
  function PushNext(next: NextWords, h: Node, q: nat): NextWords {
    next[Page(q) := Next(next, h)][h := Page(q)]
  }

  function PushPrev(next: NextWords, prev: PrevWords, h: Node, q: nat): PrevWords {
    prev[Page(q) := Prev(h, HeadTag(h))][Next(next, h) := Prev(Page(q), HeadTag(h))]
  }

  /** Pushing a page that is on no list keeps every list. */
  lemma Push(next: NextWords, prev: PrevWords, lists: Lists, owner: seq<Node>, h: Node, q: nat)
    requires AllRings(next, prev, lists, owner) && IsHead(h) && q < |owner| && owner[q] == Null
    ensures var next', prev' := PushNext(next, h, q), PushPrev(next, prev, h, q);
            && AllRings(next', prev', lists[h := [q] + lists[h]], owner[q := h])
            && LinksKept(next, prev, next', prev', owner, {q})
  {
    var ms := lists[h];
    PushOwn(next, prev, h, ms, owner, q);
    PushKept(next, prev, h, ms, owner, q);
    OneList(next, prev, PushNext(next, h, q), PushPrev(next, prev, h, q), lists, owner, owner[q := h], h, [q] + ms, {q});
  }

  lemma PushKept(next: NextWords, prev: PrevWords, h: Node, ms: seq<nat>, owner: seq<Node>, q: nat)
    requires ListOk(next, prev, h, ms, owner) && IsHead(h)
    ensures var next', prev' := PushNext(next, h, q), PushPrev(next, prev, h, q);
            && Elsewhere(next, prev, next', prev', owner, h, {q})
            && LinksKept(next, prev, next', prev', owner, {q})
  {
    AtOwned(h, ms, owner, 0);
  }

  lemma PushOwn(next: NextWords, prev: PrevWords, h: Node, ms: seq<nat>, owner: seq<Node>, q: nat)
    requires ListOk(next, prev, h, ms, owner) && IsHead(h) && q < |owner| && owner[q] == Null
    ensures ListOk(PushNext(next, h, q), PushPrev(next, prev, h, q), h, [q] + ms, owner[q := h])
  {
    assert q !in ms;
    RingPush(next, prev, h, ms, HeadTag(h), q);
  }

  /** The words written to put page `q` in the place of page `p` on a list with tag `tag`. */
  function ReplaceNext(next: NextWords, prev: PrevWords, p: Node, q: nat): NextWords {
    next[Page(q) := Next(next, p)][Back(prev, p).node := Page(q)]
  }

  function ReplacePrev(next: NextWords, prev: PrevWords, p: Node, q: nat, tag: Tag): PrevWords {
    prev[Page(q) := Back(prev, p)][Next(next, p) := Prev(Page(q), tag)]
  }

  /** Replacing a page by one that is on no list keeps every list. */
  lemma Replace(next: NextWords, prev: PrevWords, lists: Lists, owner: seq<Node>, h: Node, k: nat, q: nat)
    requires AllRings(next, prev, lists, owner) && IsHead(h) && k < |lists[h]|
    requires q < |owner| && owner[q] == Null
    ensures var i := lists[h][k];
            var next', prev' := ReplaceNext(next, prev, Page(i), q), ReplacePrev(next, prev, Page(i), q, HeadTag(h));
            && i < |owner|
            && AllRings(next', prev', lists[h := With(lists[h], k, q)], owner[i := Null][q := h])
            && LinksKept(next, prev, next', prev', owner, {q})
  {
    var ms, tag := lists[h], HeadTag(h);
    var p := Page(ms[k]);
    ReplaceOwn(next, prev, h, ms, owner, k, q);
    ReplaceKept(next, prev, h, ms, owner, k, q);
    OneList(next, prev, ReplaceNext(next, prev, p, q), ReplacePrev(next, prev, p, q, tag), lists, owner,
            owner[ms[k] := Null][q := h], h, With(ms, k, q), {q});
  }

  lemma ReplaceKept(next: NextWords, prev: PrevWords, h: Node, ms: seq<nat>, owner: seq<Node>, k: nat, q: nat)
    requires ListOk(next, prev, h, ms, owner) && IsHead(h) && k < |ms|
    ensures var p := Page(ms[k]);
            var next', prev' := ReplaceNext(next, prev, p, q), ReplacePrev(next, prev, p, q, HeadTag(h));
            && Elsewhere(next, prev, next', prev', owner, h, {q})
            && LinksKept(next, prev, next', prev', owner, {q})
  {
    assert LinkOk(next, prev, h, ms, HeadTag(h), k);
    AtOwned(h, ms, owner, k - 1);
    AtOwned(h, ms, owner, k + 1);
  }

  lemma ReplaceOwn(next: NextWords, prev: PrevWords, h: Node, ms: seq<nat>, owner: seq<Node>, k: nat, q: nat)
    requires ListOk(next, prev, h, ms, owner) && IsHead(h) && k < |ms| && q < |owner| && owner[q] == Null
    ensures var p := Page(ms[k]);
            ListOk(ReplaceNext(next, prev, p, q), ReplacePrev(next, prev, p, q, HeadTag(h)),
                   h, With(ms, k, q), owner[ms[k] := Null][q := h])
  {
    assert q !in ms;
    RingReplace(next, prev, h, ms, HeadTag(h), k, q);
    WithMembers(ms, k, q);
    var rs := With(ms, k, q);
    forall j | 0 <= j < |rs| ensures rs[j] < |owner| && owner[ms[k] := Null][q := h][rs[j]] == h {
      assert rs[j] == q || (rs[j] == ms[j] && j != k);
    }
  }

  /** Writing the words of a page that is on no list. */
  lemma Write(next: NextWords, prev: PrevWords, lists: Lists, owner: seq<Node>, x: nat, to: Node, back: Prev)
    requires AllRings(next, prev, lists, owner) && x < |owner| && owner[x] == Null
    ensures AllRings(next[Page(x) := to], prev[Page(x) := back], lists, owner)
  {
    forall h | IsHead(h) ensures ListOk(next[Page(x) := to], prev[Page(x) := back], h, lists[h], owner) {
      ListFrame(next, prev, next[Page(x) := to], prev[Page(x) := back], h, lists[h], owner, owner);
    }
  }

  lemma WriteBack(next: NextWords, prev: PrevWords, lists: Lists, owner: seq<Node>, x: nat, back: Prev)
    requires AllRings(next, prev, lists, owner) && x < |owner| && owner[x] == Null
    ensures AllRings(next, prev[Page(x) := back], lists, owner)
  {
    forall h | IsHead(h) ensures ListOk(next, prev[Page(x) := back], h, lists[h], owner) {
      ListFrame(next, prev, next, prev[Page(x) := back], h, lists[h], owner, owner);
    }
  }

  /** Unlinking, pushing and replacing keep every owned page on its list. */
  lemma UnlinkCovered(lists: Lists, owner: seq<Node>, h: Node, k: nat)
    requires Covered(lists, owner) && h in lists && k < |lists[h]| && Distinct(lists[h]) && Null !in lists
    requires lists[h][k] < |owner|
    ensures Covered(lists[h := Without(lists[h], k)], owner[lists[h][k] := Null])
  {
    WithoutMembers(lists[h], k);
  }

  lemma PushCovered(lists: Lists, owner: seq<Node>, h: Node, q: nat)
    requires Covered(lists, owner) && h in lists && q < |owner|
    ensures Covered(lists[h := [q] + lists[h]], owner[q := h])
  {
  }

  lemma ReplaceCovered(lists: Lists, owner: seq<Node>, h: Node, k: nat, q: nat)
    requires Covered(lists, owner) && h in lists && k < |lists[h]| && Distinct(lists[h]) && Null !in lists
    requires lists[h][k] < |owner| && q < |owner|
    ensures Covered(lists[h := With(lists[h], k, q)], owner[lists[h][k] := Null][q := h])
  {
    WithMembers(lists[h], k, q);
  }
}
