/** The open file cache: its records, the name tree, the expiry queue, the file
    descriptors that are open, and the handles that were given out. */
module FileCacheState {

  const INVALID := -1
  const NONE := -1
  const LOST := -2

  /** How symbolic links in a name are treated: the mode, and the part of the name it begins at. */
  datatype Links = Links(mode: nat, from: nat)

  datatype Rec = Rec(name: string, fd: int, uniq: nat, err: nat, isDir: bool, links: Links, count: int, close: bool,
                     uses: nat, created: int, accessed: int)

  /** What a request got: a record, and the descriptor it reads from. */
  datatype Handle = Handle(file: int, fd: int, minUses: nat)

  /** `open` has the open descriptors and whose each one is: a record's, nobody's yet (NONE), or one that
      its record has forgotten (LOST). */
  datatype State = State(recs: map<int, Rec>, tree: map<string, int>, queue: seq<int>, current: int,
                         open: map<int, int>, handles: map<int, Handle>)

  /** The handles on a record. */
  function On(handles: map<int, Handle>, id: int): set<int> {
    set h | h in handles && handles[h].file == id
  }

  predicate InTree(s: State, id: int) {
    id in s.recs && s.recs[id].name in s.tree && s.tree[s.recs[id].name] == id
  }

  // ---- The books: counts, names and queue ----

  /** `dead` may be a record that has left the tree and is to be freed. */
  predicate RecOk(s: State, dead: int, id: int) {
    id in s.recs ==>
      var r := s.recs[id];
      && id >= 0 && r.count == |On(s.handles, id)|
      && (r.err != 0 || r.isDir || r.fd == INVALID ==> r.count == 0)
      && (if InTree(s, id) then r.err == 0 ==> !r.close else id == dead || (r.close && r.count > 0))
  }

  predicate NameOk(s: State, n: string) {
    n in s.tree ==> s.tree[n] in s.recs && s.recs[s.tree[n]].name == n
  }

  predicate HandleOk(s: State, h: int) {
    h in s.handles ==> s.handles[h].file in s.recs
  }

  predicate QueuedOk(s: State, out: int, id: int) {
    id in s.queue <==> InTree(s, id) && id != out
  }

  /** The queue has every record of the tree once, but for one that is taken out of it. */
  ghost predicate QueueOk(s: State, out: int) {
    && (forall i, j | 0 <= i < j < |s.queue| :: s.queue[i] != s.queue[j])
    && (forall id {:trigger QueuedOk(s, out, id)} :: QueuedOk(s, out, id))
    && |s.queue| + (if out == NONE then 0 else 1) == s.current == |s.tree|
    && (out != NONE ==> InTree(s, out))
  }

  ghost predicate RecsOk(s: State, dead: int) {
    forall id {:trigger RecOk(s, dead, id)} :: RecOk(s, dead, id)
  }

  ghost predicate NamesOk(s: State) {
    forall n {:trigger NameOk(s, n)} :: NameOk(s, n)
  }

  ghost predicate HandlesOk(s: State) {
    forall h {:trigger HandleOk(s, h)} :: HandleOk(s, h)
  }

  ghost predicate Book(s: State, out: int, dead: int) {
    RecsOk(s, dead) && NamesOk(s) && HandlesOk(s) && QueueOk(s, out)
  }

  // ---- The descriptors ----

  /** A record's descriptor is open and its own, and belongs to a file. */
  predicate RecFd(s: State, id: int) {
    id in s.recs && s.recs[id].fd != INVALID ==>
      var r := s.recs[id]; id >= 0 && r.fd in s.open && s.open[r.fd] == id && r.err == 0 && !r.isDir
  }

  /** An open descriptor is a record's or lost, but for one that has just been opened. */
  predicate FdOk(s: State, loose: int, fd: int) {
    fd in s.open ==>
      && fd >= 0
      && if s.open[fd] == NONE then fd == loose
         else s.open[fd] == LOST || (s.open[fd] in s.recs && s.recs[s.open[fd]].fd == fd)
  }

  /** A handle reads from an open descriptor, its record's or a lost one. */
  predicate HandleFd(s: State, h: int) {
    h in s.handles ==>
      var f, fd := s.handles[h].file, s.handles[h].fd;
      fd in s.open && (s.open[fd] == LOST || (f in s.recs && s.recs[f].fd == fd))
  }

  ghost predicate RecFds(s: State) {
    forall id {:trigger RecFd(s, id)} :: RecFd(s, id)
  }

  ghost predicate FdsOk(s: State, loose: int) {
    forall fd {:trigger FdOk(s, loose, fd)} :: FdOk(s, loose, fd)
  }

  ghost predicate HandleFds(s: State) {
    forall h {:trigger HandleFd(s, h)} :: HandleFd(s, h)
  }

  ghost predicate Sound(s: State, loose: int) {
    && RecFds(s) && FdsOk(s, loose) && HandleFds(s)
    && (loose != NONE ==> loose in s.open && s.open[loose] == NONE)
  }

  /** No descriptor is lost. */
  predicate Clean(s: State) {
    forall fd | fd in s.open :: s.open[fd] != LOST
  }

  // ---- The queue ----

  function Without(q: seq<int>, id: int): seq<int> {
    if q == [] then [] else if q[0] == id then q[1..] else [q[0]] + Without(q[1..], id)
  }

  lemma {:induction false} WithoutIs(q: seq<int>, id: int)
    requires id in q && forall i, j | 0 <= i < j < |q| :: q[i] != q[j]
    ensures |Without(q, id)| == |q| - 1 && (forall i, j | 0 <= i < j < |q| - 1 :: Without(q, id)[i] != Without(q, id)[j])
    ensures forall x :: x in Without(q, id) <==> x in q && x != id
  {
    if q[0] == id {
      assert q == [q[0]] + q[1..];
    } else {
      assert q == [q[0]] + q[1..];
      assert id in q[1..];
      WithoutIs(q[1..], id);
      var r := Without(q[1..], id);
      assert Without(q, id) == [q[0]] + r;
      forall i, j | 0 <= i < j < |q| - 1
        ensures Without(q, id)[i] != Without(q, id)[j]
      {
        assert Without(q, id)[j] == r[j - 1];
        if i == 0 {
          assert r[j - 1] in r;
        }
      }
    }
  }

  lemma {:induction false} WithoutLast(q: seq<int>)
    requires q != [] && forall i, j | 0 <= i < j < |q| :: q[i] != q[j]
    ensures Without(q, q[|q| - 1]) == q[..|q| - 1]
  {
    if |q| > 1 {
      assert q[0] != q[|q| - 1] && q[1..][|q| - 2] == q[|q| - 1];
      WithoutLast(q[1..]);
      assert q[..|q| - 1] == [q[0]] + q[1..][..|q| - 2];
    }
  }

  function Unqueue(s: State, id: int): State {
    s.(queue := Without(s.queue, id))
  }

  function Enqueue(s: State, id: int): State {
    s.(queue := [id] + s.queue)
  }

  lemma QueueOnly(s: State, s': State, dead: int)
    requires RecsOk(s, dead) && NamesOk(s) && HandlesOk(s) && s' == s.(queue := s'.queue)
    ensures RecsOk(s', dead) && NamesOk(s') && HandlesOk(s')
  {
    forall id
      ensures RecOk(s', dead, id)
    {
      assert RecOk(s, dead, id);
    }
    forall n
      ensures NameOk(s', n)
    {
      assert NameOk(s, n);
    }
    forall h
      ensures HandleOk(s', h)
    {
      assert HandleOk(s, h);
    }
  }

  /** What the names, the queue and the counts of handles are does not matter to the descriptors. */
  predicate SameFds(s: State, s': State) {
    && s'.open == s.open && s'.handles == s.handles && s'.recs.Keys == s.recs.Keys
    && forall id | id in s.recs :: s'.recs[id].fd == s.recs[id].fd && s'.recs[id].err == s.recs[id].err
                                   && s'.recs[id].isDir == s.recs[id].isDir
  }

  lemma SameSound(s: State, s': State, loose: int)
    requires Sound(s, loose) && SameFds(s, s')
    ensures Sound(s', loose)
  {
    forall id
      ensures RecFd(s', id)
    {
      assert RecFd(s, id);
    }
    forall fd
      ensures FdOk(s', loose, fd)
    {
      assert FdOk(s, loose, fd);
    }
    forall h
      ensures HandleFd(s', h)
    {
      assert HandleFd(s, h);
    }
  }

  lemma UnqueueBook(s: State, id: int, dead: int)
    requires Book(s, NONE, dead) && InTree(s, id) && id >= 0
    ensures Book(Unqueue(s, id), id, dead)
  {
    var s' := Unqueue(s, id);
    QueueOnly(s, s', dead);
    assert QueuedOk(s, NONE, id);
    WithoutIs(s.queue, id);
    forall x
      ensures QueuedOk(s', id, x)
    {
      assert QueuedOk(s, NONE, x);
      assert RecOk(s, dead, x);
    }
  }

  lemma EnqueueBook(s: State, id: int, dead: int)
    requires Book(s, id, dead) && id != NONE
    ensures Book(Enqueue(s, id), NONE, dead)
  {
    var s' := Enqueue(s, id);
    QueueOnly(s, s', dead);
    assert QueuedOk(s, id, id);
    assert forall i | 0 < i < |s'.queue| :: s'.queue[i] == s.queue[i - 1];
    forall x
      ensures QueuedOk(s', NONE, x)
    {
      assert QueuedOk(s, id, x);
      assert RecOk(s, dead, x);
    }
  }

  // ---- The order of the queue ----

  /** When a record was last used. */
  function Used(s: State, id: int): int {
    if id in s.recs then s.recs[id].accessed else 0
  }

  predicate Later(s: State, a: int, b: int) {
    Used(s, a) >= Used(s, b)
  }

  /** The queue has the records in the order of their last use, the latest first, none after `now`. */
  ghost predicate InOrder(s: State, now: int) {
    && (forall i | 0 <= i < |s.queue| :: Used(s, s.queue[i]) <= now)
    && (forall i, j | 0 <= i < j < |s.queue| :: Later(s, s.queue[i], s.queue[j]))
  }

  /** The queue is the same, and so is the use of its records. */
  predicate SameTimes(s: State, s': State) {
    s'.queue == s.queue && forall i | 0 <= i < |s.queue| :: Used(s', s.queue[i]) == Used(s, s.queue[i])
  }

  lemma SameOrder(s: State, s': State, now: int)
    requires SameTimes(s, s') && InOrder(s, now)
    ensures InOrder(s', now)
  {
    forall i, j | 0 <= i < j < |s'.queue| ensures Later(s', s'.queue[i], s'.queue[j]) {
      assert Later(s, s.queue[i], s.queue[j]);
    }
  }

  lemma {:induction false} WithoutAt(q: seq<int>, id: int) returns (k: nat)
    ensures k <= |q| && Without(q, id) == q[..k] + (if k < |q| then q[k + 1..] else [])
  {
    if q == [] || q[0] == id {
      k := 0;
    } else {
      k := WithoutAt(q[1..], id);
      assert q == [q[0]] + q[1..];
      k := k + 1;
    }
  }

  lemma UnqueueOrder(s: State, id: int, now: int)
    requires InOrder(s, now)
    ensures InOrder(Unqueue(s, id), now)
  {
    var k := WithoutAt(s.queue, id);
    CutOrder(s, Unqueue(s, id), k, now);
  }

  lemma CutOrder(s: State, s': State, k: nat, now: int)
    requires InOrder(s, now) && k <= |s.queue| && s'.recs == s.recs
    requires s'.queue == s.queue[..k] + (if k < |s.queue| then s.queue[k + 1..] else [])
    ensures InOrder(s', now)
  {
    forall i | 0 <= i < |s'.queue| ensures Used(s', s'.queue[i]) <= now {
      assert s'.queue[i] == s.queue[if i < k then i else i + 1];
    }
    forall i, j | 0 <= i < j < |s'.queue| ensures Later(s', s'.queue[i], s'.queue[j]) {
      var a, b := if i < k then i else i + 1, if j < k then j else j + 1;
      assert s'.queue[i] == s.queue[a] && s'.queue[j] == s.queue[b];
      assert Later(s, s.queue[a], s.queue[b]);
    }
  }

  /** A record that is used now goes to the head. */
  lemma EnqueueOrder(s: State, id: int, now: int)
    requires InOrder(s, now) && Used(s, id) == now
    ensures InOrder(Enqueue(s, id), now)
  {
    var s' := Enqueue(s, id);
    forall i, j | 0 <= i < j < |s'.queue| ensures Later(s', s'.queue[i], s'.queue[j]) {
      assert s'.queue[j] == s.queue[j - 1];
      assert i > 0 ==> s'.queue[i] == s.queue[i - 1] && Later(s, s.queue[i - 1], s.queue[j - 1]);
    }
  }
}
