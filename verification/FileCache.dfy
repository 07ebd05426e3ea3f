/** The open file cache: opening through it, giving a file back, and expiry.
    What the file system answers is a parameter. */
module FileCache {
  import opened FileCacheState
  import opened FileCacheSteps

  datatype Stat = StatFailed(errno: nat) | StatOk(uniq: nat, isDir: bool)

  /** What opening a file and asking for its data gives; a directory, or a file without data, is closed
      again at once. */
  datatype OpenResult = OpenFailed(errno: nat) | NoData | OpenedDir(uniq: nat) | OpenedFile(fd: int, uniq: nat)

  /** A failure with its error number, or a directory or a file with the descriptor that goes with it. */
  datatype Outcome = Failed(err: nat) | Dir(fd: int, uniq: nat) | File(fd: int, uniq: nat)

  function FromOpen(second: OpenResult): Outcome {
    match second
    case OpenFailed(e) => Failed(e)
    case NoData => Failed(0)
    case OpenedDir(u) => Dir(INVALID, u)
    case OpenedFile(fd, u) => File(fd, u)
  }

  function Seen(fd: int, uniq: nat, isDir: bool): Outcome {
    if isDir then Dir(fd, uniq) else File(fd, uniq)
  }

  /** `fd` is a descriptor of the file with number `uniq`, or INVALID. */
  function OpenAndStat(fd: int, uniq: nat, testDir: bool, first: Stat, second: OpenResult): Outcome {
    if fd != INVALID then
      if first.StatFailed? then Failed(first.errno)
      else if first.uniq == uniq then Seen(fd, uniq, first.isDir)
      else FromOpen(second)
    else if testDir then
      if first.StatFailed? then Failed(first.errno)
      else if first.isDir then Dir(INVALID, first.uniq)
      else FromOpen(second)
    else FromOpen(second)
  }

  /** The file is opened, and a new descriptor comes with it. */
  predicate Opens(fd: int, uniq: nat, testDir: bool, first: Stat, second: OpenResult) {
    && second.OpenedFile?
    && if fd != INVALID then first.StatOk? && first.uniq != uniq
       else testDir ==> first.StatOk? && !first.isDir
  }

  function FdOf(o: Outcome): int {
    if o.Failed? then INVALID else o.fd
  }

  // ---- Closing ----

  /** The descriptors stay in order, and none is lost. */
  ghost predicate Kept(s: State, s': State, loose: int) {
    Sound(s, loose) ==> Sound(s', loose) && (Clean(s) ==> Clean(s'))
  }

  method CloseRec(s0: State, id: int, ghost out: int, ghost dead: int, ghost loose: int) returns (s: State)
    requires Book(s0, out, dead) && id in s0.recs && s0.recs[id].count == 0
    ensures s == if s0.recs[id].fd != INVALID then CloseFd(s0, id) else s0
    ensures Book(s, out, dead) && Kept(s0, s, loose)
  {
    s := s0;
    if s.recs[id].fd != INVALID {
      assert RecOk(s, dead, id);
      CloseFdBook(s, id, out, dead);
      if Sound(s, loose) {
        CloseFdSound(s, id, loose);
      }
      s := CloseFd(s, id);
    }
  }

  /** Frees a record that has left the tree. */
  method FreeRec(s0: State, id: int, ghost loose: int) returns (s: State)
    requires Book(s0, NONE, id) && id in s0.recs && !InTree(s0, id) && s0.recs[id].count == 0
    requires s0.recs[id].fd != INVALID ==> s0.recs[id].err != 0 || s0.recs[id].isDir
    ensures Book(s, NONE, NONE) && Kept(s0, s, loose) && s == Free(s0, id)
  {
    assert RecOk(s0, id, id);
    FreeBook(s0, id);
    if Sound(s0, loose) {
      assert RecFd(s0, id);
      FreeSound(s0, id, loose);
    }
    s := Free(s0, id);
  }

  /** The queue stays in order. */
  ghost predicate Orderly(s: State, s': State, now: int) {
    InOrder(s, now) ==> InOrder(s', now)
  }

  /** So it does with every step that leaves the queue and the use of its records alone. */
  lemma OrderlySame(s: State, s': State, now: int)
    requires SameTimes(s, s')
    ensures Orderly(s, s', now)
  {
    if InOrder(s, now) {
      SameOrder(s, s', now);
    }
  }

  /** Only record `id` may have changed or gone. */
  predicate OthersSame(s: State, s': State, id: int) {
    forall x | x in s.recs && x != id :: x in s'.recs && s'.recs[x] == s.recs[x]
  }

  /** Without handles the descriptor is closed if the record has left the tree, which is then freed, or was used
      too little; and a record of the tree comes to the head of the queue, used now. */
  predicate ClosedAs(s: State, s': State, id: int, minUses: nat, now: int)
    requires id in s.recs
  {
    var r := s.recs[id];
    var closes := r.count == 0 && (r.close || r.uses < minUses);
    && s'.open == (if closes && r.fd != INVALID then s.open - {r.fd} else s.open)
    && if r.close then id in s'.recs <==> r.count != 0
       else
         && s'.queue == [id] + Without(s.queue, id)
         && s'.recs == s.recs[id := r.(accessed := now, fd := if closes then INVALID else r.fd)]
  }

  /** Moves a record that is in use to the head of the queue, or closes it; one that has left the tree is
      freed with its last handle. */
  method CloseCached(s0: State, id: int, minUses: nat, now: int, ghost loose: int) returns (s: State)
    requires Book(s0, NONE, id) && id in s0.recs && (InTree(s0, id) <==> !s0.recs[id].close)
    ensures Book(s, NONE, NONE) && Kept(s0, s, loose) && s.recs.Keys <= s0.recs.Keys
    ensures s.handles == s0.handles && s.tree == s0.tree && s.current == s0.current
    ensures Orderly(s0, s, now) && OthersSame(s0, s, id) && (s0.recs[id].close ==> s.queue == s0.queue)
    ensures ClosedAs(s0, s, id, minUses, now)
  {
    s := s0;
    assert RecOk(s, id, id);
    if s.recs[id].close {
      s := CloseLeft(s, id, loose);
      OrderlySame(s0, s, now);
      return;
    }
    Alive(s, id);
    s := Touch(s, id, now, loose);
    if s.recs[id].uses >= minUses || s.recs[id].count != 0 {
      return;
    }
    ghost var t := s;
    s := CloseRec(s, id, NONE, NONE, loose);
    assert SameTimes(t, s);
    OrderlySame(t, s, now);
  }

  /** A record that has left the tree is freed unless it has handles. */
  method CloseLeft(s0: State, id: int, ghost loose: int) returns (s: State)
    requires Book(s0, NONE, id) && id in s0.recs && !InTree(s0, id) && s0.recs[id].close
    ensures Book(s, NONE, NONE) && Kept(s0, s, loose) && s.recs.Keys <= s0.recs.Keys
    ensures s.handles == s0.handles && s.tree == s0.tree && s.current == s0.current
    ensures SameTimes(s0, s) && OthersSame(s0, s, id) && (id in s.recs <==> s0.recs[id].count != 0)
    ensures s.open == if s0.recs[id].count == 0 && s0.recs[id].fd != INVALID then s0.open - {s0.recs[id].fd} else s0.open
  {
    s := s0;
    assert RecOk(s, id, id);
    if s.recs[id].count != 0 {
      SetRecBook(s, id, s.recs[id], NONE, id, NONE);
      assert SetRec(s, id, s.recs[id]) == s;
      return;
    }
    s := CloseAndFree(s, id, loose);
    TimesOthers(s0, s, id);
  }

  method CloseAndFree(s0: State, id: int, ghost loose: int) returns (s: State)
    requires Book(s0, NONE, id) && id in s0.recs && !InTree(s0, id) && s0.recs[id].count == 0
    ensures Book(s, NONE, NONE) && Kept(s0, s, loose)
    ensures s == s0.(recs := s0.recs - {id}, open := s.open)
    ensures s.open == if s0.recs[id].fd != INVALID then s0.open - {s0.recs[id].fd} else s0.open
  {
    s := CloseRec(s0, id, NONE, id, loose);
    ghost var t := s;
    s := FreeRec(s, id, loose);
    Goneness(s0.recs, t.recs, id);
  }

  lemma Goneness(recs: map<int, Rec>, recs': map<int, Rec>, id: int)
    requires id in recs && (recs' == recs || recs' == recs[id := recs[id].(fd := INVALID)])
    ensures recs' - {id} == recs - {id}
  {
  }

  /** A record that is not in the queue does not matter to its order. */
  lemma TimesOthers(s: State, s': State, id: int)
    requires QueueOk(s, NONE) && !InTree(s, id) && s'.queue == s.queue && OthersSame(s, s', id)
    ensures SameTimes(s, s')
  {
    assert QueuedOk(s, NONE, id);
    InQueue(s);
  }

  lemma Alive(s: State, id: int)
    requires Book(s, NONE, id) && InTree(s, id)
    ensures Book(s, NONE, NONE)
  {
    assert RecOk(s, id, id);
    SetRecBook(s, id, s.recs[id], NONE, id, NONE);
    assert SetRec(s, id, s.recs[id]) == s;
  }

  lemma KeptSame(s: State, s': State, loose: int)
    requires SameFds(s, s')
    ensures Kept(s, s', loose)
  {
    if Sound(s, loose) {
      SameSound(s, s', loose);
    }
  }

  /** Notes the access and moves the record to the head of the queue. */
  method Touch(s0: State, id: int, now: int, ghost loose: int) returns (s: State)
    requires Book(s0, NONE, NONE) && InTree(s0, id)
    ensures Book(s, NONE, NONE) && Kept(s0, s, loose) && InTree(s, id)
    ensures s.recs == s0.recs[id := s0.recs[id].(accessed := now)] && s.open == s0.open
    ensures s.handles == s0.handles && s.tree == s0.tree && s.current == s0.current
    ensures s.queue == [id] + Without(s0.queue, id) && Orderly(s0, s, now)
  {
    assert RecOk(s0, NONE, id);
    SetRecBook(s0, id, s0.recs[id].(accessed := now), NONE, NONE, NONE);
    s := SetRec(s0, id, s0.recs[id].(accessed := now));
    UnqueueBook(s, id, NONE);
    s := Unqueue(s, id);
    EnqueueBook(s, id, NONE);
    s := Enqueue(s, id);
    KeptSame(s0, s, loose);
    TouchOrder(s0, s, id, now);
  }

  lemma TouchOrder(s: State, s': State, id: int, now: int)
    requires QueueOk(s, NONE) && InTree(s, id) && id != NONE
    requires s'.recs == s.recs[id := s.recs[id].(accessed := now)] && s'.queue == [id] + Without(s.queue, id)
    ensures Orderly(s, s', now)
  {
    if InOrder(s, now) {
      var s1 := Unqueue(s, id);
      UnqueueOrder(s, id, now);
      assert QueuedOk(s, NONE, id);
      WithoutIs(s.queue, id);
      var s2 := s1.(recs := s'.recs);
      SameOrder(s1, s2, now);
      EnqueueOrder(s2, id, now);
      SameOrder(Enqueue(s2, id), s', now);
    }
  }

  /** How many records a call of `Expire` may drop: the last of the queue if n is 0, and two more. */
  function Allowed(n: nat): nat {
    if n < 3 then 3 - n else 0
  }

  predicate Inactive(s: State, id: int, now: int, inactive: int) {
    now - Used(s, id) > inactive
  }

  /** The records from the k-th of the queue on are dropped, and no others: but for the last one if that is
      forced they are inactive, and if more could be dropped the next one is not. */
  ghost predicate Dropped(s: State, s': State, k: nat, n: nat, now: int, inactive: int) {
    && k <= |s.queue| && s'.queue == s.queue[..k] && |s.queue| - k <= Allowed(n)
    && (forall i | 0 <= i < k :: s.queue[i] in s.recs && s.queue[i] in s'.recs && s'.recs[s.queue[i]] == s.recs[s.queue[i]])
    && (forall i | k <= i < |s.queue| - (if n == 0 then 1 else 0) :: Inactive(s, s.queue[i], now, inactive))
  }

  /** Drops the least recently used record if n is 0, and one or two that have not been used for long. */
  method Expire(s0: State, n0: nat, now: int, inactive: int, ghost loose: int) returns (s: State)
    requires Book(s0, NONE, NONE)
    ensures Book(s, NONE, NONE) && Kept(s0, s, loose) && s.handles == s0.handles && s.current <= s0.current
    ensures s.tree.Keys <= s0.tree.Keys && s.recs.Keys <= s0.recs.Keys
    ensures var k := |s.queue|;
            && Dropped(s0, s, k, n0, now, inactive)
            && (n0 == 0 && s0.queue != [] ==> k < |s0.queue| && s.current < s0.current)
            && (k > 0 && |s0.queue| - k < Allowed(n0) ==> !Inactive(s0, s0.queue[k - 1], now, inactive))
  {
    s := s0;
    var n := n0;
    InQueue(s0);
    while n < 3
      invariant Book(s, NONE, NONE) && Kept(s0, s, loose) && s.handles == s0.handles && s.current <= s0.current
      invariant s.tree.Keys <= s0.tree.Keys && s.recs.Keys <= s0.recs.Keys
      invariant n0 <= n && (n0 < 3 ==> n <= 3) && |s0.queue| - |s.queue| == n - n0
      invariant Dropped(s0, s, |s.queue|, n0, now, inactive) && (n > n0 == 0 ==> s.current < s0.current)
    {
      if s.queue == [] {
        return;
      }
      var id := s.queue[|s.queue| - 1];
      assert QueuedOk(s, NONE, id);
      assert RecOk(s, NONE, id);
      if n != 0 && now - s.recs[id].accessed <= inactive {
        return;
      }
      ghost var t := s;
      s := ExpireOne(s, id, now, loose);
      DroppedMore(s0, t, s, id, n0, n, now, inactive);
      n := n + 1;
    }
  }

  lemma InQueue(s: State)
    requires QueueOk(s, NONE)
    ensures forall i | 0 <= i < |s.queue| :: s.queue[i] in s.recs
  {
    forall i | 0 <= i < |s.queue| ensures s.queue[i] in s.recs {
      assert QueuedOk(s, NONE, s.queue[i]);
    }
  }

  lemma DroppedMore(s: State, t: State, s': State, id: int, n0: nat, n: nat, now: int, inactive: int)
    requires Dropped(s, t, |t.queue|, n0, now, inactive) && t.queue != [] && id == t.queue[|t.queue| - 1] && n < 3
    requires |s.queue| - |t.queue| == n - n0 && s'.queue == t.queue[..|t.queue| - 1] && OthersSame(t, s', id)
    requires forall i, j | 0 <= i < j < |t.queue| :: t.queue[i] != t.queue[j]
    requires n == 0 || Inactive(t, id, now, inactive)
    ensures Dropped(s, s', |s'.queue|, n0, now, inactive)
  {
    var k := |s'.queue|;
    assert t.queue[k] == s.queue[k];
    forall i | 0 <= i < k
      ensures s.queue[i] in s.recs && s.queue[i] in s'.recs && s'.recs[s.queue[i]] == s.recs[s.queue[i]]
    {
      assert t.queue[i] == s.queue[i] && t.queue[i] != t.queue[k];
    }
  }

  /** What is left of a queue in order is in order. */
  lemma DroppedOrder(s: State, s': State, k: nat, n: nat, now: int, inactive: int)
    requires Dropped(s, s', k, n, now, inactive)
    ensures Orderly(s, s', now)
  {
    if InOrder(s, now) {
      forall i, j | 0 <= i < j < |s'.queue| ensures Later(s', s'.queue[i], s'.queue[j]) {
        assert Later(s, s.queue[i], s.queue[j]);
      }
    }
  }

  /** What is dropped has not been used after anything that is kept. */
  lemma LeastRecentlyUsed(s: State, s': State, n: nat, now: int, inactive: int, i: nat, j: nat)
    requires InOrder(s, now) && Dropped(s, s', |s'.queue|, n, now, inactive) && i < |s'.queue| <= j < |s.queue|
    ensures Used(s, s.queue[j]) <= Used(s, s'.queue[i])
  {
    assert Later(s, s.queue[i], s.queue[j]);
  }

  method ExpireOne(s0: State, id: int, now: int, ghost loose: int) returns (s: State)
    requires Book(s0, NONE, NONE) && s0.queue != [] && id == s0.queue[|s0.queue| - 1] && InTree(s0, id) && id >= 0
    ensures Book(s, NONE, NONE) && Kept(s0, s, loose) && s.handles == s0.handles && s.current == s0.current - 1
    ensures s.tree == s0.tree - {s0.recs[id].name} && s.recs.Keys <= s0.recs.Keys
    ensures s.queue == s0.queue[..|s0.queue| - 1] && OthersSame(s0, s, id)
  {
    assert RecOk(s0, NONE, id);
    UnqueueBook(s0, id, NONE);
    WithoutLast(s0.queue);
    s := Unqueue(s0, id);
    DetachBook(s, id);
    s := Detach(s, id);
    KeptSame(s0, s, loose);
    if s.recs[id].err == 0 && !s.recs[id].isDir {
      s := MarkClosed(s, id, loose);
      s := CloseCached(s, id, 0, now, loose);
    } else {
      s := FreeRec(s, id, loose);
    }
  }

  /** Sets the flag by which a record outside the tree goes with its last handle. */
  method MarkClosed(s0: State, id: int, ghost loose: int) returns (s: State)
    requires Book(s0, NONE, id) && id in s0.recs && !InTree(s0, id)
    ensures s == SetRec(s0, id, s0.recs[id].(close := true))
    ensures Book(s, NONE, id) && (s.recs[id].count > 0 ==> Book(s, NONE, NONE)) && Kept(s0, s, loose) && SameTimes(s0, s)
  {
    assert RecOk(s0, id, id);
    var rec := s0.recs[id].(close := true);
    SetRecBook(s0, id, rec, NONE, id, id);
    if rec.count > 0 {
      SetRecBook(s0, id, rec, NONE, id, NONE);
    }
    s := SetRec(s0, id, rec);
    KeptSame(s0, s, loose);
  }

  /** The record of a failed call leaves the cache; without handles it is closed and freed. */
  method Fail(s0: State, id: int, ghost loose: int) returns (s: State)
    requires Book(s0, id, NONE) && id >= 0
    ensures Book(s, NONE, NONE) && Kept(s0, s, loose) && s.handles == s0.handles && s.current == s0.current - 1
    ensures SameTimes(s0, s)
  {
    assert RecOk(s0, NONE, id);
    DetachBook(s0, id);
    s := Detach(s0, id);
    KeptSame(s0, s, loose);
    ghost var t := s;
    if s.recs[id].count == 0 {
      s := CloseAndFree(s, id, loose);
    } else {
      s := MarkClosed(s, id, loose);
    }
    TimesOthers(t, s, id);
  }

  // ---- Opening ----

  /** What a caller asks for. */
  datatype Request = Request(uniq: nat, valid: int, minUses: nat, testDir: bool, errors: bool, links: Links)

  datatype Result = GotFile(fd: int) | GotDir | GotError

  function Answer(o: Outcome): Result {
    match o
    case Failed(_) => GotError
    case Dir(_, _) => GotDir
    case File(fd, _) => GotFile(fd)
  }

  /** A failure that is not kept in the cache. */
  predicate NotKept(o: Outcome, errors: bool) {
    o.Failed? && (o.err == 0 || !errors)
  }

  /** What a record is after an outcome, before its new handle. */
  function Updated(r: Rec, o: Outcome, links: Links, now: int): Rec {
    match o
    case Failed(e) => r.(fd := INVALID, err := e, links := links, created := now)
    case Dir(fd, u) => r.(fd := fd, err := 0, links := links, uniq := u, close := false, isDir := true, created := now)
    case File(fd, u) => r.(fd := fd, err := 0, links := links, uniq := u, close := false, isDir := false, created := now)
  }

  /** The handles after a result for record `id`. */
  function HandlesFor(handles: map<int, Handle>, r: Result, h: int, id: int, minUses: nat): map<int, Handle> {
    if r.GotFile? then handles[h := Handle(id, r.fd, minUses)] else handles
  }

  /** A descriptor that comes with an outcome has just been opened, or it is the one that the record has. */
  predicate Fit(fd: int, o: Outcome, loose: int) {
    && (o.Dir? ==> o.fd == INVALID)
    && (FdOf(o) == loose || (loose == NONE && FdOf(o) == fd))
  }

  /** The descriptors are in order after a record with descriptor `fd` took the outcome, and none is lost
      unless the record had another one. */
  ghost predicate Settled(s: State, s': State, fd: int, o: Outcome, loose: int) {
    Sound(s, loose) && Fit(fd, o, loose) ==>
      Sound(s', NONE) && (Clean(s) && (fd == INVALID || fd == FdOf(o)) ==> Clean(s'))
  }

  /** An outcome that can be stored in a record with `count` handles. */
  predicate Storable(o: Outcome, count: int) {
    match o
    case Failed(e) => e != 0 && count == 0
    case Dir(_, _) => count == 0
    case File(fd, _) => fd != INVALID
  }

  /** Stores an outcome in a record; a file is given out under handle `h`. */
  method Update(s0: State, id: int, o: Outcome, req: Request, now: int, h: int, ghost loose: int) returns (s: State)
    requires Book(s0, id, NONE) && id >= 0 && id in s0.recs && h !in s0.handles && Storable(o, s0.recs[id].count)
    ensures Book(s, id, NONE) && s.current == s0.current && s.tree == s0.tree
    ensures s.recs == s0.recs[id := Counted(Updated(s0.recs[id], o, req.links, now), o)]
    ensures s.open == Owners(s0.open, id, s0.recs[id].fd, FdOf(o))
    ensures s.handles == HandlesFor(s0.handles, Answer(o), h, id, req.minUses)
    ensures Settled(s0, s, s0.recs[id].fd, o, loose) && s.queue == s0.queue
  {
    assert RecOk(s0, NONE, id);
    var r := Updated(s0.recs[id], o, req.links, now);
    StoreBook(s0, id, r, id);
    if Sound(s0, loose) && Fit(s0.recs[id].fd, o, loose) {
      StoreSound(s0, id, r, loose);
    }
    s := Store(s0, id, r);
    if o.File? {
      AcquireBook(s, id, h, req.minUses, id);
      if Sound(s, NONE) {
        AcquireSound(s, id, h, req.minUses, NONE);
      }
      s := Acquire(s, id, h, req.minUses);
    }
  }

  function Counted(r: Rec, o: Outcome): Rec {
    if o.File? then r.(count := r.count + 1) else r
  }

  /** Puts a record back, at the head of the queue. */
  method Accessed(s0: State, id: int, now: int) returns (s: State)
    requires Book(s0, id, NONE) && id >= 0
    ensures Book(s, NONE, NONE) && Kept(s0, s, NONE) && id in s0.recs
    ensures s.recs == s0.recs[id := s0.recs[id].(accessed := now)] && s.open == s0.open
    ensures s.current == s0.current && s.handles == s0.handles && s.tree == s0.tree && s.queue == [id] + s0.queue
  {
    assert RecOk(s0, NONE, id);
    SetRecBook(s0, id, s0.recs[id].(accessed := now), id, NONE, NONE);
    s := SetRec(s0, id, s0.recs[id].(accessed := now));
    EnqueueBook(s, id, NONE);
    s := Enqueue(s, id);
    KeptSame(s0, s, NONE);
  }

  /** A record that was out of the queue comes to its head, used now. */
  lemma FrontOrder(s: State, s': State, id: int, now: int)
    requires QueueOk(s, id) && id in s.recs && id in s'.recs && s'.recs == s.recs[id := s'.recs[id]]
    requires s'.recs[id].accessed == now && s'.queue == [id] + s.queue
    ensures Orderly(s, s', now)
  {
    if InOrder(s, now) {
      assert QueuedOk(s, id, id);
      var s1 := s.(recs := s'.recs);
      SameOrder(s, s1, now);
      EnqueueOrder(s1, id, now);
      SameOrder(Enqueue(s1, id), s', now);
    }
  }

  /** What a record is after a call that stores its outcome. */
  function Final(r: Rec, o: Outcome, links: Links, now: int): Rec {
    Counted(Updated(r, o, links, now), o).(accessed := now)
  }

  /** The end of a call that stores its outcome. */
  method Finish(s0: State, id: int, o: Outcome, req: Request, now: int, h: int, ghost loose: int)
      returns (s: State, r: Result)
    requires Book(s0, id, NONE) && id >= 0 && id in s0.recs && h !in s0.handles && Storable(o, s0.recs[id].count)
    ensures Book(s, NONE, NONE) && s.current == s0.current && s.tree == s0.tree && r == Answer(o)
    ensures s.recs == s0.recs[id := Final(s0.recs[id], o, req.links, now)]
    ensures s.open == Owners(s0.open, id, s0.recs[id].fd, FdOf(o))
    ensures s.handles == HandlesFor(s0.handles, r, h, id, req.minUses)
    ensures Settled(s0, s, s0.recs[id].fd, o, loose) && Orderly(s0, s, now)
  {
    s := Update(s0, id, o, req, now, h, loose);
    s := Accessed(s, id, now);
    r := Answer(o);
    FrontOrder(s0, s, id, now);
  }

  /** Room for one more record. */
  method MakeRoom(s0: State, max: nat, inactive: int, now: int, ghost loose: int) returns (s: State)
    requires Book(s0, NONE, NONE) && s0.current <= max && max >= 1
    ensures Book(s, NONE, NONE) && Kept(s0, s, loose) && s.handles == s0.handles && s.current < max
    ensures s.tree.Keys <= s0.tree.Keys && s.recs.Keys <= s0.recs.Keys && (s0.current < max ==> s == s0)
    ensures s0.current < max || Dropped(s0, s, |s.queue|, 0, now, inactive)
    ensures Orderly(s0, s, now)
  {
    s := s0;
    if s.current >= max {
      s := Expire(s, 0, now, inactive, loose);
      DroppedOrder(s0, s, |s.queue|, 0, now, inactive);
    }
  }

  /** The end of a call that found no memory for a record. */
  method NoMemory(s0: State, o: Outcome, ghost loose: int) returns (s: State)
    requires Book(s0, NONE, NONE)
    ensures Book(s, NONE, NONE) && Settled(s0, s, INVALID, o, loose)
    ensures s == if FdOf(o) != INVALID then Close(s0, FdOf(o)) else s0
  {
    s := s0;
    if FdOf(o) != INVALID {
      if Sound(s, loose) && Fit(INVALID, o, loose) {
        CloseLooseSound(s, o.fd);
      }
      OpenBook(s, Close(s, o.fd), NONE, NONE);
      s := Close(s, o.fd);
    }
  }

  method NewRec(s0: State, name: string, id: int, links: Links, now: int, ghost loose: int) returns (s: State)
    requires Book(s0, NONE, NONE) && id >= 0 && id !in s0.recs && name !in s0.tree
    ensures s == AddRec(s0, id, Rec(name, INVALID, 0, 0, false, links, 0, false, 1, now, now))
    ensures Book(s, id, NONE) && Kept(s0, s, loose) && SameTimes(s0, s)
  {
    assert QueuedOk(s0, NONE, id);
    var rec := Rec(name, INVALID, 0, 0, false, links, 0, false, 1, now, now);
    AddRecBook(s0, id, rec);
    if Sound(s0, loose) {
      AddRecSound(s0, id, rec, loose);
    }
    s := AddRec(s0, id, rec);
  }

  /** What a call that makes a new record leaves. */
  predicate Created(s: State, s': State, max: nat, name: string, o: Outcome, req: Request, alloc: bool, id: int) {
    && (alloc ==> name in s'.tree && s'.tree[name] == id && id in s'.recs && s'.recs[id].fd == FdOf(o))
    && (s.current < max ==>
          && (forall x | x in s.recs :: x in s'.recs && s'.recs[x] == s.recs[x])
          && (!alloc && FdOf(o) != INVALID ==> FdOf(o) !in s'.open))
  }

  /** A new record for the outcome, after making room for it. */
  method Create(s0: State, max: nat, inactive: int, name: string, o: Outcome, req: Request, now: int, alloc: bool,
                id: int, h: int, ghost loose: int) returns (s: State, r: Result)
    requires Book(s0, NONE, NONE) && s0.current <= max && max >= 1 && name !in s0.tree
    requires id >= 0 && id !in s0.recs && h !in s0.handles && Storable(o, 0)
    ensures Book(s, NONE, NONE) && s.current <= max && r == if alloc then Answer(o) else GotError
    ensures s.handles == HandlesFor(s0.handles, r, h, id, req.minUses)
    ensures Created(s0, s, max, name, o, req, alloc, id) && Settled(s0, s, INVALID, o, loose) && Orderly(s0, s, now)
  {
    s := MakeRoom(s0, max, inactive, now, loose);
    ghost var t := s;
    if !alloc {
      s := NoMemory(s, o, loose);
      OrderlySame(t, s, now);
      return s, GotError;
    }
    s, r := StoreNew(s, name, o, req, now, id, h, loose);
  }

  /** The outcome in a new record. */
  method StoreNew(s0: State, name: string, o: Outcome, req: Request, now: int, id: int, h: int, ghost loose: int)
      returns (s: State, r: Result)
    requires Book(s0, NONE, NONE) && name !in s0.tree
    requires id >= 0 && id !in s0.recs && h !in s0.handles && Storable(o, 0)
    ensures Book(s, NONE, NONE) && s.current == s0.current + 1 && r == Answer(o)
    ensures s.handles == HandlesFor(s0.handles, r, h, id, req.minUses)
    ensures name in s.tree && s.tree[name] == id && id in s.recs && s.recs[id].fd == FdOf(o)
    ensures OthersSame(s0, s, id) && Settled(s0, s, INVALID, o, loose) && Orderly(s0, s, now)
  {
    s := NewRec(s0, name, id, req.links, now, loose);
    OrderlySame(s0, s, now);
    s, r := Finish(s, id, o, req, now, h, loose);
  }

  /** The record can be used as it is. */
  predicate Current(r: Rec, req: Request, now: int) {
    (req.uniq == 0 || req.uniq == r.uniq) && now - r.created < req.valid && req.links == r.links
  }

  /** The record found is as new as asked for. */
  method UseFound(s0: State, id: int, now: int, h: int, minUses: nat) returns (s: State, r: Result)
    requires Book(s0, id, NONE) && id >= 0 && id in s0.recs && h !in s0.handles
    requires s0.recs[id].err != 0 || s0.recs[id].isDir || s0.recs[id].fd != INVALID
    ensures Book(s, NONE, NONE) && s.current == s0.current && Kept(s0, s, NONE) && s.tree == s0.tree
    ensures r == if s0.recs[id].err != 0 then GotError else if s0.recs[id].isDir then GotDir else GotFile(s0.recs[id].fd)
    ensures s.handles == HandlesFor(s0.handles, r, h, id, minUses)
    ensures id in s.recs && s.recs[id].fd == s0.recs[id].fd && Orderly(s0, s, now)
  {
    s := s0;
    var rec := s.recs[id];
    r := if rec.err != 0 then GotError else if rec.isDir then GotDir else GotFile(rec.fd);
    if r.GotFile? {
      AcquireBook(s, id, h, minUses, id);
      if Sound(s, NONE) {
        AcquireSound(s, id, h, minUses, NONE);
      }
      s := Acquire(s, id, h, minUses);
    }
    s := Accessed(s, id, now);
    FrontOrder(s0, s, id, now);
  }

  /** The outcome replaces the file that the record holds open. */
  predicate Changed(r: Rec, o: Outcome) {
    r.err == 0 && !r.isDir && !(o.File? && o.uniq == r.uniq)
  }

  /** What is wrong when the number of the file held open comes back for a directory: the descriptor is
      closed and still noted in a record, or two records have it. */
  predicate Stale(r: Rec, s: State, id: int, alloc: bool, newId: int) {
    && id in s.recs && s.recs[id].fd == r.fd
    && if r.count > 0 && alloc then newId in s.recs && newId != id && s.recs[newId].fd == r.fd
       else s.recs[id].count == r.count && r.fd !in s.open
  }

  /** The descriptor of an outcome has just been opened, or the outcome is the record's own file. */
  predicate Proper(r: Rec, o: Outcome, loose: int) {
    && (o.Dir? ==> o.fd == INVALID)
    && (FdOf(o) == loose || (loose == NONE && o == File(r.fd, r.uniq)))
  }

  /** The file was opened anew, and it is the one that the record holds open. */
  predicate Again(r: Rec, o: Outcome, loose: int) {
    r.fd != INVALID && loose != NONE && o.File? && o.uniq == r.uniq
  }

  /** What a retest leaves of the descriptors. */
  ghost predicate Tested(s: State, s': State, r: Rec, o: Outcome, loose: int) {
    Sound(s, loose) && Proper(r, o, loose) ==>
      && Sound(s', NONE)
      && if Again(r, o, loose) then r.fd in s'.open && s'.open[r.fd] == LOST else Clean(s) ==> Clean(s')
  }

  /** The same file, or a record that holds none open. */
  method Refresh(s0: State, id: int, o: Outcome, req: Request, now: int, h: int, ghost loose: int)
      returns (s: State, r: Result)
    requires Book(s0, id, NONE) && id >= 0 && id in s0.recs && h !in s0.handles && Storable(o, s0.recs[id].count)
    requires !Changed(s0.recs[id], o)
    ensures Book(s, NONE, NONE) && s.current == s0.current && s.tree == s0.tree && r == Answer(o)
    ensures s.handles == HandlesFor(s0.handles, r, h, id, req.minUses) && Tested(s0, s, s0.recs[id], o, loose)
    ensures Orderly(s0, s, now)
  {
    if Sound(s0, loose) {
      assert RecFd(s0, id);
    }
    s, r := Finish(s0, id, o, req, now, h, loose);
  }

  /** The record holds another file open than the one found, and nobody reads from it. */
  method Renew(s0: State, id: int, o: Outcome, req: Request, now: int, h: int, ghost loose: int)
      returns (s: State, r: Result)
    requires Book(s0, id, NONE) && id >= 0 && id in s0.recs && h !in s0.handles && Storable(o, 0)
    requires Changed(s0.recs[id], o) && s0.recs[id].count == 0
    ensures Book(s, NONE, NONE) && s.current == s0.current && s.tree == s0.tree && r == Answer(o)
    ensures s.handles == HandlesFor(s0.handles, r, h, id, req.minUses)
    ensures Tested(s0, s, s0.recs[id], o, loose) && Orderly(s0, s, now)
    ensures Sound(s0, NONE) && o.Dir? && o.fd == s0.recs[id].fd != INVALID ==> Stale(s0.recs[id], s, id, false, NONE)
  {
    if Sound(s0, NONE) {
      assert RecFd(s0, id);
    }
    s := CloseRec(s0, id, id, NONE, loose);
    OrderlySame(s0, s, now);
    s, r := Finish(s, id, o, req, now, h, loose);
  }

  /** A record with handles leaves the tree, and goes with the last of them. */
  method Leave(s0: State, id: int, ghost loose: int) returns (s: State)
    requires Book(s0, id, NONE) && id >= 0 && id in s0.recs && s0.recs[id].count > 0
    ensures Book(s, NONE, NONE) && Kept(s0, s, loose) && s.handles == s0.handles && s.open == s0.open
    ensures s.current == s0.current - 1 && s.tree == s0.tree - {s0.recs[id].name}
    ensures s.recs == s0.recs[id := s0.recs[id].(close := true)] && SameTimes(s0, s)
  {
    assert RecOk(s0, NONE, id);
    DetachBook(s0, id);
    s := Detach(s0, id);
    s := MarkClosed(s, id, loose);
    KeptSame(s0, s, loose);
  }

  /** The record holds another file open than the one found, for its handles: a new record is made. */
  method Replace(s0: State, max: nat, inactive: int, id: int, o: Outcome, req: Request, now: int, alloc: bool, newId: int,
                 h: int, ghost loose: int) returns (s: State, r: Result)
    requires Book(s0, id, NONE) && id >= 0 && id in s0.recs && s0.current <= max && max >= 1
    requires newId >= 0 && newId !in s0.recs && h !in s0.handles && Storable(o, 0)
    requires Changed(s0.recs[id], o) && s0.recs[id].count > 0
    ensures Book(s, NONE, NONE) && s.current <= max && r == if alloc then Answer(o) else GotError
    ensures s.handles == HandlesFor(s0.handles, r, h, newId, req.minUses)
    ensures r.GotFile? ==> s0.recs[id].name in s.tree && s.tree[s0.recs[id].name] == newId
    ensures Tested(s0, s, s0.recs[id], o, loose) && Orderly(s0, s, now)
    ensures o.Dir? && o.fd == s0.recs[id].fd != INVALID ==> Stale(s0.recs[id], s, id, alloc, newId)
  {
    s := Leave(s0, id, loose);
    OrderlySame(s0, s, now);
    s, r := Create(s, max, inactive, s0.recs[id].name, o, req, now, alloc, newId, h, loose);
  }

  /** The record found is tested against the file system. */
  method Retest(s0: State, max: nat, inactive: int, id: int, o: Outcome, req: Request, now: int, alloc: bool, newId: int,
                h: int, ghost loose: int) returns (s: State, r: Result)
    requires Book(s0, id, NONE) && id >= 0 && id in s0.recs && s0.current <= max && max >= 1
    requires newId >= 0 && newId !in s0.recs && h !in s0.handles && Storable(o, 0)
    requires s0.recs[id].name in s0.tree && s0.tree[s0.recs[id].name] == id
    ensures Book(s, NONE, NONE) && s.current <= max
    ensures var replaced := Changed(s0.recs[id], o) && s0.recs[id].count > 0;
            && r == (if replaced && !alloc then GotError else Answer(o))
            && s.handles == HandlesFor(s0.handles, r, h, if replaced then newId else id, req.minUses)
            && (r.GotFile? ==> s0.recs[id].name in s.tree && s.tree[s0.recs[id].name] == s.handles[h].file)
    ensures Tested(s0, s, s0.recs[id], o, loose) && Orderly(s0, s, now)
    ensures Sound(s0, NONE) && o.Dir? && o.fd == s0.recs[id].fd != INVALID ==> Stale(s0.recs[id], s, id, alloc, newId)
  {
    assert RecOk(s0, NONE, id);
    if Sound(s0, NONE) {
      assert RecFd(s0, id);
    }
    if !Changed(s0.recs[id], o) {
      s, r := Refresh(s0, id, o, req, now, h, loose);
    } else if s0.recs[id].count == 0 {
      s, r := Renew(s0, id, o, req, now, h, loose);
    } else {
      s, r := Replace(s0, max, inactive, id, o, req, now, alloc, newId, h, loose);
    }
  }

  // ---- A call ----

  /** The file system gives descriptors that are not open, and a failure has an error number. */
  predicate Answers(s: State, first: Stat, second: OpenResult) {
    && (second.OpenedFile? ==> second.fd >= 0 && second.fd !in s.open)
    && (first.StatFailed? ==> first.errno != 0) && (second.OpenFailed? ==> second.errno != 0)
  }

  /** The record was not used often enough to keep its file open. */
  predicate Unopened(r: Rec) {
    r.fd == INVALID && r.err == 0 && !r.isDir
  }

  /** The outcome of a call for a name with record `r`, from the record or from the file system. */
  function AskedOf(r: Rec, req: Request, first: Stat, second: OpenResult, now: int): Outcome {
    if Unopened(r) then OpenAndStat(INVALID, req.uniq, req.testDir, first, second)
    else if Current(r, req, now) then if r.err != 0 then Failed(r.err) else Seen(r.fd, r.uniq, r.isDir)
    else OpenAndStat(r.fd, r.uniq, req.testDir || r.isDir, first, second)
  }

  /** The outcome of a call. */
  function Asked(s: State, name: string, req: Request, first: Stat, second: OpenResult, now: int): Outcome {
    if name !in s.tree || s.tree[name] !in s.recs then OpenAndStat(INVALID, req.uniq, req.testDir, first, second)
    else AskedOf(s.recs[s.tree[name]], req, first, second, now)
  }

  /** The call has to replace the record. */
  predicate Replaces(r: Rec, req: Request, o: Outcome, now: int) {
    !Unopened(r) && !Current(r, req, now) && !NotKept(o, req.errors) && Changed(r, o) && r.count > 0
  }

  /** The call has to make a record. */
  predicate NeedsRecord(s: State, name: string, req: Request, first: Stat, second: OpenResult, now: int) {
    var o := Asked(s, name, req, first, second, now);
    if name !in s.tree || s.tree[name] !in s.recs then !NotKept(o, req.errors)
    else Replaces(s.recs[s.tree[name]], req, o, now)
  }

  /** The call tests the file that the record holds open. */
  predicate Retests(r: Rec, req: Request, now: int) {
    r.fd != INVALID && !Current(r, req, now)
  }

  predicate Turns(r: Rec, req: Request, first: Stat, now: int) {
    Retests(r, req, now) && first.StatOk? && first.uniq == r.uniq && first.isDir
  }

  predicate Back(r: Rec, req: Request, first: Stat, second: OpenResult, now: int) {
    Retests(r, req, now) && first.StatOk? && first.uniq != r.uniq && second.OpenedFile? && second.uniq == r.uniq
  }

  /** The number of the file held open comes back, for a directory. */
  predicate TurnsDirectory(s: State, name: string, req: Request, first: Stat, now: int) {
    name in s.tree && s.tree[name] in s.recs && Turns(s.recs[s.tree[name]], req, first, now)
  }

  /** Another file is found under the name, but the one held open is there again when it is opened. */
  predicate ComesBack(s: State, name: string, req: Request, first: Stat, second: OpenResult, now: int) {
    name in s.tree && s.tree[name] in s.recs && Back(s.recs[s.tree[name]], req, first, second, now)
  }

  /** Marks the descriptor that was opened. */
  method Note(s0: State, opens: bool, fd: int, ghost out: int) returns (s: State)
    requires Book(s0, out, NONE) && (opens ==> fd >= 0 && fd !in s0.open)
    ensures s == if opens then Opened(s0, fd) else s0
    ensures var loose := if opens then fd else NONE;
            Book(s, out, NONE) && (Sound(s0, NONE) ==> Sound(s, loose) && (Clean(s0) ==> Clean(s)))
  {
    s := s0;
    if opens {
      OpenBook(s, Opened(s, fd), out, NONE);
      if Sound(s, NONE) {
        OpenedSound(s, fd);
      }
      s := Opened(s, fd);
    }
  }

  /** Counts the use of a record and takes it out of the queue. */
  method TakeOut(s0: State, name: string, id: int, ghost now: int) returns (s: State)
    requires Book(s0, NONE, NONE) && name in s0.tree && id == s0.tree[name]
    ensures Book(s, id, NONE) && id >= 0 && id in s0.recs && s0.recs[id].name == name
    ensures s.recs == s0.recs[id := s0.recs[id].(uses := s0.recs[id].uses + 1)]
    ensures s.current == s0.current && s.handles == s0.handles && s.open == s0.open && s.tree == s0.tree
    ensures SameFds(s0, s) && Orderly(s0, s, now)
  {
    assert NameOk(s0, name);
    assert RecOk(s0, NONE, id);
    var rec := s0.recs[id].(uses := s0.recs[id].uses + 1);
    SetRecBook(s0, id, rec, NONE, NONE, NONE);
    s := SetRec(s0, id, rec);
    UnqueueBook(s, id, NONE);
    OrderlySame(s0, s, now);
    if InOrder(s, now) {
      UnqueueOrder(s, id, now);
    }
    s := Unqueue(s, id);
  }

  lemma SoundNotStale(r: Rec, s: State, id: int, alloc: bool, newId: int)
    requires Sound(s, NONE) && r.fd != INVALID
    ensures !Stale(r, s, id, alloc, newId)
  {
    assert RecFd(s, id);
    assert RecFd(s, newId);
  }

  /** The handles after a call: a file is given out under `h`, on the record that the name has now. */
  predicate Given(s: State, s': State, name: string, r: Result, h: int, minUses: nat) {
    if r.GotFile? then name in s'.tree && s'.handles == s.handles[h := Handle(s'.tree[name], r.fd, minUses)]
    else s'.handles == s.handles
  }

  /** The name is not in the cache. */
  method OpenNew(s0: State, max: nat, inactive: int, name: string, req: Request, first: Stat, second: OpenResult,
                 now: int, alloc: bool, newId: int, h: int) returns (s: State, r: Result)
    requires Book(s0, NONE, NONE) && s0.current <= max && max >= 1 && Answers(s0, first, second) && name !in s0.tree
    requires newId >= 0 && newId !in s0.recs && h !in s0.handles
    ensures Book(s, NONE, NONE) && s.current <= max && Given(s0, s, name, r, h, req.minUses)
    ensures r == if NeedsRecord(s0, name, req, first, second, now) && !alloc then GotError
                 else Answer(Asked(s0, name, req, first, second, now))
    ensures Kept(s0, s, NONE) && Orderly(s0, s, now)
  {
    var o := OpenAndStat(INVALID, req.uniq, req.testDir, first, second);
    if NotKept(o, req.errors) {
      return s0, GotError;
    }
    var opens := Opens(INVALID, req.uniq, req.testDir, first, second);
    var fd := if opens then second.fd else NONE;
    s := Note(s0, opens, fd, NONE);
    OrderlySame(s0, s, now);
    s, r := Create(s, max, inactive, name, o, req, now, alloc, newId, h, fd);
  }

  /** A record whose file was not used often enough to stay open. */
  method Reopen(s0: State, id: int, req: Request, first: Stat, second: OpenResult, now: int, h: int)
      returns (s: State, r: Result)
    requires Book(s0, id, NONE) && id >= 0 && id in s0.recs && Unopened(s0.recs[id]) && h !in s0.handles
    requires Answers(s0, first, second)
    ensures Book(s, NONE, NONE) && s.current <= s0.current && Kept(s0, s, NONE) && Orderly(s0, s, now)
    ensures r == Answer(OpenAndStat(INVALID, req.uniq, req.testDir, first, second))
    ensures s.handles == HandlesFor(s0.handles, r, h, id, req.minUses) && (r.GotFile? ==> s.tree == s0.tree)
  {
    assert RecOk(s0, NONE, id);
    var o := OpenAndStat(INVALID, req.uniq, req.testDir, first, second);
    if NotKept(o, req.errors) {
      s := Fail(s0, id, NONE);
      OrderlySame(s0, s, now);
      return s, GotError;
    }
    var opens := Opens(INVALID, req.uniq, req.testDir, first, second);
    var fd := if opens then second.fd else NONE;
    s := Note(s0, opens, fd, id);
    OrderlySame(s0, s, now);
    s, r := Finish(s, id, o, req, now, h, fd);
  }

  /** What a test of the record `r` leaves of the descriptors: all is well unless the number of the file held
      open came back for a directory, and none is lost unless the file came back when it was opened. */
  ghost predicate Judged(s: State, s': State, r: Rec, id: int, turns: bool, back: bool, alloc: bool, newId: int) {
    Sound(s, NONE) ==>
      if turns then Stale(r, s', id, alloc, newId)
      else Sound(s', NONE) && if back then r.fd in s'.open && s'.open[r.fd] == LOST else Clean(s) ==> Clean(s')
  }

  /** A record that is too old for the caller. */
  method Test(s0: State, max: nat, inactive: int, id: int, req: Request, first: Stat, second: OpenResult,
              now: int, alloc: bool, newId: int, h: int) returns (s: State, r: Result)
    requires Book(s0, id, NONE) && id >= 0 && id in s0.recs && s0.current <= max && max >= 1
    requires newId >= 0 && newId !in s0.recs && h !in s0.handles && Answers(s0, first, second)
    requires !Unopened(s0.recs[id]) && !Current(s0.recs[id], req, now) && s0.recs[id].name in s0.tree && s0.tree[s0.recs[id].name] == id
    ensures Book(s, NONE, NONE) && s.current <= max && Given(s0, s, s0.recs[id].name, r, h, req.minUses) && Orderly(s0, s, now)
    ensures var rec := s0.recs[id];
            var o := AskedOf(rec, req, first, second, now);
            && r == (if Replaces(rec, req, o, now) && !alloc then GotError else Answer(o))
            && Judged(s0, s, rec, id, Turns(rec, req, first, now), Back(rec, req, first, second, now), alloc, newId)
  {
    var rec := s0.recs[id];
    var o := OpenAndStat(rec.fd, rec.uniq, req.testDir || rec.isDir, first, second);
    if NotKept(o, req.errors) {
      s := Fail(s0, id, NONE);
      OrderlySame(s0, s, now);
      return s, GotError;
    }
    var opens := Opens(rec.fd, rec.uniq, req.testDir || rec.isDir, first, second);
    var fd := if opens then second.fd else NONE;
    OutcomeKinds(rec, req, first, second, now, o, fd);
    ghost var turns, back := Turns(rec, req, first, now), Back(rec, req, first, second, now);
    s, r := TestKept(s0, max, inactive, id, o, opens, fd, req, now, alloc, newId, h, turns, back);
  }

  /** The outcome, with the descriptor that was opened for it if one was, is stored. */
  method TestKept(s0: State, max: nat, inactive: int, id: int, o: Outcome, opens: bool, fd: int, req: Request, now: int,
                  alloc: bool, newId: int, h: int, ghost turns: bool, ghost back: bool) returns (s: State, r: Result)
    requires Book(s0, id, NONE) && id >= 0 && id in s0.recs && s0.current <= max && max >= 1
    requires newId >= 0 && newId !in s0.recs && h !in s0.handles && Storable(o, 0)
    requires s0.recs[id].name in s0.tree && s0.tree[s0.recs[id].name] == id
    requires if opens then fd >= 0 && fd !in s0.open else fd == NONE
    requires turns ==> o.Dir? && o.fd == s0.recs[id].fd != INVALID && fd == NONE
    requires !turns ==> Proper(s0.recs[id], o, fd)
    requires back <==> Again(s0.recs[id], o, fd)
    ensures Book(s, NONE, NONE) && s.current <= max && Given(s0, s, s0.recs[id].name, r, h, req.minUses) && Orderly(s0, s, now)
    ensures r == if Changed(s0.recs[id], o) && s0.recs[id].count > 0 && !alloc then GotError else Answer(o)
    ensures Judged(s0, s, s0.recs[id], id, turns, back, alloc, newId)
  {
    s := Note(s0, opens, fd, id);
    OrderlySame(s0, s, now);
    ghost var t := s;
    s, r := Retest(s, max, inactive, id, o, req, now, alloc, newId, h, fd);
    TestedJudged(s0, t, s, s0.recs[id], id, o, fd, turns, back, alloc, newId);
  }

  /** What the outcome of a retest is like. */
  lemma OutcomeKinds(r: Rec, req: Request, first: Stat, second: OpenResult, now: int, o: Outcome, fd: int)
    requires !Unopened(r) && !Current(r, req, now) && o == AskedOf(r, req, first, second, now) && !NotKept(o, req.errors)
    requires second.OpenedFile? ==> second.fd >= 0
    requires fd == if Opens(r.fd, r.uniq, req.testDir || r.isDir, first, second) then second.fd else NONE
    ensures Storable(o, 0)
    ensures Turns(r, req, first, now) ==> o.Dir? && o.fd == r.fd != INVALID && fd == NONE
    ensures !Turns(r, req, first, now) ==> Proper(r, o, fd)
    ensures Back(r, req, first, second, now) <==> Again(r, o, fd)
  {
  }

  lemma TestedJudged(s: State, t: State, s': State, r: Rec, id: int, o: Outcome, fd: int, turns: bool, back: bool, alloc: bool,
                     newId: int)
    requires Sound(s, NONE) ==> Sound(t, fd) && (Clean(s) ==> Clean(t))
    requires Tested(t, s', r, o, fd) && (back <==> Again(r, o, fd))
    requires turns ==> o.Dir? && o.fd == r.fd != INVALID && fd == NONE
    requires !turns ==> Proper(r, o, fd)
    requires Sound(t, NONE) && o.Dir? && o.fd == r.fd != INVALID ==> Stale(r, s', id, alloc, newId)
    ensures Judged(s, s', r, id, turns, back, alloc, newId)
  {
  }

  /** The name is in the cache. */
  method OpenFound(s0: State, max: nat, inactive: int, name: string, req: Request, first: Stat, second: OpenResult,
                   now: int, alloc: bool, newId: int, h: int) returns (s: State, r: Result)
    requires Book(s0, NONE, NONE) && s0.current <= max && max >= 1 && Answers(s0, first, second)
    requires newId >= 0 && newId !in s0.recs && h !in s0.handles && name in s0.tree && s0.tree[name] in s0.recs
    ensures Book(s, NONE, NONE) && s.current <= max && Given(s0, s, name, r, h, req.minUses) && Orderly(s0, s, now)
    ensures r == if NeedsRecord(s0, name, req, first, second, now) && !alloc then GotError
                 else Answer(Asked(s0, name, req, first, second, now))
    ensures Judged(s0, s, s0.recs[s0.tree[name]], s0.tree[name], TurnsDirectory(s0, name, req, first, now),
                   ComesBack(s0, name, req, first, second, now), alloc, newId)
  {
    var id := s0.tree[name];
    s := TakeOut(s0, name, id, now);
    KeptSame(s0, s, NONE);
    s, r := OpenTaken(s, max, inactive, id, req, first, second, now, alloc, newId, h);
  }

  /** Its record is out of the queue. */
  method OpenTaken(s0: State, max: nat, inactive: int, id: int, req: Request, first: Stat, second: OpenResult,
                   now: int, alloc: bool, newId: int, h: int) returns (s: State, r: Result)
    requires Book(s0, id, NONE) && id >= 0 && id in s0.recs && s0.current <= max && max >= 1
    requires newId >= 0 && newId !in s0.recs && h !in s0.handles && Answers(s0, first, second)
    requires s0.recs[id].name in s0.tree && s0.tree[s0.recs[id].name] == id
    ensures Book(s, NONE, NONE) && s.current <= max && Given(s0, s, s0.recs[id].name, r, h, req.minUses) && Orderly(s0, s, now)
    ensures var rec := s0.recs[id];
            var o := AskedOf(rec, req, first, second, now);
            && r == (if Replaces(rec, req, o, now) && !alloc then GotError else Answer(o))
            && Judged(s0, s, rec, id, Turns(rec, req, first, now), Back(rec, req, first, second, now), alloc, newId)
  {
    if Unopened(s0.recs[id]) {
      s, r := Reopen(s0, id, req, first, second, now, h);
    } else if Current(s0.recs[id], req, now) {
      s, r := UseFound(s0, id, now, h, req.minUses);
    } else {
      s, r := Test(s0, max, inactive, id, req, first, second, now, alloc, newId, h);
    }
  }

  lemma JudgedIff(s: State, s': State, r: Rec, id: int, turns: bool, back: bool, alloc: bool, newId: int)
    requires Judged(s, s', r, id, turns, back, alloc, newId) && Sound(s, NONE) && (turns ==> r.fd != INVALID)
    ensures Sound(s', NONE) <==> !turns
    ensures Clean(s) && !turns ==> (Clean(s') <==> !back)
  {
    if Sound(s', NONE) && r.fd != INVALID {
      SoundNotStale(r, s', id, alloc, newId);
    }
  }

  /** Opens a file through the cache.  Whatever the file system answers, the books are kept.  The descriptors
      stay in order unless the number of a file held open comes back for a directory, and then never; and
      none is lost unless that file was gone for stat() and back for open(), and then always. */
  method OpenCached(s0: State, max: nat, inactive: int, name: string, req: Request, first: Stat, second: OpenResult,
                    now: int, alloc: bool, newId: int, h: int) returns (s: State, r: Result)
    requires Book(s0, NONE, NONE) && s0.current <= max && max >= 1 && Answers(s0, first, second)
    requires newId >= 0 && newId !in s0.recs && h !in s0.handles
    ensures Book(s, NONE, NONE) && s.current <= max && Given(s0, s, name, r, h, req.minUses) && Orderly(s0, s, now)
    ensures r == if NeedsRecord(s0, name, req, first, second, now) && !alloc then GotError
                 else Answer(Asked(s0, name, req, first, second, now))
    ensures Sound(s0, NONE) ==> (Sound(s, NONE) <==> !TurnsDirectory(s0, name, req, first, now))
    ensures Sound(s0, NONE) && Clean(s0) && !TurnsDirectory(s0, name, req, first, now) ==>
              (Clean(s) <==> !ComesBack(s0, name, req, first, second, now))
    ensures Sound(s0, NONE) && TurnsDirectory(s0, name, req, first, now) ==>
              Stale(s0.recs[s0.tree[name]], s, s0.tree[name], alloc, newId)
    ensures Sound(s0, NONE) && ComesBack(s0, name, req, first, second, now) ==>
              var fd := s0.recs[s0.tree[name]].fd; fd in s.open && s.open[fd] == LOST
  {
    if name !in s0.tree {
      s, r := OpenNew(s0, max, inactive, name, req, first, second, now, alloc, newId, h);
      return;
    }
    assert NameOk(s0, name);
    s, r := OpenFound(s0, max, inactive, name, req, first, second, now, alloc, newId, h);
    if Sound(s0, NONE) {
      JudgedIff(s0, s, s0.recs[s0.tree[name]], s0.tree[name], TurnsDirectory(s0, name, req, first, now),
                ComesBack(s0, name, req, first, second, now), alloc, newId);
    }
  }

  // ---- What the invariants mean ----

  /** The descriptor of an outstanding handle is open, and its record counts the handle. */
  lemma HeldIsOpen(s: State, h: int)
    requires Book(s, NONE, NONE) && Sound(s, NONE) && h in s.handles
    ensures var id := s.handles[h].file;
            && id in s.recs && s.recs[id].count == |On(s.handles, id)| > 0 && s.handles[h].fd in s.open
            && (Clean(s) ==> s.handles[h].fd == s.recs[id].fd && s.open[s.recs[id].fd] == id)
  {
    assert HandleOk(s, h);
    assert HandleFd(s, h);
    var id := s.handles[h].file;
    assert RecOk(s, NONE, id);
    assert RecFd(s, id);
    assert FdOk(s, NONE, s.handles[h].fd);
    assert h in On(s.handles, id);
  }

  /** With all handles back, only records of the tree are left, every open descriptor that is not lost is one of
      theirs, and the tree, the queue and the counter agree. */
  lemma NothingLeft(s: State)
    requires Book(s, NONE, NONE) && Sound(s, NONE) && s.handles == map[]
    ensures forall id | id in s.recs :: InTree(s, id) && s.recs[id].count == 0
    ensures forall fd | fd in s.open && s.open[fd] != LOST :: InTree(s, s.open[fd]) && s.recs[s.open[fd]].fd == fd
    ensures s.current == |s.tree| == |s.queue|
  {
    forall id | id in s.recs
      ensures InTree(s, id) && s.recs[id].count == 0
    {
      assert RecOk(s, NONE, id);
      assert On(s.handles, id) == {};
    }
    forall fd | fd in s.open && s.open[fd] != LOST
      ensures InTree(s, s.open[fd]) && s.recs[s.open[fd]].fd == fd
    {
      assert FdOk(s, NONE, fd);
    }
  }

  /** No record has a lost descriptor, so nothing closes it. */
  lemma LostHasNoRecord(s: State, fd: int, id: int)
    requires Sound(s, NONE) && fd in s.open && s.open[fd] == LOST && id in s.recs
    ensures s.recs[id].fd != fd
  {
    assert FdOk(s, NONE, fd);
    assert RecFd(s, id);
  }

  // ---- The two cases in which the descriptors go wrong ----

  /** One record that holds file 7 open as descriptor 3, for `handles`. */
  function Held(handles: map<int, Handle>): State {
    State(map[0 := Rec("f", 3, 7, 0, false, Links(0, 0), |On(handles, 0)|, false, 1, 0, 0)], map["f" := 0], [0], 1,
          map[3 := 0], handles)
  }

  const OLD: Request := Request(0, 0, 1, false, false, Links(0, 0))

  lemma HeldOk(handles: map<int, Handle>)
    requires forall h | h in handles :: handles[h].file == 0 && handles[h].fd == 3
    ensures Book(Held(handles), NONE, NONE) && Sound(Held(handles), NONE) && Clean(Held(handles))
  {
    var s := Held(handles);
    assert forall id :: InTree(s, id) <==> id == 0;
    assert forall id :: RecOk(s, NONE, id) && RecFd(s, id);
    assert forall n :: NameOk(s, n);
    assert forall fd :: FdOk(s, NONE, fd);
    assert forall h :: HandleOk(s, h) && HandleFd(s, h);
    assert forall id :: QueuedOk(s, NONE, id);
    assert |s.tree| == 1;
  }

  /** stat() finds number 7 on a directory: descriptor 3 is closed, and stays in the record. */
  method ClosedButKept() returns (s: State, r: Result)
    ensures r == GotDir && 0 in s.recs && s.recs[0].fd == 3 && 3 !in s.open
  {
    HeldOk(map[]);
    s, r := OpenCached(Held(map[]), 1, 0, "f", OLD, StatOk(7, true), NoData, 1, true, 1, 9);
  }

  /** The same with a reader and no memory for a new record: descriptor 3 is closed under the reader. */
  method ClosedWhileRead() returns (s: State, r: Result)
    ensures r == GotError && 5 in s.handles && s.handles[5].fd == 3 && 3 !in s.open
  {
    var handles := map[5 := Handle(0, 3, 1)];
    HeldOk(handles);
    assert On(handles, 0) == {5};
    s, r := OpenCached(Held(handles), 1, 0, "f", OLD, StatOk(7, true), NoData, 1, false, 1, 9);
  }

  /** stat() finds number 8, and open() number 7 again: descriptor 3 stays open, and no record has it. */
  method OpenForever() returns (s: State, r: Result)
    ensures r == GotFile(4) && 3 in s.open && forall id | id in s.recs :: s.recs[id].fd != 3
  {
    HeldOk(map[]);
    s, r := OpenCached(Held(map[]), 1, 0, "f", OLD, StatOk(8, false), OpenedFile(4, 7), 1, true, 1, 9);
    forall id | id in s.recs
      ensures s.recs[id].fd != 3
    {
      LostHasNoRecord(s, 3, id);
    }
  }

  // ---- Giving a file back ----

  method ReleaseHandle(s0: State, h: int, inactive: int, now: int) returns (s: State)
    requires Book(s0, NONE, NONE) && h in s0.handles
    ensures Book(s, NONE, NONE) && Kept(s0, s, NONE) && s.current <= s0.current && s.handles == s0.handles - {h}
    ensures Orderly(s0, s, now)
  {
    var id, minUses := s0.handles[h].file, s0.handles[h].minUses;
    ReturnBook(s0, h);
    HandleState(s0, h);
    if Sound(s0, NONE) {
      ReturnSound(s0, h);
    }
    s := Return(s0, h);
    OrderlySame(s0, s, now);
    s := CloseCached(s, id, minUses, now, NONE);
    ghost var t := s;
    s := Expire(s, 1, now, inactive, NONE);
    DroppedOrder(t, s, |s.queue|, 1, now, inactive);
  }

  lemma LaterStill(s: State, t: int, now: int)
    requires InOrder(s, t) && t <= now
    ensures InOrder(s, now)
  {
  }

  lemma HandleState(s: State, h: int)
    requires Book(s, NONE, NONE) && h in s.handles
    ensures var id := s.handles[h].file;
            id in s.recs && (InTree(s, id) <==> !s.recs[id].close) && InTree(Return(s, h), id) == InTree(s, id)
  {
    assert HandleOk(s, h);
    var id := s.handles[h].file;
    assert RecOk(s, NONE, id);
    assert h in On(s.handles, id);
  }

  // ---- The cache ----

  class Cache {
    var s: State
    const max: nat
    const inactive: int

    ghost predicate Valid()
      reads this
    {
      Book(s, NONE, NONE) && s.current <= max && max >= 1
    }

    constructor (max: nat, inactive: int)
      requires max >= 1
      ensures Valid() && s == State(map[], map[], [], 0, map[], map[]) && this.max == max
      ensures Sound(s, NONE) && Clean(s) && forall t :: InOrder(s, t)
    {
      this.max := max;
      this.inactive := inactive;
      s := State(map[], map[], [], 0, map[], map[]);
      new;
      assert forall id :: RecOk(s, NONE, id) && RecFd(s, id);
      assert forall n :: NameOk(s, n);
      assert forall fd :: FdOk(s, NONE, fd);
      assert forall h :: HandleOk(s, h) && HandleFd(s, h);
      assert forall id :: QueuedOk(s, NONE, id);
    }

    method Open(name: string, req: Request, first: Stat, second: OpenResult, now: int, alloc: bool, newId: int, h: int)
        returns (r: Result)
      requires Valid() && Answers(s, first, second) && newId >= 0 && newId !in s.recs && h !in s.handles
      modifies this
      ensures Valid() && Given(old(s), s, name, r, h, req.minUses)
      ensures r == if NeedsRecord(old(s), name, req, first, second, now) && !alloc then GotError
                   else Answer(Asked(old(s), name, req, first, second, now))
      ensures Sound(old(s), NONE) ==> (Sound(s, NONE) <==> !TurnsDirectory(old(s), name, req, first, now))
      ensures Sound(old(s), NONE) && Clean(old(s)) && !TurnsDirectory(old(s), name, req, first, now) ==>
                (Clean(s) <==> !ComesBack(old(s), name, req, first, second, now))
      ensures forall t | t <= now && InOrder(old(s), t) :: InOrder(s, now)
    {
      forall t | t <= now && InOrder(s, t) ensures InOrder(s, now) {
        LaterStill(s, t, now);
      }
      s, r := OpenCached(s, max, inactive, name, req, first, second, now, alloc, newId, h);
    }

    /** A request is done with a file. */
    method Release(h: int, now: int)
      requires Valid() && h in s.handles
      modifies this
      ensures Valid() && s.handles == old(s.handles) - {h} && Kept(old(s), s, NONE)
      ensures forall t | t <= now && InOrder(old(s), t) :: InOrder(s, now)
    {
      forall t | t <= now && InOrder(s, t) ensures InOrder(s, now) {
        LaterStill(s, t, now);
      }
      s := ReleaseHandle(s, h, inactive, now);
    }
  }
}
