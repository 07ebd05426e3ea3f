/** The small steps of the open file cache, each with what it does to the books and to the
    descriptors. */
module FileCacheSteps {
  import opened FileCacheState

  predicate NameKept(s: State, s': State, id: int) {
    id in s.recs <==> id in s'.recs && id in s.recs && s'.recs[id].name == s.recs[id].name
  }

  ghost predicate SameNames(s: State, s': State) {
    && s'.tree == s.tree && s'.queue == s.queue && s'.current == s.current
    && (forall id :: id in s.recs <==> id in s'.recs)
    && forall id {:trigger NameKept(s, s', id)} :: NameKept(s, s', id)
  }

  lemma SameTree(s: State, s': State, out: int)
    requires NamesOk(s) && QueueOk(s, out) && SameNames(s, s')
    ensures NamesOk(s') && QueueOk(s', out) && forall id :: InTree(s', id) == InTree(s, id)
  {
    forall n
      ensures NameOk(s', n)
    {
      assert NameOk(s, n);
      if n in s.tree {
        assert NameKept(s, s', s.tree[n]);
      }
    }
    forall id
      ensures InTree(s', id) == InTree(s, id)
    {
      assert NameKept(s, s', id);
    }
    forall id
      ensures QueuedOk(s', out, id)
    {
      assert QueuedOk(s, out, id);
    }
  }

  // ---- Leaving the tree ----

  function Detach(s: State, id: int): State
    requires id in s.recs
  {
    s.(tree := s.tree - {s.recs[id].name}, current := s.current - 1)
  }

  lemma DetachTree(s: State, id: int, x: int)
    requires NamesOk(s) && InTree(s, id)
    ensures InTree(Detach(s, id), x) <==> InTree(s, x) && x != id
  {
  }

  lemma DetachQueue(s: State, id: int)
    requires NamesOk(s) && QueueOk(s, id) && InTree(s, id) && id != NONE && !InTree(s, NONE)
    ensures QueueOk(Detach(s, id), NONE)
  {
    var s' := Detach(s, id);
    forall x
      ensures QueuedOk(s', NONE, x)
    {
      assert QueuedOk(s, id, x);
      DetachTree(s, id, x);
    }
    var name := s.recs[id].name;
    assert s.tree.Keys == s'.tree.Keys + {name};
    assert |s.tree| == |s.tree.Keys| && |s'.tree| == |s'.tree.Keys|;
  }

  lemma DetachBook(s: State, id: int)
    requires Book(s, id, NONE) && InTree(s, id) && id >= 0
    ensures Book(Detach(s, id), NONE, id) && !InTree(Detach(s, id), id)
  {
    var s' := Detach(s, id);
    assert RecOk(s, NONE, NONE);
    DetachQueue(s, id);
    forall x
      ensures RecOk(s', id, x)
    {
      assert RecOk(s, NONE, x);
      DetachTree(s, id, x);
    }
    forall n
      ensures NameOk(s', n)
    {
      assert NameOk(s, n);
    }
    forall h
      ensures HandleOk(s', h)
    {
      assert HandleOk(s, h);
    }
    DetachTree(s, id, id);
  }

  // ---- Changing a record ----

  function SetRec(s: State, id: int, r: Rec): State {
    s.(recs := s.recs[id := r])
  }

  /** A change of a record that keeps its name and its count. */
  lemma SetRecBook(s: State, id: int, r: Rec, out: int, dead: int, dead': int)
    requires Book(s, out, dead) && id in s.recs && r.name == s.recs[id].name && r.count == s.recs[id].count
    requires r.err != 0 || r.isDir || r.fd == INVALID ==> r.count == 0
    requires dead == dead' || dead == id
    requires if InTree(s, id) then r.err == 0 ==> !r.close else id == dead' || (r.close && r.count > 0)
    ensures Book(SetRec(s, id, r), out, dead')
  {
    var s' := SetRec(s, id, r);
    SameTree(s, s', out);
    forall x
      ensures RecOk(s', dead', x)
    {
      assert RecOk(s, dead, x);
      assert InTree(s', x) == InTree(s, x);
    }
    forall h
      ensures HandleOk(s', h)
    {
      assert HandleOk(s, h);
    }
  }

  /** The books do not look at the descriptors that are open. */
  lemma OpenBook(s: State, s': State, out: int, dead: int)
    requires Book(s, out, dead) && s' == s.(open := s'.open)
    ensures Book(s', out, dead)
  {
    SameTree(s, s', out);
    forall x
      ensures RecOk(s', dead, x)
    {
      assert RecOk(s, dead, x);
      assert InTree(s', x) == InTree(s, x);
    }
    forall h
      ensures HandleOk(s', h)
    {
      assert HandleOk(s, h);
    }
  }

  // ---- Closing ----

  /** Closes a record's descriptor. */
  function CloseFd(s: State, id: int): State
    requires id in s.recs
  {
    s.(recs := s.recs[id := s.recs[id].(fd := INVALID)], open := s.open - {s.recs[id].fd})
  }

  lemma CloseFdBook(s: State, id: int, out: int, dead: int)
    requires Book(s, out, dead) && id in s.recs && s.recs[id].count == 0
    ensures Book(CloseFd(s, id), out, dead)
  {
    var s' := s.(open := s.open - {s.recs[id].fd});
    OpenBook(s, s', out, dead);
    assert RecOk(s, dead, id);
    assert InTree(s', id) == InTree(s, id);
    SetRecBook(s', id, s.recs[id].(fd := INVALID), out, dead, dead);
    assert CloseFd(s, id) == SetRec(s', id, s.recs[id].(fd := INVALID));
  }

  lemma NoHandle(s: State, id: int, h: int)
    requires |On(s.handles, id)| == 0 && h in s.handles
    ensures s.handles[h].file != id
  {
    assert s.handles[h].file == id ==> h in On(s.handles, id);
  }

  /** Nobody reads from a descriptor whose record has no handles. */
  lemma NobodyReads(s: State, id: int, loose: int)
    requires Sound(s, loose) && id in s.recs && s.recs[id].fd != INVALID && |On(s.handles, id)| == 0
    ensures s.recs[id].fd in s.open && s.open[s.recs[id].fd] == id
    ensures forall h | h in s.handles :: s.handles[h].fd != s.recs[id].fd && s.handles[h].file != id
  {
    var f := s.recs[id].fd;
    assert RecFd(s, id);
    forall h | h in s.handles
      ensures s.handles[h].fd != f && s.handles[h].file != id
    {
      assert HandleFd(s, h);
      NoHandle(s, id, h);
      assert RecFd(s, s.handles[h].file);
    }
  }

  lemma CloseFdSound(s: State, id: int, loose: int)
    requires Sound(s, loose) && id in s.recs && s.recs[id].fd != INVALID && |On(s.handles, id)| == 0
    ensures Sound(CloseFd(s, id), loose) && (Clean(s) ==> Clean(CloseFd(s, id)))
  {
    var s', f := CloseFd(s, id), s.recs[id].fd;
    NobodyReads(s, id, loose);
    assert RecFd(s, id);
    forall x
      ensures RecFd(s', x)
    {
      assert RecFd(s, x);
    }
    forall fd
      ensures FdOk(s', loose, fd)
    {
      assert FdOk(s, loose, fd);
    }
    forall h
      ensures HandleFd(s', h)
    {
      assert HandleFd(s, h);
    }
  }

  /** Closes a descriptor by its number. */
  function Close(s: State, fd: int): State {
    s.(open := s.open - {fd})
  }

  lemma CloseLooseSound(s: State, fd: int)
    requires Sound(s, fd) && fd != NONE
    ensures Sound(Close(s, fd), NONE) && (Clean(s) ==> Clean(Close(s, fd)))
  {
    var s' := Close(s, fd);
    forall x
      ensures RecFd(s', x)
    {
      assert RecFd(s, x);
      assert FdOk(s, fd, fd);
    }
    forall f
      ensures FdOk(s', NONE, f)
    {
      assert FdOk(s, fd, f);
    }
    forall h
      ensures HandleFd(s', h)
    {
      assert HandleFd(s, h);
      assert FdOk(s, fd, fd);
      if h in s.handles {
        assert RecFd(s, s.handles[h].file);
      }
    }
  }

  // ---- Freeing a record ----

  function Free(s: State, id: int): State {
    s.(recs := s.recs - {id})
  }

  lemma FreeBook(s: State, id: int)
    requires Book(s, NONE, id) && id in s.recs && !InTree(s, id) && s.recs[id].count == 0
    ensures Book(Free(s, id), NONE, NONE)
  {
    var s' := Free(s, id);
    assert RecOk(s, id, id);
    forall x
      ensures InTree(s', x) == InTree(s, x)
    {
    }
    forall x
      ensures RecOk(s', NONE, x)
    {
      assert RecOk(s, id, x);
    }
    forall n
      ensures NameOk(s', n)
    {
      assert NameOk(s, n);
    }
    forall h
      ensures HandleOk(s', h)
    {
      assert HandleOk(s, h);
      if h in s.handles {
        NoHandle(s, id, h);
      }
    }
    forall x
      ensures QueuedOk(s', NONE, x)
    {
      assert QueuedOk(s, NONE, x);
    }
  }

  lemma FreeSound(s: State, id: int, loose: int)
    requires Sound(s, loose) && id in s.recs && s.recs[id].fd == INVALID && |On(s.handles, id)| == 0
    ensures Sound(Free(s, id), loose)
  {
    var s' := Free(s, id);
    forall x
      ensures RecFd(s', x)
    {
      assert RecFd(s, x);
    }
    forall fd
      ensures FdOk(s', loose, fd)
    {
      assert FdOk(s, loose, fd);
    }
    forall h
      ensures HandleFd(s', h)
    {
      assert HandleFd(s, h);
      if h in s.handles {
        NoHandle(s, id, h);
      }
    }
  }

  // ---- Handles ----

  /** Gives out handle `h` on a record with a descriptor. */
  function Acquire(s: State, id: int, h: int, minUses: nat): State
    requires id in s.recs
  {
    var r := s.recs[id];
    s.(recs := s.recs[id := r.(count := r.count + 1)], handles := s.handles[h := Handle(id, r.fd, minUses)])
  }

  lemma AcquireCount(handles: map<int, Handle>, h: int, handle: Handle, x: int)
    requires h !in handles
    ensures |On(handles[h := handle], x)| == |On(handles, x)| + if x == handle.file then 1 else 0
  {
    var more := handles[h := handle];
    if x == handle.file {
      assert On(more, x) == On(handles, x) + {h};
    } else {
      assert On(more, x) == On(handles, x);
    }
  }

  lemma AcquireBook(s: State, id: int, h: int, minUses: nat, out: int)
    requires Book(s, out, NONE) && InTree(s, id) && h !in s.handles
    requires s.recs[id].fd != INVALID && s.recs[id].err == 0 && !s.recs[id].isDir
    ensures Book(Acquire(s, id, h, minUses), out, NONE)
  {
    var s' := Acquire(s, id, h, minUses);
    SameTree(s, s', out);
    assert RecOk(s, NONE, id);
    forall x
      ensures RecOk(s', NONE, x)
    {
      assert RecOk(s, NONE, x);
      assert InTree(s', x) == InTree(s, x);
      AcquireCount(s.handles, h, Handle(id, s.recs[id].fd, minUses), x);
    }
    forall k
      ensures HandleOk(s', k)
    {
      assert HandleOk(s, k);
    }
  }

  lemma AcquireSound(s: State, id: int, h: int, minUses: nat, loose: int)
    requires Sound(s, loose) && id in s.recs && s.recs[id].fd != INVALID
    ensures Sound(Acquire(s, id, h, minUses), loose)
  {
    var s' := Acquire(s, id, h, minUses);
    forall x
      ensures RecFd(s', x)
    {
      assert RecFd(s, x);
    }
    forall fd
      ensures FdOk(s', loose, fd)
    {
      assert FdOk(s, loose, fd);
    }
    assert RecFd(s, id);
    forall k
      ensures HandleFd(s', k)
    {
      assert HandleFd(s, k);
    }
  }

  /** Takes handle `h` back. */
  function Return(s: State, h: int): State
    requires h in s.handles && s.handles[h].file in s.recs
  {
    var id := s.handles[h].file;
    var r := s.recs[id];
    s.(recs := s.recs[id := r.(count := r.count - 1)], handles := s.handles - {h})
  }

  lemma ReturnCount(handles: map<int, Handle>, h: int, x: int)
    requires h in handles
    ensures |On(handles - {h}, x)| == |On(handles, x)| - if x == handles[h].file then 1 else 0
  {
    var less := handles - {h};
    if x == handles[h].file {
      assert On(handles, x) == On(less, x) + {h};
    } else {
      assert On(handles, x) == On(less, x);
    }
  }

  lemma ReturnBook(s: State, h: int)
    requires Book(s, NONE, NONE) && h in s.handles
    ensures s.handles[h].file in s.recs
    ensures Book(Return(s, h), NONE, s.handles[h].file)
  {
    assert HandleOk(s, h);
    var s', id := Return(s, h), s.handles[h].file;
    SameTree(s, s', NONE);
    assert RecOk(s, NONE, id);
    ReturnCount(s.handles, h, id);
    assert h in On(s.handles, id);
    forall x
      ensures RecOk(s', id, x)
    {
      assert RecOk(s, NONE, x);
      assert InTree(s', x) == InTree(s, x);
      ReturnCount(s.handles, h, x);
    }
    forall k
      ensures HandleOk(s', k)
    {
      assert HandleOk(s, k);
    }
  }

  lemma ReturnSound(s: State, h: int)
    requires Sound(s, NONE) && h in s.handles && s.handles[h].file in s.recs
    ensures Sound(Return(s, h), NONE)
  {
    var s' := Return(s, h);
    forall x
      ensures RecFd(s', x)
    {
      assert RecFd(s, x);
    }
    forall fd
      ensures FdOk(s', NONE, fd)
    {
      assert FdOk(s, NONE, fd);
    }
    forall k
      ensures HandleFd(s', k)
    {
      assert HandleFd(s, k);
    }
  }

  // ---- New descriptors and records ----

  /** A descriptor that was opened and belongs to nobody yet. */
  function Opened(s: State, fd: int): State {
    s.(open := s.open[fd := NONE])
  }

  lemma OpenedSound(s: State, fd: int)
    requires Sound(s, NONE) && fd >= 0 && fd !in s.open
    ensures Sound(Opened(s, fd), fd) && (Clean(s) ==> Clean(Opened(s, fd)))
  {
    var s' := Opened(s, fd);
    forall x
      ensures RecFd(s', x)
    {
      assert RecFd(s, x);
    }
    forall f
      ensures FdOk(s', fd, f)
    {
      assert FdOk(s, NONE, f);
    }
    forall h
      ensures HandleFd(s', h)
    {
      assert HandleFd(s, h);
    }
  }

  /** The owners after record `id` changes its descriptor: a new one that was nobody's becomes its own,
      and an open one that was its own is lost. */
  function Owners(open: map<int, int>, id: int, was: int, to: int): map<int, int> {
    var rest := if was != to && was in open && open[was] == id then open[was := LOST] else open;
    if to in rest && rest[to] == NONE then rest[to := id] else rest
  }

  /** Record `id` takes the value `r`, descriptor and all. */
  function Store(s: State, id: int, r: Rec): State
    requires id in s.recs
  {
    s.(recs := s.recs[id := r], open := Owners(s.open, id, s.recs[id].fd, r.fd))
  }

  lemma StoreBook(s: State, id: int, r: Rec, out: int)
    requires Book(s, out, NONE) && InTree(s, id) && r.name == s.recs[id].name && r.count == s.recs[id].count
    requires r.err != 0 || r.isDir || r.fd == INVALID ==> r.count == 0
    requires r.err == 0 ==> !r.close
    ensures Book(Store(s, id, r), out, NONE)
  {
    SetRecBook(s, id, r, out, NONE, NONE);
    OpenBook(SetRec(s, id, r), Store(s, id, r), out, NONE);
  }

  /** The new descriptor is none, the old one, or the one that was just opened. */
  lemma StoreSound(s: State, id: int, r: Rec, loose: int)
    requires Sound(s, loose) && id in s.recs && id >= 0
    requires r.fd == INVALID || (r.err == 0 && !r.isDir)
    requires if loose == NONE then r.fd == INVALID || r.fd == s.recs[id].fd else r.fd == loose
    ensures Sound(Store(s, id, r), NONE)
    ensures s.recs[id].fd == INVALID || s.recs[id].fd == r.fd ==> Clean(s) ==> Clean(Store(s, id, r))
  {
    var s', was := Store(s, id, r), s.recs[id].fd;
    assert RecFd(s, id);
    assert FdOk(s, loose, r.fd);
    assert FdOk(s, loose, was);
    forall x
      ensures RecFd(s', x)
    {
      assert RecFd(s, x);
    }
    forall f
      ensures FdOk(s', NONE, f)
    {
      assert FdOk(s, loose, f);
    }
    forall h
      ensures HandleFd(s', h)
    {
      assert HandleFd(s, h);
      if h in s.handles {
        assert RecFd(s, s.handles[h].file);
      }
    }
  }

  /** A new record in the tree. */
  function AddRec(s: State, id: int, r: Rec): State {
    s.(recs := s.recs[id := r], tree := s.tree[r.name := id], current := s.current + 1)
  }

  lemma NoneOn(s: State, id: int)
    requires HandlesOk(s) && id !in s.recs
    ensures On(s.handles, id) == {}
  {
    forall h | h in s.handles
      ensures s.handles[h].file != id
    {
      assert HandleOk(s, h);
    }
  }

  lemma AddRecBook(s: State, id: int, r: Rec)
    requires Book(s, NONE, NONE) && id >= 0 && id !in s.recs && r.name !in s.tree
    requires r.count == 0 && (r.err == 0 ==> !r.close)
    ensures Book(AddRec(s, id, r), id, NONE) && InTree(AddRec(s, id, r), id)
  {
    var s' := AddRec(s, id, r);
    forall x
      ensures InTree(s', x) <==> InTree(s, x) || x == id
    {
      if x in s.recs {
        assert s'.recs[x] == s.recs[x];
      }
    }
    forall h
      ensures HandleOk(s', h)
    {
      assert HandleOk(s, h);
    }
    NoneOn(s, id);
    assert RecOk(s, NONE, NONE);
    forall x
      ensures RecOk(s', NONE, x)
    {
      assert RecOk(s, NONE, x);
    }
    forall n
      ensures NameOk(s', n)
    {
      assert NameOk(s, n);
    }
    AddRecQueue(s, id, r);
  }

  lemma AddRecSound(s: State, id: int, r: Rec, loose: int)
    requires Sound(s, loose) && id !in s.recs && r.fd == INVALID
    ensures Sound(AddRec(s, id, r), loose)
  {
    var s' := AddRec(s, id, r);
    forall x
      ensures RecFd(s', x)
    {
      assert RecFd(s, x);
    }
    forall fd
      ensures FdOk(s', loose, fd)
    {
      assert FdOk(s, loose, fd);
    }
    forall h
      ensures HandleFd(s', h)
    {
      assert HandleFd(s, h);
    }
  }

  lemma AddRecQueue(s: State, id: int, r: Rec)
    requires QueueOk(s, NONE) && NamesOk(s) && id >= 0 && id !in s.recs && r.name !in s.tree && !InTree(s, NONE)
    ensures QueueOk(AddRec(s, id, r), id)
  {
    var s' := AddRec(s, id, r);
    forall x
      ensures QueuedOk(s', id, x)
    {
      assert QueuedOk(s, NONE, x);
      if x in s.recs {
        assert s'.recs[x] == s.recs[x];
      }
    }
    assert s'.tree.Keys == s.tree.Keys + {r.name};
    assert |s.tree| == |s.tree.Keys| && |s'.tree| == |s'.tree.Keys|;
  }
}
