/** The read-write lock as a step system: one word, changed by compare-and-set,
    that counts readers or holds a reserved value for a writer. */
module RwLock {

  /** The value of a word of ones. */
  const WLOCK := 0xffff_ffff_ffff_ffff

  datatype PC =
    | Out
    | WRead | WCas             // wlock
    | RRead | RCas(n: nat)     // rlock: `n` is the value read
    | WHeld | RHeld
    | WUnlock | RUnlock        // unlock, before the first read, by a writer or a reader
    | Store                    // unlock has read the writer's value
    | Drop(n: nat)             // unlock, before the compare-and-set from `n` to `n - 1`
    | Reread                   // unlock, the compare-and-set failed

  datatype State = State(lock: nat, pcs: seq<PC>)

  predicate Init(s: State) {
    s.lock == 0 && |s.pcs| < WLOCK && forall i | 0 <= i < |s.pcs| :: s.pcs[i] == Out
  }

  function Goto(s: State, i: nat, pc: PC): State
    requires i < |s.pcs|
  {
    s.(pcs := s.pcs[i := pc])
  }

  function Inc(n: nat): nat { (n + 1) % (WLOCK + 1) }

  function Dec(n: nat): nat { (n - 1) % (WLOCK + 1) }

  /** One atomic step of process `i`. */
  ghost predicate Step(s: State, i: nat, s': State)
    requires i < |s.pcs|
  {
    match s.pcs[i]
    case Out => s' == Goto(s, i, WRead) || s' == Goto(s, i, RRead)
    case WRead => s' == Goto(s, i, if s.lock == 0 then WCas else WRead)
    case WCas => s' == if s.lock == 0 then Goto(s.(lock := WLOCK), i, WHeld) else Goto(s, i, WRead)
    case RRead => s' == Goto(s, i, if s.lock != WLOCK then RCas(s.lock) else RRead)
    case RCas(n) => s' == if s.lock == n then Goto(s.(lock := Inc(n)), i, RHeld) else Goto(s, i, RRead)
    case WHeld => s' == Goto(s, i, WUnlock)
    case RHeld => s' == Goto(s, i, RUnlock)
    case WUnlock => s' == Goto(s, i, if s.lock == WLOCK then Store else Drop(s.lock))
    case RUnlock => s' == Goto(s, i, if s.lock == WLOCK then Store else Drop(s.lock))
    case Store => s' == Goto(s.(lock := 0), i, Out)
    case Drop(n) => s' == if s.lock == n then Goto(s.(lock := Dec(n)), i, Out) else Goto(s, i, Reread)
    case Reread => s' == Goto(s, i, Drop(s.lock))
  }

  /** Owns a read share of the lock. */
  predicate Reader(pc: PC) {
    pc.RHeld? || pc.RUnlock? || pc.Drop? || pc.Reread?
  }

  /** Owns the lock for writing. */
  predicate Writer(pc: PC) {
    pc.WHeld? || pc.WUnlock? || pc.Store?
  }

  function Readers(pcs: seq<PC>): nat {
    if pcs == [] then 0 else (if Reader(pcs[0]) then 1 else 0) + Readers(pcs[1..])
  }

  function Writers(pcs: seq<PC>): nat {
    if pcs == [] then 0 else (if Writer(pcs[0]) then 1 else 0) + Writers(pcs[1..])
  }

  lemma {:induction false} CountUpdate(pcs: seq<PC>, i: nat, pc: PC)
    requires i < |pcs|
    ensures Readers(pcs[i := pc]) == Readers(pcs) - (if Reader(pcs[i]) then 1 else 0) + (if Reader(pc) then 1 else 0)
    ensures Writers(pcs[i := pc]) == Writers(pcs) - (if Writer(pcs[i]) then 1 else 0) + (if Writer(pc) then 1 else 0)
    ensures (Reader(pcs[i]) ==> Readers(pcs) >= 1) && (Writer(pcs[i]) ==> Writers(pcs) >= 1)
    ensures Readers(pcs) <= |pcs|
  {
    CountBound(pcs);
    if i == 0 {
      assert pcs[0 := pc][1..] == pcs[1..];
    } else {
      assert pcs[i := pc][1..] == pcs[1..][i - 1 := pc];
      CountUpdate(pcs[1..], i - 1, pc);
    }
  }

  lemma {:induction false} CountBound(pcs: seq<PC>)
    ensures Readers(pcs) <= |pcs|
  {
    if pcs != [] { CountBound(pcs[1..]); }
  }

  predicate Word(lock: nat, r: nat, w: nat) {
    && (lock == WLOCK <==> w == 1) && w <= 1
    && (w == 1 ==> r == 0) && (w == 0 ==> lock == r)
  }

  /** The word says who holds the lock; a reader never acts on the writer's value. */
  ghost predicate Inv(s: State) {
    && |s.pcs| < WLOCK
    && Word(s.lock, Readers(s.pcs), Writers(s.pcs))
    && (forall i | 0 <= i < |s.pcs| && s.pcs[i].RCas? :: s.pcs[i].n < WLOCK)
    && (forall i | 0 <= i < |s.pcs| && s.pcs[i].Drop? :: 1 <= s.pcs[i].n < WLOCK)
  }

  lemma {:induction false} InitCounts(pcs: seq<PC>)
    requires forall i | 0 <= i < |pcs| :: pcs[i] == Out
    ensures Readers(pcs) == 0 && Writers(pcs) == 0
  {
    if pcs != [] {
      assert forall i | 0 <= i < |pcs| - 1 :: pcs[1..][i] == pcs[i + 1];
      InitCounts(pcs[1..]);
    }
  }

  lemma StepInv(s: State, i: nat, s': State)
    requires i < |s.pcs| && Step(s, i, s') && Inv(s)
    ensures Inv(s')
  {
    assert s'.pcs == s.pcs[i := s'.pcs[i]];
    CountUpdate(s.pcs, i, s'.pcs[i]);
    CountBound(s'.pcs);
    StepNumbers(s, i, s');
    StepWord(s, i, s', Readers(s.pcs), Writers(s.pcs), Readers(s'.pcs), Writers(s'.pcs));
  }

  /** The values that processes carry along stay in range. */
  lemma StepNumbers(s: State, i: nat, s': State)
    requires i < |s.pcs| && Step(s, i, s') && Inv(s) && |s'.pcs| == |s.pcs| && s'.pcs == s.pcs[i := s'.pcs[i]]
    requires s.lock <= WLOCK && (Reader(s.pcs[i]) ==> 1 <= s.lock < WLOCK) && (Writer(s.pcs[i]) ==> s.lock == WLOCK)
    ensures forall j | 0 <= j < |s'.pcs| && s'.pcs[j].RCas? :: s'.pcs[j].n < WLOCK
    ensures forall j | 0 <= j < |s'.pcs| && s'.pcs[j].Drop? :: 1 <= s'.pcs[j].n < WLOCK
  {
  }

  /** The word follows the number `r` of readers and `w` of writers. */
  lemma StepWord(s: State, i: nat, s': State, r: nat, w: nat, r': nat, w': nat)
    requires i < |s.pcs| && Step(s, i, s') && |s'.pcs| == |s.pcs| && s'.pcs == s.pcs[i := s'.pcs[i]]
    requires Word(s.lock, r, w) && r < WLOCK && r' < WLOCK
    requires s.pcs[i].RCas? ==> s.pcs[i].n < WLOCK
    requires s.pcs[i].Drop? ==> 1 <= s.pcs[i].n < WLOCK
    requires r' == r - (if Reader(s.pcs[i]) then 1 else 0) + (if Reader(s'.pcs[i]) then 1 else 0)
    requires w' == w - (if Writer(s.pcs[i]) then 1 else 0) + (if Writer(s'.pcs[i]) then 1 else 0)
    requires (Reader(s.pcs[i]) ==> r >= 1) && (Writer(s.pcs[i]) ==> w >= 1)
    ensures Word(s'.lock, r', w')
  {
  }

  ghost predicate Next(s: State, s': State) {
    exists i: nat :: i < |s.pcs| && Step(s, i, s')
  }

  ghost predicate IsRun(run: seq<State>) {
    |run| > 0 && Init(run[0]) && forall k | 0 <= k < |run| - 1 :: Next(run[k], run[k + 1])
  }

  /** At every point of every run the word is the writer's value exactly when one writer and no
      reader holds the lock, and the number of readers otherwise. */
  lemma {:induction false} RunInv(run: seq<State>, k: nat)
    requires IsRun(run) && k < |run|
    ensures Inv(run[k])
  {
    if k == 0 {
      InitCounts(run[0].pcs);
    } else {
      RunInv(run, k - 1);
      assert Next(run[k - 1], run[k]);
      var i: nat :| i < |run[k - 1].pcs| && Step(run[k - 1], i, run[k]);
      StepInv(run[k - 1], i, run[k]);
    }
  }

  /** A reader that unlocks, or retries to, never sees the writer's value. */
  lemma ReaderNeverSeesWriter(run: seq<State>, k: nat, i: nat)
    requires IsRun(run) && k < |run| && i < |run[k].pcs| && Reader(run[k].pcs[i])
    ensures run[k].lock != WLOCK && 1 <= run[k].lock
  {
    RunInv(run, k);
    CountUpdate(run[k].pcs, i, Out);
  }

  // ---- What the functions do when no other process gets in between ----

  /** `n` steps of process `i` alone can be made, and whichever they are they lead to `t`. */
  ghost predicate Leads(s: State, i: nat, n: nat, t: State)
    requires i < |s.pcs|
    decreases n
  {
    if n == 0 then s == t
    else
      && (exists s' :: Step(s, i, s'))
      && forall s' | Step(s, i, s') :: |s'.pcs| == |s.pcs| && Leads(s', i, n - 1, t)
  }

  lemma {:induction false} TwoSteps(s: State, i: nat, s': State, t: State)
    requires i < |s.pcs| == |s'.pcs| && Step(s, i, s') && forall x | Step(s, i, x) :: x == s'
    requires |t.pcs| == |s.pcs| && Step(s', i, t) && forall x | Step(s', i, x) :: x == t
    ensures Leads(s, i, 2, t)
  {
    assert Leads(t, i, 0, t);
    assert Leads(s', i, 1, t);
  }

  /** A writer takes a free lock. */
  lemma {:induction false} WriterTakes(s: State, i: nat)
    requires i < |s.pcs| && s.pcs[i] == WRead && s.lock == 0
    ensures Leads(s, i, 2, Goto(s.(lock := WLOCK), i, WHeld))
  {
    var s1, t := Goto(s, i, WCas), Goto(s.(lock := WLOCK), i, WHeld);
    assert Goto(s1.(lock := WLOCK), i, WHeld) == t;
    TwoSteps(s, i, s1, t);
  }

  /** In every run a reader gets in beside any number of readers. */
  lemma {:induction false} ReaderEnters(run: seq<State>, k: nat, i: nat)
    requires IsRun(run) && k < |run| && i < |run[k].pcs| && run[k].pcs[i] == RRead && run[k].lock != WLOCK
    ensures var s := run[k]; Leads(s, i, 2, Goto(s.(lock := s.lock + 1), i, RHeld))
  {
    var s := run[k];
    RunInv(run, k);
    CountBound(s.pcs);
    var s1, t := Goto(s, i, RCas(s.lock)), Goto(s.(lock := s.lock + 1), i, RHeld);
    assert Inc(s.lock) == s.lock + 1;
    assert Goto(s1.(lock := Inc(s.lock)), i, RHeld) == t;
    TwoSteps(s, i, s1, t);
  }

  /** While it is taken, by readers or a writer, a writer only looks again; and a reader while a writer has it. */
  lemma Turned(s: State, i: nat, s': State)
    requires i < |s.pcs| && Step(s, i, s')
    requires (s.pcs[i] == WRead && s.lock != 0) || (s.pcs[i] == RRead && s.lock == WLOCK)
    ensures s' == s
  {
    assert s.pcs[i := s.pcs[i]] == s.pcs;
  }

  /** A writer that unlocks leaves the lock free. */
  lemma {:induction false} WriterLeaves(run: seq<State>, k: nat, i: nat)
    requires IsRun(run) && k < |run| && i < |run[k].pcs| && run[k].pcs[i] == WUnlock
    ensures Leads(run[k], i, 2, Goto(run[k].(lock := 0), i, Out))
  {
    var s := run[k];
    RunInv(run, k);
    CountUpdate(s.pcs, i, Out);
    var s1, t := Goto(s, i, Store), Goto(s.(lock := 0), i, Out);
    assert Goto(s1.(lock := 0), i, Out) == t;
    TwoSteps(s, i, s1, t);
  }

  /** A reader that unlocks leaves the lock to the others. */
  lemma {:induction false} ReaderLeaves(run: seq<State>, k: nat, i: nat)
    requires IsRun(run) && k < |run| && i < |run[k].pcs| && run[k].pcs[i] == RUnlock
    ensures var s := run[k]; s.lock > 0 && Leads(s, i, 2, Goto(s.(lock := s.lock - 1), i, Out))
  {
    var s := run[k];
    ReaderNeverSeesWriter(run, k, i);
    RunInv(run, k);
    CountBound(s.pcs);
    var s1, t := Goto(s, i, Drop(s.lock)), Goto(s.(lock := s.lock - 1), i, Out);
    assert Dec(s.lock) == s.lock - 1;
    assert Goto(s1.(lock := Dec(s.lock)), i, Out) == t;
    TwoSteps(s, i, s1, t);
  }
}
