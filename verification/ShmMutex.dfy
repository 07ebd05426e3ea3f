/** The shared-memory mutex as a step system: a lock word, a counter of waiters
    and a semaphore, used by any number of processes whose atomic steps
    interleave in any order.  Process `i` has pid `i + 1`; the lock word is 0
    or the pid of the holder.  A process may die while it holds the lock or is
    outside the mutex code; its lock can then be taken away by force. */
module ShmMutex {

  /** Where a process is. */
  datatype PC =
    | Out                // outside
    | TryRead | TryCas   // trylock: before reading the lock word, before the compare-and-set
    | LockRead | LockCas // lock, first part and spinning
    | Add                // before adding itself to the waiters
    | WaitRead | WaitCas // counted as a waiter, trying once more
    | Undo               // got the lock, still counted as a waiter
    | Block              // in sem_wait
    | Held               // has the lock
    | WakeRead           // released the lock, before reading the counter
    | WakeCas(w: int)    // has read a positive counter
    | Post               // has taken one waiter off the counter, before sem_post
    | Dead

  datatype State = State(lock: nat, wait: int, sem: nat, pcs: seq<PC>)

  predicate Init(s: State) {
    s.lock == 0 && s.wait == 0 && s.sem == 0 && forall i | 0 <= i < |s.pcs| :: s.pcs[i] == Out
  }

  function Goto(s: State, i: nat, pc: PC): State
    requires i < |s.pcs|
  {
    s.(pcs := s.pcs[i := pc])
  }

  /** The compare-and-set that takes the lock. */
  function Acquire(s: State, i: nat, got: PC, lost: PC): State
    requires i < |s.pcs|
  {
    if s.lock == 0 then Goto(s.(lock := i + 1), i, got) else Goto(s, i, lost)
  }

  /** The compare-and-set that takes the lock away from process `victim`. */
  function Release(s: State, i: nat, victim: nat): State
    requires i < |s.pcs|
  {
    if s.lock == victim + 1 then Goto(s.(lock := 0), i, WakeRead) else Goto(s, i, Out)
  }

  /** One atomic step of process `i`. */
  ghost predicate Step(s: State, i: nat, s': State)
    requires i < |s.pcs|
  {
    match s.pcs[i]
    case Out =>
      || s' == Goto(s, i, TryRead) || s' == Goto(s, i, LockRead) || s' == Goto(s, i, Dead)
      || (exists v: nat :: v < |s.pcs| && s.pcs[v] == Dead && s' == Release(s, i, v))
    case TryRead => s' == Goto(s, i, if s.lock == 0 then TryCas else Out)
    case TryCas => s' == Acquire(s, i, Held, Out)
    case LockRead =>
      if s.lock == 0 then s' == Goto(s, i, LockCas) else s' == Goto(s, i, LockRead) || s' == Goto(s, i, Add)
    case LockCas => s' == Acquire(s, i, Held, LockRead) || s' == Acquire(s, i, Held, Add)
    case Add => s' == Goto(s.(wait := s.wait + 1), i, WaitRead)
    case WaitRead => s' == Goto(s, i, if s.lock == 0 then WaitCas else Block)
    case WaitCas => s' == Acquire(s, i, Undo, Block)
    case Undo => s' == Goto(s.(wait := s.wait - 1), i, Held)
    case Block => s.sem > 0 && s' == Goto(s.(sem := s.sem - 1), i, LockRead)
    case Held => s' == Release(s, i, i) || s' == Goto(s, i, Dead)
    case WakeRead => s' == Goto(s, i, if s.wait <= 0 then Out else WakeCas(s.wait))
    case WakeCas(w) =>
      s' == if s.wait == w then Goto(s.(wait := w - 1), i, Post) else Goto(s, i, WakeRead)
    case Post => s' == Goto(s.(sem := s.sem + 1), i, Out)
    case Dead => false
  }

  predicate Holds(pc: PC) {
    pc.Undo? || pc.Held?
  }

  /** Incremented the counter and has neither undone that nor returned from sem_wait. */
  predicate Counted(pc: PC) {
    pc.WaitRead? || pc.WaitCas? || pc.Undo? || pc.Block?
  }

  predicate Waking(pc: PC) {
    pc.WakeRead? || pc.WakeCas? || pc.Post?
  }

  /** In `lock`, not blocked and without the lock: it will look at the lock word again. */
  predicate Awake(pc: PC) {
    pc.LockRead? || pc.LockCas? || pc.Add? || pc.WaitRead? || pc.WaitCas?
  }

  function Weight(pc: PC): int {
    if Counted(pc) then 1 else if pc.Post? then -1 else 0
  }

  function Sum(pcs: seq<PC>): int {
    if pcs == [] then 0 else Weight(pcs[0]) + Sum(pcs[1..])
  }

  lemma {:induction false} SumUpdate(pcs: seq<PC>, i: nat, pc: PC)
    requires i < |pcs|
    ensures Sum(pcs[i := pc]) == Sum(pcs) - Weight(pcs[i]) + Weight(pc)
  {
    if i == 0 {
      assert pcs[0 := pc][1..] == pcs[1..];
    } else {
      assert pcs[i := pc][1..] == pcs[1..][i - 1 := pc];
      SumUpdate(pcs[1..], i - 1, pc);
    }
  }

  lemma {:induction false} SumNonneg(pcs: seq<PC>)
    requires forall i | 0 <= i < |pcs| :: !pcs[i].Post?
    ensures Sum(pcs) >= 0
    ensures (exists i :: 0 <= i < |pcs| && Counted(pcs[i])) ==> Sum(pcs) >= 1
  {
    if pcs != [] {
      var rest := pcs[1..];
      assert forall i | 0 <= i < |rest| :: rest[i] == pcs[i + 1];
      SumNonneg(rest);
      if i :| 0 <= i < |pcs| && Counted(pcs[i]) {
        if i > 0 { assert Counted(rest[i - 1]); }
      }
    }
  }

  function Count(pcs: seq<PC>, f: PC -> bool): nat {
    if pcs == [] then 0 else (if f(pcs[0]) then 1 else 0) + Count(pcs[1..], f)
  }

  /** What the sum of the weights counts. */
  lemma {:induction false} SumCounts(pcs: seq<PC>)
    ensures Sum(pcs) == Count(pcs, pc => Counted(pc)) - Count(pcs, (pc: PC) => pc.Post?)
  {
    if pcs != [] { SumCounts(pcs[1..]); }
  }

  // ---- What holds in every state ----

  /** The lock word names the holder. */
  ghost predicate Exclusive(s: State) {
    && (forall i | 0 <= i < |s.pcs| && Holds(s.pcs[i]) :: s.lock == i + 1)
    && (s.lock > 0 ==> s.lock <= |s.pcs| && (Holds(s.pcs[s.lock - 1]) || s.pcs[s.lock - 1] == Dead))
  }

  /** Waiters are neither lost nor invented. */
  ghost predicate Conserved(s: State) {
    s.wait + s.sem == Sum(s.pcs)
  }

  ghost predicate WakeUpComing(s: State) {
    s.sem > 0 || exists i :: 0 <= i < |s.pcs| && (Waking(s.pcs[i]) || Awake(s.pcs[i]))
  }

  /** While the lock is free, a blocked process is not forgotten. */
  ghost predicate NoLostWakeUp(s: State) {
    s.lock == 0 && (exists i :: 0 <= i < |s.pcs| && s.pcs[i] == Block) ==> WakeUpComing(s)
  }

  ghost predicate Inv(s: State) {
    Exclusive(s) && Conserved(s) && NoLostWakeUp(s)
  }

  lemma InitInv(s: State)
    requires Init(s)
    ensures Inv(s)
  {
    AllOut(s.pcs);
  }

  lemma {:induction false} AllOut(pcs: seq<PC>)
    requires forall i | 0 <= i < |pcs| :: pcs[i] == Out
    ensures Sum(pcs) == 0
  {
    if pcs != [] {
      assert forall i | 0 <= i < |pcs| - 1 :: pcs[1..][i] == pcs[i + 1];
      AllOut(pcs[1..]);
    }
  }

  lemma StepExclusive(s: State, i: nat, s': State)
    requires i < |s.pcs| && Step(s, i, s') && Exclusive(s)
    ensures Exclusive(s')
  {
    assert s'.pcs == s.pcs[i := s'.pcs[i]];
    assert forall j | 0 <= j < |s.pcs| && j != i :: s'.pcs[j] == s.pcs[j];
    assert s'.lock == s.lock || (s.lock == 0 && s'.lock == i + 1 && Holds(s'.pcs[i])) || s'.lock == 0;
  }

  lemma StepConserved(s: State, i: nat, s': State)
    requires i < |s.pcs| && Step(s, i, s') && Conserved(s)
    ensures Conserved(s') && |s'.pcs| == |s.pcs|
  {
    assert |s'.pcs| == |s.pcs|;
    assert s'.pcs == s.pcs[i := s'.pcs[i]];
    SumUpdate(s.pcs, i, s'.pcs[i]);
  }

  /** When a releaser finds no waiter to wake while one is blocked, a wake-up is already on its way. */
  lemma EnoughWakeUps(s: State)
    requires Conserved(s) && s.wait <= 0 && exists i :: 0 <= i < |s.pcs| && s.pcs[i] == Block
    ensures s.sem > 0 || exists i :: 0 <= i < |s.pcs| && s.pcs[i].Post?
  {
    if !exists i :: 0 <= i < |s.pcs| && s.pcs[i].Post? {
      var b :| 0 <= b < |s.pcs| && s.pcs[b] == Block;
      assert Counted(s.pcs[b]);
      SumNonneg(s.pcs);
    }
  }

  lemma StepNoLostWakeUp(s: State, i: nat, s': State)
    requires i < |s.pcs| && Step(s, i, s') && Inv(s)
    ensures NoLostWakeUp(s')
  {
    if s'.lock == 0 && exists j :: 0 <= j < |s'.pcs| && s'.pcs[j] == Block {
      var b :| 0 <= b < |s'.pcs| && s'.pcs[b] == Block;
      assert s'.pcs == s.pcs[i := s'.pcs[i]];
      if b != i || s.pcs[i] == Block {
        assert s.pcs[b] == Block || s.pcs[i] == Block;
      }
      if Waking(s'.pcs[i]) || Awake(s'.pcs[i]) {
        assert WakeUpComing(s');
      } else if s.lock == 0 && s.pcs[b] == Block {
        assert WakeUpComing(s);
        if s.pcs[i].WakeRead? {
          EnoughWakeUps(s);
          if s.sem == 0 {
            var q :| 0 <= q < |s.pcs| && s.pcs[q].Post?;
            assert s'.pcs[q] == s.pcs[q] && Waking(s'.pcs[q]);
          }
        } else if s.sem == 0 && s'.sem == 0 {
          var q :| 0 <= q < |s.pcs| && (Waking(s.pcs[q]) || Awake(s.pcs[q]));
          assert q != i;
          assert s'.pcs[q] == s.pcs[q];
        }
      }
    }
  }

  // ---- Every run ----

  ghost predicate Next(s: State, s': State) {
    exists i: nat :: i < |s.pcs| && Step(s, i, s')
  }

  ghost predicate IsRun(run: seq<State>) {
    |run| > 0 && Init(run[0]) && forall k | 0 <= k < |run| - 1 :: Next(run[k], run[k + 1])
  }

  lemma StepInv(s: State, i: nat, s': State)
    requires i < |s.pcs| && Step(s, i, s') && Inv(s)
    ensures Inv(s') && |s'.pcs| == |s.pcs|
  {
    StepExclusive(s, i, s');
    StepConserved(s, i, s');
    StepNoLostWakeUp(s, i, s');
  }

  /** The invariant holds at every point of every run. */
  lemma {:induction false} RunInv(run: seq<State>, k: nat)
    requires IsRun(run) && k < |run|
    ensures Inv(run[k])
  {
    if k == 0 {
      InitInv(run[0]);
    } else {
      RunInv(run, k - 1);
      assert Next(run[k - 1], run[k]);
      var i: nat :| i < |run[k - 1].pcs| && Step(run[k - 1], i, run[k]);
      StepInv(run[k - 1], i, run[k]);
    }
  }

  /** At every point of every run the counter, the semaphore and the posts under way add up to the
      processes that have counted themselves in and are not yet out. */
  lemma WaitersConserved(run: seq<State>, k: nat)
    requires IsRun(run) && k < |run|
    ensures var s := run[k];
            s.wait + s.sem + Count(s.pcs, (pc: PC) => pc.Post?) == Count(s.pcs, pc => Counted(pc))
  {
    RunInv(run, k);
    SumCounts(run[k].pcs);
  }

  /** At most one process holds the lock at any point of any run. */
  lemma MutualExclusion(run: seq<State>, k: nat, i: nat, j: nat)
    requires IsRun(run) && k < |run| && i < |run[k].pcs| && j < |run[k].pcs|
    requires Holds(run[k].pcs[i]) && Holds(run[k].pcs[j])
    ensures i == j
  {
    RunInv(run, k);
  }

  /** Steps of processes that are inside `lock` or `wakeup`: nobody new comes, no holder is needed. */
  ghost predicate InsideStep(s: State, s': State) {
    exists i: nat :: i < |s.pcs| && (s.pcs[i] == Block || Waking(s.pcs[i]) || Awake(s.pcs[i])) && Step(s, i, s')
  }

  ghost predicate InsidePath(path: seq<State>) {
    |path| > 0 && forall k | 0 <= k < |path| - 1 :: InsideStep(path[k], path[k + 1])
  }

  lemma Extend(s: State, i: nat, s': State, rest: seq<State>) returns (path: seq<State>)
    requires i < |s.pcs| && (s.pcs[i] == Block || Waking(s.pcs[i]) || Awake(s.pcs[i])) && Step(s, i, s')
    requires InsidePath(rest) && rest[0] == s'
    ensures InsidePath(path) && path[0] == s && path[|path| - 1] == rest[|rest| - 1]
  {
    path := [s] + rest;
    assert InsideStep(s, s');
    forall k | 0 <= k < |path| - 1 ensures InsideStep(path[k], path[k + 1]) {
      if k > 0 { assert path[k] == rest[k - 1] && path[k + 1] == rest[k]; }
    }
  }

  /** A process that is awake can take the free lock by its own steps. */
  lemma AwakeAcquires(s: State, i: nat) returns (path: seq<State>)
    requires i < |s.pcs| && Awake(s.pcs[i]) && s.lock == 0
    ensures InsidePath(path) && path[0] == s && path[|path| - 1].lock != 0
    decreases if s.pcs[i].Add? then 3 else if s.pcs[i].WaitRead? || s.pcs[i].LockRead? then 2 else 1
  {
    if s.pcs[i].LockCas? || s.pcs[i].WaitCas? {
      var s' := if s.pcs[i].LockCas? then Acquire(s, i, Held, LockRead) else Acquire(s, i, Undo, Block);
      path := Extend(s, i, s', [s']);
    } else {
      var s' := if s.pcs[i].Add? then Goto(s.(wait := s.wait + 1), i, WaitRead)
                else Goto(s, i, if s.pcs[i].LockRead? then LockCas else WaitCas);
      var rest := AwakeAcquires(s', i);
      path := Extend(s, i, s', rest);
    }
  }

  /** A blocked process can take the free lock once the semaphore is positive. */
  lemma BlockedAcquires(s: State, b: nat) returns (path: seq<State>)
    requires b < |s.pcs| && s.pcs[b] == Block && s.lock == 0 && s.sem > 0
    ensures InsidePath(path) && path[0] == s && path[|path| - 1].lock != 0
  {
    var s' := Goto(s.(sem := s.sem - 1), b, LockRead);
    var rest := AwakeAcquires(s', b);
    path := Extend(s, b, s', rest);
  }

  /** A process about to post the semaphore lets a blocked process through. */
  lemma PostAcquires(s: State, b: nat, i: nat) returns (path: seq<State>)
    requires b < |s.pcs| && s.pcs[b] == Block && s.lock == 0 && i < |s.pcs| && s.pcs[i].Post?
    ensures InsidePath(path) && path[0] == s && path[|path| - 1].lock != 0
  {
    var s' := Goto(s.(sem := s.sem + 1), i, Out);
    var rest := BlockedAcquires(s', b);
    path := Extend(s, i, s', rest);
  }

  /** From every state of every run in which the lock is free and a process is blocked, steps of the
      processes inside the mutex code alone lead to somebody holding the lock. */
  lemma NeverStuck(run: seq<State>, k: nat, b: nat) returns (path: seq<State>)
    requires IsRun(run) && k < |run| && b < |run[k].pcs| && run[k].pcs[b] == Block && run[k].lock == 0
    ensures InsidePath(path) && path[0] == run[k] && path[|path| - 1].lock != 0
  {
    RunInv(run, k);
    path := SomebodyAcquires(run[k], b);
  }

  lemma SomebodyAcquires(s: State, b: nat) returns (path: seq<State>)
    requires Inv(s) && b < |s.pcs| && s.pcs[b] == Block && s.lock == 0
    ensures InsidePath(path) && path[0] == s && path[|path| - 1].lock != 0
  {
    if s.sem > 0 {
      path := BlockedAcquires(s, b);
    } else if i: nat :| i < |s.pcs| && Awake(s.pcs[i]) {
      path := AwakeAcquires(s, i);
    } else if i: nat :| i < |s.pcs| && s.pcs[i].Post? {
      path := PostAcquires(s, b, i);
    } else {
      if s.wait <= 0 { EnoughWakeUps(s); }
      var i: nat :| i < |s.pcs| && (Waking(s.pcs[i]) || Awake(s.pcs[i]));
      path := WakerAcquires(s, b, i);
    }
  }

  /** A releaser that finds a waiter lets a blocked process through. */
  lemma WakerAcquires(s: State, b: nat, i: nat) returns (path: seq<State>)
    requires b < |s.pcs| && s.pcs[b] == Block && s.lock == 0 && s.wait > 0
    requires i < |s.pcs| && (s.pcs[i].WakeRead? || s.pcs[i].WakeCas?)
    ensures InsidePath(path) && path[0] == s && path[|path| - 1].lock != 0
    decreases if s.pcs[i].WakeRead? then 1 else if s.pcs[i].w == s.wait then 0 else 2
  {
    if s.pcs[i].WakeCas? && s.pcs[i].w == s.wait {
      var s' := Goto(s.(wait := s.wait - 1), i, Post);
      var rest := PostAcquires(s', b, i);
      path := Extend(s, i, s', rest);
    } else {
      var s' := Goto(s, i, if s.pcs[i].WakeCas? then WakeRead else WakeCas(s.wait));
      var rest := WakerAcquires(s', b, i);
      path := Extend(s, i, s', rest);
    }
  }

  // ---- What the functions do when no other process gets in between ----

  /** `n` steps of process `i` alone can be made, and whichever they are they lead to `t`. */
  ghost predicate Leads(s: State, i: nat, n: nat, t: State)
    requires i < |s.pcs|
    decreases n
  {
    if n == 0 then s == t
    else
      && (exists s' :: Step(s, i, s'))
      && forall s' | Step(s, i, s') :: |s'.pcs| == |s.pcs| && Leads(s', i, n - 1, t)
  }

  lemma {:induction false} OneStep(s: State, i: nat, s': State, n: nat, t: State)
    requires i < |s.pcs| == |s'.pcs| && Leads(s', i, n, t)
    requires Step(s, i, s') && forall x | Step(s, i, x) :: x == s'
    ensures Leads(s, i, n + 1, t)
  {
  }

  /** trylock takes a free lock. */
  lemma {:induction false} TryLockTakes(s: State, i: nat)
    requires i < |s.pcs| && s.pcs[i] == TryRead && s.lock == 0
    ensures Leads(s, i, 2, Goto(s.(lock := i + 1), i, Held))
  {
    var s1, t := Goto(s, i, TryCas), Goto(s.(lock := i + 1), i, Held);
    assert Acquire(s1, i, Held, Out) == t;
    assert Leads(t, i, 0, t);
    OneStep(s1, i, t, 0, t);
    OneStep(s, i, s1, 1, t);
  }

  /** It fails, and changes nothing, when the lock is not free. */
  lemma {:induction false} TryLockFails(s: State, i: nat)
    requires i < |s.pcs| && s.pcs[i] == TryRead && s.lock != 0
    ensures Leads(s, i, 1, Goto(s, i, Out))
  {
    var t := Goto(s, i, Out);
    assert Leads(t, i, 0, t);
    OneStep(s, i, t, 0, t);
  }

  /** lock takes a free lock at once. */
  lemma {:induction false} LockTakes(s: State, i: nat)
    requires i < |s.pcs| && s.pcs[i] == LockRead && s.lock == 0
    ensures Leads(s, i, 2, Goto(s.(lock := i + 1), i, Held))
  {
    var s1, t := Goto(s, i, LockCas), Goto(s.(lock := i + 1), i, Held);
    assert Acquire(s1, i, Held, LockRead) == t && Acquire(s1, i, Held, Add) == t;
    assert Leads(t, i, 0, t);
    OneStep(s1, i, t, 0, t);
    OneStep(s, i, s1, 1, t);
  }

  /** A locker that gave up spinning and finds the lock free takes it, and is not counted as a waiter. */
  lemma {:induction false} WaiterTakes(s: State, i: nat)
    requires i < |s.pcs| && s.pcs[i] == Add && s.lock == 0
    ensures Leads(s, i, 4, Goto(s.(lock := i + 1), i, Held))
  {
    var s1 := Goto(s.(wait := s.wait + 1), i, WaitRead);
    var s2 := Goto(s1, i, WaitCas);
    var s3 := Goto(s2.(lock := i + 1), i, Undo);
    var t := Goto(s.(lock := i + 1), i, Held);
    assert Goto(s3.(wait := s3.wait - 1), i, Held) == t;
    assert Leads(t, i, 0, t);
    OneStep(s3, i, t, 0, t);
    OneStep(s2, i, s3, 1, t);
    OneStep(s1, i, s2, 2, t);
    OneStep(s, i, s1, 3, t);
  }

  /** One that finds it taken is counted as a waiter and blocks. */
  lemma {:induction false} WaiterBlocks(s: State, i: nat)
    requires i < |s.pcs| && s.pcs[i] == Add && s.lock != 0
    ensures Leads(s, i, 2, Goto(s.(wait := s.wait + 1), i, Block))
  {
    var s1 := Goto(s.(wait := s.wait + 1), i, WaitRead);
    var t := Goto(s.(wait := s.wait + 1), i, Block);
    assert Goto(s1, i, Block) == t;
    assert Leads(t, i, 0, t);
    OneStep(s1, i, t, 0, t);
    OneStep(s, i, s1, 1, t);
  }

  /** A holder frees the lock with its next step, unless it dies. */
  lemma UnlockFrees(run: seq<State>, k: nat, i: nat, s': State)
    requires IsRun(run) && k < |run| && i < |run[k].pcs| && run[k].pcs[i] == Held && Step(run[k], i, s')
    ensures s' == Goto(run[k].(lock := 0), i, WakeRead) || s' == Goto(run[k], i, Dead)
  {
    RunInv(run, k);
  }

  /** Whoever freed the lock lets one waiter through if there is one. */
  lemma {:induction false} WakesOne(s: State, i: nat)
    requires i < |s.pcs| && s.pcs[i] == WakeRead
    ensures s.wait <= 0 ==> Leads(s, i, 1, Goto(s, i, Out))
    ensures s.wait > 0 ==> Leads(s, i, 3, Goto(s.(wait := s.wait - 1, sem := s.sem + 1), i, Out))
  {
    if s.wait <= 0 {
      var t := Goto(s, i, Out);
      assert Leads(t, i, 0, t);
      OneStep(s, i, t, 0, t);
    } else {
      var s1 := Goto(s, i, WakeCas(s.wait));
      var s2 := Goto(s1.(wait := s.wait - 1), i, Post);
      var t := Goto(s.(wait := s.wait - 1, sem := s.sem + 1), i, Out);
      assert Goto(s2.(sem := s2.sem + 1), i, Out) == t;
      assert Leads(t, i, 0, t);
      OneStep(s2, i, t, 0, t);
      OneStep(s1, i, s2, 1, t);
      OneStep(s, i, s1, 2, t);
    }
  }

  /** The lock of a dead holder can be taken away by any process outside, and a lock that is not the dead
      process's is left alone. */
  lemma ForcedUnlock(run: seq<State>, k: nat, i: nat, v: nat)
    requires IsRun(run) && k < |run| && i < |run[k].pcs| && v < |run[k].pcs| && run[k].pcs[i] == Out && run[k].pcs[v] == Dead
    ensures run[k].lock == v + 1 ==> Step(run[k], i, Goto(run[k].(lock := 0), i, WakeRead))
    ensures run[k].lock != v + 1 ==> Release(run[k], i, v) == Goto(run[k], i, Out)
    ensures run[k].lock == v + 1 ==> forall j | 0 <= j < |run[k].pcs| :: !Holds(run[k].pcs[j])
  {
    RunInv(run, k);
    if run[k].lock == v + 1 {
      assert Release(run[k], i, v) == Goto(run[k].(lock := 0), i, WakeRead);
    }
  }
}
