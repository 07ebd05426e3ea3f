/** The thread pool as a step system.  The event loop posts tasks and delivers
    completions; workers take tasks from the queue, run them and put them on the
    list of done tasks.  What a thread does while it holds the pool's mutex or the
    spin lock of the done list is one step; waiting on the condition variable
    gives the mutex up, a signal wakes one sleeper if there is any, and a sleeper
    may also wake up without a signal. */
module ThreadPool {

  datatype Worker =
    | Start          // before taking the mutex at the top of its loop
    | Asleep         // in cond_wait, not signalled
    | Woken          // in cond_wait, signalled, to take the mutex again
    | Running(t: nat)
    | Finished(t: nat)
    | Notifying      // has put its task on the done list, before ngx_notify

  /** `posted`, `started`, `finished` and `delivered` record what has happened so far. */
  datatype State = State(queue: seq<nat>, waiting: int, maxQueue: nat, workers: seq<Worker>,
                         done: seq<nat>, batch: seq<nat>, active: set<nat>, notified: bool,
                         posted: seq<nat>, started: seq<nat>, finished: seq<nat>, delivered: seq<nat>)

  predicate Init(s: State) {
    && s.queue == [] && s.waiting == 0 && s.done == [] && s.batch == [] && s.active == {} && !s.notified
    && s.posted == [] && s.started == [] && s.finished == [] && s.delivered == []
    && forall i | 0 <= i < |s.workers| :: s.workers[i] == Start
  }

  function Set(s: State, i: nat, w: Worker): State
    requires i < |s.workers|
  {
    s.(workers := s.workers[i := w])
  }

  /** Posting task `t`, refused while it is active or too many tasks wait; `wake` is the sleeper that
      the signal wakes up. */
  ghost predicate Post(s: State, t: nat, wake: nat, s': State) {
    if t in s.active || s.waiting >= s.maxQueue then s' == s
    else
      var s1 := s.(active := s.active + {t}, queue := s.queue + [t], waiting := s.waiting + 1, posted := s.posted + [t]);
      if exists i :: 0 <= i < |s.workers| && s.workers[i] == Asleep then
        wake < |s.workers| && s.workers[wake] == Asleep && s' == Set(s1, wake, Woken)
      else s' == s1
  }

  /** What a worker that has the mutex does: take the first task, or go to sleep. */
  function Take(s: State, i: nat): State
    requires i < |s.workers|
  {
    if s.queue == [] then Set(s, i, Asleep)
    else Set(s.(queue := s.queue[1..], started := s.started + [s.queue[0]]), i, Running(s.queue[0]))
  }

  ghost predicate Work(s: State, i: nat, s': State)
    requires i < |s.workers|
  {
    match s.workers[i]
    case Start => s' == Take(s.(waiting := s.waiting - 1), i)
    case Asleep => s' == Set(s, i, Woken)
    case Woken => s' == Take(s, i)
    case Running(t) => s' == Set(s, i, Finished(t))
    case Finished(t) => s' == Set(s.(done := s.done + [t], finished := s.finished + [t]), i, Notifying)
    case Notifying => s' == Set(s.(notified := true), i, Start)
  }

  /** The handler takes the whole done list. */
  predicate Collect(s: State, s': State) {
    s.notified && s.batch == [] && s' == s.(batch := s.done, done := [], notified := false)
  }

  /** The handler completes the first task of its batch. */
  predicate Deliver(s: State, s': State) {
    s.batch != [] &&
    s' == s.(batch := s.batch[1..], active := s.active - {s.batch[0]}, delivered := s.delivered + [s.batch[0]])
  }

  ghost predicate Next(s: State, s': State) {
    || (exists t, wake: nat :: Post(s, t, wake, s'))
    || (exists i: nat :: i < |s.workers| && Work(s, i, s'))
    || Collect(s, s') || Deliver(s, s')
  }

  /** A post is refused for a task that is active or with too many tasks waiting, and changes nothing then;
      otherwise it can be made, it puts it last, and a worker that slept is woken. */
  lemma PostAccepted(s: State, t: nat) returns (wake: nat, s': State)
    ensures Post(s, t, wake, s')
    ensures t in s.active || s.waiting >= s.maxQueue ==> s' == s
    ensures t !in s.active && s.waiting < s.maxQueue ==>
              && s'.posted == s.posted + [t] && s'.queue == s.queue + [t] && s'.active == s.active + {t}
              && s'.waiting == s.waiting + 1 && |s'.workers| == |s.workers|
              && ((exists i :: 0 <= i < |s.workers| && s.workers[i] == Asleep) ==>
                    wake < |s.workers| && s.workers[wake] == Asleep && s'.workers == s.workers[wake := Woken])
  {
    wake := 0;
    if t in s.active || s.waiting >= s.maxQueue {
      return wake, s;
    }
    s' := s.(active := s.active + {t}, queue := s.queue + [t], waiting := s.waiting + 1, posted := s.posted + [t]);
    if i :| 0 <= i < |s.workers| && s.workers[i] == Asleep {
      wake := i;
      s' := Set(s', i, Woken);
    }
  }

  lemma PostOnly(s: State, t: nat, wake: nat, s': State)
    requires Post(s, t, wake, s')
    ensures if t in s.active || s.waiting >= s.maxQueue then s' == s
            else s'.posted == s.posted + [t] && s'.queue == s.queue + [t] && s'.active == s.active + {t} && s'.waiting == s.waiting + 1
  {
  }

  // ---- Counting over the workers ----

  function HeldBy(w: Worker, t: nat): nat {
    if (w.Running? || w.Finished?) && w.t == t then 1 else 0
  }

  /** How many workers hold task `t`. */
  function Held(ws: seq<Worker>, t: nat): nat {
    if ws == [] then 0 else HeldBy(ws[0], t) + Held(ws[1..], t)
  }

  /** Workers that have counted themselves off `waiting` and not taken a task. */
  function Idle(ws: seq<Worker>): nat {
    if ws == [] then 0 else (if ws[0].Asleep? || ws[0].Woken? then 1 else 0) + Idle(ws[1..])
  }

  function WokenCount(ws: seq<Worker>): nat {
    if ws == [] then 0 else (if ws[0].Woken? then 1 else 0) + WokenCount(ws[1..])
  }

  lemma {:induction false} UpdateHeld(ws: seq<Worker>, i: nat, w: Worker, t: nat)
    requires i < |ws|
    ensures Held(ws[i := w], t) == Held(ws, t) - HeldBy(ws[i], t) + HeldBy(w, t)
  {
    if i == 0 {
      assert ws[0 := w][1..] == ws[1..];
    } else {
      assert ws[i := w][1..] == ws[1..][i - 1 := w];
      UpdateHeld(ws[1..], i - 1, w, t);
    }
  }

  lemma {:induction false} UpdateCounts(ws: seq<Worker>, i: nat, w: Worker)
    requires i < |ws|
    ensures Idle(ws[i := w]) == Idle(ws) - (if ws[i].Asleep? || ws[i].Woken? then 1 else 0)
                                + (if w.Asleep? || w.Woken? then 1 else 0)
    ensures WokenCount(ws[i := w]) == WokenCount(ws) - (if ws[i].Woken? then 1 else 0) + (if w.Woken? then 1 else 0)
  {
    if i == 0 {
      assert ws[0 := w][1..] == ws[1..];
    } else {
      assert ws[i := w][1..] == ws[1..][i - 1 := w];
      UpdateCounts(ws[1..], i - 1, w);
    }
  }

  lemma {:induction false} WokenExists(ws: seq<Worker>) returns (i: nat)
    requires WokenCount(ws) > 0
    ensures i < |ws| && ws[i] == Woken
  {
    if ws[0].Woken? {
      i := 0;
    } else {
      i := WokenExists(ws[1..]);
      i := i + 1;
    }
  }

  // ---- What holds in every state ----

  /** How many times task `t` is in the queue, with a worker, on the done list or in the batch. */
  ghost function Copies(s: State, t: nat): nat {
    multiset(s.queue)[t] + Held(s.workers, t) + multiset(s.done)[t] + multiset(s.batch)[t]
  }

  /** Every active task is in exactly one of these places, and no other task is in any. */
  ghost predicate OnePlace(s: State) {
    forall t: nat :: Copies(s, t) == if t in s.active then 1 else 0
  }

  /** The counter of waiting tasks, which may be negative: workers count themselves off before they
      have a task. */
  ghost predicate WaitingOk(s: State) {
    s.waiting == |s.queue| - Idle(s.workers) && s.waiting <= s.maxQueue
  }

  ghost predicate AnyAsleep(ws: seq<Worker>) {
    exists i :: 0 <= i < |ws| && ws[i] == Asleep
  }

  ghost predicate AnyNotifying(ws: seq<Worker>) {
    exists i :: 0 <= i < |ws| && ws[i] == Notifying
  }

  /** While a worker sleeps unsignalled, there are as many signalled ones as queued tasks. */
  ghost predicate SignalsOk(s: State) {
    AnyAsleep(s.workers) ==> WokenCount(s.workers) >= |s.queue|
  }

  /** A done task has a notification under way. */
  ghost predicate NotifyOk(s: State) {
    s.done != [] ==> s.notified || AnyNotifying(s.workers)
  }

  /** Tasks start in the order they were posted, and are delivered in the order they finished. */
  ghost predicate InOrder(s: State) {
    s.posted == s.started + s.queue && s.finished == s.delivered + s.batch + s.done
  }

  /** A task is run as often as it was taken from the queue, or a worker still has it. */
  ghost predicate RunOnce(s: State) {
    forall t: nat :: Taken(s, t) == Ran(s, t) + Held(s.workers, t)
  }

  ghost function Taken(s: State, t: nat): nat {
    multiset(s.started)[t]
  }

  ghost function Ran(s: State, t: nat): nat {
    multiset(s.finished)[t]
  }

  ghost predicate Inv(s: State) {
    OnePlace(s) && WaitingOk(s) && SignalsOk(s) && NotifyOk(s) && InOrder(s) && RunOnce(s)
  }

  // ---- Each step keeps them ----

  lemma {:induction false} AllStart(ws: seq<Worker>, t: nat)
    requires forall i | 0 <= i < |ws| :: ws[i] == Start
    ensures Held(ws, t) == 0 && Idle(ws) == 0
  {
    if ws != [] {
      assert forall i | 0 <= i < |ws| - 1 :: ws[1..][i] == ws[i + 1];
      AllStart(ws[1..], t);
    }
  }

  lemma InitInv(s: State)
    requires Init(s)
    ensures Inv(s)
  {
    AllStart(s.workers, 0);
    forall t: nat
      ensures Copies(s, t) == 0 && Taken(s, t) == Ran(s, t) + Held(s.workers, t)
    {
      AllStart(s.workers, t);
    }
  }

  lemma PushCount(q: seq<nat>, x: nat, t: nat)
    ensures multiset(q + [x])[t] == multiset(q)[t] + if x == t then 1 else 0
  {
  }

  lemma PopCount(q: seq<nat>, t: nat)
    requires q != []
    ensures multiset(q)[t] == multiset(q[1..])[t] + if q[0] == t then 1 else 0
  {
    assert q == [q[0]] + q[1..];
  }

  lemma Stays(ws: seq<Worker>, i: nat, w: Worker)
    requires i < |ws|
    ensures ws[i] != Notifying && AnyNotifying(ws) ==> AnyNotifying(ws[i := w])
    ensures w != Asleep && AnyAsleep(ws[i := w]) ==> AnyAsleep(ws)
  {
    if ws[i] != Notifying && AnyNotifying(ws) {
      var j :| 0 <= j < |ws| && ws[j] == Notifying;
      assert ws[i := w][j] == Notifying;
    }
    if w != Asleep && AnyAsleep(ws[i := w]) {
      var j :| 0 <= j < |ws| && ws[i := w][j] == Asleep;
      assert ws[j] == Asleep;
    }
  }

  lemma PostOnePlace(s: State, t: nat, wake: nat, s': State)
    requires OnePlace(s) && Post(s, t, wake, s')
    ensures OnePlace(s')
  {
    forall u: nat
      ensures Copies(s', u) == if u in s'.active then 1 else 0
    {
      assert Copies(s, u) == if u in s.active then 1 else 0;
      PushCount(s.queue, t, u);
      if wake < |s.workers| && s.workers[wake] == Asleep {
        UpdateHeld(s.workers, wake, Woken, u);
      }
    }
  }

  lemma TakeRunOnce(s: State, i: nat, s': State, u: nat)
    requires i < |s.workers| && (s.workers[i] == Start || s.workers[i] == Woken) && Work(s, i, s')
    requires Taken(s, u) == Ran(s, u) + Held(s.workers, u)
    ensures Taken(s', u) == Ran(s', u) + Held(s'.workers, u)
  {
    UpdateHeld(s.workers, i, s'.workers[i], u);
    if s.queue != [] {
      PushCount(s.started, s.queue[0], u);
    }
  }

  lemma MoveRunOnce(s: State, i: nat, s': State, u: nat)
    requires i < |s.workers| && s.workers[i] != Start && s.workers[i] != Woken && Work(s, i, s')
    requires Taken(s, u) == Ran(s, u) + Held(s.workers, u)
    ensures Taken(s', u) == Ran(s', u) + Held(s'.workers, u)
  {
    UpdateHeld(s.workers, i, s'.workers[i], u);
    if s.workers[i].Finished? {
      PushCount(s.finished, s.workers[i].t, u);
    }
  }

  lemma NextRunOnce(s: State, i: nat, s': State)
    requires RunOnce(s) && i < |s.workers| && Work(s, i, s')
    ensures RunOnce(s')
  {
    forall u: nat
      ensures Taken(s', u) == Ran(s', u) + Held(s'.workers, u)
    {
      assert Taken(s, u) == Ran(s, u) + Held(s.workers, u);
      if s.workers[i] == Start || s.workers[i] == Woken {
        TakeRunOnce(s, i, s', u);
      } else {
        MoveRunOnce(s, i, s', u);
      }
    }
  }

  lemma PostRunOnce(s: State, t: nat, wake: nat, s': State)
    requires RunOnce(s) && Post(s, t, wake, s')
    ensures RunOnce(s')
  {
    forall u: nat
      ensures Taken(s', u) == Ran(s', u) + Held(s'.workers, u)
    {
      assert Taken(s, u) == Ran(s, u) + Held(s.workers, u);
      if wake < |s.workers| && s.workers[wake] == Asleep {
        UpdateHeld(s.workers, wake, Woken, u);
      }
    }
  }

  lemma PostInv(s: State, t: nat, wake: nat, s': State)
    requires Inv(s) && Post(s, t, wake, s')
    ensures Inv(s')
  {
    PostOnePlace(s, t, wake, s');
    PostRunOnce(s, t, wake, s');
    if wake < |s.workers| && s.workers[wake] == Asleep {
      UpdateCounts(s.workers, wake, Woken);
      Stays(s.workers, wake, Woken);
    }
  }

  lemma TakeOnePlace(s: State, i: nat)
    requires i < |s.workers| && OnePlace(s) && (s.workers[i] == Woken || s.workers[i] == Start)
    ensures OnePlace(Take(s, i))
  {
    var s' := Take(s, i);
    forall u: nat
      ensures Copies(s', u) == if u in s'.active then 1 else 0
    {
      assert Copies(s, u) == if u in s.active then 1 else 0;
      UpdateHeld(s.workers, i, s'.workers[i], u);
      if s.queue != [] {
        PopCount(s.queue, u);
      }
    }
  }

  /** On both ways to a task `waiting` has left out worker `i`: `idle` counts the workers it leaves out. */
  lemma TakeInv(s: State, i: nat, idle: nat)
    requires i < |s.workers| && OnePlace(s) && SignalsOk(s) && NotifyOk(s) && InOrder(s)
    requires (s.workers[i] == Woken && idle == Idle(s.workers)) || (s.workers[i] == Start && idle == Idle(s.workers) + 1)
    requires s.waiting == |s.queue| - idle && s.waiting <= s.maxQueue
    ensures var s' := Take(s, i); OnePlace(s') && WaitingOk(s') && SignalsOk(s') && NotifyOk(s') && InOrder(s')
  {
    var s' := Take(s, i);
    TakeOnePlace(s, i);
    UpdateCounts(s.workers, i, s'.workers[i]);
    Stays(s.workers, i, s'.workers[i]);
    if s.queue != [] {
      assert s.started + s.queue == (s.started + [s.queue[0]]) + s.queue[1..];
    }
  }

  lemma MoveOnePlace(s: State, i: nat, s': State)
    requires OnePlace(s) && i < |s.workers| && Work(s, i, s') && s.workers[i] != Start && s.workers[i] != Woken
    ensures OnePlace(s')
  {
    forall u: nat
      ensures Copies(s', u) == if u in s'.active then 1 else 0
    {
      assert Copies(s, u) == if u in s.active then 1 else 0;
      UpdateHeld(s.workers, i, s'.workers[i], u);
      if s.workers[i].Finished? {
        PushCount(s.done, s.workers[i].t, u);
      }
    }
  }

  lemma WorkOnePlace(s: State, i: nat, s': State)
    requires OnePlace(s) && i < |s.workers| && Work(s, i, s')
    ensures OnePlace(s')
  {
    if s.workers[i] == Start {
      TakeOnePlaceAfter(s, i);
    } else if s.workers[i] == Woken {
      TakeOnePlace(s, i);
    } else {
      MoveOnePlace(s, i, s');
    }
  }

  lemma TakeOnePlaceAfter(s: State, i: nat)
    requires i < |s.workers| && OnePlace(s) && s.workers[i] == Start
    ensures OnePlace(s.(waiting := s.waiting - 1))
    ensures OnePlace(Take(s.(waiting := s.waiting - 1), i))
  {
    var s1 := s.(waiting := s.waiting - 1);
    assert forall u: nat :: Copies(s1, u) == Copies(s, u);
    TakeOnePlace(s1, i);
  }

  lemma WorkInv(s: State, i: nat, s': State)
    requires Inv(s) && i < |s.workers| && Work(s, i, s')
    ensures Inv(s')
  {
    WorkOnePlace(s, i, s');
    NextRunOnce(s, i, s');
    if s.workers[i] == Start {
      TakeOnePlaceAfter(s, i);
      TakeInv(s.(waiting := s.waiting - 1), i, Idle(s.workers) + 1);
    } else if s.workers[i] == Woken {
      TakeInv(s, i, Idle(s.workers));
    } else {
      UpdateCounts(s.workers, i, s'.workers[i]);
      Stays(s.workers, i, s'.workers[i]);
      if s.workers[i].Finished? {
        assert s'.workers[i] == Notifying;
        assert (s.delivered + s.batch + s.done) + [s.workers[i].t] == s.delivered + s.batch + s'.done;
      }
    }
  }

  lemma CollectInv(s: State, s': State)
    requires Inv(s) && Collect(s, s')
    ensures Inv(s')
  {
    forall u: nat
      ensures Copies(s', u) == if u in s'.active then 1 else 0
    {
      assert Copies(s, u) == if u in s.active then 1 else 0;
    }
    assert s.delivered + [] + s.done == s.delivered + s.done + [];
    assert forall u: nat :: Taken(s', u) == Taken(s, u);
  }

  lemma DeliverInv(s: State, s': State)
    requires Inv(s) && Deliver(s, s')
    ensures Inv(s')
  {
    forall u: nat
      ensures Copies(s', u) == if u in s'.active then 1 else 0
    {
      assert Copies(s, u) == if u in s.active then 1 else 0;
      PopCount(s.batch, u);
    }
    assert s.delivered + s.batch + s.done == (s.delivered + [s.batch[0]]) + s.batch[1..] + s.done;
    assert forall u: nat :: Taken(s', u) == Taken(s, u);
  }

  lemma NextInv(s: State, s': State)
    requires Inv(s) && Next(s, s')
    ensures Inv(s')
  {
    if Collect(s, s') {
      CollectInv(s, s');
    } else if Deliver(s, s') {
      DeliverInv(s, s');
    } else if exists i: nat :: i < |s.workers| && Work(s, i, s') {
      var i: nat :| i < |s.workers| && Work(s, i, s');
      WorkInv(s, i, s');
    } else {
      var t: nat, wake: nat :| Post(s, t, wake, s');
      PostInv(s, t, wake, s');
    }
  }

  ghost predicate Run(ss: seq<State>) {
    |ss| > 0 && Init(ss[0]) && forall i | 0 <= i < |ss| - 1 :: Steps(ss, i)
  }

  ghost predicate Steps(ss: seq<State>, i: nat)
    requires i + 1 < |ss|
  {
    Next(ss[i], ss[i + 1])
  }

  lemma {:induction false} RunInv(ss: seq<State>, n: nat)
    requires Run(ss) && n < |ss|
    ensures Inv(ss[n])
  {
    if n == 0 {
      InitInv(ss[0]);
    } else {
      RunInv(ss, n - 1);
      assert Steps(ss, n - 1);
      NextInv(ss[n - 1], ss[n]);
    }
  }

  // ---- What follows for whole runs ----

  lemma ConcatCount(a: seq<nat>, b: seq<nat>, t: nat)
    ensures multiset(a + b)[t] == multiset(a)[t] + multiset(b)[t]
  {
  }

  /** In every state of every run a task has been delivered as often as it was accepted, but for the one
      time that is still under way when it is active. */
  lemma Conservation(ss: seq<State>, n: nat, t: nat)
    requires Run(ss) && n < |ss|
    ensures multiset(ss[n].posted)[t] == multiset(ss[n].delivered)[t] + if t in ss[n].active then 1 else 0
  {
    RunInv(ss, n);
    var s := ss[n];
    assert Copies(s, t) == if t in s.active then 1 else 0;
    assert Taken(s, t) == Ran(s, t) + Held(s.workers, t);
    ConcatCount(s.started, s.queue, t);
    ConcatCount(s.delivered + s.batch, s.done, t);
    ConcatCount(s.delivered, s.batch, t);
  }

  lemma {:induction false} IdleBound(ws: seq<Worker>)
    ensures Idle(ws) <= |ws|
  {
    if ws != [] {
      IdleBound(ws[1..]);
    }
  }

  /** The queue never holds more than its limit and one task for each worker. */
  lemma QueueBound(ss: seq<State>, n: nat)
    requires Run(ss) && n < |ss|
    ensures |ss[n].queue| <= ss[n].maxQueue + |ss[n].workers|
  {
    RunInv(ss, n);
    IdleBound(ss[n].workers);
  }

  /** Tasks are taken in the order in which they were posted. */
  lemma FirstInFirstTaken(ss: seq<State>, n: nat)
    requires Run(ss) && n < |ss|
    ensures ss[n].started <= ss[n].posted && ss[n].delivered <= ss[n].finished
  {
    RunInv(ss, n);
  }

  // ---- Nothing is lost: once posting stops, all is delivered ----

  /** Steps other than posting and waking up without a signal. */
  ghost predicate Progress(s: State, s': State) {
    || (exists i: nat :: i < |s.workers| && s.workers[i] != Asleep && Work(s, i, s'))
    || Collect(s, s') || Deliver(s, s')
  }

  function Weight(w: Worker): nat {
    match w
    case Asleep => 0
    case Start => 1
    case Woken => 1
    case Notifying => 3
    case Finished(_) => 5
    case Running(_) => 6
  }

  function Weights(ws: seq<Worker>): nat {
    if ws == [] then 0 else Weight(ws[0]) + Weights(ws[1..])
  }

  function ToDo(s: State): nat {
    6 * |s.queue| + Weights(s.workers) + |s.done| + |s.batch| + if s.notified then 1 else 0
  }

  lemma {:induction false} UpdateWeights(ws: seq<Worker>, i: nat, w: Worker)
    requires i < |ws|
    ensures Weights(ws[i := w]) == Weights(ws) - Weight(ws[i]) + Weight(w)
  {
    if i == 0 {
      assert ws[0 := w][1..] == ws[1..];
    } else {
      assert ws[i := w][1..] == ws[1..][i - 1 := w];
      UpdateWeights(ws[1..], i - 1, w);
    }
  }

  lemma ProgressLowers(s: State, s': State)
    requires Progress(s, s')
    ensures ToDo(s') < ToDo(s)
  {
    if !Collect(s, s') && !Deliver(s, s') {
      var i: nat :| i < |s.workers| && s.workers[i] != Asleep && Work(s, i, s');
      UpdateWeights(s.workers, i, s'.workers[i]);
    }
  }

  /** Without posts the pool comes to rest: no run of other steps is longer than the work at its start. */
  lemma {:induction false} ComesToRest(ss: seq<State>)
    requires |ss| > 0 && forall i | 0 <= i < |ss| - 1 :: ProgressAt(ss, i)
    ensures |ss| - 1 + ToDo(ss[|ss| - 1]) <= ToDo(ss[0])
  {
    if |ss| > 1 {
      var rest := ss[..|ss| - 1];
      assert forall i | 0 <= i < |rest| - 1 :: ProgressAt(ss, i) ==> ProgressAt(rest, i);
      ComesToRest(rest);
      assert ProgressAt(ss, |ss| - 2);
      ProgressLowers(ss[|ss| - 2], ss[|ss| - 1]);
    }
  }

  ghost predicate ProgressAt(ss: seq<State>, i: nat)
    requires i + 1 < |ss|
  {
    Progress(ss[i], ss[i + 1])
  }

  lemma {:induction false} AllAsleep(ws: seq<Worker>, t: nat)
    requires forall i | 0 <= i < |ws| :: ws[i] == Asleep
    ensures Held(ws, t) == 0 && WokenCount(ws) == 0 && !AnyNotifying(ws)
  {
    if ws != [] {
      assert forall i | 0 <= i < |ws| - 1 :: ws[1..][i] == ws[i + 1];
      AllAsleep(ws[1..], t);
    }
  }

  /** The step a worker that is not asleep can take. */
  lemma WorkerMoves(s: State, i: nat)
    requires i < |s.workers| && s.workers[i] != Asleep
    ensures exists s' :: Progress(s, s')
  {
    var w := s.workers[i];
    var s' :=
      if w == Start then Take(s.(waiting := s.waiting - 1), i)
      else if w == Woken then Take(s, i)
      else if w.Running? then Set(s, i, Finished(w.t))
      else if w.Finished? then Set(s.(done := s.done + [w.t], finished := s.finished + [w.t]), i, Notifying)
      else Set(s.(notified := true), i, Start);
    assert Work(s, i, s');
    assert Progress(s, s');
  }

  /** It comes to rest only when everything is delivered: a reachable state of a pool with workers from
      which no such step leads on has no active task, and every accepted task was delivered. */
  lemma RestMeansDelivered(ss: seq<State>, n: nat)
    requires Run(ss) && n < |ss| && ss[n].workers != [] && !exists s' :: Progress(ss[n], s')
    ensures ss[n].active == {} && multiset(ss[n].posted) == multiset(ss[n].delivered)
  {
    var s := ss[n];
    RunInv(ss, n);
    forall i | 0 <= i < |s.workers|
      ensures s.workers[i] == Asleep
    {
      if s.workers[i] != Asleep {
        WorkerMoves(s, i);
      }
    }
    assert s.batch != [] ==>
      Progress(s, s.(batch := s.batch[1..], active := s.active - {s.batch[0]}, delivered := s.delivered + [s.batch[0]]));
    assert s.notified && s.batch == [] ==> Progress(s, s.(batch := s.done, done := [], notified := false));
    AllAsleep(s.workers, 0);
    assert s.workers[0] == Asleep;
    forall t: nat
      ensures t !in s.active && multiset(s.posted)[t] == multiset(s.delivered)[t]
    {
      AllAsleep(s.workers, t);
      assert Copies(s, t) == if t in s.active then 1 else 0;
      Conservation(ss, n, t);
    }
  }
}
