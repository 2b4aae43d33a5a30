/**
 What the work queue guarantees in every reachable state: no lost wake-up, first in first out,
 a safe tear-down, no deadlock, and that the queue drains.
 */
module WorkQueueGuarantees {
  import opened WorkQueue
  import opened WorkQueueInvariant
  import IntrusiveQueue

  // ---------- the guarantees ----------

  /**
   No wake-up is lost: while work is queued, _process_lock is up, or the worker is on its way to
   the queue, or a call that pushed has yet to signal. The same holds for the stop request. And
   although reading and posting the semaphore are two steps, its value never exceeds the number
   of threads.
   */
  lemma NoLostWakeup(tids: set<Tid>, actions: seq<Action>, ss: seq<State>)
    requires IsRun(tids, actions, ss)
    ensures
      var s := ss[|actions|];
      && (s.q != [] ==> s.value > 0 || Serving(s) || SomeSignalling(s))
      && (s.stop && (s.worker.Wait? || s.worker.Blocked?) ==> s.value > 0 || s.woken || SomeStopSignal(s))
      && s.value <= |s.calls|
  {
    InvReachable(tids, actions, ss);
  }

  /**
   Every push is handed to Run() once, taken out by Remove, or still queued, and never two of
   these; runs happen in push order. Queued items are attached.
   */
  lemma EveryPushIsServedInOrder(tids: set<Tid>, actions: seq<Action>, ss: seq<State>)
    requires IsRun(tids, actions, ss)
    ensures
      var s := ss[|actions|];
      && (forall n | 0 <= n < |s.log| ::
            || (n in s.ran && n !in s.removed && n !in s.q)
            || (n !in s.ran && n in s.removed && n !in s.q)
            || (n !in s.ran && n !in s.removed && n in s.q))
      && Increasing(s.ran) && Increasing(s.q)
      && (forall m, n | m in s.ran && n in s.q :: m < n)
      && (forall n | n in s.q :: n < |s.log| && s.log[n] in s.attached)
      && (s.stop ==> s.q == [] && s.attached == {})
  {
    InvReachable(tids, actions, ss);
    var s := ss[|actions|];
    if s.stop {
      StoppedIsEmpty(s);
    }
  }

  /** Queued items are attached, and a stop request comes with nothing attached. */
  lemma StoppedIsEmpty(s: State)
    requires Inv(s) && s.stop
    ensures s.q == []
  {
    SomethingQueued(s.q);
  }

  lemma SomethingQueued(q: seq<nat>)
    ensures q == [] || exists n :: n in q
  {
    assert q == [] || q[0] in q;
  }

  /**
   Tear-down: at most one Detach ever takes the exiting path, and once the destructor has
   destroyed the semaphores that Detach is over. What is then left of other calls is at most an
   Attach that has not got the lock.
   */
  lemma DestroyedOnlyAfterDetach(tids: set<Tid>, actions: seq<Action>, ss: seq<State>)
    requires IsRun(tids, actions, ss)
    ensures
      var s := ss[|actions|];
      && s.exits <= 1
      && (s.destroyed ==> forall t | t in s.calls :: s.calls[t].Idle? || s.calls[t].AttachLock?)
  {
    InvReachable(tids, actions, ss);
    var s := ss[|actions|];
    if s.destroyed {
      forall t | t in s.calls
        ensures s.calls[t].Idle? || s.calls[t].AttachLock?
      {
        assert CallOk(s, s.calls[t]) && ExitOk(s, s.calls[t]);
        assert !HoldsLock(s.calls[t]);
      }
    }
  }

  // ----- no deadlock

  /** Whoever holds the queue lock can go on, or waits for a Detach that needs no lock. */
  lemma LockHolderProceeds(s: State)
    requires Inv(s) && !s.lock.Free?
    ensures
      || (s.lock.Caller? && CanAdvance(s, s.lock.tid))
      || (s.lock.Worker? && CanWork(s))
      || (s.lock.Worker? && exists t :: t in s.calls && s.calls[t].DetachPostExit? && CanAdvance(s, t))
  {
    hide BindInv, AttachedInv, QueueInv, SemaphoreInv, WakeInv, StopWakeInv, HistoryInv, CountInv;
    if s.lock.Caller? {
      var t := s.lock.tid;
      if s.calls[t].DetachWaitExit? {
        HolderHasExitLock(s, t);
      }
    } else if s.worker.WaitExit? && s.exit == 0 {
      var t :| t in s.calls && Exiting(s.calls[t]);
      assert !HoldsLock(s.calls[t]);
      assert s.calls[t].DetachPostExit? && CanAdvance(s, t);
    }
  }

  lemma HolderHasExitLock(s: State, t: Tid)
    requires Inv(s) && t in s.calls && s.calls[t].DetachWaitExit?
    ensures s.exit > 0
  {
    assert ExitOk(s, s.calls[t]);
  }

  /** Nothing can move any more, short of a new call. */
  ghost predicate Quiet(s: State) {
    !CanWork(s) && forall t | t in s.calls :: !CanAdvance(s, t)
  }

  /**
   Without a new call the system only comes to rest with the queue drained, every call returned
   (but for an Attach that came after the destructor), and the worker finished if it was to stop.
   */
  lemma QuietMeansDrained(s: State)
    requires Inv(s) && Quiet(s)
    ensures s.q == []
    ensures s.stop ==> s.worker.Finished?
    ensures forall t | t in s.calls :: s.calls[t].Idle? || (s.calls[t].AttachLock? && s.worker.Finished?)
  {
    if !s.lock.Free? {
      LockHolderProceeds(s);
    }
    forall t | t in s.calls
      ensures s.calls[t].Idle? || (s.calls[t].AttachLock? && s.worker.Finished?)
    {
      assert !CanAdvance(s, t) && CallOk(s, s.calls[t]);
      assert !HoldsLock(s.calls[t]);
    }
    if s.stop {
      StoppedIsEmpty(s);
    }
    assert s.calls[WORKER].Idle? || s.worker.Finished?;
    assert !SomeSignalling(s) && !SomeStopSignal(s) && !SomeExiting(s);
  }

  // ----- and it does come to rest

  /** How many steps a call still has to go, at most. */
  function StepsLeft(pc: Pc): nat {
    match pc
    case Idle => 0
    case AttachLock(_) => 4 case AttachTest(_) => 3 case AttachUnlock(_, _) => 2 case AttachBind(_) => 1
    case AddLock(_) => 5 case AddPush(_) => 4 case AddUnlock(_) => 3 case AddRead(_) => 2 case AddPost(_) => 1
    case RemoveLock(_, _) => 11 case RemoveBody(_, _) => 10 case RemoveUnlock(_, _) => 9
    case DetachLock(_) => 8 case DetachBody(_) => 7 case DetachWaitExit => 6 case DetachStop => 5
    case DetachRead => 4 case DetachPost => 3 case DetachUnlock(_) => 2 case DetachPostExit => 1
  }

  function WorkerSteps(w: WorkerPc): nat {
    match w
    case UnlockToRun => 10 case Running => 9 case Relock => 8 case WaitLock => 8 case Test => 7 case Unlock => 6
    case Check => 5 case Wait => 1 case Blocked => 0
    case WantLock => 4 case WaitExit => 3 case Destroy => 2 case LastUnlock => 1 case Finished => 0
  }

  ghost function Load(calls: map<Tid, Pc>): nat
    decreases |calls|
  {
    if calls == map[] then 0
    else
      var t :| t in calls;
      StepsLeft(calls[t]) + Load(calls - {t})
  }

  lemma {:induction false} LoadPick(calls: map<Tid, Pc>, t: Tid)
    requires t in calls
    ensures Load(calls) == StepsLeft(calls[t]) + Load(calls - {t})
    decreases |calls|
  {
    var u :| u in calls && Load(calls) == StepsLeft(calls[u]) + Load(calls - {u});
    if u != t {
      LoadPick(calls - {u}, t);
      LoadPick(calls - {t}, u);
      assert calls - {u} - {t} == calls - {t} - {u};
    }
  }

  /** How often the worker will still pass its wait. */
  function Wakeups(s: State): int { s.value + if s.worker.Blocked? then 1 else 0 }

  ghost function Measure(s: State): int {
    10 * Load(s.calls) + 4 * |s.q| + 9 * Wakeups(s) + WorkerSteps(s.worker)
  }

  lemma LoadStep(s: State, s': State, t: Tid)
    requires OnlyCall(s, s', t) && StepsLeft(s'.calls[t]) < StepsLeft(s.calls[t])
    ensures Load(s'.calls) < Load(s.calls)
  {
    LoadPick(s.calls, t);
    LoadPick(s'.calls, t);
    assert s.calls - {t} == s'.calls - {t};
  }

  lemma {:induction false} OthersShorter(q: seq<nat>, log: seq<Item>, i: Item)
    ensures |Others(q, log, i)| <= |q|
  {
    if q != [] {
      OthersShorter(q[..|q| - 1], log, i);
    }
  }

  lemma EffectLength(s: State, t: Tid, pc: Pc)
    ensures |Effect(s, t, pc).q| <= |s.q| + if pc.AddPush? then 1 else 0
  {
    if pc.RemoveBody? {
      OthersShorter(s.q, s.log, pc.item);
    }
  }

  lemma CallsWindDown(s: State, t: Tid)
    requires CanAdvance(s, t)
    ensures Measure(StepCall(s, t)) < Measure(s)
  {
    var pc, s' := s.calls[t], StepCall(s, t);
    EffectSemaphore(s, t, pc);
    EffectLength(s, t, pc);
    EffectLock(s, t, pc);
    assert StepsLeft(NextPc(s, pc)) < StepsLeft(pc);
    LoadStep(s, s', t);
    hide Effect, NextPc, StepsLeft, Load;
  }

  lemma WorkerWindsDown(s: State)
    requires SemaphoreInv(s) && CanWork(s)
    ensures Measure(StepWorker(s)) < Measure(s)
  {
    WorkerKeepsCalls(s);
    hide Load;
  }

  /**
   The queue drains: from any reachable state, every way of carrying on without new calls is
   shorter than the measure of that state, and where it ends there is nothing left to run.
   */
  lemma {:induction false} QueueDrains(ss: seq<State>, actions: seq<Action>)
    requires |ss| == |actions| + 1 && Inv(ss[0])
    requires forall k | 0 <= k < |actions| ::
               Enabled(ss[k], actions[k]) && !IsBegin(actions[k]) && ss[k + 1] == Apply(ss[k], actions[k])
    ensures Inv(ss[|actions|])
    ensures |actions| <= Measure(ss[0]) - Measure(ss[|actions|])
    ensures 0 <= Measure(ss[|actions|])
    ensures Quiet(ss[|actions|]) ==> ss[|actions|].q == []
    decreases |actions|
  {
    hide Inv, Measure, Quiet, Apply;
    if actions != [] {
      var n := |actions| - 1;
      QueueDrains(ss[..n + 1], actions[..n]);
      assert Enabled(ss[n], actions[n]) && !IsBegin(actions[n]) && ss[n + 1] == Apply(ss[n], actions[n]);
      OneStepDown(ss[n], actions[n]);
    }
    MeasureNonNegative(ss[|actions|]);
    if Quiet(ss[|actions|]) {
      QuietMeansDrained(ss[|actions|]);
    }
  }

  lemma OneStepDown(s: State, a: Action)
    requires Inv(s) && Enabled(s, a) && !IsBegin(a)
    ensures Inv(Apply(s, a)) && Measure(Apply(s, a)) < Measure(s)
  {
    assert SemaphoreInv(s);
    hide Inv, Measure;
    match a
    case Advance(t) => InvCall(s, t); CallsWindDown(s, t);
    case Work => InvWork(s); WorkerWindsDown(s);
  }

  lemma MeasureNonNegative(s: State)
    requires Inv(s)
    ensures Measure(s) >= 0
  {
  }

  // ----- the last Detach stops the queue

  /** A call on the way from emptying the list of items to requesting the stop. */
  ghost predicate SomeStopAhead(s: State) {
    exists t :: t in s.calls && (s.calls[t].DetachWaitExit? || s.calls[t].DetachStop?)
  }

  ghost predicate StopsOrStopped(s: State) { s.stop || SomeStopAhead(s) }

  /** The list of attached items was emptied by the step from s to s'. */
  ghost predicate Empties(s: State, s': State) { s.attached != {} && s'.attached == {} }

  lemma CallEmpties(s: State, t: Tid)
    requires Inv(s) && CanAdvance(s, t) && Empties(s, StepCall(s, t))
    ensures StepCall(s, t).calls[t].DetachWaitExit?
  {
    assert QueueInv(s) && BindInv(s);
    hide Inv, QueueInv, BindInv, Queued;
    EffectItems(s, t, s.calls[t]);
    hide Effect;
  }

  /** Only a Detach empties the list, and it goes on to request the stop. */
  lemma EmptyingStops(s: State, a: Action)
    requires Inv(s) && Enabled(s, a) && Empties(s, Apply(s, a))
    ensures StopsOrStopped(Apply(s, a))
  {
    hide Inv;
    match a
    case Advance(t) =>
      CallEmpties(s, t);
      hide StepCall;
      assert SomeStopAhead(Apply(s, a));
    case Work => WorkerKeepsCalls(s);
    case _ =>
  }

  lemma CallKeepsStopping(s: State, t: Tid)
    requires CanAdvance(s, t) && StopsOrStopped(s)
    ensures StopsOrStopped(StepCall(s, t))
  {
    var s' := StepCall(s, t);
    EffectStop(s, t, s.calls[t]);
    if !s.stop {
      var u :| u in s.calls && (s.calls[u].DetachWaitExit? || s.calls[u].DetachStop?);
      hide Effect;
      assert s'.stop || (u in s'.calls && (s'.calls[u].DetachWaitExit? || s'.calls[u].DetachStop?));
    }
  }

  lemma StepKeepsStopping(s: State, a: Action)
    requires Inv(s) && Enabled(s, a) && StopsOrStopped(s)
    ensures StopsOrStopped(Apply(s, a))
  {
    hide Inv;
    match a
    case Advance(t) => CallKeepsStopping(s, t);
    case Work =>
      WorkerKeepsCalls(s);
      WorkerKeepsHistory(s);
      hide StepWorker;
    case _ =>
      if !s.stop {
        var u :| u in s.calls && (s.calls[u].DetachWaitExit? || s.calls[u].DetachStop?);
        assert u in Apply(s, a).calls && Apply(s, a).calls[u] == s.calls[u];
      }
  }

  /** At some step of the run the last attached item was detached. */
  ghost predicate WasEmptied(ss: seq<State>) { exists k :: EmptiedAt(ss, k) }

  ghost predicate EmptiedAt(ss: seq<State>, k: int) { 0 <= k < |ss| - 1 && Empties(ss[k], ss[k + 1]) }

  /**
   Detaching the last item ends the queue: from then on a stop is requested, or a call is about to
   request it, and nothing is attached any more.
   */
  lemma {:induction false} LastDetachStopsTheQueue(tids: set<Tid>, actions: seq<Action>, ss: seq<State>)
    requires IsRun(tids, actions, ss) && WasEmptied(ss)
    ensures StopsOrStopped(ss[|actions|])
    ensures ss[|actions|].attached == {}
    decreases |actions|
  {
    hide IsRun, Inv, Apply, Enabled, StopsOrStopped, Empties;
    RunLength(tids, actions, ss);
    var n := |actions| - 1;
    InvReachable(tids, actions, ss);
    var k :| EmptiedAt(ss, k);
    var before, states := actions[..n], ss[..n + 1];
    RunWithoutLast(tids, actions, ss);
    InvReachable(tids, before, states);
    if k < n {
      assert EmptiedAt(states, k);
      LastDetachStopsTheQueue(tids, before, states);
      StepKeepsStopping(ss[n], actions[n]);
    } else {
      EmptyingStops(ss[n], actions[n]);
    }
    NothingAttached(ss[|actions|]);
  }

  lemma NothingAttached(s: State)
    requires Inv(s) && StopsOrStopped(s)
    ensures s.attached == {}
  {
    assert StopInv(s);
    hide Inv;
    if !s.stop {
      var t :| t in s.calls && (s.calls[t].DetachWaitExit? || s.calls[t].DetachStop?);
      assert ExitOk(s, s.calls[t]);
    }
  }

  /** And it comes to its end: where nothing can move any more, the worker has finished, after one exit. */
  lemma EmptiedQueueFinishes(tids: set<Tid>, actions: seq<Action>, ss: seq<State>)
    requires IsRun(tids, actions, ss) && WasEmptied(ss) && Quiet(ss[|actions|])
    ensures
      var s := ss[|actions|];
      s.stop && s.worker.Finished? && s.destroyed && s.exits == 1
  {
    var s := ss[|actions|];
    InvReachable(tids, actions, ss);
    LastDetachStopsTheQueue(tids, actions, ss);
    hide IsRun;
    QuietMeansDrained(s);
    assert StopInv(s);
    hide Inv, Quiet, StopInv;
    assert s.stop by {
      assert !SomeStopAhead(s);
    }
    FinishedIsDestroyed(s);
  }

  lemma FinishedIsDestroyed(s: State)
    requires StopInv(s) && s.stop && s.worker.Finished?
    ensures s.destroyed && s.exits == 1
  {
  }

  // ----- the queue of the model is the linked queue

  ghost predicate Logged(q: seq<nat>, log: seq<Item>) {
    forall k | 0 <= k < |q| :: q[k] < |log|
  }

  function Items(q: seq<nat>, log: seq<Item>): (items: seq<Item>)
    requires Logged(q, log)
    ensures |items| == |q| && forall k | 0 <= k < |q| :: items[k] == log[q[k]]
  {
    seq(|q|, k requires 0 <= k < |q| => log[q[k]])
  }

  lemma {:induction false} OthersOfNone(q: seq<nat>, log: seq<Item>, i: Item)
    requires forall k | 0 <= k < |q| :: q[k] < |log| && log[q[k]] != i
    ensures Others(q, log, i) == q
  {
    if q != [] {
      OthersOfNone(q[..|q| - 1], log, i);
    }
  }

  lemma {:induction false} OthersOfOne(q: seq<nat>, log: seq<Item>, i: Item, k: nat)
    requires forall l | 0 <= l < |q| :: q[l] < |log| && (log[q[l]] == i <==> l == k)
    requires k < |q|
    ensures Others(q, log, i) == IntrusiveQueue.RemoveAt(q, k)
  {
    var n := |q| - 1;
    if k == n {
      OthersOfNone(q[..n], log, i);
    } else {
      OthersOfOne(q[..n], log, i, k);
    }
  }

  lemma AllLogged(s: State)
    requires QueueInv(s)
    ensures Logged(s.q, s.log)
  {
    forall k | 0 <= k < |s.q|
      ensures s.q[k] < |s.log|
    {
      assert s.q[k] in s.q;
    }
  }

  /** Push in the model is push() of the linked queue. */
  lemma PushIsPush(s: State, i: Item)
    requires QueueInv(s)
    ensures Logged(s.q, s.log) && Logged(Push(s, i).q, Push(s, i).log)
    ensures
      var items := Items(s.q, s.log);
      Items(Push(s, i).q, Push(s, i).log) == if i in items then items else items + [i]
  {
    AllLogged(s);
    var items := Items(s.q, s.log);
    if i in items {
      var k :| 0 <= k < |items| && items[k] == i;
      assert s.q[k] in s.q;
    }
  }

  lemma ItemsRemoveAt(q: seq<nat>, log: seq<Item>, k: nat)
    requires Logged(q, log) && k < |q|
    ensures Logged(IntrusiveQueue.RemoveAt(q, k), log)
    ensures Items(IntrusiveQueue.RemoveAt(q, k), log) == IntrusiveQueue.RemoveAt(Items(q, log), k)
  {
  }

  lemma QueuedOnce(s: State, k: nat, l: nat)
    requires QueueInv(s) && k < |s.q| && l < |s.q| && Logged(s.q, s.log) && s.log[s.q[k]] == s.log[s.q[l]]
    ensures k == l
  {
    assert s.q[k] in s.q && s.q[l] in s.q;
    assert s.q[k] == s.q[l];
  }

  /** Remove in the model is remove() of the linked queue: one node, or none. */
  lemma RemoveIsRemove(s: State, i: Item)
    requires QueueInv(s)
    ensures Logged(s.q, s.log) && Logged(Remove(s, i).q, s.log)
    ensures
      var items, left := Items(s.q, s.log), Items(Remove(s, i).q, s.log);
      if i in items then
        exists k | 0 <= k < |items| :: items[k] == i && left == IntrusiveQueue.RemoveAt(items, k)
      else left == items
  {
    AllLogged(s);
    var items := Items(s.q, s.log);
    if i in items {
      var k :| 0 <= k < |items| && items[k] == i;
      forall l | 0 <= l < |s.q| && s.log[s.q[l]] == i
        ensures l == k
      {
        QueuedOnce(s, k, l);
      }
      hide QueueInv, Others, IntrusiveQueue.RemoveAt;
      OthersOfOne(s.q, s.log, i, k);
      ItemsRemoveAt(s.q, s.log, k);
    } else {
      assert forall l | 0 <= l < |s.q| :: items[l] in items;
      OthersOfNone(s.q, s.log, i);
    }
  }
}
