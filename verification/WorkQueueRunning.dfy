/**
 The item that the worker has taken from the queue and runs without the lock: it is attached, until
 a Detach takes it out; and exactly when that can happen.
 */
module WorkQueueRunning {
  import opened WorkQueue
  import opened WorkQueueInvariant

  // ---------- the item in hand ----------

  /** The worker has popped an item and is not yet back from its Run(). */
  predicate Handling(s: State) { s.worker.UnlockToRun? || s.worker.Running? }

  ghost predicate HasCurrent(s: State) { s.ran != [] && s.ran[|s.ran| - 1] < |s.log| }

  ghost function CurrentItem(s: State): Item
    requires HasCurrent(s)
  {
    s.log[s.ran[|s.ran| - 1]]
  }

  ghost predicate CurrentAttached(s: State)
    requires HasCurrent(s)
  {
    CurrentItem(s) in s.attached
  }

  /** The step takes the item in hand out of the attached ones. */
  ghost predicate DetachesCurrent(s: State, a: Action)
    requires HasCurrent(s)
  {
    a.Advance? && a.tid in s.calls && s.calls[a.tid] == DetachBody(CurrentItem(s))
  }

  /** What a call does to the log and to the runs: at most one more push. */
  lemma EffectLog(s: State, t: Tid, pc: Pc)
    ensures Effect(s, t, pc).ran == s.ran && s.log <= Effect(s, t, pc).log
  {
  }

  lemma StepKeepsCurrent(s: State, a: Action)
    requires Enabled(s, a) && Handling(s) && HasCurrent(s) && Handling(Apply(s, a))
    ensures HasCurrent(Apply(s, a)) && CurrentItem(Apply(s, a)) == CurrentItem(s) && Apply(s, a).ran == s.ran
  {
    match a
    case Advance(t) =>
      EffectLog(s, t, s.calls[t]);
      hide Effect, NextPc;
    case _ =>
  }

  /** While the worker has an item in hand, exactly one kind of step can detach it: a Detach of that item. */
  lemma OnlyDetachLosesCurrent(s: State, a: Action)
    requires Inv(s) && Enabled(s, a) && Handling(s) && HasCurrent(s) && CurrentAttached(s) && Handling(Apply(s, a))
    ensures HasCurrent(Apply(s, a))
    ensures !CurrentAttached(Apply(s, a)) <==> DetachesCurrent(s, a)
  {
    StepKeepsCurrent(s, a);
    match a
    case Advance(t) =>
      EffectItems(s, t, s.calls[t]);
      hide Inv, Effect, NextPc, Queued, Enabled;
    case _ =>
  }

  /** Such a step finds the worker in the item's Run(), past its unlock. */
  lemma DetachMeetsRun(s: State, a: Action)
    requires Inv(s) && Handling(s) && HasCurrent(s) && DetachesCurrent(s, a)
    ensures s.worker.Running?
  {
    assert LockInv(s);
    hide Inv;
    assert HoldsLock(s.calls[a.tid]);
  }

  /** An item is attached when the worker pops it. */
  lemma PoppedIsAttached(s: State)
    requires Inv(s) && CanWork(s) && !Handling(s) && Handling(StepWorker(s))
    ensures HasCurrent(StepWorker(s)) && CurrentAttached(StepWorker(s))
  {
    assert QueueInv(s);
    hide Inv;
    assert s.worker.Test? && s.q[0] in s.q;
  }

  // ---------- over whole runs ----------

  /** Action k of the run detached the item that the worker had in hand, and that it still has in hand at the end. */
  ghost predicate DetachedAt(actions: seq<Action>, ss: seq<State>, k: int) {
    && |ss| == |actions| + 1 && 0 <= k < |actions|
    && ss[k].worker.Running? && ss[k].ran == ss[|actions|].ran
    && HasCurrent(ss[k]) && DetachesCurrent(ss[k], actions[k])
  }

  ghost predicate WasDetached(actions: seq<Action>, ss: seq<State>) { exists k :: DetachedAt(actions, ss, k) }

  lemma NotHandlingBefore(s: State, a: Action)
    requires Enabled(s, a) && !Handling(s) && Handling(Apply(s, a))
    ensures a == Work
  {
    match a
    case Advance(t) => EffectLock(s, t, s.calls[t]);
    case _ =>
  }

  /**
   In every reachable state, the item in hand is attached, unless some thread's Detach of that very
   item came during its Run().
   */
  lemma {:induction false} CurrentIsAttachedUnlessDetached(tids: set<Tid>, actions: seq<Action>, ss: seq<State>)
    requires IsRun(tids, actions, ss)
    ensures
      var s := ss[|actions|];
      Handling(s) ==> HasCurrent(s) && (CurrentAttached(s) || WasDetached(actions, ss))
    decreases |actions|
  {
    hide IsRun, Inv, Apply, Enabled, DetachedAt, WasDetached, HasCurrent, CurrentAttached;
    RunLength(tids, actions, ss);
    if actions == [] {
      RunStart(tids, ss);
    }
    if actions != [] && Handling(ss[|actions|]) {
      var n := |actions| - 1;
      var before, states := actions[..n], ss[..n + 1];
      RunWithoutLast(tids, actions, ss);
      InvReachable(tids, before, states);
      CurrentIsAttachedUnlessDetached(tids, before, states);
      LastStep(actions, ss, ss[n], actions[n]);
    }
  }

  lemma RunStart(tids: set<Tid>, ss: seq<State>)
    requires IsRun(tids, [], ss)
    ensures ss[0].worker == Check
  {
  }

  lemma LastStep(actions: seq<Action>, ss: seq<State>, s: State, a: Action)
    requires |ss| == |actions| + 1 && actions != [] && s == ss[|actions| - 1] && a == actions[|actions| - 1]
    requires Inv(s) && Enabled(s, a) && ss[|actions|] == Apply(s, a) && Handling(Apply(s, a))
    requires Handling(s) ==>
               HasCurrent(s) && (CurrentAttached(s) || WasDetached(actions[..|actions| - 1], ss[..|actions|]))
    ensures HasCurrent(Apply(s, a))
    ensures CurrentAttached(Apply(s, a)) || WasDetached(actions, ss)
  {
    hide Inv, Apply, Enabled;
    var n := |actions| - 1;
    if !Handling(s) {
      NotHandlingBefore(s, a);
      WorkIsStepWorker(s);
      PoppedIsAttached(s);
    } else {
      StepKeepsCurrent(s, a);
      if CurrentAttached(s) {
        OnlyDetachLosesCurrent(s, a);
        if !CurrentAttached(Apply(s, a)) {
          DetachMeetsRun(s, a);
          assert DetachedAt(actions, ss, n);
        }
      } else {
        var k :| DetachedAt(actions[..n], ss[..n + 1], k);
        assert DetachedAt(actions, ss, k);
      }
    }
  }

  lemma WorkIsStepWorker(s: State)
    requires Enabled(s, Work)
    ensures CanWork(s) && Apply(s, Work) == StepWorker(s)
  {
  }

  // ---------- it does happen ----------

  ghost predicate Reachable(tids: set<Tid>, s: State) {
    exists actions, ss :: IsRun(tids, actions, ss) && ss[|actions|] == s
  }

  lemma ReachStep(tids: set<Tid>, s: State, a: Action)
    requires Reachable(tids, s) && Enabled(s, a)
    ensures Reachable(tids, Apply(s, a))
  {
    var actions, ss :| IsRun(tids, actions, ss) && ss[|actions|] == s;
    hide Apply, Enabled;
    assert IsRun(tids, actions + [a], ss + [Apply(s, a)]);
  }

  /** s with thread t at pc. */
  function At(s: State, t: Tid, pc: Pc): State { s.(calls := s.calls[t := pc]) }

  lemma AtTwice(calls: map<Tid, Pc>, t: Tid, pc: Pc, pc': Pc)
    ensures calls[t := pc][t := pc'] == calls[t := pc']
  {
  }

  /** A call step of thread t from pc, where the step's effect on the rest of the state is s'. */
  lemma ReachAdvance(tids: set<Tid>, s: State, t: Tid, pc: Pc, s': State)
    requires Reachable(tids, At(s, t, pc)) && CanAdvance(At(s, t, pc), t)
    requires Effect(At(s, t, pc), t, pc) == At(s', t, pc) && s'.calls == s.calls
    ensures Reachable(tids, At(s', t, NextPc(At(s, t, pc), pc)))
  {
    ReachStep(tids, At(s, t, pc), Advance(t));
    AtTwice(s.calls, t, pc, NextPc(At(s, t, pc), pc));
    hide Effect, NextPc, CanAdvance, Reachable;
  }

  lemma ReachLock(tids: set<Tid>, s: State, t: Tid, pc: Pc)
    requires Reachable(tids, At(s, t, pc)) && WantsLock(pc) && s.lock.Free? && s.worker != Finished
    ensures Reachable(tids, At(s.(lock := Caller(t)), t, NextPc(s, pc)))
  {
    hide Reachable;
    ReachAdvance(tids, s, t, pc, s.(lock := Caller(t)));
  }

  lemma ReachUnlock(tids: set<Tid>, s: State, t: Tid, pc: Pc)
    requires Reachable(tids, At(s, t, pc)) && Unlocks(pc)
    ensures Reachable(tids, At(s.(lock := Free), t, NextPc(s, pc)))
  {
    hide Reachable;
    ReachAdvance(tids, s, t, pc, s.(lock := Free));
  }

  lemma ReachPush(tids: set<Tid>, s: State, t: Tid, i: Item)
    requires Reachable(tids, At(s, t, AddPush(i)))
    ensures Reachable(tids, At(Push(s, i), t, AddUnlock(i)))
  {
    hide Reachable, Queued;
    ReachAdvance(tids, s, t, AddPush(i), Push(s, i));
  }

  lemma ReachPost(tids: set<Tid>, s: State, t: Tid, i: Item)
    requires Reachable(tids, At(s, t, AddRead(i))) && s.value <= 0
    ensures Reachable(tids, At(Post(s), t, Idle))
  {
    hide Reachable;
    ReachAdvance(tids, s, t, AddRead(i), s);
    ReachAdvance(tids, s, t, AddPost(i), Post(s));
  }

  lemma ReachRemove(tids: set<Tid>, s: State, t: Tid, i: Item, detach: bool)
    requires Reachable(tids, At(s, t, RemoveBody(i, detach)))
    ensures Reachable(tids, At(Remove(s, i), t, RemoveUnlock(i, detach)))
  {
    hide Reachable, Others, Matching;
    ReachAdvance(tids, s, t, RemoveBody(i, detach), Remove(s, i));
  }

  lemma ReachDetach(tids: set<Tid>, s: State, t: Tid, i: Item)
    requires Reachable(tids, At(s, t, DetachBody(i)))
    ensures Reachable(tids, At(s.(attached := s.attached - {i}), t, AfterDetach(s, i)))
  {
    hide Reachable;
    ReachAdvance(tids, s, t, DetachBody(i), s.(attached := s.attached - {i}));
  }

  function AfterDetach(s: State, i: Item): Pc {
    if s.attached - {i} == {} then DetachWaitExit else DetachUnlock(false)
  }

  lemma ReachAttach(tids: set<Tid>, s: State, t: Tid, i: Item)
    requires Reachable(tids, At(s, t, AttachTest(i))) && !s.stop
    ensures Reachable(tids, At(s.(attached := s.attached + {i}), t, AttachUnlock(i, true)))
  {
    hide Reachable;
    ReachAdvance(tids, s, t, AttachTest(i), s.(attached := s.attached + {i}));
  }

  lemma ReachBind(tids: set<Tid>, s: State, t: Tid, i: Item)
    requires Reachable(tids, At(s, t, AttachBind(i)))
    ensures Reachable(tids, At(s.(bound := s.bound + {i}), t, Idle))
  {
    hide Reachable;
    ReachAdvance(tids, s, t, AttachBind(i), s.(bound := s.bound + {i}));
  }

  lemma ReachWork(tids: set<Tid>, s: State, s': State)
    requires Reachable(tids, s) && CanWork(s) && s' == StepWorker(s)
    ensures Reachable(tids, s')
  {
    ReachStep(tids, s, Work);
  }

  lemma BackToIdle(s: State, t: Tid)
    requires t in s.calls && s.calls[t] == Idle
    ensures At(s, t, Idle) == s
  {
    assert s.calls[t := Idle] == s.calls;
  }

  /** An Init that nobody interrupts. */
  lemma WholeAttach(tids: set<Tid>, s: State, t: Tid, i: Item)
    requires Reachable(tids, s) && CanCall(s, t) && i !in s.bound && Untouched(s, i)
    requires s.lock.Free? && !s.stop && s.worker != Finished
    ensures Reachable(tids, s.(attached := s.attached + {i}, bound := s.bound + {i}))
  {
    ReachStep(tids, s, BeginAttach(t, i));
    hide Reachable, Untouched;
    ReachLock(tids, s, t, AttachLock(i));
    ReachAttach(tids, s.(lock := Caller(t)), t, i);
    var s' := s.(lock := Caller(t), attached := s.attached + {i});
    ReachUnlock(tids, s', t, AttachUnlock(i, true));
    ReachBind(tids, s'.(lock := Free), t, i);
    BackToIdle(s'.(lock := Free, bound := s.bound + {i}), t);
  }

  /** A ScheduleNow that nobody interrupts, and that signals. */
  lemma WholeAdd(tids: set<Tid>, s: State, t: Tid, i: Item)
    requires Reachable(tids, s) && CanCall(s, t) && i in s.bound
    requires s.lock.Free? && s.value <= 0 && s.worker != Finished
    ensures Reachable(tids, Post(Push(s, i)))
  {
    ReachStep(tids, s, BeginAdd(t, i));
    hide Reachable, Queued;
    ReachLock(tids, s, t, AddLock(i));
    ReachPush(tids, s.(lock := Caller(t)), t, i);
    ReachUnlock(tids, Push(s.(lock := Caller(t)), i), t, AddUnlock(i));
    assert Push(s.(lock := Caller(t)), i).(lock := Free) == Push(s, i);
    ReachPost(tids, Push(s, i), t, i);
    BackToIdle(Post(Push(s, i)), t);
  }

  /** A ScheduleClear that nobody interrupts. */
  lemma WholeClear(tids: set<Tid>, s: State, t: Tid, i: Item)
    requires Reachable(tids, s) && CanCall(s, t) && i in s.bound && s.lock.Free? && s.worker != Finished
    ensures Reachable(tids, Remove(s, i))
  {
    ReachStep(tids, s, BeginClear(t, i));
    hide Reachable, Others, Matching;
    ReachLock(tids, s, t, RemoveLock(i, false));
    ReachRemove(tids, s.(lock := Caller(t)), t, i, false);
    ReachUnlock(tids, Remove(s.(lock := Caller(t)), i), t, RemoveUnlock(i, false));
    assert Remove(s.(lock := Caller(t)), i).(lock := Free) == Remove(s, i);
    BackToIdle(Remove(s, i), t);
  }

  /** The worker wakes up and takes the oldest item. */
  lemma WholeTake(tids: set<Tid>, s: State)
    requires Reachable(tids, s) && s.worker.Check? && !s.stop && s.value > 0 && s.q != [] && s.lock.Free?
    ensures Reachable(tids, s.(worker := Running, value := s.value - 1, q := s.q[1..], ran := s.ran + [s.q[0]]))
  {
    hide Reachable;
    var s1 := s.(worker := Wait);
    ReachWork(tids, s, s1);
    var s2 := s1.(worker := WaitLock, value := s.value - 1);
    ReachWork(tids, s1, s2);
    var s3 := s2.(worker := Test, lock := Worker);
    ReachWork(tids, s2, s3);
    var s4 := s3.(worker := UnlockToRun, q := s.q[1..], ran := s.ran + [s.q[0]]);
    ReachWork(tids, s3, s4);
    ReachWork(tids, s4, s4.(worker := Running, lock := Free));
  }

  /** Where a Deinit of i by thread t has taken i out of the attached items. */
  function Detached(s: State, t: Tid, i: Item): State {
    At(Remove(s.(bound := s.bound - {i}), i).(lock := Caller(t), attached := s.attached - {i}), t, AfterDetach(s, i))
  }

  lemma DeinitBegins(tids: set<Tid>, s: State, t: Tid, i: Item)
    requires Reachable(tids, s) && CanCall(s, t) && i in s.bound && Untouched(s, i)
    ensures Reachable(tids, At(s.(bound := s.bound - {i}), t, RemoveLock(i, true)))
  {
    ReachStep(tids, s, BeginDeinit(t, i));
  }

  /** Deinit's Remove, as a whole. */
  lemma DeinitRemoves(tids: set<Tid>, s: State, t: Tid, i: Item)
    requires Reachable(tids, At(s, t, RemoveLock(i, true))) && s.lock.Free? && s.worker != Finished
    ensures Reachable(tids, At(Remove(s, i), t, DetachLock(i)))
  {
    hide Reachable, Others, Matching;
    ReachLock(tids, s, t, RemoveLock(i, true));
    ReachRemove(tids, s.(lock := Caller(t)), t, i, true);
    ReachUnlock(tids, Remove(s.(lock := Caller(t)), i), t, RemoveUnlock(i, true));
    assert Remove(s.(lock := Caller(t)), i).(lock := Free) == Remove(s, i);
  }

  /** A Deinit, up to that point. */
  lemma DeinitDetaches(tids: set<Tid>, s: State, t: Tid, i: Item)
    requires Reachable(tids, s) && CanCall(s, t) && i in s.bound && Untouched(s, i)
    requires s.lock.Free? && s.worker != Finished
    ensures Reachable(tids, Detached(s, t, i))
  {
    hide Reachable, Others, Matching, Untouched;
    DeinitBegins(tids, s, t, i);
    var s0 := s.(bound := s.bound - {i});
    DeinitRemoves(tids, s0, t, i);
    ReachLock(tids, Remove(s0, i), t, DetachLock(i));
    ReachDetach(tids, Remove(s0, i).(lock := Caller(t)), t, i);
  }

  /**
   Nothing in the queue keeps another thread from that: wherever Run() is on and its item is bound
   and left alone, a Deinit from any thread leads to a state in which a detached item is running.
   */
  lemma RunningItemCanBeDetached(tids: set<Tid>, s: State, t: Tid)
    requires Reachable(tids, s) && s.worker.Running? && s.lock.Free? && HasCurrent(s)
    requires CurrentItem(s) in s.bound && Untouched(s, CurrentItem(s)) && CanCall(s, t)
    ensures
      var s' := Detached(s, t, CurrentItem(s));
      && Reachable(tids, s') && s'.worker.Running?
      && HasCurrent(s') && CurrentItem(s') == CurrentItem(s) && !CurrentAttached(s')
  {
    DeinitDetaches(tids, s, t, CurrentItem(s));
    hide Reachable, Others, Matching;
  }

  /** And such a state is reached from a fresh queue: one thread attaches, schedules and detaches an item. */
  lemma DetachedItemRuns(t: Tid, i: Item)
    requires t != WORKER
    ensures exists s :: Reachable({WORKER, t}, s) && s.worker.Running? && HasCurrent(s) && !CurrentAttached(s)
  {
    var tids := {WORKER, t};
    var s0 := Start(tids);
    assert IsRun(tids, [], [s0]) && Reachable(tids, s0);
    hide Reachable, IsRun;
    WholeAttach(tids, s0, t, i);
    var s1 := s0.(attached := {i}, bound := {i});
    assert s0.attached + {i} == {i} && s0.bound + {i} == {i};
    WholeAdd(tids, s1, t, i);
    var s2 := s1.(q := [0], log := [i], value := 1);
    assert Post(Push(s1, i)) == s2;
    WholeTake(tids, s2);
    var s3 := s2.(worker := Running, value := 0, q := [], ran := [0]);
    assert s2.q[1..] == [] && s2.ran + [s2.q[0]] == [0];
    RunningItemCanBeDetached(tids, s3, t);
  }
}
