/**
 The invariant of the work queue's state machine, and the proof that every step keeps it: one
 group of lemmas per part of the invariant, each over the calls, the worker and new calls.
 */
module WorkQueueInvariant {
  import opened WorkQueue

  // ---------- the invariant ----------

  ghost predicate LockInv(s: State) {
    && WORKER in s.calls
    && (!s.calls[WORKER].Idle? ==> s.worker.Running?)
    && (forall t | t in s.calls :: HoldsLock(s.calls[t]) <==> s.lock == Caller(t))
    && (WorkerHolds(s.worker) <==> s.lock == Worker)
    && (s.lock.Caller? ==> s.lock.tid in s.calls)
    && (s.worker.Finished? ==> s.lock.Free?)
  }

  /** What a call in progress says about its item. */
  ghost predicate CallOk(s: State, pc: Pc) {
    && (Scheduling(pc) ==> pc.item in s.bound)
    && (pc.AttachLock? || pc.AttachTest? || (pc.AttachUnlock? && !pc.ok) ==> pc.item !in s.attached)
    && ((pc.AttachUnlock? && pc.ok) || pc.AttachBind? || Leaving(pc) ==> pc.item in s.attached && pc.item !in s.bound)
    && (Unqueued(pc) ==> !Queued(s.q, s.log, pc.item))
  }

  ghost predicate BindInv(s: State) {
    && s.bound <= s.attached
    && (forall t | t in s.calls :: CallOk(s, s.calls[t]))
    && forall t, u | t in s.calls && u in s.calls && t != u && (Attaching(s.calls[t]) || Leaving(s.calls[t])) ::
         !On(s.calls[u], s.calls[t].item)
  }

  /** An attached item is bound, or a call is attaching or detaching it. */
  ghost predicate AttachedInv(s: State) {
    forall i | i in s.attached && i !in s.bound :: InTransit(s, i)
  }

  ghost predicate InTransit(s: State, i: Item) {
    exists t :: t in s.calls && Owner(s.calls[t]) && s.calls[t].item == i
  }

  ghost predicate QueueInv(s: State) {
    && Increasing(s.q)
    && (forall n | n in s.q :: n < |s.log| && s.log[n] in s.attached)
    && (forall m, n | m in s.q && n in s.q && s.log[m] == s.log[n] :: m == n)
  }

  /** The destructor has got _exit_lock. */
  predicate PastExitLock(w: WorkerPc) { w.Destroy? || w.LastUnlock? || w.Finished? }

  ghost predicate SomeExiting(s: State) { exists t :: t in s.calls && Exiting(s.calls[t]) }

  ghost predicate SomeStopping(s: State) { exists t :: t in s.calls && s.calls[t].DetachStop? }

  /** What a call on the exiting path of Detach says about the tear-down. */
  ghost predicate ExitOk(s: State, pc: Pc) {
    && (pc.DetachWaitExit? ==> s.attached == {} && s.exits == 0)
    && (pc.DetachStop? ==> s.attached == {} && !s.stop)
    && (Exiting(pc) && !pc.DetachStop? ==> s.stop)
    && (Exiting(pc) ==> s.exit == 0 && s.exits == 1 && !PastExitLock(s.worker))
  }

  /** The tear-down handshake. */
  ghost predicate StopInv(s: State) {
    && (s.stop ==> s.attached == {} && s.exits == 1)
    && s.exits <= 1 && 0 <= s.exit <= 1
    && (InDestructor(s.worker) ==> s.stop)
    && (s.destroyed <==> s.worker.LastUnlock? || s.worker.Finished?)
    && (forall t | t in s.calls :: ExitOk(s, s.calls[t]))
    && (forall t, u | t in s.calls && u in s.calls && Exiting(s.calls[t]) && Exiting(s.calls[u]) :: t == u)
    && (s.exit == 0 ==> PastExitLock(s.worker) || SomeExiting(s))
    && (s.exits == 1 && !s.stop ==> SomeStopping(s))
  }

  ghost predicate SemaphoreInv(s: State) {
    && -1 <= s.value
    && (s.value < 0 <==> s.worker.Blocked? && !s.woken)
    && (s.woken ==> s.worker.Blocked?)
    && (s.worker.Unlock? ==> s.q == [])
  }

  ghost predicate WakeInv(s: State) {
    s.q != [] ==> s.value > 0 || Serving(s) || SomeSignalling(s)
  }

  /** The stop request reaches a worker that is waiting, or is about to. */
  ghost predicate StopWakeInv(s: State) {
    s.stop && (s.worker.Wait? || s.worker.Blocked?) ==>
      s.value > 0 || s.woken || SomeStopSignal(s)
  }

  ghost predicate HistoryInv(s: State) {
    && (forall a, b | 0 <= a < b < |s.ran| :: s.ran[a] < s.ran[b])
    && (forall a, k | 0 <= a < |s.ran| && 0 <= k < |s.q| :: s.ran[a] < s.q[k])
    && (forall n | n in s.removed :: n < |s.log| && n !in s.ran && n !in s.q)
    && (forall a | 0 <= a < |s.ran| :: s.ran[a] < |s.log|)
    && (forall n | 0 <= n < |s.log| :: n in s.ran || n in s.removed || n in s.q)
  }

  function Posters(s: State): set<Tid> {
    set t | t in s.calls && Posting(s.calls[t])
  }

  ghost predicate CountInv(s: State) { s.value + |Posters(s)| <= |s.calls| }

  ghost predicate Inv(s: State) {
    && LockInv(s) && BindInv(s) && AttachedInv(s) && QueueInv(s) && StopInv(s)
    && SemaphoreInv(s) && WakeInv(s) && StopWakeInv(s) && HistoryInv(s) && CountInv(s)
  }

  predicate IsBegin(a: Action) { !a.Advance? && !a.Work? }

  /** s' differs from s, as far as calls go, in thread t only. */
  predicate OnlyCall(s: State, s': State, t: Tid) {
    t in s.calls && t in s'.calls && s'.calls == s.calls[t := s'.calls[t]]
  }

  // ----- the lock

  lemma LockFrame(s: State, s': State, t: Tid)
    requires LockInv(s) && OnlyCall(s, s', t) && s'.worker == s.worker
    requires HoldsLock(s'.calls[t]) <==> s'.lock == Caller(t)
    requires s'.lock == s.lock || (s.lock == Free && s'.lock == Caller(t)) || (s.lock == Caller(t) && s'.lock == Free)
    requires t == WORKER ==> s.worker.Running?
    requires s.worker.Finished? ==> s'.lock == s.lock
    ensures LockInv(s')
  {
  }

  lemma EffectLock(s: State, t: Tid, pc: Pc)
    ensures
      var s' := Effect(s, t, pc);
      && s'.worker == s.worker && s'.calls == s.calls
      && s'.lock == if WantsLock(pc) then Caller(t) else if Unlocks(pc) then Free else s.lock
  {
  }

  lemma NextPcLock(s: State, pc: Pc)
    requires !pc.Idle?
    ensures HoldsLock(NextPc(s, pc)) <==> WantsLock(pc) || (HoldsLock(pc) && !Unlocks(pc))
    ensures Unlocks(pc) ==> HoldsLock(pc)
    ensures WantsLock(pc) ==> !Unlocks(pc) && !HoldsLock(pc)
  {
  }

  lemma LockCall(s: State, t: Tid)
    requires LockInv(s) && CanAdvance(s, t)
    ensures LockInv(StepCall(s, t))
  {
    hide HoldsLock, WantsLock, Unlocks, NextPc, Effect, WorkerHolds;
    EffectLock(s, t, s.calls[t]);
    NextPcLock(s, s.calls[t]);
    LockFrame(s, StepCall(s, t), t);
  }

  lemma LockWork(s: State)
    requires LockInv(s) && CanWork(s)
    ensures LockInv(StepWorker(s))
  {
  }

  lemma LockBegin(s: State, a: Action)
    requires LockInv(s) && IsBegin(a) && Enabled(s, a)
    ensures LockInv(Apply(s, a))
  {
    LockFrame(s, Apply(s, a), a.tid);
  }

  // ----- items

  predicate Owner(pc: Pc) { Attaching(pc) || Leaving(pc) }

  /** Item i apart, s' has the same items bound and attached, and no more of them queued. */
  ghost predicate SameBut(s: State, s': State, i: Item) {
    forall x: Item | x != i ::
      && (x in s'.bound <==> x in s.bound)
      && (x in s'.attached <==> x in s.attached)
      && (Queued(s'.q, s'.log, x) ==> Queued(s.q, s.log, x))
  }

  /** A call that has item i to itself may change everything about it. */
  lemma BindOwn(s: State, s': State, t: Tid, i: Item)
    requires BindInv(s) && OnlyCall(s, s', t) && SameBut(s, s', i)
    requires forall u | u in s.calls && u != t :: !On(s.calls[u], i)
    requires s'.bound <= s'.attached && CallOk(s', s'.calls[t])
    requires forall x: Item | On(s'.calls[t], x) :: x == i
    ensures BindInv(s')
  {
    assert Owner(s'.calls[t]) ==> On(s'.calls[t], s'.calls[t].item);
  }

  /** Other calls leave the items alone, but may queue one that is bound. */
  lemma BindShared(s: State, s': State, t: Tid)
    requires BindInv(s) && OnlyCall(s, s', t)
    requires s'.bound == s.bound && s'.attached == s.attached
    requires forall x: Item :: Queued(s'.q, s'.log, x) ==> Queued(s.q, s.log, x) || x in s.bound
    requires CallOk(s', s'.calls[t]) && !Owner(s'.calls[t])
    ensures BindInv(s')
  {
  }

  lemma {:induction false} OthersElements(q: seq<nat>, log: seq<Item>, i: Item)
    ensures forall k :: k in Others(q, log, i) <==> k in q && !(k < |log| && log[k] == i)
  {
    if q != [] {
      var front := q[..|q| - 1];
      assert q == front + [q[|q| - 1]];
      OthersElements(front, log, i);
    }
  }

  ghost predicate Increasing(q: seq<nat>) {
    forall k, l | 0 <= k < l < |q| :: q[k] < q[l]
  }

  lemma {:induction false} OthersIncreasing(q: seq<nat>, log: seq<Item>, i: Item)
    requires Increasing(q)
    ensures Increasing(Others(q, log, i))
  {
    if q != [] {
      var front, rest := q[..|q| - 1], Others(q[..|q| - 1], log, i);
      OthersIncreasing(front, log, i);
      OthersElements(front, log, i);
      forall k | 0 <= k < |rest|
        ensures rest[k] < q[|q| - 1]
      {
        assert rest[k] in front;
      }
    }
  }

  lemma QueuedAfterPush(s: State, i: Item, x: Item)
    requires QueueInv(s)
    ensures Queued(Push(s, i).q, Push(s, i).log, x) <==> Queued(s.q, s.log, x) || x == i
  {
    if !Queued(s.q, s.log, i) {
      var q', log' := s.q + [|s.log|], s.log + [i];
      assert q'[|s.q|] == |s.log| && log'[|s.log|] == i;
      if Queued(s.q, s.log, x) {
        var k :| k in s.q && k < |s.log| && s.log[k] == x;
        assert k in q' && log'[k] == x;
      }
    }
  }

  lemma QueuedAfterRemove(s: State, i: Item, x: Item)
    ensures Queued(Remove(s, i).q, s.log, x) <==> Queued(s.q, s.log, x) && x != i
  {
    OthersElements(s.q, s.log, i);
  }

  /** What a step of a call does to the items. */
  ghost predicate ItemsAfter(s: State, s': State, pc: Pc) {
    && s'.bound == (if pc.AttachBind? then s.bound + {pc.item} else s.bound)
    && s'.attached == (if pc.AttachTest? && !s.stop then s.attached + {pc.item}
                       else if pc.DetachBody? then s.attached - {pc.item} else s.attached)
    && forall x: Item :: Queued(s'.q, s'.log, x) <==> QueuedAfter(s, pc, x)
  }

  ghost predicate QueuedAfter(s: State, pc: Pc, x: Item) {
    if pc.AddPush? then Queued(s.q, s.log, x) || x == pc.item
    else if pc.RemoveBody? then Queued(s.q, s.log, x) && x != pc.item
    else Queued(s.q, s.log, x)
  }

  lemma EffectItems(s: State, t: Tid, pc: Pc)
    requires QueueInv(s)
    ensures ItemsAfter(s, Effect(s, t, pc), pc)
  {
    var s' := Effect(s, t, pc);
    forall x: Item
      ensures Queued(s'.q, s'.log, x) <==> QueuedAfter(s, pc, x)
    {
      if pc.AddPush? {
        QueuedAfterPush(s, pc.item, x);
      } else if pc.RemoveBody? {
        QueuedAfterRemove(s, pc.item, x);
      }
    }
  }

  predicate HasItem(pc: Pc) { Scheduling(pc) || Owner(pc) }

  /** A call keeps its item until it is done with it. */
  lemma NextPcItem(s: State, pc: Pc)
    requires !pc.Idle?
    ensures HasItem(NextPc(s, pc)) ==> HasItem(pc) && NextPc(s, pc).item == pc.item
    ensures HasItem(NextPc(s, pc)) ==> (Owner(pc) <==> Owner(NextPc(s, pc)))
  {
  }

  /** What the step of a call leaves of what it says about its item; s' is the state after it. */
  lemma OwnerOkNext(s: State, s': State, pc: Pc)
    requires CallOk(s, pc) && !pc.Idle? && Owner(pc) && s.bound <= s.attached && ItemsAfter(s, s', pc)
    ensures CallOk(s', NextPc(s, pc))
    ensures s'.bound <= s'.attached
  {
    hide Queued;
  }

  lemma OtherOkNext(s: State, s': State, pc: Pc)
    requires CallOk(s, pc) && !pc.Idle? && !Owner(pc) && s.bound <= s.attached && ItemsAfter(s, s', pc)
    ensures CallOk(s', NextPc(s, pc))
    ensures s'.bound <= s'.attached
  {
    hide Queued;
  }

  lemma CallOkNext(s: State, t: Tid)
    requires BindInv(s) && QueueInv(s) && CanAdvance(s, t)
    ensures CallOk(StepCall(s, t), NextPc(s, s.calls[t]))
    ensures StepCall(s, t).bound <= StepCall(s, t).attached
  {
    var pc := s.calls[t];
    assert CallOk(s, pc);
    hide BindInv, QueueInv, Queued, Effect, NextPc, Owner;
    EffectItems(s, t, pc);
    if Owner(pc) {
      OwnerOkNext(s, StepCall(s, t), pc);
    } else {
      OtherOkNext(s, StepCall(s, t), pc);
    }
  }

  lemma BindCall(s: State, t: Tid)
    requires BindInv(s) && QueueInv(s) && CanAdvance(s, t)
    ensures BindInv(StepCall(s, t))
  {
    var pc, s' := s.calls[t], StepCall(s, t);
    CallOkNext(s, t);
    EffectItems(s, t, pc);
    NextPcItem(s, pc);
    EffectLock(s, t, pc);
    assert CallOk(s, pc);
    assert Owner(pc) ==> forall u | u in s.calls && u != t :: !On(s.calls[u], pc.item);
    hide BindInv, QueueInv, Queued, Effect, NextPc, Scheduling, Attaching, Leaving, CallOk;
    if Owner(pc) {
      BindOwn(s, s', t, pc.item);
    } else {
      BindShared(s, s', t);
    }
  }

  lemma BindBegin(s: State, a: Action)
    requires BindInv(s) && AttachedInv(s) && IsBegin(a) && Enabled(s, a)
    ensures BindInv(Apply(s, a))
  {
    var s', t, i := Apply(s, a), a.tid, a.item;
    if a.BeginAttach? {
      assert !InTransit(s, i);
      BindOwn(s, s', t, i);
    } else if a.BeginDeinit? {
      BindOwn(s, s', t, i);
    } else {
      BindShared(s, s', t);
    }
  }

  /** What a step of the worker does to the queue. */
  lemma WorkerKeepsCalls(s: State)
    ensures
      var s' := StepWorker(s);
      s'.calls == s.calls && s'.bound == s.bound && s'.attached == s.attached
  {
  }

  lemma WorkerKeepsHistory(s: State)
    ensures
      var s' := StepWorker(s);
      s'.log == s.log && s'.removed == s.removed && s'.stop == s.stop && s'.exits == s.exits
  {
  }

  lemma WorkerPops(s: State)
    ensures
      var s' := StepWorker(s);
      if s.worker.Test? && s.q != [] then s'.q == s.q[1..] && s'.ran == s.ran + [s.q[0]]
      else s'.q == s.q && s'.ran == s.ran
  {
  }

  lemma BindWork(s: State)
    requires BindInv(s) && CanWork(s)
    ensures BindInv(StepWorker(s))
  {
    hide StepWorker;
    WorkerKeepsCalls(s);
    WorkerKeepsHistory(s);
    WorkerPops(s);
    assert forall x: Item :: Queued(StepWorker(s).q, s.log, x) ==> Queued(s.q, s.log, x);
  }

  lemma AttachedStays(s: State, s': State, t: Tid, x: Item)
    requires InTransit(s, x) && OnlyCall(s, s', t)
    requires Owner(s.calls[t]) && s.calls[t].item == x ==> Owner(s'.calls[t]) && s'.calls[t].item == x
    ensures InTransit(s', x)
  {
    var u :| u in s.calls && Owner(s.calls[u]) && s.calls[u].item == x;
    assert u in s'.calls && Owner(s'.calls[u]) && s'.calls[u].item == x;
  }

  lemma AttachedCall(s: State, t: Tid)
    requires AttachedInv(s) && BindInv(s) && QueueInv(s) && CanAdvance(s, t)
    ensures AttachedInv(StepCall(s, t))
  {
    var pc, s' := s.calls[t], StepCall(s, t);
    EffectItems(s, t, pc);
    forall x | x in s'.attached && x !in s'.bound
      ensures InTransit(s', x)
    {
      if Owner(pc) && pc.item == x {
        assert Owner(s'.calls[t]) && s'.calls[t].item == x;
      } else {
        AttachedStays(s, s', t, x);
      }
    }
  }

  lemma AttachedBegin(s: State, a: Action)
    requires AttachedInv(s) && IsBegin(a) && Enabled(s, a)
    ensures AttachedInv(Apply(s, a))
  {
    var s' := Apply(s, a);
    forall x | x in s'.attached && x !in s'.bound
      ensures InTransit(s', x)
    {
      if x in s.bound {
        assert Owner(s'.calls[a.tid]) && s'.calls[a.tid].item == x;
      } else {
        AttachedStays(s, s', a.tid, x);
      }
    }
  }

  // ----- the queue

  lemma QueueCall(s: State, t: Tid)
    requires QueueInv(s) && BindInv(s) && CanAdvance(s, t)
    ensures QueueInv(StepCall(s, t))
  {
    var pc := s.calls[t];
    assert CallOk(s, pc);
    if pc.RemoveBody? {
      QueueRemove(s, pc.item);
    } else if pc.AddPush? {
      QueuePush(s, pc.item);
    } else {
      EffectItems(s, t, pc);
      EffectHistory(s, t, pc);
      hide BindInv, CallOk, Effect, NextPc;
      assert pc.DetachBody? ==> !Queued(s.q, s.log, pc.item);
    }
  }

  lemma EffectHistory(s: State, t: Tid, pc: Pc)
    requires !pc.AddPush? && !pc.RemoveBody?
    ensures
      var s' := Effect(s, t, pc);
      s'.q == s.q && s'.log == s.log && s'.ran == s.ran && s'.removed == s.removed
  {
  }

  lemma QueueRemove(s: State, i: Item)
    requires QueueInv(s)
    ensures QueueInv(Remove(s, i))
  {
    OthersElements(s.q, s.log, i);
    OthersIncreasing(s.q, s.log, i);
  }

  lemma QueuePush(s: State, i: Item)
    requires QueueInv(s) && i in s.attached
    ensures QueueInv(Push(s, i))
  {
    if !Queued(s.q, s.log, i) {
      forall k | 0 <= k < |s.q|
        ensures s.q[k] < |s.log|
      {
        assert s.q[k] in s.q;
      }
    }
  }

  lemma QueueWork(s: State)
    requires QueueInv(s) && CanWork(s)
    ensures QueueInv(StepWorker(s))
  {
    hide StepWorker;
    WorkerKeepsCalls(s);
    WorkerKeepsHistory(s);
    WorkerPops(s);
  }

  // ----- tear-down

  /** Steps that do not touch the tear-down state and stay on, or off, the exiting path. */
  lemma StopFrame(s: State, s': State, t: Tid)
    requires StopInv(s) && OnlyCall(s, s', t)
    requires s'.worker == s.worker && s'.exit == s.exit && s'.exits == s.exits
    requires s'.stop == s.stop && s'.destroyed == s.destroyed
    requires s'.attached == s.attached || (s.stop ==> s'.attached == {})
    requires s'.attached != s.attached ==> forall u | u in s.calls :: !s.calls[u].DetachWaitExit? && !s.calls[u].DetachStop?
    requires ExitOk(s', s'.calls[t])
    requires Exiting(s'.calls[t]) <==> Exiting(s.calls[t])
    requires s.calls[t].DetachStop? ==> s'.calls[t].DetachStop?
    ensures StopInv(s')
  {
    if SomeExiting(s) {
      var u :| u in s.calls && Exiting(s.calls[u]);
      assert u in s'.calls && Exiting(s'.calls[u]);
    }
    if SomeStopping(s) {
      var u :| u in s.calls && s.calls[u].DetachStop?;
      assert u in s'.calls && s'.calls[u].DetachStop?;
    }
  }

  lemma EffectStop(s: State, t: Tid, pc: Pc)
    ensures
      var s' := Effect(s, t, pc);
      && s'.destroyed == s.destroyed
      && s'.exit == (if pc.DetachWaitExit? then s.exit - 1 else if pc.DetachPostExit? then s.exit + 1 else s.exit)
      && s'.exits == (if pc.DetachWaitExit? then s.exits + 1 else s.exits)
      && s'.stop == (s.stop || pc.DetachStop?)
  {
  }

  /** Two calls that hold the lock are one. */
  lemma OneHolder(s: State, t: Tid, u: Tid)
    requires LockInv(s) && t in s.calls && u in s.calls && HoldsLock(s.calls[t]) && HoldsLock(s.calls[u])
    ensures t == u
  {
  }

  /** The last item leaves: no other call is on the exiting path, or ever was. */
  lemma LastItemLeaves(s: State, t: Tid)
    requires LockInv(s) && BindInv(s) && StopInv(s) && t in s.calls && s.calls[t].DetachBody?
    ensures !s.stop && s.exits == 0
    ensures forall u | u in s.calls :: !s.calls[u].DetachWaitExit? && !s.calls[u].DetachStop?
  {
    assert CallOk(s, s.calls[t]);
    forall u | u in s.calls
      ensures !s.calls[u].DetachWaitExit? && !s.calls[u].DetachStop?
    {
      if HoldsLock(s.calls[u]) {
        OneHolder(s, t, u);
      }
    }
  }

  lemma NobodyAtTest(s: State, t: Tid)
    requires LockInv(s) && t in s.calls && s.calls[t].AttachTest?
    ensures forall u | u in s.calls :: !s.calls[u].DetachWaitExit? && !s.calls[u].DetachStop?
  {
    forall u | u in s.calls
      ensures !s.calls[u].DetachWaitExit? && !s.calls[u].DetachStop?
    {
      if HoldsLock(s.calls[u]) {
        OneHolder(s, t, u);
      }
    }
  }

  /** Detach takes _exit_lock: nobody else has it, and this happens for the first time. */
  lemma StopTake(s: State, s': State, t: Tid)
    requires LockInv(s) && StopInv(s) && OnlyCall(s, s', t) && s.calls[t].DetachWaitExit? && s.exit > 0
    requires s' == s.(exit := s.exit - 1, exits := s.exits + 1, calls := s.calls[t := DetachStop])
    ensures StopInv(s')
  {
    assert ExitOk(s, s.calls[t]);
    assert s'.calls[t].DetachStop? && Exiting(s'.calls[t]);
    forall u | u in s.calls && u != t
      ensures ExitOk(s, s.calls[u]) && !HoldsLock(s.calls[u])
    {
    }
  }

  lemma StopRequest(s: State, s': State, t: Tid)
    requires StopInv(s) && OnlyCall(s, s', t) && s.calls[t].DetachStop?
    requires s' == s.(stop := true, calls := s.calls[t := DetachRead])
    ensures StopInv(s')
  {
    assert ExitOk(s, s.calls[t]);
    assert Exiting(s.calls[t]) && Exiting(s'.calls[t]);
  }

  lemma StopRelease(s: State, s': State, t: Tid)
    requires StopInv(s) && OnlyCall(s, s', t) && s.calls[t].DetachPostExit?
    requires s' == s.(exit := s.exit + 1, calls := s.calls[t := Idle])
    ensures StopInv(s')
  {
    assert ExitOk(s, s.calls[t]);
    forall u | u in s'.calls
      ensures ExitOk(s', s'.calls[u]) && !Exiting(s'.calls[u])
    {
      assert ExitOk(s, s.calls[u]);
    }
  }

  lemma StopCall(s: State, t: Tid)
    requires LockInv(s) && BindInv(s) && QueueInv(s) && StopInv(s) && CanAdvance(s, t)
    ensures StopInv(StepCall(s, t))
  {
    var pc, s' := s.calls[t], StepCall(s, t);
    if pc.DetachWaitExit? {
      StopTake(s, s', t);
    } else if pc.DetachStop? {
      StopRequest(s, s', t);
    } else if pc.DetachPostExit? {
      StopRelease(s, s', t);
    } else {
      StopOther(s, t);
    }
  }

  lemma StopOther(s: State, t: Tid)
    requires LockInv(s) && BindInv(s) && QueueInv(s) && StopInv(s) && CanAdvance(s, t)
    requires !s.calls[t].DetachWaitExit? && !s.calls[t].DetachStop? && !s.calls[t].DetachPostExit?
    ensures StopInv(StepCall(s, t))
  {
    var pc, s' := s.calls[t], StepCall(s, t);
    EffectStop(s, t, pc);
    EffectLock(s, t, pc);
    EffectItems(s, t, pc);
    assert ExitOk(s, pc);
    if pc.DetachBody? {
      LastItemLeaves(s, t);
    }
    if pc.AttachTest? {
      NobodyAtTest(s, t);
    }
    hide LockInv, BindInv, QueueInv, StopInv, Effect, Queued;
    StopFrame(s, s', t);
  }

  lemma StopBegin(s: State, a: Action)
    requires StopInv(s) && IsBegin(a) && Enabled(s, a)
    ensures StopInv(Apply(s, a))
  {
    StopFrame(s, Apply(s, a), a.tid);
  }

  lemma StopWork(s: State)
    requires StopInv(s) && CanWork(s)
    ensures StopInv(StepWorker(s))
  {
    WorkerKeepsCalls(s);
    WorkerKeepsHistory(s);
    if s.worker.WaitExit? {
      forall t | t in s.calls
        ensures !Exiting(s.calls[t])
      {
        assert ExitOk(s, s.calls[t]);
      }
    }
  }

  // ----- wake-ups

  lemma EffectSemaphore(s: State, t: Tid, pc: Pc)
    ensures
      var s' := Effect(s, t, pc);
      && s'.value == (if Posting(pc) then s.value + 1 else s.value)
      && s'.woken == (s.woken || (Posting(pc) && s.value < 0))
  {
  }

  /** Only the holder of the lock changes the queue. */
  lemma EffectQueue(s: State, t: Tid, pc: Pc)
    ensures !HoldsLock(pc) ==> Effect(s, t, pc).q == s.q
    ensures Effect(s, t, pc).q == s.q || pc.AddPush? || pc.RemoveBody?
    ensures pc.RemoveBody? && s.q == [] ==> Effect(s, t, pc).q == []
  {
  }

  lemma SemaphoreCall(s: State, t: Tid)
    requires LockInv(s) && SemaphoreInv(s) && CanAdvance(s, t)
    ensures SemaphoreInv(StepCall(s, t))
  {
    var pc := s.calls[t];
    EffectSemaphore(s, t, pc);
    EffectQueue(s, t, pc);
    EffectLock(s, t, pc);
    assert s.worker.Unlock? ==> !HoldsLock(pc);
    hide Effect, NextPc, HoldsLock, LockInv;
  }

  lemma SemaphoreWork(s: State)
    requires SemaphoreInv(s) && CanWork(s)
    ensures SemaphoreInv(StepWorker(s))
  {
  }

  ghost predicate SomeSignalling(s: State) { exists t :: t in s.calls && Signalling(s.calls[t]) }

  lemma SignallerStays(s: State, s': State, t: Tid)
    requires SomeSignalling(s) && OnlyCall(s, s', t)
    requires Signalling(s.calls[t]) ==> Signalling(s'.calls[t])
    ensures SomeSignalling(s')
  {
    var u :| u in s.calls && Signalling(s.calls[u]);
    assert u in s'.calls && Signalling(s'.calls[u]);
  }

  lemma WakeCall(s: State, t: Tid)
    requires SemaphoreInv(s) && WakeInv(s) && CanAdvance(s, t)
    ensures WakeInv(StepCall(s, t))
  {
    var pc, s' := s.calls[t], StepCall(s, t);
    EffectSemaphore(s, t, pc);
    EffectQueue(s, t, pc);
    EffectLock(s, t, pc);
    hide Effect;
    if pc.AddPush? {
      assert t in s'.calls && Signalling(s'.calls[t]);
    } else if SomeSignalling(s) && !(Signalling(pc) && !Signalling(s'.calls[t])) {
      SignallerStays(s, s', t);
    }
  }

  lemma WakeBegin(s: State, a: Action)
    requires WakeInv(s) && IsBegin(a) && Enabled(s, a)
    ensures WakeInv(Apply(s, a))
  {
    if SomeSignalling(s) {
      SignallerStays(s, Apply(s, a), a.tid);
    }
  }

  lemma WakeWork(s: State)
    requires SemaphoreInv(s) && StopInv(s) && QueueInv(s) && WakeInv(s) && CanWork(s)
    ensures WakeInv(StepWorker(s))
  {
    WorkerKeepsCalls(s);
    WorkerPops(s);
    assert SomeSignalling(s) ==> SomeSignalling(StepWorker(s));
  }

  ghost predicate SomeStopSignal(s: State) {
    exists t :: t in s.calls && (s.calls[t].DetachRead? || s.calls[t].DetachPost?)
  }

  lemma StopSignalStays(s: State, s': State, t: Tid)
    requires SomeStopSignal(s) && OnlyCall(s, s', t)
    requires s.calls[t].DetachRead? || s.calls[t].DetachPost? ==> s'.calls[t].DetachPost?
    ensures SomeStopSignal(s')
  {
    var u :| u in s.calls && (s.calls[u].DetachRead? || s.calls[u].DetachPost?);
    assert u in s'.calls && (s'.calls[u].DetachRead? || s'.calls[u].DetachPost?);
  }

  lemma StopWakeCall(s: State, t: Tid)
    requires SemaphoreInv(s) && StopWakeInv(s) && CanAdvance(s, t)
    ensures StopWakeInv(StepCall(s, t))
  {
    var pc, s' := s.calls[t], StepCall(s, t);
    EffectSemaphore(s, t, pc);
    EffectStop(s, t, pc);
    EffectLock(s, t, pc);
    hide Effect;
    if pc.DetachStop? {
      assert t in s'.calls && s'.calls[t].DetachRead?;
    } else if SomeStopSignal(s) && (pc.DetachRead? || pc.DetachPost? ==> s'.calls[t].DetachPost?) {
      StopSignalStays(s, s', t);
    }
  }

  lemma StopWakeBegin(s: State, a: Action)
    requires StopWakeInv(s) && IsBegin(a) && Enabled(s, a)
    ensures StopWakeInv(Apply(s, a))
  {
    if SomeStopSignal(s) {
      StopSignalStays(s, Apply(s, a), a.tid);
    }
  }

  lemma StopWakeWork(s: State)
    requires SemaphoreInv(s) && StopWakeInv(s) && CanWork(s)
    ensures StopWakeInv(StepWorker(s))
  {
    WorkerKeepsCalls(s);
    WorkerKeepsHistory(s);
    assert SomeStopSignal(s) ==> SomeStopSignal(StepWorker(s));
  }

  // ----- history

  lemma HistoryPush(s: State, i: Item)
    requires QueueInv(s) && HistoryInv(s)
    ensures HistoryInv(Push(s, i))
  {
    if !Queued(s.q, s.log, i) {
      var q' := s.q + [|s.log|];
      assert q'[|s.q|] == |s.log|;
      assert forall n :: n in s.q ==> n in q';
    }
  }

  lemma HistoryRemove(s: State, i: Item)
    requires QueueInv(s) && HistoryInv(s)
    ensures HistoryInv(Remove(s, i))
  {
    OthersElements(s.q, s.log, i);
    var s' := Remove(s, i);
    forall a, k | 0 <= a < |s.ran| && 0 <= k < |s'.q|
      ensures s.ran[a] < s'.q[k]
    {
      assert s'.q[k] in s.q;
    }
    forall n | n in s'.removed
      ensures n < |s.log| && n !in s.ran && n !in s'.q
    {
    }
  }

  lemma HistoryCall(s: State, t: Tid)
    requires QueueInv(s) && HistoryInv(s) && CanAdvance(s, t)
    ensures HistoryInv(StepCall(s, t))
  {
    var pc := s.calls[t];
    var e := Effect(s, t, pc);
    if pc.AddPush? {
      assert e == Push(s, pc.item);
      HistoryPush(s, pc.item);
    } else if pc.RemoveBody? {
      assert e == Remove(s, pc.item);
      HistoryRemove(s, pc.item);
    } else {
      EffectHistory(s, t, pc);
      HistorySame(s, e);
    }
    hide Effect, Push, Remove, HistoryInv, QueueInv, NextPc;
    HistorySame(e, StepCall(s, t));
  }

  lemma HistorySame(s: State, s': State)
    requires HistoryInv(s) && s'.q == s.q && s'.ran == s.ran && s'.removed == s.removed && s'.log == s.log
    ensures HistoryInv(s')
  {
  }

  lemma HistoryWork(s: State)
    requires QueueInv(s) && HistoryInv(s) && CanWork(s)
    ensures HistoryInv(StepWorker(s))
  {
    WorkerKeepsHistory(s);
    WorkerPops(s);
    hide StepWorker;
    var s' := StepWorker(s);
    if s.worker.Test? && s.q != [] {
      assert s.q == [s.q[0]] + s'.q;
      assert s'.ran[|s.ran|] == s.q[0];
      assert s.q[0] in s.q;
    }
  }

  // ----- the semaphore does not run away

  lemma PostersOthers(s: State, s': State, t: Tid)
    requires OnlyCall(s, s', t)
    ensures Posters(s') == (if Posting(s'.calls[t]) then Posters(s) + {t} else Posters(s) - {t})
  {
  }

  lemma PostersBound(s: State)
    ensures |Posters(s)| <= |s.calls|
  {
    SubsetSize(Posters(s), s.calls.Keys);
  }

  lemma SubsetSize<T>(a: set<T>, b: set<T>)
    requires a <= b
    ensures |a| <= |b|
  {
    assert b == a + (b - a);
  }

  lemma PostsOnce(s: State, pc: Pc)
    ensures Posting(pc) ==> !Posting(NextPc(s, pc))
    ensures Posting(NextPc(s, pc)) ==> s.value <= 0
  {
  }

  lemma CountCall(s: State, t: Tid)
    requires CountInv(s) && CanAdvance(s, t)
    ensures CountInv(StepCall(s, t))
  {
    hide Effect, NextPc, Posting;
    var pc, s' := s.calls[t], StepCall(s, t);
    EffectSemaphore(s, t, pc);
    EffectLock(s, t, pc);
    PostsOnce(s, pc);
    PostersOthers(s, s', t);
    PostersBound(s');
    assert s'.calls.Keys == s.calls.Keys;
    assert Posting(pc) ==> t in Posters(s);
    hide Posters;
  }

  lemma CountBegin(s: State, a: Action)
    requires CountInv(s) && IsBegin(a) && Enabled(s, a)
    ensures CountInv(Apply(s, a))
  {
    var s' := Apply(s, a);
    PostersOthers(s, s', a.tid);
    assert a.tid !in Posters(s);
    assert s'.calls.Keys == s.calls.Keys;
  }

  lemma CountWork(s: State)
    requires CountInv(s) && CanWork(s)
    ensures CountInv(StepWorker(s))
  {
    WorkerKeepsCalls(s);
    assert Posters(StepWorker(s)) == Posters(s);
  }

  // ---------- every reachable state ----------

  lemma InvBegin(s: State, a: Action)
    requires Inv(s) && IsBegin(a) && Enabled(s, a)
    ensures Inv(Apply(s, a))
  {
    hide LockInv, BindInv, AttachedInv, QueueInv, StopInv, SemaphoreInv, WakeInv, StopWakeInv, CountInv, HistoryInv;
    hide Apply, Enabled;
    LockBegin(s, a);
    BindBegin(s, a);
    AttachedBegin(s, a);
    StopBegin(s, a);
    WakeBegin(s, a);
    StopWakeBegin(s, a);
    CountBegin(s, a);
    QueueBegin(s, a);
  }

  lemma QueueBegin(s: State, a: Action)
    requires QueueInv(s) && SemaphoreInv(s) && HistoryInv(s) && IsBegin(a) && Enabled(s, a)
    ensures QueueInv(Apply(s, a)) && SemaphoreInv(Apply(s, a)) && HistoryInv(Apply(s, a))
  {
    hide HistoryInv;
    HistorySame(s, Apply(s, a));
  }

  lemma InvCall(s: State, t: Tid)
    requires Inv(s) && CanAdvance(s, t)
    ensures Inv(StepCall(s, t))
  {
    hide LockInv, BindInv, AttachedInv, QueueInv, StopInv, SemaphoreInv, WakeInv, StopWakeInv, CountInv, HistoryInv;
    hide StepCall;
    LockCall(s, t);
    BindCall(s, t);
    AttachedCall(s, t);
    QueueCall(s, t);
    StopCall(s, t);
    SemaphoreCall(s, t);
    WakeCall(s, t);
    StopWakeCall(s, t);
    HistoryCall(s, t);
    CountCall(s, t);
  }

  lemma InvWork(s: State)
    requires Inv(s) && CanWork(s)
    ensures Inv(StepWorker(s))
  {
    AttachedWork(s);
    hide LockInv, BindInv, AttachedInv, QueueInv, StopInv, SemaphoreInv, WakeInv, StopWakeInv, CountInv, HistoryInv;
    hide StepWorker;
    LockWork(s);
    BindWork(s);
    QueueWork(s);
    StopWork(s);
    SemaphoreWork(s);
    WakeWork(s);
    StopWakeWork(s);
    HistoryWork(s);
    CountWork(s);
  }

  lemma AttachedWork(s: State)
    requires AttachedInv(s) && CanWork(s)
    ensures AttachedInv(StepWorker(s))
  {
    WorkerKeepsCalls(s);
    assert forall i | InTransit(s, i) :: InTransit(StepWorker(s), i);
  }

  lemma InvStart(tids: set<Tid>)
    requires WORKER in tids
    ensures Inv(Start(tids))
  {
    assert Posters(Start(tids)) == {};
  }

  lemma RunLength(tids: set<Tid>, actions: seq<Action>, ss: seq<State>)
    requires IsRun(tids, actions, ss)
    ensures |ss| == |actions| + 1
  {
  }

  /** A run, without its last step, is one, and the last step is possible after it. */
  lemma RunWithoutLast(tids: set<Tid>, actions: seq<Action>, ss: seq<State>)
    requires IsRun(tids, actions, ss) && actions != []
    ensures
      var n := |actions| - 1;
      && IsRun(tids, actions[..n], ss[..n + 1])
      && Enabled(ss[n], actions[n]) && ss[n + 1] == Apply(ss[n], actions[n])
  {
    hide Enabled, Apply;
  }

  lemma {:induction false} InvReachable(tids: set<Tid>, actions: seq<Action>, ss: seq<State>)
    requires IsRun(tids, actions, ss)
    ensures Inv(ss[|actions|])
    decreases |actions|
  {
    hide Inv;
    if actions == [] {
      InvStart(tids);
    } else {
      var n := |actions| - 1;
      InvReachable(tids, actions[..n], ss[..n + 1]);
      assert Enabled(ss[n], actions[n]) && ss[n + 1] == Apply(ss[n], actions[n]);
      match actions[n]
      case Advance(t) => InvCall(ss[n], t);
      case Work => InvWork(ss[n]);
      case _ => InvBegin(ss[n], actions[n]);
    }
  }
}
