/**
 The work queue (platforms/common/px4_work_queue/WorkQueue.cpp and WorkItem.cpp) as a state
 machine over interleaved threads. Any number of caller threads run Attach, Add, Remove and
 Detach; one worker thread runs Run and then the destructor. Every access to shared state is a
 step of its own; in particular the two halves of SignalWorkerThread are.
 */
module WorkQueue {

  type Tid = nat
  type Item = nat

  /** The slot in which the worker thread's own calls run, made from inside an item's Run(). */
  const WORKER: Tid := 0

  datatype Lock = Free | Caller(tid: Tid) | Worker

  /** Where a caller thread is. `detach` tells Deinit's Remove from ScheduleClear's. */
  datatype Pc =
    | Idle
    | AttachLock(item: Item) | AttachTest(item: Item) | AttachUnlock(item: Item, ok: bool) | AttachBind(item: Item)
    | AddLock(item: Item) | AddPush(item: Item) | AddUnlock(item: Item) | AddRead(item: Item) | AddPost(item: Item)
    | RemoveLock(item: Item, detach: bool) | RemoveBody(item: Item, detach: bool) | RemoveUnlock(item: Item, detach: bool)
    | DetachLock(item: Item) | DetachBody(item: Item)
    | DetachWaitExit | DetachStop | DetachRead | DetachPost | DetachUnlock(exiting: bool) | DetachPostExit

  /** Where the worker is: Run, and from WantLock on, the destructor. */
  datatype WorkerPc =
    | Check | Wait | Blocked | WaitLock | Test | UnlockToRun | Running | Relock | Unlock
    | WantLock | WaitExit | Destroy | LastUnlock | Finished

  datatype State = State(
    q: seq<nat>,              // _q, as indices into `log`
    attached: set<Item>,      // _work_items
    bound: set<Item>,         // items whose _wq points to this queue
    lock: Lock,               // _qlock
    value: int,               // _process_lock; negative while the worker waits
    woken: bool,              // a post has released the waiting worker
    exit: int,                // _exit_lock
    stop: bool,               // _should_exit
    destroyed: bool,          // _exit_lock and _process_lock are gone
    worker: WorkerPc,
    calls: map<Tid, Pc>,
    log: seq<Item>,           // history: every push, oldest first
    ran: seq<nat>,            // history: pushes handed to Run(), oldest first
    removed: set<nat>,        // history: pushes taken out by Remove
    exits: nat)               // history: Detach calls that took the exiting path

  /** The constructor's values, with the given caller threads. */
  function Start(tids: set<Tid>): State {
    State([], {}, {}, Free, 0, false, 1, false, false, Check, map t | t in tids :: Idle, [], [], {}, 0)
  }

  datatype Action =
    | BeginAttach(tid: Tid, item: Item) | BeginAdd(tid: Tid, item: Item)
    | BeginClear(tid: Tid, item: Item) | BeginDeinit(tid: Tid, item: Item)
    | Advance(tid: Tid) | Work

  // ---------- what a program counter means ----------

  predicate HoldsLock(pc: Pc) {
    || pc.AttachTest? || pc.AttachUnlock? || pc.AddPush? || pc.AddUnlock?
    || pc.RemoveBody? || pc.RemoveUnlock? || pc.DetachBody? || pc.DetachWaitExit?
    || pc.DetachStop? || pc.DetachRead? || pc.DetachPost? || pc.DetachUnlock?
  }

  predicate WantsLock(pc: Pc) {
    pc.AttachLock? || pc.AddLock? || pc.RemoveLock? || pc.DetachLock?
  }

  predicate WorkerHolds(w: WorkerPc) {
    w.Test? || w.UnlockToRun? || w.Unlock? || w.WaitExit? || w.Destroy? || w.LastUnlock?
  }

  /** Scheduling calls: they need the item to stay bound. */
  predicate Scheduling(pc: Pc) {
    || pc.AddLock? || pc.AddPush? || pc.AddUnlock? || pc.AddRead? || pc.AddPost?
    || (pc.RemoveLock? && !pc.detach) || (pc.RemoveBody? && !pc.detach) || (pc.RemoveUnlock? && !pc.detach)
  }

  predicate Attaching(pc: Pc) { pc.AttachLock? || pc.AttachTest? || pc.AttachUnlock? || pc.AttachBind? }

  /** Deinit, up to the point where the item leaves _work_items. */
  predicate Leaving(pc: Pc) {
    || (pc.RemoveLock? && pc.detach) || (pc.RemoveBody? && pc.detach)
    || (pc.RemoveUnlock? && pc.detach) || pc.DetachLock? || pc.DetachBody?
  }

  /** Deinit after its Remove: the item is no longer queued. */
  predicate Unqueued(pc: Pc) { (pc.RemoveUnlock? && pc.detach) || pc.DetachLock? || pc.DetachBody? }

  predicate On(pc: Pc, i: Item) { (Scheduling(pc) || Attaching(pc) || Leaving(pc)) && pc.item == i }

  /** Pushed, and not yet done with reading and posting _process_lock. */
  predicate Signalling(pc: Pc) { pc.AddUnlock? || pc.AddRead? || pc.AddPost? }

  /** About to post _process_lock. */
  predicate Posting(pc: Pc) { pc.AddPost? || pc.DetachPost? }

  /** On the exiting path of Detach, holding _exit_lock. */
  predicate Exiting(pc: Pc) {
    pc.DetachStop? || pc.DetachRead? || pc.DetachPost? || (pc.DetachUnlock? && pc.exiting) || pc.DetachPostExit?
  }

  /** The worker has been woken and has not yet seen the queue empty. */
  predicate Serving(s: State) {
    || s.worker.WaitLock? || s.worker.Test? || s.worker.UnlockToRun? || s.worker.Running? || s.worker.Relock?
    || (s.worker.Blocked? && s.woken)
  }

  predicate InDestructor(w: WorkerPc) {
    w.WantLock? || w.WaitExit? || w.Destroy? || w.LastUnlock? || w.Finished?
  }

  // ---------- the steps ----------

  predicate CanCall(s: State, t: Tid) {
    t in s.calls && s.calls[t].Idle? && (t == WORKER ==> s.worker.Running?)
  }

  ghost predicate Untouched(s: State, i: Item) {
    forall t | t in s.calls :: !On(s.calls[t], i)
  }

  /**
   Callers synchronize Init and Deinit of an item with all other calls on it; ScheduleNow and
   ScheduleClear look at _wq first and may overlap each other.
   */
  ghost predicate Enabled(s: State, a: Action) {
    match a
    case BeginAttach(t, i) => CanCall(s, t) && i !in s.bound && Untouched(s, i) && s.worker != Finished
    case BeginAdd(t, i) => CanCall(s, t) && i in s.bound
    case BeginClear(t, i) => CanCall(s, t) && i in s.bound
    case BeginDeinit(t, i) => CanCall(s, t) && i in s.bound && Untouched(s, i)
    case Advance(t) => CanAdvance(s, t)
    case Work => CanWork(s)
  }

  predicate CanAdvance(s: State, t: Tid) {
    && t in s.calls && !s.calls[t].Idle?
    && (WantsLock(s.calls[t]) ==> s.lock.Free? && s.worker != Finished)
    && (s.calls[t].DetachWaitExit? ==> s.exit > 0)
  }

  predicate CanWork(s: State) {
    && s.worker != Finished
    && (s.worker.WaitLock? || s.worker.Relock? || s.worker.WantLock? ==> s.lock.Free?)
    && (s.worker.Blocked? ==> s.woken)
    && (s.worker.Running? ==> WORKER in s.calls && s.calls[WORKER].Idle?)
    && (s.worker.WaitExit? ==> s.exit > 0)
  }

  /** px4_sem_post(&_process_lock): a negative value means the worker is waiting, and is released. */
  function Post(s: State): State {
    s.(value := s.value + 1, woken := s.woken || s.value < 0)
  }

  predicate Queued(q: seq<nat>, log: seq<Item>, i: Item) {
    exists k :: k in q && k < |log| && log[k] == i
  }

  /** IntrusiveQueue::push ignores an item that is already queued. */
  function Push(s: State, i: Item): State {
    if Queued(s.q, s.log, i) then s else s.(q := s.q + [|s.log|], log := s.log + [i])
  }

  function Others(q: seq<nat>, log: seq<Item>, i: Item): seq<nat> {
    if q == [] then []
    else
      var rest := Others(q[..|q| - 1], log, i);
      var k := q[|q| - 1];
      if k < |log| && log[k] == i then rest else rest + [k]
  }

  function Matching(q: seq<nat>, log: seq<Item>, i: Item): set<nat> {
    set k | k in q && k < |log| && log[k] == i
  }

  /** IntrusiveQueue::remove */
  function Remove(s: State, i: Item): State {
    s.(q := Others(s.q, s.log, i), removed := s.removed + Matching(s.q, s.log, i))
  }

  predicate Unlocks(pc: Pc) { pc.AttachUnlock? || pc.AddUnlock? || pc.RemoveUnlock? || pc.DetachUnlock? }

  /** Where a call goes next. */
  function NextPc(s: State, pc: Pc): Pc {
    match pc
    case Idle => Idle
    // Attach
    case AttachLock(i) => AttachTest(i)
    case AttachTest(i) => AttachUnlock(i, !s.stop)
    case AttachUnlock(i, ok) => if ok then AttachBind(i) else Idle
    case AttachBind(i) => Idle
    // Add, with SignalWorkerThread
    case AddLock(i) => AddPush(i)
    case AddPush(i) => AddUnlock(i)
    case AddUnlock(i) => AddRead(i)
    case AddRead(i) => if s.value <= 0 then AddPost(i) else Idle
    case AddPost(i) => Idle
    // Remove; Deinit goes on to Detach
    case RemoveLock(i, detach) => RemoveBody(i, detach)
    case RemoveBody(i, detach) => RemoveUnlock(i, detach)
    case RemoveUnlock(i, detach) => if detach then DetachLock(i) else Idle
    // Detach, with SignalWorkerThread
    case DetachLock(i) => DetachBody(i)
    case DetachBody(i) => if s.attached - {i} == {} then DetachWaitExit else DetachUnlock(false)
    case DetachWaitExit => DetachStop
    case DetachStop => DetachRead
    case DetachRead => if s.value <= 0 then DetachPost else DetachUnlock(true)
    case DetachPost => DetachUnlock(true)
    case DetachUnlock(exiting) => if exiting then DetachPostExit else Idle
    case DetachPostExit => Idle
  }

  /** What the call does to the shared state on the way. */
  function Effect(s: State, t: Tid, pc: Pc): State {
    if WantsLock(pc) then s.(lock := Caller(t))
    else if Unlocks(pc) then s.(lock := Free)
    else if Posting(pc) then Post(s)
    else
      match pc
      case AttachTest(i) => if s.stop then s else s.(attached := s.attached + {i})
      case AttachBind(i) => s.(bound := s.bound + {i})
      case AddPush(i) => Push(s, i)
      case RemoveBody(i, _) => Remove(s, i)
      case DetachBody(i) => s.(attached := s.attached - {i})
      case DetachWaitExit => s.(exit := s.exit - 1, exits := s.exits + 1)
      case DetachStop => s.(stop := true)
      case DetachPostExit => s.(exit := s.exit + 1)
      case _ => s
  }

  function StepCall(s: State, t: Tid): State
    requires t in s.calls
  {
    Effect(s, t, s.calls[t]).(calls := s.calls[t := NextPc(s, s.calls[t])])
  }

  function NextWorker(s: State): WorkerPc {
    match s.worker
    case Check => if s.stop then WantLock else Wait
    case Wait => if s.value <= 0 then Blocked else WaitLock
    case Blocked => WaitLock
    case WaitLock => Test
    case Test => if s.q == [] then Unlock else UnlockToRun
    case UnlockToRun => Running
    case Running => Relock
    case Relock => Test
    case Unlock => Check
    case WantLock => WaitExit
    case WaitExit => Destroy
    case Destroy => LastUnlock
    case LastUnlock => Finished
    case Finished => Finished
  }

  function WorkEffect(s: State): State {
    var w := s.worker;
    if w.WaitLock? || w.Relock? || w.WantLock? then s.(lock := Worker)
    else if w.UnlockToRun? || w.Unlock? || w.LastUnlock? then s.(lock := Free)
    else if w.Test? && s.q != [] then s.(q := s.q[1..], ran := s.ran + [s.q[0]])
    else
      match w
      case Wait => s.(value := s.value - 1)
      case Blocked => s.(woken := false)
      case WaitExit => s.(exit := s.exit - 1)
      case Destroy => s.(destroyed := true)
      case _ => s
  }

  function StepWorker(s: State): State { WorkEffect(s).(worker := NextWorker(s)) }

  ghost function Apply(s: State, a: Action): State
    requires Enabled(s, a)
  {
    match a
    case BeginAttach(t, i) => s.(calls := s.calls[t := AttachLock(i)])
    case BeginAdd(t, i) => s.(calls := s.calls[t := AddLock(i)])
    case BeginClear(t, i) => s.(calls := s.calls[t := RemoveLock(i, false)])
    case BeginDeinit(t, i) => s.(calls := s.calls[t := RemoveLock(i, true)], bound := s.bound - {i})
    case Advance(t) => StepCall(s, t)
    case Work => StepWorker(s)
  }

  /** `ss` are the states of a run of the actions `actions` from a fresh queue. */
  ghost predicate IsRun(tids: set<Tid>, actions: seq<Action>, ss: seq<State>) {
    && WORKER in tids
    && |ss| == |actions| + 1
    && ss[0] == Start(tids)
    && forall k | 0 <= k < |actions| :: Enabled(ss[k], actions[k]) && ss[k + 1] == Apply(ss[k], actions[k])
  }
}
